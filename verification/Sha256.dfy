/** SHA-256 as FIPS 180-4 defines it, and the streaming implementation of scripts/mkhash.c: rotating
    register indices, an unrolled round loop with the message schedule computed in between, and a
    buffered context that takes the message in chunks of any size. */
module Sha256 {
  import opened Blocks

  // ---- FIPS 180-4 ----------------------------------------------------------------------------

  /** Addition modulo 2^32. */
  function Plus(x: Word, y: Word): Word { x + y }

  /** Section 4.1.2: the six functions on words. */
  function Ch(x: Word, y: Word, z: Word): Word { (x & y) ^ (!x & z) }
  function Maj(x: Word, y: Word, z: Word): Word { (x & y) ^ (x & z) ^ (y & z) }
  function BigSigma0(x: Word): Word { x.RotateRight(2) ^ x.RotateRight(13) ^ x.RotateRight(22) }
  function BigSigma1(x: Word): Word { x.RotateRight(6) ^ x.RotateRight(11) ^ x.RotateRight(25) }
  function Sigma0(x: Word): Word { x.RotateRight(7) ^ x.RotateRight(18) ^ (x >> 3) }
  function Sigma1(x: Word): Word { x.RotateRight(17) ^ x.RotateRight(19) ^ (x >> 10) }

  /** The round constants as the source lists them; section 4.2.2 says what they are. */
  const ROUND_CONSTANTS: seq<Word> := [
    0x428a2f98, 0x71374491, 0xb5c0fbcf, 0xe9b5dba5,
    0x3956c25b, 0x59f111f1, 0x923f82a4, 0xab1c5ed5,
    0xd807aa98, 0x12835b01, 0x243185be, 0x550c7dc3,
    0x72be5d74, 0x80deb1fe, 0x9bdc06a7, 0xc19bf174,
    0xe49b69c1, 0xefbe4786, 0x0fc19dc6, 0x240ca1cc,
    0x2de92c6f, 0x4a7484aa, 0x5cb0a9dc, 0x76f988da,
    0x983e5152, 0xa831c66d, 0xb00327c8, 0xbf597fc7,
    0xc6e00bf3, 0xd5a79147, 0x06ca6351, 0x14292967,
    0x27b70a85, 0x2e1b2138, 0x4d2c6dfc, 0x53380d13,
    0x650a7354, 0x766a0abb, 0x81c2c92e, 0x92722c85,
    0xa2bfe8a1, 0xa81a664b, 0xc24b8b70, 0xc76c51a3,
    0xd192e819, 0xd6990624, 0xf40e3585, 0x106aa070,
    0x19a4c116, 0x1e376c08, 0x2748774c, 0x34b0bcb5,
    0x391c0cb3, 0x4ed8aa4a, 0x5b9cca4f, 0x682e6ff3,
    0x748f82ee, 0x78a5636f, 0x84c87814, 0x8cc70208,
    0x90befffa, 0xa4506ceb, 0xbef9a3f7, 0xc67178f2
  ]

  function K(t: nat): Word
    requires t < 64
  {
    ROUND_CONSTANTS[t]
  }

  datatype Hash = Hash(a: Word, b: Word, c: Word, d: Word, e: Word, f: Word, g: Word, h: Word)

  /** Section 5.3.3. */
  const INITIAL := Hash(0x6A09E667, 0xBB67AE85, 0x3C6EF372, 0xA54FF53A, 0x510E527F, 0x9B05688C, 0x1F83D9AB, 0x5BE0CD19)

  function Join(b0: Byte, b1: Byte, b2: Byte, b3: Byte): Word {
    ((b0 as Word) << 24) | ((b1 as Word) << 16) | ((b2 as Word) << 8) | (b3 as Word)
  }

  /** Word t of a block, most significant byte first. */
  function WordAt(block: Block, t: nat): Word
    requires t < 16
  {
    Join(block[4 * t], block[4 * t + 1], block[4 * t + 2], block[4 * t + 3])
  }

  /** Section 6.2.2, step 1: the message schedule. */
  function Schedule(block: Block, t: nat): Word {
    if t < 16 then WordAt(block, t)
    else Plus(Plus(Plus(Sigma1(Schedule(block, t - 2)), Schedule(block, t - 7)), Sigma0(Schedule(block, t - 15))), Schedule(block, t - 16))
  }

  function Plus5(x1: Word, x2: Word, x3: Word, x4: Word, x5: Word): Word { x1 + x2 + x3 + x4 + x5 }

  function T1(v: Hash, k: Word, w: Word): Word { Plus5(v.h, BigSigma1(v.e), Ch(v.e, v.f, v.g), k, w) }
  function T2(v: Hash): Word { Plus(BigSigma0(v.a), Maj(v.a, v.b, v.c)) }

  /** Step 3: one round, every register moving one place down. */
  function Round(v: Hash, t1: Word, t2: Word): Hash {
    Hash(Plus(t1, t2), v.a, v.b, v.c, Plus(v.d, t1), v.e, v.f, v.g)
  }

  function Rounds(block: Block, v: Hash, t: nat): Hash
    requires t <= 64
  {
    if t == 0 then v
    else
      var u := Rounds(block, v, t - 1);
      Round(u, T1(u, K(t - 1), Schedule(block, t - 1)), T2(u))
  }

  function Sum(x: Hash, y: Hash): Hash {
    Hash(Plus(x.a, y.a), Plus(x.b, y.b), Plus(x.c, y.c), Plus(x.d, y.d),
         Plus(x.e, y.e), Plus(x.f, y.f), Plus(x.g, y.g), Plus(x.h, y.h))
  }

  /** Steps 2 to 4. */
  function Compress(v: Hash, block: Block): Hash {
    Sum(v, Rounds(block, v, |ROUND_CONSTANTS|))
  }

  function EncodeWord(w: Word): (b: seq<Byte>)
    ensures |b| == 4
  {
    [((w >> 24) & 0xff) as Byte, ((w >> 16) & 0xff) as Byte, ((w >> 8) & 0xff) as Byte, (w & 0xff) as Byte]
  }

  function EncodeAll(words: seq<Word>): (b: seq<Byte>)
    ensures |b| == 4 * |words|
  {
    if words == [] then [] else EncodeWord(words[0]) + EncodeAll(words[1..])
  }

  function Registers(v: Hash): (s: seq<Word>)
    ensures |s| == 8
  {
    [v.a, v.b, v.c, v.d, v.e, v.f, v.g, v.h]
  }

  /** Sections 5.1.1 and 6.2: the hash of a whole message, its length in bits taken modulo 2^64. */
  function Digest(message: seq<Byte>): seq<Byte> {
    EncodeAll(Registers(Fold(Compress, INITIAL, Padded(message, BigEndian(8 * |message| % TWO_TO_THE_64, 8)))))
  }

  // ---- The source's forms of the word functions ------------------------------------------------

  function SourceCh(x: Word, y: Word, z: Word): Word { (x & (y ^ z)) ^ z }
  function SourceMaj(x: Word, y: Word, z: Word): Word { (x & (y | z)) | (y & z) }
  function SourceS0(x: Word): Word { ((x >> 2) | (x << 30)) ^ ((x >> 13) | (x << 19)) ^ ((x >> 22) | (x << 10)) }
  function SourceS1(x: Word): Word { ((x >> 6) | (x << 26)) ^ ((x >> 11) | (x << 21)) ^ ((x >> 25) | (x << 7)) }
  function Sources0(x: Word): Word { ((x >> 7) | (x << 25)) ^ ((x >> 18) | (x << 14)) ^ (x >> 3) }
  function Sources1(x: Word): Word { ((x >> 17) | (x << 15)) ^ ((x >> 19) | (x << 13)) ^ (x >> 10) }

  lemma ChIsCh(x: Word, y: Word, z: Word)
    ensures SourceCh(x, y, z) == Ch(x, y, z)
  {
    assert (x & (y ^ z)) ^ z == (x & y) ^ (!x & z);
  }

  lemma MajIsMaj(x: Word, y: Word, z: Word)
    ensures SourceMaj(x, y, z) == Maj(x, y, z)
  {
    assert (x & (y | z)) | (y & z) == (x & y) ^ (x & z) ^ (y & z);
  }

  lemma S0IsS0(x: Word)
    ensures SourceS0(x) == BigSigma0(x)
  {
  }

  lemma S1IsS1(x: Word)
    ensures SourceS1(x) == BigSigma1(x)
  {
  }

  lemma ScheduleRotations(x: Word)
    ensures Sources0(x) == Sigma0(x) && Sources1(x) == Sigma1(x)
  {
  }

  /** The increments of the round macro: to h and d the schedule word w and the constant k, added to
      each other first, then the rest; and then to h alone. */
  function SourceSum(h: Word, s: Word, c: Word, w: Word, k: Word): Word { h + (s + c + (w + k)) }
  function SourceT1(v: Hash, w: Word, k: Word): Word { SourceSum(v.h, SourceS1(v.e), SourceCh(v.e, v.f, v.g), w, k) }
  function SourceT2(v: Hash): Word { Plus(SourceS0(v.a), SourceMaj(v.a, v.b, v.c)) }

  lemma Regroup(h: Word, s: Word, c: Word, w: Word, k: Word)
    ensures SourceSum(h, s, c, w, k) == Plus5(h, s, c, k, w)
  {
  }

  lemma T1Agrees(v: Hash, k: Word, w: Word)
    ensures SourceT1(v, w, k) == T1(v, k, w)
  {
    S1IsS1(v.e);
    ChIsCh(v.e, v.f, v.g);
    Regroup(v.h, BigSigma1(v.e), Ch(v.e, v.f, v.g), w, k);
  }

  lemma T2Agrees(v: Hash)
    ensures SourceT2(v) == T2(v)
  {
    S0IsS0(v.a);
    MajIsMaj(v.a, v.b, v.c);
  }

  // ---- The implementation ------------------------------------------------------------------------

  /** Where register k of the standard is kept after i rounds. */
  function Place(i: nat, k: nat): (p: nat)
    requires i <= 16
    ensures p < 8
  {
    (64 + k - i) % 8
  }

  lemma PlacesTurn(i: nat, k: nat)
    requires i < 16
    ensures Place(i + 1, k + 1) == Place(i, k) && Place(i + 1, 0) == Place(i, 7)
  {
    assert 64 + (k + 1) - (i + 1) == 64 + k - i;
  }

  lemma PlacesDiffer(i: nat, j: nat, k: nat)
    requires i <= 16 && j < k < 8
    ensures Place(i, j) != Place(i, k)
  {
  }

  function View(s: seq<Word>, i: nat): Hash
    requires |s| == 8 && i <= 16
  {
    Hash(s[Place(i, 0)], s[Place(i, 1)], s[Place(i, 2)], s[Place(i, 3)],
         s[Place(i, 4)], s[Place(i, 5)], s[Place(i, 6)], s[Place(i, 7)])
  }

  ghost predicate Scheduled(w: array<Word>, block: Block, n: nat)
    reads w
  {
    w.Length == 64 && n <= 64 && forall t | 0 <= t < n :: w[t] == Schedule(block, t)
  }

  lemma ViewReturns(s: seq<Word>)
    requires |s| == 8
    ensures View(s, 16) == View(s, 0) == Load(s)
  {
  }

  /** Writing d and h in place is one turn of the registers. */
  lemma Turned(s: seq<Word>, i: nat, d: Word, h: Word)
    requires |s| == 8 && i < 16
    ensures var v := View(s, i);
      View(s[Place(i, 3) := d][Place(i, 7) := h], i + 1) == Hash(h, v.a, v.b, v.c, d, v.e, v.f, v.g)
  {
    forall k | 0 <= k < 8 {
      PlacesTurn(i, k);
    }
    forall j, k | 0 <= j < k < 8 {
      PlacesDiffer(i, j, k);
    }
  }

  /** The round macro: the registers are the places of the array named by its parameters. */
  method Rnd(s: array<Word>, a: nat, b: nat, c: nat, d: nat, e: nat, f: nat, g: nat, h: nat, w: Word, k: Word,
             ghost v: Hash)
    requires s.Length == 8 && a < 8 && b < 8 && c < 8 && d < 8 && e < 8 && f < 8 && g < 8 && h < 8
    requires d != h && a != d && a != h && b != d && b != h && c != d && c != h
    requires v == Hash(s[a], s[b], s[c], s[d], s[e], s[f], s[g], s[h])
    modifies s
    ensures s[..] == old(s[..])[d := Plus(v.d, T1(v, k, w))][h := Plus(T1(v, k, w), T2(v))]
  {
    T1Agrees(v, k, w);
    T2Agrees(v);
    s[h] := SourceSum(s[h], SourceS1(s[e]), SourceCh(s[e], s[f], s[g]), w, k);
    assert s[h] == T1(v, k, w);
    s[d] := Plus(s[d], s[h]);
    assert s[d] == Plus(v.d, T1(v, k, w));
    s[h] := Plus(s[h], Plus(SourceS0(s[a]), SourceMaj(s[a], s[b], s[c])));
    assert s[h] == Plus(T1(v, k, w), T2(v));
  }

  /** After i rounds of the group that starts with round ii, of the compression that started with v. */
  ghost predicate InRound(s: array<Word>, w: array<Word>, i: nat, ii: nat, block: Block, v: Hash)
    reads s, w
  {
    && s.Length == 8 && i <= 16 && Scheduled(w, block, ii + 16)
    && View(s[..], i) == Rounds(block, v, i + ii)
  }

  /** One round with the registers addressed by rotation. */
  method RoundRotated(s: array<Word>, w: array<Word>, i: nat, ii: nat, ghost block: Block, ghost v: Hash)
    requires i < 16 && InRound(s, w, i, ii, block, v)
    modifies s
    ensures InRound(s, w, i + 1, ii, block, v)
  {
    ghost var u := View(s[..], i);
    ghost var t1 := T1(u, K(i + ii), w[i + ii]);
    Turned(s[..], i, Plus(u.d, t1), Plus(t1, T2(u)));
    forall j, k | 0 <= j < k < 8 {
      PlacesDiffer(i, j, k);
    }
    Rnd(s, Place(i, 0), Place(i, 1), Place(i, 2), Place(i, 3), Place(i, 4), Place(i, 5), Place(i, 6), Place(i, 7),
        w[i + ii], K(i + ii), u);
  }

  /** One word of the message schedule. */
  method ScheduleWord(w: array<Word>, i: nat, ii: nat, ghost block: Block)
    requires i + ii + 16 < 64 && Scheduled(w, block, i + ii + 16)
    modifies w
    ensures Scheduled(w, block, i + ii + 17)
  {
    var t := i + ii;
    ScheduleRotations(w[t + 14]);
    ScheduleRotations(w[t + 1]);
    w[t + 16] := Plus(Plus(Plus(Sources1(w[t + 14]), w[t + 9]), Sources0(w[t + 1])), w[t]);
  }

  /** Two bytes and four bytes as a number, most significant first. */
  function Decode16(b0: Byte, b1: Byte): bv16 { ((b0 as bv16) << 8) | (b1 as bv16) }
  function Decode32(b0: Byte, b1: Byte, b2: Byte, b3: Byte): Word {
    ((Decode16(b0, b1) as Word) << 16) | (Decode16(b2, b3) as Word)
  }

  lemma Decode32Joins(b0: Byte, b1: Byte, b2: Byte, b3: Byte)
    ensures Decode32(b0, b1, b2, b3) == Join(b0, b1, b2, b3)
  {
  }

  method DecodeWords(w: array<Word>, block: Block)
    requires w.Length == 64
    modifies w
    ensures Scheduled(w, block, 16)
  {
    for i := 0 to 16
      invariant Scheduled(w, block, i)
    {
      w[i] := Decode32(block[i * 4], block[i * 4 + 1], block[i * 4 + 2], block[i * 4 + 3]);
      Decode32Joins(block[i * 4], block[i * 4 + 1], block[i * 4 + 2], block[i * 4 + 3]);
    }
  }

  /** The sixteen rounds written out, in two halves; after them the registers are back in their first
      places. */
  method SixteenRounds(s: array<Word>, w: array<Word>, k: nat, i: nat, ghost block: Block, ghost v: Hash)
    requires k + 16 <= 16 && InRound(s, w, k, i, block, v)
    modifies s
    ensures InRound(s, w, k + 16, i, block, v)
  {
    EightRounds(s, w, k, i, block, v);
    EightRounds(s, w, k + 8, i, block, v);
  }

  /** Seen from outside the registers have not turned. */
  method RoundGroup(s: array<Word>, w: array<Word>, i: nat, ghost block: Block, ghost v: Hash)
    requires i + 16 <= 64 && s.Length == 8 && Scheduled(w, block, i + 16) && Load(s[..]) == Rounds(block, v, i)
    modifies s
    ensures Load(s[..]) == Rounds(block, v, i + 16)
  {
    ViewReturns(s[..]);
    SixteenRounds(s, w, 0, i, block, v);
    ViewReturns(s[..]);
  }

  method EightRounds(s: array<Word>, w: array<Word>, k: nat, i: nat, ghost block: Block, ghost v: Hash)
    requires k + 8 <= 16 && InRound(s, w, k, i, block, v)
    modifies s
    ensures InRound(s, w, k + 8, i, block, v)
  {
    RoundRotated(s, w, k, i, block, v);
    RoundRotated(s, w, k + 1, i, block, v);
    RoundRotated(s, w, k + 2, i, block, v);
    RoundRotated(s, w, k + 3, i, block, v);
    RoundRotated(s, w, k + 4, i, block, v);
    RoundRotated(s, w, k + 5, i, block, v);
    RoundRotated(s, w, k + 6, i, block, v);
    RoundRotated(s, w, k + 7, i, block, v);
  }

  method SixteenScheduleWords(w: array<Word>, i: nat, ghost block: Block)
    requires i + 32 <= 64 && Scheduled(w, block, i + 16)
    modifies w
    ensures Scheduled(w, block, i + 32)
  {
    ScheduleWord(w, 0, i, block);
    ScheduleWord(w, 1, i, block);
    ScheduleWord(w, 2, i, block);
    ScheduleWord(w, 3, i, block);
    ScheduleWord(w, 4, i, block);
    ScheduleWord(w, 5, i, block);
    ScheduleWord(w, 6, i, block);
    ScheduleWord(w, 7, i, block);
    ScheduleWord(w, 8, i, block);
    ScheduleWord(w, 9, i, block);
    ScheduleWord(w, 10, i, block);
    ScheduleWord(w, 11, i, block);
    ScheduleWord(w, 12, i, block);
    ScheduleWord(w, 13, i, block);
    ScheduleWord(w, 14, i, block);
    ScheduleWord(w, 15, i, block);
  }

  function Load(state: seq<Word>): Hash
    requires |state| == 8
  {
    Hash(state[0], state[1], state[2], state[3], state[4], state[5], state[6], state[7])
  }

  lemma LoadedRegisters(state: seq<Word>)
    requires |state| == 8
    ensures Registers(Load(state)) == state
  {
  }

  /** SHA256_Transform is the compression function of section 6.2.2. */
  method Transform(state: array<Word>, block: Block)
    requires state.Length == 8
    modifies state
    ensures Load(state[..]) == Compress(old(Load(state[..])), block)
  {
    var w, s := new Word[64], new Word[8];
    ghost var v := Load(state[..]);
    DecodeWords(w, block);
    forall k | 0 <= k < 8 {
      s[k] := state[k];
    }
    var i := 0;
    while true
      invariant i == 0 || i == 16 || i == 32 || i == 48
      invariant Scheduled(w, block, i + 16) && Load(s[..]) == Rounds(block, v, i)
      invariant Load(state[..]) == v
      decreases 64 - i
    {
      RoundGroup(s, w, i, block, v);
      if i == 48 {
        break;
      }
      SixteenScheduleWords(w, i, block);
      i := i + 16;
    }
    AddInto(state, s);
  }

  method AddInto(state: array<Word>, s: array<Word>)
    requires state.Length == s.Length == 8 && state != s
    modifies state
    ensures Load(state[..]) == Sum(old(Load(state[..])), Load(s[..]))
  {
    for i := 0 to 8
      invariant forall k | 0 <= k < i :: state[k] == Plus(old(state[k]), s[k])
      invariant forall k | i <= k < 8 :: state[k] == old(state[k])
    {
      state[i] := Plus(state[i], s[i]);
    }
  }

  class Context {
    const state: array<Word>
    const buf: array<Byte>
    var count: int                            // bits taken, modulo 2^64
    ghost var message: seq<Byte>              // all bytes taken
    ghost const hashed: seq<Byte> -> Hash     // the hash of complete blocks

    /** The state is the hash of the complete blocks taken, the buffer starts with the rest, and the
        count is the message length. */
    ghost predicate Valid()
      reads this, state, buf
    {
      && state.Length == 8 && buf.Length == 64
      && count == 8 * |message| % TWO_TO_THE_64
      && IsFold(Compress, INITIAL, hashed) && Load(state[..]) == hashed(Complete(message))
      && buf[..|message| % 64] == Tail(message)
    }

    constructor ()
      ensures Valid() && message == [] && fresh(state) && fresh(buf)
    {
      state := new Word[8] [0x6A09E667, 0xBB67AE85, 0x3C6EF372, 0xA54FF53A, 0x510E527F, 0x9B05688C, 0x1F83D9AB, 0x5BE0CD19];
      buf := new Byte[64];
      count, message := 0, [];
      hashed := FoldFrom(Compress, INITIAL);
      new;
      FoldFromIsFold(Compress, INITIAL);
    }

    /** One more block into the state. */
    method Absorb(block: Block, ghost done: seq<Byte>)
      requires state.Length == 8 && |done| % 64 == 0 && IsFold(Compress, INITIAL, hashed) && Load(state[..]) == hashed(done)
      modifies state
      ensures Load(state[..]) == hashed(done + block)
    {
      Transform(state, block);
      FoldStep(Compress, INITIAL, hashed, done, block);
    }

    /** The loop over the complete blocks of the input. */
    method AbsorbBlocks(src: seq<Byte>, ghost done: seq<Byte>) returns (rest: seq<Byte>)
      requires state.Length == 8 && |done| % 64 == 0 && IsFold(Compress, INITIAL, hashed) && Load(state[..]) == hashed(done)
      modifies state
      ensures rest == Tail(src) && Load(state[..]) == hashed(done + Complete(src))
    {
      rest := src;
      ghost var i := 0;
      assert done + src[..0] == done;
      while |rest| >= 64
        invariant i % 64 == 0 && i <= |src| && rest == src[i..]
        invariant Load(state[..]) == hashed(done + src[..i])
      {
        Absorb(rest[..64], done + src[..i]);
        assert done + src[..i] + rest[..64] == done + src[..i + 64];
        rest := rest[64..];
        i := i + 64;
      }
    }

    /** The number of bytes buffered is read off the bit count before that is advanced. */
    method AddCount(size: nat, ghost n: nat) returns (r: nat)
      requires count == 8 * n % TWO_TO_THE_64
      modifies this`count
      ensures r == n % 64 && count == 8 * (n + size) % TWO_TO_THE_64
    {
      BufferedBytes(n);
      r := count / 8 % 64;
      var bitlen := 8 * size % TWO_TO_THE_64;
      BitsAdd(n, size);
      count := (count + bitlen) % TWO_TO_THE_64;
    }

    /** The bytes are taken, whatever is buffered and however many they are. */
    method Update(src: seq<Byte>)
      requires Valid()
      modifies this, state, buf
      ensures Valid() && message == old(message) + src
    {
      ghost var was := message;
      var r := AddCount(|src|, |was|);
      message := was + src;
      Take(src, r, was);
    }

    /** The bytes go into the buffer, or through it. */
    method Take(src: seq<Byte>, r: nat, ghost was: seq<Byte>)
      requires state.Length == 8 && buf.Length == 64 && r == |Tail(was)| && IsFold(Compress, INITIAL, hashed)
      requires Load(state[..]) == hashed(Complete(was)) && buf[..r] == Tail(was)
      modifies state, buf
      ensures Load(state[..]) == hashed(Complete(was + src)) && buf[..|Tail(was + src)|] == Tail(was + src)
    {
      if |src| < 64 - r {
        CopyInto(buf, r, src);
        TailGrows(was, src);
      } else {
        FillBlock(src, r, was);
      }
    }

    /** The buffered block is completed, the complete blocks of the input follow, the rest is kept. */
    method FillBlock(src: seq<Byte>, r: nat, ghost was: seq<Byte>)
      requires state.Length == 8 && buf.Length == 64 && r < 64 && IsFold(Compress, INITIAL, hashed)
      requires Load(state[..]) == hashed(Complete(was)) && buf[..r] == Tail(was) && |src| >= 64 - r
      modifies state, buf
      ensures Load(state[..]) == hashed(Complete(was + src)) && buf[..|Tail(was + src)|] == Tail(was + src)
    {
      var first, rest := src[..64 - r], src[64 - r..];
      CopyInto(buf, r, first);
      BlocksGrow(was, first);
      assert buf[..] == Tail(was) + first;
      Absorb(buf[..], Complete(was));
      assert Complete(was + first) == was + first;
      assert was + src == was + first + rest;
      CompleteAppend(was + first, rest);
      rest := AbsorbBlocks(rest, was + first);
      CopyInto(buf, 0, rest);
    }

    /** The buffer is padded up to the length field; one more block is filled on the way when the
        field does not fit behind the message. */
    method PadToLength(r: nat, ghost field: seq<Byte>) returns (ghost done: seq<Byte>)
      requires Valid() && r == |message| % 64 && |field| == 8
      modifies state, buf
      ensures |done| % 64 == 0 && Load(state[..]) == hashed(done)
      ensures Padded(message, field) == done + (buf[..56] + field)
    {
      done := Complete(message);
      var pad := [0x80] + Zeros(63);
      if r < 56 {
        PaddedInOne(message, field);
        CopyInto(buf, r, pad[..56 - r]);
        assert buf[..56] == Tail(message) + pad[..56 - r];
      } else {
        PaddedInTwo(message, field);
        done := FillLast(r, pad);
      }
    }

    /** The current block is finished and mixed in; the final one starts with zeroes. */
    method FillLast(r: nat, pad: seq<Byte>) returns (ghost done: seq<Byte>)
      requires Valid() && r == |message| % 64 && |pad| == 64
      modifies state, buf
      ensures done == Complete(message) + (Tail(message) + pad[..64 - r])
      ensures |done| % 64 == 0 && Load(state[..]) == hashed(done) && buf[..56] == Zeros(56)
    {
      CopyInto(buf, r, pad[..64 - r]);
      assert buf[..] == Tail(message) + pad[..64 - r];
      Absorb(buf[..], Complete(message));
      done := Complete(message) + (Tail(message) + pad[..64 - r]);
      CopyInto(buf, 0, Zeros(56));
    }

    /** Padding, with the length in bits at the end. */
    method Pad()
      requires Valid()
      modifies state, buf
      ensures Load(state[..]) == hashed(Padded(message, BigEndian(count, 8)))
    {
      BufferedBytes(|message|);
      ghost var field := BigEndian(count, 8);
      ghost var done := PadToLength(count / 8 % 64, field);
      PutLength(buf, count);
      Absorb(buf[..], done);
    }

    /** The digest of everything taken; the context is cleared. */
    method Final() returns (digest: seq<Byte>)
      requires Valid()
      modifies this, state, buf
      ensures digest == Digest(old(message))
      ensures count == 0 && (forall i | 0 <= i < 8 :: state[i] == 0) && (forall i | 0 <= i < 64 :: buf[i] == 0)
    {
      Pad();
      DigestIs(message, hashed, Load(state[..]));
      LoadedRegisters(state[..]);
      digest := EncodeWords(state);
      Clear();
    }

    method Clear()
      requires state.Length == 8 && buf.Length == 64
      modifies this, state, buf
      ensures count == 0 && (forall i | 0 <= i < 8 :: state[i] == 0) && (forall i | 0 <= i < 64 :: buf[i] == 0)
    {
      forall i | 0 <= i < 8 {
        state[i] := 0;
      }
      forall i | 0 <= i < 64 {
        buf[i] := 0;
      }
      count := 0;
    }
  }

  lemma DigestIs(message: seq<Byte>, hashed: seq<Byte> -> Hash, v: Hash)
    requires IsFold(Compress, INITIAL, hashed)
    requires v == hashed(Padded(message, BigEndian(8 * |message| % TWO_TO_THE_64, 8)))
    ensures EncodeAll(Registers(v)) == Digest(message)
  {
    var padded := Padded(message, BigEndian(8 * |message| % TWO_TO_THE_64, 8));
    OnlyFold(Compress, INITIAL, hashed, [], padded);
    assert [] + padded == padded;
  }

  /** The words of the state written out most significant byte first. */
  method EncodeWords(state: array<Word>) returns (digest: seq<Byte>)
    ensures digest == EncodeAll(state[..])
  {
    digest := [];
    for i := 0 to state.Length
      invariant digest + EncodeAll(state[i..]) == EncodeAll(state[..])
    {
      assert state[i..][1..] == state[i + 1..];
      digest := digest + EncodeWord(state[i]);
    }
  }

  /** The number written most significant byte first, in two halves of four bytes. */
  method PutLength(buf: array<Byte>, u: int)
    requires buf.Length == 64 && 0 <= u < TWO_TO_THE_64
    modifies buf
    ensures buf[..] == old(buf[..56]) + BigEndian(u, 8)
  {
    PutWord(buf, 56, u / 0x1_0000_0000);
    PutWord(buf, 60, u % 0x1_0000_0000);
    BigEndianHalves(u, 4);
  }

  method PutWord(buf: array<Byte>, at: nat, u: int)
    requires at + 4 <= buf.Length && 0 <= u < 0x1_0000_0000
    modifies buf
    ensures buf[..] == old(buf[..at]) + BigEndian(u, 4) + old(buf[at + 4..])
  {
    buf[at] := (u / 0x100_0000) as Byte;
    buf[at + 1] := (u / 0x1_0000 % 256) as Byte;
    buf[at + 2] := (u / 0x100 % 256) as Byte;
    buf[at + 3] := (u % 256) as Byte;
    FourBytes(u);
  }

  lemma FourBytes(u: nat)
    requires u < 0x1_0000_0000
    ensures BigEndian(u, 4)
         == [(u / 0x100_0000) as Byte, (u / 0x1_0000 % 256) as Byte, (u / 0x100 % 256) as Byte, (u % 256) as Byte]
  {
    LowBytes(u, 0);
    var top := u / 0x100_0000;
    assert 0 <= top < 256;
    ModUnique(top, 256, 0, top);
  }

  lemma BigEndianHalves(u: nat, more: nat)
    ensures BigEndian(u, more + 4) == BigEndian(u / 0x1_0000_0000, more) + BigEndian(u % 0x1_0000_0000, 4)
  {
    LowBytes(u, more);
    LowBytesOnly(u);
    ReversedAppend(LittleEndian(u % 0x1_0000_0000, 4), LittleEndian(u / 0x1_0000_0000, more));
  }

  /** A file read in any chunks has the standard's hash of its whole contents. */
  method HashChunks(chunks: seq<seq<Byte>>) returns (digest: seq<Byte>)
    ensures digest == Digest(Concat(chunks))
  {
    var ctx := new Context();
    for i := 0 to |chunks|
      invariant ctx.Valid() && fresh(ctx) && fresh(ctx.state) && fresh(ctx.buf)
      invariant ctx.message == Concat(chunks[..i])
    {
      ctx.Update(chunks[i]);
      assert chunks[..i + 1][..i] == chunks[..i];
    }
    assert chunks[..|chunks|] == chunks;
    digest := ctx.Final();
  }
}
