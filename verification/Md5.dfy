/** MD5 as RFC 1321 defines it, and the streaming implementation of scripts/mkhash.c: written-out steps
    on four registers that change places, a length kept in two halves, and a buffered context. */
module Md5 {
  import opened Blocks

  // ---- RFC 1321 ------------------------------------------------------------------------------

  datatype Regs = Regs(a: Word, b: Word, c: Word, d: Word)

  /** Section 3.3. */
  const INITIAL := Regs(0x67452301, 0xefcdab89, 0x98badcfe, 0x10325476)

  type ShiftAmount = s: nat | s <= 32

  function Rotate(x: Word, s: ShiftAmount): Word {
    (x << s) | (x >> (32 - s))
  }

  /** The table and the shifts repeat in rows of four. */
  datatype Four<T> = Four(p: T, q: T, r: T, s: T) {
    function At(j: nat): T
      requires j < 4
    {
      if j == 0 then p else if j == 1 then q else if j == 2 then r else s
    }
  }

  /** Section 3.4: the auxiliary function of each round, the table T of sines, and for each of the 64
      operations [abcd k s i] the values of k and s. */
  function Auxiliary(round: nat, x: Word, y: Word, z: Word): Word {
    if round == 0 then (x & y) | (!x & z)
    else if round == 1 then (x & z) | (y & !z)
    else if round == 2 then x ^ y ^ z
    else y ^ (x | !z)
  }

  const SINES: seq<Four<Word>> := [
    Four(0xd76aa478, 0xe8c7b756, 0x242070db, 0xc1bdceee),
    Four(0xf57c0faf, 0x4787c62a, 0xa8304613, 0xfd469501),
    Four(0x698098d8, 0x8b44f7af, 0xffff5bb1, 0x895cd7be),
    Four(0x6b901122, 0xfd987193, 0xa679438e, 0x49b40821),
    Four(0xf61e2562, 0xc040b340, 0x265e5a51, 0xe9b6c7aa),
    Four(0xd62f105d, 0x02441453, 0xd8a1e681, 0xe7d3fbc8),
    Four(0x21e1cde6, 0xc33707d6, 0xf4d50d87, 0x455a14ed),
    Four(0xa9e3e905, 0xfcefa3f8, 0x676f02d9, 0x8d2a4c8a),
    Four(0xfffa3942, 0x8771f681, 0x6d9d6122, 0xfde5380c),
    Four(0xa4beea44, 0x4bdecfa9, 0xf6bb4b60, 0xbebfbc70),
    Four(0x289b7ec6, 0xeaa127fa, 0xd4ef3085, 0x04881d05),
    Four(0xd9d4d039, 0xe6db99e5, 0x1fa27cf8, 0xc4ac5665),
    Four(0xf4292244, 0x432aff97, 0xab9423a7, 0xfc93a039),
    Four(0x655b59c3, 0x8f0ccc92, 0xffeff47d, 0x85845dd1),
    Four(0x6fa87e4f, 0xfe2ce6e0, 0xa3014314, 0x4e0811a1),
    Four(0xf7537e82, 0xbd3af235, 0x2ad7d2bb, 0xeb86d391)
  ]

  function Sine(i: nat): Word
    requires i < 64
  {
    SINES[i / 4].At(i % 4)
  }

  type WordIndex = k: nat | k < 16

  const INDEXES: seq<Four<WordIndex>> := [
    Four(0, 1, 2, 3), Four(4, 5, 6, 7), Four(8, 9, 10, 11), Four(12, 13, 14, 15),
    Four(1, 6, 11, 0), Four(5, 10, 15, 4), Four(9, 14, 3, 8), Four(13, 2, 7, 12),
    Four(5, 8, 11, 14), Four(1, 4, 7, 10), Four(13, 0, 3, 6), Four(9, 12, 15, 2),
    Four(0, 7, 14, 5), Four(12, 3, 10, 1), Four(8, 15, 6, 13), Four(4, 11, 2, 9)
  ]

  function Index(i: nat): WordIndex
    requires i < 64
  {
    INDEXES[i / 4].At(i % 4)
  }

  lemma IndexesInOrder(i: nat)
    requires 0 <= i < 16
    ensures Index(i) == (i) % 16
  {
    var r := i / 4;
    assert i == 4 * r + i % 4;
    if r == 0 {} else if r == 1 {} else if r == 2 {} else {}
  }

  lemma IndexesByFive(i: nat)
    requires 16 <= i < 32
    ensures Index(i) == (5 * i + 1) % 16
  {
    var r := i / 4;
    assert i == 4 * r + i % 4;
    if r == 4 {} else if r == 5 {} else if r == 6 {} else {}
  }

  lemma IndexesByThree(i: nat)
    requires 32 <= i < 48
    ensures Index(i) == (3 * i + 5) % 16
  {
    var r := i / 4;
    assert i == 4 * r + i % 4;
    if r == 8 {} else if r == 9 {} else if r == 10 {} else {}
  }

  lemma IndexesBySeven(i: nat)
    requires 48 <= i < 64
    ensures Index(i) == (7 * i) % 16
  {
    var r := i / 4;
    assert i == 4 * r + i % 4;
    if r == 12 {} else if r == 13 {} else if r == 14 {} else {}
  }

  /** The words are taken in steps of 1, 5, 3 and 7. */
  lemma IndexSteps(i: nat)
    requires i < 64
    ensures Index(i) == [i, 5 * i + 1, 3 * i + 5, 7 * i][i / 16] % 16
  {
    if i < 16 {
      IndexesInOrder(i);
    } else if i < 32 {
      IndexesByFive(i);
    } else if i < 48 {
      IndexesByThree(i);
    } else {
      IndexesBySeven(i);
    }
  }

  const SHIFTS: seq<Four<ShiftAmount>> := [Four(7, 12, 17, 22), Four(5, 9, 14, 20), Four(4, 11, 16, 23), Four(6, 10, 15, 21)]

  function Shift(i: nat): ShiftAmount
    requires i < 64
  {
    SHIFTS[i / 16].At(i % 4)
  }

  /** Word k of a block, least significant byte first (section 2). */
  function WordAt(block: Block, k: WordIndex): Word {
    (block[4 * k] as Word) | ((block[4 * k + 1] as Word) << 8) | ((block[4 * k + 2] as Word) << 16)
    | ((block[4 * k + 3] as Word) << 24)
  }

  function Plus(x: Word, y: Word): Word { x + y }
  function Plus4(x1: Word, x2: Word, x3: Word, x4: Word): Word { x1 + x2 + x3 + x4 }

  /** a = b + ((a + f(b,c,d) + X[k] + T[i]) <<< s), and the registers change their names. */
  function Step(v: Regs, block: Block, i: nat): Regs
    requires i < 64
  {
    var sum := Plus4(v.a, Auxiliary(i / 16, v.b, v.c, v.d), WordAt(block, Index(i)), Sine(i));
    Regs(v.d, Plus(v.b, Rotate(sum, Shift(i))), v.b, v.c)
  }

  function Steps(block: Block, v: Regs, i: nat): Regs
    requires i <= 64
  {
    if i == 0 then v else Step(Steps(block, v, i - 1), block, i - 1)
  }

  function Compress(v: Regs, block: Block): Regs {
    var w := Steps(block, v, 4 * |SINES|);
    Regs(Plus(v.a, w.a), Plus(v.b, w.b), Plus(v.c, w.c), Plus(v.d, w.d))
  }

  function EncodeWord(w: Word): (b: seq<Byte>)
    ensures |b| == 4
  {
    [(w & 0xff) as Byte, ((w >> 8) & 0xff) as Byte, ((w >> 16) & 0xff) as Byte, ((w >> 24) & 0xff) as Byte]
  }

  function Encode(v: Regs): (b: seq<Byte>)
    ensures |b| == 16
  {
    EncodeWord(v.a) + EncodeWord(v.b) + EncodeWord(v.c) + EncodeWord(v.d)
  }

  /** Sections 3.1, 3.2, 3.4 and 3.5: the digest of a whole message, of whose length in bits the low
      64 are appended. */
  function Digest(message: seq<Byte>): seq<Byte> {
    Encode(Fold(Compress, INITIAL, Padded(message, LittleEndian(8 * |message| % TWO_TO_THE_64, 8))))
  }

  // ---- The implementation ----------------------------------------------------------------------

  /** The source's macros for the auxiliary functions; the third round uses two forms in turn. */
  datatype Macro = F | G | H | H2 | I {
    function Apply(x: Word, y: Word, z: Word): Word {
      match this
      case F => z ^ (x & (y ^ z))
      case G => y ^ (z & (x ^ y))
      case H => (x ^ y) ^ z
      case H2 => x ^ (y ^ z)
      case I => y ^ (x | !z)
    }
  }

  predicate Rounds(f: Macro, round: nat) {
    match f
    case F => round == 0
    case G => round == 1
    case H => round == 2
    case H2 => round == 2
    case I => round == 3
  }

  lemma FIsF(x: Word, y: Word, z: Word)
    ensures F.Apply(x, y, z) == Auxiliary(0, x, y, z)
  {
    assert z ^ (x & (y ^ z)) == (x & y) | (!x & z);
  }

  lemma GIsG(x: Word, y: Word, z: Word)
    ensures G.Apply(x, y, z) == Auxiliary(1, x, y, z)
  {
    assert y ^ (z & (x ^ y)) == (x & z) | (y & !z);
  }

  lemma HIsH(x: Word, y: Word, z: Word)
    ensures H.Apply(x, y, z) == H2.Apply(x, y, z) == Auxiliary(2, x, y, z)
  {
    assert x ^ (y ^ z) == x ^ y ^ z;
  }

  lemma MacroIsAuxiliary(f: Macro, round: nat, x: Word, y: Word, z: Word)
    requires Rounds(f, round)
    ensures f.Apply(x, y, z) == Auxiliary(round, x, y, z)
  {
    match f
    case F => FIsF(x, y, z);
    case G => GIsG(x, y, z);
    case H => HIsH(x, y, z);
    case H2 => HIsH(x, y, z);
    case I =>
  }

  function SourceSum(a: Word, f: Word, x: Word, t: Word): Word { a + (f + x + t) }

  lemma Regroup(a: Word, f: Word, x: Word, t: Word)
    ensures SourceSum(a, f, x, t) == Plus4(a, f, x, t)
  {
  }

  lemma PlusCommutes(x: Word, y: Word)
    ensures Plus(x, y) == Plus(y, x)
  {
  }

  /** What an operation of the source has to name to be operation i of the standard. */
  ghost predicate IsOperation(i: nat, f: Macro, k: WordIndex, t: Word, s: ShiftAmount) {
    i < 64 && Rounds(f, i / 16) && k == Index(i) && t == Sine(i) && s == Shift(i)
  }

  /** The registers before each operation. */
  ghost predicate IsRun(at: nat -> Regs, block: Block) {
    forall i: nat {:trigger Step(at(i), block, i)} :: i < 64 ==> at(i + 1) == Step(at(i), block, i)
  }

  lemma StepsAreRun(block: Block, v: Regs, at: nat -> Regs)
    requires forall i: nat | i <= 64 :: at(i) == Steps(block, v, i)
    ensures IsRun(at, block)
  {
  }

  /** One STEP: a is replaced. */
  method SourceStep(f: Macro, a: Word, b: Word, c: Word, d: Word, k: WordIndex, t: Word, s: ShiftAmount,
                    block: Block, ghost at: nat -> Regs, ghost i: nat)
    returns (r: Word)
    requires IsOperation(i, f, k, t, s) && IsRun(at, block) && at(i) == Regs(a, b, c, d)
    ensures at(i + 1) == Regs(d, r, b, c)
  {
    MacroIsAuxiliary(f, i / 16, b, c, d);
    Regroup(a, f.Apply(b, c, d), WordAt(block, k), t);
    r := SourceSum(a, f.Apply(b, c, d), WordAt(block, k), t);
    r := Rotate(r, s);
    PlusCommutes(r, b);
    r := Plus(r, b);
    assert Step(at(i), block, i) == Regs(d, r, b, c);
  }

  /** What a row of four STEPs has to name to be operations i to i + 3. */
  ghost predicate IsRow(i: nat, even: Macro, odd: Macro, k: Four<WordIndex>, t: Four<Word>, s: Four<ShiftAmount>) {
    && i % 4 == 0 && i < 64 && Rounds(even, i / 16) && Rounds(odd, i / 16)
    && k == INDEXES[i / 4] && t == SINES[i / 4] && s == SHIFTS[i / 16]
  }

  lemma RowOperations(i: nat, even: Macro, odd: Macro, k: Four<WordIndex>, t: Four<Word>, s: Four<ShiftAmount>)
    requires IsRow(i, even, odd, k, t, s)
    ensures IsOperation(i, even, k.p, t.p, s.p) && IsOperation(i + 1, odd, k.q, t.q, s.q)
    ensures IsOperation(i + 2, even, k.r, t.r, s.r) && IsOperation(i + 3, odd, k.s, t.s, s.s)
  {
    RowOf(i, 1);
    RowOf(i, 2);
    RowOf(i, 3);
  }

  lemma RowOf(i: nat, j: nat)
    requires i % 4 == 0 && j < 4
    ensures (i + j) / 4 == i / 4 && (i + j) % 4 == j && (i + j) / 16 == i / 16
  {
  }

  /** Four STEPs, after which every register is back in its place. */
  method Row(even: Macro, odd: Macro, v: Regs, k: Four<WordIndex>, t: Four<Word>, s: Four<ShiftAmount>,
             block: Block, ghost at: nat -> Regs, ghost i: nat)
    returns (w: Regs)
    requires IsRow(i, even, odd, k, t, s) && IsRun(at, block) && at(i) == v
    ensures at(i + 4) == w
  {
    RowOperations(i, even, odd, k, t, s);
    var (a, b, c, d) := (v.a, v.b, v.c, v.d);
    a := SourceStep(even, a, b, c, d, k.p, t.p, s.p, block, at, i);
    d := SourceStep(odd, d, a, b, c, k.q, t.q, s.q, block, at, i + 1);
    c := SourceStep(even, c, d, a, b, k.r, t.r, s.r, block, at, i + 2);
    b := SourceStep(odd, b, c, d, a, k.s, t.s, s.s, block, at, i + 3);
    w := Regs(a, b, c, d);
  }

  method Round1(v: Regs, block: Block, ghost at: nat -> Regs) returns (w: Regs)
    requires IsRun(at, block) && at(0) == v
    ensures at(16) == w
  {
    w := Row(F, F, v, Four(0, 1, 2, 3), Four(0xd76aa478, 0xe8c7b756, 0x242070db, 0xc1bdceee), Four(7, 12, 17, 22), block, at, 0);
    w := Row(F, F, w, Four(4, 5, 6, 7), Four(0xf57c0faf, 0x4787c62a, 0xa8304613, 0xfd469501), Four(7, 12, 17, 22), block, at, 4);
    w := Row(F, F, w, Four(8, 9, 10, 11), Four(0x698098d8, 0x8b44f7af, 0xffff5bb1, 0x895cd7be), Four(7, 12, 17, 22), block, at, 8);
    w := Row(F, F, w, Four(12, 13, 14, 15), Four(0x6b901122, 0xfd987193, 0xa679438e, 0x49b40821), Four(7, 12, 17, 22), block, at, 12);
  }

  method Round2(v: Regs, block: Block, ghost at: nat -> Regs) returns (w: Regs)
    requires IsRun(at, block) && at(16) == v
    ensures at(32) == w
  {
    w := Row(G, G, v, Four(1, 6, 11, 0), Four(0xf61e2562, 0xc040b340, 0x265e5a51, 0xe9b6c7aa), Four(5, 9, 14, 20), block, at, 16);
    w := Row(G, G, w, Four(5, 10, 15, 4), Four(0xd62f105d, 0x02441453, 0xd8a1e681, 0xe7d3fbc8), Four(5, 9, 14, 20), block, at, 20);
    w := Row(G, G, w, Four(9, 14, 3, 8), Four(0x21e1cde6, 0xc33707d6, 0xf4d50d87, 0x455a14ed), Four(5, 9, 14, 20), block, at, 24);
    w := Row(G, G, w, Four(13, 2, 7, 12), Four(0xa9e3e905, 0xfcefa3f8, 0x676f02d9, 0x8d2a4c8a), Four(5, 9, 14, 20), block, at, 28);
  }

  method Round3(v: Regs, block: Block, ghost at: nat -> Regs) returns (w: Regs)
    requires IsRun(at, block) && at(32) == v
    ensures at(48) == w
  {
    w := Row(H, H2, v, Four(5, 8, 11, 14), Four(0xfffa3942, 0x8771f681, 0x6d9d6122, 0xfde5380c), Four(4, 11, 16, 23), block, at, 32);
    w := Row(H, H2, w, Four(1, 4, 7, 10), Four(0xa4beea44, 0x4bdecfa9, 0xf6bb4b60, 0xbebfbc70), Four(4, 11, 16, 23), block, at, 36);
    w := Row(H, H2, w, Four(13, 0, 3, 6), Four(0x289b7ec6, 0xeaa127fa, 0xd4ef3085, 0x04881d05), Four(4, 11, 16, 23), block, at, 40);
    w := Row(H, H2, w, Four(9, 12, 15, 2), Four(0xd9d4d039, 0xe6db99e5, 0x1fa27cf8, 0xc4ac5665), Four(4, 11, 16, 23), block, at, 44);
  }

  method Round4(v: Regs, block: Block, ghost at: nat -> Regs) returns (w: Regs)
    requires IsRun(at, block) && at(48) == v
    ensures at(64) == w
  {
    w := Row(I, I, v, Four(0, 7, 14, 5), Four(0xf4292244, 0x432aff97, 0xab9423a7, 0xfc93a039), Four(6, 10, 15, 21), block, at, 48);
    w := Row(I, I, w, Four(12, 3, 10, 1), Four(0x655b59c3, 0x8f0ccc92, 0xffeff47d, 0x85845dd1), Four(6, 10, 15, 21), block, at, 52);
    w := Row(I, I, w, Four(8, 15, 6, 13), Four(0x6fa87e4f, 0xfe2ce6e0, 0xa3014314, 0x4e0811a1), Four(6, 10, 15, 21), block, at, 56);
    w := Row(I, I, w, Four(4, 11, 2, 9), Four(0xf7537e82, 0xbd3af235, 0x2ad7d2bb, 0xeb86d391), Four(6, 10, 15, 21), block, at, 60);
  }

  /** All 64 operations on one block. */
  method Block64(v: Regs, block: Block) returns (w: Regs)
    ensures w == Compress(v, block)
  {
    ghost var at: nat -> Regs := (i: nat) => if i <= 64 then Steps(block, v, i) else v;
    StepsAreRun(block, v, at);
    w := Round1(v, block, at);
    w := Round2(w, block, at);
    w := Round3(w, block, at);
    w := Round4(w, block, at);
    var (a, b, c, d) := (w.a, w.b, w.c, w.d);
    w := Regs(Plus(a, v.a), Plus(b, v.b), Plus(c, v.c), Plus(d, v.d));
    SumCommutes(v, Regs(a, b, c, d));
  }

  lemma SumCommutes(v: Regs, w: Regs)
    ensures Regs(Plus(v.a, w.a), Plus(v.b, w.b), Plus(v.c, w.c), Plus(v.d, w.d))
         == Regs(Plus(w.a, v.a), Plus(w.b, v.b), Plus(w.c, v.c), Plus(w.d, v.d))
  {
    PlusCommutes(v.a, w.a);
    PlusCommutes(v.b, w.b);
    PlusCommutes(v.c, w.c);
    PlusCommutes(v.d, w.d);
  }

  const LOW := 0x2000_0000       // 2^29
  const WORD := 0x1_0000_0000    // 2^32

  /** The two halves of the length after size more bytes: lo has lost a carry exactly if it got
      smaller, and hi wraps around at 32 bits. */
  lemma LengthCarries(lo: nat, hi: nat, n: nat, size: nat)
    requires lo < LOW && hi < WORD && hi * LOW + lo == n % (LOW * WORD)
    ensures var lo' := (lo + size) % LOW;
      var hi' := ((if lo' < lo then (hi + 1) % WORD else hi) + size / LOW) % WORD;
      hi' * LOW + lo' == (n + size) % (LOW * WORD)
  {
    var q, r := size / LOW, size % LOW;
    var lo' := (lo + size) % LOW;
    var carry := if lo + r >= LOW then 1 else 0;
    assert lo + size == LOW * (q + carry) + (lo + r - LOW * carry);
    assert lo' == lo + r - LOW * carry && (lo' < lo <==> carry == 1);
    var m := n / (LOW * WORD);
    var top := hi + carry + q;
    assert n + size == LOW * WORD * m + LOW * top + lo';
    assert top == WORD * (top / WORD) + top % WORD;
    ModUnique(n + size, LOW * WORD, m + top / WORD, LOW * (top % WORD) + lo');
  }

  /** The length in bits, in two words. */
  lemma LengthField(lo: nat, hi: nat, n: nat)
    requires lo < LOW && hi < WORD && hi * LOW + lo == n % (LOW * WORD)
    ensures LittleEndian(lo * 8, 4) + LittleEndian(hi, 4) == LittleEndian(8 * n % TWO_TO_THE_64, 8)
  {
    var u := 8 * n % TWO_TO_THE_64;
    assert u == hi * WORD + lo * 8 by {
      assert n == LOW * WORD * (n / (LOW * WORD)) + (hi * LOW + lo);
      ModUnique(8 * n, TWO_TO_THE_64, n / (LOW * WORD), hi * WORD + lo * 8);
    }
    assert u / WORD == hi && u % WORD == lo * 8;
    LittleEndianHalves(u, 4);
  }

  lemma LittleEndianHalves(u: nat, more: nat)
    ensures LittleEndian(u, more + 4) == LittleEndian(u % WORD, 4) + LittleEndian(u / WORD, more)
  {
    LowBytes(u, more);
    LowBytesOnly(u);
  }

  class Context {
    var lo: int              // low 29 bits of the number of bytes taken
    var hi: int              // the next 32
    var a: Word
    var b: Word
    var c: Word
    var d: Word
    const buffer: array<Byte>
    ghost var message: seq<Byte>
    ghost const hashed: seq<Byte> -> Regs

    ghost predicate Counts(n: nat)
      reads this`lo, this`hi
    {
      0 <= lo < LOW && 0 <= hi < WORD && hi * LOW + lo == n % (LOW * WORD)
    }

    ghost predicate Hashes(done: seq<Byte>)
      reads this`a, this`b, this`c, this`d
    {
      IsFold(Compress, INITIAL, hashed) && Regs(a, b, c, d) == hashed(done)
    }

    /** The registers are the hash of the complete blocks taken, the buffer starts with the rest, and
        the two halves hold the length. */
    ghost predicate Valid()
      reads this, buffer
    {
      && buffer.Length == 64 && Counts(|message|) && Hashes(Complete(message))
      && buffer[..|message| % 64] == Tail(message)
    }

    constructor ()
      ensures Valid() && message == [] && fresh(buffer)
    {
      a, b, c, d := 0x67452301, 0xefcdab89, 0x98badcfe, 0x10325476;
      lo, hi := 0, 0;
      buffer, message := new Byte[64], [];
      hashed := FoldFrom(Compress, INITIAL);
      new;
      FoldFromIsFold(Compress, INITIAL);
    }

    lemma Used(n: nat)
      requires Counts(n)
      ensures lo % 64 == n % 64
    {
      assert n == 64 * (0x80_0000 * (WORD * (n / (LOW * WORD)) + hi)) + lo;
    }

    method NextBlock(v: Regs, block: Block, ghost done: seq<Byte>) returns (w: Regs)
      requires IsFold(Compress, INITIAL, hashed) && |done| % 64 == 0 && v == hashed(done)
      ensures w == hashed(done + block)
    {
      w := Block64(v, block);
      FoldStep(Compress, INITIAL, hashed, done, block);
    }

    /** MD5_body: one or more blocks into the registers. */
    method Body(data: seq<Byte>, ghost done: seq<Byte>)
      requires |data| % 64 == 0 && |data| > 0 && |done| % 64 == 0 && Hashes(done)
      modifies this`a, this`b, this`c, this`d
      ensures Hashes(done + data)
    {
      var v, ptr := Regs(a, b, c, d), 0;
      assert done + data[..0] == done;
      while true
        invariant ptr % 64 == 0 && ptr < |data|
        invariant v == hashed(done + data[..ptr])
        decreases |data| - ptr
      {
        v := NextBlock(v, data[ptr..ptr + 64], done + data[..ptr]);
        assert done + data[..ptr] + data[ptr..ptr + 64] == done + data[..ptr + 64];
        ptr := ptr + 64;
        if ptr == |data| {
          break;
        }
      }
      assert data[..ptr] == data;
      a, b, c, d := v.a, v.b, v.c, v.d;
    }

    method Count(size: nat, ghost n: nat)
      requires Counts(n)
      modifies this`lo, this`hi
      ensures Counts(n + size)
    {
      LengthCarries(lo, hi, n, size);
      var saved := lo;
      lo := (saved + size) % LOW;
      if lo < saved {
        hi := (hi + 1) % WORD;
      }
      hi := (hi + size / LOW) % WORD;
    }

    /** MD5_hash: the bytes are taken, whatever is buffered and however many they are. */
    method Hash(data: seq<Byte>)
      requires Valid()
      modifies this, buffer
      ensures Valid() && message == old(message) + data
    {
      Used(|message|);
      ghost var was := message;
      var used := lo % 64;
      Count(|data|, |was|);
      message := was + data;
      Take(data, used, was);
    }

    method Take(data: seq<Byte>, used: nat, ghost was: seq<Byte>)
      requires buffer.Length == 64 && used == |was| % 64
      requires Hashes(Complete(was)) && buffer[..used] == Tail(was)
      modifies this`a, this`b, this`c, this`d, buffer
      ensures Hashes(Complete(was + data)) && buffer[..|was + data| % 64] == Tail(was + data)
    {
      if used > 0 {
        var available := 64 - used;
        if |data| < available {
          CopyInto(buffer, used, data);
          TailGrows(was, data);
          return;
        }
        FillBlock(data[..available], was);
        assert was + data == was + data[..available] + data[available..];
        HashRest(data[available..], was + data[..available]);
      } else {
        assert Complete(was) == was;
        HashRest(data, was);
      }
    }

    method FillBlock(first: seq<Byte>, ghost was: seq<Byte>)
      requires buffer.Length == 64 && |was| % 64 + |first| == 64
      requires Hashes(Complete(was)) && buffer[..|was| % 64] == Tail(was)
      modifies this`a, this`b, this`c, this`d, buffer
      ensures Hashes(was + first)
    {
      CopyInto(buffer, 64 - |first|, first);
      BlocksGrow(was, first);
      assert buffer[..] == Tail(was) + first;
      Body(buffer[..], Complete(was));
      assert Complete(was + first) == was + first;
    }

    /** What follows a filled buffer: the complete blocks straight from the input, the rest kept. */
    method HashRest(data: seq<Byte>, ghost done: seq<Byte>)
      requires buffer.Length == 64 && |done| % 64 == 0 && Hashes(done)
      modifies this`a, this`b, this`c, this`d, buffer
      ensures Hashes(Complete(done + data)) && buffer[..|done + data| % 64] == Tail(done + data)
    {
      CompleteAppend(done, data);
      var size := |data| - |data| % 64;
      if |data| >= 64 {
        Body(data[..size], done);
      } else {
        assert done + Complete(data) == done;
      }
      CopyInto(buffer, 0, data[size..]);
    }

    /** The padding, with the length in bits at the end. */
    method Pad()
      requires Valid()
      modifies this`a, this`b, this`c, this`d, buffer
      ensures Hashes(Padded(message, LittleEndian(8 * |message| % TWO_TO_THE_64, 8)))
    {
      Used(|message|);
      ghost var field := LittleEndian(8 * |message| % TWO_TO_THE_64, 8);
      ghost var done := PadToLength(lo % 64, field);
      PutLength(|message|, field);
      Body(buffer[..], done);
    }

    method PutLength(ghost n: nat, ghost field: seq<Byte>)
      requires buffer.Length == 64 && Counts(n) && field == LittleEndian(8 * n % TWO_TO_THE_64, 8)
      modifies buffer
      ensures buffer[..] == old(buffer[..56]) + field
    {
      LengthField(lo, hi, n);
      PutWord(buffer, 56, lo * 8);
      PutWord(buffer, 60, hi);
    }

    /** MD5_end: after the padding the registers are written out and the context is cleared. */
    method End() returns (result: seq<Byte>)
      requires Valid()
      modifies this, buffer
      ensures result == Digest(old(message))
      ensures a == b == c == d == 0 && lo == hi == 0 && forall i | 0 <= i < 64 :: buffer[i] == 0
    {
      Pad();
      DigestIs(message, hashed, Regs(a, b, c, d));
      result := EncodeWord(a) + EncodeWord(b) + EncodeWord(c) + EncodeWord(d);
      Clear();
    }

    method Clear()
      requires buffer.Length == 64
      modifies this, buffer
      ensures a == b == c == d == 0 && lo == hi == 0 && forall i | 0 <= i < 64 :: buffer[i] == 0
    {
      a, b, c, d, lo, hi := 0, 0, 0, 0, 0, 0;
      forall i | 0 <= i < 64 {
        buffer[i] := 0;
      }
    }

    method PadToLength(used: nat, ghost field: seq<Byte>) returns (ghost done: seq<Byte>)
      requires Valid() && used == |message| % 64 && |field| == 8
      modifies this`a, this`b, this`c, this`d, buffer
      ensures |done| % 64 == 0 && Hashes(done)
      ensures Padded(message, field) == done + (buffer[..56] + field)
    {
      done := Complete(message);
      buffer[used] := 0x80;
      var available := 63 - used;
      if available < 8 {
        PaddedInTwo(message, field);
        done := FillLast(used + 1, available);
      } else {
        PaddedInOne(message, field);
        CopyInto(buffer, used + 1, Zeros(available - 8));
        assert buffer[..56] == Tail(message) + ([0x80] + Zeros(63))[..56 - used];
      }
    }

    /** The current block is finished and mixed in; the final one starts with zeroes. */
    method FillLast(used: nat, available: nat) returns (ghost done: seq<Byte>)
      requires buffer.Length == 64 && used == |message| % 64 + 1 && used + available == 64
      requires Hashes(Complete(message)) && buffer[..used] == Tail(message) + [0x80]
      modifies this`a, this`b, this`c, this`d, buffer
      ensures done == Complete(message) + (Tail(message) + ([0x80] + Zeros(63))[..available + 1])
      ensures |done| % 64 == 0 && Hashes(done) && buffer[..56] == Zeros(56)
    {
      CopyInto(buffer, used, Zeros(available));
      assert buffer[..] == Tail(message) + ([0x80] + Zeros(63))[..available + 1];
      Body(buffer[..], Complete(message));
      done := Complete(message) + (Tail(message) + ([0x80] + Zeros(63))[..available + 1]);
      CopyInto(buffer, 0, Zeros(56));
    }
  }

  lemma DigestIs(message: seq<Byte>, hashed: seq<Byte> -> Regs, v: Regs)
    requires IsFold(Compress, INITIAL, hashed)
    requires v == hashed(Padded(message, LittleEndian(8 * |message| % TWO_TO_THE_64, 8)))
    ensures Encode(v) == Digest(message)
  {
    var padded := Padded(message, LittleEndian(8 * |message| % TWO_TO_THE_64, 8));
    OnlyFold(Compress, INITIAL, hashed, [], padded);
    assert [] + padded == padded;
  }

  method PutWord(buf: array<Byte>, at: nat, u: int)
    requires at + 4 <= buf.Length && 0 <= u < WORD
    modifies buf
    ensures buf[..] == old(buf[..at]) + LittleEndian(u, 4) + old(buf[at + 4..])
  {
    buf[at] := (u % 256) as Byte;
    buf[at + 1] := (u / 0x100 % 256) as Byte;
    buf[at + 2] := (u / 0x1_0000 % 256) as Byte;
    buf[at + 3] := (u / 0x100_0000 % 256) as Byte;
    LowBytes(u, 0);
  }

  /** A file read in any chunks has the standard's digest of its whole contents. */
  method HashChunks(chunks: seq<seq<Byte>>) returns (digest: seq<Byte>)
    ensures digest == Digest(Concat(chunks))
  {
    var ctx := new Context();
    for i := 0 to |chunks|
      invariant ctx.Valid() && fresh(ctx) && fresh(ctx.buffer)
      invariant ctx.message == Concat(chunks[..i])
    {
      ctx.Hash(chunks[i]);
      assert chunks[..i + 1][..i] == chunks[..i];
    }
    assert chunks[..|chunks|] == chunks;
    digest := ctx.End();
  }
}
