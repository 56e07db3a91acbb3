/** Messages cut into 64-byte blocks, as both hashes of scripts/mkhash.c consume them, and the buffer
    handling they share. */
module Blocks {
  type Byte = bv8
  type Word = bv32
  type Block = b: seq<Byte> | |b| == 64 witness seq(64, _ => 0)

  const TWO_TO_THE_64 := 0x1_0000_0000_0000_0000

  /** The compression function run over the blocks of a message, the whole message at once. */
  function Fold<S>(compress: (S, Block) -> S, state: S, message: seq<Byte>): S
    requires |message| % 64 == 0
  {
    if message == [] then state
    else Fold(compress, compress(state, message[..64]), message[64..])
  }

  lemma {:induction false} FoldAppend<S>(compress: (S, Block) -> S, state: S, a: seq<Byte>, b: seq<Byte>)
    requires |a| % 64 == 0 && |b| % 64 == 0
    ensures |a + b| % 64 == 0
    ensures Fold(compress, state, a + b) == Fold(compress, Fold(compress, state, a), b)
  {
    if a == [] {
      assert a + b == b;
    } else {
      assert (a + b)[..64] == a[..64] && (a + b)[64..] == a[64..] + b;
      FoldAppend(compress, compress(state, a[..64]), a[64..], b);
    }
  }

  lemma FoldOne<S>(compress: (S, Block) -> S, state: S, a: seq<Byte>, b: Block)
    requires |a| % 64 == 0
    ensures Fold(compress, state, a + b) == compress(Fold(compress, state, a), b)
  {
    FoldAppend(compress, state, a, b);
    assert b[..64] == b && b[64..] == [];
    assert Fold(compress, compress(Fold(compress, state, a), b), []) == compress(Fold(compress, state, a), b);
  }

  /** A function on messages of complete blocks that starts from the given state and goes on with the
      compression function. */
  ghost predicate IsFold<S(!new)>(compress: (S, Block) -> S, start: S, hashed: seq<Byte> -> S) {
    && hashed([]) == start
    && forall m: seq<Byte>, b: Block {:trigger compress(hashed(m), b)} ::
         |m| % 64 == 0 ==> hashed(m + b) == compress(hashed(m), b)
  }

  lemma FoldStep<S(!new)>(compress: (S, Block) -> S, start: S, hashed: seq<Byte> -> S, m: seq<Byte>, b: Block)
    requires IsFold(compress, start, hashed) && |m| % 64 == 0
    ensures hashed(m + b) == compress(hashed(m), b)
  {
  }

  /** There is only one such function, the fold over the blocks. */
  lemma {:induction false} OnlyFold<S(!new)>(compress: (S, Block) -> S, start: S, hashed: seq<Byte> -> S, done: seq<Byte>, rest: seq<Byte>)
    requires IsFold(compress, start, hashed) && |done| % 64 == 0 && |rest| % 64 == 0
    ensures Fold(compress, hashed(done), rest) == hashed(done + rest)
    decreases |rest|
  {
    if rest == [] {
      assert done + rest == done;
    } else {
      assert hashed(done + rest[..64]) == compress(hashed(done), rest[..64]);
      OnlyFold(compress, start, hashed, done + rest[..64], rest[64..]);
      assert done + rest[..64] + rest[64..] == done + rest;
    }
  }

  function FoldFrom<S>(compress: (S, Block) -> S, start: S): seq<Byte> -> S {
    (m: seq<Byte>) => if |m| % 64 == 0 then Fold(compress, start, m) else start
  }

  lemma FoldFromIsFold<S(!new)>(compress: (S, Block) -> S, start: S)
    ensures IsFold(compress, start, FoldFrom(compress, start))
  {
    var hashed := FoldFrom(compress, start);
    forall m: seq<Byte>, b: Block | |m| % 64 == 0
      ensures hashed(m + b) == compress(hashed(m), b)
    {
      FoldFromStep(compress, start, m, b);
    }
  }

  lemma FoldFromStep<S>(compress: (S, Block) -> S, start: S, m: seq<Byte>, b: Block)
    requires |m| % 64 == 0
    ensures FoldFrom(compress, start)(m + b) == compress(FoldFrom(compress, start)(m), b)
  {
    FoldOne(compress, start, m, b);
    assert |m + b| % 64 == 0;
  }

  /** The bytes of the message not yet compressed. */
  function Tail(message: seq<Byte>): (tail: seq<Byte>)
    ensures |tail| == |message| % 64
  {
    message[|message| - |message| % 64..]
  }

  function Complete(message: seq<Byte>): (b: seq<Byte>)
    ensures |b| % 64 == 0
  {
    message[..|message| - |message| % 64]
  }

  /** Compressing what is complete of the message is compressing one more block, once enough bytes
      have come to fill one. */
  lemma BlocksGrow(message: seq<Byte>, more: seq<Byte>)
    requires |Tail(message)| + |more| == 64
    ensures Tail(message + more) == [] && Complete(message + more) == Complete(message) + (Tail(message) + more)
  {
  }

  lemma TailGrows(message: seq<Byte>, more: seq<Byte>)
    requires |Tail(message)| + |more| < 64
    ensures Tail(message + more) == Tail(message) + more && Complete(message + more) == Complete(message)
  {
  }

  lemma CompleteAppend(message: seq<Byte>, more: seq<Byte>)
    requires |message| % 64 == 0
    ensures Complete(message + more) == message + Complete(more) && Tail(message + more) == Tail(more)
  {
  }

  /** How many bytes are buffered can be read off the bit count, though it wraps around. */
  lemma BufferedBytes(n: nat)
    ensures 8 * n % TWO_TO_THE_64 / 8 % 64 == n % 64
  {
    var q, r := 8 * n / TWO_TO_THE_64, 8 * n % TWO_TO_THE_64;
    assert 8 * n == TWO_TO_THE_64 * q + r && r % 8 == 0;
    assert n == 64 * (0x80_0000_0000_0000 * q) + r / 8;
  }

  lemma CountAdds(a: nat, b: nat)
    ensures (a % TWO_TO_THE_64 + b % TWO_TO_THE_64) % TWO_TO_THE_64 == (a + b) % TWO_TO_THE_64
  {
  }

  lemma BitsAdd(a: nat, b: nat)
    ensures (8 * a % TWO_TO_THE_64 + 8 * b % TWO_TO_THE_64) % TWO_TO_THE_64 == 8 * (a + b) % TWO_TO_THE_64
  {
    CountAdds(8 * a, 8 * b);
  }

  function Concat(chunks: seq<seq<Byte>>): seq<Byte> {
    if chunks == [] then [] else Concat(chunks[..|chunks| - 1]) + chunks[|chunks| - 1]
  }

  function Zeros(n: nat): (z: seq<Byte>)
    ensures |z| == n
  {
    seq(n, _ => 0)
  }

  /** How many zero bytes follow the 0x80 byte, so that the length field ends a block. */
  function PadZeros(length: nat): (k: nat)
    ensures k < 64 && (length + 1 + k) % 64 == 56
  {
    (119 - length % 64) % 64
  }

  /** The message followed by one 1 bit, zero bits up to 448 modulo 512, and an 8-byte field. */
  function Padded(message: seq<Byte>, field: seq<Byte>): (p: seq<Byte>)
    requires |field| == 8
    ensures |p| % 64 == 0 && |message| + 9 <= |p| < |message| + 73
  {
    message + [0x80] + Zeros(PadZeros(|message|)) + field
  }

  /** The bytes of n, least significant first. */
  function LowFirst(n: nat, bytes: nat): (b: seq<Byte>)
    ensures |b| == bytes
  {
    if bytes == 0 then [] else [(n % 256) as Byte] + LowFirst(n / 256, bytes - 1)
  }

  function LittleEndian(n: nat, bytes: nat): (b: seq<Byte>)
    ensures |b| == bytes
  {
    LowFirst(n, bytes)
  }

  function Reversed<T>(s: seq<T>): (r: seq<T>)
    ensures |r| == |s|
    ensures forall i | 0 <= i < |s| :: r[i] == s[|s| - 1 - i]
  {
    seq(|s|, i requires 0 <= i < |s| => s[|s| - 1 - i])
  }

  function BigEndian(n: nat, bytes: nat): (b: seq<Byte>)
    ensures |b| == bytes
  {
    Reversed(LittleEndian(n, bytes))
  }

  function Number(b: seq<Byte>): nat {
    if b == [] then 0 else b[0] as int + 256 * Number(b[1..])
  }

  function Power256(k: nat): (p: nat)
    ensures p > 0
  {
    if k == 0 then 1 else 256 * Power256(k - 1)
  }

  lemma ByteRoundTrip(n: int)
    requires 0 <= n < 256
    ensures (n as bv8) as int == n
  {
    assert n % 256 == n;
  }

  lemma DivideTwice(n: nat, p: nat)
    requires p > 0
    ensures n % (256 * p) == n % 256 + 256 * (n / 256 % p)
  {
    var q, r := n / 256, n % 256;
    var q1, q0 := q / p, q % p;
    assert n == (256 * p) * q1 + (256 * q0 + r) by {
      assert n == 256 * q + r && q == p * q1 + q0;
      assert 256 * (p * q1) == (256 * p) * q1;
    }
    assert 0 <= 256 * q0 + r < 256 * p by {
      assert q0 <= p - 1;
    }
    ModUnique(n, 256 * p, q1, 256 * q0 + r);
  }

  lemma ModUnique(n: int, d: int, q: int, r: int)
    requires 0 <= r < d && n == d * q + r
    ensures n % d == r
  {
    var e := n / d - q;
    assert n == d * (n / d) + n % d;
    assert d * e == r - n % d by {
      assert d * e == d * (n / d) - d * q;
    }
    assert e >= 1 ==> d * e >= d;
    assert e <= -1 ==> d * e <= -d;
  }

  /** The bytes written denote the number, as far as they reach. */
  lemma {:induction false} LittleEndianDenotes(n: nat, bytes: nat)
    ensures Number(LittleEndian(n, bytes)) == n % Power256(bytes)
  {
    if bytes > 0 {
      LittleEndianDenotes(n / 256, bytes - 1);
      LowByte(n, bytes - 1);
      var b := LittleEndian(n, bytes);
      assert b[1..] == LittleEndian(n / 256, bytes - 1);
      ByteRoundTrip(n % 256);
      DivideTwice(n, Power256(bytes - 1));
    }
  }

  /** The four low bytes of a number, and the bytes of the rest. */
  lemma LowBytes(u: nat, more: nat)
    ensures LittleEndian(u, more + 4)
         == [(u % 256) as Byte, (u / 0x100 % 256) as Byte, (u / 0x1_0000 % 256) as Byte, (u / 0x100_0000 % 256) as Byte]
            + LittleEndian(u / 0x1_0000_0000, more)
  {
    var (u1, u2, u3, u4) := (u / 0x100, u / 0x1_0000, u / 0x100_0000, u / 0x1_0000_0000);
    DivideByBytes(u);
    LowByte(u, more + 3);
    LowByte(u1, more + 2);
    LowByte(u2, more + 1);
    LowByte(u3, more);
  }

  lemma DivideByBytes(u: nat)
    ensures u / 0x100 / 256 == u / 0x1_0000 && u / 0x1_0000 / 256 == u / 0x100_0000
    ensures u / 0x100_0000 / 256 == u / 0x1_0000_0000
  {
  }

  lemma LowByte(u: nat, more: nat)
    ensures LittleEndian(u, more + 1) == [(u % 256) as Byte] + LittleEndian(u / 256, more)
  {
  }

  lemma LowBytesOnly(u: nat)
    ensures LittleEndian(u % 0x1_0000_0000, 4)
         == [(u % 256) as Byte, (u / 0x100 % 256) as Byte, (u / 0x1_0000 % 256) as Byte, (u / 0x100_0000 % 256) as Byte]
  {
    LowBytes(u % 0x1_0000_0000, 0);
    LowDigits(u, u % 0x1_0000_0000);
  }

  lemma LowDigits(u: nat, v: nat)
    requires v == u % 0x1_0000_0000
    ensures v % 256 == u % 256 && v / 0x100 % 256 == u / 0x100 % 256
    ensures v / 0x1_0000 % 256 == u / 0x1_0000 % 256 && v / 0x100_0000 % 256 == u / 0x100_0000 % 256
  {
    var q := u / 0x1_0000_0000;
    DropHigh(u, v, 0x100_0000 * q, 0x100);
    DropHigh(u, v, 0x1_0000 * q, 0x1_0000);
    DropHigh(u, v, 0x100 * q, 0x100_0000);
    DropHigh(u, v, 0x1_0000_0000 * q, 1);
  }

  /** What is above the byte at place p does not matter to it. */
  lemma DropHigh(u: nat, v: nat, high: nat, p: nat)
    requires p > 0 && u == high * p + v && high % 256 == 0
    ensures u / p % 256 == v / p % 256
  {
    ModUnique(u, p, high + v / p, v % p);
    assert u / p == high + v / p by {
      assert u == p * (u / p) + u % p && u == p * (high + v / p) + v % p;
      EqualProducts(p, u / p, high + v / p);
    }
    assert (256 * (high / 256) + v / p) % 256 == v / p % 256;
  }

  lemma EqualProducts(p: nat, x: int, y: int)
    requires p > 0 && p * x == p * y
    ensures x == y
  {
    assert p * (x - y) == 0;
  }

  lemma ReversedAppend<T>(a: seq<T>, b: seq<T>)
    ensures Reversed(a + b) == Reversed(b) + Reversed(a)
  {
  }

  /** Padding when the length still fits behind the message, and when it does not. */
  lemma PaddedInOne(message: seq<Byte>, field: seq<Byte>)
    requires |field| == 8 && |message| % 64 < 56
    ensures var r, pad := |message| % 64, [0x80] + Zeros(63);
      Padded(message, field) == Complete(message) + (Tail(message) + pad[..56 - r] + field)
  {
  }

  lemma PaddedInTwo(message: seq<Byte>, field: seq<Byte>)
    requires |field| == 8 && |message| % 64 >= 56
    ensures var r, pad := |message| % 64, [0x80] + Zeros(63);
      Padded(message, field) == Complete(message) + (Tail(message) + pad[..64 - r]) + (Zeros(56) + field)
  {
    var r := |message| % 64;
    assert PadZeros(|message|) == 119 - r;
    assert Zeros(119 - r) == Zeros(63 - r) + Zeros(56);
    assert ([0x80] + Zeros(63))[..64 - r] == [0x80] + Zeros(63 - r);
  }

  lemma PaddedApart(a: seq<Byte>, fa: seq<Byte>, b: seq<Byte>, fb: seq<Byte>)
    requires |fa| == |fb| == 8 && Padded(a, fa) == Padded(b, fb)
    ensures fa == fb
    ensures |a| == |b| ==> a == b
  {
    var pa, pb := Padded(a, fa), Padded(b, fb);
    var na, nb := |pa| - 8, |pb| - 8;
    assert fa == pa[na..] && fb == pb[nb..];
    if |a| == |b| {
      assert a == pa[..|a|] && b == pb[..|b|];
    }
  }

  lemma ReversedTwice<T>(s: seq<T>)
    ensures Reversed(Reversed(s)) == s
  {
  }

  lemma EightBytesHoldLengths(n: nat, bytes: nat)
    requires bytes == 8 && n < TWO_TO_THE_64
    ensures Number(LittleEndian(n, bytes)) == n
    ensures Number(Reversed(BigEndian(n, bytes))) == n
  {
    EightBytes(bytes);
    LittleEndianDenotes(n, bytes);
    ModUnique(n, Power256(bytes), 0, n);
    ReversedTwice(LittleEndian(n, bytes));
  }

  lemma PowerStep(k: nat)
    requires k > 1
    ensures Power256(k) == 0x1_0000 * Power256(k - 2)
  {
    assert Power256(k - 1) == 256 * Power256(k - 2);
  }

  lemma EightBytes(k: nat)
    requires k == 8
    ensures Power256(k) == TWO_TO_THE_64
  {
    PowerStep(k);
    PowerStep(k - 2);
    PowerStep(k - 4);
    PowerStep(k - 6);
    assert Power256(k - 8) == 1;
  }

  /** Nothing of a message is lost in the padding: while the length field can hold the length, two
      messages are padded to the same blocks only if they are equal. */
  lemma LittlePaddingIsInjective(a: seq<Byte>, b: seq<Byte>, fa: seq<Byte>, fb: seq<Byte>)
    requires |a| < TWO_TO_THE_64 / 8 && |b| < TWO_TO_THE_64 / 8
    requires fa == LittleEndian(8 * |a|, 8) && fb == LittleEndian(8 * |b|, 8)
    requires Padded(a, fa) == Padded(b, fb)
    ensures a == b
  {
    PaddedApart(a, fa, b, fb);
    EightBytesHoldLengths(8 * |a|, 8);
    EightBytesHoldLengths(8 * |b|, 8);
  }

  lemma BigPaddingIsInjective(a: seq<Byte>, b: seq<Byte>, fa: seq<Byte>, fb: seq<Byte>)
    requires |a| < TWO_TO_THE_64 / 8 && |b| < TWO_TO_THE_64 / 8
    requires fa == BigEndian(8 * |a|, 8) && fb == BigEndian(8 * |b|, 8)
    requires Padded(a, fa) == Padded(b, fb)
    ensures a == b
  {
    PaddedApart(a, fa, b, fb);
    EightBytesHoldLengths(8 * |a|, 8);
    EightBytesHoldLengths(8 * |b|, 8);
  }

  /** memcpy into the buffer: the bytes go to the given place and no other byte changes. */
  method CopyInto(buffer: array<Byte>, at: nat, src: seq<Byte>)
    requires at + |src| <= buffer.Length
    modifies buffer
    ensures buffer[..] == old(buffer[..at]) + src + old(buffer[at + |src|..])
  {
    forall i | 0 <= i < |src| {
      buffer[at + i] := src[i];
    }
  }
}
