/**
  MD5 (sections 3.1 to 3.4 of RFC 1321) as it is fed in pieces: complete blocks are
  compressed, the rest waits in a buffer, and the end adds the padding and the
  length.  The compression of one block is a parameter; its basic functions are
  compared with their definitions at the end.
 */
module Md5Stream {

  /** 0 to 255. */
  type Byte = int

  /** The four words. */
  datatype State = State(a: int, b: int, c: int, d: int)

  type Compress = (State, seq<Byte>) -> State

  const TWO64: int := 0x1_0000_0000_0000_0000

  function Init(): State {
    State(0x67452301, 0xefcdab89, 0x98badcfe, 0x10325476)
  }

  // ----- blocks

  ghost predicate Whole(s: seq<Byte>) {
    |s| % 64 == 0
  }

  /** Complete blocks, one after the other. */
  function Blocks(f: Compress, s: State, data: seq<Byte>): State
    decreases |data|
  {
    if |data| < 64 then s else Blocks(f, f(s, data[..64]), data[64..])
  }

  lemma {:induction false} BlocksAppend(f: Compress, s: State, p: seq<Byte>, q: seq<Byte>)
    requires Whole(p)
    ensures Blocks(f, s, p + q) == Blocks(f, Blocks(f, s, p), q)
    decreases |p|
  {
    if p == [] {
      assert p + q == q;
    } else {
      assert (p + q)[..64] == p[..64] && (p + q)[64..] == p[64..] + q;
      BlocksAppend(f, f(s, p[..64]), p[64..], q);
    }
  }

  // ----- the padding

  function Zeros(n: nat): (r: seq<Byte>)
    ensures |r| == n && forall i :: 0 <= i < n ==> r[i] == 0
  {
    seq(n, i => 0)
  }

  /** A 64-bit number, its lowest byte first. */
  function Little(n: int): (r: seq<Byte>)
    ensures |r| == 8
  {
    [n % 0x100, n / 0x100 % 0x100, n / 0x1_0000 % 0x100, n / 0x100_0000 % 0x100,
     n / 0x1_0000_0000 % 0x100, n / 0x100_0000_0000 % 0x100, n / 0x1_0000_0000_0000 % 0x100,
     n / 0x100_0000_0000_0000 % 0x100]
  }

  /** The zeros that are needed behind the first padding byte and before the length. */
  function Gap(len: nat): (k: nat)
    ensures k < 64 && (len + 1 + k + 8) % 64 == 0
  {
    var used := len % 64 + 1;
    if 64 - used < 8 then 64 - used + 56 else 64 - used - 8
  }

  /** Section 3.1 and 3.2: one bit, zeros, and the length in bits modulo 2 to the 64. */
  function Padded(msg: seq<Byte>): seq<Byte> {
    msg + [0x80] + Zeros(Gap(|msg|)) + Little(8 * |msg| % TWO64)
  }

  /** The number of zeros is the least that completes a block. */
  lemma GapIsLeast(len: nat, k: nat)
    requires (len + 1 + k + 8) % 64 == 0
    ensures Gap(len) <= k
  {
  }

  /** Little-endian bytes of a word, as in the result. */
  function Word(n: int): seq<Byte> {
    [n % 0x100, n / 0x100 % 0x100, n / 0x1_0000 % 0x100, n / 0x100_0000 % 0x100]
  }

  function Digest(s: State): seq<Byte> {
    Word(s.a) + Word(s.b) + Word(s.c) + Word(s.d)
  }

  // ----- the code

  class Md5 {
    const f: Compress
    var bytes: int
    var st: State
    const buffer: array<Byte>
    ghost var head: seq<Byte>
    ghost var pend: seq<Byte>

    /** Everything that has been fed: complete blocks and the rest. */
    ghost function Message(): seq<Byte>
      reads this
    {
      head + pend
    }

    /** The state is that of the complete blocks, and the rest waits at the start of the buffer. */
    ghost predicate Valid()
      reads this, buffer
    {
      && buffer.Length == 64
      && Whole(head) && |pend| < 64 && buffer[..|pend|] == pend
      && bytes == (|head| + |pend|) % TWO64
      && st == Blocks(f, Init(), head)
    }

    /** ngx_md5_init */
    constructor (f: Compress)
      ensures Valid() && fresh(buffer) && Message() == [] && this.f == f
    {
      this.f := f;
      st := Init();
      bytes := 0;
      buffer := new Byte[64];
      head, pend := [], [];
    }

    /** ngx_md5_body: all complete blocks of the data. */
    method Body(data: seq<Byte>)
      modifies this`st
      ensures st == Blocks(f, old(st), data)
    {
      var rest := data;
      while |rest| >= 64
        invariant Blocks(f, st, rest) == Blocks(f, old(st), data)
        decreases |rest|
      {
        st := f(st, rest[..64]);
        rest := rest[64..];
      }
    }

    /** Bytes are copied into the buffer. */
    method Put(at: nat, data: seq<Byte>)
      requires at + |data| <= buffer.Length
      modifies buffer
      ensures buffer[..at + |data|] == old(buffer[..at]) + data
    {
      for i := 0 to |data|
        invariant buffer[..at + i] == old(buffer[..at]) + data[..i]
      {
        buffer[at + i] := data[i];
      }
    }

    /** The buffer, which is full, is compressed. */
    method Flush()
      requires buffer.Length == 64 && Whole(head) && st == Blocks(f, Init(), head)
      modifies this`st, this`head
      ensures Whole(head) && st == Blocks(f, Init(), head) && head == old(head) + buffer[..]
    {
      BlocksAppend(f, Init(), head, buffer[..]);
      Body(buffer[..]);
      head := head + buffer[..];
    }

    /** Complete blocks of the data are compressed where they are, and the rest goes into the empty buffer. */
    method Direct(data: seq<Byte>)
      requires buffer.Length == 64 && Whole(head) && st == Blocks(f, Init(), head)
      modifies this`st, this`head, this`pend, buffer
      ensures Whole(head) && st == Blocks(f, Init(), head)
      ensures |pend| < 64 && buffer[..|pend|] == pend && head + pend == old(head) + data
    {
      var rest := data;
      if |data| >= 64 {
        var n := |data| - |data| % 64;
        BlocksAppend(f, Init(), head, data[..n]);
        Body(data[..n]);
        head := head + data[..n];
        rest := data[n..];
        assert old(head) + data[..n] + rest == old(head) + data;
      }
      Put(0, rest);
      pend := rest;
    }

    /** How much of the buffer is used: the low six bits of the byte count. */
    method Position() returns (used: nat)
      requires Valid()
      ensures used == |pend|
    {
      Used(|head|, |pend|);
      used := bytes % 64;
    }

    /** ngx_md5_update */
    method Update(data: seq<Byte>)
      requires Valid()
      modifies this, buffer
      ensures Valid() && Message() == old(Message()) + data
    {
      var used := Position();
      Longer(|head| + |pend|, |data|);
      bytes := (bytes + |data|) % TWO64;
      var rest := data;
      if used > 0 {
        var free := 64 - used;
        if |data| < free {
          Put(used, data);
          Split(head, pend, data, |data|);
          pend := pend + data;
          return;
        }
        Put(used, data[..free]);
        assert buffer[..64] == buffer[..];
        Split(head, pend, data, free);
        Flush();
        rest := data[free..];
      }
      Direct(rest);
    }

    /** The first padding byte, and a block of its own if the length does not fit behind it. */
    method Mark() returns (used: nat, ghost zeros: nat)
      requires Valid()
      modifies this`st, this`head, buffer
      ensures Whole(head) && st == Blocks(f, Init(), head) && used <= 56 && zeros + 56 - used == Gap(|old(Message())|)
      ensures head + buffer[..used] == old(Message()) + [0x80] + Zeros(zeros)
    {
      used := Position();
      zeros := 0;
      GapOf(|head|, |pend|);
      Put(used, [0x80]);
      used := used + 1;
      var free := 64 - used;
      MarkSplit(head, pend, 0);
      if free < 8 {
        Put(used, Zeros(free));
        assert buffer[..64] == buffer[..];
        MarkSplit(head, pend, free);
        Flush();
        assert head + buffer[..0] == head;
        used, zeros := 0, free;
      }
    }

    /** ngx_md5_final: the digest of the padded message. */
    method Final() returns (result: seq<Byte>)
      requires Valid()
      modifies this, buffer
      ensures result == Digest(Blocks(f, Init(), Padded(old(Message()))))
    {
      ghost var msg := head + pend;
      Shifted(|msg|);
      var used, zeros := Mark();
      Length(used, zeros, msg);
      result := Digest(st);
    }

    /** The last zeros and the length complete the last block. */
    method Length(used: nat, ghost zeros: nat, ghost msg: seq<Byte>)
      requires buffer.Length == 64 && Whole(head) && st == Blocks(f, Init(), head)
      requires used <= 56 && zeros + 56 - used == Gap(|msg|) && bytes * 8 % TWO64 == 8 * |msg| % TWO64
      requires head + buffer[..used] == msg + [0x80] + Zeros(zeros)
      modifies this`st, this`head, buffer
      ensures st == Blocks(f, Init(), Padded(msg))
    {
      var free := 64 - used;
      ghost var first := buffer[..used];
      Put(used, Zeros(free - 8));
      Put(56, Little(bytes * 8 % TWO64));
      assert buffer[..64] == buffer[..];
      PadSplit(msg, head, first, zeros, free - 8, Little(8 * |msg| % TWO64));
      Flush();
    }
  }

  lemma Split(head: seq<Byte>, pend: seq<Byte>, data: seq<Byte>, n: nat)
    requires n <= |data|
    ensures head + (pend + data[..n]) + data[n..] == head + pend + data && head + (pend + data) == head + pend + data
  {
    assert data == data[..n] + data[n..];
  }

  lemma MarkSplit(head: seq<Byte>, pend: seq<Byte>, n: nat)
    ensures head + (pend + [0x80] + Zeros(n)) == head + pend + [0x80] + Zeros(n)
    ensures head + (pend + [0x80]) == head + pend + [0x80] + Zeros(0)
  {
  }

  lemma PadSplit(msg: seq<Byte>, head: seq<Byte>, first: seq<Byte>, m: nat, n: nat, len: seq<Byte>)
    requires head + first == msg + [0x80] + Zeros(m)
    ensures head + (first + Zeros(n) + len) == msg + [0x80] + Zeros(m + n) + len
  {
    assert Zeros(m + n) == Zeros(m) + Zeros(n);
    assert head + (first + Zeros(n) + len) == head + first + Zeros(n) + len;
    assert msg + [0x80] + (Zeros(m) + Zeros(n)) == msg + [0x80] + Zeros(m) + Zeros(n);
  }

  /** Whole blocks do not change what is used of the buffer. */
  lemma Used(h: nat, p: nat)
    requires h % 64 == 0 && p < 64
    ensures (h + p) % TWO64 % 64 == p
  {
    assert TWO64 == 64 * 0x400_0000_0000_0000;
  }

  lemma GapOf(h: nat, p: nat)
    requires h % 64 == 0 && p < 64
    ensures Gap(h + p) == if p >= 56 then 119 - p else 55 - p
  {
  }

  lemma Longer(n: nat, k: nat)
    ensures (n % TWO64 + k) % TWO64 == (n + k) % TWO64
  {
  }

  lemma Shifted(n: nat)
    ensures n % TWO64 * 8 % TWO64 == 8 * n % TWO64
  {
  }

  // ----- the order of bytes

  /** What some bytes stand for, the lowest first. */
  function NumberOf(bytes: seq<Byte>): int {
    if bytes == [] then 0 else bytes[0] + 0x100 * NumberOf(bytes[1..])
  }

  ghost predicate AreBytes(s: seq<Byte>) {
    forall i :: 0 <= i < |s| ==> 0 <= s[i] < 0x100
  }

  lemma Four(a: int, b: int, c: int, d: int)
    ensures NumberOf([a, b, c, d]) == a + 0x100 * (b + 0x100 * (c + 0x100 * d))
  {
    assert [a, b, c, d][1..] == [b, c, d] && [b, c, d][1..] == [c, d] && [c, d][1..] == [d] && [d][1..] == [];
    assert NumberOf([d]) == d;
    assert NumberOf([c, d]) == c + 0x100 * d;
  }

  lemma Distribute(p: int, b: int, s: int, a: int)
    ensures (p * b + s) * a == p * (a * b) + s * a
  {
    assert (p * b + s) * a == p * b * a + s * a;
    assert p * b * a == p * (a * b);
  }

  lemma Bounded(s: int, a: int, b: int, r: int)
    requires 0 <= s < b && 0 <= r < a
    ensures 0 <= s * a + r < a * b
  {
    assert s * a <= (b - 1) * a;
  }

  lemma Divided(n: int, a: int, b: int)
    requires 0 < a && 0 < b
    ensures n / (a * b) == n / a / b
  {
    var q, r := n / a, n % a;
    var p, s := q / b, q % b;
    Distribute(p, b, s, a);
    Bounded(s, a, b, r);
    Quotient(n, a * b, p, s * a + r);
  }

  lemma Quotient(n: int, d: int, p: int, r: int)
    requires 0 < d && n == p * d + r && 0 <= r < d
    ensures n / d == p
  {
    var k := n / d - p;
    assert n == n / d * d + n % d;
    assert k * d == r - n % d;
    assert k >= 1 ==> k * d >= d;
    assert k <= -1 ==> k * d <= -d;
  }

  /** The bytes of a word stand for it. */
  lemma WordNumber(n: int)
    requires 0 <= n < 0x1_0000_0000
    ensures NumberOf(Word(n)) == n && AreBytes(Word(n))
  {
    Four(n % 0x100, n / 0x100 % 0x100, n / 0x1_0000 % 0x100, n / 0x100_0000 % 0x100);
    Divided(n, 0x100, 0x100);
    Divided(n, 0x1_0000, 0x100);
  }

  lemma {:induction false} NumberAppend(a: seq<Byte>, b: seq<Byte>)
    requires |a| == 4
    ensures NumberOf(a + b) == NumberOf(a) + 0x1_0000_0000 * NumberOf(b)
  {
    Four(a[0], a[1], a[2], a[3]);
    assert a == [a[0], a[1], a[2], a[3]];
    assert (a + b)[1..] == [a[1], a[2], a[3]] + b;
    assert ([a[1], a[2], a[3]] + b)[1..] == [a[2], a[3]] + b;
    assert ([a[2], a[3]] + b)[1..] == [a[3]] + b;
    assert ([a[3]] + b)[1..] == b;
    var x := NumberOf(b);
    assert NumberOf([a[3]] + b) == a[3] + 0x100 * x;
    assert NumberOf([a[2], a[3]] + b) == a[2] + 0x100 * (a[3] + 0x100 * x);
    assert NumberOf([a[1], a[2], a[3]] + b) == a[1] + 0x100 * (a[2] + 0x100 * (a[3] + 0x100 * x));
  }

  /** The eight bytes behind the padding stand for the length. */
  lemma LittleNumber(n: int)
    requires 0 <= n < TWO64
    ensures NumberOf(Little(n)) == n && AreBytes(Little(n))
  {
    var low, high := n % 0x1_0000_0000, n / 0x1_0000_0000;
    LowWord(n, low);
    HighWord(n, high);
    assert Little(n) == Word(low) + Word(high);
    WordNumber(low);
    WordNumber(high);
    NumberAppend(Word(low), Word(high));
  }

  lemma LowWord(n: int, low: int)
    requires 0 <= n && low == n % 0x1_0000_0000
    ensures Word(low) == [n % 0x100, n / 0x100 % 0x100, n / 0x1_0000 % 0x100, n / 0x100_0000 % 0x100]
  {
    var h := n / 0x1_0000_0000;
    SameByte(n, low, h, 1, 0x100_0000);
    SameByte(n, low, h, 0x100, 0x1_0000);
    SameByte(n, low, h, 0x1_0000, 0x100);
    SameByte(n, low, h, 0x100_0000, 1);
  }

  /** What lies above a byte does not matter for it. */
  lemma SameByte(n: int, low: int, h: int, d: int, m: int)
    requires 0 < d && n == h * (0x100 * m * d) + low
    ensures n / d % 0x100 == low / d % 0x100
  {
    var q, r := low / d, low % d;
    assert low == q * d + r;
    assert n == (h * (0x100 * m) + q) * d + r by {
      assert h * (0x100 * m * d) == h * (0x100 * m) * d;
    }
    Quotient(n, d, h * (0x100 * m) + q, r);
    assert h * (0x100 * m) == 0x100 * (h * m);
    assert (0x100 * (h * m) + q) % 0x100 == q % 0x100;
  }

  lemma HighWord(n: int, high: int)
    requires 0 <= n && high == n / 0x1_0000_0000
    ensures Word(high) == [n / 0x1_0000_0000 % 0x100, n / 0x100_0000_0000 % 0x100, n / 0x1_0000_0000_0000 % 0x100,
                           n / 0x100_0000_0000_0000 % 0x100]
  {
    Divided(n, 0x1_0000_0000, 0x100);
    Divided(n, 0x1_0000_0000, 0x1_0000);
    Divided(n, 0x1_0000_0000, 0x100_0000);
  }

  /** A padded message is whole blocks: the message, a one bit, zeros, and the length in bits. */
  lemma PaddedParts(msg: seq<Byte>)
    ensures var p, n := Padded(msg), |msg|;
      && |p| % 64 == 0 && n + 9 <= |p| < n + 9 + 64
      && p[..n] == msg && p[n] == 0x80 && (forall i :: n < i < |p| - 8 ==> p[i] == 0)
      && NumberOf(p[|p| - 8..]) == 8 * n % 0x1_0000_0000_0000_0000
  {
    var p, bits := Padded(msg), 8 * |msg| % TWO64;
    LittleNumber(bits);
    assert p[|p| - 8..] == Little(bits);
  }

  /** The initial words in bytes, as section 3.3 of RFC 1321 lists them. */
  lemma InitBytes()
    ensures NumberOf([0x01, 0x23, 0x45, 0x67]) == Init().a && NumberOf([0x89, 0xab, 0xcd, 0xef]) == Init().b
    ensures NumberOf([0xfe, 0xdc, 0xba, 0x98]) == Init().c && NumberOf([0x76, 0x54, 0x32, 0x10]) == Init().d
  {
    Four(0x01, 0x23, 0x45, 0x67);
    Four(0x89, 0xab, 0xcd, 0xef);
    Four(0xfe, 0xdc, 0xba, 0x98);
    Four(0x76, 0x54, 0x32, 0x10);
  }

  // ----- the basic functions

  /** The faster form of F is the one of section 3.4. */
  lemma FasterF(x: bv32, y: bv32, z: bv32)
    ensures z ^ (x & (y ^ z)) == (x & y) | (!x & z)
  {
  }

  /** The faster form of G is the one of section 3.4. */
  lemma FasterG(x: bv32, y: bv32, z: bv32)
    ensures y ^ (z & (x ^ y)) == (x & z) | (y & !z)
  {
  }
}
