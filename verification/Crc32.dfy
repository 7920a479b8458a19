/**
  CRC-32 with the polynomial 0xEDB88320: bit by bit, with a table of 16 entries and
  with a table of 256 entries.
 */
module Crc32 {

  type Byte = bv8

  // ----- the tables

  /** The entry of a table of 16. */
  function Select(i: bv32, t0: bv32, t1: bv32, t2: bv32, t3: bv32, t4: bv32, t5: bv32, t6: bv32, t7: bv32,
                  t8: bv32, t9: bv32, t10: bv32, t11: bv32, t12: bv32, t13: bv32, t14: bv32, t15: bv32): bv32 {
    if i == 0 then t0 else if i == 1 then t1 else if i == 2 then t2 else if i == 3 then t3
    else if i == 4 then t4 else if i == 5 then t5 else if i == 6 then t6 else if i == 7 then t7
    else if i == 8 then t8 else if i == 9 then t9 else if i == 10 then t10 else if i == 11 then t11
    else if i == 12 then t12 else if i == 13 then t13 else if i == 14 then t14 else t15
  }

  /** ngx_crc32_table16 */
  function Table16(i: bv32): bv32 {
    Select(i,
           0x00000000, 0x1db71064, 0x3b6e20c8, 0x26d930ac, 0x76dc4190, 0x6b6b51f4, 0x4db26158, 0x5005713c,
           0xedb88320, 0xf00f9344, 0xd6d6a3e8, 0xcb61b38c, 0x9b64c2b0, 0x86d3d2d4, 0xa00ae278, 0xbdbdf21c)
  }

  // the rows of ngx_crc32_table256

  function Row0(i: bv32): bv32 {
    Select(i,
           0x00000000, 0x77073096, 0xee0e612c, 0x990951ba, 0x076dc419, 0x706af48f, 0xe963a535, 0x9e6495a3,
           0x0edb8832, 0x79dcb8a4, 0xe0d5e91e, 0x97d2d988, 0x09b64c2b, 0x7eb17cbd, 0xe7b82d07, 0x90bf1d91)
  }

  function Row1(i: bv32): bv32 {
    Select(i,
           0x1db71064, 0x6ab020f2, 0xf3b97148, 0x84be41de, 0x1adad47d, 0x6ddde4eb, 0xf4d4b551, 0x83d385c7,
           0x136c9856, 0x646ba8c0, 0xfd62f97a, 0x8a65c9ec, 0x14015c4f, 0x63066cd9, 0xfa0f3d63, 0x8d080df5)
  }

  function Row2(i: bv32): bv32 {
    Select(i,
           0x3b6e20c8, 0x4c69105e, 0xd56041e4, 0xa2677172, 0x3c03e4d1, 0x4b04d447, 0xd20d85fd, 0xa50ab56b,
           0x35b5a8fa, 0x42b2986c, 0xdbbbc9d6, 0xacbcf940, 0x32d86ce3, 0x45df5c75, 0xdcd60dcf, 0xabd13d59)
  }

  function Row3(i: bv32): bv32 {
    Select(i,
           0x26d930ac, 0x51de003a, 0xc8d75180, 0xbfd06116, 0x21b4f4b5, 0x56b3c423, 0xcfba9599, 0xb8bda50f,
           0x2802b89e, 0x5f058808, 0xc60cd9b2, 0xb10be924, 0x2f6f7c87, 0x58684c11, 0xc1611dab, 0xb6662d3d)
  }

  function Row4(i: bv32): bv32 {
    Select(i,
           0x76dc4190, 0x01db7106, 0x98d220bc, 0xefd5102a, 0x71b18589, 0x06b6b51f, 0x9fbfe4a5, 0xe8b8d433,
           0x7807c9a2, 0x0f00f934, 0x9609a88e, 0xe10e9818, 0x7f6a0dbb, 0x086d3d2d, 0x91646c97, 0xe6635c01)
  }

  function Row5(i: bv32): bv32 {
    Select(i,
           0x6b6b51f4, 0x1c6c6162, 0x856530d8, 0xf262004e, 0x6c0695ed, 0x1b01a57b, 0x8208f4c1, 0xf50fc457,
           0x65b0d9c6, 0x12b7e950, 0x8bbeb8ea, 0xfcb9887c, 0x62dd1ddf, 0x15da2d49, 0x8cd37cf3, 0xfbd44c65)
  }

  function Row6(i: bv32): bv32 {
    Select(i,
           0x4db26158, 0x3ab551ce, 0xa3bc0074, 0xd4bb30e2, 0x4adfa541, 0x3dd895d7, 0xa4d1c46d, 0xd3d6f4fb,
           0x4369e96a, 0x346ed9fc, 0xad678846, 0xda60b8d0, 0x44042d73, 0x33031de5, 0xaa0a4c5f, 0xdd0d7cc9)
  }

  function Row7(i: bv32): bv32 {
    Select(i,
           0x5005713c, 0x270241aa, 0xbe0b1010, 0xc90c2086, 0x5768b525, 0x206f85b3, 0xb966d409, 0xce61e49f,
           0x5edef90e, 0x29d9c998, 0xb0d09822, 0xc7d7a8b4, 0x59b33d17, 0x2eb40d81, 0xb7bd5c3b, 0xc0ba6cad)
  }

  function Row8(i: bv32): bv32 {
    Select(i,
           0xedb88320, 0x9abfb3b6, 0x03b6e20c, 0x74b1d29a, 0xead54739, 0x9dd277af, 0x04db2615, 0x73dc1683,
           0xe3630b12, 0x94643b84, 0x0d6d6a3e, 0x7a6a5aa8, 0xe40ecf0b, 0x9309ff9d, 0x0a00ae27, 0x7d079eb1)
  }

  function Row9(i: bv32): bv32 {
    Select(i,
           0xf00f9344, 0x8708a3d2, 0x1e01f268, 0x6906c2fe, 0xf762575d, 0x806567cb, 0x196c3671, 0x6e6b06e7,
           0xfed41b76, 0x89d32be0, 0x10da7a5a, 0x67dd4acc, 0xf9b9df6f, 0x8ebeeff9, 0x17b7be43, 0x60b08ed5)
  }

  function RowA(i: bv32): bv32 {
    Select(i,
           0xd6d6a3e8, 0xa1d1937e, 0x38d8c2c4, 0x4fdff252, 0xd1bb67f1, 0xa6bc5767, 0x3fb506dd, 0x48b2364b,
           0xd80d2bda, 0xaf0a1b4c, 0x36034af6, 0x41047a60, 0xdf60efc3, 0xa867df55, 0x316e8eef, 0x4669be79)
  }

  function RowB(i: bv32): bv32 {
    Select(i,
           0xcb61b38c, 0xbc66831a, 0x256fd2a0, 0x5268e236, 0xcc0c7795, 0xbb0b4703, 0x220216b9, 0x5505262f,
           0xc5ba3bbe, 0xb2bd0b28, 0x2bb45a92, 0x5cb36a04, 0xc2d7ffa7, 0xb5d0cf31, 0x2cd99e8b, 0x5bdeae1d)
  }

  function RowC(i: bv32): bv32 {
    Select(i,
           0x9b64c2b0, 0xec63f226, 0x756aa39c, 0x026d930a, 0x9c0906a9, 0xeb0e363f, 0x72076785, 0x05005713,
           0x95bf4a82, 0xe2b87a14, 0x7bb12bae, 0x0cb61b38, 0x92d28e9b, 0xe5d5be0d, 0x7cdcefb7, 0x0bdbdf21)
  }

  function RowD(i: bv32): bv32 {
    Select(i,
           0x86d3d2d4, 0xf1d4e242, 0x68ddb3f8, 0x1fda836e, 0x81be16cd, 0xf6b9265b, 0x6fb077e1, 0x18b74777,
           0x88085ae6, 0xff0f6a70, 0x66063bca, 0x11010b5c, 0x8f659eff, 0xf862ae69, 0x616bffd3, 0x166ccf45)
  }

  function RowE(i: bv32): bv32 {
    Select(i,
           0xa00ae278, 0xd70dd2ee, 0x4e048354, 0x3903b3c2, 0xa7672661, 0xd06016f7, 0x4969474d, 0x3e6e77db,
           0xaed16a4a, 0xd9d65adc, 0x40df0b66, 0x37d83bf0, 0xa9bcae53, 0xdebb9ec5, 0x47b2cf7f, 0x30b5ffe9)
  }

  function RowF(i: bv32): bv32 {
    Select(i,
           0xbdbdf21c, 0xcabac28a, 0x53b39330, 0x24b4a3a6, 0xbad03605, 0xcdd70693, 0x54de5729, 0x23d967bf,
           0xb3667a2e, 0xc4614ab8, 0x5d681b02, 0x2a6f2b94, 0xb40bbe37, 0xc30c8ea1, 0x5a05df1b, 0x2d02ef8d)
  }

  /** ngx_crc32_table256 */
  function Table256(i: bv32): bv32 {
    var h, l := i >> 4, i & 0xf;
    if h == 0 then Row0(l) else if h == 1 then Row1(l) else if h == 2 then Row2(l) else if h == 3 then Row3(l)
    else if h == 4 then Row4(l) else if h == 5 then Row5(l) else if h == 6 then Row6(l) else if h == 7 then Row7(l)
    else if h == 8 then Row8(l) else if h == 9 then Row9(l) else if h == 10 then RowA(l) else if h == 11 then RowB(l)
    else if h == 12 then RowC(l) else if h == 13 then RowD(l) else if h == 14 then RowE(l) else RowF(l)
  }

  // ----- bit by bit

  /** One bit: division by the polynomial. */
  function Step(c: bv32): bv32 {
    (c >> 1) ^ if c & 1 == 1 then 0xedb88320 else 0
  }

  function Step4(c: bv32): bv32 {
    Step(Step(Step(Step(c))))
  }

  function Step8(c: bv32): bv32 {
    Step4(Step4(c))
  }

  lemma Row0Is(i: bv32)
    requires i < 16
    ensures Row0(i) == Step8(0 | i)
  {
  }

  lemma Row1Is(i: bv32)
    requires i < 16
    ensures Row1(i) == Step8(0x10 | i)
  {
  }

  lemma Row2Is(i: bv32)
    requires i < 16
    ensures Row2(i) == Step8(0x20 | i)
  {
  }

  lemma Row3Is(i: bv32)
    requires i < 16
    ensures Row3(i) == Step8(0x30 | i)
  {
  }

  lemma Row4Is(i: bv32)
    requires i < 16
    ensures Row4(i) == Step8(0x40 | i)
  {
  }

  lemma Row5Is(i: bv32)
    requires i < 16
    ensures Row5(i) == Step8(0x50 | i)
  {
  }

  lemma Row6Is(i: bv32)
    requires i < 16
    ensures Row6(i) == Step8(0x60 | i)
  {
  }

  lemma Row7Is(i: bv32)
    requires i < 16
    ensures Row7(i) == Step8(0x70 | i)
  {
  }

  lemma Row8Is(i: bv32)
    requires i < 16
    ensures Row8(i) == Step8(0x80 | i)
  {
  }

  lemma Row9Is(i: bv32)
    requires i < 16
    ensures Row9(i) == Step8(0x90 | i)
  {
  }

  lemma RowAIs(i: bv32)
    requires i < 16
    ensures RowA(i) == Step8(0xa0 | i)
  {
  }

  lemma RowBIs(i: bv32)
    requires i < 16
    ensures RowB(i) == Step8(0xb0 | i)
  {
  }

  lemma RowCIs(i: bv32)
    requires i < 16
    ensures RowC(i) == Step8(0xc0 | i)
  {
  }

  lemma RowDIs(i: bv32)
    requires i < 16
    ensures RowD(i) == Step8(0xd0 | i)
  {
  }

  lemma RowEIs(i: bv32)
    requires i < 16
    ensures RowE(i) == Step8(0xe0 | i)
  {
  }

  lemma RowFIs(i: bv32)
    requires i < 16
    ensures RowF(i) == Step8(0xf0 | i)
  {
  }

  lemma Table256Is(i: bv32)
    requires i < 256
    ensures Table256(i) == Step8(i)
  {
    var h, l := i >> 4, i & 0xf;
    assert l < 16 && h < 16 && i == (h << 4) | l;
    if {
      case h == 0 => Row0Is(l);
      case h == 1 => Row1Is(l);
      case h == 2 => Row2Is(l);
      case h == 3 => Row3Is(l);
      case h == 4 => Row4Is(l);
      case h == 5 => Row5Is(l);
      case h == 6 => Row6Is(l);
      case h == 7 => Row7Is(l);
      case h == 8 => Row8Is(l);
      case h == 9 => Row9Is(l);
      case h == 10 => RowAIs(l);
      case h == 11 => RowBIs(l);
      case h == 12 => RowCIs(l);
      case h == 13 => RowDIs(l);
      case h == 14 => RowEIs(l);
      case h == 15 => RowFIs(l);
    }
  }

  // ----- one byte, for any half-byte step and any tables

  /** The table of 16 gives the low bits of a half-byte step, and the others only move. */
  ghost predicate Tabulates16(f: bv32 -> bv32, t: bv32 -> bv32) {
    forall x :: f(x) == t(x & 0xf) ^ (x >> 4)
  }

  /** The table of 256 does the same for two half-byte steps. */
  ghost predicate Tabulates256(f: bv32 -> bv32, t: bv32 -> bv32) {
    forall x :: f(f(x)) == t(x & 0xff) ^ (x >> 8)
  }

  /** One byte with the table of 16. */
  function ShortByte(t: bv32 -> bv32, crc: bv32, c: Byte): bv32 {
    var d := c as bv32;
    var first := t((crc ^ (d & 0xf)) & 0xf) ^ (crc >> 4);
    t((first ^ (d >> 4)) & 0xf) ^ (first >> 4)
  }

  /** One byte with the table of 256. */
  function LongByte(t: bv32 -> bv32, crc: bv32, c: Byte): bv32 {
    t((crc ^ (c as bv32)) & 0xff) ^ (crc >> 8)
  }

  lemma ByteShift(crc: bv32, c: Byte)
    ensures (crc ^ (c as bv32)) >> 8 == crc >> 8
  {
  }

  lemma HalfShift(crc: bv32, c: Byte, t: bv32)
    ensures var d := c as bv32;
      var first := t ^ (crc >> 4);
      && (crc ^ (d & 0xf)) & 0xf == (crc ^ d) & 0xf
      && first ^ (d >> 4) == t ^ ((crc ^ d) >> 4)
      && first >> 4 == (first ^ (d >> 4)) >> 4
  {
  }

  lemma ShortStep(f: bv32 -> bv32, t: bv32 -> bv32, crc: bv32, c: Byte)
    requires Tabulates16(f, t)
    ensures ShortByte(t, crc, c) == f(f(crc ^ (c as bv32)))
  {
    HalfShift(crc, c, t((crc ^ (c as bv32)) & 0xf));
  }

  lemma LongStep(f: bv32 -> bv32, t: bv32 -> bv32, crc: bv32, c: Byte)
    requires Tabulates256(f, t)
    ensures LongByte(t, crc, c) == f(f(crc ^ (c as bv32)))
  {
    ByteShift(crc, c);
  }

  // ----- strings

  /** A string, byte by byte. */
  function Fold(g: (bv32, Byte) -> bv32, crc: bv32, p: seq<Byte>): bv32 {
    if p == [] then crc else g(Fold(g, crc, p[..|p| - 1]), p[|p| - 1])
  }

  lemma {:induction false} FoldSame(g: (bv32, Byte) -> bv32, h: (bv32, Byte) -> bv32, crc: bv32, p: seq<Byte>)
    requires forall x, c :: g(x, c) == h(x, c)
    ensures Fold(g, crc, p) == Fold(h, crc, p)
  {
    if p != [] {
      FoldSame(g, h, crc, p[..|p| - 1]);
    }
  }

  /** Two pieces one after the other are their concatenation. */
  lemma {:induction false} FoldPieces(g: (bv32, Byte) -> bv32, crc: bv32, p: seq<Byte>, q: seq<Byte>)
    ensures Fold(g, Fold(g, crc, p), q) == Fold(g, crc, p + q)
  {
    if q == [] {
      assert p + q == p;
    } else {
      var init := q[..|q| - 1];
      FoldPieces(g, crc, p, init);
      assert (p + q)[..|p + q| - 1] == p + init;
    }
  }

  /** The loops of the three functions: every byte goes through one expression. */
  method Loop(g: (bv32, Byte) -> bv32, crc0: bv32, p: seq<Byte>) returns (crc: bv32)
    ensures crc == Fold(g, crc0, p)
  {
    crc := crc0;
    for i := 0 to |p|
      invariant crc == Fold(g, crc0, p[..i])
    {
      crc := g(crc, p[i]);
      assert p[..i + 1][..i] == p[..i];
    }
    assert p[..|p|] == p;
  }

  // ----- the tables are right

  /** Four steps divide the low bits, which the table does, and the others only move. */
  lemma ShortEntry(x: bv32)
    ensures Step4(x) == Table16(x & 0xf) ^ (x >> 4)
  {
  }

  /** Eight steps divide the low byte, and the others only move. */
  lemma Split8(x: bv32)
    ensures Step8(x) == Step8(x & 0xff) ^ (x >> 8)
  {
    if x & 1 == 0 {
      Split8Even(x);
    } else {
      Split8Odd(x);
    }
  }

  lemma Split8Even(x: bv32)
    requires x & 1 == 0
    ensures Step8(x) == Step8(x & 0xff) ^ (x >> 8)
  {
  }

  lemma Split8Odd(x: bv32)
    requires x & 1 == 1
    ensures Step8(x) == Step8(x & 0xff) ^ (x >> 8)
  {
  }

  /** Any word; naming one is what makes a proof look at it. */
  predicate Word(x: bv32) {
    true
  }

  /** Entries that are right for single bytes make a table that is right for every word. */
  lemma LongTable(f: bv32 -> bv32, t: bv32 -> bv32)
    requires Splits(f) && Entries(f, t)
    ensures Tabulates256(f, t)
  {
    forall x: bv32 ensures f(f(x)) == t(x & 0xff) ^ (x >> 8) {
      assert Word(x);
      assert x & 0xff < 256;
    }
  }

  lemma ShortTable()
    ensures Tabulates16(Step4, Table16)
  {
    forall x: bv32 ensures Step4(x) == Table16(x & 0xf) ^ (x >> 4) {
      ShortEntry(x);
    }
  }

  /** Two half-byte steps divide the low byte, and the others only move. */
  ghost predicate Splits(f: bv32 -> bv32) {
    forall x {:trigger Word(x)} :: Word(x) ==> f(f(x)) == f(f(x & 0xff)) ^ (x >> 8)
  }

  ghost predicate Entries(f: bv32 -> bv32, t: bv32 -> bv32) {
    forall i: bv32 :: i < 256 ==> f(f(i)) == t(i)
  }

  lemma StepsSplit()
    ensures Splits(Step4)
  {
    forall x: bv32 {:trigger Word(x)} | Word(x) ensures Step4(Step4(x)) == Step4(Step4(x & 0xff)) ^ (x >> 8) {
      Split8(x);
    }
  }

  lemma TableEntries()
    ensures Entries(Step4, Table256)
  {
    forall i: bv32 | i < 256 ensures Step4(Step4(i)) == Table256(i) {
      Table256Is(i);
    }
  }

  lemma FullTable()
    ensures Tabulates256(Step4, Table256)
  {
    StepsSplit();
    TableEntries();
    LongTable(Step4, Table256);
  }

  // ----- the code

  /** The reference: a byte is added, and eight bits are divided. */
  function BitsByte(crc: bv32, c: Byte): bv32 {
    Step8(crc ^ (c as bv32))
  }

  function Bits(crc: bv32, p: seq<Byte>): bv32 {
    Fold(BitsByte, crc, p)
  }

  function ByShort(crc: bv32, c: Byte): bv32 {
    ShortByte(Table16, crc, c)
  }

  function ByLong(crc: bv32, c: Byte): bv32 {
    LongByte(Table256, crc, c)
  }

  lemma ShortBytes()
    ensures forall x, c :: ByShort(x, c) == BitsByte(x, c)
  {
    ShortTable();
    forall x: bv32, c: Byte ensures ByShort(x, c) == BitsByte(x, c) {
      ShortStep(Step4, Table16, x, c);
    }
  }

  lemma LongBytes()
    ensures forall x, c :: ByLong(x, c) == BitsByte(x, c)
  {
    FullTable();
    forall x: bv32, c: Byte ensures ByLong(x, c) == BitsByte(x, c) {
      LongStep(Step4, Table256, x, c);
    }
  }

  /** ngx_crc32_short */
  method Crc32Short(p: seq<Byte>) returns (r: bv32)
    ensures r == Bits(0xffffffff, p) ^ 0xffffffff
  {
    ShortBytes();
    FoldSame(ByShort, BitsByte, 0xffffffff, p);
    var crc := Loop(ByShort, 0xffffffff, p);
    r := crc ^ 0xffffffff;
  }

  /** ngx_crc32_update */
  method Crc32Update(crc: bv32, p: seq<Byte>) returns (c: bv32)
    ensures c == Bits(crc, p)
  {
    LongBytes();
    FoldSame(ByLong, BitsByte, crc, p);
    c := Loop(ByLong, crc, p);
  }

  /** ngx_crc32_long */
  method Crc32Long(p: seq<Byte>) returns (r: bv32)
    ensures r == Bits(0xffffffff, p) ^ 0xffffffff
  {
    var crc := Crc32Update(0xffffffff, p);
    r := crc ^ 0xffffffff;
  }

  /** Updating with two pieces is updating with their concatenation. */
  method UpdateTwice(crc: bv32, p: seq<Byte>, q: seq<Byte>) returns (c: bv32)
    ensures c == Bits(crc, p + q)
  {
    c := Crc32Update(crc, p);
    c := Crc32Update(c, q);
    FoldPieces(BitsByte, crc, p, q);
  }
}
