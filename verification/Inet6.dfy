/**
  IPv6 addresses as text (section 2.2 of RFC 4291, section 4.2 of RFC 5952).  An
  address is the sequence of its eight 16-bit words.
 */
module Inet6 {

  datatype Option<T> = None | Some(value: T)

  type Words = seq<int>

  ghost predicate Address(w: Words) {
    |w| == 8 && forall i :: 0 <= i < 8 ==> 0 <= w[i] < 0x1_0000
  }

  /** INADDR_NONE, which is also the value of 255.255.255.255. */
  const INADDR_NONE: int := 0xffff_ffff

  // ----- numbers

  predicate IsDigit(c: char) {
    '0' <= c <= '9'
  }

  /** The value of a hexadecimal digit, in lower or upper case. */
  function Nibble(c: char): Option<int> {
    if IsDigit(c) then Some(c as int - '0' as int)
    else if 'a' <= c <= 'f' then Some(c as int - 'a' as int + 10)
    else if 'A' <= c <= 'F' then Some(c as int - 'A' as int + 10)
    else None
  }

  function Digit(n: int): (c: char)
    requires 0 <= n < 16
    ensures Nibble(c) == Some(n) && c != ':' && c != '.'
    ensures n < 10 ==> IsDigit(c) && c as int - '0' as int == n
  {
    if n < 10 then (n + '0' as int) as char else (n - 10 + 'a' as int) as char
  }

  /** "%xd" */
  function Hex(n: int): (s: string)
    requires 0 <= n
    ensures s != [] && (forall c :: c in s ==> c != ':' && c != '.')
    decreases n
  {
    if n < 16 then [Digit(n)] else Hex(n / 16) + [Digit(n % 16)]
  }

  /** "%ud" */
  function Dec(n: int): (s: string)
    requires 0 <= n
    ensures s != [] && (forall c :: c in s ==> IsDigit(c))
    decreases n
  {
    if n < 10 then [Digit(n)] else Dec(n / 10) + [Digit(n % 10)]
  }

  // ----- IPv4

  /** The loop of ngx_inet_addr from a given state on: the address as a number, or INADDR_NONE. */
  function Quad(s: string, addr: int, octet: int, n: nat): int {
    if s == [] then
      if n == 3 then addr * 256 + octet else INADDR_NONE
    else if IsDigit(s[0]) then
      var o := octet * 10 + (s[0] as int - '0' as int);
      if o > 255 then INADDR_NONE else Quad(s[1..], addr, o, n)
    else if s[0] == '.' then Quad(s[1..], addr * 256 + octet, 0, n + 1)
    else INADDR_NONE
  }

  /** ngx_inet_addr */
  method InetAddr(text: string) returns (r: int)
    ensures r == Quad(text, 0, 0, 0)
  {
    var addr, octet, n := 0, 0, 0;
    for i := 0 to |text|
      invariant 0 <= n && Quad(text, 0, 0, 0) == Quad(text[i..], addr, octet, n)
    {
      var c := text[i];
      assert text[i..][0] == c && text[i..][1..] == text[i + 1..];
      if IsDigit(c) {
        octet := octet * 10 + (c as int - '0' as int);
        if octet > 255 {
          return INADDR_NONE;
        }
      } else if c == '.' {
        addr, octet, n := addr * 256 + octet, 0, n + 1;
      } else {
        return INADDR_NONE;
      }
    }
    return if n == 3 then addr * 256 + octet else INADDR_NONE;
  }

  // ----- parsing

  /**
    The state of ngx_inet6_addr: the words written, where the zeros are missing, the
    word being read, and the text behind the last colon.
   */
  datatype St = St(out: Words, zero: Option<nat>, word: int, nibbles: nat, from: Option<string>)

  function Zeros(n: nat): (r: Words)
    ensures |r| == n
  {
    seq(n, i => 0)
  }

  /** The last word is written and the missing zeros are inserted. */
  function Finish(out0: Words, zero: Option<nat>, word: int): Option<Words>
    requires |out0| < 8 && (zero.Some? ==> zero.value <= |out0|)
  {
    var out := out0 + [word];
    if |out| < 8 then
      if zero.Some? then Some(out[..zero.value] + Zeros(8 - |out|) + out[zero.value..]) else None
    else
      if zero.None? then Some(out) else None
  }

  predicate Fine(st: St) {
    |st.out| < 8 && (st.zero.Some? ==> st.zero.value <= |st.out|)
  }

  /** The loop of ngx_inet6_addr from a given state on. */
  function Run(st: St, s: string): Option<Words>
    requires Fine(st)
    decreases |s|
  {
    if s == [] then
      if st.nibbles == 0 && st.zero.None? then None else Finish(st.out, st.zero, st.word)
    else
      var c, rest := s[0], s[1..];
      if c == ':' then
        if st.nibbles > 0 then
          if |st.out| + 1 < 8 then Run(St(st.out + [st.word], st.zero, 0, 0, Some(rest)), rest) else None
        else if st.zero.None? then Run(st.(zero := Some(|st.out|), from := Some(rest)), rest)
        else None
      else if c == '.' && st.nibbles > 0 then
        if 8 - |st.out| < 2 || st.from.None? then None
        else
          var v := Quad(st.from.value, 0, 0, 0);
          if v == INADDR_NONE then None else Finish(st.out + [v / 0x1_0000], st.zero, v % 0x1_0000)
      else if st.nibbles + 1 > 4 then None
      else
        var d := Nibble(c);
        if d.None? then None else Run(st.(word := st.word * 16 + d.value, nibbles := st.nibbles + 1), rest)
  }

  const START := St([], None, 0, 0, None)

  function Parse(s: string): Option<Words> {
    if s == [] then None else Run(START, if s[0] == ':' then s[1..] else s)
  }

  /** ngx_inet6_addr */
  method Inet6Addr(text: string) returns (r: Option<Words>)
    ensures r == Parse(text)
  {
    if |text| == 0 {
      return None;
    }
    var zero: Option<nat>, from: Option<string>, nibbles, word := None, None, 0, 0;
    var addr: Words := [];
    var i := if text[0] == ':' then 1 else 0;
    while i < |text|
      invariant 0 <= i <= |text| && 0 <= nibbles && Fine(St(addr, zero, word, nibbles, from))
      invariant Parse(text) == Run(St(addr, zero, word, nibbles, from), text[i..])
    {
      var c := text[i];
      assert text[i..][0] == c && text[i..][1..] == text[i + 1..];
      i := i + 1;
      if c == ':' {
        if nibbles > 0 {
          from := Some(text[i..]);
          addr := addr + [word];
          if |addr| < 8 {
            nibbles, word := 0, 0;
            continue;
          }
        } else if zero.None? {
          from := Some(text[i..]);
          zero := Some(|addr|);
          continue;
        }
        return None;
      }
      if c == '.' && nibbles > 0 {
        if 8 - |addr| < 2 || from.None? {
          return None;
        }
        word := InetAddr(from.value);
        if word == INADDR_NONE {
          return None;
        }
        return Finish(addr + [word / 0x1_0000], zero, word % 0x1_0000);
      }
      nibbles := nibbles + 1;
      var d := Nibble(c);
      if nibbles > 4 || d.None? {
        return None;
      }
      word := word * 16 + d.value;
    }
    if nibbles == 0 && zero.None? {
      return None;
    }
    r := Finish(addr, zero, word);
  }

  // ----- printing

  /** `m` zero words from `z` on, at least two. */
  ghost predicate ZeroRun(w: Words, z: int, m: int)
    requires |w| == 8
  {
    0 <= z && 2 <= m && z + m <= 8 && forall i :: z <= i < z + m ==> w[i] == 0
  }

  /** The run is the leftmost of the longest ones. */
  ghost predicate BestRun(w: Words, z: int, m: int)
    requires |w| == 8
  {
    && (z == -1 ==> m == 1) && (z != -1 ==> ZeroRun(w, z, m))
    && forall y, n :: ZeroRun(w, y, n) ==> n < m || (n == m && z <= y)
  }

  /** The address ends with an embedded IPv4 address. */
  predicate Embedded(w: Words, z: int, m: int)
    requires |w| == 8
  {
    z == 0 && ((m == 5 && w[5] == 0xffff) || m == 6 || (m == 7 && w[7] / 256 != 0 && w[7] % 256 != 1))
  }

  /** The words from i to n, with a colon in the place of the run. */
  function Groups(w: Words, z: int, m: int, n: nat, i: nat): string
    requires |w| == 8 && n <= 8 && m >= 1 && forall j :: 0 <= j < 8 ==> 0 <= w[j]
    decreases 8 - i
  {
    if i >= n then ""
    else if i == z then ":" + Groups(w, z, m, n, i + m)
    else Hex(w[i]) + (if i < 7 then ":" else "") + Groups(w, z, m, n, i + 1)
  }

  function QuadText(hi: int, lo: int): string
    requires 0 <= hi && 0 <= lo
  {
    Dec(hi / 256) + "." + (Dec(hi % 256) + "." + (Dec(lo / 256) + "." + Dec(lo % 256)))
  }

  function Text(w: Words, z: int, m: int): string
    requires |w| == 8 && m >= 1 && forall j :: 0 <= j < 8 ==> 0 <= w[j]
  {
    (if z == 0 then ":" else "")
    + if Embedded(w, z, m) then Groups(w, z, m, 6, 0) + QuadText(w[6], w[7]) else Groups(w, z, m, 8, 0)
  }

  /** The first loop of ngx_inet6_ntop. */
  method FindRun(w: Words) returns (zero: int, max: int)
    requires Address(w)
    ensures BestRun(w, zero, max)
  {
    var last, n := -1, 0;
    zero, max := -1, 1;
    var i := 0;
    while i < 8
      invariant 0 <= n <= i <= 8 && Scanned(w, i, n, zero, max) && (n > 0 ==> last == i - n)
    {
      ScanStep(w, i, n, zero, max);
      if w[i] != 0 {
        if max < n {
          zero, max := last, n;
        }
        n := 0;
      } else {
        if n == 0 {
          last := i;
        }
        n := n + 1;
      }
      i := i + 1;
    }
    ScanEnd(w, 8, n, zero, max);
    if max < n {
      zero, max := last, n;
    }
  }

  /** The last n words before i are zero, and the run found so far is the best one before them. */
  ghost predicate Scanned(w: Words, i: nat, n: nat, z: int, m: int)
    requires |w| == 8 && n <= i <= 8
  {
    && (forall j :: i - n <= j < i ==> w[j] == 0) && (n < i ==> w[i - n - 1] != 0)
    && m >= 1 && (m == 1 <==> z == -1) && (m > 1 ==> ZeroRun(w, z, m) && z + m <= i - n)
    && forall y, k :: ZeroRun(w, y, k) && y + k <= i - n ==> k < m || (k == m && z <= y)
  }

  /** At the end of a sequence of zeros, it is compared with the best run. */
  lemma ScanEnd(w: Words, i: nat, n: nat, z: int, m: int)
    requires |w| == 8 && n <= i <= 8 && Scanned(w, i, n, z, m)
    ensures var z', m' := if m < n then i - n else z, if m < n then n else m;
      && m' >= 1 && (m' == 1 <==> z' == -1) && (m' > 1 ==> ZeroRun(w, z', m') && z' + m' <= i)
      && forall y, k :: ZeroRun(w, y, k) && y + k <= i ==> k < m' || (k == m' && z' <= y)
  {
    forall y, k | ZeroRun(w, y, k) && i - n < y + k <= i ensures y >= i - n {}
  }

  lemma ScanStep(w: Words, i: nat, n: nat, z: int, m: int)
    requires |w| == 8 && n <= i < 8 && Scanned(w, i, n, z, m)
    ensures w[i] == 0 ==> Scanned(w, i + 1, n + 1, z, m)
    ensures w[i] != 0 ==> Scanned(w, i + 1, 0, if m < n then i - n else z, if m < n then n else m)
  {
    if w[i] != 0 {
      ScanEnd(w, i, n, z, m);
      forall y, k | ZeroRun(w, y, k) && y + k <= i + 1 ensures y + k <= i {}
    }
  }

  /** ngx_inet6_ntop */
  method Inet6Ntop(w: Words) returns (text: string, ghost z: int, ghost m: int)
    requires Address(w)
    ensures BestRun(w, z, m) && m >= 1 && text == Text(w, z, m)
  {
    var zero, max := FindRun(w);
    z, m := zero, max;
    text := "";
    var n := 8;
    if zero == 0 {
      if (max == 5 && w[5] / 256 == 0xff && w[5] % 256 == 0xff) || max == 6
         || (max == 7 && w[7] / 256 != 0 && w[7] % 256 != 1)
      {
        n := 6;
      }
      text := ":";
    }
    text := PrintGroups(w, zero, max, n, text);
    if n == 6 {
      Regroup(if z == 0 then ":" else "", Groups(w, z, m, 6, 0), QuadText(w[6], w[7]));
      text := text + QuadText(w[6], w[7]);
    }
  }

  /** The second loop of ngx_inet6_ntop. */
  method PrintGroups(w: Words, zero: int, max: int, n: nat, head: string) returns (text: string)
    requires Address(w) && max >= 1 && n <= 8
    ensures text == head + Groups(w, zero, max, n, 0)
  {
    text := head;
    var i := 0;
    while i < n
      invariant 0 <= i && head + Groups(w, zero, max, n, 0) == text + Groups(w, zero, max, n, i)
      decreases 8 - i
    {
      if i == zero {
        Regroup(text, ":", Groups(w, zero, max, n, i + max));
        text := text + ":";
        i := i + max;
        continue;
      }
      var more := Hex(w[i]) + if i < 7 then ":" else "";
      Regroup(text, more, Groups(w, zero, max, n, i + 1));
      text := text + more;
      i := i + 1;
    }
  }

  lemma Regroup(a: string, b: string, c: string)
    ensures a + (b + c) == a + b + c
  {
  }

  // ----- parsing what was printed

  /** The value of digits behind a word that has been read so far. */
  function Acc(word: int, s: string): int
    decreases |s|
  {
    if s == [] then word else Acc(word * 16 + (if Nibble(s[0]).Some? then Nibble(s[0]).value else 0), s[1..])
  }

  ghost predicate Nibbles(s: string) {
    forall i :: 0 <= i < |s| ==> Nibble(s[i]).Some? && s[i] != ':' && s[i] != '.'
  }

  lemma {:induction false} ReadNibbles(st: St, s: string, rest: string)
    requires Fine(st) && Nibbles(s) && st.nibbles + |s| <= 4
    ensures Run(st, s + rest) == Run(st.(word := Acc(st.word, s), nibbles := st.nibbles + |s|), rest)
    decreases |s|
  {
    if s == [] {
      assert s + rest == rest;
    } else {
      assert (s + rest)[0] == s[0] && (s + rest)[1..] == s[1..] + rest;
      var st' := st.(word := st.word * 16 + Nibble(s[0]).value, nibbles := st.nibbles + 1);
      assert Run(st, s + rest) == Run(st', s[1..] + rest);
      ReadNibbles(st', s[1..], rest);
    }
  }

  lemma {:induction false} AccSnoc(word: int, s: string, c: char)
    requires Nibble(c).Some?
    ensures Acc(word, s + [c]) == Acc(word, s) * 16 + Nibble(c).value
    decreases |s|
  {
    if s == [] {
      assert (s + [c])[1..] == [];
    } else {
      assert (s + [c])[0] == s[0] && (s + [c])[1..] == s[1..] + [c];
      AccSnoc(word * 16 + (if Nibble(s[0]).Some? then Nibble(s[0]).value else 0), s[1..], c);
    }
  }

  lemma {:induction false} HexValue(n: int)
    requires 0 <= n
    ensures Acc(0, Hex(n)) == n && Nibbles(Hex(n))
    decreases n
  {
    if n >= 16 {
      HexValue(n / 16);
      AccSnoc(0, Hex(n / 16), Digit(n % 16));
    }
  }

  lemma {:induction false} HexSize(n: int, bound: int, k: nat)
    requires 0 <= n < bound && (k == 1 ==> bound == 16) && k >= 1 && (k > 1 ==> bound % 16 == 0)
    requires bound == 16 || bound == 0x100 || bound == 0x1000 || bound == 0x1_0000
    requires k == if bound == 16 then 1 else if bound == 0x100 then 2 else if bound == 0x1000 then 3 else 4
    ensures |Hex(n)| <= k
    decreases k
  {
    if n >= 16 {
      HexSize(n / 16, bound / 16, k - 1);
    }
  }

  /** A word is read. */
  lemma ReadWord(st: St, n: int, rest: string)
    requires Fine(st) && st.word == 0 && st.nibbles == 0 && 0 <= n < 0x1_0000
    ensures Run(st, Hex(n) + rest) == Run(st.(word := n, nibbles := |Hex(n)|), rest)
  {
    HexValue(n);
    HexSize(n, 0x1_0000, 4);
    ReadNibbles(st, Hex(n), rest);
  }

  /** A word and the colon behind it are read. */
  lemma ReadColon(out: Words, zero: Option<nat>, from: Option<string>, n: int, rest: string)
    requires |out| < 7 && (zero.Some? ==> zero.value <= |out|) && 0 <= n < 0x1_0000
    ensures Run(St(out, zero, 0, 0, from), Hex(n) + ":" + rest) == Run(St(out + [n], zero, 0, 0, Some(rest)), rest)
  {
    var st := St(out, zero, 0, 0, from);
    Regroup(Hex(n), ":", rest);
    ReadWord(st, n, ":" + rest);
    assert (":" + rest)[0] == ':' && (":" + rest)[1..] == rest;
  }

  /** The last word is read. */
  lemma ReadLast(out: Words, zero: Option<nat>, from: Option<string>, n: int)
    requires |out| < 8 && (zero.Some? ==> zero.value <= |out|) && 0 <= n < 0x1_0000
    ensures Run(St(out, zero, 0, 0, from), Hex(n)) == Finish(out, zero, n)
  {
    assert Hex(n) + "" == Hex(n);
    ReadWord(St(out, zero, 0, 0, from), n, "");
  }

  /** The words from i on, when no run follows. */
  lemma {:induction false} ReadTail(w: Words, z: int, m: int, i: nat, out: Words, zero: Option<nat>,
                                    from: Option<string>)
    requires Address(w) && m >= 1 && i < 8 && z < i && |out| + (8 - i) <= 8 && (zero.Some? ==> zero.value <= |out|)
    ensures Run(St(out, zero, 0, 0, from), Groups(w, z, m, 8, i)) == Finish(out + w[i..7], zero, w[7])
    decreases 8 - i
  {
    if i == 7 {
      assert Groups(w, z, m, 8, 7) == Hex(w[7]) by { NoMore(Hex(w[7])); }
      ReadLast(out, zero, from, w[7]);
      assert out + w[7..7] == out;
    } else {
      var rest := Groups(w, z, m, 8, i + 1);
      ReadColon(out, zero, from, w[i], rest);
      ReadTail(w, z, m, i + 1, out + [w[i]], zero, Some(rest));
      assert out + [w[i]] + w[i + 1..7] == out + w[i..7];
    }
  }

  lemma NoMore(s: string)
    ensures s + "" + "" == s
  {
  }

  /** The words before the run, the run, and the words behind it. */
  lemma {:induction false} ReadBefore(w: Words, z: int, m: int, i: nat, from: Option<string>)
    requires Address(w) && ZeroRun(w, z, m) && i <= z
    ensures Run(St(w[..i], None, 0, 0, from), Groups(w, z, m, 8, i)) == Some(w)
    decreases z - i
  {
    if i < z {
      var rest := Groups(w, z, m, 8, i + 1);
      ReadColon(w[..i], None, from, w[i], rest);
      assert w[..i] + [w[i]] == w[..i + 1];
      ReadBefore(w, z, m, i + 1, Some(rest));
    } else {
      var rest := Groups(w, z, m, 8, z + m);
      assert (":" + rest)[0] == ':' && (":" + rest)[1..] == rest;
      if z + m == 8 {
        FilledEnd(w, z, m);
      } else {
        ReadTail(w, z, m, z + m, w[..z], Some(z), Some(rest));
        Filled(w, z, m);
      }
    }
  }

  /** The zeros are put back where they were. */
  lemma Filled(w: Words, z: nat, m: nat)
    requires |w| == 8 && ZeroRun(w, z, m) && z + m < 8
    ensures Finish(w[..z] + w[z + m..7], Some(z), w[7]) == Some(w)
  {
    var out := w[..z] + w[z + m..7] + [w[7]];
    assert out == w[..z] + w[z + m..];
    assert out[..z] == w[..z] && out[z..] == w[z + m..];
    assert w[..z] + Zeros(m) + w[z + m..] == w;
  }

  lemma FilledEnd(w: Words, z: nat, m: nat)
    requires |w| == 8 && ZeroRun(w, z, m) && z + m == 8
    ensures Finish(w[..z], Some(z), 0) == Some(w)
  {
    var out := w[..z] + [0];
    assert out[..z] == w[..z] && out[z..] == [0];
    assert w[..z] + Zeros(7 - z) + [0] == w;
  }

  lemma NoColonFirst(n: int, rest: string)
    requires 0 <= n
    ensures (Hex(n) + rest) != [] && (Hex(n) + rest)[0] != ':'
  {
    assert (Hex(n) + rest)[0] == Hex(n)[0] && Hex(n)[0] in Hex(n);
  }

  /** Without an embedded IPv4 address, the text is read back. */
  lemma PlainRoundTrip(w: Words, z: int, m: int)
    requires Address(w) && m >= 1 && (z == -1 || ZeroRun(w, z, m)) && !Embedded(w, z, m)
    ensures Parse(Text(w, z, m)) == Some(w)
  {
    var g := Groups(w, z, m, 8, 0);
    if z == 0 {
      assert (":" + g)[1..] == g;
      assert w[..0] == [];
      ReadBefore(w, z, m, 0, None);
    } else {
      assert "" + g == g;
      NoColonFirst(w[0], ":" + Groups(w, z, m, 8, 1));
      Regroup(Hex(w[0]), ":", Groups(w, z, m, 8, 1));
      if z == -1 {
        ReadTail(w, z, m, 0, [], None, None);
        assert [] + w[0..7] + [w[7]] == w;
      } else {
        assert w[..0] == [];
        ReadBefore(w, z, m, 0, None);
      }
    }
  }

  // ----- embedded IPv4 addresses

  lemma {:induction false} ReadDec(a: int, s: string, addr: int, n: nat)
    requires 0 <= a <= 255
    ensures Quad(Dec(a) + s, addr, 0, n) == Quad(s, addr, a, n)
    decreases a
  {
    if a < 10 {
      assert (Dec(a) + s)[0] == Digit(a) && (Dec(a) + s)[1..] == s;
    } else {
      var d := [Digit(a % 10)];
      Regroup(Dec(a / 10), d, s);
      ReadDec(a / 10, d + s, addr, n);
      assert (d + s)[0] == Digit(a % 10) && (d + s)[1..] == s;
    }
  }

  /** One octet and the dot behind it. */
  lemma ReadDot(a: int, s: string, addr: int, n: nat)
    requires 0 <= a <= 255
    ensures Quad(Dec(a) + "." + s, addr, 0, n) == Quad(s, addr * 256 + a, 0, n + 1)
  {
    Regroup(Dec(a), ".", s);
    ReadDec(a, "." + s, addr, n);
    assert ("." + s)[0] == '.' && ("." + s)[1..] == s;
  }

  lemma QuadValue(hi: int, lo: int)
    requires 0 <= hi < 0x1_0000 && 0 <= lo < 0x1_0000
    ensures Quad(QuadText(hi, lo), 0, 0, 0) == hi * 0x1_0000 + lo
  {
    FourBytes(hi, lo);
    QuadBytes(hi / 256, hi % 256, lo / 256, lo % 256, 0, 0);
  }

  lemma LastByte(d: int, addr: int)
    requires 0 <= d <= 255
    ensures Quad(Dec(d), addr, 0, 3) == addr * 256 + d
  {
    assert Dec(d) + "" == Dec(d);
    ReadDec(d, "", addr, 3);
  }

  lemma TwoBytes(c: int, d: int, addr: int)
    requires 0 <= c <= 255 && 0 <= d <= 255
    ensures Quad(Dec(c) + "." + Dec(d), addr, 0, 2) == (addr * 256 + c) * 256 + d
  {
    ReadDot(c, Dec(d), addr, 2);
    LastByte(d, addr * 256 + c);
  }

  lemma ThreeBytes(b: int, c: int, d: int, addr: int)
    requires 0 <= b <= 255 && 0 <= c <= 255 && 0 <= d <= 255
    ensures Quad(Dec(b) + "." + (Dec(c) + "." + Dec(d)), addr, 0, 1) == ((addr * 256 + b) * 256 + c) * 256 + d
  {
    ReadDot(b, Dec(c) + "." + Dec(d), addr, 1);
    TwoBytes(c, d, addr * 256 + b);
  }

  lemma QuadBytes(a: int, b: int, c: int, d: int, addr: int, n: nat)
    requires 0 <= a <= 255 && 0 <= b <= 255 && 0 <= c <= 255 && 0 <= d <= 255 && n == 0
    ensures Quad(Dec(a) + "." + (Dec(b) + "." + (Dec(c) + "." + Dec(d))), addr, 0, n)
         == (((addr * 256 + a) * 256 + b) * 256 + c) * 256 + d
  {
    ReadDot(a, Dec(b) + "." + (Dec(c) + "." + Dec(d)), addr, n);
    ThreeBytes(b, c, d, addr * 256 + a);
  }

  lemma FourBytes(hi: int, lo: int)
    requires 0 <= hi && 0 <= lo
    ensures ((hi / 256 * 256 + hi % 256) * 256 + lo / 256) * 256 + lo % 256 == hi * 0x1_0000 + lo
  {
  }

  lemma {:induction false} DecNibbles(n: int)
    requires 0 <= n
    ensures Nibbles(Dec(n))
    decreases n
  {
    if n >= 10 {
      DecNibbles(n / 10);
    }
  }

  lemma DecSize(n: int)
    requires 0 <= n <= 255
    ensures 1 <= |Dec(n)| <= 3
  {
    if n >= 10 {
      assert |Dec(n / 10 / 10)| == 1;
      assert n / 10 >= 10 ==> |Dec(n / 10)| == 2;
    }
  }

  /** The parser takes the first octet for a word until it sees the dot. */
  lemma ReadQuad(out: Words, hi: int, lo: int)
    requires |out| <= 5 && 0 <= hi < 0x1_0000 && 0 <= lo < 0x1_0000
    ensures var q := QuadText(hi, lo);
      Run(St(out, Some(0), 0, 0, Some(q)), q)
      == if hi == 0xffff && lo == 0xffff then None else Finish(out + [hi], Some(0), lo)
  {
    var q, a := QuadText(hi, lo), hi / 256;
    var rest := Dec(hi % 256) + "." + (Dec(lo / 256) + "." + Dec(lo % 256));
    DecNibbles(a);
    DecSize(a);
    Regroup(Dec(a), ".", rest);
    var st := St(out, Some(0), 0, 0, Some(q));
    ReadNibbles(st, Dec(a), "." + rest);
    assert ("." + rest)[0] == '.';
    QuadValue(hi, lo);
  }

  lemma FilledQuad(w: Words, out: Words, m: nat)
    requires |w| == 8 && m <= 8 && (forall i :: 0 <= i < m ==> w[i] == 0)
    requires (m == 5 && out == [w[5]]) || (m == 6 && out == []) || (m == 7 && out == [])
    ensures Finish(out + [w[6]], Some(0), w[7]) == Some(w)
  {
    var o := out + [w[6]] + [w[7]];
    assert o[..0] == [] && o[0..] == o;
    assert [] + Zeros(8 - |o|) + o == w;
  }

  lemma EmbeddedRoundTrip(w: Words, z: int, m: int)
    requires Address(w) && ZeroRun(w, z, m) && Embedded(w, z, m)
    ensures Parse(Text(w, z, m)) == if w[6] == 0xffff && w[7] == 0xffff then None else Some(w)
  {
    var q := QuadText(w[6], w[7]);
    var mid := if m == 5 then Hex(w[5]) + ":" else "";
    EmbeddedText(w, z, m, mid);
    var s := ":" + (mid + q);
    assert (":" + s)[0] == ':' && (":" + s)[1..] == s;
    assert s[0] == ':' && s[1..] == mid + q;
    var st := St([], Some(0), 0, 0, Some(mid + q));
    assert Run(START, s) == Run(st, mid + q);
    if m == 5 {
      ReadColon([], Some(0), Some(mid + q), w[5], q);
      assert [] + [w[5]] == [w[5]];
      ReadQuad([w[5]], w[6], w[7]);
      FilledQuad(w, [w[5]], m);
    } else {
      assert mid + q == q;
      ReadQuad([], w[6], w[7]);
      FilledQuad(w, [], m);
    }
  }

  lemma EmbeddedText(w: Words, z: int, m: int, mid: string)
    requires Address(w) && ZeroRun(w, z, m) && Embedded(w, z, m)
    requires mid == if m == 5 then Hex(w[5]) + ":" else ""
    ensures Text(w, z, m) == ":" + (":" + (mid + QuadText(w[6], w[7])))
  {
    var q := QuadText(w[6], w[7]);
    var g := Groups(w, z, m, 6, m);
    assert m >= 6 ==> g == "";
    if m == 5 {
      assert Groups(w, z, m, 6, 6) == "";
      assert g == mid + "";
      assert mid + "" == mid;
    }
    assert g == mid;
    Regroup(":", mid, q);
  }

  // ----- the round trip

  /**
    What is printed is read back, for every address but those printed with an
    embedded 255.255.255.255, whose value is INADDR_NONE; these are refused.
   */
  lemma RoundTrip(w: Words, z: int, m: int)
    requires Address(w) && BestRun(w, z, m) && m >= 1
    ensures Parse(Text(w, z, m)) == if Embedded(w, z, m) && w[6] == 0xffff && w[7] == 0xffff then None else Some(w)
  {
    if Embedded(w, z, m) {
      EmbeddedRoundTrip(w, z, m);
    } else {
      PlainRoundTrip(w, z, m);
    }
  }

  /** The two addresses that are not read back: ::ffff:255.255.255.255 and ::255.255.255.255. */
  lemma Refused(w: Words, z: int, m: int)
    requires Address(w) && BestRun(w, z, m) && m >= 1
    ensures Parse(Text(w, z, m)) == None
      <==> w == [0, 0, 0, 0, 0, 0xffff, 0xffff, 0xffff] || w == [0, 0, 0, 0, 0, 0, 0xffff, 0xffff]
  {
    RoundTrip(w, z, m);
    EmbeddedNone(w, z, m);
  }

  lemma EmbeddedNone(w: Words, z: int, m: int)
    requires Address(w) && BestRun(w, z, m) && m >= 1
    ensures Embedded(w, z, m) && w[6] == 0xffff && w[7] == 0xffff
      <==> w == [0, 0, 0, 0, 0, 0xffff, 0xffff, 0xffff] || w == [0, 0, 0, 0, 0, 0, 0xffff, 0xffff]
  {
    if w == [0, 0, 0, 0, 0, 0xffff, 0xffff, 0xffff] {
      assert ZeroRun(w, 0, 5);
      LeadingRun(w, 5, z, m);
    } else if w == [0, 0, 0, 0, 0, 0, 0xffff, 0xffff] {
      assert ZeroRun(w, 0, 6);
      LeadingRun(w, 6, z, m);
    }
  }

  lemma LeadingRun(w: Words, n: int, z: int, m: int)
    requires |w| == 8 && 5 <= n <= 6 && ZeroRun(w, 0, n) && BestRun(w, z, m) && forall i :: n <= i < 8 ==> w[i] != 0
    ensures z == 0 && m == n
  {
    assert m >= n && ZeroRun(w, z, m);
    assert w[z + m - 1] == 0;
  }

  /** The run that is compressed is unique. */
  lemma OneBestRun(w: Words, z: int, m: int, y: int, n: int)
    requires |w| == 8 && BestRun(w, z, m) && BestRun(w, y, n)
    ensures z == y && m == n
  {
  }

  // ----- the size

  lemma {:induction false} GroupsSize(w: Words, z: int, m: int, n: nat, i: nat)
    requires Address(w) && m >= 1 && n <= 8 && (z != -1 ==> ZeroRun(w, z, m))
    ensures |Groups(w, z, m, n, i)| <= if i < 8 then 5 * (8 - i) - 1 else 0
    decreases 8 - i
  {
    if i < n {
      if i == z {
        GroupsSize(w, z, m, n, i + m);
      } else {
        HexSize(w[i], 0x1_0000, 4);
        GroupsSize(w, z, m, n, i + 1);
      }
    }
  }

  /** The text fits the space that NGX_INET6_ADDRSTRLEN promises. */
  lemma TextSize(w: Words, z: int, m: int)
    requires Address(w) && m >= 1 && (z == -1 || ZeroRun(w, z, m))
    ensures |Text(w, z, m)| <= 39
  {
    GroupsSize(w, z, m, 8, 0);
    if z == 0 {
      GroupsSize(w, z, m, 8, m);
    }
    if Embedded(w, z, m) {
      EmbeddedText(w, z, m, if m == 5 then Hex(w[5]) + ":" else "");
      HexSize(w[5], 0x1_0000, 4);
      DecSize(w[6] / 256);
      DecSize(w[6] % 256);
      DecSize(w[7] / 256);
      DecSize(w[7] % 256);
    }
  }

  // ----- which texts are accepted

  datatype List = One(field: string) | More(field: string, rest: List)

  /** Fields with dots between them. */
  function Dotted(fs: List): string {
    match fs
    case One(f) => f
    case More(f, rest) => f + "." + Dotted(rest)
  }

  function Fields(fs: List): nat {
    match fs
    case One(_) => 1
    case More(_, rest) => 1 + Fields(rest)
  }

  ghost predicate NoDot(s: string) {
    forall i :: 0 <= i < |s| ==> s[i] != '.'
  }

  ghost predicate NoDots(fs: List) {
    NoDot(fs.field) && (fs.More? ==> NoDots(fs.rest))
  }

  /** Every text is fields with dots between them. */
  lemma {:induction false} SplitText(s: string) returns (fs: List)
    ensures Dotted(fs) == s && NoDots(fs)
  {
    if s == "" {
      fs := One("");
      return;
    }
    var rest := SplitText(s[1..]);
    assert s == [s[0]] + s[1..];
    if s[0] == '.' {
      fs := More("", rest);
      assert Dotted(fs) == "" + "." + Dotted(rest);
    } else {
      var f := [s[0]] + rest.field;
      match rest {
        case One(g) => fs := One(f);
        case More(g, more) =>
          fs := More(f, more);
          Assoc3([s[0]], g, "." + Dotted(more));
          assert g + "." + Dotted(more) == g + ("." + Dotted(more));
          assert f + "." + Dotted(more) == f + ("." + Dotted(more));
      }
    }
  }

  lemma Assoc3(a: string, b: string, c: string)
    ensures a + (b + c) == a + b + c
  {
  }

  ghost predicate Digits(s: string) {
    forall i :: 0 <= i < |s| ==> '0' <= s[i] <= '9'
  }

  /** The decimal value of a field behind digits that have been read; an empty one is 0. */
  function Decimal(octet: int, f: string): int
    decreases |f|
  {
    if f == "" then octet else Decimal(octet * 10 + (f[0] as int - '0' as int), f[1..])
  }

  lemma {:induction false} DecimalGrows(octet: int, f: string)
    requires octet >= 0 && Digits(f)
    ensures Decimal(octet, f) >= octet
    decreases |f|
  {
    if f != "" {
      DecimalGrows(octet * 10 + (f[0] as int - '0' as int), f[1..]);
    }
  }

  /** A field is read up to its end if it is a number up to 255. */
  lemma {:induction false} QuadField(f: string, tail: string, addr: int, octet: int, n: nat)
    requires NoDot(f) && 0 <= octet <= 255 && (tail == "" || tail[0] == '.')
    ensures Quad(f + tail, addr, octet, n)
         == if Digits(f) && Decimal(octet, f) <= 255 then Quad(tail, addr, Decimal(octet, f), n) else INADDR_NONE
    decreases |f|
  {
    if f == "" {
      assert f + tail == tail;
    } else {
      assert (f + tail)[0] == f[0] && (f + tail)[1..] == f[1..] + tail;
      if IsDigit(f[0]) {
        var o := octet * 10 + (f[0] as int - '0' as int);
        assert Digits(f) <==> Digits(f[1..]) by {
          assert forall i :: 0 < i < |f| ==> f[i] == f[1..][i - 1];
        }
        if o <= 255 {
          QuadField(f[1..], tail, addr, o, n);
        } else if Digits(f[1..]) {
          DecimalGrows(o, f[1..]);
        }
      }
    }
  }

  /** Every field is digits, perhaps none, of a value up to 255. */
  ghost predicate Octets(fs: List) {
    Digits(fs.field) && Decimal(0, fs.field) <= 255 && (fs.More? ==> Octets(fs.rest))
  }

  /** The fields as the digits of a number of base 256, behind others. */
  function Base256(addr: int, fs: List): int
    decreases fs
  {
    match fs
    case One(f) => addr * 256 + Decimal(0, f)
    case More(f, rest) => Base256(addr * 256 + Decimal(0, f), rest)
  }

  lemma {:induction false} QuadFields(fs: List, addr: int, n: nat)
    requires NoDots(fs)
    ensures Quad(Dotted(fs), addr, 0, n)
         == if Octets(fs) && Fields(fs) + n == 4 then Base256(addr, fs) else INADDR_NONE
    decreases fs
  {
    match fs {
      case One(f) =>
        assert f + "" == f;
        QuadField(f, "", addr, 0, n);
      case More(f, rest) =>
        var tail := "." + Dotted(rest);
        assert Dotted(fs) == f + tail && tail[1..] == Dotted(rest);
        QuadField(f, tail, addr, 0, n);
        QuadFields(rest, addr * 256 + Decimal(0, f), n + 1);
    }
  }

  /**
    The text of an IPv4 address is accepted exactly if it has four fields with digits,
    or without any, of values up to 255; the address 255.255.255.255 looks like a refusal.
   */
  lemma QuadExactly(text: string) returns (fs: List)
    ensures Dotted(fs) == text && NoDots(fs)
    ensures Quad(text, 0, 0, 0) == if Octets(fs) && Fields(fs) == 4 then Base256(0, fs) else INADDR_NONE
  {
    fs := SplitText(text);
    QuadFields(fs, 0, 0);
  }

  /** A text in lower case. */
  function LowerChar(c: char): char {
    if 'A' <= c <= 'Z' then (c as int + 32) as char else c
  }

  function Lower(s: string): (t: string)
    ensures |t| == |s| && forall i :: 0 <= i < |s| ==> t[i] == LowerChar(s[i])
  {
    if s == "" then "" else [LowerChar(s[0])] + Lower(s[1..])
  }

  lemma {:induction false} QuadLower(s: string, addr: int, octet: int, n: nat)
    ensures Quad(Lower(s), addr, octet, n) == Quad(s, addr, octet, n)
    decreases |s|
  {
    if s != "" {
      assert Lower(s)[1..] == Lower(s[1..]) && Lower(s)[0] == LowerChar(s[0]);
      if IsDigit(s[0]) {
        QuadLower(s[1..], addr, octet * 10 + (s[0] as int - '0' as int), n);
      } else if s[0] == '.' {
        QuadLower(s[1..], addr * 256 + octet, 0, n + 1);
      }
    }
  }

  function LowerFrom(st: St): St {
    if st.from.Some? then st.(from := Some(Lower(st.from.value))) else st
  }

  lemma {:induction false} RunLower(st: St, s: string)
    requires Fine(st)
    ensures Run(LowerFrom(st), Lower(s)) == Run(st, s)
    decreases |s|
  {
    if s != "" {
      var c, rest := s[0], s[1..];
      assert Lower(s)[1..] == Lower(rest) && Lower(s)[0] == LowerChar(c);
      if c == ':' {
        if st.nibbles > 0 {
          if |st.out| + 1 < 8 {
            RunLower(St(st.out + [st.word], st.zero, 0, 0, Some(rest)), rest);
          }
        } else if st.zero.None? {
          RunLower(st.(zero := Some(|st.out|), from := Some(rest)), rest);
        }
      } else if c == '.' && st.nibbles > 0 {
        if st.from.Some? {
          QuadLower(st.from.value, 0, 0, 0);
        }
      } else if st.nibbles + 1 <= 4 && Nibble(c).Some? {
        RunLower(st.(word := st.word * 16 + Nibble(c).value, nibbles := st.nibbles + 1), rest);
      }
    }
  }

  /** Upper and lower case are the same to the parser. */
  lemma ParseLower(s: string)
    ensures Parse(Lower(s)) == Parse(s)
  {
    if s != "" {
      assert Lower(s)[0] == LowerChar(s[0]) && Lower(s)[1..] == Lower(s[1..]);
      RunLower(START, if s[0] == ':' then s[1..] else s);
    }
  }
}
