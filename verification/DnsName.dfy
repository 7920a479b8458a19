/**
  Names in DNS messages (sections 3.1 and 4.1.4 of RFC 1035): writing a name as
  labels with their lengths, from the end backwards, and reading one back through
  compression pointers in two passes.
 */
module DnsName {

  type Byte = int

  const DOT: Byte := 46

  datatype Option<T> = None | Some(value: T)

  /** Bytes are 0 to 255. */
  ghost predicate Bytes(s: seq<Byte>) {
    forall i :: 0 <= i < |s| ==> 0 <= s[i] < 256
  }

  function LowerByte(c: Byte): Byte {
    if 65 <= c <= 90 then c + 32 else c
  }

  /** ngx_strlow */
  function Lower(s: seq<Byte>): (t: seq<Byte>)
    ensures |t| == |s|
  {
    seq(|s|, i requires 0 <= i < |s| => LowerByte(s[i]))
  }

  // ----- reading

  /** At most so many labels and pointers are followed. */
  function Limit(): nat {
    128
  }

  /** The text at a position, with a dot after every label, if it is complete after `fuel` labels and pointers. */
  ghost function Text(buf: seq<Byte>, p: nat, fuel: nat): Option<seq<Byte>>
    requires Bytes(buf)
    decreases fuel
  {
    if fuel == 0 || p >= |buf| then None
    else
      var n := buf[p];
      if n == 0 then Some([])
      else if n >= 64 then
        if n < 192 || p + 1 >= |buf| then None else Text(buf, (n - 192) * 256 + buf[p + 1], fuel - 1)
      else if p + 1 + n >= |buf| then None
      else
        var rest := Text(buf, p + 1 + n, fuel - 1);
        if rest.None? then None else Some(Lower(buf[p + 1..p + 1 + n]) + [DOT] + rest.value)
  }

  /** The length of the text. */
  ghost function Size(buf: seq<Byte>, p: nat, fuel: nat): Option<nat>
    requires Bytes(buf)
    decreases fuel
  {
    if fuel == 0 || p >= |buf| then None
    else
      var n := buf[p];
      if n == 0 then Some(0)
      else if n >= 64 then
        if n < 192 || p + 1 >= |buf| then None else Size(buf, (n - 192) * 256 + buf[p + 1], fuel - 1)
      else
        var rest := Size(buf, p + 1 + n, fuel - 1);
        if rest.None? then None else Some(n + 1 + rest.value)
  }

  lemma {:induction false} SizeOfText(buf: seq<Byte>, p: nat, fuel: nat)
    requires Bytes(buf)
    ensures Size(buf, p, fuel).Some? <==> Text(buf, p, fuel).Some?
    ensures Text(buf, p, fuel).Some? ==> Size(buf, p, fuel).value == |Text(buf, p, fuel).value|
    decreases fuel
  {
    if fuel > 0 && p < |buf| {
      var n := buf[p];
      if n >= 192 && p + 1 < |buf| {
        SizeOfText(buf, (n - 192) * 256 + buf[p + 1], fuel - 1);
      } else if 0 < n < 64 {
        SizeOfText(buf, p + 1 + n, fuel - 1);
      }
    }
  }

  /** The first pass of ngx_resolver_copy: the length of the text, or an error. */
  method Scan(buf: seq<Byte>, src: nat, limit: nat) returns (r: Option<nat>)
    requires Bytes(buf) && src < |buf|
    ensures r == Size(buf, src, limit)
  {
    var p, len, i := src, 0, 0;
    while i < limit
      invariant 0 <= i <= limit && 0 <= p < |buf| && 0 <= len
      invariant Size(buf, src, limit).Some? <==> Size(buf, p, limit - i).Some?
      invariant Size(buf, p, limit - i).Some? ==> Size(buf, src, limit).value == len + Size(buf, p, limit - i).value
      decreases limit - i
    {
      var n := buf[p];
      p := p + 1;
      if n == 0 {
        return Some(len);
      }
      if n >= 64 {
        if n < 192 || p >= |buf| {
          return None;
        }
        p := (n - 192) * 256 + buf[p];
      } else {
        len := len + 1 + n;
        p := p + n;
      }
      if p >= |buf| {
        return None;
      }
      i := i + 1;
    }
    r := None;
  }

  lemma Regroup(a: seq<Byte>, b: seq<Byte>, c: seq<Byte>)
    ensures a + (b + c) == a + b + c && |a + b + c| == |a| + |b| + |c|
  {
  }

  /** A label is written in lower case, with a dot after it. */
  method PutLabel(data: array<Byte>, dst: nat, s: seq<Byte>)
    requires dst + |s| < data.Length
    modifies data
    ensures data[..dst + |s| + 1] == old(data[..dst]) + (Lower(s) + [DOT])
  {
    for i := 0 to |s|
      invariant data[..dst] == old(data[..dst]) && data[dst..dst + i] == Lower(s)[..i]
    {
      data[dst + i] := LowerByte(s[i]);
    }
    data[dst + |s|] := DOT;
    assert data[..dst + |s| + 1] == data[..dst] + data[dst..dst + |s|] + [DOT];
  }

  /** The first pass bounds the second: it follows the same path and fills exactly the allocated bytes. */
  method CopyWithin(buf: seq<Byte>, src: nat, limit: nat) returns (name: Option<seq<Byte>>)
    requires Bytes(buf) && src < |buf|
    ensures name.Some? <==> Text(buf, src, limit).Some?
    ensures name.Some? ==> Text(buf, src, limit).value == if name.value == [] then [] else name.value + [DOT]
  {
    SizeOfText(buf, src, limit);
    var len := Scan(buf, src, limit);
    if len.None? {
      return None;
    }
    if len.value == 0 {
      return Some([]);
    }
    var data := new Byte[len.value];
    Expand(buf, src, data, limit);
    name := Some(data[..len.value - 1]);
    TextEnd(buf, src, limit);
    assert data[..] == data[..len.value - 1] + [DOT];
  }

  /** ngx_resolver_copy; None stands for an error. */
  method Copy(buf: seq<Byte>, src: nat) returns (name: Option<seq<Byte>>)
    requires Bytes(buf) && src < |buf|
    ensures name.Some? <==> Text(buf, src, Limit()).Some?
    ensures name.Some? ==> Text(buf, src, Limit()).value == if name.value == [] then [] else name.value + [DOT]
  {
    name := CopyWithin(buf, src, Limit());
  }

  lemma TextLabel(buf: seq<Byte>, p: nat, fuel: nat)
    requires Bytes(buf) && Text(buf, p, fuel).Some? && p < |buf| && 0 < buf[p] < 64
    ensures var q := p + 1 + buf[p];
      && q < |buf| && Text(buf, q, fuel - 1).Some?
      && Text(buf, p, fuel).value == (Lower(buf[p + 1..q]) + [DOT]) + Text(buf, q, fuel - 1).value
  {
  }

  /** A text is empty or ends with a dot. */
  lemma {:induction false} TextEnd(buf: seq<Byte>, p: nat, fuel: nat)
    requires Bytes(buf) && Text(buf, p, fuel).Some?
    ensures var s := Text(buf, p, fuel).value; s == [] || (|s| > 1 && s[|s| - 1] == DOT)
    decreases fuel
  {
    var n := buf[p];
    if n >= 64 {
      TextEnd(buf, (n - 192) * 256 + buf[p + 1], fuel - 1);
    } else if n > 0 {
      TextEnd(buf, p + 1 + n, fuel - 1);
    }
  }

  /** The second pass has no limit of its own: that of the first is enough for it to end. */
  method Expand(buf: seq<Byte>, src0: nat, data: array<Byte>, ghost limit: nat)
    requires Bytes(buf) && Text(buf, src0, limit).Some? && data.Length == |Text(buf, src0, limit).value|
    modifies data
    ensures data[..] == Text(buf, src0, limit).value
  {
    var dst, src := 0, src0;
    ghost var fuel, text := limit, Text(buf, src0, limit).value;
    ghost var done: seq<Byte> := [];
    assert done + text == text;
    while true
      invariant 0 <= dst <= data.Length && 0 <= src && 0 <= fuel && data[..dst] == done
      invariant Reads(buf, src, fuel, done, text)
      decreases fuel
    {
      ReadsEnd(buf, src, fuel, done, text);
      var n := buf[src];
      if n == 0 {
        assert data[..] == data[..dst];
        return;
      }
      if n >= 64 {
        ReadsPointer(buf, src, fuel, done, text);
        src := (n - 192) * 256 + buf[src + 1];
      } else {
        ReadsOn(buf, src, fuel, done, text);
        PutLabel(data, dst, buf[src + 1..src + 1 + n]);
        done := done + (Lower(buf[src + 1..src + 1 + n]) + [DOT]);
        dst := dst + n + 1;
        src := src + 1 + n;
      }
      fuel := fuel - 1;
    }
  }

  /** What is done and what can still be read are the whole text. */
  ghost predicate Reads(buf: seq<Byte>, p: nat, fuel: nat, done: seq<Byte>, text: seq<Byte>)
    requires Bytes(buf)
  {
    (p < |buf| && Text(buf, p, fuel).Some? && done + Text(buf, p, fuel).value == text) == true
  }

  lemma ReadsPointer(buf: seq<Byte>, p: nat, fuel: nat, done: seq<Byte>, text: seq<Byte>)
    requires Bytes(buf) && Reads(buf, p, fuel, done, text) && buf[p] >= 64
    ensures buf[p] >= 192 && p + 1 < |buf| && fuel > 0
    ensures Reads(buf, (buf[p] - 192) * 256 + buf[p + 1], fuel - 1, done, text)
  {
    TextPointer(buf, p, fuel);
  }

  lemma ReadsEnd(buf: seq<Byte>, p: nat, fuel: nat, done: seq<Byte>, text: seq<Byte>)
    requires Bytes(buf) && Reads(buf, p, fuel, done, text)
    ensures p < |buf| && (buf[p] == 0 ==> done == text)
  {
  }

  lemma ReadsOn(buf: seq<Byte>, p: nat, fuel: nat, done: seq<Byte>, text: seq<Byte>)
    requires Bytes(buf) && Reads(buf, p, fuel, done, text) && 0 < buf[p] < 64
    ensures var q := p + 1 + buf[p];
      && q < |buf| && |done| + buf[p] < |text| && fuel > 0
      && Reads(buf, q, fuel - 1, done + (Lower(buf[p + 1..q]) + [DOT]), text)
  {
    TextLabel(buf, p, fuel);
    var q := p + 1 + buf[p];
    Regroup(done, Lower(buf[p + 1..q]) + [DOT], Text(buf, q, fuel - 1).value);
  }

  lemma TextPointer(buf: seq<Byte>, p: nat, fuel: nat)
    requires Bytes(buf) && Text(buf, p, fuel).Some? && p < |buf| && buf[p] >= 64
    ensures buf[p] >= 192 && p + 1 < |buf|
    ensures var q := (buf[p] - 192) * 256 + buf[p + 1];
      q < |buf| && Text(buf, q, fuel - 1) == Text(buf, p, fuel)
  {
  }

  // ----- writing

  /** The position of the first dot, or the length. */
  function Dot(s: seq<Byte>): (k: nat)
    ensures k <= |s| && (k < |s| ==> s[k] == DOT) && DOT !in s[..k]
  {
    if s == [] || s[0] == DOT then 0 else
      assert s[..1 + Dot(s[1..])] == [s[0]] + s[1..][..Dot(s[1..])];
      1 + Dot(s[1..])
  }

  /** Every label has 1 to `most` bytes. */
  predicate Labels(name: seq<Byte>, most: nat) {
    var k := Dot(name);
    1 <= k <= most && (k == |name| || Labels(name[k + 1..], most))
  }

  function LabelCount(name: seq<Byte>): nat {
    var k := Dot(name);
    if k == |name| then 1 else 1 + LabelCount(name[k + 1..])
  }

  datatype List = Nil | Cons(head: seq<Byte>, tail: List)

  /** Labels with their lengths and a final zero. */
  function Wire(labels: List): (r: seq<Byte>)
    ensures r != []
  {
    match labels
    case Nil => [0]
    case Cons(l, rest) => [|l|] + l + Wire(rest)
  }

  function Split(name: seq<Byte>): List {
    var k := Dot(name);
    Cons(name[..k], if k == |name| then Nil else Split(name[k + 1..]))
  }

  /** A name as labels, each after its length, and a final zero. */
  function Encoded(name: seq<Byte>): seq<Byte> {
    Wire(Split(name))
  }

  lemma EncodedStep(name: seq<Byte>, k: nat)
    requires k == Dot(name)
    ensures Encoded(name) == [k] + name[..k] + if k == |name| then [0] else Encoded(name[k + 1..])
  {
    assert Wire(Nil) == [0];
  }

  /** What is already written when the characters from i on have been processed and `len` of them are pending. */
  ghost predicate Written(name: seq<Byte>, q: seq<Byte>, i: nat, len: nat) {
    && i + len <= |name| && |q| == |name| + 2 && DOT !in name[i..i + len]
    && q[i + 1..i + 1 + len] == name[i..i + len]
    && if i + len == |name| then q[i + 1 + len..] == [0]
       else name[i + len] == DOT && q[i + 1 + len..] == Encoded(name[i + len + 1..])
  }

  lemma DotUnique(s: seq<Byte>, k: nat)
    requires k <= |s| && DOT !in s[..k] && (k < |s| ==> s[k] == DOT)
    ensures Dot(s) == k
  {
  }

  lemma Spliced(q: seq<Byte>, i: nat, len: nat)
    requires i + 1 + len <= |q|
    ensures q[i := len][i..] == [len] + q[i + 1..i + 1 + len] + q[i + 1 + len..]
  {
    var a, b := q[i := len][i..], [len] + q[i + 1..i + 1 + len] + q[i + 1 + len..];
    assert |a| == |b| && forall j :: 0 <= j < |a| ==> a[j] == b[j];
  }

  /** A pending label gets its length. */
  lemma LabelDone(name: seq<Byte>, q: seq<Byte>, q': seq<Byte>, i: nat, len: nat)
    requires Written(name, q, i, len) && q' == q[i := len]
    ensures q'[i..] == Encoded(name[i..]) && Dot(name[i..]) == len
  {
    var s := name[i..];
    assert s[..len] == name[i..i + len];
    DotUnique(s, len);
    EncodedStep(s, len);
    Spliced(q, i, len);
    if i + len < |name| {
      assert s[len + 1..] == name[i + len + 1..];
    }
  }

  lemma WrittenDot(name: seq<Byte>, q: seq<Byte>, i: nat, len: nat)
    requires Written(name, q, i, len) && i > 0 && name[i - 1] == DOT
    ensures Written(name, q[i := len], i - 1, 0)
  {
    LabelDone(name, q, q[i := len], i, len);
  }

  lemma WrittenOther(name: seq<Byte>, q: seq<Byte>, i: nat, len: nat)
    requires Written(name, q, i, len) && i > 0 && name[i - 1] != DOT
    ensures Written(name, q[i := name[i - 1]], i - 1, len + 1)
  {
    var q' := q[i := name[i - 1]];
    assert name[i - 1..i + len] == [name[i - 1]] + name[i..i + len];
    assert q'[i..i + 1 + len] == [name[i - 1]] + q[i + 1..i + 1 + len];
    assert q'[i + 1 + len..] == q[i + 1 + len..];
  }

  lemma {:induction false} DotFirst(s: seq<Byte>, i: nat)
    requires i < |s| && s[i] == DOT
    ensures Dot(s) <= i
  {
    if i > 0 && s[0] != DOT {
      DotFirst(s[1..], i - 1);
    }
  }

  /** Bad labels that have been left behind are never forgiven. */
  lemma {:induction false} LabelsFrom(name: seq<Byte>, i: nat, most: nat)
    requires i < |name| && name[i] == DOT && !Labels(name[i + 1..], most)
    ensures !Labels(name, most)
    decreases |name|
  {
    var k := Dot(name);
    if k < i {
      assert name[k + 1..][i - k - 1] == DOT;
      assert name[k + 1..][i - k..] == name[i + 1..];
      LabelsFrom(name[k + 1..], i - k - 1, most);
    } else {
      DotFirst(name, i);
    }
  }

  ghost predicate Filling(name: seq<Byte>, q: seq<Byte>, i: nat, len: nat) {
    Written(name, q, i, len) && (i + len < |name| ==> Labels(name[i + len + 1..], 255))
  }

  ghost predicate Progress(name: seq<Byte>, q: seq<Byte>, i: nat, len: nat) {
    Filling(name, q, i, len) == true
  }

  lemma OtherStep(name: seq<Byte>, q: seq<Byte>, i: nat, len: nat)
    requires Progress(name, q, i, len) && i > 0 && name[i - 1] != DOT
    ensures Progress(name, q[i := name[i - 1]], i - 1, len + 1) && i < |q|
  {
    WrittenOther(name, q, i, len);
    assert Filling(name, q[i := name[i - 1]], i - 1, len + 1);
  }

  /** At a dot or at the start, the pending label gets its length unless it is bad. */
  lemma LabelStep(name: seq<Byte>, q: seq<Byte>, i: nat, len: nat)
    requires Progress(name, q, i, len) && (i > 0 ==> name[i - 1] == DOT)
    ensures i < |q| && (len == 0 || len > 255 ==> !Labels(name, 255))
    ensures 1 <= len <= 255 && i > 0 ==> Progress(name, q[i := len], i - 1, 0)
    ensures 1 <= len <= 255 && i == 0 ==> Labels(name, 255) && q[0 := len] == Encoded(name)
  {
    LabelDone(name, q, q[i := len], i, len);
    LabelsStep(name, i, len);
    if i == 0 {
      assert name[0..] == name && q[0 := len][0..] == q[0 := len];
    } else if len == 0 || len > 255 {
      LabelsFrom(name, i - 1, 255);
    } else {
      WrittenDot(name, q, i, len);
      assert Filling(name, q[i := len], i - 1, 0);
    }
  }

  /** The name in a query: `q` is filled from its end.  None stands for NGX_DECLINED. */
  method CreateName(name: seq<Byte>) returns (r: Option<seq<Byte>>)
    ensures r.Some? <==> name != [] && Labels(name, 255)
    ensures r.Some? ==> r.value == Encoded(name)
  {
    if |name| == 0 {
      return None;
    }
    var q := seq(|name| + 2, i => 0);
    var len, i := 0, |name|;
    assert q[|name| + 1..] == [0];
    assert Filling(name, q, i, len);
    while i > 0
      invariant 0 <= i <= |name| && 0 <= len && Progress(name, q, i, len)
    {
      if name[i - 1] != DOT {
        OtherStep(name, q, i, len);
        q := q[i := name[i - 1]];
        len := len + 1;
      } else {
        LabelStep(name, q, i, len);
        if len == 0 || len > 255 {
          return None;
        }
        q := q[i := len];
        len := 0;
      }
      i := i - 1;
    }
    LabelStep(name, q, 0, len);
    if len == 0 || len > 255 {
      return None;
    }
    r := Some(q[0 := len]);
  }

  lemma LabelsStep(name: seq<Byte>, i: nat, len: nat)
    requires i + len <= |name| && Dot(name[i..]) == len
    requires i + len < |name| ==> Labels(name[i + len + 1..], 255)
    ensures Labels(name[i..], 255) <==> 1 <= len <= 255
  {
    if i + len < |name| {
      assert name[i..][len + 1..] == name[i + len + 1..];
    }
  }

  // ----- reading what was written

  lemma {:induction false} EncodedSize(name: seq<Byte>)
    ensures |Encoded(name)| == |name| + 2
    decreases |name|
  {
    var k := Dot(name);
    EncodedStep(name, k);
    if k < |name| {
      EncodedSize(name[k + 1..]);
    }
  }

  /** The bytes of `s` stand at position p. */
  ghost predicate At(buf: seq<Byte>, p: nat, s: seq<Byte>) {
    p + |s| <= |buf| && buf[p..p + |s|] == s
  }

  lemma AtConcat(buf: seq<Byte>, p: nat, a: seq<Byte>, b: seq<Byte>)
    requires At(buf, p, a + b)
    ensures At(buf, p, a) && At(buf, p + |a|, b)
  {
    var s := buf[p..p + |a + b|];
    assert buf[p..p + |a|] == s[..|a|];
    assert buf[p + |a|..p + |a| + |b|] == s[|a|..];
  }

  lemma AtParts(buf: seq<Byte>, p: nat, k: Byte, lab: seq<Byte>, tail: seq<Byte>)
    requires tail != [] && At(buf, p, [k] + lab + tail)
    ensures p + 1 + |lab| < |buf| && buf[p] == k && buf[p + 1..p + 1 + |lab|] == lab
    ensures At(buf, p + 1 + |lab|, tail) && buf[p + 1 + |lab|] == tail[0]
  {
    AtConcat(buf, p, [k] + lab, tail);
    AtConcat(buf, p, [k], lab);
    assert buf[p] == buf[p..p + 1][0];
    assert buf[p + 1 + |lab|] == buf[p + 1 + |lab|..p + 1 + |lab| + |tail|][0];
  }

  /** Labels in lower case, with a dot after each. */
  ghost function Said(labels: List): seq<Byte> {
    match labels
    case Nil => []
    case Cons(l, rest) => Lower(l) + [DOT] + Said(rest)
  }

  /** Fewer than `fuel` labels of 1 to `most` bytes. */
  ghost predicate Short(labels: List, most: nat, fuel: nat) {
    fuel > 0 && match labels case Nil => true case Cons(l, rest) => 0 < |l| <= most && Short(rest, most, fuel - 1)
  }

  lemma {:induction false} SplitShort(name: seq<Byte>, most: nat, fuel: nat)
    requires Labels(name, most) && LabelCount(name) < fuel
    ensures Short(Split(name), most, fuel)
    decreases |name|
  {
    var k := Dot(name);
    if k < |name| {
      SplitShort(name[k + 1..], most, fuel - 1);
    } else {
      assert Short(Nil, most, fuel - 1);
    }
  }

  lemma {:induction false} SplitSaid(name: seq<Byte>)
    ensures Said(Split(name)) == Lower(name) + [DOT]
    decreases |name|
  {
    var k := Dot(name);
    if k == |name| {
      LastSaid(name);
    } else {
      SplitSaid(name[k + 1..]);
      MoreSaid(name, k, Split(name[k + 1..]));
    }
  }

  lemma LastSaid(name: seq<Byte>)
    ensures Said(Cons(name[..|name|], Nil)) == Lower(name) + [DOT]
  {
    assert name[..|name|] == name;
    assert Said(Nil) == [];
  }

  lemma MoreSaid(name: seq<Byte>, k: nat, rest: List)
    requires k < |name| && name[k] == DOT && Said(rest) == Lower(name[k + 1..]) + [DOT]
    ensures Said(Cons(name[..k], rest)) == Lower(name) + [DOT]
  {
    assert Lower(name) == Lower(name[..k]) + [DOT] + Lower(name[k + 1..]);
    Regroup(Lower(name[..k]) + [DOT], Lower(name[k + 1..]), [DOT]);
  }

  // ----- when a name is read back

  ghost predicate NoDot(s: seq<Byte>) {
    forall i :: 0 <= i < |s| ==> s[i] != DOT
  }

  /** Labels as they may be written: not empty, without dots, up to 255 bytes. */
  ghost predicate Writable(labels: List) {
    match labels
    case Nil => true
    case Cons(l, rest) => 0 < |l| <= 255 && NoDot(l) && Writable(rest)
  }

  /** Whatever is read, its first dot comes after at most 63 bytes. */
  lemma {:induction false} EarlyDot(buf: seq<Byte>, p: nat, fuel: nat) returns (i: nat)
    requires Bytes(buf) && Text(buf, p, fuel).Some? && Text(buf, p, fuel).value != []
    ensures i <= 63 && i < |Text(buf, p, fuel).value| && Text(buf, p, fuel).value[i] == DOT
    decreases fuel
  {
    if buf[p] >= 64 {
      TextPointer(buf, p, fuel);
      i := EarlyDot(buf, (buf[p] - 192) * 256 + buf[p + 1], fuel - 1);
    } else {
      TextLabel(buf, p, fuel);
      i := buf[p];
    }
  }

  lemma SaidHead(l: seq<Byte>, rest: List, i: nat)
    requires i < |l| && NoDot(l)
    ensures i < |Said(Cons(l, rest))| && Said(Cons(l, rest))[i] != DOT
  {
    assert Said(Cons(l, rest))[i] == Lower(l)[i] == LowerByte(l[i]);
  }

  lemma Cancel(a: seq<Byte>, x: seq<Byte>, y: seq<Byte>)
    ensures a + x == a + y <==> x == y
  {
    if a + x == a + y {
      assert x == (a + x)[|a|..] == (a + y)[|a|..] == y;
    }
  }

  /** A label of at most 63 bytes is read, and then what stands behind it. */
  lemma TextBehind(buf: seq<Byte>, p: nat, fuel: nat, l: seq<Byte>, q: nat)
    requires Bytes(buf) && fuel > 0 && 0 < |l| < 64 && q == p + 1 + |l| < |buf| && buf[p] == |l| && buf[p + 1..q] == l
    ensures var rest := Text(buf, q, fuel - 1);
      Text(buf, p, fuel) == if rest.None? then None else Some(Lower(l) + [DOT] + rest.value)
  {
  }

  /** Labels are read back exactly if none has more than 63 bytes and there are not too many. */
  lemma {:induction false} ReadExactly(buf: seq<Byte>, p: nat, labels: List, fuel: nat)
    requires Bytes(buf) && Writable(labels) && At(buf, p, Wire(labels))
    ensures Text(buf, p, fuel) == Some(Said(labels)) <==> Short(labels, 63, fuel)
    decreases labels
  {
    match labels
    case Nil =>
      assert buf[p] == buf[p..p + 1][0];
    case Cons(l, rest) =>
      AtParts(buf, p, |l|, l, Wire(rest));
      if |l| > 63 {
        if Text(buf, p, fuel).Some? && Text(buf, p, fuel).value != [] {
          var i := EarlyDot(buf, p, fuel);
          SaidHead(l, rest, i);
        }
      } else if fuel > 0 {
        TextBehind(buf, p, fuel, l, p + 1 + |l|);
        ReadExactly(buf, p + 1 + |l|, rest, fuel - 1);
        if Text(buf, p + 1 + |l|, fuel - 1).Some? {
          Cancel(Lower(l) + [DOT], Text(buf, p + 1 + |l|, fuel - 1).value, Said(rest));
        }
      }
  }

  lemma {:induction false} SplitWritable(name: seq<Byte>)
    requires Labels(name, 255)
    ensures Writable(Split(name))
    decreases |name|
  {
    var k := Dot(name);
    forall i | 0 <= i < k ensures name[..k][i] != DOT {
      assert name[..k][i] in name[..k];
    }
    if k < |name| {
      SplitWritable(name[k + 1..]);
    }
  }

  lemma {:induction false} ShortSplit(name: seq<Byte>, most: nat, fuel: nat)
    requires Short(Split(name), most, fuel)
    ensures Labels(name, most) && LabelCount(name) < fuel
    decreases |name|
  {
    var k := Dot(name);
    if k < |name| {
      ShortSplit(name[k + 1..], most, fuel - 1);
    } else {
      assert Short(Nil, most, fuel - 1);
    }
  }

  /**
    The names that can be written are read back exactly if their labels have at most 63 bytes
    and there are fewer than `fuel`.
   */
  lemma ReadBackExactly(buf: seq<Byte>, p: nat, name: seq<Byte>, fuel: nat)
    requires Bytes(buf) && Labels(name, 255) && At(buf, p, Encoded(name))
    ensures Text(buf, p, fuel) == Some(Lower(name) + [DOT]) <==> Labels(name, 63) && LabelCount(name) < fuel
  {
    SplitWritable(name);
    SplitSaid(name);
    ReadExactly(buf, p, Split(name), fuel);
    if Short(Split(name), 63, fuel) {
      ShortSplit(name, 63, fuel);
    }
    if Labels(name, 63) && LabelCount(name) < fuel {
      SplitShort(name, 63, fuel);
    }
  }

  /**
    A name that can be written into a query is read back from there, in lower case,
    exactly if its labels have at most 63 bytes and there are at most 127 of them.
   */
  method RoundTrip(name: seq<Byte>, before: seq<Byte>, behind: seq<Byte>) returns (r: Option<seq<Byte>>)
    requires Bytes(before) && Bytes(behind) && Bytes(name) && Labels(name, 255)
    ensures r == Some(Lower(name)) <==> Labels(name, 63) && LabelCount(name) <= 127
  {
    var q := CreateName(name);
    EncodedBytes(name);
    EncodedSize(name);
    var buf := before + q.value + behind;
    ReadBackExactly(buf, |before|, name, Limit());
    r := Copy(buf, |before|);
    if r.Some? {
      SameText(r.value, Lower(name));
    }
  }

  lemma SameText(a: seq<Byte>, b: seq<Byte>)
    ensures a + [DOT] == b + [DOT] <==> a == b
  {
    if a + [DOT] == b + [DOT] {
      assert a == (a + [DOT])[..|a|] && b == (b + [DOT])[..|b|];
    }
  }

  lemma {:induction false} EncodedBytes(name: seq<Byte>)
    requires Bytes(name) && Labels(name, 255)
    ensures Bytes(Encoded(name))
    decreases |name|
  {
    var k := Dot(name);
    EncodedStep(name, k);
    if k < |name| {
      EncodedBytes(name[k + 1..]);
    }
  }

  /** A first label of 64 to 191 bytes is written all the same, and then refused. */
  lemma LongLabel(name: seq<Byte>, fuel: nat)
    requires Bytes(name) && name != [] && Labels(name, 255) && 64 <= Dot(name) < 192
    ensures Bytes(Encoded(name)) && Text(Encoded(name), 0, fuel) == None
  {
    EncodedBytes(name);
    EncodedStep(name, Dot(name));
  }

  /** A first label of 192 bytes or more is read as a pointer, which its first character completes. */
  lemma LabelAsPointer(name: seq<Byte>, fuel: nat)
    requires Bytes(name) && Labels(name, 255) && 192 <= Dot(name) && fuel > 0
    ensures Bytes(Encoded(name))
    ensures Text(Encoded(name), 0, fuel) == Text(Encoded(name), (Dot(name) - 192) * 256 + name[0], fuel - 1)
  {
    EncodedBytes(name);
    EncodedStep(name, Dot(name));
    assert Encoded(name)[1] == name[..Dot(name)][0];
  }

  /** A label of 64 bytes. */
  lemma LongLabelExample() returns (name: seq<Byte>)
    ensures Bytes(name) && Labels(name, 255) && !Labels(name, 63)
  {
    name := seq(64, i => 97);
    DotUnique(name, 64);
  }

  // ----- names that end with a pointer

  /** Labels with their lengths, and nothing behind them. */
  ghost function Heads(labels: List): seq<Byte> {
    match labels
    case Nil => []
    case Cons(l, rest) => [|l|] + l + Heads(rest)
  }

  ghost function Count(labels: List): nat {
    match labels
    case Nil => 0
    case Cons(_, rest) => 1 + Count(rest)
  }

  ghost predicate Ordinary(labels: List) {
    match labels
    case Nil => true
    case Cons(l, rest) => 0 < |l| <= 63 && Ordinary(rest)
  }

  /** The two bytes of a pointer to a position. */
  function PointerTo(q: nat): seq<Byte> {
    [192 + q / 256, q % 256]
  }

  lemma PointerRead(buf: seq<Byte>, p: nat, q: nat, fuel: nat)
    requires Bytes(buf) && q < 16384 && At(buf, p, PointerTo(q)) && fuel > 0
    ensures Text(buf, p, fuel) == Text(buf, q, fuel - 1)
  {
    assert buf[p] == buf[p..p + 2][0] && buf[p + 1] == buf[p..p + 2][1];
  }

  /** Labels and then a pointer are read as the labels and then what the pointer leads to. */
  lemma {:induction false} LabelsThenPointer(buf: seq<Byte>, p: nat, labels: List, q: nat, fuel: nat, left: nat)
    requires Bytes(buf) && Ordinary(labels) && q < 16384 && At(buf, p, Heads(labels) + PointerTo(q))
    requires fuel == Count(labels) + 1 + left
    ensures var there := Text(buf, q, left);
      Text(buf, p, fuel) == if there.None? then None else Some(Said(labels) + there.value)
    decreases labels
  {
    match labels {
      case Nil =>
        assert Heads(labels) + PointerTo(q) == PointerTo(q);
        PointerRead(buf, p, q, fuel);
        NothingSaid(Text(buf, q, left));
      case Cons(l, rest) =>
        var r := p + 1 + |l|;
        Associate([|l|] + l, Heads(rest), PointerTo(q));
        AtParts(buf, p, |l|, l, Heads(rest) + PointerTo(q));
        LabelsThenPointer(buf, r, rest, q, fuel - 1, left);
        OneMore(buf, p, fuel, l, r, rest, Text(buf, q, left));
    }
  }

  lemma OneMore(buf: seq<Byte>, p: nat, fuel: nat, l: seq<Byte>, r: nat, rest: List, there: Option<seq<Byte>>)
    requires Bytes(buf) && fuel > 0 && 0 < |l| <= 63 && r == p + 1 + |l| < |buf| && buf[p] == |l| && buf[p + 1..r] == l
    requires Text(buf, r, fuel - 1) == if there.None? then None else Some(Said(rest) + there.value)
    ensures Text(buf, p, fuel) == if there.None? then None else Some(Said(Cons(l, rest)) + there.value)
  {
    TextBehind(buf, p, fuel, l, r);
    Prepend(Text(buf, p, fuel), Text(buf, r, fuel - 1), there, Lower(l) + [DOT], Said(rest));
  }

  lemma NothingSaid(there: Option<seq<Byte>>)
    ensures Said(Nil) == [] && there == if there.None? then None else Some(Said(Nil) + there.value)
  {
    assert there.Some? ==> [] + there.value == there.value;
  }

  lemma Associate(a: seq<Byte>, b: seq<Byte>, c: seq<Byte>)
    ensures a + b + c == a + (b + c)
  {
  }

  lemma Prepend(all: Option<seq<Byte>>, some: Option<seq<Byte>>, there: Option<seq<Byte>>, a: seq<Byte>, b: seq<Byte>)
    requires all == if some.None? then None else Some(a + some.value)
    requires some == if there.None? then None else Some(b + there.value)
    ensures all == if there.None? then None else Some(a + b + there.value)
  {
    if there.Some? {
      Associate(a, b, there.value);
    }
  }

  /** A name whose tail is a pointer to a written name, anywhere in the message, is read as the whole name. */
  lemma PointedName(buf: seq<Byte>, p: nat, labels: List, q: nat, suffix: seq<Byte>, fuel: nat, left: nat)
    requires Bytes(buf) && Ordinary(labels) && q < 16384 && At(buf, p, Heads(labels) + PointerTo(q))
    requires Labels(suffix, 63) && Labels(suffix, 255) && At(buf, q, Encoded(suffix))
    requires fuel == Count(labels) + 1 + left && LabelCount(suffix) < left
    ensures Text(buf, p, fuel) == Some(Said(labels) + (Lower(suffix) + [DOT]))
  {
    LabelsThenPointer(buf, p, labels, q, fuel, left);
    ReadBackExactly(buf, q, suffix, left);
  }

  /** What lower case does to a byte: the letters from A to Z move by 32. */
  lemma LowerByByte(s: seq<Byte>, i: nat)
    requires i < |s|
    ensures 65 <= s[i] <= 90 ==> Lower(s)[i] == s[i] + 32
    ensures s[i] < 65 || s[i] > 90 ==> Lower(s)[i] == s[i]
  {
  }
}
