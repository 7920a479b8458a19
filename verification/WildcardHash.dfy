/**
  The wildcard hash for names such as ".example.com" and "*.example.com".  Keys are
  stored with their labels reversed ("com.example", "com.example."), sorted with
  the dot as the lowest character, and grouped by their first label into a hash
  whose entries are values or further hashes.

  An exact hash is the map it implements; the two low bits of an entry are the
  constructor of `Entry` and its flag `below`.
 */
module WildcardHash {

  datatype Option<T> = None | Some(value: T)

  type Value = int

  datatype Name = Name(key: string, value: Value)

  /** A level of the hash, and the value of the key that ends at it. */
  datatype Wildcard = Wildcard(table: map<string, Entry>, value: Option<Value>)

  /** `below` allows only names with at least one more label. */
  datatype Entry = Data(data: Value, below: bool) | Hash(hash: Wildcard, below: bool)

  // ----- keys and the order they are sorted in

  ghost predicate NoDot(s: string) {
    forall i :: 0 <= i < |s| ==> s[i] != '.'
  }

  ghost predicate IsDot(s: string, k: nat) {
    k <= |s| && (k < |s| ==> s[k] == '.') && forall i :: 0 <= i < k ==> s[i] != '.'
  }

  lemma DotExists(s: string)
    ensures exists k: nat :: IsDot(s, k)
  {
    var k := 0;
    while k < |s| && s[k] != '.'
      invariant 0 <= k <= |s| && forall i :: 0 <= i < k ==> s[i] != '.'
    {
      k := k + 1;
    }
    assert IsDot(s, k);
  }

  /** The position of the first dot, or the length. */
  ghost function Dot(s: string): (k: nat)
    ensures IsDot(s, k)
  {
    DotExists(s);
    var k: nat :| IsDot(s, k);
    k
  }

  ghost function Head(s: string): string {
    s[..Dot(s)]
  }

  /** What follows the first label and its dot. */
  ghost function Tail(s: string): string
    requires Dot(s) < |s|
  {
    s[Dot(s) + 1..]
  }

  /** The key is its first label, with or without a dot. */
  ghost predicate Last(s: string) {
    Dot(s) + 1 >= |s|
  }

  function Rank(c: char): int {
    if c == '.' then 0 else 1 + c as int
  }

  /** The order of ngx_dns_strcmp: the dot is lower than any other character. */
  predicate Less(a: string, b: string) {
    b != [] && (a == [] || Rank(a[0]) < Rank(b[0]) || (a[0] == b[0] && Less(a[1..], b[1..])))
  }

  predicate Sorted(names: seq<Name>) {
    forall i, j :: 0 <= i < j < |names| ==> Less(names[i].key, names[j].key)
  }

  predicate Clash(a: string, b: string) {
    a + "." == b
  }

  /** Keys without conflicts: ".d" and "*.d" exclude each other. */
  predicate WellFormed(names: seq<Name>) {
    && Sorted(names)
    && (forall i, j :: 0 <= i < |names| && 0 <= j < |names| ==> !Clash(names[i].key, names[j].key))
  }

  lemma DotUnique(s: string, k: nat)
    requires IsDot(s, k)
    ensures Dot(s) == k
  {
  }

  /** A common prefix does not decide the order. */
  lemma {:induction false} LessStrip(p: string, a: string, b: string)
    ensures Less(p + a, p + b) == Less(a, b)
  {
    if p == [] {
      assert p + a == a && p + b == b;
    } else {
      assert (p + a)[1..] == p[1..] + a && (p + b)[1..] == p[1..] + b;
      LessStrip(p[1..], a, b);
    }
  }

  /** What sorts between two strings with a common prefix has that prefix. */
  lemma {:induction false} Between(p: string, a: string, b: string, c: string)
    requires p <= a && p <= c && Less(a, b) && Less(b, c)
    ensures p <= b
  {
    if p != [] {
      assert p[0] == a[0] == c[0];
      assert b[0] == p[0];
      Between(p[1..], a[1..], b[1..], c[1..]);
    }
  }

  /** Keys with the same first label are neighbours, and the label alone comes first. */
  lemma Neighbours(a: string, b: string, c: string)
    requires Less(a, b) && Less(b, c) && Head(a) == Head(c)
    ensures Head(b) == Head(a)
  {
    var p := Head(a);
    Between(p, a, b, c);
    assert |Head(c)| == Dot(c) && |p| == Dot(a);
    LessRest(b, c, p, b[|p|..], c[|p|..]);
    assert forall i :: 0 <= i < |p| ==> b[i] == p[i] == a[i];
    DotUnique(b, |p|);
    assert b[..|p|] == p;
  }

  lemma AloneFirst(a: string, b: string)
    requires Less(a, b) && Head(a) == Head(b)
    ensures Dot(b) < |b|
  {
    var k := Dot(b);
    assert |Head(b)| == k && |Head(a)| == Dot(a);
    LessRest(a, b, Head(a), a[k..], b[k..]);
  }

  lemma LessRest(a: string, b: string, p: string, a': string, b': string)
    requires Less(a, b) && |p| <= |a| && |p| <= |b| && a[..|p|] == p == b[..|p|] && a' == a[|p|..] && b' == b[|p|..]
    ensures Less(a', b') && b' != []
  {
    assert a == p + a' && b == p + b';
    LessStrip(p, a', b');
  }

  // ----- which names a key matches

  /**
    `r` are the labels of a name: the last one first, or for the keys of wildcards at
    the end of a name (`tail`) the first one first; these match only longer names.
   */
  ghost predicate Matches(s: string, r: seq<string>, tail: bool)
    requires r != []
  {
    && r[0] == Head(s)
    && ((Dot(s) == |s| && !tail) || (|r| > 1 && (Last(s) || Matches(Tail(s), r[1..], tail))))
  }

  /** The number of labels of a key. */
  ghost function Depth(s: string): nat {
    if Last(s) then 1 else 1 + Depth(Tail(s))
  }

  /** The answer is the value of the deepest key that matches, if any does. */
  ghost predicate Best(names: seq<Name>, r: seq<string>, answer: Option<Value>, tail: bool)
    requires r != []
  {
    match answer
    case None => forall i :: 0 <= i < |names| ==> !Matches(names[i].key, r, tail)
    case Some(v) => exists i :: 0 <= i < |names| && Wins(names, r, i, tail) && names[i].value == v
  }

  ghost predicate Wins(names: seq<Name>, r: seq<string>, i: nat, tail: bool)
    requires r != [] && i < |names|
  {
    && Matches(names[i].key, r, tail)
    && forall j :: 0 <= j < |names| && Matches(names[j].key, r, tail) ==> Depth(names[j].key) <= Depth(names[i].key)
  }

  // ----- finding

  function FindEntry(e: Entry, r: seq<string>, tail: bool): Option<Value>
    requires r != []
    decreases |r|, 0
  {
    match e
    case Data(v, below) => if below && |r| == 1 then None else Some(v)
    case Hash(w, below) =>
      if |r| == 1 then
        if below then None else w.value
      else
        var found := Find(w, r[1..], tail);
        if found.Some? then found else w.value
  }

  /** ngx_hash_find_wc_head and, for `tail`, ngx_hash_find_wc_tail on the labels of a name. */
  function Find(w: Wildcard, r: seq<string>, tail: bool): Option<Value>
    requires r != []
    decreases |r|, 1
  {
    if tail && |r| == 1 then None else if r[0] in w.table then FindEntry(w.table[r[0]], r, tail) else w.value
  }

  // ----- a group of keys with the same first label

  /** `next` are the tails of a group, without the first key if that is only the label. */
  ghost predicate Tails(g: seq<Name>, lab: string, next: seq<Name>) {
    && g != []
    && (forall i :: 0 <= i < |g| ==> Head(g[i].key) == lab)
    && (forall i :: 1 <= i < |g| ==> Dot(g[i].key) < |g[i].key| && !Last(g[i].key))
    && var off := if Last(g[0].key) then 1 else 0;
    && |next| == |g| - off
    && forall i :: 0 <= i < |next| ==> next[i] == Name(Tail(g[i + off].key), g[i + off].value)
  }

  /** The entry of a group: `below` says that its first key has a dot, `last` that it is no more than its label. */
  function MakeEntry(value: Value, below: bool, last: bool, w: Wildcard, more: bool): Entry {
    if more then Hash(w.(value := if last then Some(value) else w.value), below) else Data(value, below)
  }

  ghost function GroupEntry(first: Name, w: Wildcard, more: bool): Entry {
    MakeEntry(first.value, Dot(first.key) < |first.key|, Last(first.key), w, more)
  }

  /** Setting the value of a level changes only the answer for labels it does not have. */
  lemma FindValue(w: Wildcard, v: Option<Value>, r: seq<string>, tail: bool)
    requires r != [] && w.value == None
    ensures var found := Find(w.(value := v), r, tail);
      (if found.Some? then found else v) == (if Find(w, r, tail).Some? then Find(w, r, tail) else v)
  {
  }

  /** A key of the group that is more than its label stands for its tail. */
  lemma KeyTail(s: string, r: seq<string>, tail: bool)
    requires r != [] && r[0] == Head(s) && !Last(s)
    ensures Matches(s, r, tail) == (|r| > 1 && Matches(Tail(s), r[1..], tail)) && Depth(s) == 1 + Depth(Tail(s))
  {
  }

  /** A winner among the tails wins in the group. */
  lemma TailWins(g: seq<Name>, lab: string, next: seq<Name>, r: seq<string>, i: nat, off: nat, tail: bool)
    requires Tails(g, lab, next) && |r| > 1 && r[0] == lab && i < |next| && Wins(next, r[1..], i, tail)
    requires off == if Last(g[0].key) then 1 else 0
    ensures Wins(g, r, i + off, tail)
  {
    TailOf(g, lab, next, i + off, off);
    KeyTail(g[i + off].key, r, tail);
    forall j | 0 <= j < |g| && Matches(g[j].key, r, tail) ensures Depth(g[j].key) <= Depth(g[i + off].key) {
      if j >= off {
        TailOf(g, lab, next, j, off);
        KeyTail(g[j].key, r, tail);
      }
    }
  }

  /** If no tail matches, only a key that is just the label can. */
  lemma TailsFail(g: seq<Name>, lab: string, next: seq<Name>, r: seq<string>, tail: bool)
    requires Tails(g, lab, next) && r != [] && r[0] == lab
    requires |r| > 1 ==> forall i :: 0 <= i < |next| ==> !Matches(next[i].key, r[1..], tail)
    ensures forall j :: 0 <= j < |g| && Matches(g[j].key, r, tail) ==> j == 0 && Last(g[0].key)
    ensures Matches(g[0].key, r, tail) ==> Wins(g, r, 0, tail)
    ensures Last(g[0].key) && |r| > 1 ==> Wins(g, r, 0, tail)
  {
    forall j | (if Last(g[0].key) then 1 else 0) <= j < |g| ensures !Matches(g[j].key, r, tail) {
      TailFails(g, lab, next, r, j, tail);
    }
    LabelMatches(g[0].key, r, tail);
    if Matches(g[0].key, r, tail) {
      OnlyOneWins(g, r, tail);
    }
  }

  lemma TailFails(g: seq<Name>, lab: string, next: seq<Name>, r: seq<string>, j: nat, tail: bool)
    requires Tails(g, lab, next) && r != [] && r[0] == lab && (if Last(g[0].key) then 1 else 0) <= j < |g|
    requires |r| > 1 ==> forall i :: 0 <= i < |next| ==> !Matches(next[i].key, r[1..], tail)
    ensures !Matches(g[j].key, r, tail)
  {
    var off := if Last(g[0].key) then 1 else 0;
    TailOf(g, lab, next, j, off);
    KeyFails(g[j].key, r, next[j - off].key, tail);
  }

  /** What the j-th key of a group stands for. */
  lemma TailOf(g: seq<Name>, lab: string, next: seq<Name>, j: nat, off: nat)
    requires Tails(g, lab, next) && off == (if Last(g[0].key) then 1 else 0) && off <= j < |g|
    ensures 0 <= j - off < |next| && Head(g[j].key) == lab && !Last(g[j].key) && next[j - off].key == Tail(g[j].key)
  {
  }

  lemma KeyFails(s: string, r: seq<string>, t: string, tail: bool)
    requires r != [] && r[0] == Head(s) && !Last(s) && t == Tail(s) && (|r| > 1 ==> !Matches(t, r[1..], tail))
    ensures !Matches(s, r, tail)
  {
    KeyTail(s, r, tail);
  }

  lemma LabelMatches(s: string, r: seq<string>, tail: bool)
    requires r != [] && r[0] == Head(s)
    ensures Last(s) && |r| > 1 ==> Matches(s, r, tail)
  {
  }

  lemma OnlyOneWins(g: seq<Name>, r: seq<string>, tail: bool)
    requires g != [] && r != [] && Matches(g[0].key, r, tail)
    requires forall j :: 1 <= j < |g| ==> !Matches(g[j].key, r, tail)
    ensures Wins(g, r, 0, tail)
  {
  }

  ghost predicate GroupCorrect(g: seq<Name>, lab: string, e: Entry) {
    forall r: seq<string>, tail :: r != [] && r[0] == lab && (tail ==> |r| > 1) ==>
      Best(g, r, FindEntry(e, r, tail), tail)
  }

  lemma BestSome(names: seq<Name>, r: seq<string>, i: nat, v: Value, tail: bool)
    requires r != [] && i < |names| && Wins(names, r, i, tail) && names[i].value == v
    ensures Best(names, r, Some(v), tail)
  {
  }

  lemma BestNone(names: seq<Name>, r: seq<string>, tail: bool)
    requires r != [] && forall j :: 0 <= j < |names| ==> !Matches(names[j].key, r, tail)
    ensures Best(names, r, None, tail)
  {
  }

  /** A name that ends with the label. */
  lemma EntryShort(first: Name, w: Wildcard, more: bool, r: seq<string>, tail: bool)
    requires |r| == 1
    ensures FindEntry(GroupEntry(first, w, more), r, tail)
         == if Dot(first.key) < |first.key| then None else Some(first.value)
  {
  }

  /** A longer name, when there is nothing below the label. */
  lemma EntryData(first: Name, w: Wildcard, r: seq<string>, tail: bool)
    requires |r| > 1
    ensures FindEntry(GroupEntry(first, w, false), r, tail) == Some(first.value)
  {
  }

  /** A longer name: what is found below the label, or else the value of the label. */
  lemma EntryHash(first: Name, w: Wildcard, r: seq<string>, tail: bool)
    requires |r| > 1 && w.value == None
    ensures FindEntry(GroupEntry(first, w, true), r, tail)
      == if Find(w, r[1..], tail).Some? then Find(w, r[1..], tail)
         else if Last(first.key) then Some(first.value) else None
  {
    FindValue(w, if Last(first.key) then Some(first.value) else None, r[1..], tail);
  }

  lemma GroupShort(g: seq<Name>, lab: string, next: seq<Name>, r: seq<string>, tail: bool)
    requires Tails(g, lab, next) && |r| == 1 && r[0] == lab && !tail
    ensures Best(g, r, if Dot(g[0].key) < |g[0].key| then None else Some(g[0].value), tail)
  {
    TailsFail(g, lab, next, r, tail);
    if Dot(g[0].key) < |g[0].key| {
      BestNone(g, r, tail);
    } else {
      BestSome(g, r, 0, g[0].value, tail);
    }
  }

  lemma GroupFound(g: seq<Name>, lab: string, next: seq<Name>, r: seq<string>, i: nat, tail: bool)
    requires Tails(g, lab, next) && |r| > 1 && r[0] == lab && i < |next| && Wins(next, r[1..], i, tail)
    ensures Best(g, r, Some(next[i].value), tail)
  {
    var off := if Last(g[0].key) then 1 else 0;
    TailWins(g, lab, next, r, i, off, tail);
    BestSome(g, r, i + off, next[i].value, tail);
  }

  lemma GroupNotFound(g: seq<Name>, lab: string, next: seq<Name>, r: seq<string>, tail: bool)
    requires Tails(g, lab, next) && |r| > 1 && r[0] == lab
    requires forall i :: 0 <= i < |next| ==> !Matches(next[i].key, r[1..], tail)
    ensures Best(g, r, if Last(g[0].key) then Some(g[0].value) else None, tail)
  {
    TailsFail(g, lab, next, r, tail);
    if Last(g[0].key) {
      BestSome(g, r, 0, g[0].value, tail);
    } else {
      BestNone(g, r, tail);
    }
  }

  /** The group answers for its keys as its tails do for theirs. */
  lemma GroupBest(g: seq<Name>, lab: string, next: seq<Name>, w: Wildcard, r: seq<string>, tail: bool)
    requires Tails(g, lab, next) && r != [] && r[0] == lab && w.value == None && (tail ==> |r| > 1)
    requires |r| > 1 && next != [] ==> Best(next, r[1..], Find(w, r[1..], tail), tail)
    ensures Best(g, r, FindEntry(GroupEntry(g[0], w, next != []), r, tail), tail)
  {
    if |r| == 1 {
      EntryShort(g[0], w, next != [], r, tail);
      GroupShort(g, lab, next, r, tail);
    } else if next == [] {
      EntryData(g[0], w, r, tail);
      GroupNotFound(g, lab, next, r, tail);
    } else {
      EntryHash(g[0], w, r, tail);
      if Find(w, r[1..], tail).Some? {
        var i :| 0 <= i < |next| && Wins(next, r[1..], i, tail) && next[i].value == Find(w, r[1..], tail).value;
        GroupFound(g, lab, next, r, i, tail);
      } else {
        GroupNotFound(g, lab, next, r, tail);
      }
    }
  }

  // ----- building

  /** The first `len` characters are the same. */
  ghost predicate Agree(a: string, b: string, len: nat) {
    len <= |a| && len <= |b| && forall i :: 0 <= i < len ==> a[i] == b[i]
  }

  lemma AgreeHead(a: string, b: string)
    requires Agree(a, b, Dot(a)) && (Dot(a) < |b| ==> b[Dot(a)] == '.')
    ensures Head(b) == Head(a) && Dot(b) == Dot(a)
  {
    var k := Dot(a);
    assert b[..k] == a[..k];
    DotUnique(b, k);
  }

  lemma HeadAgree(a: string, b: string)
    requires Head(b) == Head(a)
    ensures Agree(a, b, Dot(a)) && Dot(b) == Dot(a)
  {
    assert |Head(a)| == Dot(a) && |Head(b)| == Dot(b);
    forall i | 0 <= i < Dot(a) ensures a[i] == b[i] {
      assert Head(a)[i] == a[i] && Head(b)[i] == b[i];
    }
  }

  /** The test of the inner loop says that the first labels agree. */
  lemma SameHead(a: string, b: string, len: nat)
    requires Less(a, b) && len == if Dot(a) < |a| then Dot(a) + 1 else |a|
    ensures (Agree(a, b, len) && !(Dot(a) == |a| && |b| > len && b[len] != '.')) <==> Head(a) == Head(b)
    ensures Head(a) == Head(b) ==> Dot(a) == Dot(b)
  {
    if Head(a) == Head(b) {
      HeadAgree(a, b);
      AloneFirst(a, b);
    } else if Agree(a, b, len) && !(Dot(a) == |a| && |b| > len && b[len] != '.') {
      AgreeHead(a, b);
    }
  }

  /** ngx_strncmp, as a test for equality. */
  method SamePrefix(a: string, b: string, len: nat) returns (same: bool)
    requires len <= |a|
    ensures same <==> Agree(a, b, len)
  {
    if |b| < len {
      return false;
    }
    for i := 0 to len
      invariant Agree(a, b, i)
    {
      if a[i] != b[i] {
        return false;
      }
    }
    same := true;
  }

  lemma TailsLess(a: string, b: string)
    requires Dot(a) < |a| && Dot(b) < |b| && Head(a) == Head(b) && Less(a, b)
    ensures Less(Tail(a), Tail(b))
  {
    var p := Head(a) + ".";
    assert a == p + Tail(a) && b == p + Tail(b);
    LessStrip(p, Tail(a), Tail(b));
  }

  /** A later key of a group is more than its label and its dot. */
  lemma GroupMore(a: string, b: string)
    requires Less(a, b) && Head(a) == Head(b) && !Clash(a, b)
    ensures Dot(b) < |b| && !Last(b)
  {
    AloneFirst(a, b);
    if Last(b) {
      assert b == Head(b) + ".";
      if Dot(a) < |a| {
        TailsLess(a, b);
        assert false;
      }
    }
  }

  lemma TailsApart(a: string, b: string)
    requires Dot(a) < |a| && Dot(b) < |b| && Head(a) == Head(b) && !Clash(a, b)
    ensures !Clash(Tail(a), Tail(b))
  {
    var p := Head(a) + ".";
    assert a == p + Tail(a) && b == p + Tail(b);
    assert a + "." == p + (Tail(a) + ".");
  }

  lemma TailsSorted(g: seq<Name>, lab: string, next: seq<Name>)
    requires Sorted(g) && Tails(g, lab, next)
    ensures Sorted(next)
  {
    var off := if Last(g[0].key) then 1 else 0;
    forall i, j | 0 <= i < j < |next| ensures Less(next[i].key, next[j].key) {
      TailOf(g, lab, next, i + off, off);
      TailOf(g, lab, next, j + off, off);
      TailsLess(g[i + off].key, g[j + off].key);
    }
  }

  lemma TailsApartAll(g: seq<Name>, lab: string, next: seq<Name>, i: nat, j: nat)
    requires WellFormed(g) && Tails(g, lab, next) && i < |next| && j < |next|
    ensures !Clash(next[i].key, next[j].key) && next[i].key != []
  {
    var off := if Last(g[0].key) then 1 else 0;
    var a, b := g[i + off], g[j + off];
    assert !Clash(a.key, b.key);
    TailsApart(a.key, b.key);
  }

  lemma TailsBounded(g: seq<Name>, lab: string, next: seq<Name>, bound: nat)
    requires Tails(g, lab, next) && Bounded(g, bound)
    ensures next != [] ==> bound > 0 && Bounded(next, bound - 1)
  {
    var off := if Last(g[0].key) then 1 else 0;
    forall i | 0 <= i < |next| ensures |next[i].key| < bound {
      assert |g[i + off].key| <= bound;
    }
    assert next != [] ==> |next[0].key| < bound;
  }

  lemma TailsWellFormed(names: seq<Name>, n: nat, i: nat, next: seq<Name>, bound: nat)
    requires n < i <= |names| && WellFormed(names) && Tails(names[n..i], Head(names[n].key), next)
    requires Bounded(names, bound)
    ensures WellFormed(next) && (next != [] ==> bound > 0 && Bounded(next, bound - 1))
  {
    var g, lab := names[n..i], Head(names[n].key);
    SliceWellFormed(names, n, i);
    TailsSorted(g, lab, next);
    forall i, j | 0 <= i < |next| && 0 <= j < |next| ensures !Clash(next[i].key, next[j].key) && next[i].key != [] {
      TailsApartAll(g, lab, next, i, j);
    }
    TailsBounded(g, lab, next, bound);
  }

  lemma SliceWellFormed(names: seq<Name>, n: nat, i: nat)
    requires n < i <= |names| && WellFormed(names)
    ensures WellFormed(names[n..i])
  {
  }

  ghost predicate Bounded(names: seq<Name>, bound: nat) {
    forall i :: 0 <= i < |names| ==> |names[i].key| <= bound
  }

  lemma TailsSnoc(g: seq<Name>, lab: string, next: seq<Name>, x: Name)
    requires Tails(g, lab, next) && Head(x.key) == lab && Dot(x.key) < |x.key| && !Last(x.key)
    ensures Tails(g + [x], lab, next + [Name(Tail(x.key), x.value)])
  {
    var g' := g + [x];
    assert g'[0] == g[0];
    assert forall i :: 0 <= i < |g| ==> g'[i] == g[i];
  }

  /** The hash gives the best answer for every name. */
  ghost predicate Correct(names: seq<Name>, w: Wildcard) {
    forall r: seq<string>, tail :: r != [] ==> Best(names, r, Find(w, r, tail), tail)
  }

  /** The first `n` names are in the table, and their first labels do not come again. */
  ghost predicate Done(names: seq<Name>, n: nat, table: map<string, Entry>)
    requires n <= |names|
  {
    && (forall l :: l in table ==> exists j :: 0 <= j < n && Head(names[j].key) == l)
    && (forall j, m :: 0 <= j < n <= m < |names| ==> Head(names[j].key) != Head(names[m].key))
    && Correct(names[..n], Wildcard(table, None))
  }

  /** A group whose first label is new. */
  lemma GroupAdded(a: seq<Name>, g: seq<Name>, lab: string, table: map<string, Entry>, e: Entry, r: seq<string>,
                   tail: bool)
    requires r != [] && lab !in table && g != []
    requires forall j :: 0 <= j < |a| ==> Head(a[j].key) != lab
    requires forall j :: 0 <= j < |g| ==> Head(g[j].key) == lab
    requires Best(a, r, Find(Wildcard(table, None), r, tail), tail)
    requires r[0] == lab && (tail ==> |r| > 1) ==> Best(g, r, FindEntry(e, r, tail), tail)
    ensures Best(a + g, r, Find(Wildcard(table[lab := e], None), r, tail), tail)
  {
    var all := a + g;
    var found := Find(Wildcard(table[lab := e], None), r, tail);
    if tail && |r| == 1 {
      BestNone(all, r, tail);
    } else if r[0] == lab {
      if found.Some? {
        var i :| 0 <= i < |g| && Wins(g, r, i, tail) && g[i].value == found.value;
        assert all[|a| + i] == g[i];
        assert Wins(all, r, |a| + i, tail);
      }
    } else {
      assert found == Find(Wildcard(table, None), r, tail);
      if found.Some? {
        var i :| 0 <= i < |a| && Wins(a, r, i, tail) && a[i].value == found.value;
        assert all[i] == a[i];
        assert Wins(all, r, i, tail);
      }
    }
  }

  lemma GroupDone(names: seq<Name>, n: nat, i: nat, table: map<string, Entry>, e: Entry)
    requires n < i <= |names| && Sorted(names) && Done(names, n, table)
    requires forall j :: n <= j < i ==> Head(names[j].key) == Head(names[n].key)
    requires i < |names| ==> Head(names[i].key) != Head(names[n].key)
    requires GroupCorrect(names[n..i], Head(names[n].key), e)
    ensures Head(names[n].key) !in table
    ensures Done(names, i, table[Head(names[n].key) := e])
  {
    var lab := Head(names[n].key);
    assert lab !in table;
    forall j, m | 0 <= j < i <= m < |names| ensures Head(names[j].key) != Head(names[m].key) {
      if n <= j && i < m && Head(names[m].key) == lab {
        Neighbours(names[n].key, names[i].key, names[m].key);
      }
    }
    assert names[..i] == names[..n] + names[n..i];
    var upto, w := names[..i], Wildcard(table[lab := e], None);
    forall r: seq<string>, tail | r != [] ensures Best(upto, r, Find(w, r, tail), tail) {
      GroupAdded(names[..n], names[n..i], lab, table, e, r, tail);
    }
  }

  lemma GroupEntryCorrect(g: seq<Name>, lab: string, next: seq<Name>, w: Wildcard)
    requires Tails(g, lab, next) && w.value == None && (next != [] ==> Correct(next, w))
    ensures GroupCorrect(g, lab, GroupEntry(g[0], w, next != []))
  {
    var e := GroupEntry(g[0], w, next != []);
    forall r: seq<string>, tail | r != [] && r[0] == lab && (tail ==> |r| > 1)
      ensures Best(g, r, FindEntry(e, r, tail), tail)
    {
      GroupBest(g, lab, next, w, r, tail);
    }
  }

  method FirstDot(s: string) returns (len: nat)
    ensures len == Dot(s)
  {
    len := 0;
    while len < |s|
      invariant 0 <= len <= |s| && forall i :: 0 <= i < len ==> s[i] != '.'
    {
      if s[len] == '.' {
        break;
      }
      len := len + 1;
    }
    DotUnique(s, len);
  }

  ghost predicate Gathered(names: seq<Name>, n: nat, i: nat, next: seq<Name>)
    requires n < i <= |names|
  {
    Tails(names[n..i], Head(names[n].key), next) == true
  }

  lemma GroupGrows(names: seq<Name>, n: nat, i: nat, next: seq<Name>)
    requires n < i < |names| && WellFormed(names) && Gathered(names, n, i, next)
    requires Head(names[i].key) == Head(names[n].key)
    ensures Dot(names[i].key) < |names[i].key|
    ensures Gathered(names, n, i + 1, next + [Name(Tail(names[i].key), names[i].value)])
  {
    assert Less(names[n].key, names[i].key) && !Clash(names[n].key, names[i].key);
    GroupMore(names[n].key, names[i].key);
    TailsSnoc(names[n..i], Head(names[n].key), next, names[i]);
    assert names[n..i + 1] == names[n..i] + [names[i]];
  }

  /** The tests of the inner loop: the other key has the same first label. */
  method SameGroup(key: string, other: string, len: nat, dot: bool) returns (same: bool)
    requires Less(key, other) && dot == (Dot(key) < |key|) && len == if dot then Dot(key) + 1 else |key|
    ensures same <==> Head(other) == Head(key)
    ensures same ==> Dot(other) == Dot(key)
  {
    SameHead(key, other, len);
    same := SamePrefix(key, other, len);
    if !dot && |other| > len && other[len] != '.' {
      same := false;
    }
  }

  lemma FirstGathered(names: seq<Name>, n: nat, next: seq<Name>)
    requires n < |names|
    requires next == if Last(names[n].key) then [] else [Name(Tail(names[n].key), names[n].value)]
    ensures Gathered(names, n, n + 1, next)
  {
    assert names[n..n + 1] == [names[n]];
    assert Tails([names[n]], Head(names[n].key), next);
  }

  /** The inner loop: the tails of the keys that share the first label of the n-th one. */
  method Gather(names: seq<Name>, n: nat) returns (i: nat, next: seq<Name>)
    requires WellFormed(names) && n < |names|
    ensures n < i <= |names| && Tails(names[n..i], Head(names[n].key), next)
    ensures i < |names| ==> Head(names[i].key) != Head(names[n].key)
  {
    var key := names[n].key;
    var len := FirstDot(key);
    var dot := len < |key|;
    var dotLen := len + 1;
    if dot {
      len := len + 1;
    }
    next := [];
    if |key| != len {
      next := [Name(key[len..], names[n].value)];
    }
    i := n + 1;
    FirstGathered(names, n, next);
    while i < |names|
      invariant n < i <= |names| && Gathered(names, n, i, next)
    {
      var other := names[i].key;
      var same := SameGroup(key, other, len, dot);
      if !same {
        break;
      }
      GroupGrows(names, n, i, next);
      next := next + [Name(other[dotLen..], names[i].value)];
      i := i + 1;
    }
  }

  /** ngx_hash_wildcard_init */
  method WildcardInit(names: seq<Name>, ghost bound: nat) returns (w: Wildcard)
    requires WellFormed(names) && Bounded(names, bound)
    ensures w.value == None
    ensures Correct(names, w)
    decreases bound
  {
    var table := map[];
    var n := 0;
    while n < |names|
      invariant n <= |names| && Done(names, n, table)
    {
      var i, next := Gather(names, n);
      ghost var g, lab := names[n..i], Head(names[n].key);
      var sub := Wildcard(map[], None);
      if next != [] {
        TailsWellFormed(names, n, i, next, bound);
        sub := WildcardInit(next, bound - 1);
      }
      var len := FirstDot(names[n].key);
      var e := MakeEntry(names[n].value, len < |names[n].key|, len + 1 >= |names[n].key|, sub, next != []);
      GroupEntryCorrect(g, lab, next, sub);
      GroupDone(names, n, i, table, e);
      table := table[names[n].key[..len] := e];
      n := i;
    }
    assert names[..n] == names;
    w := Wildcard(table, None);
  }

  // ----- the labels of a name, from the last to the first

  ghost predicate IsAfterDot(s: string, n: nat) {
    n <= |s| && (n > 0 ==> s[n - 1] == '.') && forall i :: n <= i < |s| ==> s[i] != '.'
  }

  lemma AfterDotExists(s: string)
    ensures exists n: nat :: IsAfterDot(s, n)
  {
    var n := |s|;
    while n > 0 && s[n - 1] != '.'
      invariant 0 <= n <= |s| && forall i :: n <= i < |s| ==> s[i] != '.'
    {
      n := n - 1;
    }
    assert IsAfterDot(s, n);
  }

  /** The position after the last dot, or 0. */
  ghost function AfterDot(s: string): (n: nat)
    ensures IsAfterDot(s, n)
  {
    AfterDotExists(s);
    var n: nat :| IsAfterDot(s, n);
    n
  }

  lemma AfterDotUnique(s: string, n: nat)
    requires IsAfterDot(s, n)
    ensures n == AfterDot(s)
  {
  }

  ghost function Parts(s: string): (ps: seq<string>)
    ensures ps != [] && forall i :: 0 <= i < |ps| ==> NoDot(ps[i])
  {
    var n := AfterDot(s);
    if n == 0 then [s] else [s[n..]] + Parts(s[..n - 1])
  }

  /** The labels written in the order given. */
  ghost function Joined(ps: seq<string>): string
    requires ps != []
  {
    if |ps| == 1 then ps[0] else ps[0] + "." + Joined(ps[1..])
  }

  /** The name whose labels are given from the last to the first. */
  ghost function Whole(ps: seq<string>): string
    requires ps != []
  {
    if |ps| == 1 then ps[0] else Whole(ps[1..]) + "." + ps[0]
  }

  lemma PartsSplit(a: string, b: string)
    requires NoDot(b)
    ensures Parts(a + "." + b) == [b] + Parts(a) && Parts(b) == [b]
  {
    var s := a + "." + b;
    var n := AfterDot(s);
    assert s[|a|] == '.' && s[|a| + 1..] == b;
    assert n == |a| + 1;
    assert s[..n - 1] == a;
  }

  lemma {:induction false} WholeParts(s: string)
    ensures Whole(Parts(s)) == s
    decreases |s|
  {
    var n := AfterDot(s);
    if n > 0 {
      WholeParts(s[..n - 1]);
      assert Parts(s)[1..] == Parts(s[..n - 1]);
      assert s == s[..n - 1] + "." + s[n..];
    }
  }

  lemma {:induction false} WholeConcat(k: seq<string>, q: seq<string>)
    requires k != [] && q != []
    ensures Whole(k + q) == Whole(q) + "." + Whole(k)
  {
    assert (k + q)[1..] == k[1..] + q;
    if |k| == 1 {
      assert k[1..] + q == q;
    } else {
      WholeConcat(k[1..], q);
    }
  }

  lemma Reassociate(x: string, a: string, dot: string, b: string)
    ensures x + (a + dot + b) == x + a + dot + b
  {
  }

  /** The parts of a domain come first in those of its subdomains. */
  lemma {:induction false} PartsConcat(x: string, d: string)
    ensures Parts(x + "." + d) == Parts(d) + Parts(x)
    decreases |d|
  {
    var n := AfterDot(d);
    if n == 0 {
      PartsSplit(x, d);
    } else {
      var a, b := d[..n - 1], d[n..];
      assert d == a + "." + b;
      PartsConcat(x, a);
      PartsSplit(x + "." + a, b);
      Reassociate(x + ".", a, ".", b);
    }
  }

  /** `name` is a proper subdomain of `d`. */
  predicate Ends(name: string, d: string) {
    |name| > |d| && name[|name| - |d| - 1..] == "." + d
  }

  lemma EndsParts(name: string, d: string)
    requires Ends(name, d)
    ensures Parts(d) <= Parts(name) && |Parts(name)| > |Parts(d)|
  {
    var x := name[..|name| - |d| - 1];
    assert name == x + "." + d;
    PartsConcat(x, d);
  }

  lemma EndsConcat(x: string, d: string)
    ensures Ends(x + "." + d, d)
  {
  }

  lemma PartsEnd(name: string, d: string)
    requires Parts(d) <= Parts(name)
    ensures if |Parts(name)| == |Parts(d)| then name == d else Ends(name, d)
  {
    WholeParts(name);
    WholeParts(d);
    var q := Parts(name)[|Parts(d)|..];
    assert Parts(name) == Parts(d) + q;
    if q == [] {
      assert Parts(name) == Parts(d);
    } else {
      WholeConcat(Parts(d), q);
      EndsConcat(Whole(q), d);
    }
  }

  // ----- patterns

  /** ".d", or "*.d" when only names below d are meant. */
  datatype Pattern = Pattern(d: string, below: bool, value: Value)

  function Text(p: Pattern): string {
    (if p.below then "*." else ".") + p.d
  }

  predicate Covers(p: Pattern, name: string) {
    Ends(name, p.d) || (name == p.d && !p.below)
  }

  /** The key of a pattern: its labels reversed, with a dot at the end if only names below are meant. */
  ghost function Key(p: Pattern): string {
    Joined(Parts(p.d)) + if p.below then "." else ""
  }

  /** What ngx_hash_add_key accepts without a conflict. */
  predicate Declared(ps: seq<Pattern>) {
    && (forall i :: 0 <= i < |ps| ==> Proper(ps[i]))
    && (forall i, j :: 0 <= i < j < |ps| ==> ps[i].d != ps[j].d)
  }

  predicate Proper(p: Pattern) {
    p.d != [] && p.d[0] != '.'
  }

  lemma {:induction false} JoinedSnoc(k: seq<string>)
    requires k != []
    ensures Joined(k + [""]) == Joined(k) + "."
  {
    if |k| == 1 {
      assert (k + [""])[1..] == [""];
    } else {
      assert (k + [""])[1..] == k[1..] + [""];
      JoinedSnoc(k[1..]);
    }
  }

  lemma {:induction false} FirstLabel(d: string)
    requires d != [] && d[0] != '.'
    ensures Parts(d)[|Parts(d)| - 1] != ""
    decreases |d|
  {
    var n := AfterDot(d);
    if n > 0 {
      FirstLabel(d[..n - 1]);
    }
  }

  ghost predicate Labels(k: seq<string>) {
    k != [] && (forall i :: 0 <= i < |k| ==> NoDot(k[i])) && k[|k| - 1] != ""
  }

  lemma {:induction false} JoinedEnd(k: seq<string>)
    requires Labels(k)
    ensures Joined(k) != "" && Joined(k)[|Joined(k)| - 1] != '.'
  {
    if |k| == 1 {
      assert k[0][|k[0]| - 1] in k[0];
    } else {
      JoinedEnd(k[1..]);
    }
  }

  /** A key matches the labels that it lists, and more of them if it ends with a dot. */
  lemma {:induction false} JoinedMatches(k: seq<string>, dot: string, r: seq<string>)
    requires Labels(k) && (dot == "" || dot == ".") && r != []
    ensures Matches(Joined(k) + dot, r, false) <==> k <= r && (dot == "." ==> |r| > |k|)
    ensures Depth(Joined(k) + dot) == |k|
  {
    var s := Joined(k) + dot;
    DotUnique(s, |k[0]|);
    if |k| == 1 {
      assert Head(s) == k[0];
    } else {
      var t := Joined(k[1..]) + dot;
      JoinedEnd(k[1..]);
      assert s == k[0] + "." + t;
      assert Head(s) == k[0] && Tail(s) == t;
      if |r| > 1 {
        JoinedMatches(k[1..], dot, r[1..]);
      } else {
        JoinedMatches(k[1..], dot, r);
      }
    }
  }

  /** The key of a pattern matches the names that the pattern covers. */
  lemma KeyMatches(p: Pattern, name: string)
    requires Proper(p)
    ensures Matches(Key(p), Parts(name), false) <==> Covers(p, name)
    ensures Depth(Key(p)) == |Parts(p.d)|
    ensures Covers(p, name) ==> Parts(p.d) <= Parts(name)
  {
    FirstLabel(p.d);
    JoinedMatches(Parts(p.d), if p.below then "." else "", Parts(name));
    if Ends(name, p.d) {
      EndsParts(name, p.d);
    }
    if Parts(p.d) <= Parts(name) {
      PartsEnd(name, p.d);
    }
  }

  /** Of two patterns that cover the same name, the one with more labels is the longer one. */
  lemma DeeperLonger(p: Pattern, q: Pattern, name: string)
    requires Proper(p) && Proper(q) && Covers(p, name) && Covers(q, name) && Depth(Key(p)) <= Depth(Key(q))
    ensures |p.d| <= |q.d|
  {
    KeyMatches(p, name);
    KeyMatches(q, name);
    assert Parts(p.d) <= Parts(q.d);
    PartsEnd(q.d, p.d);
  }

  /** The labels can be read back from a key. */
  lemma JoinedInjective(k: seq<string>, e: string, k': seq<string>, e': string)
    requires Labels(k) && Labels(k') && (e == "" || e == ".") && (e' == "" || e' == ".")
    requires Joined(k) + e == Joined(k') + e'
    ensures k == k'
  {
    var r := k + ["x"];
    JoinedMatches(k, e, r);
    JoinedMatches(k', e', r);
  }

  lemma NoDoubleDot(k: seq<string>, k': seq<string>, e': string)
    requires Labels(k) && Labels(k') && (e' == "" || e' == ".")
    ensures Joined(k) + "." + "." != Joined(k') + e'
  {
    JoinedEnd(k');
    var n := |Joined(k)|;
    assert (Joined(k) + "." + ".")[n] == '.' == (Joined(k) + "." + ".")[n + 1];
    assert (Joined(k') + e')[|Joined(k')| - 1] == Joined(k')[|Joined(k')| - 1];
  }

  /** Different patterns have keys that do not clash. */
  lemma KeyApart(p: Pattern, q: Pattern)
    requires Proper(p) && Proper(q) && p.d != q.d
    ensures !Clash(Key(p), Key(q))
  {
    FirstLabel(p.d);
    FirstLabel(q.d);
    WholeParts(p.d);
    WholeParts(q.d);
    var e := if q.below then "." else "";
    if p.below {
      NoDoubleDot(Parts(p.d), Parts(q.d), e);
    } else if Key(p) + "." == Key(q) {
      assert Key(p) == Joined(Parts(p.d));
      JoinedInjective(Parts(p.d), ".", Parts(q.d), e);
    }
  }

  /** A key is not its own key with a dot. */
  lemma KeySelf(p: Pattern)
    ensures !Clash(Key(p), Key(p))
  {
    assert |Key(p) + "."| == |Key(p)| + 1;
  }

  // ----- the code on names

  /** `p` is the reversed part of the key, `len` labels' characters after position i are pending. */
  ghost predicate Reversing(key: string, i: nat, len: nat, p: string) {
    && i + len < |key| && |p| + i + len + 1 == |key|
    && NoDot(key[i + 1..i + 1 + len])
    && p + Joined(Parts(key[1..i + 1 + len])) == Joined(Parts(key[1..]))
  }

  lemma SliceDot(key: string, i: nat, len: nat)
    requires 0 < i && i + len < |key| && key[i] == '.'
    ensures key[1..i + 1 + len] == key[1..i] + "." + key[i + 1..i + 1 + len]
  {
    var s, t := key[1..i + 1 + len], key[1..i] + "." + key[i + 1..i + 1 + len];
    assert |s| == |t| && forall j :: 0 <= j < |s| ==> s[j] == t[j];
  }

  lemma ReverseDot(key: string, i: nat, len: nat, p: string)
    requires Reversing(key, i, len, p) && i > 0 && key[i] == '.'
    ensures Reversing(key, i - 1, 0, p + key[i + 1..i + 1 + len] + ".")
  {
    var s, a, b := key[1..i + 1 + len], key[1..i], key[i + 1..i + 1 + len];
    SliceDot(key, i, len);
    PartsSplit(a, b);
    assert Parts(s)[1..] == Parts(a);
    Reassociate(p, b, ".", Joined(Parts(a)));
  }

  lemma ReverseOther(key: string, i: nat, len: nat, p: string)
    requires Reversing(key, i, len, p) && i > 0 && key[i] != '.'
    ensures Reversing(key, i - 1, len + 1, p)
  {
    assert key[i..i + 1 + len] == [key[i]] + key[i + 1..i + 1 + len];
  }

  /** The conversion in ngx_hash_add_key, for a key that starts with "*." or ".". */
  method ReverseKey(key: string) returns (p: string)
    requires key != []
    ensures p == Joined(Parts(key[1..])) && |p| == |key| - 1
  {
    p := [];
    var len, i := 0, |key| - 1;
    assert key[1..i + 1 + len] == key[1..];
    while i > 0
      invariant 0 <= i && 0 <= len && Reversing(key, i, len, p)
    {
      if key[i] == '.' {
        ReverseDot(key, i, len, p);
        p := p + key[i + 1..i + 1 + len] + ".";
        len := 0;
      } else {
        ReverseOther(key, i, len, p);
        len := len + 1;
      }
      i := i - 1;
    }
    PartsSplit("", key[1..1 + len]);
    if len > 0 {
      p := p + key[1..1 + len];
    }
  }

  lemma ReversedIsKey(p: Pattern)
    ensures Joined(Parts(Text(p)[1..])) == Key(p)
  {
    if p.below {
      assert Text(p)[1..] == "" + "." + p.d;
      PartsConcat("", p.d);
      PartsSplit("", "");
      JoinedSnoc(Parts(p.d));
    } else {
      assert Text(p)[1..] == p.d;
    }
  }

  /** ngx_hash_find_wc_head */
  method FindWcHead(w: Wildcard, name: string) returns (value: Option<Value>)
    ensures value == Find(w, Parts(name), false)
    decreases |name|
  {
    var n := |name|;
    while n > 0
      invariant 0 <= n <= |name| && forall i :: n <= i < |name| ==> name[i] != '.'
    {
      if name[n - 1] == '.' {
        break;
      }
      n := n - 1;
    }
    AfterDotUnique(name, n);
    var lab := name[n..];
    if lab in w.table {
      match w.table[lab] {
        case Hash(hwc, below) =>
          if n == 0 {
            if below {
              return None;
            }
            return hwc.value;
          }
          assert Parts(name)[1..] == Parts(name[..n - 1]);
          value := FindWcHead(hwc, name[..n - 1]);
          if value.Some? {
            return;
          }
          return hwc.value;
        case Data(v, below) =>
          if below && n == 0 {
            return None;
          }
          return Some(v);
      }
    }
    return w.value;
  }

  // ----- the whole hash

  /** The names that ngx_hash_add_key makes of some patterns. */
  ghost function Names(ps: seq<Pattern>): (names: seq<Name>)
    ensures |names| == |ps| && forall i :: 0 <= i < |ps| ==> names[i] == NameOf(ps[i])
  {
    if ps == [] then [] else Names(ps[..|ps| - 1]) + [NameOf(ps[|ps| - 1])]
  }

  ghost function NameOf(p: Pattern): Name {
    Name(Key(p), p.value)
  }

  /** Patterns without conflicts, listed in the order of their keys. */
  ghost predicate Arranged(ps: seq<Pattern>) {
    Declared(ps) && Sorted(Names(ps))
  }

  lemma ArrangedWellFormed(ps: seq<Pattern>)
    requires Arranged(ps)
    ensures WellFormed(Names(ps))
  {
    var names := Names(ps);
    forall i | 0 <= i < |names| ensures names[i].key != [] {
      FirstLabel(ps[i].d);
      JoinedEnd(Parts(ps[i].d));
    }
    forall i, j | 0 <= i < |names| && 0 <= j < |names| ensures !Clash(names[i].key, names[j].key) {
      if i == j {
        KeySelf(ps[i]);
      } else {
        KeyApart(ps[i], ps[j]);
      }
    }
  }

  /** The i-th pattern covers the name, and none that covers it is longer. */
  ghost predicate Longest(ps: seq<Pattern>, name: string, i: nat)
    requires i < |ps|
  {
    Covers(ps[i], name) && forall j :: 0 <= j < |ps| && Covers(ps[j], name) ==> |ps[j].d| <= |ps[i].d|
  }

  lemma WinsIsLongest(ps: seq<Pattern>, name: string, i: nat)
    requires Declared(ps) && i < |ps| && Wins(Names(ps), Parts(name), i, false)
    ensures Longest(ps, name, i)
  {
    KeyMatches(ps[i], name);
    forall j | 0 <= j < |ps| && Covers(ps[j], name) ensures |ps[j].d| <= |ps[i].d| {
      KeyMatches(ps[j], name);
      assert Matches(Names(ps)[j].key, Parts(name), false);
      DeeperLonger(ps[j], ps[i], name);
    }
  }

  lemma BestIsLongest(ps: seq<Pattern>, name: string, answer: Option<Value>)
    requires Declared(ps) && Best(Names(ps), Parts(name), answer, false)
    ensures Answers(ps, name, answer)
  {
    var names := Names(ps);
    if answer.Some? {
      var i :| 0 <= i < |names| && Wins(names, Parts(name), i, false) && names[i].value == answer.value;
      WinsIsLongest(ps, name, i);
    } else {
      forall j | 0 <= j < |ps| ensures !Covers(ps[j], name) {
        KeyMatches(ps[j], name);
        assert !Matches(names[j].key, Parts(name), false);
      }
    }
  }

  /** The answer is the value of the longest pattern that covers the name, if any does. */
  ghost predicate Answers(ps: seq<Pattern>, name: string, answer: Option<Value>) {
    match answer
    case None => forall j :: 0 <= j < |ps| ==> !Covers(ps[j], name)
    case Some(v) => exists i :: 0 <= i < |ps| && Longest(ps, name, i) && ps[i].value == v
  }

  lemma {:induction false} LengthBound(names: seq<Name>) returns (bound: nat)
    ensures Bounded(names, bound)
  {
    bound := 0;
    for i := 0 to |names|
      invariant Bounded(names[..i], bound)
    {
      var longer := if |names[i].key| > bound then |names[i].key| else bound;
      assert forall j :: 0 <= j < i + 1 ==> (if j < i then names[..i][j] else names[i]) == names[..i + 1][j];
      bound := longer;
    }
    assert names[..|names|] == names;
  }

  /** ngx_hash_add_key for a wildcard at the head of the name. */
  method AddKey(p: Pattern) returns (name: Name)
    ensures name == NameOf(p)
  {
    var key := ReverseKey(Text(p));
    ReversedIsKey(p);
    name := Name(key, p.value);
  }

  /** Every pattern is added with its key reversed. */
  method AddKeys(ps: seq<Pattern>) returns (names: seq<Name>)
    ensures names == Names(ps)
  {
    names := [];
    for i := 0 to |ps|
      invariant names == Names(ps[..i])
    {
      var name := AddKey(ps[i]);
      assert ps[..i + 1][..i] == ps[..i];
      names := names + [name];
    }
    assert ps[..|ps|] == ps;
  }

  lemma FindAnswers(ps: seq<Pattern>, w: Wildcard, name: string)
    requires Declared(ps) && Correct(Names(ps), w)
    ensures Answers(ps, name, Find(w, Parts(name), false))
  {
    BestIsLongest(ps, name, Find(w, Parts(name), false));
  }

  /** Adding patterns, building the hash and looking a name up gives the value of the longest pattern that covers it. */
  method BuildAndFind(ps: seq<Pattern>, name: string) returns (value: Option<Value>)
    requires Arranged(ps)
    ensures Answers(ps, name, value)
  {
    var names := AddKeys(ps);
    ArrangedWellFormed(ps);
    ghost var bound := LengthBound(names);
    var w := WildcardInit(names, bound);
    value := FindWcHead(w, name);
    FindAnswers(ps, w, name);
  }

  // ----- wildcards at the end of a name

  /** The labels of a name, from the first to the last. */
  ghost function Split(name: string): (ls: seq<string>)
    ensures ls != []
    decreases |name|
  {
    if Dot(name) == |name| then [name] else [Head(name)] + Split(Tail(name))
  }

  /** `name` continues `d` with at least one more label. */
  predicate Begins(name: string, d: string) {
    |name| > |d| && name[..|d|] == d && name[|d|] == '.'
  }

  /** A pattern "d.*" is stored under the key d, which does not end with a dot. */
  predicate TailKey(d: string) {
    d != [] && d[|d| - 1] != '.'
  }

  lemma SplitHead(name: string)
    ensures Split(name)[0] == Head(name) && (|Split(name)| > 1 <==> Dot(name) < |name|)
    ensures Dot(name) < |name| ==> Split(name)[1..] == Split(Tail(name))
  {
    assert Dot(name) == |name| ==> Head(name) == name;
  }

  /** Where the first dots agree, so do the rests. */
  lemma BeginsTail(name: string, d: string)
    requires Dot(d) < |d| && Dot(name) < |name| && Head(name) == Head(d)
    ensures Begins(name, d) <==> Begins(Tail(name), Tail(d))
  {
    var k := Dot(d);
    assert |Head(d)| == k && |Head(name)| == Dot(name);
    var u, v := Tail(name), Tail(d);
    assert name == Head(d) + "." + u && d == Head(d) + "." + v;
    if Begins(name, d) {
      assert u[..|v|] == name[k + 1..|d|] == d[k + 1..] == v;
    }
    if Begins(u, v) {
      assert name[..|d|] == Head(d) + "." + u[..|v|];
    }
  }

  lemma BeginsHead(name: string, d: string)
    requires Begins(name, d)
    ensures Head(name) == Head(d) && Dot(name) == Dot(d) < |name|
  {
    var k := Dot(d);
    assert forall i :: 0 <= i < |d| ==> name[i] == name[..|d|][i] == d[i];
    DotUnique(name, k);
    assert name[..k] == d[..k];
  }

  /** The key d matches the names that continue d. */
  lemma {:induction false} TailMatches(d: string, name: string)
    requires TailKey(d)
    ensures Matches(d, Split(name), true) <==> Begins(name, d)
    decreases |d|
  {
    SplitHead(name);
    if Begins(name, d) {
      BeginsHead(name, d);
    }
    if Head(name) == Head(d) && Dot(name) < |name| {
      if Dot(d) == |d| {
        assert Head(d) == d;
        assert |Head(name)| == Dot(name);
      } else {
        BeginsTail(name, d);
        assert Tail(d)[|Tail(d)| - 1] == d[|d| - 1];
        TailMatches(Tail(d), Tail(name));
      }
    }
  }

  /** A key that continues another one is deeper. */
  lemma {:induction false} DeeperTail(d: string, e: string)
    requires TailKey(d) && TailKey(e) && Begins(e, d)
    ensures Depth(d) < Depth(e)
    decreases |d|
  {
    BeginsHead(e, d);
    if Dot(d) < |d| {
      BeginsTail(e, d);
      assert Tail(d)[|Tail(d)| - 1] == d[|d| - 1] && Tail(e)[|Tail(e)| - 1] == e[|e| - 1];
      DeeperTail(Tail(d), Tail(e));
    }
  }

  lemma DeeperLongerTail(d: string, e: string, name: string)
    requires TailKey(d) && TailKey(e) && Begins(name, d) && Begins(name, e) && Depth(d) <= Depth(e)
    ensures |d| <= |e|
  {
    if |d| > |e| {
      assert forall i :: 0 <= i < |d| ==> name[i] == name[..|d|][i] == d[i];
      assert forall i :: 0 <= i < |e| ==> name[i] == name[..|e|][i] == e[i];
      assert d[..|e|] == e;
      DeeperTail(e, d);
    }
  }

  /** ngx_hash_find_wc_tail */
  method FindWcTail(w: Wildcard, name: string) returns (value: Option<Value>)
    ensures value == Find(w, Split(name), true)
    decreases |name|
  {
    var i := FirstDot(name);
    SplitHead(name);
    if i == |name| {
      return None;
    }
    var lab := name[..i];
    if lab in w.table {
      match w.table[lab] {
        case Hash(hwc, below) =>
          value := FindWcTail(hwc, name[i + 1..]);
          if value.Some? {
            return;
          }
          return hwc.value;
        case Data(v, below) =>
          return Some(v);
      }
    }
    return w.value;
  }

  /** The answer is the value of the longest key that the name continues, if there is one. */
  ghost predicate TailAnswers(names: seq<Name>, name: string, answer: Option<Value>) {
    match answer
    case None => forall j :: 0 <= j < |names| ==> !Begins(name, names[j].key)
    case Some(v) => exists i :: 0 <= i < |names| && LongestTail(names, name, i) && names[i].value == v
  }

  ghost predicate LongestTail(names: seq<Name>, name: string, i: nat)
    requires i < |names|
  {
    && Begins(name, names[i].key)
    && forall j :: 0 <= j < |names| && Begins(name, names[j].key) ==> |names[j].key| <= |names[i].key|
  }

  ghost predicate TailKeys(names: seq<Name>) {
    forall i :: 0 <= i < |names| ==> TailKey(names[i].key)
  }

  lemma TailKeysWellFormed(names: seq<Name>)
    requires TailKeys(names) && Sorted(names)
    ensures WellFormed(names)
  {
    forall i, j | 0 <= i < |names| && 0 <= j < |names| ensures !Clash(names[i].key, names[j].key) {
      var a, b := names[i].key, names[j].key;
      assert TailKey(b);
      assert (a + ".")[|a|] == '.';
    }
  }

  lemma BestIsLongestTail(names: seq<Name>, name: string, answer: Option<Value>)
    requires TailKeys(names) && Best(names, Split(name), answer, true)
    ensures TailAnswers(names, name, answer)
  {
    forall j | 0 <= j < |names| ensures Matches(names[j].key, Split(name), true) <==> Begins(name, names[j].key) {
      TailMatches(names[j].key, name);
    }
    if answer.Some? {
      var i :| 0 <= i < |names| && Wins(names, Split(name), i, true) && names[i].value == answer.value;
      forall j | 0 <= j < |names| && Begins(name, names[j].key) ensures |names[j].key| <= |names[i].key| {
        DeeperLongerTail(names[j].key, names[i].key, name);
      }
      assert LongestTail(names, name, i);
    }
  }

  /**
    Building the hash of keys for wildcards at the end and looking a name up gives the value
    of the longest key it continues.
   */
  method BuildAndFindTail(names: seq<Name>, name: string) returns (value: Option<Value>)
    requires TailKeys(names) && Sorted(names)
    ensures TailAnswers(names, name, value)
  {
    TailKeysWellFormed(names);
    ghost var bound := LengthBound(names);
    var w := WildcardInit(names, bound);
    value := FindWcTail(w, name);
    BestIsLongestTail(names, name, value);
  }
}
