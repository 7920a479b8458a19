/**
  Answers of the resolver: the order in which the addresses of SRV records are
  given (the priority and weight rules of RFC 2782), and the rotation of plain
  address lists.
 */
module SrvAnswer {

  type Addr = int

  /** A service record whose name has been resolved. */
  datatype Srv = Srv(priority: int, weight: int, addrs: seq<Addr>)

  datatype Out = Out(addr: Addr, priority: int, weight: int)

  /** The weight of a record as it is read: zero becomes one. */
  function Weight(w: nat): (r: nat)
    ensures 1 <= r <= w + 1 && (w >= 1 ==> r == w)
  {
    if w == 0 then 1 else w
  }

  /** Records in the order of their priorities, with positive weights. */
  ghost predicate Ready(srvs: seq<Srv>) {
    && (forall i :: 0 <= i < |srvs| ==> srvs[i].weight >= 1)
    && (forall i, j :: 0 <= i < j < |srvs| ==> srvs[i].priority <= srvs[j].priority)
  }

  // ----- all addresses

  function Given(s: Srv): (r: seq<Out>)
    ensures |r| == |s.addrs|
  {
    Made(s, |s.addrs|)
  }

  function Made(s: Srv, m: nat): (r: seq<Out>)
    requires m <= |s.addrs|
    ensures |r| == m
  {
    if m == 0 then [] else Made(s, m - 1) + [Out(s.addrs[m - 1], s.priority, s.weight)]
  }

  /** The addresses of the records from i to j, in order. */
  function Flat(srvs: seq<Srv>, i: nat, j: nat): seq<Out>
    requires i <= j <= |srvs|
    decreases j
  {
    if i == j then [] else Flat(srvs, i, j - 1) + Given(srvs[j - 1])
  }

  /** The draws that fall on the records from i to k. */
  function Draws(srvs: seq<Srv>, i: nat, k: nat): int
    requires i <= k <= |srvs|
    decreases k
  {
    if i == k then 0 else Draws(srvs, i, k - 1) + |srvs[k - 1].addrs| * srvs[k - 1].weight
  }

  lemma {:induction false} FlatSplit(srvs: seq<Srv>, i: nat, k: nat, j: nat)
    requires i <= k <= j <= |srvs|
    ensures Flat(srvs, i, j) == Flat(srvs, i, k) + Flat(srvs, k, j)
    decreases j
  {
    if k < j {
      FlatSplit(srvs, i, k, j - 1);
      assert Flat(srvs, i, k) + (Flat(srvs, k, j - 1) + Given(srvs[j - 1]))
          == Flat(srvs, i, k) + Flat(srvs, k, j - 1) + Given(srvs[j - 1]);
    }
  }

  lemma {:induction false} DrawsMonotone(srvs: seq<Srv>, i: nat, k: nat, m: nat)
    requires i <= k <= m <= |srvs| && Ready(srvs)
    ensures 0 <= Draws(srvs, i, k) <= Draws(srvs, i, m)
    decreases m
  {
    if k < m {
      DrawsMonotone(srvs, i, k, m - 1);
      assert |srvs[m - 1].addrs| * srvs[m - 1].weight >= 0;
    } else if i < m {
      DrawsMonotone(srvs, i, m - 1, m - 1);
      assert |srvs[m - 1].addrs| * srvs[m - 1].weight >= 0;
    }
  }

  /** There is nothing to draw only if there is no address. */
  lemma {:induction false} NoDraws(srvs: seq<Srv>, i: nat, j: nat)
    requires i <= j <= |srvs| && Ready(srvs) && Draws(srvs, i, j) == 0
    ensures Flat(srvs, i, j) == []
    decreases j
  {
    if i < j {
      DrawsMonotone(srvs, i, j - 1, j);
      var n, w := |srvs[j - 1].addrs|, srvs[j - 1].weight;
      assert n * w == 0 ==> n == 0;
      NoDraws(srvs, i, j - 1);
    }
  }

  /** The record that a draw falls on. */
  ghost predicate FallsOn(srvs: seq<Srv>, i: nat, k: nat, w: int)
    requires i <= k < |srvs|
  {
    Draws(srvs, i, k) <= w < Draws(srvs, i, k + 1)
  }

  lemma FallsOnOne(srvs: seq<Srv>, i: nat, k: nat, m: nat, w: int)
    requires Ready(srvs) && i <= k < |srvs| && i <= m < |srvs| && FallsOn(srvs, i, k, w) && FallsOn(srvs, i, m, w)
    ensures k == m
  {
    if k < m {
      DrawsMonotone(srvs, i, k + 1, m);
    } else if m < k {
      DrawsMonotone(srvs, i, m + 1, k);
    }
  }

  ghost function Range(a: int, b: int): set<int>
    decreases b - a
  {
    if a >= b then {} else Range(a, b - 1) + {b - 1}
  }

  lemma {:induction false} RangeSize(a: int, b: int)
    requires a <= b
    ensures |Range(a, b)| == b - a && forall w :: w in Range(a, b) <==> a <= w < b
    decreases b - a
  {
    if a < b {
      RangeSize(a, b - 1);
    }
  }

  /** As many draws start at a record as it has addresses, times its weight. */
  lemma FairStart(srvs: seq<Srv>, i: nat, k: nat, j: nat) returns (draws: set<int>)
    requires Ready(srvs) && i <= k < j <= |srvs|
    ensures forall w :: w in draws <==> FallsOn(srvs, i, k, w)
    ensures forall w :: w in draws ==> 0 <= w < Draws(srvs, i, j)
    ensures |draws| == |srvs[k].addrs| * srvs[k].weight
  {
    DrawsMonotone(srvs, i, k, k + 1);
    DrawsMonotone(srvs, i, k + 1, j);
    draws := Range(Draws(srvs, i, k), Draws(srvs, i, k + 1));
    RangeSize(Draws(srvs, i, k), Draws(srvs, i, k + 1));
  }

  // ----- the code

  /** The end of the group of equal priorities, and its draws. */
  method GroupEnd(srvs: seq<Srv>, i: nat) returns (j: nat, nw: int)
    requires i < |srvs|
    ensures i < j <= |srvs| && nw == Draws(srvs, i, j)
    ensures forall m :: i <= m < j ==> srvs[m].priority == srvs[i].priority
    ensures j < |srvs| ==> srvs[j].priority != srvs[i].priority
  {
    j, nw := i, 0;
    while j < |srvs|
      invariant i <= j <= |srvs| && nw == Draws(srvs, i, j)
      invariant forall m :: i <= m < j ==> srvs[m].priority == srvs[i].priority
      decreases |srvs| - j
    {
      if srvs[j].priority != srvs[i].priority {
        break;
      }
      nw := nw + |srvs[j].addrs| * srvs[j].weight;
      j := j + 1;
    }
  }

  /** The record that the draw falls on always lies in the group. */
  method PickStart(srvs: seq<Srv>, i: nat, j: nat, w0: int) returns (k: nat)
    requires i < j <= |srvs| && 0 <= w0 < Draws(srvs, i, j)
    ensures i <= k < j && FallsOn(srvs, i, k, w0)
  {
    var w := w0;
    k := i;
    while k < j
      invariant i <= k <= j && w == w0 - Draws(srvs, i, k) && 0 <= w
      decreases j - k
    {
      if w < |srvs[k].addrs| * srvs[k].weight {
        break;
      }
      w := w - |srvs[k].addrs| * srvs[k].weight;
      k := k + 1;
    }
  }

  /** The addresses of one record. */
  method GiveAll(s: Srv, out0: seq<Out>) returns (out: seq<Out>)
    ensures out == out0 + Given(s)
  {
    out := out0;
    for m := 0 to |s.addrs|
      invariant out == out0 + Made(s, m)
    {
      out := out + [Out(s.addrs[m], s.priority, s.weight)];
    }
  }

  function Turn(i: nat, j: nat, start: nat, c: nat): (k: nat)
    requires i <= start < j && c <= j - i
    ensures i <= k < j
  {
    if start + c < j then start + c else start + c - (j - i)
  }

  /** The first `c` records of the group, from the drawn one on and around. */
  function Around(srvs: seq<Srv>, i: nat, j: nat, start: nat, c: nat): seq<Out>
    requires i <= start < j <= |srvs| && c <= j - i
  {
    if c == 0 then [] else Around(srvs, i, j, start, c - 1) + Given(srvs[Turn(i, j, start, c - 1)])
  }

  lemma {:induction false} AroundToEnd(srvs: seq<Srv>, i: nat, j: nat, start: nat, c: nat)
    requires i <= start < j <= |srvs| && c <= j - start
    ensures Around(srvs, i, j, start, c) == Flat(srvs, start, start + c)
  {
    if c > 0 {
      AroundToEnd(srvs, i, j, start, c - 1);
    }
  }

  lemma {:induction false} AroundFromStart(srvs: seq<Srv>, i: nat, j: nat, start: nat, k: nat, c: nat)
    requires i <= k <= start < j <= |srvs| && c == j - start + (k - i)
    ensures Around(srvs, i, j, start, c) == Flat(srvs, start, j) + Flat(srvs, i, k)
    decreases k
  {
    if k == i {
      AroundToEnd(srvs, i, j, start, c);
      Swap(Flat(srvs, start, j), Flat(srvs, i, k));
    } else {
      AroundFromStart(srvs, i, j, start, k - 1, c - 1);
      AroundStep(srvs, i, j, start, k - 1, c - 1, Flat(srvs, start, j), Flat(srvs, i, k - 1));
    }
  }

  lemma AroundStep(srvs: seq<Srv>, i: nat, j: nat, start: nat, k: nat, c: nat, a: seq<Out>, b: seq<Out>)
    requires i <= k < start < j <= |srvs| && c == j - start + (k - i)
    requires Around(srvs, i, j, start, c) == a + b && b == Flat(srvs, i, k)
    ensures Around(srvs, i, j, start, c + 1) == a + Flat(srvs, i, k + 1)
  {
    assert Turn(i, j, start, c) == k;
    Associative(a, b, Given(srvs[k]));
  }

  lemma Swapped(x: seq<Out>, y: seq<Out>, a: seq<Out>, b: seq<Out>)
    requires x == a + b && y == b + a
    ensures multiset(x) == multiset(y) && |x| == |y|
  {
    Swap(a, b);
  }

  lemma Swap(a: seq<Out>, b: seq<Out>)
    ensures multiset(a + b) == multiset(b + a) && |a + b| == |b + a| && (b == [] ==> a + b == a)
  {
  }

  lemma Associative(a: seq<Out>, b: seq<Out>, c: seq<Out>)
    ensures a + (b + c) == a + b + c
  {
  }

  /** All records of the group are given once, from the drawn one on and around. */
  method GiveGroup(srvs: seq<Srv>, i: nat, j: nat, start: nat, out0: seq<Out>) returns (out: seq<Out>)
    requires i <= start < j <= |srvs|
    ensures out == out0 + Around(srvs, i, j, start, j - i)
  {
    out := out0;
    var k := start;
    for l := i to j
      invariant k == Turn(i, j, start, l - i) && out == out0 + Around(srvs, i, j, start, l - i)
    {
      Associative(out0, Around(srvs, i, j, start, l - i), Given(srvs[k]));
      out := GiveAll(srvs[k], out);
      k := k + 1;
      if k == j {
        k := i;
      }
    }
  }

  lemma AroundAll(srvs: seq<Srv>, i: nat, j: nat, start: nat)
    requires i <= start < j <= |srvs|
    ensures multiset(Around(srvs, i, j, start, j - i)) == multiset(Flat(srvs, i, j))
    ensures |Around(srvs, i, j, start, j - i)| == |Flat(srvs, i, j)|
  {
    FlatSplit(srvs, i, start, j);
    AroundFromStart(srvs, i, j, start, start, j - i);
    Swapped(Around(srvs, i, j, start, j - i), Flat(srvs, i, j), Flat(srvs, start, j), Flat(srvs, i, start));
  }

  lemma {:induction false} MadePriority(s: Srv, m: nat)
    requires m <= |s.addrs|
    ensures forall o :: o in Made(s, m) ==> o.priority == s.priority
  {
    if m > 0 {
      MadePriority(s, m - 1);
    }
  }

  lemma {:induction false} FlatPriority(srvs: seq<Srv>, i: nat, j: nat, p: int)
    requires i <= j <= |srvs| && forall m :: i <= m < j ==> srvs[m].priority == p
    ensures forall o :: o in Flat(srvs, i, j) ==> o.priority == p
    decreases j
  {
    if i < j {
      FlatPriority(srvs, i, j - 1, p);
      MadePriority(srvs[j - 1], |srvs[j - 1].addrs|);
    }
  }

  lemma AroundPriority(srvs: seq<Srv>, i: nat, j: nat, start: nat, p: int)
    requires i <= start < j <= |srvs| && forall m :: i <= m < j ==> srvs[m].priority == p
    ensures forall o :: o in Around(srvs, i, j, start, j - i) ==> o.priority == p
  {
    AroundFromStart(srvs, i, j, start, start, j - i);
    FlatPriority(srvs, start, j, p);
    FlatPriority(srvs, i, start, p);
  }

  /** Priorities do not decrease, and none is larger than p. */
  ghost predicate Ordered(out: seq<Out>, p: int) {
    && (forall a, b :: 0 <= a < b < |out| ==> out[a].priority <= out[b].priority)
    && forall o :: o in out ==> o.priority <= p
  }

  lemma OrderedAppend(out: seq<Out>, more: seq<Out>, p: int, q: int)
    requires Ordered(out, p) && p <= q && forall o :: o in more ==> o.priority == q
    ensures Ordered(out + more, q)
  {
    forall a, b | 0 <= a < b < |out + more| ensures (out + more)[a].priority <= (out + more)[b].priority {
      if b >= |out| {
        assert more[b - |out|] in more;
        if a >= |out| {
          assert more[a - |out|] in more;
        } else {
          assert out[a] in out;
        }
      }
    }
  }

  /** The records of one priority, the draw for them, and the record it falls on. */
  datatype Round = Round(i: nat, j: nat, draw: int, start: nat)

  /** The records are all of their priority, and the draw falls on one of them, if there is anything to draw. */
  ghost predicate RoundOk(srvs: seq<Srv>, r: Round) {
    Drawn(srvs, r) == true
  }

  ghost predicate Drawn(srvs: seq<Srv>, r: Round) {
    && r.i < r.j <= |srvs|
    && (forall m :: r.i <= m < r.j ==> srvs[m].priority == srvs[r.i].priority)
    && (r.j < |srvs| ==> srvs[r.j].priority != srvs[r.i].priority)
    && (Draws(srvs, r.i, r.j) == 0
        || (r.i <= r.start < r.j && 0 <= r.draw < Draws(srvs, r.i, r.j) && FallsOn(srvs, r.i, r.start, r.draw)))
  }

  /** What a round gives: the records from the drawn one on and around. */
  ghost function GivenIn(srvs: seq<Srv>, r: Round): seq<Out>
    requires RoundOk(srvs, r)
  {
    if Draws(srvs, r.i, r.j) == 0 then [] else Around(srvs, r.i, r.j, r.start, r.j - r.i)
  }

  /** Rounds one after the other, up to record n. */
  ghost predicate RoundsTo(srvs: seq<Srv>, rounds: seq<Round>, n: nat) {
    InTurn(srvs, rounds, n) == true
  }

  ghost predicate InTurn(srvs: seq<Srv>, rounds: seq<Round>, n: nat) {
    && AllOk(srvs, rounds)
    && (forall k :: 0 < k < |rounds| ==> rounds[k].i == rounds[k - 1].j)
    && (if rounds == [] then n == 0 else rounds[0].i == 0 && rounds[|rounds| - 1].j == n)
  }

  ghost predicate AllOk(srvs: seq<Srv>, rounds: seq<Round>) {
    forall k :: 0 <= k < |rounds| ==> RoundOk(srvs, rounds[k])
  }

  ghost function GivenInAll(srvs: seq<Srv>, rounds: seq<Round>): seq<Out>
    requires AllOk(srvs, rounds)
  {
    if rounds == [] then []
    else GivenInAll(srvs, rounds[..|rounds| - 1]) + GivenIn(srvs, rounds[|rounds| - 1])
  }

  lemma RoundsMore(srvs: seq<Srv>, rounds: seq<Round>, n: nat, r: Round)
    requires RoundsTo(srvs, rounds, n) && RoundOk(srvs, r) && r.i == n
    ensures RoundsTo(srvs, rounds + [r], r.j) && AllOk(srvs, rounds) && AllOk(srvs, rounds + [r])
    ensures GivenInAll(srvs, rounds + [r]) == GivenInAll(srvs, rounds) + GivenIn(srvs, r)
  {
    var all := rounds + [r];
    assert all[..|all| - 1] == rounds;
    forall k | 0 <= k < |all| ensures RoundOk(srvs, all[k]) {
      assert k < |rounds| ==> all[k] == rounds[k];
    }
    forall k | 0 < k < |all| ensures all[k].i == all[k - 1].j {
      assert k < |rounds| ==> all[k] == rounds[k] && all[k - 1] == rounds[k - 1];
    }
    assert InTurn(srvs, all, r.j);
  }

  /** A round starts with the addresses of the record that the draw falls on. */
  lemma {:induction false} AroundBegins(srvs: seq<Srv>, i: nat, j: nat, start: nat, c: nat)
    requires i <= start < j <= |srvs| && 0 < c <= j - i
    ensures Given(srvs[start]) <= Around(srvs, i, j, start, c)
  {
    if c > 1 {
      AroundBegins(srvs, i, j, start, c - 1);
    } else {
      assert Around(srvs, i, j, start, 0) == [] && Turn(i, j, start, 0) == start;
      assert [] + Given(srvs[start]) == Given(srvs[start]);
    }
  }

  lemma {:induction false} MadeAt(s: Srv, n: nat, m: nat)
    requires m < n <= |s.addrs|
    ensures Made(s, n)[m] == Out(s.addrs[m], s.priority, s.weight)
  {
    if m < n - 1 {
      MadeAt(s, n - 1, m);
    }
  }

  lemma RoundBegins(srvs: seq<Srv>, r: Round, m: nat)
    requires RoundOk(srvs, r) && Draws(srvs, r.i, r.j) > 0 && m < |srvs[r.start].addrs|
    ensures m < |GivenIn(srvs, r)|
    ensures GivenIn(srvs, r)[m] == Out(srvs[r.start].addrs[m], srvs[r.start].priority, srvs[r.start].weight)
  {
    AroundBegins(srvs, r.i, r.j, r.start, r.j - r.i);
    MadeAt(srvs[r.start], |srvs[r.start].addrs|, m);
    assert Given(srvs[r.start])[m] == GivenIn(srvs, r)[m];
  }

  /** The records of one priority are given, from the one on that a draw falls on. */
  method GiveDrawn(srvs: seq<Srv>, i: nat, j: nat, nw: int, out0: seq<Out>) returns (out: seq<Out>, ghost r: Round)
    requires Ready(srvs) && i < j <= |srvs| && nw == Draws(srvs, i, j) > 0
    requires forall m :: i <= m < j ==> srvs[m].priority == srvs[i].priority
    requires j < |srvs| ==> srvs[j].priority != srvs[i].priority
    ensures RoundOk(srvs, r) && r.i == i && r.j == j && out == out0 + GivenIn(srvs, r)
    ensures r.start < j && GivenIn(srvs, r) == Around(srvs, i, j, r.start, j - i) && i <= r.start
  {
    var w :| 0 <= w < nw;
    var k := PickStart(srvs, i, j, w);
    out := GiveGroup(srvs, i, j, k, out0);
    r := Round(i, j, w, k);
    assert Drawn(srvs, r);
  }

  lemma NothingIn(srvs: seq<Srv>, r: Round)
    requires r.i < r.j <= |srvs| && Draws(srvs, r.i, r.j) == 0
    requires forall m :: r.i <= m < r.j ==> srvs[m].priority == srvs[r.i].priority
    requires r.j < |srvs| ==> srvs[r.j].priority != srvs[r.i].priority
    ensures RoundOk(srvs, r) && GivenIn(srvs, r) == []
  {
    assert Drawn(srvs, r);
  }

  /** The body of the loop of ngx_resolver_report_srv: one group of equal priorities. */
  method ReportGroup(srvs: seq<Srv>, i: nat, out0: seq<Out>, ghost p: int)
      returns (j: nat, out: seq<Out>, ghost q: int, ghost r: Round)
    requires Ready(srvs) && i < |srvs| && Ordered(out0, p) && p <= srvs[i].priority
    requires multiset(out0) == multiset(Flat(srvs, 0, i)) && |out0| == |Flat(srvs, 0, i)|
    ensures i < j <= |srvs| && Ordered(out, q) && (j < |srvs| ==> q <= srvs[j].priority)
    ensures multiset(out) == multiset(Flat(srvs, 0, j)) && |out| == |Flat(srvs, 0, j)|
    ensures RoundOk(srvs, r) && r.i == i && r.j == j && out == out0 + GivenIn(srvs, r)
  {
    var nw;
    j, nw := GroupEnd(srvs, i);
    q := srvs[i].priority;
    FlatSplit(srvs, 0, i, j);
    if nw == 0 {
      NoDraws(srvs, i, j);
      out := out0;
      r := Round(i, j, 0, i);
      NothingIn(srvs, r);
    } else {
      DrawsMonotone(srvs, i, i, j);
      out, r := GiveDrawn(srvs, i, j, nw, out0);
      AroundAll(srvs, i, j, r.start);
      AroundPriority(srvs, i, j, r.start, q);
      OrderedAppend(out0, Around(srvs, i, j, r.start, j - i), p, q);
    }
  }

  /**
    ngx_resolver_report_srv: every address exactly once, the lowest priorities first,
    and in every priority from the record on that its draw falls on.
   */
  method ReportSrv(srvs: seq<Srv>) returns (out: seq<Out>, ghost rounds: seq<Round>)
    requires Ready(srvs)
    ensures multiset(out) == multiset(Flat(srvs, 0, |srvs|)) && |out| == |Flat(srvs, 0, |srvs|)|
    ensures forall a, b :: 0 <= a < b < |out| ==> out[a].priority <= out[b].priority
    ensures RoundsTo(srvs, rounds, |srvs|) && AllOk(srvs, rounds) && out == GivenInAll(srvs, rounds)
  {
    out, rounds := [], [];
    assert InTurn(srvs, rounds, 0);
    var i := 0;
    if |srvs| == 0 {
      return;
    }
    ghost var p := srvs[0].priority;
    while i < |srvs|
      invariant 0 <= i <= |srvs| && Ordered(out, p) && (i < |srvs| ==> p <= srvs[i].priority)
      invariant multiset(out) == multiset(Flat(srvs, 0, i)) && |out| == |Flat(srvs, 0, i)|
      invariant RoundsTo(srvs, rounds, i) && AllOk(srvs, rounds) && out == GivenInAll(srvs, rounds)
    {
      ghost var r;
      ghost var n := i;
      i, out, p, r := ReportGroup(srvs, i, out, p);
      RoundsMore(srvs, rounds, n, r);
      rounds := rounds + [r];
    }
  }

  // ----- plain address lists

  function Rotated<T>(s: seq<T>, j: nat): seq<T>
    requires j <= |s|
  {
    s[j..] + s[..j]
  }

  lemma RotatedAll<T>(s: seq<T>, j: nat)
    requires j <= |s|
    ensures multiset(Rotated(s, j)) == multiset(s) && |Rotated(s, j)| == |s|
  {
    assert s == s[..j] + s[j..];
  }

  /** A list from position j on and around. */
  function Turned<T>(s: seq<T>, j: nat): (r: seq<T>)
    requires s != [] ==> j < |s|
    ensures |r| == |s|
  {
    if s == [] then [] else Rotated(s, j)
  }

  /** Where the t-th address goes. */
  function Slot(d: nat, t: nat, n: nat): (r: nat)
    requires d < n && t <= n
    ensures r < n
  {
    if d + t < n then d + t else d + t - n
  }

  /** One of the two loops of ngx_resolver_export: a list, from position j on and around, into the slots from t on. */
  method Place(dst: array<Addr>, s: seq<Addr>, j0: nat, d: nat, t: nat, ghost before: seq<Addr>)
    requires d < dst.Length && t + |s| <= dst.Length && j0 < |s| && |before| == t
    requires forall x :: 0 <= x < t ==> dst[Slot(d, x, dst.Length)] == before[x]
    modifies dst
    ensures forall x :: 0 <= x < t + |s| ==> dst[Slot(d, x, dst.Length)] == (before + Rotated(s, j0))[x]
  {
    var j, at, i := j0, Slot(d, t, dst.Length), 0;
    while i < |s|
      invariant 0 <= i <= |s| && j == Slot(j0, i, |s|) && at == Slot(d, t + i, dst.Length)
      invariant forall x :: 0 <= x < t + i ==> dst[Slot(d, x, dst.Length)] == (before + Rotated(s, j0))[x]
    {
      assert Rotated(s, j0)[i] == s[j];
      dst[at] := s[j];
      at := at + 1;
      j := j + 1;
      if at == dst.Length {
        at := 0;
      }
      if j == |s| {
        j := 0;
      }
      i := i + 1;
    }
  }

  lemma Unrolled(s: seq<Addr>, all: seq<Addr>, d: nat)
    requires |s| == |all| && d < |s| && forall x :: 0 <= x < |s| ==> s[Slot(d, x, |s|)] == all[x]
    ensures multiset(s) == multiset(all)
  {
    var n := |s|;
    RotatedAll(all, n - d);
    var r := Rotated(all, n - d);
    forall y | 0 <= y < n ensures s[y] == r[y] {
      if y >= d {
        assert Slot(d, y - d, n) == y && r[y] == all[y - d];
      } else {
        assert Slot(d, y + n - d, n) == y && r[y] == all[y + n - d];
      }
    }
    assert s == r;
  }

  /** ngx_resolver_export: whatever the random offsets are, all addresses are exported. */
  method Export(v4: seq<Addr>, v6: seq<Addr>, d: nat, j4: nat, j6: nat) returns (dst: array<Addr>)
    requires |v4| + |v6| > 0 && d < |v4| + |v6| && (v4 != [] ==> j4 < |v4|) && (v6 != [] ==> j6 < |v6|)
    ensures dst.Length == |v4| + |v6| && multiset(dst[..]) == multiset(v4) + multiset(v6)
    ensures forall x :: 0 <= x < |v4| + |v6| ==>
      dst[Slot(d, x, |v4| + |v6|)] == (Turned(v4, j4) + Turned(v6, j6))[x]
  {
    var n := |v4| + |v6|;
    dst := new Addr[n];
    ghost var all: seq<Addr> := [];
    if v4 != [] {
      Place(dst, v4, j4, d, 0, []);
      RotatedAll(v4, j4);
      all := [] + Rotated(v4, j4);
    }
    if v6 != [] {
      Place(dst, v6, j6, d, |v4|, all);
      RotatedAll(v6, j6);
      all := all + Rotated(v6, j6);
    }
    assert all == Turned(v4, j4) + Turned(v6, j6);
    Unrolled(dst[..], all, d);
  }

  // ----- reading the records

  /** A record as it is in the message, and the addresses that its name resolves to. */
  datatype Raw = Raw(priority: nat, weight: nat, addrs: seq<Addr>)

  /** All that the records give, in any order. */
  ghost function Addresses(srvs: seq<Srv>): multiset<Out> {
    if srvs == [] then multiset{} else Addresses(srvs[..|srvs| - 1]) + multiset(Given(srvs[|srvs| - 1]))
  }

  lemma {:induction false} AddressesConcat(a: seq<Srv>, b: seq<Srv>)
    ensures Addresses(a + b) == Addresses(a) + Addresses(b)
    decreases |b|
  {
    if b == [] {
      assert a + b == a;
    } else {
      assert (a + b)[..|a + b| - 1] == a + b[..|b| - 1];
      AddressesConcat(a, b[..|b| - 1]);
    }
  }

  lemma {:induction false} FlatAddresses(srvs: seq<Srv>, n: nat)
    requires n <= |srvs|
    ensures multiset(Flat(srvs, 0, n)) == Addresses(srvs[..n])
  {
    if n > 0 {
      FlatAddresses(srvs, n - 1);
      assert srvs[..n][..n - 1] == srvs[..n - 1];
    }
  }

  function FromRaw(r: Raw): Srv {
    Srv(r.priority, Weight(r.weight), r.addrs)
  }

  /** The records of a message, with the weight 0 replaced. */
  ghost function FromRaws(raws: seq<Raw>): (srvs: seq<Srv>)
    ensures |srvs| == |raws| && forall i :: 0 <= i < |raws| ==> srvs[i] == FromRaw(raws[i])
  {
    seq(|raws|, i requires 0 <= i < |raws| => FromRaw(raws[i]))
  }

  ghost predicate Ascending(s: seq<Srv>, n: nat)
    requires n <= |s|
  {
    forall i, j :: 0 <= i < j < n ==> s[i].priority <= s[j].priority
  }

  /** `x` at position p, what was from there up to q one place on. */
  ghost function Inserted(t: seq<Srv>, p: nat, q: nat): seq<Srv>
    requires p <= q < |t|
  {
    t[..p] + [t[q]] + t[p..q] + t[q + 1..]
  }

  lemma InsertedKeeps(t: seq<Srv>, p: nat, q: nat)
    requires p <= q < |t|
    ensures Addresses(Inserted(t, p, q)) == Addresses(t) && |Inserted(t, p, q)| == |t|
  {
    var a, x, b, c := t[..p], [t[q]], t[p..q], t[q + 1..];
    assert t == a + b + x + c;
    AddressesConcat(a + x + b, c);
    AddressesConcat(a + x, b);
    AddressesConcat(a, x);
    AddressesConcat(a + b + x, c);
    AddressesConcat(a + b, x);
    AddressesConcat(a, b);
  }

  lemma InsertedAt(t: seq<Srv>, p: nat, q: nat, i: nat)
    requires p <= q < |t| && i < |t|
    ensures Inserted(t, p, q)[i] == if i < p || q < i then t[i] else if i == p then t[q] else t[i - 1]
  {
  }

  lemma IsInserted(t: seq<Srv>, p: nat, q: nat, s: seq<Srv>)
    requires p <= q < |t| == |s|
    requires forall i :: 0 <= i < p ==> s[i] == t[i]
    requires s[p] == t[q] && forall i :: p < i <= q ==> s[i] == t[i - 1]
    requires forall i :: q < i < |t| ==> s[i] == t[i]
    ensures s == Inserted(t, p, q) && (Positive(t) ==> Positive(s))
  {
    forall i | 0 <= i < |s| ensures s[i] == Inserted(t, p, q)[i] {
      InsertedAt(t, p, q, i);
    }
  }

  ghost predicate Positive(s: seq<Srv>) {
    forall i :: 0 <= i < |s| ==> s[i].weight >= 1
  }

  lemma InsertedAscending(t: seq<Srv>, p: nat, q: nat)
    requires p <= q < |t| && Ascending(t, q) && (p > 0 ==> t[p - 1].priority <= t[q].priority)
    requires forall i :: p <= i < q ==> t[q].priority < t[i].priority
    ensures Ascending(Inserted(t, p, q), q + 1)
  {
    var s := Inserted(t, p, q);
    forall i, j | 0 <= i < j < q + 1 ensures s[i].priority <= s[j].priority {
      InsertedAt(t, p, q, i);
      InsertedAt(t, p, q, j);
      assert i < p ==> t[i].priority <= t[p - 1].priority;
    }
  }

  /** The records of one priority, in their order. */
  ghost function Group(srvs: seq<Srv>, priority: nat): seq<Srv> {
    if srvs == [] then [] else
      var init, last := srvs[..|srvs| - 1], srvs[|srvs| - 1];
      if last.priority == priority then Group(init, priority) + [last] else Group(init, priority)
  }

  /** Records of the same priority keep their order. */
  ghost predicate Stable(a: seq<Srv>, b: seq<Srv>) {
    forall p: nat :: Group(a, p) == Group(b, p)
  }

  lemma {:induction false} GroupConcat(a: seq<Srv>, b: seq<Srv>, p: nat)
    ensures Group(a + b, p) == Group(a, p) + Group(b, p)
    decreases |b|
  {
    if b == [] {
      assert a + b == a;
    } else {
      assert (a + b)[..|a + b| - 1] == a + b[..|b| - 1];
      GroupConcat(a, b[..|b| - 1], p);
    }
  }

  lemma {:induction false} NoGroup(s: seq<Srv>, p: nat)
    requires forall i :: 0 <= i < |s| ==> s[i].priority != p
    ensures Group(s, p) == []
  {
    if s != [] {
      NoGroup(s[..|s| - 1], p);
    }
  }

  /** One record moves before records of higher priorities. */
  lemma SwapGroups(x: seq<Srv>, b: seq<Srv>, p: nat)
    requires |x| == 1 && forall i :: 0 <= i < |b| ==> x[0].priority < b[i].priority
    ensures Group(x, p) + Group(b, p) == Group(b, p) + Group(x, p)
  {
    NoGroup(if x[0].priority == p then b else x, p);
  }

  lemma InsertedStable(t: seq<Srv>, m: nat, q: nat)
    requires m <= q < |t| && forall i :: m <= i < q ==> t[q].priority < t[i].priority
    ensures Stable(Inserted(t, m, q), t)
  {
    var a, x, b, c := t[..m], [t[q]], t[m..q], t[q + 1..];
    assert t == a + b + x + c;
    forall p: nat ensures Group(Inserted(t, m, q), p) == Group(t, p) {
      GroupConcat(a + x + b, c, p);
      GroupConcat(a + x, b, p);
      GroupConcat(a, x, p);
      GroupConcat(a + b + x, c, p);
      GroupConcat(a + b, x, p);
      GroupConcat(a, b, p);
      SwapGroups(x, b, p);
      PutBehind(Group(a, p), Group(x, p), Group(b, p));
    }
  }

  lemma PutBehind(a: seq<Srv>, x: seq<Srv>, b: seq<Srv>)
    requires x + b == b + x
    ensures a + x + b == a + b + x
  {
    assert a + x + b == a + (x + b);
  }

  /** The inner loop of ngx_sort: the element at q goes to its place among those before it. */
  method Insert(a: array<Srv>, q: nat)
    requires 0 < q < a.Length && Ascending(a[..], q)
    modifies a
    ensures Ascending(a[..], q + 1) && Addresses(a[..]) == old(Addresses(a[..]))
    ensures Stable(a[..], old(a[..])) && (Positive(old(a[..])) ==> Positive(a[..]))
  {
    ghost var t := a[..];
    var x := a[q];
    var p := q;
    while p > 0 && a[p - 1].priority - x.priority > 0
      invariant 0 <= p <= q
      invariant forall i :: 0 <= i <= p ==> a[i] == t[i]
      invariant forall i :: p < i <= q ==> a[i] == t[i - 1]
      invariant forall i :: q < i < a.Length ==> a[i] == t[i]
      invariant forall i :: p <= i < q ==> x.priority < t[i].priority
    {
      a[p] := a[p - 1];
      p := p - 1;
    }
    a[p] := x;
    IsInserted(t, p, q, a[..]);
    InsertedKeeps(t, p, q);
    InsertedAscending(t, p, q);
    InsertedStable(t, p, q);
  }

  /** ngx_sort by priority: a stable insertion sort. */
  method Sort(a: array<Srv>)
    modifies a
    ensures Ascending(a[..], a.Length) && Addresses(a[..]) == old(Addresses(a[..]))
    ensures Stable(a[..], old(a[..])) && (Positive(old(a[..])) ==> Positive(a[..]))
  {
    var q := 1;
    while q < a.Length
      invariant 1 <= q && (q <= a.Length ==> Ascending(a[..], q)) && (q > a.Length ==> a.Length == 0)
      invariant Stable(a[..], old(a[..])) && Addresses(a[..]) == old(Addresses(a[..]))
      invariant Positive(old(a[..])) ==> Positive(a[..])
    {
      Insert(a, q);
      q := q + 1;
    }
  }

  /** The records are read: a weight of 0 becomes 1, and the records are sorted. */
  method ReadRecords(raws: seq<Raw>) returns (srvs: seq<Srv>)
    ensures Ready(srvs) && Stable(srvs, FromRaws(raws)) && Addresses(srvs) == Addresses(FromRaws(raws))
  {
    var a := new Srv[|raws|](i requires 0 <= i < |raws| => FromRaw(raws[i]));
    assert a[..] == FromRaws(raws);
    Sort(a);
    srvs := a[..];
  }

  /** From the records of a message to the answer: every address exactly once, the lowest priorities first. */
  method Resolve(raws: seq<Raw>) returns (out: seq<Out>)
    ensures multiset(out) == Addresses(FromRaws(raws))
    ensures forall a, b :: 0 <= a < b < |out| ==> out[a].priority <= out[b].priority
  {
    var srvs := ReadRecords(raws);
    ghost var rounds;
    out, rounds := ReportSrv(srvs);
    FlatAddresses(srvs, |srvs|);
    assert srvs[..|srvs|] == srvs;
  }

  /** Without the replacement of zero weights, a group of them would have nothing to draw and be left out. */
  lemma {:induction false} ZeroWeights(srvs: seq<Srv>, i: nat, j: nat)
    requires i <= j <= |srvs| && forall m :: i <= m < j ==> srvs[m].weight == 0
    ensures Draws(srvs, i, j) == 0
    decreases j
  {
    if i < j {
      ZeroWeights(srvs, i, j - 1);
    }
  }

  lemma ZeroWeightsExample() returns (srvs: seq<Srv>)
    ensures |srvs| == 1 && Draws(srvs, 0, 1) == 0 && |Flat(srvs, 0, 1)| == 1
  {
    srvs := [Srv(0, 0, [7])];
    ZeroWeights(srvs, 0, 1);
    assert Flat(srvs, 0, 0) == [];
  }
}
