/**
  The lease protocol of the control plane: nodes are rented, become ready, are used
  and given back, go offline or are taken back by an administrator, and every lease
  is billed once.  Every handler is one atomic step; clocks, fresh ids and prices
  are parameters, notifications are left out.
 */
module Lease {
  import Billing

  type Time = Billing.Time
  type Option<T> = Billing.Option<T>

  type DeviceId = int
  type LeaseId = int
  type UserId = int

  datatype NodeStatus = OFFLINE | FREE | ASSIGNED | IN_USE | RELEASING | DISABLED | MAINTENANCE

  datatype LeaseStatus = Pending | Assigned | Ready | Active | Releasing | Ended

  datatype EndReason = USER_RELEASE | NODE_OFFLINE | ADMIN_FORCE_RELEASE

  /** `connected` says that there is a connection id. */
  datatype Node = Node(region: string, tier: string, status: NodeStatus, connected: bool, lastSeen: Time)

  datatype Lease = Lease(user: UserId, device: DeviceId, status: LeaseStatus, unit: Billing.Unit, price: int,
                         started: Option<Time>, ended: Option<Time>, reason: Option<EndReason>,
                         bill: Option<Billing.Result>)

  datatype Record = Record(user: UserId, lease: LeaseId, bill: Billing.Result, unit: Billing.Unit, reason: EndReason)

  /** The rows of the database. */
  datatype State = State(nodes: map<DeviceId, Node>, leases: map<LeaseId, Lease>, records: seq<Record>)

  predicate Live(e: Lease) {
    e.ended.None?
  }

  function Count(records: seq<Record>, l: LeaseId): nat {
    if records == [] then 0
    else Count(records[..|records| - 1], l) + if records[|records| - 1].lease == l then 1 else 0
  }

  // ----- the invariant

  /** A live lease has a node that is not free, and is not billed; an ended one is billed exactly once. */
  ghost predicate LeaseOk(s: State, l: LeaseId)
    requires l in s.leases
  {
    var e := s.leases[l];
    && e.device in s.nodes
    && (Live(e) ==>
      && (e.status == Assigned || e.status == Ready || e.status == Active)
      && s.nodes[e.device].status != FREE && e.bill.None? && e.reason.None?)
    && Count(s.records, l) == if Live(e) then 0 else 1
  }

  /** A billing record repeats what its lease says. */
  ghost predicate RecordOk(s: State, r: Record) {
    && r.lease in s.leases
    && var e := s.leases[r.lease];
    && e.ended.Some? && e.bill == Billing.Some(r.bill) && e.reason == Billing.Some(r.reason)
    && e.user == r.user && e.unit == r.unit
  }

  predicate SharedNode(a: Lease, b: Lease) {
    Live(a) && Live(b) && a.device == b.device
  }

  ghost predicate OneLive(s: State) {
    forall l, m :: l in s.leases && m in s.leases && SharedNode(s.leases[l], s.leases[m]) ==> l == m
  }

  ghost predicate Ok(s: State) {
    && (forall l :: l in s.leases ==> LeaseOk(s, l))
    && (forall r :: r in s.records ==> RecordOk(s, r))
    && OneLive(s)
  }

  ghost predicate Safe(s: State) {
    Ok(s) == true
  }

  /** Nothing that an ended lease was billed for changes; the lease may be deleted with its node. */
  ghost predicate Frozen(a: map<LeaseId, Lease>, b: map<LeaseId, Lease>) {
    forall l :: l in a && l in b && a[l].ended.Some? ==>
      b[l].ended == a[l].ended && b[l].reason == a[l].reason && b[l].bill == a[l].bill
  }

  /** The statuses that keep a node from being deleted. */
  predicate Unfinished(status: LeaseStatus) {
    status == Pending || InUse(status)
  }

  ghost predicate Held(leases: map<LeaseId, Lease>, d: DeviceId) {
    exists l :: l in leases && leases[l].device == d && Unfinished(leases[l].status)
  }

  /** The statuses in which a lease can become ready. */
  predicate Begun(status: LeaseStatus) {
    status == Assigned || status == Ready || status == Active
  }

  /** A lease that has ended although its status says that it is in use. */
  predicate Lingers(e: Lease) {
    e.ended.Some? && InUse(e.status)
  }

  /** Such leases stay, and stay like this. */
  ghost predicate Lingering(a: map<LeaseId, Lease>, b: map<LeaseId, Lease>) {
    forall l :: l in a && Lingers(a[l]) ==> l in b && Lingers(b[l])
  }

  ghost predicate HasLive(s: State, d: DeviceId) {
    exists l :: l in s.leases && Live(s.leases[l]) && s.leases[l].device == d
  }

  // ----- what each step keeps

  /** The bill of a lease that ends: nothing if it never became ready. */
  function Bill(cal: Billing.Calendar, e: Lease, now: Time): Billing.Result {
    if e.started.None? then Billing.Result(0, 0)
    else Billing.Compute(cal, e.started, Billing.Some(now), e.unit, e.price)
  }

  /** A lease after it was ended; one that had ended before keeps its end. */
  function EndedAs(cal: Billing.Calendar, e: Lease, reason: EndReason, now: Time): Lease {
    if e.ended.Some? then e
    else e.(ended := Billing.Some(now), reason := Billing.Some(reason), status := Ended,
            bill := Billing.Some(Bill(cal, e, now)))
  }

  /** end_lease */
  function EndLease(cal: Billing.Calendar, s: State, l: LeaseId, reason: EndReason, now: Time): State
    requires l in s.leases
  {
    var e := s.leases[l];
    if e.ended.Some? then s else
      s.(leases := s.leases[l := EndedAs(cal, e, reason, now)],
         records := s.records + [Record(e.user, l, Bill(cal, e, now), e.unit, reason)])
  }

  lemma CountAppend(records: seq<Record>, r: Record, l: LeaseId)
    ensures Count(records + [r], l) == Count(records, l) + if r.lease == l then 1 else 0
  {
    assert (records + [r])[..|records|] == records;
  }

  lemma EndKeeps(cal: Billing.Calendar, s: State, l: LeaseId, reason: EndReason, now: Time)
    requires Safe(s) && l in s.leases
    ensures var s' := EndLease(cal, s, l, reason, now);
      && Safe(s') && Frozen(s.leases, s'.leases) && s'.leases.Keys == s.leases.Keys
      && s'.leases[l] == EndedAs(cal, s.leases[l], reason, now)
      && s'.leases - {l} == s.leases - {l}
  {
    var s' := EndLease(cal, s, l, reason, now);
    if s.leases[l].ended.None? {
      forall m | m in s'.leases ensures LeaseOk(s', m) {
        assert LeaseOk(s, m);
        CountAppend(s.records, s'.records[|s.records|], m);
      }
      forall r | r in s'.records ensures RecordOk(s', r) {
        if r in s.records {
          assert RecordOk(s, r);
        }
      }
      assert OneLive(s');
      assert Ok(s');
    }
  }

  /** A node changes; it becomes free only without a live lease. */
  lemma NodeKeeps(s: State, d: DeviceId, n: Node)
    requires Safe(s) && (n.status == FREE ==> !HasLive(s, d))
    ensures Safe(s.(nodes := s.nodes[d := n]))
  {
    var s' := s.(nodes := s.nodes[d := n]);
    forall m | m in s'.leases ensures LeaseOk(s', m) {
      assert LeaseOk(s, m);
    }
    forall r | r in s'.records ensures RecordOk(s', r) {
      assert RecordOk(s, r);
    }
    assert OneLive(s');
    assert Ok(s');
  }

  /** A node that becomes free under a live lease breaks the invariant. */
  lemma FreeBreaks(s: State, d: DeviceId, n: Node)
    requires n.status == FREE && HasLive(s, d)
    ensures !Safe(s.(nodes := s.nodes[d := n]))
  {
    var s' := s.(nodes := s.nodes[d := n]);
    var l :| l in s.leases && Live(s.leases[l]) && s.leases[l].device == d;
    assert l in s'.leases;
    assert !LeaseOk(s', l);
  }

  /** Such a state: the only node is rented and online, and is set free by hand. */
  lemma FreeBreaksExample() returns (s: State, d: DeviceId, n: Node)
    ensures Safe(s) && d in s.nodes && s.nodes[d].connected && n == s.nodes[d].(status := FREE)
    ensures !Safe(s.(nodes := s.nodes[d := n]))
  {
    d, n := 1, Node("", "", FREE, true, 0);
    var e := Lease(5, d, Assigned, Billing.Hour, 10, Billing.None, Billing.None, Billing.None, Billing.None);
    s := State(map[d := n.(status := ASSIGNED)], map[7 := e], []);
    assert forall l :: l in s.leases ==> LeaseOk(s, l);
    assert Ok(s);
    assert 7 in s.leases && Live(s.leases[7]) && s.leases[7].device == d;
    FreeBreaks(s, d, n);
  }

  /** The status of a lease moves on. */
  lemma StatusKeeps(s: State, l: LeaseId, e: Lease)
    requires Safe(s) && l in s.leases && (e.status == Assigned || e.status == Ready || e.status == Active)
    requires e == s.leases[l].(status := e.status, started := e.started)
    ensures Safe(s.(leases := s.leases[l := e])) && Frozen(s.leases, s.leases[l := e])
  {
    var s' := s.(leases := s.leases[l := e]);
    forall m | m in s'.leases ensures LeaseOk(s', m) {
      assert LeaseOk(s, m);
    }
    forall r | r in s'.records ensures RecordOk(s', r) {
      assert RecordOk(s, r);
    }
    assert OneLive(s');
    assert Ok(s');
  }

  lemma {:induction false} CountNone(s: State, records: seq<Record>, l: LeaseId)
    requires l !in s.leases && forall r :: r in records ==> RecordOk(s, r)
    ensures Count(records, l) == 0
  {
    if records != [] {
      assert records[|records| - 1] in records;
      CountNone(s, records[..|records| - 1], l);
    }
  }

  /** A free node is rented. */
  lemma RentKeeps(s: State, l: LeaseId, e: Lease)
    requires Safe(s) && l !in s.leases && e.device in s.nodes && s.nodes[e.device].status == FREE
    requires Live(e) && e.status == Assigned && e.bill.None? && e.reason.None?
    ensures Safe(Rented(s, l, e)) && Frozen(s.leases, Rented(s, l, e).leases)
  {
    var s' := Rented(s, l, e);
    CountNone(s, s.records, l);
    forall m | m in s'.leases ensures LeaseOk(s', m) {
      if m in s.leases {
        assert LeaseOk(s, m);
      }
    }
    forall r | r in s'.records ensures RecordOk(s', r) {
      assert RecordOk(s, r);
    }
    forall m | m in s.leases && Live(s.leases[m]) ensures s.leases[m].device != e.device {
      assert LeaseOk(s, m);
    }
    assert OneLive(s');
    assert Ok(s');
  }

  function Rented(s: State, l: LeaseId, e: Lease): State
    requires e.device in s.nodes
  {
    s.(leases := s.leases[l := e], nodes := s.nodes[e.device := s.nodes[e.device].(status := ASSIGNED)])
  }

  // ----- deleting a node

  /** The records that are not about the given leases. */
  function Without(records: seq<Record>, gone: set<LeaseId>): seq<Record> {
    if records == [] then [] else
      var init, last := records[..|records| - 1], records[|records| - 1];
      if last.lease in gone then Without(init, gone) else Without(init, gone) + [last]
  }

  lemma {:induction false} CountWithout(records: seq<Record>, gone: set<LeaseId>, l: LeaseId)
    requires l !in gone
    ensures Count(Without(records, gone), l) == Count(records, l)
  {
    if records != [] {
      var init, last := records[..|records| - 1], records[|records| - 1];
      CountWithout(init, gone, l);
      CountAppend(Without(init, gone), last, l);
    }
  }

  lemma {:induction false} WithoutIn(records: seq<Record>, gone: set<LeaseId>)
    ensures forall r :: r in Without(records, gone) ==> r in records && r.lease !in gone
  {
    if records != [] {
      var init := records[..|records| - 1];
      WithoutIn(init, gone);
      assert records == init + [records[|records| - 1]];
    }
  }

  function LeasesOf(s: State, d: DeviceId): set<LeaseId> {
    set l | l in s.leases && s.leases[l].device == d
  }

  function Deleted(s: State, d: DeviceId): State {
    var gone := LeasesOf(s, d);
    State(s.nodes - {d}, s.leases - gone, Without(s.records, gone))
  }

  lemma DeleteKeeps(s: State, d: DeviceId)
    requires Safe(s)
    ensures Safe(Deleted(s, d)) && Frozen(s.leases, Deleted(s, d).leases)
  {
    var gone, s' := LeasesOf(s, d), Deleted(s, d);
    forall m | m in s'.leases ensures LeaseOk(s', m) {
      assert LeaseOk(s, m);
      CountWithout(s.records, gone, m);
    }
    WithoutIn(s.records, gone);
    forall r | r in s'.records ensures RecordOk(s', r) {
      assert RecordOk(s, r);
    }
    assert OneLive(s');
    assert Ok(s');
  }

  method Pick<T>(s: set<T>) returns (x: T)
    requires s != {}
    ensures x in s
  {
    x :| x in s;
  }

  lemma FrozenTwice(a: map<LeaseId, Lease>, b: map<LeaseId, Lease>, c: map<LeaseId, Lease>)
    requires Frozen(a, b) && Frozen(b, c) && a.Keys == b.Keys
    ensures Frozen(a, c)
  {
  }

  lemma OthersKept(a: map<LeaseId, Lease>, b: map<LeaseId, Lease>, c: map<LeaseId, Lease>, gone: set<LeaseId>,
                   l: LeaseId)
    requires b - gone == a - gone && c - {l} == b - {l} && l in gone
    ensures c - gone == a - gone
  {
    assert c - gone == c - {l} - gone;
    assert b - gone == b - {l} - gone;
  }

  lemma SameRest(a: map<LeaseId, Lease>, b: map<LeaseId, Lease>, ended: set<LeaseId>)
    requires b - ended == a - ended
    ensures forall m :: m in a && m !in ended ==> m in b && b[m] == a[m]
  {
    forall m | m in a && m !in ended ensures m in b && b[m] == a[m] {
      assert m in a - ended && (a - ended)[m] == (b - ended)[m];
    }
  }

  lemma SameElsewhere(a: map<LeaseId, Lease>, b: map<LeaseId, Lease>, l: LeaseId)
    requires b - {l} == a - {l}
    ensures forall m :: m in a && m != l ==> m in b && b[m] == a[m]
  {
    forall m | m in a && m != l ensures m in b && b[m] == a[m] {
      assert m in a - {l} && (a - {l})[m] == (b - {l})[m];
    }
  }

  /** A node without a lease in use, or a free node, has no live lease. */
  lemma FreeNode(s: State, d: DeviceId)
    requires Safe(s)
    ensures (forall l :: l in s.leases && s.leases[l].device == d ==> !InUse(s.leases[l].status)) ==> !HasLive(s, d)
    ensures d in s.nodes && s.nodes[d].status == FREE ==> !HasLive(s, d)
    ensures d !in s.nodes ==> !HasLive(s, d)
  {
    forall l | l in s.leases && Live(s.leases[l])
      ensures InUse(s.leases[l].status) && s.leases[l].device in s.nodes && s.nodes[s.leases[l].device].status != FREE
    {
      assert LeaseOk(s, l);
    }
  }

  lemma MinusMore(m: map<LeaseId, Lease>, a: set<LeaseId>, b: set<LeaseId>)
    requires a <= b
    ensures m - b == m - a - b
  {
  }

  /** When every lease of a node that was in use has ended, the node has no live lease. */
  lemma AllEnded(s: State, s': State, d: DeviceId, ended: set<LeaseId>)
    requires Safe(s) && s'.leases.Keys == s.leases.Keys && s'.leases - ended == s.leases - ended
    requires forall l :: l in s.leases && s.leases[l].device == d && InUse(s.leases[l].status) ==> l in ended
    requires forall l :: l in ended ==> l in s.leases && s'.leases[l].ended.Some? && s.leases[l].device == d
    ensures !HasLive(s', d)
    ensures s'.leases - LeasesOf(s, d) == s.leases - LeasesOf(s, d)
  {
    forall l | l in s'.leases && s'.leases[l].device == d ensures !Live(s'.leases[l]) {
      if l !in ended {
        assert s'.leases[l] == (s'.leases - ended)[l] == (s.leases - ended)[l] == s.leases[l];
        assert LeaseOk(s, l);
      }
    }
    forall l | l in ended ensures l in LeasesOf(s, d) {}
    MinusMore(s'.leases, ended, LeasesOf(s, d));
    MinusMore(s.leases, ended, LeasesOf(s, d));
  }

  /** A node is being released, unless an administrator holds it. */
  function Freeing(nodes: map<DeviceId, Node>, d: DeviceId): map<DeviceId, Node>
    requires d in nodes
  {
    if Admin(nodes[d].status) then nodes else nodes[d := nodes[d].(status := RELEASING)]
  }

  ghost predicate GivenBack(cal: Billing.Calendar, a: map<LeaseId, Lease>, b: map<LeaseId, Lease>, ids: seq<LeaseId>,
                            user: UserId, now: Time)
  {
    forall l :: l in ids ==>
      l in a && l in b && a[l].user == user && b[l] == EndedAs(cal, a[l], USER_RELEASE, now)
  }

  /** The nodes of the given leases are being released, and no others have changed. */
  ghost predicate NodesReleased(a: map<DeviceId, Node>, b: map<DeviceId, Node>, leases: map<LeaseId, Lease>,
                                ids: seq<LeaseId>)
  {
    && a.Keys == b.Keys
    && forall d :: d in a ==>
      b[d] == if Among(leases, ids, d) && !Admin(a[d].status) then a[d].(status := RELEASING) else a[d]
  }

  ghost predicate Among(leases: map<LeaseId, Lease>, ids: seq<LeaseId>, d: DeviceId) {
    exists l :: l in ids && l in leases && leases[l].device == d
  }

  lemma AmongAppend(leases: map<LeaseId, Lease>, ids: seq<LeaseId>, l: LeaseId, d: DeviceId)
    requires l in leases
    ensures Among(leases, ids + [l], d) <==> Among(leases, ids, d) || d == leases[l].device
  {
    assert l in ids + [l];
    if Among(leases, ids, d) {
      var m :| m in ids && m in leases && leases[m].device == d;
      assert m in ids + [l];
    }
  }

  lemma NodeReleaseStep(a: map<DeviceId, Node>, b: map<DeviceId, Node>, leases: map<LeaseId, Lease>,
                        ids: seq<LeaseId>, i: nat)
    requires i < |ids| && ids[i] in leases && leases[ids[i]].device in b && NodesReleased(a, b, leases, ids[..i])
    ensures NodesReleased(a, Freeing(b, leases[ids[i]].device), leases, ids[..i + 1])
  {
    assert ids[..i + 1] == ids[..i] + [ids[i]];
    forall d ensures Among(leases, ids[..i + 1], d) <==> Among(leases, ids[..i], d) || d == leases[ids[i]].device {
      AmongAppend(leases, ids[..i], ids[i], d);
    }
  }

  ghost predicate Untouched(a: map<LeaseId, Lease>, b: map<LeaseId, Lease>, ids: seq<LeaseId>) {
    forall l :: l in a && l !in ids ==> l in b && b[l] == a[l]
  }

  lemma ReleaseStep(cal: Billing.Calendar, a: map<LeaseId, Lease>, b: map<LeaseId, Lease>, c: map<LeaseId, Lease>,
                    ids: seq<LeaseId>, i: nat, user: UserId, now: Time)
    requires i < |ids| && ids[i] in b && b[ids[i]].user == user && a.Keys == b.Keys == c.Keys
    requires c[ids[i]] == EndedAs(cal, b[ids[i]], USER_RELEASE, now) && c - {ids[i]} == b - {ids[i]}
    requires GivenBack(cal, a, b, ids[..i], user, now) && Untouched(a, b, ids[..i])
    ensures GivenBack(cal, a, c, ids[..i + 1], user, now) && Untouched(a, c, ids[..i + 1])
  {
    assert ids[..i + 1] == ids[..i] + [ids[i]];
    SameElsewhere(b, c, ids[i]);
  }

  /** A lease keeps its device. */
  lemma SameDevice(cal: Billing.Calendar, a: map<LeaseId, Lease>, b: map<LeaseId, Lease>, ids: seq<LeaseId>,
                   user: UserId, now: Time, l: LeaseId)
    requires GivenBack(cal, a, b, ids, user, now) && Untouched(a, b, ids) && l in a && l in b
    ensures b[l].device == a[l].device
  {
  }

  lemma OnlyReleased(cal: Billing.Calendar, user: UserId, now: Time, a: map<LeaseId, Lease>, b: map<LeaseId, Lease>,
                     n: map<DeviceId, Node>, n': map<DeviceId, Node>, l: LeaseId)
    requires l in a && a[l].ended.Some? && a.Keys == b.Keys && a[l].device in n
    requires GivenBack(cal, a, b, [l], user, now) && Untouched(a, b, [l]) && NodesReleased(n, n', a, [l])
    ensures b == a && n' == Freeing(n, a[l].device)
  {
    assert l in [l];
    forall d ensures Among(a, [l], d) <==> d == a[l].device {
      AmongAppend(a, [], l, d);
      assert [] + [l] == [l];
    }
    forall m | m in a ensures b[m] == a[m] {
      assert m in [l] <==> m == l;
    }
    forall d | d in n ensures n'[d] == Freeing(n, a[l].device)[d] {
      assert Among(a, [l], d) <==> d == a[l].device;
    }
  }

  // ----- picking nodes

  ghost predicate Distinct<T>(s: seq<T>) {
    forall i, j :: 0 <= i < j < |s| ==> s[i] != s[j]
  }

  lemma DistinctSnoc<T>(s: seq<T>, x: T)
    requires Distinct(s) && x !in s
    ensures Distinct(s + [x])
  {
  }

  /** A free node of the tier, in the region or in any if the region is "default". */
  predicate Suits(n: Node, region: string, tier: string) {
    n.status == FREE && n.tier == tier && (region == "default" || n.region == region)
  }

  /** A request to rent; the price is the one of the price list. */
  datatype Ask = Ask(user: UserId, region: string, tier: string, unit: Billing.Unit, price: int)

  function NewLease(ask: Ask, d: DeviceId): Lease {
    Lease(ask.user, d, Assigned, ask.unit, ask.price, Billing.None, Billing.None, Billing.None, Billing.None)
  }

  /** Every id is a new live lease on its own node, which was free and suitable before; nothing else has changed. */
  ghost predicate ExactGrant(s: State, s': State, ids: seq<LeaseId>, picked: seq<DeviceId>, ask: Ask) {
    && |picked| == |ids| && Distinct(picked)
    && (forall i :: 0 <= i < |ids| ==>
      && picked[i] in s.nodes && Suits(s.nodes[picked[i]], ask.region, ask.tier)
      && picked[i] in s'.nodes && s'.nodes[picked[i]] == s.nodes[picked[i]].(status := ASSIGNED)
      && ids[i] in s'.leases && s'.leases[ids[i]] == NewLease(ask, picked[i]))
    && s'.nodes.Keys == s.nodes.Keys && (forall d :: d in s'.nodes && d !in picked ==> s'.nodes[d] == s.nodes[d])
    && (forall l :: l in s'.leases <==> l in s.leases || l in ids)
    && (forall l :: l in s.leases ==> l in s'.leases && s'.leases[l] == s.leases[l])
    && s'.records == s.records
  }

  ghost predicate Granted(s: State, s': State, ids: seq<LeaseId>, picked: seq<DeviceId>, ask: Ask) {
    ExactGrant(s, s', ids, picked, ask) == true
  }

  lemma GrantStep(s: State, s': State, picked: seq<DeviceId>, ids: seq<LeaseId>, i: nat, ask: Ask)
    requires i < |picked| == |ids| && Distinct(picked) && Distinct(ids) && ids[i] !in s.leases
    requires picked[i] in s.nodes && Suits(s.nodes[picked[i]], ask.region, ask.tier)
    requires Granted(s, s', ids[..i], picked[..i], ask)
    ensures picked[i] in s'.nodes && s'.nodes[picked[i]] == s.nodes[picked[i]] && ids[i] !in s'.leases
    ensures Granted(s, Rented(s', ids[i], NewLease(ask, picked[i])), ids[..i + 1], picked[..i + 1], ask)
  {
    var s'' := Rented(s', ids[i], NewLease(ask, picked[i]));
    assert picked[i] !in picked[..i] && ids[i] !in ids[..i];
    assert picked[..i + 1] == picked[..i] + [picked[i]] && ids[..i + 1] == ids[..i] + [ids[i]];
    forall j | 0 <= j < i ensures picked[..i][j] != picked[i] && ids[..i][j] != ids[i] {}
    assert ExactGrant(s, s'', ids[..i + 1], picked[..i + 1], ask);
  }

  /** Fewer suitable nodes than asked for. */
  ghost predicate Short(nodes: map<DeviceId, Node>, ask: Ask, count: nat) {
    |set d | d in nodes && Suits(nodes[d], ask.region, ask.tier)| < count
  }

  lemma Member<T>(s: set<T>) returns (x: T)
    requires s != {}
    ensures x in s
  {
    x :| x in s;
  }

  lemma {:induction false} SeqSize(s: seq<DeviceId>, t: set<DeviceId>)
    requires Distinct(s) && forall d :: d in t <==> d in s
    ensures |t| == |s|
  {
    if s == [] {
      if t != {} {
        var x := Member(t);
        assert false;
      }
    } else {
      var init, last := s[..|s| - 1], s[|s| - 1];
      forall d ensures d in t - {last} <==> d in init {
        assert d in s <==> d in init || d == last;
      }
      SeqSize(init, t - {last});
      assert last in s;
    }
  }

  lemma ShowShort(nodes: map<DeviceId, Node>, ask: Ask, count: nat, picked: seq<DeviceId>)
    requires Distinct(picked) && |picked| <= count
    requires forall d :: d in picked ==> d in nodes && Suits(nodes[d], ask.region, ask.tier)
    requires forall d :: d in nodes && Suits(nodes[d], ask.region, ask.tier) && d !in picked ==> |picked| == count
    ensures Short(nodes, ask, count) <==> |picked| < count
  {
    var all := set d | d in nodes && Suits(nodes[d], ask.region, ask.tier);
    var some := set d | d in picked;
    SeqSize(picked, some);
    SubsetSize(some, all);
    if |picked| < count {
      forall d | d in all ensures d in some {
        assert d in picked;
      }
      SubsetSize(all, some);
    }
  }

  lemma SubsetSize<T>(a: set<T>, b: set<T>)
    requires a <= b
    ensures |a| <= |b|
  {
    assert b == a + (b - a);
  }

  /** The nodes that a request can get, by their fields. */
  ghost function Rentable(nodes: map<DeviceId, Node>, ask: Ask): set<DeviceId> {
    set d | d in nodes && nodes[d].status == FREE && nodes[d].tier == ask.tier
      && (ask.region == "default" || nodes[d].region == ask.region)
  }

  lemma ShortFields(nodes: map<DeviceId, Node>, ask: Ask, count: nat)
    ensures Short(nodes, ask, count) <==> |Rentable(nodes, ask)| < count
  {
    assert (set d | d in nodes && Suits(nodes[d], ask.region, ask.tier)) == Rentable(nodes, ask);
  }

  /**
    The i-th lease is the user's, on the i-th node, with the unit and the price asked
    for, not started and not ended.  The nodes are different and rentable ones, seen
    no later than the rentable ones left, and assigned now.
   */
  ghost predicate Taken(nodes: map<DeviceId, Node>, nodes': map<DeviceId, Node>, leases: map<LeaseId, Lease>,
                        leases': map<LeaseId, Lease>, ids: seq<LeaseId>, picked: seq<DeviceId>, ask: Ask)
  {
    && |picked| == |ids| && (forall i, j :: 0 <= i < j < |picked| ==> picked[i] != picked[j])
    && leases'.Keys == leases.Keys + (set l | l in ids) && nodes'.Keys == nodes.Keys
    && (forall d :: d in picked ==> d in Rentable(nodes, ask))
    && (forall d, x :: d in Rentable(nodes, ask) && d !in picked && x in picked && x in nodes ==>
      nodes[x].lastSeen <= nodes[d].lastSeen)
    && (forall i :: 0 <= i < |ids| ==>
      && picked[i] in nodes' && nodes'[picked[i]].status == ASSIGNED
      && ids[i] in leases' && leases'[ids[i]].user == ask.user && leases'[ids[i]].device == picked[i]
      && leases'[ids[i]].status == Assigned && leases'[ids[i]].unit == ask.unit && leases'[ids[i]].price == ask.price
      && leases'[ids[i]].started.None? && leases'[ids[i]].ended.None?)
  }

  lemma GrantedFields(s: State, s': State, ids: seq<LeaseId>, picked: seq<DeviceId>, ask: Ask)
    requires Granted(s, s', ids, picked, ask) && LongestAgo(s.nodes, ask, picked)
    ensures Taken(s.nodes, s'.nodes, s.leases, s'.leases, ids, picked, ask)
  {
    assert ExactGrant(s, s', ids, picked, ask);
    forall d | d in picked ensures d in Rentable(s.nodes, ask) {
      var i :| 0 <= i < |picked| && picked[i] == d;
      assert picked[i] in s.nodes;
    }
    forall l ensures l in s'.leases.Keys <==> l in s.leases.Keys + (set l | l in ids) {
    }
  }

  /** Nodes not picked were seen later than those picked. */
  ghost predicate LongestAgo(nodes: map<DeviceId, Node>, ask: Ask, picked: seq<DeviceId>) {
    forall d, x :: d in nodes && Suits(nodes[d], ask.region, ask.tier) && d !in picked && x in picked && x in nodes ==>
      nodes[x].lastSeen <= nodes[d].lastSeen
  }

  // ----- the handlers

  datatype Answer = Done(leases: seq<LeaseId>) | NoCapacity | NotFound

  datatype Key = Key(user: UserId, scope: string, key: string)

  /** A successful answer is kept under the client's request id. */
  function Remember(keys: map<Key, seq<LeaseId>>, user: UserId, scope: string, request: Option<string>, a: Answer)
      : map<Key, seq<LeaseId>>
  {
    if request.Some? && a.Done? then keys[Key(user, scope, request.value) := a.leases] else keys
  }

  /** The statuses that count as an active lease when a node connects or goes. */
  predicate InUse(st: LeaseStatus) {
    st == Assigned || st == Ready || st == Active || st == Releasing
  }

  function Admin(st: NodeStatus): bool {
    st == DISABLED || st == MAINTENANCE
  }

  /** The statuses in which a lease may be streamed. */
  predicate Streams(e: Lease) {
    e.status == Ready || e.status == Active
  }

  datatype Setting = BadRequest | NoNode | Set

  /** The status that an administrator's word stands for. */
  function NewStatus(state: string, connected: bool): Option<NodeStatus> {
    if state == "DISABLED" then Billing.Some(DISABLED)
    else if state == "MAINTENANCE" then Billing.Some(MAINTENANCE)
    else if state == "FREE" then Billing.Some(if connected then FREE else OFFLINE)
    else Billing.None
  }

  /** The sets of statuses that the handlers look for. */
  lemma StatusSets(e: Lease, st: NodeStatus)
    ensures InUse(e.status) <==> e.status != Pending && e.status != Ended
    ensures Unfinished(e.status) <==> e.status != Ended
    ensures Begun(e.status) <==> e.status == Assigned || e.status == Ready || e.status == Active
    ensures Streams(e) <==> e.status == Ready || e.status == Active
    ensures Live(e) <==> e.ended.None?
    ensures Admin(st) <==> st == DISABLED || st == MAINTENANCE
  {
  }

  /** What ending does to a live lease, by its fields. */
  lemma EndedFields(cal: Billing.Calendar, e: Lease, reason: EndReason, now: Time)
    requires e.ended.None?
    ensures var x := EndedAs(cal, e, reason, now);
      && x.ended == Billing.Some(now) && x.reason == Billing.Some(reason) && x.status == Ended && x.bill.Some?
      && x.user == e.user && x.device == e.device && x.unit == e.unit && x.price == e.price && x.started == e.started
      && x.bill.value == if e.started.None? then Billing.Result(0, 0)
                         else Billing.Compute(cal, e.started, x.ended, e.unit, e.price)
  {
  }

  class ControlPlane {
    const cal: Billing.Calendar
    var nodes: map<DeviceId, Node>
    var leases: map<LeaseId, Lease>
    var records: seq<Record>
    var keys: map<Key, seq<LeaseId>>

    ghost function View(): State
      reads this
    {
      State(nodes, leases, records)
    }

    ghost predicate Valid()
      reads this
    {
      Safe(View())
    }

    constructor (cal: Billing.Calendar)
      ensures Valid() && View() == State(map[], map[], []) && keys == map[] && this.cal == cal
    {
      this.cal := cal;
      nodes, leases, records, keys := map[], map[], [], map[];
      new;
      assert Ok(View());
    }

    // ----- billing

    method End(l: LeaseId, reason: EndReason, now: Time)
      requires Valid() && l in leases
      modifies this`leases, this`records
      ensures Valid() && View() == EndLease(cal, old(View()), l, reason, now)
      ensures Frozen(old(leases), leases) && leases.Keys == old(leases.Keys)
      ensures leases[l] == EndedAs(cal, old(leases)[l], reason, now)
      ensures leases - {l} == old(leases) - {l}
    {
      EndKeeps(cal, View(), l, reason, now);
      var e := leases[l];
      if e.ended.Some? {
        return;
      }
      var bill := Billing.Result(0, 0);
      if e.started.Some? {
        bill := Billing.Compute(cal, e.started, Billing.Some(now), e.unit, e.price);
      }
      leases := leases[l := e.(ended := Billing.Some(now), reason := Billing.Some(reason), status := Ended,
                               bill := Billing.Some(bill))];
      records := records + [Record(e.user, l, bill, e.unit, reason)];
    }

    /** The given leases are ended, in some order. */
    method EndAll(todo0: set<LeaseId>, reason: EndReason, now: Time)
      requires Valid() && todo0 <= leases.Keys
      modifies this`leases, this`records
      ensures Valid() && Frozen(old(leases), leases) && leases.Keys == old(leases.Keys)
      ensures leases - todo0 == old(leases) - todo0
      ensures forall l :: l in todo0 ==> leases[l] == EndedAs(cal, old(leases)[l], reason, now)
    {
      var todo := todo0;
      while todo != {}
        invariant Valid() && Frozen(old(leases), leases) && leases.Keys == old(leases.Keys) && todo <= todo0
        invariant leases - todo0 == old(leases) - todo0
        invariant forall l :: l in todo0 - todo ==> leases[l] == EndedAs(cal, old(leases)[l], reason, now)
        invariant forall l :: l in todo ==> leases[l] == old(leases)[l]
        decreases |todo|
      {
        var l := Pick(todo);
        ghost var before := leases;
        End(l, reason, now);
        FrozenTwice(old(leases), before, leases);
        OthersKept(old(leases), before, leases, todo0, l);
        SameElsewhere(before, leases, l);
        todo := todo - {l};
      }
    }

    // ----- nodes

    /** A lease in use of the node, as the handlers look for it. */
    predicate Occupied(d: DeviceId)
      reads this
    {
      exists l :: l in leases && leases[l].device == d && InUse(leases[l].status)
    }

    /** The node, or a new one that is offline. */
    function Fetch(d: DeviceId, now: Time): Node
      reads this
    {
      if d in nodes then nodes[d] else Node("", "", OFFLINE, false, now)
    }

    /** _node_connected */
    method NodeConnected(d: DeviceId, now: Time)
      requires Valid()
      modifies this`nodes
      ensures var n := old(Fetch(d, now));
        nodes == old(nodes)[d := n.(connected := true, lastSeen := now,
          status := if Admin(n.status) || old(Occupied(d)) then n.status else FREE)]
      ensures d !in old(nodes) ==> nodes[d] == Node("", "", FREE, true, now)
      ensures Valid() && (nodes[d].status == FREE ==> !HasLive(View(), d))
    {
      var n := Fetch(d, now);
      n := n.(connected := true, lastSeen := now);
      if !Admin(n.status) {
        var active := Occupied(d);
        if !active {
          n := n.(status := FREE);
        }
      }
      FreeNode(View(), d);
      NodeKeeps(View(), d, n);
      nodes := nodes[d := n];
    }

    /** _update_node_hello: an empty region or tier keeps the old one. */
    method NodeHello(d: DeviceId, region: string, tier: string, now: Time)
      requires Valid()
      modifies this`nodes
      ensures var n := old(Fetch(d, now));
        nodes == old(nodes)[d := n.(lastSeen := now,
          region := if region != "" then region else n.region, tier := if tier != "" then tier else n.tier,
          status := if (n.status == OFFLINE || n.status == RELEASING) && !old(Occupied(d)) then FREE else n.status)]
      ensures d !in old(nodes) ==> nodes[d] == Node(region, tier, FREE, false, now)
      ensures Valid() && (nodes[d].status == FREE ==> !HasLive(View(), d))
    {
      var n := Fetch(d, now);
      n := n.(region := if region != "" then region else n.region, tier := if tier != "" then tier else n.tier,
              lastSeen := now);
      if n.status == OFFLINE || n.status == RELEASING {
        var active := Occupied(d);
        if !active {
          n := n.(status := FREE);
        }
      }
      FreeNode(View(), d);
      NodeKeeps(View(), d, n);
      nodes := nodes[d := n];
    }

    /** mark_node_offline_and_end_leases */
    method NodeOffline(d: DeviceId, now: Time)
      requires Valid()
      modifies this`nodes, this`leases, this`records
      ensures Valid() && Frozen(old(leases), leases) && Lingering(old(leases), leases) && !HasLive(View(), d)
      ensures d in old(nodes) ==>
        nodes == old(nodes)[d := old(nodes[d]).(status := OFFLINE, connected := false, lastSeen := now)]
      ensures d in old(nodes) ==> EndedFor(old(leases), leases, d, InUse, NODE_OFFLINE, now)
      ensures d !in old(nodes) ==> View() == old(View())
    {
      FreeNode(View(), d);
      if d !in nodes {
        return;
      }
      var n := nodes[d].(connected := false, status := OFFLINE, lastSeen := now);
      NodeKeeps(View(), d, n);
      nodes := nodes[d := n];
      var active := set l | l in leases && leases[l].device == d && InUse(leases[l].status);
      ghost var s := View();
      EndAll(active, NODE_OFFLINE, now);
      AllEnded(s, View(), d, active);
      SameRest(s.leases, leases, active);
    }

    /** The leases of a node with certain statuses were ended, and no others. */
    ghost predicate EndedFor(a: map<LeaseId, Lease>, b: map<LeaseId, Lease>, d: DeviceId,
                             which: LeaseStatus -> bool, reason: EndReason, now: Time)
    {
      && a.Keys == b.Keys
      && forall l :: l in a ==>
        b[l] == if a[l].device == d && which(a[l].status) then EndedAs(cal, a[l], reason, now) else a[l]
    }

    /** AdminForceReleaseNodeView; false if there is no such node. */
    method ForceReleaseNode(d: DeviceId, now: Time) returns (found: bool)
      requires Valid()
      modifies this`nodes, this`leases, this`records
      ensures Valid() && Frozen(old(leases), leases) && Lingering(old(leases), leases)
      ensures found == (d in old(nodes))
      ensures found ==> !HasLive(View(), d) && EndedFor(old(leases), leases, d, Unfinished, ADMIN_FORCE_RELEASE, now)
      ensures found ==> nodes == old(nodes)[d := old(nodes[d]).(status :=
          if Admin(old(nodes[d].status)) then old(nodes[d].status)
          else if old(nodes[d].connected) then FREE else OFFLINE)]
      ensures !found ==> View() == old(View())
    {
      if d !in nodes {
        return false;
      }
      found := true;
      var todo := set l | l in leases && leases[l].device == d && Unfinished(leases[l].status);
      ghost var s := View();
      EndAll(todo, ADMIN_FORCE_RELEASE, now);
      AllEnded(s, View(), d, todo);
      SameRest(s.leases, leases, todo);
      if !Admin(nodes[d].status) {
        var n := nodes[d].(status := if nodes[d].connected then FREE else OFFLINE);
        NodeKeeps(View(), d, n);
        nodes := nodes[d := n];
      } else {
        assert nodes == nodes[d := nodes[d].(status := nodes[d].status)];
      }
    }

    /**
      AdminSetNodeStateView.  The override to FREE does not look at leases: it keeps
      the invariant exactly when the node is not online or has no live lease.
     */
    method SetNodeState(d: DeviceId, state: string) returns (r: Setting)
      requires Valid()
      modifies this`nodes
      ensures r == if NewStatus(state, true).None? then BadRequest else if d !in old(nodes) then NoNode else Set
      ensures r != Set ==> View() == old(View())
      ensures r == Set ==> nodes == old(nodes)[d := old(nodes[d]).(status :=
          NewStatus(state, old(nodes[d].connected)).value)]
      ensures Valid() <==> !(r == Set && state == "FREE" && old(nodes[d].connected) && HasLive(old(View()), d))
    {
      if !(state == "DISABLED" || state == "MAINTENANCE" || state == "FREE") {
        return BadRequest;
      }
      if d !in nodes {
        return NoNode;
      }
      r := Set;
      var status := if state == "FREE" then (if nodes[d].connected then FREE else OFFLINE)
                    else if state == "DISABLED" then DISABLED else MAINTENANCE;
      var n := nodes[d].(status := status);
      if n.status == FREE && HasLive(View(), d) {
        FreeBreaks(View(), d, n);
      } else {
        NodeKeeps(View(), d, n);
      }
      nodes := nodes[d := n];
    }

    /** AdminDeleteNodeView: a node goes with its leases and their records, unless one is in use. */
    method DeleteNode(d: DeviceId) returns (ok: bool)
      requires Valid()
      modifies this`nodes, this`leases, this`records
      ensures Valid() && Frozen(old(leases), leases) && Lingering(old(leases), leases)
      ensures ok <==> d in old(nodes) && !Held(old(leases), d)
      ensures ok ==> !HasLive(old(View()), d) && View() == Deleted(old(View()), d)
      ensures !ok ==> View() == old(View())
    {
      if d !in nodes || exists l :: l in leases && leases[l].device == d && Unfinished(leases[l].status) {
        return false;
      }
      FreeNode(View(), d);
      DeleteKeeps(View(), d);
      var gone := set l | l in leases && leases[l].device == d;
      records := Without(records, gone);
      leases := leases - gone;
      nodes := nodes - {d};
      ok := true;
    }

    // ----- leases

    /** _mark_lease_ready: the first time, the clock starts. */
    method MarkReady(l: LeaseId, d: DeviceId, now: Time) returns (ok: bool)
      requires Valid()
      modifies this`nodes, this`leases
      ensures Valid() && Frozen(old(leases), leases) && Lingering(old(leases), leases)
      ensures ok <==> l in old(leases) && old(leases)[l].device == d && Begun(old(leases)[l].status)
      ensures ok ==> var e := old(leases)[l];
        leases == old(leases)[l := e.(status := Ready,
          started := if e.started.None? then Billing.Some(now) else e.started)]
      ensures ok ==> d in old(nodes) && var n := old(nodes)[d];
        nodes == old(nodes)[d := if Admin(n.status) then n else n.(status := IN_USE, lastSeen := now)]
      ensures !ok ==> View() == old(View())
    {
      if l !in leases || leases[l].device != d || !Begun(leases[l].status) {
        return false;
      }
      assert LeaseOk(View(), l);
      var e := leases[l];
      e := e.(started := if e.started.None? then Billing.Some(now) else e.started, status := Ready);
      StatusKeeps(View(), l, e);
      leases := leases[l := e];
      if d in nodes && !Admin(nodes[d].status) {
        var n := nodes[d].(status := IN_USE, lastSeen := now);
        NodeKeeps(View(), d, n);
        nodes := nodes[d := n];
      }
      ok := true;
    }

    /**
      _authorize_lease_stream: only the user's own lease that is ready or active, with its
      node.  That the lease is live is not looked at: it is not, exactly if it lingers.
     */
    method Authorize(l: LeaseId, user: UserId) returns (d: Option<DeviceId>)
      requires Valid()
      ensures d.Some? <==>
        l in leases && leases[l].user == user && Streams(leases[l])
      ensures d.Some? ==> d.value == leases[l].device && d.value in nodes
      ensures d.Some? && !Live(leases[l]) <==>
        l in leases && leases[l].user == user && Streams(leases[l]) && Lingers(leases[l])
    {
      if l !in leases || leases[l].user != user || !Streams(leases[l]) {
        return Billing.None;
      }
      assert LeaseOk(View(), l);
      d := Billing.Some(leases[l].device);
    }

    /** _set_lease_active: the lease may have ended since it was authorized; then only its status is wrong. */
    method SetActive(l: LeaseId)
      requires Valid() && l in leases
      modifies this`leases
      ensures Valid() && Frozen(old(leases), leases) && Lingering(old(leases), leases)
      ensures leases == old(leases)[l := old(leases[l]).(status := Active)]
    {
      StatusKeeps(View(), l, leases[l].(status := Active));
      leases := leases[l := leases[l].(status := Active)];
    }

    /**
      A lease that lingers keeps its node out of the pool: the node goes and comes back,
      has no live lease, stays OFFLINE, and cannot be deleted.
     */
    method StuckNode(l: LeaseId, d: DeviceId, gone: Time, back: Time) returns (deleted: bool)
      requires Valid() && l in leases && leases[l].device == d && Lingers(leases[l])
      modifies this`nodes, this`leases, this`records
      ensures Valid() && d in nodes && nodes[d].connected && nodes[d].status == OFFLINE && !HasLive(View(), d)
      ensures l in leases && leases[l] == old(leases[l]) && !deleted
    {
      assert LeaseOk(View(), l);
      NodeOffline(d, gone);
      assert leases[l] == old(leases[l]);
      NodeConnected(d, back);
      NodeHello(d, "", "", back);
      deleted := DeleteNode(d);
    }

    /** An administrator brings such a node back, by releasing the node or by setting it free. */
    method UnstickNode(l: LeaseId, d: DeviceId, byState: bool, now: Time)
      requires Valid() && l in leases && leases[l].device == d && Lingers(leases[l])
      requires d in nodes && nodes[d].connected && nodes[d].status == OFFLINE && !HasLive(View(), d)
      modifies this`nodes, this`leases, this`records
      ensures Valid() && d in nodes && nodes[d].status == FREE && Lingering(old(leases), leases)
    {
      if byState {
        var r := SetNodeState(d, "FREE");
      } else {
        var found := ForceReleaseNode(d, now);
      }
    }

    /**
      A node that no administrator holds is freed by connecting, and from OFFLINE or
      RELEASING by its hello, exactly if none of its leases has a status in use.
     */
    method FreedExactly(d: DeviceId, hello: bool, now: Time)
      requires Valid() && d in nodes && nodes[d].status != FREE && !Admin(nodes[d].status)
      requires hello ==> nodes[d].status == OFFLINE || nodes[d].status == RELEASING
      modifies this`nodes
      ensures Valid() && d in nodes
      ensures nodes[d].status == FREE <==>
        forall l :: l in leases && leases[l].device == d ==> !InUse(leases[l].status)
    {
      if hello {
        NodeHello(d, "", "", now);
      } else {
        NodeConnected(d, now);
      }
    }

    /** Releasing a lease that had ended bills nothing; its node goes, unless it is held or being released already. */
    method ReleaseAgain(user: UserId, l: LeaseId, now: Time) returns (a: Answer)
      requires Valid() && l in leases && leases[l].user == user && leases[l].ended.Some?
      modifies this`nodes, this`leases, this`records, this`keys
      ensures Valid() && leases == old(leases) && leases[l].device in old(nodes)
      ensures nodes == Freeing(old(nodes), leases[l].device)
      ensures var n := old(nodes)[leases[l].device];
        nodes != old(nodes) <==> !Admin(n.status) && n.status != RELEASING
    {
      ghost var done;
      assert LeaseOk(View(), l);
      a, done := Release(user, [l], Billing.None, now);
      assert [l][..1] == [l] && [l][..0] == [];
      OnlyReleased(cal, user, now, old(leases), leases, old(nodes), nodes, l);
    }

    /** A lease is ended and its node is being released, unless an administrator holds it. */
    method ReleaseOne(l: LeaseId, reason: EndReason, now: Time)
      requires Valid() && l in leases
      modifies this`nodes, this`leases, this`records
      ensures Valid() && Frozen(old(leases), leases) && leases.Keys == old(leases.Keys)
      ensures leases[l] == EndedAs(cal, old(leases)[l], reason, now)
      ensures leases - {l} == old(leases) - {l} && leases[l].device in old(nodes)
      ensures nodes == Freeing(old(nodes), leases[l].device)
    {
      assert LeaseOk(View(), l);
      ghost var before := nodes;
      End(l, reason, now);
      var d := leases[l].device;
      if !Admin(nodes[d].status) {
        var n := nodes[d].(status := RELEASING);
        NodeKeeps(View(), d, n);
        nodes := nodes[d := n];
      }
    }

    /** AdminForceReleaseLeaseView; false if there is no such lease. */
    method ForceReleaseLease(l: LeaseId, now: Time) returns (found: bool)
      requires Valid()
      modifies this`nodes, this`leases, this`records
      ensures Valid() && Frozen(old(leases), leases) && Lingering(old(leases), leases)
      ensures found == (l in old(leases))
      ensures leases.Keys == old(leases.Keys) && leases - {l} == old(leases) - {l}
      ensures found ==> leases[l] == EndedAs(cal, old(leases)[l], ADMIN_FORCE_RELEASE, now)
      ensures found ==> leases[l].device in old(nodes) && nodes == Freeing(old(nodes), leases[l].device)
      ensures !found ==> View() == old(View())
    {
      if l !in leases {
        return false;
      }
      ReleaseOne(l, ADMIN_FORCE_RELEASE, now);
      SameElsewhere(old(leases), leases, l);
      found := true;
    }

    /**
      ReleaseLeaseView: the leases are released one by one.  At the first one that is
      not the user's, the answer is NotFound, and those before it stay released.
     */
    method Release(user: UserId, ids: seq<LeaseId>, request: Option<string>, now: Time)
        returns (a: Answer, ghost done: nat)
      requires Valid()
      modifies this`nodes, this`leases, this`records, this`keys
      ensures Valid() && Frozen(old(leases), leases) && Lingering(old(leases), leases)
      ensures leases.Keys == old(leases.Keys)
      ensures old(Repeated(user, "release", request)) ==>
        a == Done(old(keys)[Key(user, "release", request.value)]) && View() == old(View()) && keys == old(keys)
      ensures !old(Repeated(user, "release", request)) ==>
        && Outcome(user, ids, a, done)
        && GivenBack(cal, old(leases), leases, ids[..done], user, now) && Untouched(old(leases), leases, ids[..done])
        && NodesReleased(old(nodes), nodes, old(leases), ids[..done])
        && keys == Remember(old(keys), user, "release", request, a)
    {
      done := 0;
      if Repeated(user, "release", request) {
        return Done(keys[Key(user, "release", request.value)]), 0;
      }
      for i := 0 to |ids|
        invariant Valid() && Frozen(old(leases), leases) && leases.Keys == old(leases.Keys) && keys == old(keys)
        invariant GivenBack(cal, old(leases), leases, ids[..i], user, now) && Untouched(old(leases), leases, ids[..i])
        invariant NodesReleased(old(nodes), nodes, old(leases), ids[..i])
      {
        var l := ids[i];
        if l !in leases || leases[l].user != user {
          return NotFound, i;
        }
        ghost var before, nodesBefore := leases, nodes;
        SameDevice(cal, old(leases), leases, ids[..i], user, now, l);
        ReleaseOne(l, USER_RELEASE, now);
        ReleaseStep(cal, old(leases), before, leases, ids, i, user, now);
        NodeReleaseStep(old(nodes), nodesBefore, old(leases), ids, i);
      }
      done := |ids|;
      assert ids[..done] == ids;
      a := Done(ids);
      keys := Remember(keys, user, "release", request, a);
    }

    ghost predicate Outcome(user: UserId, ids: seq<LeaseId>, a: Answer, done: nat)
      reads this
    {
      && done <= |ids|
      && match a
         case Done(ls) => ls == ids && done == |ids|
         case NotFound => done < |ids| && (ids[done] !in leases || leases[ids[done]].user != user)
         case NoCapacity => false
    }

    /** The request was answered before. */
    predicate Repeated(user: UserId, scope: string, request: Option<string>)
      reads this
    {
      request.Some? && Key(user, scope, request.value) in keys
    }

    // ----- renting

    method Oldest(cand: set<DeviceId>) returns (d: DeviceId)
      requires cand != {} && forall x :: x in cand ==> x in nodes
      ensures d in cand && forall x :: x in cand ==> nodes[d].lastSeen <= nodes[x].lastSeen
    {
      d := Pick(cand);
      var rest := cand - {d};
      while rest != {}
        invariant rest <= cand && d in cand
        invariant forall x :: x in cand - rest ==> nodes[d].lastSeen <= nodes[x].lastSeen
        decreases |rest|
      {
        var x := Pick(rest);
        if nodes[x].lastSeen < nodes[d].lastSeen {
          d := x;
        }
        rest := rest - {x};
      }
    }

    /** The free nodes of a tier and a region that were seen longest ago, up to `count` of them. */
    method PickFree(region: string, tier: string, count: nat) returns (picked: seq<DeviceId>)
      ensures |picked| <= count && Distinct(picked)
      ensures forall d :: d in picked ==> d in nodes && Suits(nodes[d], region, tier)
      ensures forall d :: d in nodes && Suits(nodes[d], region, tier) && d !in picked ==>
        |picked| == count && forall x :: x in picked ==> nodes[x].lastSeen <= nodes[d].lastSeen
    {
      var cand := set d | d in nodes && Suits(nodes[d], region, tier);
      picked := [];
      while |picked| < count && cand != {}
        invariant |picked| <= count && Distinct(picked)
        invariant forall d :: d in cand ==> d in nodes && Suits(nodes[d], region, tier) && d !in picked
        invariant forall d :: d in picked ==> d in nodes && Suits(nodes[d], region, tier)
        invariant forall d :: d in nodes && Suits(nodes[d], region, tier) ==> d in picked || d in cand
        invariant forall d, x :: d in cand && x in picked ==> nodes[x].lastSeen <= nodes[d].lastSeen
        decreases |cand|
      {
        var d := Oldest(cand);
        DistinctSnoc(picked, d);
        picked := picked + [d];
        cand := cand - {d};
      }
    }

    method Grant(ask: Ask, picked: seq<DeviceId>, ids: seq<LeaseId>)
      requires |picked| == |ids| && Distinct(picked) && Distinct(ids)
      requires forall d :: d in picked ==> d in nodes && Suits(nodes[d], ask.region, ask.tier)
      requires forall l :: l in ids ==> l !in leases
      modifies this`nodes, this`leases
      ensures (old(Valid()) ==> Valid()) && Granted(old(View()), View(), ids, picked, ask)
    {
      assert ExactGrant(View(), View(), [], [], ask);
      for i := 0 to |ids|
        invariant (old(Valid()) ==> Valid()) && Granted(old(View()), View(), ids[..i], picked[..i], ask)
      {
        var d, l := picked[i], ids[i];
        var e := NewLease(ask, d);
        assert d in picked && l in ids;
        GrantStep(old(View()), View(), picked, ids, i, ask);
        if Valid() {
          RentKeeps(View(), l, e);
        }
        leases := leases[l := e];
        nodes := nodes[d := nodes[d].(status := ASSIGNED)];
      }
      assert ids[..|ids|] == ids && picked[..|picked|] == picked;
    }

    /** RentLeaseView: exactly as many nodes as asked for, those seen longest ago, or nothing. */
    method Rent(ask: Ask, ids: seq<LeaseId>, request: Option<string>)
        returns (a: Answer, ghost picked: seq<DeviceId>)
      requires Distinct(ids) && forall l :: l in ids ==> l !in leases
      modifies this`nodes, this`leases, this`keys
      ensures (old(Valid()) ==> Valid()) && Frozen(old(leases), leases) && Lingering(old(leases), leases)
      ensures old(Repeated(ask.user, "rent", request)) ==>
        a == Done(old(keys)[Key(ask.user, "rent", request.value)]) && View() == old(View()) && keys == old(keys)
      ensures !old(Repeated(ask.user, "rent", request)) ==>
        && (a == NoCapacity <==> Short(old(nodes), ask, |ids|))
        && keys == Remember(old(keys), ask.user, "rent", request, a)
      ensures !old(Repeated(ask.user, "rent", request)) && a == NoCapacity ==> View() == old(View())
      ensures !old(Repeated(ask.user, "rent", request)) && a != NoCapacity ==>
        a == Done(ids) && Granted(old(View()), View(), ids, picked, ask) && LongestAgo(old(nodes), ask, picked)
      ensures !old(Repeated(ask.user, "rent", request)) ==>
        && (a == NoCapacity <==> |Rentable(old(nodes), ask)| < |ids|)
        && (a != NoCapacity ==> Taken(old(nodes), nodes, old(leases), leases, ids, picked, ask))
    {
      picked := [];
      if Repeated(ask.user, "rent", request) {
        return Done(keys[Key(ask.user, "rent", request.value)]), [];
      }
      var chosen := PickFree(ask.region, ask.tier, |ids|);
      ShowShort(nodes, ask, |ids|, chosen);
      ShortFields(nodes, ask, |ids|);
      if |chosen| < |ids| {
        return NoCapacity, [];
      }
      picked := chosen;
      Grant(ask, chosen, ids);
      GrantedFields(old(View()), View(), ids, picked, ask);
      a := Done(ids);
      keys := Remember(keys, ask.user, "rent", request, a);
    }
  }

  // ----- runs that break what the control plane promises

  lemma Available(nodes: map<DeviceId, Node>, ask: Ask, d: DeviceId)
    requires d in nodes && Suits(nodes[d], ask.region, ask.tier)
    ensures !Short(nodes, ask, 1)
  {
    SubsetSize({d}, set x | x in nodes && Suits(nodes[x], ask.region, ask.tier));
  }

  /** Node 1 is the only node, and has the given status. */
  ghost predicate OneNode(cp: ControlPlane, status: NodeStatus)
    reads cp
  {
    cp.nodes.Keys == {1} && cp.nodes[1].connected && cp.nodes[1].status == status && cp.nodes[1].tier == "t"
  }

  function AskFor(user: UserId): Ask {
    Ask(user, "default", "t", Billing.Hour, 10)
  }

  /** A node connects and says hello. */
  method Pool(cal: Billing.Calendar) returns (cp: ControlPlane)
    ensures fresh(cp) && cp.Valid() && OneNode(cp, FREE) && cp.leases == map[]
  {
    cp := new ControlPlane(cal);
    cp.NodeConnected(1, 0);
    cp.NodeHello(1, "r", "t", 0);
  }

  /** The node is rented, when it is free. */
  method RentOne(cp: ControlPlane, user: UserId, l: LeaseId)
    requires OneNode(cp, FREE) && l !in cp.leases
    modifies cp
    ensures OneNode(cp, ASSIGNED) && (old(cp.Valid()) ==> cp.Valid())
    ensures cp.leases == old(cp.leases)[l := NewLease(AskFor(user), 1)]
  {
    Available(cp.nodes, AskFor(user), 1);
    ghost var picked;
    var a;
    a, picked := cp.Rent(AskFor(user), [l], Billing.None);
    GrantedOne(old(cp.View()), cp.View(), l, picked, AskFor(user));
  }

  lemma GrantedOne(s: State, s': State, l: LeaseId, picked: seq<DeviceId>, ask: Ask)
    requires Granted(s, s', [l], picked, ask) && s.nodes.Keys == {1} && l !in s.leases
    ensures s'.leases == s.leases[l := NewLease(ask, 1)]
    ensures s'.nodes == s.nodes[1 := s.nodes[1].(status := ASSIGNED)]
  {
    assert ExactGrant(s, s', [l], picked, ask);
    var ids := [l];
    assert ids[0] == l && picked[0] in s.nodes.Keys && picked[0] == 1;
    assert s'.leases[ids[0]] == NewLease(ask, picked[0]);
    forall m ensures m in s'.leases <==> m in s.leases || m == l {
      assert m in ids <==> m == l;
    }
    var x := s.leases[l := NewLease(ask, 1)];
    forall m | m in x ensures m in s'.leases && s'.leases[m] == x[m] {}
    assert s'.leases.Keys == x.Keys;
    assert s'.leases == x;
  }

  /** Setting a rented node free lets it be rented once more: two live leases on one node. */
  method RentedTwice(cal: Billing.Calendar) returns (cp: ControlPlane)
    ensures !cp.Valid() && 7 in cp.leases && 8 in cp.leases && SharedNode(cp.leases[7], cp.leases[8])
    ensures cp.leases[7].user == 5 && cp.leases[8].user == 6
  {
    cp := Pool(cal);
    RentOne(cp, 5, 7);
    var r := cp.SetNodeState(1, "FREE");
    RentOne(cp, 6, 8);
    ghost var s := cp.View();
    assert 7 in s.leases && 8 in s.leases && SharedNode(s.leases[7], s.leases[8]);
    assert !OneLive(s);
    assert !Ok(cp.View());
  }

  /** The lease becomes ready, is authorized, is then ended by an administrator, and only then set active. */
  method EndedThenActive(cal: Billing.Calendar) returns (cp: ControlPlane)
    ensures fresh(cp) && cp.Valid() && 7 in cp.leases && Lingers(cp.leases[7]) && cp.leases[7].device == 1
    ensures cp.leases[7].user == 5 && cp.leases[7].status == Active
  {
    cp := Pool(cal);
    RentOne(cp, 5, 7);
    var ok := cp.MarkReady(7, 1, 10);
    var d := cp.Authorize(7, 5);
    assert d.Some?;
    var found := cp.ForceReleaseLease(7, 20);
    cp.SetActive(7);
  }

  /** The node of such a lease is stuck. */
  method StuckExample(cal: Billing.Calendar) returns (cp: ControlPlane)
    ensures cp.Valid() && 1 in cp.nodes && cp.nodes[1].connected && cp.nodes[1].status == OFFLINE
    ensures !HasLive(cp.View(), 1)
  {
    cp := EndedThenActive(cal);
    var deleted := cp.StuckNode(7, 1, 30, 40);
  }

  /** Its user may stream it although it has ended and was billed. */
  method StreamedAfterEnd(cal: Billing.Calendar) returns (cp: ControlPlane, d: Option<DeviceId>)
    ensures cp.Valid() && 7 in cp.leases && !Live(cp.leases[7]) && d == Billing.Some(1)
  {
    cp := EndedThenActive(cal);
    d := cp.Authorize(7, 5);
  }

  /** Lease 7 of user 5 on node 1 has ended. */
  ghost predicate SevenEnded(leases: map<LeaseId, Lease>) {
    7 in leases && !Live(leases[7]) && leases[7].user == 5 && leases[7].device == 1 && leases[7].status == Ended
  }

  /** Lease 8 of user 6 on node 1 is ready. */
  ghost predicate EightReady(leases: map<LeaseId, Lease>) {
    8 in leases && Live(leases[8]) && leases[8].user == 6 && leases[8].device == 1 && leases[8].status == Ready
  }

  /** User 5 had the node, and it is free again. */
  method FirstUser(cal: Billing.Calendar) returns (cp: ControlPlane)
    ensures fresh(cp) && cp.Valid() && OneNode(cp, FREE) && SevenEnded(cp.leases) && 8 !in cp.leases
  {
    cp := Pool(cal);
    RentOne(cp, 5, 7);
    var found := cp.ForceReleaseLease(7, 10);
    assert forall l :: l in cp.leases ==> l == 7;
    cp.NodeHello(1, "", "", 20);
  }

  /** User 6 has it now. */
  method SecondUser(cal: Billing.Calendar) returns (cp: ControlPlane)
    ensures fresh(cp) && cp.Valid() && OneNode(cp, IN_USE) && SevenEnded(cp.leases) && EightReady(cp.leases)
  {
    cp := FirstUser(cal);
    RentOne(cp, 6, 8);
    var ok := cp.MarkReady(8, 1, 30);
  }

  /** A user who releases an old lease once more takes the node from the user who has it now. */
  method TakenAway(cal: Billing.Calendar) returns (cp: ControlPlane)
    ensures cp.Valid() && OneNode(cp, RELEASING) && SevenEnded(cp.leases) && EightReady(cp.leases)
  {
    cp := SecondUser(cal);
    var a := cp.ReleaseAgain(5, 7, 40);
  }
}
