/**
  The output chain of nginx: incoming buffers are passed on as they are or copied
  into a bounded set of recycled buffers, a filter sends what it is handed, and
  sent buffers come back for reuse.

  A chain is the sequence of its buffers.  The filter is a chain writer: it keeps
  what it could not send, and how much it sends and what it returns is arbitrary.
 */
module OutputChain {

  /** The address of a buffer. */
  type Id = int

  const NULL: Id := 0

  type Byte = int

  /**
    `data` are the bytes from pos to last (from file_pos to file_last for a buffer
    that is only in a file), `off` is pos - start and `cap` is end - start.
    `tagged` says that the tag is the chain's own; `readonly` stands for the memory
    and mmap flags.
   */
  datatype Buf = Buf(data: seq<Byte>, off: int, cap: int, tagged: bool, temporary: bool, readonly: bool,
                     inFile: bool, flush: bool, lastBuf: bool, sync: bool, lastInChain: bool)

  type Bufs = map<Id, Buf>

  datatype Rc = NONE | OK | AGAIN | ERROR | DONE

  function Min(a: int, b: int): int {
    if a <= b then a else b
  }

  /** `dst` with the first bytes of `src`, and with its flags behind the last ones. */
  function Filled(src: Buf, dst: Buf, n: nat, sendfile: bool): Buf
    requires n <= |src.data|
  {
    var all := n == |src.data|;
    Buf(src.data[..n], dst.off, dst.cap, dst.tagged, dst.temporary, dst.readonly, sendfile && src.inFile,
        if all then src.flush else dst.flush, if all then src.lastBuf else dst.lastBuf, dst.sync,
        if all then src.lastInChain else dst.lastInChain)
  }

  /** `src` without its first bytes. */
  function Rest(src: Buf, n: nat): Buf
    requires n <= |src.data|
  {
    src.(data := src.data[n..], off := src.off + n)
  }

  predicate InMemory(b: Buf) {
    b.temporary || b.readonly
  }

  predicate Special(b: Buf) {
    (b.flush || b.lastBuf || b.sync) && !InMemory(b) && !b.inFile
  }

  // ----- what the filter may be handed, in terms of the flags

  /** Every buffer of a chain is one that the filter may be handed. */
  ghost predicate Delivered(bufs: Bufs, p: seq<Id>, cfg: Config) {
    forall b :: b in p ==> b in bufs && Deliverable(bufs[b], cfg)
  }

  datatype Config = Config(sendfile: bool, needInMemory: bool, needInTemp: bool)

  /** A buffer that only tells something. */
  predicate OnlyFlags(r: Buf) {
    (r.flush || r.lastBuf || r.sync) && !r.temporary && !r.readonly && !r.inFile
  }

  /**
    Whether the filter may be handed the buffer: a special one always; another one has
    to be in memory if the filter needs that or there is no sendfile, and writable if
    the filter needs that.
   */
  predicate MayPass(r: Buf, sendfile: bool, needInMemory: bool, needInTemp: bool) {
    var memory := r.temporary || r.readonly;
    || OnlyFlags(r)
    || ((!sendfile || needInMemory ==> memory) && (needInTemp ==> !r.readonly))
  }

  /** The same, and without sendfile the filter does not see that a buffer is in a file, too. */
  predicate Deliverable(r: Buf, cfg: Config) {
    MayPass(r, cfg.sendfile, cfg.needInMemory, cfg.needInTemp) && (!cfg.sendfile ==> !r.inFile)
  }

  // ----- the bytes of a chain

  function Data(bufs: Bufs, b: Id): seq<Byte> {
    if b in bufs then bufs[b].data else []
  }

  /** The bytes of a chain, in order. */
  function Bytes(bufs: Bufs, s: seq<Id>): seq<Byte> {
    if s == [] then [] else Data(bufs, s[0]) + Bytes(bufs, s[1..])
  }

  /** Bytes and links of a chain. */
  function Measure(bufs: Bufs, s: seq<Id>): nat {
    if s == [] then 0 else 1 + |Data(bufs, s[0])| + Measure(bufs, s[1..])
  }

  ghost predicate Distinct(s: seq<Id>) {
    s == [] || (s[0] !in s[1..] && Distinct(s[1..]))
  }

  lemma {:induction false} BytesAppend(bufs: Bufs, s: seq<Id>, t: seq<Id>)
    ensures Bytes(bufs, s + t) == Bytes(bufs, s) + Bytes(bufs, t)
  {
    if s == [] {
      assert s + t == t;
    } else {
      assert (s + t)[1..] == s[1..] + t && (s + t)[0] == s[0];
      BytesAppend(bufs, s[1..], t);
    }
  }

  lemma {:induction false} BytesFrame(bufs: Bufs, bufs': Bufs, s: seq<Id>)
    requires forall b :: b in s ==> Data(bufs', b) == Data(bufs, b)
    ensures Bytes(bufs', s) == Bytes(bufs, s) && Measure(bufs', s) == Measure(bufs, s)
  {
    if s != [] {
      assert s[0] in s;
      BytesFrame(bufs, bufs', s[1..]);
    }
  }

  // ----- the invariant

  /**
    `inq` is still to be processed, `pend` is in the hands of the filter, `busy`
    are the buffers handed over and not yet taken back, `idle` are the chain's own
    buffers that are not in use, `wire` has been sent and `total` is all that ever
    came in.
   */
  datatype State = State(bufs: Bufs, inq: seq<Id>, pend: seq<Id>, busy: seq<Id>, idle: seq<Id>,
                         wire: seq<Byte>, total: seq<Byte>, cfg: Config)

  /** A buffer of the chain is writable and large enough for its bytes. */
  predicate Sane(r: Buf) {
    && (r.tagged ==> r.temporary && !r.readonly && 0 < r.cap && 0 <= r.off && r.off + |r.data| <= r.cap)
    && (!InMemory(r) && !r.inFile ==> r.data == [])
  }

  /**
    A buffer of the chain is idle or on its way back, and is empty unless the
    filter still holds it; idle ones are rewound.  What is still to come is not the
    chain's own and is not yet with the filter.
   */
  predicate Placed(r: Buf, cfg: Config, inq: bool, pend: bool, busy: bool, idle: bool) {
    && Sane(r) && (pend ==> Deliverable(r, cfg))
    && (inq ==> !r.tagged && !pend)
    && (pend ==> Special(r) || r.data != [])
    && (idle ==> r.tagged && r.data == [] && r.off == 0 && !pend && !busy)
    && (r.tagged && !idle ==> busy)
    && (r.tagged && !pend ==> r.data == [])
  }

  ghost predicate Fits(s: State, b: Id)
    requires b in s.bufs
  {
    Placed(s.bufs[b], s.cfg, b in s.inq, b in s.pend, b in s.busy, b in s.idle)
  }

  ghost predicate Owned(s: State) {
    forall b {:trigger Fits(s, b)} :: b in s.bufs ==> Fits(s, b)
  }

  ghost predicate Known(s: State) {
    && NULL !in s.bufs
    && (forall b :: b in s.inq ==> b in s.bufs) && (forall b :: b in s.pend ==> b in s.bufs)
    && (forall b :: b in s.busy ==> b in s.bufs) && (forall b :: b in s.idle ==> b in s.bufs)
  }

  /** No buffer of the chain is twice on its way back. */
  ghost predicate Once(bufs: Bufs, busy: seq<Id>) {
    busy == [] || ((busy[0] in bufs && bufs[busy[0]].tagged ==> busy[0] !in busy[1..]) && Once(bufs, busy[1..]))
  }

  ghost predicate Apart(s: State) {
    Distinct(s.inq) && Distinct(s.pend) && Distinct(s.idle) && Once(s.bufs, s.busy)
  }

  /** What was sent, what the filter holds and what is still to come are all the bytes, in order. */
  ghost predicate Conserved(s: State) {
    s.wire + Bytes(s.bufs, s.pend) + Bytes(s.bufs, s.inq) == s.total
  }

  ghost predicate Ok(s: State) {
    Known(s) && Apart(s) && Owned(s) && Conserved(s)
  }

  ghost predicate Inv(s: State) {
    Ok(s) == true
  }

  lemma {:induction false} OnceFrame(bufs: Bufs, bs: Bufs, busy: seq<Id>)
    requires Once(bufs, busy) && forall b :: b in bs && bs[b].tagged && b in busy ==> b in bufs && bufs[b].tagged
    ensures Once(bs, busy)
  {
    if busy != [] {
      assert busy[0] in busy;
      OnceFrame(bufs, bs, busy[1..]);
    }
  }

  lemma {:induction false} OnceAppend(bufs: Bufs, busy: seq<Id>, b: Id)
    requires Once(bufs, busy) && (b in bufs && bufs[b].tagged ==> b !in busy)
    ensures Once(bufs, busy + [b])
  {
    if busy != [] {
      assert (busy + [b])[1..] == busy[1..] + [b];
      OnceAppend(bufs, busy[1..], b);
    }
  }

  lemma {:induction false} DistinctAppend(s: seq<Id>, t: seq<Id>)
    requires Distinct(s) && Distinct(t) && forall x :: x in t ==> x !in s
    ensures Distinct(s + t)
  {
    if s == [] {
      assert s + t == t;
    } else {
      assert (s + t)[1..] == s[1..] + t && s[0] in s;
      forall x | x in t ensures x !in s[1..] && x != s[0] {}
      DistinctAppend(s[1..], t);
    }
  }

  // ----- what each step keeps

  lemma Regroup(w: seq<Byte>, p: seq<Byte>, d: seq<Byte>, k: nat, q: seq<Byte>)
    requires k <= |d|
    ensures w + p + (d + q) == w + (p + d[..k]) + (d[k..] + q)
  {
    assert d == d[..k] + d[k..];
  }

  lemma Associative(p: seq<Byte>, q: seq<Byte>, a: seq<Byte>)
    ensures p + (q + a) == p + q + a
  {
  }

  lemma RegroupSent(w: seq<Byte>, d: seq<Byte>, k: nat, p: seq<Byte>, q: seq<Byte>)
    requires k <= |d|
    ensures w + (d + p) + q == (w + d[..k]) + (d[k..] + p) + q
    ensures d + p == d[..k] + (d[k..] + p)
  {
    assert d == d[..k] + d[k..];
  }

  /** An incoming buffer without bytes is dropped. */
  lemma Dropped(s: State, b: Id)
    requires Inv(s) && s.inq != [] && s.inq[0] == b && Data(s.bufs, b) == []
    ensures Inv(s.(inq := s.inq[1..]))
  {
    var s' := s.(inq := s.inq[1..]);
    forall x | x in s'.bufs ensures Fits(s', x) { assert Fits(s, x); }
    assert Owned(s') && Apart(s') && Known(s') && Conserved(s');
  }

  lemma PassedBytes(s: State, b: Id)
    requires Conserved(s) && s.inq != [] && s.inq[0] == b
    ensures Conserved(s.(inq := s.inq[1..], pend := s.pend + [b]))
  {
    var d := Data(s.bufs, b);
    BytesAppend(s.bufs, s.pend, [b]);
    assert Bytes(s.bufs, [b]) == d;
    Regroup(s.wire, Bytes(s.bufs, s.pend), d, |d|, Bytes(s.bufs, s.inq[1..]));
  }

  /** An incoming buffer is handed over as it is. */
  lemma Passed(s: State, b: Id)
    requires Inv(s) && s.inq != [] && s.inq[0] == b && b in s.bufs && (Special(s.bufs[b]) || s.bufs[b].data != [])
    requires Deliverable(s.bufs[b], s.cfg)
    ensures Inv(s.(inq := s.inq[1..], pend := s.pend + [b], busy := s.busy + [b]))
  {
    var s' := s.(inq := s.inq[1..], pend := s.pend + [b], busy := s.busy + [b]);
    assert Fits(s, b) && b in s.inq;
    DistinctAppend(s.pend, [b]);
    OnceAppend(s.bufs, s.busy, b);
    PassedBytes(s, b);
    forall x | x in s'.bufs ensures Fits(s', x) { assert Fits(s, x); }
    assert Owned(s') && Apart(s') && Known(s') && Conserved(s');
  }

  /** Only a flag of an incoming buffer changes. */
  lemma Unfiled(s: State, b: Id)
    requires Inv(s) && b in s.bufs && b in s.inq && InMemory(s.bufs[b])
    ensures Inv(s.(bufs := s.bufs[b := s.bufs[b].(inFile := false)]))
    ensures Measure(s.bufs[b := s.bufs[b].(inFile := false)], s.inq) == Measure(s.bufs, s.inq)
  {
    var s' := s.(bufs := s.bufs[b := s.bufs[b].(inFile := false)]);
    BytesFrame(s.bufs, s'.bufs, s.inq);
    BytesFrame(s.bufs, s'.bufs, s.pend);
    OnceFrame(s.bufs, s'.bufs, s.busy);
    forall x | x in s'.bufs ensures Fits(s', x) { assert Fits(s, x); }
    assert Owned(s') && Apart(s') && Known(s') && Conserved(s');
  }

  /** Buffers that come in belong to the caller and are not still on their way out. */
  ghost predicate Incoming(s: State, add: seq<Id>, news: Bufs) {
    && Distinct(add) && NULL !in news
    && (forall b :: b in add ==> b in news)
    && (forall b :: b in news ==>
      b !in s.inq && b !in s.pend && (b in s.bufs ==> !s.bufs[b].tagged) && !news[b].tagged && Sane(news[b]))
  }

  lemma QueuedBytes(s: State, add: seq<Id>, bs: Bufs)
    requires Conserved(s)
    requires forall b :: b in s.inq || b in s.pend ==> Data(bs, b) == Data(s.bufs, b)
    ensures Conserved(s.(bufs := bs, inq := s.inq + add, total := s.total + Bytes(bs, add)))
  {
    BytesFrame(s.bufs, bs, s.inq);
    BytesFrame(s.bufs, bs, s.pend);
    BytesAppend(bs, s.inq, add);
    Associative(s.wire + Bytes(s.bufs, s.pend), Bytes(s.bufs, s.inq), Bytes(bs, add));
  }

  /** Incoming buffers that are not in flight are appended to the queue. */
  lemma Queued(s: State, add: seq<Id>, news: Bufs)
    requires Inv(s) && Incoming(s, add, news)
    ensures Inv(s.(bufs := s.bufs + news, inq := s.inq + add, total := s.total + Bytes(news, add)))
  {
    var s' := s.(bufs := s.bufs + news, inq := s.inq + add, total := s.total + Bytes(news, add));
    forall x | x in s'.bufs ensures Fits(s', x) {
      if x in s.bufs { assert Fits(s, x); }
    }
    DistinctAppend(s.inq, add);
    OnceFrame(s.bufs, s'.bufs, s.busy);
    BytesFrame(news, s'.bufs, add);
    QueuedBytes(s, add, s'.bufs);
    assert Owned(s') && Apart(s') && Known(s') && Conserved(s');
  }

  /** A fresh buffer joins the idle ones. */
  lemma Grown(s: State, b: Id, r: Buf)
    requires Inv(s) && b !in s.bufs && b != NULL && r.tagged && Sane(r) && r.data == [] && r.off == 0
    ensures Inv(s.(bufs := s.bufs[b := r], idle := [b] + s.idle))
    ensures Measure(s.bufs[b := r], s.inq) == Measure(s.bufs, s.inq)
  {
    var s' := s.(bufs := s.bufs[b := r], idle := [b] + s.idle);
    assert s'.idle[1..] == s.idle;
    forall x | x in s'.bufs ensures Fits(s', x) {
      if x != b { assert Fits(s, x); }
    }
    OnceFrame(s.bufs, s'.bufs, s.busy);
    BytesFrame(s.bufs, s'.bufs, s.inq);
    BytesFrame(s.bufs, s'.bufs, s.pend);
    assert Owned(s') && Apart(s') && Known(s') && Conserved(s');
  }

  /** The first k bytes of b have moved into d. */
  ghost predicate CopiedInto(bufs: Bufs, bs: Bufs, b: Id, d: Id, k: nat) {
    && b in bufs && d in bufs && bs.Keys == bufs.Keys
    && (forall x :: x in bufs && x != b && x != d ==> bs[x] == bufs[x])
    && 0 < k <= |bufs[b].data|
    && bs[b].data == bufs[b].data[k..] && bs[b].tagged == bufs[b].tagged && Sane(bs[b])
    && bs[d].data == bufs[b].data[..k] && bs[d].tagged && Sane(bs[d])
  }

  /** An empty buffer of the chain with room in it. */
  predicate Roomy(d: Buf) {
    d.tagged && d.data == [] && Sane(d) && 0 <= d.off < d.cap
  }

  lemma Room(s: State, b: Id, d: Id)
    requires Inv(s) && s.inq != [] && s.inq[0] == b && s.idle != [] && s.idle[0] == d
    ensures b in s.bufs && d in s.bufs && b != d && Sane(s.bufs[b]) && Roomy(s.bufs[d]) && !s.bufs[b].tagged
  {
    assert s.idle[0] in s.idle && s.inq[0] in s.inq;
    assert Fits(s, b) && Fits(s, d);
  }

  /** Both buffers stay sane, and the filled one may be handed over. */
  lemma FilledSane(src: Buf, dst: Buf, n: nat, cfg: Config)
    requires Sane(src) && Roomy(dst) && n <= |src.data| && n <= dst.cap - dst.off
    ensures src.tagged || Sane(Rest(src, n))
    ensures var r := Filled(src, dst, n, cfg.sendfile); Sane(r) && r.tagged && Deliverable(r, cfg)
  {
  }

  lemma MovedInto(bufs: Bufs, b: Id, d: Id, k: nat, src: Buf, dst: Buf)
    requires b in bufs && d in bufs && b != d && 0 < k <= |bufs[b].data|
    requires src.data == bufs[b].data[k..] && src.tagged == bufs[b].tagged && Sane(src)
    requires dst.data == bufs[b].data[..k] && dst.tagged && Sane(dst)
    ensures CopiedInto(bufs, bufs[b := src][d := dst], b, d, k)
  {
  }

  lemma CopiedBytes(s: State, b: Id, d: Id, k: nat, bs: Bufs)
    requires Conserved(s) && s.inq != [] && s.inq[0] == b && b !in s.inq[1..] && b !in s.pend
    requires d !in s.inq && d !in s.pend && CopiedInto(s.bufs, bs, b, d, k)
    ensures Conserved(s.(bufs := bs, pend := s.pend + [d]))
    ensures Measure(bs, s.inq) == Measure(s.bufs, s.inq) - k
  {
    BytesFrame(s.bufs, bs, s.inq[1..]);
    BytesFrame(s.bufs, bs, s.pend);
    BytesAppend(bs, s.pend, [d]);
    assert Bytes(bs, [d]) == bs[d].data;
    Regroup(s.wire, Bytes(s.bufs, s.pend), s.bufs[b].data, k, Bytes(s.bufs, s.inq[1..]));
  }

  /** The first bytes of the incoming buffer have moved into an idle buffer, which is handed over. */
  lemma Copied(s: State, b: Id, d: Id, k: nat, bs: Bufs)
    requires Inv(s) && s.idle != [] && s.idle[0] == d && s.inq != [] && s.inq[0] == b
    requires CopiedInto(s.bufs, bs, b, d, k) && Deliverable(bs[d], s.cfg)
    ensures Inv(s.(bufs := bs, idle := s.idle[1..], pend := s.pend + [d], busy := s.busy + [d]))
    ensures Measure(bs, s.inq) == Measure(s.bufs, s.inq) - k
  {
    var s' := s.(bufs := bs, idle := s.idle[1..], pend := s.pend + [d], busy := s.busy + [d]);
    assert Fits(s, b) && Fits(s, d) && b in s.inq && d in s.idle;
    DistinctAppend(s.pend, [d]);
    OnceFrame(s.bufs, bs, s.busy);
    OnceAppend(bs, s.busy, d);
    CopiedBytes(s, b, d, k, bs);
    forall x | x in bs ensures Fits(s', x) { assert Fits(s, x); }
    assert Owned(s') && Apart(s') && Known(s') && Conserved(s');
  }

  lemma AdvancedBytes(s: State, b: Id, k: nat, bs: Bufs, rest: seq<Id>)
    requires Conserved(s) && s.pend != [] && s.pend[0] == b && b !in s.pend[1..] && b !in s.inq
    requires b in s.bufs && k <= |s.bufs[b].data|
    requires bs == s.bufs[b := s.bufs[b].(data := s.bufs[b].data[k..], off := s.bufs[b].off + k)]
    requires rest == if k == |s.bufs[b].data| then s.pend[1..] else s.pend
    ensures Conserved(s.(bufs := bs, pend := rest, wire := s.wire + s.bufs[b].data[..k]))
    ensures Bytes(s.bufs, s.pend) == s.bufs[b].data[..k] + Bytes(bs, rest)
    ensures Measure(bs, s.inq) == Measure(s.bufs, s.inq)
  {
    BytesFrame(s.bufs, bs, s.inq);
    BytesFrame(s.bufs, bs, s.pend[1..]);
    RegroupSent(s.wire, s.bufs[b].data, k, Bytes(s.bufs, s.pend[1..]), Bytes(s.bufs, s.inq));
  }

  /** The filter has sent the first bytes of its first buffer and lets go of it when it is empty. */
  lemma Advanced(s: State, b: Id, k: nat, bs: Bufs, rest: seq<Id>)
    requires Inv(s) && s.pend != [] && s.pend[0] == b && b in s.bufs && k <= |s.bufs[b].data|
    requires bs == s.bufs[b := s.bufs[b].(data := s.bufs[b].data[k..], off := s.bufs[b].off + k)]
    requires rest == if k == |s.bufs[b].data| then s.pend[1..] else s.pend
    ensures Inv(s.(bufs := bs, pend := rest, wire := s.wire + s.bufs[b].data[..k]))
    ensures Bytes(s.bufs, s.pend) == s.bufs[b].data[..k] + Bytes(bs, rest)
    ensures Measure(bs, s.inq) == Measure(s.bufs, s.inq) && SameIn(s.bufs, bs, s.inq)
  {
    var s' := s.(bufs := bs, pend := rest, wire := s.wire + s.bufs[b].data[..k]);
    assert Fits(s, b) && b in s.pend;
    AdvancedBytes(s, b, k, bs, rest);
    OnceFrame(s.bufs, bs, s.busy);
    assert (k < |s.bufs[b].data| ==> bs[b].data != []) && (b in rest <==> k < |s.bufs[b].data|);
    forall x | x in bs ensures Fits(s', x) {
      assert Fits(s, x);
      assert x == b || (x in rest <==> x in s.pend);
    }
    assert Owned(s') && Apart(s') && Known(s') && Conserved(s');
  }

  /** The head of the busy chain is not the chain's own. */
  lemma Forgotten(s: State, b: Id)
    requires Inv(s) && s.busy != [] && s.busy[0] == b && b in s.bufs && !s.bufs[b].tagged
    ensures Inv(s.(busy := s.busy[1..]))
  {
    var s' := s.(busy := s.busy[1..]);
    forall x | x in s'.bufs ensures Fits(s', x) { assert Fits(s, x); }
    assert Owned(s') && Apart(s') && Known(s') && Conserved(s');
  }

  /** The empty head of the busy chain becomes idle, rewound to its start. */
  lemma Recycled(s: State, b: Id, bs: Bufs)
    requires Inv(s) && s.busy != [] && s.busy[0] == b && b in s.bufs && s.bufs[b].tagged && s.bufs[b].data == []
    requires bs == s.bufs[b := s.bufs[b].(off := 0)]
    ensures Inv(s.(bufs := bs, busy := s.busy[1..], idle := [b] + s.idle))
    ensures Measure(bs, s.inq) == Measure(s.bufs, s.inq)
  {
    var s' := s.(bufs := bs, busy := s.busy[1..], idle := [b] + s.idle);
    assert Fits(s, b) && b in s.busy && s'.idle[1..] == s.idle;
    OnceFrame(s.bufs, bs, s'.busy);
    forall x | x in bs ensures Fits(s', x) { assert Fits(s, x); }
    BytesFrame(s.bufs, s'.bufs, s.inq);
    BytesFrame(s.bufs, s'.bufs, s.pend);
    assert Owned(s') && Apart(s') && Known(s') && Conserved(s');
  }

  lemma HandedPrefix(s: State, pend: seq<Id>, out: seq<Id>)
    requires Inv(s) && s.pend == pend + out
    ensures s.wire + Bytes(s.bufs, pend) <= s.total && Delivered(s.bufs, pend, s.cfg)
  {
    forall b | b in pend ensures b in s.bufs && Deliverable(s.bufs[b], s.cfg) {
      assert b in s.pend && Fits(s, b);
    }
    BytesAppend(s.bufs, pend, out);
    Associative(s.wire, Bytes(s.bufs, pend), Bytes(s.bufs, out));
    Associative(s.wire + Bytes(s.bufs, pend), Bytes(s.bufs, out), Bytes(s.bufs, s.inq));
  }

  lemma HandedAll(s: State)
    requires Inv(s)
    ensures s.wire + Bytes(s.bufs, s.pend) <= s.total
    ensures s.wire + Bytes(s.bufs, s.pend) + Bytes(s.bufs, s.inq) == s.total
    ensures Delivered(s.bufs, s.pend, s.cfg)
  {
    forall b | b in s.pend ensures b in s.bufs && Deliverable(s.bufs[b], s.cfg) {
      assert Fits(s, b);
    }
  }

  lemma Longer(p: seq<Id>, out: seq<Id>, b: Id)
    ensures p + out + [b] == p + (out + [b])
  {
  }

  lemma GoneMore(wire: seq<Byte>, gone: seq<Byte>, d: seq<Byte>, rest: seq<Byte>)
    ensures wire + gone + d == wire + (gone + d) && gone + (d + rest) == gone + d + rest
  {
  }

  /** The caller's buffers in a chain, which have positive ids, are among the given ones. */
  ghost predicate Callers(x: seq<Id>, u: set<Id>) {
    forall b :: b in x && 0 < b ==> b in u
  }

  /** The buffers that are on their way, and those that come in. */
  ghost function InFlight(inq: seq<Id>, pend: seq<Id>, add: seq<Id>): set<Id> {
    set b | b in inq + pend + add
  }

  lemma CallersTail(x: seq<Id>, u: set<Id>)
    requires Callers(x, u) && x != []
    ensures Callers(x[1..], u) && (0 < x[0] ==> x[0] in u)
  {
    assert x[0] in x;
    forall b | b in x[1..] && 0 < b ensures b in u { assert b in x; }
  }

  lemma CallersAppend(x: seq<Id>, y: seq<Id>, u: set<Id>)
    requires Callers(x, u) && Callers(y, u)
    ensures Callers(x + y, u)
  {
  }

  /** The buffers of a chain are as they were. */
  ghost predicate SameIn(bufs: Bufs, bs: Bufs, inq: seq<Id>) {
    forall b :: b in inq && b in bufs ==> b in bs && bs[b] == bufs[b]
  }

  /** The chain's own buffers have the ids from -1 down. */
  ghost predicate Numbers(bufs: Bufs, allotted: int) {
    && (forall b :: b in bufs ==> (bufs[b].tagged <==> b < 0))
    && (forall b :: b < 0 ==> (b in bufs <==> -allotted <= b))
  }

  lemma TransferStep(bufs: Bufs, b: Id, d: Id, n: nat, cfg: Config, allotted: int)
    requires b in bufs && d in bufs && b != d && Sane(bufs[b]) && !bufs[b].tagged && Roomy(bufs[d])
    requires 0 < n <= |bufs[b].data| && n <= bufs[d].cap - bufs[d].off && Numbers(bufs, allotted)
    ensures var bs := bufs[b := Rest(bufs[b], n)][d := Filled(bufs[b], bufs[d], n, cfg.sendfile)];
      CopiedInto(bufs, bs, b, d, n) && Numbers(bs, allotted) && Deliverable(bs[d], cfg)
  {
    var src, dst := Rest(bufs[b], n), Filled(bufs[b], bufs[d], n, cfg.sendfile);
    FilledSane(bufs[b], bufs[d], n, cfg);
    MovedInto(bufs, b, d, n, src, dst);
    NumbersKept(bufs, bufs[b := src][d := dst], allotted);
  }

  lemma NumbersKept(bufs: Bufs, bs: Bufs, allotted: int)
    requires Numbers(bufs, allotted) && bs.Keys == bufs.Keys
    requires forall b :: b in bufs ==> bs[b].tagged == bufs[b].tagged
    ensures Numbers(bs, allotted)
  {
  }

  // ----- which of the caller's buffers are handed over themselves

  /** Which of the caller's buffers may be handed over; one without bytes that is not special is dropped. */
  type Fates = map<Id, bool>

  ghost function FatesOf(bufs: Bufs, inq: seq<Id>, cfg: Config): Fates {
    map b | b in inq && b in bufs && 0 < b && (bufs[b].data != [] || Special(bufs[b])) ::
      MayPass(bufs[b], cfg.sendfile, cfg.needInMemory, cfg.needInTemp)
  }

  /** Those that are not queued any more are among those handed over exactly if they may be. */
  ghost predicate Fated(fates: Fates, inq: seq<Id>, gone: seq<Id>) {
    FatesMet(fates, inq, gone) == true
  }

  ghost predicate FatesMet(fates: Fates, inq: seq<Id>, gone: seq<Id>) {
    forall b :: b in fates ==> 0 < b && if b in inq then b !in gone else (b in gone <==> fates[b])
  }

  /** What is still queued has kept what decides its fate. */
  ghost predicate Undecided(fates: Fates, bufs: Bufs, inq: seq<Id>, cfg: Config) {
    StillSo(fates, bufs, inq, cfg) == true
  }

  ghost predicate StillSo(fates: Fates, bufs: Bufs, inq: seq<Id>, cfg: Config) {
    forall b :: b in fates && b in inq ==>
      && b in bufs && (bufs[b].data != [] || Special(bufs[b]))
      && fates[b] == MayPass(bufs[b], cfg.sendfile, cfg.needInMemory, cfg.needInTemp)
  }

  lemma FatesStart(bufs: Bufs, inq: seq<Id>, cfg: Config)
    requires forall b :: b in inq ==> b in bufs
    ensures Fated(FatesOf(bufs, inq, cfg), inq, []) && Undecided(FatesOf(bufs, inq, cfg), bufs, inq, cfg)
  {
    assert FatesMet(FatesOf(bufs, inq, cfg), inq, []);
    assert StillSo(FatesOf(bufs, inq, cfg), bufs, inq, cfg);
  }

  /** Buffers that are not queued may change. */
  lemma FatesFrame(fates: Fates, bufs: Bufs, bs: Bufs, inq: seq<Id>, cfg: Config)
    requires Undecided(fates, bufs, inq, cfg) && SameIn(bufs, bs, inq)
    ensures Undecided(fates, bs, inq, cfg)
  {
    assert StillSo(fates, bs, inq, cfg);
  }

  /** The flag that a buffer is in a file, too, decides nothing. */
  lemma FatesUnfiled(fates: Fates, bufs: Bufs, inq: seq<Id>, b: Id, cfg: Config)
    requires Undecided(fates, bufs, inq, cfg) && b in bufs
    ensures InMemory(bufs[b]) ==> Undecided(fates, bufs[b := bufs[b].(inFile := false)], inq, cfg)
  {
    assert InMemory(bufs[b]) ==> StillSo(fates, bufs[b := bufs[b].(inFile := false)], inq, cfg);
  }

  /** The first buffer is handed over, as it may be. */
  lemma FatesPassed(fates: Fates, bufs: Bufs, inq: seq<Id>, gone: seq<Id>, cfg: Config)
    requires Fated(fates, inq, gone) && Undecided(fates, bufs, inq, cfg) && Distinct(inq) && inq != []
    requires inq[0] in bufs && MayPass(bufs[inq[0]], cfg.sendfile, cfg.needInMemory, cfg.needInTemp)
    ensures Fated(fates, inq[1..], gone + [inq[0]]) && Undecided(fates, bufs, inq[1..], cfg)
  {
    Split(inq);
    assert FatesMet(fates, inq[1..], gone + [inq[0]]);
    assert StillSo(fates, bufs, inq[1..], cfg);
  }

  /** The first buffer is dropped, or exhausted by copies. */
  lemma FatesDropped(fates: Fates, bufs: Bufs, inq: seq<Id>, gone: seq<Id>, cfg: Config)
    requires Fated(fates, inq, gone) && Distinct(inq) && inq != []
    requires inq[0] in fates ==> !fates[inq[0]]
    requires Undecided(fates, bufs, inq[1..], cfg)
    ensures Fated(fates, inq[1..], gone) && Undecided(fates, bufs, inq[1..], cfg)
  {
    Split(inq);
    assert FatesMet(fates, inq[1..], gone);
  }

  /** The first buffer has lost bytes to a copy. */
  lemma FatesRest(fates: Fates, s: State, bs: Bufs, d: Id, k: nat)
    requires Inv(s) && s.inq != [] && s.idle != [] && s.idle[0] == d && CopiedInto(s.bufs, bs, s.inq[0], d, k)
    requires Undecided(fates, s.bufs, s.inq, s.cfg) && bs[s.inq[0]] == Rest(s.bufs[s.inq[0]], k)
    requires !MayPass(s.bufs[s.inq[0]], s.cfg.sendfile, s.cfg.needInMemory, s.cfg.needInTemp)
    ensures Distinct(s.inq) && (s.inq[0] in fates ==> !fates[s.inq[0]])
    ensures Undecided(fates, bs, s.inq[1..], s.cfg)
    ensures bs[s.inq[0]].data != [] ==> Undecided(fates, bs, s.inq, s.cfg)
  {
    var b := s.inq[0];
    Split(s.inq);
    assert Fits(s, d) && d in s.idle && b in s.inq;
    forall x | x in s.inq[1..] ensures x != b && x != d && x in s.bufs && bs[x] == s.bufs[x] {
      assert x in s.inq && Fits(s, x);
    }
    assert b in fates ==> !fates[b];
    assert StillSo(fates, bs, s.inq[1..], s.cfg);
    if bs[b].data != [] {
      assert StillSo(fates, bs, s.inq, s.cfg);
    }
  }

  /** A buffer of the chain itself is handed over. */
  lemma FatesCopied(fates: Fates, inq: seq<Id>, gone: seq<Id>, d: Id)
    requires Fated(fates, inq, gone) && d < 0
    ensures Fated(fates, inq, gone + [d])
  {
    assert FatesMet(fates, inq, gone + [d]);
  }

  /** Of the caller's buffers that are not queued any more, those that may be are handed over under their own ids. */
  ghost predicate HandedThemselves(bufs: Bufs, inq0: seq<Id>, cfg: Config, inq: seq<Id>, given: seq<Id>) {
    forall b :: b in inq0 && b in bufs && 0 < b && b !in inq && (bufs[b].data != [] || OnlyFlags(bufs[b])) ==>
      (b in given <==> MayPass(bufs[b], cfg.sendfile, cfg.needInMemory, cfg.needInTemp))
  }

  lemma FatesMean(bufs: Bufs, inq0: seq<Id>, cfg: Config, inq: seq<Id>, gone: seq<Id>)
    requires Fated(FatesOf(bufs, inq0, cfg), inq, gone)
    ensures HandedThemselves(bufs, inq0, cfg, inq, gone)
  {
    assert FatesMet(FatesOf(bufs, inq0, cfg), inq, gone);
  }

  lemma QueueKnown(s: State)
    requires Inv(s)
    ensures forall b :: b in s.inq ==> b in s.bufs
  {
  }

  lemma FatesNone(fates: Fates, bufs: Bufs, cfg: Config)
    ensures Undecided(fates, bufs, [], cfg)
  {
    assert StillSo(fates, bufs, [], cfg);
  }

  lemma FatesTail(fates: Fates, bufs: Bufs, inq: seq<Id>, cfg: Config)
    requires Undecided(fates, bufs, inq, cfg) && inq != []
    ensures Undecided(fates, bufs, inq[1..], cfg)
    ensures inq[0] in fates ==> inq[0] in bufs && (bufs[inq[0]].data != [] || Special(bufs[inq[0]]))
  {
    var b := inq[0];
    assert StillSo(fates, bufs, inq, cfg) && b in inq;
    assert StillSo(fates, bufs, inq[1..], cfg);
  }

  lemma HeldDistinct(s: State)
    requires Inv(s)
    ensures Distinct(s.inq)
  {
  }

  lemma Split(inq: seq<Id>)
    requires inq != [] && Distinct(inq)
    ensures inq[0] !in inq[1..] && forall b :: b in inq <==> b == inq[0] || b in inq[1..]
  {
  }

  // ----- the code

  /** The first bytes, at most `n` of them. */
  ghost function Cut(s: seq<Byte>, n: nat): seq<Byte> {
    if n <= |s| then s[..n] else s
  }

  /** ngx_output_chain_as_is: whether a buffer may be handed over without a copy. */
  predicate PassesAsIs(r: Buf, sendfile: bool, needInMemory: bool, needInTemp: bool) {
    || Special(r)
    || ((sendfile || InMemory(r)) && !(needInMemory && !InMemory(r)) && !(needInTemp && r.readonly))
  }

  /** A buffer in memory is no longer taken from its file once sendfile is off. */
  function AfterAsIs(r: Buf, sendfile: bool): Buf {
    if !sendfile && InMemory(r) then r.(inFile := false) else r
  }

  /** The context of one output chain and of the filter behind it. */
  class Chain {
    const sendfile: bool
    const needInMemory: bool
    const needInTemp: bool
    const num: int
    const size: int
    var bufs: Bufs
    var inq: seq<Id>
    var buf: Id
    var free: seq<Id>
    var busy: seq<Id>
    var allotted: int
    var pend: seq<Id>
    var wire: seq<Byte>
    ghost var total: seq<Byte>
    ghost var given: seq<Id>    // what the filter was handed in the last call

    ghost function Idle(): seq<Id>
      reads this
    {
      if buf == NULL then free else [buf] + free
    }

    /** The state, with `p` in the hands of the filter and `o` handed over and not yet taken back. */
    ghost function View(p: seq<Id>, o: seq<Id>): State
      reads this
    {
      State(bufs, inq, p, o, Idle(), wire, total, Cfg())
    }

    /** The buffers of the chain are the ones it has allocated. */
    ghost predicate Numbered()
      reads this
    {
      0 <= allotted <= num && 0 < size && Numbers(bufs, allotted) == true
    }

    /** The fates of the caller's buffers, with `out` still to be handed over. */
    ghost predicate Followed(fates: Fates, out: seq<Id>)
      reads this
    {
      Fated(fates, inq, given + out) && Undecided(fates, bufs, inq, Cfg())
    }

    ghost function Cfg(): Config {
      Config(sendfile, needInMemory, needInTemp)
    }

    ghost predicate Holds(p: seq<Id>, o: seq<Id>)
      reads this
    {
      (Inv(View(p, o)) && Numbered()) == true
    }

    ghost predicate Valid()
      reads this
    {
      Holds(pend, busy) && buf == NULL
    }

    constructor (sendfile: bool, needInMemory: bool, needInTemp: bool, num: int, size: int)
      requires 0 <= num && 0 < size
      ensures Valid() && total == [] && wire == [] && bufs == map[] && inq == [] && pend == [] && busy == []
      ensures free == [] && given == []
      ensures this.num == num && this.size == size
    {
      this.sendfile, this.needInMemory, this.needInTemp, this.num, this.size :=
        sendfile, needInMemory, needInTemp, num, size;
      bufs, inq, buf, free, busy, allotted, pend, wire := map[], [], NULL, [], [], 0, [], [];
      total, given := [], [];
      new;
      assert Known(View(pend, busy)) && Apart(View(pend, busy)) && Owned(View(pend, busy));
      assert Conserved(View(pend, busy));
    }

    method AsIs(b: Id) returns (ok: bool)
      requires b in bufs
      modifies this`bufs
      ensures ok == PassesAsIs(old(bufs[b]), sendfile, needInMemory, needInTemp)
      ensures bufs == old(bufs)[b := if Special(old(bufs[b])) then old(bufs[b]) else AfterAsIs(old(bufs[b]), sendfile)]
    {
      if Special(bufs[b]) {
        return true;
      }
      if !sendfile {
        if !InMemory(bufs[b]) {
          return false;
        }
        bufs := bufs[b := bufs[b].(inFile := false)];
      }
      if needInMemory && !InMemory(bufs[b]) {
        return false;
      }
      if needInTemp && bufs[b].readonly {
        return false;
      }
      ok := true;
    }

    /** The filter has sent `k` bytes of its first buffer. */
    method Advance(k: nat, ghost o: seq<Id>)
      requires Holds(pend, o) && pend != [] && pend[0] in bufs && k <= |bufs[pend[0]].data|
      modifies this`bufs, this`pend, this`wire
      ensures Holds(pend, o) && Measure(bufs, inq) == old(Measure(bufs, inq))
      ensures old(Bytes(bufs, pend)) == old(bufs[pend[0]].data)[..k] + Bytes(bufs, pend)
      ensures wire == old(wire) + old(bufs[pend[0]].data)[..k]
      ensures pend == if k == old(|bufs[pend[0]].data|) then old(pend)[1..] else old(pend)
      ensures SameIn(old(bufs), bufs, inq)
    {
      var b := pend[0];
      var r := bufs[b];
      var bs := bufs[b := r.(data := r.data[k..], off := r.off + k)];
      var rest := if k == |r.data| then pend[1..] else pend;
      Advanced(View(pend, o), b, k, bs, rest);
      NumbersKept(bufs, bs, allotted);
      bufs, pend, wire := bs, rest, wire + r.data[..k];
    }

    /** ngx_chain_update_sent on what the filter holds. */
    method UpdateSent(sent: nat, ghost o: seq<Id>, ghost u: set<Id>)
      requires Holds(pend, o) && Callers(pend, u)
      modifies this`bufs, this`pend, this`wire
      ensures Holds(pend, o) && Measure(bufs, inq) == old(Measure(bufs, inq)) && SameIn(old(bufs), bufs, inq)
      ensures wire == old(wire) + Cut(old(Bytes(bufs, pend)), sent) && Callers(pend, u)
    {
      var left, stop := sent, false;
      ghost var gone: seq<Byte> := [];
      while pend != [] && !stop
        invariant Holds(pend, o) && Measure(bufs, inq) == old(Measure(bufs, inq)) && Callers(pend, u)
        invariant SameIn(old(bufs), bufs, inq)
        invariant 0 <= left <= sent && |gone| == sent - left && (stop ==> left == 0)
        invariant wire == old(wire) + gone && old(Bytes(bufs, pend)) == gone + Bytes(bufs, pend)
        decreases !stop, |pend|
      {
        ghost var piece: seq<Byte>;
        left, stop, piece := SendOne(left, o, u);
        GoneMore(old(wire), gone, piece, Bytes(bufs, pend));
        gone := gone + piece;
      }
    }

    /** One buffer of the filter: special ones are passed over, others advance by what was sent. */
    method SendOne(left: nat, ghost o: seq<Id>, ghost u: set<Id>)
        returns (left': nat, stop: bool, ghost piece: seq<Byte>)
      requires Holds(pend, o) && pend != [] && Callers(pend, u)
      modifies this`bufs, this`pend, this`wire
      ensures Holds(pend, o) && Measure(bufs, inq) == old(Measure(bufs, inq)) && Callers(pend, u)
      ensures SameIn(old(bufs), bufs, inq)
      ensures left' + |piece| == left && wire == old(wire) + piece
      ensures old(Bytes(bufs, pend)) == piece + Bytes(bufs, pend)
      ensures if stop then left' == 0 else |pend| < old(|pend|)
    {
      left', stop, piece := left, false, [];
      var b := pend[0];
      assert b in pend && Fits(View(pend, o), b);
      CallersTail(pend, u);
      var d := bufs[b].data;
      if Special(bufs[b]) {
        Advance(0, o);
        return;
      }
      if left == 0 {
        stop := true;
        return;
      }
      var k := if left >= |d| then |d| else left;
      Advance(k, o);
      left', stop, piece := left - k, k < |d|, d[..k];
    }

    /** The filter takes over `out`, sends any number of bytes and returns anything. */
    method OutputFilter(out: seq<Id>, ghost u: set<Id>) returns (rc: Rc)
      requires Holds(pend + out, busy + out) && Callers(pend, u) && Callers(out, u)
      modifies this`bufs, this`pend, this`wire, this`given
      ensures Holds(pend, busy + out) && Measure(bufs, inq) == old(Measure(bufs, inq))
      ensures old(wire) <= wire && rc != NONE && Callers(pend, u)
      ensures given == old(given) + out && SameIn(old(bufs), bufs, inq)
    {
      CallersAppend(pend, out, u);
      pend, given := pend + out, given + out;
      var sent: nat, answer: Rc := *, *;
      UpdateSent(sent, busy + out, u);
      rc := if answer == NONE then OK else answer;
    }

    /** ngx_chain_update_chains: sent buffers of the chain become free again, in order. */
    method UpdateChains(out: seq<Id>)
      requires Holds(pend, busy + out) && buf == NULL
      modifies this`bufs, this`busy, this`free
      ensures Valid() && Measure(bufs, inq) == old(Measure(bufs, inq))
      ensures busy == [] || (busy[0] < 0 && busy[0] in pend)
      ensures SameIn(old(bufs), bufs, inq)
    {
      busy := busy + out;
      while busy != []
        invariant Valid() && Measure(bufs, inq) == old(Measure(bufs, inq)) && SameIn(old(bufs), bufs, inq)
        decreases |busy|
      {
        var b := busy[0];
        assert b in busy;
        if !bufs[b].tagged {
          Forgotten(View(pend, busy), b);
          busy := busy[1..];
          continue;
        }
        assert Fits(View(pend, busy), b);
        if bufs[b].data != [] {
          break;
        }
        var bs := bufs[b := bufs[b].(off := 0)];
        Recycled(View(pend, busy), b, bs);
        NumbersKept(bufs, bs, allotted);
        bufs, busy, free := bs, busy[1..], [b] + free;
      }
    }

    /** ngx_output_chain_get_buf: a smaller or larger buffer for a last one, if that saves work. */
    method GetBuf(bsize: int, ghost p: seq<Id>, ghost o: seq<Id>)
      requires Holds(p, o) && buf == NULL && allotted < num && inq != [] && inq[0] in bufs && 0 < bsize
      modifies this`bufs, this`buf, this`allotted
      ensures Holds(p, o) && buf != NULL && allotted == old(allotted) + 1 && buf !in old(bufs)
      ensures buf in bufs && bufs == old(bufs)[buf := bufs[buf]] && Measure(bufs, inq) == old(Measure(bufs, inq))
      ensures bufs[buf] == Buf([], 0, bufs[buf].cap, true, true, false, false, false, false, false, false)
      ensures var exact := bufs[inq[0]].lastInChain && (bsize < size || (num == 1 && bsize < size + size / 4));
        bufs[buf].cap == if exact then bsize else size
    {
      var cap := size;
      if bufs[inq[0]].lastInChain {
        if bsize < size {
          cap := bsize;
        } else if num == 1 && bsize < size + size / 4 {
          cap := bsize;
        }
      }
      var b := -(allotted + 1);
      var r := Buf([], 0, cap, true, true, false, false, false, false, false, false);
      Grown(View(p, o), b, r);
      bufs, buf, allotted := bufs[b := r], b, allotted + 1;
    }

    /** ngx_output_chain_copy_buf: the bytes of a buffer in memory are copied, those of a file are read. */
    method CopyBuf(ghost p: seq<Id>, ghost o: seq<Id>) returns (rc: Rc, ghost k: nat)
      requires Holds(p, o) && buf != NULL && inq != [] && inq[0] in bufs && bufs[inq[0]].data != []
      modifies this`bufs
      ensures rc == OK ==> CopiedInto(old(bufs), bufs, inq[0], buf, k) && Numbered()
      ensures rc == OK ==> var src, dst := old(bufs)[inq[0]], old(bufs)[buf];
        && k == Min(|src.data|, dst.cap - dst.off)
        && bufs[buf] == Filled(src, dst, k, sendfile) && bufs[inq[0]] == Rest(src, k)
      ensures rc == OK ==> var src := old(bufs)[inq[0]]; bufs[inq[0]] == src.(data := src.data[k..], off := src.off + k)
      ensures rc == OK ==> Deliverable(bufs[buf], Cfg())
      ensures rc != OK ==> rc == ERROR && bufs == old(bufs) && !InMemory(bufs[inq[0]])
    {
      ghost var s := View(p, o);
      assert Idle()[0] == buf;
      Room(s, inq[0], buf);
      rc, k := Transfer();
    }

    /** The first bytes of the next incoming buffer go into the current one. */
    method Transfer() returns (rc: Rc, ghost k: nat)
      requires Numbered() && inq != [] && inq[0] in bufs && bufs[inq[0]].data != [] && Sane(bufs[inq[0]])
      requires buf in bufs && buf != inq[0] && Roomy(bufs[buf]) && !bufs[inq[0]].tagged
      modifies this`bufs
      ensures rc == OK ==> CopiedInto(old(bufs), bufs, inq[0], buf, k) && Numbered()
      ensures rc == OK ==> var src, dst := old(bufs)[inq[0]], old(bufs)[buf];
        && k == Min(|src.data|, dst.cap - dst.off)
        && bufs[buf] == Filled(src, dst, k, sendfile) && bufs[inq[0]] == Rest(src, k)
      ensures rc == OK ==> Deliverable(bufs[buf], Cfg())
      ensures rc != OK ==> rc == ERROR && bufs == old(bufs) && !InMemory(bufs[inq[0]])
    {
      var b := inq[0];
      var dst, n;
      rc, dst, n := CopyBytes(bufs[b], bufs[buf]);
      k := n;
      if rc == OK {
        TransferStep(bufs, b, buf, n, Cfg(), allotted);
        bufs := bufs[b := Rest(bufs[b], n)][buf := dst];
      }
    }

    /** As many bytes as there are and fit go from one buffer to the other. */
    method CopyBytes(src0: Buf, dst0: Buf) returns (rc: Rc, dst: Buf, k: nat)
      requires src0.data != [] && Roomy(dst0)
      ensures rc == OK ==> 0 < k == Min(|src0.data|, dst0.cap - dst0.off)
      ensures rc == OK ==> dst == Filled(src0, dst0, k, sendfile)
      ensures rc != OK ==> rc == ERROR && !InMemory(src0)
    {
      var n := Min(|src0.data|, dst0.cap - dst0.off);
      k := n;
      var failed: bool := *;
      if !InMemory(src0) && failed {
        return ERROR, dst0, k;
      }
      var flush, lastBuf, lastInChain := dst0.flush, dst0.lastBuf, dst0.lastInChain;
      if n == |src0.data| {
        flush, lastBuf, lastInChain := src0.flush, src0.lastBuf, src0.lastInChain;
      }
      dst := dst0.(data := src0.data[..n], inFile := sendfile && src0.inFile,
                   flush := flush, lastBuf := lastBuf, lastInChain := lastInChain);
      rc := OK;
    }

    /** ngx_output_chain_as_is on the next incoming buffer. */
    method Examine(b: Id, ghost p: seq<Id>, ghost o: seq<Id>) returns (ok: bool)
      requires Holds(p, o) && inq != [] && b == inq[0] && b in bufs
      modifies this`bufs
      ensures Holds(p, o) && Measure(bufs, inq) == old(Measure(bufs, inq)) && bufs.Keys == old(bufs.Keys)
      ensures bufs[b].data == old(bufs[b].data) && Special(bufs[b]) == Special(old(bufs[b]))
      ensures Special(bufs[b]) ==> ok
      ensures ok <==> MayPass(old(bufs)[b], sendfile, needInMemory, needInTemp)
      ensures ok ==> Deliverable(bufs[b], Cfg())
      ensures bufs == old(bufs) || (InMemory(old(bufs)[b]) && bufs == old(bufs)[b := old(bufs)[b].(inFile := false)])
    {
      if InMemory(bufs[b]) {
        Unfiled(View(p, o), b);
      }
      ghost var bs := bufs;
      NumbersKept(bs, bs[b := bs[b].(inFile := false)], allotted);
      ok := AsIs(b);
      assert bufs == bs || bufs == bs[b := bs[b].(inFile := false)];
    }

    /** A free buffer is taken or a new one is made, unless the output so far should be sent first. */
    method Acquire(out: seq<Id>, bsize: int)
      requires Holds(pend + out, busy + out) && buf == NULL && inq != [] && inq[0] in bufs && 0 < bsize
      modifies this`bufs, this`buf, this`free, this`allotted
      ensures Holds(pend + out, busy + out) && Measure(bufs, inq) == old(Measure(bufs, inq))
      ensures inq[0] in bufs && bufs[inq[0]] == old(bufs[inq[0]]) && SameIn(old(bufs), bufs, inq)
      ensures buf == NULL ==> free == [] && (out != [] || allotted == num)
    {
      if free != [] {
        assert [free[0]] + free[1..] == free && free[0] in free;
        buf, free := free[0], free[1..];
      } else if !(out != [] || allotted == num) {
        GetBuf(bsize, pend + out, busy + out);
      }
    }

    /** The filled buffer leaves for the output, and the incoming one goes when it is exhausted. */
    method HandOver(out: seq<Id>, ghost bs: Bufs, ghost k: nat, ghost fates: Fates) returns (out': seq<Id>)
      requires Inv(State(bs, inq, pend + out, busy + out, Idle(), wire, total, Cfg())) && Numbered()
      requires buf != NULL && inq != [] && CopiedInto(bs, bufs, inq[0], buf, k)
      requires Deliverable(bufs[buf], Cfg())
      requires Fated(fates, inq, given + out) && Undecided(fates, bs, inq, Cfg())
      requires bufs[inq[0]] == Rest(bs[inq[0]], k) && !MayPass(bs[inq[0]], sendfile, needInMemory, needInTemp)
      modifies this`inq, this`buf
      ensures Followed(fates, out')
      ensures Holds(pend + out', busy + out') && buf == NULL && out' == out + [old(buf)] && old(buf) < 0
      ensures Measure(bufs, inq) < Measure(bs, old(inq)) && (inq == old(inq) || inq == old(inq)[1..])
    {
      ghost var s := State(bs, inq, pend + out, busy + out, Idle(), wire, total, Cfg());
      assert s.idle[1..] == free;
      Copied(s, inq[0], buf, k, bufs);
      out' := out + [buf];
      Longer(pend, out, buf);
      Longer(busy, out, buf);
      Longer(given, out, buf);
      FatesRest(fates, s, bufs, buf, k);
      FatesCopied(fates, inq, given + out, buf);
      if bufs[inq[0]].data == [] {
        FatesDropped(fates, bufs, inq, given + out', Cfg());
        Dropped(s.(bufs := bufs, idle := free, pend := pend + out', busy := busy + out'), inq[0]);
        inq := inq[1..];
      }
      buf := NULL;
    }

    /** The next bytes are copied into the current buffer, which leaves for the output. */
    method CopyNext(out: seq<Id>, ghost u: set<Id>, ghost fates: Fates) returns (out': seq<Id>, failed: bool)
      requires Callers(inq, u) && Callers(out, u) && Followed(fates, out)
      requires Holds(pend + out, busy + out) && buf != NULL && inq != [] && inq[0] in bufs && bufs[inq[0]].data != []
      requires !MayPass(bufs[inq[0]], sendfile, needInMemory, needInTemp)
      modifies this`bufs, this`inq, this`buf
      ensures Followed(fates, out')
      ensures Holds(pend + out', busy + out')
      ensures if failed then out' == out && Measure(bufs, inq) == old(Measure(bufs, inq))
              else buf == NULL && Measure(bufs, inq) < old(Measure(bufs, inq))
      ensures Callers(inq, u) && Callers(out', u)
    {
      CallersTail(inq, u);
      ghost var bs := bufs;
      var rc, k := CopyBuf(pend + out, busy + out);
      out', failed := out, rc == ERROR;
      if !failed {
        out' := HandOver(out, bs, k, fates);
      }
    }

    /** The inner loop: buffers are passed on or copied while there are free buffers to copy into. */
    method Fill(ghost u: set<Id>, ghost fates: Fates) returns (out: seq<Id>, failed: bool)
      requires Valid() && Callers(inq, u) && Followed(fates, [])
      modifies this`bufs, this`inq, this`buf, this`free, this`allotted
      ensures Holds(pend + out, busy + out)
      ensures Measure(bufs, inq) <= old(Measure(bufs, inq))
      ensures out != [] ==> Measure(bufs, inq) < old(Measure(bufs, inq))
      ensures !failed ==> buf == NULL
      ensures !failed && inq != [] && out == [] ==> free == [] && allotted == num
      ensures Callers(inq, u) && Callers(out, u) && Followed(fates, out)
    {
      out, failed := [], false;
      assert pend + out == pend && busy + out == busy;
      var stop := false;
      while inq != [] && !stop
        invariant Holds(pend + out, busy + out) && (!failed ==> buf == NULL) && Callers(inq, u) && Callers(out, u)
        invariant Measure(bufs, inq) <= old(Measure(bufs, inq))
        invariant out != [] ==> Measure(bufs, inq) < old(Measure(bufs, inq))
        invariant stop && !failed && out == [] ==> free == [] && allotted == num
        invariant (failed ==> stop) && Followed(fates, out)
        decreases !stop, Measure(bufs, inq)
      {
        out, stop, failed := Take(out, u, fates);
      }
    }

    /** The next incoming buffer is dropped, passed on, or copied as far as it fits. */
    method Take(out: seq<Id>, ghost u: set<Id>, ghost fates: Fates) returns (out': seq<Id>, stop: bool, failed: bool)
      requires Followed(fates, out)
      requires Holds(pend + out, busy + out) && buf == NULL && inq != [] && Callers(inq, u) && Callers(out, u)
      modifies this`bufs, this`inq, this`buf, this`free, this`allotted
      ensures Holds(pend + out', busy + out') && (!failed ==> buf == NULL) && Callers(inq, u) && Callers(out', u)
      ensures if stop then out' == out && Measure(bufs, inq) <= old(Measure(bufs, inq))
        else Measure(bufs, inq) < old(Measure(bufs, inq))
      ensures stop && !failed && out' == [] ==> free == [] && allotted == num
      ensures (failed ==> stop) && Followed(fates, out')
    {
      out', stop, failed := out, false, false;
      var b := inq[0];
      assert b in inq;
      CallersTail(inq, u);
      var bsize := |bufs[b].data|;
      if bsize == 0 && !Special(bufs[b]) {
        Drop(out, fates);
        return;
      }
      var asIs := Judge(b, out, fates);
      if asIs {
        out' := PassOn(out, fates);
        return;
      }
      ghost var bs := bufs;
      Acquire(out, bsize);
      FatesFrame(fates, bs, bufs, inq, Cfg());
      if buf == NULL {
        stop := true;
        return;
      }
      out', failed := CopyNext(out, u, fates);
      stop := failed;
    }

    /** An incoming buffer without bytes is dropped. */
    method Drop(out: seq<Id>, ghost fates: Fates)
      requires Holds(pend + out, busy + out) && inq != [] && inq[0] in bufs && Followed(fates, out)
      requires bufs[inq[0]].data == [] && !Special(bufs[inq[0]])
      modifies this`inq
      ensures Holds(pend + out, busy + out) && Followed(fates, out)
      ensures inq == old(inq)[1..] && Measure(bufs, inq) < old(Measure(bufs, inq))
    {
      HeldDistinct(View(pend + out, busy + out));
      Dropped(View(pend + out, busy + out), inq[0]);
      FatesTail(fates, bufs, inq, Cfg());
      FatesDropped(fates, bufs, inq, given + out, Cfg());
      inq := inq[1..];
    }

    /** `Examine`, and that it decides the fate of the buffer. */
    method Judge(b: Id, out: seq<Id>, ghost fates: Fates) returns (ok: bool)
      requires Holds(pend + out, busy + out) && inq != [] && b == inq[0] && b in bufs && Followed(fates, out)
      modifies this`bufs
      ensures Holds(pend + out, busy + out) && Measure(bufs, inq) == old(Measure(bufs, inq)) && Followed(fates, out)
      ensures b in bufs && bufs[b].data == old(bufs[b].data) && Special(bufs[b]) == Special(old(bufs[b]))
      ensures (Special(bufs[b]) ==> ok) && (ok ==> Deliverable(bufs[b], Cfg()))
      ensures ok <==> MayPass(bufs[b], sendfile, needInMemory, needInTemp)
    {
      FatesUnfiled(fates, bufs, inq, b, Cfg());
      ok := Examine(b, pend + out, busy + out);
    }

    /** An incoming link moves to the output as it is. */
    method PassOn(out: seq<Id>, ghost fates: Fates) returns (out': seq<Id>)
      requires Followed(fates, out)
      requires Holds(pend + out, busy + out) && inq != [] && inq[0] in bufs
      requires Special(bufs[inq[0]]) || bufs[inq[0]].data != []
      requires Deliverable(bufs[inq[0]], Cfg())
      modifies this`inq
      ensures Holds(pend + out', busy + out') && out' == out + [old(inq)[0]] && inq == old(inq)[1..]
      ensures Followed(fates, out')
      ensures Measure(bufs, inq) < old(Measure(bufs, inq))
    {
      var b := inq[0];
      HeldDistinct(View(pend + out, busy + out));
      FatesPassed(fates, bufs, inq, given + out, Cfg());
      Longer(given, out, b);
      Passed(View(pend + out, busy + out), b);
      out' := out + [b];
      Longer(pend, out, b);
      Longer(busy, out, b);
      inq := inq[1..];
    }

    /** All that the filter has been given so far. */
    ghost function Handed(): seq<Byte>
      reads this
    {
      wire + Bytes(bufs, pend)
    }

    lemma ShowStalled()
      requires Valid() && free == [] && allotted == num && (busy != [] ==> busy[0] < 0 && busy[0] in pend)
      ensures Stalled()
    {
      if num > 0 {
        assert -1 in bufs && Fits(View(pend, busy), -1);
        assert Fits(View(pend, busy), busy[0]);
      }
    }

    /** Nothing can be copied: every buffer of the chain is in use, and the first of them waits to be sent. */
    ghost predicate Stalled()
      reads this
    {
      && free == [] && allotted == num
      && (num > 0 ==>
        busy != [] && busy[0] in bufs && bufs[busy[0]].tagged && bufs[busy[0]].data != [] && busy[0] in pend)
    }

    /**
      What a call leaves behind: the filter was handed a prefix of all the bytes; all
      but those still queued unless the call failed; and bytes stay queued only when
      nothing can be copied.
     */
    ghost predicate Outcome(rc: Rc)
      reads this
    {
      && rc != NONE && Handed() <= total && Delivered(bufs, pend, Cfg()) == true
      && (rc != ERROR ==> Handed() + Bytes(bufs, inq) == total)
      && (rc == OK || rc == AGAIN ==> Valid() && (inq != [] ==> rc == AGAIN && Stalled()))
    }

    /** One round: fill the output, give it to the filter and take back what has been sent. */
    method Round(last: Rc, ghost u: set<Id>, ghost fates: Fates) returns (done: bool, rc: Rc)
      requires Followed(fates, [])
      requires Callers(inq, u) && Callers(pend, u)
      requires Valid() && last != ERROR && last != DONE
      requires last != NONE && busy != [] ==> busy[0] < 0 && busy[0] in pend
      modifies this`bufs, this`inq, this`buf, this`free, this`allotted, this`busy, this`pend, this`wire, this`given
      ensures done ==> Outcome(rc)
      ensures !(done && rc == ERROR) ==> Followed(fates, [])
      ensures !done ==> Valid() && (rc == OK || rc == AGAIN) && (busy != [] ==> busy[0] < 0 && busy[0] in pend)
      ensures !done ==> last == NONE || Measure(bufs, inq) < old(Measure(bufs, inq))
      ensures old(wire) <= wire && Callers(inq, u) && Callers(pend, u)
    {
      var out, failed := Fill(u, fates);
      if failed {
        HandedPrefix(View(pend + out, busy + out), pend, out);
        return true, ERROR;
      }
      if out == [] && last != NONE {
        assert pend + out == pend && busy + out == busy;
        HandedAll(View(pend, busy));
        if inq != [] {
          ShowStalled();
        }
        return true, if inq != [] then AGAIN else last;
      }
      done, rc := Deliver(out, u, fates);
    }

    /** The output is given to the filter, and what has been sent is taken back. */
    method Deliver(out: seq<Id>, ghost u: set<Id>, ghost fates: Fates) returns (done: bool, rc: Rc)
      requires Followed(fates, out)
      requires Holds(pend + out, busy + out) && buf == NULL && Callers(inq, u) && Callers(pend, u) && Callers(out, u)
      modifies this`bufs, this`free, this`busy, this`pend, this`wire, this`given
      ensures (done ==> Outcome(rc)) && Followed(fates, [])
      ensures !done ==> Valid() && (rc == OK || rc == AGAIN) && (busy != [] ==> busy[0] < 0 && busy[0] in pend)
      ensures Measure(bufs, inq) == old(Measure(bufs, inq)) && old(wire) <= wire && Callers(pend, u)
    {
      rc := Send(out, u, fates);
      done := rc == ERROR || rc == DONE;
      if !done {
        ghost var bs := bufs;
        UpdateChains(out);
        FatesFrame(fates, bs, bufs, inq, Cfg());
      }
    }

    /** The filter is called. */
    method Send(out: seq<Id>, ghost u: set<Id>, ghost fates: Fates) returns (rc: Rc)
      requires Followed(fates, out)
      requires Holds(pend + out, busy + out) && Callers(pend, u) && Callers(out, u)
      modifies this`bufs, this`pend, this`wire, this`given
      ensures Holds(pend, busy + out) && Measure(bufs, inq) == old(Measure(bufs, inq)) && Followed(fates, [])
      ensures old(wire) <= wire && rc != NONE && Callers(pend, u) && (rc == ERROR || rc == DONE ==> Outcome(rc))
    {
      ghost var bs, gone := bufs, given + out;
      rc := OutputFilter(out, u);
      HandedAll(View(pend, busy + out));
      FatesFrame(fates, bs, bufs, inq, Cfg());
      assert given + [] == gone;
    }

    /** The loop of ngx_output_chain. */
    method Run(ghost u: set<Id>, ghost fates: Fates) returns (rc: Rc)
      requires Valid() && Callers(inq, u) && Callers(pend, u) && Followed(fates, [])
      modifies this`bufs, this`inq, this`buf, this`free, this`allotted, this`busy, this`pend, this`wire, this`given
      ensures Outcome(rc) && old(wire) <= wire && Callers(inq, u) && Callers(pend, u)
      ensures rc != ERROR ==> Followed(fates, [])
    {
      var done, last := false, NONE;
      while !done
        invariant if done then Outcome(last) else Valid() && last != ERROR && last != DONE
        invariant !done && last != NONE && busy != [] ==> busy[0] < 0 && busy[0] in pend
        invariant old(wire) <= wire && Callers(inq, u) && Callers(pend, u)
        invariant !(done && last == ERROR) ==> Followed(fates, [])
        decreases !done, last == NONE, Measure(bufs, inq)
      {
        done, last := Round(last, u, fates);
      }
      rc := last;
    }

    /** The filter is called with at most one buffer of the caller, which is not remembered. */
    method Direct(out: seq<Id>, ghost u: set<Id>) returns (rc: Rc)
      requires Callers(pend, u) && Callers(out, u)
      requires Holds(pend + out, busy + out) && inq == [] && busy == [] && buf == NULL
      requires out == [] || (|out| == 1 && 0 < out[0])
      modifies this`bufs, this`pend, this`wire, this`given
      ensures Outcome(rc) && old(wire) <= wire && Callers(pend, u) && given == old(given) + out
    {
      rc := OutputFilter(out, u);
      HandedAll(View(pend, busy + out));
      if out != [] {
        Forgotten(View(pend, busy + out), out[0]);
        assert (busy + out)[1..] == busy;
      } else {
        assert busy + out == busy;
      }
    }

    /** The only buffer is taken if it needs no copy; an empty one is dropped. */
    method Single(ghost u: set<Id>, ghost fates: Fates) returns (asIs: bool, out: seq<Id>)
      requires Followed(fates, [])
      requires Callers(inq, u) && Valid() && busy == [] && |inq| == 1 && 0 < inq[0]
      modifies this`bufs, this`inq
      ensures if asIs then Holds(pend + out, busy + out) && inq == [] else Valid() && inq == old(inq)
      ensures (out == [] || out == [old(inq)[0]]) && Callers(out, u) && Followed(fates, out)
    {
      out := [];
      var b := inq[0];
      assert b in inq && pend + out == pend && busy + out == busy;
      asIs := Judge(b, out, fates);
      if asIs {
        if bufs[b].data == [] && !Special(bufs[b]) {
          Drop(out, fates);
        } else {
          out := PassOn(out, fates);
        }
      }
    }

    /** The short path: the only buffer, if it needs no copy, goes to the filter; the filter ignores an empty one. */
    method Shortcut(ghost u: set<Id>, ghost fates: Fates) returns (done: bool, rc: Rc)
      requires Callers(inq, u) && Callers(pend, u) && Followed(fates, [])
      requires Valid() && busy == [] && |inq| <= 1 && (inq != [] ==> 0 < inq[0])
      modifies this`bufs, this`inq, this`pend, this`wire, this`given
      ensures if done then Outcome(rc) else Valid()
      ensures Followed(fates, [])
      ensures old(wire) <= wire && Callers(inq, u) && Callers(pend, u)
    {
      var out: seq<Id> := [];
      assert pend + out == pend && busy + out == busy;
      if inq != [] {
        var asIs;
        asIs, out := Single(u, fates);
        if !asIs {
          return false, NONE;
        }
      }
      done := true;
      ghost var gone := given + out;
      rc := Direct(out, u);
      assert given + [] == gone;
      FatesNone(fates, bufs, Cfg());
    }

    /**
      ngx_output_chain: `add` are the incoming buffers and `news` what they hold.  A
      single buffer that needs no copy goes straight to the filter when nothing else
      is under way.
     */
    method OutputChain(add: seq<Id>, news: Bufs) returns (rc: Rc)
      requires Valid() && Incoming(View(pend, busy), add, news)
      requires forall b :: b in news ==> 0 < b && b in add
      modifies this`bufs, this`inq, this`buf, this`free, this`allotted, this`busy, this`pend, this`wire, this`total,
        this`given
      ensures total == old(total) + Bytes(news, add) && old(wire) <= wire
      ensures Outcome(rc)
      ensures Callers(inq, InFlight(old(inq), old(pend), add)) && Callers(pend, InFlight(old(inq), old(pend), add))
      ensures Delivered(bufs, pend, Cfg())
      ensures rc != ERROR ==> HandedThemselves(old(bufs) + news, old(inq) + add, Cfg(), inq, given)
    {
      ghost var u := InFlight(inq, pend, add);
      InFlightAll(inq, pend, add);
      var nothing := inq == [] && busy == [];
      given := [];
      Accept(add, news);
      ghost var bs, inq0 := bufs, inq;
      ghost var fates := FatesOf(bufs, inq, Cfg());
      QueueKnown(View(pend, busy));
      FatesStart(bufs, inq, Cfg());
      assert given + [] == [];
      rc := Process(nothing, u, fates);
      assert given + [] == given;
      if rc != ERROR {
        FatesMean(bs, inq0, Cfg(), inq, given);
      }
    }

    /** The short path or the loop. */
    method Process(nothing: bool, ghost u: set<Id>, ghost fates: Fates) returns (rc: Rc)
      requires Valid() && Callers(inq, u) && Callers(pend, u) && Followed(fates, [])
      requires nothing ==> busy == [] && (inq != [] ==> 0 < inq[0])
      modifies this`bufs, this`inq, this`buf, this`free, this`allotted, this`busy, this`pend, this`wire, this`given
      ensures Outcome(rc) && old(wire) <= wire && Callers(inq, u) && Callers(pend, u)
      ensures rc != ERROR ==> Followed(fates, [])
    {
      if nothing && |inq| <= 1 {
        var done;
        done, rc := Shortcut(u, fates);
        if done {
          return;
        }
      }
      rc := Run(u, fates);
    }

    /** ngx_output_chain_add_copy: the incoming buffers are appended to the queue. */
    method Accept(add: seq<Id>, news: Bufs)
      requires Valid() && Incoming(View(pend, busy), add, news)
      requires forall b :: b in news ==> 0 < b && b in add
      modifies this`bufs, this`inq, this`total
      ensures Valid() && inq == old(inq) + add && total == old(total) + Bytes(news, add) && bufs == old(bufs) + news
      ensures old(inq) == [] && add != [] ==> 0 < inq[0]
    {
      Queued(View(pend, busy), add, news);
      total := total + Bytes(news, add);
      bufs := bufs + news;
      inq := inq + add;
      assert Numbered();
      assert add != [] ==> add[0] in add;
    }
  }

  lemma InFlightAll(inq: seq<Id>, pend: seq<Id>, add: seq<Id>)
    ensures Callers(inq + add, InFlight(inq, pend, add)) && Callers(pend, InFlight(inq, pend, add))
  {
    var u := InFlight(inq, pend, add);
    forall b | b in inq + add || b in pend ensures b in u {
      assert b in inq + pend + add;
    }
  }

  /** Calls follow each other: buffers that are not on their way can be passed in. */
  method TwoCalls(first: Buf, second: Buf) returns (c: Chain, rc: Rc)
    requires !first.tagged && !second.tagged && Sane(first) && Sane(second)
    ensures c.wire + Bytes(c.bufs, c.pend) <= c.total
    ensures rc == OK ==> c.wire + Bytes(c.bufs, c.pend) == first.data + second.data
  {
    c := new Chain(false, false, false, 2, 1024);
    OneBuf(1, first);
    OneBuf(2, second);
    rc := c.OutputChain([1], map[1 := first]);
    if rc == OK {
      assert c.total == first.data;
      rc := c.OutputChain([2], map[2 := second]);
    }
  }

  lemma OneBuf(b: Id, r: Buf)
    ensures Bytes(map[b := r], [b]) == r.data && Distinct([b])
  {
    assert Bytes(map[b := r], []) == [];
  }
}
