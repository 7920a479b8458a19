/**
  The pool allocator: small regions are cut from blocks, large ones come straight
  from the system, and everything is given back together.  Addresses are numbers;
  what the system allocator returns is a parameter, and it never fails.
 */
module Pool {

  type Addr = int

  const NULL: Addr := 0

  /** The sizes of ngx_pool_t, ngx_pool_data_t and ngx_pool_large_t. */
  const POOL: int := 80
  const DATA: int := 32
  const LARGE: int := 16

  /** A block: `hdr` is the size of its header, `last` where its free part starts. */
  datatype Block = Block(hdr: int, last: Addr, end: Addr, failed: nat)

  /** An element of the list of large allocations. */
  datatype Large = Large(alloc: Addr)

  /** A small region that was handed out, and the block it lies in. */
  datatype Region = Region(home: Addr, start: Addr, size: int)

  /** `mallocs` are the system allocations that have not been freed, and their sizes. */
  datatype State = State(blocks: map<Addr, Block>, large: seq<Large>, small: seq<Region>,
                         mallocs: map<Addr, int>, psize: int)

  predicate Disjoint(a: Addr, n: int, b: Addr, m: int) {
    n == 0 || m == 0 || a + n <= b || b + m <= a
  }

  predicate Apart(r: Region, q: Region) {
    Disjoint(r.start, r.size, q.start, q.size)
  }

  // ----- the invariant

  ghost predicate MallocsOk(s: State) {
    && (forall a :: a in s.mallocs ==> 0 < a && 0 < s.mallocs[a])
    && (forall a, b :: a in s.mallocs && b in s.mallocs && a != b ==> Disjoint(a, s.mallocs[a], b, s.mallocs[b]))
  }

  ghost predicate BlockOk(s: State, b: Addr)
    requires b in s.blocks
  {
    var k := s.blocks[b];
    && b in s.mallocs && s.mallocs[b] == s.psize && k.end == b + s.psize
    && DATA <= k.hdr <= POOL && b + k.hdr <= k.last <= k.end
    && k.end % 8 == 0
  }

  ghost predicate LargeOk(s: State, i: nat)
    requires i < |s.large|
  {
    s.large[i].alloc != NULL ==> s.large[i].alloc in s.mallocs && s.large[i].alloc !in s.blocks
  }

  /** A small region lies in its block, past the header. */
  ghost predicate SmallOk(s: State, r: Region) {
    && r.home in s.blocks && 0 <= r.size
    && r.home + s.blocks[r.home].hdr <= r.start && r.start + r.size <= s.blocks[r.home].last
  }

  ghost predicate Listed(s: State, a: Addr) {
    exists i :: 0 <= i < |s.large| && s.large[i].alloc == a
  }

  ghost predicate Ok(s: State) {
    && MallocsOk(s) && POOL + 2 * LARGE <= s.psize
    && (forall b :: b in s.blocks ==> BlockOk(s, b))
    && (forall i :: 0 <= i < |s.large| ==> LargeOk(s, i))
    && (forall i, j :: 0 <= i < j < |s.large| && s.large[i].alloc == s.large[j].alloc ==> s.large[i].alloc == NULL)
    && (forall a :: a in s.mallocs ==> a in s.blocks || Listed(s, a))
    && (forall k :: 0 <= k < |s.small| ==> SmallOk(s, s.small[k]))
    && (forall k, l :: 0 <= k < l < |s.small| ==> Apart(s.small[k], s.small[l]))
  }

  ghost predicate Inv(s: State) {
    Ok(s) == true
  }

  /** Memory that the system may return: it overlaps nothing that is in use. */
  ghost predicate Fresh(s: State, a: Addr, n: int) {
    0 < a && 0 < n && forall b :: b in s.mallocs ==> Disjoint(a, n, b, s.mallocs[b])
  }

  lemma FreshNew(s: State, a: Addr, n: int)
    requires Fresh(s, a, n) && MallocsOk(s)
    ensures a !in s.mallocs
  {
  }

  // ----- what each step keeps

  /** A region is cut from the free part of a block. */
  lemma CutKeeps(s: State, b: Addr, m: Addr, size: int, s': State)
    requires Inv(s) && b in s.blocks && s.blocks[b].last <= m && 0 <= size && m + size <= s.blocks[b].end
    requires s' == s.(blocks := s.blocks[b := s.blocks[b].(last := m + size)], small := s.small + [Region(b, m, size)])
    ensures Inv(s') && forall k :: 0 <= k < |s.small| ==> Apart(s.small[k], Region(b, m, size))
  {
    var r := Region(b, m, size);
    forall k | 0 <= k < |s.small| ensures Apart(s.small[k], r) && SmallOk(s', s.small[k]) {
      var q := s.small[k];
      assert SmallOk(s, q) && BlockOk(s, q.home) && BlockOk(s, b);
      if q.home != b {
        assert Disjoint(q.home, s.psize, b, s.psize);
      }
    }
    assert BlockOk(s, b);
    forall c | c in s'.blocks ensures BlockOk(s', c) { assert BlockOk(s, c); }
    forall i | 0 <= i < |s'.large| ensures LargeOk(s', i) { assert LargeOk(s, i); }
    forall a | a in s'.mallocs ensures a in s'.blocks || Listed(s', a) { assert a in s.blocks || Listed(s, a); }
    assert Ok(s');
  }

  /** A new block joins, still without regions. */
  lemma BlockKeeps(s: State, b: Addr, k: Block, s': State)
    requires Inv(s) && Fresh(s, b, s.psize) && k.end == b + s.psize && k.end % 8 == 0
    requires DATA <= k.hdr <= POOL && k.last == b + k.hdr
    requires s' == s.(blocks := s.blocks[b := k], mallocs := s.mallocs[b := s.psize])
    ensures Inv(s')
  {
    FreshNew(s, b, s.psize);
    forall c | c in s'.blocks ensures BlockOk(s', c) {
      if c != b { assert BlockOk(s, c); }
    }
    forall i | 0 <= i < |s'.large| ensures LargeOk(s', i) { assert LargeOk(s, i); }
    forall a | a in s'.mallocs ensures a in s'.blocks || Listed(s', a) {
      if a != b { assert a in s.blocks || Listed(s, a); }
    }
    forall i | 0 <= i < |s.small| ensures SmallOk(s', s.small[i]) {
      assert SmallOk(s, s.small[i]) && BlockOk(s, s.small[i].home);
    }
    assert MallocsOk(s');
    assert Ok(s');
  }

  /** Only the count of failures of a block changes. */
  lemma FailedKeeps(s: State, b: Addr, f: nat, s': State)
    requires Inv(s) && b in s.blocks && s' == s.(blocks := s.blocks[b := s.blocks[b].(failed := f)])
    ensures Inv(s')
  {
    forall c | c in s'.blocks ensures BlockOk(s', c) { assert BlockOk(s, c); }
    forall i | 0 <= i < |s'.large| ensures LargeOk(s', i) { assert LargeOk(s, i); }
    forall a | a in s'.mallocs ensures a in s'.blocks || Listed(s', a) { assert a in s.blocks || Listed(s, a); }
    forall i | 0 <= i < |s.small| ensures SmallOk(s', s.small[i]) { assert SmallOk(s, s.small[i]); }
    assert Ok(s');
  }

  /** A large allocation is put into an empty element of the list. */
  lemma ReuseKeeps(s: State, i: nat, a: Addr, n: int, s': State)
    requires Inv(s) && i < |s.large| && s.large[i].alloc == NULL && Fresh(s, a, n)
    requires s' == s.(large := s.large[i := Large(a)], mallocs := s.mallocs[a := n])
    ensures Inv(s')
  {
    FreshNew(s, a, n);
    forall c | c in s'.blocks ensures BlockOk(s', c) { assert BlockOk(s, c); }
    forall j | 0 <= j < |s'.large| ensures LargeOk(s', j) && (j != i ==> s'.large[j].alloc != a) {
      assert LargeOk(s, j);
    }
    forall x | x in s'.mallocs ensures x in s'.blocks || Listed(s', x) {
      if x == a {
        assert s'.large[i].alloc == x;
      } else if x !in s.blocks {
        var j :| 0 <= j < |s.large| && s.large[j].alloc == x;
        assert s'.large[j].alloc == x;
      }
    }
    forall k | 0 <= k < |s.small| ensures SmallOk(s', s.small[k]) { assert SmallOk(s, s.small[k]); }
    assert MallocsOk(s');
    assert Ok(s');
  }

  /** The list gets a new, empty element at its head. */
  lemma ConsKeeps(s: State, s': State)
    requires Inv(s) && s' == s.(large := [Large(NULL)] + s.large)
    ensures Inv(s')
  {
    forall c | c in s'.blocks ensures BlockOk(s', c) { assert BlockOk(s, c); }
    forall j | 0 <= j < |s'.large| ensures LargeOk(s', j) {
      if j > 0 { assert LargeOk(s, j - 1); }
    }
    forall x | x in s'.mallocs ensures x in s'.blocks || Listed(s', x) {
      if x !in s.blocks {
        var j :| 0 <= j < |s.large| && s.large[j].alloc == x;
        assert s'.large[j + 1].alloc == x;
      }
    }
    forall k | 0 <= k < |s.small| ensures SmallOk(s', s.small[k]) { assert SmallOk(s, s.small[k]); }
    assert Ok(s');
  }

  /** A large allocation is freed. */
  lemma FreeKeeps(s: State, i: nat, s': State)
    requires Inv(s) && i < |s.large| && s.large[i].alloc != NULL
    requires s' == s.(large := s.large[i := Large(NULL)], mallocs := s.mallocs - {s.large[i].alloc})
    ensures Inv(s') && s.large[i].alloc in s.mallocs
  {
    var a := s.large[i].alloc;
    assert LargeOk(s, i);
    forall c | c in s'.blocks ensures BlockOk(s', c) { assert BlockOk(s, c); }
    forall j | 0 <= j < |s'.large| ensures LargeOk(s', j) { assert LargeOk(s, j); }
    forall x | x in s'.mallocs ensures x in s'.blocks || Listed(s', x) {
      if x !in s.blocks {
        var j :| 0 <= j < |s.large| && s.large[j].alloc == x;
        assert s'.large[j].alloc == x;
      }
    }
    forall k | 0 <= k < |s.small| ensures SmallOk(s', s.small[k]) { assert SmallOk(s, s.small[k]); }
    assert Ok(s');
  }

  /** Everything that was handed out is apart: small regions from each other and from large ones, and large ones too. */
  lemma AllApart(s: State, k: nat, i: nat, j: nat)
    requires Inv(s) && k < |s.small| && i < |s.large| && j < |s.large| && i != j
    requires s.large[i].alloc != NULL && s.large[j].alloc != NULL
    ensures forall l :: 0 <= l < |s.small| && l != k ==> Apart(s.small[k], s.small[l])
    ensures s.large[i].alloc in s.mallocs && s.large[j].alloc in s.mallocs
    ensures Disjoint(s.small[k].start, s.small[k].size, s.large[i].alloc, s.mallocs[s.large[i].alloc])
    ensures Disjoint(s.large[i].alloc, s.mallocs[s.large[i].alloc], s.large[j].alloc, s.mallocs[s.large[j].alloc])
  {
    assert LargeOk(s, i) && LargeOk(s, j) && SmallOk(s, s.small[k]) && BlockOk(s, s.small[k].home);
    forall l | 0 <= l < |s.small| && l != k ensures Apart(s.small[k], s.small[l]) {
      assert if l < k then Apart(s.small[l], s.small[k]) else Apart(s.small[k], s.small[l]);
    }
  }

  /** After a reset no region is in use, and only the blocks are left. */
  lemma ResetKeeps(s: State, s': State)
    requires Inv(s) && s'.psize == s.psize && s'.large == [] && s'.small == []
    requires s'.mallocs.Keys == s.blocks.Keys
    requires forall a :: a in s'.mallocs ==> a in s.mallocs && s'.mallocs[a] == s.mallocs[a]
    requires s'.blocks.Keys == s.blocks.Keys
    requires forall b :: b in s.blocks ==> s'.blocks[b] == s.blocks[b].(last := b + POOL, failed := 0)
    ensures Inv(s')
  {
    forall c | c in s'.blocks ensures BlockOk(s', c) { assert BlockOk(s, c); }
    assert MallocsOk(s');
    assert Ok(s');
  }

  // ----- what is handed out

  /** The memory is a small region or a large allocation of exactly this size. */
  ghost predicate Owned(s: State, m: Addr, size: int) {
    || (exists k :: 0 <= k < |s.small| && s.small[k].start == m && s.small[k].size == size)
    || (m in s.mallocs && s.mallocs[m] == size && Listed(s, m) && m != NULL)
  }

  lemma ListedInUse(s: State, a: Addr)
    requires Inv(s) && Listed(s, a) && a != NULL
    ensures a in s.mallocs && a !in s.blocks
  {
    var i :| 0 <= i < |s.large| && s.large[i].alloc == a;
    assert LargeOk(s, i);
  }

  lemma SmallIsApart(s: State, s': State, m: Addr, size: int)
    requires Inv(s) && Inv(s') && |s'.small| == |s.small| + 1 && s'.small[..|s.small|] == s.small && s'.large == s.large
    requires s'.small[|s.small|].start == m && s'.small[|s.small|].size == size
    requires forall a :: a in s.mallocs ==> a in s'.mallocs && s'.mallocs[a] == s.mallocs[a]
    ensures forall k :: 0 <= k < |s.small| ==> Disjoint(m, size, s.small[k].start, s.small[k].size)
    ensures forall a :: Listed(s, a) ==> Listed(s', a)
    ensures forall a :: Listed(s, a) && a != NULL ==> a in s.mallocs && Disjoint(m, size, a, s.mallocs[a])
  {
    var n := |s.small|;
    forall k | 0 <= k < n ensures Disjoint(m, size, s.small[k].start, s.small[k].size) {
      assert s'.small[k] == s.small[k] && Apart(s'.small[k], s'.small[n]);
    }
    assert SmallOk(s', s'.small[n]) && BlockOk(s', s'.small[n].home);
    forall a | Listed(s, a) && a != NULL ensures a in s.mallocs && Disjoint(m, size, a, s.mallocs[a]) {
      ListedInUse(s, a);
      assert Listed(s', a);
      ListedInUse(s', a);
    }
  }

  lemma LargeIsApart(s: State, s': State, p: Addr, size: int)
    requires Inv(s) && Fresh(s, p, size)
    ensures forall k :: 0 <= k < |s.small| ==> Disjoint(p, size, s.small[k].start, s.small[k].size)
    ensures forall a :: Listed(s, a) && a != NULL ==> a in s.mallocs && Disjoint(p, size, a, s.mallocs[a])
  {
    forall k | 0 <= k < |s.small| ensures Disjoint(p, size, s.small[k].start, s.small[k].size) {
      assert SmallOk(s, s.small[k]) && BlockOk(s, s.small[k].home);
    }
    forall a | Listed(s, a) && a != NULL ensures a in s.mallocs {
      ListedInUse(s, a);
    }
  }

  /** The large allocations among the first `i` elements. */
  ghost function Allocs(large: seq<Large>, i: nat): set<Addr>
    requires i <= |large|
  {
    if i == 0 then {}
    else if large[i - 1].alloc == NULL then Allocs(large, i - 1)
    else Allocs(large, i - 1) + {large[i - 1].alloc}
  }

  lemma {:induction false} AllocsIn(large: seq<Large>, i: nat, a: Addr)
    requires i <= |large|
    ensures a in Allocs(large, i) <==> exists j :: 0 <= j < i && large[j].alloc == a && a != NULL
  {
    if i > 0 {
      AllocsIn(large, i - 1, a);
    }
  }

  lemma FreeOnce(s: State, i: nat)
    requires Inv(s) && i < |s.large| && s.large[i].alloc != NULL
    ensures s.large[i].alloc in s.mallocs && s.large[i].alloc !in Allocs(s.large, i)
  {
    assert LargeOk(s, i);
    AllocsIn(s.large, i, s.large[i].alloc);
  }

  lemma OnlyBlocksLeft(s: State)
    requires Inv(s)
    ensures s.mallocs.Keys - Allocs(s.large, |s.large|) == s.blocks.Keys
  {
    forall a ensures a in s.mallocs && a !in Allocs(s.large, |s.large|) <==> a in s.blocks {
      AllocsIn(s.large, |s.large|, a);
      if a in s.blocks {
        assert BlockOk(s, a);
        forall j | 0 <= j < |s.large| ensures s.large[j].alloc != a {
          assert LargeOk(s, j);
        }
      } else if a in s.mallocs {
        assert Listed(s, a);
      }
    }
  }

  // ----- the code

  /** ngx_align_ptr with the platform word. */
  function Align8(x: Addr): (r: Addr)
    ensures x <= r < x + 8 && r % 8 == 0
  {
    (x + 7) / 8 * 8
  }

  lemma DataAligned(got: Addr)
    requires got % 16 == 0
    ensures Align8(got + DATA) == got + DATA && (got + DATA) % 8 == 0
  {
  }

  /** A difference of pointers as size_t. */
  function Unsigned(n: int): (r: int)
    ensures -0x1_0000_0000_0000_0000 <= n < 0x1_0000_0000_0000_0000 ==>
      0 <= r < 0x1_0000_0000_0000_0000 && (r == n || r == n + 0x1_0000_0000_0000_0000)
  {
    if n < 0 then n + 0x1_0000_0000_0000_0000 else n
  }

  lemma AlignedFits(last: Addr, end: Addr)
    requires last <= end && end % 8 == 0
    ensures Align8(last) <= end
  {
  }

  /** The test of ngx_palloc_small for room in a block, for an aligned region. */
  predicate Passes(last: Addr, end: Addr, size: int) {
    Unsigned(end - Align8(last)) >= size
  }

  /** The test is right for all regions exactly if the block ends on a word. */
  lemma RoomTestExact(end: Addr)
    ensures (forall last, size :: last <= end && 0 <= size < 0x1_0000_0000_0000_0000 - 8 ==>
      (Passes(last, end, size) <==> Align8(last) + size <= end)) <==> end % 8 == 0
  {
    if end % 8 == 0 {
      forall last, size | last <= end && 0 <= size < 0x1_0000_0000_0000_0000 - 8
        ensures Passes(last, end, size) <==> Align8(last) + size <= end
      {
        AlignedFits(last, end);
      }
    } else {
      assert Align8(end) > end;
      assert Passes(end, end, 0) && !(Align8(end) + 0 <= end);
    }
  }

  lemma ChainDrop(chain: seq<Addr>, i: nat)
    requires i < |chain| && forall i, j :: 0 <= i < j < |chain| ==> chain[i] != chain[j]
    ensures chain[i] in chain[i..] && chain[i] !in chain[i + 1..]
    ensures forall b :: b in chain[i..] <==> b == chain[i] || b in chain[i + 1..]
  {
    assert chain[i..] == [chain[i]] + chain[i + 1..];
  }

  /** The chain lists every block once. */
  ghost predicate Linked(chain: seq<Addr>, blocks: map<Addr, Block>) {
    && (forall i :: 0 <= i < |chain| ==> chain[i] in blocks)
    && (forall b :: b in blocks ==> b in chain)
    && (forall i, j :: 0 <= i < j < |chain| ==> chain[i] != chain[j])
  }

  lemma LinkedSnoc(chain: seq<Addr>, blocks: map<Addr, Block>, b: Addr, k: Block)
    requires Linked(chain, blocks) && b !in blocks
    ensures Linked(chain + [b], blocks[b := k])
  {
  }

  lemma EndAligned(got: Addr, size: int)
    requires got % 16 == 0 && size % 8 == 0
    ensures (got + size) % 8 == 0
  {
  }

  lemma FirstBlock(s: State, got: Addr, size: int)
    requires POOL + 2 * LARGE <= size && size % 8 == 0 && 0 < got && got % 16 == 0
    requires s == State(map[got := Block(POOL, got + POOL, got + size, 0)], [], [], map[got := size], size)
    ensures Inv(s)
  {
    EndAligned(got, size);
    assert BlockOk(s, got);
    assert MallocsOk(s);
    assert Ok(s);
  }

  /** Of the blocks of a chain, those from i to n have one failure more. */
  ghost predicate Failures(bs: map<Addr, Block>, bs': map<Addr, Block>, chain: seq<Addr>, i: nat, n: int) {
    FailedAt(bs, bs', chain, i, n) == true
  }

  ghost predicate FailedAt(bs: map<Addr, Block>, bs': map<Addr, Block>, chain: seq<Addr>, i: nat, n: int) {
    forall j :: 0 <= j < |chain| && chain[j] in bs ==>
      && chain[j] in bs'
      && bs'[chain[j]] == if i <= j < n then bs[chain[j]].(failed := bs[chain[j]].failed + 1) else bs[chain[j]]
  }

  lemma FailuresStart(bs: map<Addr, Block>, chain: seq<Addr>, i: nat)
    ensures Failures(bs, bs, chain, i, i) && Skips(bs, chain, i, i, i)
  {
    assert FailedAt(bs, bs, chain, i, i);
    assert SkipsTo(bs, chain, i, i, i);
  }

  /** Nothing was tried. */
  lemma FailuresNone(bs: map<Addr, Block>, chain: seq<Addr>, i: nat, n: int)
    requires n <= i
    ensures Failures(bs, bs, chain, i, n) && Skips(bs, chain, i, i, n)
  {
    assert FailedAt(bs, bs, chain, i, n);
    assert SkipsTo(bs, chain, i, i, n);
  }

  lemma FailuresStep(bs: map<Addr, Block>, bs': map<Addr, Block>, chain: seq<Addr>, i: nat, n: nat)
    requires i <= n < |chain| && Linked(chain, bs) && Failures(bs, bs', chain, i, n) && chain[n] in bs'
    ensures bs'[chain[n]].failed == bs[chain[n]].failed
    ensures Failures(bs, bs'[chain[n] := bs'[chain[n]].(failed := bs'[chain[n]].failed + 1)], chain, i, n + 1)
  {
    var bs'' := bs'[chain[n] := bs'[chain[n]].(failed := bs'[chain[n]].failed + 1)];
    assert FailedAt(bs, bs'', chain, i, n + 1);
  }

  /** The current block moves from i to k: behind the last block before n that failed more than four times. */
  ghost predicate Skips(bs: map<Addr, Block>, chain: seq<Addr>, i: nat, k: nat, n: int) {
    SkipsTo(bs, chain, i, k, n) == true
  }

  ghost predicate SkipsTo(bs: map<Addr, Block>, chain: seq<Addr>, i: nat, k: nat, n: int) {
    && i <= k
    && (k > i ==> k <= n && k <= |chain| && chain[k - 1] in bs && bs[chain[k - 1]].failed > 4)
    && (forall j :: k <= j < n && j < |chain| && chain[j] in bs ==> bs[chain[j]].failed <= 4)
  }

  /** The blocks of a pool in their order, and the memory taken from the system. */
  datatype Blocks = Blocks(blocks: map<Addr, Block>, chain: seq<Addr>, cur: nat, mallocs: map<Addr, int>)

  /** Where a region would start in the i-th block. */
  ghost function RegionAt(k: Blocks, i: nat, align: bool): Addr
    requires i < |k.chain| && k.chain[i] in k.blocks
  {
    if align then Align8(k.blocks[k.chain[i]].last) else k.blocks[k.chain[i]].last
  }

  /** The blocks from the current one up to the i-th have no room. */
  ghost predicate Passed(k: Blocks, size: int, align: bool, i: nat) {
    forall j :: k.cur <= j < i && j < |k.chain| ==>
      k.chain[j] in k.blocks && RegionAt(k, j, align) + size > k.blocks[k.chain[j]].end
  }

  /** The i-th block is the first one from the current one on that has room. */
  ghost predicate HasRoom(k: Blocks, size: int, align: bool, i: nat) {
    && k.cur <= i < |k.chain| && k.chain[i] in k.blocks && Passed(k, size, align, i)
    && RegionAt(k, i, align) + size <= k.blocks[k.chain[i]].end
  }

  /** The region was cut from the i-th block, and nothing else happened to the blocks. */
  ghost predicate FromBlock(k: Blocks, k': Blocks, i: nat, m: Addr, size: int) {
    && i < |k.chain| && k.chain[i] in k.blocks
    && k' == k.(blocks := k.blocks[k.chain[i] := k.blocks[k.chain[i]].(last := m + size)])
  }

  /** The region starts a new block, and those from the current one on have one failure more. */
  ghost predicate FromNewBlock(k: Blocks, k': Blocks, psize: int, got: Addr, m: Addr, size: int) {
    && m == got + DATA && k'.mallocs == k.mallocs[got := psize] && k'.chain == k.chain + [got]
    && got in k'.blocks && k'.blocks[got] == Block(DATA, m + size, got + psize, 0)
    && Failures(k.blocks, k'.blocks, k.chain, k.cur, |k.chain| - 1)
    && Skips(k.blocks, k.chain, k.cur, k'.cur, |k.chain| - 1)
  }

  /** The region comes from the first block with room, or from a new one if none has. */
  ghost predicate CutFrom(k: Blocks, k': Blocks, psize: int, got: Addr, m: Addr, size: int, align: bool) {
    CutFromFirst(k, k', psize, got, m, size, align) == true
  }

  ghost predicate CutFromFirst(k: Blocks, k': Blocks, psize: int, got: Addr, m: Addr, size: int, align: bool) {
    && (forall i: nat :: HasRoom(k, size, align, i) ==> m == RegionAt(k, i, align) && FromBlock(k, k', i, m, size))
    && (Passed(k, size, align, |k.chain|) ==> FromNewBlock(k, k', psize, got, m, size))
  }

  lemma CutFromOne(k: Blocks, k': Blocks, psize: int, got: Addr, i: nat, m: Addr, size: int, align: bool)
    requires HasRoom(k, size, align, i) && m == RegionAt(k, i, align) && FromBlock(k, k', i, m, size)
    ensures CutFrom(k, k', psize, got, m, size, align)
  {
    assert CutFromFirst(k, k', psize, got, m, size, align);
  }

  lemma CutFromNew(k: Blocks, k': Blocks, psize: int, got: Addr, m: Addr, size: int, align: bool)
    requires Passed(k, size, align, |k.chain|) && FromNewBlock(k, k', psize, got, m, size)
    ensures CutFrom(k, k', psize, got, m, size, align)
  {
    assert CutFromFirst(k, k', psize, got, m, size, align);
  }

  lemma SkipsStep(bs: map<Addr, Block>, chain: seq<Addr>, i: nat, k: nat, n: nat)
    requires i <= n < |chain| && chain[n] in bs && Skips(bs, chain, i, k, n)
    ensures Skips(bs, chain, i, if bs[chain[n]].failed > 4 then n + 1 else k, n + 1)
  {
    assert SkipsTo(bs, chain, i, if bs[chain[n]].failed > 4 then n + 1 else k, n + 1);
  }

  /** A new block at the end of the chain does not matter for the others. */
  lemma OtherBlocks(bs: map<Addr, Block>, b: Addr, x: Block, bs': map<Addr, Block>, chain: seq<Addr>,
                    i: nat, k: nat, n: int)
    requires Linked(chain, bs) && b !in bs && n <= |chain| && Linked(chain + [b], bs[b := x])
    requires Failures(bs[b := x], bs', chain + [b], i, n) && Skips(bs[b := x], chain + [b], i, k, n)
    ensures Failures(bs, bs', chain, i, n) && Skips(bs, chain, i, k, n)
    ensures b in bs' && bs'[b] == x
  {
    var c := chain + [b];
    assert forall j :: 0 <= j < |chain| ==> c[j] == chain[j] && chain[j] != b;
    assert c[|chain|] == b;
    assert FailedAt(bs, bs', chain, i, n);
    assert SkipsTo(bs, chain, i, k, n);
  }

  /** Memory is still unused when only a block that is apart from it was allocated. */
  lemma StillFresh(s: State, s': State, p: Addr, size: int, got: Addr)
    requires Fresh(s, p, size) && Disjoint(got, s.psize, p, size) && s'.psize == s.psize
    requires s'.mallocs == s.mallocs || s'.mallocs == s.mallocs[got := s.psize]
    ensures Fresh(s', p, size)
  {
  }

  class Allocator {
    var blocks: map<Addr, Block>
    var chain: seq<Addr>
    var cur: nat
    var large: seq<Large>
    var max: int
    ghost var small: seq<Region>
    ghost var mallocs: map<Addr, int>
    const psize: int

    ghost function View(): State
      reads this
    {
      State(blocks, large, small, mallocs, psize)
    }

    ghost predicate Valid()
      reads this
    {
      && Inv(View())
      && 0 <= cur < |chain| && LARGE <= max <= psize - POOL && psize % 8 == 0
      && Linked(chain, blocks)
    }

    /** ngx_create_pool; `RoomTestExact` says why a size that is not a multiple of the word is no good. */
    constructor (size: int, pagesize: int, got: Addr)
      requires POOL + 2 * LARGE <= size && LARGE < pagesize && 0 < got && got % 16 == 0
      ensures size % 8 == 0 ==> Valid()
      ensures Valid() ==> size % 8 == 0
      ensures small == [] && large == [] && mallocs == map[got := size] && psize == size && chain == [got]
      ensures cur == 0 && blocks == map[got := Block(POOL, got + POOL, got + size, 0)]
      ensures max == if size - POOL < pagesize - 1 then size - POOL else pagesize - 1
    {
      psize := size;
      blocks := map[got := Block(POOL, got + POOL, got + size, 0)];
      chain := [got];
      cur := 0;
      large := [];
      max := if size - POOL < pagesize - 1 then size - POOL else pagesize - 1;
      small := [];
      mallocs := map[got := size];
      new;
      if size % 8 == 0 {
        FirstBlock(View(), got, size);
      }
    }

    ghost function Now(): Blocks
      reads this
    {
      Blocks(blocks, chain, cur, mallocs)
    }

    /** A region of a block is handed out. */
    method Cut(b: Addr, m: Addr, size: int)
      requires Valid() && b in blocks && blocks[b].last <= m && 0 <= size && m + size <= blocks[b].end
      modifies this`blocks, this`small
      ensures Valid() && small == old(small) + [Region(b, m, size)]
      ensures blocks == old(blocks)[b := old(blocks[b]).(last := m + size)]
    {
      var bs := blocks[b := blocks[b].(last := m + size)];
      CutKeeps(View(), b, m, size, View().(blocks := bs, small := small + [Region(b, m, size)]));
      blocks := bs;
      small := small + [Region(b, m, size)];
    }

    /** The current block has room for an aligned region. */
    predicate CurrentFits(size: int)
      reads this
      requires cur < |chain| && chain[cur] in blocks
    {
      Align8(blocks[chain[cur]].last) + size <= blocks[chain[cur]].end
    }

    /** The first block from the current one on that has room, and where. */
    method FindRoom(size: int, align: bool) returns (i: nat, m: Addr)
      requires Valid() && 0 <= size
      ensures i <= |chain|
      ensures i < |chain| ==> blocks[chain[i]].last <= m && m + size <= blocks[chain[i]].end && (align ==> m % 8 == 0)
      ensures if i < |chain| then HasRoom(Now(), size, align, i) && m == RegionAt(Now(), i, align)
        else Passed(Now(), size, align, |chain|)
      ensures align && CurrentFits(size) ==> i == cur && m == Align8(blocks[chain[cur]].last)
    {
      i, m := cur, 0;
      while i < |chain|
        invariant Passed(Now(), size, align, i)
        invariant cur <= i <= |chain| && (align && CurrentFits(size) ==> i == cur)
      {
        var b := chain[i];
        assert BlockOk(View(), b);
        m := blocks[b].last;
        if align {
          AlignedFits(m, blocks[b].end);
          m := Align8(m);
        }
        if Unsigned(blocks[b].end - m) >= size {
          return;
        }
        i := i + 1;
      }
    }

    /** The region was cut from the current block, and nothing else happened to the blocks. */
    ghost predicate FromCurrent(s: State, chain0: seq<Addr>, cur0: nat, m: Addr, size: int)
      reads this
    {
      && chain == chain0 && cur == cur0 && cur < |chain| && chain[cur] in s.blocks
      && m == Align8(s.blocks[chain[cur]].last)
      && blocks == s.blocks[chain[cur] := s.blocks[chain[cur]].(last := m + size)]
    }

    /** ngx_palloc_small */
    method Small(size: int, align: bool, got: Addr) returns (m: Addr)
      requires Valid() && 0 <= size <= max && Fresh(View(), got, psize) && got % 16 == 0
      modifies this`blocks, this`chain, this`cur, this`small, this`mallocs
      ensures Valid() && Handed(old(View()), m, size, got) && old(chain) <= chain
      ensures align ==> m % 8 == 0
      ensures align && old(CurrentFits(size)) ==>
        FromCurrent(old(View()), old(chain), old(cur), m, size) && mallocs == old(mallocs)
      ensures CutFrom(old(Now()), Now(), psize, got, m, size, align)
    {
      var i;
      i, m := FindRoom(size, align);
      if i < |chain| {
        CutAt(i, m, size, align, got);
      } else {
        m := CutNew(size, align, got);
      }
    }

    /** The region is cut from the i-th block. */
    method CutAt(i: nat, m: Addr, size: int, align: bool, got: Addr)
      requires Valid() && 0 <= size && HasRoom(Now(), size, align, i) && m == RegionAt(Now(), i, align)
      modifies this`blocks, this`small
      ensures Valid() && Handed(old(View()), m, size, got)
      ensures CutFrom(old(Now()), Now(), psize, got, m, size, align)
      ensures i == cur ==> FromBlock(old(Now()), Now(), i, m, size)
    {
      ghost var k := Now();
      Cut(chain[i], m, size);
      CutFromOne(k, Now(), psize, got, i, m, size, align);
    }

    /** The region is cut from a new block. */
    method CutNew(size: int, align: bool, got: Addr) returns (m: Addr)
      requires Valid() && 0 <= size <= max && Fresh(View(), got, psize) && got % 16 == 0
      requires Passed(Now(), size, align, |chain|)
      modifies this`blocks, this`chain, this`cur, this`small, this`mallocs
      ensures Valid() && Handed(old(View()), m, size, got) && m % 8 == 0 && old(chain) <= chain
      ensures CutFrom(old(Now()), Now(), psize, got, m, size, align)
    {
      ghost var k := Now();
      m := NewBlock(size, got);
      CutFromNew(k, Now(), psize, got, m, size, align);
    }

    /** A region has been added to those in use; at most one block was allocated for it. */
    ghost predicate Handed(s: State, m: Addr, size: int, got: Addr)
      reads this
    {
      && |small| == |s.small| + 1 && small[..|s.small|] == s.small
      && small[|s.small|].start == m && small[|s.small|].size == size
      && (mallocs == s.mallocs || (got !in s.mallocs && mallocs == s.mallocs[got := psize]))
    }

    /**
      ngx_palloc_block: the region starts a new block at the end of the chain, every block
      that was tried has one failure more, and the current block moves behind the last
      one that had failed too often.
     */
    method NewBlock(size: int, got: Addr) returns (m: Addr)
      requires Valid() && 0 <= size <= max && Fresh(View(), got, psize) && got % 16 == 0
      modifies this`blocks, this`chain, this`cur, this`small, this`mallocs
      ensures Valid() && Handed(old(View()), m, size, got) && m % 8 == 0
      ensures m == got + DATA && mallocs == old(mallocs)[got := psize] && chain == old(chain) + [got]
      ensures got in blocks && blocks[got] == Block(DATA, m + size, got + psize, 0)
      ensures Failures(old(blocks), blocks, old(chain), old(cur), |old(chain)| - 1)
      ensures Skips(old(blocks), old(chain), old(cur), cur, |old(chain)| - 1)
    {
      m := Begin(size, got);
      ghost var bs := blocks;
      CountFailures();
      OtherBlocks(old(blocks), got, bs[got], blocks, old(chain), old(cur), cur, |old(chain)| - 1);
    }

    /** A new block with a region in it. */
    method Begin(size: int, got: Addr) returns (m: Addr)
      requires Valid() && 0 <= size <= max && Fresh(View(), got, psize) && got % 16 == 0
      modifies this`blocks, this`chain, this`small, this`mallocs
      ensures Valid() && Handed(old(View()), m, size, got) && m % 8 == 0
      ensures m == got + DATA && mallocs == old(mallocs)[got := psize] && chain == old(chain) + [got]
      ensures got !in old(blocks) && blocks == old(blocks)[got := Block(DATA, m + size, got + psize, 0)]
    {
      DataAligned(got);
      AddBlock(got);
      m := Align8(got + DATA);
      assert blocks[got].last == m && m + size <= blocks[got].end;
      Cut(got, m, size);
    }

    method AddBlock(got: Addr)
      requires Valid() && Fresh(View(), got, psize) && got % 16 == 0
      modifies this`blocks, this`chain, this`mallocs
      ensures Valid() && got !in old(mallocs) && mallocs == old(mallocs)[got := psize] && chain == old(chain) + [got]
      ensures got !in old(blocks) && blocks == old(blocks)[got := Block(DATA, got + DATA, got + psize, 0)]
    {
      var k := Block(DATA, got + DATA, got + psize, 0);
      EndAligned(got, psize);
      FreshNew(View(), got, psize);
      BlockKeeps(View(), got, k, View().(blocks := blocks[got := k], mallocs := mallocs[got := psize]));
      assert got in blocks ==> BlockOk(View(), got);
      LinkedSnoc(chain, blocks, got, k);
      blocks, mallocs := blocks[got := k], mallocs[got := psize];
      chain := chain + [got];
    }

    /** One failure more for the i-th block. */
    method Fail(i: nat)
      requires Valid() && i + 1 < |chain|
      modifies this`blocks, this`cur
      ensures Valid() && chain[i] in old(blocks)
      ensures var k := old(blocks)[chain[i]];
        blocks == old(blocks)[chain[i] := k.(failed := k.failed + 1)] && cur == if k.failed > 4 then i + 1 else old(cur)
    {
      var b := chain[i];
      var f := blocks[b].failed;
      var bs := blocks[b := blocks[b].(failed := f + 1)];
      FailedKeeps(View(), b, f + 1, View().(blocks := bs));
      blocks := bs;
      if f > 4 {
        cur := i + 1;
      }
    }

    method CountFailures()
      requires Valid()
      modifies this`blocks, this`cur
      ensures Valid() && Failures(old(blocks), blocks, chain, old(cur), |chain| - 2)
      ensures Skips(old(blocks), chain, old(cur), cur, |chain| - 2)
    {
      if cur >= |chain| - 2 {
        FailuresNone(blocks, chain, cur, |chain| - 2);
        return;
      }
      var i := cur;
      FailuresStart(blocks, chain, cur);
      while i < |chain| - 2
        invariant old(cur) <= i <= |chain| - 2 && Valid()
        invariant Failures(old(blocks), blocks, chain, old(cur), i) && Skips(old(blocks), chain, old(cur), cur, i)
      {
        FailuresStep(old(blocks), blocks, chain, old(cur), i);
        SkipsStep(old(blocks), chain, old(cur), cur, i);
        Fail(i);
        i := i + 1;
      }
    }

    /** A large allocation has been added to the list. */
    ghost predicate HandedLarge(s: State, a: Addr, size: int)
      reads this
    {
      && a !in s.mallocs && a in mallocs && mallocs[a] == size && Listed(View(), a)
      && (forall b :: b in s.mallocs ==> b in mallocs && mallocs[b] == s.mallocs[b])
      && (forall b :: Listed(s, b) && b != NULL ==> Listed(View(), b))
    }

    /** The first empty element, if it is among the first five. */
    ghost predicate FirstEmpty(s: seq<Large>, i: nat) {
      i <= 4 && i < |s| && s[i].alloc == NULL && forall j :: 0 <= j < i ==> s[j].alloc != NULL
    }

    ghost predicate NoneEmpty(s: seq<Large>) {
      forall j :: 0 <= j <= 4 && j < |s| ==> s[j].alloc != NULL
    }

    /** The element of the list that holds the new allocation. */
    ghost predicate HeldBy(s: State, p: Addr)
      reads this
    {
      && (forall i: nat :: FirstEmpty(s.large, i) ==> large == s.large[i := Large(p)] && small == s.small)
      && (NoneEmpty(s.large) ==>
        && large == [Large(p)] + s.large && |small| == |s.small| + 1 && small[..|s.small|] == s.small
        && small[|s.small|].size == LARGE && small[|s.small|].start % 8 == 0)
    }

    /** ngx_palloc_large: an empty element among the first few is used again. */
    method LargeAlloc(size: int, p: Addr, got: Addr)
      requires Valid() && 0 < size && Fresh(View(), p, size)
      requires Fresh(View(), got, psize) && got % 16 == 0 && Disjoint(got, psize, p, size)
      modifies this`blocks, this`chain, this`cur, this`small, this`mallocs, this`large
      ensures Valid() && HandedLarge(old(View()), p, size) && old(small) <= small && old(chain) <= chain
      ensures HeldBy(old(View()), p)
    {
      var i := FindEmpty();
      if i < |large| {
        Reuse(i, p, size);
        return;
      }
      NewLarge(size, p, got);
    }

    method FindEmpty() returns (i: nat)
      ensures i <= |large| && (i < |large| ==> FirstEmpty(large, i))
      ensures i == |large| ==> NoneEmpty(large)
    {
      i := 0;
      var n := 0;
      while i < |large|
        invariant 0 <= i <= |large| && n == i <= 4
        invariant forall j :: 0 <= j < i ==> large[j].alloc != NULL
      {
        if large[i].alloc == NULL {
          return;
        }
        if n > 3 {
          break;
        }
        n := n + 1;
        i := i + 1;
      }
      i := |large|;
    }

    method Reuse(i: nat, p: Addr, size: int)
      requires Valid() && i < |large| && large[i].alloc == NULL && Fresh(View(), p, size)
      modifies this`mallocs, this`large
      ensures Valid() && mallocs == old(mallocs)[p := size] && p !in old(mallocs) && large == old(large)[i := Large(p)]
      ensures Listed(View(), p) && forall a :: Listed(old(View()), a) && a != NULL ==> Listed(View(), a)
    {
      ghost var s := View();
      FreshNew(View(), p, size);
      ReuseKeeps(View(), i, p, size, View().(large := large[i := Large(p)], mallocs := mallocs[p := size]));
      large, mallocs := large[i := Large(p)], mallocs[p := size];
      assert large[i].alloc == p;
      forall a | Listed(s, a) && a != NULL ensures Listed(View(), a) {
        var j :| 0 <= j < |s.large| && s.large[j].alloc == a;
        assert large[j].alloc == a;
      }
    }

    /** The second half of ngx_palloc_large, and ngx_pmemalign: a new element of the list, itself a small region. */
    method NewLarge(size: int, p: Addr, got: Addr)
      requires Valid() && 0 < size && Fresh(View(), p, size)
      requires Fresh(View(), got, psize) && got % 16 == 0 && Disjoint(got, psize, p, size)
      modifies this`blocks, this`chain, this`cur, this`small, this`mallocs, this`large
      ensures Valid() && HandedLarge(old(View()), p, size) && old(small) <= small && old(chain) <= chain
      ensures large == [Large(p)] + old(large) && |small| == |old(small)| + 1
      ensures small[|old(small)|].size == LARGE && small[|old(small)|].start % 8 == 0
    {
      FreshNew(View(), p, size);
      ghost var s := View();
      var cell := Small(LARGE, true, got);
      StillFresh(s, View(), p, size, got);
      PutFirst(size, p);
    }

    /** The list gets a new element at its head. */
    method PutFirst(size: int, p: Addr)
      requires Valid() && Fresh(View(), p, size)
      modifies this`mallocs, this`large
      ensures Valid() && mallocs == old(mallocs)[p := size] && p !in old(mallocs)
      ensures large == [Large(p)] + old(large)
      ensures Listed(View(), p) && forall a :: Listed(old(View()), a) && a != NULL ==> Listed(View(), a)
    {
      AddCell();
      Reuse(0, p, size);
    }

    /** The list gets a new, empty element at its head. */
    method AddCell()
      requires Valid()
      modifies this`large
      ensures Valid() && large == [Large(NULL)] + old(large)
      ensures forall a :: Listed(old(View()), a) ==> Listed(View(), a)
    {
      ghost var s := View();
      ConsKeeps(s, s.(large := [Large(NULL)] + large));
      large := [Large(NULL)] + large;
      forall a | Listed(s, a) ensures Listed(View(), a) {
        var j :| 0 <= j < |s.large| && s.large[j].alloc == a;
        assert large[j + 1].alloc == a;
      }
    }

    /** ngx_pfree: only a large allocation that is in use is freed, and once. */
    method Pfree(p: Addr) returns (ok: bool)
      requires Valid() && p != NULL
      modifies this`large, this`mallocs
      ensures Valid() && ok == Listed(old(View()), p)
      ensures ok ==> p in old(mallocs) && mallocs == old(mallocs) - {p}
      ensures ok ==>
        exists i :: 0 <= i < |old(large)| && old(large)[i].alloc == p && large == old(large)[i := Large(NULL)]
      ensures !ok ==> mallocs == old(mallocs) && large == old(large)
    {
      for i := 0 to |large|
        invariant forall j :: 0 <= j < i ==> large[j].alloc != p
        invariant large == old(large) && mallocs == old(mallocs)
      {
        if large[i].alloc == p {
          FreeKeeps(View(), i, View().(large := large[i := Large(NULL)], mallocs := mallocs - {p}));
          large, mallocs := large[i := Large(NULL)], mallocs - {p};
          return true;
        }
      }
      ok := false;
    }

    /** ngx_palloc: memory of the given size that is in use by nobody else. */
    method Palloc(size: int, p: Addr, got: Addr) returns (m: Addr)
      requires Valid() && 0 <= size && (size > max ==> Fresh(View(), p, size) && Disjoint(got, psize, p, size))
      requires Fresh(View(), got, psize) && got % 16 == 0
      modifies this`blocks, this`chain, this`cur, this`small, this`mallocs, this`large
      ensures Valid() && Owned(View(), m, size) && old(small) <= small && chain[0] == old(chain[0])
      ensures size <= max ==> m % 8 == 0
      ensures forall b :: b in old(mallocs) ==> b in mallocs && mallocs[b] == old(mallocs)[b]
      ensures forall k :: 0 <= k < |old(small)| ==> Disjoint(m, size, old(small)[k].start, old(small)[k].size)
      ensures forall a :: Listed(old(View()), a) && a != NULL ==> Listed(View(), a)
      ensures forall a :: Listed(old(View()), a) && a != NULL ==>
        a in old(mallocs) && Disjoint(m, size, a, old(mallocs)[a])
      ensures size <= max && old(CurrentFits(size)) ==>
        FromCurrent(old(View()), old(chain), old(cur), m, size) && mallocs == old(mallocs)
      ensures size <= max ==> CutFrom(old(Now()), Now(), psize, got, m, size, true)
      ensures size > max ==> m == p && HeldBy(old(View()), p)
    {
      ghost var s := View();
      if size <= max {
        m := Small(size, true, got);
        SmallIsApart(s, View(), m, size);
      } else {
        m := p;
        LargeAlloc(size, p, got);
        LargeIsApart(s, View(), p, size);
      }
    }

    // ----- giving back

    /** The loop over the large allocations: each one that is not NULL is freed, while it is still in use. */
    method FreeLarge()
      requires Valid()
      modifies this`mallocs
      ensures mallocs.Keys == blocks.Keys
      ensures forall b :: b in mallocs ==> b in old(mallocs) && mallocs[b] == old(mallocs)[b]
    {
      for i := 0 to |large|
        invariant mallocs.Keys == old(mallocs).Keys - Allocs(large, i)
        invariant forall b :: b in mallocs ==> mallocs[b] == old(mallocs)[b]
      {
        if large[i].alloc != NULL {
          FreeOnce(old(View()), i);
          assert large[i].alloc in mallocs;
          mallocs := mallocs - {large[i].alloc};
        }
      }
      OnlyBlocksLeft(old(View()));
    }

    /** ngx_reset_pool */
    method Reset()
      requires Valid()
      modifies this`mallocs, this`blocks, this`small, this`large, this`cur
      ensures Valid() && large == [] && small == [] && mallocs.Keys == blocks.Keys == old(blocks).Keys && cur == 0
      ensures forall b :: b in blocks ==> blocks[b] == old(blocks)[b].(last := b + POOL, failed := 0)
    {
      ghost var s := View();
      FreeLarge();
      var bs := blocks;
      for i := 0 to |chain|
        invariant bs.Keys == blocks.Keys
        invariant forall j :: i <= j < |chain| ==> bs[chain[j]] == blocks[chain[j]]
        invariant forall j :: 0 <= j < i ==> bs[chain[j]] == blocks[chain[j]].(last := chain[j] + POOL, failed := 0)
      {
        bs := bs[chain[i] := bs[chain[i]].(last := chain[i] + POOL, failed := 0)];
      }
      forall b | b in blocks ensures bs[b] == blocks[b].(last := b + POOL, failed := 0) {
        assert b in chain;
      }
      blocks, large, small, cur := bs, [], [], 0;
      ResetKeeps(s, View());
    }

    /** ngx_destroy_pool: everything is freed. */
    method Destroy()
      requires Valid()
      modifies this`mallocs
      ensures forall a :: a !in mallocs
    {
      FreeLarge();
      for i := 0 to |chain|
        invariant forall b :: b in mallocs <==> b in chain[i..]
      {
        ChainDrop(chain, i);
        assert chain[i] in mallocs;
        mallocs := mallocs - {chain[i]};
      }
    }

    /** A region that ends where the first block's free part starts grows in place. */
    method Extend(ghost k: nat, n: int)
      requires Valid() && k < |small| && 0 <= n && small[k].start + small[k].size == blocks[chain[0]].last
      requires blocks[chain[0]].last + n <= blocks[chain[0]].end && small[k].home == chain[0]
      modifies this`blocks, this`small
      ensures Valid() && small == old(small)[k := old(small)[k].(size := old(small)[k].size + n)]
    {
      var b := chain[0];
      var bs := blocks[b := blocks[b].(last := blocks[b].last + n)];
      ghost var sm := small[k := small[k].(size := small[k].size + n)];
      ExtendKeeps(View(), k, n, View().(blocks := bs, small := sm));
      blocks, small := bs, sm;
    }
  }

  // ----- growable arrays

  /** The last region of a block grows. */
  lemma ExtendKeeps(s: State, k: nat, n: int, s': State)
    requires Inv(s) && k < |s.small| && 0 <= n && SmallOk(s, s.small[k])
    requires s.small[k].start + s.small[k].size == s.blocks[s.small[k].home].last
    requires s.blocks[s.small[k].home].last + n <= s.blocks[s.small[k].home].end
    requires s' == s.(blocks := s.blocks[s.small[k].home :=
                        s.blocks[s.small[k].home].(last := s.blocks[s.small[k].home].last + n)],
                      small := s.small[k := s.small[k].(size := s.small[k].size + n)])
    ensures Inv(s')
  {
    var b, r := s.small[k].home, s'.small[k];
    forall l | 0 <= l < |s.small| && l != k
      ensures SmallOk(s', s.small[l]) && Apart(s.small[l], r) && Apart(r, s.small[l])
    {
      var q := s.small[l];
      assert SmallOk(s, q) && BlockOk(s, q.home) && BlockOk(s, b);
      assert if l < k then Apart(q, s.small[k]) else Apart(s.small[k], q);
    }
    assert BlockOk(s, b);
    assert SmallOk(s', r);
    forall c | c in s'.blocks ensures BlockOk(s', c) { assert BlockOk(s, c); }
    forall i | 0 <= i < |s'.large| ensures LargeOk(s', i) { assert LargeOk(s, i); }
    forall a | a in s'.mallocs ensures a in s'.blocks || Listed(s', a) { assert a in s.blocks || Listed(s, a); }
    forall x, y | 0 <= x < y < |s'.small| ensures Apart(s'.small[x], s'.small[y]) {
      assert x != k && y != k ==> Apart(s.small[x], s.small[y]);
    }
    assert Ok(s');
  }

  /** Memory that ends where the free part of a block starts is a region of that block. */
  lemma EndsAtLast(s: State, b: Addr, m: Addr, size: int) returns (k: nat)
    requires Inv(s) && b in s.blocks && Owned(s, m, size) && 0 <= size && m + size == s.blocks[b].last
    ensures k < |s.small| && s.small[k].start == m && s.small[k].size == size && s.small[k].home == b
    ensures SmallOk(s, s.small[k])
  {
    assert BlockOk(s, b);
    if Listed(s, m) && m in s.mallocs && s.mallocs[m] == size && m != NULL {
      ListedInUse(s, m);
      assert false;
    }
    k :| 0 <= k < |s.small| && s.small[k].start == m && s.small[k].size == size;
    var h := s.small[k].home;
    assert SmallOk(s, s.small[k]) && BlockOk(s, h);
    if h != b {
      assert false;
    }
  }

  type Memory = map<Addr, int>

  function At(mem: Memory, a: Addr): int {
    if a in mem then mem[a] else 0
  }

  function Bytes(mem: Memory, a: Addr, n: nat): seq<int> {
    seq(n, j => At(mem, a + j))
  }

  /** The first `i` bytes have been copied, and nothing else has changed. */
  ghost predicate Copied(mem0: Memory, mem: Memory, dst: Addr, src: Addr, i: nat) {
    forall a :: At(mem, a) == Source(mem0, dst, src, i, a)
  }

  ghost function Source(mem0: Memory, dst: Addr, src: Addr, i: nat, a: Addr): int {
    At(mem0, if dst <= a < dst + i then src + (a - dst) else a)
  }

  lemma CopyStep(mem0: Memory, mem: Memory, dst: Addr, src: Addr, n: nat, i: nat)
    requires Copied(mem0, mem, dst, src, i) && i < n && Disjoint(dst, n, src, n)
    ensures Copied(mem0, mem[dst + i := At(mem, src + i)], dst, src, i + 1)
  {
    var mem' := mem[dst + i := At(mem, src + i)];
    assert At(mem, src + i) == Source(mem0, dst, src, i, src + i) == At(mem0, src + i);
    forall a ensures At(mem', a) == Source(mem0, dst, src, i + 1, a) {
      assert At(mem, a) == Source(mem0, dst, src, i, a);
    }
  }

  /** ngx_memcpy between regions that do not overlap. */
  method Copy(mem0: Memory, dst: Addr, src: Addr, n: nat) returns (mem: Memory)
    requires Disjoint(dst, n, src, n)
    ensures Bytes(mem, dst, n) == Bytes(mem0, src, n)
    ensures Copied(mem0, mem, dst, src, n)
  {
    mem := mem0;
    for i := 0 to n
      invariant Copied(mem0, mem, dst, src, i)
    {
      CopyStep(mem0, mem, dst, src, n, i);
      mem := mem[dst + i := At(mem, src + i)];
    }
    forall j | 0 <= j < n ensures Bytes(mem, dst, n)[j] == Bytes(mem0, src, n)[j] {
      assert At(mem, dst + j) == Source(mem0, dst, src, n, dst + j);
    }
  }

  /** Outside of `n` bytes from `a` on, the memory is the same. */
  ghost predicate Unchanged(mem0: Memory, mem: Memory, a: Addr, n: int) {
    forall x :: !(a <= x < a + n) ==> At(mem, x) == At(mem0, x)
  }

  /**
    Every small region is still there, except that the one of `n` bytes at `a` may
    have grown, and so is every large allocation.
   */
  ghost predicate OthersKept(s: State, s': State, a: Addr, n: int) {
    && |s.small| <= |s'.small|
    && (forall i :: 0 <= i < |s.small| ==>
      || s'.small[i] == s.small[i]
      || (s.small[i].start == a == s'.small[i].start && s.small[i].size == n <= s'.small[i].size))
    && (forall x :: Listed(s, x) && x != NULL ==> Listed(s', x))
    && (forall x :: x in s.mallocs ==> x in s'.mallocs && s'.mallocs[x] == s.mallocs[x])
  }

  lemma CopiedElsewhere(mem0: Memory, mem: Memory, dst: Addr, src: Addr, n: nat)
    requires Copied(mem0, mem, dst, src, n)
    ensures Unchanged(mem0, mem, dst, n)
  {
    forall x | !(dst <= x < dst + n) ensures At(mem, x) == At(mem0, x) {
      assert At(mem, x) == Source(mem0, dst, src, n, x);
    }
  }

  lemma SameListed(s: State, s': State)
    requires s'.large == s.large
    ensures forall x :: Listed(s, x) ==> Listed(s', x)
  {
    forall x | Listed(s, x) ensures Listed(s', x) {
      var i :| 0 <= i < |s.large| && s.large[i].alloc == x;
      assert s'.large[i].alloc == x;
    }
  }

  lemma PrefixKept(s: State, s': State, a: Addr, n: int)
    requires s.small <= s'.small && (forall x :: Listed(s, x) && x != NULL ==> Listed(s', x))
    requires forall x :: x in s.mallocs ==> x in s'.mallocs && s'.mallocs[x] == s.mallocs[x]
    ensures OthersKept(s, s', a, n)
  {
  }

  /** ngx_array_t, and the memory its elements are in. */
  class Array {
    const pool: Allocator
    const size: int
    var elts: Addr
    var nelts: nat
    var nalloc: nat
    var mem: Memory

    /** The elements have memory of their own, large enough for them. */
    ghost predicate Valid()
      reads this, pool
    {
      && pool.Valid() && 0 < size && nelts <= nalloc && Owned(pool.View(), elts, size * nalloc)
    }

    ghost predicate Sound()
      reads this, pool
    {
      pool.Valid() && 0 < size && Owned(pool.View(), elts, size * nalloc)
    }

    /** ngx_array_init */
    constructor (pool: Allocator, n: nat, size: int, p: Addr, got: Addr)
      requires pool.Valid() && 0 < size && Fresh(pool.View(), got, pool.psize) && got % 16 == 0
      requires size * n > pool.max ==> Fresh(pool.View(), p, size * n) && Disjoint(got, pool.psize, p, size * n)
      modifies pool
      ensures Valid() && nelts == 0 && nalloc == n && this.pool == pool && this.size == size
      ensures OthersKept(old(pool.View()), pool.View(), 0, 0) && pool.max == old(pool.max)
      ensures size * n <= old(pool.max) && old(pool.CurrentFits(size * n)) ==>
        && pool.FromCurrent(old(pool.View()), old(pool.chain), old(pool.cur), elts, size * n)
        && pool.mallocs == old(pool.mallocs)
    {
      this.pool, this.size := pool, size;
      nelts, nalloc, mem, elts := 0, n, map[], 0;
      new;
      MulLess(size, 0, n);
      var m := pool.Palloc(size * n, p, got);
      elts := m;
    }

    ghost function Contents(n: nat): seq<int>
      reads this
    {
      Bytes(mem, elts, n)
    }

    /** The first block of the pool is used up to `a` and has room for `extra` bytes more. */
    ghost predicate AtEndOfFirst(a: Addr, extra: int)
      reads this, pool
    {
      && pool.chain != [] && pool.chain[0] in pool.blocks
      && pool.blocks[pool.chain[0]].last == a && pool.blocks[pool.chain[0]].end - a >= extra
    }

    /** The elements end where the free part of the first block starts, and `extra` more bytes fit. */
    predicate InPlace(extra: int)
      reads this, pool
      requires pool.chain != [] && pool.chain[0] in pool.blocks
    {
      var b := pool.blocks[pool.chain[0]];
      elts + size * nalloc == b.last && b.last + extra <= b.end
    }

    /** The memory grows where it is. */
    method GrowInPlace(more: nat)
      requires Sound() && InPlace(size * more)
      modifies this`nalloc, pool
      ensures Sound() && nalloc == old(nalloc) + more
      ensures OthersKept(old(pool.View()), pool.View(), old(elts), old(size * nalloc))
    {
      ghost var s := pool.View();
      MulAdd(size, nalloc, more);
      ghost var k := EndsAtLast(pool.View(), pool.chain[0], elts, size * nalloc);
      pool.Extend(k, size * more);
      nalloc := nalloc + more;
      assert pool.small[k].start == elts && pool.small[k].size == size * nalloc;
      SameListed(s, pool.View());
    }

    /** The elements move to new memory of `n` elements. */
    method Move(n: nat, used: nat, p: Addr, got: Addr)
      requires Sound() && used <= size * nalloc && used <= size * n && Oracle(size * n, p, got)
      modifies this`elts, this`nalloc, this`mem, pool
      ensures Sound() && nalloc == n && Contents(used) == old(Contents(used))
      ensures Unchanged(old(mem), mem, elts, used)
      ensures OthersKept(old(pool.View()), pool.View(), old(elts), old(size * nalloc))
    {
      var m := Reserve(size * n, used, p, got);
      mem := Copy(mem, m, elts, used);
      CopiedElsewhere(old(mem), mem, m, elts, used);
      elts, nalloc := m, n;
    }

    /** New memory that does not overlap the elements. */
    method Reserve(n: int, used: nat, p: Addr, got: Addr) returns (m: Addr)
      requires Sound() && used <= size * nalloc && used <= n && Oracle(n, p, got)
      modifies pool
      ensures pool.Valid() && Owned(pool.View(), m, n) && Disjoint(m, used, elts, used)
      ensures OthersKept(old(pool.View()), pool.View(), elts, size * nalloc)
    {
      ghost var s := pool.View();
      m := pool.Palloc(n, p, got);
      NewApart(s, elts, size * nalloc, m, n, used);
      PrefixKept(s, pool.View(), elts, size * nalloc);
    }

    /** What the system would return if memory is needed. */
    ghost predicate Oracle(n: int, p: Addr, got: Addr)
      reads this, pool
    {
      && (n > pool.max ==> Fresh(pool.View(), p, n) && Disjoint(got, pool.psize, p, n))
      && Fresh(pool.View(), got, pool.psize) && got % 16 == 0
    }

    /**
      ngx_array_push.  A full array grows by one element in place or doubles.  An
      array without any memory does not grow by doubling, so that the new element has
      no room exactly when the array was empty and could not grow in place.
     */
    method Push(p: Addr, got: Addr) returns (elt: Addr)
      requires Valid() && Oracle(2 * (size * nalloc), p, got)
      modifies this`elts, this`nelts, this`nalloc, this`mem, pool
      ensures Sound() && nelts == old(nelts) + 1 && elt == elts + size * old(nelts)
      ensures nalloc == if old(nelts < nalloc) then old(nalloc) else if old(InPlace(size)) then old(nalloc) + 1
                        else 2 * old(nalloc)
      ensures Contents(size * old(nelts)) == old(Contents(size * nelts))
      ensures Valid() <==> !(old(nalloc) == 0 && !old(InPlace(size)))
      ensures OthersKept(old(pool.View()), pool.View(), old(elts), old(size * nalloc))
      ensures Unchanged(old(mem), mem, elts, size * old(nelts))
      ensures old(nelts == nalloc && AtEndOfFirst(elts + size * nalloc, size)) ==>
        elts == old(elts) && nalloc == old(nalloc) + 1
    {
      MulLess(size, nelts, nalloc);
      if nelts == nalloc {
        if InPlace(size) {
          GrowInPlace(1);
        } else {
          MulTwice(size, nalloc);
          Move(2 * nalloc, size * nelts, p, got);
        }
      }
      elt := elts + size * nelts;
      nelts := nelts + 1;
    }

    /** ngx_array_push_n */
    method PushN(n: nat, p: Addr, got: Addr) returns (elt: Addr)
      requires Valid() && Oracle(size * (2 * if n >= nalloc then n else nalloc), p, got)
      modifies this`elts, this`nelts, this`nalloc, this`mem, pool
      ensures Valid() && nelts == old(nelts) + n && elt == elts + size * old(nelts)
      ensures nalloc == if old(nelts) + n <= old(nalloc) then old(nalloc)
                        else if old(InPlace(size * n)) then old(nalloc) + n
                        else 2 * if n >= old(nalloc) then n else old(nalloc)
      ensures Contents(size * old(nelts)) == old(Contents(size * nelts))
      ensures OthersKept(old(pool.View()), pool.View(), old(elts), old(size * nalloc))
      ensures Unchanged(old(mem), mem, elts, size * old(nelts))
      ensures old(nelts + n > nalloc && AtEndOfFirst(elts + size * nalloc, size * n)) ==>
        elts == old(elts) && nalloc == old(nalloc) + n
    {
      MulLess(size, nelts, nalloc);
      if nelts + n > nalloc {
        if InPlace(size * n) {
          GrowInPlace(n);
        } else {
          var m := 2 * if n >= nalloc then n else nalloc;
          MulLess(size, nelts, m);
          Move(m, size * nelts, p, got);
        }
      }
      elt := elts + size * nelts;
      nelts := nelts + n;
    }
  }

  lemma MulAdd(size: int, n: nat, more: nat)
    requires 0 < size
    ensures size * (n + more) == size * n + size * more && size * n >= 0 && size * more >= 0
  {
  }

  lemma MulTwice(size: int, n: nat)
    requires 0 < size
    ensures size * (2 * n) == 2 * (size * n) && 0 <= size * n <= size * (2 * n)
  {
  }

  lemma MulLess(size: int, a: nat, b: nat)
    requires 0 < size && a <= b
    ensures 0 <= size * a <= size * b
  {
  }

  /** New memory does not overlap memory that was in use before. */
  lemma NewApart(s: State, a: Addr, n: int, m: Addr, k: int, used: nat)
    requires Inv(s) && Owned(s, a, n) && used <= n && used <= k
    requires forall i :: 0 <= i < |s.small| ==> Disjoint(m, k, s.small[i].start, s.small[i].size)
    requires forall b :: Listed(s, b) && b != NULL ==> b in s.mallocs && Disjoint(m, k, b, s.mallocs[b])
    ensures Disjoint(m, used, a, used)
  {
    if !(a in s.mallocs && s.mallocs[a] == n && Listed(s, a) && a != NULL) {
      var i :| 0 <= i < |s.small| && s.small[i].start == a && s.small[i].size == n;
    }
  }

  /** An array made for no elements, behind which something else was allocated: the element pushed has no room. */
  method EmptyArrayExample() returns (a: Array)
    ensures a.nelts == 1 && a.nalloc == 0 && !a.Valid()
  {
    var pool := new Allocator(1024, 4096, 4096);
    NoOverlap(pool.View());
    a := new Array(pool, 0, 8, 0, 8192);
    NoOverlap(pool.View());
    var other := pool.Palloc(8, 0, 8192);
    NoOverlap(pool.View());
    var elt := a.Push(0, 8192);
  }

  lemma NoOverlap(s: State)
    requires s.mallocs == map[4096 := 1024] && s.psize == 1024
    ensures Fresh(s, 8192, 1024)
  {
  }
}
