/**
  The binary radix trie of nginx (32-bit keys): nodes are linked by left, right
  and parent pointers, deleted nodes go to a free list threaded through their
  right pointers, and a lookup returns the value of the longest prefix.
 */
module RadixTree {

  /** The address of a node. */
  type Ptr = int

  const NULL: Ptr := 0

  const NO_VALUE: int := -1

  datatype Node = Node(left: Ptr, right: Ptr, parent: Ptr, value: int)

  type Memory = map<Ptr, Node>

  /** A position in the trie: the bits from the root down, last bit first. */
  datatype Path = Root | Step(up: Path, bit: bool)

  ghost function Depth(p: Path): int {
    if p.Root? then 0 else 1 + Depth(p.up)
  }

  // ----- keys and masks

  /** A 32-bit word, most significant bit first: element i is the bit 0x80000000 >> i. */
  type Word = w: seq<bool> | |w| == 32 witness seq(32, _ => false)

  /** The test `word & bit`, where `bit` is 0x80000000 shifted right i times. */
  predicate Test(w: Word, i: int)
    requires i >= 0
  {
    i < 32 && w[i]
  }

  /** The first n bits of a key. */
  ghost function Prefix(key: Word, n: int): (p: Path)
    requires n >= 0
    ensures Depth(p) == n
  {
    if n == 0 then Root else Step(Prefix(key, n - 1), Test(key, n - 1))
  }

  /** How many leading bits a mask covers, counted from bit i; a mask stops at its first zero. */
  ghost function Ones(mask: Word, i: int): (n: int)
    requires 0 <= i <= 32
    ensures i <= n <= 32
    decreases 32 - i
  {
    if Test(mask, i) then Ones(mask, i + 1) else i
  }

  // ----- the prefix map and the longest prefix

  type Prefixes = map<Path, int>

  /** The value of the longest stored prefix among the first n bits of the key. */
  ghost function Longest(m: Prefixes, key: Word, n: int): int
    requires n >= 0
  {
    if Prefix(key, n) in m then m[Prefix(key, n)] else if n == 0 then NO_VALUE else Longest(m, key, n - 1)
  }

  /** Nothing is stored but, perhaps, the prefix of length 0. */
  ghost predicate NothingLonger(m: Prefixes) {
    forall p :: p in m ==> p == Root
  }

  /** A stored prefix of the key that no longer stored prefix beats is the one found. */
  lemma {:induction false} LongestFound(m: Prefixes, key: Word, n: int, k: int)
    requires 0 <= k <= n && Prefix(key, k) in m && forall j :: k < j <= n ==> Prefix(key, j) !in m
    ensures Longest(m, key, n) == m[Prefix(key, k)]
  {
    if k < n {
      LongestFound(m, key, n - 1, k);
    }
  }

  /** Without a stored prefix of the key there is no value. */
  lemma {:induction false} LongestNone(m: Prefixes, key: Word, n: int)
    requires n >= 0 && forall j :: 0 <= j <= n ==> Prefix(key, j) !in m
    ensures Longest(m, key, n) == NO_VALUE
  {
    if n > 0 {
      LongestNone(m, key, n - 1);
    }
  }

  // ----- prefixes are the first bits of keys

  /** The position that some bits lead to. */
  ghost function PathOf(bits: seq<bool>): Path {
    if bits == [] then Root else Step(PathOf(bits[..|bits| - 1]), bits[|bits| - 1])
  }

  ghost function BitsOf(p: Path): (bits: seq<bool>)
    ensures PathOf(bits) == p
  {
    match p
    case Root => []
    case Step(up, bit) =>
      assert (BitsOf(up) + [bit])[..|BitsOf(up)|] == BitsOf(up);
      BitsOf(up) + [bit]
  }

  lemma {:induction false} PathOfInjective(a: seq<bool>, b: seq<bool>)
    requires PathOf(a) == PathOf(b)
    ensures a == b
  {
    if a != [] {
      PathOfInjective(a[..|a| - 1], b[..|b| - 1]);
      assert a == a[..|a| - 1] + [a[|a| - 1]] && b == b[..|b| - 1] + [b[|b| - 1]];
    }
  }

  lemma {:induction false} PrefixIsBits(key: Word, n: nat)
    requires n <= 32
    ensures Prefix(key, n) == PathOf(key[..n])
  {
    if n > 0 {
      PrefixIsBits(key, n - 1);
      assert key[..n][..n - 1] == key[..n - 1];
    }
  }

  /** Two keys have the same prefix exactly if their first bits are the same. */
  lemma PrefixEqual(a: Word, b: Word, n: nat)
    requires n <= 32
    ensures Prefix(a, n) == Prefix(b, n) <==> a[..n] == b[..n]
  {
    PrefixIsBits(a, n);
    PrefixIsBits(b, n);
    if Prefix(a, n) == Prefix(b, n) {
      PathOfInjective(a[..n], b[..n]);
    }
  }

  /** The mask starts with n ones, and not with more. */
  ghost predicate Covers(mask: Word, n: int) {
    0 <= n <= 32 && (forall i :: 0 <= i < n ==> mask[i]) && (n < 32 ==> !mask[n])
  }

  lemma {:induction false} OnesFrom(mask: Word, i: int)
    requires 0 <= i <= 32 && forall j :: 0 <= j < i ==> mask[j]
    ensures Covers(mask, Ones(mask, i))
    decreases 32 - i
  {
    if i < 32 && mask[i] {
      OnesFrom(mask, i + 1);
    }
  }

  lemma OnesExactly(mask: Word, n: int)
    ensures Ones(mask, 0) == n <==> Covers(mask, n)
  {
    OnesFrom(mask, 0);
    var k := Ones(mask, 0);
    if Covers(mask, n) && Covers(mask, k) {
      NoMore(mask, n, k);
      NoMore(mask, k, n);
    }
  }

  lemma NoMore(mask: Word, n: int, k: int)
    requires Covers(mask, n)
    ensures n < k <= 32 ==> !Covers(mask, k)
  {
  }

  /** The table of routes: bits and values. */
  type Table = map<seq<bool>, int>

  ghost function TableOf(m: Prefixes): Table {
    map bits | bits in (set p | p in m :: BitsOf(p)) && PathOf(bits) in m :: m[PathOf(bits)]
  }

  lemma InTable(m: Prefixes, bits: seq<bool>)
    ensures bits in TableOf(m) <==> PathOf(bits) in m
    ensures PathOf(bits) in m ==> TableOf(m)[bits] == m[PathOf(bits)]
  {
    if PathOf(bits) in m {
      PathOfInjective(bits, BitsOf(PathOf(bits)));
    }
  }

  lemma TableWith(m: Prefixes, bits: seq<bool>, value: int)
    ensures TableOf(m[PathOf(bits) := value]) == TableOf(m)[bits := value]
  {
    var m' := m[PathOf(bits) := value];
    forall b ensures (b in TableOf(m') <==> b in TableOf(m)[bits := value])
      && (b in TableOf(m') ==> TableOf(m')[b] == TableOf(m)[bits := value][b])
    {
      InTable(m, b);
      InTable(m', b);
      if PathOf(b) == PathOf(bits) {
        PathOfInjective(b, bits);
      }
    }
  }

  lemma TableWithout(m: Prefixes, bits: seq<bool>)
    ensures TableOf(m - {PathOf(bits)}) == TableOf(m) - {bits}
  {
    var m' := m - {PathOf(bits)};
    forall b ensures (b in TableOf(m') <==> b in TableOf(m) - {bits})
      && (b in TableOf(m') ==> TableOf(m')[b] == (TableOf(m) - {bits})[b])
    {
      InTable(m, b);
      InTable(m', b);
      if PathOf(b) == PathOf(bits) {
        PathOfInjective(b, bits);
      }
    }
  }

  /** What holds of the prefix of a key under a mask, in terms of the first bits of the key. */
  lemma InBits(m: Prefixes, key: Word, mask: Word, n: int, value: int)
    requires Covers(mask, n)
    ensures n == Ones(mask, 0)
    ensures Prefix(key, n) in m <==> key[..n] in TableOf(m)
    ensures TableOf(m[Prefix(key, n) := value]) == TableOf(m)[key[..n] := value]
    ensures TableOf(m - {Prefix(key, n)}) == TableOf(m) - {key[..n]}
  {
    OnesExactly(mask, n);
    PrefixIsBits(key, n);
    InTable(m, key[..n]);
    TableWith(m, key[..n], value);
    TableWithout(m, key[..n]);
  }

  lemma ShortTable(m: Prefixes)
    ensures NothingLonger(m) <==> forall bits :: bits in TableOf(m) ==> bits == []
  {
    if NothingLonger(m) {
      forall bits | bits in TableOf(m) ensures bits == [] {
        InTable(m, bits);
      }
    } else {
      var p :| p in m && p != Root;
      InTable(m, BitsOf(p));
      assert BitsOf(p) != [];
    }
  }

  /** The first bits of the key, as many as the mask has ones, are a new route, or were there. */
  ghost predicate RouteInserted(t: Table, t': Table, key: Word, mask: Word, value: int, ok: bool) {
    forall n :: Covers(mask, n) ==>
      ok == (key[..n] !in t) && t' == if ok then t[key[..n] := value] else t
  }

  /** These bits are no route any more; deleting no bits faults when no others are a route. */
  ghost predicate RouteDeleted(t: Table, t': Table, key: Word, mask: Word, r: Deletion) {
    forall n :: Covers(mask, n) ==>
      && (r == FAULT <==> n == 0 && forall bits :: bits in t ==> bits == [])
      && (if r == FAULT then t' == t else (r == OK <==> key[..n] in t) && t' == t - {key[..n]})
  }

  lemma InsertedBits(m: Prefixes, m': Prefixes, key: Word, mask: Word, value: int, ok: bool)
    requires var p := Prefix(key, Ones(mask, 0)); ok == (p !in m) && m' == if ok then m[p := value] else m
    ensures RouteInserted(TableOf(m), TableOf(m'), key, mask, value, ok)
  {
    forall n | Covers(mask, n)
      ensures ok == (key[..n] !in TableOf(m))
      ensures TableOf(m') == if ok then TableOf(m)[key[..n] := value] else TableOf(m)
    {
      InBits(m, key, mask, n, value);
    }
  }

  lemma DeletedBits(m: Prefixes, m': Prefixes, key: Word, mask: Word, r: Deletion)
    requires r == FAULT <==> Ones(mask, 0) == 0 && NothingLonger(m)
    requires var p := Prefix(key, Ones(mask, 0));
      if r == FAULT then m' == m else (r == OK <==> p in m) && m' == m - {p}
    ensures RouteDeleted(TableOf(m), TableOf(m'), key, mask, r)
  {
    ShortTable(m);
    forall n | Covers(mask, n)
      ensures r == FAULT <==> n == 0 && forall bits :: bits in TableOf(m) ==> bits == []
      ensures if r == FAULT then TableOf(m') == TableOf(m)
        else (r == OK <==> key[..n] in TableOf(m)) && TableOf(m') == TableOf(m) - {key[..n]}
    {
      InBits(m, key, mask, n, 0);
    }
  }

  /** The first k bits of the key are stored, and no longer prefix of it is. */
  ghost predicate LongestAt(t: Table, key: Word, k: int) {
    0 <= k <= 32 && key[..k] in t && forall j :: k < j <= 32 ==> key[..j] !in t
  }

  /** The value of the longest stored prefix, in terms of the first bits of the key. */
  lemma LongestBits(m: Prefixes, key: Word)
    ensures forall k :: LongestAt(TableOf(m), key, k) ==> Longest(m, key, 32) == TableOf(m)[key[..k]]
    ensures (forall k :: 0 <= k <= 32 ==> key[..k] !in TableOf(m)) ==> Longest(m, key, 32) == NO_VALUE
  {
    forall k | 0 <= k <= 32
      ensures (Prefix(key, k) in m <==> key[..k] in TableOf(m))
      ensures key[..k] in TableOf(m) ==> TableOf(m)[key[..k]] == m[Prefix(key, k)]
    {
      PrefixIsBits(key, k);
      InTable(m, key[..k]);
    }
    forall k | LongestAt(TableOf(m), key, k) ensures Longest(m, key, 32) == TableOf(m)[key[..k]] {
      LongestFound(m, key, 32, k);
    }
    if forall k :: 0 <= k <= 32 ==> key[..k] !in TableOf(m) {
      LongestNone(m, key, 32);
    }
  }

  // ----- the linked structure

  ghost function At(nodes: map<Path, Ptr>, p: Path): Ptr {
    if p in nodes then nodes[p] else NULL
  }

  /** The pointers of the node at `p` are those of its neighbours. */
  ghost predicate NodeOk(mem: Memory, nodes: map<Path, Ptr>, p: Path)
    requires p in nodes
  {
    && nodes[p] != NULL && nodes[p] in mem && Depth(p) <= 32
    && mem[nodes[p]].left == At(nodes, Step(p, false))
    && mem[nodes[p]].right == At(nodes, Step(p, true))
    && (p.Step? ==> p.up in nodes)
    && mem[nodes[p]].parent == (if p.Root? then NULL else nodes[p.up])
  }

  /** `place` is the inverse of `nodes`. */
  ghost predicate Linked(mem: Memory, nodes: map<Path, Ptr>, place: map<Ptr, Path>) {
    && Root in nodes
    && (forall p {:trigger NodeOk(mem, nodes, p)} :: p in nodes ==> NodeOk(mem, nodes, p))
    && (forall p :: p in nodes ==> nodes[p] in place && place[nodes[p]] == p)
    && (forall n :: n in place ==> place[n] in nodes && nodes[place[n]] == n && n in mem && n != NULL)
  }

  /** The free list, threaded through the right pointers. */
  ghost predicate Chain(mem: Memory, head: Ptr, list: seq<Ptr>)
    decreases |list|
  {
    if list == [] then head == NULL
    else head == list[0] && head != NULL && head in mem && head !in list[1..] && Chain(mem, mem[head].right, list[1..])
  }

  ghost predicate Bare(nodes: map<Path, Ptr>, p: Path) {
    Step(p, false) !in nodes && Step(p, true) !in nodes
  }

  ghost predicate Valued(mem: Memory, nodes: map<Path, Ptr>, p: Path)
    requires p in nodes
  {
    nodes[p] in mem && mem[nodes[p]].value != NO_VALUE
  }

  /** A node without children and without a value, other than the root, does not stay in the trie. */
  ghost predicate Lean(mem: Memory, nodes: map<Path, Ptr>, except: Path) {
    forall p :: p in nodes && p != Root && p != except && Bare(nodes, p) ==> Valued(mem, nodes, p)
  }

  ghost function Values(mem: Memory, nodes: map<Path, Ptr>): Prefixes {
    map p | p in nodes && Valued(mem, nodes, p) :: mem[nodes[p]].value
  }

  /** Below every position that the trie has, some prefix is stored. */
  lemma {:induction false} StoredBelow(mem: Memory, nodes: map<Path, Ptr>, place: map<Ptr, Path>, p: Path)
      returns (q: Path)
    requires Linked(mem, nodes, place) && Lean(mem, nodes, Root) && p in nodes && p != Root
    ensures q in Values(mem, nodes) && q != Root
    decreases 32 - Depth(p)
  {
    assert NodeOk(mem, nodes, p);
    if Bare(nodes, p) {
      q := p;
    } else {
      var c := if Step(p, false) in nodes then Step(p, false) else Step(p, true);
      assert NodeOk(mem, nodes, c);
      q := StoredBelow(mem, nodes, place, c);
    }
  }

  /** Above every position other than the root there is a child of the root. */
  lemma {:induction false} RootHasChild(mem: Memory, nodes: map<Path, Ptr>, place: map<Ptr, Path>, p: Path)
    requires Linked(mem, nodes, place) && p in nodes && p != Root
    ensures !Bare(nodes, Root)
  {
    assert NodeOk(mem, nodes, p);
    if p.up != Root {
      RootHasChild(mem, nodes, place, p.up);
    } else {
      assert p == Step(Root, false) || p == Step(Root, true);
    }
  }

  /** The trie is only a root exactly if no prefix is stored but that of length 0. */
  lemma OnlyRoot(mem: Memory, nodes: map<Path, Ptr>, place: map<Ptr, Path>)
    requires Linked(mem, nodes, place) && Lean(mem, nodes, Root)
    ensures Bare(nodes, Root) <==> NothingLonger(Values(mem, nodes))
  {
    if !Bare(nodes, Root) {
      var c := if Step(Root, false) in nodes then Step(Root, false) else Step(Root, true);
      var q := StoredBelow(mem, nodes, place, c);
    }
    forall p | p in Values(mem, nodes) && p != Root ensures !Bare(nodes, Root) {
      RootHasChild(mem, nodes, place, p);
    }
  }

  /** One step of a descent along a key: what the node at depth i says, and where it leads. */
  lemma Descend(mem: Memory, nodes: map<Path, Ptr>, place: map<Ptr, Path>, key: Word, i: int)
    requires Linked(mem, nodes, place) && 0 <= i <= 32 && Prefix(key, i) in nodes
    ensures var n := nodes[Prefix(key, i)];
      && n in mem && n != NULL
      && (if Test(key, i) then mem[n].right else mem[n].left) == At(nodes, Step(Prefix(key, i), Test(key, i)))
      && (i == 32 ==> Bare(nodes, Prefix(key, i)))
      && (Prefix(key, i) in Values(mem, nodes) <==> mem[n].value != NO_VALUE)
      && (mem[n].value != NO_VALUE ==> Values(mem, nodes)[Prefix(key, i)] == mem[n].value)
  {
    var p := Prefix(key, i);
    assert NodeOk(mem, nodes, p);
    if i == 32 {
      assert Step(p, false) in nodes ==> NodeOk(mem, nodes, Step(p, false));
      assert Step(p, true) in nodes ==> NodeOk(mem, nodes, Step(p, true));
    }
  }

  lemma {:induction false} NothingBelow(mem: Memory, nodes: map<Path, Ptr>, place: map<Ptr, Path>, key: Word, i: int,
                                        k: int)
    requires Linked(mem, nodes, place) && 0 <= i <= k && Prefix(key, i) !in nodes
    ensures Prefix(key, k) !in nodes
  {
    if i < k {
      NothingBelow(mem, nodes, place, key, i, k - 1);
      assert Prefix(key, k) in nodes ==> NodeOk(mem, nodes, Prefix(key, k));
    }
  }

  // ----- what each change keeps

  function WithChild(e: Node, bit: bool, n: Ptr): Node {
    if bit then e.(right := n) else e.(left := n)
  }

  ghost function Grafting(mem: Memory, nodes: map<Path, Ptr>, p: Path, b: bool, n: Ptr): Memory
    requires p in nodes && nodes[p] in mem
  {
    mem[n := Node(NULL, NULL, nodes[p], NO_VALUE)][nodes[p] := WithChild(mem[nodes[p]], b, n)]
  }

  lemma GraftedAt(mem: Memory, nodes: map<Path, Ptr>, place: map<Ptr, Path>, p: Path, b: bool, n: Ptr, r: Path)
    requires Linked(mem, nodes, place) && p in nodes && nodes[p] in mem && Step(p, b) !in nodes && Depth(p) < 32
    requires n !in place && n != NULL && (r in nodes || r == Step(p, b))
    ensures var q, mem' := Step(p, b), Grafting(mem, nodes, p, b, n);
      NodeOk(mem', nodes[q := n], r) && (r != q ==> nodes[r] in mem && mem'[nodes[r]].value == mem[nodes[r]].value)
  {
    var q := Step(p, b);
    assert NodeOk(mem, nodes, p);
    if r == q {
      assert Step(q, false) in nodes ==> NodeOk(mem, nodes, Step(q, false));
      assert Step(q, true) in nodes ==> NodeOk(mem, nodes, Step(q, true));
    } else {
      assert NodeOk(mem, nodes, r);
    }
  }

  /** A new node without children, below the node at `p`. */
  lemma Grafted(mem: Memory, nodes: map<Path, Ptr>, place: map<Ptr, Path>, p: Path, b: bool, n: Ptr)
    requires Linked(mem, nodes, place) && p in nodes && nodes[p] in mem && Step(p, b) !in nodes && Depth(p) < 32
    requires n !in place && n != NULL
    ensures Linked(Grafting(mem, nodes, p, b, n), nodes[Step(p, b) := n], place[n := Step(p, b)])
  {
    var mem', nodes', place' := Grafting(mem, nodes, p, b, n), nodes[Step(p, b) := n], place[n := Step(p, b)];
    forall r | r in nodes'
      ensures NodeOk(mem', nodes', r) && nodes'[r] in place' && place'[nodes'[r]] == r
    {
      GraftedAt(mem, nodes, place, p, b, n, r);
    }
  }

  lemma GraftedValues(mem: Memory, nodes: map<Path, Ptr>, place: map<Ptr, Path>, p: Path, b: bool, n: Ptr)
    requires Linked(mem, nodes, place) && p in nodes && nodes[p] in mem && Step(p, b) !in nodes && Depth(p) < 32
    requires n !in place && n != NULL
    ensures Values(Grafting(mem, nodes, p, b, n), nodes[Step(p, b) := n]) == Values(mem, nodes)
  {
    var mem', nodes' := Grafting(mem, nodes, p, b, n), nodes[Step(p, b) := n];
    forall r | r in nodes
      ensures nodes'[r] == nodes[r] && nodes[r] in mem && mem'[nodes[r]].value == mem[nodes[r]].value
    {
      GraftedAt(mem, nodes, place, p, b, n, r);
    }
    assert Values(mem', nodes').Keys == Values(mem, nodes).Keys;
  }

  lemma GraftedLean(mem: Memory, nodes: map<Path, Ptr>, place: map<Ptr, Path>, p: Path, b: bool, n: Ptr)
    requires Linked(mem, nodes, place) && p in nodes && nodes[p] in mem && Step(p, b) !in nodes && Depth(p) < 32
    requires n !in place && n != NULL && Lean(mem, nodes, p)
    ensures Lean(Grafting(mem, nodes, p, b, n), nodes[Step(p, b) := n], Step(p, b))
    ensures Bare(nodes[Step(p, b) := n], Step(p, b))
  {
    var q := Step(p, b);
    var mem', nodes' := Grafting(mem, nodes, p, b, n), nodes[q := n];
    GraftedAt(mem, nodes, place, p, b, n, q);
    assert Step(q, false) in nodes ==> NodeOk(mem, nodes, Step(q, false));
    assert Step(q, true) in nodes ==> NodeOk(mem, nodes, Step(q, true));
    forall r | r in nodes' && r != Root && r != q && Bare(nodes', r)
      ensures Valued(mem', nodes', r)
    {
      assert r != p && Bare(nodes, r) && Valued(mem, nodes, r);
      GraftedAt(mem, nodes, place, p, b, n, r);
    }
  }

  /** A node without children leaves, and its address stays in memory. */
  lemma Pruned(mem: Memory, nodes: map<Path, Ptr>, place: map<Ptr, Path>, q: Path, e: Node)
    requires Linked(mem, nodes, place) && q in nodes && q.Step? && q.up in nodes && Bare(nodes, q)
    ensures nodes[q] in place && nodes[q.up] in mem && nodes[q.up] != nodes[q]
    ensures var mem' := mem[nodes[q.up] := WithChild(mem[nodes[q.up]], q.bit, NULL)][nodes[q] := e];
      var nodes', place' := nodes - {q}, place - {nodes[q]};
      Linked(mem', nodes', place') && Values(mem', nodes') == Values(mem, nodes) - {q}
  {
    var p := q.up;
    assert NodeOk(mem, nodes, p) && NodeOk(mem, nodes, q) && p != q;
    var mem' := mem[nodes[p] := WithChild(mem[nodes[p]], q.bit, NULL)][nodes[q] := e];
    var nodes', place' := nodes - {q}, place - {nodes[q]};
    forall r | r in nodes'
      ensures NodeOk(mem', nodes', r) && nodes'[r] in place' && place'[nodes'[r]] == r
      ensures mem'[nodes[r]].value == mem[nodes[r]].value
    {
      assert NodeOk(mem, nodes, r);
      assert r.Step? && r.up == q ==> r !in nodes;
    }
    assert Values(mem', nodes') == Values(mem, nodes) - {q};
  }

  /** Only the value of the node at `p` changes. */
  lemma Valued1(mem: Memory, nodes: map<Path, Ptr>, place: map<Ptr, Path>, p: Path, value: int)
    requires Linked(mem, nodes, place) && p in nodes
    ensures nodes[p] in mem
    ensures var mem' := mem[nodes[p] := mem[nodes[p]].(value := value)];
      && Linked(mem', nodes, place)
      && Values(mem', nodes) == if value == NO_VALUE then Values(mem, nodes) - {p} else Values(mem, nodes)[p := value]
  {
    assert NodeOk(mem, nodes, p);
    var mem' := mem[nodes[p] := mem[nodes[p]].(value := value)];
    forall r | r in nodes
      ensures NodeOk(mem', nodes, r)
      ensures r != p ==> mem'[nodes[r]].value == mem[nodes[r]].value
    {
      assert NodeOk(mem, nodes, r);
    }
  }

  lemma PrunedLean(mem: Memory, nodes: map<Path, Ptr>, place: map<Ptr, Path>, q: Path, e: Node)
    requires Linked(mem, nodes, place) && q in nodes && q.Step? && q.up in nodes && Bare(nodes, q)
    requires Lean(mem, nodes, q)
    requires nodes[q.up] in mem && nodes[q.up] != nodes[q]
    ensures var mem' := mem[nodes[q.up] := WithChild(mem[nodes[q.up]], q.bit, NULL)][nodes[q] := e];
      Lean(mem', nodes - {q}, q.up)
  {
    var mem' := mem[nodes[q.up] := WithChild(mem[nodes[q.up]], q.bit, NULL)][nodes[q] := e];
    var nodes' := nodes - {q};
    forall r | r in nodes' && r != Root && r != q.up && Bare(nodes', r)
      ensures Valued(mem', nodes', r)
    {
      assert Bare(nodes, r) && Valued(mem, nodes, r);
    }
  }

  lemma ValuedLean(mem: Memory, nodes: map<Path, Ptr>, place: map<Ptr, Path>, p: Path, value: int)
    requires Linked(mem, nodes, place) && p in nodes && nodes[p] in mem
    requires if value == NO_VALUE then Lean(mem, nodes, Root) && !Bare(nodes, p) else Lean(mem, nodes, p)
    ensures Lean(mem[nodes[p] := mem[nodes[p]].(value := value)], nodes, Root)
  {
    var mem' := mem[nodes[p] := mem[nodes[p]].(value := value)];
    forall r | r in nodes && r != Root && Bare(nodes, r)
      ensures Valued(mem', nodes, r)
    {
      assert r != p ==> Valued(mem, nodes, r);
    }
  }

  /** The free list does not see changes outside it. */
  lemma {:induction false} ChainFrame(mem: Memory, mem': Memory, head: Ptr, list: seq<Ptr>)
    requires Chain(mem, head, list) && forall n :: n in list ==> n in mem && n in mem' && mem'[n] == mem[n]
    ensures Chain(mem', head, list)
    decreases |list|
  {
    if list != [] {
      ChainFrame(mem, mem', mem[head].right, list[1..]);
    }
  }

  datatype Deletion = OK | ERROR | FAULT

  class Tree {
    var mem: Memory
    const root: Ptr
    var free: Ptr
    var start: Ptr    // everything from here on is unused
    ghost var nodes: map<Path, Ptr>
    ghost var place: map<Ptr, Path>
    ghost var list: seq<Ptr>

    /** Every node ever allocated, those below `start`, is in the trie or in the free list, and not in both. */
    ghost predicate Conserved()
      reads this
    {
      && Chain(mem, free, list)
      && (forall n :: n in list ==> n in mem && n !in place)
      && (forall n :: n in mem ==> NULL < n < start && (n in place || n in list))
      && (forall n :: NULL < n < start ==> n in mem)
      && NULL < start
    }

    ghost predicate Core()
      reads this
    {
      Linked(mem, nodes, place) && root == nodes[Root] && Conserved()
    }

    ghost predicate Valid()
      reads this
    {
      Core() && Lean(mem, nodes, Root)
    }

    ghost function Content(): Prefixes
      reads this
    {
      Values(mem, nodes)
    }

    /** The routes in the tree. */
    ghost function Routes(): Table
      reads this
    {
      TableOf(Content())
    }

    constructor ()
      ensures Valid() && Content() == map[]
    {
      mem := map[1 := Node(NULL, NULL, NULL, NO_VALUE)];
      root, free, start := 1, NULL, 2;
      nodes, place, list := map[Root := 1], map[1 := Root], [];
    }

    /** ngx_radix32tree_find */
    method Find(key: Word) returns (value: int)
      requires Valid()
      ensures value == Longest(Content(), key, 32)
      ensures forall k :: LongestAt(Routes(), key, k) ==> value == Routes()[key[..k]]
      ensures (forall k :: 0 <= k <= 32 ==> key[..k] !in Routes()) ==> value == NO_VALUE
    {
      LongestBits(Content(), key);
      value := FindPath(key);
    }

    method FindPath(key: Word) returns (value: int)
      requires Valid()
      ensures value == Longest(Content(), key, 32)
    {
      var i := 0;
      value := NO_VALUE;
      var node := root;
      ghost var m := Content();
      while node != NULL
        invariant 0 <= i <= 33
        invariant node == if i <= 32 then At(nodes, Prefix(key, i)) else NULL
        invariant value == if i > 0 then Longest(m, key, i - 1) else NO_VALUE
        invariant i == 0 ==> node != NULL
        decreases 33 - i
      {
        Descend(mem, nodes, place, key, i);
        if mem[node].value != NO_VALUE {
          value := mem[node].value;
        }
        node := if Test(key, i) then mem[node].right else mem[node].left;
        i := i + 1;
      }
      Absent(key, i);
    }

    /** Below a missing position nothing is stored. */
    lemma {:induction false} Absent(key: Word, i: int)
      requires Linked(mem, nodes, place) && 0 < i <= 33 && (i <= 32 ==> Prefix(key, i) !in nodes)
      ensures Longest(Content(), key, 32) == Longest(Content(), key, i - 1)
      decreases 33 - i
    {
      if i <= 32 {
        if i < 32 {
          assert Prefix(key, i + 1) in nodes ==> NodeOk(mem, nodes, Prefix(key, i + 1));
        }
        Absent(key, i + 1);
      }
    }

    /** ngx_radix_alloc: a node from the free list, or unused memory. */
    method Alloc() returns (p: Ptr)
      requires Core()
      modifies this`mem, this`free, this`start, this`list
      ensures Linked(mem, nodes, place) && Chain(mem, free, list) && NULL < p < start && p !in place && p !in list
      ensures forall n :: n in list ==> n in mem && n !in place
      ensures forall n :: n in mem ==> NULL < n < start && (n in place || n in list || n == p)
      ensures forall n :: NULL < n < start && n != p ==> n in mem
      ensures mem == old(mem) && Content() == old(Content())
    {
      if free != NULL {
        p := free;
        assert p in list && list[0] == p;
        assert forall n :: n in list ==> n == p || n in list[1..];
        free := mem[free].right;
        list := list[1..];
      } else {
        p := start;
        start := start + 1;
      }
    }

    /** A new node is linked below the node at `p`. */
    method AddChild(node: Ptr, bit: bool, ghost p: Path) returns (next: Ptr)
      requires Core() && p in nodes && node == nodes[p] && Step(p, bit) !in nodes && Depth(p) < 32
      requires Lean(mem, nodes, p)
      modifies this`mem, this`free, this`start, this`list, this`nodes, this`place
      ensures Core() && nodes == old(nodes)[Step(p, bit) := next] && next != NULL && Bare(nodes, Step(p, bit))
      ensures Content() == old(Content()) && Lean(mem, nodes, Step(p, bit))
    {
      next := Alloc();
      ghost var mem0 := mem;
      Grafted(mem, nodes, place, p, bit, next);
      GraftedValues(mem, nodes, place, p, bit, next);
      GraftedLean(mem, nodes, place, p, bit, next);
      mem := mem[next := Node(NULL, NULL, node, NO_VALUE)];
      mem := mem[node := WithChild(mem[node], bit, next)];
      nodes := nodes[Step(p, bit) := next];
      place := place[next := Step(p, bit)];
      ChainFrame(mem0, mem, free, list);
    }

    /** node->value = value, and no value takes a node with children out of the content only. */
    method SetValue(node: Ptr, value: int, ghost p: Path)
      requires Core() && p in nodes && node == nodes[p]
      requires if value == NO_VALUE then Lean(mem, nodes, Root) && !Bare(nodes, p) else Lean(mem, nodes, p)
      modifies this`mem
      ensures Valid()
      ensures Content() == if value == NO_VALUE then old(Content()) - {p} else old(Content())[p := value]
    {
      Valued1(mem, nodes, place, p, value);
      ValuedLean(mem, nodes, place, p, value);
      ghost var mem0 := mem;
      mem := mem[node := mem[node].(value := value)];
      ChainFrame(mem0, mem, free, list);
    }

    /** The first loop of insertion: as far down as the trie goes along the masked key. */
    method Walk(key: Word, mask: Word) returns (node: Ptr, next: Ptr, i: int)
      requires Core()
      ensures 0 <= i <= Ones(mask, 0) == Ones(mask, i) && Prefix(key, i) in nodes && node == nodes[Prefix(key, i)]
      ensures next != NULL <==> i == Ones(mask, 0)
      ensures next == NULL ==> Test(mask, i) && Prefix(key, i + 1) !in nodes
    {
      i, node, next := 0, root, root;
      assert NodeOk(mem, nodes, Root);
      while Test(mask, i)
        invariant 0 <= i <= Ones(mask, 0) == Ones(mask, i) && next != NULL
        invariant Prefix(key, i) in nodes && node == nodes[Prefix(key, i)]
        decreases 32 - i
      {
        Descend(mem, nodes, place, key, i);
        next := if Test(key, i) then mem[node].right else mem[node].left;
        if next == NULL {
          break;
        }
        assert NodeOk(mem, nodes, Prefix(key, i + 1));
        i := i + 1;
        node := next;
      }
    }

    /**
      ngx_radix32tree_insert, in terms of the first bits of the key: the route is new,
      and false stands for NGX_BUSY.
     */
    method Insert(key: Word, mask: Word, value: int) returns (ok: bool)
      requires Valid() && value != NO_VALUE
      modifies this
      ensures Valid()
      ensures var p := Prefix(key, Ones(mask, 0));
        && ok == (p !in old(Content()))
        && Content() == if ok then old(Content())[p := value] else old(Content())
      ensures RouteInserted(old(Routes()), Routes(), key, mask, value, ok)
    {
      ghost var m := Content();
      ok := InsertPath(key, mask, value);
      InsertedBits(m, Content(), key, mask, value, ok);
    }

    /** The same in terms of positions. */
    method InsertPath(key: Word, mask: Word, value: int) returns (ok: bool)
      requires Valid() && value != NO_VALUE
      modifies this
      ensures Valid()
      ensures var p := Prefix(key, Ones(mask, 0));
        && ok == (p !in old(Content()))
        && Content() == if ok then old(Content())[p := value] else old(Content())
    {
      var node, next, i := Walk(key, mask);
      Descend(mem, nodes, place, key, i);
      if next != NULL {
        if mem[node].value != NO_VALUE {
          return false;
        }
        SetValue(node, value, Prefix(key, i));
        return true;
      }
      NothingBelow(mem, nodes, place, key, i + 1, Ones(mask, 0));
      node := AddPath(node, key, mask, i);
      SetValue(node, value, Prefix(key, Ones(mask, 0)));
      ok := true;
    }

    /** The second loop of insertion: the rest of the path is added. */
    method AddPath(node0: Ptr, key: Word, mask: Word, i0: int) returns (node: Ptr)
      requires Core() && 0 <= i0 <= Ones(mask, 0) == Ones(mask, i0) && Prefix(key, i0) in nodes
      requires node0 == nodes[Prefix(key, i0)] && Lean(mem, nodes, Prefix(key, i0))
      requires Step(Prefix(key, i0), Test(key, i0)) !in nodes
      modifies this
      ensures Core() && Content() == old(Content()) && Prefix(key, Ones(mask, 0)) in nodes
      ensures node == nodes[Prefix(key, Ones(mask, 0))] && Lean(mem, nodes, Prefix(key, Ones(mask, 0)))
    {
      var i := i0;
      node := node0;
      while Test(mask, i)
        invariant Core() && 0 <= i <= Ones(mask, 0) == Ones(mask, i) && Prefix(key, i) in nodes
        invariant node == nodes[Prefix(key, i)]
        invariant Lean(mem, nodes, Prefix(key, i)) && Content() == old(Content())
        invariant Step(Prefix(key, i), Test(key, i)) !in nodes
        decreases 32 - i
      {
        node := AddChild(node, Test(key, i), Prefix(key, i));
        i := i + 1;
      }
    }

    /** A node without children is unlinked from its parent and goes to the free list. */
    method Prune(node: Ptr, ghost q: Path) returns (parent: Ptr)
      requires Core() && q in nodes && q.Step? && node == nodes[q] && Bare(nodes, q) && Lean(mem, nodes, q)
      modifies this`mem, this`free, this`list, this`nodes, this`place
      ensures Core() && nodes == old(nodes) - {q} && q.up in nodes && parent == nodes[q.up]
      ensures Content() == old(Content()) - {q} && Lean(mem, nodes, q.up)
      ensures list == [node] + old(list)
    {
      assert NodeOk(mem, nodes, q);
      parent := mem[node].parent;
      assert NodeOk(mem, nodes, q.up);
      ghost var mem0 := mem;
      Pruned(mem, nodes, place, q, mem[node].(right := free));
      PrunedLean(mem, nodes, place, q, mem[node].(right := free));
      mem := mem[parent := WithChild(mem[parent], mem[parent].right == node, NULL)];
      mem := mem[node := mem[node].(right := free)];
      ChainFrame(mem0, mem, free, list);
      free := node;
      list := [node] + list;
      assert list[1..] == old(list);
      nodes := nodes - {q};
      place := place - {node};
    }

    /** The first loop of deletion: the node of the masked key, or NULL. */
    method Lookup(key: Word, mask: Word) returns (node: Ptr)
      requires Core()
      ensures node == At(nodes, Prefix(key, Ones(mask, 0)))
    {
      var i := 0;
      node := root;
      assert NodeOk(mem, nodes, Root);
      while node != NULL && Test(mask, i)
        invariant 0 <= i <= Ones(mask, 0) == Ones(mask, i) && node == At(nodes, Prefix(key, i))
        decreases 32 - i
      {
        Descend(mem, nodes, place, key, i);
        node := if Test(key, i) then mem[node].right else mem[node].left;
        i := i + 1;
      }
      if node == NULL {
        NothingBelow(mem, nodes, place, key, i, Ones(mask, 0));
      }
    }

    /**
      ngx_radix32tree_delete, in terms of the first bits of the key: the route goes, if
      it is there.
     */
    method Delete(key: Word, mask: Word) returns (r: Deletion)
      requires Valid()
      modifies this
      ensures Valid() && start == old(start)
      ensures r == FAULT <==> Ones(mask, 0) == 0 && NothingLonger(old(Content()))
      ensures var p := Prefix(key, Ones(mask, 0));
        if r == FAULT then Content() == old(Content())
        else (r == OK <==> p in old(Content())) && Content() == old(Content()) - {p}
      ensures RouteDeleted(old(Routes()), Routes(), key, mask, r)
    {
      ghost var m := Content();
      r := DeletePath(key, mask);
      DeletedBits(m, Content(), key, mask, r);
    }

    /**
      The same in terms of positions.  The prefix of length 0 in a tree that stores no longer one
      is a fault: the code follows the parent pointer of the root.
     */
    method DeletePath(key: Word, mask: Word) returns (r: Deletion)
      requires Valid()
      modifies this
      ensures Valid() && start == old(start)
      ensures r == FAULT <==> Ones(mask, 0) == 0 && NothingLonger(old(Content()))
      ensures var p := Prefix(key, Ones(mask, 0));
        if r == FAULT then Content() == old(Content())
        else (r == OK <==> p in old(Content())) && Content() == old(Content()) - {p}
    {
      OnlyRoot(mem, nodes, place);
      var node := Lookup(key, mask);
      ghost var p := Prefix(key, Ones(mask, 0));
      assert NodeOk(mem, nodes, Root);
      if node == NULL {
        return ERROR;
      }
      assert NodeOk(mem, nodes, p);
      assert Step(p, false) in nodes ==> NodeOk(mem, nodes, Step(p, false));
      assert Step(p, true) in nodes ==> NodeOk(mem, nodes, Step(p, true));
      if mem[node].right != NULL || mem[node].left != NULL {
        if mem[node].value != NO_VALUE {
          SetValue(node, NO_VALUE, p);
          return OK;
        }
        return ERROR;
      }
      if mem[node].parent == NULL {
        return FAULT;
      }
      PruneUp(node, p);
      r := OK;
    }

    /** The last loop of deletion: the node goes, and then every ancestor it leaves without a purpose. */
    method PruneUp(node0: Ptr, ghost p: Path)
      requires Valid() && p in nodes && p.Step? && node0 == nodes[p] && Bare(nodes, p)
      modifies this`mem, this`free, this`list, this`nodes, this`place
      ensures Valid() && Content() == old(Content()) - {p}
    {
      var node := Prune(node0, p);
      ghost var q := p.up;
      while true
        invariant Core() && q in nodes && node == nodes[q] && Lean(mem, nodes, q)
        invariant Content() == old(Content()) - {p}
        decreases q
      {
        assert NodeOk(mem, nodes, q);
        assert Step(q, false) in nodes ==> NodeOk(mem, nodes, Step(q, false));
        assert Step(q, true) in nodes ==> NodeOk(mem, nodes, Step(q, true));
        if mem[node].right != NULL || mem[node].left != NULL {
          break;
        }
        if mem[node].value != NO_VALUE {
          break;
        }
        if mem[node].parent == NULL {
          break;
        }
        assert q !in Content();
        node := Prune(node, q);
        q := q.up;
      }
    }
  }

  /** A run that faults: the value of the prefix of length 0 is inserted and deleted. */
  method FaultExample(key: Word, mask: Word, value: int) returns (r: Deletion)
    requires !mask[0] && value != NO_VALUE
    ensures r == FAULT
  {
    var t := new Tree();
    var ok := t.Insert(key, mask, value);
    r := t.Delete(key, mask);
  }

  /** The same deletion succeeds as long as any longer prefix is stored. */
  method NoFaultExample(key: Word, mask: Word, longer: Word, value: int) returns (r: Deletion)
    requires !mask[0] && longer[0] && value != NO_VALUE
    ensures r == OK
  {
    var t := new Tree();
    var ok := t.Insert(key, longer, value);
    ghost var p := Prefix(key, Ones(longer, 0));
    assert p in t.Content() && p != Root;
    ok := t.Insert(key, mask, value);
    assert p in t.Content();
    r := t.Delete(key, mask);
  }
}
