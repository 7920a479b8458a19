/**
  The intrusive red-black tree of nginx: nodes carry their own links, the tree
  object holds a root and a shared black sentinel, and every operation rewrites
  left, right, parent and color in place.

  A `Shape` is the value of a (sub)tree and a `Ctx` is a shape with one hole, so
  a loop that climbs or descends the tree keeps `Focus(c, t)`: the heap is
  exactly the shape `t` plugged into the hole of `c`.
 */
module RedBlackTree {

  /** The address of a node. */
  type Ptr = int

  const NULL: Ptr := 0

  /** The fields of one node. */
  datatype Record = Record(key: int, left: Ptr, right: Ptr, parent: Ptr, red: bool)

  type Memory = map<Ptr, Record>

  // The assignments `n->left = v`, and so on.

  function SetLeft(m: Memory, n: Ptr, v: Ptr): Memory
    requires n in m
  {
    m[n := m[n].(left := v)]
  }

  function SetRight(m: Memory, n: Ptr, v: Ptr): Memory
    requires n in m
  {
    m[n := m[n].(right := v)]
  }

  function SetParent(m: Memory, n: Ptr, v: Ptr): Memory
    requires n in m
  {
    m[n := m[n].(parent := v)]
  }

  function SetRed(m: Memory, n: Ptr, v: bool): Memory
    requires n in m
  {
    m[n := m[n].(red := v)]
  }

  /** A node together with the key it holds. */
  datatype Cell = Cell(node: Ptr, key: int)

  datatype Shape = Nil | Fork(left: Shape, cell: Cell, red: bool, right: Shape)

  datatype Ctx =
    | Top
    | InLeft(up: Ctx, cell: Cell, red: bool, right: Shape)
    | InRight(up: Ctx, left: Shape, cell: Cell, red: bool)

  // ----- shapes as values

  ghost function Items(t: Shape): seq<Cell> {
    match t
    case Nil => []
    case Fork(l, x, _, r) => Items(l) + [x] + Items(r)
  }

  ghost function Nodes(t: Shape): set<Ptr> {
    match t
    case Nil => {}
    case Fork(l, x, _, r) => Nodes(l) + {x.node} + Nodes(r)
  }

  /** No node occurs twice. */
  ghost predicate Distinct(t: Shape) {
    match t
    case Nil => true
    case Fork(l, x, _, r) =>
      Distinct(l) && Distinct(r) && x.node !in Nodes(l) && x.node !in Nodes(r) && Nodes(l) !! Nodes(r)
  }

  ghost function Plug(c: Ctx, t: Shape): Shape
    decreases c
  {
    match c
    case Top => t
    case InLeft(up, x, red, r) => Plug(up, Fork(t, x, red, r))
    case InRight(up, l, x, red) => Plug(up, Fork(l, x, red, t))
  }

  ghost function Before(c: Ctx): seq<Cell> {
    match c
    case Top => []
    case InLeft(up, _, _, _) => Before(up)
    case InRight(up, l, x, _) => Before(up) + Items(l) + [x]
  }

  ghost function After(c: Ctx): seq<Cell> {
    match c
    case Top => []
    case InLeft(up, x, _, r) => [x] + Items(r) + After(up)
    case InRight(up, _, _, _) => After(up)
  }

  ghost function CtxNodes(c: Ctx): set<Ptr> {
    match c
    case Top => {}
    case InLeft(up, x, _, r) => CtxNodes(up) + {x.node} + Nodes(r)
    case InRight(up, l, x, _) => CtxNodes(up) + {x.node} + Nodes(l)
  }

  ghost predicate CtxDistinct(c: Ctx) {
    match c
    case Top => true
    case InLeft(up, x, _, r) =>
      CtxDistinct(up) && Distinct(r) && x.node !in Nodes(r) && x.node !in CtxNodes(up) && Nodes(r) !! CtxNodes(up)
    case InRight(up, l, x, _) =>
      CtxDistinct(up) && Distinct(l) && x.node !in Nodes(l) && x.node !in CtxNodes(up) && Nodes(l) !! CtxNodes(up)
  }

  ghost function Depth(c: Ctx): nat {
    if c.Top? then 0 else 1 + Depth(c.up)
  }

  /** The node at the outermost frame. */
  ghost function TopNode(c: Ctx): Ptr
    requires !c.Top?
  {
    if c.up.Top? then c.cell.node else TopNode(c.up)
  }

  /** The frames of `inner` placed below those of `outer`. */
  ghost function Compose(outer: Ctx, inner: Ctx): Ctx {
    match inner
    case Top => outer
    case InLeft(up, x, red, r) => InLeft(Compose(outer, up), x, red, r)
    case InRight(up, l, x, red) => InRight(Compose(outer, up), l, x, red)
  }

  lemma Regroup(a: seq<Cell>, b: seq<Cell>, c: seq<Cell>, d: seq<Cell>, e: seq<Cell>)
    ensures a + (b + c + d) + e == a + b + (c + d + e)
    ensures a + (b + c + d) + e == (a + b + c) + d + e
  {
  }

  lemma {:induction false} PlugItems(c: Ctx, t: Shape)
    ensures Items(Plug(c, t)) == Before(c) + Items(t) + After(c)
    decreases c
  {
    match c
    case Top =>
    case InLeft(up, x, red, r) =>
      PlugItems(up, Fork(t, x, red, r));
      Regroup(Before(up), Items(t), [x], Items(r), After(up));
    case InRight(up, l, x, red) =>
      PlugItems(up, Fork(l, x, red, t));
      Regroup(Before(up), Items(l), [x], Items(t), After(up));
  }

  lemma {:induction false} PlugNodes(c: Ctx, t: Shape)
    ensures Nodes(Plug(c, t)) == CtxNodes(c) + Nodes(t)
    decreases c
  {
    match c
    case Top =>
    case InLeft(up, x, red, r) => PlugNodes(up, Fork(t, x, red, r));
    case InRight(up, l, x, red) => PlugNodes(up, Fork(l, x, red, t));
  }

  lemma {:induction false} PlugCompose(outer: Ctx, inner: Ctx, t: Shape)
    ensures Plug(Compose(outer, inner), t) == Plug(outer, Plug(inner, t))
    decreases inner
  {
    match inner
    case Top =>
    case InLeft(up, x, red, r) => PlugCompose(outer, up, Fork(t, x, red, r));
    case InRight(up, l, x, red) => PlugCompose(outer, up, Fork(l, x, red, t));
  }

  /** The nodes of an item sequence. */
  ghost predicate Holds(s: seq<Cell>, x: Ptr) {
    exists i :: 0 <= i < |s| && s[i].node == x
  }

  lemma HoldsConcat(a: seq<Cell>, b: seq<Cell>, x: Ptr)
    ensures Holds(a + b, x) <==> Holds(a, x) || Holds(b, x)
  {
    if Holds(a, x) {
      var i :| 0 <= i < |a| && a[i].node == x;
      assert (a + b)[i] == a[i];
    }
    if Holds(b, x) {
      var i :| 0 <= i < |b| && b[i].node == x;
      assert (a + b)[|a| + i] == b[i];
    }
  }

  lemma {:induction false} ItemsNodes(t: Shape, x: Ptr)
    ensures x in Nodes(t) <==> Holds(Items(t), x)
  {
    match t
    case Nil =>
    case Fork(l, y, _, r) =>
      ItemsNodes(l, x);
      ItemsNodes(r, x);
      HoldsConcat(Items(l), [y], x);
      HoldsConcat(Items(l) + [y], Items(r), x);
      assert Holds([y], x) <==> y.node == x by {
        assert [y][0] == y;
      }
  }

  /** A node has only one position in the order of a tree. */
  lemma {:induction false} ItemsDistinct(t: Shape, i: int, j: int)
    requires Distinct(t) && 0 <= i < j < |Items(t)|
    ensures Items(t)[i].node != Items(t)[j].node
  {
    var k := |Items(t.left)|;
    var s := Items(t);
    ItemsNodes(t.left, s[i].node);
    ItemsNodes(t.right, s[j].node);
    if j < k {
      ItemsDistinct(t.left, i, j);
    } else if i > k {
      ItemsDistinct(t.right, i - k - 1, j - k - 1);
    } else {
      assert i < k ==> Items(t.left)[i] == s[i];
      assert j > k ==> Items(t.right)[j - k - 1] == s[j];
    }
  }

  ghost predicate Sorted(s: seq<Cell>) {
    forall i, j :: 0 <= i < j < |s| ==> s[i].key <= s[j].key
  }

  // ----- balance

  ghost predicate Red(t: Shape) {
    t.Fork? && t.red
  }

  /** Black nodes on the leftmost path, which is every path once `Even` holds. */
  ghost function BlackHeight(t: Shape): nat {
    match t
    case Nil => 0
    case Fork(l, _, red, _) => BlackHeight(l) + if red then 0 else 1
  }

  /** Equal black heights, and no red node with a red child. */
  ghost predicate Balanced(t: Shape) {
    match t
    case Nil => true
    case Fork(l, _, red, r) =>
      && Balanced(l) && Balanced(r) && BlackHeight(l) == BlackHeight(r)
      && (red ==> !Red(l) && !Red(r))
  }

  /** `Balanced` except that the root may be red above a red child. */
  ghost predicate BalancedBelow(t: Shape) {
    t.Fork? ==> Balanced(t.left) && Balanced(t.right) && BlackHeight(t.left) == BlackHeight(t.right)
  }

  ghost predicate RedCtx(c: Ctx) {
    !c.Top? && c.red
  }

  /** Plugging a balanced black tree of black height `h` gives a balanced tree with a black root. */
  ghost predicate CtxBalanced(c: Ctx, h: nat) {
    match c
    case Top => true
    case InLeft(up, _, red, r) =>
      && Balanced(r) && BlackHeight(r) == h && (red ==> !Red(r) && !RedCtx(up) && !up.Top?)
      && CtxBalanced(up, h + if red then 0 else 1)
    case InRight(up, l, _, red) =>
      && Balanced(l) && BlackHeight(l) == h && (red ==> !Red(l) && !RedCtx(up) && !up.Top?)
      && CtxBalanced(up, h + if red then 0 else 1)
  }

  lemma {:induction false} PlugBalanced(c: Ctx, t: Shape)
    requires Balanced(t) && CtxBalanced(c, BlackHeight(t))
    requires Red(t) ==> !c.Top? && !RedCtx(c)
    ensures Balanced(Plug(c, t)) && !Red(Plug(c, t))
    decreases c
  {
    match c
    case Top =>
    case InLeft(up, x, red, r) => PlugBalanced(up, Fork(t, x, red, r));
    case InRight(up, l, x, red) => PlugBalanced(up, Fork(l, x, red, t));
  }

  lemma {:induction false} UnplugBalanced(c: Ctx, t: Shape)
    requires Balanced(Plug(c, t)) && !Red(Plug(c, t))
    ensures Balanced(t) && CtxBalanced(c, BlackHeight(t))
    ensures Red(t) ==> !c.Top? && !RedCtx(c)
    decreases c
  {
    match c
    case Top =>
    case InLeft(up, x, red, r) => UnplugBalanced(up, Fork(t, x, red, r));
    case InRight(up, l, x, red) => UnplugBalanced(up, Fork(l, x, red, t));
  }

  ghost function Height(t: Shape): nat {
    match t
    case Nil => 0
    case Fork(l, _, _, r) => 1 + if Height(l) >= Height(r) then Height(l) else Height(r)
  }

  ghost function Pow2(n: nat): nat {
    if n == 0 then 1 else 2 * Pow2(n - 1)
  }

  lemma {:induction false} Pow2Add(m: nat, n: nat)
    ensures Pow2(m + n) == Pow2(m) * Pow2(n)
  {
    if m > 0 { Pow2Add(m - 1, n); }
  }

  lemma {:induction false} Pow2Mono(m: nat, n: nat)
    requires m <= n
    ensures Pow2(m) <= Pow2(n)
  {
    if m < n { Pow2Mono(m, n - 1); }
  }

  lemma {:induction false} SizeBound(t: Shape)
    requires Balanced(t)
    ensures Pow2(BlackHeight(t)) <= |Items(t)| + 1
    ensures Height(t) <= 2 * BlackHeight(t) + if Red(t) then 1 else 0
  {
    if t.Fork? {
      SizeBound(t.left);
      SizeBound(t.right);
    }
  }

  lemma SquareMono(p: nat, n: nat)
    requires p <= n
    ensures p * p <= n * n
  {
    assert n * n - p * p == (n - p) * (n + p);
  }

  /** A balanced tree with a black root is at most 2 log2(n + 1) high. */
  lemma LogarithmicHeight(t: Shape)
    requires Balanced(t) && !Red(t)
    ensures Pow2(Height(t)) <= (|Items(t)| + 1) * (|Items(t)| + 1)
  {
    SizeBound(t);
    var b := BlackHeight(t);
    Pow2Mono(Height(t), b + b);
    Pow2Add(b, b);
    SquareMono(Pow2(b), |Items(t)| + 1);
  }

  // ----- shapes in memory

  /** A memory with the root pointer, the sentinel and the set of linked nodes of a tree in it. */
  datatype Store = Store(mem: Memory, root: Ptr, s: Ptr, all: set<Ptr>)

  ghost function RootOf(t: Shape, s: Ptr): Ptr {
    if t.Nil? then s else t.cell.node
  }

  /** The child links, keys and colors from the root of `t` down are those of `t`. */
  ghost predicate Linked(m: Memory, t: Shape, s: Ptr) {
    match t
    case Nil => true
    case Fork(l, x, red, r) =>
      && x.node in m && m[x.node].key == x.key && m[x.node].red == red
      && m[x.node].left == RootOf(l, s) && m[x.node].right == RootOf(r, s)
      && Linked(m, l, s) && Linked(m, r, s)
  }

  /** The same around the hole of `c`, with `hole` as the child stored there. */
  ghost predicate LinkedCtx(m: Memory, c: Ctx, hole: Ptr, s: Ptr)
    decreases c
  {
    match c
    case Top => true
    case InLeft(up, x, red, r) =>
      && x.node in m && m[x.node].key == x.key && m[x.node].red == red
      && m[x.node].left == hole && m[x.node].right == RootOf(r, s)
      && Linked(m, r, s) && LinkedCtx(m, up, x.node, s)
    case InRight(up, l, x, red) =>
      && x.node in m && m[x.node].key == x.key && m[x.node].red == red
      && m[x.node].left == RootOf(l, s) && m[x.node].right == hole
      && Linked(m, l, s) && LinkedCtx(m, up, x.node, s)
  }

  /** Every child other than the sentinel points back to its one parent, and the root is no child. */
  ghost predicate Parents(h: Store) {
    h.all <= h.mem.Keys && forall n :: n in h.all ==> ChildOk(h, n)
  }

  ghost predicate ChildOk(h: Store, n: Ptr)
    requires n in h.all && h.all <= h.mem.Keys
  {
    var l, r := h.mem[n].left, h.mem[n].right;
    && (l == h.s || (l in h.all && h.mem[l].parent == n && l != h.root && l != r))
    && (r == h.s || (r in h.all && h.mem[r].parent == n && r != h.root))
  }

  ghost predicate Apart(c: Ctx, t: Shape) {
    Distinct(t) && CtxDistinct(c) && Nodes(t) !! CtxNodes(c)
  }

  lemma ApartLeft(c: Ctx, l: Shape, x: Cell, red: bool, r: Shape)
    ensures Apart(InLeft(c, x, red, r), l) <==> Apart(c, Fork(l, x, red, r))
    ensures CtxNodes(InLeft(c, x, red, r)) + Nodes(l) == CtxNodes(c) + Nodes(Fork(l, x, red, r))
  {
  }

  lemma ApartRight(c: Ctx, l: Shape, x: Cell, red: bool, r: Shape)
    ensures Apart(InRight(c, l, x, red), r) <==> Apart(c, Fork(l, x, red, r))
    ensures CtxNodes(InRight(c, l, x, red)) + Nodes(r) == CtxNodes(c) + Nodes(Fork(l, x, red, r))
  {
  }

  /** The store holds exactly `t` plugged into the hole of `c`; taken as one fact, for short proofs. */
  ghost predicate Focus(h: Store, c: Ctx, t: Shape) {
    InFocus(h, c, t) == true
  }

  ghost predicate InFocus(h: Store, c: Ctx, t: Shape) {
    && Apart(c, t)
    && h.all == CtxNodes(c) + Nodes(t) && h.s in h.mem && h.s !in h.all && !h.mem[h.s].red
    && Linked(h.mem, t, h.s) && LinkedCtx(h.mem, c, RootOf(t, h.s), h.s)
    && (if c.Top? then h.root == RootOf(t, h.s) else h.root == TopNode(c))
    && Parents(h)
  }

  lemma FocusLeft(h: Store, c: Ctx, l: Shape, x: Cell, red: bool, r: Shape)
    ensures Focus(h, InLeft(c, x, red, r), l) <==> Focus(h, c, Fork(l, x, red, r))
  {
    ApartLeft(c, l, x, red, r);
  }

  lemma FocusRight(h: Store, c: Ctx, l: Shape, x: Cell, red: bool, r: Shape)
    ensures Focus(h, InRight(c, l, x, red), r) <==> Focus(h, c, Fork(l, x, red, r))
  {
    ApartRight(c, l, x, red, r);
  }

  /** The focus may be moved anywhere in the tree. */
  lemma {:induction false} Refocus(h: Store, c: Ctx, t: Shape)
    ensures Focus(h, c, t) <==> Focus(h, Top, Plug(c, t))
    decreases c
  {
    match c
    case Top =>
    case InLeft(up, x, red, r) =>
      FocusLeft(h, up, t, x, red, r);
      Refocus(h, up, Fork(t, x, red, r));
    case InRight(up, l, x, red) =>
      FocusRight(h, up, l, x, red, t);
      Refocus(h, up, Fork(l, x, red, t));
  }

  lemma {:induction false} TopNodeIn(c: Ctx)
    requires !c.Top?
    ensures TopNode(c) in CtxNodes(c)
  {
    if !c.up.Top? { TopNodeIn(c.up); }
  }

  /** How the code tells from a focused node whether it is the root, a left child or a right child. */
  lemma FocusSide(h: Store, c: Ctx, t: Shape)
    requires Focus(h, c, t) && t.Fork?
    ensures t.cell.node == h.root <==> c.Top?
    ensures !c.Top? ==> c.cell.node in h.mem && h.mem[t.cell.node].parent == c.cell.node
    ensures c.InLeft? ==> h.mem[c.cell.node].left == t.cell.node != h.mem[c.cell.node].right
    ensures c.InRight? ==> h.mem[c.cell.node].right == t.cell.node != h.mem[c.cell.node].left
  {
    if !c.Top? {
      TopNodeIn(c);
      assert ChildOk(h, c.cell.node);
    }
  }

  ghost predicate SameLinks(a: Record, b: Record) {
    a.key == b.key && a.red == b.red && a.left == b.left && a.right == b.right
  }

  lemma {:induction false} LinkedFrame(m: Memory, m': Memory, t: Shape, s: Ptr)
    requires Linked(m, t, s)
    requires forall n :: n in Nodes(t) && n in m ==> n in m' && SameLinks(m[n], m'[n])
    ensures Linked(m', t, s)
  {
    if t.Fork? {
      LinkedFrame(m, m', t.left, s);
      LinkedFrame(m, m', t.right, s);
    }
  }

  lemma {:induction false} LinkedCtxFrame(m: Memory, m': Memory, c: Ctx, hole: Ptr, s: Ptr)
    requires LinkedCtx(m, c, hole, s)
    requires forall n :: n in CtxNodes(c) && n in m ==> n in m' && SameLinks(m[n], m'[n])
    ensures LinkedCtx(m', c, hole, s)
    decreases c
  {
    if !c.Top? {
      LinkedCtxFrame(m, m', c.up, c.cell.node, s);
      LinkedFrame(m, m', if c.InLeft? then c.right else c.left, s);
    }
  }

  /** Only the child link of the innermost frame of `c` changes, from `hole` to `hole'`. */
  lemma LinkedCtxReplace(m: Memory, m': Memory, c: Ctx, hole: Ptr, hole': Ptr, s: Ptr)
    requires LinkedCtx(m, c, hole, s) && CtxDistinct(c)
    requires forall n :: n in CtxNodes(c) && n in m ==> n in m'
    requires forall n :: n in CtxNodes(c) && n in m && (!c.Top? ==> n != c.cell.node) ==> SameLinks(m[n], m'[n])
    requires c.InLeft? ==> SameLinks(m'[c.cell.node], m[c.cell.node].(left := hole'))
    requires c.InRight? ==> SameLinks(m'[c.cell.node], m[c.cell.node].(right := hole'))
    ensures LinkedCtx(m', c, hole', s)
  {
    if !c.Top? {
      LinkedCtxFrame(m, m', c.up, c.cell.node, s);
      LinkedFrame(m, m', if c.InLeft? then c.right else c.left, s);
    }
  }

  /** A cell put into a sorted sequence after all cells with the same key. */
  ghost predicate InsertedInOrder(before: seq<Cell>, after: seq<Cell>, x: Cell) {
    exists k :: 0 <= k <= |before| && InsertedAt(before, after, x, k)
  }

  ghost predicate InsertedAt(before: seq<Cell>, after: seq<Cell>, x: Cell, k: int)
    requires 0 <= k <= |before|
  {
    && after == before[..k] + [x] + before[k..]
    && (forall i :: 0 <= i < k ==> before[i].key <= x.key)
    && (forall i :: k <= i < |before| ==> x.key < before[i].key)
  }

  // ----- rotations

  /** The record of `n` after the link to `x` from the root pointer or from its parent is sent to `to`. */
  ghost function Redirected(h: Store, x: Ptr, to: Ptr, n: Ptr): Record
    requires x in h.mem && n in h.mem
  {
    if h.root == x || n != h.mem[x].parent then h.mem[n]
    else if h.mem[n].left == x then h.mem[n].(left := to)
    else h.mem[n].(right := to)
  }

  /** x with right child y becomes the left child of y and adopts b, y's left subtree; nothing else changes. */
  ghost predicate LeftRotated(h: Store, h': Store, x: Ptr, y: Ptr, b: Ptr) {
    && h'.s == h.s && h'.all == h.all && h'.mem.Keys == h.mem.Keys && x in h.mem && y in h.mem
    && h'.root == (if h.root == x then y else h.root)
    && h'.mem[x] == h.mem[x].(right := b, parent := y)
    && h'.mem[y] == h.mem[y].(left := x, parent := h.mem[x].parent)
    && (b != h.s ==> b in h.mem && h'.mem[b] == h.mem[b].(parent := x))
    && forall n :: n in h.mem && n != x && n != y && (n != b || b == h.s) ==> h'.mem[n] == Redirected(h, x, y, n)
  }

  /** y with left child x becomes the right child of x and adopts b, x's right subtree; nothing else changes. */
  ghost predicate RightRotated(h: Store, h': Store, y: Ptr, x: Ptr, b: Ptr) {
    && h'.s == h.s && h'.all == h.all && h'.mem.Keys == h.mem.Keys && x in h.mem && y in h.mem
    && h'.root == (if h.root == y then x else h.root)
    && h'.mem[y] == h.mem[y].(left := b, parent := x)
    && h'.mem[x] == h.mem[x].(right := y, parent := h.mem[y].parent)
    && (b != h.s ==> b in h.mem && h'.mem[b] == h.mem[b].(parent := y))
    && forall n :: n in h.mem && n != x && n != y && (n != b || b == h.s) ==> h'.mem[n] == Redirected(h, y, x, n)
  }

  lemma RotationNodes(a: Shape, x: Cell, xr: bool, b: Shape, y: Cell, yr: bool, d: Shape)
    ensures Nodes(Fork(a, x, xr, Fork(b, y, yr, d))) == Nodes(Fork(Fork(a, x, xr, b), y, yr, d))
    ensures Distinct(Fork(a, x, xr, Fork(b, y, yr, d))) <==> Distinct(Fork(Fork(a, x, xr, b), y, yr, d))
  {
    var yt, xt := Fork(b, y, yr, d), Fork(a, x, xr, b);
    assert Nodes(yt) == Nodes(b) + {y.node} + Nodes(d);
    assert Nodes(xt) == Nodes(a) + {x.node} + Nodes(b);
    assert Distinct(xt) <==>
      Distinct(a) && Distinct(b) && x.node !in Nodes(a) && x.node !in Nodes(b) && Nodes(a) !! Nodes(b);
    assert Distinct(yt) <==>
      Distinct(b) && Distinct(d) && y.node !in Nodes(b) && y.node !in Nodes(d) && Nodes(b) !! Nodes(d);
  }

  ghost predicate LeftRotatable(h: Store, x: Ptr, y: Ptr, b: Ptr) {
    && x in h.mem && y in h.mem && h.s in h.mem && b in h.mem && x != h.s && y != h.s
    && h.mem[x].right == y && h.mem[y].left == b && x != y && b != x && b != y
    && (h.root != x ==> var p := h.mem[x].parent;
      && p in h.mem && p != h.s && p != x && p != y && p != b
      && ((h.mem[p].left == x) != (h.mem[p].right == x)))
  }

  lemma FocusLeftRotatable(h: Store, c: Ctx, a: Shape, x: Cell, xr: bool, b: Shape, y: Cell, yr: bool, d: Shape)
    requires Focus(h, c, Fork(a, x, xr, Fork(b, y, yr, d)))
    ensures LeftRotatable(h, x.node, y.node, RootOf(b, h.s))
  {
    FocusSide(h, c, Fork(a, x, xr, Fork(b, y, yr, d)));
    assert Linked(h.mem, Fork(b, y, yr, d), h.s) && Distinct(Fork(b, y, yr, d));
  }

  lemma LeftRotatedParents(h: Store, h': Store, x: Ptr, y: Ptr, b: Ptr)
    requires Parents(h) && h.s !in h.all && x in h.all && y in h.all
    requires LeftRotatable(h, x, y, b) && LeftRotated(h, h', x, y, b)
    requires h.root != x ==> h.mem[x].parent in h.all
    ensures Parents(h')
  {
    assert ChildOk(h, x) && ChildOk(h, y);
    forall n | n in h'.all
      ensures ChildOk(h', n)
    {
      assert ChildOk(h, n);
    }
  }

  lemma LeftRotatedLinked(h: Store, h': Store, p: Ptr, a: Shape, x: Cell, xr: bool, b: Shape, y: Cell, yr: bool,
                          d: Shape)
    requires var t := Fork(a, x, xr, Fork(b, y, yr, d));
      Distinct(t) && h.s !in Nodes(t) && p !in Nodes(t) && Linked(h.mem, t, h.s)
    requires LeftRotated(h, h', x.node, y.node, RootOf(b, h.s))
    requires h.root != x.node ==> h.mem[x.node].parent == p
    ensures Linked(h'.mem, Fork(Fork(a, x, xr, b), y, yr, d), h.s)
  {
    assert Linked(h.mem, Fork(b, y, yr, d), h.s) && Distinct(Fork(b, y, yr, d));
    LinkedFrame(h.mem, h'.mem, a, h.s);
    LinkedFrame(h.mem, h'.mem, b, h.s);
    LinkedFrame(h.mem, h'.mem, d, h.s);
    assert Linked(h'.mem, Fork(a, x, xr, b), h.s);
  }

  lemma LeftRotatedCtx(h: Store, h': Store, c: Ctx, x: Ptr, y: Ptr, b: Ptr)
    requires LinkedCtx(h.mem, c, x, h.s) && CtxDistinct(c) && h.s !in CtxNodes(c)
    requires x !in CtxNodes(c) && y !in CtxNodes(c) && b !in CtxNodes(c)
    requires LeftRotatable(h, x, y, b) && LeftRotated(h, h', x, y, b)
    requires h.root == x <==> c.Top?
    requires !c.Top? ==> h.mem[x].parent == c.cell.node
    ensures LinkedCtx(h'.mem, c, y, h.s)
  {
    LinkedCtxReplace(h.mem, h'.mem, c, x, y, h.s);
  }

  lemma LeftRotatedFocus(h: Store, h': Store, c: Ctx, a: Shape, x: Cell, xr: bool, b: Shape, y: Cell, yr: bool,
                         d: Shape)
    requires Focus(h, c, Fork(a, x, xr, Fork(b, y, yr, d)))
    requires LeftRotated(h, h', x.node, y.node, RootOf(b, h.s))
    ensures Focus(h', c, Fork(Fork(a, x, xr, b), y, yr, d))
  {
    var t := Fork(a, x, xr, Fork(b, y, yr, d));
    FocusSide(h, c, t);
    FocusLeftRotatable(h, c, a, x, xr, b, y, yr, d);
    RotationNodes(a, x, xr, b, y, yr, d);
    LeftRotatedLinked(h, h', if c.Top? then h.s else c.cell.node, a, x, xr, b, y, yr, d);
    LeftRotatedCtx(h, h', c, x.node, y.node, RootOf(b, h.s));
    LeftRotatedParents(h, h', x.node, y.node, RootOf(b, h.s));
  }

  ghost predicate RightRotatable(h: Store, y: Ptr, x: Ptr, b: Ptr) {
    && y in h.mem && x in h.mem && h.s in h.mem && b in h.mem && y != h.s && x != h.s
    && h.mem[y].left == x && h.mem[x].right == b && x != y && b != x && b != y
    && (h.root != y ==> var p := h.mem[y].parent;
      && p in h.mem && p != h.s && p != x && p != y && p != b
      && ((h.mem[p].left == y) != (h.mem[p].right == y)))
  }

  lemma FocusRightRotatable(h: Store, c: Ctx, a: Shape, x: Cell, xr: bool, b: Shape, y: Cell, yr: bool, d: Shape)
    requires Focus(h, c, Fork(Fork(a, x, xr, b), y, yr, d))
    ensures RightRotatable(h, y.node, x.node, RootOf(b, h.s))
  {
    FocusSide(h, c, Fork(Fork(a, x, xr, b), y, yr, d));
    assert Linked(h.mem, Fork(a, x, xr, b), h.s) && Distinct(Fork(a, x, xr, b));
  }

  lemma RightRotatedParents(h: Store, h': Store, y: Ptr, x: Ptr, b: Ptr)
    requires Parents(h) && h.s !in h.all && x in h.all && y in h.all
    requires RightRotatable(h, y, x, b) && RightRotated(h, h', y, x, b)
    requires h.root != y ==> h.mem[y].parent in h.all
    ensures Parents(h')
  {
    assert ChildOk(h, x) && ChildOk(h, y);
    forall n | n in h'.all
      ensures ChildOk(h', n)
    {
      assert ChildOk(h, n);
    }
  }

  lemma RightRotatedLinked(h: Store, h': Store, p: Ptr, a: Shape, x: Cell, xr: bool, b: Shape, y: Cell, yr: bool,
                           d: Shape)
    requires var t := Fork(Fork(a, x, xr, b), y, yr, d);
      Distinct(t) && h.s !in Nodes(t) && p !in Nodes(t) && Linked(h.mem, t, h.s)
    requires RightRotated(h, h', y.node, x.node, RootOf(b, h.s))
    requires h.root != y.node ==> h.mem[y.node].parent == p
    ensures Linked(h'.mem, Fork(a, x, xr, Fork(b, y, yr, d)), h.s)
  {
    assert Linked(h.mem, Fork(a, x, xr, b), h.s) && Distinct(Fork(a, x, xr, b));
    LinkedFrame(h.mem, h'.mem, a, h.s);
    LinkedFrame(h.mem, h'.mem, b, h.s);
    LinkedFrame(h.mem, h'.mem, d, h.s);
    assert Linked(h'.mem, Fork(b, y, yr, d), h.s);
  }

  lemma RightRotatedCtx(h: Store, h': Store, c: Ctx, y: Ptr, x: Ptr, b: Ptr)
    requires LinkedCtx(h.mem, c, y, h.s) && CtxDistinct(c) && h.s !in CtxNodes(c)
    requires x !in CtxNodes(c) && y !in CtxNodes(c) && b !in CtxNodes(c)
    requires RightRotatable(h, y, x, b) && RightRotated(h, h', y, x, b)
    requires h.root == y <==> c.Top?
    requires !c.Top? ==> h.mem[y].parent == c.cell.node
    ensures LinkedCtx(h'.mem, c, x, h.s)
  {
    LinkedCtxReplace(h.mem, h'.mem, c, y, x, h.s);
  }

  lemma RightRotatedFocus(h: Store, h': Store, c: Ctx, a: Shape, x: Cell, xr: bool, b: Shape, y: Cell, yr: bool,
                          d: Shape)
    requires Focus(h, c, Fork(Fork(a, x, xr, b), y, yr, d))
    requires RightRotated(h, h', y.node, x.node, RootOf(b, h.s))
    ensures Focus(h', c, Fork(a, x, xr, Fork(b, y, yr, d)))
  {
    var t := Fork(Fork(a, x, xr, b), y, yr, d);
    FocusSide(h, c, t);
    FocusRightRotatable(h, c, a, x, xr, b, y, yr, d);
    RotationNodes(a, x, xr, b, y, yr, d);
    RightRotatedLinked(h, h', if c.Top? then h.s else c.cell.node, a, x, xr, b, y, yr, d);
    RightRotatedCtx(h, h', c, y.node, x.node, RootOf(b, h.s));
    RightRotatedParents(h, h', y.node, x.node, RootOf(b, h.s));
  }

  // ----- colors

  lemma Painted(h: Store, c: Ctx, t: Shape, red: bool)
    requires Focus(h, c, t) && t.Fork?
    ensures Focus(h.(mem := SetRed(h.mem, t.cell.node, red)), c, t.(red := red))
  {
    var h' := h.(mem := SetRed(h.mem, t.cell.node, red));
    LinkedFrame(h.mem, h'.mem, t.left, h.s);
    LinkedFrame(h.mem, h'.mem, t.right, h.s);
    LinkedCtxFrame(h.mem, h'.mem, c, t.cell.node, h.s);
    PaintedParents(h, h');
  }

  lemma PaintedParents(h: Store, h': Store)
    requires Parents(h) && h'.all == h.all <= h'.mem.Keys && h'.root == h.root && h'.s == h.s
    requires forall n :: n in h.all ==> h'.mem[n].(red := false) == h.mem[n].(red := false)
    ensures Parents(h')
  {
    forall n | n in h'.all
      ensures ChildOk(h', n)
    {
      assert ChildOk(h, n);
    }
  }

  // ----- descending and attaching

  /** The two memories have the same nodes and differ only inside `all`. */
  ghost predicate Untouched(m: Memory, m': Memory, all: set<Ptr>) {
    m'.Keys == m.Keys && m' - all == m - all
  }

  /** The fields of a node that was taken out. */
  ghost predicate Cleared(r: Record) {
    r.key == 0 && r.left == NULL && r.right == NULL && r.parent == NULL
  }

  /** A key belongs in the hole of `c`, after all equal keys. */
  ghost predicate Between(c: Ctx, key: int) {
    && (forall i :: 0 <= i < |Before(c)| ==> Before(c)[i].key <= key)
    && (forall i :: 0 <= i < |After(c)| ==> key < After(c)[i].key)
  }

  lemma SortedAround(a: seq<Cell>, l: seq<Cell>, x: Cell, r: seq<Cell>, d: seq<Cell>)
    requires Sorted(a + (l + [x] + r) + d)
    ensures forall i :: 0 <= i < |l| ==> l[i].key <= x.key
    ensures forall i :: 0 <= i < |r| ==> x.key <= r[i].key
  {
    var s := a + (l + [x] + r) + d;
    var k := |a| + |l|;
    assert s[k] == x;
    forall i | 0 <= i < |l| ensures l[i].key <= x.key {
      assert s[|a| + i] == l[i];
    }
    forall i | 0 <= i < |r| ensures x.key <= r[i].key {
      assert s[k + 1 + i] == r[i];
    }
  }

  /** One step of the descent: the child taken is again in focus and the key belongs in it. */
  lemma Descend(h: Store, c: Ctx, t: Shape, key: int)
    requires Focus(h, c, t) && t.Fork? && Between(c, key) && Sorted(Items(Plug(c, t)))
    ensures key < t.cell.key ==>
      Focus(h, InLeft(c, t.cell, t.red, t.right), t.left) && Between(InLeft(c, t.cell, t.red, t.right), key)
    ensures t.cell.key <= key ==>
      Focus(h, InRight(c, t.left, t.cell, t.red), t.right) && Between(InRight(c, t.left, t.cell, t.red), key)
  {
    PlugItems(c, t);
    SortedAround(Before(c), Items(t.left), t.cell, Items(t.right), After(c));
    FocusLeft(h, c, t.left, t.cell, t.red, t.right);
    FocusRight(h, c, t.left, t.cell, t.red, t.right);
  }

  /** A node hung into an empty hole. */
  lemma Attached(h: Store, h': Store, c: Ctx, node: Ptr)
    requires Focus(h, c, Nil) && !c.Top? && node !in CtxNodes(c) && node != h.s && node in h'.mem
    requires h'.root == h.root && h'.s == h.s && h'.all == h.all + {node}
    requires h'.mem.Keys == h.mem.Keys
    requires forall n :: n in h.mem && n != c.cell.node && n != node ==> h'.mem[n] == h.mem[n]
    requires c.InLeft? ==> h'.mem[c.cell.node] == h.mem[c.cell.node].(left := node)
    requires c.InRight? ==> h'.mem[c.cell.node] == h.mem[c.cell.node].(right := node)
    requires h'.mem[node].left == h'.mem[node].right == h.s && h'.mem[node].parent == c.cell.node
    ensures Focus(h', c, Fork(Nil, Cell(node, h'.mem[node].key), h'.mem[node].red, Nil))
  {
    var t := Fork(Nil, Cell(node, h'.mem[node].key), h'.mem[node].red, Nil);
    TopNodeIn(c);
    LinkedCtxReplace(h.mem, h'.mem, c, h.s, node, h.s);
    assert Nodes(t) == {node};
    forall n | n in h'.all
      ensures ChildOk(h', n)
    {
      if n != node { assert ChildOk(h, n); }
    }
    assert RootOf(t, h.s) == node;
    assert InFocus(h', c, t);
  }

  lemma LeftRotatedUntouched(h: Store, h': Store, c: Ctx,
                           a: Shape, x: Cell, xr: bool, b: Shape, y: Cell, yr: bool, d: Shape)
    requires Focus(h, c, Fork(a, x, xr, Fork(b, y, yr, d)))
    requires LeftRotated(h, h', x.node, y.node, RootOf(b, h.s))
    ensures Untouched(h.mem, h'.mem, h.all)
  {
    FocusSide(h, c, Fork(a, x, xr, Fork(b, y, yr, d)));
    assert Nodes(Fork(b, y, yr, d)) == Nodes(b) + {y.node} + Nodes(d);
    assert b.Fork? ==> b.cell.node in Nodes(b);
    assert forall n :: n in h.mem && n !in h.all ==> h'.mem[n] == h.mem[n];
    assert h'.mem - h.all == h.mem - h.all;
  }

  lemma RightRotatedUntouched(h: Store, h': Store, c: Ctx,
                           a: Shape, x: Cell, xr: bool, b: Shape, y: Cell, yr: bool, d: Shape)
    requires Focus(h, c, Fork(Fork(a, x, xr, b), y, yr, d))
    requires RightRotated(h, h', y.node, x.node, RootOf(b, h.s))
    ensures Untouched(h.mem, h'.mem, h.all)
  {
    FocusSide(h, c, Fork(Fork(a, x, xr, b), y, yr, d));
    assert Nodes(Fork(a, x, xr, b)) == Nodes(a) + {x.node} + Nodes(b);
    assert b.Fork? ==> b.cell.node in Nodes(b);
    assert forall n :: n in h.mem && n !in h.all ==> h'.mem[n] == h.mem[n];
    assert h'.mem - h.all == h.mem - h.all;
  }

  // ----- family relations

  ghost predicate Hangs(h: Store, t: Shape, x: Ptr) {
    && (t.Fork? ==> t.cell.node in h.mem && t.cell.node != h.s)
    && (t.Fork? ==> h.mem[t.cell.node].parent == x && h.mem[t.cell.node].red == t.red)
  }

  /** The links between a focused node and its children. */
  lemma Kin(h: Store, c: Ctx, t: Shape)
    requires Focus(h, c, t) && t.Fork?
    ensures var x := t.cell.node;
      && x in h.mem && h.mem[x].left == RootOf(t.left, h.s) && h.mem[x].right == RootOf(t.right, h.s)
      && h.mem[x].red == t.red && h.mem[x].key == t.cell.key
      && Hangs(h, t.left, x) && Hangs(h, t.right, x)
    ensures t.left.Fork? || t.right.Fork? ==> RootOf(t.left, h.s) != RootOf(t.right, h.s)
  {
    assert ChildOk(h, t.cell.node);
    if t.left.Fork? { assert Linked(h.mem, t.left, h.s); }
    if t.right.Fork? { assert Linked(h.mem, t.right, h.s); }
  }

  /** The innermost frame of `c` filled with `t`. */
  ghost function Fill(c: Ctx, t: Shape): Shape
    requires !c.Top?
  {
    if c.InLeft? then Fork(t, c.cell, c.red, c.right) else Fork(c.left, c.cell, c.red, t)
  }

  lemma FocusUp(h: Store, c: Ctx, t: Shape)
    requires !c.Top?
    ensures Focus(h, c, t) <==> Focus(h, c.up, Fill(c, t))
    ensures Plug(c, t) == Plug(c.up, Fill(c, t))
  {
    match c
    case InLeft(up, x, red, r) => FocusLeft(h, up, t, x, red, r);
    case InRight(up, l, x, red) => FocusRight(h, up, l, x, red, t);
  }

  lemma RotationItems(a: Shape, x: Cell, xr: bool, b: Shape, y: Cell, yr: bool, d: Shape)
    ensures Items(Fork(a, x, xr, Fork(b, y, yr, d))) == Items(Fork(Fork(a, x, xr, b), y, yr, d))
  {
    var i, j, k, m, n := Items(a), [x], Items(b), [y], Items(d);
    assert i + j + (k + m + n) == (i + j + k) + m + n;
  }

  /** `t` with the child whose root is `n` painted. */
  ghost function PaintedChild(t: Shape, n: Ptr, red: bool): Shape
    requires t.Fork? && ((t.left.Fork? && t.left.cell.node == n) || (t.right.Fork? && t.right.cell.node == n))
  {
    if t.left.Fork? && t.left.cell.node == n then t.(left := t.left.(red := red)) else t.(right := t.right.(red := red))
  }

  // ----- repairing an insertion

  /** `t` has a red root and is otherwise balanced in `c`, except that the parent may be red too. */
  ghost predicate Pending(c: Ctx, t: Shape) {
    Red(t) && Balanced(t) && CtxBalanced(c, BlackHeight(t))
  }

  /** Where a key belongs in a context is where it belongs in the sorted sequence. */
  lemma InsertedOrdered(c: Ctx, x: Cell)
    requires Between(c, x.key) && Sorted(Items(Plug(c, Nil)))
    ensures InsertedInOrder(Items(Plug(c, Nil)), Items(Plug(c, Fork(Nil, x, true, Nil))), x)
    ensures Sorted(Items(Plug(c, Fork(Nil, x, true, Nil))))
  {
    PlugItems(c, Nil);
    PlugItems(c, Fork(Nil, x, true, Nil));
    var a, b := Before(c), After(c);
    assert Items(Fork(Nil, x, true, Nil)) == [x];
    assert a + [] + b == a + b;
    assert (a + b)[..|a|] == a && (a + b)[|a|..] == b;
    assert InsertedAt(a + b, a + [x] + b, x, |a|);
    SortedInserted(a, x, b);
  }

  lemma SortedInserted(a: seq<Cell>, x: Cell, b: seq<Cell>)
    requires Sorted(a + b)
    requires forall i :: 0 <= i < |a| ==> a[i].key <= x.key
    requires forall i :: 0 <= i < |b| ==> x.key < b[i].key
    ensures Sorted(a + [x] + b)
  {
    var s, t := a + [x] + b, a + b;
    forall i, j | 0 <= i < j < |s|
      ensures s[i].key <= s[j].key
    {
      assert i < |a| ==> s[i] == t[i];
      assert i > |a| ==> s[i] == t[i - 1];
      assert j < |a| ==> s[j] == t[j];
      assert j > |a| ==> s[j] == t[j - 1];
    }
  }

  /** What `Pending` below a red parent says about the parent's sibling side and the uncle. */
  lemma PendingUnfold(c: Ctx, t: Shape)
    requires Pending(c, t) && RedCtx(c)
    ensures !c.up.Top? && !c.up.red && CtxBalanced(c.up.up, BlackHeight(t) + 1)
    ensures var sib := if c.InLeft? then c.right else c.left;
      Balanced(sib) && BlackHeight(sib) == BlackHeight(t) && !Red(sib)
    ensures var u := if c.up.InLeft? then c.up.right else c.up.left;
      Balanced(u) && BlackHeight(u) == BlackHeight(t)
    ensures Balanced(t.left) && Balanced(t.right) && !Red(t.left) && !Red(t.right)
    ensures BlackHeight(t.left) == BlackHeight(t.right) == BlackHeight(t)
  {
    assert CtxBalanced(c.up, BlackHeight(t));
  }

  /** What the loop guard reads around a focused node. */
  ghost predicate Surrounds(h: Store, c: Ctx, t: Shape) {
    && (t.Fork? ==> t.cell.node in h.mem && (t.cell.node == h.root <==> c.Top?))
    && (t.Fork? && !c.Top? ==> h.mem[t.cell.node].parent == c.cell.node)
    && (!c.Top? ==> c.cell.node in h.mem && h.mem[c.cell.node].red == c.red)
  }

  lemma Surround(h: Store, c: Ctx, t: Shape)
    requires Focus(h, c, t) && t.Fork?
    ensures Surrounds(h, c, t)
  {
    FocusSide(h, c, t);
  }

  lemma PlugPending(c: Ctx, t: Shape)
    requires Pending(c, t) && !RedCtx(c)
    ensures var whole := Plug(c, t);
      && whole.Fork? && Balanced(whole.(red := false))
      && Items(whole.(red := false)) == Items(whole)
  {
    if !c.Top? { PlugBalanced(c, t); }
    PlugFork(c, t);
  }

  lemma {:induction false} PlugFork(c: Ctx, t: Shape)
    requires t.Fork?
    ensures Plug(c, t).Fork?
    decreases c
  {
    if !c.Top? { PlugFork(c.up, Fill(c, t)); }
  }

  /** A red leaf hung into a balanced tree. */
  lemma PlugBlack(c: Ctx, x: Cell)
    requires Balanced(Plug(c, Nil)) && !Red(Plug(c, Nil))
    ensures Pending(c, Fork(Nil, x, true, Nil))
  {
    UnplugBalanced(c, Nil);
  }

  /** Both children of the grandparent black and the grandparent red. */
  ghost function Flipped(c0: Ctx, t0: Shape): Shape
    requires !c0.Top? && !c0.up.Top? && Fill(c0.up, Fill(c0, t0)).left.Fork? && Fill(c0.up, Fill(c0, t0)).right.Fork?
  {
    var gt := Fill(c0.up, Fill(c0, t0));
    Fork(gt.left.(red := false), gt.cell, true, gt.right.(red := false))
  }

  lemma FlippedPending(c0: Ctx, t0: Shape)
    requires Pending(c0, t0) && RedCtx(c0) && Red(if c0.up.InLeft? then c0.up.right else c0.up.left)
    ensures Pending(c0.up.up, Flipped(c0, t0))
    ensures Items(Plug(c0.up.up, Flipped(c0, t0))) == Items(Plug(c0, t0))
  {
    PendingUnfold(c0, t0);
    var pt, u := Fill(c0, t0), if c0.up.InLeft? then c0.up.right else c0.up.left;
    assert Balanced(pt.(red := false)) && BlackHeight(pt.(red := false)) == BlackHeight(t0) + 1;
    assert Balanced(u.(red := false)) && BlackHeight(u.(red := false)) == BlackHeight(t0) + 1;
    PlugItems(c0.up.up, Flipped(c0, t0));
    PlugItems(c0.up.up, Fill(c0.up, Fill(c0, t0)));
    assert Items(Fill(c0, t0).(red := false)) == Items(Fill(c0, t0));
  }

  /** What the code reads around a focused node with a parent and a grandparent. */
  lemma Grand(h: Store, c: Ctx, t: Shape)
    requires Focus(h, c, t) && t.Fork? && !c.Top? && !c.up.Top?
    ensures t.cell.node in h.mem && c.cell.node in h.mem && c.up.cell.node in h.mem
    ensures h.mem[t.cell.node].parent == c.cell.node && h.mem[c.cell.node].parent == c.up.cell.node
    ensures h.mem[c.cell.node].left == t.cell.node <==> c.InLeft?
    ensures h.mem[c.cell.node].right == t.cell.node <==> c.InRight?
    ensures h.mem[c.up.cell.node].left == c.cell.node <==> c.up.InLeft?
    ensures c.up.InLeft? ==>
      h.mem[c.up.cell.node].right == RootOf(c.up.right, h.s) && Hangs(h, c.up.right, c.up.cell.node)
    ensures c.up.InRight? ==>
      h.mem[c.up.cell.node].left == RootOf(c.up.left, h.s) && Hangs(h, c.up.left, c.up.cell.node)
    ensures Focus(h, c.up, Fill(c, t)) && Focus(h, c.up.up, Fill(c.up, Fill(c, t)))
  {
    FocusUp(h, c, t);
    FocusUp(h, c.up, Fill(c, t));
    FocusSide(h, c, t);
    FocusSide(h, c.up, Fill(c, t));
    Kin(h, c.up.up, Fill(c.up, Fill(c, t)));
  }

  /** The straight pair of red nodes left after the optional first rotation, and the sibling of the upper one. */
  ghost function LeftStraight(c0: Ctx, t0: Shape): (r: (Shape, Cell, Shape))
    requires !c0.Top? && t0.Fork?
  {
    if c0.InLeft? then (t0, c0.cell, c0.right) else (Fork(c0.left, c0.cell, true, t0.left), t0.cell, t0.right)
  }

  lemma LeftTurned(c0: Ctx, t0: Shape)
    requires Pending(c0, t0) && RedCtx(c0) && c0.up.InLeft? && !Red(c0.up.right)
    ensures var (t, q, s) := LeftStraight(c0, t0);
      var c := InLeft(c0.up.up, q, false, Fork(s, c0.up.cell, true, c0.up.right));
      Pending(c, t) && Items(Plug(c, t)) == Items(Plug(c0, t0)) && Depth(c) < Depth(c0)
  {
    PendingUnfold(c0, t0);
    var (t, q, s) := LeftStraight(c0, t0);
    assert Balanced(t) && Balanced(s) && !Red(s) && BlackHeight(t) == BlackHeight(s) == BlackHeight(t0);
    var qt, gt := Fork(t, q, true, s), Fork(Fill(c0, t0), c0.up.cell, false, c0.up.right);
    var gt' := Fork(t, q, false, Fork(s, c0.up.cell, true, c0.up.right));
    assert Items(qt) == Items(Fill(c0, t0)) by {
      if c0.InRight? { RotationItems(c0.left, c0.cell, true, t0.left, t0.cell, true, t0.right); }
    }
    assert Items(gt') == Items(Fork(qt, c0.up.cell, false, c0.up.right)) by {
      RotationItems(t, q, false, s, c0.up.cell, true, c0.up.right);
    }
    PlugItems(c0.up.up, gt);
    PlugItems(c0.up.up, gt');
  }

  /** The straight pair of red nodes left after the optional first rotation, and the sibling of the upper one. */
  ghost function RightStraight(c0: Ctx, t0: Shape): (r: (Shape, Cell, Shape))
    requires !c0.Top? && t0.Fork?
  {
    if c0.InRight? then (t0, c0.cell, c0.left) else (Fork(t0.right, c0.cell, true, c0.right), t0.cell, t0.left)
  }

  lemma RightTurned(c0: Ctx, t0: Shape)
    requires Pending(c0, t0) && RedCtx(c0) && c0.up.InRight? && !Red(c0.up.left)
    ensures var (t, q, s) := RightStraight(c0, t0);
      var c := InRight(c0.up.up, Fork(c0.up.left, c0.up.cell, true, s), q, false);
      Pending(c, t) && Items(Plug(c, t)) == Items(Plug(c0, t0)) && Depth(c) < Depth(c0)
  {
    PendingUnfold(c0, t0);
    var (t, q, s) := RightStraight(c0, t0);
    assert Balanced(t) && Balanced(s) && !Red(s) && BlackHeight(t) == BlackHeight(s) == BlackHeight(t0);
    var qt, gt := Fork(s, q, true, t), Fork(c0.up.left, c0.up.cell, false, Fill(c0, t0));
    var gt' := Fork(Fork(c0.up.left, c0.up.cell, true, s), q, false, t);
    assert Items(qt) == Items(Fill(c0, t0)) by {
      if c0.InLeft? { RotationItems(t0.left, t0.cell, true, t0.right, c0.cell, true, c0.right); }
    }
    assert Items(gt') == Items(Fork(c0.up.left, c0.up.cell, false, qt)) by {
      RotationItems(c0.up.left, c0.up.cell, true, s, q, false, t);
    }
    PlugItems(c0.up.up, gt);
    PlugItems(c0.up.up, gt');
  }

  // ----- repairing a deletion

  /** `t` may be red above red, and it is one black node too short for `c`. */
  ghost predicate Short(c: Ctx, t: Shape) {
    BalancedBelow(t) && CtxBalanced(c, BlackHeight(t) + 1)
  }

  /** `temp` is the root of the focused shape, or the sentinel standing for it. */
  ghost predicate Tracks(h: Store, c: Ctx, t: Shape, temp: Ptr) {
    && temp == RootOf(t, h.s) && temp in h.mem && h.mem[temp].red == Red(t)
    && (temp == h.root <==> c.Top?)
    && (!c.Top? ==> c.cell.node in h.mem && h.mem[temp].parent == c.cell.node)
  }

  lemma Track(h: Store, c: Ctx, t: Shape)
    requires Focus(h, c, t)
    requires t.Nil? && !c.Top? ==> h.mem[h.s].parent == c.cell.node
    ensures Tracks(h, c, t, RootOf(t, h.s))
  {
    if t.Fork? { FocusSide(h, c, t); } else if !c.Top? { TopNodeIn(c); }
  }

  lemma UntouchedAt(m: Memory, m': Memory, all: set<Ptr>, n: Ptr)
    requires Untouched(m, m', all) && n in m && n !in all
    ensures n in m' && m'[n] == m[n]
  {
    assert n in m - all && (m - all)[n] == m[n];
    assert n in m' - all && (m' - all)[n] == m'[n];
  }

  ghost function FixMeasure(c: Ctx, t: Shape): nat {
    if Red(t) || c.Top? then 0 else 1 + Depth(c)
  }

  /** After the red sibling has been turned up: the hole has a black sibling and a red parent. */
  ghost function LeftSiblingUp(c: Ctx): Ctx
    requires c.InLeft? && c.right.Fork?
  {
    InLeft(InLeft(c.up, c.right.cell, false, c.right.right), c.cell, true, c.right.left)
  }

  lemma LeftSiblingUpShort(c: Ctx, t: Shape)
    requires Short(c, t) && c.InLeft? && Red(c.right)
    ensures Short(LeftSiblingUp(c), t) && !Red(c.right.left) && c.right.left.Fork?
    ensures Items(Plug(LeftSiblingUp(c), t)) == Items(Plug(c, t))
  {
    var w := c.right;
    RotationItems(t, c.cell, true, w.left, w.cell, false, w.right);
    var t0, t1 := Fill(c, t), Fork(Fork(t, c.cell, true, w.left), w.cell, false, w.right);
    assert Items(Fork(t, c.cell, true, w.(red := false))) == Items(t0) by {
      assert Items(w.(red := false)) == Items(w);
    }
    PlugItems(c.up, t0);
    PlugItems(c.up, t1);
  }

  /** The black sibling painted red: the parent's subtree is short as a whole. */
  lemma LeftSiblingRed(c: Ctx, t: Shape)
    requires Short(c, t) && c.InLeft? && !Red(t)
    requires c.right.Fork? && !c.right.red && !Red(c.right.left) && !Red(c.right.right)
    ensures var t' := Fork(t, c.cell, c.red, c.right.(red := true));
      Short(c.up, t') && Items(Plug(c.up, t')) == Items(Plug(c, t))
  {
    var w' := c.right.(red := true);
    var t' := Fork(t, c.cell, c.red, w');
    assert Balanced(w') && BlackHeight(w') == BlackHeight(t);
    assert Items(w') == Items(c.right);
    PlugItems(c.up, t');
    PlugItems(c.up, Fill(c, t));
  }

  /** The near red child of the black sibling turned up over it. */
  ghost function LeftLined(c: Ctx): Ctx
    requires c.InLeft? && c.right.Fork? && c.right.left.Fork?
  {
    var w := c.right;
    InLeft(c.up, c.cell, c.red, Fork(w.left.left, w.left.cell, false, Fork(w.left.right, w.cell, true, w.right)))
  }

  lemma LeftLinedShort(c: Ctx, t: Shape)
    requires Short(c, t) && c.InLeft?
    requires c.right.Fork? && !c.right.red && Red(c.right.left) && !Red(c.right.right)
    ensures Items(Plug(LeftLined(c), t)) == Items(Plug(c, t))
    ensures Short(LeftLined(c), t) && Red(LeftLined(c).right.right)
  {
    var w := c.right;
    var n := w.left;
    assert Balanced(n) && Balanced(n.left) && Balanced(n.right);
    RotationItems(n.left, n.cell, false, n.right, w.cell, true, w.right);
    assert Items(LeftLined(c).right) == Items(w);
    PlugItems(c.up, Fill(c, t));
    PlugItems(c.up, Fill(LeftLined(c), t));
  }

  /** The sibling takes the parent's place and color; parent and far nephew become black. */
  lemma LeftRepaired(c: Ctx, t: Shape)
    requires Short(c, t) && c.InLeft? && !Red(t)
    requires c.right.Fork? && !c.right.red && Red(c.right.right)
    ensures var t' := Fork(Fork(t, c.cell, false, c.right.left), c.right.cell, c.red, c.right.right.(red := false));
      Balanced(Plug(c.up, t')) && !Red(Plug(c.up, t')) && Items(Plug(c.up, t')) == Items(Plug(c, t))
  {
    var w := c.right;
    var d := w.right.(red := false);
    var t' := Fork(Fork(t, c.cell, false, w.left), w.cell, c.red, d);
    assert Balanced(w) && Balanced(w.right) && BlackHeight(w) == BlackHeight(t) + 1;
    assert Balanced(d) && BlackHeight(d) == BlackHeight(t) + 1;
    assert Balanced(Fork(t, c.cell, false, w.left));
    PlugBalanced(c.up, t');
    assert Items(Fork(w.left, w.cell, c.red, d)) == Items(w) by {
      assert Items(d) == Items(w.right);
    }
    RotationItems(t, c.cell, false, w.left, w.cell, c.red, d);
    PlugItems(c.up, t');
    PlugItems(c.up, Fill(c, t));
  }

  /** After the red sibling has been turned up: the hole has a black sibling and a red parent. */
  ghost function RightSiblingUp(c: Ctx): Ctx
    requires c.InRight? && c.left.Fork?
  {
    InRight(InRight(c.up, c.left.left, c.left.cell, false), c.left.right, c.cell, true)
  }

  lemma RightSiblingUpShort(c: Ctx, t: Shape)
    requires Short(c, t) && c.InRight? && Red(c.left)
    ensures Short(RightSiblingUp(c), t) && !Red(c.left.right) && c.left.right.Fork?
    ensures Items(Plug(RightSiblingUp(c), t)) == Items(Plug(c, t))
  {
    var w := c.left;
    RotationItems(w.left, w.cell, false, w.right, c.cell, true, t);
    var t0, t1 := Fill(c, t), Fork(w.left, w.cell, false, Fork(w.right, c.cell, true, t));
    assert Items(Fork(w.(red := false), c.cell, true, t)) == Items(t0) by {
      assert Items(w.(red := false)) == Items(w);
    }
    PlugItems(c.up, t0);
    PlugItems(c.up, t1);
  }

  /** The black sibling painted red: the parent's subtree is short as a whole. */
  lemma RightSiblingRed(c: Ctx, t: Shape)
    requires Short(c, t) && c.InRight? && !Red(t)
    requires c.left.Fork? && !c.left.red && !Red(c.left.left) && !Red(c.left.right)
    ensures var t' := Fork(c.left.(red := true), c.cell, c.red, t);
      Short(c.up, t') && Items(Plug(c.up, t')) == Items(Plug(c, t))
  {
    var w' := c.left.(red := true);
    var t' := Fork(w', c.cell, c.red, t);
    assert Balanced(w') && BlackHeight(w') == BlackHeight(t);
    assert Items(w') == Items(c.left);
    PlugItems(c.up, t');
    PlugItems(c.up, Fill(c, t));
  }

  /** The near red child of the black sibling turned up over it. */
  ghost function RightLined(c: Ctx): Ctx
    requires c.InRight? && c.left.Fork? && c.left.right.Fork?
  {
    var w := c.left;
    InRight(c.up, Fork(Fork(w.left, w.cell, true, w.right.left), w.right.cell, false, w.right.right), c.cell, c.red)
  }

  lemma RightLinedShort(c: Ctx, t: Shape)
    requires Short(c, t) && c.InRight?
    requires c.left.Fork? && !c.left.red && Red(c.left.right) && !Red(c.left.left)
    ensures Items(Plug(RightLined(c), t)) == Items(Plug(c, t))
    ensures Short(RightLined(c), t) && Red(RightLined(c).left.left)
  {
    var w := c.left;
    var n := w.right;
    assert Balanced(n) && Balanced(n.left) && Balanced(n.right);
    RotationItems(w.left, w.cell, true, n.left, n.cell, false, n.right);
    assert Items(RightLined(c).left) == Items(w);
    PlugItems(c.up, Fill(c, t));
    PlugItems(c.up, Fill(RightLined(c), t));
  }

  /** The sibling takes the parent's place and color; parent and far nephew become black. */
  lemma RightRepaired(c: Ctx, t: Shape)
    requires Short(c, t) && c.InRight? && !Red(t)
    requires c.left.Fork? && !c.left.red && Red(c.left.left)
    ensures var t' := Fork(c.left.left.(red := false), c.left.cell, c.red, Fork(c.left.right, c.cell, false, t));
      Balanced(Plug(c.up, t')) && !Red(Plug(c.up, t')) && Items(Plug(c.up, t')) == Items(Plug(c, t))
  {
    var w := c.left;
    var d := w.left.(red := false);
    var t' := Fork(d, w.cell, c.red, Fork(w.right, c.cell, false, t));
    assert Balanced(w) && Balanced(w.left) && BlackHeight(w) == BlackHeight(t) + 1;
    assert Balanced(d) && BlackHeight(d) == BlackHeight(t) + 1;
    assert Balanced(Fork(w.right, c.cell, false, t));
    PlugBalanced(c.up, t');
    assert Items(Fork(d, w.cell, c.red, w.right)) == Items(w) by {
      assert Items(d) == Items(w.left);
    }
    RotationItems(d, w.cell, c.red, w.right, c.cell, false, t);
    PlugItems(c.up, t');
    PlugItems(c.up, Fill(c, t));
  }

  /** What the code reads of the parent, the right sibling and the nephews of a focused shape. */
  lemma LeftSiblings(h: Store, c: Ctx, t: Shape)
    requires Focus(h, c, t) && c.InLeft? && Short(c, t)
    ensures c.right.Fork? && c.cell.node in h.mem && h.mem[c.cell.node].right == c.right.cell.node
    ensures c.right.cell.node in h.mem && h.mem[c.right.cell.node].red == c.right.red
    ensures h.mem[c.right.cell.node].left == RootOf(c.right.left, h.s)
    ensures h.mem[c.right.cell.node].right == RootOf(c.right.right, h.s)
    ensures RootOf(c.right.left, h.s) in h.mem && h.mem[RootOf(c.right.left, h.s)].red == Red(c.right.left)
    ensures RootOf(c.right.right, h.s) in h.mem && h.mem[RootOf(c.right.right, h.s)].red == Red(c.right.right)
  {
    FocusUp(h, c, t);
    var d := InRight(c.up, t, c.cell, c.red);
    FocusUp(h, d, c.right);
    Kin(h, c.up, Fill(c, t));
    Kin(h, d, c.right);
  }

  /** What the code reads of the parent, the left sibling and the nephews of a focused shape. */
  lemma RightSiblings(h: Store, c: Ctx, t: Shape)
    requires Focus(h, c, t) && c.InRight? && Short(c, t)
    ensures c.left.Fork? && c.cell.node in h.mem && h.mem[c.cell.node].left == c.left.cell.node
    ensures c.left.cell.node in h.mem && h.mem[c.left.cell.node].red == c.left.red
    ensures h.mem[c.left.cell.node].left == RootOf(c.left.left, h.s)
    ensures h.mem[c.left.cell.node].right == RootOf(c.left.right, h.s)
    ensures RootOf(c.left.left, h.s) in h.mem && h.mem[RootOf(c.left.left, h.s)].red == Red(c.left.left)
    ensures RootOf(c.left.right, h.s) in h.mem && h.mem[RootOf(c.left.right, h.s)].red == Red(c.left.right)
  {
    FocusUp(h, c, t);
    var d := InLeft(c.up, c.cell, c.red, t);
    FocusUp(h, d, c.left);
    Kin(h, c.up, Fill(c, t));
    Kin(h, d, c.left);
  }

  lemma ShortSide(h: Store, c: Ctx, t: Shape, temp: Ptr)
    requires Focus(h, c, t) && Short(c, t) && Tracks(h, c, t, temp) && !c.Top?
    ensures h.mem[c.cell.node].left == temp <==> c.InLeft?
  {
    FocusUp(h, c, t);
    Kin(h, c.up, Fill(c, t));
  }

  ghost function Blackened(t: Shape): Shape {
    if t.Fork? then t.(red := false) else t
  }

  lemma ShortEnd(c: Ctx, t: Shape)
    requires Short(c, t) && (c.Top? || Red(t))
    ensures Balanced(Plug(c, Blackened(t))) && !Red(Plug(c, Blackened(t)))
    ensures Items(Plug(c, Blackened(t))) == Items(Plug(c, t))
  {
    PlugItems(c, t);
    PlugItems(c, Blackened(t));
    PlugBalanced(c, Blackened(t));
  }

  /** Records outside the tree do not matter, and neither does the parent field of the sentinel. */
  lemma FocusFrame(h: Store, h': Store, c: Ctx, t: Shape)
    requires Focus(h, c, t) && h'.root == h.root && h'.s == h.s && h'.all == h.all
    requires forall n :: n in h.all ==> n in h'.mem && h'.mem[n] == h.mem[n]
    requires h.s in h'.mem && !h'.mem[h.s].red
    ensures Focus(h', c, t)
  {
    LinkedFrame(h.mem, h'.mem, t, h.s);
    LinkedCtxFrame(h.mem, h'.mem, c, RootOf(t, h.s), h.s);
    PaintedParents(h, h');
  }

  // ----- unlinking

  /** x, which has at most the one child `k`, leaves and `k` takes its place. */
  ghost predicate Spliced(h: Store, h': Store, c: Ctx, x: Ptr, k: Shape) {
    var kn := RootOf(k, h.s);
    && h'.s == h.s && h'.all == h.all - {x} && h'.mem.Keys == h.mem.Keys && kn in h.mem && h.s in h.mem
    && h'.root == (if c.Top? then kn else h.root)
    && !h'.mem[h.s].red
    && (c.InLeft? ==> c.cell.node in h.mem && h'.mem[c.cell.node] == h.mem[c.cell.node].(left := kn))
    && (c.InRight? ==> c.cell.node in h.mem && h'.mem[c.cell.node] == h.mem[c.cell.node].(right := kn))
    && (k.Fork? && !c.Top? ==> h'.mem[kn] == h.mem[kn].(parent := c.cell.node))
    && (forall n :: n in h'.all && n in h.mem && (c.Top? || (n != kn && n != c.cell.node)) ==> h'.mem[n] == h.mem[n])
  }

  lemma SplicedParents(h: Store, h': Store, c: Ctx, t: Shape, k: Shape)
    requires Focus(h, c, t) && t.Fork? && ((t.left.Nil? && k == t.right) || (t.right.Nil? && k == t.left))
    requires Spliced(h, h', c, t.cell.node, k)
    ensures Parents(h')
  {
    var x := t.cell.node;
    FocusSide(h, c, t);
    Kin(h, c, t);
    assert k.Fork? ==> k.cell.node in Nodes(k);
    forall n | n in h'.all
      ensures ChildOk(h', n)
    {
      assert ChildOk(h, n) && ChildOk(h, x);
    }
  }

  lemma SplicedFocus(h: Store, h': Store, c: Ctx, t: Shape, k: Shape)
    requires Focus(h, c, t) && t.Fork? && ((t.left.Nil? && k == t.right) || (t.right.Nil? && k == t.left))
    requires Spliced(h, h', c, t.cell.node, k)
    ensures Focus(h', c, k)
  {
    var x := t.cell.node;
    assert k.Fork? ==> k.cell.node in Nodes(k);
    LinkedFrame(h.mem, h'.mem, k, h.s);
    LinkedCtxReplace(h.mem, h'.mem, c, x, RootOf(k, h.s), h.s);
    SplicedParents(h, h', c, t, k);
  }

  /** y, from outside the tree, takes over the place, links and color of x. */
  ghost predicate Replaced(h: Store, h': Store, c: Ctx, x: Ptr, y: Cell, l: Ptr, r: Ptr) {
    && h'.s == h.s && h'.all == h.all - {x} + {y.node} && h'.mem.Keys == h.mem.Keys
    && x in h.mem && y.node in h.mem && h.s in h.mem && l in h.mem && r in h.mem
    && h'.root == (if c.Top? then y.node else h.root)
    && !h'.mem[h.s].red
    && h'.mem[y.node] == h.mem[x].(key := y.key)
    && (c.InLeft? ==> c.cell.node in h.mem && h'.mem[c.cell.node] == h.mem[c.cell.node].(left := y.node))
    && (c.InRight? ==> c.cell.node in h.mem && h'.mem[c.cell.node] == h.mem[c.cell.node].(right := y.node))
    && (l != h.s ==> h'.mem[l] == h.mem[l].(parent := y.node))
    && (r != h.s ==> h'.mem[r] == h.mem[r].(parent := y.node))
    && SameBut(h.mem, h'.mem, {x, y.node, l, r, h.s} + if c.Top? then {} else {c.cell.node})
  }

  ghost predicate SameBut(m: Memory, m': Memory, xs: set<Ptr>) {
    m' - xs == m - xs
  }

  lemma SameButWiden(m: Memory, m': Memory, xs: set<Ptr>, ys: set<Ptr>)
    requires SameBut(m, m', xs) && xs <= ys
    ensures SameBut(m, m', ys)
  {
    assert m - ys == (m - xs) - ys && m' - ys == (m' - xs) - ys;
  }

  lemma SameButAt(m: Memory, m': Memory, xs: set<Ptr>)
    requires SameBut(m, m', xs)
    ensures forall n :: n in m && n !in xs ==> n in m' && m'[n] == m[n]
  {
    forall n | n in m && n !in xs
      ensures n in m' && m'[n] == m[n]
    {
      assert n in m - xs && (m - xs)[n] == m[n];
      assert n in m' - xs;
    }
  }

  lemma ReplacedParents(h: Store, h': Store, c: Ctx, t: Shape, y: Cell)
    requires Focus(h, c, t) && t.Fork? && y.node !in h.all && y.node != h.s
    requires Replaced(h, h', c, t.cell.node, y, RootOf(t.left, h.s), RootOf(t.right, h.s))
    ensures Parents(h')
  {
    SameButAt(h.mem, h'.mem, {t.cell.node, y.node, RootOf(t.left, h.s), RootOf(t.right, h.s), h.s}
      + if c.Top? then {} else {c.cell.node});
    var x := t.cell.node;
    FocusSide(h, c, t);
    Kin(h, c, t);
    if !c.Top? { TopNodeIn(c); }
    assert t.left.Fork? ==> t.left.cell.node in Nodes(t.left);
    assert t.right.Fork? ==> t.right.cell.node in Nodes(t.right);
    forall n | n in h'.all
      ensures ChildOk(h', n)
    {
      assert ChildOk(h, x);
      if n != y.node {
        assert ChildOk(h, n);
        var a, b := h.mem[n].left, h.mem[n].right;
        if !c.Top? && n == c.cell.node {
          assert a in h.all && a != x ==> h'.mem[a].parent == h.mem[a].parent;
          assert b in h.all && b != x ==> h'.mem[b].parent == h.mem[b].parent;
        } else {
          assert a != x && b != x && h'.mem[n].left == a && h'.mem[n].right == b;
          assert a in h.all ==> h'.mem[a].parent == n;
          assert b in h.all ==> h'.mem[b].parent == n;
        }
      }
    }
  }

  lemma ReplacedLinked(h: Store, h': Store, c: Ctx, t: Shape, y: Cell)
    requires Focus(h, c, t) && t.Fork? && y.node !in h.all && y.node != h.s
    requires Replaced(h, h', c, t.cell.node, y, RootOf(t.left, h.s), RootOf(t.right, h.s))
    ensures Linked(h'.mem, t.(cell := y), h.s) && Distinct(t.(cell := y))
  {
    SameButAt(h.mem, h'.mem, {t.cell.node, y.node, RootOf(t.left, h.s), RootOf(t.right, h.s), h.s}
      + if c.Top? then {} else {c.cell.node});
    assert t.left.Fork? ==> t.left.cell.node in Nodes(t.left);
    assert t.right.Fork? ==> t.right.cell.node in Nodes(t.right);
    LinkedFrame(h.mem, h'.mem, t.left, h.s);
    LinkedFrame(h.mem, h'.mem, t.right, h.s);
  }

  lemma ReplacedCtx(h: Store, h': Store, c: Ctx, t: Shape, y: Cell)
    requires Focus(h, c, t) && t.Fork? && y.node !in h.all && y.node != h.s
    requires Replaced(h, h', c, t.cell.node, y, RootOf(t.left, h.s), RootOf(t.right, h.s))
    ensures LinkedCtx(h'.mem, c, y.node, h.s)
  {
    SameButAt(h.mem, h'.mem, {t.cell.node, y.node, RootOf(t.left, h.s), RootOf(t.right, h.s), h.s}
      + if c.Top? then {} else {c.cell.node});
    assert t.left.Fork? ==> t.left.cell.node in Nodes(t.left);
    assert t.right.Fork? ==> t.right.cell.node in Nodes(t.right);
    LinkedCtxReplace(h.mem, h'.mem, c, t.cell.node, y.node, h.s);
  }

  lemma ReplacedFocus(h: Store, h': Store, c: Ctx, t: Shape, y: Cell)
    requires Focus(h, c, t) && t.Fork? && y.node !in h.all && y.node != h.s
    requires Replaced(h, h', c, t.cell.node, y, RootOf(t.left, h.s), RootOf(t.right, h.s))
    ensures Focus(h', c, t.(cell := y))
  {
    ReplacedLinked(h, h', c, t, y);
    ReplacedCtx(h, h', c, t, y);
    ReplacedParents(h, h', c, t, y);
    assert Nodes(t.(cell := y)) == Nodes(t.left) + {y.node} + Nodes(t.right);
  }

  /** The memory between the two halves of a deletion: `h`, except for `subst`, the sentinel and the parent of `r`. */
  ghost predicate Unsettled(h: Store, m: Memory, subst: Ptr, r: Ptr) {
    && m.Keys == h.mem.Keys && subst in m && h.s in m && r in m && !m[h.s].red
    && SameBut(h.mem, m, {r, subst, h.s})
    && (r != h.s ==> m[r].(parent := NULL) == h.mem[r].(parent := NULL))
  }

  /** The memory after `subst` has taken the place of `node`. */
  ghost function Taken(m: Memory, c: Ctx, node: Ptr, subst: Ptr, l: Ptr, r: Ptr, s: Ptr): Memory
    requires node in m && subst in m && l in m && r in m && (!c.Top? ==> c.cell.node in m)
  {
    var m1 := m[subst := m[node].(key := m[subst].key)];
    var m2 := match c
      case Top => m1
      case InLeft(_, p, _, _) => SetLeft(m1, p.node, subst)
      case InRight(_, _, p, _) => SetRight(m1, p.node, subst);
    var m3 := if l != s then SetParent(m2, l, subst) else m2;
    if r != s then SetParent(m3, r, subst) else m3
  }

  lemma TakenPoints(h: Store, m: Memory, c: Ctx, t: Shape, subst: Ptr)
    requires Focus(h, c, t) && t.Fork? && subst !in h.all && subst != h.s
    requires Unsettled(h, m, subst, RootOf(t.right, h.s))
    ensures var node, l, r := t.cell.node, RootOf(t.left, h.s), RootOf(t.right, h.s);
      && node in m && l in m && r in m && (!c.Top? ==> c.cell.node in m)
      && (node == h.root <==> c.Top?) && (!c.Top? ==> m[node].parent == c.cell.node)
      && (c.InLeft? ==> m[c.cell.node].left == node) && (c.InRight? ==> m[c.cell.node].left != node)
      && m[node].left == l && m[node].right == r
      && var m' := Taken(m, c, node, subst, l, r, h.s);
        && m'.Keys == m.Keys && m'[h.s] == m[h.s] && m'[node] == m[node]
        && m'[subst] == h.mem[node].(key := m[subst].key)
        && (c.InLeft? ==> m'[c.cell.node] == h.mem[c.cell.node].(left := subst))
        && (c.InRight? ==> m'[c.cell.node] == h.mem[c.cell.node].(right := subst))
        && (l != h.s ==> m'[l] == h.mem[l].(parent := subst))
        && (r != h.s ==> m'[r] == h.mem[r].(parent := subst))
  {
    FocusSide(h, c, t);
    Kin(h, c, t);
    SameButAt(h.mem, m, {RootOf(t.right, h.s), subst, h.s});
  }

  lemma TakenRest(h: Store, m: Memory, c: Ctx, t: Shape, subst: Ptr)
    requires Focus(h, c, t) && t.Fork? && subst !in h.all && subst != h.s
    requires Unsettled(h, m, subst, RootOf(t.right, h.s))
    ensures var node, l, r := t.cell.node, RootOf(t.left, h.s), RootOf(t.right, h.s);
      && node in m && l in m && r in m && (!c.Top? ==> c.cell.node in m)
      && SameBut(h.mem, Taken(m, c, node, subst, l, r, h.s),
                 {node, subst, l, r, h.s} + if c.Top? then {} else {c.cell.node})
  {
    var node, l, r := t.cell.node, RootOf(t.left, h.s), RootOf(t.right, h.s);
    FocusSide(h, c, t);
    Kin(h, c, t);
    SameButAt(h.mem, m, {r, subst, h.s});
    var xs := {node, subst, l, r, h.s} + if c.Top? then {} else {c.cell.node};
    var m' := Taken(m, c, node, subst, l, r, h.s);
    assert m'.Keys == h.mem.Keys;
    assert forall n :: n in m' && n !in xs ==> m'[n] == m[n];
    assert forall n :: n in m' && n !in xs ==> m'[n] == h.mem[n];
    assert m' - xs == h.mem - xs;
  }

  // ----- what a deletion leaves

  /** The sequence with the cell of `node` taken out. */
  ghost predicate RemovedFrom(before: seq<Cell>, after: seq<Cell>, node: Ptr) {
    exists k :: 0 <= k < |before| && before[k].node == node && after == before[..k] + before[k + 1..]
  }

  lemma RemovedMiddle(a: seq<Cell>, x: Cell, b: seq<Cell>)
    ensures RemovedFrom(a + [x] + b, a + b, x.node)
    ensures Sorted(a + [x] + b) ==> Sorted(a + b)
  {
    var s, t := a + [x] + b, a + b;
    assert s[|a|] == x && s[..|a|] == a && s[|a| + 1..] == b;
    if Sorted(s) {
      forall i, j | 0 <= i < j < |t|
        ensures t[i].key <= t[j].key
      {
        assert t[i] == s[if i < |a| then i else i + 1] && t[j] == s[if j < |a| then j else j + 1];
      }
    }
  }

  lemma RemovedInside(a: seq<Cell>, l: seq<Cell>, x: Cell, r: seq<Cell>, d: seq<Cell>)
    ensures RemovedFrom(a + (l + [x] + r) + d, a + (l + r) + d, x.node)
    ensures Sorted(a + (l + [x] + r) + d) ==> Sorted(a + (l + r) + d)
  {
    assert a + (l + [x] + r) + d == (a + l) + [x] + (r + d);
    assert a + (l + r) + d == (a + l) + (r + d);
    RemovedMiddle(a + l, x, r + d);
  }

  /** The node with at most one child leaves its place to that child. */
  lemma SplicedItems(c: Ctx, t: Shape, k: Shape)
    requires t.Fork? && ((t.left.Nil? && k == t.right) || (t.right.Nil? && k == t.left))
    ensures RemovedFrom(Items(Plug(c, t)), Items(Plug(c, k)), t.cell.node)
    ensures Sorted(Items(Plug(c, t))) ==> Sorted(Items(Plug(c, k)))
  {
    PlugItems(c, t);
    PlugItems(c, k);
    RemovedInside(Before(c), Items(t.left), t.cell, Items(t.right), After(c));
    assert Items(k) == Items(t.left) + Items(t.right);
  }

  lemma SplicedBalance(c: Ctx, t: Shape, k: Shape)
    requires t.Fork? && ((t.left.Nil? && k == t.right) || (t.right.Nil? && k == t.left))
    requires Balanced(Plug(c, t)) && !Red(Plug(c, t))
    ensures t.red ==> Balanced(Plug(c, k)) && !Red(Plug(c, k))
    ensures !t.red ==> Short(c, k)
  {
    UnplugBalanced(c, t);
    if t.red { PlugBalanced(c, k); }
  }

  /** The context of the hole left by the smallest node of x's right subtree, with y in the place of x. */
  ghost function Hole(c: Ctx, l: Shape, x: Cell, red: bool, inner: Ctx): Ctx {
    Compose(InRight(c, l, x, red), inner)
  }

  lemma HolePlug(c: Ctx, l: Shape, x: Cell, red: bool, inner: Ctx, u: Shape)
    ensures Plug(Hole(c, l, x, red, inner), u) == Plug(c, Fork(l, x, red, Plug(inner, u)))
  {
    PlugCompose(InRight(c, l, x, red), inner, u);
  }

  lemma {:induction false} HoleBalanced(c: Ctx, l: Shape, x: Cell, y: Cell, red: bool, inner: Ctx, h: nat)
    ensures CtxBalanced(Hole(c, l, x, red, inner), h) <==> CtxBalanced(Hole(c, l, y, red, inner), h)
    ensures RedCtx(Hole(c, l, x, red, inner)) == RedCtx(Hole(c, l, y, red, inner))
    decreases inner
  {
    if !inner.Top? {
      HoleBalanced(c, l, x, y, red, inner.up, h + if inner.red then 0 else 1);
    }
  }

  lemma LeftmostItems(inner: Ctx, u: Shape)
    requires u.Fork? && u.left.Nil? && Before(inner) == []
    ensures Items(Plug(inner, u)) == [u.cell] + Items(Plug(inner, u.right))
  {
    PlugItems(inner, u);
    PlugItems(inner, u.right);
    assert Items(u) == [u.cell] + Items(u.right);
    assert [] + ([u.cell] + Items(u.right)) + After(inner) == [u.cell] + ([] + Items(u.right) + After(inner));
  }

  lemma HoleItems(c: Ctx, l: Shape, x: Cell, red: bool, inner: Ctx, u: Shape)
    ensures Items(Plug(Hole(c, l, x, red, inner), u)) ==
            Before(c) + (Items(l) + [x] + Items(Plug(inner, u))) + After(c)
  {
    HolePlug(c, l, x, red, inner, u);
    PlugItems(c, Fork(l, x, red, Plug(inner, u)));
  }

  /** `RemovedInside` when the part on the right begins with y. */
  lemma RemovedBeforeNext(before: seq<Cell>, after: seq<Cell>,
                          a: seq<Cell>, l: seq<Cell>, x: Cell, y: Cell, r: seq<Cell>, d: seq<Cell>)
    requires before == a + (l + [x] + ([y] + r)) + d
    requires after == a + (l + [y] + r) + d
    ensures RemovedFrom(before, after, x.node) && (Sorted(before) ==> Sorted(after))
  {
    assert l + ([y] + r) == l + [y] + r;
    RemovedInside(a, l, x, [y] + r, d);
  }

  lemma SuccessorItems(c: Ctx, l: Shape, x: Cell, red: bool, inner: Ctx, u: Shape)
    requires u.Fork? && u.left.Nil? && Before(inner) == []
    ensures var before, after := Items(Plug(Hole(c, l, x, red, inner), u)),
              Items(Plug(Hole(c, l, u.cell, red, inner), u.right));
      RemovedFrom(before, after, x.node) && (Sorted(before) ==> Sorted(after))
  {
    HoleItems(c, l, x, red, inner, u);
    HoleItems(c, l, u.cell, red, inner, u.right);
    LeftmostItems(inner, u);
    RemovedBeforeNext(Items(Plug(Hole(c, l, x, red, inner), u)), Items(Plug(Hole(c, l, u.cell, red, inner), u.right)),
                      Before(c), Items(l), x, u.cell, Items(Plug(inner, u.right)), After(c));
  }

  lemma SuccessorBalance(c: Ctx, l: Shape, x: Cell, red: bool, inner: Ctx, u: Shape)
    requires u.Fork? && u.left.Nil?
    requires var t := Plug(Hole(c, l, x, red, inner), u); Balanced(t) && !Red(t)
    ensures var d := Hole(c, l, u.cell, red, inner);
      && (u.red ==> Balanced(Plug(d, u.right)) && !Red(Plug(d, u.right)))
      && (!u.red ==> Short(d, u.right))
  {
    var d0, d1 := Hole(c, l, x, red, inner), Hole(c, l, u.cell, red, inner);
    UnplugBalanced(d0, u);
    HoleBalanced(c, l, x, u.cell, red, inner, BlackHeight(u));
    if u.red { PlugBalanced(d1, u.right); }
  }

  lemma RefocusInner(h: Store, outer: Ctx, inner: Ctx, u: Shape)
    ensures Focus(h, outer, Plug(inner, u)) <==> Focus(h, Compose(outer, inner), u)
  {
    Refocus(h, outer, Plug(inner, u));
    Refocus(h, Compose(outer, inner), u);
    PlugCompose(outer, inner, u);
  }

  lemma FocusHole(h: Store, c: Ctx, l: Shape, x: Cell, red: bool, inner: Ctx, u: Shape)
    ensures Focus(h, Hole(c, l, x, red, inner), u) <==> Focus(h, c, Fork(l, x, red, Plug(inner, u)))
  {
    FocusRight(h, c, l, x, red, Plug(inner, u));
    RefocusInner(h, InRight(c, l, x, red), inner, u);
  }

  /** The parent of the smallest node on the right of x is x itself exactly when that node is x's right child. */
  lemma HoleOwner(h: Store, c: Ctx, l: Shape, x: Cell, red: bool, inner: Ctx, u: Shape)
    requires Focus(h, c, Fork(l, x, red, Plug(inner, u))) && u.Fork?
    ensures Hole(c, l, x, red, inner).cell.node == x.node <==> inner.Top?
    ensures !inner.Top? ==> Hole(c, l, x, red, inner).cell == inner.cell
    ensures u.cell.node != x.node && u.cell.node in Nodes(Plug(inner, u))
  {
    PlugNodes(inner, u);
  }

  /** The store just after the smallest node y on the right of x has been unlinked, as if x stayed. */
  ghost function WithoutSuccessor(h: Store, d: Ctx, y: Ptr, k: Ptr): Store
    requires !d.Top? && d.cell.node in h.mem && k in h.mem
  {
    var m := if d.InLeft? then SetLeft(h.mem, d.cell.node, k) else SetRight(h.mem, d.cell.node, k);
    h.(mem := if k == h.s then m else SetParent(m, k, d.cell.node), all := h.all - {y})
  }

  lemma WithoutSuccessorFocus(h: Store, d: Ctx, u: Shape)
    requires Focus(h, d, u) && !d.Top? && u.Fork? && u.left.Nil?
    ensures d.cell.node in h.mem && RootOf(u.right, h.s) in h.mem
    ensures Focus(WithoutSuccessor(h, d, u.cell.node, RootOf(u.right, h.s)), d, u.right)
  {
    FocusSide(h, d, u);
    Kin(h, d, u);
    var k := u.right;
    assert k.Fork? ==> k.cell.node in Nodes(k);
    SplicedFocus(h, WithoutSuccessor(h, d, u.cell.node, RootOf(k, h.s)), d, u, k);
  }

  lemma WithoutSuccessorFrame(h: Store, d: Ctx, y: Ptr, k: Ptr)
    requires !d.Top? && d.cell.node in h.mem && k in h.mem && d.cell.node in h.all && (k == h.s || k in h.all)
    ensures Untouched(h.mem, WithoutSuccessor(h, d, y, k).mem, h.all + {h.s})
  {
    var m := WithoutSuccessor(h, d, y, k).mem;
    assert m - (h.all + {h.s}) == h.mem - (h.all + {h.s});
  }

  /** What the code reads before it unlinks the successor, and the store it then approximates. */
  lemma SuccessorPrep(h: Store, c: Ctx, t: Shape, inner: Ctx, u: Shape)
    requires Focus(h, c, t) && t.Fork? && t.right == Plug(inner, u) && u.Fork? && u.left.Nil?
    ensures var d, y, k := Hole(c, t.left, t.cell, t.red, inner), u.cell.node, RootOf(u.right, h.s);
      && !d.Top? && Focus(h, d, u) && y in h.mem && k in h.mem && d.cell.node in h.mem && y != h.s && y != k
      && h.mem[y].parent == d.cell.node && h.mem[y].right == k && h.mem[y].red == u.red && h.mem[y].key == u.cell.key
      && d.cell.node in h.all && (k == h.s || k in h.all) && y in h.all && y != t.cell.node
      && (d.cell.node == t.cell.node <==> inner.Top?) && y != d.cell.node && h.s != d.cell.node && k != d.cell.node
      && Focus(WithoutSuccessor(h, d, y, k), c, t.(right := Plug(inner, u.right)))
  {
    var d := Hole(c, t.left, t.cell, t.red, inner);
    FocusHole(h, c, t.left, t.cell, t.red, inner, u);
    HoleOwner(h, c, t.left, t.cell, t.red, inner, u);
    FocusSide(h, d, u);
    Kin(h, d, u);
    WithoutSuccessorFocus(h, d, u);
    FocusHole(WithoutSuccessor(h, d, u.cell.node, RootOf(u.right, h.s)), c, t.left, t.cell, t.red, inner, u.right);
    assert u.right.Fork? ==> u.right.cell.node in Nodes(u.right);
  }

  lemma UnsettledFlat(h: Store, d: Ctx, y: Ptr, k: Ptr, q: Ptr, r: Ptr, m: Memory)
    requires !d.Top? && d.cell.node in h.mem && k in h.mem && y in h.mem && r in h.mem && h.s in h.mem
    requires d.cell.node != h.s && y != d.cell.node && y != k && !h.mem[h.s].red
    requires k != h.s && q != d.cell.node ==> r == k
    requires m == SetParent(if d.InLeft? then SetLeft(h.mem, d.cell.node, k) else SetRight(h.mem, d.cell.node, k), k, q)
    ensures y in m && m[y] == h.mem[y] && Unsettled(WithoutSuccessor(h, d, y, k), m, y, r)
  {
    var m1 := WithoutSuccessor(h, d, y, k).mem;
    assert m.Keys == h.mem.Keys && m1.Keys == h.mem.Keys;
    assert forall n :: n in m && n != r && n != h.s ==> m[n] == m1[n];
    assert m - {r, y, h.s} == m1 - {r, y, h.s};
  }

  lemma SuccessorUnsettled(h: Store, c: Ctx, t: Shape, inner: Ctx, u: Shape, m: Memory, q: Ptr)
    requires Focus(h, c, t) && t.Fork? && t.right == Plug(inner, u) && u.Fork? && u.left.Nil?
    requires var d, y, k := Hole(c, t.left, t.cell, t.red, inner), u.cell.node, RootOf(u.right, h.s);
      && !d.Top? && d.cell.node in h.mem && k in h.mem
      && q == (if inner.Top? then y else d.cell.node)
      && m == SetParent(if d.InLeft? then SetLeft(h.mem, d.cell.node, k) else SetRight(h.mem, d.cell.node, k), k, q)
    ensures var d, y, k := Hole(c, t.left, t.cell, t.red, inner), u.cell.node, RootOf(u.right, h.s);
      && y in h.mem && y in m && m[y] == h.mem[y]
      && Unsettled(WithoutSuccessor(h, d, y, k), m, y, RootOf(Plug(inner, u.right), h.s))
  {
    SuccessorPrep(h, c, t, inner, u);
    var d, y, k := Hole(c, t.left, t.cell, t.red, inner), u.cell.node, RootOf(u.right, h.s);
    var h1 := WithoutSuccessor(h, d, y, k);
    Kin(h1, c, t.(right := Plug(inner, u.right)));
    UnsettledFlat(h, d, y, k, q, RootOf(Plug(inner, u.right), h.s), m);
  }

  lemma SwapFrame(h: Store, m: Memory, c: Ctx, t: Shape, y: Ptr, all: set<Ptr>)
    requires Focus(h, c, t) && t.Fork? && all == h.all + {y, h.s}
    requires SameBut(h.mem, m, {t.cell.node, y, RootOf(t.left, h.s), RootOf(t.right, h.s), h.s}
                               + if c.Top? then {} else {c.cell.node})
    ensures SameBut(h.mem, m, all)
  {
    assert t.left.Fork? ==> t.left.cell.node in Nodes(t.left);
    assert t.right.Fork? ==> t.right.cell.node in Nodes(t.right);
    SameButWiden(h.mem, m, {t.cell.node, y, RootOf(t.left, h.s), RootOf(t.right, h.s), h.s}
      + if c.Top? then {} else {c.cell.node}, all);
  }

  /** Every node of a tree can be brought into focus. */
  lemma {:induction false} Locate(h: Store, c: Ctx, t: Shape, node: Ptr) returns (d: Ctx, u: Shape)
    requires Focus(h, c, t) && node in Nodes(t)
    ensures Focus(h, d, u) && Plug(d, u) == Plug(c, t) && u.Fork? && u.cell.node == node
    decreases t
  {
    if t.cell.node == node {
      d, u := c, t;
    } else if node in Nodes(t.left) {
      FocusLeft(h, c, t.left, t.cell, t.red, t.right);
      d, u := Locate(h, InLeft(c, t.cell, t.red, t.right), t.left, node);
    } else {
      FocusRight(h, c, t.left, t.cell, t.red, t.right);
      d, u := Locate(h, InRight(c, t.left, t.cell, t.red), t.right, node);
    }
  }

  class Tree {
    var mem: Memory
    var root: Ptr
    const sentinel: Ptr
    ghost var shape: Shape
    ghost var nodes: set<Ptr>

    ghost function View(): Store
      reads this
    {
      Store(mem, root, sentinel, nodes)
    }

    ghost predicate Valid()
      reads this
    {
      && Focus(View(), Top, shape)
      && Balanced(shape) && !Red(shape)
      && Sorted(Items(shape)) && NULL !in nodes
    }

    constructor (mem: Memory, sentinel: Ptr)
      requires sentinel in mem
      ensures Valid() && Items(shape) == [] && nodes == {} && this.sentinel == sentinel
      ensures this.mem == SetRed(mem, sentinel, false)
    {
      this.mem := SetRed(mem, sentinel, false);
      this.sentinel := sentinel;
      root := sentinel;
      shape := Nil;
      nodes := {};
    }

    method LeftRotate(node: Ptr, ghost y: Ptr, ghost b: Ptr)
      requires LeftRotatable(View(), node, y, b)
      modifies this`mem, this`root
      ensures LeftRotated(old(View()), View(), node, y, b)
    {
      var m := mem;
      var temp := m[node].right;
      m := SetRight(m, node, m[temp].left);
      if m[temp].left != sentinel {
        m := SetParent(m, m[temp].left, node);
      }
      m := SetParent(m, temp, m[node].parent);
      assert m[node] == mem[node].(right := b) && m[y] == mem[y].(parent := mem[node].parent);
      assert forall n :: n in mem && n != node && n != y && (n != b || b == sentinel) ==> m[n] == mem[n];
      if node == root {
        root := temp;
      } else if node == m[m[node].parent].left {
        m := SetLeft(m, m[node].parent, temp);
      } else {
        m := SetRight(m, m[node].parent, temp);
      }
      m := SetLeft(m, temp, node);
      m := SetParent(m, node, temp);
      mem := m;
    }

    method RightRotate(node: Ptr, ghost x: Ptr, ghost b: Ptr)
      requires RightRotatable(View(), node, x, b)
      modifies this`mem, this`root
      ensures RightRotated(old(View()), View(), node, x, b)
    {
      var m := mem;
      var temp := m[node].left;
      m := SetLeft(m, node, m[temp].right);
      if m[temp].right != sentinel {
        m := SetParent(m, m[temp].right, node);
      }
      m := SetParent(m, temp, m[node].parent);
      assert m[node] == mem[node].(left := b) && m[x] == mem[x].(parent := mem[node].parent);
      assert forall n :: n in mem && n != node && n != x && (n != b || b == sentinel) ==> m[n] == mem[n];
      if node == root {
        root := temp;
      } else if node == m[m[node].parent].right {
        m := SetRight(m, m[node].parent, temp);
      } else {
        m := SetLeft(m, m[node].parent, temp);
      }
      m := SetRight(m, temp, node);
      m := SetParent(m, node, temp);
      mem := m;
    }


    // ----- insertion

    /** The descent of the insertion: the empty child of `temp` where a node with this key belongs. */
    method FindSlot(key: int, ghost t0: Shape) returns (temp: Ptr, goLeft: bool, ghost c: Ctx)
      requires Focus(View(), Top, t0) && t0.Fork? && Sorted(Items(t0))
      ensures Focus(View(), c, Nil) && Plug(c, Nil) == t0 && Between(c, key)
      ensures !c.Top? && temp == c.cell.node && goLeft == c.InLeft?
    {
      ghost var t := t0;
      c := Top;
      temp := root;
      goLeft := key < mem[temp].key;
      var next := if goLeft then mem[temp].left else mem[temp].right;
      while next != sentinel
        invariant Focus(View(), c, t) && t.Fork? && temp == t.cell.node && Plug(c, t) == t0
        invariant Between(c, key)
        invariant goLeft == (key < t.cell.key)
        invariant next == RootOf(if goLeft then t.left else t.right, sentinel)
        decreases t
      {
        Descend(View(), c, t, key);
        temp := next;
        if goLeft {
          c, t := InLeft(c, t.cell, t.red, t.right), t.left;
        } else {
          c, t := InRight(c, t.left, t.cell, t.red), t.right;
        }
        goLeft := key < mem[temp].key;
        next := if goLeft then mem[temp].left else mem[temp].right;
      }
      Descend(View(), c, t, key);
      c := if goLeft then InLeft(c, t.cell, t.red, t.right) else InRight(c, t.left, t.cell, t.red);
    }

    /** Walks down from the root and hangs `node` below the last node met. */
    method InsertValue(node: Ptr, ghost t0: Shape) returns (ghost c: Ctx)
      requires Focus(View(), Top, t0) && t0.Fork? && Sorted(Items(t0))
      requires node in mem && node != sentinel && node !in Nodes(t0)
      modifies this`mem, this`nodes
      ensures Focus(View(), c, Fork(Nil, Cell(node, old(mem[node].key)), true, Nil))
      ensures Plug(c, Nil) == t0 && Between(c, old(mem[node].key))
      ensures nodes == old(nodes) + {node} && Untouched(old(mem), mem, nodes)
    {
      var temp, goLeft;
      temp, goLeft, c := FindSlot(mem[node].key, t0);
      PlugNodes(c, Nil);
      ghost var h := View();
      mem := if goLeft then SetLeft(mem, temp, node) else SetRight(mem, temp, node);
      mem := mem[node := Record(mem[node].key, sentinel, sentinel, temp, true)];
      assert mem.Keys == h.mem.Keys;
      nodes := nodes + {node};
      Attached(h, View(), c, node);
      assert mem - nodes == h.mem - nodes;
    }

    /** `LeftRotate` seen on shapes. */
    method LeftRotateAt(node: Ptr, ghost c: Ctx, ghost a: Shape, ghost x: Cell, ghost xr: bool,
                       ghost b: Shape, ghost y: Cell, ghost yr: bool, ghost d: Shape)
      requires node == x.node && Focus(View(), c, Fork(a, x, xr, Fork(b, y, yr, d)))
      modifies this`mem, this`root
      ensures Focus(View(), c, Fork(Fork(a, x, xr, b), y, yr, d))
      ensures Untouched(old(mem), mem, nodes)
    {
      ghost var h := View();
      FocusLeftRotatable(h, c, a, x, xr, b, y, yr, d);
      LeftRotate(node, y.node, RootOf(b, sentinel));
      LeftRotatedFocus(h, View(), c, a, x, xr, b, y, yr, d);
      LeftRotatedUntouched(h, View(), c, a, x, xr, b, y, yr, d);
    }

    /** `RightRotate` seen on shapes. */
    method RightRotateAt(node: Ptr, ghost c: Ctx, ghost a: Shape, ghost x: Cell, ghost xr: bool,
                       ghost b: Shape, ghost y: Cell, ghost yr: bool, ghost d: Shape)
      requires node == y.node && Focus(View(), c, Fork(Fork(a, x, xr, b), y, yr, d))
      modifies this`mem, this`root
      ensures Focus(View(), c, Fork(a, x, xr, Fork(b, y, yr, d)))
      ensures Untouched(old(mem), mem, nodes)
    {
      ghost var h := View();
      FocusRightRotatable(h, c, a, x, xr, b, y, yr, d);
      RightRotate(node, x.node, RootOf(b, sentinel));
      RightRotatedFocus(h, View(), c, a, x, xr, b, y, yr, d);
      RightRotatedUntouched(h, View(), c, a, x, xr, b, y, yr, d);
    }

    /** Sets the color of a focused node. */
    method Paint(n: Ptr, red: bool, ghost c: Ctx, ghost t: Shape)
      requires Focus(View(), c, t) && t.Fork? && n == t.cell.node
      modifies this`mem
      ensures Focus(View(), c, t.(red := red))
      ensures Untouched(old(mem), mem, nodes)
    {
      Painted(View(), c, t, red);
      mem := SetRed(mem, n, red);
    }

    /** Sets the color of a child of a focused node. */
    method PaintChild(n: Ptr, red: bool, ghost c: Ctx, ghost t: Shape)
      requires Focus(View(), c, t) && t.Fork?
      requires (t.left.Fork? && t.left.cell.node == n) || (t.right.Fork? && t.right.cell.node == n)
      modifies this`mem
      ensures Focus(View(), c, PaintedChild(t, n, red))
      ensures Untouched(old(mem), mem, nodes)
    {
      ghost var onLeft := t.left.Fork? && t.left.cell.node == n;
      ghost var d := if onLeft then InLeft(c, t.cell, t.red, t.right) else InRight(c, t.left, t.cell, t.red);
      ghost var u := if onLeft then t.left else t.right;
      FocusUp(View(), d, u);
      Paint(n, red, d, u);
      FocusUp(View(), d, u.(red := red));
    }

    /** Parent and uncle become black and the grandparent red. */
    method FlipColors(par: Ptr, uncle: Ptr, gp: Ptr, ghost c: Ctx, ghost t: Shape)
      requires Focus(View(), c, t) && t.Fork? && t.left.Fork? && t.right.Fork? && gp == t.cell.node
      requires (par, uncle) == (t.left.cell.node, t.right.cell.node)
        || (par, uncle) == (t.right.cell.node, t.left.cell.node)
      modifies this`mem
      ensures Focus(View(), c, Fork(t.left.(red := false), t.cell, true, t.right.(red := false)))
      ensures Untouched(old(mem), mem, nodes)
    {
      Kin(View(), c, t);
      PaintChild(par, false, c, t);
      ghost var t1 := PaintedChild(t, par, false);
      PaintChild(uncle, false, c, t1);
      ghost var t2 := PaintedChild(t1, uncle, false);
      Paint(gp, true, c, t2);
    }

    /** The red parent q of `node`, on its grandparent's left, becomes black and turns up over the grandparent. */
    method TurnRight(node: Ptr, ghost c: Ctx, ghost t: Shape, ghost q: Cell, ghost s: Shape)
      requires c.InLeft? && t.Fork? && node == t.cell.node && Focus(View(), c, Fork(t, q, true, s))
      modifies this`mem, this`root
      ensures Focus(View(), c.up, Fork(t, q, false, Fork(s, c.cell, true, c.right)))
      ensures Untouched(old(mem), mem, nodes)
    {
      ghost var qt := Fork(t, q, true, s);
      Kin(View(), c, qt);
      FocusSide(View(), c, qt);
      var par := mem[node].parent;
      var gp := mem[par].parent;
      Paint(par, false, c, qt);
      ghost var qt' := qt.(red := false);
      FocusUp(View(), c, qt');
      Paint(gp, true, c.up, Fill(c, qt'));
      RightRotateAt(gp, c.up, t, q, false, s, c.cell, true, c.right);
    }

    /** One turn of the insertion loop when the parent is a left child. */
    method RebalanceLeft(node0: Ptr, ghost c0: Ctx, ghost t0: Shape) returns (node: Ptr, ghost c: Ctx, ghost t: Shape)
      requires Focus(View(), c0, t0) && Pending(c0, t0) && RedCtx(c0) && c0.up.InLeft?
      requires node0 == t0.cell.node
      modifies this`mem, this`root
      ensures Focus(View(), c, t) && Pending(c, t) && node == t.cell.node && Depth(c) < Depth(c0)
      ensures Items(Plug(c, t)) == Items(Plug(c0, t0))
      ensures Untouched(old(mem), mem, nodes)
    {
      node := node0;
      Grand(View(), c0, t0);
      var par := mem[node].parent;
      var gp := mem[par].parent;
      var temp := mem[gp].right;
      if mem[temp].red {
        FlippedPending(c0, t0);
        FlipColors(par, temp, gp, c0.up.up, Fill(c0.up, Fill(c0, t0)));
        node, c, t := gp, c0.up.up, Flipped(c0, t0);
      } else {
        LeftTurned(c0, t0);
        ghost var (st, q, s) := LeftStraight(c0, t0);
        t := st;
        if node == mem[par].right {
          LeftRotateAt(par, c0.up, c0.left, c0.cell, true, t0.left, t0.cell, true, t0.right);
          node := par;
        }
        assert node == t.cell.node && Focus(View(), c0.up, Fork(t, q, true, s));
        TurnRight(node, c0.up, t, q, s);
        c := InLeft(c0.up.up, q, false, Fork(s, c0.up.cell, true, c0.up.right));
        FocusUp(View(), c, t);
      }
    }

    /** The red parent q of `node`, on its grandparent's right, becomes black and turns up over the grandparent. */
    method TurnLeft(node: Ptr, ghost c: Ctx, ghost t: Shape, ghost q: Cell, ghost s: Shape)
      requires c.InRight? && t.Fork? && node == t.cell.node && Focus(View(), c, Fork(s, q, true, t))
      modifies this`mem, this`root
      ensures Focus(View(), c.up, Fork(Fork(c.left, c.cell, true, s), q, false, t))
      ensures Untouched(old(mem), mem, nodes)
    {
      ghost var qt := Fork(s, q, true, t);
      Kin(View(), c, qt);
      FocusSide(View(), c, qt);
      var par := mem[node].parent;
      var gp := mem[par].parent;
      Paint(par, false, c, qt);
      ghost var qt' := qt.(red := false);
      FocusUp(View(), c, qt');
      Paint(gp, true, c.up, Fill(c, qt'));
      LeftRotateAt(gp, c.up, c.left, c.cell, true, s, q, false, t);
    }

    /** One turn of the insertion loop when the parent is a right child. */
    method RebalanceRight(node0: Ptr, ghost c0: Ctx, ghost t0: Shape) returns (node: Ptr, ghost c: Ctx, ghost t: Shape)
      requires Focus(View(), c0, t0) && Pending(c0, t0) && RedCtx(c0) && c0.up.InRight?
      requires node0 == t0.cell.node
      modifies this`mem, this`root
      ensures Focus(View(), c, t) && Pending(c, t) && node == t.cell.node && Depth(c) < Depth(c0)
      ensures Items(Plug(c, t)) == Items(Plug(c0, t0))
      ensures Untouched(old(mem), mem, nodes)
    {
      node := node0;
      Grand(View(), c0, t0);
      var par := mem[node].parent;
      var gp := mem[par].parent;
      var temp := mem[gp].left;
      if mem[temp].red {
        FlippedPending(c0, t0);
        FlipColors(par, temp, gp, c0.up.up, Fill(c0.up, Fill(c0, t0)));
        node, c, t := gp, c0.up.up, Flipped(c0, t0);
      } else {
        RightTurned(c0, t0);
        ghost var (st, q, s) := RightStraight(c0, t0);
        t := st;
        if node == mem[par].left {
          RightRotateAt(par, c0.up, t0.left, t0.cell, true, t0.right, c0.cell, true, c0.right);
          node := par;
        }
        assert node == t.cell.node && Focus(View(), c0.up, Fork(s, q, true, t));
        TurnLeft(node, c0.up, t, q, s);
        c := InRight(c0.up.up, Fork(c0.up.left, c0.up.cell, true, s), q, false);
        FocusUp(View(), c, t);
      }
    }

    /** One turn of the insertion loop. */
    method RebalanceOnce(node0: Ptr, ghost c0: Ctx, ghost t0: Shape) returns (node: Ptr, ghost c: Ctx, ghost t: Shape)
      requires Focus(View(), c0, t0) && Pending(c0, t0) && RedCtx(c0) && node0 == t0.cell.node
      modifies this`mem, this`root
      ensures Focus(View(), c, t) && Pending(c, t) && node == t.cell.node && Depth(c) < Depth(c0)
      ensures Items(Plug(c, t)) == Items(Plug(c0, t0))
      ensures Untouched(old(mem), mem, nodes)
    {
      Grand(View(), c0, t0);
      var par := mem[node0].parent;
      if par == mem[mem[par].parent].left {
        node, c, t := RebalanceLeft(node0, c0, t0);
      } else {
        node, c, t := RebalanceRight(node0, c0, t0);
      }
    }

    /** The insertion loop: climbs until the parent is black or the root is reached. */
    method RebalanceInsert(node0: Ptr, ghost c0: Ctx, ghost t0: Shape) returns (ghost t: Shape)
      requires Focus(View(), c0, t0) && Pending(c0, t0) && node0 == t0.cell.node
      modifies this`mem, this`root
      ensures Focus(View(), Top, t) && Balanced(t) && !Red(t) && Items(t) == Items(Plug(c0, t0))
      ensures Untouched(old(mem), mem, nodes)
    {
      var node := node0;
      ghost var c := c0;
      t := t0;
      Surround(View(), c, t);
      while node != root && mem[mem[node].parent].red
        invariant Focus(View(), c, t) && Pending(c, t) && node == t.cell.node
        invariant Surrounds(View(), c, t)
        invariant Items(Plug(c, t)) == Items(Plug(c0, t0))
        invariant Untouched(old(mem), mem, nodes)
        decreases Depth(c)
      {
        node, c, t := RebalanceOnce(node, c, t);
        Surround(View(), c, t);
      }
      PlugPending(c, t);
      Refocus(View(), c, t);
      t := Plug(c, t);
      Paint(root, false, Top, t);
      t := t.(red := false);
    }

    /** ngx_rbtree_insert */
    method Insert(node: Ptr)
      requires Valid() && node in mem && node != sentinel && node != NULL && node !in nodes
      modifies this
      ensures Valid() && nodes == old(nodes) + {node}
      ensures InsertedInOrder(old(Items(shape)), Items(shape), Cell(node, old(mem[node].key)))
      ensures Untouched(old(mem), mem, nodes)
    {
      ghost var x := Cell(node, mem[node].key);
      if root == sentinel {
        mem := mem[node := Record(mem[node].key, sentinel, sentinel, NULL, false)];
        root := node;
        nodes := {node};
        shape := Fork(Nil, x, false, Nil);
        assert InsertedAt([], [x], x, 0);
        assert RootOf(shape, sentinel) == node;
        assert InFocus(View(), Top, shape);
        return;
      }
      ghost var c := InsertValue(node, shape);
      PlugBlack(c, x);
      InsertedOrdered(c, x);
      shape := RebalanceInsert(node, c, Fork(Nil, x, true, Nil));
    }

    /** Turns a red right sibling up over the parent, which becomes red. */
    method LeftRaiseSibling(par: Ptr, w: Ptr, ghost c: Ctx, ghost t: Shape)
      requires c.InLeft? && c.right.Fork? && Focus(View(), c, t)
      requires par == c.cell.node && w == c.right.cell.node
      modifies this`mem, this`root
      ensures Focus(View(), LeftSiblingUp(c), t)
      ensures Untouched(old(mem), mem, nodes)
    {
      ghost var sib := c.right;
      ghost var t0 := Fill(c, t);
      FocusUp(View(), c, t);
      Kin(View(), c.up, t0);
      PaintChild(w, false, c.up, t0);
      ghost var t1 := PaintedChild(t0, w, false);
      Paint(par, true, c.up, t1);
      LeftRotateAt(par, c.up, t, c.cell, true, sib.left, sib.cell, false, sib.right);
      FocusUp(View(), InLeft(c.up, sib.cell, false, sib.right), Fork(t, c.cell, true, sib.left));
      FocusUp(View(), LeftSiblingUp(c), t);
    }

    /** Turns the red left child of the black sibling up over it. */
    method LeftLineUp(w: Ptr, ghost c: Ctx, ghost t: Shape)
      requires c.InLeft? && c.right.Fork? && c.right.left.Fork? && Focus(View(), c, t) && w == c.right.cell.node
      modifies this`mem, this`root
      ensures Focus(View(), LeftLined(c), t)
      ensures Untouched(old(mem), mem, nodes)
    {
      ghost var sib := c.right;
      ghost var near := sib.left;
      ghost var d := InRight(c.up, t, c.cell, c.red);
      FocusUp(View(), c, t);
      FocusUp(View(), d, sib);
      Kin(View(), d, sib);
      PaintChild(mem[w].left, false, d, sib);
      ghost var s1 := PaintedChild(sib, near.cell.node, false);
      Paint(w, true, d, s1);
      RightRotateAt(w, d, near.left, near.cell, false, near.right, sib.cell, true, sib.right);
      FocusUp(View(), d, LeftLined(c).right);
      FocusUp(View(), LeftLined(c), t);
    }

    method LeftRepairColors(par: Ptr, w: Ptr, ghost c: Ctx, ghost t: Shape)
      requires c.InLeft? && c.right.Fork? && c.right.right.Fork? && Focus(View(), c, t)
      requires par == c.cell.node && w == c.right.cell.node
      modifies this`mem
      ensures Focus(View(), c.up, Fork(t, c.cell, false, c.right.(red := c.red, right := c.right.right.(red := false))))
      ensures Untouched(old(mem), mem, nodes)
    {
      ghost var t0 := Fill(c, t);
      FocusUp(View(), c, t);
      Kin(View(), c.up, t0);
      PaintChild(w, mem[par].red, c.up, t0);
      ghost var sib := c.right.(red := c.red);
      Paint(par, false, c.up, Fork(t, c.cell, c.red, sib));
      ghost var d := InRight(c.up, t, c.cell, false);
      FocusUp(View(), d, sib);
      Kin(View(), d, sib);
      PaintChild(mem[w].right, false, d, sib);
      FocusUp(View(), d, sib.(right := sib.right.(red := false)));
    }

    /** The last rotation: the sibling takes the parent's color and place. */
    method LeftRepair(par: Ptr, w: Ptr, ghost c: Ctx, ghost t: Shape) returns (ghost t': Shape)
      requires c.InLeft? && c.right.Fork? && c.right.right.Fork? && Focus(View(), c, t)
      requires par == c.cell.node && w == c.right.cell.node
      modifies this`mem, this`root
      ensures t' == Fork(Fork(t, c.cell, false, c.right.left), c.right.cell, c.red, c.right.right.(red := false))
      ensures Focus(View(), c.up, t')
      ensures Untouched(old(mem), mem, nodes)
    {
      LeftRepairColors(par, w, c, t);
      LeftRotateAt(par, c.up, t, c.cell, false, c.right.left, c.right.cell, c.red, c.right.right.(red := false));
      t' := Fork(Fork(t, c.cell, false, c.right.left), c.right.cell, c.red, c.right.right.(red := false));
    }

    /** Turns a red left sibling up over the parent, which becomes red. */
    method RightRaiseSibling(par: Ptr, w: Ptr, ghost c: Ctx, ghost t: Shape)
      requires c.InRight? && c.left.Fork? && Focus(View(), c, t)
      requires par == c.cell.node && w == c.left.cell.node
      modifies this`mem, this`root
      ensures Focus(View(), RightSiblingUp(c), t)
      ensures Untouched(old(mem), mem, nodes)
    {
      ghost var sib := c.left;
      ghost var t0 := Fill(c, t);
      FocusUp(View(), c, t);
      Kin(View(), c.up, t0);
      PaintChild(w, false, c.up, t0);
      ghost var t1 := PaintedChild(t0, w, false);
      Paint(par, true, c.up, t1);
      RightRotateAt(par, c.up, sib.left, sib.cell, false, sib.right, c.cell, true, t);
      FocusUp(View(), InRight(c.up, sib.left, sib.cell, false), Fork(sib.right, c.cell, true, t));
      FocusUp(View(), RightSiblingUp(c), t);
    }

    /** Turns the red right child of the black sibling up over it. */
    method RightLineUp(w: Ptr, ghost c: Ctx, ghost t: Shape)
      requires c.InRight? && c.left.Fork? && c.left.right.Fork? && Focus(View(), c, t) && w == c.left.cell.node
      modifies this`mem, this`root
      ensures Focus(View(), RightLined(c), t)
      ensures Untouched(old(mem), mem, nodes)
    {
      ghost var sib := c.left;
      ghost var near := sib.right;
      ghost var d := InLeft(c.up, c.cell, c.red, t);
      FocusUp(View(), c, t);
      FocusUp(View(), d, sib);
      Kin(View(), d, sib);
      PaintChild(mem[w].right, false, d, sib);
      ghost var s1 := PaintedChild(sib, near.cell.node, false);
      Paint(w, true, d, s1);
      LeftRotateAt(w, d, sib.left, sib.cell, true, near.left, near.cell, false, near.right);
      FocusUp(View(), d, RightLined(c).left);
      FocusUp(View(), RightLined(c), t);
    }

    method RightRepairColors(par: Ptr, w: Ptr, ghost c: Ctx, ghost t: Shape)
      requires c.InRight? && c.left.Fork? && c.left.left.Fork? && Focus(View(), c, t)
      requires par == c.cell.node && w == c.left.cell.node
      modifies this`mem
      ensures Focus(View(), c.up, Fork(c.left.(red := c.red, left := c.left.left.(red := false)), c.cell, false, t))
      ensures Untouched(old(mem), mem, nodes)
    {
      ghost var t0 := Fill(c, t);
      FocusUp(View(), c, t);
      Kin(View(), c.up, t0);
      PaintChild(w, mem[par].red, c.up, t0);
      ghost var sib := c.left.(red := c.red);
      Paint(par, false, c.up, Fork(sib, c.cell, c.red, t));
      ghost var d := InLeft(c.up, c.cell, false, t);
      FocusUp(View(), d, sib);
      Kin(View(), d, sib);
      PaintChild(mem[w].left, false, d, sib);
      FocusUp(View(), d, sib.(left := sib.left.(red := false)));
    }

    /** The last rotation: the sibling takes the parent's color and place. */
    method RightRepair(par: Ptr, w: Ptr, ghost c: Ctx, ghost t: Shape) returns (ghost t': Shape)
      requires c.InRight? && c.left.Fork? && c.left.left.Fork? && Focus(View(), c, t)
      requires par == c.cell.node && w == c.left.cell.node
      modifies this`mem, this`root
      ensures t' == Fork(c.left.left.(red := false), c.left.cell, c.red, Fork(c.left.right, c.cell, false, t))
      ensures Focus(View(), c.up, t')
      ensures Untouched(old(mem), mem, nodes)
    {
      RightRepairColors(par, w, c, t);
      RightRotateAt(par, c.up, c.left.left.(red := false), c.left.cell, c.red, c.left.right, c.cell, false, t);
      t' := Fork(c.left.left.(red := false), c.left.cell, c.red, Fork(c.left.right, c.cell, false, t));
    }

    /** The end of the deletion loop: the sibling has a red child. */
    method LeftFinish(par: Ptr, w0: Ptr, ghost c0: Ctx, ghost t0: Shape) returns (ghost t: Shape)
      requires Focus(View(), c0, t0) && Short(c0, t0)
      requires c0.InLeft? && par == c0.cell.node && !Red(t0) && c0.right.Fork? && !c0.right.red
      requires w0 == c0.right.cell.node
      requires Red(c0.right.left) || Red(c0.right.right)
      modifies this`mem, this`root
      ensures Focus(View(), Top, t) && Balanced(t) && !Red(t) && Items(t) == Items(Plug(c0, t0))
      ensures Untouched(old(mem), mem, nodes)
    {
      LeftSiblings(View(), c0, t0);
      var w := w0;
      ghost var c1 := c0;
      if !mem[mem[w].right].red {
        LeftLinedShort(c0, t0);
        LeftLineUp(w, c0, t0);
        c1 := LeftLined(c0);
        LeftSiblings(View(), c1, t0);
        w := mem[par].right;
      }
      LeftRepaired(c1, t0);
      ghost var t1 := LeftRepair(par, w, c1, t0);
      Refocus(View(), c1.up, t1);
      t := Plug(c1.up, t1);
    }

    /** The part of a turn of the deletion loop that begins with a black right sibling. */
    method LeftFixBlack(temp0: Ptr, ghost c0: Ctx, ghost t0: Shape) returns (temp: Ptr, ghost c: Ctx, ghost t: Shape)
      requires Focus(View(), c0, t0) && Short(c0, t0) && Tracks(View(), c0, t0, temp0)
      requires c0.InLeft? && !Red(t0) && c0.right.Fork? && !c0.right.red
      modifies this`mem, this`root
      ensures Focus(View(), c, t) && Short(c, t) && Tracks(View(), c, t, temp)
      ensures c.Top? || c == c0.up
      ensures c == c0.up && c0.red ==> FixMeasure(c, t) == 0
      ensures Items(Plug(c, t)) == Items(Plug(c0, t0))
      ensures Untouched(old(mem), mem, nodes)
    {
      var par := mem[temp0].parent;
      LeftSiblings(View(), c0, t0);
      var w := mem[par].right;
      if !mem[mem[w].left].red && !mem[mem[w].right].red {
        LeftSiblingRed(c0, t0);
        FocusUp(View(), c0, t0);
        PaintChild(w, true, c0.up, Fill(c0, t0));
        temp, c, t := par, c0.up, Fork(t0, c0.cell, c0.red, c0.right.(red := true));
      } else {
        t := LeftFinish(par, w, c0, t0);
        temp, c := root, Top;
      }
      Track(View(), c, t);
    }

    /** One turn of the deletion loop when `temp` is a left child. */
    method LeftFix(temp0: Ptr, ghost c0: Ctx, ghost t0: Shape) returns (temp: Ptr, ghost c: Ctx, ghost t: Shape)
      requires Focus(View(), c0, t0) && Short(c0, t0) && Tracks(View(), c0, t0, temp0)
      requires c0.InLeft? && !Red(t0)
      modifies this`mem, this`root
      ensures Focus(View(), c, t) && Short(c, t) && Tracks(View(), c, t, temp)
      ensures FixMeasure(c, t) < FixMeasure(c0, t0)
      ensures Items(Plug(c, t)) == Items(Plug(c0, t0))
      ensures Untouched(old(mem), mem, nodes)
    {
      var par := mem[temp0].parent;
      LeftSiblings(View(), c0, t0);
      var w := mem[par].right;
      ghost var c1 := c0;
      if mem[w].red {
        LeftSiblingUpShort(c0, t0);
        ghost var m := mem;
        LeftRaiseSibling(par, w, c0, t0);
        c1 := LeftSiblingUp(c0);
        UntouchedAt(m, mem, nodes, sentinel);
        Track(View(), c1, t0);
      }
      temp, c, t := LeftFixBlack(temp0, c1, t0);
    }

    /** The end of the deletion loop: the sibling has a red child. */
    method RightFinish(par: Ptr, w0: Ptr, ghost c0: Ctx, ghost t0: Shape) returns (ghost t: Shape)
      requires Focus(View(), c0, t0) && Short(c0, t0)
      requires c0.InRight? && par == c0.cell.node && !Red(t0) && c0.left.Fork? && !c0.left.red
      requires w0 == c0.left.cell.node
      requires Red(c0.left.left) || Red(c0.left.right)
      modifies this`mem, this`root
      ensures Focus(View(), Top, t) && Balanced(t) && !Red(t) && Items(t) == Items(Plug(c0, t0))
      ensures Untouched(old(mem), mem, nodes)
    {
      RightSiblings(View(), c0, t0);
      var w := w0;
      ghost var c1 := c0;
      if !mem[mem[w].left].red {
        RightLinedShort(c0, t0);
        RightLineUp(w, c0, t0);
        c1 := RightLined(c0);
        RightSiblings(View(), c1, t0);
        w := mem[par].left;
      }
      RightRepaired(c1, t0);
      ghost var t1 := RightRepair(par, w, c1, t0);
      Refocus(View(), c1.up, t1);
      t := Plug(c1.up, t1);
    }

    /** The part of a turn of the deletion loop that begins with a black left sibling. */
    method RightFixBlack(temp0: Ptr, ghost c0: Ctx, ghost t0: Shape) returns (temp: Ptr, ghost c: Ctx, ghost t: Shape)
      requires Focus(View(), c0, t0) && Short(c0, t0) && Tracks(View(), c0, t0, temp0)
      requires c0.InRight? && !Red(t0) && c0.left.Fork? && !c0.left.red
      modifies this`mem, this`root
      ensures Focus(View(), c, t) && Short(c, t) && Tracks(View(), c, t, temp)
      ensures c.Top? || c == c0.up
      ensures c == c0.up && c0.red ==> FixMeasure(c, t) == 0
      ensures Items(Plug(c, t)) == Items(Plug(c0, t0))
      ensures Untouched(old(mem), mem, nodes)
    {
      var par := mem[temp0].parent;
      RightSiblings(View(), c0, t0);
      var w := mem[par].left;
      if !mem[mem[w].left].red && !mem[mem[w].right].red {
        RightSiblingRed(c0, t0);
        FocusUp(View(), c0, t0);
        PaintChild(w, true, c0.up, Fill(c0, t0));
        temp, c, t := par, c0.up, Fork(c0.left.(red := true), c0.cell, c0.red, t0);
      } else {
        t := RightFinish(par, w, c0, t0);
        temp, c := root, Top;
      }
      Track(View(), c, t);
    }

    /** One turn of the deletion loop when `temp` is a right child. */
    method RightFix(temp0: Ptr, ghost c0: Ctx, ghost t0: Shape) returns (temp: Ptr, ghost c: Ctx, ghost t: Shape)
      requires Focus(View(), c0, t0) && Short(c0, t0) && Tracks(View(), c0, t0, temp0)
      requires c0.InRight? && !Red(t0)
      modifies this`mem, this`root
      ensures Focus(View(), c, t) && Short(c, t) && Tracks(View(), c, t, temp)
      ensures FixMeasure(c, t) < FixMeasure(c0, t0)
      ensures Items(Plug(c, t)) == Items(Plug(c0, t0))
      ensures Untouched(old(mem), mem, nodes)
    {
      var par := mem[temp0].parent;
      RightSiblings(View(), c0, t0);
      var w := mem[par].left;
      ghost var c1 := c0;
      if mem[w].red {
        RightSiblingUpShort(c0, t0);
        ghost var m := mem;
        RightRaiseSibling(par, w, c0, t0);
        c1 := RightSiblingUp(c0);
        UntouchedAt(m, mem, nodes, sentinel);
        Track(View(), c1, t0);
      }
      temp, c, t := RightFixBlack(temp0, c1, t0);
    }

    // ----- deletion

    /** The deletion loop and the final repainting of `temp`. */
    method FixDelete(temp0: Ptr, ghost c0: Ctx, ghost t0: Shape) returns (ghost t: Shape)
      requires Focus(View(), c0, t0) && Short(c0, t0) && Tracks(View(), c0, t0, temp0)
      modifies this`mem, this`root
      ensures Focus(View(), Top, t) && Balanced(t) && !Red(t) && Items(t) == Items(Plug(c0, t0))
      ensures Untouched(old(mem), mem, nodes)
    {
      var temp := temp0;
      ghost var c := c0;
      t := t0;
      while temp != root && !mem[temp].red
        invariant Focus(View(), c, t) && Short(c, t) && Tracks(View(), c, t, temp)
        invariant Items(Plug(c, t)) == Items(Plug(c0, t0))
        invariant Untouched(old(mem), mem, nodes)
        decreases FixMeasure(c, t)
      {
        ShortSide(View(), c, t, temp);
        if temp == mem[mem[temp].parent].left {
          temp, c, t := LeftFix(temp, c, t);
        } else {
          temp, c, t := RightFix(temp, c, t);
        }
      }
      ShortEnd(c, t);
      Blacken(temp, c, t);
      t := Blackened(t);
      Refocus(View(), c, t);
      t := Plug(c, t);
    }

    method Blacken(temp: Ptr, ghost c: Ctx, ghost t: Shape)
      requires Focus(View(), c, t) && temp == RootOf(t, sentinel)
      modifies this`mem
      ensures Focus(View(), c, Blackened(t))
      ensures Untouched(old(mem), mem, nodes)
    {
      if t.Fork? {
        Painted(View(), c, t, false);
      }
      mem := SetRed(mem, temp, false);
      assert temp == sentinel ==> mem == old(mem);
    }

    /** ngx_rbtree_min, below the focused shape `t`. */
    method Min(node0: Ptr, ghost c: Ctx, ghost t: Shape) returns (node: Ptr, ghost inner: Ctx, ghost u: Shape)
      requires Focus(View(), c, t) && t.Fork? && node0 == t.cell.node
      ensures Plug(inner, u) == t && u.Fork? && u.left.Nil? && node == u.cell.node
      ensures Before(inner) == [] && Focus(View(), Compose(c, inner), u)
      ensures inner.Top? || inner.InLeft?
    {
      node, inner, u := node0, Top, t;
      Kin(View(), c, t);
      while mem[node].left != sentinel
        invariant Plug(inner, u) == t && u.Fork? && node == u.cell.node
        invariant Before(inner) == [] && Focus(View(), Compose(c, inner), u)
        invariant inner.Top? || inner.InLeft?
        invariant node in mem && mem[node].left == RootOf(u.left, sentinel)
        invariant u.left.Fork? ==> u.left.cell.node != sentinel
        decreases u
      {
        node := mem[node].left;
        ghost var d := InLeft(inner, u.cell, u.red, u.right);
        FocusUp(View(), Compose(c, d), u.left);
        inner, u := d, u.left;
        Kin(View(), Compose(c, inner), u);
      }
    }

    /** The link to `subst` is sent to its only child `temp`, which gets a new parent. */
    method Unlink(subst: Ptr, temp: Ptr, newParent: Ptr, ghost c: Ctx, ghost t: Shape, ghost k: Shape)
      requires Focus(View(), c, t) && t.Fork? && subst == t.cell.node && !c.Top?
      requires ((t.left.Nil? && k == t.right) || (t.right.Nil? && k == t.left)) && temp == RootOf(k, sentinel)
      modifies this`mem
      ensures var p := c.cell.node;
        var m := if c.InLeft? then old(SetLeft(mem, p, temp)) else old(SetRight(mem, p, temp));
        temp in m && mem == SetParent(m, temp, newParent)
    {
      FocusSide(View(), c, t);
      Kin(View(), c, t);
      if subst == mem[mem[subst].parent].left {
        mem := SetLeft(mem, mem[subst].parent, temp);
      } else {
        mem := SetRight(mem, mem[subst].parent, temp);
      }
      mem := SetParent(mem, temp, newParent);
    }

    /** `subst` takes the place, links and color of `node`. */
    method TakePlace(node: Ptr, subst: Ptr, ghost h: Store, ghost c: Ctx, ghost t: Shape)
      requires Focus(h, c, t) && t.Fork? && node == t.cell.node && subst !in h.all && subst != sentinel
      requires root == h.root && sentinel == h.s && Unsettled(h, mem, subst, RootOf(t.right, sentinel))
      modifies this`mem, this`root
      ensures Replaced(h, View().(all := h.all - {node} + {subst}), c, node, Cell(subst, old(mem[subst].key)),
                       RootOf(t.left, sentinel), RootOf(t.right, sentinel))
      ensures mem[sentinel] == old(mem[sentinel]) && mem[node] == old(mem[node])
    {
      TakenPoints(h, mem, c, t, subst);
      TakenRest(h, mem, c, t, subst);
      mem := mem[subst := mem[node].(key := mem[subst].key)];
      if node == root {
        root := subst;
      } else if node == mem[mem[node].parent].left {
        mem := SetLeft(mem, mem[node].parent, subst);
      } else {
        mem := SetRight(mem, mem[node].parent, subst);
      }
      if mem[subst].left != sentinel {
        mem := SetParent(mem, mem[subst].left, subst);
      }
      if mem[subst].right != sentinel {
        mem := SetParent(mem, mem[subst].right, subst);
      }
    }

    /** Takes out a node with at most one child `k`, when the node is not the root. */
    method SpliceOut(node: Ptr, temp: Ptr, ghost c: Ctx, ghost t: Shape, ghost k: Shape)
      requires Focus(View(), c, t) && t.Fork? && node == t.cell.node && !c.Top?
      requires ((t.left.Nil? && k == t.right) || (t.right.Nil? && k == t.left)) && temp == RootOf(k, sentinel)
      modifies this`mem, this`nodes
      ensures nodes == old(nodes) - {node} && Focus(View(), c, k) && Tracks(View(), c, k, temp)
      ensures Untouched(old(mem), mem, nodes + {sentinel}) && mem[node] == old(mem[node])
    {
      ghost var h := View();
      FocusSide(h, c, t);
      Kin(h, c, t);
      assert k.Fork? ==> k.cell.node in Nodes(k);
      Unlink(node, temp, mem[node].parent, c, t, k);
      nodes := nodes - {node};
      SplicedFocus(h, View(), c, t, k);
      Track(View(), c, k);
      assert mem - (nodes + {sentinel}) == h.mem - (nodes + {sentinel});
    }

    /** The first half of taking out a node with two children: its successor is unlinked. */
    method UnlinkSuccessor(node: Ptr, subst: Ptr, temp: Ptr, ghost c: Ctx, ghost t: Shape, ghost inner: Ctx,
                           ghost u: Shape)
      returns (ghost h1: Store)
      requires Focus(View(), c, t) && t.Fork? && node == t.cell.node && t.right == Plug(inner, u)
      requires u.Fork? && u.left.Nil? && subst == u.cell.node && temp == RootOf(u.right, sentinel)
      modifies this`mem
      ensures h1.all == nodes - {subst} && h1.root == root && h1.s == sentinel
      ensures Focus(h1, c, t.(right := Plug(inner, u.right)))
      ensures Unsettled(h1, mem, subst, RootOf(Plug(inner, u.right), sentinel))
      ensures temp in mem && mem[temp].parent == Hole(c, t.left, u.cell, t.red, inner).cell.node
      ensures subst in old(mem) && mem[subst] == old(mem[subst]) && mem[subst].key == u.cell.key
      ensures Untouched(old(mem), h1.mem, nodes + {sentinel}) && subst in nodes && subst != node
    {
      ghost var h, d := View(), Hole(c, t.left, t.cell, t.red, inner);
      SuccessorPrep(h, c, t, inner, u);
      h1 := WithoutSuccessor(h, d, subst, temp);
      WithoutSuccessorFrame(h, d, subst, temp);
      var q := if mem[subst].parent == node then subst else mem[subst].parent;
      Unlink(subst, temp, q, d, u, u.right);
      SuccessorUnsettled(h, c, t, inner, u, mem, q);
    }

    /** Takes out a node with two children: its successor takes its place. */
    method SwapOut(node: Ptr, subst: Ptr, temp: Ptr, ghost c: Ctx, ghost t: Shape, ghost inner: Ctx, ghost u: Shape)
      requires Focus(View(), c, t) && t.Fork? && node == t.cell.node && t.right == Plug(inner, u)
      requires u.Fork? && u.left.Nil? && subst == u.cell.node && temp == RootOf(u.right, sentinel)
      modifies this`mem, this`root, this`nodes
      ensures nodes == old(nodes) - {node}
      ensures var d := Hole(c, t.left, u.cell, t.red, inner);
        Focus(View(), d, u.right) && Tracks(View(), d, u.right, temp)
      ensures Untouched(old(mem), mem, old(nodes) + {sentinel})
    {
      ghost var all := nodes + {sentinel};
      ghost var h1 := UnlinkSuccessor(node, subst, temp, c, t, inner, u);
      ghost var t1 := t.(right := Plug(inner, u.right));
      TakePlace(node, subst, h1, c, t1);
      SwapFrame(h1, View().mem, c, t1, subst, all);
      nodes := nodes - {node};
      ReplacedFocus(h1, View(), c, t1, u.cell);
      FocusHole(View(), c, t.left, u.cell, t.red, inner, u.right);
      Track(View(), Hole(c, t.left, u.cell, t.red, inner), u.right);
    }

    /** Takes `node` out of the links, whatever its children, and says how the balance is left. */
    method TakeOut(node: Ptr, ghost c: Ctx, ghost t: Shape) returns (temp: Ptr, red: bool, ghost d: Ctx, ghost u: Shape)
      requires Focus(View(), c, t) && t.Fork? && node == t.cell.node
      requires Balanced(Plug(c, t)) && !Red(Plug(c, t)) && Sorted(Items(Plug(c, t)))
      requires !c.Top? || (t.left.Fork? && t.right.Fork?)
      modifies this`mem, this`root, this`nodes
      ensures nodes == old(nodes) - {node} && Focus(View(), d, u) && Tracks(View(), d, u, temp)
      ensures red ==> Balanced(Plug(d, u)) && !Red(Plug(d, u))
      ensures !red ==> Short(d, u)
      ensures RemovedFrom(Items(Plug(c, t)), Items(Plug(d, u)), node) && Sorted(Items(Plug(d, u)))
      ensures Untouched(old(mem), mem, old(nodes) + {sentinel})
    {
      Kin(View(), c, t);
      if mem[node].left == sentinel || mem[node].right == sentinel {
        temp := if mem[node].left == sentinel then mem[node].right else mem[node].left;
        red := mem[node].red;
        d, u := c, if t.left.Nil? then t.right else t.left;
        SplicedItems(c, t, u);
        SplicedBalance(c, t, u);
        ghost var m := mem;
        SpliceOut(node, temp, c, t, u);
        SameButWiden(m, mem, nodes + {sentinel}, old(nodes) + {sentinel});
      } else {
        FocusRight(View(), c, t.left, t.cell, t.red, t.right);
        var subst;
        ghost var inner, v;
        subst, inner, v := Min(mem[node].right, InRight(c, t.left, t.cell, t.red), t.right);
        SuccessorPrep(View(), c, t, inner, v);
        HolePlug(c, t.left, t.cell, t.red, inner, v);
        SuccessorItems(c, t.left, t.cell, t.red, inner, v);
        SuccessorBalance(c, t.left, t.cell, t.red, inner, v);
        temp := mem[subst].right;
        red := mem[subst].red;
        SwapOut(node, subst, temp, c, t, inner, v);
        d, u := Hole(c, t.left, v.cell, t.red, inner), v.right;
      }
    }

    /** The root, with at most one child, is replaced by that child, painted black. */
    method RootOut(node: Ptr, temp: Ptr, ghost t: Shape, ghost k: Shape)
      requires Focus(View(), Top, t) && t.Fork? && node == t.cell.node && Balanced(t) && !t.red && Sorted(Items(t))
      requires ((t.left.Nil? && k == t.right) || (t.right.Nil? && k == t.left)) && temp == RootOf(k, sentinel)
      modifies this`mem, this`root, this`nodes
      ensures nodes == old(nodes) - {node} && Focus(View(), Top, Blackened(k)) && Balanced(Blackened(k))
      ensures RemovedFrom(Items(t), Items(Blackened(k)), node) && Sorted(Items(Blackened(k)))
      ensures Untouched(old(mem), mem, old(nodes) + {sentinel}) && node in mem && Cleared(mem[node])
    {
      ghost var h := View();
      Kin(h, Top, t);
      root := temp;
      nodes := nodes - {node};
      SplicedFocus(h, View(), Top, t, k);
      SplicedItems(Top, t, k);
      Blacken(temp, Top, k);
      SameButWiden(h.mem, mem, nodes, old(nodes) + {sentinel});
      ghost var h1 := View();
      mem := mem[node := Record(0, NULL, NULL, NULL, mem[node].red)];
      FocusFrame(h1, View(), Top, Blackened(k));
      assert mem - (old(nodes) + {sentinel}) == h1.mem - (old(nodes) + {sentinel});
      assert Items(Blackened(k)) == Items(k);
    }

    /** The fields of a node taken out are cleared. */
    method Clear(node: Ptr, ghost all: set<Ptr>, ghost d: Ctx, ghost u: Shape, ghost temp: Ptr)
      requires Focus(View(), d, u) && Tracks(View(), d, u, temp) && node in mem && node !in nodes && node != sentinel
      requires node in all
      modifies this`mem
      ensures Focus(View(), d, u) && Tracks(View(), d, u, temp) && Untouched(old(mem), mem, all)
      ensures node in mem && Cleared(mem[node])
    {
      ghost var h := View();
      mem := mem[node := Record(0, NULL, NULL, NULL, mem[node].red)];
      FocusFrame(h, View(), d, u);
      Track(View(), d, u);
      assert mem - all == h.mem - all;
    }

    /** Deletion of a node that is not a root with an empty child. */
    method DeleteInner(node: Ptr, ghost c: Ctx, ghost t: Shape) returns (ghost t': Shape)
      requires Focus(View(), c, t) && t.Fork? && node == t.cell.node
      requires Balanced(Plug(c, t)) && !Red(Plug(c, t)) && Sorted(Items(Plug(c, t)))
      requires !c.Top? || (t.left.Fork? && t.right.Fork?)
      modifies this`mem, this`root, this`nodes
      ensures nodes == old(nodes) - {node} && Focus(View(), Top, t') && Balanced(t') && !Red(t')
      ensures RemovedFrom(Items(Plug(c, t)), Items(t'), node) && Sorted(Items(t'))
      ensures Untouched(old(mem), mem, old(nodes) + {sentinel}) && node in mem && Cleared(mem[node])
    {
      ghost var all := nodes + {sentinel};
      var temp, red;
      ghost var d, u;
      temp, red, d, u := TakeOut(node, c, t);
      Clear(node, all, d, u, temp);
      if red {
        Refocus(View(), d, u);
        t' := Plug(d, u);
        return;
      }
      ghost var m := mem;
      t' := FixDelete(temp, d, u);
      UntouchedAt(m, mem, nodes, node);
      SameButWiden(m, mem, nodes, all);
    }

    /** ngx_rbtree_delete */
    method Delete(node: Ptr)
      requires Valid() && node in nodes
      modifies this
      ensures Valid() && nodes == old(nodes) - {node}
      ensures RemovedFrom(old(Items(shape)), Items(shape), node)
      ensures Untouched(old(mem), mem, old(nodes) + {sentinel}) && node in mem && Cleared(mem[node])
    {
      ghost var c, t := Locate(View(), Top, shape, node);
      FocusSide(View(), c, t);
      Kin(View(), c, t);
      if node == root && (mem[node].left == sentinel || mem[node].right == sentinel) {
        var temp := if mem[node].left == sentinel then mem[node].right else mem[node].left;
        ghost var k := if t.left.Nil? then t.right else t.left;
        RootOut(node, temp, t, k);
        shape := Blackened(k);
      } else {
        shape := DeleteInner(node, c, t);
      }
    }

    /** The climb of ngx_rbtree_next: from the end of a subtree to the first ancestor it is to the left of. */
    method Climb(node0: Ptr, ghost c0: Ctx, ghost t0: Shape) returns (r: Ptr)
      requires Focus(View(), c0, t0) && t0.Fork? && node0 == t0.cell.node
      ensures var s, i := Items(Plug(c0, t0)), |Before(c0)| + |Items(t0)|;
        i <= |s| && (r in nodes || i == |s|) && r == if i < |s| then s[i].node else NULL
    {
      var node := node0;
      ghost var c, t := c0, t0;
      PlugItems(c, t);
      while true
        invariant Focus(View(), c, t) && t.Fork? && node == t.cell.node && Plug(c, t) == Plug(c0, t0)
        invariant |Before(c0)| + |Items(t0)| == |Before(c)| + |Items(t)|
        decreases Depth(c)
      {
        FocusSide(View(), c, t);
        PlugItems(c, t);
        var parent := mem[node].parent;
        if node == root {
          return NULL;
        }
        if node == mem[parent].left {
          return parent;
        }
        FocusUp(View(), c, t);
        node := parent;
        c, t := c.up, Fill(c, t);
      }
    }

    /** ngx_rbtree_next: the node after `node` in order, or NULL after the last. */
    method Next(node: Ptr) returns (r: Ptr, ghost i: int)
      requires Valid() && node in nodes
      ensures 0 <= i < |Items(shape)| && Items(shape)[i].node == node
      ensures r == if i + 1 < |Items(shape)| then Items(shape)[i + 1].node else NULL
      ensures r == NULL <==> i + 1 == |Items(shape)|
    {
      ghost var c, t := Locate(View(), Top, shape, node);
      PlugItems(c, t);
      Kin(View(), c, t);
      i := |Before(c)| + |Items(t.left)|;
      assert Items(shape)[i] == t.cell;
      if mem[node].right != sentinel {
        FocusRight(View(), c, t.left, t.cell, t.red, t.right);
        ghost var inner, u;
        r, inner, u := Min(mem[node].right, InRight(c, t.left, t.cell, t.red), t.right);
        LeftmostItems(inner, u);
        assert Items(shape)[i + 1] == u.cell;
      } else {
        r := Climb(node, c, t);
      }
    }
  }
}
