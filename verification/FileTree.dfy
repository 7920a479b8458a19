/**
  The tree of the open-file cache: a red-black tree whose entries are ordered by the
  hash of their names and, for equal hashes, by the names.  Insertion, deletion and
  lookup are those of a map from names to entries, whatever the hash is.
 */
module FileTree {
  import opened RedBlackTree

  // ----- the order of names

  /** ngx_strcmp, up to its sign. */
  function Strcmp(a: string, b: string): int {
    if a == [] then (if b == [] then 0 else -1)
    else if b == [] then 1
    else if a[0] != b[0] then (if a[0] < b[0] then -1 else 1)
    else Strcmp(a[1..], b[1..])
  }

  lemma {:induction false} StrcmpEqual(a: string, b: string)
    ensures Strcmp(a, b) == 0 <==> a == b
  {
    if a != [] && b != [] {
      StrcmpEqual(a[1..], b[1..]);
      assert a == [a[0]] + a[1..] && b == [b[0]] + b[1..];
    }
  }

  lemma {:induction false} StrcmpFlip(a: string, b: string)
    ensures Strcmp(a, b) == -Strcmp(b, a)
  {
    if a != [] && b != [] {
      StrcmpFlip(a[1..], b[1..]);
    }
  }

  lemma {:induction false} StrcmpTrans(a: string, b: string, c: string)
    requires Strcmp(a, b) < 0 && Strcmp(b, c) < 0
    ensures Strcmp(a, c) < 0
  {
    if a != [] && a[0] == b[0] == c[0] {
      StrcmpTrans(a[1..], b[1..], c[1..]);
    }
  }

  /** What entries are ordered by: the hash of a name, and the name. */
  datatype Place = Place(hash: int, name: string)

  predicate Less(p: Place, q: Place) {
    p.hash < q.hash || (p.hash == q.hash && Strcmp(p.name, q.name) < 0)
  }

  lemma LessTrans(p: Place, q: Place, r: Place)
    requires Less(p, q) && Less(q, r)
    ensures Less(p, r)
  {
    if p.hash == q.hash == r.hash {
      StrcmpTrans(p.name, q.name, r.name);
    }
  }

  lemma LessTotal(p: Place, q: Place)
    ensures Less(p, q) || p == q || Less(q, p)
    ensures !Less(p, p)
  {
    StrcmpFlip(p.name, q.name);
    StrcmpEqual(p.name, q.name);
    StrcmpEqual(p.name, p.name);
  }

  // ----- trees of entries; `names` gives the name stored in an entry

  function PlaceOf(x: Cell, names: Ptr -> string): Place {
    Place(x.key, names(x.node))
  }

  ghost predicate Ordered(s: seq<Cell>, names: Ptr -> string) {
    forall i, j :: 0 <= i < j < |s| ==> Less(PlaceOf(s[i], names), PlaceOf(s[j], names))
  }

  /** The key of an entry is the hash of its name. */
  ghost predicate Keyed(s: seq<Cell>, names: Ptr -> string, hash: string -> int) {
    forall i :: 0 <= i < |s| ==> s[i].key == hash(names(s[i].node))
  }

  /** The entries are those of the map, each under its name. */
  ghost predicate Indexes(s: seq<Cell>, names: Ptr -> string, m: map<string, Ptr>) {
    && (forall i :: 0 <= i < |s| ==> names(s[i].node) in m && m[names(s[i].node)] == s[i].node)
    && (forall n :: n in m ==> exists i :: 0 <= i < |s| && names(s[i].node) == n)
  }

  /** The tree holds the map. */
  ghost predicate Represents(t: Tree, names: Ptr -> string, hash: string -> int, m: map<string, Ptr>)
    reads t
  {
    t.Valid() && Good(Items(t.shape), names, hash, m)
  }

  ghost predicate Good(s: seq<Cell>, names: Ptr -> string, hash: string -> int, m: map<string, Ptr>) {
    Ordered(s, names) && Keyed(s, names, hash) && Indexes(s, names, m)
  }

  /** A place belongs in the hole of `c`. */
  ghost predicate Around(c: Ctx, p: Place, names: Ptr -> string) {
    && (forall i :: 0 <= i < |Before(c)| ==> Less(PlaceOf(Before(c)[i], names), p))
    && (forall i :: 0 <= i < |After(c)| ==> Less(p, PlaceOf(After(c)[i], names)))
  }

  lemma OrderedAround(a: seq<Cell>, l: seq<Cell>, x: Cell, r: seq<Cell>, d: seq<Cell>, names: Ptr -> string)
    requires Ordered(a + (l + [x] + r) + d, names)
    ensures forall i :: 0 <= i < |l| ==> Less(PlaceOf(l[i], names), PlaceOf(x, names))
    ensures forall i :: 0 <= i < |r| ==> Less(PlaceOf(x, names), PlaceOf(r[i], names))
  {
    var s := a + (l + [x] + r) + d;
    var k := |a| + |l|;
    assert s[k] == x;
    forall i | 0 <= i < |l| ensures Less(PlaceOf(l[i], names), PlaceOf(x, names)) {
      assert s[|a| + i] == l[i];
    }
    forall i | 0 <= i < |r| ensures Less(PlaceOf(x, names), PlaceOf(r[i], names)) {
      assert s[k + 1 + i] == r[i];
    }
  }

  lemma AroundLeft(c: Ctx, t: Shape, p: Place, names: Ptr -> string)
    requires t.Fork? && Around(c, p, names) && Less(p, PlaceOf(t.cell, names))
    requires Ordered(Before(c) + Items(t) + After(c), names)
    ensures Around(InLeft(c, t.cell, t.red, t.right), p, names)
  {
    OrderedAround(Before(c), Items(t.left), t.cell, Items(t.right), After(c), names);
    forall i | 0 <= i < |Items(t.right)| ensures Less(p, PlaceOf(Items(t.right)[i], names)) {
      LessTrans(p, PlaceOf(t.cell, names), PlaceOf(Items(t.right)[i], names));
    }
  }

  lemma AroundRight(c: Ctx, t: Shape, p: Place, names: Ptr -> string)
    requires t.Fork? && Around(c, p, names) && Less(PlaceOf(t.cell, names), p)
    requires Ordered(Before(c) + Items(t) + After(c), names)
    ensures Around(InRight(c, t.left, t.cell, t.red), p, names)
  {
    OrderedAround(Before(c), Items(t.left), t.cell, Items(t.right), After(c), names);
    forall i | 0 <= i < |Items(t.left)| ensures Less(PlaceOf(Items(t.left)[i], names), p) {
      LessTrans(PlaceOf(Items(t.left)[i], names), PlaceOf(t.cell, names), p);
    }
  }

  /** One step down: the child taken is in focus, and the place belongs in it. */
  lemma Down(h: Store, c: Ctx, t: Shape, p: Place, names: Ptr -> string, whole: Shape)
    requires Focus(h, c, t) && t.Fork? && Around(c, p, names) && Plug(c, t) == whole && Ordered(Items(whole), names)
    ensures Less(p, PlaceOf(t.cell, names)) ==>
      var c' := InLeft(c, t.cell, t.red, t.right);
      Focus(h, c', t.left) && Around(c', p, names) && Plug(c', t.left) == whole
    ensures Less(PlaceOf(t.cell, names), p) ==>
      var c' := InRight(c, t.left, t.cell, t.red);
      Focus(h, c', t.right) && Around(c', p, names) && Plug(c', t.right) == whole
  {
    PlugItems(c, t);
    FocusLeft(h, c, t.left, t.cell, t.red, t.right);
    FocusRight(h, c, t.left, t.cell, t.red, t.right);
    if Less(p, PlaceOf(t.cell, names)) {
      AroundLeft(c, t, p, names);
    }
    if Less(PlaceOf(t.cell, names), p) {
      AroundRight(c, t, p, names);
    }
  }

  // ----- lookup

  /** The entry met in a lookup is the one of the map. */
  lemma Met(c: Ctx, t: Shape, names: Ptr -> string, m: map<string, Ptr>)
    requires t.Fork? && Indexes(Items(Plug(c, t)), names, m)
    ensures names(t.cell.node) in m && m[names(t.cell.node)] == t.cell.node
  {
    PlugItems(c, t);
    assert Items(Plug(c, t))[|Before(c)| + |Items(t.left)|] == t.cell;
  }

  /** Where a place belongs in an empty hole, no entry has the name. */
  lemma Missing(c: Ctx, p: Place, names: Ptr -> string, hash: string -> int, m: map<string, Ptr>)
    requires Around(c, p, names) && p.hash == hash(p.name) && Good(Items(Plug(c, Nil)), names, hash, m)
    ensures p.name !in m
  {
    PlugItems(c, Nil);
    var s := Items(Plug(c, Nil));
    assert s == Before(c) + After(c);
    forall i | 0 <= i < |s| ensures names(s[i].node) != p.name {
      LessTotal(p, p);
      assert i < |Before(c)| ==> s[i] == Before(c)[i];
      assert i >= |Before(c)| ==> s[i] == After(c)[i - |Before(c)|];
    }
  }

  /** ngx_open_file_lookup: the entry with the name, or NULL. */
  method Lookup(t: Tree, names: Ptr -> string, name: string, key: int,
                ghost hash: string -> int, ghost m: map<string, Ptr>) returns (file: Ptr)
    requires Represents(t, names, hash, m) && key == hash(name)
    ensures file == if name in m then m[name] else NULL
  {
    var node := t.root;
    ghost var c, u := Top, t.shape;
    ghost var p := Place(key, name);
    while node != t.sentinel
      invariant Focus(t.View(), c, u) && Plug(c, u) == t.shape && node == RootOf(u, t.sentinel)
      invariant Around(c, p, names)
      decreases u
    {
      Kin(t.View(), c, u);
      Down(t.View(), c, u, p, names, t.shape);
      if key < t.mem[node].key {
        node := t.mem[node].left;
        c, u := InLeft(c, u.cell, u.red, u.right), u.left;
        continue;
      }
      if key > t.mem[node].key {
        node := t.mem[node].right;
        c, u := InRight(c, u.left, u.cell, u.red), u.right;
        continue;
      }
      var rc := Strcmp(name, names(node));
      StrcmpEqual(name, names(node));
      StrcmpFlip(name, names(node));
      if rc == 0 {
        Met(c, u, names, m);
        return node;
      }
      if rc < 0 {
        node := t.mem[node].left;
        c, u := InLeft(c, u.cell, u.red, u.right), u.left;
      } else {
        node := t.mem[node].right;
        c, u := InRight(c, u.left, u.cell, u.red), u.right;
      }
    }
    Missing(c, p, names, hash, m);
    file := NULL;
  }

  // ----- insertion

  /** The comparison of ngx_open_file_cache_rbtree_insert_value. */
  predicate GoesLeft(p: Place, q: Place) {
    if p.hash < q.hash then true else if p.hash > q.hash then false else Strcmp(p.name, q.name) < 0
  }

  lemma GoesLeftIsLess(p: Place, q: Place)
    requires p != q
    ensures if GoesLeft(p, q) then Less(p, q) else Less(q, p)
  {
    LessTotal(p, q);
  }

  /** The descent: the empty child of `temp` where the entry belongs. */
  method FindSlot(t: Tree, names: Ptr -> string, p: Place, ghost hash: string -> int, ghost m: map<string, Ptr>)
      returns (temp: Ptr, goLeft: bool, ghost c: Ctx)
    requires Represents(t, names, hash, m) && t.shape.Fork? && p.name !in m
    ensures Focus(t.View(), c, Nil) && Plug(c, Nil) == t.shape && Around(c, p, names)
    ensures !c.Top? && temp == c.cell.node && goLeft == c.InLeft?
  {
    temp := t.root;
    ghost var u := t.shape;
    c := Top;
    while true
      invariant Focus(t.View(), c, u) && u.Fork? && Plug(c, u) == t.shape && temp == u.cell.node
      invariant Around(c, p, names)
      decreases u
    {
      Kin(t.View(), c, u);
      Met(c, u, names, m);
      goLeft := GoesLeft(p, Place(t.mem[temp].key, names(temp)));
      GoesLeftIsLess(p, PlaceOf(u.cell, names));
      Down(t.View(), c, u, p, names, t.shape);
      var next := if goLeft then t.mem[temp].left else t.mem[temp].right;
      if goLeft {
        c, u := InLeft(c, u.cell, u.red, u.right), u.left;
      } else {
        c, u := InRight(c, u.left, u.cell, u.red), u.right;
      }
      if next == t.sentinel {
        SentinelIsNil(t.View(), c, u);
        return;
      }
      temp := next;
    }
  }

  lemma SentinelIsNil(h: Store, c: Ctx, u: Shape)
    requires Focus(h, c, u) && RootOf(u, h.s) == h.s
    ensures u == Nil
  {
    assert u.Fork? ==> RootOf(u, h.s) in Nodes(u);
  }

  /** ngx_open_file_cache_rbtree_insert_value: the entry is hung below the last one met. */
  method InsertValue(t: Tree, names: Ptr -> string, node: Ptr, ghost hash: string -> int, ghost m: map<string, Ptr>)
      returns (ghost c: Ctx)
    requires Represents(t, names, hash, m) && t.shape.Fork? && names(node) !in m
    requires node in t.mem && node != t.sentinel && node !in t.nodes
    modifies t`mem, t`nodes
    ensures Focus(t.View(), c, Fork(Nil, Cell(node, old(t.mem[node].key)), true, Nil))
    ensures Plug(c, Nil) == t.shape && Around(c, Place(old(t.mem[node].key), names(node)), names)
    ensures t.nodes == old(t.nodes) + {node} && Untouched(old(t.mem), t.mem, t.nodes)
  {
    var temp, goLeft;
    temp, goLeft, c := FindSlot(t, names, Place(t.mem[node].key, names(node)), hash, m);
    PlugNodes(c, Nil);
    ghost var h := t.View();
    t.mem := if goLeft then SetLeft(t.mem, temp, node) else SetRight(t.mem, temp, node);
    t.mem := t.mem[node := Record(t.mem[node].key, t.sentinel, t.sentinel, temp, true)];
    assert t.mem.Keys == h.mem.Keys;
    t.nodes := t.nodes + {node};
    Attached(h, t.View(), c, node);
    assert t.mem - t.nodes == h.mem - t.nodes;
  }

  /** An entry that is put where its place belongs. */
  lemma Inserted(a: seq<Cell>, x: Cell, b: seq<Cell>, names: Ptr -> string, hash: string -> int, m: map<string, Ptr>)
    requires Good(a + b, names, hash, m) && x.key == hash(names(x.node)) && names(x.node) !in m
    requires forall i :: 0 <= i < |a| ==> Less(PlaceOf(a[i], names), PlaceOf(x, names))
    requires forall i :: 0 <= i < |b| ==> Less(PlaceOf(x, names), PlaceOf(b[i], names))
    ensures Good(a + [x] + b, names, hash, m[names(x.node) := x.node])
  {
    var s, t := a + [x] + b, a + b;
    forall i, j | 0 <= i < j < |s| ensures Less(PlaceOf(s[i], names), PlaceOf(s[j], names)) {
      assert i < |a| ==> s[i] == t[i];
      assert i > |a| ==> s[i] == t[i - 1];
      assert j < |a| ==> s[j] == t[j];
      assert j > |a| ==> s[j] == t[j - 1];
    }
    forall i | 0 <= i < |s| ensures s[i].key == hash(names(s[i].node)) {
      assert i < |a| ==> s[i] == t[i];
      assert i > |a| ==> s[i] == t[i - 1];
    }
    IndexInserted(a, x, b, names, m);
  }

  lemma IndexInserted(a: seq<Cell>, x: Cell, b: seq<Cell>, names: Ptr -> string, m: map<string, Ptr>)
    requires Indexes(a + b, names, m) && names(x.node) !in m
    ensures Indexes(a + [x] + b, names, m[names(x.node) := x.node])
  {
    var s, t, m' := a + [x] + b, a + b, m[names(x.node) := x.node];
    forall i | 0 <= i < |s| ensures names(s[i].node) in m' && m'[names(s[i].node)] == s[i].node {
      assert i < |a| ==> s[i] == t[i];
      assert i > |a| ==> s[i] == t[i - 1];
    }
    forall n | n in m' ensures exists i :: 0 <= i < |s| && names(s[i].node) == n {
      if n in m {
        var i :| 0 <= i < |t| && names(t[i].node) == n;
        assert s[if i < |a| then i else i + 1] == t[i];
      } else {
        assert s[|a|] == x;
      }
    }
  }

  lemma OrderedIsSorted(s: seq<Cell>, names: Ptr -> string)
    requires Ordered(s, names)
    ensures Sorted(s)
  {
    forall i, j | 0 <= i < j < |s| ensures s[i].key <= s[j].key {
      assert Less(PlaceOf(s[i], names), PlaceOf(s[j], names));
    }
  }

  lemma InsertedInto(c: Ctx, x: Cell, names: Ptr -> string, hash: string -> int, m: map<string, Ptr>)
    requires Around(c, PlaceOf(x, names), names) && Good(Items(Plug(c, Nil)), names, hash, m)
    requires x.key == hash(names(x.node)) && names(x.node) !in m
    ensures Good(Items(Plug(c, Fork(Nil, x, true, Nil))), names, hash, m[names(x.node) := x.node])
  {
    PlugItems(c, Nil);
    PlugItems(c, Fork(Nil, x, true, Nil));
    assert Items(Fork(Nil, x, true, Nil)) == [x];
    assert Before(c) + [] + After(c) == Before(c) + After(c);
    Inserted(Before(c), x, After(c), names, hash, m);
  }

  lemma FirstEntry(x: Cell, names: Ptr -> string, hash: string -> int, m: map<string, Ptr>)
    requires Good([], names, hash, m) && x.key == hash(names(x.node))
    ensures Good([x], names, hash, m[names(x.node) := x.node])
  {
    forall n | n in m ensures false {
    }
    assert [x][0] == x;
  }

  /** ngx_rbtree_insert with this comparison: the map gets the entry under its name. */
  method Insert(t: Tree, names: Ptr -> string, node: Ptr, ghost hash: string -> int, ghost m: map<string, Ptr>)
    requires Represents(t, names, hash, m) && names(node) !in m
    requires node in t.mem && node != t.sentinel && node != NULL && node !in t.nodes
    requires t.mem[node].key == hash(names(node))
    modifies t
    ensures Represents(t, names, hash, m[names(node) := node]) && t.nodes == old(t.nodes) + {node}
    ensures Untouched(old(t.mem), t.mem, t.nodes)
  {
    ghost var x := Cell(node, t.mem[node].key);
    if t.root == t.sentinel {
      SentinelIsNil(t.View(), Top, t.shape);
      FirstEntry(x, names, hash, m);
      t.Insert(node);
      assert Items(t.shape) == [x];
      return;
    }
    RootIsFork(t.View(), t.shape);
    ghost var c := InsertValue(t, names, node, hash, m);
    PlugBlack(c, x);
    InsertedInto(c, x, names, hash, m);
    t.shape := t.RebalanceInsert(node, c, Fork(Nil, x, true, Nil));
    OrderedIsSorted(Items(t.shape), names);
  }

  lemma RootIsFork(h: Store, u: Shape)
    requires Focus(h, Top, u) && h.root != h.s
    ensures u.Fork?
  {
  }

  // ----- deletion

  lemma Removed(a: seq<Cell>, x: Cell, b: seq<Cell>, names: Ptr -> string, hash: string -> int, m: map<string, Ptr>)
    requires Good(a + [x] + b, names, hash, m)
    ensures Good(a + b, names, hash, m - {names(x.node)})
  {
    var s, t, m' := a + b, a + [x] + b, m - {names(x.node)};
    forall i | 0 <= i < |s| ensures s[i] == t[if i < |a| then i else i + 1] {
    }
    forall i | 0 <= i < |s| ensures names(s[i].node) != names(x.node) {
      assert t[|a|] == x;
      LessTotal(PlaceOf(x, names), PlaceOf(x, names));
      if i < |a| {
        assert Less(PlaceOf(t[i], names), PlaceOf(t[|a|], names));
      } else {
        assert Less(PlaceOf(t[|a|], names), PlaceOf(t[i + 1], names));
      }
    }
    forall n | n in m' ensures exists i :: 0 <= i < |s| && names(s[i].node) == n {
      var i :| 0 <= i < |t| && names(t[i].node) == n;
      assert i != |a|;
      assert s[if i < |a| then i else i - 1] == t[i];
    }
  }

  /** ngx_rbtree_delete: the map loses the name of the entry. */
  method Delete(t: Tree, names: Ptr -> string, node: Ptr, ghost hash: string -> int, ghost m: map<string, Ptr>)
    requires Represents(t, names, hash, m) && node in t.nodes
    modifies t
    ensures Represents(t, names, hash, m - {names(node)}) && t.nodes == old(t.nodes) - {node}
    ensures Untouched(old(t.mem), t.mem, old(t.nodes) + {t.sentinel})
  {
    ghost var s := Items(t.shape);
    t.Delete(node);
    RemovedNode(s, Items(t.shape), node, names, hash, m);
  }

  lemma RemovedNode(s: seq<Cell>, s': seq<Cell>, node: Ptr, names: Ptr -> string, hash: string -> int,
                    m: map<string, Ptr>)
    requires RemovedFrom(s, s', node) && Good(s, names, hash, m)
    ensures Good(s', names, hash, m - {names(node)})
  {
    var k :| 0 <= k < |s| && s[k].node == node && s' == s[..k] + s[k + 1..];
    assert s == s[..k] + [s[k]] + s[k + 1..];
    Removed(s[..k], s[k], s[k + 1..], names, hash, m);
  }
}
