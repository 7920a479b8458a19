/**
  The exact hash: elements of different lengths are packed into buckets, every
  bucket ends with a null value and starts on a cache line.  Addresses are numbers;
  an element is the record stored at its address, and the lemmas about the layout
  say that these records do not overlap.
 */
module HashLayout {

  type Value = int

  const NULL: Value := 0

  datatype Name = Name(key: string, hash: nat, value: Value)

  datatype Elt = Elt(value: Value, len: int, name: string)

  /** The pointer size. */
  const PTR: int := 8

  lemma {:induction false} Multiple(k: nat, a: int)
    requires 0 < a
    ensures (k * a) % a == 0
  {
    if k > 0 {
      Multiple(k - 1, a);
      assert k * a == (k - 1) * a + a;
      NextMultiple((k - 1) * a, a);
    }
  }

  lemma NextMultiple(x: int, a: int)
    requires 0 < a && x % a == 0
    ensures (x + a) % a == 0
  {
    var p, q, r := x / a, (x + a) / a, (x + a) % a;
    assert x == p * a && x + a == q * a + r;
    var k := p + 1 - q;
    assert r == k * a;
    assert k >= 1 ==> k * a >= a;
    assert k <= -1 ==> k * a <= -a;
  }

  lemma SumMultiple(x: int, y: int, a: int)
    requires 0 < a && 0 <= x && 0 <= y && x % a == 0 && y % a == 0
    ensures (x + y) % a == 0
  {
    assert x == x / a * a && y == y / a * a;
    assert x + y == (x / a + y / a) * a;
    Multiple(x / a + y / a, a);
  }

  /** ngx_align: the next multiple of a. */
  function Align(d: nat, a: int): (r: int)
    requires 0 < a
    ensures d <= r < d + a && r % a == 0
  {
    var q := (d + a - 1) / a;
    Multiple(q, a);
    q * a
  }

  /** A multiple of the pointer size. */
  predicate Words(x: int) {
    x % 8 == 0
  }

  lemma SumWords(x: int, y: int)
    requires Words(x) && Words(y)
    ensures Words(x + y)
  {
  }

  /** NGX_HASH_ELT_SIZE */
  function EltSize(key: string): (r: int)
    ensures r >= PTR + |key| + 2 && Words(r)
  {
    8 + Align(|key| + 2, 8)
  }

  /** The conversion to u_short. */
  function Short(n: int): int {
    if 0 <= n < 65536 then n else n % 65536
  }

  /** The remainder, written so that it is unfolded only where its value matters. */
  function Rem(a: nat, n: int): (r: int)
    requires 0 < n
    ensures 0 <= r < n
  {
    if a < n then a else Rem(a - n, n)
  }

  lemma {:induction false} RemIsModulo(a: nat, n: int)
    requires 0 < n
    ensures Rem(a, n) == a % n
  {
    if a >= n {
      RemIsModulo(a - n, n);
      var q, r := (a - n) / n, (a - n) % n;
      assert a == (q + 1) * n + r;
      assert a == a / n * n + a % n;
      var k := a / n - (q + 1);
      assert k * n == r - a % n;
      assert k >= 1 ==> k * n >= n;
      assert k <= -1 ==> k * n <= -n;
    }
  }

  function Bucket(name: Name, size: int): (b: int)
    requires 0 < size
    ensures 0 <= b < size
  {
    Rem(name.hash, size)
  }

  /** The total size of those of the first `n` names that belong to bucket `b`. */
  function Off(names: seq<Name>, n: nat, size: int, b: int): (r: int)
    requires n <= |names| && 0 < size
    ensures r >= 0
  {
    if n == 0 then 0
    else Off(names, n - 1, size, b) + if Bucket(names[n - 1], size) == b then EltSize(names[n - 1].key) else 0
  }

  /** The bytes of bucket `b`, with its final null value and filled up to a cache line. */
  function Room(names: seq<Name>, size: int, line: int, b: int): (r: int)
    requires 0 < size && 0 < line
    ensures r >= 0 && r % line == 0
  {
    if Off(names, |names|, size, b) == 0 then 0 else Align(PTR + Off(names, |names|, size, b), line)
  }

  /** The bytes of the first `b` buckets. */
  function Before(names: seq<Name>, size: int, line: int, b: nat): (r: int)
    requires 0 < size && 0 < line
    ensures r >= 0 && r % line == 0
  {
    if b == 0 then 0 else
      SumMultiple(Before(names, size, line, b - 1), Room(names, size, line, b - 1), line);
      Before(names, size, line, b - 1) + Room(names, size, line, b - 1)
  }

  datatype Hash = Hash(buckets: seq<int>, size: int)

  /** Where the buckets are. */
  ghost predicate Placed(names: seq<Name>, h: Hash, base: int, line: int) {
    && 0 < h.size == |h.buckets| && 0 < line && 0 < base
    && (forall b :: 0 <= b < h.size ==> h.buckets[b] == StartOf(names, h.size, line, base, b))
  }

  /** Where a bucket starts; an empty one has no memory. */
  function StartOf(names: seq<Name>, size: int, line: int, base: int, b: nat): int
    requires 0 < size && 0 < line
  {
    if Off(names, |names|, size, b) == 0 then 0 else base + Before(names, size, line, b)
  }

  /** What ngx_hash_init leaves in memory. */
  ghost predicate Laid(names: seq<Name>, h: Hash, mem: map<int, Elt>, base: int, line: int) {
    0 < h.size == |h.buckets| && Complete(names, h, mem, base, line) == true
  }

  ghost predicate Complete(names: seq<Name>, h: Hash, mem: map<int, Elt>, base: int, line: int)
    requires 0 < h.size == |h.buckets|
  {
    Placed(names, h, base, line) && AllStored(names, h, mem, |names|) && AllEnded(names, h, mem, h.size)
  }

  ghost predicate AllStored(names: seq<Name>, h: Hash, mem: map<int, Elt>, n: nat)
    requires n <= |names| && 0 < h.size == |h.buckets|
  {
    StoredBelow(names, h, mem, n) == true
  }

  ghost predicate StoredBelow(names: seq<Name>, h: Hash, mem: map<int, Elt>, n: nat)
    requires n <= |names| && 0 < h.size == |h.buckets|
  {
    forall m :: 0 <= m < n ==> Stored(names, h, mem, m)
  }

  ghost predicate AllEnded(names: seq<Name>, h: Hash, mem: map<int, Elt>, b: nat)
    requires b <= h.size == |h.buckets|
  {
    EndedBelow(names, h, mem, b) == true
  }

  ghost predicate EndedBelow(names: seq<Name>, h: Hash, mem: map<int, Elt>, b: nat)
    requires b <= h.size == |h.buckets|
  {
    forall c :: 0 <= c < b && h.buckets[c] != 0 ==> Ended(names, h, mem, c)
  }

  function Address(names: seq<Name>, h: Hash, n: nat): int
    requires n < |names| && 0 < h.size == |h.buckets|
  {
    h.buckets[Bucket(names[n], h.size)] + Off(names, n, h.size, Bucket(names[n], h.size))
  }

  ghost predicate Stored(names: seq<Name>, h: Hash, mem: map<int, Elt>, n: nat)
    requires n < |names| && 0 < h.size == |h.buckets|
  {
    var a := Address(names, h, n);
    a in mem && mem[a] == Elt(names[n].value, |names[n].key|, names[n].key)
  }

  function End(names: seq<Name>, h: Hash, b: nat): int
    requires b < h.size == |h.buckets|
  {
    h.buckets[b] + Off(names, |names|, h.size, b)
  }

  ghost predicate Ended(names: seq<Name>, h: Hash, mem: map<int, Elt>, b: nat)
    requires b < h.size == |h.buckets|
  {
    End(names, h, b) in mem && mem[End(names, h, b)].value == NULL
  }

  lemma {:induction false} OffWords(names: seq<Name>, n: nat, size: int, b: int)
    requires n <= |names| && 0 < size
    ensures Words(Off(names, n, size, b))
  {
    if n > 0 {
      OffWords(names, n - 1, size, b);
      SumWords(Off(names, n - 1, size, b), EltSize(names[n - 1].key));
    }
  }

  // ----- the layout

  lemma {:induction false} OffMonotone(names: seq<Name>, m: nat, n: nat, size: int, b: int)
    requires m <= n <= |names| && 0 < size
    ensures Off(names, m, size, b) <= Off(names, n, size, b)
    decreases n - m
  {
    if m < n {
      OffMonotone(names, m, n - 1, size, b);
    }
  }

  lemma {:induction false} BeforeMonotone(names: seq<Name>, size: int, line: int, b: nat, c: nat)
    requires b < c && 0 < size && 0 < line
    ensures Before(names, size, line, b) + Room(names, size, line, b) <= Before(names, size, line, c)
    decreases c
  {
    if b < c - 1 {
      BeforeMonotone(names, size, line, b, c - 1);
    }
  }

  predicate Disjoint(a: int, n: int, b: int, m: int) {
    a + n <= b || b + m <= a
  }

  ghost predicate Inside(a: int, n: int, base: int, total: int) {
    base <= a && a + n <= base + total
  }

  /** An element lies in its bucket, before the final null value. */
  lemma InBucket(names: seq<Name>, h: Hash, base: int, line: int, n: nat)
    requires Placed(names, h, base, line) && n < |names|
    ensures var b := Bucket(names[n], h.size);
      var start := base + Before(names, h.size, line, b);
      && h.buckets[b] == start
      && start <= Address(names, h, n) && Address(names, h, n) + EltSize(names[n].key) <= End(names, h, b)
      && End(names, h, b) + PTR <= start + Room(names, h.size, line, b)
  {
    var b := Bucket(names[n], h.size);
    OffMonotone(names, n + 1, |names|, h.size, b);
  }

  lemma RoomApart(names: seq<Name>, size: int, line: int, b: nat, c: nat)
    requires b != c && b < size && c < size && 0 < line
    ensures Disjoint(Before(names, size, line, b), Room(names, size, line, b),
                     Before(names, size, line, c), Room(names, size, line, c))
  {
    if b < c {
      BeforeMonotone(names, size, line, b, c);
    } else {
      BeforeMonotone(names, size, line, c, b);
    }
  }

  /** Two elements never overlap. */
  lemma ElementsApart(names: seq<Name>, h: Hash, base: int, line: int, m: nat, n: nat)
    requires Placed(names, h, base, line) && m < n < |names|
    ensures Disjoint(Address(names, h, m), EltSize(names[m].key), Address(names, h, n), EltSize(names[n].key))
  {
    var b, c := Bucket(names[m], h.size), Bucket(names[n], h.size);
    InBucket(names, h, base, line, m);
    InBucket(names, h, base, line, n);
    if b == c {
      OffMonotone(names, m + 1, n, h.size, b);
    } else {
      RoomApart(names, h.size, line, b, c);
    }
  }

  /** No element overlaps a final null value. */
  lemma EndsApart(names: seq<Name>, h: Hash, base: int, line: int, n: nat, c: nat)
    requires Placed(names, h, base, line) && n < |names| && c < h.size && h.buckets[c] != 0
    ensures Disjoint(Address(names, h, n), EltSize(names[n].key), End(names, h, c), PTR)
  {
    var b := Bucket(names[n], h.size);
    InBucket(names, h, base, line, n);
    if b != c {
      RoomApart(names, h.size, line, b, c);
    }
  }

  /** Elements and null values lie in the memory that was allocated for all buckets together. */
  lemma AllInside(names: seq<Name>, h: Hash, base: int, line: int, n: nat)
    requires Placed(names, h, base, line) && n < |names|
    ensures var total := Before(names, h.size, line, h.size);
      && Inside(Address(names, h, n), EltSize(names[n].key), base, total)
      && Inside(End(names, h, Bucket(names[n], h.size)), PTR, base, total)
  {
    InBucket(names, h, base, line, n);
    BeforeMonotone(names, h.size, line, Bucket(names[n], h.size), h.size);
  }

  /** The step from an element to the next is the size the element was given. */
  lemma Stride(a: nat, key: string)
    requires Words(a)
    ensures Align(a + PTR + 2 + |key|, 8) == a + EltSize(key)
  {
    SumWords(a, EltSize(key));
    SameWords(Align(a + PTR + 2 + |key|, 8), a + EltSize(key));
  }

  lemma SameWords(r: int, s: int)
    requires Words(r) && Words(s) && r - 8 < s < r + 8
    ensures r == s
  {
  }

  lemma AlignBound(x: nat, m: nat, a: int)
    requires 0 < a && x <= m && m % a == 0
    ensures Align(x, a) <= m
  {
    var p, q := m / a, Align(x, a) / a;
    assert m == p * a && Align(x, a) == q * a;
    OneMore(p, a);
    NoMultipleBetween(q, p, a);
  }

  lemma OneMore(p: int, a: int)
    ensures (p + 1) * a == p * a + a
  {
  }

  lemma NoMultipleBetween(q: int, p: int, a: int)
    requires 0 < a && q * a < p * a + a
    ensures q * a <= p * a
  {
    var k := q - p;
    assert q * a == p * a + k * a;
    assert k >= 1 ==> k * a >= a;
    assert k <= 0 ==> k * a <= 0;
  }

  // ----- building

  ghost predicate Fits(names: seq<Name>, size: int, limit: int)
    requires 0 < size
  {
    forall b :: 0 <= b < size ==> Off(names, |names|, size, b) <= limit
  }

  method Reset(test: array<int>, size: int, v: int)
    requires 0 <= size <= test.Length
    modifies test
    ensures forall b :: 0 <= b < size ==> test[b] == v
  {
    for i := 0 to size
      invariant forall b :: 0 <= b < i ==> test[b] == v
    {
      test[i] := v;
    }
  }

  /** Whether every bucket keeps within the limit; `test` is scratch space. */
  method TryFit(names: seq<Name>, size: int, limit: int, test: array<int>) returns (ok: bool)
    requires 0 < size <= test.Length && 0 <= limit && (limit < 65536 || names == [])
    modifies test
    ensures ok <==> Fits(names, size, limit)
  {
    Reset(test, size, 0);
    for n := 0 to |names|
      invariant forall b :: 0 <= b < size ==> test[b] == Off(names, n, size, b) <= limit
    {
      var key := Bucket(names[n], size);
      var len := test[key] + EltSize(names[n].key);
      if len > limit {
        OffMonotone(names, n + 1, |names|, size, key);
        return false;
      }
      test[key] := Short(len);
    }
    ok := true;
  }

  function Start(count: int, maxSize: int, limit: int): int
    requires 16 <= limit && 0 <= count
  {
    var start := if count / (limit / 16) == 0 then 1 else count / (limit / 16);
    if maxSize > 10000 && count > 0 && maxSize / count < 100 then maxSize - 1000 else start
  }

  /** Some number of buckets that ngx_hash_init tries keeps all buckets within the limit. */
  ghost predicate Sized(names: seq<Name>, maxSize: int, limit: int)
    requires 16 <= limit
  {
    exists s :: 0 < Start(|names|, maxSize, limit) <= s <= maxSize && Fits(names, s, limit)
  }

  /** The number of buckets is the least one tried that fits, or the largest one if none does. */
  ghost predicate Chosen(names: seq<Name>, maxSize: int, limit: int, size: int)
    requires 16 <= limit
  {
    && 0 < size <= maxSize
    && (forall s :: 0 < Start(|names|, maxSize, limit) <= s < size ==> !Fits(names, s, limit))
    && (if Sized(names, maxSize, limit) then Start(|names|, maxSize, limit) <= size && Fits(names, size, limit)
       else size == maxSize)
  }

  /** Without names, everything fits. */
  lemma NoNames(names: seq<Name>, size: int)
    requires names == [] && 0 < size
    ensures forall limit :: limit >= 0 ==> Fits(names, size, limit)
  {
  }

  /** The search for the number of buckets: the least one that fits, or the largest one. */
  method ChooseSize(names: seq<Name>, maxSize: int, limit: int, test: array<int>) returns (size: int)
    requires 0 < maxSize <= test.Length && 16 <= limit && (limit < 65536 || names == [])
    modifies test
    ensures Chosen(names, maxSize, limit, size)
  {
    size := Start(|names|, maxSize, limit);
    while size <= maxSize
      invariant 0 < Start(|names|, maxSize, limit) <= size
      invariant forall s :: 0 < Start(|names|, maxSize, limit) <= s < size ==> !Fits(names, s, limit)
    {
      var ok := TryFit(names, size, limit, test);
      if ok {
        return;
      }
      size := size + 1;
    }
    size := maxSize;
  }

  /** The size of every bucket with its final null value; false if one is too large. */
  method Sizes(names: seq<Name>, size: int, line: int, test: array<int>) returns (ok: bool)
    requires 0 < size <= test.Length && 0 < line < 65536 - PTR
    modifies test
    ensures ok <==> Fits(names, size, 65536 - line - PTR)
    ensures ok ==> forall b :: 0 <= b < size ==> test[b] == PTR + Off(names, |names|, size, b)
  {
    Reset(test, size, PTR);
    for n := 0 to |names|
      invariant forall b :: 0 <= b < size ==> test[b] == PTR + Off(names, n, size, b) <= 65536 - line
    {
      var key := Bucket(names[n], size);
      var len := test[key] + EltSize(names[n].key);
      if len > 65536 - line {
        OffMonotone(names, n + 1, |names|, size, key);
        return false;
      }
      test[key] := Short(len);
    }
    ok := true;
  }

  /** Sizes are rounded up to cache lines, which does not leave the range of u_short. */
  method RoundUp(names: seq<Name>, size: int, line: int, test: array<int>) returns (len: int)
    requires 0 < size <= test.Length && 0 < line < 65536 - PTR && (65536 - line) % line == 0
    requires Fits(names, size, 65536 - line - PTR)
    requires forall b :: 0 <= b < size ==> test[b] == PTR + Off(names, |names|, size, b)
    modifies test
    ensures len == Before(names, size, line, size)
    ensures forall b :: 0 <= b < size ==> test[b] == Rounded(names, size, line, b)
  {
    len := 0;
    for i := 0 to size
      invariant len == Before(names, size, line, i)
      invariant forall b :: 0 <= b < i ==> test[b] == Rounded(names, size, line, b)
      invariant forall b :: i <= b < size ==> test[b] == PTR + Off(names, |names|, size, b)
    {
      if test[i] == PTR {
        continue;
      }
      AlignBound(test[i], 65536 - line, line);
      test[i] := Short(Align(test[i], line));
      len := len + test[i];
    }
  }

  function Rounded(names: seq<Name>, size: int, line: int, b: int): int
    requires 0 < size && 0 < line
  {
    if Off(names, |names|, size, b) == 0 then PTR else Room(names, size, line, b)
  }

  method PlaceBuckets(names: seq<Name>, size: int, line: int, test: array<int>, base: int) returns (buckets: seq<int>)
    requires 0 < size <= test.Length && 0 < line
    requires forall b :: 0 <= b < size ==> test[b] == Rounded(names, size, line, b)
    ensures |buckets| == size
    ensures forall b :: 0 <= b < size ==> buckets[b] == StartOf(names, size, line, base, b)
  {
    buckets := [];
    var elts := base;
    for i := 0 to size
      invariant |buckets| == i && elts == base + Before(names, size, line, i)
      invariant forall b :: 0 <= b < i ==> buckets[b] == StartOf(names, size, line, base, b)
    {
      if test[i] == PTR {
        buckets := buckets + [0];
        continue;
      }
      buckets := buckets + [elts];
      elts := elts + test[i];
    }
  }

  lemma StoreStep(names: seq<Name>, h: Hash, base: int, line: int, n: nat, mem: map<int, Elt>, e: Elt)
    requires Placed(names, h, base, line) && n < |names| && AllStored(names, h, mem, n)
    requires e == Elt(names[n].value, |names[n].key|, names[n].key)
    ensures AllStored(names, h, mem[Address(names, h, n) := e], n + 1)
  {
    var mem' := mem[Address(names, h, n) := e];
    forall m | 0 <= m < n + 1 ensures Stored(names, h, mem', m) {
      if m < n {
        ElementsApart(names, h, base, line, m, n);
        assert Stored(names, h, mem, m);
      }
    }
    assert StoredBelow(names, h, mem', n + 1);
  }

  lemma EndKeepsStored(names: seq<Name>, h: Hash, base: int, line: int, b: nat, mem: map<int, Elt>)
    requires Placed(names, h, base, line) && b < h.size && h.buckets[b] != 0 && AllStored(names, h, mem, |names|)
    ensures AllStored(names, h, mem[End(names, h, b) := Elt(NULL, 0, "")], |names|)
  {
    var mem' := mem[End(names, h, b) := Elt(NULL, 0, "")];
    forall m | 0 <= m < |names| ensures Stored(names, h, mem', m) {
      EndsApart(names, h, base, line, m, b);
      assert Stored(names, h, mem, m);
    }
    assert StoredBelow(names, h, mem', |names|);
  }

  lemma EndStep(names: seq<Name>, h: Hash, b: nat, mem: map<int, Elt>)
    requires b < h.size == |h.buckets| && h.buckets[b] != 0 && AllEnded(names, h, mem, b)
    ensures AllEnded(names, h, mem[End(names, h, b) := Elt(NULL, 0, "")], b + 1)
  {
    var mem' := mem[End(names, h, b) := Elt(NULL, 0, "")];
    forall c | 0 <= c < b + 1 && h.buckets[c] != 0 ensures Ended(names, h, mem', c) {
      if c < b {
        assert Ended(names, h, mem, c);
      }
    }
    assert EndedBelow(names, h, mem', b + 1);
  }

  /** Elements are written one after the other into their buckets. */
  method Fill(names: seq<Name>, h: Hash, ghost base: int, ghost line: int, test: array<int>)
      returns (mem: map<int, Elt>)
    requires h.size <= test.Length && Placed(names, h, base, line) && Fits(names, h.size, 65535)
    requires forall n :: 0 <= n < |names| ==> |names[n].key| < 65536
    modifies test
    ensures AllStored(names, h, mem, |names|)
    ensures forall b :: 0 <= b < h.size ==> test[b] == Off(names, |names|, h.size, b)
  {
    Reset(test, h.size, 0);
    mem := map[];
    for n := 0 to |names|
      invariant forall b :: 0 <= b < h.size ==> test[b] == Off(names, n, h.size, b)
      invariant AllStored(names, h, mem, n)
    {
      var key := Bucket(names[n], h.size);
      OffMonotone(names, n + 1, |names|, h.size, key);
      var elt := h.buckets[key] + test[key];
      var e := Elt(names[n].value, Short(|names[n].key|), names[n].key);
      assert elt == Address(names, h, n);
      StoreStep(names, h, base, line, n, mem, e);
      mem := mem[elt := e];
      test[key] := Short(test[key] + EltSize(names[n].key));
    }
  }

  /** Every bucket gets its final null value. */
  method Terminate(names: seq<Name>, h: Hash, ghost base: int, ghost line: int, test: array<int>, mem0: map<int, Elt>)
      returns (mem: map<int, Elt>)
    requires h.size <= test.Length && Placed(names, h, base, line)
    requires AllStored(names, h, mem0, |names|)
    requires forall b :: 0 <= b < h.size ==> test[b] == Off(names, |names|, h.size, b)
    ensures Laid(names, h, mem, base, line)
  {
    mem := mem0;
    for i := 0 to h.size
      invariant AllStored(names, h, mem, |names|) && AllEnded(names, h, mem, i)
    {
      if h.buckets[i] == 0 {
        continue;
      }
      var elt := h.buckets[i] + test[i];
      EndKeepsStored(names, h, base, line, i, mem);
      EndStep(names, h, i, mem);
      assert elt == End(names, h, i);
      mem := mem[elt := Elt(NULL, 0, "")];
    }
    assert Complete(names, h, mem, base, line);
  }

  /** The names, the limits and the bucket size that ngx_hash_init refuses. */
  ghost predicate Refused(names: seq<Name>, maxSize: int, bucketSize: int, line: int) {
    || maxSize == 0 || bucketSize > 65536 - line
    || exists n :: 0 <= n < |names| && bucketSize < EltSize(names[n].key) + PTR
  }

  /** The bucket size without the final null value, as an unsigned 64-bit number. */
  function Limit(bucketSize: nat): int {
    if bucketSize < PTR then bucketSize - PTR + 0x1_0000_0000_0000_0000 else bucketSize - PTR
  }

  /** Without names, a small bucket size makes ngx_hash_init divide by zero. */
  predicate DividesByZero(names: seq<Name>, maxSize: nat, bucketSize: nat) {
    names == [] && maxSize > 0 && 8 <= bucketSize < 24
  }

  /** No number of buckets is good for the limit, and the largest one makes a bucket too large for 16 bits. */
  ghost predicate TooMany(names: seq<Name>, maxSize: nat, bucketSize: nat, line: int) {
    && maxSize > 0 && 24 <= bucketSize
    && !Sized(names, maxSize, bucketSize - 8) && !Fits(names, maxSize, 65536 - line - PTR)
  }

  datatype Outcome = OK | ERROR | FAULT

  /**
    ngx_hash_init.  `got` is the address of the memory allocated for the elements,
    `line` the size of a cache line.
   */
  method HashInit(names: seq<Name>, maxSize: nat, bucketSize: nat, line: int, got: nat)
      returns (r: Outcome, h: Hash, mem: map<int, Elt>, base: int)
    requires 0 < got && 0 < line < 65536 - PTR && (65536 - line) % line == 0
    ensures r == OK ==> Laid(names, h, mem, base, line) && h.size <= maxSize
    ensures r == OK && bucketSize >= 8 ==> bucketSize >= 24 && Chosen(names, maxSize, bucketSize - 8, h.size)
    ensures r == OK && bucketSize < 8 ==> names == [] && h.size == 1
    ensures r == OK ==> base % line == 0 && (line % 8 == 0 ==> Words(base))
    ensures r == OK ==> var total := Before(names, h.size, line, h.size); Inside(base, total, got, total + line)
    ensures r == ERROR <==> Refused(names, maxSize, bucketSize, line) || TooMany(names, maxSize, bucketSize, line)
    ensures r == FAULT <==> DividesByZero(names, maxSize, bucketSize)
  {
    r, h, mem, base := Build(names, maxSize, bucketSize, line, got);
    LimitMeans(names, maxSize, bucketSize, line, h.size);
  }

  /** The sizes that are tried, and what is refused, in terms of the limit. */
  ghost predicate TooManyFor(names: seq<Name>, maxSize: nat, limit: int, line: int) {
    maxSize > 0 && 16 <= limit && !Sized(names, maxSize, limit) && !Fits(names, maxSize, 65536 - line - PTR)
  }

  ghost predicate ZeroFor(names: seq<Name>, maxSize: nat, limit: int) {
    names == [] && maxSize > 0 && limit < 16
  }

  /** What the limit means for the bucket size. */
  lemma LimitMeans(names: seq<Name>, maxSize: nat, bucketSize: nat, line: int, size: int)
    ensures ZeroFor(names, maxSize, Limit(bucketSize)) <==> DividesByZero(names, maxSize, bucketSize)
    ensures !Refused(names, maxSize, bucketSize, line) ==>
      (TooManyFor(names, maxSize, Limit(bucketSize), line) <==> TooMany(names, maxSize, bucketSize, line))
    ensures bucketSize >= 8 ==> Limit(bucketSize) == bucketSize - 8
    ensures bucketSize < 8 && !Refused(names, maxSize, bucketSize, line) ==>
      16 <= Limit(bucketSize) && (Chosen(names, maxSize, Limit(bucketSize), size) ==> names == [] && size == 1)
  {
    if bucketSize < 8 && !Refused(names, maxSize, bucketSize, line) {
      assert names != [] ==> EltSize(names[0].key) + PTR > 8;
      NoNames(names, 1);
      assert Start(|names|, maxSize, Limit(bucketSize)) == 1;
      assert Fits(names, 1, Limit(bucketSize));
    }
  }

  /** The numbers of buckets are tried from this one on. */
  lemma StartExactly(count: nat, maxSize: nat, limit: int)
    requires 16 <= limit
    ensures if maxSize > 10000 && 0 < count && maxSize < 100 * count
      then Start(count, maxSize, limit) == maxSize - 1000
      else Enough(count, limit / 16, Start(count, maxSize, limit))
  {
    var q := limit / 16;
    if 0 < count {
      HundredTimes(maxSize, count);
    }
    LeastEnough(count, q);
  }

  /** The most buckets, and one at least, that can be filled with `q` names each. */
  ghost predicate Enough(count: int, q: int, s: int) {
    s >= 1 && count < (s + 1) * q && (s > 1 ==> s * q <= count)
  }

  lemma LeastEnough(n: nat, q: int)
    requires 0 < q
    ensures Enough(n, q, if n / q == 0 then 1 else n / q)
  {
    var s := n / q;
    assert n == s * q + n % q;
    OneMore(s, q);
    OneMore(1, q);
  }

  lemma HundredTimes(n: nat, d: int)
    requires 0 < d
    ensures n / d < 100 <==> n < 100 * d
  {
    var k := n / d - 100;
    assert n == n / d * d + n % d;
    assert n == 100 * d + k * d + n % d;
    assert k >= 0 ==> k * d >= 0;
    assert k <= -1 ==> k * d <= -d;
  }

  method Build(names: seq<Name>, maxSize: nat, bucketSize: nat, line: int, got: nat)
      returns (r: Outcome, h: Hash, mem: map<int, Elt>, base: int)
    requires 0 < got && 0 < line < 65536 - PTR && (65536 - line) % line == 0
    ensures r == OK ==> Laid(names, h, mem, base, line) && h.size <= maxSize
    ensures r == OK ==> 16 <= Limit(bucketSize) && Chosen(names, maxSize, Limit(bucketSize), h.size)
    ensures r == OK ==> base % line == 0 && (line % 8 == 0 ==> Words(base))
    ensures r == OK ==> var total := Before(names, h.size, line, h.size); Inside(base, total, got, total + line)
    ensures r == ERROR <==>
      Refused(names, maxSize, bucketSize, line) || TooManyFor(names, maxSize, Limit(bucketSize), line)
    ensures r == FAULT <==> ZeroFor(names, maxSize, Limit(bucketSize))
  {
    r, h, mem, base := ERROR, Hash([], 0), map[], 0;
    if maxSize == 0 || bucketSize > 65536 - line {
      return;
    }
    for n := 0 to |names|
      invariant forall m :: 0 <= m < n ==> bucketSize >= EltSize(names[m].key) + PTR
    {
      if bucketSize < EltSize(names[n].key) + PTR {
        return;
      }
    }
    if Limit(bucketSize) / 16 == 0 {
      assert names != [] ==> bucketSize >= EltSize(names[0].key) + PTR;
      r := FAULT;
      return;
    }
    assert names != [] ==> bucketSize >= EltSize(names[0].key) + PTR;
    var fits;
    fits, h, mem, base := Layout(names, maxSize, Limit(bucketSize), line, got);
    r := if fits then OK else ERROR;
  }

  /** The rest of ngx_hash_init, once the sizes have been checked. */
  method Layout(names: seq<Name>, maxSize: nat, limit: int, line: int, got: nat)
      returns (ok: bool, h: Hash, mem: map<int, Elt>, base: int)
    requires 0 < got && 0 < line < 65536 - PTR && (65536 - line) % line == 0
    requires 0 < maxSize && 16 <= limit && (limit <= 65536 - line - PTR || names == [])
    requires forall n :: 0 <= n < |names| ==> EltSize(names[n].key) <= limit
    ensures ok ==> Laid(names, h, mem, base, line) && h.size <= maxSize && Chosen(names, maxSize, limit, h.size)
    ensures ok ==> base % line == 0 && (line % 8 == 0 ==> Words(base))
    ensures ok ==> var total := Before(names, h.size, line, h.size); Inside(base, total, got, total + line)
    ensures ok <==> Sized(names, maxSize, limit) || Fits(names, maxSize, 65536 - line - PTR)
  {
    ok, h, mem, base := false, Hash([], 0), map[], 0;
    var test := new int[maxSize];
    var size := ChooseSize(names, maxSize, limit, test);
    if names == [] {
      NoNames(names, size);
    }
    var fits := Sizes(names, size, line, test);
    if !fits {
      return;
    }
    var len := RoundUp(names, size, line, test);
    base := Align(got, line);
    if line % 8 == 0 {
      MultipleOfMultiple(base, line, 8);
    }
    var buckets := PlaceBuckets(names, size, line, test, base);
    h := Hash(buckets, size);
    mem := Fill(names, h, base, line, test);
    mem := Terminate(names, h, base, line, test, mem);
    ok := true;
  }

  // ----- finding

  /** The first of the names from `n` on that belongs to bucket `b`, or the end. */
  function NextIn(names: seq<Name>, n: nat, size: int, b: int): (m: nat)
    requires n <= |names| && 0 < size
    ensures n <= m <= |names| && (m < |names| ==> Bucket(names[m], size) == b)
    ensures Off(names, m, size, b) == Off(names, n, size, b)
    ensures forall i :: n <= i < m ==> Bucket(names[i], size) != b
    decreases |names| - n
  {
    if n == |names| || Bucket(names[n], size) == b then n else NextIn(names, n + 1, size, b)
  }

  lemma BeforeWords(names: seq<Name>, size: int, line: int, b: nat)
    requires 0 < size && 0 < line && line % 8 == 0
    ensures Words(Before(names, size, line, b))
  {
    MultipleOfMultiple(Before(names, size, line, b), line, 8);
  }

  lemma StartWords(base: int, before: int, start: int, off: int)
    requires Words(base) && Words(before) && Words(off) && (start == 0 || start == base + before)
    ensures Words(start + off)
  {
  }

  lemma BucketAligned(names: seq<Name>, h: Hash, base: int, line: int, n: nat, b: nat)
    requires Placed(names, h, base, line) && Words(base) && b < h.size && n <= |names|
    requires Words(Before(names, h.size, line, b))
    ensures h.buckets[b] >= 0 && Words(h.buckets[b] + Off(names, n, h.size, b))
  {
    OffWords(names, n, h.size, b);
    StartWords(base, Before(names, h.size, line, b), h.buckets[b], Off(names, n, h.size, b));
  }

  lemma MultipleOfMultiple(x: nat, a: int, b: int)
    requires 0 < a && 0 < b && x % a == 0 && a % b == 0
    ensures x % b == 0
  {
    var p, q := x / a, a / b;
    assert x == p * a && a == q * b;
    assert x == p * (q * b) == (p * q) * b;
    assert p * q >= 0;
    Multiple(p * q, b);
  }

  /** What a walk through a bucket sees: the n-th name, or the end. */
  ghost predicate Reached(names: seq<Name>, h: Hash, e: Elt, n: nat, b: int)
    requires n <= |names| && 0 < h.size
  {
    if n == |names| then e.value == NULL
    else Bucket(names[n], h.size) == b && e == Elt(names[n].value, |names[n].key|, names[n].key)
  }

  lemma AtNext(names: seq<Name>, h: Hash, mem: map<int, Elt>, base: int, line: int, n: nat, b: int)
    requires Laid(names, h, mem, base, line) && n <= |names| && 0 <= b < h.size && h.buckets[b] != 0
    requires n < |names| ==> Bucket(names[n], h.size) == b
    ensures var a := h.buckets[b] + Off(names, n, h.size, b); a in mem && Reached(names, h, mem[a], n, b)
  {
    if n == |names| {
      assert Ended(names, h, mem, b);
    } else {
      assert Stored(names, h, mem, n);
    }
  }

  /** From the n-th name, the walk gets to the next one of the bucket, or to its end. */
  lemma WalkStep(names: seq<Name>, h: Hash, mem: map<int, Elt>, base: int, line: int, n: nat, b: int)
    requires Laid(names, h, mem, base, line) && line % 8 == 0 && Words(base)
    requires n < |names| && Bucket(names[n], h.size) == b && h.buckets[b] != 0
    ensures var a, m := h.buckets[b] + Off(names, n, h.size, b), NextIn(names, n + 1, h.size, b);
      var a' := h.buckets[b] + Off(names, m, h.size, b);
      a >= 0 && Align(a + PTR + 2 + |names[n].key|, 8) == a' && a' in mem && Reached(names, h, mem[a'], m, b)
  {
    BeforeWords(names, h.size, line, b);
    BucketAligned(names, h, base, line, n, b);
    Stride(h.buckets[b] + Off(names, n, h.size, b), names[n].key);
    AtNext(names, h, mem, base, line, NextIn(names, n + 1, h.size, b), b);
  }

  /** Names have values, are distinct, and the name looked for comes with its hash. */
  ghost predicate Lookup(names: seq<Name>, key: nat, name: string) {
    && (forall n :: 0 <= n < |names| ==> names[n].value != NULL && (names[n].key == name ==> names[n].hash == key))
    && (forall m, n :: 0 <= m < n < |names| ==> names[m].key != names[n].key)
  }

  /** The map that the hash implements. */
  ghost function Contents(names: seq<Name>): map<string, Value> {
    if names == [] then map[]
    else Contents(names[..|names| - 1])[names[|names| - 1].key := names[|names| - 1].value]
  }

  lemma {:induction false} ContentsKey(names: seq<Name>, k: string) returns (n: nat)
    requires k in Contents(names)
    ensures n < |names| && names[n].key == k && Contents(names)[k] == names[n].value
  {
    if names[|names| - 1].key == k {
      n := |names| - 1;
    } else {
      n := ContentsKey(names[..|names| - 1], k);
    }
  }

  lemma {:induction false} KeyContained(names: seq<Name>, n: nat)
    requires n < |names|
    ensures names[n].key in Contents(names)
  {
    if n < |names| - 1 {
      KeyContained(names[..|names| - 1], n);
    }
  }

  /** The answer of a lookup: the value of the name, or NULL. */
  ghost predicate Answer(names: seq<Name>, name: string, value: Value) {
    && (forall n :: 0 <= n < |names| && names[n].key == name ==> value == names[n].value)
    && ((forall n :: 0 <= n < |names| ==> names[n].key != name) ==> value == NULL)
  }

  /** The answer is that of the map. */
  lemma FindIsLookup(names: seq<Name>, name: string, value: Value)
    requires Answer(names, name, value)
    ensures value == if name in Contents(names) then Contents(names)[name] else NULL
  {
    if name in Contents(names) {
      var n := ContentsKey(names, name);
    } else {
      forall n | 0 <= n < |names| ensures names[n].key != name {
        KeyContained(names, n);
      }
    }
  }

  ghost predicate NotBefore(names: seq<Name>, n: nat, name: string)
    requires n <= |names|
  {
    forall i :: 0 <= i < n ==> names[i].key != name
  }

  /** A walk through bucket `b` is at the n-th name, or at the end. */
  ghost predicate At(names: seq<Name>, h: Hash, mem: map<int, Elt>, elt: int, n: nat, b: int)
    requires n <= |names| && 0 <= b < h.size == |h.buckets|
  {
    elt == h.buckets[b] + Off(names, n, h.size, b) && elt in mem && Reached(names, h, mem[elt], n, b)
  }

  lemma EmptyBucket(names: seq<Name>, h: Hash, base: int, line: int, key: nat, name: string)
    requires Placed(names, h, base, line) && h.buckets[Rem(key, h.size)] == 0 && Lookup(names, key, name)
    ensures NotBefore(names, |names|, name)
  {
    var b := Rem(key, h.size);
    forall n | 0 <= n < |names| ensures names[n].key != name {
      OffMonotone(names, n + 1, |names|, h.size, b);
    }
  }

  /** The names that a walk skips are not the one looked for. */
  lemma Skipped(names: seq<Name>, n: nat, size: int, key: nat, name: string)
    requires n <= |names| && 0 < size && Lookup(names, key, name) && NotBefore(names, n, name)
    ensures NotBefore(names, NextIn(names, n, size, Rem(key, size)), name)
  {
    var b, m := Rem(key, size), NextIn(names, n, size, Rem(key, size));
    forall i | 0 <= i < m ensures names[i].key != name {
      assert n <= i ==> Bucket(names[i], size) != b;
    }
  }

  lemma Hit(names: seq<Name>, n: nat, key: nat, name: string)
    requires n < |names| && Lookup(names, key, name) && names[n].key == name
    ensures Answer(names, name, names[n].value)
  {
  }

  /** ngx_hash_find: the value of the name, or NULL. */
  method Find(h: Hash, mem: map<int, Elt>, key: nat, name: string,
              ghost names: seq<Name>, ghost base: int, ghost line: int) returns (value: Value)
    requires Laid(names, h, mem, base, line) && line % 8 == 0 && Words(base) && Lookup(names, key, name)
    ensures Answer(names, name, value)
  {
    var elt := h.buckets[Rem(key, h.size)];
    if elt == 0 {
      EmptyBucket(names, h, base, line, key, name);
      return NULL;
    }
    ghost var n := NextIn(names, 0, h.size, Rem(key, h.size));
    Skipped(names, 0, h.size, key, name);
    AtNext(names, h, mem, base, line, n, Rem(key, h.size));
    value := Walk(h, mem, elt, key, name, names, base, line, n);
  }

  /** The loop of ngx_hash_find. */
  method Walk(h: Hash, mem: map<int, Elt>, first: int, key: nat, name: string,
              ghost names: seq<Name>, ghost base: int, ghost line: int, ghost k: nat) returns (value: Value)
    requires Laid(names, h, mem, base, line) && line % 8 == 0 && Words(base) && Lookup(names, key, name)
    requires k <= |names| && NotBefore(names, k, name) && h.buckets[Rem(key, h.size)] != 0
    requires At(names, h, mem, first, k, Rem(key, h.size))
    ensures Answer(names, name, value)
  {
    var elt := first;
    ghost var b := Rem(key, h.size);
    ghost var n := k;
    while mem[elt].value != NULL
      invariant 0 <= n <= |names| && At(names, h, mem, elt, n, b) && NotBefore(names, n, name)
      decreases |names| - n
    {
      assert n < |names|;
      if |name| == mem[elt].len && name == mem[elt].name {
        Hit(names, n, key, name);
        return mem[elt].value;
      }
      WalkStep(names, h, mem, base, line, n, b);
      Skipped(names, n + 1, h.size, key, name);
      elt := Align(elt + PTR + 2 + mem[elt].len, 8);
      n := NextIn(names, n + 1, h.size, b);
    }
    value := NULL;
  }
}
