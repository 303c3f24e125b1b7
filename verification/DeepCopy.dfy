/** Deep copy of PHP values into the shared segment, where every pointer becomes an offset,
    and back out into a process that maps the segment at another address. */
module DeepCopy {
  import opened Basics
  import H = HashCompact

  // ----- Memory -----

  // A PHP value slot.  In a process Str and Arr hold addresses of a string and of a table.  In the
  // segment they hold offsets: of a string, and of a tracker that names the table.
  datatype Zval = Undef | Null | False | True | Long(n: int) | Double(d: real) | Str(ptr: nat) | Arr(ptr: nat)

  // An entry of a table; next is its link in the collision chain.  Integer keys have no key string.
  datatype Bucket = Bucket(val: Zval, h: nat, key: Option<nat>, next: int)

  // What one allocation holds.  A table names its data area, the collision index and the buckets.
  datatype Cell =
    | ZvalCell(zv: Zval)
    | StrCell(s: string)
    | TableCell(init: bool, packed: bool, hashSize: nat, nextFree: int, data: nat)
    | DataCell(hash: seq<int>, buckets: seq<Bucket>)
    | TrackerCell(val: nat)

  type Memory = map<nat, Cell>

  // ----- What a slot means -----

  datatype Value = VNull | VBool(b: bool) | VLong(n: int) | VDouble(d: real) | VString(s: string)
                 | VArray(packed: bool, nextFree: int, slots: seq<Slot>)

  // The entries of an array in order, with the unused buckets between them.
  datatype Slot = Hole | Item(h: nat, key: Option<string>, val: Value)

  ghost predicate IsStr(m: Memory, p: nat, s: string) {
    p in m && m[p] == StrCell(s)
  }

  ghost predicate KeyMeans(m: Memory, k: Option<nat>, key: Option<string>) {
    match key
    case None => k.None?
    case Some(s) => k.Some? && IsStr(m, k.value, s)
  }

  /** The table an array slot leads to; in the segment, through a tracker. */
  ghost predicate HasTable(m: Memory, cached: bool, z: Zval) {
    z.Arr? && (cached ==> z.ptr in m && m[z.ptr].TrackerCell?)
  }

  ghost function TableOf(m: Memory, cached: bool, z: Zval): nat
    requires HasTable(m, cached, z)
  {
    if cached then m[z.ptr].val else z.ptr
  }

  ghost predicate IsTable(m: Memory, t: nat) {
    && t in m && m[t].TableCell?
    && (m[t].init ==> m[t].data in m && m[m[t].data].DataCell?)
  }

  ghost function Buckets(m: Memory, t: nat): seq<Bucket>
    requires IsTable(m, t)
  {
    if m[t].init then m[m[t].data].buckets else []
  }

  function Entries(bs: seq<Bucket>): (r: seq<H.Bucket>)
    ensures |r| == |bs|
    ensures forall i {:trigger r[i]} :: 0 <= i < |bs| ==> r[i] == H.Bucket(bs[i].h, bs[i].key, bs[i].val.Undef?)
  {
    seq(|bs|, i requires 0 <= i < |bs| => H.Bucket(bs[i].h, bs[i].key, bs[i].val.Undef?))
  }

  function Nexts(bs: seq<Bucket>): (r: seq<int>)
    ensures |r| == |bs| && forall i {:trigger r[i]} :: 0 <= i < |bs| ==> r[i] == bs[i].next
  {
    seq(|bs|, i requires 0 <= i < |bs| => bs[i].next)
  }

  /** A hashed table has a correct collision index of the size it claims. */
  ghost predicate GoodIndex(packed: bool, hashSize: nat, d: Cell)
    requires d.DataCell?
  {
    packed ||
    (&& H.PowerOfTwo(hashSize) && |d.hash| == hashSize
     && exists chains {:trigger H.IndexOf(d.hash, Nexts(d.buckets), Entries(d.buckets), chains)} ::
          H.IndexOf(d.hash, Nexts(d.buckets), Entries(d.buckets), chains))
  }

  /** Slot z of memory m stands for the value v.  No cyclic value stands for anything. */
  ghost predicate Means(m: Memory, cached: bool, z: Zval, v: Value)
    decreases v, 1
  {
    match v
    case VNull => z == Null
    case VBool(b) => z == if b then True else False
    case VLong(n) => z == Long(n)
    case VDouble(d) => z == Double(d)
    case VString(s) => z.Str? && IsStr(m, z.ptr, s)
    case VArray(_, _, _) => HasTable(m, cached, z) && TableMeans(m, cached, TableOf(m, cached, z), v)
  }

  ghost predicate TableMeans(m: Memory, cached: bool, t: nat, v: Value)
    requires v.VArray?
    decreases v, 0
  {
    && IsTable(m, t) && m[t].packed == v.packed && m[t].nextFree == v.nextFree
    && (m[t].init ==> GoodIndex(m[t].packed, m[t].hashSize, m[m[t].data]))
    && |Buckets(m, t)| == |v.slots|
    && forall i {:trigger v.slots[i]} :: 0 <= i < |v.slots| ==>
         match v.slots[i]
         case Hole => Buckets(m, t)[i].val == Undef
         case Item(h, key, w) =>
           && Buckets(m, t)[i].h == h && KeyMeans(m, Buckets(m, t)[i].key, key)
           && Means(m, cached, Buckets(m, t)[i].val, w)
  }

  lemma TableMeant(m: Memory, cached: bool, t: nat, v: Value)
    requires v.VArray? && TableMeans(m, cached, t, v)
    ensures IsTable(m, t) && (m[t].init ==> GoodIndex(m[t].packed, m[t].hashSize, m[m[t].data]))
            && |Buckets(m, t)| == |v.slots|
  {
  }

  lemma NotUnused(m: Memory, cached: bool, z: Zval, v: Value)
    requires Means(m, cached, z, v)
    ensures z != Undef
  {
  }

  /** A slot stands for at most one value. */
  lemma {:induction false} OneMeaning(m: Memory, cached: bool, z: Zval, v: Value, w: Value)
    requires Means(m, cached, z, v) && Means(m, cached, z, w)
    ensures v == w
    decreases v
  {
    hide GoodIndex;
    if v.VArray? {
      assert w.VArray?;
      forall i | 0 <= i < |v.slots| ensures v.slots[i] == w.slots[i] {
        var x := Buckets(m, TableOf(m, cached, z))[i];
        if v.slots[i].Item? && w.slots[i].Item? {
          OneMeaning(m, cached, x.val, v.slots[i].val, w.slots[i].val);
          assert KeyMeans(m, x.key, v.slots[i].key) && KeyMeans(m, x.key, w.slots[i].key);
        } else if v.slots[i].Item? {
          NotUnused(m, cached, x.val, v.slots[i].val);
        } else if w.slots[i].Item? {
          NotUnused(m, cached, x.val, w.slots[i].val);
        }
      }
    }
  }

  // ----- What a copy keeps -----

  // One side of a copy: memory whose pointers are base plus a key of mem.
  datatype Side = Side(mem: Memory, cached: bool, base: nat)

  ghost predicate KeyShape(a: Memory, b: Memory, x: Option<nat>, y: Option<nat>) {
    if x.None? then y.None?
    else y.Some? && x.value in a && a[x.value].StrCell? && IsStr(b, y.value, a[x.value].s)
  }

  /** Slot c of b is the copy of slot z of a: the same scalar, the same characters, or the table
      the memo has for z's table.  The memo maps pointers on the one side to pointers on the other. */
  ghost predicate Shape(a: Side, memo: map<nat, nat>, b: Side, z: Zval, c: Zval) {
    match z
    case Str(p) => c.Str? && p in a.mem && a.mem[p].StrCell? && IsStr(b.mem, c.ptr, a.mem[p].s)
    case Arr(_) =>
      && HasTable(a.mem, a.cached, z) && HasTable(b.mem, b.cached, c)
      && a.base + TableOf(a.mem, a.cached, z) in memo
      && memo[a.base + TableOf(a.mem, a.cached, z)] == b.base + TableOf(b.mem, b.cached, c)
    case _ => c == z
  }

  ghost predicate BucketShape(a: Side, memo: map<nat, nat>, b: Side, x: Bucket, y: Bucket) {
    && y.h == x.h && (x.val.Undef? <==> y.val.Undef?)
    && (!x.val.Undef? ==> KeyShape(a.mem, b.mem, x.key, y.key) && Shape(a, memo, b, x.val, y.val))
  }

  /** The number of slots of a copied index: a sparse table gets a smaller index when it is copied into the segment,
      and all others keep theirs. */
  ghost predicate Resized(packed: bool, used: nat, size: nat, cached: bool, size2: nat) {
    if cached && !packed && size >= 17 && size >= 2 * (used + 1) then
      if used <= 8 then size2 == 8 else used < size2 <= 2 * used
    else size2 == size
  }

  /** Table t of a has a copy in b, bucket by bucket. */
  ghost predicate TableShape(a: Side, memo: map<nat, nat>, b: Side, t: nat) {
    && IsTable(a.mem, t) && a.base + t in memo && memo[a.base + t] >= b.base
    && var u := memo[a.base + t] - b.base;
    && IsTable(b.mem, u)
    && b.mem[u].init == a.mem[t].init && b.mem[u].packed == a.mem[t].packed && b.mem[u].nextFree == a.mem[t].nextFree
    && (b.mem[u].init ==> GoodIndex(b.mem[u].packed, b.mem[u].hashSize, b.mem[b.mem[u].data]))
    && |Buckets(b.mem, u)| == |Buckets(a.mem, t)|
    && (if b.mem[u].init then
          Resized(a.mem[t].packed, |Buckets(a.mem, t)|, a.mem[t].hashSize, b.cached, b.mem[u].hashSize)
        else b.mem[u].hashSize == a.mem[t].hashSize)
    && forall i {:trigger Buckets(a.mem, t)[i]} {:trigger Buckets(b.mem, u)[i]} :: 0 <= i < |Buckets(a.mem, t)| ==>
         BucketShape(a, memo, b, Buckets(a.mem, t)[i], Buckets(b.mem, u)[i])
  }

  /** Every table whose pointer is in the memo, but those still open, has its copy. */
  ghost predicate Graph(a: Side, memo: map<nat, nat>, b: Side, open: set<nat>) {
    forall p {:trigger p in memo} ::
      p in memo && p !in open && p >= a.base && p - a.base in a.mem && a.mem[p - a.base].TableCell? ==>
      TableShape(a, memo, b, p - a.base)
  }

  /** Meaning is preserved by anything shaped like a copy, by induction on the value. */
  lemma {:induction false} ShapeMeans(a: Side, memo: map<nat, nat>, b: Side, z: Zval, c: Zval, v: Value)
    requires Graph(a, memo, b, {}) && Shape(a, memo, b, z, c) && Means(a.mem, a.cached, z, v)
    ensures Means(b.mem, b.cached, c, v)
    decreases v
  {
    hide GoodIndex;
    if v.VArray? {
      var t, u := TableOf(a.mem, a.cached, z), TableOf(b.mem, b.cached, c);
      assert a.base + t in memo;
      assert TableShape(a, memo, b, t) && TableMeans(a.mem, a.cached, t, v);
      forall i | 0 <= i < |v.slots|
        ensures match v.slots[i]
                case Hole => Buckets(b.mem, u)[i].val == Undef
                case Item(h, key, w) =>
                  && Buckets(b.mem, u)[i].h == h
                  && KeyMeans(b.mem, Buckets(b.mem, u)[i].key, key)
                  && Means(b.mem, b.cached, Buckets(b.mem, u)[i].val, w)
      {
        assert v.slots[i] == v.slots[i];
        var x, y := Buckets(a.mem, t)[i], Buckets(b.mem, u)[i];
        assert BucketShape(a, memo, b, x, y);
        if v.slots[i].Item? {
          ShapeMeans(a, memo, b, x.val, y.val, v.slots[i].val);
        }
      }
      assert TableMeans(b.mem, b.cached, u, v);
    }
  }

  // ----- Sharing -----

  /** The slot a path of bucket numbers leads to from slot z, if it leads anywhere. */
  ghost function At(m: Memory, cached: bool, z: Zval, path: seq<nat>): Option<Zval>
    decreases |path|
  {
    if path == [] then Some(z)
    else if HasTable(m, cached, z) && IsTable(m, TableOf(m, cached, z))
            && path[0] < |Buckets(m, TableOf(m, cached, z))| then
      At(m, cached, Buckets(m, TableOf(m, cached, z))[path[0]].val, path[1..])
    else None
  }

  /** Two paths from z lead to one and the same table. */
  ghost predicate SameTable(m: Memory, cached: bool, z: Zval, p: seq<nat>, q: seq<nat>) {
    && At(m, cached, z, p).Some? && HasTable(m, cached, At(m, cached, z, p).value)
    && At(m, cached, z, q).Some? && HasTable(m, cached, At(m, cached, z, q).value)
    && TableOf(m, cached, At(m, cached, z, p).value) == TableOf(m, cached, At(m, cached, z, q).value)
  }

  /** Inside z of m and inside c of n exactly the same paths meet in one table. */
  ghost predicate SameSharing(m: Memory, cached: bool, z: Zval, n: Memory, cached2: bool, c: Zval) {
    forall p: seq<nat>, q: seq<nat> {:trigger SameTable(m, cached, z, p, q)} {:trigger SameTable(n, cached2, c, p,
          q)} ::
      SameTable(m, cached, z, p, q) <==> SameTable(n, cached2, c, p, q)
  }

  /** A path that leads somewhere leads to a slot and to its copy. */
  lemma {:induction false} PathShape(a: Side, memo: map<nat, nat>, b: Side, z: Zval, c: Zval, v: Value, path: seq<nat>)
    requires Graph(a, memo, b, {}) && Shape(a, memo, b, z, c) && (z.Undef? || Means(a.mem, a.cached, z, v))
    ensures At(a.mem, a.cached, z, path).Some? <==> At(b.mem, b.cached, c, path).Some?
    ensures At(a.mem, a.cached, z, path).Some? ==>
              Shape(a, memo, b, At(a.mem, a.cached, z, path).value, At(b.mem, b.cached, c, path).value)
    decreases |path|
  {
    hide GoodIndex;
    if path != [] && z.Arr? {
      assert v.VArray?;
      var t, u := TableOf(a.mem, a.cached, z), TableOf(b.mem, b.cached, c);
      assert a.base + t in memo;
      assert TableShape(a, memo, b, t) && TableMeans(a.mem, a.cached, t, v);
      if path[0] < |v.slots| {
        var slot, x, y := v.slots[path[0]], Buckets(a.mem, t)[path[0]], Buckets(b.mem, u)[path[0]];
        assert BucketShape(a, memo, b, x, y);
        PathShape(a, memo, b, x.val, y.val, if slot.Item? then slot.val else v, path[1..]);
      }
    }
  }

  // ----- Nothing finished is ever changed -----

  ghost predicate Sub<K, V>(m: map<K, V>, n: map<K, V>) {
    forall k {:trigger k in m} {:trigger m[k]} :: k in m ==> k in n && n[k] == m[k]
  }

  lemma ShapeKept(a: Side, memo: map<nat, nat>, memo2: map<nat, nat>, b: Side, b2: Side, z: Zval, c: Zval)
    requires Sub(memo, memo2) && Sub(b.mem, b2.mem) && b2.base == b.base && b2.cached == b.cached
    requires Shape(a, memo, b, z, c)
    ensures Shape(a, memo2, b2, z, c)
  {
  }

  lemma BucketKept(a: Side, memo: map<nat, nat>, memo2: map<nat, nat>, b: Side, b2: Side, x: Bucket, y: Bucket)
    requires Sub(memo, memo2) && Sub(b.mem, b2.mem) && b2.base == b.base && b2.cached == b.cached
    requires BucketShape(a, memo, b, x, y)
    ensures BucketShape(a, memo2, b2, x, y)
  {
    hide Shape;
    if !x.val.Undef? {
      ShapeKept(a, memo, memo2, b, b2, x.val, y.val);
    }
  }

  lemma TableKept(a: Side, memo: map<nat, nat>, memo2: map<nat, nat>, b: Side, b2: Side, t: nat)
    requires Sub(memo, memo2) && Sub(b.mem, b2.mem) && b2.base == b.base && b2.cached == b.cached
    requires TableShape(a, memo, b, t)
    ensures TableShape(a, memo2, b2, t)
  {
    hide BucketShape, GoodIndex;
    var u := memo[a.base + t] - b.base;
    assert u in b.mem;
    assert b.mem[u].init ==> b.mem[u].data in b.mem;
    assert Buckets(b2.mem, u) == Buckets(b.mem, u);
    forall i | 0 <= i < |Buckets(a.mem, t)|
      ensures BucketShape(a, memo2, b2, Buckets(a.mem, t)[i], Buckets(b2.mem, u)[i])
    {
      BucketKept(a, memo, memo2, b, b2, Buckets(a.mem, t)[i], Buckets(b.mem, u)[i]);
    }
  }

  lemma GraphKept(a: Side, memo: map<nat, nat>, memo2: map<nat, nat>, b: Side, b2: Side, open: set<nat>,
                  open2: set<nat>)
    requires Sub(memo, memo2) && Sub(b.mem, b2.mem) && b2.base == b.base && b2.cached == b.cached
    requires Graph(a, memo, b, open)
    requires forall p {:trigger p in memo2} :: p in memo2 && p !in memo && p !in open2 ==>
               p < a.base || p - a.base !in a.mem || !a.mem[p - a.base].TableCell?
    requires open <= open2
    ensures Graph(a, memo2, b2, open2)
  {
    hide TableShape;
    forall p | p in memo2 && p !in open2 && p >= a.base && p - a.base in a.mem && a.mem[p - a.base].TableCell?
      ensures TableShape(a, memo2, b2, p - a.base)
    {
      assert p in memo;
      TableKept(a, memo, memo2, b, b2, p - a.base);
    }
  }

  /** More memory changes no meaning. */
  lemma {:induction false} MeansKept(m: Memory, n: Memory, cached: bool, z: Zval, v: Value)
    requires Sub(m, n) && Means(m, cached, z, v)
    ensures Means(n, cached, z, v)
    decreases v
  {
    hide GoodIndex;
    if v.VArray? {
      assert cached ==> z.ptr in m;
      var t := TableOf(m, cached, z);
      assert t in m && (m[t].init ==> m[t].data in m);
      assert Buckets(n, t) == Buckets(m, t);
      forall i | 0 <= i < |v.slots|
        ensures match v.slots[i]
                case Hole => Buckets(n, t)[i].val == Undef
                case Item(h, key, w) =>
                  && Buckets(n, t)[i].h == h && KeyMeans(n, Buckets(n, t)[i].key, key)
                  && Means(n, cached, Buckets(n, t)[i].val, w)
      {
        var x, slot := Buckets(m, t)[i], v.slots[i];
        if slot.Item? {
          MeansKept(m, n, cached, x.val, slot.val);
          assert KeyMeans(m, x.key, slot.key);
        }
      }
    }
  }
}
