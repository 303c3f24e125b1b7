/** Copying a cached PHP value out of the segment, in a process that may have the segment mapped
    at any address. */
module CopyOuts {
  import opened Basics
  import opened DeepCopy
  import opened Copying
  import opened CopyIns
  import H = HashCompact

  class CopyOut {
    // The segment's contents by offset, and where this process has it mapped.
    const cells: Memory
    const base: nat
    // The process allocator, 0 when it refuses.
    const place: Memory -> nat
    var heap: Memory
    // The hash table WCG(zvcopied), for tables: cached pointer to private pointer.
    var memo: map<nat, nat>
    ghost var done: Memory
    ghost var open: set<nat>
    ghost var origin: map<nat, nat>

    ghost function S(): State
      reads this
    {
      State(heap, memo, done, open, origin)
    }

    ghost function J(): Job {
      Job(cells, true, base, 0)
    }

    ghost function From(): Side {
      J().From()
    }

    ghost function To(): Side
      reads this
    {
      J().To(done)
    }

    ghost predicate Valid()
      reads this
    {
      Good(J(), S()) && forall m {:trigger place(m)} :: place(m) == 0 || place(m) !in m
    }

    constructor (cells: Memory, base: nat, place: Memory -> nat)
      requires forall m {:trigger place(m)} :: place(m) == 0 || place(m) !in m
      ensures Valid() && heap == map[] && memo == map[] && open == {}
      ensures this.cells == cells && this.base == base && this.place == place
    {
      this.cells, this.base, this.place := cells, base, place;
      heap, memo, done, open, origin := map[], map[], map[], {}, map[];
    }

    method Malloc(c: Cell) returns (p: nat)
      requires forall m {:trigger place(m)} :: place(m) == 0 || place(m) !in m
      modifies this`heap
      ensures p == 0 <==> place(old(heap)) == 0
      ensures p == 0 ==> heap == old(heap)
      ensures p != 0 ==> p !in old(heap) && heap == old(heap)[p := c]
    {
      p := place(heap);
      if p != 0 {
        heap := heap[p := c];
      }
    }

    /** A private copy of the cached string at an offset. */
    method CopyoutString(off: nat) returns (r: Result, p: nat)
      requires Valid() && off in cells && cells[off].StrCell?
      modifies this
      ensures !r.Ok? ==> place(heap) == 0
      ensures r.Ok? ==> Valid() && Later(old(S()), S()) && IsStr(done, p, cells[off].s)
    {
      hide Good, Later;
      ghost var s := S();
      p := Malloc(cells[off]);
      if p == 0 {
        return OutOfMemory, 0;
      }
      CellAdded(J(), s, p, cells[off]);
      NewDone(J(), s, p, cells[off]);
      done := done[p := cells[off]];
      r := Ok;
    }

    /** copyout_zval for the value of an entry: the cached slot at root, into a slot of the caller. */
    method CopyoutValue(root: nat, ghost v: Value) returns (r: Result, c: Zval)
      requires Valid() && open == {} && root in cells && cells[root].ZvalCell?
               && Means(cells, true, cells[root].zv, v)
      modifies this
      ensures !r.Ok? ==> place(heap) == 0
      ensures r.Ok? ==>
                Valid() && open == {} && Means(heap, false, c, v) && Shape(From(), memo, To(), cells[root].zv, c)
      ensures r.Ok? ==> SameSharing(cells, true, cells[root].zv, heap, false, c)
    {
      hide Good, Later, Means, Shape, SameSharing;
      LaterSame(S());
      ghost var s := S();
      r, c := CopyoutZval(cells[root].zv, v);
      if r.Ok? {
        StaysOpen(s, S());
        CopyMeans(J(), S(), cells[root].zv, c, v);
        SharingKept(J(), S(), cells[root].zv, c, v);
      }
    }

    /** copyout_zval on a slot that is already in place: what the slot becomes. */
    method CopyoutZval(z: Zval, ghost v: Value) returns (r: Result, c: Zval)
      requires Valid() && Means(cells, true, z, v)
      modifies this
      ensures r.Ok? ==> Valid() && Later(old(S()), S()) && Shape(From(), memo, To(), z, c)
      ensures !r.Ok? ==> place(heap) == 0
      decreases v, 3
    {
      hide Good, Later, GoodIndex;
      c := z;
      r := Ok;
      match z
      case Str(off) =>
        var p;
        r, p := CopyoutString(off);
        c := Str(p);
      case Arr(off) =>
        var p;
        var tracker := cells[off];
        r, p := CopyoutHashtable(base + tracker.val, v);
        c := Arr(p);
      case _ =>
        LaterSame(S());
    }

    /** copyout_hashtable: a table seen before is not copied again. */
    method CopyoutHashtable(pcached: nat, ghost v: Value) returns (r: Result, p: nat)
      requires Valid() && v.VArray? && pcached >= base && TableMeans(cells, true, pcached - base, v)
      modifies this
      ensures r.Ok? ==>
                Valid() && Later(old(S()), S()) && pcached in memo && memo[pcached] == p
      ensures !r.Ok? ==> place(heap) == 0
      decreases v, 2
    {
      hide Good, TableMeans, Later;
      ghost var s := S();
      TableMeant(cells, true, pcached - base, v);
      if pcached in memo {
        LaterSame(s);
        return Ok, memo[pcached];
      }
      p := Malloc(cells[pcached - base]);
      if p == 0 {
        return OutOfMemory, 0;
      }
      memo := memo[pcached := p];
      origin := origin[p := pcached];
      assert S() == Copied(J(), s, pcached - base, p);
      r := FillNew(pcached - base, p, v, s);
    }

    /** The rest of copyout_hashtable, when the table was not seen before. */
    method FillNew(t: nat, toff: nat, ghost v: Value, ghost s: State) returns (r: Result)
      requires forall m {:trigger place(m)} :: place(m) == 0 || place(m) !in m
      requires Good(J(), s) && v.VArray? && TableMeans(cells, true, t, v) && t in cells
      requires base + t !in s.memo && toff !in s.cells && S() == Copied(J(), s, t, toff)
      modifies this
      ensures r.Ok? ==>
                Valid() && Later(s, S()) && base + t in memo && memo[base + t] == toff
      ensures !r.Ok? ==> place(heap) == 0
      decreases v, 1
    {
      hide Good, TableMeans, LaterBut, Later, TableShape, Graph, Mapped;
      TableMeant(cells, true, t, v);
      TableCopied(J(), s, t, toff);
      FirstTime(J(), s, t, toff);
      open := open + {base + t};
      r := Ok;
      if cells[t].init {
        r := FillTable(t, toff, v);
      } else {
        FillEmpty(t, toff);
      }
      if r.Ok? {
        TableClosed(J(), s, S(), t, toff);
        open := open - {base + t};
      }
    }

    /** A table that was never initialised has no data area. */
    method FillEmpty(t: nat, toff: nat)
      requires Valid() && IsTable(cells, t) && !cells[t].init
      requires base + t in open && base + t in memo && memo[base + t] == toff && toff in heap && toff !in done
               && heap[toff] == cells[t]
      modifies this
      ensures Valid() && LaterBut(old(S()), S(), {toff}) && TableShape(From(), memo, To(), t)
    {
      hide Good;
      CellWritten(J(), S(), toff, cells[t].(data := 0));
      heap := heap[toff := cells[t].(data := 0)];
      done := done[toff := cells[t].(data := 0)];
    }

    /** The data area, copied whole, then its keys and its values. */
    method FillTable(t: nat, toff: nat, ghost v: Value) returns (r: Result)
      requires Valid() && v.VArray? && TableMeans(cells, true, t, v) && cells[t].init
      requires base + t in open && base + t in memo && memo[base + t] == toff && toff in heap && toff !in done
               && heap[toff] == cells[t]
      modifies this
      ensures !r.Ok? ==> place(heap) == 0
      ensures r.Ok? ==> Good(J(), S()) && LaterBut(old(S()), S(), {toff})
      ensures r.Ok? ==> toff in heap && toff in done && TableShape(From(), memo, To(), t)
      decreases v, 0, 2
    {
      hide Good, TableMeans, LaterBut, Later, GoodIndex, BucketShapes;
      ghost var s := S();
      TableMeant(cells, true, t, v);
      var ptemp;
      r, ptemp := CopyData(t);
      if !r.Ok? {
        return;
      }
      ghost var s2, ht := S(), cells[t].(data := ptemp);
      StillOpen(J(), s, s2, toff);
      CellWritten(J(), s2, toff, ht);
      heap := heap[toff := heap[toff].(data := ptemp)];
      ghost var s3 := S();
      r := CopyBuckets(t, ptemp, ht.packed, ht.hashSize, v);
      if !r.Ok? {
        return;
      }
      ghost var s4 := S();
      FilledLater(s, s2, s3, s4, toff, ptemp, ht);
      FilledGood(J(), s4, toff, ptemp, ht);
      TableFilled(J(), s4, t, toff, ptemp, ht);
      assert heap[toff] == ht;
      done := done[toff := heap[toff]][ptemp := heap[ptemp]];
      assert S() == Filled(s4, toff, ptemp, ht);
    }

    /** memcpy of the data area. */
    method CopyData(t: nat) returns (r: Result, ptemp: nat)
      requires Valid() && IsTable(cells, t) && cells[t].init
      modifies this
      ensures !r.Ok? ==> place(heap) == 0
      ensures r.Ok? ==> Valid() && Later(old(S()), S())
      ensures r.Ok? ==> ptemp in heap && ptemp !in old(heap) && ptemp !in old(done) && ptemp !in done
      ensures r.Ok? ==> heap[ptemp] == cells[cells[t].data] && Moved(Buckets(cells, t), heap[ptemp].buckets, 0)
    {
      hide Good, Later, Moved;
      ghost var s := S();
      var d := cells[cells[t].data];
      ptemp := Malloc(d);
      if ptemp == 0 {
        return OutOfMemory, 0;
      }
      CellAdded(J(), s, ptemp, d);
      NewCell(J(), s, ptemp, d);
      Unmoved(d.buckets);
      r := Ok;
    }

    /** Keys and values, bucket by bucket; unused buckets are left alone. */
    method CopyBuckets(t: nat, doff: nat, ghost packed: bool, ghost hashSize: nat, ghost v: Value) returns (r: Result)
      requires Valid() && v.VArray? && TableMeans(cells, true, t, v) && cells[t].init
      requires doff in heap && doff !in done && heap[doff].DataCell? && Moved(Buckets(cells, t), heap[doff].buckets, 0)
      requires GoodIndex(packed, hashSize, heap[doff])
      modifies this
      ensures !r.Ok? ==> place(heap) == 0
      ensures r.Ok? ==> Valid() && LaterBut(old(S()), S(), {doff})
      ensures r.Ok? ==> doff in heap && doff !in done && heap[doff].DataCell? && GoodIndex(packed, hashSize, heap[doff])
      ensures r.Ok? ==> BucketShapes(From(), memo, To(), Buckets(cells, t), heap[doff].buckets)
      decreases v, 0, 1
    {
      hide Good, TableMeans, LaterBut, Later, GoodIndex, BucketShapes, Halfway, Moved;
      r := Ok;
      ghost var s, d0 := S(), heap[doff];
      LaterSame(s);
      LaterIs(s, s, {doff});
      TableMeant(cells, true, t, v);
      HalfwayStart(From(), memo, To(), Buckets(cells, t), d0.buckets);
      for idx := 0 to |cells[cells[t].data].buckets|
        invariant r.Ok? && Valid() && LaterBut(s, S(), {doff})
        invariant doff in heap && doff !in done && heap[doff].DataCell? && heap[doff].hash == d0.hash
        invariant Halfway(From(), memo, To(), Buckets(cells, t), d0.buckets, heap[doff].buckets, idx)
      {
        r := CopyBucket(t, doff, idx, d0.buckets, v, s);
        if !r.Ok? {
          return;
        }
      }
      HalfwayEnd(From(), memo, To(), Buckets(cells, t), d0, heap[doff], packed, hashSize);
    }

    /** One bucket of the copy of the table at t, in place. */
    method CopyBucket(t: nat, doff: nat, idx: nat, ghost ys: seq<Bucket>, ghost v: Value, ghost s: State)
      returns (r: Result)
      requires Valid() && v.VArray? && TableMeans(cells, true, t, v) && idx < |Buckets(cells, t)|
      requires doff in heap && doff !in done && heap[doff].DataCell? && LaterBut(s, S(), {doff})
      requires Halfway(From(), memo, To(), Buckets(cells, t), ys, heap[doff].buckets, idx)
      modifies this
      ensures !r.Ok? ==> place(heap) == 0
      ensures r.Ok? ==> Valid() && LaterBut(s, S(), {doff})
      ensures r.Ok? ==> doff in heap && doff !in done && heap[doff].DataCell? && heap[doff].hash == old(heap)[doff].hash
      ensures r.Ok? ==> Halfway(From(), memo, To(), Buckets(cells, t), ys, heap[doff].buckets, idx + 1)
      decreases v, 0, 0
    {
      hide Good, LaterBut, Later, Halfway, Means, KeyMeans, GoodIndex, BucketShape;
      ghost var s2, xs := S(), Buckets(cells, t);
      HalfwayAt(From(), memo, To(), xs, ys, heap[doff].buckets, idx);
      var d := heap[doff];
      var p := d.buckets[idx];
      ghost var slot := v.slots[idx];
      if p.val.Undef? {
        UnusedShape(From(), memo, To(), p);
        HalfwayStep(From(), memo, memo, To(), To(), xs, ys, d.buckets, idx, p);
        assert d.buckets[idx := p] == d.buckets;
        return Ok;
      }
      if slot.Hole? {
        assert false;
      }
      var y;
      r, y := CopyPair(p, slot.key, slot.val);
      if !r.Ok? {
        return;
      }
      ghost var s3 := S();
      CopiedPair(J(), s, s2, s3, doff, DataCell(d.hash, d.buckets[idx := y]));
      HalfwayStep(From(), s2.memo, memo, J().To(s2.done), To(), xs, ys, d.buckets, idx, y);
      heap := heap[doff := DataCell(d.hash, d.buckets[idx := y])];
    }

    /** The key string and the value of one bucket. */
    method CopyPair(p: Bucket, ghost key: Option<string>, ghost v: Value) returns (r: Result, y: Bucket)
      requires Valid() && KeyMeans(cells, p.key, key) && Means(cells, true, p.val, v)
      modifies this
      ensures !r.Ok? ==> place(heap) == 0
      ensures r.Ok? ==> Valid() && Later(old(S()), S())
      ensures r.Ok? ==> BucketShape(From(), memo, To(), p, y) && y.next == p.next
      decreases v, 4
    {
      hide Good, LaterBut, Later, Means, Shape, NoneFinished;
      y := p;
      r := Ok;
      ghost var s := S();
      LaterSame(s);
      if p.key.Some? {
        var k;
        r, k := CopyoutString(p.key.value);
        if !r.Ok? {
          return;
        }
        y := y.(key := Some(k));
      }
      ghost var s2 := S();
      var c;
      r, c := CopyoutZval(p.val, v);
      if r.Ok? {
        PairShape(From(), memo, s2.done, To(), p, y, c, v, s2, S());
        LaterStill(s, s2, S());
        y := y.(val := c);
      }
    }
  }

  /** A value copied in by a process that has the segment at one address, and out by a process that
      has it at another, means what the source slot means, and paths inside it meet in one table exactly
      where they do in the source.  It fails only where one of the two allocators refuses. */
  method RoundTrip(src: Memory, z: Zval, ghost v: Value, writerBase: nat, readerBase: nat,
                   segment: Memory -> nat, private: Memory -> nat)
    returns (ok: bool, cells: Memory, heap: Memory, c: Zval)
    requires OwnData(src) && Means(src, false, z, v)
    requires forall m {:trigger segment(m)} :: segment(m) == 0 || segment(m) !in m
    requires forall m {:trigger private(m)} :: private(m) == 0 || private(m) !in m
    ensures ok ==> Means(heap, false, c, v) && SameSharing(src, false, z, heap, false, c)
    ensures !ok ==> segment(cells) == 0 || private(heap) == 0
    ensures ((forall m {:trigger segment(m)} :: segment(m) != 0)
              && (forall m {:trigger private(m)} :: private(m) != 0)) ==> ok
  {
    hide Means, OwnData, SameTable;
    var writer := new CopyIn(src, writerBase, segment);
    var r, root := writer.CopyinValue(z, v);
    cells := writer.cells;
    if !r.Ok? {
      return false, cells, map[], z;
    }
    var reader := new CopyOut(cells, readerBase, private);
    var r2;
    r2, c := reader.CopyoutValue(root, v);
    ok, heap := r2.Ok?, reader.heap;
  }
}
