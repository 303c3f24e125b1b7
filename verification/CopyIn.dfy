/** Copying a PHP value into the segment. */
module CopyIns {
  import opened Basics
  import opened DeepCopy
  import opened Copying
  import H = HashCompact

  // NullData: the code goes on with a null data area (wincache_zvcache.c:715-719 does not look
  // at the result of the allocation).
  datatype Result = Ok | OutOfMemory | NullData

  /** A hashed table with entries that is copied whole: the one case in which copyin_hashtable does not
      look at whether its data area was allocated. */
  ghost predicate Unchecked(src: Memory, t: nat)
    requires IsTable(src, t)
  {
    !src[t].packed && |Buckets(src, t)| > 0 && !H.Sparse(|Buckets(src, t)|, src[t].hashSize)
  }

  class CopyIn {
    // The memory of the copying process, and where it has the segment mapped.
    const src: Memory
    const base: nat
    // The allocator: the offset it hands out when these cells are allocated, 0 when it refuses.
    const place: Memory -> nat
    var cells: Memory
    // The hash table WCG(zvcopied): source address to pointer.
    var memo: map<nat, nat>
    ghost var done: Memory
    ghost var open: set<nat>
    ghost var origin: map<nat, nat>

    ghost function S(): State
      reads this
    {
      State(cells, memo, done, open, origin)
    }

    ghost function J(): Job {
      Job(src, false, 0, base)
    }

    ghost function From(): Side {
      J().From()
    }

    ghost function To(): Side
      reads this
    {
      J().To(done)
    }

    ghost predicate Valid()
      reads this
    {
      && Good(J(), S()) && OwnData(src)
      && forall m {:trigger place(m)} :: place(m) == 0 || place(m) !in m
    }

    constructor (src: Memory, base: nat, place: Memory -> nat)
      requires OwnData(src) && forall m {:trigger place(m)} :: place(m) == 0 || place(m) !in m
      ensures Valid() && cells == map[] && memo == map[] && open == {}
      ensures this.src == src && this.base == base && this.place == place
    {
      this.src, this.base, this.place := src, base, place;
      cells, memo, done, open, origin := map[], map[], map[], {}, map[];
    }

    method Malloc(c: Cell) returns (p: nat)
      requires forall m {:trigger place(m)} :: place(m) == 0 || place(m) !in m
      modifies this`cells
      ensures p == 0 <==> place(old(cells)) == 0
      ensures p == 0 ==> cells == old(cells)
      ensures p != 0 ==> p > base && p - base !in old(cells) && cells == old(cells)[p - base := c]
    {
      var off := place(cells);
      if off == 0 {
        return 0;
      }
      p := base + off;
      cells := cells[off := c];
    }

    /** copyin_memory: an address copied before is not copied again. */
    method CopyinMemory(addr: nat) returns (r: Result, p: nat, made: bool)
      requires addr in src
      requires forall m {:trigger place(m)} :: place(m) == 0 || place(m) !in m
      modifies this`cells, this`memo, this`origin
      ensures r.Ok? || r.OutOfMemory?
      ensures made <==> r.Ok? && addr !in old(memo)
      ensures r.OutOfMemory? <==> addr !in old(memo) && place(old(cells)) == 0
      ensures !r.Ok? ==> S() == old(S())
      ensures r.Ok? ==> addr in memo && p == memo[addr]
      ensures r.Ok? && !made ==> S() == old(S())
      ensures made ==> p > base && p - base !in old(cells) && S() == Copied(J(), old(S()), addr, p - base)
    {
      made := false;
      if addr in memo {
        return Ok, memo[addr], false;
      }
      p := Malloc(src[addr]);
      if p == 0 {
        return OutOfMemory, 0, false;
      }
      made := true;
      memo := memo[addr := p];
      origin := origin[p - base := addr];
      r := Ok;
    }

    /** copyin_string. */
    method CopyinString(addr: nat) returns (r: Result, p: nat)
      requires Valid() && addr in src && src[addr].StrCell?
      modifies this
      ensures r.Ok? || r.OutOfMemory?
      ensures !r.Ok? ==> place(cells) == 0
      ensures r.Ok? ==> Valid() && Later(old(S()), S())
      ensures r.Ok? ==> p >= base && IsStr(done, p - base, src[addr].s)
    {
      hide Graph, Once, Untouched, OwnData;
      ghost var s := S();
      var made;
      r, p, made := CopyinMemory(addr);
      if made {
        StringCopied(J(), s, addr, p - base);
        done := done[p - base := src[addr]];
      }
    }

    /** copyin_zval for the value of an entry: a slot of its own, then its contents.  The copy succeeds
        unless the allocator refuses something, and then the cached slot means what the source slot means. */
    method CopyinValue(z: Zval, ghost v: Value) returns (r: Result, root: nat)
      requires Valid() && open == {} && Means(src, false, z, v)
      modifies this
      ensures !r.Ok? ==> place(cells) == 0
      ensures r.Ok? ==> Valid() && open == {}
      ensures r.Ok? ==> root in cells && cells[root].ZvalCell? && Means(cells, true, cells[root].zv, v)
      ensures r.Ok? ==> Shape(From(), memo, To(), z, cells[root].zv)
      ensures r.Ok? ==> SameSharing(src, false, z, cells, true, cells[root].zv)
    {
      hide Good, OwnData, Later, Means, Shape, SameSharing;
      ghost var s := S();
      root := Malloc(ZvalCell(z));
      if root == 0 {
        return OutOfMemory, 0;
      }
      CellAdded(J(), s, root - base, ZvalCell(z));
      NewCell(J(), s, root - base, ZvalCell(z));
      ghost var s2 := S();
      var c;
      r, c := CopyinZval(z, v);
      if !r.Ok? {
        return;
      }
      root := root - base;
      StillOpen(J(), s2, S(), root);
      StaysOpen(s2, S());
      CellWritten(J(), S(), root, ZvalCell(c));
      cells := cells[root := ZvalCell(c)];
      CopyMeans(J(), S(), z, c, v);
      SharingKept(J(), S(), z, c, v);
    }

    /** copyin_zval on a slot that is already in place: what the slot becomes. */
    method CopyinZval(z: Zval, ghost v: Value) returns (r: Result, c: Zval)
      requires Valid() && Means(src, false, z, v)
      modifies this
      ensures r.Ok? ==> Valid() && Later(old(S()), S()) && Shape(From(), memo, To(), z, c)
      ensures !r.Ok? ==> place(cells) == 0
      decreases v, 3
    {
      hide Good, OwnData, Later, GoodIndex;
      c := z;
      r := Ok;
      match z
      case Str(ptr) =>
        var p;
        r, p := CopyinString(ptr);
        if r.Ok? {
          c := Str(p - base);
        }
      case Arr(ptr) =>
        r, c := CopyinArray(ptr, v);
      case _ =>
        LaterSame(S());
    }

    /** The array case: a tracker for this occurrence, then the table. */
    method CopyinArray(addr: nat, ghost v: Value) returns (r: Result, c: Zval)
      requires Valid() && v.VArray? && TableMeans(src, false, addr, v)
      modifies this
      ensures r.Ok? ==>
                Valid() && Later(old(S()), S()) && Shape(From(), memo, To(), Arr(addr), c)
      ensures !r.Ok? ==> place(cells) == 0
      decreases v, 2
    {
      hide Good, OwnData, TableMeans, Later;
      c := Arr(addr);
      ghost var s := S();
      var tracker := Malloc(TrackerCell(0));
      if tracker == 0 {
        return OutOfMemory, c;
      }
      CellAdded(J(), s, tracker - base, TrackerCell(0));
      var p;
      r, p := CopyinHashtable(addr, v);
      if !r.Ok? {
        return;
      }
      ghost var s2 := S();
      cells := cells[tracker - base := TrackerCell(p - base)];
      done := done[tracker - base := TrackerCell(p - base)];
      c := Arr(tracker - base);
      TrackerKept(J(), s, s2, tracker - base, TrackerCell(p - base));
      CellWritten(J(), s2, tracker - base, TrackerCell(p - base));
    }

    /** copyin_hashtable: a table seen before is not copied again. */
    method CopyinHashtable(addr: nat, ghost v: Value) returns (r: Result, p: nat)
      requires Valid() && v.VArray? && TableMeans(src, false, addr, v)
      modifies this
      ensures r.Ok? ==>
                Valid() && Later(old(S()), S()) && addr in memo && memo[addr] == p >= base
      ensures !r.Ok? ==> place(cells) == 0
      decreases v, 1
    {
      hide Good, OwnData, TableMeans, Later;
      ghost var s := S();
      TableMeant(src, false, addr, v);
      var made;
      r, p, made := CopyinMemory(addr);
      if made {
        r := FillNew(addr, p - base, v, s);
      } else if r.Ok? {
        LaterSame(s);
        InMemo(J(), s, addr);
      }
    }

    /** The rest of copyin_hashtable, when the table was not seen before. */
    method FillNew(addr: nat, toff: nat, ghost v: Value, ghost s: State) returns (r: Result)
      requires OwnData(src) && forall m {:trigger place(m)} :: place(m) == 0 || place(m) !in m
      requires Good(J(), s) && v.VArray? && TableMeans(src, false, addr, v) && addr in src
      requires addr !in s.memo && toff !in s.cells && S() == Copied(J(), s, addr, toff)
      modifies this
      ensures r.Ok? ==> Valid() && Later(s, S()) && addr in memo && memo[addr] == base + toff
      ensures !r.Ok? ==> place(cells) == 0
      decreases v, 0, 3
    {
      hide Good, OwnData, TableMeans, LaterBut, Later, TableShape;
      TableMeant(src, false, addr, v);
      TableCopied(J(), s, addr, toff);
      FirstTime(J(), s, addr, toff);
      open := open + {addr};
      r := Ok;
      if src[addr].init {
        r := FillTable(addr, toff, v);
      } else {
        FillEmpty(addr, toff);
      }
      if r.Ok? {
        TableClosed(J(), s, S(), addr, toff);
        open := open - {addr};
      }
    }

    /** A table that was never initialised has no data area. */
    method FillEmpty(addr: nat, toff: nat)
      requires Valid() && IsTable(src, addr) && !src[addr].init
      requires addr in open && addr in memo && memo[addr] == base + toff && toff in cells && toff !in done
               && cells[toff] == src[addr]
      modifies this
      ensures Valid() && LaterBut(old(S()), S(), {toff})
              && TableShape(From(), memo, To(), addr)
    {
      hide Good, OwnData;
      CellWritten(J(), S(), toff, src[addr].(data := 0));
      cells := cells[toff := src[addr].(data := 0)];
      done := done[toff := src[addr].(data := 0)];
    }

    /** The data area, its keys and its values. */
    method FillTable(addr: nat, toff: nat, ghost v: Value) returns (r: Result)
      requires Valid() && v.VArray? && TableMeans(src, false, addr, v) && src[addr].init && src[addr].data !in memo
      requires addr in open && addr in memo && memo[addr] == base + toff && toff in cells && toff !in done
               && cells[toff] == src[addr]
      modifies this
      ensures !r.Ok? ==> place(cells) == 0
      ensures r.Ok? ==> Good(J(), S()) && LaterBut(old(S()), S(), {toff})
      ensures r.Ok? ==> toff in cells && toff in done && TableShape(From(), memo, To(), addr)
      decreases v, 0, 2
    {
      hide Good, OwnData, TableMeans, LaterBut, Later, GoodIndex, BucketShapes;
      ghost var s := S();
      TableMeant(src, false, addr, v);
      var ptemp, hashSize;
      r, ptemp, hashSize := CopyData(addr);
      if !r.Ok? {
        return;
      }
      ghost var s2, doff, t := S(), ptemp - base, src[addr].(hashSize := hashSize, data := ptemp);
      StillOpen(J(), s, s2, toff);
      CellWritten(J(), s2, toff, t);
      cells := cells[toff := cells[toff].(hashSize := hashSize, data := ptemp)];
      ghost var s3 := S();
      r := CopyBuckets(addr, ptemp - base, src[addr].packed, hashSize, v);
      if !r.Ok? {
        return;
      }
      ghost var s4 := S();
      FilledLater(s, s2, s3, s4, toff, doff, t);
      FilledGood(J(), s4, toff, doff, t.(data := doff));
      TableFilled(J(), s4, addr, toff, doff, t.(data := doff));
      cells := cells[toff := cells[toff].(data := ptemp - base)];
      done := done[toff := cells[toff]][doff := cells[doff]];
    }

    /** Keys and values, bucket by bucket; unused buckets are left alone. */
    method CopyBuckets(addr: nat, doff: nat, ghost packed: bool, ghost hashSize: nat, ghost v: Value)
      returns (r: Result)
      requires Valid() && v.VArray? && TableMeans(src, false, addr, v) && src[addr].init
      requires doff in cells && doff !in done && cells[doff].DataCell?
               && Moved(Buckets(src, addr), cells[doff].buckets, 0)
      requires GoodIndex(packed, hashSize, cells[doff])
      modifies this
      ensures !r.Ok? ==> place(cells) == 0
      ensures r.Ok? ==> Valid() && LaterBut(old(S()), S(), {doff})
      ensures r.Ok? ==>
                doff in cells && doff !in done && cells[doff].DataCell? && GoodIndex(packed, hashSize, cells[doff])
      ensures r.Ok? ==> BucketShapes(From(), memo, To(), Buckets(src, addr), cells[doff].buckets)
      decreases v, 0, 1
    {
      hide Good, OwnData, TableMeans, LaterBut, Later, GoodIndex, BucketShapes, Halfway, Moved;
      r := Ok;
      ghost var s, d0 := S(), cells[doff];
      LaterSame(s);
      LaterIs(s, s, {doff});
      TableMeant(src, false, addr, v);
      HalfwayStart(From(), memo, To(), Buckets(src, addr), d0.buckets);
      for idx := 0 to |src[src[addr].data].buckets|
        invariant r.Ok? && Valid() && LaterBut(s, S(), {doff})
        invariant doff in cells && doff !in done && cells[doff].DataCell? && cells[doff].hash == d0.hash
        invariant Halfway(From(), memo, To(), Buckets(src, addr), d0.buckets, cells[doff].buckets, idx)
      {
        r := CopyBucket(addr, doff, idx, d0.buckets, v, s);
        if !r.Ok? {
          return;
        }
      }
      HalfwayEnd(From(), memo, To(), Buckets(src, addr), d0, cells[doff], packed, hashSize);
    }

    /** One bucket of the table at addr, in place. */
    method CopyBucket(addr: nat, doff: nat, idx: nat, ghost ys: seq<Bucket>, ghost v: Value, ghost s: State)
      returns (r: Result)
      requires Valid() && v.VArray? && TableMeans(src, false, addr, v) && idx < |Buckets(src, addr)|
      requires doff in cells && doff !in done && cells[doff].DataCell? && LaterBut(s, S(), {doff})
      requires Halfway(From(), memo, To(), Buckets(src, addr), ys, cells[doff].buckets, idx)
      modifies this
      ensures !r.Ok? ==> place(cells) == 0
      ensures r.Ok? ==> Valid() && LaterBut(s, S(), {doff})
      ensures r.Ok? ==>
                doff in cells && doff !in done && cells[doff].DataCell? && cells[doff].hash == old(cells)[doff].hash
      ensures r.Ok? ==> Halfway(From(), memo, To(), Buckets(src, addr), ys, cells[doff].buckets, idx + 1)
      decreases v, 0, 0
    {
      hide Good, OwnData, LaterBut, Later, Halfway, Means, KeyMeans, GoodIndex, BucketShape;
      ghost var s2, xs := S(), Buckets(src, addr);
      HalfwayAt(From(), memo, To(), xs, ys, cells[doff].buckets, idx);
      var d := cells[doff];
      var p := d.buckets[idx];
      ghost var slot := v.slots[idx];
      if p.val.Undef? {
        UnusedShape(From(), memo, To(), p);
        HalfwayStep(From(), memo, memo, To(), To(), xs, ys, d.buckets, idx, p);
        assert d.buckets[idx := p] == d.buckets;
        return Ok;
      }
      if slot.Hole? {
        assert false;
      }
      var y;
      r, y := CopyPair(p, slot.key, slot.val);
      if !r.Ok? {
        return;
      }
      ghost var s3 := S();
      CopiedPair(J(), s, s2, s3, doff, DataCell(d.hash, d.buckets[idx := y]));
      HalfwayStep(From(), s2.memo, memo, Side(s2.done, true, base), To(), xs, ys, d.buckets, idx, y);
      cells := cells[doff := DataCell(d.hash, d.buckets[idx := y])];
    }

    /** The key string and the value of one bucket. */
    method CopyPair(p: Bucket, ghost key: Option<string>, ghost v: Value) returns (r: Result, y: Bucket)
      requires Valid() && KeyMeans(src, p.key, key) && Means(src, false, p.val, v)
      modifies this
      ensures !r.Ok? ==> place(cells) == 0
      ensures r.Ok? ==> Valid() && Later(old(S()), S())
      ensures r.Ok? ==> BucketShape(From(), memo, To(), p, y) && y.next == p.next
      decreases v, 4
    {
      hide Good, OwnData, LaterBut, Later, Means, Shape, NoneFinished;
      y := p;
      r := Ok;
      ghost var s := S();
      LaterSame(s);
      if p.key.Some? {
        var pzstr;
        r, pzstr := CopyinString(p.key.value);
        if !r.Ok? {
          return;
        }
        y := y.(key := Some(pzstr - base));
      }
      ghost var s2 := S();
      var c;
      r, c := CopyinZval(p.val, v);
      if r.Ok? {
        PairShape(From(), memo, s2.done, To(), p, y, c, v, s2, S());
        LaterStill(s, s2, S());
        y := y.(val := c);
      }
    }

    /** The data area is copied whole, or compacted when the table is sparse. */
    method CopyData(addr: nat) returns (r: Result, ptemp: nat, hashSize: nat)
      requires Valid() && IsTable(src, addr) && src[addr].init && src[addr].data !in memo && addr in memo
               && GoodIndex(src[addr].packed, src[addr].hashSize, src[src[addr].data])
      modifies this
      ensures !r.Ok? <==> place(old(cells)) == 0
      ensures r.NullData? <==> place(old(cells)) == 0 && Unchecked(src, addr)
      ensures !r.Ok? ==> place(cells) == 0
      ensures r.Ok? ==> Valid() && Later(old(S()), S())
      ensures r.Ok? ==>
                ptemp > base && ptemp - base in cells && ptemp - base !in old(cells) && ptemp - base !in old(done)
                && ptemp - base !in done
      ensures r.Ok? ==> cells[ptemp - base].DataCell? && Moved(Buckets(src, addr), cells[ptemp - base].buckets, 0)
      ensures r.Ok? ==> GoodIndex(src[addr].packed, hashSize, cells[ptemp - base])
      ensures r.Ok? ==> Resized(src[addr].packed, |Buckets(src, addr)|, src[addr].hashSize, true, hashSize)
      ensures r.Ok? && hashSize == src[addr].hashSize ==> cells[ptemp - base] == src[src[addr].data]
    {
      hide Good, GoodIndex, OwnData, Entries, Nexts, Later;
      var t, d := src[addr], src[src[addr].data];
      ghost var s := S();
      var made;
      hashSize := t.hashSize;
      if t.packed {
        r, ptemp, made := CopyinMemory(t.data);
      } else if H.Sparse(|d.buckets|, hashSize) {
        var c;
        hashSize, c := CompactData(t, d);
        ptemp := Malloc(c);
        r := if ptemp == 0 then OutOfMemory else Ok;
        if r.Ok? {
          CellAdded(J(), s, ptemp - base, c);
          NewCell(J(), s, ptemp - base, c);
        }
        return;
      } else {
        r, ptemp, made := CopyinMemory(t.data);
        if !r.Ok? {
          r := if |d.buckets| > 0 then NullData else OutOfMemory;
        }
      }
      if r.Ok? {
        NewCopy(J(), s, t.data, ptemp - base);
        DataCopied(J(), s, addr, ptemp - base);
      }
    }

    /** The smaller index of a sparse table, over the same buckets. */
    static method CompactData(t: Cell, d: Cell) returns (hashSize: nat, c: Cell)
      requires t.TableCell? && d.DataCell? && !t.packed && H.Sparse(|d.buckets|, t.hashSize)
               && GoodIndex(t.packed, t.hashSize, d)
      ensures c.DataCell? && Moved(d.buckets, c.buckets, 0) && GoodIndex(t.packed, hashSize, c)
      ensures if |d.buckets| <= H.HT_MIN_SIZE then hashSize
              == H.HT_MIN_SIZE else |d.buckets| < hashSize <= 2 * |d.buckets|
    {
      hide H.IndexOf;
      var hash, next;
      ghost var chains;
      hash, next, chains := H.Compact(Entries(d.buckets), t.hashSize);
      hashSize := hash.Length;
      var hs, ns := hash[..], next[..];
      c := DataCell(hs, seq(|ns|, i requires 0 <= i < |ns| => d.buckets[i].(next := ns[i])));
      assert Nexts(c.buckets) == ns;
      assert Entries(c.buckets) == Entries(d.buckets);
    }
  }

  /** The allocator serves the table and refuses its data area: the code does not notice. */
  method DataRefused() returns (r: Result)
    ensures r.NullData?
  {
    hide Means, Later, Untouched, Mapped, Graph, Strings;
    var b, none := Bucket(Long(5), 0, None, -1), -1;
    var src: Memory := map[1 := TableCell(true, false, 8, 0, 2), 2 := DataCell([0, none, none, none, none, none, none,
          none], [b])];
    SmallIndex(src[2]);
    var writer := new CopyIn(src, 0, m => if m == map[] then 1 else 0);
    ghost var s := writer.S();
    var p, made, ptemp, hashSize;
    r, p, made := writer.CopyinMemory(1);
    assert made && p in writer.cells;
    TableCopied(writer.J(), s, 1, p);
    writer.open := {1};
    assert writer.S() == Copied(writer.J(), s, 1, p).(open := s.open + {writer.J().at + 1});
    r, ptemp, hashSize := writer.CopyData(1);
  }

  lemma SmallIndex(d: Cell)
    requires d.DataCell? && |d.hash| == 8 && d.hash[0] == 0 && forall k {:trigger d.hash[k]} :: 0 < k < 8 ==>
               d.hash[k] == -1
    requires d.buckets == [Bucket(Long(5), 0, None, -1)]
    ensures GoodIndex(false, 8, d)
  {
    var chains: seq<seq<int>> := [[0], [], [], [], [], [], [], []];
    assert H.IndexOf(d.hash, Nexts(d.buckets), Entries(d.buckets), chains);
  }
}
