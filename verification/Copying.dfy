/** The state of a deep copy, in either direction: which addresses have been copied where, and
    which copies are finished. */
module Copying {
  import opened DeepCopy
  import H = HashCompact

  // A copy from the process (at address 0) into the segment mapped at base, or, when the source
  // is cached, from the segment mapped at address at into the process (base 0).
  datatype Job = Job(src: Memory, cached: bool, at: nat, base: nat) {
    ghost function From(): Side {
      Side(src, cached, at)
    }

    ghost function To(m: Memory): Side {
      Side(m, !cached, base)
    }
  }

  // cells: this copy's allocations, by offset.  memo: where each address of the source has gone.  done:
  // the allocations that will not change any more.  open: the addresses of tables still being filled.
  // origin: which table a table is a copy of.
  datatype State = State(cells: Memory, memo: map<nat, nat>, done: Memory, open: set<nat>, origin: map<nat, nat>)

  /** Each source address copied has its own copy, of the same kind. */
  ghost predicate Pointers(j: Job, s: State) {
    forall p {:trigger p in s.memo} :: p in s.memo ==>
      && p >= j.at && p - j.at in j.src && s.memo[p] >= j.base && s.memo[p] - j.base in s.cells
      && s.memo[p] - j.base in s.origin && s.origin[s.memo[p] - j.base] == p
      && (j.src[p - j.at].TableCell? <==> s.cells[s.memo[p] - j.base].TableCell?)
  }

  ghost predicate Strings(j: Job, s: State) {
    forall p {:trigger p in s.memo} ::
      p in s.memo && p >= j.at && p - j.at in j.src && j.src[p - j.at].StrCell? && s.memo[p] >= j.base ==>
      IsStr(s.done, s.memo[p] - j.base, j.src[p - j.at].s)
  }

  /** Every table in the segment was made for one table of the source. */
  ghost predicate Once(j: Job, s: State) {
    forall o {:trigger o in s.cells} :: o in s.cells && s.cells[o].TableCell? ==>
      o in s.origin && s.origin[o] in s.memo && s.memo[s.origin[o]] == j.base + o
  }

  /** The data area of a table not yet copied is not yet copied either. */
  ghost predicate Untouched(j: Job, s: State) {
    forall t {:trigger j.src[t]} :: t in j.src && IsTable(j.src, t) && j.src[t].init && j.at + t !in s.memo ==>
      j.at + j.src[t].data !in s.memo
  }

  /** Parts of Good that look only at which addresses were copied where. */
  ghost predicate Mapped(j: Job, s: State) {
    Pointers(j, s) && Once(j, s)
  }

  ghost predicate Good(j: Job, s: State) {
    && Mapped(j, s) && Sub(s.done, s.cells) && Strings(j, s) && Untouched(j, s) && s.open <= s.memo.Keys
    && Graph(j.From(), s.memo, j.To(s.done), s.open)
  }

  /** s2 comes later than s: nothing that was there has changed. */
  ghost predicate Later(s: State, s2: State) {
    && Sub(s.cells, s2.cells) && Sub(s.memo, s2.memo) && Sub(s.done, s2.done) && s2.open == s.open
    && NoneFinished(s, s2)
  }

  /** What was unfinished in s still is. */
  ghost predicate NoneFinished(s: State, s2: State) {
    forall o {:trigger o in s2.done} :: o in s2.done && o in s.cells ==> o in s.done
  }

  lemma LaterSame(s: State)
    ensures Later(s, s)
  {
  }

  /** The tracker of an array, allocated before the table is copied and written after. */
  lemma TrackerKept(j: Job, s: State, s2: State, off: nat, c: Cell)
    requires Good(j, s) && off !in s.cells && Later(s.(cells := s.cells[off := TrackerCell(0)]), s2)
    ensures off in s2.cells && off !in s2.done && s2.cells[off] == TrackerCell(0)
    ensures Later(s, s2.(cells := s2.cells[off := c], done := s2.done[off := c]))
  {
    hide Mapped, Graph, Strings, Untouched;
    var s1 := s.(cells := s.cells[off := TrackerCell(0)]);
    assert off !in s.done && off in s1.cells;
    forall k | k in s.cells ensures k in s2.cells && s2.cells[k] == s.cells[k] && k != off {
      assert k in s1.cells;
    }
  }

  /** Later, but for the cells at the offsets in but, which were being filled. */
  ghost predicate LaterBut(s: State, s2: State, but: set<nat>) {
    && (forall o {:trigger o in s.cells} {:trigger s.cells[o]} :: o in s.cells && o !in but ==>
          o in s2.cells && s2.cells[o] == s.cells[o])
    && Sub(s.memo, s2.memo) && Sub(s.done, s2.done) && s2.open == s.open
    && forall o {:trigger o in s2.done} :: o in s2.done && o in s.cells && o !in but ==> o in s.done
  }

  lemma LaterThen(s: State, s2: State, s3: State, but: set<nat>, but2: set<nat>)
    requires LaterBut(s, s2, but) && LaterBut(s2, s3, but2)
    requires forall o {:trigger o in but} :: o in but && o in s.cells ==> o in s2.cells
    ensures LaterBut(s, s3, but + but2)
  {
    forall o | o in s3.done && o in s.cells && o !in but + but2 ensures o in s.done {
      assert o in s2.cells;
    }
  }

  lemma LaterWrite(s: State, off: nat, c: Cell)
    ensures LaterBut(s, s.(cells := s.cells[off := c]), {off})
  {
  }

  lemma LaterIs(s: State, s2: State, but: set<nat>)
    requires Later(s, s2)
    ensures LaterBut(s, s2, but)
  {
  }

  /** No two tables share a data area. */
  ghost predicate OwnData(src: Memory) {
    forall t, u {:trigger src[t], src[u]} ::
      && t in src && u in src && src[t].TableCell? && src[u].TableCell? && src[t].init && src[u].init
      && src[t].data == src[u].data
      ==> t == u
  }

  // The state after copyin_memory has copied the cell at addr to offset off.
  ghost function Copied(j: Job, s: State, addr: nat, off: nat): State
    requires addr in j.src
  {
    s.(cells := s.cells[off := j.src[addr]], memo := s.memo[j.at + addr := j.base + off],
       origin := s.origin[off := j.at + addr])
  }

  lemma MappedCopied(j: Job, s: State, addr: nat, off: nat)
    requires Mapped(j, s) && addr in j.src && j.at + addr !in s.memo && off !in s.cells
    ensures Mapped(j, Copied(j, s, addr, off))
  {
  }

  lemma MappedWritten(j: Job, s: State, off: nat, c: Cell)
    requires Mapped(j, s) && if off in s.cells then c.TableCell? <==> s.cells[off].TableCell? else !c.TableCell?
    ensures Mapped(j, s.(cells := s.cells[off := c]))
  {
  }

  /** Pointers and Once do not look at what is done or open. */
  lemma MappedAnyway(j: Job, s: State, s2: State)
    requires Mapped(j, s) && s2.cells == s.cells && s2.memo == s.memo && s2.origin == s.origin
    ensures Mapped(j, s2)
  {
  }

  lemma StringCopied(j: Job, s: State, addr: nat, off: nat)
    requires Good(j, s) && addr in j.src && j.at + addr !in s.memo && off !in s.cells && j.src[addr].StrCell?
    ensures var s2 := Copied(j, s, addr, off).(done := s.done[off := j.src[addr]]); Good(j, s2) && Later(s, s2)
  {
    hide Graph, Mapped;
    MappedCopied(j, s, addr, off);
    MappedAnyway(j, Copied(j, s, addr, off), Copied(j, s, addr, off).(done := s.done[off := j.src[addr]]));
    var s2 := Copied(j, s, addr, off).(done := s.done[off := j.src[addr]]);
    assert off !in s.done;
    GraphKept(j.From(), s.memo, s2.memo, j.To(s.done), j.To(s2.done), s.open, s2.open);
  }

  lemma TableCopied(j: Job, s: State, addr: nat, off: nat)
    requires Good(j, s) && addr in j.src && j.at + addr !in s.memo && off !in s.cells && j.src[addr].TableCell?
    ensures Good(j, Copied(j, s, addr, off).(open := s.open + {j.at + addr}))
  {
    hide Graph, Mapped;
    MappedCopied(j, s, addr, off);
    MappedAnyway(j, Copied(j, s, addr, off), Copied(j, s, addr, off).(open := s.open + {j.at + addr}));
    var s2 := Copied(j, s, addr, off).(open := s.open + {j.at + addr});
    GraphKept(j.From(), s.memo, s2.memo, j.To(s.done), j.To(s2.done), s.open, s2.open);
    forall t | t in j.src && IsTable(j.src, t) && j.src[t].init && j.at + t !in s2.memo
      ensures j.at + j.src[t].data !in s2.memo
    {
      assert j.at + t !in s.memo;
    }
  }

  lemma DataCopied(j: Job, s: State, t: nat, off: nat)
    requires Good(j, s) && OwnData(j.src) && IsTable(j.src, t) && j.src[t].init && j.at + t in s.memo
             && j.at + j.src[t].data !in s.memo && off !in s.cells
    ensures Good(j, Copied(j, s, j.src[t].data, off))
  {
    hide Graph, Mapped;
    MappedCopied(j, s, j.src[t].data, off);
    var s2 := Copied(j, s, j.src[t].data, off);
    GraphKept(j.From(), s.memo, s2.memo, j.To(s.done), j.To(s2.done), s.open, s2.open);
    forall u | u in j.src && IsTable(j.src, u) && j.src[u].init && j.at + u !in s2.memo
      ensures j.at + j.src[u].data !in s2.memo
    {
      assert j.at + u !in s.memo;
    }
  }

  /** An allocation that no source address stands for: a tracker, or the data area of a compacted table. */
  lemma CellAdded(j: Job, s: State, off: nat, c: Cell)
    requires Good(j, s) && off !in s.cells && !c.TableCell?
    ensures Good(j, s.(cells := s.cells[off := c]))
    ensures Good(j, s.(cells := s.cells[off := c], done := s.done[off := c]))
  {
    hide Graph, Mapped;
    MappedWritten(j, s, off, c);
    MappedAnyway(j, s.(cells := s.cells[off := c]), s.(cells := s.cells[off := c], done := s.done[off := c]));
    GraphKept(j.From(), s.memo, s.memo, j.To(s.done), j.To(s.done[off := c]), s.open, s.open);
  }

  /** A write to an allocation that is not finished. */
  lemma CellWritten(j: Job, s: State, off: nat, c: Cell)
    requires Good(j, s) && off in s.cells && off !in s.done && (c.TableCell? <==> s.cells[off].TableCell?)
    ensures Good(j, s.(cells := s.cells[off := c]))
    ensures Good(j, s.(cells := s.cells[off := c], done := s.done[off := c]))
  {
    hide Graph, Mapped;
    MappedWritten(j, s, off, c);
    MappedAnyway(j, s.(cells := s.cells[off := c]), s.(cells := s.cells[off := c], done := s.done[off := c]));
    GraphKept(j.From(), s.memo, s.memo, j.To(s.done), j.To(s.done[off := c]), s.open, s.open);
  }

  /** The table copied for addr is finished. */
  lemma TableDone(j: Job, s: State, addr: nat, done: Memory)
    requires Good(j, s) && j.at + addr in s.open && Sub(s.done, done) && Sub(done, s.cells)
    requires TableShape(j.From(), s.memo, j.To(done), addr)
    ensures Good(j, s.(done := done, open := s.open - {j.at + addr}))
  {
    hide TableShape, Mapped;
    MappedAnyway(j, s, s.(done := done, open := s.open - {j.at + addr}));
    var a, b := j.From(), j.To(done);
    forall p | p in s.memo && p !in s.open - {j.at + addr} && p >= j.at && p - j.at in j.src
      && j.src[p - j.at].TableCell?
      ensures TableShape(a, s.memo, b, p - j.at)
    {
      if p != j.at + addr {
        TableKept(a, s.memo, s.memo, j.To(s.done), b, p - j.at);
      }
    }
  }

  lemma NewCell(j: Job, s: State, off: nat, c: Cell)
    requires Good(j, s) && off !in s.cells
    ensures off !in s.done && Later(s, s.(cells := s.cells[off := c]))
  {
  }

  lemma NewDone(j: Job, s: State, off: nat, c: Cell)
    requires Good(j, s) && off !in s.cells
    ensures off !in s.done && Later(s, s.(cells := s.cells[off := c], done := s.done[off := c]))
  {
  }

  lemma NewCopy(j: Job, s: State, addr: nat, off: nat)
    requires Good(j, s) && off !in s.cells && addr in j.src && j.at + addr !in s.memo
    ensures off !in s.done && Later(s, Copied(j, s, addr, off))
  {
  }

  /** A table copied for the first time: its data area has not been copied. */
  lemma FirstTime(j: Job, s: State, addr: nat, off: nat)
    requires Good(j, s) && IsTable(j.src, addr) && j.at + addr !in s.memo && off !in s.cells
    ensures j.src[addr].init ==> j.at + j.src[addr].data !in Copied(j, s, addr, off).memo
    ensures off !in s.done && j.at + addr !in s.open
  {
  }

  lemma InMemo(j: Job, s: State, addr: nat)
    requires Good(j, s) && j.at + addr in s.memo
    ensures s.memo[j.at + addr] >= j.base
  {
  }

  ghost predicate BucketShapes(a: Side, memo: map<nat, nat>, b: Side, xs: seq<Bucket>, ys: seq<Bucket>) {
    && |ys| == |xs|
    && forall i {:trigger xs[i]} {:trigger ys[i]} :: 0 <= i < |xs| ==> BucketShape(a, memo, b, xs[i], ys[i])
  }

  lemma StillOpen(j: Job, s: State, s2: State, off: nat)
    requires Later(s, s2) && off in s.cells && off !in s.done
    ensures off in s2.cells && off !in s2.done && s2.cells[off] == s.cells[off]
  {
  }

  lemma StaysOpen(s: State, s2: State)
    requires Later(s, s2)
    ensures s2.open == s.open
  {
  }

  // The state once a table and its data area are written.
  ghost function Filled(s: State, toff: nat, doff: nat, t: Cell): State
    requires doff in s.cells
  {
    s.(cells := s.cells[toff := t], done := s.done[toff := t][doff := s.cells[doff]])
  }

  lemma FilledLater(s: State, s2: State, s3: State, s4: State, toff: nat, doff: nat, t: Cell)
    requires toff in s.cells && toff !in s.done && doff !in s.cells && doff !in s.done && doff in s2.cells
             && t.TableCell?
    requires Later(s, s2) && s3 == s2.(cells := s2.cells[toff := t]) && LaterBut(s3, s4, {doff}) && doff in s4.cells
    ensures toff in s4.cells && toff !in s4.done && s4.cells[toff] == t && Sub(s.memo, s4.memo)
    ensures LaterBut(s, Filled(s4, toff, doff, t.(data := doff)), {toff})
  {
    assert toff in s3.cells && toff != doff;
    assert toff !in s2.done;
    var s5 := Filled(s4, toff, doff, t.(data := doff));
    forall o | o in s.cells && o != toff ensures o in s5.cells && s5.cells[o] == s.cells[o] {
      assert o in s2.cells && o in s3.cells && o != doff;
    }
    forall p | p in s.memo ensures p in s5.memo && s5.memo[p] == s.memo[p] {
      assert p in s2.memo;
    }
    forall o | o in s.done ensures o in s5.done && s5.done[o] == s.done[o] {
      assert o in s2.done && o != toff;
      assert o in s4.done;
    }
  }

  lemma FilledGood(j: Job, s: State, toff: nat, doff: nat, t: Cell)
    requires Good(j, s) && toff in s.cells && toff !in s.done && doff in s.cells && doff !in s.done && toff != doff
    requires t.TableCell? && s.cells[toff].TableCell? && s.cells[doff].DataCell?
    ensures Good(j, Filled(s, toff, doff, t))
  {
    hide Good;
    CellWritten(j, s, toff, t);
    var s2 := s.(cells := s.cells[toff := t], done := s.done[toff := t]);
    CellWritten(j, s2, doff, s.cells[doff]);
    assert s2.(cells := s2.cells[doff := s.cells[doff]], done := s2.done[doff := s.cells[doff]])
           == Filled(s, toff, doff, t);
  }

  lemma TableFilled(j: Job, s: State, addr: nat, toff: nat, doff: nat, t: Cell)
    requires IsTable(j.src, addr) && j.at + addr in s.memo && s.memo[j.at + addr] == j.base + toff && toff !in s.done
             && doff in s.cells && doff !in s.done && toff != doff
    requires t.TableCell? && s.cells[doff].DataCell? && t.data == doff && t.init && j.src[addr].init
             && t.packed == j.src[addr].packed && t.nextFree == j.src[addr].nextFree
    requires GoodIndex(t.packed, t.hashSize, s.cells[doff])
    requires Resized(t.packed, |Buckets(j.src, addr)|, j.src[addr].hashSize, j.To(s.done).cached, t.hashSize)
    requires BucketShapes(j.From(), s.memo, j.To(s.done), Buckets(j.src, addr), s.cells[doff].buckets)
    ensures TableShape(j.From(), s.memo, j.To(Filled(s, toff, doff, t).done), addr)
  {
    hide BucketShape, GoodIndex;
    var a, b, b2 := j.From(), j.To(s.done), j.To(Filled(s, toff, doff, t).done);
    var xs, ys := Buckets(j.src, addr), s.cells[doff].buckets;
    assert Buckets(b2.mem, toff) == ys;
    forall i | 0 <= i < |xs| ensures BucketShape(a, s.memo, b2, xs[i], ys[i]) {
      BucketKept(a, s.memo, s.memo, b, b2, xs[i], ys[i]);
    }
  }

  /** The data area when the first n buckets are copied: the rest is as memcpy left it, and what the
      index looks at is as it was. */
  ghost predicate Halfway(a: Side, memo: map<nat, nat>, b: Side, xs: seq<Bucket>, ys0: seq<Bucket>, ys: seq<Bucket>,
                          n: nat)
  {
    && Moved(xs, ys, n) && n <= |xs|
    && (forall i {:trigger xs[i]} {:trigger ys[i]} :: 0 <= i < n ==> BucketShape(a, memo, b, xs[i], ys[i]))
    && |ys0| == |ys| && forall i {:trigger ys[i]} :: 0 <= i < |ys| ==> SameLinks(ys0[i], ys[i])
  }

  ghost predicate SameLinks(x: Bucket, y: Bucket) {
    x.h == y.h && x.next == y.next && (x.val.Undef? <==> y.val.Undef?)
  }

  lemma HalfwayAt(a: Side, memo: map<nat, nat>, b: Side, xs: seq<Bucket>, ys0: seq<Bucket>, ys: seq<Bucket>, n: nat)
    requires Halfway(a, memo, b, xs, ys0, ys, n) && n < |xs|
    ensures n < |ys| && ys[n] == xs[n].(next := ys[n].next)
  {
  }

  lemma UnusedShape(a: Side, memo: map<nat, nat>, b: Side, x: Bucket)
    requires x.val.Undef?
    ensures BucketShape(a, memo, b, x, x)
  {
  }

  /** A pair copied: its key first, its value later. */
  lemma PairShape(a: Side, memo: map<nat, nat>, done: Memory, b: Side, x: Bucket, y: Bucket, c: Zval, v: Value,
                  s: State, s2: State)
    requires Later(s, s2) && done == s.done && b.mem == s2.done && y == x.(key := y.key)
    requires Means(a.mem, a.cached, x.val, v) && KeyShape(a.mem, done, x.key, y.key) && Shape(a, memo, b, x.val, c)
    ensures BucketShape(a, memo, b, x, y.(val := c))
  {
    NotUnused(a.mem, a.cached, x.val, v);
    if x.key.Some? {
      assert y.key.value in done;
    }
  }

  lemma CopiedPair(j: Job, s: State, s2: State, s3: State, doff: nat, c: Cell)
    requires LaterBut(s, s2, {doff}) && doff in s2.cells && doff !in s2.done && s2.cells[doff].DataCell? && c.DataCell?
    requires Later(s2, s3) && Good(j, s3)
    ensures doff in s3.cells && doff !in s3.done && Good(j, s3.(cells := s3.cells[doff := c]))
    ensures LaterBut(s, s3.(cells := s3.cells[doff := c]), {doff}) && Sub(s2.memo, s3.memo) && Sub(s2.done, s3.done)
  {
    hide Good, LaterBut;
    LaterIs(s2, s3, {doff});
    LaterThen(s, s2, s3, {doff}, {doff});
    CellWritten(j, s3, doff, c);
    LaterWrite(s3, doff, c);
    LaterThen(s, s3, s3.(cells := s3.cells[doff := c]), {doff}, {doff});
    assert {doff} + {doff} == {doff};
  }

  lemma LaterStill(s: State, s2: State, s3: State)
    requires Later(s, s2) && Later(s2, s3)
    ensures Later(s, s3)
  {
    forall o | o in s3.done && o in s.cells ensures o in s.done {
      assert o in s2.cells;
    }
  }

  lemma HalfwayStart(a: Side, memo: map<nat, nat>, b: Side, xs: seq<Bucket>, ys: seq<Bucket>)
    requires Moved(xs, ys, 0)
    ensures Halfway(a, memo, b, xs, ys, ys, 0)
  {
  }

  lemma HalfwayStep(a: Side, memo: map<nat, nat>, memo2: map<nat, nat>, b: Side, b2: Side,
                    xs: seq<Bucket>, ys0: seq<Bucket>, ys: seq<Bucket>, n: nat, y: Bucket)
    requires Halfway(a, memo, b, xs, ys0, ys, n) && n < |xs|
    requires Sub(memo, memo2) && Sub(b.mem, b2.mem) && b2.base == b.base && b2.cached == b.cached
    requires BucketShape(a, memo2, b2, ys[n], y) && y.next == ys[n].next
    ensures Halfway(a, memo2, b2, xs, ys0, ys[n := y], n + 1)
  {
    hide Sub, Shape, KeyShape;
    var zs := ys[n := y];
    forall i | 0 <= i < n + 1 ensures BucketShape(a, memo2, b2, xs[i], zs[i]) {
      if i < n {
        BucketKept(a, memo, memo2, b, b2, xs[i], ys[i]);
      }
    }
    assert SameLinks(ys0[n], ys[n]);
  }

  lemma HalfwayEnd(a: Side, memo: map<nat, nat>, b: Side, xs: seq<Bucket>, d0: Cell, d: Cell, packed: bool,
                   hashSize: nat)
    requires d0.DataCell? && d.DataCell? && d.hash == d0.hash && Halfway(a, memo, b, xs, d0.buckets, d.buckets, |xs|)
    requires GoodIndex(packed, hashSize, d0)
    ensures BucketShapes(a, memo, b, xs, d.buckets) && GoodIndex(packed, hashSize, d)
  {
    hide H.IndexOf, BucketShape, H.PowerOfTwo;
    if !packed {
      var chains :| H.IndexOf(d0.hash, Nexts(d0.buckets), Entries(d0.buckets), chains);
      assert forall i {:trigger d.buckets[i]} :: 0 <= i < |d.buckets| ==> SameLinks(d0.buckets[i], d.buckets[i]);
      assert Nexts(d.buckets) == Nexts(d0.buckets);
      H.IndexIgnoresKeys(d0.hash, Nexts(d0.buckets), Entries(d0.buckets), Entries(d.buckets), chains);
    }
  }

  /** From opening to closing a table. */
  lemma TableClosed(j: Job, s: State, s3: State, addr: nat, off: nat)
    requires Good(j, s) && addr in j.src && j.at + addr !in s.memo && off !in s.cells && j.src[addr].TableCell?
    requires LaterBut(Copied(j, s, addr, off).(open := s.open + {j.at + addr}), s3, {off})
    requires Good(j, s3) && TableShape(j.From(), s3.memo, j.To(s3.done), addr)
    ensures Good(j, s3.(open := s3.open - {j.at + addr})) && Later(s, s3.(open := s3.open - {j.at + addr}))
    ensures j.at + addr in s3.memo && s3.memo[j.at + addr] == j.base + off
  {
    hide TableShape, Graph;
    var s2 := Copied(j, s, addr, off).(open := s.open + {j.at + addr});
    assert Sub(s3.done, s3.cells) && j.at + addr in s3.open;
    TableDone(j, s3, addr, s3.done);
    Between(j, s, s2, s3, addr, off);
  }

  lemma Between(j: Job, s: State, s2: State, s3: State, addr: nat, off: nat)
    requires addr in j.src && j.at + addr !in s.memo && j.at + addr !in s.open && off !in s.cells && off !in s.done
    requires s2 == Copied(j, s, addr, off).(open := s.open + {j.at + addr}) && LaterBut(s2, s3, {off})
    ensures Later(s, s3.(open := s3.open - {j.at + addr})) && j.at + addr in s3.memo
            && s3.memo[j.at + addr] == j.base + off
  {
    forall o | o in s.cells ensures o in s3.cells && s3.cells[o] == s.cells[o] {
      assert o in s2.cells;
    }
    forall p | p in s.memo ensures p in s3.memo && s3.memo[p] == s.memo[p] {
      assert p in s2.memo;
    }
    forall o | o in s3.done && o in s.cells ensures o in s.done {
      assert o in s2.cells;
    }
    assert j.at + addr in s2.memo;
  }

  /** A bucket as memcpy leaves it in the segment: its link in the chain may have been rebuilt. */
  ghost predicate Moved(xs: seq<Bucket>, ys: seq<Bucket>, from: nat) {
    && |ys| == |xs|
    && forall i {:trigger ys[i]} :: from <= i < |xs| ==> ys[i] == xs[i].(next := ys[i].next)
  }

  lemma Unmoved(xs: seq<Bucket>)
    ensures Moved(xs, xs, 0)
  {
  }

  /** Two array slots lead to the same table exactly when their copies do. */
  lemma SharedTables(j: Job, s: State, y: Zval, c: Zval, z: Zval, d: Zval)
    requires Good(j, s) && y.Arr? && z.Arr?
    requires Shape(j.From(), s.memo, j.To(s.done), y, c) && Shape(j.From(), s.memo, j.To(s.done), z, d)
    ensures HasTable(j.src, j.cached, y) && HasTable(j.src, j.cached, z) && HasTable(s.done, !j.cached, c)
            && HasTable(s.done, !j.cached, d)
    ensures TableOf(j.src, j.cached, y) == TableOf(j.src, j.cached, z) <==>
              TableOf(s.done, !j.cached, c) == TableOf(s.done, !j.cached, d)
  {
    hide Graph, Strings, Untouched, Sub;
    var t, u := TableOf(j.src, j.cached, y), TableOf(j.src, j.cached, z);
    assert j.at + t in s.memo && j.at + u in s.memo;
  }

  /** Every table made is the copy of exactly one table of the source. */
  lemma OneSource(j: Job, s: State, o: nat) returns (t: nat)
    requires Good(j, s) && o in s.cells && s.cells[o].TableCell?
    ensures t in j.src && j.src[t].TableCell? && j.at + t in s.memo && s.memo[j.at + t] == j.base + o
    ensures forall p {:trigger s.memo[p]} :: p in s.memo && s.memo[p] == j.base + o ==> p == j.at + t
  {
    hide Graph, Strings, Untouched, Sub;
    t := s.origin[o] - j.at;
  }

  /** A finished copy means what its source means. */
  lemma CopyMeans(j: Job, s: State, z: Zval, c: Zval, v: Value)
    requires Good(j, s) && s.open == {} && Shape(j.From(), s.memo, j.To(s.done), z, c) && Means(j.src, j.cached, z, v)
    ensures Means(s.cells, !j.cached, c, v)
  {
    hide Means, Shape, Graph, Mapped, Strings, Untouched;
    ShapeMeans(j.From(), s.memo, j.To(s.done), z, c, v);
    MeansKept(s.done, s.cells, !j.cached, c, v);
  }

  /** The sharing of tables inside a value is the same in its copy: paths that meet in the source meet
      in the copy, and no others. */
  lemma SharingKept(j: Job, s: State, z: Zval, c: Zval, v: Value)
    requires Good(j, s) && s.open == {} && Shape(j.From(), s.memo, j.To(s.done), z, c) && Means(j.src, j.cached, z, v)
    ensures SameSharing(j.src, j.cached, z, s.cells, !j.cached, c)
  {
    hide Good, Means, Shape, Graph, SameTable;
    var a, b := j.From(), j.To(s.cells);
    InCells(j, s, z, c);
    forall p: seq<nat>, q: seq<nat>
      ensures SameTable(j.src, j.cached, z, p, q) <==> SameTable(s.cells, !j.cached, c, p, q)
    {
      PathShape(a, s.memo, b, z, c, v, p);
      PathShape(a, s.memo, b, z, c, v, q);
      PathsMeet(j, s, z, c, p, q);
    }
  }

  lemma InCells(j: Job, s: State, z: Zval, c: Zval)
    requires Good(j, s) && Shape(j.From(), s.memo, j.To(s.done), z, c)
    ensures Graph(j.From(), s.memo, j.To(s.cells), s.open) && Shape(j.From(), s.memo, j.To(s.cells), z, c)
  {
    hide Graph, Mapped, Strings, Untouched, Shape;
    GraphKept(j.From(), s.memo, s.memo, j.To(s.done), j.To(s.cells), s.open, s.open);
    ShapeKept(j.From(), s.memo, s.memo, j.To(s.done), j.To(s.cells), z, c);
  }

  lemma PathsMeet(j: Job, s: State, z: Zval, c: Zval, p: seq<nat>, q: seq<nat>)
    requires Good(j, s)
    requires var a, b := j.From(), j.To(s.cells);
             && (At(a.mem, a.cached, z, p).Some? <==> At(b.mem, b.cached, c, p).Some?)
             && (At(a.mem, a.cached, z, q).Some? <==> At(b.mem, b.cached, c, q).Some?)
             && (At(a.mem, a.cached, z, p).Some? ==>
                   Shape(a, s.memo, b, At(a.mem, a.cached, z, p).value, At(b.mem, b.cached, c, p).value))
             && (At(a.mem, a.cached, z, q).Some? ==>
                   Shape(a, s.memo, b, At(a.mem, a.cached, z, q).value, At(b.mem, b.cached, c, q).value))
    ensures SameTable(j.src, j.cached, z, p, q) <==> SameTable(s.cells, !j.cached, c, p, q)
  {
    hide Graph, Strings, Untouched, Sub, At;
  }
}
