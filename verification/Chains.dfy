/** The hash table shared by the three caches: an array of bucket heads and, in shared
    memory, entries that carry the offsets of the next and previous entry of their bucket. */
module Chains {
  import opened Basics

  // An entry at some offset: its data and its two links (0 for none).
  datatype Node<T> = Node(data: T, next: nat, prev: nat)

  ghost function NextIn(c: seq<nat>, i: int): nat {
    if 0 <= i + 1 < |c| then c[i + 1] else 0
  }

  ghost function PrevIn(c: seq<nat>, i: int): nat {
    if 0 < i <= |c| then c[i - 1] else 0
  }

  /** Following next from head visits exactly c, and the prev links are inverse. */
  ghost predicate Chained<T>(head: nat, nodes: map<nat, Node<T>>, c: seq<nat>) {
    && head == NextIn(c, -1)
    && Distinct(c)
    && forall i {:trigger c[i]} :: 0 <= i < |c| ==>
         c[i] > 0 && c[i] in nodes && nodes[c[i]].next == NextIn(c, i) && nodes[c[i]].prev == PrevIn(c, i)
  }

  /** c without its element number i. */
  ghost function Without(c: seq<nat>, i: nat): (d: seq<nat>)
    requires i < |c|
    ensures |d| == |c| - 1
  {
    c[..i] + c[i + 1..]
  }

  /** Where off is in c. */
  ghost function Position(c: seq<nat>, off: nat): (i: nat)
    requires off in c
    ensures i < |c| && c[i] == off
  {
    var i :| 0 <= i < |c| && c[i] == off;
    i
  }

  /** Every bucket is chained, and every entry is in the bucket of its data. */
  ghost predicate TableHolds<T(!new)>(heads: seq<nat>, nodes: map<nat, Node<T>>, chains: seq<seq<nat>>,
                                      bucketOf: T -> nat)
  {
    && |heads| == |chains|
    && (forall b {:trigger chains[b]} :: 0 <= b < |chains| ==> Chained(heads[b], nodes, chains[b]))
    && InBuckets(nodes, chains, bucketOf)
  }

  ghost predicate InBuckets<T(!new)>(nodes: map<nat, Node<T>>, chains: seq<seq<nat>>, bucketOf: T -> nat) {
    && (forall b, o {:trigger o in chains[b]} :: 0 <= b < |chains| && o in chains[b] ==>
          o in nodes && bucketOf(nodes[o].data) == b)
    && (forall o {:trigger o in nodes} :: o in nodes ==>
          bucketOf(nodes[o].data) < |chains| && o in chains[bucketOf(nodes[o].data)])
  }

  ghost predicate SameData<T(!new)>(m: map<nat, Node<T>>, n: map<nat, Node<T>>) {
    forall o {:trigger o in m} {:trigger o in n} :: o in m && o in n ==> m[o].data == n[o].data
  }

  lemma LinkAt<T>(head: nat, nodes: map<nat, Node<T>>, c: seq<nat>, i: nat)
    requires Chained(head, nodes, c) && (i < |c| || c == [])
    ensures head == if c == [] then 0 else c[0]
    ensures i < |c| ==> c[i] > 0 && c[i] in nodes && nodes[c[i]].next == if i + 1 < |c| then c[i + 1] else 0
    ensures i + 1 < |c| ==> c[i + 1] > 0
  {
  }

  lemma DataTrans<T(!new)>(m: map<nat, Node<T>>, n: map<nat, Node<T>>, o: map<nat, Node<T>>)
    requires SameData(m, n) && SameData(n, o) && (forall k {:trigger k in o} :: k in o ==> k in n)
    ensures SameData(m, o)
  {
  }

  /** A chain only depends on its own entries. */
  lemma ChainKept<T>(head: nat, m: map<nat, Node<T>>, n: map<nat, Node<T>>, c: seq<nat>)
    requires Chained(head, m, c)
    requires forall o {:trigger o in c} :: o in c ==>
               o in n && (o in m ==> n[o].next == m[o].next && n[o].prev == m[o].prev)
    ensures Chained(head, n, c)
  {
    forall i | 0 <= i < |c|
      ensures c[i] > 0 && c[i] in n && n[c[i]].next == NextIn(c, i) && n[c[i]].prev == PrevIn(c, i)
    {
      assert c[i] in c;
    }
  }

  /** The links of an entry, in terms of its chain. */
  lemma LinksOf<T>(head: nat, nodes: map<nat, Node<T>>, c: seq<nat>, i: nat)
    requires Chained(head, nodes, c) && i < |c|
    ensures c[i] > 0 && c[i] in nodes && nodes[c[i]].next == NextIn(c, i) && nodes[c[i]].prev == PrevIn(c, i)
    ensures i > 0 ==> c[i - 1] in nodes && c[i - 1] > 0 && c[i - 1] != c[i]
    ensures i + 1 < |c| ==> c[i + 1] in nodes && c[i + 1] > 0 && c[i + 1] != c[i]
    ensures head == if i == 0 then c[i] else c[0]
    ensures c[i] == head <==> i == 0
    ensures i > 0 && i + 1 < |c| ==> c[i - 1] != c[i + 1]
  {
  }

  /** The memory after linking off at the end of chain c. */
  ghost function Linked<T>(nodes: map<nat, Node<T>>, c: seq<nat>, off: nat, data: T): map<nat, Node<T>>
    requires c != [] ==> c[|c| - 1] in nodes
  {
    if c == [] then nodes[off := Node(data, 0, 0)]
    else var last := c[|c| - 1]; nodes[last := nodes[last].(next := off)][off := Node(data, 0, last)]
  }

  lemma LinkedChain<T>(head: nat, nodes: map<nat, Node<T>>, c: seq<nat>, off: nat, data: T)
    requires Chained(head, nodes, c) && off > 0 && off !in nodes
    ensures c != [] ==> c[|c| - 1] in nodes
    ensures Chained(if c == [] then off else head, Linked(nodes, c, off, data), c + [off])
  {
    var n, d := Linked(nodes, c, off, data), c + [off];
    assert Distinct(d);
    forall i | 0 <= i < |d|
      ensures d[i] > 0 && d[i] in n && n[d[i]].next == NextIn(d, i) && n[d[i]].prev == PrevIn(d, i)
    {
      if i < |c| {
        LinksOf(head, nodes, c, i);
        assert i < |c| - 1 ==> c[i] != c[|c| - 1];
      }
    }
  }

  lemma LinkedNodes<T(!new)>(nodes: map<nat, Node<T>>, c: seq<nat>, off: nat, data: T)
    requires c != [] ==> c[|c| - 1] in nodes
    requires off !in nodes
    ensures var n := Linked(nodes, c, off, data);
            && n.Keys == nodes.Keys + {off} && |n| == |nodes| + 1 && SameData(nodes, n) && n[off].data == data
            && forall o {:trigger n[o]} :: o in nodes && (c == [] || o != c[|c| - 1]) ==> n[o] == nodes[o]
  {
    var n := Linked(nodes, c, off, data);
    assert n.Keys == nodes.Keys + {off};
    assert |n.Keys| == |nodes.Keys| + 1;
  }

  lemma ChainOf<T(!new)>(heads: seq<nat>, nodes: map<nat, Node<T>>, chains: seq<seq<nat>>, bucketOf: T -> nat, b: nat)
    requires TableHolds(heads, nodes, chains, bucketOf) && b < |chains|
    ensures |heads| == |chains| && Chained(heads[b], nodes, chains[b])
    ensures chains[b] != [] ==> chains[b][|chains[b]| - 1] > 0 && chains[b][|chains[b]| - 1] in nodes
    ensures forall o {:trigger o in chains[b]} :: o in chains[b] ==> o in nodes && bucketOf(nodes[o].data) == b
  {
  }

  /** Every entry is in the chain of its own bucket, once. */
  lemma InOwnBucket<T(!new)>(heads: seq<nat>, nodes: map<nat, Node<T>>, chains: seq<seq<nat>>, bucketOf: T -> nat,
                             off: nat)
    requires TableHolds(heads, nodes, chains, bucketOf) && off in nodes
    ensures off > 0 && bucketOf(nodes[off].data) < |chains| && off in chains[bucketOf(nodes[off].data)]
    ensures Distinct(chains[bucketOf(nodes[off].data)])
  {
    var b := bucketOf(nodes[off].data);
    assert off in chains[b];
    ChainOf(heads, nodes, chains, bucketOf, b);
  }

  /** Looking in one bucket agrees with looking through the whole table. */
  lemma BucketIsEnough<T(!new)>(heads: seq<nat>, nodes: map<nat, Node<T>>, chains: seq<seq<nat>>, bucketOf: T -> nat,
                                b: nat, wanted: T -> bool)
    requires TableHolds(heads, nodes, chains, bucketOf) && b < |chains|
    requires forall d {:trigger wanted(d)} :: wanted(d) ==> bucketOf(d) == b
    requires forall i {:trigger chains[b][i]} :: 0 <= i < |chains[b]| && chains[b][i] in nodes ==>
               !wanted(nodes[chains[b][i]].data)
    ensures forall o {:trigger o in nodes} :: o in nodes ==> !wanted(nodes[o].data)
  {
    forall o | o in nodes ensures !wanted(nodes[o].data) {
      InOwnBucket(heads, nodes, chains, bucketOf, o);
    }
  }

  lemma AddChains<T(!new)>(heads: seq<nat>, nodes: map<nat, Node<T>>, chains: seq<seq<nat>>, bucketOf: T -> nat, b: nat,
                           off: nat, data: T, k: nat)
    requires TableHolds(heads, nodes, chains, bucketOf) && b < |chains| && k < |chains| && off > 0 && off !in nodes
    ensures chains[b] != [] ==> chains[b][|chains[b]| - 1] in nodes
    ensures Chained(if k == b && chains[b] == [] then off else heads[k], Linked(nodes, chains[b], off, data),
                    if k == b then chains[b] + [off] else chains[k])
  {
    hide Linked, Chained, Distinct;
    var c := chains[b];
    ChainOf(heads, nodes, chains, bucketOf, b);
    ChainOf(heads, nodes, chains, bucketOf, k);
    if k == b {
      LinkedChain(heads[b], nodes, c, off, data);
    } else {
      LinkedNodes(nodes, c, off, data);
      assert c != [] ==> c[|c| - 1] in c;
      ChainKept(heads[k], nodes, Linked(nodes, c, off, data), chains[k]);
    }
  }

  lemma AddBuckets<T(!new)>(nodes: map<nat, Node<T>>, n: map<nat, Node<T>>, chains: seq<seq<nat>>, bucketOf: T -> nat,
                            b: nat, off: nat)
    requires InBuckets(nodes, chains, bucketOf) && b < |chains| && off !in nodes
    requires n.Keys == nodes.Keys + {off} && SameData(nodes, n) && bucketOf(n[off].data) == b
    ensures InBuckets(n, chains[b := chains[b] + [off]], bucketOf)
  {
    var ds := chains[b := chains[b] + [off]];
    forall k, o | 0 <= k < |ds| && o in ds[k] ensures o in n && bucketOf(n[o].data) == k {
      assert o == off || o in chains[k];
    }
    forall o | o in n ensures bucketOf(n[o].data) < |ds| && o in ds[bucketOf(n[o].data)] {
      assert o == off || o in nodes;
      assert off in ds[b];
    }
  }

  lemma AddHolds<T(!new)>(heads: seq<nat>, nodes: map<nat, Node<T>>, chains: seq<seq<nat>>, bucketOf: T -> nat, b: nat,
                          off: nat, data: T)
    requires TableHolds(heads, nodes, chains, bucketOf) && b < |chains| && off > 0 && off !in nodes
             && bucketOf(data) == b
    ensures chains[b] != [] ==> chains[b][|chains[b]| - 1] in nodes
    ensures TableHolds(if chains[b] == [] then heads[b := off] else heads, Linked(nodes, chains[b], off, data),
                       chains[b := chains[b] + [off]], bucketOf)
  {
    hide Chained, Linked, SameData, InBuckets;
    var c := chains[b];
    AddChains(heads, nodes, chains, bucketOf, b, off, data, b);
    LinkedNodes(nodes, c, off, data);
    var n, ds := Linked(nodes, c, off, data), chains[b := c + [off]];
    var hs := if c == [] then heads[b := off] else heads;
    forall k | 0 <= k < |ds| ensures Chained(hs[k], n, ds[k]) {
      AddChains(heads, nodes, chains, bucketOf, b, off, data, k);
    }
    AddBuckets(nodes, n, chains, bucketOf, b, off);
  }

  // ----- Unlinking -----

  /** The memory after unlinking and freeing the entry at off: its two neighbours now name each other. */
  ghost function Unlinked<T>(nodes: map<nat, Node<T>>, off: nat): map<nat, Node<T>>
    requires off in nodes
  {
    var p, n := nodes[off].prev, nodes[off].next;
    map o | o in nodes && o != off ::
      Node(nodes[o].data, if o == p && p != 0 then n else nodes[o].next, if o == n && n != 0 then p else nodes[o].prev)
  }

  /** What an unlink may assume about the two neighbours of an entry. */
  lemma Neighbours<T>(head: nat, nodes: map<nat, Node<T>>, c: seq<nat>, i: nat)
    requires Chained(head, nodes, c) && i < |c|
    ensures c[i] in nodes
    ensures var p, n := nodes[c[i]].prev, nodes[c[i]].next;
            && (p != 0 ==> p in nodes && p != c[i] && p != n) && (n != 0 ==> n in nodes && n != c[i])
            && (p == 0 <==> i == 0) && n == NextIn(c, i)
  {
    LinksOf(head, nodes, c, i);
  }

  lemma WithoutDistinct(c: seq<nat>, i: nat)
    requires Distinct(c) && i < |c|
    ensures Distinct(Without(c, i)) && c[i] !in Without(c, i)
    ensures forall o {:trigger o in Without(c, i)} :: o in Without(c, i) <==> o in c && o != c[i]
  {
    var d := Without(c, i);
    forall o | o in c && o != c[i] ensures o in d {
      var j :| 0 <= j < |c| && c[j] == o;
      assert d[if j < i then j else j - 1] == o;
    }
  }

  /** The in-place writes of the unlink, on the entries at prev and next. */
  lemma UnlinkedInPlace<T>(was: map<nat, Node<T>>, now: map<nat, Node<T>>, off: nat, p: nat, n: nat)
    requires off in was && p == was[off].prev && n == was[off].next
    requires (p != 0 ==> p in was && p != off) && (n != 0 ==> n in was && n != off) && (p != 0 ==> p != n)
    requires now.Keys == was.Keys - {off}
    requires forall o {:trigger now[o]} :: o in now && (p == 0 || o != p) && (n == 0 || o != n) ==> now[o] == was[o]
    requires p != 0 ==> now[p] == was[p].(next := n)
    requires n != 0 ==> now[n] == was[n].(prev := p)
    ensures now == Unlinked(was, off)
  {
  }

  lemma UnlinkedNodes<T(!new)>(nodes: map<nat, Node<T>>, off: nat)
    requires off in nodes
    ensures Unlinked(nodes, off).Keys == nodes.Keys - {off} && |Unlinked(nodes, off)| == |nodes| - 1
    ensures SameData(nodes, Unlinked(nodes, off))
  {
    var m := Unlinked(nodes, off);
    assert m.Keys == nodes.Keys - {off};
    assert |m.Keys| == |nodes.Keys| - 1;
  }

  lemma UnlinkedChain<T(!new)>(head: nat, nodes: map<nat, Node<T>>, c: seq<nat>, i: nat)
    requires Chained(head, nodes, c) && i < |c|
    ensures c[i] in nodes
    ensures Chained(if i == 0 then NextIn(c, 0) else head, Unlinked(nodes, c[i]), Without(c, i))
  {
    LinksOf(head, nodes, c, i);
    WithoutDistinct(c, i);
    var m, d := Unlinked(nodes, c[i]), Without(c, i);
    forall k | 0 <= k < |d|
      ensures d[k] > 0 && d[k] in m && m[d[k]].next == NextIn(d, k) && m[d[k]].prev == PrevIn(d, k)
    {
      UnlinkedEntry(head, nodes, c, i, if k < i then k else k + 1);
    }
  }

  /** Neighbours in a chain after element i is taken out, for the element that was number j. */
  lemma WithoutLinks(c: seq<nat>, i: nat, j: nat)
    requires i < |c| && j < |c| && i != j
    ensures var d, k := Without(c, i), if j < i then j else j - 1;
            && d[k] == c[j]
            && NextIn(d, k) == (if j + 1 == i then NextIn(c, i) else NextIn(c, j))
            && PrevIn(d, k) == (if j == i + 1 then PrevIn(c, i) else PrevIn(c, j))
  {
  }

  lemma WhichNeighbour<T>(head: nat, nodes: map<nat, Node<T>>, c: seq<nat>, i: nat, j: nat)
    requires Chained(head, nodes, c) && i < |c| && j < |c| && i != j
    ensures c[i] != c[j] && c[j] > 0
    ensures c[j] == PrevIn(c, i) <==> j + 1 == i
    ensures c[j] == NextIn(c, i) <==> j == i + 1
  {
    LinksOf(head, nodes, c, j);
    assert Distinct(c);
  }

  /** The links of a remaining entry, number j of the old chain. */
  lemma UnlinkedEntry<T(!new)>(head: nat, nodes: map<nat, Node<T>>, c: seq<nat>, i: nat, j: nat)
    requires Chained(head, nodes, c) && i < |c| && j < |c| && i != j
    ensures c[i] in nodes && c[j] > 0 && c[j] in Unlinked(nodes, c[i])
    ensures var d, k := Without(c, i), if j < i then j else j - 1;
            && d[k] == c[j]
            && Unlinked(nodes, c[i])[c[j]].next == NextIn(d, k) && Unlinked(nodes, c[i])[c[j]].prev == PrevIn(d, k)
  {
    hide Distinct, Without, NextIn, PrevIn, Chained;
    LinksOf(head, nodes, c, i);
    LinksOf(head, nodes, c, j);
    WithoutLinks(c, i, j);
    WhichNeighbour(head, nodes, c, i, j);
  }

  lemma RemoveBuckets<T(!new)>(nodes: map<nat, Node<T>>, n: map<nat, Node<T>>, chains: seq<seq<nat>>,
                               bucketOf: T -> nat, b: nat, i: nat)
    requires InBuckets(nodes, chains, bucketOf) && b < |chains| && i < |chains[b]| && Distinct(chains[b])
    requires n.Keys == nodes.Keys - {chains[b][i]} && SameData(nodes, n)
    ensures InBuckets(n, chains[b := Without(chains[b], i)], bucketOf)
  {
    hide Distinct, Without;
    WithoutDistinct(chains[b], i);
    var ds := chains[b := Without(chains[b], i)];
    var off := chains[b][i];
    assert off in chains[b];
    forall k, o | 0 <= k < |ds| && o in ds[k] ensures o in n && bucketOf(n[o].data) == k {
      assert o in chains[k];
      assert o in nodes;
    }
    forall o | o in n ensures bucketOf(n[o].data) < |ds| && o in ds[bucketOf(n[o].data)] {
      assert o in nodes;
    }
  }

  /** Unlinking leaves the entries of other chains alone. */
  lemma OtherUnlinked<T(!new)>(head: nat, nodes: map<nat, Node<T>>, c: seq<nat>, i: nat, d: seq<nat>)
    requires Chained(head, nodes, c) && i < |c|
    requires forall o {:trigger o in d} :: o in d ==> o in nodes && o !in c
    ensures c[i] in nodes
    ensures forall o {:trigger o in d} :: o in d ==>
              o in Unlinked(nodes, c[i]) && SameLinks(Unlinked(nodes, c[i])[o], nodes[o])
  {
    LinksOf(head, nodes, c, i);
    assert c[i] in c;
    assert i > 0 ==> c[i - 1] in c;
    assert i + 1 < |c| ==> c[i + 1] in c;
  }

  ghost predicate SameLinks<T>(a: Node<T>, b: Node<T>) {
    a.next == b.next && a.prev == b.prev
  }

  lemma RemoveChains<T(!new)>(heads: seq<nat>, nodes: map<nat, Node<T>>, chains: seq<seq<nat>>, bucketOf: T -> nat,
                              b: nat, i: nat, k: nat)
    requires TableHolds(heads, nodes, chains, bucketOf) && b < |chains| && k < |chains| && i < |chains[b]|
    ensures chains[b][i] in nodes
    ensures var off := chains[b][i];
            Chained(if k == b && i == 0 then NextIn(chains[b], 0) else heads[k], Unlinked(nodes, off),
                    if k == b then Without(chains[b], i) else chains[k])
  {
    hide Unlinked, Chained, Distinct, Without, SameData;
    ChainOf(heads, nodes, chains, bucketOf, b);
    ChainOf(heads, nodes, chains, bucketOf, k);
    UnlinkedChain(heads[b], nodes, chains[b], i);
    if k != b {
      OtherUnlinked(heads[b], nodes, chains[b], i, chains[k]);
      ChainKept(heads[k], nodes, Unlinked(nodes, chains[b][i]), chains[k]);
    }
  }

  lemma RemoveHolds<T(!new)>(heads: seq<nat>, nodes: map<nat, Node<T>>, chains: seq<seq<nat>>, bucketOf: T -> nat,
                             b: nat, i: nat)
    requires TableHolds(heads, nodes, chains, bucketOf) && b < |chains| && i < |chains[b]|
    ensures chains[b][i] in nodes
    ensures var off := chains[b][i];
            TableHolds(if i == 0 then heads[b := NextIn(chains[b], 0)] else heads, Unlinked(nodes, off),
                       chains[b := Without(chains[b], i)], bucketOf)
  {
    hide Unlinked, InBuckets, SameData, Without;
    var c := chains[b];
    RemoveChains(heads, nodes, chains, bucketOf, b, i, b);
    UnlinkedNodes(nodes, c[i]);
    var n, ds := Unlinked(nodes, c[i]), chains[b := Without(c, i)];
    var hs := if i == 0 then heads[b := NextIn(c, 0)] else heads;
    hide Chained;
    forall k | 0 <= k < |ds| ensures Chained(hs[k], n, ds[k]) {
      RemoveChains(heads, nodes, chains, bucketOf, b, i, k);
    }
    RemoveBuckets(nodes, n, chains, bucketOf, b, i);
  }

  lemma SetBuckets<T(!new)>(nodes: map<nat, Node<T>>, n: map<nat, Node<T>>, chains: seq<seq<nat>>, bucketOf: T -> nat,
                            off: nat)
    requires InBuckets(nodes, chains, bucketOf) && off in nodes && off in n && n == nodes[off := n[off]]
    requires bucketOf(n[off].data) == bucketOf(nodes[off].data)
    ensures InBuckets(n, chains, bucketOf)
  {
    forall o | o in n ensures bucketOf(n[o].data) < |chains| && o in chains[bucketOf(n[o].data)] {
      assert o in nodes;
    }
  }

  /** Changing the data of an entry within its bucket. */
  lemma SetHolds<T(!new)>(heads: seq<nat>, nodes: map<nat, Node<T>>, chains: seq<seq<nat>>, bucketOf: T -> nat,
                          off: nat, data: T)
    requires TableHolds(heads, nodes, chains, bucketOf) && off in nodes && bucketOf(data) == bucketOf(nodes[off].data)
    ensures TableHolds(heads, nodes[off := nodes[off].(data := data)], chains, bucketOf)
  {
    hide InBuckets;
    var n := nodes[off := nodes[off].(data := data)];
    SetBuckets(nodes, n, chains, bucketOf, off);
    forall k | 0 <= k < |chains| ensures Chained(heads[k], n, chains[k]) {
      hide Chained;
      ChainOf(heads, nodes, chains, bucketOf, k);
      ChainKept(heads[k], nodes, n, chains[k]);
    }
  }

  class ChainTable<T(!new)> {
    // header->values: the first offset of each bucket
    const heads: array<nat>
    // The entries in shared memory, by offset.
    var nodes: map<nat, Node<T>>
    var itemcount: int
    // Which bucket the data of an entry belongs to.
    ghost const bucketOf: T -> nat
    // The offsets in each bucket, in chain order.
    ghost var chains: seq<seq<nat>>

    ghost predicate Valid()
      reads this, heads
    {
      |chains| == heads.Length && itemcount == |nodes| && TableHolds(heads[..], nodes, chains, bucketOf)
    }

    constructor (valuecount: nat, ghost bucketOf: T -> nat)
      ensures Valid() && fresh(heads) && heads.Length == valuecount && nodes == map[] && this.bucketOf == bucketOf
      ensures |chains| == valuecount && forall b {:trigger chains[b]} :: 0 <= b < valuecount ==> chains[b] == []
    {
      heads := new nat[valuecount](_ => 0);
      nodes, itemcount := map[], 0;
      this.bucketOf := bucketOf;
      chains := seq(valuecount, _ => []);
    }

    /** The last entry of a bucket, found by following next links; 0 when the bucket is empty. */
    method LastOf(index: nat) returns (pcheck: nat)
      requires Valid() && index < heads.Length
      ensures pcheck == if chains[index] == [] then 0 else chains[index][|chains[index]| - 1]
    {
      pcheck := heads[index];
      hide TableHolds, Chained;
      ghost var c, i := chains[index], 0;
      ChainOf(heads[..], nodes, chains, bucketOf, index);
      LinkAt(heads[index], nodes, c, 0);
      while pcheck != 0
        invariant if c == [] then pcheck == 0 else i < |c| && pcheck == c[i]
        decreases |c| - i
      {
        LinkAt(heads[index], nodes, c, i);
        if nodes[pcheck].next == 0 {
          break;
        }
        pcheck := nodes[pcheck].next;
        i := i + 1;
      }
    }

    /** add_*_entry: the new entry goes to the end of its bucket. */
    method Add(index: nat, off: nat, data: T)
      requires Valid() && index < heads.Length && off > 0 && off !in nodes && bucketOf(data) == index
      modifies this`nodes, this`itemcount, this`chains, heads
      ensures Valid() && chains == old(chains)[index := old(chains)[index] + [off]]
      ensures nodes.Keys == old(nodes).Keys + {off} && nodes[off].data == data && SameData(old(nodes), nodes)
    {
      hide TableHolds, SameData;
      ghost var c, hs := chains[index], heads[..];
      ChainOf(hs, nodes, chains, bucketOf, index);
      var pcheck := LastOf(index);
      LinkedNodes(nodes, c, off, data);
      AddHolds(hs, nodes, chains, bucketOf, index, off, data);
      if pcheck != 0 {
        nodes := nodes[pcheck := nodes[pcheck].(next := off)][off := Node(data, 0, pcheck)];
      } else {
        heads[index] := off;
        nodes := nodes[off := Node(data, 0, 0)];
      }
      itemcount := itemcount + 1;
      chains := chains[index := c + [off]];
      assert heads[..] == if c == [] then hs[index := off] else hs;
    }

    /** remove_*_entry: unlink the entry from its bucket and free it. */
    method Remove(index: nat, off: nat)
      requires Valid() && index < heads.Length && off in chains[index]
      modifies this`nodes, this`itemcount, this`chains, heads
      ensures Valid() && chains == old(chains)[index := Without(old(chains)[index], Position(old(chains)[index], off))]
      ensures nodes.Keys == old(nodes).Keys - {off} && SameData(old(nodes), nodes)
    {
      hide TableHolds, SameData, Chained, Without, NextIn, PrevIn, Position, Unlinked;
      ghost var c, hs, was, i := chains[index], heads[..], nodes, Position(chains[index], off);
      ChainOf(hs, nodes, chains, bucketOf, index);
      Neighbours(hs[index], nodes, c, i);
      UnlinkedNodes(nodes, off);
      RemoveHolds(hs, nodes, chains, bucketOf, index, i);
      Unlink(index, off);
      chains := chains[index := Without(c, i)];
      assert heads[..] == if i == 0 then hs[index := NextIn(c, 0)] else hs;
    }

    /** The memory writes of a removal. */
    method Unlink(index: nat, off: nat)
      requires index < heads.Length && off in nodes
      requires var p, n := nodes[off].prev, nodes[off].next;
               && (p != 0 ==> p in nodes && p != off && p != n) && (n != 0 ==> n in nodes && n != off)
      modifies this`nodes, this`itemcount, heads
      ensures nodes == Unlinked(old(nodes), off) && itemcount == old(itemcount) - 1
      ensures heads[..] == if old(nodes)[off].prev
              == 0 then old(heads[..])[index := old(nodes)[off].next] else old(heads[..])
    {
      hide Unlinked;
      ghost var was := nodes;
      itemcount := itemcount - 1;
      var prev, next := nodes[off].prev, nodes[off].next;
      if prev == 0 {
        heads[index] := next;
        if next != 0 {
          nodes := nodes[next := nodes[next].(prev := 0)];
        }
      } else {
        nodes := nodes[prev := nodes[prev].(next := next)];
        if next != 0 {
          nodes := nodes[next := nodes[next].(prev := prev)];
        }
      }
      nodes := nodes - {off};
      UnlinkedInPlace(was, nodes, off, prev, next);
    }

    /** Writes the data of an entry in place. */
    method SetData(off: nat, data: T)
      requires Valid() && off in nodes && bucketOf(data) == bucketOf(nodes[off].data)
      modifies this`nodes
      ensures Valid() && nodes == old(nodes)[off := old(nodes)[off].(data := data)]
    {
      hide TableHolds;
      SetHolds(heads[..], nodes, chains, bucketOf, off, data);
      nodes := nodes[off := nodes[off].(data := data)];
    }
  }
}
