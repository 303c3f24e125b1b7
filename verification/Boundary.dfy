/** How a layout is written down in memory: boundary tags around every block
    and the doubly linked list through the blocks that are not in use. */
module Boundary {
  import opened Layout

  const MARK_FIRST: int := 0x69696969
  const MARK_FREE: int := 0x66666666
  const MARK_USED: int := 0x75757575
  const MARK_LAST: int := 0x6C6C6C6C

  function Marker(kind: Kind): int {
    match kind
    case First => MARK_FIRST
    case Free => MARK_FREE
    case Used => MARK_USED
    case Last => MARK_LAST
  }

  /** Header and footer of block b are in memory. */
  ghost predicate Stored(m: seq<int>, b: Block) {
    && b.off + OVERHEAD + b.size <= |m|
    && m[b.off] == b.size && m[b.off + 1] == Marker(b.kind)
    && m[b.off + BLOCK_HEADER + b.size] == b.size
  }

  ghost predicate AllStored(m: seq<int>, bs: seq<Block>) {
    forall i {:trigger bs[i]} :: 0 <= i < |bs| ==> Stored(m, bs[i])
  }

  /** The offsets of FIRST, the free blocks and LAST, in address order. */
  function Nodes(bs: seq<Block>): seq<nat> {
    if bs == [] then [] else (if bs[0].kind == Used then [] else [bs[0].off]) + Nodes(bs[1..])
  }

  ghost predicate Link(m: seq<int>, a: nat, b: nat) {
    a + 3 < |m| && b + 2 < |m| && m[a + 3] == b && m[b + 2] == a
  }

  /** Next and previous offsets are inverse links along ns. */
  ghost predicate Linked(m: seq<int>, ns: seq<nat>) {
    forall i, j {:trigger ns[i], ns[j]} :: 0 <= i && j == i + 1 && j < |ns| ==> Link(m, ns[i], ns[j])
  }

  /** Memory m holds layout bs: tags, links and list ends. */
  ghost predicate Holds(m: seq<int>, bs: seq<Block>) {
    && Segmented(bs, |m|)
    && AllStored(m, bs)
    && Linked(m, Nodes(bs))
    && m[SEGMENT_HEADER + 2] == 0 && m[bs[|bs| - 1].off + 3] == 0
  }

  // ----- The list of nodes -----

  lemma ConcatAssociates(x: seq<nat>, y: seq<nat>, z: seq<nat>)
    ensures (x + y) + z == x + (y + z)
  {
  }

  lemma {:induction false} NodesConcat(a: seq<Block>, b: seq<Block>)
    ensures Nodes(a + b) == Nodes(a) + Nodes(b)
  {
    if a == [] {
      assert a + b == b;
    } else {
      var first := if a[0].kind == Used then [] else [a[0].off];
      NodesConcat(a[1..], b);
      assert (a + b)[1..] == a[1..] + b && (a + b)[0] == a[0];
      ConcatAssociates(first, Nodes(a[1..]), Nodes(b));
    }
  }

  lemma NodesSplice(pre: seq<Block>, mid: seq<Block>, post: seq<Block>)
    ensures Nodes(pre + mid + post) == Nodes(pre) + Nodes(mid) + Nodes(post)
  {
    NodesConcat(pre + mid, post);
    NodesConcat(pre, mid);
  }

  /** The node list is exactly the blocks not in use: which offsets, and each from a block. */
  lemma {:induction false} NodesExact(bs: seq<Block>, n: nat)
    ensures n in Nodes(bs) <==> exists i {:trigger bs[i]} :: 0 <= i < |bs| && bs[i].off == n && bs[i].kind != Used
  {
    if bs != [] {
      NodesExact(bs[1..], n);
      if n in Nodes(bs[1..]) {
        var i :| 0 <= i < |bs[1..]| && bs[1..][i].off == n && bs[1..][i].kind != Used;
        assert bs[i + 1] == bs[1..][i];
      }
      if exists i {:trigger bs[i]} :: 0 <= i < |bs| && bs[i].off == n && bs[i].kind != Used {
        var i :| 0 <= i < |bs| && bs[i].off == n && bs[i].kind != Used;
        if i > 0 {
          assert bs[1..][i - 1] == bs[i];
        }
      }
    }
  }

  /** Nodes lie inside the stretch their blocks tile and come in strictly increasing address order. */
  lemma {:induction false} NodesOrdered(bs: seq<Block>)
    requires Tiled(bs)
    ensures forall k {:trigger Nodes(bs)[k]} :: 0 <= k < |Nodes(bs)| ==>
              bs != [] && bs[0].off <= Nodes(bs)[k]
                    && Nodes(bs)[k] + OVERHEAD <= bs[|bs| - 1].off + OVERHEAD + bs[|bs| - 1].size
    ensures forall k, l {:trigger Nodes(bs)[k], Nodes(bs)[l]} :: 0 <= k < l < |Nodes(bs)| ==>
              Nodes(bs)[k] + OVERHEAD <= Nodes(bs)[l]
  {
    if |bs| > 1 {
      assert Adjacent(bs[0], bs[1]);
      TiledPart(bs, 1, |bs|);
      assert bs[1..|bs|] == bs[1..];
      NodesOrdered(bs[1..]);
      AllOrdered(bs);
      assert bs[1..][|bs| - 2] == bs[|bs| - 1];
    } else if |bs| == 1 {
      assert bs[1..] == [];
    }
  }

  // ----- Local changes -----

  /** Only words lo..hi and the link words x and y may differ. */
  ghost predicate SameOutside(m: seq<int>, n: seq<int>, lo: nat, hi: nat, x: nat, y: nat) {
    && |m| == |n|
    && forall k {:trigger m[k]} {:trigger n[k]} :: 0 <= k < |m| && !(lo <= k < hi) && k != x && k != y ==> m[k] == n[k]
  }

  /** The node before and the node after blocks lo..hi. */
  ghost function NodeBefore(bs: seq<Block>, lo: nat): nat
    requires lo <= |bs| && |Nodes(bs[..lo])| > 0
  {
    Nodes(bs[..lo])[|Nodes(bs[..lo])| - 1]
  }

  ghost function NodeAfter(bs: seq<Block>, hi: nat): nat
    requires hi <= |bs| && |Nodes(bs[hi..])| > 0
  {
    Nodes(bs[hi..])[0]
  }

  lemma NodesAround(bs: seq<Block>, total: nat, lo: nat, hi: nat)
    requires Segmented(bs, total) && 0 < lo <= hi < |bs|
    ensures Nodes(bs) == Nodes(bs[..lo]) + Nodes(bs[lo..hi]) + Nodes(bs[hi..])
    ensures |Nodes(bs[..lo])| > 0 && |Nodes(bs[hi..])| > 0
  {
    assert bs == bs[..lo] + bs[lo..hi] + bs[hi..];
    NodesSplice(bs[..lo], bs[lo..hi], bs[hi..]);
    NodesExact(bs[..lo], SEGMENT_HEADER);
    assert bs[..lo][0] == bs[0];
    var last := bs[|bs| - 1];
    assert bs[hi..][|bs| - 1 - hi] == last;
    NodesExact(bs[hi..], last.off);
  }

  /** Every node is the offset of one of the blocks. */
  lemma NodeIsBlock(bs: seq<Block>, k: nat) returns (i: nat)
    requires k < |Nodes(bs)|
    ensures i < |bs| && bs[i].off == Nodes(bs)[k] && bs[i].kind != Used
  {
    NodesExact(bs, Nodes(bs)[k]);
    i :| 0 <= i < |bs| && bs[i].off == Nodes(bs)[k] && bs[i].kind != Used;
  }

  /** Words that are neither in blocks lo..hi nor one of the two link words around them. */
  lemma Elsewhere(bs: seq<Block>, total: nat, lo: nat, hi: nat, i: nat)
    requires Segmented(bs, total) && 0 < lo <= hi < |bs| && i < |bs| && !(lo <= i < hi)
    requires |Nodes(bs[..lo])| > 0 && |Nodes(bs[hi..])| > 0
    ensures var b, x, y := bs[i], NodeBefore(bs, lo) + 3, NodeAfter(bs, hi) + 2;
            && (b.off + OVERHEAD + b.size <= bs[lo].off || bs[hi].off <= b.off)
            && x != b.off && x != b.off + 1 && y != b.off && y != b.off + 1
            && !(b.off + BLOCK_HEADER <= x < b.off + OVERHEAD + b.size)
            && !(b.off + BLOCK_HEADER <= y < b.off + OVERHEAD + b.size)
  {
    AllOrdered(bs);
    var p := NodeIsBlock(bs[..lo], |Nodes(bs[..lo])| - 1);
    var n := NodeIsBlock(bs[hi..], 0);
    assert bs[..lo][p] == bs[p] && bs[hi..][n] == bs[hi + n];
  }

  lemma StoredElsewhere(m: seq<int>, n: seq<int>, bs: seq<Block>, lo: nat, hi: nat, i: nat)
    requires Segmented(bs, |m|) && AllStored(m, bs) && 0 < lo <= hi < |bs| && i < |bs| && !(lo <= i < hi)
    requires |Nodes(bs[..lo])| > 0 && |Nodes(bs[hi..])| > 0
    requires SameOutside(m, n, bs[lo].off, bs[hi].off, NodeBefore(bs, lo) + 3, NodeAfter(bs, hi) + 2)
    ensures Stored(n, bs[i])
  {
    Elsewhere(bs, |m|, lo, hi, i);
    assert Stored(m, bs[i]);
  }

  lemma PairsElsewhere(m: seq<int>, n: seq<int>, left: seq<nat>, mid: seq<nat>, right: seq<nat>, lo: nat, hi: nat,
                       k: nat)
    requires |left| > 0 && |right| > 0 && lo <= hi
    requires Linked(m, left + mid + right)
    requires forall k, l {:trigger left[k], left[l]} :: 0 <= k < l < |left| ==> left[k] + OVERHEAD <= left[l]
    requires forall k, l {:trigger right[k], right[l]} :: 0 <= k < l < |right| ==> right[k] + OVERHEAD <= right[l]
    requires left[|left| - 1] + OVERHEAD <= lo && hi <= right[0]
    requires SameOutside(m, n, lo, hi, left[|left| - 1] + 3, right[0] + 2)
    ensures k + 1 < |left| ==> Link(n, left[k], left[k + 1])
    ensures k + 1 < |right| ==> Link(n, right[k], right[k + 1])
  {
    var ns := left + mid + right;
    if k + 1 < |left| {
      assert Link(m, ns[k], ns[k + 1]);
    }
    if k + 1 < |right| {
      var d := |left| + |mid|;
      assert ns[d + k] == right[k] && ns[d + k + 1] == right[k + 1];
      assert Link(m, ns[d + k], ns[d + k + 1]);
    }
  }

  lemma LinkedSplice(m: seq<int>, left: seq<nat>, mid: seq<nat>, right: seq<nat>)
    requires |left| > 0 && |right| > 0
    requires Linked(m, left) && Linked(m, right) && Linked(m, [left[|left| - 1]] + mid + [right[0]])
    ensures Linked(m, left + mid + right)
  {
    var ns, core := left + mid + right, [left[|left| - 1]] + mid + [right[0]];
    forall i, j | 0 <= i && j == i + 1 && j < |ns| ensures Link(m, ns[i], ns[j]) {
      if j < |left| {
        assert Link(m, left[i], left[j]);
      } else if i >= |left| + |mid| {
        assert Link(m, right[i - |left| - |mid|], right[j - |left| - |mid|]);
      } else {
        assert ns[i] == core[i - |left| + 1] && ns[j] == core[j - |left| + 1];
      }
    }
  }

  ghost predicate Ascending(ns: seq<nat>) {
    forall k, l {:trigger ns[k], ns[l]} :: 0 <= k < l < |ns| ==> ns[k] + OVERHEAD <= ns[l]
  }

  lemma NodesAscend(bs: seq<Block>, total: nat, lo: nat, hi: nat)
    requires Segmented(bs, total) && 0 < lo <= hi < |bs|
    requires |Nodes(bs[..lo])| > 0 && |Nodes(bs[hi..])| > 0
    ensures Ascending(Nodes(bs[..lo])) && Ascending(Nodes(bs[hi..]))
    ensures NodeBefore(bs, lo) + OVERHEAD <= bs[lo].off <= bs[hi].off <= NodeAfter(bs, hi)
  {
    TiledPart(bs, 0, lo);
    TiledPart(bs, hi, |bs|);
    assert bs[0..lo] == bs[..lo] && bs[hi..|bs|] == bs[hi..];
    NodesOrdered(bs[..lo]);
    NodesOrdered(bs[hi..]);
    AllOrdered(bs);
  }

  lemma LinkedAfter(m: seq<int>, n: seq<int>, left: seq<nat>, was: seq<nat>, mid: seq<nat>, right: seq<nat>, lo: nat,
                    hi: nat)
    requires |left| > 0 && |right| > 0 && Linked(m, left + was + right)
    requires Ascending(left) && Ascending(right) && left[|left| - 1] + OVERHEAD <= lo <= hi <= right[0]
    requires SameOutside(m, n, lo, hi, left[|left| - 1] + 3, right[0] + 2)
    requires Linked(n, [left[|left| - 1]] + mid + [right[0]])
    ensures Linked(n, left + mid + right)
  {
    forall i, j | 0 <= i && j == i + 1 && j < |left| ensures Link(n, left[i], left[j]) {
      PairsElsewhere(m, n, left, was, right, lo, hi, i);
    }
    forall i, j | 0 <= i && j == i + 1 && j < |right| ensures Link(n, right[i], right[j]) {
      PairsElsewhere(m, n, left, was, right, lo, hi, i);
    }
    LinkedSplice(n, left, mid, right);
  }

  lemma StoredAfter(m: seq<int>, n: seq<int>, bs: seq<Block>, lo: nat, hi: nat, mid: seq<Block>)
    requires Segmented(bs, |m|) && AllStored(m, bs) && 0 < lo <= hi < |bs|
    requires |Nodes(bs[..lo])| > 0 && |Nodes(bs[hi..])| > 0
    requires SameOutside(m, n, bs[lo].off, bs[hi].off, NodeBefore(bs, lo) + 3, NodeAfter(bs, hi) + 2)
    requires AllStored(n, mid)
    ensures AllStored(n, bs[..lo] + mid + bs[hi..])
  {
    var cs := bs[..lo] + mid + bs[hi..];
    forall i | 0 <= i < |cs| ensures Stored(n, cs[i]) {
      if i < lo {
        StoredElsewhere(m, n, bs, lo, hi, i);
      } else if i < lo + |mid| {
        assert cs[i] == mid[i - lo];
      } else {
        StoredElsewhere(m, n, bs, lo, hi, hi + i - lo - |mid|);
      }
    }
  }

  lemma LinksAfter(m: seq<int>, n: seq<int>, bs: seq<Block>, lo: nat, hi: nat, mid: seq<Block>)
    requires Segmented(bs, |m|) && Linked(m, Nodes(bs)) && 0 < lo <= hi < |bs|
    requires |Nodes(bs[..lo])| > 0 && |Nodes(bs[hi..])| > 0
    requires SameOutside(m, n, bs[lo].off, bs[hi].off, NodeBefore(bs, lo) + 3, NodeAfter(bs, hi) + 2)
    requires Linked(n, [NodeBefore(bs, lo)] + Nodes(mid) + [NodeAfter(bs, hi)])
    ensures Linked(n, Nodes(bs[..lo] + mid + bs[hi..]))
  {
    NodesAround(bs, |m|, lo, hi);
    NodesAscend(bs, |m|, lo, hi);
    LinkedAfter(m, n, Nodes(bs[..lo]), Nodes(bs[lo..hi]), Nodes(mid), Nodes(bs[hi..]), bs[lo].off, bs[hi].off);
    NodesSplice(bs[..lo], mid, bs[hi..]);
  }

  /** The local-change theorem.  Overwriting blocks lo..hi and the two link words around
      them keeps the whole segment well formed as soon as the new blocks are stored and
      linked to their two neighbouring nodes. */
  lemma Replace(m: seq<int>, n: seq<int>, bs: seq<Block>, lo: nat, hi: nat, mid: seq<Block>)
    requires Holds(m, bs) && 0 < lo <= hi < |bs|
    requires |Nodes(bs[..lo])| > 0 && |Nodes(bs[hi..])| > 0
    requires SameOutside(m, n, bs[lo].off, bs[hi].off, NodeBefore(bs, lo) + 3, NodeAfter(bs, hi) + 2)
    requires Segmented(bs[..lo] + mid + bs[hi..], |m|) && AllStored(n, mid)
    requires Linked(n, [NodeBefore(bs, lo)] + Nodes(mid) + [NodeAfter(bs, hi)])
    ensures Holds(n, bs[..lo] + mid + bs[hi..])
  {
    hide Stored, AllStored, Linked, Nodes, NodeBefore, NodeAfter, SameOutside, Tiled;
    var cs := bs[..lo] + mid + bs[hi..];
    StoredAfter(m, n, bs, lo, hi, mid);
    LinksAfter(m, n, bs, lo, hi, mid);
    EndsElsewhere(m, n, bs, lo, hi);
    assert cs[|cs| - 1] == bs[|bs| - 1];
  }

  lemma EndsElsewhere(m: seq<int>, n: seq<int>, bs: seq<Block>, lo: nat, hi: nat)
    requires Segmented(bs, |m|) && 0 < lo <= hi < |bs|
    requires |Nodes(bs[..lo])| > 0 && |Nodes(bs[hi..])| > 0
    requires SameOutside(m, n, bs[lo].off, bs[hi].off, NodeBefore(bs, lo) + 3, NodeAfter(bs, hi) + 2)
    ensures |m| == |n| && bs[|bs| - 1].off + 3 < |m| && SEGMENT_HEADER + 2 < |m|
    ensures m[SEGMENT_HEADER + 2] == n[SEGMENT_HEADER + 2]
    ensures m[bs[|bs| - 1].off + 3] == n[bs[|bs| - 1].off + 3]
  {
    AllOrdered(bs);
    var p := NodeIsBlock(bs[..lo], |Nodes(bs[..lo])| - 1);
    var q := NodeIsBlock(bs[hi..], 0);
    assert bs[..lo][p] == bs[p] && bs[hi..][q] == bs[hi + q];
  }

  /** Local changes leave the payload of every other used block alone. */
  lemma PayloadElsewhere(m: seq<int>, n: seq<int>, bs: seq<Block>, lo: nat, hi: nat, i: nat)
    requires Segmented(bs, |m|) && 0 < lo <= hi < |bs| && i < |bs| && !(lo <= i < hi)
    requires |Nodes(bs[..lo])| > 0 && |Nodes(bs[hi..])| > 0
    requires SameOutside(m, n, bs[lo].off, bs[hi].off, NodeBefore(bs, lo) + 3, NodeAfter(bs, hi) + 2)
    requires bs[i].off + OVERHEAD + bs[i].size <= |m|
    ensures m[bs[i].off + BLOCK_HEADER..bs[i].off + BLOCK_HEADER + bs[i].size]
         == n[bs[i].off + BLOCK_HEADER..bs[i].off + BLOCK_HEADER + bs[i].size]
  {
    Elsewhere(bs, |m|, lo, hi, i);
  }
}
