/** The block layout of a shared memory segment, as a value: which blocks tile
    the segment, in address order.  Offsets and sizes are counted in 8-byte
    words, the unit every size is rounded to on the 64-bit build. */
module Layout {

  // The four marker values a block header can carry.
  datatype Kind = First | Free | Used | Last

  // A block at word offset off: four header words, size payload words, one footer word.
  datatype Block = Block(off: nat, size: nat, kind: Kind)

  const SEGMENT_HEADER: nat := 6
  const BLOCK_HEADER: nat := 4
  const OVERHEAD: nat := 5
  const WORD_BYTES: nat := 8
  // ALLOC_FREE_BLOCK_OVERHEAD + 4, in bytes
  const MIN_FREE_BLOCK_BYTES: nat := 44
  const MIN_SEGMENT: nat := SEGMENT_HEADER + 3 * OVERHEAD

  ghost predicate Adjacent(a: Block, b: Block) {
    && b.off == a.off + OVERHEAD + a.size
    && !(a.kind == Free && b.kind == Free)
  }

  /** The blocks follow each other without gap or overlap, and two free blocks never touch. */
  ghost predicate Tiled(bs: seq<Block>) {
    forall i, j {:trigger bs[i], bs[j]} :: 0 <= i && j == i + 1 && j < |bs| ==> Adjacent(bs[i], bs[j])
  }

  ghost predicate Inner(b: Block) {
    b.kind == Free || b.kind == Used
  }

  /** A whole segment of total words: FIRST, free and used blocks, LAST. */
  ghost predicate Segmented(bs: seq<Block>, total: nat) {
    && |bs| >= 2
    && bs[0] == Block(SEGMENT_HEADER, 0, First)
    && bs[|bs| - 1].kind == Last && bs[|bs| - 1].size == 0 && bs[|bs| - 1].off + OVERHEAD == total
    && (forall i {:trigger bs[i]} :: 0 < i < |bs| - 1 ==> Inner(bs[i]))
    && Tiled(bs)
  }

  /** Blocks further right start at or after the end of blocks further left. */
  lemma {:induction false} Ordered(bs: seq<Block>, i: nat, j: nat)
    requires Tiled(bs) && i < j < |bs|
    ensures bs[i].off + OVERHEAD + bs[i].size <= bs[j].off
    decreases j
  {
    assert Adjacent(bs[j - 1], bs[j]);
    if i < j - 1 {
      Ordered(bs, i, j - 1);
    }
  }

  lemma AllOrdered(bs: seq<Block>)
    requires Tiled(bs)
    ensures forall i, j {:trigger bs[i], bs[j]} :: 0 <= i < j < |bs| ==> bs[i].off + OVERHEAD + bs[i].size <= bs[j].off
  {
    forall i, j | 0 <= i < j < |bs|
      ensures bs[i].off + OVERHEAD + bs[i].size <= bs[j].off
    {
      Ordered(bs, i, j);
    }
  }

  // ----- Requests -----

  /** ALIGNQWORD of precomp.h, on byte sizes. */
  function AlignQword(nbytes: nat): nat {
    if nbytes % 8 != 0 then nbytes + (8 - nbytes % 8) else nbytes
  }

  /** The number of words a request for nbytes bytes is rounded to. */
  function Words(nbytes: nat): nat {
    AlignQword(nbytes) / WORD_BYTES
  }

  lemma WordsIsCeiling(nbytes: nat)
    ensures AlignQword(nbytes) == WORD_BYTES * Words(nbytes)
    ensures nbytes <= WORD_BYTES * Words(nbytes) < nbytes + WORD_BYTES
  {
  }

  ghost predicate Fits(b: Block, w: nat) {
    b.kind == Free && b.size >= w
  }

  ghost predicate NoFit(bs: seq<Block>, w: nat) {
    forall i {:trigger bs[i]} :: 0 <= i < |bs| ==> !Fits(bs[i], w)
  }

  /** Block i is the lowest-addressed free block that can hold w words. */
  ghost predicate FirstFit(bs: seq<Block>, w: nat, i: int) {
    && 0 <= i < |bs| && Fits(bs[i], w)
    && forall j {:trigger bs[j]} :: 0 <= j < i ==> !Fits(bs[j], w)
  }

  // ----- Allocation and release on layouts -----

  /** A block is split when the remainder could still hold a header, a footer and four bytes. */
  predicate Splits(have: nat, want: nat) {
    WORD_BYTES * have >= WORD_BYTES * want + MIN_FREE_BLOCK_BYTES
  }

  /** The number of payload words block b hands out for a request of w words. */
  function Taken(b: Block, w: nat): nat {
    if Splits(b.size, w) then w else b.size
  }

  /** What the split leaves over is a block of at least one word; else up to a whole overhead is given along. */
  lemma TakenExact(b: Block, w: nat)
    requires b.size >= w
    ensures Taken(b, w) == if b.size > w + OVERHEAD then w else b.size
    ensures w <= Taken(b, w) <= w + OVERHEAD
  {
  }

  /** The used block cut off the front of b and the free rest. */
  function Halves(b: Block, w: nat): seq<Block>
    requires b.size >= w && Splits(b.size, w)
  {
    [Block(b.off, w, Used), Block(b.off + OVERHEAD + w, b.size - w - OVERHEAD, Free)]
  }

  /** The layout after serving w words from free block i. */
  function AllocAt(bs: seq<Block>, i: nat, w: nat): seq<Block>
    requires i < |bs| && bs[i].size >= w
  {
    var b := bs[i];
    if Splits(b.size, w) then
      bs[..i] + Halves(b, w) + bs[i + 1..]
    else
      bs[..i] + [b.(kind := Used)] + bs[i + 1..]
  }

  /** First and one-past-last index of the blocks that merge when block i is released. */
  function MergeFrom(bs: seq<Block>, i: nat): nat
    requires 0 < i < |bs|
  {
    if bs[i - 1].kind == Free then i - 1 else i
  }

  function MergeTo(bs: seq<Block>, i: nat): nat
    requires i + 1 < |bs|
  {
    if bs[i + 1].kind == Free then i + 2 else i + 1
  }

  /** The single free block that replaces blocks lo..hi. */
  function Spanning(bs: seq<Block>, lo: nat, hi: nat): Block
    requires lo < hi <= |bs| && bs[hi - 1].off + bs[hi - 1].size >= bs[lo].off
  {
    Block(bs[lo].off, bs[hi - 1].off + bs[hi - 1].size - bs[lo].off, Free)
  }

  /** How many of the two neighbours of block i are free. */
  ghost function FreeBeside(bs: seq<Block>, i: nat): nat
    requires 0 < i < |bs| - 1
  {
    (if bs[i - 1].kind == Free then 1 else 0) + (if bs[i + 1].kind == Free then 1 else 0)
  }

  /** The layout after releasing used block i, merged with its free neighbours. */
  ghost function FreeAt(bs: seq<Block>, i: nat): seq<Block>
    requires 0 < i < |bs| - 1 && Tiled(bs)
  {
    var lo, hi := MergeFrom(bs, i), MergeTo(bs, i);
    AllOrdered(bs);
    bs[..lo] + [Spanning(bs, lo, hi)] + bs[hi..]
  }

  lemma SpliceTiled(pre: seq<Block>, mid: seq<Block>, post: seq<Block>)
    requires Tiled(pre) && Tiled(mid) && Tiled(post)
    requires |pre| > 0 && |mid| > 0 && |post| > 0
    requires Adjacent(pre[|pre| - 1], mid[0]) && Adjacent(mid[|mid| - 1], post[0])
    ensures Tiled(pre + mid + post)
  {
    var cs := pre + mid + post;
    forall k, l | 0 <= k && l == k + 1 && l < |cs| ensures Adjacent(cs[k], cs[l]) {
      if l < |pre| {
        assert Adjacent(pre[k], pre[l]);
      } else if |pre| <= k && l < |pre| + |mid| {
        assert Adjacent(mid[k - |pre|], mid[l - |pre|]);
      } else if k >= |pre| + |mid| {
        assert Adjacent(post[k - |pre| - |mid|], post[l - |pre| - |mid|]);
      }
    }
  }

  /** Replacing blocks lo..hi by blocks that tile the same words keeps the segment well formed. */
  lemma SpliceSegmented(bs: seq<Block>, total: nat, lo: nat, hi: nat, mid: seq<Block>)
    requires Segmented(bs, total) && 0 < lo < hi < |bs| && |mid| > 0 && Tiled(mid)
    requires forall k {:trigger mid[k]} :: 0 <= k < |mid| ==> Inner(mid[k])
    requires Adjacent(bs[lo - 1], mid[0]) && Adjacent(mid[|mid| - 1], bs[hi])
    ensures Segmented(bs[..lo] + mid + bs[hi..], total)
  {
    var pre, post := bs[..lo], bs[hi..];
    TiledPart(bs, 0, lo);
    TiledPart(bs, hi, |bs|);
    assert bs[0..lo] == pre && bs[hi..|bs|] == post;
    SpliceTiled(pre, mid, post);
  }

  lemma TiledPart(bs: seq<Block>, lo: nat, hi: nat)
    requires Tiled(bs) && lo <= hi <= |bs|
    ensures Tiled(bs[lo..hi])
  {
    forall k, l | 0 <= k && l == k + 1 && l < hi - lo ensures Adjacent(bs[lo..hi][k], bs[lo..hi][l]) {
      assert Adjacent(bs[lo + k], bs[lo + l]);
    }
  }

  lemma AllocAtSegmented(bs: seq<Block>, total: nat, i: nat, w: nat)
    requires Segmented(bs, total) && i < |bs| && Fits(bs[i], w)
    ensures 0 < i < |bs| - 1
    ensures Segmented(AllocAt(bs, i, w), total)
  {
    assert Adjacent(bs[i - 1], bs[i]) && Adjacent(bs[i], bs[i + 1]);
    if Splits(bs[i].size, w) {
      SpliceSegmented(bs, total, i, i + 1, Halves(bs[i], w));
    } else {
      SpliceSegmented(bs, total, i, i + 1, [bs[i].(kind := Used)]);
    }
  }

  lemma FreeAtSegmented(bs: seq<Block>, total: nat, i: nat)
    requires Segmented(bs, total) && 0 < i < |bs| - 1 && bs[i].kind == Used
    ensures Segmented(FreeAt(bs, i), total)
  {
    var lo, hi := MergeFrom(bs, i), MergeTo(bs, i);
    MergedNeighbours(bs, total, i);
    SpliceSegmented(bs, total, lo, hi, [Spanning(bs, lo, hi)]);
  }

  lemma MergedNeighbours(bs: seq<Block>, total: nat, i: nat)
    requires Segmented(bs, total) && 0 < i < |bs| - 1 && bs[i].kind == Used
    ensures var lo, hi := MergeFrom(bs, i), MergeTo(bs, i);
            && 0 < lo <= i < hi < |bs|
            && bs[hi - 1].off + bs[hi - 1].size >= bs[lo].off
            && Adjacent(bs[lo - 1], Spanning(bs, lo, hi)) && Adjacent(Spanning(bs, lo, hi), bs[hi])
  {
    var lo, hi := MergeFrom(bs, i), MergeTo(bs, i);
    AllOrdered(bs);
    assert Adjacent(bs[lo - 1], bs[lo]) && Adjacent(bs[hi - 1], bs[hi]);
  }

  // ----- Live blocks determine the layout -----

  /** The used blocks: what the callers of the allocator hold. */
  ghost function Live(bs: seq<Block>): set<Block> {
    set b | b in bs && b.kind == Used
  }

  lemma SamePrefix(a: seq<Block>, b: seq<Block>, total: nat, k: nat)
    requires Segmented(a, total) && Segmented(b, total) && Live(a) <= Live(b)
    requires 0 < k < |a| - 1 && k < |b| - 1 && a[..k] == b[..k] && a[k].kind == Free && b[k].kind == Free
    ensures a[k].size >= b[k].size
  {
    assert a[k - 1] == a[..k][k - 1] == b[..k][k - 1] == b[k - 1];
    assert Adjacent(a[k - 1], a[k]) && Adjacent(b[k - 1], b[k]);
    assert Adjacent(a[k], a[k + 1]) && Adjacent(b[k], b[k + 1]);
    AllOrdered(b);
    var n := a[k + 1];
    if n.kind == Used {
      assert n in Live(b);
      var j :| 0 <= j < |b| && b[j] == n;
    }
  }

  lemma {:induction false} AgreeUpTo(a: seq<Block>, b: seq<Block>, total: nat, k: nat)
    requires Segmented(a, total) && Segmented(b, total) && Live(a) == Live(b)
    requires k <= |a| && k <= |b|
    ensures a[..k] == b[..k]
    decreases k
  {
    if k > 1 {
      var i := k - 1;
      AgreeUpTo(a, b, total, i);
      assert a[i - 1] == a[..i][i - 1] == b[..i][i - 1] == b[i - 1];
      assert Adjacent(a[i - 1], a[i]) && Adjacent(b[i - 1], b[i]);
      AllOrdered(a);
      AllOrdered(b);
      UsedBlockShared(a, b, i);
      UsedBlockShared(b, a, i);
      if a[i].kind == Free && b[i].kind == Free {
        SamePrefix(a, b, total, i);
        SamePrefix(b, a, total, i);
      }
      assert a[i] == b[i];
      assert a[..k] == a[..i] + [a[i]] && b[..k] == b[..i] + [b[i]];
    } else if k == 1 {
      assert a[..k] == [a[0]] && b[..k] == [b[0]];
    }
  }

  lemma UsedBlockShared(a: seq<Block>, b: seq<Block>, i: nat)
    requires Tiled(b) && Live(a) <= Live(b) && i < |a| && i < |b| && a[i].off == b[i].off
    ensures a[i].kind == Used ==> a[i] == b[i]
  {
    if a[i].kind == Used {
      assert a[i] in Live(b);
      var j :| 0 <= j < |b| && b[j] == a[i];
      AllOrdered(b);
    }
  }

  /** Two well-formed layouts of one segment with the same live blocks are the same layout. */
  lemma LayoutUnique(a: seq<Block>, b: seq<Block>, total: nat)
    requires Segmented(a, total) && Segmented(b, total) && Live(a) == Live(b)
    ensures a == b
  {
    var k := if |a| < |b| then |a| else |b|;
    AgreeUpTo(a, b, total, k);
    assert a[k - 1] == a[..k][k - 1] == b[..k][k - 1] == b[k - 1];
    assert a == a[..|a|] && b == b[..|b|];
  }

  lemma LiveConcat(a: seq<Block>, b: seq<Block>)
    ensures Live(a + b) == Live(a) + Live(b)
  {
  }

  lemma LiveSplice(pre: seq<Block>, mid: seq<Block>, post: seq<Block>)
    ensures Live(pre + mid + post) == Live(pre) + Live(mid) + Live(post)
  {
    LiveConcat(pre + mid, post);
    LiveConcat(pre, mid);
  }

  lemma AllocAtLive(bs: seq<Block>, total: nat, i: nat, w: nat)
    requires Segmented(bs, total) && i < |bs| && Fits(bs[i], w)
    ensures var b := Block(bs[i].off, Taken(bs[i], w), Used);
            b !in Live(bs) && Live(AllocAt(bs, i, w)) == Live(bs) + {b}
  {
    var b := Block(bs[i].off, Taken(bs[i], w), Used);
    var pre, post := bs[..i], bs[i + 1..];
    AllOrdered(bs);
    assert bs == pre + [bs[i]] + post;
    LiveSplice(pre, [bs[i]], post);
    LiveSplice(pre, [b], post);
    if Splits(bs[i].size, w) {
      var rest := Block(bs[i].off + OVERHEAD + w, bs[i].size - w - OVERHEAD, Free);
      LiveSplice(pre, [b, rest], post);
      LiveConcat([b], [rest]);
      assert [b, rest] == [b] + [rest];
    }
  }

  lemma FreeAtLive(bs: seq<Block>, total: nat, i: nat)
    requires Segmented(bs, total) && 0 < i < |bs| - 1 && bs[i].kind == Used
    ensures Live(FreeAt(bs, i)) == Live(bs) - {bs[i]}
  {
    hide Tiled, Adjacent, Inner;
    var lo, hi := MergeFrom(bs, i), MergeTo(bs, i);
    var pre, mid, post := bs[..lo], bs[lo..hi], bs[hi..];
    MergedNeighbours(bs, total, i);
    assert bs == pre + mid + post;
    LiveSplice(pre, mid, post);
    LiveSplice(pre, [Spanning(bs, lo, hi)], post);
    MergedLive(bs, i);
    NoRepeat(bs, i);
  }

  lemma MergedLive(bs: seq<Block>, i: nat)
    requires 0 < i < |bs| - 1 && bs[i].kind == Used
    ensures Live(bs[MergeFrom(bs, i)..MergeTo(bs, i)]) == {bs[i]}
  {
    var lo, hi := MergeFrom(bs, i), MergeTo(bs, i);
    assert bs[lo..hi][i - lo] == bs[i];
  }

  lemma NoRepeat(bs: seq<Block>, i: nat)
    requires Tiled(bs) && 0 < i < |bs| - 1
    ensures bs[i] !in bs[..i] && bs[i] !in bs[i + 1..]
  {
    AllOrdered(bs);
  }

  /** The layout after an allocation of w words: first fit, or as it was when nothing fits. */
  ghost function AfterFit(bs: seq<Block>, w: nat): seq<Block> {
    if exists i {:trigger FirstFit(bs, w, i)} :: FirstFit(bs, w, i) then
      var i :| FirstFit(bs, w, i);
      AllocAt(bs, i, w)
    else bs
  }

  lemma AfterFitIs(bs: seq<Block>, w: nat, i: nat)
    requires FirstFit(bs, w, i)
    ensures AfterFit(bs, w) == AllocAt(bs, i, w)
  {
    forall j | FirstFit(bs, w, j) ensures j == i {
      OneFirstFit(bs, w, i, j);
    }
  }

  lemma OneFirstFit(bs: seq<Block>, w: nat, i: int, j: int)
    requires FirstFit(bs, w, i) && FirstFit(bs, w, j)
    ensures i == j
  {
    assert Fits(bs[i], w) && Fits(bs[j], w);
  }

  /** With a single free block, first fit takes that one. */
  lemma OnlyFit(bs: seq<Block>, i: nat, w: nat)
    requires i < |bs| && Fits(bs[i], w) && forall j {:trigger bs[j]} :: 0 <= j < |bs| && j != i ==> bs[j].kind != Free
    ensures AfterFit(bs, w) == AllocAt(bs, i, w)
  {
    assert FirstFit(bs, w, i);
    AfterFitIs(bs, w, i);
  }

  lemma Carved(pre: seq<Block>, b: Block, post: seq<Block>, w: nat)
    requires Fits(b, w) && forall c :: c in pre + post ==> c.kind != Free
    ensures AfterFit(pre + [b] + post, w)
            == pre + (if Splits(b.size, w) then Halves(b, w) else [b.(kind := Used)]) + post
  {
    var bs := pre + [b] + post;
    forall j | 0 <= j < |bs| && j != |pre| ensures bs[j] in pre + post {
      assert bs[j] == (pre + post)[if j < |pre| then j else j - 1];
    }
    OnlyFit(bs, |pre|, w);
  }

  lemma AfterNoFit(bs: seq<Block>, w: nat)
    requires NoFit(bs, w)
    ensures AfterFit(bs, w) == bs
  {
  }

  /** The layout alloc_initialize writes: one free block between FIRST and LAST. */
  function Initial(total: nat): (bs: seq<Block>)
    requires total >= MIN_SEGMENT
    ensures Segmented(bs, total) && Live(bs) == {}
  {
    [Block(SEGMENT_HEADER, 0, First),
     Block(SEGMENT_HEADER + OVERHEAD, total - MIN_SEGMENT, Free),
     Block(total - OVERHEAD, 0, Last)]
  }

  /** Releasing a block just allocated gives back the earlier layout, split or not. */
  lemma ReleaseUndoesAlloc(bs: seq<Block>, total: nat, i: nat, w: nat)
    requires Segmented(bs, total) && i < |bs| && Fits(bs[i], w)
    ensures 0 < i < |AllocAt(bs, i, w)| - 1 && Tiled(AllocAt(bs, i, w))
    ensures FreeAt(AllocAt(bs, i, w), i) == bs
  {
    var cs := AllocAt(bs, i, w);
    AllocAtSegmented(bs, total, i, w);
    AllocAtLive(bs, total, i, w);
    FreeAtSegmented(cs, total, i);
    FreeAtLive(cs, total, i);
    LayoutUnique(FreeAt(cs, i), bs, total);
  }

  // ----- Runs -----

  datatype Op = Malloc(nbytes: nat) | Release(block: Block)

  /** One call: a first fit or a failure that changes nothing; or the release of a live block. */
  ghost predicate Step(bs: seq<Block>, op: Op, cs: seq<Block>) {
    match op
    case Malloc(nbytes) =>
      || (NoFit(bs, Words(nbytes)) && cs == bs)
      || (exists i {:trigger bs[i]} :: FirstFit(bs, Words(nbytes), i) && cs == AllocAt(bs, i, Words(nbytes)))
    case Release(block) =>
      exists i {:trigger bs[i]} ::
        0 < i < |bs| - 1 && bs[i] == block && block.kind == Used && Tiled(bs) && cs == FreeAt(bs, i)
  }

  ghost predicate Run(states: seq<seq<Block>>, ops: seq<Op>) {
    && |states| == |ops| + 1
    && forall k {:trigger ops[k]} :: 0 <= k < |ops| ==> Step(states[k], ops[k], states[k + 1])
  }

  lemma StepSegmented(bs: seq<Block>, op: Op, cs: seq<Block>, total: nat)
    requires Segmented(bs, total) && Step(bs, op, cs)
    ensures Segmented(cs, total)
    ensures op.Release? ==> Live(cs) == Live(bs) - {op.block}
  {
    match op
    case Malloc(nbytes) =>
      var w := Words(nbytes);
      if !(NoFit(bs, w) && cs == bs) {
        var i :| FirstFit(bs, w, i) && cs == AllocAt(bs, i, w);
        assert FirstFit(bs, w, i);
        assert 0 <= i;
        AllocAtSegmented(bs, total, i, w);
      }
    case Release(block) =>
      var i :| 0 < i < |bs| - 1 && bs[i] == block && cs == FreeAt(bs, i);
      FreeAtSegmented(bs, total, i);
      FreeAtLive(bs, total, i);
  }

  /** Every state of every run from the initial segment is a well-formed tiling. */
  lemma {:induction false} RunSegmented(states: seq<seq<Block>>, ops: seq<Op>, total: nat, k: nat)
    requires total >= MIN_SEGMENT && Run(states, ops) && states[0] == Initial(total) && k <= |ops|
    ensures Segmented(states[k], total)
  {
    if k > 0 {
      RunSegmented(states, ops, total, k - 1);
      StepSegmented(states[k - 1], ops[k - 1], states[k], total);
    }
  }

  /** A run that has released everything it allocated is back at the initial layout. */
  lemma RunReturnsToInitial(states: seq<seq<Block>>, ops: seq<Op>, total: nat, k: nat)
    requires total >= MIN_SEGMENT && Run(states, ops) && states[0] == Initial(total) && k <= |ops|
    requires Live(states[k]) == {}
    ensures states[k] == Initial(total)
  {
    RunSegmented(states, ops, total, k);
    LayoutUnique(states[k], Initial(total), total);
  }

  ghost predicate Releases(ops: seq<Op>, blocks: set<Block>) {
    && (forall k {:trigger ops[k]} :: 0 <= k < |ops| ==> ops[k].Release?)
    && (forall b {:trigger b in blocks} :: b in blocks ==> Release(b) in ops)
  }

  /** Releasing all live blocks, in whatever order, leaves one free block of the initial size. */
  lemma ReleaseAllInAnyOrder(states: seq<seq<Block>>, ops: seq<Op>, total: nat)
    requires total >= MIN_SEGMENT && Run(states, ops) && Segmented(states[0], total)
    requires Releases(ops, Live(states[0]))
    ensures states[|ops|] == Initial(total)
  {
    ReleasedSoFar(states, ops, total, |ops|);
    forall b | b in Live(states[0]) ensures b !in Live(states[|ops|]) {
      var k :| 0 <= k < |ops| && ops[k] == Release(b);
    }
    assert Live(states[|ops|]) == {};
    LayoutUnique(states[|ops|], Initial(total), total);
  }

  lemma {:induction false} ReleasedSoFar(states: seq<seq<Block>>, ops: seq<Op>, total: nat, k: nat)
    requires Run(states, ops) && Segmented(states[0], total) && k <= |ops|
    requires forall j {:trigger ops[j]} :: 0 <= j < |ops| ==> ops[j].Release?
    ensures Segmented(states[k], total) && Live(states[k]) <= Live(states[0])
    ensures forall j {:trigger ops[j]} :: 0 <= j < k ==> ops[j].block !in Live(states[k])
  {
    if k > 0 {
      ReleasedSoFar(states, ops, total, k - 1);
      StepSegmented(states[k - 1], ops[k - 1], states[k], total);
    }
  }

  // ----- Accounting -----

  function Count(bs: seq<Block>, kind: Kind): nat {
    if bs == [] then 0 else (if bs[0].kind == kind then 1 else 0) + Count(bs[1..], kind)
  }

  function Payload(bs: seq<Block>, kind: Kind): nat {
    if bs == [] then 0 else (if bs[0].kind == kind then bs[0].size else 0) + Payload(bs[1..], kind)
  }

  lemma {:induction false} TallyConcat(a: seq<Block>, b: seq<Block>, kind: Kind)
    ensures Count(a + b, kind) == Count(a, kind) + Count(b, kind)
    ensures Payload(a + b, kind) == Payload(a, kind) + Payload(b, kind)
  {
    if a == [] {
      assert a + b == b;
    } else {
      TallyConcat(a[1..], b, kind);
      assert (a + b)[1..] == a[1..] + b;
    }
  }

  lemma TallySplice(pre: seq<Block>, mid: seq<Block>, post: seq<Block>, kind: Kind)
    ensures Count(pre + mid + post, kind) == Count(pre, kind) + Count(mid, kind) + Count(post, kind)
    ensures Payload(pre + mid + post, kind) == Payload(pre, kind) + Payload(mid, kind) + Payload(post, kind)
  {
    TallyConcat(pre + mid, post, kind);
    TallyConcat(pre, mid, kind);
  }

  /** The three counters of the segment header describe the layout. */
  ghost predicate Counters(bs: seq<Block>, freeSize: int, freeCount: int, usedCount: int) {
    freeSize == Payload(bs, Free) && freeCount == Count(bs, Free) && usedCount == Count(bs, Used)
  }

  lemma CountersAfterAlloc(bs: seq<Block>, i: nat, w: nat, freeSize: int, freeCount: int, usedCount: int)
    requires i < |bs| && Fits(bs[i], w) && Counters(bs, freeSize, freeCount, usedCount)
    ensures Splits(bs[i].size, w) ==> Counters(AllocAt(bs, i, w), freeSize - (w + OVERHEAD), freeCount, usedCount + 1)
    ensures !Splits(bs[i].size, w) ==> Counters(AllocAt(bs, i, w), freeSize - bs[i].size, freeCount - 1, usedCount + 1)
  {
    var b, pre, post := bs[i], bs[..i], bs[i + 1..];
    var mid := if Splits(b.size, w) then Halves(b, w) else [b.(kind := Used)];
    assert bs == pre + [b] + post;
    assert AllocAt(bs, i, w) == pre + mid + post;
    TallySplice(pre, [b], post, Free);
    TallySplice(pre, [b], post, Used);
    TallySplice(pre, mid, post, Free);
    TallySplice(pre, mid, post, Used);
    SmallTally([b]);
    SmallTally(mid);
  }

  lemma SmallTally(bs: seq<Block>)
    requires 1 <= |bs| <= 2
    ensures |bs| == 1 ==> forall kind :: Count(bs, kind) == (if bs[0].kind == kind then 1 else 0)
                                      && Payload(bs, kind) == (if bs[0].kind == kind then bs[0].size else 0)
    ensures |bs| == 2 ==>
              forall kind ::
              Count(bs, kind) == (if bs[0].kind == kind then 1 else 0) + (if bs[1].kind == kind then 1 else 0)
                                      && Payload(bs, kind) == (if bs[0].kind ==
                                            kind then bs[0].size else 0) + (if bs[1].kind ==
                                            kind then bs[1].size else 0)
  {
    if |bs| == 2 {
      assert bs == [bs[0]] + [bs[1]];
      forall kind { TallyConcat([bs[0]], [bs[1]], kind); }
    }
  }

  lemma CountersAfterFree(bs: seq<Block>, total: nat, i: nat, freeSize: int, freeCount: int, usedCount: int)
    requires Segmented(bs, total) && 0 < i < |bs| - 1 && bs[i].kind == Used
    requires Counters(bs, freeSize, freeCount, usedCount)
    ensures var merged := MergeTo(bs, i) - MergeFrom(bs, i) - 1;
            Counters(FreeAt(bs, i), freeSize + bs[i].size + merged * OVERHEAD, freeCount + 1 - merged, usedCount - 1)
  {
    var lo, hi := MergeFrom(bs, i), MergeTo(bs, i);
    var pre, mid, post := bs[..lo], bs[lo..hi], bs[hi..];
    MergedNeighbours(bs, total, i);
    assert bs == pre + mid + post;
    TallySplice(pre, mid, post, Free);
    TallySplice(pre, mid, post, Used);
    TallySplice(pre, [Spanning(bs, lo, hi)], post, Free);
    TallySplice(pre, [Spanning(bs, lo, hi)], post, Used);
    MergedTally(bs, total, i);
  }

  lemma MergedTally(bs: seq<Block>, total: nat, i: nat)
    requires Segmented(bs, total) && 0 < i < |bs| - 1 && bs[i].kind == Used
    ensures var lo, hi := MergeFrom(bs, i), MergeTo(bs, i);
            && bs[hi - 1].off + bs[hi - 1].size >= bs[lo].off
            && Count(bs[lo..hi], Free) == hi - lo - 1 && Count(bs[lo..hi], Used) == 1
            && Payload(bs[lo..hi], Used) == bs[i].size
            && Payload(bs[lo..hi], Free) + bs[i].size + (hi - lo - 1) * OVERHEAD == Spanning(bs, lo, hi).size
  {
    var lo, hi := MergeFrom(bs, i), MergeTo(bs, i);
    MergedNeighbours(bs, total, i);
    assert Adjacent(bs[i - 1], bs[i]) && Adjacent(bs[i], bs[i + 1]);
    var left := if lo < i then [bs[lo]] else [];
    var right := if hi > i + 1 then [bs[i + 1]] else [];
    assert bs[lo..hi] == left + [bs[i]] + right;
    TallySplice(left, [bs[i]], right, Free);
    TallySplice(left, [bs[i]], right, Used);
  }

  lemma {:induction false} Extent(bs: seq<Block>)
    requires |bs| > 0 && Tiled(bs)
    requires forall i {:trigger bs[i]} :: 0 <= i < |bs| ==> Inner(bs[i]) || bs[i].size == 0
    ensures bs[|bs| - 1].off + OVERHEAD + bs[|bs| - 1].size
         == bs[0].off + |bs| * OVERHEAD + Payload(bs, Free) + Payload(bs, Used)
  {
    if |bs| > 1 {
      assert Adjacent(bs[0], bs[1]);
      TiledPart(bs, 1, |bs|);
      assert bs[1..|bs|] == bs[1..];
      Extent(bs[1..]);
    } else {
      assert bs[1..] == [];
    }
  }

  lemma {:induction false} CountInner(bs: seq<Block>)
    requires forall i {:trigger bs[i]} :: 0 <= i < |bs| ==> Inner(bs[i])
    ensures Count(bs, Free) + Count(bs, Used) == |bs|
  {
    if bs != [] {
      CountInner(bs[1..]);
    }
  }

  lemma ExtentOf(bs: seq<Block>, total: nat)
    requires Segmented(bs, total)
    ensures total == SEGMENT_HEADER + |bs| * OVERHEAD + Payload(bs, Free) + Payload(bs, Used)
  {
    Extent(bs);
  }

  /** Segment size = header + (used + free + 2) overheads + free payload + used payload. */
  lemma Conservation(bs: seq<Block>, total: nat)
    requires Segmented(bs, total)
    ensures total == SEGMENT_HEADER + (Count(bs, Used) + Count(bs, Free) + 2) * OVERHEAD
                     + Payload(bs, Free) + Payload(bs, Used)
  {
    hide Tiled, Adjacent;
    ExtentOf(bs, total);
    var inner := bs[1..|bs| - 1];
    assert bs == [bs[0]] + inner + [bs[|bs| - 1]];
    TallySplice([bs[0]], inner, [bs[|bs| - 1]], Free);
    TallySplice([bs[0]], inner, [bs[|bs| - 1]], Used);
    forall i | 0 <= i < |inner| ensures Inner(inner[i]) {
      assert inner[i] == bs[i + 1];
    }
    CountInner(inner);
  }

  lemma {:induction false} EachWithinPayload(bs: seq<Block>, i: nat)
    requires i < |bs|
    ensures bs[i].size <= Payload(bs, bs[i].kind)
  {
    if i > 0 {
      EachWithinPayload(bs[1..], i - 1);
    }
  }
}
