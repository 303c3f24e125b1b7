/** The shared memory segment as WinCache keeps it: an array of words with
    boundary tags and an intrusive free list, changed in place. */
module Segments {
  import opened Basics
  import opened Layout
  import opened Boundary

  datatype Code = NONFATAL | FATAL_ALLOC_NO_MEMORY | FATAL_ALLOC_SEGMENT_CORRUPT

  // What alloc_getinfo reports, in words.
  datatype Info = Info(totalSize: int, freeSize: int, usedCount: int, freeCount: int, memOverhead: int)

  // ----- Copying by bytes -----

  function Smaller(a: nat, b: nat): nat {
    if a < b then a else b
  }

  /** 256 to the k, for the byte positions inside a word. */
  function BytePower(k: nat): (p: nat)
    requires k <= 8
    ensures p > 0
  {
    match k
    case 0 => 1
    case 1 => 0x100
    case 2 => 0x1_0000
    case 3 => 0x100_0000
    case 4 => 0x1_0000_0000
    case 5 => 0x100_0000_0000
    case 6 => 0x1_0000_0000_0000
    case 7 => 0x100_0000_0000_0000
    case 8 => 0x1_0000_0000_0000_0000
  }

  /** dst with its k low-order bytes replaced by those of src (little endian). */
  function MergeLow(dst: int, src: int, k: nat): int
    requires k <= 8
  {
    src % BytePower(k) + (dst / BytePower(k)) * BytePower(k)
  }

  lemma LowBytesMerged(dst: int, src: int, k: nat)
    requires k < 8
    ensures MergeLow(dst, src, k) % BytePower(k) == src % BytePower(k)
  {
    RemainderIs(MergeLow(dst, src, k), dst / BytePower(k), src % BytePower(k), BytePower(k));
  }

  /** The first n bytes of the two payloads are equal. */
  ghost predicate SameBytes(p: seq<int>, q: seq<int>, n: nat) {
    && n <= WORD_BYTES * |p| && n <= WORD_BYTES * |q|
    && (forall k {:trigger p[k]} {:trigger q[k]} :: 0 <= k < n / WORD_BYTES ==> p[k] == q[k])
    && (n % WORD_BYTES != 0 ==>
          p[n / WORD_BYTES] % BytePower(n % WORD_BYTES) == q[n / WORD_BYTES] % BytePower(n % WORD_BYTES))
  }

  /** The payload words of block b. */
  ghost function PayloadOf(m: seq<int>, b: Block): seq<int>
    requires b.off + OVERHEAD + b.size <= |m|
  {
    m[b.off + BLOCK_HEADER..b.off + BLOCK_HEADER + b.size]
  }

  /** Every block of live holds the same payload in m and in n. */
  ghost predicate Keeps(m: seq<int>, n: seq<int>, live: set<Block>) {
    && |m| == |n|
    && forall b {:trigger b in live} :: b in live ==>
         b.off + OVERHEAD + b.size <= |m| && PayloadOf(m, b) == PayloadOf(n, b)
  }

  lemma KeepsTrans(m: seq<int>, n: seq<int>, o: seq<int>, live: set<Block>, less: set<Block>)
    requires Keeps(m, n, live) && Keeps(n, o, less) && less <= live
    ensures Keeps(m, o, less)
  {
  }

  lemma KeepsLess(m: seq<int>, n: seq<int>, live: set<Block>, less: set<Block>)
    requires Keeps(m, n, live) && less <= live
    ensures Keeps(m, n, less)
  {
  }

  lemma KeepsBoth(m: seq<int>, n: seq<int>, o: seq<int>, a: set<Block>, b: set<Block>, less: set<Block>)
    requires Keeps(m, n, a) && Keeps(n, o, b) && less <= a && less <= b
    ensures Keeps(m, o, less)
  {
  }

  lemma KeepsSelf(m: seq<int>, bs: seq<Block>)
    requires Holds(m, bs)
    ensures Keeps(m, m, Live(bs))
  {
    forall b | b in Live(bs) ensures b.off + OVERHEAD + b.size <= |m| {
      PayloadInside(m, bs, b);
    }
  }

  lemma LiveRange(bs: seq<Block>, lo: nat, hi: nat, i: nat)
    requires lo <= hi <= |bs| && i < |bs|
    ensures lo <= i < hi && bs[i].kind == Used ==> bs[i] in Live(bs[lo..hi])
  {
    if lo <= i < hi {
      assert bs[lo..hi][i - lo] == bs[i];
    }
  }

  lemma KeepsAfter(m: seq<int>, n: seq<int>, bs: seq<Block>, lo: nat, hi: nat)
    requires Holds(m, bs) && 0 < lo <= hi < |bs|
    requires |Nodes(bs[..lo])| > 0 && |Nodes(bs[hi..])| > 0
    requires SameOutside(m, n, bs[lo].off, bs[hi].off, NodeBefore(bs, lo) + 3, NodeAfter(bs, hi) + 2)
    ensures Keeps(m, n, Live(bs) - Live(bs[lo..hi]))
  {
    hide Linked, Tiled, NodeBefore, NodeAfter, Nodes;
    forall b | b in Live(bs) - Live(bs[lo..hi])
      ensures b.off + OVERHEAD + b.size <= |m| && PayloadOf(m, b) == PayloadOf(n, b)
    {
      var i :| 0 <= i < |bs| && bs[i] == b;
      LiveRange(bs, lo, hi, i);
      assert Stored(m, bs[i]);
      PayloadElsewhere(m, n, bs, lo, hi, i);
    }
  }

  /** A free block carries the offsets of its neighbours on the list. */
  lemma FreeLinks(m: seq<int>, bs: seq<Block>, i: nat)
    requires Holds(m, bs) && 0 < i < |bs| - 1 && bs[i].kind == Free
    ensures |Nodes(bs[..i])| > 0 && |Nodes(bs[i + 1..])| > 0
    ensures bs[i].off + 3 < |m|
    ensures m[bs[i].off + 2] == NodeBefore(bs, i) && m[bs[i].off + 3] == NodeAfter(bs, i + 1)
  {
    NodesAround(bs, |m|, i, i + 1);
    OneNode(bs[i]);
    assert bs[i..i + 1] == [bs[i]];
    hide Nodes, Segmented, AllStored, Linked;
    var ns, k := Nodes(bs), |Nodes(bs[..i])|;
    assert ns[k] == bs[i].off && ns[k - 1] == NodeBefore(bs, i) && ns[k + 1] == NodeAfter(bs, i + 1);
    LinksAt(m, ns, k);
  }

  lemma LinksAt(m: seq<int>, ns: seq<nat>, k: nat)
    requires Linked(m, ns) && 0 < k < |ns| - 1
    ensures Link(m, ns[k - 1], ns[k]) && Link(m, ns[k], ns[k + 1])
  {
  }

  lemma OneNode(b: Block)
    ensures Nodes([b]) == if b.kind == Used then [] else [b.off]
  {
    assert [b][1..] == [];
  }

  lemma {:induction false} NoNodes(bs: seq<Block>)
    requires forall i {:trigger bs[i]} :: 0 <= i < |bs| ==> bs[i].kind == Used
    ensures Nodes(bs) == []
  {
    if bs != [] {
      NoNodes(bs[1..]);
    }
  }

  /** The first block at or after hi that is not in use is the next node. */
  lemma NodeAfterIs(bs: seq<Block>, total: nat, hi: nat, j: nat)
    requires Segmented(bs, total) && 0 < hi <= j < |bs| && bs[j].kind != Used
    requires forall k {:trigger bs[k]} :: hi <= k < j ==> bs[k].kind == Used
    ensures |Nodes(bs[hi..])| > 0 && NodeAfter(bs, hi) == bs[j].off
  {
    assert bs[hi..] == bs[hi..j] + [bs[j]] + bs[j + 1..];
    NodesSplice(bs[hi..j], [bs[j]], bs[j + 1..]);
    NoNodes(bs[hi..j]);
    OneNode(bs[j]);
  }

  /** The word a node stores as its previous offset is the node before it. */
  lemma NodeBeforeIs(m: seq<int>, bs: seq<Block>, hi: nat)
    requires Holds(m, bs) && 0 < hi < |bs| && |Nodes(bs[..hi])| > 0 && |Nodes(bs[hi..])| > 0
    ensures NodeAfter(bs, hi) + 2 < |m| && m[NodeAfter(bs, hi) + 2] == NodeBefore(bs, hi)
    ensures NodeBefore(bs, hi) + 3 < |m| && m[NodeBefore(bs, hi) + 3] == NodeAfter(bs, hi)
  {
    NodesAround(bs, |m|, hi, hi);
    assert bs[hi..hi] == [];
    var ns, k := Nodes(bs), |Nodes(bs[..hi])|;
    assert ns[k - 1] == NodeBefore(bs, hi) && ns[k] == NodeAfter(bs, hi);
    assert Link(m, ns[k - 1], ns[k]);
  }

  /** What the marker word of block i reads once the block is released.  A block merged into the free
      block before it, and not with the one after it, keeps its old marker. */
  ghost function StaleMarker(bs: seq<Block>, i: nat): int
    requires 0 < i < |bs| - 1
  {
    if bs[i - 1].kind == Free && bs[i + 1].kind != Free then MARK_USED else MARK_FREE
  }

  ghost predicate NoUsedAt(bs: seq<Block>, off: nat) {
    forall i {:trigger bs[i]} :: 0 <= i < |bs| && bs[i].kind == Used ==> bs[i].off != off
  }

  /** At every offset where a block starts, the marker test of free_memory is exact. */
  lemma MarkerTest(m: seq<int>, bs: seq<Block>, i: nat)
    requires Holds(m, bs) && i < |bs|
    ensures bs[i].off + 1 < |m| && (m[bs[i].off + 1] == MARK_USED <==> !NoUsedAt(bs, bs[i].off))
  {
    assert Stored(m, bs[i]);
    AllOrdered(bs);
  }

  lemma NoLongerUsed(bs: seq<Block>, total: nat, i: nat)
    requires Segmented(bs, total) && 0 < i < |bs| - 1 && bs[i].kind == Used
    ensures !NoUsedAt(bs, bs[i].off) && NoUsedAt(FreeAt(bs, i), bs[i].off)
  {
    var cs := FreeAt(bs, i);
    FreeAtLive(bs, total, i);
    AllOrdered(bs);
    forall k | 0 <= k < |cs| && cs[k].kind == Used ensures cs[k].off != bs[i].off {
      assert cs[k] in Live(cs);
      var j :| 0 <= j < |bs| && bs[j] == cs[k];
    }
  }

  class Segment {
    const mem: array<int>
    // alloc_segment_header, kept in words 0..5 of the segment by WinCache
    var totalSize: int
    var freeSize: int
    var usedCount: int
    var freeCount: int
    var cacheHeader1: int
    var cacheHeader2: int

    // The layout the memory holds.
    ghost var blocks: seq<Block>

    ghost predicate Valid()
      reads this, mem
    {
      && totalSize == mem.Length
      && Holds(mem[..], blocks)
      && Counters(blocks, freeSize, freeCount, usedCount)
    }

    /** The part of alloc_initialize that writes a fresh segment. */
    constructor (size: nat)
      requires size >= MIN_SEGMENT
      ensures Valid() && fresh(mem) && mem.Length == size
      ensures blocks == Initial(size) && freeSize == size - MIN_SEGMENT
      ensures cacheHeader1 == 0 && cacheHeader2 == 0
    {
      mem := new int[size];
      totalSize := size;
      freeSize := size - MIN_SEGMENT;
      cacheHeader1, cacheHeader2 := 0, 0;
      usedCount, freeCount := 0, 1;
      blocks := Initial(size);
      new;
      var frestart := SEGMENT_HEADER;
      var fremid := frestart + OVERHEAD;
      var freend := fremid + OVERHEAD + (size - MIN_SEGMENT);
      PutBlock(frestart, 0, MARK_FIRST, 0, fremid);
      PutBlock(fremid, size - MIN_SEGMENT, MARK_FREE, frestart, freend);
      PutBlock(freend, 0, MARK_LAST, fremid, 0);
      InitialHolds(mem[..]);
      InitialCounters(size);
    }

    /** Writes one header and its footer. */
    method PutBlock(o: nat, size: nat, marker: int, w2: int, w3: int)
      requires o + OVERHEAD + size <= mem.Length
      modifies mem
      ensures mem[o] == size && mem[o + 1] == marker && mem[o + 2] == w2 && mem[o + 3] == w3
      ensures mem[o + BLOCK_HEADER + size] == size
      ensures forall k {:trigger mem[k]} ::
                0 <= k < mem.Length && !(o <= k < o + BLOCK_HEADER) && k != o + BLOCK_HEADER + size ==>
                mem[k] == old(mem[k])
    {
      mem[o], mem[o + 1], mem[o + 2], mem[o + 3] := size, marker, w2, w3;
      mem[o + BLOCK_HEADER + size] := size;
    }

    /** The search over the free list for the first block that holds w words.  None of the tests for
        a corrupt list on the way ever fires. */
    method FindFit(w: nat) returns (corrupt: bool, freeh: nat, ghost i: nat)
      requires Valid()
      ensures !corrupt
      ensures 0 < i < |blocks| && freeh == blocks[i].off
      ensures forall j {:trigger blocks[j]} :: 0 <= j < i ==> !Fits(blocks[j], w)
      ensures if i == |blocks| - 1 then mem[freeh + 1] == MARK_LAST
              else mem[freeh + 1] == MARK_FREE               && Fits(blocks[i], w)
    {
      i := NextNode(mem[..], blocks, 0);
      assert Stored(mem[..], blocks[0]) && Stored(mem[..], blocks[i]);
      corrupt := mem[SEGMENT_HEADER + 1] != MARK_FIRST;
      freeh := mem[SEGMENT_HEADER + 3];
      corrupt := corrupt || (mem[freeh + 1] != MARK_FREE && mem[freeh + 1] != MARK_LAST);
      while !corrupt && mem[freeh + 1] != MARK_LAST
        invariant !corrupt && 0 < i < |blocks| && freeh == blocks[i].off && blocks[i].kind != Used
        invariant Stored(mem[..], blocks[i])
        invariant forall j {:trigger blocks[j]} :: 0 <= j < i ==> !Fits(blocks[j], w)
        decreases |blocks| - i
      {
        corrupt := mem[freeh + 1] != MARK_FREE;
        if corrupt || mem[freeh] >= w {
          break;
        }
        ghost var j := NextNode(mem[..], blocks, i);
        freeh := mem[freeh + 3];
        i := j;
        assert Stored(mem[..], blocks[i]);
      }
    }

    /** allocate_memory.  It succeeds or runs out of memory; it never reports a corrupt segment. */
    method AllocateMemory(nbytes: nat) returns (code: Code, paddr: nat, ghost at: nat)
      requires Valid()
      modifies this`freeSize, this`freeCount, this`usedCount, this`blocks, mem
      ensures Valid()
      ensures code != FATAL_ALLOC_SEGMENT_CORRUPT
      ensures code == FATAL_ALLOC_NO_MEMORY <==> NoFit(old(blocks), Words(nbytes))
      ensures code == FATAL_ALLOC_NO_MEMORY ==> paddr == 0 && mem[..] == old(mem[..]) && blocks == old(blocks)
      ensures code == NONFATAL ==>
                FirstFit(old(blocks), Words(nbytes), at) && blocks == AllocAt(old(blocks), at, Words(nbytes))
                && paddr == old(blocks)[at].off + BLOCK_HEADER
      ensures code == FATAL_ALLOC_NO_MEMORY <==> forall i {:trigger old(blocks)[i]} ::
                0 <= i < |old(blocks)| && old(blocks)[i].kind == Free ==> old(blocks)[i].size < Words(nbytes)
      ensures code == NONFATAL ==>
                && old(blocks)[at].kind == Free && old(blocks)[at].size >= Words(nbytes)
                && forall i {:trigger old(blocks)[i]} :: 0 <= i < at && old(blocks)[i].kind == Free ==>
                     old(blocks)[i].size < Words(nbytes)
      ensures code == NONFATAL ==>
                var b, w := old(blocks)[at], Words(nbytes);
                if b.size > w + OVERHEAD then
                  && blocks == old(blocks)[..at] + [Block(b.off, w, Used),
                       Block(b.off + OVERHEAD + w, b.size - w - OVERHEAD, Free)] + old(blocks)[at + 1..]
                  && freeSize == old(freeSize) - (w + OVERHEAD)
                  && freeCount == old(freeCount) && usedCount == old(usedCount) + 1
                else
                  && blocks == old(blocks)[..at] + [b.(kind := Used)] + old(blocks)[at + 1..]
                  && freeSize == old(freeSize) - b.size
                  && freeCount == old(freeCount) - 1 && usedCount == old(usedCount) + 1
      ensures code != NONFATAL ==>
                freeSize == old(freeSize) && freeCount == old(freeCount) && usedCount == old(usedCount)
      ensures Step(old(blocks), Malloc(nbytes), blocks)
      ensures Keeps(old(mem[..]), mem[..], Live(old(blocks)))
    {
      var w := Words(nbytes);
      assert mem[..] == old(mem[..]);
      if freeSize < w {
        SmallSegmentNoFit(blocks, w);
        return FATAL_ALLOC_NO_MEMORY, 0, 0;
      }
      var corrupt, freeh;
      corrupt, freeh, at := FindFit(w);
      code := if corrupt then FATAL_ALLOC_SEGMENT_CORRUPT
              else if mem[freeh + 1] == MARK_LAST then FATAL_ALLOC_NO_MEMORY
              else NONFATAL;
      if code != NONFATAL {
        return code, 0, 0;
      }
      if WORD_BYTES * mem[freeh] >= WORD_BYTES * w + MIN_FREE_BLOCK_BYTES {
        SplitBlock(freeh, w, at);
      } else {
        TakeBlock(freeh, at);
      }
      return NONFATAL, freeh + BLOCK_HEADER, at;
    }

    /** The branch that cuts the request off the front of a larger free block. */
    method SplitBlock(freeh: nat, size: nat, ghost i: nat)
      requires Valid() && 0 < i < |blocks| - 1 && freeh == blocks[i].off && Fits(blocks[i], size)
               && Splits(blocks[i].size, size)
      modifies this`freeSize, this`usedCount, this`blocks, mem
      ensures Valid() && blocks == AllocAt(old(blocks), i, size)
      ensures freeSize == old(freeSize) - (size + OVERHEAD) && usedCount == old(usedCount) + 1
      ensures Keeps(old(mem[..]), mem[..], Live(old(blocks)))
    {
      hide Counters, Keeps, Linked, AllStored, Tiled, SameOutside;
      ghost var was, bs := mem[..], blocks;
      FreeLinks(was, bs, i);
      FreeExtent(was, bs, i);
      NodeOffsets(bs, mem.Length, i, i + 1);
      WriteSplit(freeh, size, bs[i].size, NodeBefore(bs, i), NodeAfter(bs, i + 1));
      freeSize := freeSize - (size + OVERHEAD);
      usedCount := usedCount + 1;
      blocks := AllocAt(bs, i, size);
      CountersAfterAlloc(bs, i, size, old(freeSize), old(freeCount), old(usedCount));
      SplitHolds(was, mem[..], bs, i, size);
      FreeBlockKeeps(was, mem[..], bs, i);
    }

    /** The memory writes of the split branch. */
    method WriteSplit(freeh: nat, size: nat, ghost have: nat, ghost prev: nat, ghost next: nat)
      requires have >= size + OVERHEAD && freeh + OVERHEAD + have <= next && next + OVERHEAD <= mem.Length
               && prev + OVERHEAD <= freeh
      requires mem[freeh] == have && mem[freeh + 2] == prev && mem[freeh + 3] == next
      modifies mem
      ensures SameOutside(old(mem[..]), mem[..], freeh, freeh + OVERHEAD + have, prev + 3, next + 2)
      ensures var rest := freeh + OVERHEAD + size;
              && Stored(mem[..], Block(freeh, size, Used))
              && Stored(mem[..], Block(rest, have - size - OVERHEAD, Free))
              && Link(mem[..], prev, rest) && Link(mem[..], rest, next)
    {
      var oldsize, oldprev, oldnext := mem[freeh], mem[freeh + 2], mem[freeh + 3];
      PutBlock(freeh, size, MARK_USED, 0, 0);
      var rest := freeh + size + OVERHEAD;
      PutBlock(rest, oldsize - size - OVERHEAD, MARK_FREE, oldprev, oldnext);
      mem[oldprev + 3] := rest;
      mem[oldnext + 2] := rest;
    }

    /** The branch that hands out a free block whole. */
    method TakeBlock(freeh: nat, ghost i: nat)
      requires Valid() && 0 < i < |blocks| - 1 && freeh == blocks[i].off && blocks[i].kind == Free
      modifies this`freeSize, this`freeCount, this`usedCount, this`blocks, mem
      ensures Valid() && blocks == old(blocks)[..i] + [old(blocks)[i].(kind := Used)] + old(blocks)[i + 1..]
      ensures freeSize == old(freeSize) - old(blocks)[i].size
      ensures freeCount == old(freeCount) - 1 && usedCount == old(usedCount) + 1
      ensures Keeps(old(mem[..]), mem[..], Live(old(blocks)))
    {
      ghost var was, bs := mem[..], blocks;
      FreeLinks(was, bs, i);
      FreeExtent(was, bs, i);
      NodeOffsets(bs, mem.Length, i, i + 1);
      var size := mem[freeh];
      WriteTaken(freeh, size, NodeBefore(bs, i), NodeAfter(bs, i + 1));
      freeSize := freeSize - size;
      freeCount, usedCount := freeCount - 1, usedCount + 1;
      blocks := AllocAt(bs, i, size);
      CountersAfterAlloc(bs, i, size, old(freeSize), old(freeCount), old(usedCount));
      TakeHolds(was, mem[..], bs, i);
      FreeBlockKeeps(was, mem[..], bs, i);
    }

    /** The memory writes of the whole-block branch. */
    method WriteTaken(freeh: nat, size: nat, ghost prev: nat, ghost next: nat)
      requires freeh + OVERHEAD + size <= next && next + OVERHEAD <= mem.Length && prev + OVERHEAD <= freeh
      requires mem[freeh + 2] == prev && mem[freeh + 3] == next
      modifies mem
      ensures SameOutside(old(mem[..]), mem[..], freeh, freeh + OVERHEAD + size, prev + 3, next + 2)
      ensures Stored(mem[..], Block(freeh, size, Used)) && Link(mem[..], prev, next)
    {
      var p, n := mem[freeh + 2], mem[freeh + 3];
      mem[p + 3] := n;
      mem[n + 2] := p;
      PutBlock(freeh, size, MARK_USED, 0, 0);
    }

    /** Releases the block whose payload starts at paddr.  An address outside the segment,
        or one whose header is not marked used, changes nothing. */
    method FreeMemory(paddr: int, ghost i: nat)
      requires Valid()
      requires 0 <= paddr - BLOCK_HEADER <= mem.Length ==> paddr - BLOCK_HEADER + 1 < mem.Length
      requires 0 <= paddr - BLOCK_HEADER <= mem.Length && mem[paddr - BLOCK_HEADER + 1] == MARK_USED ==>
                 i < |blocks| && blocks[i].kind == Used && blocks[i].off == paddr - BLOCK_HEADER
      modifies this`freeSize, this`freeCount, this`usedCount, this`blocks, mem
      ensures Valid()
      ensures if old(0 <= paddr - BLOCK_HEADER <= mem.Length && mem[paddr - BLOCK_HEADER + 1] == MARK_USED)
              then 0 < i < |old(blocks)| - 1 && Tiled(old(blocks)) && blocks == FreeAt(old(blocks), i)
                   && Keeps(old(mem[..]), mem[..], Live(old(blocks)) - {old(blocks)[i]})
                   && mem[paddr - BLOCK_HEADER + 1] == StaleMarker(old(blocks), i)
                   && usedCount == old(usedCount) - 1 && freeCount == old(freeCount) + 1 - FreeBeside(old(blocks), i)
                   && freeSize == old(freeSize) + old(blocks)[i].size + 5 * FreeBeside(old(blocks), i)
              else mem[..] == old(mem[..]) && blocks == old(blocks) && usedCount == old(usedCount)
                   && freeCount == old(freeCount) && freeSize == old(freeSize)
    {
      assert mem[..] == old(mem[..]);
      var usedh := paddr - BLOCK_HEADER;
      if usedh < 0 || usedh > mem.Length {
        return;
      }
      if mem[usedh + 1] != MARK_USED {
        return;
      }
      UsedIsInner(blocks, mem.Length, i);
      ReleaseBlock(usedh, i);
    }

    method ReleaseBlock(usedh: nat, ghost i: nat)
      requires Valid() && 0 < i < |blocks| - 1 && blocks[i].kind == Used && blocks[i].off == usedh
      modifies this`freeSize, this`freeCount, this`usedCount, this`blocks, mem
      ensures usedh + 1 < mem.Length && mem[usedh + 1] == StaleMarker(old(blocks), i)
      ensures Valid() && Tiled(old(blocks)) && blocks == FreeAt(old(blocks), i)
      ensures Keeps(old(mem[..]), mem[..], Live(old(blocks)) - {old(blocks)[i]})
      ensures var n := FreeBeside(old(blocks), i);
              && usedCount == old(usedCount) - 1 && freeCount == old(freeCount) + 1 - n
              && freeSize == old(freeSize) + old(blocks)[i].size + 5 * n
    {
      ghost var was, bs := mem[..], blocks;
      Surroundings(was, bs, i);
      hide Linked, AllStored, Keeps;
      usedCount, freeCount := usedCount - 1, freeCount + 1;
      freeSize := freeSize + mem[usedh];
      var combined, combinedPrev := Coalesce(usedh, bs, i);
      if combined {
        freeCount, freeSize := freeCount - 1, freeSize + OVERHEAD;
      }
      if combinedPrev {
        freeCount, freeSize := freeCount - 1, freeSize + OVERHEAD;
      }
      blocks := FreeAt(bs, i);
      CountersAfterFree(bs, mem.Length, i, old(freeSize), old(freeCount), old(usedCount));
    }

    /** The memory side of a release: merge right, merge left, or link between two nodes. */
    method Coalesce(usedh: nat, ghost bs: seq<Block>, ghost i: nat) returns (combined: bool, combinedPrev: bool)
      requires Holds(mem[..], bs) && InUse(bs, i) && bs[i].off == usedh
      modifies mem
      ensures combined <==> bs[i + 1].kind == Free
      ensures combinedPrev <==> bs[i - 1].kind == Free
      ensures Holds(mem[..], FreeAt(bs, i)) && Keeps(old(mem[..]), mem[..], Live(bs) - {bs[i]})
      ensures usedh + 1 < mem.Length && mem[usedh + 1] == StaleMarker(bs, i)
    {
      ghost var was := mem[..];
      FreeExtent(was, bs, i);
      combined := MergeNext(usedh, bs, i);
      combinedPrev := MergePrev(usedh, combined, was, bs, i);
      if !combined && !combinedPrev {
        LinkAlone(usedh, bs, i);
      }
      MergedHolds(was, mem[..], bs, i);
    }

    /** First coalescing step: the block after the released one is free. */
    method MergeNext(usedh: nat, ghost bs: seq<Block>, ghost i: nat) returns (combined: bool)
      requires Holds(mem[..], bs) && InUse(bs, i) && bs[i].off == usedh
      modifies mem
      ensures combined <==> bs[i + 1].kind == Free
      ensures !combined ==> mem[..] == old(mem[..])
      ensures combined ==> MergedRight(old(mem[..]), mem[..], bs, i)
      ensures usedh + 1 < mem.Length && mem[usedh + 1] == if combined then MARK_FREE else MARK_USED
    {
      assert mem[..] == old(mem[..]);
      Surroundings(mem[..], bs, i);
      var blocksiz := mem[usedh];
      var freeh := usedh + blocksiz + OVERHEAD;
      combined := mem[freeh + 1] == MARK_FREE;
      if combined {
        ghost var was := mem[..];
        NextReady(was, bs, i);
        WriteMergeNext(usedh, blocksiz, freeh);
        NextMerged(was, mem[..], bs, i);
      }
    }

    method WriteMergeNext(usedh: nat, blocksiz: nat, freeh: nat)
      requires freeh == usedh + blocksiz + OVERHEAD && freeh + OVERHEAD <= mem.Length
      requires mem[freeh] >= 0 && 0 <= mem[freeh + 2] && mem[freeh + 2] + OVERHEAD <= usedh
      requires freeh + OVERHEAD + mem[freeh] <= mem[freeh + 3] && mem[freeh + 3] + OVERHEAD <= mem.Length
      modifies mem
      ensures var size := old(mem[freeh]) + OVERHEAD + blocksiz;
              var prev, next := old(mem[freeh + 2]), old(mem[freeh + 3]);
              && SameOutside(old(mem[..]), mem[..], usedh, usedh + OVERHEAD + size, prev + 3, next + 2)
              && Stored(mem[..], Block(usedh, size, Free))
              && Link(mem[..], prev, usedh) && Link(mem[..], usedh, next)
    {
      var size, prev, next := mem[freeh] + OVERHEAD + blocksiz, mem[freeh + 2], mem[freeh + 3];
      PutBlock(usedh, size, MARK_FREE, prev, next);
      mem[prev + 3] := usedh;
      mem[next + 2] := usedh;
    }

    /** Second coalescing step: the block before the released one is free. */
    method MergePrev(usedh: nat, combined: bool, ghost was: seq<int>, ghost bs: seq<Block>, ghost i: nat)
      returns (combinedPrev: bool)
      requires Holds(was, bs) && |was| == mem.Length && InUse(bs, i) && bs[i].off == usedh
      requires combined <==> bs[i + 1].kind == Free
      requires if combined then MergedRight(was, mem[..], bs, i) else mem[..] == was
      modifies mem
      ensures combinedPrev <==> bs[i - 1].kind == Free
      ensures !combinedPrev ==> mem[..] == old(mem[..])
      ensures combined || combinedPrev ==> Merged(was, mem[..], bs, i)
      ensures usedh + 1 < mem.Length && mem[usedh + 1] == old(mem[usedh + 1])
    {
      hide AllStored, Linked, Tiled, Nodes, SameOutside;
      assert mem[..] == old(mem[..]);
      Surroundings(was, bs, i);
      PreviousFooter(was, mem[..], bs, i);
      var lastsize := mem[usedh - 1];
      var freeh := usedh - OVERHEAD - lastsize;
      combinedPrev := mem[freeh + 1] == MARK_FREE;
      if combinedPrev && !combined {
        WriteGrow(freeh, usedh);
        GrownMerged(was, mem[..], bs, i);
      } else if combinedPrev {
        BothReady(was, mem[..], bs, i);
        ghost var mid := mem[..];
        WriteMergeBoth(freeh, usedh);
        BothMerged(was, mid, mem[..], bs, i);
      } else if combined {
        NodeBeforeUsed(bs, mem.Length, i);
      }
    }

    method WriteGrow(freeh: nat, usedh: nat)
      requires freeh + OVERHEAD <= usedh && usedh + OVERHEAD <= mem.Length
      requires 0 <= mem[usedh] && usedh + OVERHEAD + mem[usedh] <= mem.Length
      requires mem[freeh] == usedh - freeh - OVERHEAD && mem[freeh + 1] == MARK_FREE
      modifies mem
      ensures var size := usedh - freeh + old(mem[usedh]);
              && Stored(mem[..], Block(freeh, size, Free))
              && mem[freeh + 2] == old(mem[freeh + 2]) && mem[freeh + 3] == old(mem[freeh + 3])
              && SameOutside(old(mem[..]), mem[..], freeh, freeh + OVERHEAD + size, freeh, freeh)
      ensures mem[usedh + 1] == old(mem[usedh + 1])
    {
      mem[freeh] := mem[freeh] + (mem[usedh] + OVERHEAD);
      mem[freeh + BLOCK_HEADER + mem[freeh]] := mem[freeh];
    }

    method WriteMergeBoth(freeh: nat, usedh: nat)
      requires freeh + OVERHEAD <= usedh && usedh + OVERHEAD <= mem.Length
      requires 0 <= mem[usedh] && usedh + OVERHEAD + mem[usedh] <= mem[usedh + 3]
               && mem[usedh + 3] + OVERHEAD <= mem.Length
      requires mem[freeh] == usedh - freeh - OVERHEAD && mem[freeh + 1] == MARK_FREE
      modifies mem
      ensures var size, next := usedh - freeh + old(mem[usedh]), old(mem[usedh + 3]);
              && Stored(mem[..], Block(freeh, size, Free))
              && mem[freeh + 2] == old(mem[freeh + 2]) && Link(mem[..], freeh, next)
              && SameOutside(old(mem[..]), mem[..], freeh, freeh + OVERHEAD + size, next + 2, next + 2)
      ensures mem[usedh + 1] == old(mem[usedh + 1])
    {
      mem[freeh] := mem[freeh] + (mem[usedh] + OVERHEAD);
      mem[freeh + 3] := mem[usedh + 3];
      mem[mem[usedh + 3] + 2] := freeh;
      mem[freeh + BLOCK_HEADER + mem[freeh]] := mem[freeh];
    }

    /** Neither neighbour is free: walk forward over used blocks to the next node and link there. */
    method LinkAlone(usedh: nat, ghost bs: seq<Block>, ghost i: nat)
      requires Holds(mem[..], bs) && InUse(bs, i) && bs[i].off == usedh
      requires bs[i - 1].kind != Free && bs[i + 1].kind != Free
      modifies mem
      ensures Merged(old(mem[..]), mem[..], bs, i)
      ensures usedh + 1 < mem.Length && mem[usedh + 1] == MARK_FREE
    {
      hide SameOutside, Linked, AllStored;
      ghost var was := mem[..];
      var freeh;
      ghost var j;
      freeh, j := WalkToNode(usedh, bs, i);
      AloneReady(was, bs, i, j);
      Surroundings(was, bs, i);
      WriteAlone(usedh, mem[freeh + 2], freeh);
      AloneMerged(was, mem[..], bs, i);
    }

    /** Steps over used blocks to the next free block, or to LAST; the code's test for anything else
        never fires. */
    method WalkToNode(usedh: nat, ghost bs: seq<Block>, ghost i: nat) returns (freeh: nat, ghost j: nat)
      requires Holds(mem[..], bs) && InUse(bs, i) && bs[i].off == usedh
      ensures i < j < |bs| && bs[j].kind != Used && freeh == bs[j].off
      ensures forall k {:trigger bs[k]} :: i < k < j ==> bs[k].kind == Used
      ensures mem[freeh + 1] == MARK_FREE || mem[freeh + 1] == MARK_LAST
    {
      Surroundings(mem[..], bs, i);
      freeh, j := usedh + mem[usedh] + OVERHEAD, i + 1;
      while mem[freeh + 1] == MARK_USED
        invariant i < j < |bs| && freeh == bs[j].off && Stored(mem[..], bs[j])
        invariant forall k {:trigger bs[k]} :: i < k < j ==> bs[k].kind == Used
        decreases |bs| - j
      {
        FreeExtent(mem[..], bs, j);
        freeh := freeh + mem[freeh] + OVERHEAD;
        j := j + 1;
        assert Stored(mem[..], bs[j]);
      }
    }

    method WriteAlone(usedh: nat, prev: nat, next: nat)
      requires prev + OVERHEAD <= usedh && next + OVERHEAD <= mem.Length && usedh + OVERHEAD <= next
      requires 0 <= mem[usedh] && usedh + OVERHEAD + mem[usedh] <= next
               && mem[usedh + BLOCK_HEADER + mem[usedh]] == mem[usedh]
      modifies mem
      ensures var size := old(mem[usedh]);
              && SameOutside(old(mem[..]), mem[..], usedh, usedh + OVERHEAD + size, prev + 3, next + 2)
              && Stored(mem[..], Block(usedh, size, Free))
              && Link(mem[..], prev, usedh) && Link(mem[..], usedh, next)
    {
      mem[usedh + 1], mem[usedh + 3], mem[usedh + 2] := MARK_FREE, next, prev;
      mem[prev + 3] := usedh;
      mem[next + 2] := usedh;
    }

    /** A block released, and its pointer released again.  The second call is refused unless the block
        went into the free block before it and not into the one after it; then the marker test passes
        although no block in use starts there. */
    method ReleaseTwice(paddr: nat, ghost i: nat) returns (refused: bool)
      requires Valid() && 0 < i < |blocks| - 1 && blocks[i].kind == Used && paddr == blocks[i].off + BLOCK_HEADER
      modifies this`freeSize, this`freeCount, this`usedCount, this`blocks, mem
      ensures Valid() && Tiled(old(blocks)) && blocks == FreeAt(old(blocks), i)
      ensures !refused <==> old(blocks)[i - 1].kind == Free && old(blocks)[i + 1].kind != Free
      ensures !NoUsedAt(old(blocks), paddr - BLOCK_HEADER) && NoUsedAt(blocks, paddr - BLOCK_HEADER)
    {
      FreeExtent(mem[..], blocks, i);
      FreeMemory(paddr, i);
      NoLongerUsed(old(blocks), mem.Length, i);
      refused := mem[paddr - BLOCK_HEADER + 1] != MARK_USED;
      if refused {
        FreeMemory(paddr, 0);
      }
    }

    /** A holder's own data can pass for a marker: the test accepts a pointer into its payload. */
    method MarkerInPayload(paddr: nat, ghost b: Block) returns (refused: bool)
      requires Valid() && Owns(b, paddr) && b.size > 0
      modifies mem
      ensures Valid() && !refused && NoUsedAt(blocks, paddr + 3 - BLOCK_HEADER)
    {
      PayloadInside(mem[..], blocks, b);
      AllOrdered(blocks);
      Poke(paddr, MARK_USED, b);
      refused := mem[paddr + 3 - BLOCK_HEADER + 1] != MARK_USED;
    }

    // ----- The interface of the shared heap, in terms of live blocks -----

    /** A live block and the address its holder uses for it. */
    ghost predicate Owns(b: Block, paddr: int)
      reads this
    {
      b in Live(blocks) && paddr == b.off + BLOCK_HEADER
    }

    /** alloc_smalloc: NULL (0) exactly when no free block fits, and then nothing has changed. */
    method Smalloc(nbytes: nat) returns (paddr: nat, ghost b: Block)
      requires Valid()
      modifies this`freeSize, this`freeCount, this`usedCount, this`blocks, mem
      ensures Valid()
      ensures paddr == 0 <==> NoFit(old(blocks), Words(nbytes))
      ensures paddr == 0 ==> mem[..] == old(mem[..])
      ensures blocks == AfterFit(old(blocks), Words(nbytes))
      ensures paddr == 0 ==> blocks == old(blocks)
      ensures paddr != 0 ==> Owns(b, paddr) && b !in Live(old(blocks)) && Live(blocks) == Live(old(blocks)) + {b}
                             && Words(nbytes) <= b.size <= Words(nbytes) + OVERHEAD && nbytes <= 8 * b.size
      ensures Keeps(old(mem[..]), mem[..], Live(old(blocks)))
    {
      WordsIsCeiling(nbytes);
      var code;
      ghost var at;
      code, paddr, at := AllocateMemory(nbytes);
      if code == FATAL_ALLOC_NO_MEMORY {
        AfterNoFit(blocks, Words(nbytes));
        return 0, Block(0, 0, Used);
      }
      AfterFitIs(old(blocks), Words(nbytes), at);
      b := Block(old(blocks)[at].off, Taken(old(blocks)[at], Words(nbytes)), Used);
      AllocAtLive(old(blocks), mem.Length, at, Words(nbytes));
    }

    /** alloc_sfree of a live block. */
    method Sfree(paddr: nat, ghost b: Block)
      requires Valid() && Owns(b, paddr)
      modifies this`freeSize, this`freeCount, this`usedCount, this`blocks, mem
      ensures Valid() && Live(blocks) == Live(old(blocks)) - {b}
      ensures Step(old(blocks), Release(b), blocks)
      ensures Keeps(old(mem[..]), mem[..], Live(blocks))
    {
      ghost var i: nat :| i < |blocks| && blocks[i] == b;
      assert Stored(mem[..], blocks[i]);
      FreeMemory(paddr, i);
      FreeAtLive(old(blocks), mem.Length, i);
    }

    /** get_memory_size, in bytes. */
    method GetMemorySize(paddr: nat, ghost b: Block) returns (size: nat)
      requires Valid() && Owns(b, paddr)
      ensures size == WORD_BYTES * b.size
    {
      ghost var i: nat :| i < |blocks| && blocks[i] == b;
      assert Stored(mem[..], blocks[i]);
      size := WORD_BYTES * mem[paddr - BLOCK_HEADER];
    }

    /** A holder writes one word of its own payload. */
    method Poke(addr: nat, v: int, ghost b: Block)
      requires Valid() && b in Live(blocks) && b.off + BLOCK_HEADER <= addr < b.off + BLOCK_HEADER + b.size
      modifies mem
      ensures Valid() && addr < mem.Length && mem[..] == old(mem[..])[addr := v]
      ensures mem[addr] == v && forall k {:trigger mem[k]} :: 0 <= k < mem.Length && k != addr ==> mem[k] == old(mem[k])
      ensures Keeps(old(mem[..]), mem[..], Live(blocks) - {b})
    {
      ghost var was := mem[..];
      PayloadInside(was, blocks, b);
      mem[addr] := v;
      assert mem[..] == was[addr := v];
      PayloadWritten(was, mem[..], blocks, b);
    }

    /** The shared-memory branch of alloc_realloc: a new block, a byte-wise copy, the old block released. */
    method Srealloc(addr: nat, nbytes: nat, ghost b: Block) returns (result: nat, ghost nb: Block)
      requires Valid() && Owns(b, addr)
      modifies this`freeSize, this`freeCount, this`usedCount, this`blocks, mem
      ensures Valid()
      ensures result == 0 <==> NoFit(old(blocks), Words(nbytes))
      ensures result == 0 ==> mem[..] == old(mem[..]) && blocks == old(blocks)
      ensures result != 0 ==>
                && Owns(nb, result) && nb !in Live(old(blocks))
                && Words(nbytes) <= nb.size <= Words(nbytes) + OVERHEAD
                && Live(blocks) == Live(old(blocks)) + {nb} - {b}
                && b.off + OVERHEAD + b.size <= mem.Length && nb.off + OVERHEAD + nb.size <= mem.Length
                && SameBytes(PayloadOf(old(mem[..]), b), PayloadOf(mem[..], nb), Smaller(nbytes, WORD_BYTES * b.size))
      ensures Keeps(old(mem[..]), mem[..], Live(old(blocks)) - {b})
    {
      hide Holds, Counters, SameBytes, PayloadOf, AfterFit, NoFit;
      result, nb := Smalloc(nbytes);
      if result == 0 {
        return;
      }
      WordsIsCeiling(nbytes);
      var osize := GetMemorySize(addr, b);
      if nbytes < osize {
        osize := nbytes;
      }
      ghost var was := mem[..];
      MoveBytes(result, addr, osize, nb, b);
      assert Live(blocks) - {nb} == Live(old(blocks)) - {b};
      KeepsTrans(old(mem[..]), was, mem[..], Live(old(blocks)), Live(old(blocks)) - {b});
    }

    /** memcpy of n bytes into the new block, then the release of the old one. */
    method MoveBytes(dest: nat, src: nat, n: nat, ghost db: Block, ghost sb: Block)
      requires Valid() && Owns(db, dest) && Owns(sb, src) && db != sb
      requires n <= WORD_BYTES * db.size && n <= WORD_BYTES * sb.size
      modifies this`freeSize, this`freeCount, this`usedCount, this`blocks, mem
      ensures Valid() && Live(blocks) == Live(old(blocks)) - {sb}
      ensures db.off + OVERHEAD + db.size <= mem.Length && sb.off + OVERHEAD + sb.size <= mem.Length
      ensures SameBytes(PayloadOf(old(mem[..]), sb), PayloadOf(mem[..], db), n)
      ensures Keeps(old(mem[..]), mem[..], Live(blocks) - {db})
    {
      hide Holds, Counters, SameBytes;
      PayloadInside(mem[..], blocks, db);
      PayloadInside(mem[..], blocks, sb);
      CopyBytes(dest, src, n, db, sb);
      ghost var was := mem[..];
      Sfree(src, sb);
      assert db in Live(blocks);
      KeepsTrans(old(mem[..]), was, mem[..], Live(old(blocks)) - {db}, Live(blocks) - {db});
    }

    /** memcpy between two live payloads, byte counts included. */
    method CopyBytes(dest: nat, src: nat, n: nat, ghost db: Block, ghost sb: Block)
      requires Valid() && Owns(db, dest) && Owns(sb, src) && db != sb
      requires n <= WORD_BYTES * db.size && n <= WORD_BYTES * sb.size
      requires db.off + OVERHEAD + db.size <= mem.Length && sb.off + OVERHEAD + sb.size <= mem.Length
      modifies mem
      ensures Valid()
      ensures Keeps(old(mem[..]), mem[..], Live(blocks) - {db})
      ensures SameBytes(PayloadOf(old(mem[..]), sb), PayloadOf(mem[..], db), n)
    {
      hide Holds, Counters, Keeps, SameBytes, PayloadOf;
      ghost var was := mem[..];
      LiveApart(was, blocks, db, sb);
      var q := n / WORD_BYTES;
      CopyWords(dest, src, q, db, sb);
      if n % WORD_BYTES != 0 {
        CopyTail(dest + q, src + q, n % WORD_BYTES, db);
      }
      KeepsOutside(was, mem[..], blocks, db);
      BytesCopied(was, mem[..], n, db, sb);
    }

    /** The last, partial word of a copy: only its k low-order bytes change. */
    method CopyTail(dest: nat, src: nat, k: nat, ghost db: Block)
      requires Valid() && db in Live(blocks) && db.off + BLOCK_HEADER <= dest < db.off + BLOCK_HEADER + db.size
      requires dest < mem.Length && src < mem.Length && k < WORD_BYTES
      modifies mem
      ensures Valid()
      ensures forall j {:trigger mem[j]} :: 0 <= j < mem.Length && j != dest ==> mem[j] == old(mem[j])
      ensures mem[dest] % BytePower(k) == old(mem[src]) % BytePower(k)
    {
      LowBytesMerged(mem[dest], mem[src], k);
      Poke(dest, MergeLow(mem[dest], mem[src], k), db);
    }

    method CopyWords(dest: nat, src: nat, q: nat, ghost db: Block, ghost sb: Block)
      requires Valid() && Owns(db, dest) && Owns(sb, src) && db != sb
      requires q <= db.size && q <= sb.size
      requires db.off + OVERHEAD + db.size <= mem.Length && sb.off + OVERHEAD + sb.size <= mem.Length
      modifies mem
      ensures Valid()
      ensures forall j {:trigger mem[j]} :: 0 <= j < mem.Length && !(dest <= j < dest + q) ==> mem[j] == old(mem[j])
      ensures forall j {:trigger mem[j]} :: dest <= j < dest + q ==> mem[j] == old(mem[..])[j - dest + src]
    {
      hide Holds, Counters;
      ghost var was := mem[..];
      LiveApart(was, blocks, db, sb);
      for k := 0 to q
        invariant Valid()
        invariant forall j {:trigger mem[j]} :: 0 <= j < mem.Length && !(dest <= j < dest + k) ==> mem[j] == old(mem[j])
        invariant forall j {:trigger mem[j]} :: dest <= j < dest + k ==> mem[j] == was[j - dest + src]
      {
        Poke(dest + k, mem[src + k], db);
      }
    }

    /** alloc_getinfo: counters, with the header share of the overhead. */
    method GetInfo() returns (info: Info)
      requires Valid()
      ensures info.totalSize == SEGMENT_HEADER + info.memOverhead + (info.usedCount + info.freeCount + 2)
                              + info.freeSize + Payload(blocks, Used)
      ensures info.usedCount == Count(blocks, Used) && info.freeCount == Count(blocks, Free)
      ensures info.freeSize == Payload(blocks, Free)
    {
      Conservation(blocks, mem.Length);
      info := Info(totalSize, freeSize, usedCount, freeCount, (usedCount + freeCount + 2) * BLOCK_HEADER);
    }
  }

  /** The first block after i that is not in use. */
  lemma {:induction false} FirstNode(bs: seq<Block>, i: nat) returns (j: nat)
    requires i < |bs| && bs[|bs| - 1].kind != Used
    ensures i <= j < |bs| && bs[j].kind != Used
    ensures forall k {:trigger bs[k]} :: i <= k < j ==> bs[k].kind == Used
    decreases |bs| - i
  {
    if bs[i].kind == Used {
      j := FirstNode(bs, i + 1);
    } else {
      j := i;
    }
  }

  /** The next node on the list is the first later block that is not in use. */
  lemma NextNode(m: seq<int>, bs: seq<Block>, i: nat) returns (j: nat)
    requires Holds(m, bs) && i < |bs| - 1 && bs[i].kind != Used
    ensures i < j < |bs| && bs[j].kind != Used && bs[i].off + 3 < |m| && m[bs[i].off + 3] == bs[j].off
    ensures forall k {:trigger bs[k]} :: i < k < j ==> bs[k].kind == Used
  {
    j := FirstNode(bs, i + 1);
    NodeAfterIs(bs, |m|, i + 1, j);
    NodesAround(bs, |m|, i + 1, i + 1);
    NodeBeforeIs(m, bs, i + 1);
    NodeBeforeSelf(bs, i);
  }

  lemma NodeBeforeSelf(bs: seq<Block>, i: nat)
    requires i < |bs| && bs[i].kind != Used
    ensures |Nodes(bs[..i + 1])| > 0 && NodeBefore(bs, i + 1) == bs[i].off
  {
    assert bs[..i + 1] == bs[..i] + [bs[i]];
    NodesConcat(bs[..i], [bs[i]]);
    OneNode(bs[i]);
  }

  /** The two nodes around blocks lo..hi have room for their link words outside those blocks. */
  lemma NodeOffsets(bs: seq<Block>, total: nat, lo: nat, hi: nat)
    requires Segmented(bs, total) && 0 < lo <= hi < |bs|
    requires |Nodes(bs[..lo])| > 0 && |Nodes(bs[hi..])| > 0
    ensures SEGMENT_HEADER <= NodeBefore(bs, lo) && NodeBefore(bs, lo) + OVERHEAD <= bs[lo].off
    ensures bs[hi].off <= NodeAfter(bs, hi) && NodeAfter(bs, hi) + OVERHEAD <= total
  {
    NodesAscend(bs, total, lo, hi);
    AllOrdered(bs);
    var p := NodeIsBlock(bs[..lo], |Nodes(bs[..lo])| - 1);
    var n := NodeIsBlock(bs[hi..], 0);
    assert bs[..lo][p] == bs[p] && bs[hi..][n] == bs[hi + n];
  }

  /** free_size below the request means that no block fits: the early test loses nothing. */
  lemma SmallSegmentNoFit(bs: seq<Block>, w: nat)
    requires Payload(bs, Free) < w
    ensures NoFit(bs, w)
  {
    forall i | 0 <= i < |bs| ensures !Fits(bs[i], w) {
      EachWithinPayload(bs, i);
    }
  }

  lemma FreeExtent(m: seq<int>, bs: seq<Block>, i: nat)
    requires Holds(m, bs) && 0 < i < |bs| - 1
    ensures bs[i].off + OVERHEAD + bs[i].size == bs[i + 1].off && bs[i + 1].off <= |m|
    ensures m[bs[i].off] == bs[i].size
  {
    assert Adjacent(bs[i], bs[i + 1]);
    assert Stored(m, bs[i]) && Stored(m, bs[i + 1]);
  }

  ghost predicate InUse(bs: seq<Block>, i: nat) {
    0 < i < |bs| - 1 && bs[i].kind == Used
  }

  lemma UsedIsInner(bs: seq<Block>, total: nat, i: nat)
    requires Segmented(bs, total) && i < |bs| && bs[i].kind == Used
    ensures 0 < i < |bs| - 1
  {
  }

  /** A released block and its two physical neighbours, as the memory shows them. */
  lemma Surroundings(m: seq<int>, bs: seq<Block>, i: nat)
    requires Holds(m, bs) && 0 < i < |bs| - 1
    ensures Stored(m, bs[i - 1]) && Stored(m, bs[i]) && Stored(m, bs[i + 1])
    ensures bs[i].off == bs[i - 1].off + OVERHEAD + bs[i - 1].size
    ensures bs[i + 1].off == bs[i].off + OVERHEAD + bs[i].size
    ensures bs[i - 1].off >= SEGMENT_HEADER
  {
    assert Adjacent(bs[i - 1], bs[i]) && Adjacent(bs[i], bs[i + 1]);
    AllOrdered(bs);
  }

  /** The node before is the same on both sides of a used block, and so is the node after. */
  lemma NodeBeforeUsed(bs: seq<Block>, total: nat, i: nat)
    requires Segmented(bs, total) && InUse(bs, i)
    ensures |Nodes(bs[..i])| > 0 && |Nodes(bs[..i + 1])| > 0 && NodeBefore(bs, i) == NodeBefore(bs, i + 1)
  {
    assert bs[..i + 1] == bs[..i] + [bs[i]];
    NodesConcat(bs[..i], [bs[i]]);
    OneNode(bs[i]);
    NodesAround(bs, total, i, i);
  }

  lemma NodeAfterUsed(bs: seq<Block>, total: nat, i: nat)
    requires Segmented(bs, total) && InUse(bs, i)
    ensures |Nodes(bs[i..])| > 0 && |Nodes(bs[i + 1..])| > 0 && NodeAfter(bs, i) == NodeAfter(bs, i + 1)
  {
    assert bs[i..] == [bs[i]] + bs[i + 1..];
    NodesConcat([bs[i]], bs[i + 1..]);
    OneNode(bs[i]);
    NodesAround(bs, total, i, i + 1);
  }

  /** n is m after blocks lo..hi were overwritten by one free block q linked to its neighbours. */
  ghost predicate Joined(m: seq<int>, n: seq<int>, bs: seq<Block>, lo: nat, hi: nat)
    requires 0 < lo < hi < |bs| && Tiled(bs)
  {
    AllOrdered(bs);
    && |Nodes(bs[..lo])| > 0 && |Nodes(bs[hi..])| > 0
    && SameOutside(m, n, bs[lo].off, bs[hi].off, NodeBefore(bs, lo) + 3, NodeAfter(bs, hi) + 2)
    && Stored(n, Spanning(bs, lo, hi))
    && Link(n, NodeBefore(bs, lo), bs[lo].off) && Link(n, bs[lo].off, NodeAfter(bs, hi))
  }

  ghost predicate MergedRight(m: seq<int>, n: seq<int>, bs: seq<Block>, i: nat)
    requires InUse(bs, i) && Tiled(bs)
  {
    i + 2 < |bs| && Joined(m, n, bs, i, i + 2)
  }

  ghost predicate Merged(m: seq<int>, n: seq<int>, bs: seq<Block>, i: nat)
    requires InUse(bs, i) && Tiled(bs)
  {
    0 < MergeFrom(bs, i) && MergeTo(bs, i) < |bs| && Joined(m, n, bs, MergeFrom(bs, i), MergeTo(bs, i))
  }

  lemma MergedHolds(m: seq<int>, n: seq<int>, bs: seq<Block>, i: nat)
    requires Holds(m, bs) && InUse(bs, i) && Merged(m, n, bs, i)
    ensures Holds(n, FreeAt(bs, i)) && Keeps(m, n, Live(bs) - {bs[i]})
  {
    var lo, hi := MergeFrom(bs, i), MergeTo(bs, i);
    FreeAtSegmented(bs, |m|, i);
    MergedLive(bs, i);
    KeepsAfter(m, n, bs, lo, hi);
    OneNode(Spanning(bs, lo, hi));
    ReplaceByNode(m, n, bs, lo, hi, [Spanning(bs, lo, hi)], bs[lo].off);
  }

  /** The footer before the released block still describes its left neighbour. */
  lemma PreviousFooter(m: seq<int>, n: seq<int>, bs: seq<Block>, i: nat)
    requires Holds(m, bs) && InUse(bs, i)
    requires n == m || MergedRight(m, n, bs, i)
    ensures |n| == |m| && bs[i - 1].off + OVERHEAD + bs[i - 1].size == bs[i].off < |m|
    ensures n[bs[i].off - 1] == bs[i - 1].size && n[bs[i - 1].off] == bs[i - 1].size
    ensures n[bs[i - 1].off + 1] == Marker(bs[i - 1].kind)
    ensures n[bs[i - 1].off + 2] == m[bs[i - 1].off + 2]
  {
    Surroundings(m, bs, i);
    if n != m {
      Elsewhere(bs, |m|, i, i + 2, i - 1);
      AllOrdered(bs);
      var p := NodeIsBlock(bs[..i], |Nodes(bs[..i])| - 1);
      assert bs[..i][p] == bs[p];
      NodeOffsets(bs, |m|, i, i + 2);
    }
  }

  /** The right neighbour is free and knows both nodes around the pair. */
  lemma NextReady(m: seq<int>, bs: seq<Block>, i: nat)
    requires Holds(m, bs) && InUse(bs, i) && bs[i + 1].kind == Free
    ensures i + 2 < |bs| && |Nodes(bs[..i])| > 0 && |Nodes(bs[i + 2..])| > 0
    ensures bs[i].off + OVERHEAD + bs[i].size == bs[i + 1].off
            && bs[i + 1].off + OVERHEAD + bs[i + 1].size == bs[i + 2].off
    ensures bs[i + 1].off + 3 < |m| && m[bs[i + 1].off] == bs[i + 1].size
    ensures m[bs[i + 1].off + 2] == NodeBefore(bs, i) && NodeBefore(bs, i) + OVERHEAD <= bs[i].off
    ensures m[bs[i + 1].off + 3] == NodeAfter(bs, i + 2) && bs[i + 2].off <= NodeAfter(bs, i + 2)
            && NodeAfter(bs, i + 2) + OVERHEAD <= |m|
  {
    FreeExtent(m, bs, i);
    FreeLinks(m, bs, i + 1);
    FreeExtent(m, bs, i + 1);
    NodeBeforeUsed(bs, |m|, i);
    NodeOffsets(bs, |m|, i, i + 2);
  }

  lemma NextMerged(m: seq<int>, n: seq<int>, bs: seq<Block>, i: nat)
    requires Tiled(bs) && InUse(bs, i) && i + 2 < |bs| && |Nodes(bs[..i])| > 0 && |Nodes(bs[i + 2..])| > 0
    requires bs[i + 1].off + OVERHEAD + bs[i + 1].size == bs[i + 2].off
    requires bs[i].off + OVERHEAD + bs[i].size == bs[i + 1].off
    requires SameOutside(m, n, bs[i].off, bs[i + 2].off, NodeBefore(bs, i) + 3, NodeAfter(bs, i + 2) + 2)
    requires Stored(n, Block(bs[i].off, bs[i + 2].off - bs[i].off - OVERHEAD, Free))
    requires Link(n, NodeBefore(bs, i), bs[i].off) && Link(n, bs[i].off, NodeAfter(bs, i + 2))
    ensures MergedRight(m, n, bs, i)
  {
    assert Spanning(bs, i, i + 2) == Block(bs[i].off, bs[i + 2].off - bs[i].off - OVERHEAD, Free);
  }

  /** The walk has found the next node, and that node knows the one before. */
  lemma AloneReady(m: seq<int>, bs: seq<Block>, i: nat, j: nat)
    requires Holds(m, bs) && InUse(bs, i) && i < j < |bs| && bs[j].kind != Used
    requires forall k {:trigger bs[k]} :: i < k < j ==> bs[k].kind == Used
    ensures |Nodes(bs[..i])| > 0 && |Nodes(bs[i + 1..])| > 0 && NodeAfter(bs, i + 1) == bs[j].off
    ensures bs[i].off + OVERHEAD + bs[i].size == bs[i + 1].off <= bs[j].off && bs[j].off + OVERHEAD <= |m|
    ensures m[bs[j].off + 2] == NodeBefore(bs, i) && NodeBefore(bs, i) + OVERHEAD <= bs[i].off
  {
    FreeExtent(m, bs, i);
    NodeAfterIs(bs, |m|, i + 1, j);
    NodesAround(bs, |m|, i, i + 1);
    NodeOffsets(bs, |m|, i, i + 1);
    NodeAfterUsed(bs, |m|, i);
    NodeBeforeIs(m, bs, i);
  }

  lemma AloneMerged(m: seq<int>, n: seq<int>, bs: seq<Block>, i: nat)
    requires Segmented(bs, |m|) && InUse(bs, i) && bs[i - 1].kind != Free && bs[i + 1].kind != Free
    requires |Nodes(bs[..i])| > 0 && |Nodes(bs[i + 1..])| > 0
    requires bs[i].off + OVERHEAD + bs[i].size == bs[i + 1].off
    requires SameOutside(m, n, bs[i].off, bs[i + 1].off, NodeBefore(bs, i) + 3, NodeAfter(bs, i + 1) + 2)
    requires Stored(n, Block(bs[i].off, bs[i].size, Free))
    requires Link(n, NodeBefore(bs, i), bs[i].off) && Link(n, bs[i].off, NodeAfter(bs, i + 1))
    ensures Merged(m, n, bs, i)
  {
    assert Spanning(bs, i, i + 1) == Block(bs[i].off, bs[i].size, Free);
  }

  lemma PayloadInside(m: seq<int>, bs: seq<Block>, b: Block)
    requires Holds(m, bs) && b in Live(bs)
    ensures SEGMENT_HEADER <= b.off && b.off + OVERHEAD + b.size <= |m|
  {
    var i: nat :| i < |bs| && bs[i] == b;
    assert Stored(m, bs[i]);
    AllOrdered(bs);
  }

  /** One segment with the same live blocks has the same layout, whatever happened in between. */
  lemma SameLive(m: seq<int>, n: seq<int>, bs: seq<Block>, cs: seq<Block>)
    requires Holds(m, bs) && Holds(n, cs) && |m| == |n| && Live(bs) == Live(cs)
    ensures bs == cs
  {
    LayoutUnique(bs, cs, |m|);
  }

  /** Two live blocks never share a word, header and footer included. */
  lemma LiveDisjoint(bs: seq<Block>, a: Block, b: Block)
    requires Tiled(bs) && a in Live(bs) && b in Live(bs) && a != b
    ensures a.off + OVERHEAD + a.size <= b.off || b.off + OVERHEAD + b.size <= a.off
  {
    AllOrdered(bs);
  }

  lemma LiveApart(m: seq<int>, bs: seq<Block>, a: Block, b: Block)
    requires Holds(m, bs) && a in Live(bs) && b in Live(bs) && a != b
    ensures a.off + OVERHEAD + a.size <= b.off || b.off + OVERHEAD + b.size <= a.off
  {
    LiveDisjoint(bs, a, b);
  }

  lemma KeepsOutside(m: seq<int>, n: seq<int>, bs: seq<Block>, b: Block)
    requires Holds(m, bs) && b in Live(bs) && |m| == |n|
    requires forall j {:trigger n[j]} ::
               0 <= j < |m| && !(b.off + BLOCK_HEADER <= j < b.off + BLOCK_HEADER + b.size) ==> m[j] == n[j]
    ensures Keeps(m, n, Live(bs) - {b})
  {
    forall c | c in Live(bs) - {b}
      ensures c.off + OVERHEAD + c.size <= |m| && PayloadOf(m, c) == PayloadOf(n, c)
    {
      LiveDisjoint(bs, b, c);
      PayloadInside(m, bs, c);
    }
  }

  lemma BytesCopied(m: seq<int>, n: seq<int>, count: nat, db: Block, sb: Block)
    requires db.off + OVERHEAD + db.size <= |n| && sb.off + OVERHEAD + sb.size <= |m|
    requires count <= WORD_BYTES * db.size && count <= WORD_BYTES * sb.size
    requires var dest, src, q := db.off + BLOCK_HEADER, sb.off + BLOCK_HEADER, count / WORD_BYTES;
             && (forall j {:trigger n[j]} :: dest <= j < dest + q ==> n[j] == m[j - dest + src])
             && (count % WORD_BYTES != 0 ==>
                   n[dest + q] % BytePower(count % WORD_BYTES) == m[src + q] % BytePower(count % WORD_BYTES))
    ensures SameBytes(PayloadOf(m, sb), PayloadOf(n, db), count)
  {
  }

  /** m and n agree outside the payload of b. */
  ghost predicate SameBut(m: seq<int>, n: seq<int>, b: Block) {
    && |m| == |n|
    && forall j {:trigger n[j]} :: 0 <= j < |m| && !(b.off + BLOCK_HEADER <= j < b.off + BLOCK_HEADER + b.size) ==>
         m[j] == n[j]
  }

  /** Writing inside a live payload disturbs neither the heap structure nor any other payload. */
  lemma PayloadWritten(m: seq<int>, n: seq<int>, bs: seq<Block>, b: Block)
    requires Holds(m, bs) && b in Live(bs) && SameBut(m, n, b)
    ensures Holds(n, bs) && Keeps(m, n, Live(bs) - {b})
  {
    var i: nat :| i < |bs| && bs[i] == b;
    AllOrdered(bs);
    forall j | 0 <= j < |bs| ensures Stored(n, bs[j]) {
      assert Stored(m, bs[j]);
    }
    WrittenLinked(m, n, bs, i);
    KeepsOutside(m, n, bs, b);
  }

  lemma WrittenLinked(m: seq<int>, n: seq<int>, bs: seq<Block>, i: nat)
    requires Holds(m, bs) && i < |bs| && bs[i].kind == Used && SameBut(m, n, bs[i])
    ensures Linked(n, Nodes(bs))
    ensures n[SEGMENT_HEADER + 2] == 0 && bs[|bs| - 1].off + 3 < |n| && n[bs[|bs| - 1].off + 3] == 0
  {
    hide Nodes, AllStored;
    var ns := Nodes(bs);
    AllOrdered(bs);
    forall k, l | 0 <= k && l == k + 1 && l < |ns| ensures Link(n, ns[k], ns[l]) {
      assert Link(m, ns[k], ns[l]);
      var p := NodeIsBlock(bs, k);
      var q := NodeIsBlock(bs, l);
    }
  }

  /** Growing the left neighbour over the released block. */
  lemma GrownMerged(m: seq<int>, n: seq<int>, bs: seq<Block>, i: nat)
    requires Holds(m, bs) && InUse(bs, i) && bs[i - 1].kind == Free && bs[i + 1].kind != Free
    requires bs[i + 1].off >= bs[i - 1].off + OVERHEAD
    requires Stored(n, Block(bs[i - 1].off, bs[i + 1].off - bs[i - 1].off - OVERHEAD, Free))
    requires SameOutside(m, n, bs[i - 1].off, bs[i + 1].off, bs[i - 1].off, bs[i - 1].off)
    requires bs[i - 1].off + 3 < |m| && m[bs[i - 1].off + 2] == n[bs[i - 1].off + 2]
             && m[bs[i - 1].off + 3] == n[bs[i - 1].off + 3]
    ensures Merged(m, n, bs, i)
  {
    Surroundings(m, bs, i);
    LeftNeighbourLinks(m, bs, i);
    NodesAround(bs, |m|, i - 1, i + 1);
    NodeOffsets(bs, |m|, i - 1, i + 1);
    NodeAfterUsed(bs, |m|, i);
  }

  /** The free left neighbour is linked to the nodes on both sides. */
  lemma LeftNeighbourLinks(m: seq<int>, bs: seq<Block>, i: nat)
    requires Holds(m, bs) && InUse(bs, i) && bs[i - 1].kind == Free
    ensures i > 1 && |Nodes(bs[..i - 1])| > 0 && |Nodes(bs[..i])| > 0 && |Nodes(bs[i..])| > 0
    ensures NodeBefore(bs, i) == bs[i - 1].off
    ensures Link(m, NodeBefore(bs, i - 1), bs[i - 1].off) && Link(m, bs[i - 1].off, NodeAfter(bs, i))
  {
    NodesAround(bs, |m|, i - 1, i - 1);
    NodesAround(bs, |m|, i, i);
    NodeBeforeIs(m, bs, i - 1);
    NodeAfterIs(bs, |m|, i - 1, i - 1);
    NodeBeforeIs(m, bs, i);
    NodeBeforeSelf(bs, i - 1);
  }

  /** After the first coalescing step the memory is ready for the second. */
  lemma BothReady(m: seq<int>, n: seq<int>, bs: seq<Block>, i: nat)
    requires Holds(m, bs) && InUse(bs, i) && bs[i - 1].kind == Free && bs[i + 1].kind == Free
             && MergedRight(m, n, bs, i)
    ensures |n| == |m| && bs[i + 2].off <= NodeAfter(bs, i + 2) && NodeAfter(bs, i + 2) + OVERHEAD <= |m|
    ensures n[bs[i].off] == bs[i + 2].off - bs[i].off - OVERHEAD && n[bs[i].off + 3] == NodeAfter(bs, i + 2)
  {
    NodeOffsets(bs, |m|, i, i + 2);
    FreeExtent(m, bs, i + 1);
  }

  /** Both coalescing steps together. */
  lemma BothMerged(m: seq<int>, half: seq<int>, n: seq<int>, bs: seq<Block>, i: nat)
    requires Holds(m, bs) && InUse(bs, i) && bs[i - 1].kind == Free && bs[i + 1].kind == Free
             && MergedRight(m, half, bs, i)
    requires bs[i + 2].off >= bs[i - 1].off + OVERHEAD
    requires Stored(n, Block(bs[i - 1].off, bs[i + 2].off - bs[i - 1].off - OVERHEAD, Free))
    requires n[bs[i - 1].off + 2] == half[bs[i - 1].off + 2] && Link(n, bs[i - 1].off, NodeAfter(bs, i + 2))
    requires SameOutside(half, n, bs[i - 1].off, bs[i + 2].off, NodeAfter(bs, i + 2) + 2, NodeAfter(bs, i + 2) + 2)
    ensures Merged(m, n, bs, i)
  {
    hide AllStored, Linked, Nodes;
    Surroundings(m, bs, i);
    PreviousFooter(m, half, bs, i);
    FreeExtent(m, bs, i + 1);
    LeftNeighbourLinks(m, bs, i);
    NodeOffsets(bs, |m|, i - 1, i + 2);
  }

  lemma LinkedPair(n: seq<int>, a: nat, b: nat)
    requires Link(n, a, b)
    ensures Linked(n, [a] + [] + [b])
  {
  }

  lemma LinkedTriple(n: seq<int>, a: nat, b: nat, c: nat)
    requires Link(n, a, b) && Link(n, b, c)
    ensures Linked(n, [a] + [b] + [c])
  {
  }

  lemma SplitNodes(b: Block, w: nat)
    requires b.size >= w && Splits(b.size, w)
    ensures Nodes(Halves(b, w)) == [b.off + OVERHEAD + w]
  {
    var used, rest := Block(b.off, w, Used), Block(b.off + OVERHEAD + w, b.size - w - OVERHEAD, Free);
    OneNode(used);
    OneNode(rest);
    NodesConcat([used], [rest]);
    assert [used, rest] == [used] + [rest];
  }

  /** Replace, when the new blocks contain exactly one node. */
  lemma ReplaceByNode(m: seq<int>, n: seq<int>, bs: seq<Block>, lo: nat, hi: nat, mid: seq<Block>, q: nat)
    requires Holds(m, bs) && 0 < lo <= hi < |bs|
    requires |Nodes(bs[..lo])| > 0 && |Nodes(bs[hi..])| > 0
    requires SameOutside(m, n, bs[lo].off, bs[hi].off, NodeBefore(bs, lo) + 3, NodeAfter(bs, hi) + 2)
    requires Segmented(bs[..lo] + mid + bs[hi..], |m|) && AllStored(n, mid) && Nodes(mid) == [q]
    requires Link(n, NodeBefore(bs, lo), q) && Link(n, q, NodeAfter(bs, hi))
    ensures Holds(n, bs[..lo] + mid + bs[hi..])
  {
    LinkedTriple(n, NodeBefore(bs, lo), q, NodeAfter(bs, hi));
    Replace(m, n, bs, lo, hi, mid);
  }

  lemma SplitHolds(m: seq<int>, n: seq<int>, bs: seq<Block>, i: nat, w: nat)
    requires Holds(m, bs) && 0 < i < |bs| - 1 && Fits(bs[i], w) && Splits(bs[i].size, w)
    requires |Nodes(bs[..i])| > 0 && |Nodes(bs[i + 1..])| > 0
    requires SameOutside(m, n, bs[i].off, bs[i + 1].off, NodeBefore(bs, i) + 3, NodeAfter(bs, i + 1) + 2)
    requires var rest := bs[i].off + OVERHEAD + w;
             && Stored(n, Block(bs[i].off, w, Used))
             && Stored(n, Block(rest, bs[i].size - w - OVERHEAD, Free))
             && Link(n, NodeBefore(bs, i), rest) && Link(n, rest, NodeAfter(bs, i + 1))
    ensures Holds(n, AllocAt(bs, i, w))
  {
    hide Linked, Stored, AllStored, Nodes, SameOutside, Tiled, NodeBefore, NodeAfter;
    var mid := Halves(bs[i], w);
    assert AllocAt(bs, i, w) == bs[..i] + mid + bs[i + 1..];
    hide AllocAt, Halves;
    AllocAtSegmented(bs, |m|, i, w);
    SplitStored(n, bs[i], w);
    SplitNodes(bs[i], w);
    ReplaceByNode(m, n, bs, i, i + 1, mid, bs[i].off + OVERHEAD + w);
  }

  lemma SplitStored(n: seq<int>, b: Block, w: nat)
    requires b.size >= w && Splits(b.size, w)
    requires Stored(n, Block(b.off, w, Used)) && Stored(n, Block(b.off + OVERHEAD + w, b.size - w - OVERHEAD, Free))
    ensures AllStored(n, Halves(b, w))
  {
  }

  lemma TakeHolds(m: seq<int>, n: seq<int>, bs: seq<Block>, i: nat)
    requires Holds(m, bs) && 0 < i < |bs| - 1 && bs[i].kind == Free
    requires |Nodes(bs[..i])| > 0 && |Nodes(bs[i + 1..])| > 0
    requires SameOutside(m, n, bs[i].off, bs[i + 1].off, NodeBefore(bs, i) + 3, NodeAfter(bs, i + 1) + 2)
    requires Stored(n, bs[i].(kind := Used)) && Link(n, NodeBefore(bs, i), NodeAfter(bs, i + 1))
    ensures Holds(n, AllocAt(bs, i, bs[i].size))
  {
    var mid := [bs[i].(kind := Used)];
    AllocAtSegmented(bs, |m|, i, bs[i].size);
    assert AllocAt(bs, i, bs[i].size) == bs[..i] + mid + bs[i + 1..];
    OneNode(mid[0]);
    LinkedPair(n, NodeBefore(bs, i), NodeAfter(bs, i + 1));
    Replace(m, n, bs, i, i + 1, mid);
  }

  /** Using up a free block leaves every live payload alone. */
  lemma FreeBlockKeeps(m: seq<int>, n: seq<int>, bs: seq<Block>, i: nat)
    requires Holds(m, bs) && 0 < i < |bs| - 1 && bs[i].kind == Free
    requires |Nodes(bs[..i])| > 0 && |Nodes(bs[i + 1..])| > 0
    requires SameOutside(m, n, bs[i].off, bs[i + 1].off, NodeBefore(bs, i) + 3, NodeAfter(bs, i + 1) + 2)
    ensures Keeps(m, n, Live(bs))
  {
    KeepsAfter(m, n, bs, i, i + 1);
    assert bs[i..i + 1] == [bs[i]];
    assert Live(bs) - Live([bs[i]]) == Live(bs);
  }

  lemma InitialHolds(m: seq<int>)
    requires |m| >= MIN_SEGMENT
    requires var last := |m| - OVERHEAD;
             && m[6] == 0 && m[7] == MARK_FIRST && m[8] == 0 && m[9] == 11 && m[10] == 0
             && m[11] == |m| - MIN_SEGMENT && m[12] == MARK_FREE && m[13] == 6 && m[14] == last
             && m[last - 1] == |m| - MIN_SEGMENT
             && m[last] == 0 && m[last + 1] == MARK_LAST && m[last + 2] == 11 && m[last + 3] == 0 && m[last + 4] == 0
    ensures Holds(m, Initial(|m|))
  {
    var bs := Initial(|m|);
    assert bs == [bs[0]] + [bs[1]] + [bs[2]];
    NodesSplice([bs[0]], [bs[1]], [bs[2]]);
    OneNode(bs[0]);
    OneNode(bs[1]);
    OneNode(bs[2]);
    assert Nodes(bs) == [6, 11, |m| - OVERHEAD];
  }

  lemma InitialCounters(total: nat)
    requires total >= MIN_SEGMENT
    ensures Counters(Initial(total), total - MIN_SEGMENT, 1, 0)
  {
    var bs := Initial(total);
    assert bs == [bs[0]] + [bs[1]] + [bs[2]];
    TallySplice([bs[0]], [bs[1]], [bs[2]], Free);
    TallySplice([bs[0]], [bs[1]], [bs[2]], Used);
    SmallTally([bs[0]]);
    SmallTally([bs[1]]);
    SmallTally([bs[2]]);
  }

  /** Three blocks side by side; the first is released, then the second, twice. */
  method StalePointer() returns (seg: Segment, refused: bool)
    ensures !refused && seg.Valid() && NoUsedAt(seg.blocks, 17)
  {
    hide Holds, Counters, Keeps, Step, AfterFit, NoFit, Live, Segmented;
    seg := new Segment(61);
    var a, b, c;
    ghost var u, v, w;
    ghost var first, last := Block(6, 0, First), Block(56, 0, Last);
    ghost var x, y, z := Block(11, 1, Used), Block(17, 1, Used), Block(23, 1, Used);
    Carved([first], Block(11, 40, Free), [last], 1);
    assert seg.blocks == [first] + [Block(11, 40, Free)] + [last];
    a, u := seg.Smalloc(8);
    Carved([first, x], Block(17, 34, Free), [last], 1);
    assert seg.blocks == [first, x] + [Block(17, 34, Free)] + [last];
    b, v := seg.Smalloc(8);
    Carved([first, x, y], Block(23, 28, Free), [last], 1);
    assert seg.blocks == [first, x, y] + [Block(23, 28, Free)] + [last];
    c, w := seg.Smalloc(8);
    assert seg.blocks == [first, x, y, z, Block(29, 22, Free), last];
    seg.ReleaseBlock(11, 1);
    assert seg.blocks == [first, Block(11, 1, Free), y, z, Block(29, 22, Free), last];
    refused := seg.ReleaseTwice(21, 2);
  }
}
