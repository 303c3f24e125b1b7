/** Which shared-memory blocks a cached value takes, and which it gives back. */
module ZvMemory {
  import opened Layout
  import opened Boundary
  import opened Segments
  import opened Pools

  const ZVCACHE_VALUE_BYTES: nat := 64
  const ZVAL_BYTES: nat := 16
  const TRACKER_BYTES: nat := 16

  // What copyin_zval allocates besides the zval itself: nothing, one block for a string or a
  // serialized object, or a tracker and a pool serving the given requests for an array.
  datatype Shape = Scalar | OneBlock(bytes: nat) | ArrayOf(requests: seq<nat>)

  ghost predicate Requests(shape: Shape) {
    shape.ArrayOf? ==> forall k {:trigger shape.requests[k]} :: 0 <= k < |shape.requests| ==> shape.requests[k] > 0
  }

  // A cached value in shared memory: addresses of its blocks, 0 or null where there is none.
  class ZvData {
    const pvalue: nat
    const zvalue: nat
    const part: nat
    const pool: MPool?
    ghost const pvalueBlock: Block
    ghost const zvalueBlock: Block
    ghost const partBlock: Block

    constructor (pvalue: nat, zvalue: nat, part: nat, pool: MPool?, ghost pb: Block, ghost zb: Block, ghost rb: Block)
      ensures this.pvalue == pvalue && this.zvalue == zvalue && this.part == part && this.pool == pool
      ensures pvalueBlock == pb && zvalueBlock == zb && partBlock == rb
    {
      this.pvalue, this.zvalue, this.part, this.pool := pvalue, zvalue, part, pool;
      pvalueBlock, zvalueBlock, partBlock := pb, zb, rb;
    }

    ghost function Parts(): set<Block> {
      {pvalueBlock, zvalueBlock} + (if part != 0 then {partBlock} else {})
    }

    ghost function Pooled(): set<Block>
      reads if pool != null then {pool} else {}
    {
      if pool != null then PoolBlocks(pool.header, pool.chunks) else {}
    }

    /** All blocks that belong to the value. */
    ghost function Owned(): set<Block>
      reads if pool != null then {pool} else {}
    {
      Parts() + Pooled()
    }

    /** On heap seg with memory m and live blocks live: every block of the value is live, they are
        all different, and the pool is in order. */
    ghost predicate ValidOn(seg: Segment, m: seq<int>, live: set<Block>)
      reads if pool != null then {pool} else {}
    {
      && Parts() <= live && pvalueBlock != zvalueBlock
      && pvalue == pvalueBlock.off + BLOCK_HEADER && zvalue == zvalueBlock.off + BLOCK_HEADER
      && (part != 0 ==> part == partBlock.off + BLOCK_HEADER && partBlock != pvalueBlock && partBlock != zvalueBlock)
      && (pool != null ==>
            && pool.seg == seg && pool.hoffset == Addr(pool.header)
            && PoolHolds(m, live, pool.header, pool.chunks) && Pieces(pool.pieces, pool.chunks)
            && Pooled() <= live && Parts() !! Pooled())
    }

    ghost predicate Valid(seg: Segment)
      reads seg, seg.mem, if pool != null then {pool} else {}
    {
      seg.Valid() && ValidOn(seg, seg.mem[..], Live(seg.blocks))
    }
  }

  /** The heap can take the tracker of an array, the header of its pool and what the pool is asked for. */
  ghost predicate ArrayFits(bs: seq<Block>, requests: seq<nat>) {
    var b1 := AfterFit(bs, Words(TRACKER_BYTES));
    && !NoFit(bs, Words(TRACKER_BYTES)) && !NoFit(b1, Words(POOL_HEADER_BYTES))
    && AllGranted(AfterFit(b1, Words(POOL_HEADER_BYTES)), NO_ROOMS, requests)
  }

  /** The heap can take the zval and, after it, what else the value needs. */
  ghost predicate RoomFor(bs: seq<Block>, shape: Shape) {
    && !NoFit(bs, Words(ZVAL_BYTES))
    && (shape.OneBlock? ==> !NoFit(AfterFit(bs, Words(ZVAL_BYTES)), Words(shape.bytes)))
    && (shape.ArrayOf? ==> ArrayFits(AfterFit(bs, Words(ZVAL_BYTES)), shape.requests))
  }

  /** The heap can take an entry and its value: told from the heap before zvcache_set. */
  ghost predicate SetFits(bs: seq<Block>, keylen: nat, shape: Shape) {
    !NoFit(bs, Words(ZVCACHE_VALUE_BYTES + keylen)) && RoomFor(AfterFit(bs, Words(ZVCACHE_VALUE_BYTES + keylen)), shape)
  }

  // What a failed copy of an array keeps: nothing, its tracker, or tracker and zval.
  datatype Leak = Nothing | Tracker | TrackerAndZval

  /** The leak of a failed array copy, told from the heap before it. */
  ghost function ArrayLeak(bs: seq<Block>): Leak {
    var b1 := AfterFit(bs, Words(ZVAL_BYTES));
    var b2 := AfterFit(b1, Words(TRACKER_BYTES));
    if NoFit(bs, Words(ZVAL_BYTES)) || NoFit(b1, Words(TRACKER_BYTES)) then Nothing
    else if NoFit(b2, Words(POOL_HEADER_BYTES)) then Tracker
    else TrackerAndZval
  }

  /** The leak of a failed zvcache_set, told from the heap before it: only arrays leak, and only when
      the entry itself could be allocated. */
  ghost function SetLeak(bs: seq<Block>, keylen: nat, shape: Shape): Leak {
    if !shape.ArrayOf? || NoFit(bs, Words(ZVCACHE_VALUE_BYTES + keylen)) then Nothing
    else ArrayLeak(AfterFit(bs, Words(ZVCACHE_VALUE_BYTES + keylen)))
  }

  /** How many blocks a set loses. */
  ghost function Loss(bs: seq<Block>, keylen: nat, shape: Shape): nat {
    if SetFits(bs, keylen, shape) then 0 else LeakCount(SetLeak(bs, keylen, shape))
  }

  ghost function Leaked(leak: Leak, zb: Block, rb: Block): set<Block> {
    match leak
    case Nothing => {}
    case Tracker => {rb}
    case TrackerAndZval => {zb, rb}
  }

  function LeakCount(leak: Leak): nat {
    match leak
    case Nothing => 0
    case Tracker => 1
    case TrackerAndZval => 2
  }

  /** The pieces from number n on answer the requests, in order. */
  ghost predicate Serves(pieces: seq<Piece>, n: nat, requests: seq<nat>) {
    && |pieces| == n + |requests|
    && forall k {:trigger requests[k]} :: 0 <= k < |requests| ==> pieces[n + k].len == Words(requests[k])
  }

  /** Neither the pool nor the heap can serve a request for r bytes. */
  ghost predicate Refuses(bs: seq<Block>, chunks: seq<Chunk>, r: nat) {
    !HasRoom(chunks, ClassOf(AlignQword(r)), Words(r)) && ChunkRefused(bs, ChunkBytes(AlignQword(r)))
  }

  /** The pool requests copyin_hashtable makes for one array; it stops at the first that fails. */
  method FillPool(seg: Segment, pool: MPool, requests: seq<nat>) returns (ok: bool)
    requires pool.Valid() && pool.seg == seg && forall k {:trigger requests[k]} :: 0 <= k < |requests| ==>
               requests[k] > 0
    modifies pool`chunks, pool`pieces, seg`freeSize, seg`freeCount, seg`usedCount, seg`blocks, seg.mem
    ensures pool.Valid()
    ensures Live(seg.blocks) - PoolBlocks(pool.header, pool.chunks)
            == Live(old(seg.blocks)) - PoolBlocks(pool.header, old(pool.chunks))
    ensures Keeps(old(seg.mem[..]), seg.mem[..], Live(old(seg.blocks)) - PoolBlocks(pool.header, old(pool.chunks)))
    ensures ok <==> AllGranted(old(seg.blocks), RoomsOf(old(pool.chunks)), requests)
    ensures ok ==> Serves(pool.pieces, |old(pool.pieces)|, requests)
    ensures !ok ==> exists k {:trigger requests[k]} :: 0 <= k < |requests|
                      && Serves(pool.pieces, |old(pool.pieces)|, requests[..k])
                      && Refuses(seg.blocks, pool.chunks, requests[k])
  {
    hide Holds, Counters, Live, Keeps, Pieces, PoolHolds, PoolBlocks, AfterFit, NoFit;
    hide HasRoom, ChunkRefused, Granted, HeapAfter, RoomsOf, RoomsAfter, AllGranted;
    ghost var was, rest := seg.mem[..], Live(seg.blocks) - PoolBlocks(pool.header, pool.chunks);
    KeepsSelf(was, seg.blocks);
    KeepsLess(was, was, Live(seg.blocks), rest);
    ok := true;
    for k := 0 to |requests|
      invariant pool.Valid() && ok
      invariant Live(seg.blocks) - PoolBlocks(pool.header, pool.chunks) == rest && Keeps(was, seg.mem[..], rest)
      invariant Serves(pool.pieces, |old(pool.pieces)|, requests[..k])
      invariant AllGranted(old(seg.blocks), RoomsOf(old(pool.chunks)), requests) <==>
                  AllGranted(seg.blocks, RoomsOf(pool.chunks), requests[k..])
    {
      GrantedNext(seg.blocks, RoomsOf(pool.chunks), requests[k..]);
      assert requests[k..][1..] == requests[k + 1..];
      ghost var before := seg.mem[..];
      var addr;
      ghost var i;
      addr, i := pool.Ommalloc(requests[k]);
      KeepsTrans(was, before, seg.mem[..], rest, rest);
      if addr == 0 {
        ok := false;
        return;
      }
    }
    GrantedNone(seg.blocks, RoomsOf(pool.chunks));
  }

  lemma GrantedNone(bs: seq<Block>, rooms: Rooms)
    ensures AllGranted(bs, rooms, [])
  {
  }

  lemma GrantedNext(bs: seq<Block>, rooms: Rooms, requests: seq<nat>)
    requires requests != []
    ensures AllGranted(bs, rooms, requests) <==>
              Granted(bs, rooms, requests[0])
              && AllGranted(HeapAfter(bs, rooms, requests[0]), RoomsAfter(rooms, requests[0]), requests[1..])
  {
  }

  lemma PoolLive(m: seq<int>, live: set<Block>, header: Block, cs: seq<Chunk>)
    requires PoolHolds(m, live, header, cs)
    ensures PoolBlocks(header, cs) <= live
  {
    forall b | b in PoolBlocks(header, cs) ensures b in live {
      if b != header {
        var j := BlockOfChunk(cs, b);
      }
    }
  }

  /** The array part of copyin_zval, after the zval itself: tracker, pool, contents.  When it
      fails, the tracker (once taken) is not given back. */
  method CopyinArray(seg: Segment, requests: seq<nat>) returns (ok: bool, tracker: nat, pool: MPool?, ghost rb: Block)
    requires seg.Valid() && forall k {:trigger requests[k]} :: 0 <= k < |requests| ==> requests[k] > 0
    modifies seg`freeSize, seg`freeCount, seg`usedCount, seg`blocks, seg.mem
    ensures seg.Valid() && Keeps(old(seg.mem[..]), seg.mem[..], Live(old(seg.blocks)))
    ensures ok <==> ArrayFits(old(seg.blocks), requests)
    ensures ok ==> pool != null && Serves(pool.pieces, 0, requests)
    ensures tracker == 0 <==> NoFit(old(seg.blocks), Words(TRACKER_BYTES))
    ensures tracker == 0 ==> !ok && pool == null && seg.blocks == old(seg.blocks)
    ensures tracker != 0 ==>
              (pool == null <==> NoFit(AfterFit(old(seg.blocks), Words(TRACKER_BYTES)), Words(POOL_HEADER_BYTES)))
    ensures tracker != 0 ==> rb !in Live(old(seg.blocks)) && tracker == rb.off + BLOCK_HEADER && 8 * rb.size >= 16
    ensures ok ==> tracker != 0 && pool != null && fresh(pool) && pool.seg == seg && pool.Valid()
    ensures ok ==> Live(old(seg.blocks)) + {rb} !! PoolBlocks(pool.header, pool.chunks)
    ensures ok ==> Live(seg.blocks) == Live(old(seg.blocks)) + {rb} + PoolBlocks(pool.header, pool.chunks)
    ensures !ok && tracker != 0 ==> Live(seg.blocks) == Live(old(seg.blocks)) + {rb}
  {
    hide Words;
    hide Holds, Counters, Live, Keeps, Pieces, PoolHolds, AfterFit, NoFit, AllGranted;
    ok, pool := false, null;
    ghost var was, live := seg.mem[..], Live(seg.blocks);
    tracker, rb := seg.Smalloc(TRACKER_BYTES);
    if tracker == 0 {
      return;
    }
    ghost var m1, live1 := seg.mem[..], Live(seg.blocks);
    pool := MPool.Create(seg);
    KeepsBoth(was, m1, seg.mem[..], live, live1, live);
    if pool != null {
      ghost var m2 := seg.mem[..];
      assert Live(seg.blocks) - PoolBlocks(pool.header, pool.chunks) == live1;
      ok := FillPool(seg, pool, requests);
      KeepsBoth(was, m2, seg.mem[..], live, live1, live);
      PoolLive(seg.mem[..], Live(seg.blocks), pool.header, pool.chunks);
      assert Live(seg.blocks) == live1 + PoolBlocks(pool.header, pool.chunks);
      if !ok {
        ghost var m3 := seg.mem[..];
        pool.FreeMpool();
        assert Live(seg.blocks) == live1;
        KeepsBoth(was, m3, seg.mem[..], live, live1, live);
      }
    }
  }

  /** Gives a block back; what was kept before stays kept. */
  method FreeBack(seg: Segment, paddr: nat, ghost b: Block, ghost was: seq<int>, ghost live: set<Block>)
    requires seg.Valid() && seg.Owns(b, paddr) && b !in live && live <= Live(seg.blocks)
             && Keeps(was, seg.mem[..], live)
    modifies seg`freeSize, seg`freeCount, seg`usedCount, seg`blocks, seg.mem
    ensures seg.Valid() && Live(seg.blocks) == Live(old(seg.blocks)) - {b} && Keeps(was, seg.mem[..], live)
  {
    hide Holds, Counters, Live, Keeps;
    ghost var m1 := seg.mem[..];
    seg.Sfree(paddr, b);
    KeepsBoth(was, m1, seg.mem[..], live, Live(seg.blocks), live);
  }

  /** The array case of copyin_zval, with the zval at zb already taken. */
  method CopyinArrayOf(seg: Segment, requests: seq<nat>, zvalue: nat, ghost zb: Block, ghost was: seq<int>,
                       ghost live: set<Block>)
    returns (ok: bool, part: nat, pool: MPool?, ghost rb: Block, ghost leaked: set<Block>)
    requires seg.Valid() && forall k {:trigger requests[k]} :: 0 <= k < |requests| ==> requests[k] > 0
    requires zb !in live && Live(seg.blocks) == live + {zb} && seg.Owns(zb, zvalue) && Keeps(was, seg.mem[..], live)
    modifies seg`freeSize, seg`freeCount, seg`usedCount, seg`blocks, seg.mem
    ensures seg.Valid() && Keeps(was, seg.mem[..], live)
    ensures ok ==> part != 0 && rb !in live && rb != zb && part == rb.off + BLOCK_HEADER && 8 * rb.size >= 16
    ensures ok ==> pool != null && fresh(pool) && pool.seg == seg && pool.Valid() && Serves(pool.pieces, 0, requests)
    ensures ok ==> live + {zb, rb} !! PoolBlocks(pool.header, pool.chunks)
    ensures ok ==> Live(seg.blocks) == live + {zb} + {rb} + PoolBlocks(pool.header, pool.chunks)
    ensures !ok ==> Live(seg.blocks) == live + leaked && leaked !! live && (leaked != {} ==> zb != rb)
    ensures !ok ==> leaked == if NoFit(old(seg.blocks), Words(TRACKER_BYTES)) then {}
                              else if NoFit(AfterFit(old(seg.blocks), Words(TRACKER_BYTES)), Words(POOL_HEADER_BYTES))
                              then {rb}
                              else {zb, rb}
    ensures ok <==> ArrayFits(old(seg.blocks), requests)
    ensures ok ==> !NoFit(old(seg.blocks), Words(TRACKER_BYTES))
                   && !NoFit(AfterFit(old(seg.blocks), Words(TRACKER_BYTES)), Words(POOL_HEADER_BYTES))
  {
    hide Words;
    hide Holds, Counters, Live, Keeps, Pieces, PoolHolds, PoolBlocks, AfterFit, NoFit, ArrayFits;
    ghost var m1, live1 := seg.mem[..], Live(seg.blocks);
    leaked := {};
    ok, part, pool, rb := CopyinArray(seg, requests);
    KeepsBoth(was, m1, seg.mem[..], live, live1, live);
    if ok {
      return;
    }
    leaked := if part != 0 then {rb} else {};
    if pool == null {
      FreeBack(seg, zvalue, zb, was, live);
    } else {
      leaked := leaked + {zb};
    }
  }

  /** copyin_zval at the top level.  On failure leaked are the blocks it does not give back:
      none for scalars, strings and objects; for an array the tracker if it was taken, and the
      zval as well if the pool had been created. */
  method CopyinZval(seg: Segment, shape: Shape)
    returns (ok: bool, zvalue: nat, part: nat, pool: MPool?, ghost zb: Block, ghost rb: Block, ghost leaked: set<Block>)
    requires seg.Valid() && Requests(shape)
    modifies seg`freeSize, seg`freeCount, seg`usedCount, seg`blocks, seg.mem
    ensures seg.Valid() && Keeps(old(seg.mem[..]), seg.mem[..], Live(old(seg.blocks)))
    ensures ok <==> RoomFor(old(seg.blocks), shape)
    ensures ok ==> zb !in Live(old(seg.blocks)) && zvalue == zb.off + BLOCK_HEADER && 8 * zb.size >= 16
    ensures ok && !shape.Scalar? ==> 8 * rb.size >= if shape.OneBlock? then shape.bytes else 16
    ensures ok ==> (part == 0 <==> shape.Scalar?) && (pool == null <==> !shape.ArrayOf?)
    ensures ok && part != 0 ==> rb !in Live(old(seg.blocks)) && rb != zb && part == rb.off + BLOCK_HEADER
    ensures ok && pool != null ==>
              fresh(pool) && pool.seg == seg && pool.Valid() && Serves(pool.pieces, 0, shape.requests)
    ensures ok && pool != null ==> Live(old(seg.blocks)) + {zb, rb} !! PoolBlocks(pool.header, pool.chunks)
    ensures ok ==> Live(seg.blocks) == Live(old(seg.blocks)) + {zb} + (if part != 0 then {rb} else {})
                     + (if pool != null then PoolBlocks(pool.header, pool.chunks) else {})
    ensures !ok ==> Live(seg.blocks) == Live(old(seg.blocks)) + leaked && leaked !! Live(old(seg.blocks))
    ensures !ok ==> leaked == if shape.ArrayOf? then Leaked(ArrayLeak(old(seg.blocks)), zb, rb) else {}
    ensures !ok && leaked != {} ==> zb != rb
    ensures ok && shape.ArrayOf? ==> ArrayLeak(old(seg.blocks)) == TrackerAndZval
  {
    hide Words;
    hide Holds, Counters, Live, Keeps, Pieces, PoolHolds, PoolBlocks, AfterFit, NoFit, ArrayFits;
    ok, part, pool, rb, leaked := false, 0, null, Block(0, 0, Used), {};
    ghost var was, live := seg.mem[..], Live(seg.blocks);
    zvalue, zb := seg.Smalloc(ZVAL_BYTES);
    if zvalue == 0 {
      return;
    }
    ghost var m1, live1 := seg.mem[..], Live(seg.blocks);
    match shape {
      case Scalar =>
        ok := true;
      case OneBlock(bytes) =>
        part, rb := seg.Smalloc(bytes);
        ok := part != 0;
        KeepsBoth(was, m1, seg.mem[..], live, live1, live);
        if !ok {
          FreeBack(seg, zvalue, zb, was, live);
        }
      case ArrayOf(requests) =>
        ok, part, pool, rb, leaked := CopyinArrayOf(seg, requests, zvalue, zb, was, live);
    }
  }

  /** create_zvcache_data. */
  method CreateData(seg: Segment, keylen: nat, shape: Shape) returns (d: ZvData?, ghost leaked: set<Block>)
    requires seg.Valid() && Requests(shape)
    modifies seg`freeSize, seg`freeCount, seg`usedCount, seg`blocks, seg.mem
    ensures seg.Valid() && Keeps(old(seg.mem[..]), seg.mem[..], Live(old(seg.blocks)))
    ensures d != null <==> SetFits(old(seg.blocks), keylen, shape)
    ensures d != null ==> fresh(d) && (d.pool != null ==> fresh(d.pool)) && d.Valid(seg)
    ensures d != null ==> (d.part != 0 <==> !shape.Scalar?) && (d.pool != null <==> shape.ArrayOf?)
    ensures d != null ==> 8 * d.pvalueBlock.size >= 64 + keylen && 8 * d.zvalueBlock.size >= 16
                          && (d.part != 0 ==> 8 * d.partBlock.size >= if shape.OneBlock? then shape.bytes else 16)
    ensures d != null && shape.ArrayOf? ==> Serves(d.pool.pieces, 0, shape.requests)
    ensures d != null ==> Live(seg.blocks) == Live(old(seg.blocks)) + d.Owned() && Live(old(seg.blocks)) !! d.Owned()
    ensures d == null ==> Live(seg.blocks) == Live(old(seg.blocks)) + leaked && leaked !! Live(old(seg.blocks))
    ensures d == null ==> |leaked| == LeakCount(SetLeak(old(seg.blocks), keylen, shape))
    ensures d == null && leaked == {} ==> seg.blocks == old(seg.blocks)
    ensures d != null && shape.ArrayOf? ==> SetLeak(old(seg.blocks), keylen, shape) == TrackerAndZval
  {
    hide Holds, Counters, Live, Keeps, Pieces, PoolHolds, PoolBlocks, AfterFit, NoFit, RoomFor, ArrayLeak;
    hide Requests, Serves, ZvData.ValidOn, Words;
    d, leaked := null, {};
    ghost var was, live := seg.mem[..], Live(seg.blocks);
    var pvalue;
    ghost var pb;
    pvalue, pb := seg.Smalloc(ZVCACHE_VALUE_BYTES + keylen);
    if pvalue == 0 {
      return;
    }
    ghost var m1, live1 := seg.mem[..], Live(seg.blocks);
    var ok, zvalue, part, pool;
    ghost var zb, rb;
    ok, zvalue, part, pool, zb, rb, leaked := CopyinZval(seg, shape);
    KeepsBoth(was, m1, seg.mem[..], live, live1, live);
    if ok {
      leaked := {};
      d := MakeData(seg, pvalue, zvalue, part, pool, pb, zb, rb, live);
    } else {
      HowMany(SetLeak(old(seg.blocks), keylen, shape), zb, rb);
      FreeBack(seg, pvalue, pb, was, live);
      GivenBack(live, pb, leaked);
      if leaked == {} {
        SameLive(was, seg.mem[..], old(seg.blocks), seg.blocks);
      }
    }
  }

  lemma HowMany(leak: Leak, zb: Block, rb: Block)
    requires leak != Nothing ==> zb != rb
    ensures |Leaked(leak, zb, rb)| == LeakCount(leak)
  {
  }

  lemma GivenBack(live: set<Block>, b: Block, more: set<Block>)
    requires b !in live && more !! live + {b}
    ensures live + {b} + more - {b} == live + more && more !! live
  {
  }

  /** Puts the pieces of a new value together. */
  method MakeData(seg: Segment, pvalue: nat, zvalue: nat, part: nat, pool: MPool?,
                  ghost pb: Block, ghost zb: Block, ghost rb: Block, ghost live: set<Block>)
    returns (d: ZvData)
    requires seg.Valid() && pvalue == pb.off + BLOCK_HEADER && zvalue == zb.off + BLOCK_HEADER
    requires pb !in live && zb !in live + {pb}
             && (part != 0 ==> rb !in live + {pb} && rb != zb && part == rb.off + BLOCK_HEADER)
    requires pool != null ==>
               pool.seg == seg && pool.Valid() && live + {pb} + {zb, rb} !! PoolBlocks(pool.header, pool.chunks)
    requires pool != null ==> part != 0
    requires Live(seg.blocks) == live + {pb} + {zb} + (if part != 0 then {rb} else {})
               + (if pool != null then PoolBlocks(pool.header, pool.chunks) else {})
    ensures fresh(d) && d.pool == pool && d.part == part && d.Valid(seg)
    ensures d.pvalueBlock == pb && d.zvalueBlock == zb && d.partBlock == rb
    ensures Live(seg.blocks) == live + d.Owned() && live !! d.Owned()
  {
    hide Holds, Counters, Live, Keeps, Pieces, PoolHolds, PoolBlocks, AfterFit, NoFit;
    d := new ZvData(pvalue, zvalue, part, pool, pb, zb, rb);
  }

  /** destroy_zvcache_data. */
  method DestroyData(seg: Segment, d: ZvData)
    requires d.Valid(seg)
    modifies seg`freeSize, seg`freeCount, seg`usedCount, seg`blocks, seg.mem
    ensures seg.Valid() && Live(seg.blocks) == Live(old(seg.blocks)) - d.Owned()
    ensures Keeps(old(seg.mem[..]), seg.mem[..], Live(seg.blocks))
  {
    hide Holds, Counters, Live, Keeps, Pieces, PoolHolds, PoolBlocks, AfterFit, NoFit;
    ghost var was, rest, m0 := seg.mem[..], Live(seg.blocks) - d.Owned(), seg.blocks;
    KeepsSelf(was, seg.blocks);
    KeepsLess(was, was, Live(seg.blocks), rest);
    if d.pool != null {
      d.pool.FreeMpool();
      KeepsBoth(was, was, seg.mem[..], rest, Live(seg.blocks), rest);
    }
    if d.part != 0 {
      FreeBack(seg, d.part, d.partBlock, was, rest);
    }
    FreeBack(seg, d.zvalue, d.zvalueBlock, was, rest);
    FreeBack(seg, d.pvalue, d.pvalueBlock, was, rest);
  }

  /** A successful set followed by the removal of its entry leaves the layout of the heap and
      every other payload as they were; a failed set does so exactly when it leaks nothing. */
  method SetThenRemove(seg: Segment, keylen: nat, shape: Shape) returns (stored: bool)
    requires seg.Valid() && Requests(shape)
    modifies seg`freeSize, seg`freeCount, seg`usedCount, seg`blocks, seg.mem
    ensures stored <==> SetFits(old(seg.blocks), keylen, shape)
    ensures seg.Valid() && Keeps(old(seg.mem[..]), seg.mem[..], Live(old(seg.blocks)))
    ensures seg.blocks == old(seg.blocks) <==> stored || SetLeak(old(seg.blocks), keylen, shape) == Nothing
  {
    hide Holds, Counters, Live, Keeps, Pieces, PoolHolds, PoolBlocks, AfterFit, NoFit, SetFits;
    ghost var was, live := seg.mem[..], Live(seg.blocks);
    var d;
    ghost var leaked;
    d, leaked := CreateData(seg, keylen, shape);
    stored := d != null;
    if stored {
      ghost var m1 := seg.mem[..];
      DestroyData(seg, d);
      KeepsBoth(was, m1, seg.mem[..], live, Live(seg.blocks), live);
      SameLive(was, seg.mem[..], old(seg.blocks), seg.blocks);
    }
  }

  /** On a fresh segment of 43 words the entry, its zval and the tracker are served, and nothing is
      left for the header of the pool. */
  lemma LeakingHeap()
    ensures SetLeak(Initial(43), 0, ArrayOf([8])) == Tracker
  {
    hide AfterFit;
    var first, value, zval, last := Block(6, 0, First), Block(11, 8, Used), Block(24, 2, Used), Block(38, 0, Last);
    Carved([first], Block(11, 22, Free), [last], 8);
    Carved([first, value], Block(24, 9, Free), [last], 2);
    Carved([first, value, zval], Block(31, 2, Free), [last], 2);
    assert Initial(43) == [first] + [Block(11, 22, Free)] + [last];
    assert [first] + Halves(Block(11, 22, Free), 8) + [last] == [first, value] + [Block(24, 9, Free)] + [last];
    assert [first, value] + Halves(Block(24, 9, Free), 2) + [last]
           == [first, value, zval] + [Block(31, 2, Free)] + [last];
    assert Fits(([first] + [Block(11, 22, Free)] + [last])[1], 8);
    assert Fits(([first, value] + [Block(24, 9, Free)] + [last])[2], 2);
    assert Fits(([first, value, zval] + [Block(31, 2, Free)] + [last])[3], 2);
  }

  /** A set that fails and leaves a block behind. */
  method FailedSet() returns (seg: Segment)
    ensures fresh(seg) && seg.Valid() && |Live(seg.blocks)| == 1
  {
    hide Holds, Counters, Live, Keeps, AfterFit, NoFit, SetLeak, ZvData.ValidOn;
    seg := new Segment(43);
    LeakingHeap();
    var d;
    ghost var leaked;
    d, leaked := CreateData(seg, 0, ArrayOf([8]));
  }

  // ----- The values of a whole cache -----

  ghost function PoolsOf(ds: seq<ZvData>): (r: set<MPool>)
    ensures forall k {:trigger ds[k]} :: 0 <= k < |ds| && ds[k].pool != null ==> ds[k].pool in r
  {
    set d | d in ds && d.pool != null :: d.pool
  }

  ghost function OwnedSets(ds: seq<ZvData>): (r: seq<set<Block>>)
    reads PoolsOf(ds)
    ensures |r| == |ds| && forall k {:trigger ds[k]} {:trigger r[k]} :: 0 <= k < |ds| ==> r[k] == ds[k].Owned()
  {
    seq(|ds|, k requires 0 <= k < |ds| reads PoolsOf(ds) => ds[k].Owned())
  }

  ghost predicate ApartSets(ss: seq<set<Block>>) {
    forall i, j {:trigger ss[i], ss[j]} :: 0 <= i < j < |ss| ==> ss[i] !! ss[j]
  }

  /** The values of a cache: each in order, and no block shared between two of them. */
  ghost predicate AllValid(seg: Segment, ds: seq<ZvData>)
    reads seg, seg.mem, PoolsOf(ds)
  {
    && seg.Valid()
    && (forall k {:trigger ds[k]} :: 0 <= k < |ds| ==> ds[k].Valid(seg))
    && ApartSets(OwnedSets(ds))
  }

  ghost function AllOwned(ds: seq<ZvData>): set<Block>
    reads PoolsOf(ds)
  {
    Union(OwnedSets(ds))
  }

  ghost function Union(ss: seq<set<Block>>): set<Block> {
    if ss == [] then {} else Union(ss[..|ss| - 1]) + ss[|ss| - 1]
  }

  lemma UnionAppend(ss: seq<set<Block>>, s: set<Block>)
    ensures Union(ss + [s]) == Union(ss) + s
  {
    assert (ss + [s])[..|ss|] == ss;
  }

  lemma AppendApart(ss: seq<set<Block>>, s: set<Block>)
    requires ApartSets(ss) && Union(ss) !! s
    ensures ApartSets(ss + [s])
  {
    forall i | 0 <= i < |ss| ensures ss[i] !! s {
      InUnion(ss, i);
    }
  }

  lemma {:induction false} InUnion(ss: seq<set<Block>>, i: nat)
    requires i < |ss|
    ensures ss[i] <= Union(ss)
  {
    if i < |ss| - 1 {
      InUnion(ss[..|ss| - 1], i);
    }
  }

  /** Taking out one of several sets that share nothing takes out exactly its members. */
  lemma {:induction false} UnionWithout(ss: seq<set<Block>>, k: nat)
    requires k < |ss| && ApartSets(ss)
    ensures Union(ss[..k] + ss[k + 1..]) == Union(ss) - ss[k] && ApartSets(ss[..k] + ss[k + 1..])
  {
    var n := |ss| - 1;
    if k == n {
      assert ss[..k] + ss[k + 1..] == ss[..n];
      UnionApart(ss[..n], ss[n]);
    } else {
      var r := ss[..n][..k] + ss[..n][k + 1..];
      assert ss[..k] + ss[k + 1..] == r + [ss[n]];
      UnionWithout(ss[..n], k);
      UnionAppend(r, ss[n]);
    }
  }

  lemma {:induction false} UnionApart(ss: seq<set<Block>>, s: set<Block>)
    requires forall k {:trigger ss[k]} :: 0 <= k < |ss| ==> ss[k] !! s
    ensures Union(ss) !! s
  {
    if ss != [] {
      UnionApart(ss[..|ss| - 1], s);
    }
  }

  lemma {:induction false} UnionWithin(ss: seq<set<Block>>, s: set<Block>)
    requires forall k {:trigger ss[k]} :: 0 <= k < |ss| ==> ss[k] <= s
    ensures Union(ss) <= s
  {
    if ss != [] {
      UnionWithin(ss[..|ss| - 1], s);
    }
  }

  /** A value outlives the release of blocks it does not own. */
  lemma StillValid(d: ZvData, seg: Segment, m: seq<int>, live: set<Block>, n: seq<int>, gone: set<Block>)
    requires d.ValidOn(seg, m, live) && gone !! d.Owned() && Keeps(m, n, live - gone)
    ensures d.ValidOn(seg, n, live - gone)
  {
    hide Keeps, PoolHolds, Pieces, PoolBlocks;
    if d.pool != null {
      PoolShrunk(m, n, live, live - gone, d.pool.header, d.pool.chunks);
    }
  }

  /** A value outlives the allocation of further blocks. */
  lemma ValidAmongMore(d: ZvData, seg: Segment, m: seq<int>, live: set<Block>, n: seq<int>, after: set<Block>)
    requires d.ValidOn(seg, m, live) && live <= after && Keeps(m, n, live)
    ensures d.ValidOn(seg, n, after)
  {
    hide Keeps, PoolHolds, Pieces, PoolBlocks;
    if d.pool != null {
      PoolKept(m, n, live, after, d.pool.header, d.pool.chunks);
    }
  }

  /** zvcache_set for a new key, on the memory side.  The values stored before stay in order, the new
      one shares no block with them, and a failed set loses the blocks SetLeak tells. */
  method Store(seg: Segment, ds: seq<ZvData>, keylen: nat, shape: Shape)
    returns (r: seq<ZvData>, ghost lost: set<Block>)
    requires AllValid(seg, ds) && Requests(shape)
    modifies seg`freeSize, seg`freeCount, seg`usedCount, seg`blocks, seg.mem
    ensures AllValid(seg, r) && Keeps(old(seg.mem[..]), seg.mem[..], Live(old(seg.blocks)))
    ensures ds <= r && |r| <= |ds| + 1
    ensures Live(seg.blocks) - AllOwned(r) == old(Live(seg.blocks) - AllOwned(ds)) + lost
            && lost !! Live(old(seg.blocks))
    ensures |r| > |ds| <==> SetFits(old(seg.blocks), keylen, shape)
    ensures |lost| == Loss(old(seg.blocks), keylen, shape)
  {
    hide Holds, Counters, Live, Keeps, Requests, AfterFit, NoFit, SetLeak, LeakCount, SetFits, Union, Serves;
    hide ApartSets, AllValid, AllOwned, OwnedSets, PoolsOf;
    hide ZvData.Valid, ZvData.ValidOn, ZvData.Owned;
    ghost var was, live, sets := seg.mem[..], Live(seg.blocks), OwnedSets(ds);
    Unpacked(seg, ds);
    var d;
    d, lost := CreateData(seg, keylen, shape);
    assert OwnedSets(ds) == sets;
    if d != null {
      Stored(seg, ds, d, was, live, sets);
      r, lost := ds + [d], {};
    } else {
      NotStored(seg, ds, lost, was, live, sets);
      r := ds;
    }
  }

  lemma Stored(seg: Segment, ds: seq<ZvData>, d: ZvData, was: seq<int>, live: set<Block>, sets: seq<set<Block>>)
    requires d.Valid(seg) && Live(seg.blocks) == live + d.Owned() && live !! d.Owned()
    requires Union(sets) <= live && Keeps(was, seg.mem[..], live) && OwnedSets(ds) == sets && ApartSets(sets)
    requires forall k {:trigger ds[k]} :: 0 <= k < |ds| ==> ds[k].ValidOn(seg, was, live)
    ensures AllValid(seg, ds + [d]) && Live(seg.blocks) - AllOwned(ds + [d]) == live - Union(sets) + {}
  {
    hide Holds, Counters, Live, Keeps, ApartSets, Union, AllValid, AllOwned;
    hide ZvData.ValidOn, ZvData.Owned;
    AllAmongMore(seg, ds, was, live, sets);
    Enlarged(live, Union(sets), d.Owned(), {});
    Joined(seg, ds, d);
  }

  lemma NotStored(seg: Segment, ds: seq<ZvData>, lost: set<Block>, was: seq<int>, live: set<Block>,
                  sets: seq<set<Block>>)
    requires seg.Valid() && Live(seg.blocks) == live + lost && lost !! live
    requires Union(sets) <= live && Keeps(was, seg.mem[..], live) && OwnedSets(ds) == sets && ApartSets(sets)
    requires forall k {:trigger ds[k]} :: 0 <= k < |ds| ==> ds[k].ValidOn(seg, was, live)
    ensures AllValid(seg, ds) && Live(seg.blocks) - AllOwned(ds) == live - Union(sets) + lost
  {
    hide Holds, Counters, Live, Keeps, ApartSets, Union, AllValid, AllOwned;
    hide ZvData.ValidOn, ZvData.Owned;
    AllAmongMore(seg, ds, was, live, sets);
    Enlarged(live, Union(sets), {}, lost);
  }

  lemma Unpacked(seg: Segment, ds: seq<ZvData>)
    requires AllValid(seg, ds)
    ensures seg.Valid() && ApartSets(OwnedSets(ds)) && AllOwned(ds) == Union(OwnedSets(ds)) <= Live(seg.blocks)
    ensures forall k {:trigger ds[k]} :: 0 <= k < |ds| ==> ds[k].ValidOn(seg, seg.mem[..], Live(seg.blocks))
  {
    hide Holds, Counters, Live, ApartSets, Union;
    hide ZvData.ValidOn, ZvData.Owned;
    StillInside(seg, ds);
  }

  lemma Enlarged(live: set<Block>, u: set<Block>, o: set<Block>, lost: set<Block>)
    requires u <= live && o !! live && lost !! live
    ensures o == {} ==> live + lost - u == live - u + lost
    ensures live + o - (u + o) == live - u
  {
  }

  lemma TakenOut(live: set<Block>, u: set<Block>, o: set<Block>)
    requires o <= u <= live
    ensures live - o - (u - o) == live - u
  {
  }

  /** A cache keeps its values in order when further blocks are allocated. */
  lemma AllAmongMore(seg: Segment, ds: seq<ZvData>, was: seq<int>, live: set<Block>, sets: seq<set<Block>>)
    requires seg.Valid() && live <= Live(seg.blocks) && Keeps(was, seg.mem[..], live)
    requires forall k {:trigger ds[k]} :: 0 <= k < |ds| ==> ds[k].ValidOn(seg, was, live)
    requires OwnedSets(ds) == sets && ApartSets(sets)
    ensures AllValid(seg, ds) && AllOwned(ds) == Union(sets)
  {
    hide Holds, Counters, Live, Keeps, ApartSets, Union;
    hide ZvData.ValidOn, ZvData.Owned;
    forall k | 0 <= k < |ds| ensures ds[k].Valid(seg) {
      ValidAmongMore(ds[k], seg, was, live, seg.mem[..], Live(seg.blocks));
    }
  }

  lemma StillInside(seg: Segment, ds: seq<ZvData>)
    requires AllValid(seg, ds)
    ensures AllOwned(ds) <= Live(seg.blocks)
  {
    hide Holds, Counters, Live, ApartSets, Union;
    hide ZvData.ValidOn, ZvData.Owned;
    forall k | 0 <= k < |ds| ensures ds[k].Owned() <= Live(seg.blocks) {
      OwnedLive(ds[k], seg, seg.mem[..], Live(seg.blocks));
    }
    UnionWithin(OwnedSets(ds), Live(seg.blocks));
  }

  lemma Joined(seg: Segment, ds: seq<ZvData>, d: ZvData)
    requires AllValid(seg, ds) && d.Valid(seg) && AllOwned(ds) !! d.Owned()
    ensures AllValid(seg, ds + [d]) && AllOwned(ds + [d]) == AllOwned(ds) + d.Owned()
  {
    hide Holds, Counters, Live, ApartSets, Union;
    hide ZvData.ValidOn, ZvData.Owned;
    assert OwnedSets(ds + [d]) == OwnedSets(ds) + [d.Owned()];
    UnionAppend(OwnedSets(ds), d.Owned());
    AppendApart(OwnedSets(ds), d.Owned());
  }

  lemma OwnedLive(d: ZvData, seg: Segment, m: seq<int>, live: set<Block>)
    requires d.ValidOn(seg, m, live)
    ensures d.Owned() <= live
  {
  }

  /** The removal of entry k on the memory side: its blocks go back, the other values stay in order. */
  method Drop(seg: Segment, ds: seq<ZvData>, k: nat) returns (r: seq<ZvData>)
    requires AllValid(seg, ds) && k < |ds|
    modifies seg`freeSize, seg`freeCount, seg`usedCount, seg`blocks, seg.mem
    ensures AllValid(seg, r) && Keeps(old(seg.mem[..]), seg.mem[..], Live(seg.blocks))
    ensures r == ds[..k] + ds[k + 1..]
    ensures Live(seg.blocks) == old(Live(seg.blocks) - ds[k].Owned())
    ensures Live(seg.blocks) - AllOwned(r) == old(Live(seg.blocks) - AllOwned(ds))
  {
    hide Holds, Counters, Live, Keeps, AfterFit, NoFit, ApartSets, Union;
    hide ZvData.ValidOn, ZvData.Owned;
    ghost var was, live, sets := seg.mem[..], Live(seg.blocks), OwnedSets(ds);
    StillInside(seg, ds);
    DestroyData(seg, ds[k]);
    r := ds[..k] + ds[k + 1..];
    forall j | 0 <= j < |ds| && j != k ensures ds[j].Valid(seg) {
      ApartFrom(sets, j, k);
      StillValid(ds[j], seg, was, live, seg.mem[..], sets[k]);
    }
    UnionWithout(sets, k);
    InUnion(sets, k);
    TakenOut(live, Union(sets), sets[k]);
    assert OwnedSets(r) == sets[..k] + sets[k + 1..] && OwnedSets(ds) == sets;
  }

  lemma ApartFrom(ss: seq<set<Block>>, j: nat, k: nat)
    requires ApartSets(ss) && j < |ss| && k < |ss| && j != k
    ensures ss[k] !! ss[j]
  {
  }

  /** zvcache_clear on the memory side: removing every value gives back exactly their blocks. */
  method ClearAll(seg: Segment, ds: seq<ZvData>)
    requires AllValid(seg, ds)
    modifies seg`freeSize, seg`freeCount, seg`usedCount, seg`blocks, seg.mem
    ensures seg.Valid() && Live(seg.blocks) == old(Live(seg.blocks) - AllOwned(ds))
    ensures Keeps(old(seg.mem[..]), seg.mem[..], Live(seg.blocks))
  {
    hide Holds, Counters, Live, Keeps, AfterFit, NoFit, ApartSets, Union;
    hide ZvData.ValidOn, ZvData.Owned;
    ghost var was, live, sets := seg.mem[..], Live(seg.blocks), OwnedSets(ds);
    KeepsSelf(was, seg.blocks);
    UnionNone();
    for k := 0 to |ds|
      invariant seg.Valid() && Live(seg.blocks) == live - Union(sets[..k]) && Keeps(was, seg.mem[..], Live(seg.blocks))
      invariant forall j {:trigger ds[j]} :: k <= j < |ds| ==> ds[j].Valid(seg) && ds[j].Owned() == sets[j]
    {
      ClearOne(seg, ds, k, was, sets);
      UnionAppend(sets[..k], sets[k]);
      assert sets[..k + 1] == sets[..k] + [sets[k]];
    }
    assert sets[..|ds|] == sets && OwnedSets(ds) == sets;
  }

  lemma UnionNone()
    ensures Union([]) == {}
  {
  }

  method ClearOne(seg: Segment, ds: seq<ZvData>, k: nat, ghost was: seq<int>, ghost sets: seq<set<Block>>)
    requires seg.Valid() && k < |ds| && Keeps(was, seg.mem[..], Live(seg.blocks)) && |sets| == |ds| && ApartSets(sets)
    requires forall j {:trigger ds[j]} :: k <= j < |ds| ==> ds[j].Valid(seg) && ds[j].Owned() == sets[j]
    modifies seg`freeSize, seg`freeCount, seg`usedCount, seg`blocks, seg.mem
    ensures seg.Valid() && Live(seg.blocks) == Live(old(seg.blocks)) - sets[k]
            && Keeps(was, seg.mem[..], Live(seg.blocks))
    ensures forall j {:trigger ds[j]} :: k < j < |ds| ==> ds[j].Valid(seg) && ds[j].Owned() == sets[j]
  {
    hide Holds, Counters, Live, Keeps, AfterFit, NoFit, ApartSets;
    hide ZvData.ValidOn, ZvData.Owned;
    ghost var before, live := seg.mem[..], Live(seg.blocks);
    DestroyData(seg, ds[k]);
    KeepsTrans(was, before, seg.mem[..], live, Live(seg.blocks));
    forall j | k < j < |ds| ensures ds[j].ValidOn(seg, seg.mem[..], live - sets[k]) {
      ApartFrom(sets, j, k);
      StillValid(ds[j], seg, before, live, seg.mem[..], sets[k]);
    }
  }

  // ----- A cache from its first entry to its last -----

  datatype CacheCall = Put(keylen: nat, shape: Shape) | Remove(index: nat)

  /** The call is a set that the heap has room for. */
  ghost predicate Fitting(bs: seq<Block>, call: CacheCall) {
    call.Put? && SetFits(bs, call.keylen, call.shape)
  }

  /** How many entries there are after a call that finds n. */
  ghost function EntriesAfter(n: nat, bs: seq<Block>, call: CacheCall): nat {
    if Fitting(bs, call) then n + 1 else if call.Remove? && call.index < n then n - 1 else n
  }

  /** sizes[k] is the number of entries when heaps[k] is the layout, before call number k. */
  ghost predicate Counted(sizes: seq<nat>, heaps: seq<seq<Block>>, calls: seq<CacheCall>) {
    && |sizes| == |heaps| + 1 && |heaps| <= |calls| && sizes[0] == 0
    && forall k {:trigger heaps[k]} :: 0 <= k < |heaps| ==> sizes[k + 1] == EntriesAfter(sizes[k], heaps[k], calls[k])
  }

  lemma NoCalls(calls: seq<CacheCall>)
    ensures Counted([0], [], calls) && RunLoss([], calls, 0) == 0
  {
  }

  lemma CountedNext(sizes: seq<nat>, heaps: seq<seq<Block>>, calls: seq<CacheCall>, bs: seq<Block>, n: nat)
    requires Counted(sizes, heaps, calls) && |heaps| < |calls|
    requires n == EntriesAfter(sizes[|heaps|], bs, calls[|heaps|])
    ensures Counted(sizes + [n], heaps + [bs], calls)
  {
    hide EntriesAfter;
    var s, h := sizes + [n], heaps + [bs];
    forall k | 0 <= k < |h| ensures s[k + 1] == EntriesAfter(s[k], h[k], calls[k]) {
      if k < |heaps| {
        assert h[k] == heaps[k];
      }
    }
  }

  ghost function CallLoss(bs: seq<Block>, call: CacheCall): nat {
    if call.Put? then Loss(bs, call.keylen, call.shape) else 0
  }

  /** The blocks lost by the first n calls; heaps[k] is the layout call number k finds. */
  ghost function RunLoss(heaps: seq<seq<Block>>, calls: seq<CacheCall>, n: nat): nat
    requires n <= |heaps| && n <= |calls|
  {
    if n == 0 then 0 else RunLoss(heaps, calls, n - 1) + CallLoss(heaps[n - 1], calls[n - 1])
  }

  lemma {:induction false} RunLossKept(heaps: seq<seq<Block>>, bs: seq<Block>, calls: seq<CacheCall>, n: nat)
    requires n <= |heaps| && n <= |calls|
    ensures RunLoss(heaps + [bs], calls, n) == RunLoss(heaps, calls, n)
  {
    if n > 0 {
      RunLossKept(heaps, bs, calls, n - 1);
    }
  }

  /** Only a failed set of an array loses blocks. */
  lemma {:induction false} NothingLost(heaps: seq<seq<Block>>, calls: seq<CacheCall>, n: nat)
    requires n <= |heaps| && n <= |calls|
    requires forall k {:trigger calls[k]} :: 0 <= k < n && calls[k].Put? && calls[k].shape.ArrayOf? ==>
               Fitting(heaps[k], calls[k])
    ensures RunLoss(heaps, calls, n) == 0
  {
    hide SetFits;
    if n > 0 {
      NothingLost(heaps, calls, n - 1);
    }
  }

  /** One call on a cache that holds the values ds; a removal of an entry it does not hold does nothing.
      Whatever else is on the heap keeps its place and its contents. */
  method Perform(seg: Segment, ds: seq<ZvData>, call: CacheCall)
    returns (r: seq<ZvData>, ok: bool, ghost lost: set<Block>)
    requires AllValid(seg, ds) && (call.Put? ==> Requests(call.shape))
    modifies seg`freeSize, seg`freeCount, seg`usedCount, seg`blocks, seg.mem
    ensures AllValid(seg, r)
    ensures ok <==> Fitting(old(seg.blocks), call)
    ensures if ok then ds < r && |r| == |ds| + 1
            else r == if call.Remove? && call.index < |ds| then ds[..call.index] + ds[call.index + 1..] else ds
    ensures Keeps(old(seg.mem[..]), seg.mem[..], old(Live(seg.blocks) - AllOwned(ds)))
    ensures Live(seg.blocks) - AllOwned(r) == old(Live(seg.blocks) - AllOwned(ds)) + lost
            && lost !! Live(old(seg.blocks))
    ensures |lost| == CallLoss(old(seg.blocks), call)
  {
    hide Holds, Counters, Live, Keeps, AfterFit, NoFit, ApartSets, AllValid, AllOwned, Requests, SetFits, Loss;
    hide ZvData.ValidOn, ZvData.Owned;
    ghost var was, live, owned := seg.mem[..], Live(seg.blocks), AllOwned(ds);
    Unpacked(seg, ds);
    KeepsSelf(was, seg.blocks);
    KeepsLess(was, was, live, live - owned);
    r, ok, lost := ds, false, {};
    if call.Put? {
      r, lost := Store(seg, ds, call.keylen, call.shape);
      ok := |r| > |ds|;
      KeepsLess(was, seg.mem[..], live, live - owned);
    } else if call.index < |ds| {
      r := Drop(seg, ds, call.index);
      KeepsLess(was, seg.mem[..], Live(seg.blocks), live - owned);
    }
  }

  /** Any sets and removals, in any order, and then a clear: what was on the heap before keeps its
      contents, and only what failed sets of arrays have lost is left behind.  stored says which calls
      have stored an entry, heaps and sizes which layout and how many entries each call found. */
  method CacheLifetime(seg: Segment, calls: seq<CacheCall>)
    returns (stored: seq<bool>, ghost heaps: seq<seq<Block>>, ghost sizes: seq<nat>, ghost lost: set<Block>)
    requires seg.Valid() && forall k {:trigger calls[k]} :: 0 <= k < |calls| && calls[k].Put? ==>
               Requests(calls[k].shape)
    modifies seg`freeSize, seg`freeCount, seg`usedCount, seg`blocks, seg.mem
    ensures seg.Valid() && Keeps(old(seg.mem[..]), seg.mem[..], Live(old(seg.blocks)))
    ensures |stored| == |heaps| == |calls| && Counted(sizes, heaps, calls)
    ensures forall k {:trigger stored[k]} :: 0 <= k < |calls| ==> (stored[k] <==> Fitting(heaps[k], calls[k]))
    ensures Live(seg.blocks) == Live(old(seg.blocks)) + lost && lost !! Live(old(seg.blocks))
    ensures |lost| == RunLoss(heaps, calls, |calls|)
    ensures seg.blocks == old(seg.blocks) <==> lost == {}
    ensures (forall k {:trigger calls[k]} :: 0 <= k < |calls| && calls[k].Put? && calls[k].shape.ArrayOf? ==>
               stored[k]) ==>
              seg.blocks == old(seg.blocks)
  {
    hide Holds, Counters, Live, Keeps, AfterFit, NoFit, AllValid, AllOwned, ApartSets, Requests, Fitting, CallLoss;
    hide ZvData.ValidOn, ZvData.Owned, EntriesAfter, Counted, RunLoss;
    ghost var was, live := seg.mem[..], Live(seg.blocks);
    KeepsSelf(was, seg.blocks);
    var ds := [];
    NoValues(seg);
    NoCalls(calls);
    stored, heaps, sizes, lost := [], [], [0], {};
    for k := 0 to |calls|
      invariant AllValid(seg, ds) && Keeps(was, seg.mem[..], live) && |stored| == |heaps| == k
      invariant live <= Live(seg.blocks) && Live(seg.blocks) - AllOwned(ds) == live + lost && lost !! live
      invariant forall j {:trigger stored[j]} :: 0 <= j < k ==> (stored[j] <==> Fitting(heaps[j], calls[j]))
      invariant |lost| == RunLoss(heaps, calls, k)
      invariant Counted(sizes, heaps, calls) && |sizes| == k + 1 && sizes[k] == |ds|
    {
      var ok;
      ghost var more;
      ghost var before := heaps;
      ds, ok, heaps, more := NextCall(seg, ds, calls, k, heaps, was, live, lost);
      CountedNext(sizes, before, calls, heaps[k], |ds|);
      stored, lost, sizes := stored + [ok], lost + more, sizes + [|ds|];
    }
    ClearUp(seg, ds, was, old(seg.blocks), lost);
    if forall k {:trigger calls[k]} :: 0 <= k < |calls| && calls[k].Put? && calls[k].shape.ArrayOf? ==> stored[k] {
      NothingLost(heaps, calls, |calls|);
    }
  }

  /** The clear at the end of such a run. */
  method ClearUp(seg: Segment, ds: seq<ZvData>, ghost was: seq<int>, ghost bs: seq<Block>, ghost lost: set<Block>)
    requires AllValid(seg, ds) && Holds(was, bs) && Keeps(was, seg.mem[..], Live(bs))
    requires Live(bs) <= Live(seg.blocks) && Live(seg.blocks) - AllOwned(ds) == Live(bs) + lost && lost !! Live(bs)
    modifies seg`freeSize, seg`freeCount, seg`usedCount, seg`blocks, seg.mem
    ensures seg.Valid() && Keeps(was, seg.mem[..], Live(bs)) && Live(seg.blocks) == Live(bs) + lost
    ensures seg.blocks == bs <==> lost == {}
  {
    hide Holds, Counters, Live, Keeps, AllValid, AllOwned;
    hide ZvData.ValidOn, ZvData.Owned;
    ghost var before, live := seg.mem[..], Live(bs);
    Unpacked(seg, ds);
    ClearAll(seg, ds);
    KeepsBoth(was, before, seg.mem[..], live, live + lost, live);
    SameSize(was, seg.mem[..], live);
    if lost == {} {
      SameLive(was, seg.mem[..], bs, seg.blocks);
    }
  }

  lemma SameSize(m: seq<int>, n: seq<int>, live: set<Block>)
    requires Keeps(m, n, live)
    ensures |m| == |n|
  {
  }

  /** Call number k of such a run. */
  method NextCall(seg: Segment, ds: seq<ZvData>, calls: seq<CacheCall>, k: nat, ghost heaps: seq<seq<Block>>,
                  ghost was: seq<int>, ghost live: set<Block>, ghost lost: set<Block>)
    returns (r: seq<ZvData>, ok: bool, ghost heaps2: seq<seq<Block>>, ghost more: set<Block>)
    requires k < |calls| && |heaps| == k && (calls[k].Put? ==> Requests(calls[k].shape))
    requires AllValid(seg, ds) && Keeps(was, seg.mem[..], live) && live <= Live(seg.blocks)
    requires Live(seg.blocks) - AllOwned(ds) == live + lost && lost !! live && |lost| == RunLoss(heaps, calls, k)
    modifies seg`freeSize, seg`freeCount, seg`usedCount, seg`blocks, seg.mem
    ensures AllValid(seg, r) && Keeps(was, seg.mem[..], live) && live <= Live(seg.blocks)
    ensures heaps2 == heaps + [old(seg.blocks)] && (ok <==> Fitting(old(seg.blocks), calls[k]))
    ensures |r| == EntriesAfter(|ds|, old(seg.blocks), calls[k])
    ensures Live(seg.blocks) - AllOwned(r) == live + (lost + more) && lost + more !! live
    ensures |lost + more| == RunLoss(heaps2, calls, k + 1)
  {
    hide Holds, Counters, Live, Keeps, AfterFit, NoFit, AllValid, AllOwned, ApartSets, Requests, Fitting, CallLoss;
    hide ZvData.ValidOn, ZvData.Owned;
    ghost var before, others := seg.mem[..], live + lost;
    heaps2 := heaps + [seg.blocks];
    r, ok, more := Perform(seg, ds, calls[k]);
    KeepsBoth(was, before, seg.mem[..], live, others, live);
    RunLossKept(heaps, old(seg.blocks), calls, k);
  }

  lemma NoValues(seg: Segment)
    requires seg.Valid()
    ensures AllValid(seg, []) && AllOwned([]) == {}
  {
  }
}
