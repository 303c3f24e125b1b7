/** The memory pools built on the shared heap: size-classed chunks on a singly
    linked list, served by bumping a position, released in one go. */
module Pools {
  import opened Layout
  import opened Boundary
  import opened Segments

  datatype SizeClass = Small | Medium | Large | Huge

  // The POOL_ALLOCATION limits and block sizes of wincache_alloc.c, in bytes.
  const SMALL_MAX: nat := 128
  const MEDIUM_MAX: nat := 256
  const LARGE_MAX: nat := 1024
  const SMALL_BSIZE: nat := 512
  const MEDIUM_BSIZE: nat := 1024
  const LARGE_BSIZE: nat := 4096

  const POOL_HEADER_BYTES: nat := 40
  const POOL_SEGMENT_BYTES: nat := 32

  // Words of an alloc_mpool_header.
  const FOFFSET: nat := 0
  const LOFFSET: nat := 1
  // Words of an alloc_mpool_segment.
  const AOFFSET: nat := 0
  const SIZE: nat := 1
  const POSITION: nat := 2
  const NEXT: nat := 3

  function ClassOf(rbytes: nat): SizeClass {
    if rbytes <= SMALL_MAX then Small
    else if rbytes <= MEDIUM_MAX then Medium
    else if rbytes <= LARGE_MAX then Large
    else Huge
  }

  /** Bytes requested from the heap for a new chunk. */
  function ChunkBytes(rbytes: nat): nat {
    match ClassOf(rbytes)
    case Small => SMALL_BSIZE
    case Medium => MEDIUM_BSIZE
    case Large => LARGE_BSIZE
    case Huge => rbytes
  }

  /** The classes and their chunks: up to 1024 bytes a chunk has room for four requests at least, beyond that for
      the one it is made for. */
  lemma ChunkExact(rbytes: nat)
    ensures ClassOf(rbytes) == Small <==> rbytes <= 128
    ensures ClassOf(rbytes) == Medium <==> 128 < rbytes <= 256
    ensures ClassOf(rbytes) == Large <==> 256 < rbytes <= 1024
    ensures ChunkBytes(rbytes) ==
            if rbytes > 1024 then rbytes else if rbytes > 256 then 4096 else if rbytes > 128 then 1024 else 512
    ensures rbytes <= 1024 ==> 4 * rbytes <= ChunkBytes(rbytes)
  {
  }

  /** The header word that remembers the current chunk of a class. */
  function CurrentWord(class_: SizeClass): nat
    requires class_ != Huge
  {
    match class_
    case Small => 2
    case Medium => 3
    case Large => 4
  }

  // A chunk: the block of its descriptor, the block it serves from, and how far it is used (words).
  datatype Chunk = Chunk(seg: Block, data: Block, size: nat, position: nat, class_: SizeClass)

  // A piece of pool memory handed out from chunk number chunk.
  datatype Piece = Piece(addr: nat, len: nat, chunk: nat)

  function Addr(b: Block): nat {
    b.off + BLOCK_HEADER
  }

  /** Payload word k of block b. */
  ghost function WordAt(m: seq<int>, b: Block, k: nat): int
    requires b.off + OVERHEAD + b.size <= |m| && k < b.size
  {
    m[b.off + BLOCK_HEADER + k]
  }

  lemma WordKept(m: seq<int>, n: seq<int>, live: set<Block>, b: Block, k: nat)
    requires Keeps(m, n, live) && b in live && k < b.size
    ensures b.off + OVERHEAD + b.size <= |m| == |n| && WordAt(m, b, k) == WordAt(n, b, k)
  {
    assert PayloadOf(m, b)[k] == PayloadOf(n, b)[k];
  }

  /** Blocks the pool owns. */
  ghost function PoolBlocks(header: Block, cs: seq<Chunk>): set<Block> {
    {header} + ChunkBlocks(cs)
  }

  ghost function ChunkBlocks(cs: seq<Chunk>): set<Block> {
    if cs == [] then {} else ChunkBlocks(cs[..|cs| - 1]) + {cs[|cs| - 1].seg, cs[|cs| - 1].data}
  }

  ghost predicate ChunkApart(a: Chunk, b: Chunk) {
    a.seg != b.seg && a.seg != b.data && a.data != b.seg && a.data != b.data
  }

  /** Descriptor and data blocks are live, large enough and all different. */
  ghost predicate Owned(live: set<Block>, header: Block, cs: seq<Chunk>) {
    && header in live && header.size >= 5
    && (forall i {:trigger cs[i]} :: 0 <= i < |cs| ==>
          && cs[i].seg in live && cs[i].data in live
          && cs[i].seg != cs[i].data && cs[i].seg != header && cs[i].data != header
          && cs[i].seg.size >= 4 && cs[i].position <= cs[i].size <= cs[i].data.size)
    && (forall i, j {:trigger cs[i], cs[j]} :: 0 <= i < j < |cs| ==> ChunkApart(cs[i], cs[j]))
  }

  ghost predicate ChunkStored(m: seq<int>, c: Chunk, next: nat) {
    && c.seg.size >= 4 && c.seg.off + OVERHEAD + c.seg.size <= |m|
    && WordAt(m, c.seg, AOFFSET) == Addr(c.data) && WordAt(m, c.seg, SIZE) == c.size
    && WordAt(m, c.seg, POSITION) == c.position && WordAt(m, c.seg, NEXT) == next
  }

  ghost function NextOf(cs: seq<Chunk>, i: nat): nat
    requires i < |cs|
  {
    if i + 1 < |cs| then Addr(cs[i + 1].seg) else 0
  }

  /** The most recent chunk of a class, or none. */
  ghost function Latest(cs: seq<Chunk>, class_: SizeClass): (k: int)
    ensures -1 <= k < |cs|
    ensures k >= 0 ==> cs[k].class_ == class_
  {
    if cs == [] then -1
    else if cs[|cs| - 1].class_ == class_ then |cs| - 1
    else Latest(cs[..|cs| - 1], class_)
  }

  ghost function LatestAddr(cs: seq<Chunk>, class_: SizeClass): nat {
    if Latest(cs, class_) < 0 then 0 else Addr(cs[Latest(cs, class_)].seg)
  }

  /** The pool header in memory: both list ends and the three current chunks. */
  ghost predicate HeaderStored(m: seq<int>, header: Block, cs: seq<Chunk>) {
    && header.size >= 5 && header.off + OVERHEAD + header.size <= |m|
    && WordAt(m, header, FOFFSET) == (if cs == [] then 0 else Addr(cs[0].seg))
    && WordAt(m, header, LOFFSET) == (if cs == [] then 0 else Addr(cs[|cs| - 1].seg))
    && WordAt(m, header, 2) == LatestAddr(cs, Small)
    && WordAt(m, header, 3) == LatestAddr(cs, Medium)
    && WordAt(m, header, 4) == LatestAddr(cs, Large)
  }

  ghost predicate ListStored(m: seq<int>, cs: seq<Chunk>) {
    forall i {:trigger cs[i]} :: 0 <= i < |cs| ==> ChunkStored(m, cs[i], NextOf(cs, i))
  }

  ghost predicate PoolHolds(m: seq<int>, live: set<Block>, header: Block, cs: seq<Chunk>) {
    Owned(live, header, cs) && HeaderStored(m, header, cs) && ListStored(m, cs)
  }

  /** Every piece lies in the used part of one chunk's data block. */
  ghost predicate Placed(p: Piece, cs: seq<Chunk>) {
    && p.chunk < |cs|
    && Addr(cs[p.chunk].data) <= p.addr && p.addr + p.len <= Addr(cs[p.chunk].data) + cs[p.chunk].position
  }

  ghost predicate Apart(p: Piece, q: Piece) {
    p.addr + p.len <= q.addr || q.addr + q.len <= p.addr
  }

  ghost predicate Pieces(ps: seq<Piece>, cs: seq<Chunk>) {
    && (forall i {:trigger ps[i]} :: 0 <= i < |ps| ==> Placed(ps[i], cs))
    && (forall i, j {:trigger ps[i], ps[j]} :: 0 <= i < j < |ps| ==> Apart(ps[i], ps[j]))
  }

  // ----- What keeps a pool intact -----

  lemma PoolKept(m: seq<int>, n: seq<int>, live: set<Block>, after: set<Block>, header: Block, cs: seq<Chunk>)
    requires PoolHolds(m, live, header, cs) && Keeps(m, n, live) && live <= after
    ensures PoolHolds(n, after, header, cs)
  {
    HeaderKept(m, n, live, header, cs);
    forall i | 0 <= i < |cs| ensures ChunkStored(n, cs[i], NextOf(cs, i)) {
      ChunkKept(m, n, live, cs[i], NextOf(cs, i));
    }
  }

  /** A pool outlives the release of blocks it does not own. */
  lemma PoolShrunk(m: seq<int>, n: seq<int>, live: set<Block>, after: set<Block>, header: Block, cs: seq<Chunk>)
    requires PoolHolds(m, live, header, cs) && Keeps(m, n, after) && PoolBlocks(header, cs) <= after
    ensures PoolHolds(n, after, header, cs)
  {
    hide HeaderStored, ChunkStored, Keeps, PoolBlocks, ChunkApart;
    HeaderOwned(header, cs);
    HeaderKept(m, n, after, header, cs);
    forall i | 0 <= i < |cs|
      ensures cs[i].seg in after && cs[i].data in after && ChunkStored(n, cs[i], NextOf(cs, i))
    {
      ChunkShrunk(m, n, after, header, cs, i);
    }
  }

  lemma HeaderOwned(header: Block, cs: seq<Chunk>)
    ensures header in PoolBlocks(header, cs)
  {
  }

  lemma ChunkShrunk(m: seq<int>, n: seq<int>, after: set<Block>, header: Block, cs: seq<Chunk>, i: nat)
    requires ListStored(m, cs) && Keeps(m, n, after) && PoolBlocks(header, cs) <= after && i < |cs|
    ensures cs[i].seg in after && cs[i].data in after && ChunkStored(n, cs[i], NextOf(cs, i))
  {
    hide ChunkStored, Keeps, PoolBlocks;
    ChunkOwned(header, cs, i);
    ChunkKept(m, n, after, cs[i], NextOf(cs, i));
  }

  lemma ChunkKept(m: seq<int>, n: seq<int>, live: set<Block>, c: Chunk, next: nat)
    requires ChunkStored(m, c, next) && Keeps(m, n, live) && c.seg in live
    ensures ChunkStored(n, c, next)
  {
    WordKept(m, n, live, c.seg, AOFFSET);
    WordKept(m, n, live, c.seg, SIZE);
    WordKept(m, n, live, c.seg, POSITION);
    WordKept(m, n, live, c.seg, NEXT);
  }

  ghost function Bump(cs: seq<Chunk>, i: nat, len: nat): (ds: seq<Chunk>)
    requires i < |cs|
    ensures |ds| == |cs|
    ensures forall j {:trigger ds[j]} :: 0 <= j < |cs| ==>
              && ds[j].seg == cs[j].seg && ds[j].data == cs[j].data && ds[j].size == cs[j].size
              && ds[j].class_ == cs[j].class_
              && (j != i ==> ds[j] == cs[j])
  {
    cs[i := cs[i].(position := cs[i].position + len)]
  }

  lemma BumpOwned(live: set<Block>, header: Block, cs: seq<Chunk>, i: nat, len: nat)
    requires Owned(live, header, cs) && i < |cs| && cs[i].position + len <= cs[i].size
    ensures Owned(live, header, Bump(cs, i, len))
  {
    var ds := Bump(cs, i, len);
    forall j, k | 0 <= j < k < |ds| ensures ChunkApart(ds[j], ds[k]) {
      assert ChunkApart(cs[j], cs[k]);
    }
  }

  lemma HeaderKept(m: seq<int>, n: seq<int>, live: set<Block>, header: Block, cs: seq<Chunk>)
    requires HeaderStored(m, header, cs) && Keeps(m, n, live) && header in live
    ensures HeaderStored(n, header, cs)
  {
    HeaderWordsKept(m, n, live, header);
  }

  /** The list-end words of the header change to first and last, the current-chunk words stay. */
  ghost predicate HeaderEnds(m: seq<int>, n: seq<int>, header: Block, first: int, last: int) {
    && header.size >= 5 && header.off + OVERHEAD + header.size <= |m| == |n|
    && WordAt(n, header, FOFFSET) == first && WordAt(n, header, LOFFSET) == last
    && WordAt(n, header, 2) == WordAt(m, header, 2) && WordAt(n, header, 3) == WordAt(m, header, 3)
    && WordAt(n, header, 4) == WordAt(m, header, 4)
  }

  lemma HeaderWordsKept(m: seq<int>, n: seq<int>, live: set<Block>, header: Block)
    requires Keeps(m, n, live) && header in live && header.size >= 5
    ensures header.off + OVERHEAD + header.size <= |m| == |n|
    ensures WordAt(n, header, 0) == WordAt(m, header, 0) && WordAt(n, header, 1) == WordAt(m, header, 1)
    ensures WordAt(n, header, 2) == WordAt(m, header, 2) && WordAt(n, header, 3) == WordAt(m, header, 3)
    ensures WordAt(n, header, 4) == WordAt(m, header, 4)
  {
    WordKept(m, n, live, header, 0);
    WordKept(m, n, live, header, 1);
    WordKept(m, n, live, header, 2);
    WordKept(m, n, live, header, 3);
    WordKept(m, n, live, header, 4);
  }

  lemma BumpHeader(m: seq<int>, header: Block, cs: seq<Chunk>, i: nat, len: nat)
    requires HeaderStored(m, header, cs) && i < |cs|
    ensures HeaderStored(m, header, Bump(cs, i, len))
  {
    LatestSame(cs, Bump(cs, i, len), Small);
    LatestSame(cs, Bump(cs, i, len), Medium);
    LatestSame(cs, Bump(cs, i, len), Large);
  }

  /** Moving the position of chunk i forward keeps the pool well formed. */
  lemma Bumped(m: seq<int>, n: seq<int>, live: set<Block>, header: Block, cs: seq<Chunk>, i: nat, len: nat)
    requires PoolHolds(m, live, header, cs) && i < |cs| && cs[i].position + len <= cs[i].size
    requires Keeps(m, n, live - {cs[i].seg})
    requires ChunkStored(n, cs[i].(position := cs[i].position + len), NextOf(cs, i))
    ensures PoolHolds(n, live, header, Bump(cs, i, len))
  {
    var ds := Bump(cs, i, len);
    BumpOwned(live, header, cs, i, len);
    HeaderKept(m, n, live - {cs[i].seg}, header, cs);
    BumpHeader(n, header, cs, i, len);
    forall j | 0 <= j < |ds| ensures ChunkStored(n, ds[j], NextOf(ds, j)) {
      if j != i {
        assert i < j ==> ChunkApart(cs[i], cs[j]);
        assert j < i ==> ChunkApart(cs[j], cs[i]);
        ChunkKept(m, n, live - {cs[i].seg}, cs[j], NextOf(cs, j));
      }
    }
  }

  lemma {:induction false} LatestSame(cs: seq<Chunk>, ds: seq<Chunk>, class_: SizeClass)
    requires |cs| == |ds| && forall i {:trigger cs[i]} {:trigger ds[i]} :: 0 <= i < |cs| ==>
               cs[i].class_ == ds[i].class_
    ensures Latest(cs, class_) == Latest(ds, class_)
  {
    if cs != [] {
      LatestSame(cs[..|cs| - 1], ds[..|ds| - 1], class_);
    }
  }

  lemma LatestAppend(cs: seq<Chunk>, c: Chunk, class_: SizeClass)
    ensures Latest(cs + [c], class_) == if c.class_ == class_ then |cs| else Latest(cs, class_)
    ensures LatestAddr(cs + [c], class_) == if c.class_ == class_ then Addr(c.seg) else LatestAddr(cs, class_)
  {
    assert (cs + [c])[..|cs|] == cs;
  }

  lemma CurrentStored(m: seq<int>, header: Block, cs: seq<Chunk>, class_: SizeClass)
    requires HeaderStored(m, header, cs) && class_ != Huge
    ensures m[Addr(header) + CurrentWord(class_)] == LatestAddr(cs, class_)
    ensures Latest(cs, class_) >= 0 <==> LatestAddr(cs, class_) > 0
  {
    assert m[Addr(header) + CurrentWord(class_)] == WordAt(m, header, CurrentWord(class_));
  }

  lemma RoomStored(m: seq<int>, cs: seq<Chunk>, i: nat)
    requires ListStored(m, cs) && i < |cs|
    ensures ChunkStored(m, cs[i], NextOf(cs, i))
    ensures m[Addr(cs[i].seg) + SIZE] == cs[i].size && m[Addr(cs[i].seg) + POSITION] == cs[i].position
  {
    assert m[Addr(cs[i].seg) + SIZE] == WordAt(m, cs[i].seg, SIZE);
    assert m[Addr(cs[i].seg) + POSITION] == WordAt(m, cs[i].seg, POSITION);
  }

  ghost predicate Fresh(c: Chunk, header: Block, cs: seq<Chunk>) {
    && c.seg != c.data && c.seg != header && c.data != header
    && forall i {:trigger cs[i]} :: 0 <= i < |cs| ==> ChunkApart(cs[i], c)
  }

  lemma AppendOwned(live: set<Block>, header: Block, cs: seq<Chunk>, c: Chunk)
    requires Owned(live, header, cs) && Fresh(c, header, cs) && c.seg in live && c.data in live
    requires c.seg.size >= 4 && c.position <= c.size <= c.data.size
    ensures Owned(live, header, cs + [c])
  {
    var ds := cs + [c];
    forall j, k | 0 <= j < k < |ds| ensures ChunkApart(ds[j], ds[k]) {
      if k < |cs| {
        assert ChunkApart(cs[j], cs[k]);
      } else {
        assert ChunkApart(cs[j], c);
      }
    }
  }

  /** The blocks whose words change when a chunk is linked at the end. */
  ghost function Tail(header: Block, cs: seq<Chunk>): set<Block> {
    if cs == [] then {header} else {header, cs[|cs| - 1].seg}
  }

  /** Linking a fresh chunk after the last one keeps the pool well formed. */
  lemma Appended(m: seq<int>, n: seq<int>, live: set<Block>, header: Block, cs: seq<Chunk>, c: Chunk)
    requires PoolHolds(m, live, header, cs) && Fresh(c, header, cs) && c.seg in live && c.data in live
    requires c.seg.size >= 4 && c.position <= c.size <= c.data.size
    requires ChunkStored(n, c, 0) && HeaderStored(n, header, cs + [c])
    requires cs != [] ==> ChunkStored(n, cs[|cs| - 1], Addr(c.seg))
    requires Keeps(m, n, live - Tail(header, cs))
    ensures PoolHolds(n, live, header, cs + [c])
  {
    var ds := cs + [c];
    AppendOwned(live, header, cs, c);
    forall j | 0 <= j < |ds| ensures ChunkStored(n, ds[j], NextOf(ds, j)) {
      if j < |cs| - 1 {
        assert ChunkApart(cs[j], cs[|cs| - 1]);
        assert ChunkApart(cs[j], c);
        ChunkKept(m, n, live - Tail(header, cs), cs[j], NextOf(cs, j));
      }
    }
  }

  /** A piece at the current position of chunk i is apart from all earlier pieces. */
  lemma PieceAdded(bs: seq<Block>, header: Block, cs: seq<Chunk>, ps: seq<Piece>, i: nat, len: nat)
    requires Tiled(bs) && Owned(Live(bs), header, cs) && Pieces(ps, cs)
    requires i < |cs| && cs[i].position + len <= cs[i].size
    ensures Pieces(ps + [NextPiece(cs, i, len)], Bump(cs, i, len))
  {
    var p, ds := NextPiece(cs, i, len), Bump(cs, i, len);
    forall k | 0 <= k < |ps| ensures Apart(ps[k], p) {
      assert Placed(ps[k], cs);
      var j := ps[k].chunk;
      if j != i {
        assert i < j ==> ChunkApart(cs[i], cs[j]);
        assert j < i ==> ChunkApart(cs[j], cs[i]);
        LiveDisjoint(bs, cs[i].data, cs[j].data);
      }
    }
    forall k | 0 <= k < |ps| ensures Placed(ps[k], ds) {
      assert Placed(ps[k], cs);
    }
  }

  ghost function NextPiece(cs: seq<Chunk>, i: nat, len: nat): Piece
    requires i < |cs|
  {
    Piece(Addr(cs[i].data) + cs[i].position, len, i)
  }

  lemma PiecesGrow(ps: seq<Piece>, cs: seq<Chunk>, c: Chunk)
    requires Pieces(ps, cs)
    ensures Pieces(ps, cs + [c])
  {
    forall k | 0 <= k < |ps| ensures Placed(ps[k], cs + [c]) {
      assert Placed(ps[k], cs);
    }
  }

  /** Blocks that were not live before differ from everything the pool owned. */
  lemma FreshBlocks(live: set<Block>, header: Block, cs: seq<Chunk>, c: Chunk)
    requires Owned(live, header, cs) && c.seg !in live && c.data !in live && c.seg != c.data
    ensures Fresh(c, header, cs)
  {
    forall i | 0 <= i < |cs| ensures ChunkApart(cs[i], c) {
      assert cs[i].seg in live && cs[i].data in live;
    }
  }

  /** The blocks a pool keeps its own records in: its header and the descriptors. */
  ghost function Records(header: Block, cs: seq<Chunk>): set<Block> {
    {header} + set c | c in cs :: c.seg
  }

  lemma TailRecords(header: Block, cs: seq<Chunk>)
    ensures Tail(header, cs) <= Records(header, cs)
  {
  }

  lemma LinkDone(m: seq<int>, mid: seq<int>, n: seq<int>, live: set<Block>, header: Block, cs: seq<Chunk>, c: Chunk)
    requires PoolHolds(m, live, header, cs) && Fresh(c, header, cs) && c.seg in live && c.data in live
    requires c.position <= c.size <= c.data.size && ChunkStored(m, c, 0) && HeaderStored(n, header, cs + [c])
    requires cs != [] ==> ChunkStored(mid, cs[|cs| - 1], Addr(c.seg))
    requires Keeps(m, mid, live - Tail(header, cs)) && Keeps(mid, n, live - {header})
    ensures PoolHolds(n, live, header, cs + [c])
    ensures Keeps(m, n, live - Records(header, cs))
  {
    KeepsBoth(m, mid, n, live - Tail(header, cs), live - {header}, live - Tail(header, cs));
    TailRecords(header, cs);
    KeepsLess(m, n, live - Tail(header, cs), live - Records(header, cs));
    if cs != [] {
      assert ChunkApart(cs[|cs| - 1], c);
      ChunkKept(mid, n, live - {header}, cs[|cs| - 1], Addr(c.seg));
      ChunkKept(m, n, live - Tail(header, cs), c, 0);
    } else {
      ChunkKept(m, n, live - {header}, c, 0);
    }
    Appended(m, n, live, header, cs, c);
  }

  /** The heap cannot provide a descriptor and, after it, a data block. */
  ghost predicate ChunkRefused(bs: seq<Block>, bsize: nat) {
    NoFit(bs, Words(POOL_SEGMENT_BYTES)) || NoFit(AfterFit(bs, Words(POOL_SEGMENT_BYTES)), Words(bsize))
  }

  /** The heap after it has provided them. */
  ghost function AfterChunk(bs: seq<Block>, bsize: nat): seq<Block> {
    AfterFit(AfterFit(bs, Words(POOL_SEGMENT_BYTES)), Words(bsize))
  }

  /** The current chunk of the class has w words left. */
  ghost predicate HasRoom(cs: seq<Chunk>, class_: SizeClass, w: nat) {
    class_ != Huge && Latest(cs, class_) >= 0 && cs[Latest(cs, class_)].position + w <= cs[Latest(cs, class_)].size
  }

  /** Chunk k is the one that was added last for its class. */
  ghost predicate Newest(cs: seq<Chunk>, k: nat) {
    k < |cs| && forall j {:trigger cs[j]} :: k < j < |cs| ==> cs[j].class_ != cs[k].class_
  }

  lemma {:induction false} NewestIsLatest(cs: seq<Chunk>, k: nat)
    requires Newest(cs, k)
    ensures Latest(cs, cs[k].class_) == k
  {
    if k < |cs| - 1 {
      assert cs[|cs| - 1].class_ != cs[k].class_;
      NewestIsLatest(cs[..|cs| - 1], k);
    }
  }

  lemma NewestHasRoom(cs: seq<Chunk>, class_: SizeClass, w: nat)
    ensures forall k: nat {:trigger Newest(cs, k)} ::
              Newest(cs, k) && cs[k].class_ == class_ != Huge && cs[k].position + w <= cs[k].size ==>
              HasRoom(cs, class_, w) && Latest(cs, class_) == k
  {
    forall k: nat | Newest(cs, k) && cs[k].class_ == class_ != Huge && cs[k].position + w <= cs[k].size
      ensures HasRoom(cs, class_, w) && Latest(cs, class_) == k
    {
      NewestIsLatest(cs, k);
    }
  }

  // ----- Requests foretold from heap and pool -----

  // The words left in the current chunk of each class, -1 where there is none.
  datatype Rooms = Rooms(small: int, medium: int, large: int) {
    /** Huge requests never reuse a chunk. */
    ghost function Of(class_: SizeClass): int {
      match class_
      case Small => small
      case Medium => medium
      case Large => large
      case Huge => -1
    }

    ghost function With(class_: SizeClass, left: int): Rooms {
      match class_
      case Small => Rooms(left, medium, large)
      case Medium => Rooms(small, left, large)
      case Large => Rooms(small, medium, left)
      case Huge => this
    }
  }

  const NO_ROOMS: Rooms := Rooms(-1, -1, -1)

  ghost function LeftIn(cs: seq<Chunk>, class_: SizeClass): int {
    if Latest(cs, class_) < 0 then -1 else cs[Latest(cs, class_)].size - cs[Latest(cs, class_)].position
  }

  ghost function RoomsOf(cs: seq<Chunk>): Rooms {
    Rooms(LeftIn(cs, Small), LeftIn(cs, Medium), LeftIn(cs, Large))
  }

  lemma RoomsTell(cs: seq<Chunk>, class_: SizeClass, w: nat)
    ensures HasRoom(cs, class_, w) <==> RoomsOf(cs).Of(class_) >= w
  {
  }

  lemma RoomsAppend(cs: seq<Chunk>, c: Chunk)
    ensures RoomsOf(cs + [c]) == RoomsOf(cs).With(c.class_, c.size - c.position)
  {
    LatestAppend(cs, c, Small);
    LatestAppend(cs, c, Medium);
    LatestAppend(cs, c, Large);
  }

  lemma RoomsBump(cs: seq<Chunk>, i: nat, w: nat)
    requires i < |cs| && i == Latest(cs, cs[i].class_)
    ensures RoomsOf(Bump(cs, i, w)) == RoomsOf(cs).With(cs[i].class_, RoomsOf(cs).Of(cs[i].class_) - w)
  {
    hide LeftIn, Bump, Latest;
    LeftBump(cs, i, w, Small);
    LeftBump(cs, i, w, Medium);
    LeftBump(cs, i, w, Large);
  }

  lemma LeftBump(cs: seq<Chunk>, i: nat, w: nat, class_: SizeClass)
    requires i < |cs| && i == Latest(cs, cs[i].class_)
    ensures LeftIn(Bump(cs, i, w), class_) == LeftIn(cs, class_) - if class_ == cs[i].class_ then w else 0
  {
    hide Latest;
    LatestSame(cs, Bump(cs, i, w), class_);
  }

  /** A request is served from the current chunk of its class, or from a new one. */
  ghost predicate Granted(bs: seq<Block>, rooms: Rooms, nbytes: nat) {
    var r := AlignQword(nbytes);
    rooms.Of(ClassOf(r)) >= Words(nbytes) || !ChunkRefused(bs, ChunkBytes(r))
  }

  ghost function HeapAfter(bs: seq<Block>, rooms: Rooms, nbytes: nat): seq<Block> {
    var r := AlignQword(nbytes);
    if rooms.Of(ClassOf(r)) >= Words(nbytes) then bs else AfterChunk(bs, ChunkBytes(r))
  }

  ghost function RoomsAfter(rooms: Rooms, nbytes: nat): Rooms {
    var r, w := AlignQword(nbytes), Words(nbytes);
    var left := if rooms.Of(ClassOf(r)) >= w then rooms.Of(ClassOf(r)) else Words(ChunkBytes(r));
    rooms.With(ClassOf(r), left - w)
  }

  lemma GrantedBy(bs: seq<Block>, cs: seq<Chunk>, nbytes: nat)
    ensures var r := AlignQword(nbytes);
            && (Granted(bs, RoomsOf(cs), nbytes) <==>
                  HasRoom(cs, ClassOf(r), Words(nbytes)) || !ChunkRefused(bs, ChunkBytes(r)))
            && HeapAfter(bs, RoomsOf(cs), nbytes) ==
               if HasRoom(cs, ClassOf(r), Words(nbytes)) then bs else AfterChunk(bs, ChunkBytes(r))
  {
    hide ChunkRefused, AfterChunk, HasRoom, RoomsOf, ClassOf;
    RoomsTell(cs, ClassOf(AlignQword(nbytes)), Words(nbytes));
  }

  /** All requests are served, one after the other. */
  ghost predicate AllGranted(bs: seq<Block>, rooms: Rooms, requests: seq<nat>)
    decreases |requests|
  {
    requests == [] ||
    (Granted(bs, rooms, requests[0])
     && AllGranted(HeapAfter(bs, rooms, requests[0]), RoomsAfter(rooms, requests[0]), requests[1..]))
  }

  /** ds is cs with a new and unused chunk of that class and size at the end. */
  ghost predicate Extended(cs: seq<Chunk>, ds: seq<Chunk>, class_: SizeClass, size: nat) {
    |ds| == |cs| + 1 && ds[..|cs|] == cs
    && ds[|cs|].class_ == class_ && ds[|cs|].position == 0 && ds[|cs|].size == size
  }

  /** What Ommalloc does to the rooms: mid is the list after a chunk was found or added, i its number. */
  lemma RoomsServed(cs: seq<Chunk>, mid: seq<Chunk>, i: nat, nbytes: nat)
    requires var r, w := AlignQword(nbytes), Words(nbytes);
             if HasRoom(cs, ClassOf(r), w) then mid == cs && i == Latest(cs, ClassOf(r))
             else Extended(cs, mid, ClassOf(r), Words(ChunkBytes(r))) && i == |cs|
    ensures i < |mid| && RoomsOf(Bump(mid, i, Words(nbytes))) == RoomsAfter(RoomsOf(cs), nbytes)
  {
    hide Latest, Bump, RoomsOf, HasRoom, AlignQword, Words, ChunkBytes, ClassOf;
    var r, w := AlignQword(nbytes), Words(nbytes);
    RoomsTell(cs, ClassOf(r), w);
    if !HasRoom(cs, ClassOf(r), w) {
      var c := mid[|cs|];
      assert mid == cs + [c];
      RoomsAppend(cs, c);
      LatestAppend(cs, c, c.class_);
    }
    RoomsBump(mid, i, w);
  }

  class MPool {
    const seg: Segment
    const hoffset: nat
    ghost var header: Block
    ghost var chunks: seq<Chunk>
    ghost var pieces: seq<Piece>

    ghost predicate Valid()
      reads this, seg, seg.mem
    {
      && seg.Valid()
      && hoffset == Addr(header)
      && PoolHolds(seg.mem[..], Live(seg.blocks), header, chunks)
      && Pieces(pieces, chunks)
    }

    constructor (seg: Segment, hoffset: nat, ghost header: Block)
      ensures this.seg == seg && this.hoffset == hoffset && this.header == header && chunks == [] && pieces == []
    {
      this.seg, this.hoffset, this.header, chunks, pieces := seg, hoffset, header, [], [];
    }

    /** alloc_create_mpool: one header block, or null with the heap as it was. */
    static method Create(seg: Segment) returns (pool: MPool?)
      requires seg.Valid()
      modifies seg`freeSize, seg`freeCount, seg`usedCount, seg`blocks, seg.mem
      ensures seg.Valid()
      ensures pool == null <==> NoFit(old(seg.blocks), Words(POOL_HEADER_BYTES))
      ensures pool == null ==> seg.blocks == old(seg.blocks)
      ensures seg.blocks == AfterFit(old(seg.blocks), Words(POOL_HEADER_BYTES))
      ensures pool != null ==> fresh(pool) && pool.seg == seg && pool.Valid() && pool.chunks == [] && pool.pieces == []
      ensures pool != null ==>
                pool.header !in Live(old(seg.blocks)) && Live(seg.blocks) == Live(old(seg.blocks)) + {pool.header}
      ensures Keeps(old(seg.mem[..]), seg.mem[..], Live(old(seg.blocks)))
    {
      hide Holds, Counters, Live, Keeps, AfterFit, NoFit;
      var paddr;
      ghost var b;
      paddr, b := seg.Smalloc(POOL_HEADER_BYTES);
      if paddr == 0 {
        return null;
      }
      assert Words(POOL_HEADER_BYTES) == 5;
      ghost var was := seg.mem[..];
      ClearWords(seg, paddr, 5, b);
      pool := new MPool(seg, paddr, b);
      assert WordAt(seg.mem[..], b, 0) == 0 && WordAt(seg.mem[..], b, 4) == 0;
      KeepsTrans(old(seg.mem[..]), was, seg.mem[..], Live(old(seg.blocks)), Live(old(seg.blocks)));
    }

    /** Sets the first n words of a block to 0. */
    static method ClearWords(seg: Segment, paddr: nat, n: nat, ghost b: Block)
      requires seg.Valid() && seg.Owns(b, paddr) && n <= b.size
      modifies seg.mem
      ensures seg.Valid() && b.off + OVERHEAD + b.size <= seg.mem.Length
      ensures Keeps(old(seg.mem[..]), seg.mem[..], Live(seg.blocks) - {b})
      ensures forall j: nat {:trigger WordAt(seg.mem[..], b, j)} :: j < n ==> WordAt(seg.mem[..], b, j) == 0
    {
      ghost var was := seg.mem[..];
      PayloadInside(was, seg.blocks, b);
      for k := 0 to n
        invariant forall j {:trigger seg.mem[j]} :: 0 <= j < seg.mem.Length && !(paddr <= j < paddr + k) ==>
                    seg.mem[j] == old(seg.mem[j])
        invariant forall j {:trigger seg.mem[j]} :: paddr <= j < paddr + k ==> seg.mem[j] == 0
      {
        seg.mem[paddr + k] := 0;
      }
      PayloadWritten(was, seg.mem[..], seg.blocks, b);
    }

    /** Writes word k of a pool block. */
    static method SetWord(seg: Segment, paddr: nat, k: nat, v: int, ghost b: Block)
      requires seg.Valid() && seg.Owns(b, paddr) && k < b.size
      modifies seg.mem
      ensures seg.Valid() && b.off + OVERHEAD + b.size <= seg.mem.Length
      ensures Keeps(old(seg.mem[..]), seg.mem[..], Live(seg.blocks) - {b})
      ensures WordAt(seg.mem[..], b, k) == v
      ensures forall j: nat {:trigger WordAt(seg.mem[..], b, j)} :: j < b.size && j != k ==>
                WordAt(seg.mem[..], b, j) == WordAt(old(seg.mem[..]), b, j)
    {
      PayloadInside(seg.mem[..], seg.blocks, b);
      seg.Poke(paddr + k, v, b);
    }

    /** The first chunk: both list ends point at it. */
    method LinkFirst(offset: nat)
      requires seg.Valid() && seg.Owns(header, hoffset) && header.size >= 5
      modifies seg.mem
      ensures seg.Valid() && header.off + OVERHEAD + header.size <= seg.mem.Length
      ensures Keeps(old(seg.mem[..]), seg.mem[..], Live(seg.blocks) - {header})
      ensures HeaderEnds(old(seg.mem[..]), seg.mem[..], header, offset, offset)
    {
      ghost var was := seg.mem[..];
      SetWord(seg, hoffset, FOFFSET, offset, header);
      ghost var mid := seg.mem[..];
      SetWord(seg, hoffset, LOFFSET, offset, header);
      KeepsTrans(was, mid, seg.mem[..], Live(seg.blocks) - {header}, Live(seg.blocks) - {header});
    }

    /** A later chunk: linked after the last one. */
    method LinkAfter(offset: nat, ghost last: Chunk, ghost first: int)
      requires seg.Valid() && seg.Owns(header, hoffset) && header.size >= 5
      requires last.seg in Live(seg.blocks) && last.seg != header && ChunkStored(seg.mem[..], last, 0)
      requires header.off + OVERHEAD + header.size <= seg.mem.Length
      requires WordAt(seg.mem[..], header, LOFFSET) == Addr(last.seg) && WordAt(seg.mem[..], header, FOFFSET) == first
      modifies seg.mem
      ensures seg.Valid()
      ensures Keeps(old(seg.mem[..]), seg.mem[..], Live(seg.blocks) - {header, last.seg})
      ensures HeaderEnds(old(seg.mem[..]), seg.mem[..], header, first, offset)
      ensures ChunkStored(seg.mem[..], last, offset)
    {
      ghost var was, live := seg.mem[..], Live(seg.blocks);
      assert seg.mem[hoffset + LOFFSET] == WordAt(was, header, LOFFSET);
      SetWord(seg, seg.mem[hoffset + LOFFSET], NEXT, offset, last.seg);
      ghost var mid := seg.mem[..];
      HeaderWordsKept(was, mid, live - {last.seg}, header);
      SetWord(seg, hoffset, LOFFSET, offset, header);
      KeepsBoth(was, mid, seg.mem[..], live - {last.seg}, live - {header}, live - {header, last.seg});
      ChunkKept(mid, seg.mem[..], live - {header}, last, offset);
    }

    /** Makes the chunk at offset the current one of its class. */
    method SetCurrent(offset: nat, class_: SizeClass, ghost c: Chunk, ghost was: seq<int>)
      requires seg.Valid() && seg.Owns(header, hoffset)
      requires offset == Addr(c.seg) && c.class_ == class_
      requires HeaderStored(was, header, chunks)
      requires HeaderEnds(was, seg.mem[..], header, if chunks == [] then offset else Addr(chunks[0].seg), offset)
      modifies seg.mem
      ensures seg.Valid() && HeaderStored(seg.mem[..], header, chunks + [c])
      ensures Keeps(old(seg.mem[..]), seg.mem[..], Live(seg.blocks) - {header})
    {
      hide Holds, Counters, Latest;
      KeepsSelf(seg.mem[..], seg.blocks);
      KeepsLess(seg.mem[..], seg.mem[..], Live(seg.blocks), Live(seg.blocks) - {header});
      LatestAppend(chunks, c, Small);
      LatestAppend(chunks, c, Medium);
      LatestAppend(chunks, c, Large);
      match class_
      case Small => SetWord(seg, hoffset, 2, offset, header);
      case Medium => SetWord(seg, hoffset, 3, offset, header);
      case Large => SetWord(seg, hoffset, 4, offset, header);
      case Huge =>
    }

    /** Links a prepared chunk at the end of the list. */
    method LinkEnds(offset: nat, ghost c: Chunk)
      requires seg.Valid() && hoffset == Addr(header) && PoolHolds(seg.mem[..], Live(seg.blocks), header, chunks)
      requires Fresh(c, header, chunks) && offset == Addr(c.seg)
      modifies seg.mem
      ensures seg.Valid()
      ensures HeaderEnds(old(seg.mem[..]), seg.mem[..], header,
                         if chunks == [] then offset else Addr(chunks[0].seg), offset)
      ensures Keeps(old(seg.mem[..]), seg.mem[..], Live(seg.blocks) - Tail(header, chunks))
      ensures chunks != [] ==> ChunkStored(seg.mem[..], chunks[|chunks| - 1], offset)
    {
      hide Holds, Counters, Keeps, Latest;
      ghost var was := seg.mem[..];
      assert seg.mem[hoffset + FOFFSET] == WordAt(was, header, FOFFSET);
      if seg.mem[hoffset + FOFFSET] == 0 {
        LinkFirst(offset);
      } else {
        assert NextOf(chunks, |chunks| - 1) == 0;
        LinkAfter(offset, chunks[|chunks| - 1], Addr(chunks[0].seg));
      }
    }

    /** Links a prepared chunk at the end of the list and makes it current. */
    method LinkChunk(offset: nat, class_: SizeClass, ghost c: Chunk)
      requires seg.Valid() && hoffset == Addr(header) && PoolHolds(seg.mem[..], Live(seg.blocks), header, chunks)
      requires Fresh(c, header, chunks) && c.seg in Live(seg.blocks) && c.data in Live(seg.blocks)
      requires c.position <= c.size <= c.data.size && ChunkStored(seg.mem[..], c, 0)
      requires offset == Addr(c.seg) && c.class_ == class_
      modifies seg.mem
      ensures seg.Valid() && PoolHolds(seg.mem[..], Live(seg.blocks), header, chunks + [c])
      ensures Keeps(old(seg.mem[..]), seg.mem[..], Live(seg.blocks) - Records(header, chunks))
    {
      ghost var was := seg.mem[..];
      LinkEnds(offset, c);
      ghost var mid := seg.mem[..];
      SetCurrent(offset, class_, c, was);
      LinkDone(was, mid, seg.mem[..], Live(seg.blocks), header, chunks, c);
    }

    /** Takes a descriptor and a data block from the heap for a new chunk. */
    method AddChunk(class_: SizeClass, bsize: nat) returns (offset: nat, ghost c: Chunk)
      requires Valid() && bsize % WORD_BYTES == 0
      modifies this`chunks, seg`freeSize, seg`freeCount, seg`usedCount, seg`blocks, seg.mem
      ensures seg.Valid() && PoolHolds(seg.mem[..], Live(seg.blocks), header, chunks)
      ensures offset == 0 <==> ChunkRefused(old(seg.blocks), bsize)
      ensures offset == 0 ==> seg.blocks == old(seg.blocks) && chunks == old(chunks)
      ensures offset != 0 ==> seg.blocks == AfterChunk(old(seg.blocks), bsize)
      ensures offset != 0 ==> chunks == old(chunks) + [c] && offset == Addr(c.seg)
      ensures offset != 0 ==> c.class_ == class_ && c.position == 0 && c.size == Words(bsize)
      ensures offset != 0 ==> Live(seg.blocks) == Live(old(seg.blocks)) + {c.seg, c.data}
      ensures offset != 0 ==> c.seg !in Live(old(seg.blocks)) && c.data !in Live(old(seg.blocks))
      ensures Keeps(old(seg.mem[..]), seg.mem[..], Live(old(seg.blocks)) - Records(header, old(chunks)))
    {
      hide Holds, Counters, HeaderStored, ListStored, Live, Keeps, Pieces;
      c := Chunk(Block(0, 0, Used), Block(0, 0, Used), 0, 0, class_);
      ghost var was, live := seg.mem[..], Live(seg.blocks);
      ghost var cb, db;
      var pvoid;
      offset, pvoid, cb, db := TakeBlocks(bsize);
      PoolKept(was, seg.mem[..], live, Live(seg.blocks), header, chunks);
      if offset == 0 {
        KeepsLess(was, seg.mem[..], live, live - Records(header, chunks));
        return;
      }
      c := Chunk(cb, db, Words(bsize), 0, class_);
      ghost var mid := seg.mem[..];
      FreshBlocks(live, header, chunks, c);
      LinkChunk(offset, class_, c);
      chunks := chunks + [c];
      KeepsBoth(was, mid, seg.mem[..], live, Live(seg.blocks) - Records(header, old(chunks)),
                live - Records(header, old(chunks)));
    }

    /** The two heap allocations behind a chunk; when the second fails the first is undone. */
    method TakeBlocks(bsize: nat) returns (offset: nat, pvoid: nat, ghost cb: Block, ghost db: Block)
      requires seg.Valid() && bsize % WORD_BYTES == 0
      modifies seg`freeSize, seg`freeCount, seg`usedCount, seg`blocks, seg.mem
      ensures seg.Valid() && Keeps(old(seg.mem[..]), seg.mem[..], Live(old(seg.blocks)))
      ensures offset == 0 <==> ChunkRefused(old(seg.blocks), bsize)
      ensures offset == 0 ==> seg.blocks == old(seg.blocks)
      ensures offset != 0 ==> seg.blocks == AfterChunk(old(seg.blocks), bsize)
      ensures offset != 0 ==> seg.Owns(cb, offset) && seg.Owns(db, pvoid) && cb != db
      ensures offset != 0 ==> Live(seg.blocks) == Live(old(seg.blocks)) + {cb, db}
      ensures offset != 0 ==> cb !in Live(old(seg.blocks)) && db !in Live(old(seg.blocks)) && db.size >= Words(bsize)
      ensures offset != 0 ==> forall class_ :: ChunkStored(seg.mem[..], Chunk(cb, db, Words(bsize), 0, class_), 0)
    {
      hide Holds, Counters, Live, Keeps;
      ghost var was, live := seg.mem[..], Live(seg.blocks);
      db, pvoid := Block(0, 0, Used), 0;
      offset, cb := seg.Smalloc(POOL_SEGMENT_BYTES);
      if offset == 0 {
        return;
      }
      assert Words(POOL_SEGMENT_BYTES) == 4;
      ghost var m1 := seg.mem[..];
      ClearWords(seg, offset, 4, cb);
      ghost var m2 := seg.mem[..];
      KeepsBoth(was, m1, m2, live, Live(seg.blocks) - {cb}, live);
      pvoid, db := seg.Smalloc(bsize);
      ghost var m3 := seg.mem[..];
      if pvoid == 0 {
        seg.Sfree(offset, cb);
        SameLive(was, seg.mem[..], old(seg.blocks), seg.blocks);
        KeepsBoth(was, m2, seg.mem[..], live, live, live);
        offset := 0;
        return;
      }
      KeepsBoth(was, m2, m3, live, live, live);
      FillChunk(offset, pvoid, bsize / WORD_BYTES, m2, live + {cb}, cb, db);
      KeepsBoth(was, m3, seg.mem[..], live, Live(seg.blocks) - {cb}, live);
    }

    /** Records the data block in the descriptor. */
    method FillChunk(offset: nat, pvoid: nat, size: nat, ghost was: seq<int>, ghost live: set<Block>, ghost cb: Block,
                     ghost db: Block)
      requires seg.Valid() && seg.Owns(cb, offset) && cb.size >= 4 && pvoid == Addr(db)
      requires Keeps(was, seg.mem[..], live) && cb in live
      requires cb.off + OVERHEAD + cb.size <= |was|
      requires WordAt(was, cb, POSITION) == 0 && WordAt(was, cb, NEXT) == 0
      modifies seg.mem
      ensures seg.Valid() && Keeps(old(seg.mem[..]), seg.mem[..], Live(seg.blocks) - {cb})
      ensures forall class_ :: ChunkStored(seg.mem[..], Chunk(cb, db, size, 0, class_), 0)
    {
      ghost var m1 := seg.mem[..];
      WordKept(was, m1, live, cb, POSITION);
      WordKept(was, m1, live, cb, NEXT);
      SetWord(seg, offset, AOFFSET, pvoid, cb);
      ghost var m2 := seg.mem[..];
      SetWord(seg, offset, SIZE, size, cb);
      KeepsTrans(m1, m2, seg.mem[..], Live(seg.blocks) - {cb}, Live(seg.blocks) - {cb});
    }

    /** The current chunk of the size class, if it still has room for w words. */
    method FindChunk(class_: SizeClass, w: nat) returns (offset: nat, ghost i: int)
      requires Valid()
      ensures offset != 0 <==> HasRoom(chunks, class_, w)
      ensures offset != 0 ==> 0 <= i < |chunks| && i == Latest(chunks, class_) && offset == Addr(chunks[i].seg)
    {
      hide Counters, Pieces, ListStored, AllStored, Linked, Tiled, Live;
      offset, i := 0, Latest(chunks, class_);
      if class_ == Huge {
        return;
      }
      CurrentStored(seg.mem[..], header, chunks, class_);
      offset := seg.mem[hoffset + CurrentWord(class_)];
      if offset > 0 {
        RoomStored(seg.mem[..], chunks, i);
        if seg.mem[offset + SIZE] - seg.mem[offset + POSITION] < w {
          offset := 0;
        }
      }
    }

    /** The current chunk when it has room, else a new one. */
    method EnsureChunk(rbytes: nat, w: nat) returns (offset: nat, ghost i: int)
      requires Valid() && ChunkBytes(rbytes) % WORD_BYTES == 0 && w <= Words(ChunkBytes(rbytes))
      modifies this`chunks, seg`freeSize, seg`freeCount, seg`usedCount, seg`blocks, seg.mem
      ensures Valid()
      ensures offset == 0 <==>
                !HasRoom(old(chunks), ClassOf(rbytes), w) && ChunkRefused(old(seg.blocks), ChunkBytes(rbytes))
      ensures offset == 0 ==> seg.blocks == old(seg.blocks) && chunks == old(chunks)
      ensures offset != 0 ==>
                0 <= i < |chunks| && offset == Addr(chunks[i].seg) && chunks[i].position + w <= chunks[i].size
      ensures offset != 0 ==>
                i == if HasRoom(old(chunks), ClassOf(rbytes), w) then Latest(old(chunks), ClassOf(rbytes))
                     else |old(chunks)|
      ensures offset != 0 ==>
                if HasRoom(old(chunks), ClassOf(rbytes), w) then chunks == old(chunks) && seg.blocks == old(seg.blocks)
                else Extended(old(chunks), chunks, ClassOf(rbytes), Words(ChunkBytes(rbytes)))
                     && seg.blocks == AfterChunk(old(seg.blocks), ChunkBytes(rbytes))
      ensures Live(seg.blocks) - PoolBlocks(header, chunks) == Live(old(seg.blocks)) - PoolBlocks(header, old(chunks))
      ensures Keeps(old(seg.mem[..]), seg.mem[..], Live(old(seg.blocks)) - Records(header, old(chunks)))
      ensures Live(old(seg.blocks)) - Records(header, old(chunks)) <= Live(seg.blocks) - Records(header, chunks)
    {
      hide Holds, Counters, Owned, HeaderStored, ListStored, Live, Keeps, Pieces, Records;
      ghost var was, live, cs := seg.mem[..], Live(seg.blocks), chunks;
      ghost var k;
      offset, k := FindChunk(ClassOf(rbytes), w);
      i := k;
      KeepsSelf(was, seg.blocks);
      KeepsLess(was, was, live, live - Records(header, cs));
      if offset == 0 {
        ghost var c;
        offset, c := AddChunk(ClassOf(rbytes), ChunkBytes(rbytes));
        if offset != 0 {
          i := |cs|;
          PiecesGrow(pieces, cs, c);
          BlocksAppend(header, cs, c);
          RecordsAppend(header, cs, c);
        }
      }
    }

    /** Moves the position word of a chunk forward. */
    method BumpPosition(offset: nat, w: nat, ghost c: Chunk, ghost next: nat) returns (addr: nat)
      requires seg.Valid() && c.seg in Live(seg.blocks) && offset == Addr(c.seg) && ChunkStored(seg.mem[..], c, next)
      modifies seg.mem
      ensures seg.Valid() && addr == Addr(c.data) + c.position
      ensures ChunkStored(seg.mem[..], c.(position := c.position + w), next)
      ensures Keeps(old(seg.mem[..]), seg.mem[..], Live(seg.blocks) - {c.seg})
    {
      addr := seg.mem[offset + AOFFSET] + seg.mem[offset + POSITION];
      SetWord(seg, offset, POSITION, seg.mem[offset + POSITION] + w, c.seg);
    }

    /** Hands out the next w words of chunk i. */
    method Serve(offset: nat, w: nat, ghost i: nat) returns (addr: nat)
      requires Valid() && i < |chunks| && offset == Addr(chunks[i].seg) && chunks[i].position + w <= chunks[i].size
      modifies this`chunks, this`pieces, seg.mem
      ensures Valid() && chunks == Bump(old(chunks), i, w)
      ensures addr > 0 && pieces == old(pieces) + [Piece(addr, w, i)]
      ensures Keeps(old(seg.mem[..]), seg.mem[..], Live(seg.blocks) - Records(header, old(chunks)))
    {
      hide Counters, Live, Keeps, Pieces, HeaderStored, ListStored;
      ghost var was, live, cs, ps := seg.mem[..], Live(seg.blocks), chunks, pieces;
      RoomStored(was, cs, i);
      PieceAdded(seg.blocks, header, cs, ps, i, w);
      chunks := Bump(cs, i, w);
      pieces := ps + [NextPiece(cs, i, w)];
      addr := BumpPosition(offset, w, cs[i], NextOf(cs, i));
      Bumped(was, seg.mem[..], live, header, cs, i, w);
      KeepsLess(was, seg.mem[..], live - {cs[i].seg}, live - Records(header, cs));
    }

    lemma InOrder()
      requires Valid()
      ensures Owned(Live(seg.blocks), header, chunks) && Pieces(pieces, chunks)
    {
      hide Holds, Counters, Owned, HeaderStored, ListStored, Live, Pieces;
    }

    /** alloc_ommalloc: NULL (0) leaves heap and pool as they were; otherwise one new piece,
        apart from all others.  Only the pool's own records change: neither the pieces handed out
        before nor any block outside the pool. */
    method Ommalloc(nbytes: nat) returns (addr: nat, ghost i: int)
      requires Valid() && nbytes > 0
      modifies this`chunks, this`pieces, seg`freeSize, seg`freeCount, seg`usedCount, seg`blocks, seg.mem
      ensures Valid()
      ensures var r := AlignQword(nbytes);
              addr == 0 <==>
                !HasRoom(old(chunks), ClassOf(r), Words(nbytes)) && ChunkRefused(old(seg.blocks), ChunkBytes(r))
      ensures addr == 0 ==> seg.blocks == old(seg.blocks) && chunks == old(chunks) && pieces == old(pieces)
      ensures addr != 0 ==> i >= 0 && pieces == old(pieces) + [Piece(addr, Words(nbytes), i)]
      ensures forall k: nat {:trigger Newest(old(chunks), k)} ::
                Newest(old(chunks), k) && old(chunks)[k].class_ == ClassOf(AlignQword(nbytes)) != Huge
                && old(chunks)[k].position + Words(nbytes) <= old(chunks)[k].size ==>
                addr != 0 && i == k && seg.blocks == old(seg.blocks) && |chunks| == |old(chunks)|
      ensures addr != 0 <==> Granted(old(seg.blocks), RoomsOf(old(chunks)), nbytes)
      ensures addr != 0 ==> seg.blocks == HeapAfter(old(seg.blocks), RoomsOf(old(chunks)), nbytes)
      ensures addr != 0 ==> RoomsOf(chunks) == RoomsAfter(RoomsOf(old(chunks)), nbytes)
      ensures Live(seg.blocks) - PoolBlocks(header, chunks) == Live(old(seg.blocks)) - PoolBlocks(header, old(chunks))
      ensures Keeps(old(seg.mem[..]), seg.mem[..], Live(old(seg.blocks)) - Records(header, old(chunks)))
      ensures Keeps(old(seg.mem[..]), seg.mem[..], Live(old(seg.blocks)) - PoolBlocks(header, old(chunks)))
      ensures SamePieces(old(pieces), old(seg.mem[..]), seg.mem[..])
    {
      hide *;
      ghost var was, rest, live, cs := seg.mem[..], Live(seg.blocks) - Records(header, chunks), Live(seg.blocks),
            chunks;
      ghost var ps, seg0 := pieces, seg.blocks;
      InOrder();
      ChunkRoom(nbytes);
      var offset;
      offset, i := EnsureChunk(AlignQword(nbytes), Words(nbytes));
      GrantedBy(seg0, cs, nbytes);
      NewestHasRoom(cs, ClassOf(AlignQword(nbytes)), Words(nbytes));
      addr := 0;
      if offset != 0 {
        RoomsServed(cs, chunks, i, nbytes);
        ghost var mid, before := seg.mem[..], chunks;
        BlocksBump(header, chunks, i, Words(nbytes));
        addr := Serve(offset, Words(nbytes), i);
        KeepsBoth(was, mid, seg.mem[..], rest, Live(seg.blocks) - Records(header, before), rest);
      }
      RecordsOwned(header, cs);
      KeepsLess(was, seg.mem[..], rest, live - PoolBlocks(header, cs));
      PiecesKept(was, seg.mem[..], live, header, cs, ps);
    }

    /** Releases one chunk: its data block, then its descriptor. */
    method FreeChunk(ptemp: nat, ghost c: Chunk, ghost next: nat)
      requires seg.Valid() && c.seg in Live(seg.blocks) && c.data in Live(seg.blocks) && c.seg != c.data
      requires ptemp == Addr(c.seg) && ChunkStored(seg.mem[..], c, next)
      modifies seg`freeSize, seg`freeCount, seg`usedCount, seg`blocks, seg.mem
      ensures seg.Valid() && Live(seg.blocks) == Live(old(seg.blocks)) - {c.seg, c.data}
      ensures Keeps(old(seg.mem[..]), seg.mem[..], Live(seg.blocks))
    {
      hide Holds, Counters, Live, Keeps;
      ghost var was, live := seg.mem[..], Live(seg.blocks);
      assert seg.mem[ptemp + AOFFSET] == Addr(c.data);
      seg.Sfree(seg.mem[ptemp + AOFFSET], c.data);
      ghost var m1 := seg.mem[..];
      SetWord(seg, ptemp, AOFFSET, 0, c.seg);
      ghost var m2 := seg.mem[..];
      KeepsBoth(was, m1, m2, live - {c.data}, live - {c.data} - {c.seg}, live - {c.seg, c.data});
      seg.Sfree(ptemp, c.seg);
      KeepsTrans(was, m2, seg.mem[..], live - {c.seg, c.data}, Live(seg.blocks));
    }

    /** One round of the release loop: the link is read before its chunk is given back. */
    method FreeNext(ptemp: nat, ghost c: Chunk, ghost next: nat, ghost was: seq<int>) returns (pchunk: nat)
      requires seg.Valid() && c.seg in Live(seg.blocks) && c.data in Live(seg.blocks) && c.seg != c.data
      requires ptemp == Addr(c.seg) && ChunkStored(seg.mem[..], c, next) && Keeps(was, seg.mem[..], Live(seg.blocks))
      modifies seg`freeSize, seg`freeCount, seg`usedCount, seg`blocks, seg.mem
      ensures seg.Valid() && pchunk == next && Live(seg.blocks) == Live(old(seg.blocks)) - {c.seg, c.data}
      ensures Keeps(was, seg.mem[..], Live(seg.blocks))
    {
      ghost var before, live := seg.mem[..], Live(seg.blocks);
      pchunk := seg.mem[ptemp + NEXT];
      FreeChunk(ptemp, c, next);
      KeepsTrans(was, before, seg.mem[..], live, Live(seg.blocks));
    }

    /** The release loop over the chunk list. */
    method FreeChunks(first: nat, ghost was: seq<int>, ghost live: set<Block>)
      requires seg.Valid() && was == seg.mem[..] && live == Live(seg.blocks) && Keeps(was, was, live)
      requires Owned(live, header, chunks) && ListStored(was, chunks)
      requires first == if chunks == [] then 0 else Addr(chunks[0].seg)
      modifies seg`freeSize, seg`freeCount, seg`usedCount, seg`blocks, seg.mem
      ensures seg.Valid() && Live(seg.blocks) == live - ChunkBlocks(chunks)
      ensures Keeps(was, seg.mem[..], live - ChunkBlocks(chunks))
    {
      hide Holds;
      var pchunk := first;
      ghost var k := 0;
      while pchunk != 0
        invariant k <= |chunks| && pchunk == if k < |chunks| then Addr(chunks[k].seg) else 0
        invariant seg.Valid() && Live(seg.blocks) == live - ChunkBlocks(chunks[..k])
        invariant Keeps(was, seg.mem[..], live - ChunkBlocks(chunks[..k]))
        decreases |chunks| - k
      {
        RestOwned(live, header, chunks, k);
        ChunkKept(was, seg.mem[..], live - ChunkBlocks(chunks[..k]), chunks[k], NextOf(chunks, k));
        ChunkBlocksNext(chunks, k);
        pchunk := FreeNext(pchunk, chunks[k], NextOf(chunks, k), was);
        k := k + 1;
      }
      assert chunks[..k] == chunks;
    }

    /** alloc_free_mpool: exactly the pool's blocks go back to the heap. */
    method FreeMpool()
      requires Valid()
      modifies seg`freeSize, seg`freeCount, seg`usedCount, seg`blocks, seg.mem
      ensures seg.Valid() && Live(seg.blocks) == Live(old(seg.blocks)) - PoolBlocks(header, chunks)
      ensures Keeps(old(seg.mem[..]), seg.mem[..], Live(seg.blocks))
    {
      hide Holds, Counters, Live, Keeps, Pieces;
      ghost var was, live := seg.mem[..], Live(seg.blocks);
      KeepsSelf(was, seg.blocks);
      assert seg.mem[hoffset + FOFFSET] == WordAt(was, header, FOFFSET);
      FreeChunks(seg.mem[hoffset + FOFFSET], was, live);
      HeaderApart(live, header, chunks);
      ghost var before := seg.mem[..];
      seg.Sfree(hoffset, header);
      KeepsTrans(was, before, seg.mem[..], live - ChunkBlocks(chunks), Live(seg.blocks));
    }
  }

  /** The whole life of a pool: whatever is requested from it, and whichever requests fail,
      create, use and release leave the layout of the heap and every other payload as they were. */
  method PoolLifetime(seg: Segment, sizes: seq<nat>)
    requires seg.Valid()
    requires forall k {:trigger sizes[k]} :: 0 <= k < |sizes| ==> sizes[k] > 0
    modifies seg`freeSize, seg`freeCount, seg`usedCount, seg`blocks, seg.mem
    ensures seg.Valid() && seg.blocks == old(seg.blocks)
    ensures Keeps(old(seg.mem[..]), seg.mem[..], Live(seg.blocks))
  {
    hide Holds, Counters, Live, Keeps, Pieces, PoolHolds;
    ghost var was, live := seg.mem[..], Live(seg.blocks);
    var pool := MPool.Create(seg);
    if pool == null {
      return;
    }
    for k := 0 to |sizes|
      invariant pool.Valid() && pool.seg == seg
      invariant Live(seg.blocks) - PoolBlocks(pool.header, pool.chunks) == live
      invariant Keeps(was, seg.mem[..], live)
    {
      ghost var before := seg.mem[..];
      var addr;
      ghost var i;
      addr, i := pool.Ommalloc(sizes[k]);
      KeepsTrans(was, before, seg.mem[..], live, live);
    }
    ghost var before := seg.mem[..];
    pool.FreeMpool();
    KeepsTrans(was, before, seg.mem[..], live, live);
    SameLive(was, seg.mem[..], old(seg.blocks), seg.blocks);
  }

  // ----- Bookkeeping of the pool's blocks -----

  /** A class's standard chunk has room for any request of the class. */
  lemma ChunkRoom(nbytes: nat)
    ensures var rbytes := AlignQword(nbytes);
            ChunkBytes(rbytes) % WORD_BYTES == 0 && Words(nbytes) <= Words(ChunkBytes(rbytes))
  {
    WordsIsCeiling(nbytes);
  }

  lemma ChunkBlocksNext(cs: seq<Chunk>, k: nat)
    requires k < |cs|
    ensures ChunkBlocks(cs[..k + 1]) == ChunkBlocks(cs[..k]) + {cs[k].seg, cs[k].data}
  {
    assert cs[..k + 1][..k] == cs[..k];
  }

  lemma {:induction false} ChunkOwned(header: Block, cs: seq<Chunk>, i: nat)
    requires i < |cs|
    ensures cs[i].seg in PoolBlocks(header, cs) && cs[i].data in PoolBlocks(header, cs)
  {
    if i < |cs| - 1 {
      ChunkOwned(header, cs[..|cs| - 1], i);
    }
  }

  lemma RecordsAppend(header: Block, cs: seq<Chunk>, c: Chunk)
    ensures Records(header, cs + [c]) == Records(header, cs) + {c.seg}
  {
    forall d | d in Records(header, cs) + {c.seg} ensures d in Records(header, cs + [c]) {
      if d == c.seg {
        assert c in cs + [c];
      } else if d != header {
        var e :| e in cs && e.seg == d;
        assert e in cs + [c];
      }
    }
  }

  lemma RecordsOwned(header: Block, cs: seq<Chunk>)
    ensures Records(header, cs) <= PoolBlocks(header, cs)
  {
    forall d | d in Records(header, cs) ensures d in PoolBlocks(header, cs) {
      if d != header {
        var e :| e in cs && e.seg == d;
        var i :| 0 <= i < |cs| && cs[i] == e;
        ChunkOwned(header, cs, i);
      }
    }
  }

  /** The words of every piece are the same in m and in n. */
  ghost predicate SamePieces(ps: seq<Piece>, m: seq<int>, n: seq<int>) {
    forall p {:trigger p in ps} :: p in ps ==>
      p.addr + p.len <= |m| && p.addr + p.len <= |n| && m[p.addr..p.addr + p.len] == n[p.addr..p.addr + p.len]
  }

  /** Pieces lie outside the records of the pool. */
  lemma PiecesKept(m: seq<int>, n: seq<int>, live: set<Block>, header: Block, cs: seq<Chunk>, ps: seq<Piece>)
    requires Owned(live, header, cs) && Pieces(ps, cs) && Keeps(m, n, live - Records(header, cs))
    ensures SamePieces(ps, m, n)
  {
    hide Records, Owned, PayloadOf;
    forall p | p in ps
      ensures p.addr + p.len <= |m| && p.addr + p.len <= |n| && m[p.addr..p.addr + p.len] == n[p.addr..p.addr + p.len]
    {
      var k :| 0 <= k < |ps| && ps[k] == p;
      assert Placed(ps[k], cs);
      DataApart(live, header, cs, p.chunk);
      ChunkFits(live, header, cs, p.chunk);
      SameWithin(m, n, cs[p.chunk].data, p.addr, p.len);
    }
  }

  lemma ChunkFits(live: set<Block>, header: Block, cs: seq<Chunk>, i: nat)
    requires Owned(live, header, cs) && i < |cs|
    ensures cs[i].position <= cs[i].data.size
  {
  }

  lemma SameWithin(m: seq<int>, n: seq<int>, b: Block, addr: nat, len: nat)
    requires |m| == |n| && b.off + OVERHEAD + b.size <= |m| && PayloadOf(m, b) == PayloadOf(n, b)
    requires Addr(b) <= addr && addr + len <= Addr(b) + b.size
    ensures m[addr..addr + len] == n[addr..addr + len]
  {
    forall k | addr <= k < addr + len ensures m[k] == n[k] {
      assert PayloadOf(m, b)[k - Addr(b)] == PayloadOf(n, b)[k - Addr(b)];
    }
  }

  lemma DataApart(live: set<Block>, header: Block, cs: seq<Chunk>, i: nat)
    requires Owned(live, header, cs) && i < |cs|
    ensures cs[i].data in live - Records(header, cs)
  {
    forall j | 0 <= j < |cs| ensures cs[j].seg != cs[i].data {
      if j < i {
        assert ChunkApart(cs[j], cs[i]);
      } else if i < j {
        assert ChunkApart(cs[i], cs[j]);
      }
    }
  }

  lemma BlocksAppend(header: Block, cs: seq<Chunk>, c: Chunk)
    ensures PoolBlocks(header, cs + [c]) == PoolBlocks(header, cs) + {c.seg, c.data}
  {
    assert (cs + [c])[..|cs|] == cs;
  }

  lemma {:induction false} SameBlocks(cs: seq<Chunk>, ds: seq<Chunk>)
    requires |cs| == |ds|
    requires forall j {:trigger ds[j]} :: 0 <= j < |cs| ==> ds[j].seg == cs[j].seg && ds[j].data == cs[j].data
    ensures ChunkBlocks(ds) == ChunkBlocks(cs)
  {
    if cs != [] {
      SameBlocks(cs[..|cs| - 1], ds[..|ds| - 1]);
    }
  }

  lemma BlocksBump(header: Block, cs: seq<Chunk>, i: nat, len: nat)
    requires i < |cs|
    ensures PoolBlocks(header, Bump(cs, i, len)) == PoolBlocks(header, cs)
  {
    SameBlocks(cs, Bump(cs, i, len));
  }

  /** A block of the first k chunks belongs to one of them. */
  lemma {:induction false} BlockOfChunk(cs: seq<Chunk>, b: Block) returns (j: nat)
    requires b in ChunkBlocks(cs)
    ensures j < |cs| && (b == cs[j].seg || b == cs[j].data)
  {
    var last := cs[|cs| - 1];
    if b == last.seg || b == last.data {
      j := |cs| - 1;
    } else {
      j := BlockOfChunk(cs[..|cs| - 1], b);
    }
  }

  /** A chunk not yet released is still live. */
  lemma RestOwned(live: set<Block>, header: Block, cs: seq<Chunk>, k: nat)
    requires Owned(live, header, cs) && k < |cs|
    ensures cs[k].seg in live - ChunkBlocks(cs[..k]) && cs[k].data in live - ChunkBlocks(cs[..k])
  {
    if cs[k].seg in ChunkBlocks(cs[..k]) {
      var j := BlockOfChunk(cs[..k], cs[k].seg);
    }
    if cs[k].data in ChunkBlocks(cs[..k]) {
      var j := BlockOfChunk(cs[..k], cs[k].data);
    }
  }

  lemma HeaderApart(live: set<Block>, header: Block, cs: seq<Chunk>)
    requires Owned(live, header, cs)
    ensures header in live - ChunkBlocks(cs) && PoolBlocks(header, cs) == {header} + ChunkBlocks(cs)
  {
    if header in ChunkBlocks(cs) {
      var j := BlockOfChunk(cs, header);
    }
  }
}
