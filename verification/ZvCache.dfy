/** The user and session cache: a chained hash table of entries with a time to live. */
module ZvCaches {
  import opened Basics
  import opened Ticks
  import opened PathIndex
  import opened Chains

  const PER_RUN_SCAVENGE_COUNT: nat := 16
  const SCAVENGE_PAUSE: nat := 10000
  const MAX_ZVKEY_LENGTH: nat := 0xFFFF


  // A cached value.  Arrays and objects appear as the token their deep copy stands for.
  datatype Zval = Null | Bool(b: bool) | Long(n: int) | Double(d: real) | Str(s: seq<bv8>) | Array(token: nat)
                | Object(serialized: seq<bv8>)

  // zvcache_value.  added and used are the instants whose ticks WinCache stores.
  datatype Entry = Entry(key: Path, value: Zval, ttl: nat, added: nat, used: nat, hits: nat)

  datatype Code = NONFATAL | FATAL_OUT_OF_LMEMORY | FATAL_OUT_OF_SMEMORY | FATAL_ZVCACHE_INVALID_KEY_LENGTH
                | WARNING_ZVCACHE_EMISSING | WARNING_ZVCACHE_EXISTS | WARNING_ZVCACHE_NOTLONG | WARNING_ZVCACHE_CASNEQ

  // What a caller can see of one key.
  datatype Cell = Cell(value: Zval, ttl: nat, stamp: nat)

  /** Session entries age from their last use, user entries from when they were added. */
  function Stamp(e: Entry, session: bool): nat {
    if session then e.used else e.added
  }

  /** The test of find_zvcache_entry. */
  function Alive(e: Entry, now: nat, session: bool): bool {
    e.ttl == 0 || Seconds(now, Stamp(e, session)) <= e.ttl
  }

  /** The test of the scavenger. */
  function Stale(e: Entry, now: nat): bool {
    e.ttl != 0 && Seconds(now, e.used) >= e.ttl
  }

  type Nodes = map<nat, Node<Entry>>

  function CellOf(e: Entry, session: bool): Cell {
    Cell(e.value, e.ttl, Stamp(e, session))
  }

  ghost predicate Shows(nodes: Nodes, o: nat, key: Path, now: nat, session: bool) {
    o in nodes && nodes[o].data.key == key && Alive(nodes[o].data, now, session)
  }

  /** An entry that shows the key, if there is one. */
  ghost function Shown(nodes: Nodes, key: Path, now: nat, session: bool): (r: Option<nat>)
    ensures r.Some? ==> Shows(nodes, r.value, key, now, session)
    ensures r.None? ==> forall o :: !Shows(nodes, o, key, now, session)
  {
    if exists o :: Shows(nodes, o, key, now, session) then
      var o :| Shows(nodes, o, key, now, session);
      Some(o)
    else None
  }

  /** The expiring map the cache stands for, at instant now. */
  ghost function Lookup(nodes: Nodes, key: Path, now: nat, session: bool): Option<Cell> {
    match Shown(nodes, key, now, session)
    case Some(o) => Some(CellOf(nodes[o].data, session))
    case None => None
  }

  // ----- The invariant -----

  /** Of the entries of one key in a chain, all but the last are dead. */
  ghost predicate LastAlive(nodes: Nodes, c: seq<nat>, now: nat, session: bool) {
    && (forall i {:trigger c[i]} :: 0 <= i < |c| ==> c[i] in nodes)
    && (forall i, j {:trigger c[i], c[j]} :: 0 <= i < j < |c| && nodes[c[i]].data.key == nodes[c[j]].data.key ==>
          !Alive(nodes[c[i]].data, now, session))
  }

  /** Stamps are in the past and, where they are ever compared, near enough for 32-bit ticks. */
  ghost predicate Stamped(e: Entry, now: nat, session: bool) {
    e.added <= e.used <= now && (e.ttl != 0 ==> WithinRange(now, Stamp(e, session)))
  }

  ghost predicate AllStamped(nodes: Nodes, now: nat, session: bool) {
    forall o {:trigger o in nodes} :: o in nodes ==> Stamped(nodes[o].data, now, session)
  }

  ghost predicate Ordered(nodes: Nodes, chains: seq<seq<nat>>, now: nat, session: bool) {
    forall b {:trigger chains[b]} :: 0 <= b < |chains| ==> LastAlive(nodes, chains[b], now, session)
  }

  /** A dead entry stays dead for as long as its stamp is within range. */
  lemma DeadStaysDead(e: Entry, t1: nat, t2: nat, session: bool)
    requires t1 <= t2 && Stamped(e, t1, session) && Stamped(e, t2, session) && !Alive(e, t1, session)
    ensures !Alive(e, t2, session)
  {
    ElapsedGrows(Stamp(e, session), t1, t2);
  }

  lemma AdvanceTable(nodes: Nodes, chains: seq<seq<nat>>, t1: nat, t2: nat, session: bool)
    requires t1 <= t2 && AllStamped(nodes, t1, session) && AllStamped(nodes, t2, session)
             && Ordered(nodes, chains, t1, session)
    ensures Ordered(nodes, chains, t2, session)
  {
    forall b | 0 <= b < |chains| ensures LastAlive(nodes, chains[b], t2, session) {
      AdvanceChain(nodes, chains[b], t1, t2, session);
    }
  }

  lemma AdvanceChain(nodes: Nodes, c: seq<nat>, t1: nat, t2: nat, session: bool)
    requires t1 <= t2 && AllStamped(nodes, t1, session) && AllStamped(nodes, t2, session)
             && LastAlive(nodes, c, t1, session)
    ensures LastAlive(nodes, c, t2, session)
  {
    forall i, j | 0 <= i < j < |c| && nodes[c[i]].data.key == nodes[c[j]].data.key
      ensures !Alive(nodes[c[i]].data, t2, session)
    {
      DeadStaysDead(nodes[c[i]].data, t1, t2, session);
    }
  }

  /** Every entry sits in the bucket of its key. */
  ghost predicate Indexed(bucketOf: Entry -> nat, buckets: nat) {
    buckets > 0 && forall e {:trigger bucketOf(e)} :: bucketOf(e) == IndexOf(e.key, buckets)
  }

  /** At most one entry per key is alive. */
  lemma OneAlive(heads: seq<nat>, nodes: Nodes, chains: seq<seq<nat>>, bucketOf: Entry -> nat, now: nat, session: bool,
                 o1: nat, o2: nat, key: Path)
    requires TableHolds(heads, nodes, chains, bucketOf) && Indexed(bucketOf, |chains|)
             && Ordered(nodes, chains, now, session)
    requires Shows(nodes, o1, key, now, session) && Shows(nodes, o2, key, now, session)
    ensures o1 == o2
  {
    hide Alive, Chained, IndexOf;
    var b := IndexOf(key, |chains|);
    var c := chains[b];
    assert bucketOf(nodes[o1].data) == b && bucketOf(nodes[o2].data) == b;
    var i :| 0 <= i < |c| && c[i] == o1;
    var j :| 0 <= j < |c| && c[j] == o2;
    assert LastAlive(nodes, c, now, session);
  }

  // ----- How the operations change what is shown -----

  // The state of the table, as values: bucket heads, entries, chains.
  datatype Tab = Tab(heads: seq<nat>, nodes: Nodes, chains: seq<seq<nat>>)

  /** Everything the cache keeps true of its table at instant now. */
  ghost predicate Good(t: Tab, bucketOf: Entry -> nat, now: nat, session: bool) {
    && TableHolds(t.heads, t.nodes, t.chains, bucketOf) && Indexed(bucketOf, |t.chains|)
    && Ordered(t.nodes, t.chains, now, session) && AllStamped(t.nodes, now, session)
  }

  lemma GoodTable(t: Tab, bucketOf: Entry -> nat, now: nat, session: bool)
    requires Good(t, bucketOf, now, session)
    ensures TableHolds(t.heads, t.nodes, t.chains, bucketOf) && Indexed(bucketOf, |t.chains|) && |t.heads| == |t.chains|
  {
    hide Chained, InBuckets;
  }

  lemma GoodShown(t: Tab, bucketOf: Entry -> nat, now: nat, session: bool, o: nat, key: Path)
    requires Good(t, bucketOf, now, session) && Shows(t.nodes, o, key, now, session)
    ensures Shown(t.nodes, key, now, session) == Some(o)
  {
    OneAlive(t.heads, t.nodes, t.chains, bucketOf, now, session, o, Shown(t.nodes, key, now, session).value, key);
  }

  /** What becomes of a cell by instant now, when nobody touches it. */
  function Aged(a: Option<Cell>, now: nat): Option<Cell> {
    match a
    case Some(cell) => if cell.ttl == 0 || Seconds(now, cell.stamp) <= cell.ttl then a else None
    case None => None
  }

  /** Time passes: a missing key stays missing, and a shown one is shown, with the same cell, for as
      long as its age is at most its ttl. */
  lemma LookLater(t: Tab, bucketOf: Entry -> nat, t1: nat, t2: nat, session: bool, key: Path)
    requires t1 <= t2 && Good(t, bucketOf, t1, session) && AllStamped(t.nodes, t2, session)
    ensures Lookup(t.nodes, key, t2, session) == Aged(Lookup(t.nodes, key, t1, session), t2)
  {
    hide TableHolds, Indexed, LastAlive;
    AdvanceTable(t.nodes, t.chains, t1, t2, session);
    var p, q := Shown(t.nodes, key, t1, session), Shown(t.nodes, key, t2, session);
    if q.Some? {
      AliveBefore(t.nodes[q.value].data, t1, t2, session);
      GoodShown(t, bucketOf, t1, session, q.value, key);
    } else if p.Some? {
      assert !Shows(t.nodes, p.value, key, t2, session);
    }
  }

  lemma AliveBefore(e: Entry, t1: nat, t2: nat, session: bool)
    requires t1 <= t2 && Stamped(e, t1, session) && Stamped(e, t2, session) && Alive(e, t2, session)
    ensures Alive(e, t1, session)
  {
    if !Alive(e, t1, session) {
      DeadStaysDead(e, t1, t2, session);
    }
  }

  ghost predicate ShowsAs(nodes: Nodes, o: nat, key: Path, now: nat, session: bool, cell: Cell) {
    Shows(nodes, o, key, now, session) && CellOf(nodes[o].data, session) == cell
  }

  /** Tables that show the same entry with the same cell look the same. */
  lemma SameLookup(t: Tab, u: Tab, bucketOf: Entry -> nat, now: nat, session: bool, key: Path)
    requires Good(t, bucketOf, now, session) && Good(u, bucketOf, now, session)
    requires forall o :: Shows(t.nodes, o, key, now, session) ==>
               ShowsAs(u.nodes, o, key, now, session, CellOf(t.nodes[o].data, session))
    requires forall o :: Shows(u.nodes, o, key, now, session) ==> Shows(t.nodes, o, key, now, session)
    ensures Lookup(t.nodes, key, now, session) == Lookup(u.nodes, key, now, session)
  {
    hide Good, Alive, CellOf;
    var p := Shown(t.nodes, key, now, session);
    if p.Some? {
      GoodShown(u, bucketOf, now, session, p.value, key);
    }
  }

  // ----- Removing entries -----

  /** u is t after some entries were removed. */
  ghost predicate Fewer(t: Tab, u: Tab) {
    u.nodes.Keys <= t.nodes.Keys && SameData(t.nodes, u.nodes)
  }

  lemma FewerStamped(t: Tab, u: Tab, now: nat, session: bool)
    requires Fewer(t, u) && AllStamped(t.nodes, now, session)
    ensures AllStamped(u.nodes, now, session)
  {
    forall o | o in u.nodes ensures Stamped(u.nodes[o].data, now, session) {
      assert o in t.nodes;
    }
  }

  /** After removals a key is shown exactly if the entry that showed it is still there. */
  lemma FewerLookup(t: Tab, u: Tab, bucketOf: Entry -> nat, now: nat, session: bool, key: Path)
    requires Good(t, bucketOf, now, session) && Good(u, bucketOf, now, session) && Fewer(t, u)
    ensures Lookup(u.nodes, key, now, session) ==
              match Shown(t.nodes, key, now, session)
              case Some(o) => if o in u.nodes then Lookup(t.nodes, key, now, session) else None
              case None => None
  {
    var p := Shown(t.nodes, key, now, session);
    var q := Shown(u.nodes, key, now, session);
    if q.Some? {
      assert q.value in u.nodes;
      assert Shows(t.nodes, q.value, key, now, session);
      GoodShown(t, bucketOf, now, session, q.value, key);
    } else if p.Some? && p.value in u.nodes {
      assert Shows(u.nodes, p.value, key, now, session);
    }
  }

  lemma WithoutLastAlive(nodes: Nodes, n: Nodes, c: seq<nat>, i: nat, now: nat, session: bool)
    requires LastAlive(nodes, c, now, session) && i < |c| && Distinct(c)
    requires n.Keys == nodes.Keys - {c[i]} && SameData(nodes, n)
    ensures LastAlive(n, Without(c, i), now, session)
  {
    var d := Without(c, i);
    forall k | 0 <= k < |d| ensures d[k] in n {
      assert d[k] == c[if k < i then k else k + 1];
    }
    forall k, l | 0 <= k < l < |d| && n[d[k]].data.key == n[d[l]].data.key
      ensures !Alive(n[d[k]].data, now, session)
    {
      assert d[k] == c[if k < i then k else k + 1] && d[l] == c[if l < i then l else l + 1];
      assert d[k] in nodes && d[l] in nodes;
    }
  }

  /** A chain whose entries keep their data keeps its order property. */
  lemma LastAliveKept(nodes: Nodes, n: Nodes, c: seq<nat>, now: nat, session: bool)
    requires LastAlive(nodes, c, now, session) && SameData(nodes, n)
    requires forall o {:trigger o in c} :: o in c ==> o in n
    ensures LastAlive(n, c, now, session)
  {
    forall i | 0 <= i < |c| ensures c[i] in n {
      assert c[i] in c;
    }
    forall i, j | 0 <= i < j < |c| && n[c[i]].data.key == n[c[j]].data.key
      ensures !Alive(n[c[i]].data, now, session)
    {
      assert c[i] in nodes && c[j] in nodes;
    }
  }

  lemma RemoveGood(t: Tab, u: Tab, bucketOf: Entry -> nat, now: nat, session: bool, b: nat, i: nat)
    requires Good(t, bucketOf, now, session) && TableHolds(u.heads, u.nodes, u.chains, bucketOf)
    requires b < |t.chains| && i < |t.chains[b]| && u.chains == t.chains[b := Without(t.chains[b], i)]
    requires u.nodes.Keys == t.nodes.Keys - {t.chains[b][i]} && SameData(t.nodes, u.nodes)
    ensures Good(u, bucketOf, now, session) && Fewer(t, u)
  {
    hide Without, SameData, InBuckets, Distinct;
    ChainOf(t.heads, t.nodes, t.chains, bucketOf, b);
    FewerStamped(t, u, now, session);
    assert Distinct(t.chains[b]);
    hide LastAlive, AllStamped, Chained;
    forall k | 0 <= k < |u.chains| ensures LastAlive(u.nodes, u.chains[k], now, session) {
      assert LastAlive(t.nodes, t.chains[k], now, session);
      if k == b {
        WithoutLastAlive(t.nodes, u.nodes, t.chains[b], i, now, session);
      } else {
        ChainOf(u.heads, u.nodes, u.chains, bucketOf, k);
        LastAliveKept(t.nodes, u.nodes, t.chains[k], now, session);
      }
    }
  }

  // ----- Adding and touching entries -----

  lemma AddGood(t: Tab, u: Tab, bucketOf: Entry -> nat, now: nat, session: bool, off: nat, e: Entry)
    requires Good(t, bucketOf, now, session) && TableHolds(u.heads, u.nodes, u.chains, bucketOf)
    requires e.added == e.used == now && off !in t.nodes && Shown(t.nodes, e.key, now, session) == None
    requires u.nodes.Keys == t.nodes.Keys + {off} && u.nodes[off].data == e && SameData(t.nodes, u.nodes)
    requires bucketOf(e) < |t.chains| && u.chains == t.chains[bucketOf(e) := t.chains[bucketOf(e)] + [off]]
    ensures Good(u, bucketOf, now, session)
  {
    hide SameData, AllStamped, LastAlive, Shown, Indexed, InBuckets, Chained, Alive;
    AddStamped(t, u, now, session, off);
    forall k | 0 <= k < |u.chains| ensures LastAlive(u.nodes, u.chains[k], now, session) {
      ChainOf(t.heads, t.nodes, t.chains, bucketOf, k);
      AddChainGood(t.nodes, u.nodes, t.chains[k], now, session, off, k == bucketOf(e));
    }
  }

  lemma AddChainGood(nodes: Nodes, n: Nodes, c: seq<nat>, now: nat, session: bool, off: nat, here: bool)
    requires LastAlive(nodes, c, now, session) && off in n && n.Keys == nodes.Keys + {off} && SameData(nodes, n)
    requires forall o {:trigger o in c} :: o in c ==> o in nodes
    requires Shown(nodes, n[off].data.key, now, session) == None
    ensures LastAlive(n, if here then c + [off] else c, now, session)
  {
    LastAliveKept(nodes, n, c, now, session);
    if here {
      AppendLastAlive(nodes, n, c, now, session, off);
    }
  }

  lemma AddStamped(t: Tab, u: Tab, now: nat, session: bool, off: nat)
    requires AllStamped(t.nodes, now, session) && off in u.nodes && Stamped(u.nodes[off].data, now, session)
    requires u.nodes.Keys == t.nodes.Keys + {off} && SameData(t.nodes, u.nodes)
    ensures AllStamped(u.nodes, now, session)
  {
    hide Stamped;
    forall o | o in u.nodes ensures Stamped(u.nodes[o].data, now, session) {
      assert o == off || o in t.nodes;
    }
  }

  /** An entry stamped at this very instant is alive. */
  lemma FreshAlive(e: Entry, now: nat, session: bool)
    requires Stamp(e, session) == now
    ensures Alive(e, now, session)
  {
    ElapsedExact(now, now);
  }

  lemma AppendLastAlive(nodes: Nodes, n: Nodes, c: seq<nat>, now: nat, session: bool, off: nat)
    requires LastAlive(n, c, now, session) && off in n && SameData(nodes, n)
    requires forall o {:trigger o in c} :: o in c ==> o in nodes
    requires Shown(nodes, n[off].data.key, now, session) == None
    ensures LastAlive(n, c + [off], now, session)
  {
    hide Alive;
    var d, key := c + [off], n[off].data.key;
    forall i, j | 0 <= i < j < |d| && n[d[i]].data.key == n[d[j]].data.key
      ensures !Alive(n[d[i]].data, now, session)
    {
      assert d[i] == c[i] && c[i] in c;
      if j == |c| {
        assert !Shows(nodes, d[i], key, now, session);
      }
    }
  }

  lemma AddShows(t: Tab, u: Tab, off: nat, key: Path, now: nat, session: bool)
    requires off !in t.nodes && u.nodes.Keys == t.nodes.Keys + {off} && SameData(t.nodes, u.nodes)
             && key != u.nodes[off].data.key
    ensures forall o :: Shows(t.nodes, o, key, now, session) ==>
              ShowsAs(u.nodes, o, key, now, session, CellOf(t.nodes[o].data, session))
    ensures forall o :: Shows(u.nodes, o, key, now, session) ==> Shows(t.nodes, o, key, now, session)
  {
    hide Alive;
  }

  /** After an add the key shows the new cell and all other keys are as before. */
  lemma AddLookup(t: Tab, u: Tab, bucketOf: Entry -> nat, now: nat, session: bool, off: nat, key: Path)
    requires Good(t, bucketOf, now, session) && Good(u, bucketOf, now, session)
    requires off !in t.nodes && u.nodes.Keys == t.nodes.Keys + {off} && SameData(t.nodes, u.nodes)
    requires u.nodes[off].data.added == u.nodes[off].data.used == now
    ensures var e := u.nodes[off].data;
            Lookup(u.nodes, key, now, session) ==
            if key == e.key then Some(Cell(e.value, e.ttl, now)) else Lookup(t.nodes, key, now, session)
  {
    hide Alive, Good, SameData;
    var e := u.nodes[off].data;
    FreshAlive(e, now, session);
    if key == e.key {
      assert Shows(u.nodes, off, key, now, session);
      GoodShown(u, bucketOf, now, session, off, key);
    } else {
      AddShows(t, u, off, key, now, session);
      SameLookup(t, u, bucketOf, now, session, key);
    }
  }

  /** Entry off is given new data with the same key; it was shown and still is. */
  ghost predicate Rewritten(t: Tab, u: Tab, off: nat, e: Entry, now: nat, session: bool) {
    && off in t.nodes && e.key == t.nodes[off].data.key && Alive(t.nodes[off].data, now, session)
    && Alive(e, now, session) && Stamped(e, now, session)
    && u == Tab(t.heads, t.nodes[off := t.nodes[off].(data := e)], t.chains)
  }

  lemma RewriteGood(t: Tab, u: Tab, bucketOf: Entry -> nat, now: nat, session: bool, off: nat, e: Entry)
    requires Good(t, bucketOf, now, session) && Rewritten(t, u, off, e, now, session)
    requires TableHolds(u.heads, u.nodes, u.chains, bucketOf)
    ensures Good(u, bucketOf, now, session)
  {
    hide Alive, Stamped, IndexOf, TableHolds;
    forall k | 0 <= k < |u.chains| ensures LastAlive(u.nodes, u.chains[k], now, session) {
      assert LastAlive(t.nodes, t.chains[k], now, session);
    }
  }

  lemma RewriteLookup(t: Tab, u: Tab, bucketOf: Entry -> nat, now: nat, session: bool, off: nat, e: Entry, key: Path)
    requires Good(t, bucketOf, now, session) && Good(u, bucketOf, now, session) && Rewritten(t, u, off, e, now, session)
    ensures Lookup(u.nodes, key, now, session) ==
            if key == e.key then Some(CellOf(e, session)) else Lookup(t.nodes, key, now, session)
  {
    hide Alive, Good, Stamped;
    if key == e.key {
      assert Shows(u.nodes, off, key, now, session);
      GoodShown(u, bucketOf, now, session, off, key);
    } else {
      SameLookup(t, u, bucketOf, now, session, key);
    }
  }

  // ----- Use and age -----

  /** Entry f at offset o was written at instant now, or comes from an entry of m: of the same age, or
      used at now. */
  ghost predicate Renewed(m: Nodes, o: nat, f: Entry, now: nat) {
    || f.added == f.used == now
    || (o in m && f.key == m[o].data.key && f.ttl == m[o].data.ttl && f.added == m[o].data.added
          && (f.used == m[o].data.used || f.used == now))
  }

  ghost predicate Renews(m: Nodes, n: Nodes, now: nat) {
    forall o {:trigger n[o]} {:trigger o in n} :: o in n ==> Renewed(m, o, n[o].data, now)
  }

  lemma RenewsLess(m: Nodes, n: Nodes, now: nat)
    requires n.Keys <= m.Keys && SameData(m, n)
    ensures Renews(m, n, now)
  {
  }

  lemma AddRenews(m: Nodes, n: Nodes, off: nat, now: nat)
    requires n.Keys == m.Keys + {off} && SameData(m, n) && n[off].data.added == n[off].data.used == now
    ensures Renews(m, n, now)
  {
    forall o | o in n ensures Renewed(m, o, n[o].data, now) {
      assert o == off || o in m;
    }
  }

  lemma UsedRenewed(m: Nodes, off: nat, f: Entry, now: nat)
    requires off in m && f.key == m[off].data.key && f.ttl == m[off].data.ttl && f.added == m[off].data.added
    requires f.used == m[off].data.used || f.used == now
    ensures Renewed(m, off, f, now)
  {
  }

  lemma RewriteRenews(m: Nodes, off: nat, e: Entry, now: nat)
    requires off in m && Renewed(m, off, e, now)
    ensures Renews(m, m[off := m[off].(data := e)], now)
  {
  }

  lemma RenewsTrans(m: Nodes, n: Nodes, p: Nodes, now: nat)
    requires Renews(m, n, now) && Renews(n, p, now)
    ensures Renews(m, p, now)
  {
    forall o | o in p ensures Renewed(m, o, p[o].data, now) {
      assert Renewed(n, o, p[o].data, now);
      assert o in n ==> Renewed(m, o, n[o].data, now);
    }
  }

  /** Stamps stay usable up to any instant less than 2^32 ms from now. */
  lemma RenewsStamped(m: Nodes, n: Nodes, now: nat, last: nat, session: bool)
    requires Renews(m, n, now) && AllStamped(m, last, session) && AllStamped(n, now, session)
             && now <= last < now + TICK_RANGE
    ensures AllStamped(n, last, session)
  {
    forall o | o in n ensures Stamped(n[o].data, last, session) {
      assert Stamped(n[o].data, now, session) && Renewed(m, o, n[o].data, now);
      assert o in m ==> Stamped(m[o].data, last, session);
    }
  }

  /** No entry in the buckets lo..hi is stale. */
  ghost predicate Clean(n: Nodes, bucketOf: Entry -> nat, lo: nat, hi: nat, now: nat) {
    forall o {:trigger n[o]} {:trigger o in n} :: o in n && lo <= bucketOf(n[o].data) < hi ==> !Stale(n[o].data, now)
  }

  lemma JustUsed(e: Entry, now: nat)
    requires e.used == now
    ensures !Stale(e, now)
  {
    ElapsedExact(now, now);
  }

  lemma CleanKept(m: Nodes, n: Nodes, bucketOf: Entry -> nat, buckets: nat, lo: nat, hi: nat, now: nat)
    requires Renews(m, n, now) && Clean(m, bucketOf, lo, hi, now) && Indexed(bucketOf, buckets)
    ensures Clean(n, bucketOf, lo, hi, now)
  {
    hide Stale, IndexOf;
    forall o | o in n && lo <= bucketOf(n[o].data) < hi ensures !Stale(n[o].data, now) {
      var f := n[o].data;
      assert Renewed(m, o, f, now);
      if f.used == now {
        JustUsed(f, now);
      } else {
        SameBuckets(bucketOf, buckets, f, m[o].data);
        SameStale(m[o].data, f, now);
      }
    }
  }

  lemma SameStale(e: Entry, f: Entry, now: nat)
    requires e.ttl == f.ttl && e.used == f.used
    ensures Stale(e, now) == Stale(f, now)
  {
  }

  /** What a call does to the sweep schedule: if it calls the scavenger and the last sweep is ten seconds
      old, the next window is swept; otherwise nothing changes. */
  ghost predicate Swept(calls: bool, last: nat, start: nat, last2: nat, start2: nat, n: Nodes, bucketOf: Entry -> nat,
                        buckets: nat, now: nat)
  {
    if calls && Elapsed(now, last) >= SCAVENGE_PAUSE then
      last2 == now && start2 == NextStart(start, buckets) && Clean(n, bucketOf, start, WindowEnd(start, buckets), now)
    else
      last2 == last && start2 == start
  }

  lemma SweptKept(calls: bool, last: nat, start: nat, last2: nat, start2: nat, m: Nodes, n: Nodes,
                  bucketOf: Entry -> nat, buckets: nat, now: nat)
    requires Swept(calls, last, start, last2, start2, m, bucketOf, buckets, now) && Renews(m, n, now)
             && Indexed(bucketOf, buckets)
    ensures Swept(calls, last, start, last2, start2, n, bucketOf, buckets, now)
  {
    hide Clean, Renews, Elapsed, Indexed;
    if calls && Elapsed(now, last) >= SCAVENGE_PAUSE {
      CleanKept(m, n, bucketOf, buckets, start, WindowEnd(start, buckets), now);
    }
  }

  lemma SweptClean(m: Nodes, n: Nodes, bucketOf: Entry -> nat, lo: nat, hi: nat, now: nat)
    requires SameData(m, n)
    requires forall o {:trigger o in n} {:trigger o in m} :: o in n <==> o in m && !SweptIn(m, bucketOf, lo, hi, now, o)
    ensures Clean(n, bucketOf, lo, hi, now) && Renews(m, n, now)
  {
    hide Stale;
    forall o | o in n ensures o in m && n[o].data == m[o].data {
    }
  }

  // ----- The entries of a cache, call by call -----

  type Entries = map<nat, Entry>

  /** The entries by offset, without their links. */
  ghost function EntriesOf(nodes: Nodes): (m: Entries)
    ensures m.Keys == nodes.Keys && forall o {:trigger m[o]} {:trigger nodes[o]} :: o in m ==> m[o] == nodes[o].data
  {
    map o | o in nodes :: nodes[o].data
  }

  /** The offset of the entry that shows a key, if there is one. */
  ghost function Holder(nodes: Nodes, key: Path, now: nat, session: bool): set<nat> {
    match Shown(nodes, key, now, session)
    case Some(o) => {o}
    case None => {}
  }

  /** What run_zvcache_scavenger leaves, called at instant now when it last swept at last and start is next. */
  ghost function AfterSweep(m: Entries, bucketOf: Entry -> nat, last: nat, start: nat, buckets: nat, now: nat)
    : Entries
  {
    if Elapsed(now, last) < SCAVENGE_PAUSE then m
    else map o | o in m && !(Stale(m[o], now) && start <= bucketOf(m[o]) < WindowEnd(start, buckets)) :: m[o]
  }

  /** The held entry is used at instant now. */
  ghost function Used(m: Entries, held: set<nat>, now: nat): Entries {
    map o | o in m :: if o in held then m[o].(used := now) else m[o]
  }

  /** The held entry is used at instant now by a get. */
  ghost function Hit(m: Entries, held: set<nat>, now: nat): Entries {
    map o | o in m :: if o in held then m[o].(used := now, hits := m[o].hits + 1) else m[o]
  }

  /** The held entry has a new value. */
  ghost function Valued(m: Entries, held: set<nat>, value: Zval): Entries {
    map o | o in m :: if o in held then m[o].(value := value) else m[o]
  }

  lemma SweepLeaves(m: Nodes, n: Nodes, ran: bool, bucketOf: Entry -> nat, last: nat, start: nat, buckets: nat,
                    now: nat)
    requires SameData(m, n) && (ran <==> Elapsed(now, last) >= SCAVENGE_PAUSE) && (!ran ==> n == m)
    requires ran ==> forall o {:trigger o in n} {:trigger o in m} ::
               o in n <==> o in m && !SweptIn(m, bucketOf, start, WindowEnd(start, buckets), now, o)
    ensures EntriesOf(n) == AfterSweep(EntriesOf(m), bucketOf, last, start, buckets, now)
  {
    hide Stale, Elapsed;
  }

  lemma EntriesLess(m: Nodes, n: Nodes, gone: set<nat>)
    requires n.Keys == m.Keys - gone && SameData(m, n)
    ensures EntriesOf(n) == EntriesOf(m) - gone
  {
  }

  lemma EntriesMore(m: Nodes, n: Nodes, off: nat)
    requires n.Keys == m.Keys + {off} && SameData(m, n) && off !in m
    ensures EntriesOf(n) == EntriesOf(m)[off := n[off].data]
  {
    forall o | o in n ensures EntriesOf(n)[o] == EntriesOf(m)[off := n[off].data][o] {
    }
  }

  lemma EntriesSet(m: Nodes, off: nat, e: Entry)
    requires off in m
    ensures EntriesOf(m[off := m[off].(data := e)]) == EntriesOf(m)[off := e]
  {
  }

  lemma SweepKeys(m: Nodes, n: Nodes, bucketOf: Entry -> nat, last: nat, start: nat, buckets: nat, now: nat)
    requires EntriesOf(n) == AfterSweep(EntriesOf(m), bucketOf, last, start, buckets, now)
    ensures n.Keys <= m.Keys
  {
    hide Stale, Elapsed;
    forall o | o in n ensures o in m {
      assert o in EntriesOf(n) && o in EntriesOf(m);
    }
  }

  lemma UseOne(m: Entries, o: nat, now: nat)
    requires o in m
    ensures Used(m, {o}, now) == m[o := m[o].(used := now)]
  {
  }

  lemma HitOne(m: Entries, o: nat, now: nat)
    requires o in m
    ensures Hit(m, {o}, now) == m[o := m[o].(used := now, hits := m[o].hits + 1)]
  {
  }

  lemma UseNone(m: Entries, now: nat)
    ensures Used(m, {}, now) == m && Hit(m, {}, now) == m
  {
  }

  lemma ValueHeld(m: Entries, held: set<nat>, o: nat, value: Zval)
    requires held * m.Keys == {o}
    ensures o in m && Valued(m, held, value) == m[o := m[o].(value := value)]
  {
    assert o in held * m.Keys;
    forall q | q in m ensures Valued(m, held, value)[q] == m[o := m[o].(value := value)][q] {
      assert q in held <==> q in held * m.Keys;
    }
  }

  lemma LessHeld(m: Entries, held: set<nat>)
    ensures m - held == m - held * m.Keys
  {
  }

  lemma HeldFound(n: Nodes, held: set<nat>, found: bool, o: nat)
    requires held * n.Keys == if found then {o} else {}
    ensures held * EntriesOf(n).Keys == (if found then {o} else {}) && (found <==> held * EntriesOf(n).Keys != {})
    ensures EntriesOf(n) - held == if found then EntriesOf(n) - {o} else EntriesOf(n)
  {
    assert o in {o};
    LessHeld(EntriesOf(n), held);
    assert EntriesOf(n) - {} == EntriesOf(n);
  }

  /** When entries have only gone, the one that shows a key is the one that did, or none. */
  lemma HolderLess(t: Tab, bucketOf: Entry -> nat, n: Nodes, key: Path, now: nat, session: bool)
    requires Good(t, bucketOf, now, session) && n.Keys <= t.nodes.Keys && SameData(t.nodes, n)
    ensures Holder(n, key, now, session) == Holder(t.nodes, key, now, session) * n.Keys
  {
    hide Good, Alive;
    var p, q := Shown(t.nodes, key, now, session), Shown(n, key, now, session);
    if q.Some? {
      assert Shows(t.nodes, q.value, key, now, session);
      GoodShown(t, bucketOf, now, session, q.value, key);
    } else if p.Some? {
      assert !Shows(n, p.value, key, now, session);
    }
  }

  /** A millisecond count, one short after a rollover of the counter. */
  ghost function Idle(e: Entry, now: nat): int {
    now - e.used - if RolledOver(now, e.used) then 1 else 0
  }

  /** The scavenger takes exactly the entries with a ttl that have not been used for that many seconds. */
  lemma StaleExact(e: Entry, now: nat)
    requires WithinRange(now, e.used)
    ensures Stale(e, now) <==> e.ttl >= 1 && Idle(e, now) >= 1000 * e.ttl
  {
    ElapsedExact(now, e.used);
  }

  /** Lookups pass over exactly the entries with a ttl that are a second older than that, or more. */
  lemma AliveExact(e: Entry, now: nat, session: bool)
    requires WithinRange(now, if session then e.used else e.added)
    ensures var since := if session then e.used else e.added;
            var age := now - since - if RolledOver(now, since) then 1 else 0;
            Alive(e, now, session) <==> e.ttl == 0 || age < 1000 * (e.ttl + 1)
  {
    ElapsedExact(now, if session then e.used else e.added);
  }

  // ----- The scavenger, on values -----

  /** The entries of a chain that a sweep at instant now leaves in place. */
  ghost function Survivors(nodes: Nodes, c: seq<nat>, now: nat): seq<nat>
    requires forall i {:trigger c[i]} :: 0 <= i < |c| ==> c[i] in nodes
  {
    if c == [] then []
    else
      var rest := Survivors(nodes, c[..|c| - 1], now);
      if Stale(nodes[c[|c| - 1]].data, now) then rest else rest + [c[|c| - 1]]
  }

  lemma {:induction false} SurvivorsExact(nodes: Nodes, c: seq<nat>, now: nat, o: nat)
    requires forall i {:trigger c[i]} :: 0 <= i < |c| ==> c[i] in nodes
    ensures o in Survivors(nodes, c, now) <==> o in c && !Stale(nodes[o].data, now)
  {
    hide Stale;
    if c != [] {
      SurvivorsExact(nodes, c[..|c| - 1], now, o);
      assert c == c[..|c| - 1] + [c[|c| - 1]];
    }
  }

  lemma {:induction false} SurvivorsLastAlive(nodes: Nodes, c: seq<nat>, now: nat, session: bool)
    requires LastAlive(nodes, c, now, session)
    ensures LastAlive(nodes, Survivors(nodes, c, now), now, session)
  {
    hide Stale, Alive;
    if c != [] {
      var d, x := c[..|c| - 1], c[|c| - 1];
      SurvivorsLastAlive(nodes, d, now, session);
      var r := Survivors(nodes, d, now);
      forall i | 0 <= i < |r| && nodes[r[i]].data.key == nodes[x].data.key
        ensures !Alive(nodes[r[i]].data, now, session)
      {
        SurvivorsExact(nodes, d, now, r[i]);
        var j :| 0 <= j < |d| && d[j] == r[i];
        assert d[j] == c[j];
      }
    }
  }

  /** The entries of a chain that a sweep removes. */
  ghost function Casualties(nodes: Nodes, c: seq<nat>, now: nat): set<nat>
    requires forall i {:trigger c[i]} :: 0 <= i < |c| ==> c[i] in nodes
  {
    if c == [] then {}
    else Casualties(nodes, c[..|c| - 1], now) + (if Stale(nodes[c[|c| - 1]].data, now) then {c[|c| - 1]} else {})
  }

  lemma {:induction false} CasualtiesExact(nodes: Nodes, c: seq<nat>, now: nat, o: nat)
    requires forall i {:trigger c[i]} :: 0 <= i < |c| ==> c[i] in nodes
    ensures o in Casualties(nodes, c, now) <==> o in c && Stale(nodes[o].data, now)
  {
    hide Stale;
    if c != [] {
      CasualtiesExact(nodes, c[..|c| - 1], now, o);
      assert c == c[..|c| - 1] + [c[|c| - 1]];
    }
  }

  /** Bucket chain d and the entries left while the sweep of chain c stands at entry number i. */
  ghost predicate MidSweep(nodes: Nodes, c: seq<nat>, d: seq<nat>, i: nat, now: nat, left: set<nat>) {
    && i <= |c| && (forall k {:trigger c[k]} :: 0 <= k < |c| ==> c[k] > 0 && c[k] in nodes)
    && d == Survivors(nodes, c[..i], now) + c[i..]
    && left == nodes.Keys - Casualties(nodes, c[..i], now)
  }

  lemma SweepStep(nodes: Nodes, c: seq<nat>, d: seq<nat>, i: nat, now: nat, left: set<nat>) returns (p: nat)
    requires MidSweep(nodes, c, d, i, now, left) && i < |c| && Distinct(d)
    ensures p < |d| && d[p] == c[i] && Position(d, c[i]) == p && NextIn(d, p) == NextIn(c, i)
    ensures if Stale(nodes[c[i]].data, now) then MidSweep(nodes, c, Without(d, p), i + 1, now, left - {c[i]})
            else MidSweep(nodes, c, d, i + 1, now, left)
  {
    hide Stale, Distinct;
    var s := Survivors(nodes, c[..i], now);
    p := |s|;
    assert c[..i + 1][..i] == c[..i] && c[i..] == [c[i]] + c[i + 1..];
    OnePosition(d, p);
    if Stale(nodes[c[i]].data, now) {
      assert Without(d, p) == s + c[i + 1..];
    } else {
      assert d == (s + [c[i]]) + c[i + 1..];
    }
  }

  lemma OnePosition(d: seq<nat>, p: nat)
    requires Distinct(d) && p < |d|
    ensures Position(d, d[p]) == p
  {
  }

  /** An entry that is still shown but stale is exactly ttl whole seconds old. */
  lemma HiddenAge(e: Entry, now: nat, session: bool)
    requires Stamped(e, now, session) && Alive(e, now, session) && Stale(e, now)
    ensures Seconds(now, Stamp(e, session)) == e.ttl && e.ttl > 0
  {
    if !session {
      ElapsedOlder(now, e.added, e.used);
    }
  }

  /** Whether zvcache_set gets as far as the scavenger: it stores new data. */
  ghost predicate SetSweeps(code: Code, was: Option<Cell>, value: Zval, session: bool) {
    code == NONFATAL && !(session && was.Some? && was.value.value == value)
  }

  class ZvCache {
    const table: ChainTable<Entry>
    const session: bool
    var lscavenge: nat
    var scstart: nat
    var hitcount: int
    var misscount: int
    // The instant up to which the invariant is known.
    ghost var clock: nat

    ghost function State(): Tab
      reads table, table.heads
    {
      Tab(table.heads[..], table.nodes, table.chains)
    }

    ghost predicate Valid()
      reads this, table, table.heads
    {
      && table.Valid() && Good(State(), table.bucketOf, clock, session)
      && lscavenge <= clock && scstart < table.heads.Length && scstart % PER_RUN_SCAVENGE_COUNT == 0
    }

    /** The header part of zvcache_initialize, for a fresh segment. */
    constructor (session: bool, valuecount: nat, now: nat)
      requires valuecount > 0
      ensures Valid() && clock == now && this.session == session && table.heads.Length == valuecount
      ensures fresh(table) && fresh(table.heads) && table.nodes == map[]
      ensures hitcount == misscount == scstart == 0 && lscavenge == now
    {
      hide IndexOf, TableHolds, Alive, Stamped;
      table := new ChainTable(valuecount, (e: Entry) => IndexOf(e.key, valuecount));
      this.session := session;
      lscavenge, scstart, clock := now, 0, now;
      hitcount, misscount := 0, 0;
    }

    /** The cache may be used at instant now: time has not gone back, and no stamp is 2^32 ms old. */
    ghost predicate Ready(now: nat)
      reads this, table, table.heads
    {
      Valid() && clock <= now && AllStamped(table.nodes, now, session)
    }

    /** What the cache shows for a key at instant now. */
    ghost function Look(key: Path, now: nat): Option<Cell>
      reads table
    {
      Lookup(table.nodes, key, now, session)
    }

    ghost function Entries(): Entries
      reads table
    {
      EntriesOf(table.nodes)
    }

    /** The entries after a call of the scavenger at instant now. */
    ghost function SweptEntries(now: nat): Entries
      reads this, table, table.heads
    {
      AfterSweep(Entries(), table.bucketOf, lscavenge, scstart, table.heads.Length, now)
    }

    ghost function Held(key: Path, now: nat): set<nat>
      reads table
    {
      Holder(table.nodes, key, now, session)
    }

    ghost method Advance(now: nat)
      requires Ready(now)
      modifies this`clock
      ensures Valid() && clock == now
    {
      hide TableHolds, AllStamped, Ordered;
      AdvanceTable(table.nodes, table.chains, clock, now, session);
      clock := now;
    }

    /** find_zvcache_entry: the offset of the entry that shows the key, or 0. */
    method Find(key: Path, index: nat, now: nat) returns (pvalue: nat)
      requires Valid() && now == clock && index == IndexOf(key, table.heads.Length)
      ensures match Shown(table.nodes, key, clock, session)
              case Some(o) => pvalue == o && o > 0
              case None => pvalue == 0
      ensures if pvalue == 0 then Look(key, now) == None && Held(key, now) == {}
              else pvalue in table.nodes && Look(key, now) == Some(CellOf(table.nodes[pvalue].data, session))
                   && Held(key, now) == {pvalue}
    {
      hide IndexOf, Alive, Distinct, Chained, TableHolds, Good, Shown;
      ghost var c, i := table.chains[index], 0;
      GoodTable(State(), table.bucketOf, clock, session);
      ChainOf(table.heads[..], table.nodes, table.chains, table.bucketOf, index);
      pvalue := table.heads[index];
      while pvalue != 0
        invariant i <= |c| && pvalue == NextIn(c, i - 1)
        invariant forall j {:trigger c[j]} :: 0 <= j < i ==> !Shows(table.nodes, c[j], key, clock, session)
        decreases |c| - i
      {
        LinksOf(table.heads[index], table.nodes, c, i);
        var e := table.nodes[pvalue].data;
        if e.key == key && Alive(e, now, session) {
          break;
        }
        pvalue := table.nodes[pvalue].next;
        i := i + 1;
      }
      Found(State(), table.bucketOf, clock, session, key, i, pvalue);
    }

    /** Writes an entry in place; it was shown and stays shown. */
    method Rewrite(off: nat, e: Entry, now: nat)
      requires Valid() && now == clock
      requires off in table.nodes && e.key == table.nodes[off].data.key && Alive(table.nodes[off].data, now, session)
      requires Alive(e, now, session) && Stamped(e, now, session) && Renewed(table.nodes, off, e, now)
      modifies table`nodes
      ensures Valid() && Renews(old(table.nodes), table.nodes, now)
      ensures table.nodes == old(table.nodes)[off := old(table.nodes)[off].(data := e)]
      ensures Entries() == old(Entries())[off := e] && Shown(table.nodes, e.key, now, session) == Some(off)
      ensures forall k {:trigger Look(k, now)} ::
                Look(k, now) == if k == e.key then Some(CellOf(e, session)) else old(Look(k, now))
    {
      hide IndexOf, Alive, Stamped, TableHolds, Good, Shown;
      ghost var t := State();
      GoodTable(t, table.bucketOf, now, session);
      SameBuckets(table.bucketOf, |t.chains|, e, table.nodes[off].data);
      table.SetData(off, e);
      assert Rewritten(t, State(), off, e, now, session);
      RewriteGood(t, State(), table.bucketOf, now, session, off, e);
      RewriteRenews(t.nodes, off, e, now);
      EntriesSet(t.nodes, off, e);
      GoodShown(State(), table.bucketOf, now, session, off, e.key);
      forall k
        ensures Lookup(State().nodes, k, now, session) ==
                if k == e.key then Some(CellOf(e, session)) else Lookup(t.nodes, k, now, session)
      {
        RewriteLookup(t, State(), table.bucketOf, now, session, off, e, k);
      }
    }

    /** remove_zvcache_entry of the entry that shows a key: that key is shown no more. */
    method RemoveShown(index: nat, off: nat, ghost key: Path, now: nat)
      requires Valid() && now == clock && index == IndexOf(key, table.heads.Length)
      requires Shown(table.nodes, key, now, session) == Some(off)
      modifies table, table.heads
      ensures Valid() && table.nodes.Keys == old(table.nodes).Keys - {off} && SameData(old(table.nodes), table.nodes)
      ensures Renews(old(table.nodes), table.nodes, now) && Entries() == old(Entries()) - {off}
      ensures forall k {:trigger Look(k, now)} :: Look(k, now) == if k == key then None else old(Look(k, now))
    {
      hide IndexOf, Alive, Stamped, TableHolds, Good, Shown, SameData;
      ghost var t := State();
      GoodTable(t, table.bucketOf, now, session);
      InItsBucket(t, table.bucketOf, now, session, off);
      ghost var i := Position(table.chains[index], off);
      table.Remove(index, off);
      RemoveGood(t, State(), table.bucketOf, now, session, index, i);
      RenewsLess(t.nodes, table.nodes, now);
      EntriesLess(t.nodes, table.nodes, {off});
      forall k
        ensures Lookup(State().nodes, k, now, session) == if k == key then None else Lookup(t.nodes, k, now, session)
      {
        RemovedLookup(t, State(), table.bucketOf, now, session, off, key, k);
      }
    }

    /** add_zvcache_entry of a new entry for a key that is not shown. */
    method AddEntry(index: nat, off: nat, e: Entry, now: nat)
      requires Valid() && now == clock && index == IndexOf(e.key, table.heads.Length)
      requires off > 0 && off !in table.nodes && e.added == e.used == now
               && Shown(table.nodes, e.key, now, session) == None
      modifies table, table.heads
      ensures Valid() && table.nodes.Keys == old(table.nodes).Keys + {off} && table.nodes[off].data == e
      ensures SameData(old(table.nodes), table.nodes) && Renews(old(table.nodes), table.nodes, now)
      ensures forall k {:trigger Look(k, now)} ::
                Look(k, now) == if k == e.key then Some(Cell(e.value, e.ttl, now)) else old(Look(k, now))
    {
      hide IndexOf, Alive, TableHolds, Good, Shown, SameData;
      ghost var t := State();
      GoodTable(t, table.bucketOf, now, session);
      table.Add(index, off, e);
      AddGood(t, State(), table.bucketOf, now, session, off, e);
      AddRenews(t.nodes, table.nodes, off, now);
      forall k
        ensures Lookup(State().nodes, k, now, session) ==
                if k == e.key then Some(Cell(e.value, e.ttl, now)) else Lookup(t.nodes, k, now, session)
      {
        AddLookup(t, State(), table.bucketOf, now, session, off, k);
      }
    }

    /** State of the walk over bucket sindex: was and c are its entries and chain at the start. */
    ghost predicate Sweeping(sindex: nat, was: Nodes, chains0: seq<seq<nat>>, i: nat, now: nat)
      requires sindex < |chains0|
      reads this, table, table.heads
    {
      && Valid() && now == clock && |table.chains| == |chains0|
      && MidSweep(was, chains0[sindex], table.chains[sindex], i, now, table.nodes.Keys)
      && table.chains == chains0[sindex := table.chains[sindex]] && SameData(was, table.nodes)
    }

    /** One entry of the walk: the link is read before the entry may be freed. */
    method SweepEntry(sindex: nat, ptemp: nat, now: nat, ghost was: Nodes, ghost chains0: seq<seq<nat>>, ghost i: nat)
      returns (pvalue: nat)
      requires sindex < |chains0| && Sweeping(sindex, was, chains0, i, now) && i < |chains0[sindex]|
               && ptemp == chains0[sindex][i]
      modifies table, table.heads
      ensures Sweeping(sindex, was, chains0, i + 1, now) && pvalue == NextIn(chains0[sindex], i)
    {
      hide Alive, Stamped, TableHolds, Good, SameData, Stale, Survivors;
      hide Casualties, Without, Chained, Distinct, Position, NextIn, MidSweep;
      ghost var t, c, d := State(), chains0[sindex], table.chains[sindex];
      MidSweepNodes(was, c, d, i, now, table.nodes.Keys);
      GoodTable(t, table.bucketOf, now, session);
      ChainOf(t.heads, t.nodes, t.chains, table.bucketOf, sindex);
      ChainDistinct(t.heads[sindex], t.nodes, d);
      ghost var p := SweepStep(was, c, d, i, now, table.nodes.Keys);
      LinksOf(t.heads[sindex], t.nodes, d, p);
      pvalue := table.nodes[ptemp].next;
      DataKept(was, table.nodes, ptemp);
      if Stale(table.nodes[ptemp].data, now) {
        table.Remove(sindex, ptemp);
        RemoveGood(t, State(), table.bucketOf, now, session, sindex, p);
        DataTrans(was, t.nodes, table.nodes);
      }
    }

    /** The inner loop of run_zvcache_scavenger: one bucket, removing while walking. */
    method SweepBucket(sindex: nat, now: nat)
      requires Valid() && now == clock && sindex < table.heads.Length
      modifies table, table.heads
      ensures Valid() && SameData(old(table.nodes), table.nodes)
      ensures AllIn(old(table.nodes), old(table.chains)[sindex])
      ensures table.nodes.Keys == old(table.nodes).Keys - Casualties(old(table.nodes), old(table.chains)[sindex], now)
      ensures table.chains == old(table.chains)[sindex := Survivors(old(table.nodes), old(table.chains)[sindex], now)]
    {
      hide Alive, Stamped, TableHolds, Good, SameData, Stale, Survivors, Casualties, NextIn, MidSweep;
      ghost var was, chains0, i := table.nodes, table.chains, 0;
      SweepStart(State(), table.bucketOf, now, session, sindex);
      var pvalue := table.heads[sindex];
      while pvalue != 0
        invariant i <= |chains0[sindex]| && Sweeping(sindex, was, chains0, i, now)
                  && pvalue == NextIn(chains0[sindex], i - 1)
        decreases |chains0[sindex]| - i
      {
        MidSweepNodes(was, chains0[sindex], table.chains[sindex], i, now, table.nodes.Keys);
        WalkEnd(chains0[sindex], i);
        pvalue := SweepEntry(sindex, pvalue, now, was, chains0, i);
        i := i + 1;
      }
      MidSweepNodes(was, chains0[sindex], table.chains[sindex], i, now, table.nodes.Keys);
      WalkEnd(chains0[sindex], i);
      SweepEnd(was, chains0[sindex], table.chains[sindex], now, table.nodes.Keys);
      assert chains0[sindex][..i] == chains0[sindex];
    }

    /** The outer loop of run_zvcache_scavenger: the buckets of one window. */
    method SweepWindow(start: nat, end: nat, now: nat)
      requires Valid() && now == clock && start <= end <= table.heads.Length
      modifies table, table.heads
      ensures Valid() && SameData(old(table.nodes), table.nodes)
      ensures forall o {:trigger o in table.nodes} {:trigger o in old(table.nodes)} ::
                o in table.nodes <==>
                    o in old(table.nodes)
                    && !SweptIn(old(table.nodes), table.bucketOf, start, end, now, o)
    {
      hide Alive, Stamped, TableHolds, Good, Survivors, Casualties, Stale, IndexOf;
      ghost var was, sindex := table.nodes, start;
      var k := start;
      while k < end
        invariant start <= k <= end && Valid() && now == clock && SameData(was, table.nodes)
        invariant forall o {:trigger o in table.nodes} {:trigger o in was} ::
                    o in table.nodes <==> o in was && !SweptIn(was, table.bucketOf, start, k, now, o)
      {
        ghost var t := State();
        SweepBucket(k, now);
        WindowStep(t, was, table.nodes, table.bucketOf, now, session, start, k);
        k := k + 1;
      }
    }

    /** run_zvcache_scavenger. */
    method Scavenge(now: nat) returns (ghost ran: bool)
      requires Valid() && now == clock
      modifies this`lscavenge, this`scstart, table, table.heads
      ensures Valid() && SameData(old(table.nodes), table.nodes)
      ensures ran <==> Elapsed(now, old(lscavenge)) >= 10_000
      ensures !ran ==> lscavenge == old(lscavenge) && scstart == old(scstart) && table.nodes == old(table.nodes)
      ensures ran ==> lscavenge == now && scstart == NextStart(old(scstart), table.heads.Length)
      ensures ran ==> scstart == if old(scstart) + 16 >= table.heads.Length then 0 else old(scstart) + 16
      ensures ran ==> forall o {:trigger o in table.nodes} {:trigger o in old(table.nodes)} ::
                o in table.nodes <==> (o in old(table.nodes)
                  && !SweptIn(old(table.nodes), table.bucketOf, old(scstart), WindowEnd(old(scstart),
                        table.heads.Length), now, o))
      ensures Renews(old(table.nodes), table.nodes, now)
      ensures Entries() == old(SweptEntries(now))
      ensures Swept(true, old(lscavenge), old(scstart), lscavenge, scstart, table.nodes, table.bucketOf,
                table.heads.Length, now)
      ensures forall k {:trigger Look(k, now)} :: Thinned(old(Look(k, now)), Look(k, now), now)
    {
      hide Alive, Stamped, TableHolds, Good, SameData, SweptIn, IndexOf, Lookup, Renews, Clean, EntriesOf, AfterSweep;
      ran := false;
      SameDataSelf(table.nodes);
      RenewsLess(table.nodes, table.nodes, now);
      ghost var last, start := lscavenge, scstart;
      if Elapsed(now, lscavenge) < SCAVENGE_PAUSE {
        SweepLeaves(table.nodes, table.nodes, ran, table.bucketOf, last, start, table.heads.Length, now);
        return;
      }
      ran := true;
      ghost var t := State();
      lscavenge := now;
      var sindex := scstart;
      var eindex := sindex + PER_RUN_SCAVENGE_COUNT;
      scstart := eindex;
      if eindex >= table.heads.Length {
        eindex := table.heads.Length;
        scstart := 0;
      }
      StartBound(sindex, table.heads.Length);
      SweepWindow(sindex, eindex, now);
      SweptClean(t.nodes, table.nodes, table.bucketOf, sindex, eindex, now);
      SweepLeaves(t.nodes, table.nodes, ran, table.bucketOf, last, start, table.heads.Length, now);
      forall k ensures Thinned(Lookup(t.nodes, k, now, session), Lookup(State().nodes, k, now, session), now) {
        ThinnedBySweep(t, State(), table.bucketOf, now, session, sindex, eindex, k);
      }
    }

    /** One full round of effective sweeps, one every ten seconds or more.  Each bucket is swept
        exactly once: entries idle for their ttl when the round starts are gone at its end, and
        entries that are not stale when it ends are still there. */
    method FullRound(times: seq<nat>)
      requires Valid() && |times| == Sweeps(table.heads.Length)
      requires forall k {:trigger times[k]} :: 0 <= k < |times| ==>
                 clock <= times[k] && AllStamped(table.nodes, times[k], session)
      requires Spaced(lscavenge, times)
      modifies this`lscavenge, this`scstart, this`clock, table, table.heads
      ensures Valid() && scstart == old(scstart) && SameData(old(table.nodes), table.nodes)
      ensures forall o {:trigger o in old(table.nodes)} ::
                o in old(table.nodes) && Stale(old(table.nodes)[o].data, times[0]) ==> o !in table.nodes
      ensures forall o {:trigger o in old(table.nodes)} ::
                o in old(table.nodes) && !Stale(old(table.nodes)[o].data, times[|times| - 1]) ==> o in table.nodes
    {
      hide Alive, Stamped, TableHolds, Good, SameData, Stale, IndexOf;
      hide Lookup, Thinned, AllStamped, WithinRange, Elapsed, Indexed, MidRound, SweptIn;
      ghost var was, start, n := table.nodes, scstart, table.heads.Length;
      RoundStart(was, table.bucketOf, n, start, times);
      BucketsBelow(State(), table.bucketOf, clock, session);
      for k := 0 to |times|
        invariant Valid() && scstart == StartAfter(n, start, k)
                  && MidRound(was, table.nodes, table.bucketOf, n, start, k, times)
        invariant k > 0 ==> lscavenge == clock == times[k - 1]
        invariant k == 0 ==> lscavenge == old(lscavenge) && clock == old(clock)
      {
        RoundSweep(was, start, k, times);
      }
      RoundDone(was, table.nodes, table.bucketOf, n, start, times, session);
    }

    /** Sweep number k of a round. */
    method RoundSweep(ghost was: Nodes, ghost start: nat, k: nat, times: seq<nat>)
      requires Valid() && k < |times| && clock <= times[k] && AllStamped(was, times[k], session)
      requires scstart == StartAfter(table.heads.Length, start, k)
               && MidRound(was, table.nodes, table.bucketOf, table.heads.Length, start, k, times)
      requires Elapsed(times[k], lscavenge) >= SCAVENGE_PAUSE
      modifies this`lscavenge, this`scstart, this`clock, table, table.heads
      ensures Valid() && scstart == StartAfter(table.heads.Length, start, k + 1) && lscavenge == clock == times[k]
      ensures MidRound(was, table.nodes, table.bucketOf, table.heads.Length, start, k + 1, times)
    {
      hide Alive, Stamped, TableHolds, Good, SameData, Stale, IndexOf;
      hide Lookup, Thinned, AllStamped, WithinRange, Elapsed, Indexed, MidRound, SweptIn;
      RoundStamped(was, table.nodes, table.bucketOf, table.heads.Length, start, k, times, session);
      Advance(times[k]);
      ghost var t := table.nodes;
      ghost var ran := Scavenge(times[k]);
      RoundStep(was, t, table.nodes, table.bucketOf, table.heads.Length, start, k, times, session);
    }

    /** zvcache_get: the shown value, and a fresh last-use stamp.  copied says whether the process has
        the memory for its copy of the value; when it has not, the entry has been counted and stamped
        all the same. */
    method Get(key: Path, copied: bool, now: nat) returns (code: Code, value: Option<Zval>)
      requires Ready(now)
      modifies this`hitcount, this`misscount, this`clock, table`nodes
      ensures Valid() && clock == now && Renews(old(table.nodes), table.nodes, now)
      ensures Entries() == Hit(old(Entries()), old(Held(key, now)), now)
      ensures forall o {:trigger Entries()[o]} :: o in old(Held(key, now)) ==>
                o in old(Entries()) && o in Entries() && Entries()[o].used == now
                && Entries()[o].hits == old(Entries())[o].hits + 1
      ensures match old(Look(key, now))
              case None => code == WARNING_ZVCACHE_EMISSING && value == None && hitcount == old(hitcount)
                    && misscount == old(misscount) + 1
              case Some(cell) =>
                && hitcount == old(hitcount) + 1 && misscount == old(misscount)
                && if copied then code == NONFATAL && value == Some(cell.value)
                   else code == FATAL_OUT_OF_LMEMORY && value == None
      ensures forall k {:trigger Look(k, now)} ::
                Look(k, now) == if k == key then Restamped(old(Look(k, now)), now, session) else old(Look(k, now))
    {
      hide IndexOf, Alive, Stamped, TableHolds, Good, Shown, Renews, EntriesOf, Look, Held, Hit;
      Advance(now);
      RenewsLess(table.nodes, table.nodes, now);
      UseNone(Entries(), now);
      var index := GetIndex(key, table.heads.Length);
      var pentry := Find(key, index, now);
      if pentry == 0 {
        misscount := misscount + 1;
        return WARNING_ZVCACHE_EMISSING, None;
      }
      var e := table.nodes[pentry].data;
      hitcount := hitcount + 1;
      HitOne(Entries(), pentry, now);
      UsedNow(State(), table.bucketOf, now, session, pentry, key, 1);
      Rewrite(pentry, e.(used := now, hits := e.hits + 1), now);
      if !copied {
        return FATAL_OUT_OF_LMEMORY, None;
      }
      return NONFATAL, Some(e.value);
    }

    /** zvcache_exists: looks without touching. */
    method Exists(key: Path, now: nat) returns (exists_: bool)
      requires Ready(now)
      modifies this`clock
      ensures Valid() && clock == now && exists_ == Look(key, now).Some?
    {
      hide IndexOf, Alive, TableHolds, Good, Shown;
      Advance(now);
      var index := GetIndex(key, table.heads.Length);
      var pentry := Find(key, index, now);
      exists_ := pentry != 0;
    }

    /** The part of zvcache_set after the new data was created: scavenge, look again, replace.  The second
        test for an add never fires: a sweep brings nothing back. */
    method Install(key: Path, index: nat, pnewval: nat, value: Zval, ttl: nat, isadd: bool, now: nat)
      returns (code: Code)
      requires isadd ==> Look(key, now) == None
      requires Valid() && now == clock && index == IndexOf(key, table.heads.Length)
      requires pnewval > 0 && pnewval !in table.nodes
      modifies this`lscavenge, this`scstart, table, table.heads
      ensures code == NONFATAL
      ensures Renews(old(table.nodes), table.nodes, now)
      ensures Swept(true, old(lscavenge), old(scstart), lscavenge, scstart, table.nodes, table.bucketOf,
                table.heads.Length, now)
      ensures Valid() && Look(key, now) == Some(Cell(value, ttl, now))
      ensures Entries() ==
                (old(SweptEntries(now)) - old(Held(key, now)))[pnewval := Entry(key, value, ttl, now, now, 0)]
      ensures forall k {:trigger Look(k, now)} :: k != key ==> Thinned(old(Look(k, now)), Look(k, now), now)
    {
      hide IndexOf, Alive, Stamped, TableHolds, Good, Shown, SameData, Stale, Renews, Swept, Indexed;
      hide EntriesOf, AfterSweep;
      ghost var m0, t := table.nodes, State();
      ghost var ran := Scavenge(now);
      ghost var m1 := table.nodes;
      SweepKeys(m0, m1, table.bucketOf, old(lscavenge), old(scstart), table.heads.Length, now);
      HolderLess(t, table.bucketOf, m1, key, now, session);
      LessHeld(Entries(), old(Held(key, now)));
      assert pnewval !in table.nodes;
      var pentry := Find(key, index, now);
      if isadd {
        assert Look(key, now) == None;
        NotShown(State().nodes, key, now, session);
      }
      code := if pentry != 0 && isadd then WARNING_ZVCACHE_EXISTS else NONFATAL;
      if code != NONFATAL {
        return;
      }
      Replace(key, index, pentry, pnewval, value, ttl, now);
      RenewsTrans(m0, m1, table.nodes, now);
      GoodTable(State(), table.bucketOf, now, session);
      SweptKept(true, old(lscavenge), old(scstart), lscavenge, scstart, m1, table.nodes, table.bucketOf,
                table.heads.Length, now);
    }

    /** The entry found, if any, goes, and the new one comes to the end of its bucket. */
    method Replace(key: Path, index: nat, pentry: nat, pnewval: nat, value: Zval, ttl: nat, now: nat)
      requires Valid() && now == clock && index == IndexOf(key, table.heads.Length)
      requires pnewval > 0 && pnewval !in table.nodes
      requires Shown(table.nodes, key, now, session) == if pentry == 0 then None else Some(pentry)
      modifies table, table.heads
      ensures Valid() && Renews(old(table.nodes), table.nodes, now)
      ensures Entries() == (old(Entries()) - old(Held(key, now)))[pnewval := Entry(key, value, ttl, now, now, 0)]
      ensures forall k {:trigger Look(k, now)} ::
                Look(k, now) == if k == key then Some(Cell(value, ttl, now)) else old(Look(k, now))
    {
      hide IndexOf, Alive, Stamped, TableHolds, Good, Shown, SameData, Renews, EntriesOf;
      ghost var m := table.nodes;
      RenewsLess(m, m, now);
      SameDataSelf(m);
      if pentry != 0 {
        RemoveShown(index, pentry, key, now);
      }
      ghost var left := table.nodes;
      EntriesLess(m, left, Holder(m, key, now, session));
      assert Look(key, now) == None;
      NotShown(State().nodes, key, now, session);
      AddEntry(index, pnewval, Entry(key, value, ttl, now, now, 0), now);
      EntriesMore(left, table.nodes, pnewval);
      RenewsTrans(m, left, table.nodes, now);
    }

    /** The last use of the entry found by zvcache_set, if any, is now. */
    method Touch(pentry: nat, key: Path, now: nat)
      requires Valid() && now == clock
      requires Shown(table.nodes, key, now, session) == if pentry == 0 then None else Some(pentry)
      modifies table`nodes
      ensures Valid() && Renews(old(table.nodes), table.nodes, now) && table.nodes.Keys == old(table.nodes).Keys
      ensures Entries() == Used(old(Entries()), old(Held(key, now)), now) && Held(key, now) == old(Held(key, now))
      ensures pentry != 0 ==>
                pentry in table.nodes && table.nodes[pentry].data.value == old(table.nodes[pentry].data.value)
      ensures forall k {:trigger Look(k, now)} ::
                Look(k, now) == if k == key then Restamped(old(Look(k, now)), now, session) else old(Look(k, now))
    {
      hide IndexOf, Alive, Stamped, TableHolds, Good, Shown, EntriesOf, Used, SameData, Renews, Renewed;
      RenewsLess(table.nodes, table.nodes, now);
      SameDataSelf(table.nodes);
      UseNone(Entries(), now);
      if pentry != 0 {
        var e := table.nodes[pentry].data;
        UsedNow(State(), table.bucketOf, now, session, pentry, key, 0);
        UsedRenewed(table.nodes, pentry, e.(used := now), now);
        UseOne(Entries(), pentry, now);
        Rewrite(pentry, e.(used := now), now);
      }
    }

    /** The part of zvcache_set after the first lookup: the new data is created and installed, if the key is short
        enough and there is memory for it. */
    method Store(key: Path, index: nat, value: Zval, ttl: nat, isadd: bool, room: Option<nat>, now: nat)
      returns (code: Code)
      requires Valid() && now == clock && index == IndexOf(key, table.heads.Length)
      requires isadd ==> Look(key, now) == None
      requires room.Some? ==> room.value > 0 && room.value !in table.nodes
      modifies this`lscavenge, this`scstart, table, table.heads
      ensures Valid() && Renews(old(table.nodes), table.nodes, now)
      ensures code == if |key| + 1 > MAX_ZVKEY_LENGTH then FATAL_ZVCACHE_INVALID_KEY_LENGTH
                      else if room.None? then FATAL_OUT_OF_SMEMORY else NONFATAL
      ensures code == FATAL_ZVCACHE_INVALID_KEY_LENGTH <==> |key| >= 65_535
      ensures Swept(code == NONFATAL, old(lscavenge), old(scstart), lscavenge, scstart, table.nodes, table.bucketOf,
                table.heads.Length, now)
      ensures code != NONFATAL ==> Entries() == old(Entries()) && Look(key, now) == old(Look(key, now))
      ensures code == NONFATAL ==>
                && Look(key, now) == Some(Cell(value, ttl, now))
                && Entries() == (old(SweptEntries(now)) - old(Held(key, now)))[room.value :=
                                   Entry(key, value, ttl, now, now, 0)]
      ensures forall k {:trigger Look(k, now)} :: k != key ==>
                Look(k, now) == old(Look(k, now)) || (code == NONFATAL && Thinned(old(Look(k, now)), Look(k, now), now))
    {
      hide IndexOf, Alive, Stamped, TableHolds, Good, Shown, EntriesOf, AfterSweep;
      hide SameData, Thinned, Renews, Renewed, Clean, Indexed, Elapsed;
      RenewsLess(table.nodes, table.nodes, now);
      SameDataSelf(table.nodes);
      if |key| + 1 > MAX_ZVKEY_LENGTH {
        return FATAL_ZVCACHE_INVALID_KEY_LENGTH;
      }
      if room.None? {
        return FATAL_OUT_OF_SMEMORY;
      }
      code := Install(key, index, room.value, value, ttl, isadd, now);
    }

    /** zvcache_set and, with isadd, its add form.  room is the offset the allocator gives to
        the new entry, or None when creating it runs out of memory. */
    method Set(key: Path, value: Zval, ttl: nat, isadd: bool, room: Option<nat>, now: nat) returns (code: Code)
      requires Ready(now) && (session ==> value.Str?)
      requires room.Some? ==> room.value > 0 && room.value !in table.nodes
      modifies this`lscavenge, this`scstart, this`clock, table, table.heads
      ensures Valid() && clock == now && Renews(old(table.nodes), table.nodes, now)
      ensures Swept(SetSweeps(code, old(Look(key, now)), value, session), old(lscavenge), old(scstart), lscavenge,
                scstart, table.nodes, table.bucketOf, table.heads.Length, now)
      ensures var was := old(Look(key, now));
        if isadd && was.Some? then
          code == WARNING_ZVCACHE_EXISTS && table.nodes == old(table.nodes)
        else if session && was.Some? && was.value.value == value then
          code == NONFATAL && Look(key, now) == Some(was.value.(stamp := now))
        else if |key| + 1 > MAX_ZVKEY_LENGTH || room.None? then
          && code == (if |key| + 1 > MAX_ZVKEY_LENGTH then FATAL_ZVCACHE_INVALID_KEY_LENGTH else FATAL_OUT_OF_SMEMORY)
          && Look(key, now) == Restamped(was, now, session)
        else
          code == NONFATAL && Look(key, now) == Some(Cell(value, ttl, now))
      ensures code != WARNING_ZVCACHE_EXISTS ==>
        if SetSweeps(code, old(Look(key, now)), value, session) then
          room.Some? && Entries() ==
            (AfterSweep(Used(old(Entries()), old(Held(key, now)), now), table.bucketOf, old(lscavenge), old(scstart),
               table.heads.Length, now) - old(Held(key, now)))[room.value := Entry(key, value, ttl, now, now, 0)]
        else Entries() == Used(old(Entries()), old(Held(key, now)), now)
      ensures forall k {:trigger Look(k, now)} :: k != key ==>
                Look(k, now) == old(Look(k, now)) || (code == NONFATAL && Thinned(old(Look(k, now)), Look(k, now), now))
    {
      hide IndexOf, Alive, Stamped, TableHolds, Good, Shown, EntriesOf, AfterSweep, Used;
      hide SameData, Thinned, Renews, Renewed, Clean, Indexed, Elapsed, Look, Held;
      Advance(now);
      ghost var m0 := table.nodes;
      RenewsLess(m0, m0, now);
      var index := GetIndex(key, table.heads.Length);
      var pentry := Find(key, index, now);
      if pentry != 0 && isadd {
        return WARNING_ZVCACHE_EXISTS;
      }
      Touch(pentry, key, now);
      if pentry != 0 && session && table.nodes[pentry].data.value == value {
        return NONFATAL;
      }
      ghost var m1 := table.nodes;
      code := Store(key, index, value, ttl, isadd, room, now);
      RenewsTrans(m0, m1, table.nodes, now);
    }

    /** zvcache_delete. */
    method Delete(key: Path, now: nat) returns (code: Code)
      requires Ready(now)
      modifies this`lscavenge, this`scstart, this`clock, table, table.heads
      ensures Renews(old(table.nodes), table.nodes, now)
      ensures Swept(true, old(lscavenge), old(scstart), lscavenge, scstart, table.nodes, table.bucketOf,
                table.heads.Length, now)
      ensures Valid() && clock == now && Look(key, now) == None
      ensures Entries() == old(SweptEntries(now)) - old(Held(key, now))
      ensures code == NONFATAL <==> old(Held(key, now)) * old(SweptEntries(now)).Keys != {}
      ensures code == NONFATAL ==> old(Look(key, now)).Some?
      ensures code != NONFATAL ==> code == WARNING_ZVCACHE_EMISSING && Thinned(old(Look(key, now)), None, now)
      ensures forall k {:trigger Look(k, now)} :: k != key ==> Thinned(old(Look(k, now)), Look(k, now), now)
    {
      hide IndexOf, Alive, Stamped, TableHolds, Good, Shown, SameData, Renews, Swept, Indexed;
      hide EntriesOf, AfterSweep, Look, Held;
      ghost var m0 := table.nodes;
      var pentry;
      code, pentry := FindAfterScavenge(key, now);
      if code != NONFATAL {
        return;
      }
      var index := GetIndex(key, table.heads.Length);
      ghost var m1 := table.nodes;
      RemoveShown(index, pentry, key, now);
      SweptOn(m0, m1, old(lscavenge), old(scstart), now);
    }

    /** zvcache_change: adds delta to a long value in place. */
    method Change(key: Path, delta: int, now: nat) returns (code: Code, newvalue: int)
      requires Ready(now)
      modifies this`lscavenge, this`scstart, this`clock, table, table.heads
      ensures Renews(old(table.nodes), table.nodes, now)
      ensures Swept(true, old(lscavenge), old(scstart), lscavenge, scstart, table.nodes, table.bucketOf,
                table.heads.Length, now)
      ensures Valid() && clock == now
      ensures match code
              case NONFATAL =>
                && old(Look(key, now)).Some? && old(Look(key, now)).value.value.Long?
                && newvalue == Wrap64(old(Look(key, now)).value.value.n + delta)
                && Look(key, now) == Some(old(Look(key, now)).value.(value := Long(newvalue)))
              case WARNING_ZVCACHE_NOTLONG =>
                newvalue == 0 && old(Look(key, now)).Some? && !old(Look(key, now)).value.value.Long?
                      && Look(key, now) == old(Look(key, now))
              case WARNING_ZVCACHE_EMISSING =>
                newvalue == 0 && Look(key, now) == None && Thinned(old(Look(key, now)), None, now)
              case _ => false
      ensures Entries() == if code == NONFATAL then Valued(old(SweptEntries(now)), old(Held(key, now)), Long(newvalue))
                           else old(SweptEntries(now))
      ensures code == WARNING_ZVCACHE_EMISSING <==> old(Held(key, now)) * old(SweptEntries(now)).Keys == {}
      ensures forall k {:trigger Look(k, now)} :: k != key ==> Thinned(old(Look(k, now)), Look(k, now), now)
    {
      hide IndexOf, Alive, Stamped, TableHolds, Good, Shown, SameData, Stale, Renews, Renewed, Swept, Indexed;
      hide EntriesOf, AfterSweep, Valued;
      ghost var m0 := table.nodes;
      newvalue := 0;
      var pvalue;
      code, pvalue := FindAfterScavenge(key, now);
      if code != NONFATAL {
        return;
      }
      var e := table.nodes[pvalue].data;
      if !e.value.Long? {
        code := WARNING_ZVCACHE_NOTLONG;
        return;
      }
      newvalue := Wrap64(e.value.n + delta);
      SameAge(State(), table.bucketOf, now, session, pvalue, key, Long(newvalue));
      ghost var m1 := table.nodes;
      ValueHeld(Entries(), old(Held(key, now)), pvalue, Long(newvalue));
      UsedRenewed(m1, pvalue, e.(value := Long(newvalue)), now);
      Rewrite(pvalue, e.(value := Long(newvalue)), now);
      SweptOn(m0, m1, old(lscavenge), old(scstart), now);
    }

    /** zvcache_compswitch: replaces a long value if it has the expected old value. */
    method Compswitch(key: Path, oldvalue: int, newvalue: int, now: nat) returns (code: Code)
      requires Ready(now)
      modifies this`lscavenge, this`scstart, this`clock, table, table.heads
      ensures Renews(old(table.nodes), table.nodes, now)
      ensures Swept(true, old(lscavenge), old(scstart), lscavenge, scstart, table.nodes, table.bucketOf,
                table.heads.Length, now)
      ensures Valid() && clock == now
      ensures match code
              case NONFATAL =>
                && old(Look(key, now)).Some? && old(Look(key, now)).value.value == Long(oldvalue)
                && Look(key, now) == Some(old(Look(key, now)).value.(value := Long(newvalue)))
              case WARNING_ZVCACHE_CASNEQ =>
                && old(Look(key, now)).Some? && old(Look(key, now)).value.value.Long?
                && old(Look(key, now)).value.value.n != oldvalue
                && Look(key, now) == old(Look(key, now))
              case WARNING_ZVCACHE_NOTLONG =>
                old(Look(key, now)).Some? && !old(Look(key, now)).value.value.Long?
                      && Look(key, now) == old(Look(key, now))
              case WARNING_ZVCACHE_EMISSING =>
                Look(key, now) == None && Thinned(old(Look(key, now)), None, now)
              case _ => false
      ensures Entries() == if code == NONFATAL then Valued(old(SweptEntries(now)), old(Held(key, now)), Long(newvalue))
                           else old(SweptEntries(now))
      ensures code == WARNING_ZVCACHE_EMISSING <==> old(Held(key, now)) * old(SweptEntries(now)).Keys == {}
      ensures forall k {:trigger Look(k, now)} :: k != key ==> Thinned(old(Look(k, now)), Look(k, now), now)
    {
      hide IndexOf, Alive, Stamped, TableHolds, Good, Shown, SameData, Stale, Renews, Renewed, Swept, Indexed;
      hide EntriesOf, AfterSweep, Valued;
      ghost var m0 := table.nodes;
      var pentry;
      code, pentry := FindAfterScavenge(key, now);
      if code != NONFATAL {
        return;
      }
      var e := table.nodes[pentry].data;
      if !e.value.Long? {
        return WARNING_ZVCACHE_NOTLONG;
      }
      if e.value.n != oldvalue {
        return WARNING_ZVCACHE_CASNEQ;
      }
      SameAge(State(), table.bucketOf, now, session, pentry, key, Long(newvalue));
      ghost var m1 := table.nodes;
      ValueHeld(Entries(), old(Held(key, now)), pentry, Long(newvalue));
      UsedRenewed(m1, pentry, e.(value := Long(newvalue)), now);
      Rewrite(pentry, e.(value := Long(newvalue)), now);
      SweptOn(m0, m1, old(lscavenge), old(scstart), now);
    }

    /** zvcache_clear. */
    method Clear(now: nat)
      requires Ready(now)
      modifies this`clock, table, table.heads
      ensures Valid() && clock == now && table.nodes == map[] && table.itemcount == 0
    {
      hide IndexOf, Alive, Stamped, TableHolds, Good, SameData;
      Advance(now);
      for index := 0 to table.heads.Length
        invariant Valid() && clock == now && |table.chains| == table.heads.Length
        invariant forall b {:trigger table.chains[b]} :: 0 <= b < index ==> table.chains[b] == []
      {
        ClearBucket(index, now);
      }
      AllEmpty(State(), table.bucketOf, now, session);
    }

    method ClearBucket(index: nat, now: nat)
      requires Valid() && clock == now && index < table.heads.Length
      modifies table, table.heads
      ensures Valid() && table.chains == old(table.chains)[index := []]
    {
      hide IndexOf, Alive, Stamped, TableHolds, Good, SameData, Distinct, Without, Position, Chained, NextIn;
      ghost var chains0, i := table.chains, 0;
      HeadOf(State(), table.bucketOf, now, session, index);
      var pvalue := table.heads[index];
      while pvalue != 0
        invariant Valid() && i <= |chains0[index]| && table.chains == chains0[index := chains0[index][i..]]
        invariant pvalue == NextIn(chains0[index], i - 1)
        decreases |chains0[index]| - i
      {
        ghost var t, c := State(), chains0[index];
        HeadOf(t, table.bucketOf, now, session, index);
        NextDrop(c, i);
        LinksOf(t.heads[index], t.nodes, c[i..], 0);
        ChainDistinct(t.heads[index], t.nodes, c[i..]);
        OnePosition(c[i..], 0);
        FirstDropped(c, i);
        var ptemp := table.nodes[pvalue].next;
        table.Remove(index, pvalue);
        RemoveGood(t, State(), table.bucketOf, now, session, index, 0);
        pvalue := ptemp;
        i := i + 1;
      }
      HeadOf(State(), table.bucketOf, now, session, index);
      NextDrop(chains0[index], i);
    }

    /** After the scavenger a call goes on with m1; what it leaves is still swept. */
    lemma SweptOn(m0: Nodes, m1: Nodes, last: nat, start: nat, now: nat)
      requires Valid() && clock == now && Renews(m0, m1, now) && Renews(m1, table.nodes, now)
      requires Swept(true, last, start, lscavenge, scstart, m1, table.bucketOf, table.heads.Length, now)
      ensures Renews(m0, table.nodes, now)
      ensures Swept(true, last, start, lscavenge, scstart, table.nodes, table.bucketOf, table.heads.Length, now)
    {
      hide TableHolds, Good, Renews, Swept, Indexed;
      RenewsTrans(m0, m1, table.nodes, now);
      GoodTable(State(), table.bucketOf, now, session);
      SweptKept(true, last, start, lscavenge, scstart, m1, table.nodes, table.bucketOf, table.heads.Length, now);
    }

    /** The common start of delete, change and compswitch. */
    method FindAfterScavenge(key: Path, now: nat) returns (code: Code, pvalue: nat)
      requires Ready(now)
      modifies this`lscavenge, this`scstart, this`clock, table, table.heads
      ensures Valid() && clock == now && Renews(old(table.nodes), table.nodes, now)
      ensures Swept(true, old(lscavenge), old(scstart), lscavenge, scstart, table.nodes, table.bucketOf,
                table.heads.Length, now)
      ensures Entries() == old(SweptEntries(now))
      ensures old(Held(key, now)) * old(SweptEntries(now)).Keys == if code == NONFATAL then {pvalue} else {}
      ensures code == NONFATAL <==> old(Held(key, now)) * old(SweptEntries(now)).Keys != {}
      ensures old(SweptEntries(now)) - old(Held(key, now)) ==
                if code == NONFATAL then Entries() - {pvalue} else Entries()
      ensures code == NONFATAL ==>
                && Shown(table.nodes, key, now, session) == Some(pvalue) && pvalue in table.nodes
                && Look(key, now) == old(Look(key, now)) == Some(CellOf(table.nodes[pvalue].data, session))
      ensures code != NONFATAL ==>
                code == WARNING_ZVCACHE_EMISSING && Look(key, now) == None && Thinned(old(Look(key, now)), None, now)
      ensures forall k {:trigger Look(k, now)} :: k != key ==> Thinned(old(Look(k, now)), Look(k, now), now)
    {
      hide IndexOf, Alive, Stamped, TableHolds, Good, Shown, SameData, Renews, Swept, EntriesOf, AfterSweep;
      Advance(now);
      var index := GetIndex(key, table.heads.Length);
      ghost var t := State();
      ghost var ran := Scavenge(now);
      SweepKeys(t.nodes, table.nodes, table.bucketOf, old(lscavenge), old(scstart), table.heads.Length, now);
      HolderLess(t, table.bucketOf, table.nodes, key, now, session);
      pvalue := Find(key, index, now);
      HeldFound(table.nodes, old(Held(key, now)), pvalue != 0, pvalue);
      code := if pvalue == 0 then WARNING_ZVCACHE_EMISSING else NONFATAL;
    }
  }

  // ----- Schedules of sweeps -----

  /** The number of windows that cover all buckets. */
  function Sweeps(buckets: nat): nat {
    (buckets + PER_RUN_SCAVENGE_COUNT - 1) / PER_RUN_SCAVENGE_COUNT
  }

  /** scstart after k effective sweeps. */
  function StartAfter(buckets: nat, start: nat, k: nat): nat {
    if k == 0 then start else NextStart(StartAfter(buckets, start, k - 1), buckets)
  }

  /** Starts advance window by window and wrap around. */
  lemma {:induction false} StartIs(buckets: nat, start: nat, k: nat)
    requires start < buckets && start % PER_RUN_SCAVENGE_COUNT == 0 && k <= Sweeps(buckets)
    ensures var m, w := Sweeps(buckets), start / PER_RUN_SCAVENGE_COUNT + k;
            StartAfter(buckets, start, k) == PER_RUN_SCAVENGE_COUNT * (if w < m then w else w - m)
  {
    if k > 0 {
      StartIs(buckets, start, k - 1);
    }
  }

  /** Bucket b is in the window of sweep number k. */
  ghost predicate Visits(buckets: nat, start: nat, k: nat, b: nat) {
    var s := StartAfter(buckets, start, k);
    s <= b < WindowEnd(s, buckets)
  }

  /** Of one full round of sweeps, from any reachable start, exactly one visits bucket b. */
  lemma VisitedOnce(buckets: nat, start: nat, b: nat) returns (k: nat)
    requires start < buckets && start % PER_RUN_SCAVENGE_COUNT == 0 && b < buckets
    ensures k < Sweeps(buckets) && Visits(buckets, start, k, b)
    ensures forall j: nat {:trigger Visits(buckets, start, j, b)} :: j < Sweeps(buckets) && j != k ==>
              !Visits(buckets, start, j, b)
    ensures StartAfter(buckets, start, Sweeps(buckets)) == start
  {
    var m, w, v := Sweeps(buckets), start / PER_RUN_SCAVENGE_COUNT, b / PER_RUN_SCAVENGE_COUNT;
    k := if v >= w then v - w else v + m - w;
    StartIs(buckets, start, k);
    StartIs(buckets, start, m);
    forall j: nat | j < m && j != k ensures !Visits(buckets, start, j, b) {
      StartIs(buckets, start, j);
    }
  }

  /** Effective sweep times: each at least the pause after the one before. */
  ghost predicate Spaced(last: nat, times: seq<nat>) {
    && (forall k {:trigger times[k]} :: 0 <= k < |times| ==>
          Elapsed(times[k], if k == 0 then last else times[k - 1]) >= SCAVENGE_PAUSE)
    && (forall j, k {:trigger times[j], times[k]} :: 0 <= j < k < |times| ==> times[j] <= times[k])
  }

  /** One of the first k sweeps visited the bucket of o when o was stale. */
  ghost predicate SweptBy(nodes: Nodes, bucketOf: Entry -> nat, buckets: nat, start: nat, k: nat, times: seq<nat>,
                          o: nat)
  {
    o in nodes && exists j: nat {:trigger Visits(buckets, start, j, bucketOf(nodes[o].data))} ::
      j < k && j < |times| && Visits(buckets, start, j, bucketOf(nodes[o].data)) && Stale(nodes[o].data, times[j])
  }

  /** o was stale at one of the first k sweeps. */
  ghost predicate LostBy(nodes: Nodes, k: nat, times: seq<nat>, o: nat) {
    o in nodes && exists j {:trigger times[j]} :: 0 <= j < k && j < |times| && Stale(nodes[o].data, times[j])
  }

  lemma BucketsBelow(t: Tab, bucketOf: Entry -> nat, now: nat, session: bool)
    requires Good(t, bucketOf, now, session)
    ensures forall o {:trigger o in t.nodes} :: o in t.nodes ==> bucketOf(t.nodes[o].data) < |t.chains|
  {
    hide IndexOf, Ordered, AllStamped, Chained;
  }

  lemma StampedKept(m: Nodes, n: Nodes, now: nat, session: bool)
    requires SameData(m, n) && n.Keys <= m.Keys && AllStamped(m, now, session)
    ensures AllStamped(n, now, session)
  {
    hide Stamped;
    forall o | o in n ensures Stamped(n[o].data, now, session) {
      assert o in m;
    }
  }

  /** What k sweeps of a round have left of the entries was. */
  ghost predicate MidRound(was: Nodes, n: Nodes, bucketOf: Entry -> nat, buckets: nat, start: nat, k: nat,
                           times: seq<nat>)
  {
    && SameData(was, n)
    && (forall o {:trigger o in n} :: o in n ==> o in was && !SweptBy(was, bucketOf, buckets, start, k, times, o))
    && (forall o {:trigger o in was} :: o in was && o !in n ==> LostBy(was, k, times, o))
  }

  lemma RoundStart(was: Nodes, bucketOf: Entry -> nat, buckets: nat, start: nat, times: seq<nat>)
    ensures MidRound(was, was, bucketOf, buckets, start, 0, times)
  {
  }

  lemma RoundStamped(was: Nodes, n: Nodes, bucketOf: Entry -> nat, buckets: nat, start: nat, k: nat, times: seq<nat>,
                     session: bool)
    requires MidRound(was, n, bucketOf, buckets, start, k, times) && k < |times| && AllStamped(was, times[k], session)
    ensures AllStamped(n, times[k], session)
  {
    hide SweptBy, LostBy, AllStamped, SameData;
    StampedKept(was, n, times[k], session);
  }

  lemma RoundStep(was: Nodes, t: Nodes, n: Nodes, bucketOf: Entry -> nat, buckets: nat, start: nat, k: nat,
                  times: seq<nat>, session: bool)
    requires k < |times| && MidRound(was, t, bucketOf, buckets, start, k, times) && SameData(t, n)
    requires var s := StartAfter(buckets, start, k);
             forall o {:trigger o in n} {:trigger o in t} ::
               o in n <==> o in t && !SweptIn(t, bucketOf, s, WindowEnd(s, buckets), times[k], o)
    ensures MidRound(was, n, bucketOf, buckets, start, k + 1, times)
  {
    hide Stale, StartAfter, WindowEnd;
    forall o | o in n ensures o in was && !SweptBy(was, bucketOf, buckets, start, k + 1, times, o) {
      assert o in t;
      assert !SweptBy(was, bucketOf, buckets, start, k, times, o);
    }
    forall o | o in was && o !in n ensures LostBy(was, k + 1, times, o) {
      if o !in t {
        assert LostBy(was, k, times, o);
      } else {
        assert Stale(was[o].data, times[k]);
      }
    }
    forall o | o in was && o in n ensures was[o].data == n[o].data {
      assert o in t;
    }
  }

  /** Once stale, an unused entry is stale at every later sweep. */
  lemma StaysStale(e: Entry, t1: nat, t2: nat, session: bool)
    requires t1 <= t2 && Stamped(e, t1, session) && Stamped(e, t2, session) && Stale(e, t1)
    ensures Stale(e, t2)
  {
    ElapsedGrows(e.used, t1, t2);
  }

  lemma RoundDone(was: Nodes, n: Nodes, bucketOf: Entry -> nat, buckets: nat, start: nat, times: seq<nat>,
                  session: bool)
    requires |times| == Sweeps(buckets) && start < buckets && start % PER_RUN_SCAVENGE_COUNT == 0
    requires forall j, k {:trigger times[j], times[k]} :: 0 <= j < k < |times| ==> times[j] <= times[k]
    requires forall k {:trigger times[k]} :: 0 <= k < |times| ==> AllStamped(was, times[k], session)
    requires forall o {:trigger o in was} :: o in was ==> bucketOf(was[o].data) < buckets
    requires MidRound(was, n, bucketOf, buckets, start, |times|, times)
    ensures SameData(was, n)
    ensures |times| > 0 && StartAfter(buckets, start, |times|) == start
    ensures forall o {:trigger o in was} :: o in was && Stale(was[o].data, times[0]) ==> o !in n
    ensures forall o {:trigger o in was} :: o in was && !Stale(was[o].data, times[|times| - 1]) ==> o in n
  {
    hide Stale, StartAfter, WindowEnd, Stamped;
    var k0 := VisitedOnce(buckets, start, 0);
    forall o | o in was && Stale(was[o].data, times[0]) ensures o !in n {
      var k := VisitedOnce(buckets, start, bucketOf(was[o].data));
      assert AllStamped(was, times[0], session) && AllStamped(was, times[k], session);
      StaysStale(was[o].data, times[0], times[k], session);
      assert SweptBy(was, bucketOf, buckets, start, |times|, times, o);
    }
    forall o | o in was && !Stale(was[o].data, times[|times| - 1]) ensures o in n {
      if o !in n {
        assert LostBy(was, |times|, times, o);
        var j :| 0 <= j < |times| && Stale(was[o].data, times[j]);
        assert AllStamped(was, times[j], session) && AllStamped(was, times[|times| - 1], session);
        StaysStale(was[o].data, times[j], times[|times| - 1], session);
      }
    }
  }

  lemma HeadOf(t: Tab, bucketOf: Entry -> nat, now: nat, session: bool, b: nat)
    requires Good(t, bucketOf, now, session) && b < |t.chains|
    ensures |t.heads| == |t.chains| && Chained(t.heads[b], t.nodes, t.chains[b])
            && t.heads[b] == NextIn(t.chains[b], -1)
    ensures forall i {:trigger t.chains[b][i]} :: 0 <= i < |t.chains[b]| ==> t.chains[b][i] > 0
  {
    hide IndexOf, InBuckets, Ordered, AllStamped, Distinct;
    ChainOf(t.heads, t.nodes, t.chains, bucketOf, b);
  }

  lemma NextDrop(c: seq<nat>, i: nat)
    requires i <= |c|
    ensures NextIn(c, i - 1) == NextIn(c[i..], -1)
    ensures i < |c| ==>
              c[i..] != [] && c[i..][0] == c[i] && NextIn(c, i - 1) == c[i] && NextIn(c[i..], 0) == NextIn(c, i)
    ensures i == |c| ==> c[i..] == [] && NextIn(c, i - 1) == 0
  {
  }

  lemma FirstDropped(c: seq<nat>, i: nat)
    requires i < |c|
    ensures Without(c[i..], 0) == c[i + 1..]
  {
  }

  lemma AllEmpty(t: Tab, bucketOf: Entry -> nat, now: nat, session: bool)
    requires Good(t, bucketOf, now, session) && forall b {:trigger t.chains[b]} :: 0 <= b < |t.chains| ==>
               t.chains[b] == []
    ensures t.nodes == map[]
  {
    hide Ordered, AllStamped, Indexed, Chained;
  }

  /** A cell after its entry was used: session stamps move, user stamps stay. */
  function Restamped(a: Option<Cell>, now: nat, session: bool): Option<Cell> {
    match a
    case Some(cell) => if session then Some(cell.(stamp := now)) else a
    case None => None
  }

  /** Two's complement wrap-around of a 64-bit zend_long. */
  function Wrap64(n: int): (r: int)
    ensures -0x8000_0000_0000_0000 <= r < 0x8000_0000_0000_0000
    ensures (r - n) % 0x1_0000_0000_0000_0000 == 0
  {
    (n + 0x8000_0000_0000_0000) % 0x1_0000_0000_0000_0000 - 0x8000_0000_0000_0000
  }

  /** Using a shown entry keeps it shown and stamped. */
  lemma UsedNow(t: Tab, bucketOf: Entry -> nat, now: nat, session: bool, o: nat, key: Path, hit: nat)
    requires Good(t, bucketOf, now, session) && Shown(t.nodes, key, now, session) == Some(o)
    ensures o in t.nodes && t.nodes[o].data.key == key && Alive(t.nodes[o].data, now, session)
    ensures var e := t.nodes[o].data; var f := e.(used := now, hits := e.hits + hit);
            Alive(f, now, session) && Stamped(f, now, session)
            && Some(CellOf(f, session)) == Restamped(Some(CellOf(e, session)), now, session)
  {
    hide TableHolds, Ordered, Indexed, Seconds;
    var e := t.nodes[o].data;
    if session {
      FreshAlive(e.(used := now, hits := e.hits + hit), now, session);
    }
  }

  /** Changing only the value keeps an entry shown and stamped. */
  lemma SameAge(t: Tab, bucketOf: Entry -> nat, now: nat, session: bool, o: nat, key: Path, value: Zval)
    requires Good(t, bucketOf, now, session) && Shown(t.nodes, key, now, session) == Some(o)
    ensures o in t.nodes && t.nodes[o].data.key == key && Alive(t.nodes[o].data, now, session)
    ensures var f := t.nodes[o].data.(value := value); Alive(f, now, session) && Stamped(f, now, session)
  {
    hide TableHolds, Ordered, Indexed, Seconds;
  }

  lemma NotShown(nodes: Nodes, key: Path, now: nat, session: bool)
    requires Lookup(nodes, key, now, session) == None
    ensures Shown(nodes, key, now, session) == None
  {
    hide Shown;
  }

  /** Entry o is stale and in a bucket of the window lo..hi. */
  ghost predicate SweptIn(nodes: Nodes, bucketOf: Entry -> nat, lo: nat, hi: nat, now: nat, o: nat) {
    o in nodes && lo <= bucketOf(nodes[o].data) < hi && Stale(nodes[o].data, now)
  }

  function WindowEnd(start: nat, buckets: nat): nat {
    if start + PER_RUN_SCAVENGE_COUNT >= buckets then buckets else start + PER_RUN_SCAVENGE_COUNT
  }

  function NextStart(start: nat, buckets: nat): nat {
    if start + PER_RUN_SCAVENGE_COUNT >= buckets then 0 else start + PER_RUN_SCAVENGE_COUNT
  }

  lemma StartBound(start: nat, buckets: nat)
    requires start < buckets && start % PER_RUN_SCAVENGE_COUNT == 0
    ensures NextStart(start, buckets) < buckets && NextStart(start, buckets) % PER_RUN_SCAVENGE_COUNT == 0
    ensures start < WindowEnd(start, buckets) <= buckets
  {
  }

  /** What is shown is as before, or was exactly ttl whole seconds old and is now hidden. */
  ghost predicate Thinned(a: Option<Cell>, b: Option<Cell>, now: nat) {
    b == a || (b == None && a.Some? && a.value.ttl > 0 && Seconds(now, a.value.stamp) == a.value.ttl)
  }

  lemma SameDataSelf(m: Nodes)
    ensures SameData(m, m)
  {
  }

  /** A sweep of bucket k extends the swept window by that bucket. */
  lemma WindowStep(t: Tab, was: Nodes, n: Nodes, bucketOf: Entry -> nat, now: nat, session: bool, start: nat, k: nat)
    requires Good(t, bucketOf, now, session) && start <= k < |t.chains| && SameData(was, t.nodes)
             && SameData(t.nodes, n)
    requires forall o {:trigger o in t.nodes} {:trigger o in was} :: o in t.nodes <==>
               o in was && !SweptIn(was, bucketOf, start, k, now, o)
    requires AllIn(t.nodes, t.chains[k]) && n.Keys == t.nodes.Keys - Casualties(t.nodes, t.chains[k], now)
    ensures SameData(was, n)
    ensures forall o {:trigger o in n} {:trigger o in was} :: o in n <==>
              o in was && !SweptIn(was, bucketOf, start, k + 1, now, o)
  {
    hide Stale, Casualties, Ordered, AllStamped, Indexed, Chained;
    forall o ensures o in n <==> o in was && !SweptIn(was, bucketOf, start, k + 1, now, o) {
      CasualtiesExact(t.nodes, t.chains[k], now, o);
      assert o in t.nodes <==> o in was && !SweptIn(was, bucketOf, start, k, now, o);
      if o in t.nodes {
        assert bucketOf(t.nodes[o].data) == k <==> o in t.chains[k];
      }
    }
    forall o | o in was && o in n ensures was[o].data == n[o].data {
      assert o in t.nodes;
    }
  }

  lemma ThinnedBySweep(t: Tab, u: Tab, bucketOf: Entry -> nat, now: nat, session: bool, lo: nat, hi: nat, key: Path)
    requires Good(t, bucketOf, now, session) && Good(u, bucketOf, now, session) && SameData(t.nodes, u.nodes)
    requires forall o {:trigger o in u.nodes} {:trigger o in t.nodes} :: o in u.nodes <==>
               o in t.nodes && !SweptIn(t.nodes, bucketOf, lo, hi, now, o)
    ensures Thinned(Lookup(t.nodes, key, now, session), Lookup(u.nodes, key, now, session), now)
  {
    hide Alive, Stale, Stamped, TableHolds, Ordered, Indexed, Seconds;
    FewerLookup(t, u, bucketOf, now, session, key);
    var p := Shown(t.nodes, key, now, session);
    if p.Some? && p.value !in u.nodes {
      assert p.value in t.nodes;
      HiddenAge(t.nodes[p.value].data, now, session);
      StaleTtl(t.nodes[p.value].data, now);
    }
  }

  lemma StaleTtl(e: Entry, now: nat)
    requires Stale(e, now)
    ensures e.ttl > 0
  {
  }

  lemma SweepStart(t: Tab, bucketOf: Entry -> nat, now: nat, session: bool, b: nat)
    requires Good(t, bucketOf, now, session) && b < |t.chains|
    ensures MidSweep(t.nodes, t.chains[b], t.chains[b], 0, now, t.nodes.Keys) && SameData(t.nodes, t.nodes)
    ensures |t.heads| == |t.chains| && t.heads[b] == NextIn(t.chains[b], -1)
  {
    hide Alive, Stale, Indexed, AllStamped, Distinct, InBuckets;
    assert LastAlive(t.nodes, t.chains[b], now, session);
    assert t.chains[b][0..] == t.chains[b];
  }

  ghost predicate AllIn(nodes: Nodes, c: seq<nat>) {
    forall i {:trigger c[i]} :: 0 <= i < |c| ==> c[i] in nodes
  }

  lemma MidSweepNodes(nodes: Nodes, c: seq<nat>, d: seq<nat>, i: nat, now: nat, left: set<nat>)
    requires MidSweep(nodes, c, d, i, now, left)
    ensures i <= |c| && AllIn(nodes, c) && forall k {:trigger c[k]} :: 0 <= k < |c| ==> c[k] > 0
  {
  }

  lemma SweepEnd(nodes: Nodes, c: seq<nat>, d: seq<nat>, now: nat, left: set<nat>)
    requires MidSweep(nodes, c, d, |c|, now, left)
    ensures d == Survivors(nodes, c, now) && left == nodes.Keys - Casualties(nodes, c, now)
  {
    assert c[..|c|] == c;
  }

  /** The walk is over exactly when it has passed the whole chain; entries have offsets above 0. */
  lemma WalkEnd(c: seq<nat>, i: nat)
    requires i <= |c| && forall k {:trigger c[k]} :: 0 <= k < |c| ==> c[k] > 0
    ensures if i < |c| then NextIn(c, i - 1) == c[i] else NextIn(c, i - 1) == 0
  {
  }

  lemma ChainDistinct<T>(head: nat, nodes: map<nat, Node<T>>, c: seq<nat>)
    requires Chained(head, nodes, c)
    ensures Distinct(c)
  {
  }

  lemma DataKept(m: Nodes, n: Nodes, o: nat)
    requires SameData(m, n) && o in m && o in n
    ensures n[o].data == m[o].data
  {
  }

  lemma SameBuckets(bucketOf: Entry -> nat, buckets: nat, e: Entry, f: Entry)
    requires Indexed(bucketOf, buckets) && e.key == f.key
    ensures bucketOf(e) == bucketOf(f)
  {
    hide IndexOf;
  }

  lemma InItsBucket(t: Tab, bucketOf: Entry -> nat, now: nat, session: bool, off: nat)
    requires Good(t, bucketOf, now, session) && off in t.nodes
    ensures |t.chains| > 0 && off in t.chains[IndexOf(t.nodes[off].data.key, |t.chains|)]
  {
    hide IndexOf, Chained, Ordered, AllStamped;
    assert bucketOf(t.nodes[off].data) == IndexOf(t.nodes[off].data.key, |t.chains|);
  }

  lemma RemovedLookup(t: Tab, u: Tab, bucketOf: Entry -> nat, now: nat, session: bool, off: nat, gone: Path, key: Path)
    requires Good(t, bucketOf, now, session) && Good(u, bucketOf, now, session)
    requires u.nodes.Keys == t.nodes.Keys - {off} && SameData(t.nodes, u.nodes)
             && Shown(t.nodes, gone, now, session) == Some(off)
    ensures Lookup(u.nodes, key, now, session) == if key == gone then None else Lookup(t.nodes, key, now, session)
  {
    hide Alive, Good, SameData;
    FewerLookup(t, u, bucketOf, now, session, key);
  }

  lemma Found(t: Tab, bucketOf: Entry -> nat, now: nat, session: bool, key: Path, i: nat, pvalue: nat)
    requires Good(t, bucketOf, now, session)
    requires var c := t.chains[IndexOf(key, |t.chains|)];
             && i <= |c| && pvalue == NextIn(c, i - 1)
             && (forall j {:trigger c[j]} :: 0 <= j < i ==> !Shows(t.nodes, c[j], key, now, session))
             && (pvalue == 0 || Shows(t.nodes, pvalue, key, now, session))
    ensures match Shown(t.nodes, key, now, session)
            case Some(o) => pvalue == o && o > 0
            case None => pvalue == 0
  {
    hide Alive, AllStamped, Ordered;
    var b := IndexOf(key, |t.chains|);
    ChainOf(t.heads, t.nodes, t.chains, bucketOf, b);
    if pvalue != 0 {
      GoodShown(t, bucketOf, now, session, pvalue, key);
    }
  }
}
