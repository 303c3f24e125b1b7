/** Runs of cache calls: what callers see is an expiring map, and what is idle is swept away. */
module ZvRuns {
  import opened Basics
  import opened Ticks
  import opened PathIndex
  import opened Chains
  import opened ZvCaches

  // ----- The expiring map, call by call -----

  datatype Call =
    | DoGet(key: Path, copied: bool)   // copied: the process has the memory for its copy of the value
    | DoExists(key: Path)
    | DoSet(key: Path, value: Zval, ttl: nat, isadd: bool)
    | DoDelete(key: Path)
    | DoChange(key: Path, delta: int)
    | DoCompswitch(key: Path, oldvalue: int, newvalue: int)
    | DoClear

  // A call at an instant, and what it answers.
  datatype Op = Op(call: Call, now: nat)
  datatype Answer = Answer(code: Code, value: Option<Zval>)

  /** What a get answers that finds a value. */
  function Fetched(copied: bool, value: Zval): Answer {
    if copied then Answer(NONFATAL, Some(value)) else Answer(FATAL_OUT_OF_LMEMORY, None)
  }

  /** What a call on a key answers and leaves of that key, given what it showed. */
  ghost predicate OnKey(op: Op, a: Answer, session: bool, was: Option<Cell>, now: Option<Cell>) {
    match op.call
    case DoGet(_, copied) =>
      a == (if was.None? then Answer(WARNING_ZVCACHE_EMISSING, None) else Fetched(copied, was.value.value))
      && now == Restamped(was, op.now, session)
    case DoExists(_) =>
      a.code == (if was.Some? then NONFATAL else WARNING_ZVCACHE_EMISSING) && now == was
    case DoSet(key, value, ttl, isadd) =>
      if isadd && was.Some? then a.code == WARNING_ZVCACHE_EXISTS && now == was
      else if session && was.Some? && was.value.value == value then
        a.code == NONFATAL && now == Some(was.value.(stamp := op.now))
      else if |key| + 1 > MAX_ZVKEY_LENGTH then
        a.code == FATAL_ZVCACHE_INVALID_KEY_LENGTH && now == Restamped(was, op.now, session)
      else (a.code == FATAL_OUT_OF_SMEMORY && now == Restamped(was, op.now, session))
           || (a.code == NONFATAL && now == Some(Cell(value, ttl, op.now)))
    case DoDelete(_) =>
      && now == None
      && if was.Some? then a.code == NONFATAL || (a.code == WARNING_ZVCACHE_EMISSING && Thinned(was, None, op.now))
         else a.code == WARNING_ZVCACHE_EMISSING
    case DoChange(_, delta) =>
      if a.code == WARNING_ZVCACHE_EMISSING then now == None && Thinned(was, None, op.now)
      else was.Some? && if was.value.value.Long?
                        then a == Answer(NONFATAL, Some(Long(Wrap64(was.value.value.n + delta))))
                             && now == Some(was.value.(value := Long(Wrap64(was.value.value.n + delta))))
                        else a.code == WARNING_ZVCACHE_NOTLONG && now == was
    case DoCompswitch(_, oldvalue, newvalue) =>
      if a.code == WARNING_ZVCACHE_EMISSING then now == None && Thinned(was, None, op.now)
      else was.Some? && if !was.value.value.Long? then a.code == WARNING_ZVCACHE_NOTLONG && now == was
                        else if was.value.value.n != oldvalue then a.code == WARNING_ZVCACHE_CASNEQ && now == was
                        else a.code == NONFATAL && now == Some(was.value.(value := Long(newvalue)))
    case DoClear =>
      a.code == NONFATAL && now == None
  }

  /** Does the call name this key? */
  predicate Names(call: Call, key: Path) {
    call.DoClear? || call.key == key
  }

  // The table at an instant, with the state of the sweep schedule.
  datatype Snap = Snap(nodes: Nodes, at: nat, lscavenge: nat, scstart: nat)

  ghost function View(s: Snap, session: bool, key: Path): Option<Cell> {
    Lookup(s.nodes, key, s.at, session)
  }

  /** One call on the expiring map: cells age until the call, the call acts on its key, and any other key
      stays as it is, unless it is exactly ttl seconds old and swept away. */
  ghost predicate MapStep(s: Snap, op: Op, a: Answer, t: Snap, session: bool) {
    && t.at == op.now >= s.at
    && forall k {:trigger View(t, session, k)} {:trigger View(s, session, k)} ::
         if Names(op.call, k) then OnKey(op, a, session, Aged(View(s, session, k), op.now), View(t, session, k))
         else Thinned(Aged(View(s, session, k), op.now), View(t, session, k), op.now)
  }

  /** Does the call get as far as the scavenger? */
  ghost predicate CallsScavenger(s: Snap, op: Op, a: Answer, session: bool) {
    match op.call
    case DoSet(key, value, _, _) => SetSweeps(a.code, Aged(View(s, session, key), op.now), value, session)
    case DoDelete(_) => true
    case DoChange(_, _) => true
    case DoCompswitch(_, _, _) => true
    case _ => false
  }

  /** Does the call create a new entry, as far as the cache is concerned? */
  ghost predicate Creates(s: Snap, op: Op, session: bool) {
    op.call.DoSet? && Stores(op.call, Aged(View(s, session, op.call.key), op.now), session)
  }

  ghost predicate Stores(call: Call, was: Option<Cell>, session: bool)
    requires call.DoSet?
  {
    && |call.key| + 1 <= MAX_ZVKEY_LENGTH
    && !(call.isadd && was.Some?) && !(session && was.Some? && was.value.value == call.value)
  }

  /** A call runs out of shared memory exactly when it has an entry to create and is offered no room. */
  ghost predicate Served(s: Snap, op: Op, a: Answer, session: bool, room: nat) {
    a.code == FATAL_OUT_OF_SMEMORY <==> Creates(s, op, session) && room == 0
  }

  /** One call on the table: ages, and the sweep it may make. */
  ghost predicate TableStep(s: Snap, op: Op, a: Answer, t: Snap, session: bool, bucketOf: Entry -> nat, buckets: nat) {
    && t.at == op.now >= s.at && Renews(s.nodes, t.nodes, op.now) && AllStamped(t.nodes, op.now, session)
    && Swept(CallsScavenger(s, op, a, session), s.lscavenge, s.scstart, t.lscavenge, t.scstart, t.nodes, bucketOf,
          buckets, op.now)
  }

  /** One call on the entries: which are used, given a new value, swept away, removed and added.  room is the
      offset offered to a new entry. */
  ghost predicate EntryStep(m: Entries, held: set<nat>, swept: Entries, sweptUsed: Entries, op: Op, a: Answer,
                            stores: bool, room: nat, n: Entries)
  {
    match op.call
    case DoGet(_, _) => n == Hit(m, held, op.now)
    case DoExists(_) => n == m
    case DoSet(key, value, ttl, _) =>
      if a.code == WARNING_ZVCACHE_EXISTS then n == m
      else if stores then
        room !in m && n == (sweptUsed - held)[room := Entry(key, value, ttl, op.now, op.now, 0)]
      else n == Used(m, held, op.now)
    case DoDelete(_) => n == swept - held && (a.code == NONFATAL <==> held * swept.Keys != {})
    case DoChange(_, _) =>
      if a.code == NONFATAL then a.value.Some? && n == Valued(swept, held, a.value.value) else n == swept
    case DoCompswitch(_, _, newvalue) =>
      n == if a.code == NONFATAL then Valued(swept, held, Long(newvalue)) else swept
    case DoClear => n == map[]
  }

  ghost function HeldBy(nodes: Nodes, op: Op, session: bool): set<nat> {
    if op.call.DoClear? then {} else Holder(nodes, op.call.key, op.now, session)
  }

  /** A call on the entries of a table, with what the scavenger would leave of them. */
  ghost predicate CallStep(m: Nodes, last: nat, start: nat, op: Op, room: nat, a: Answer, stores: bool, n: Nodes,
                           session: bool, bucketOf: Entry -> nat, buckets: nat)
  {
    var e, held := EntriesOf(m), HeldBy(m, op, session);
    EntryStep(e, held, AfterSweep(e, bucketOf, last, start, buckets, op.now),
              AfterSweep(Used(e, held, op.now), bucketOf, last, start, buckets, op.now), op, a, stores, room,
              EntriesOf(n))
  }

  /** A key shows at the instant of a call what it showed at the one before, aged. */
  ghost predicate AgedTo(s: Snap, now: nat, session: bool) {
    forall k {:trigger View(s, session, k)} :: Aged(View(s, session, k), now) == Lookup(s.nodes, k, now, session)
  }

  /** The entries before and after a call. */
  ghost predicate EntriesStep(s: Snap, op: Op, a: Answer, t: Snap, session: bool, bucketOf: Entry -> nat, buckets: nat,
                              room: nat)
  {
    && AgedTo(s, op.now, session)
    && CallStep(s.nodes, s.lscavenge, s.scstart, op, room, a, CallsScavenger(s, op, a, session), t.nodes, session,
                bucketOf, buckets)
  }

  /** A run: snaps[i] is the state before call number i. */
  ghost predicate MapRun(snaps: seq<Snap>, ops: seq<Op>, answers: seq<Answer>, session: bool) {
    && |snaps| == |ops| + 1 && |answers| == |ops|
    && forall i {:trigger ops[i]} {:trigger answers[i]} :: 0 <= i < |ops| ==>
         MapStep(snaps[i], ops[i], answers[i], snaps[i + 1], session)
  }

  ghost predicate TableRun(snaps: seq<Snap>, ops: seq<Op>, answers: seq<Answer>, session: bool, bucketOf: Entry -> nat,
                           buckets: nat)
  {
    && |snaps| == |ops| + 1 && |answers| == |ops|
    && forall i {:trigger ops[i]} {:trigger answers[i]} :: 0 <= i < |ops| ==>
         TableStep(snaps[i], ops[i], answers[i], snaps[i + 1], session, bucketOf, buckets)
  }

  /** In the run, call number i is offered the room place(i, offsets in use). */
  ghost predicate ServedRun(snaps: seq<Snap>, ops: seq<Op>, answers: seq<Answer>, session: bool,
                            place: (nat, set<nat>) -> nat)
  {
    && |snaps| == |ops| + 1 && |answers| == |ops|
    && forall i {:trigger ops[i]} {:trigger answers[i]} :: 0 <= i < |ops| ==>
         Served(snaps[i], ops[i], answers[i], session, place(i, snaps[i].nodes.Keys))
  }

  /** In the run, the entries change call by call as EntryStep says, and call number i is offered the room
      place(i, offsets in use). */
  ghost predicate EntriesRun(snaps: seq<Snap>, ops: seq<Op>, answers: seq<Answer>, session: bool,
                             bucketOf: Entry -> nat, buckets: nat, place: (nat, set<nat>) -> nat)
  {
    && |snaps| == |ops| + 1 && |answers| == |ops|
    && forall i {:trigger ops[i]} {:trigger answers[i]} :: 0 <= i < |ops| ==>
         EntriesStep(snaps[i], ops[i], answers[i], snaps[i + 1], session, bucketOf, buckets,
                     place(i, snaps[i].nodes.Keys))
  }

  // ----- What callers can rely on -----

  /** A write under a short enough key succeeds when there is room, an add when the key is missing besides. */
  lemma SetSucceeds(snaps: seq<Snap>, ops: seq<Op>, answers: seq<Answer>, session: bool,
                    place: (nat, set<nat>) -> nat, i: nat)
    requires MapRun(snaps, ops, answers, session) && ServedRun(snaps, ops, answers, session, place) && i < |ops|
    requires ops[i].call.DoSet? && |ops[i].call.key| + 1 <= MAX_ZVKEY_LENGTH
    requires place(i, snaps[i].nodes.Keys) != 0
    ensures answers[i].code == NONFATAL <==>
              !(ops[i].call.isadd && Aged(View(snaps[i], session, ops[i].call.key), ops[i].now).Some?)
  {
    hide View, Aged, Restamped;
    assert MapStep(snaps[i], ops[i], answers[i], snaps[i + 1], session);
    assert Served(snaps[i], ops[i], answers[i], session, place(i, snaps[i].nodes.Keys));
    assert View(snaps[i + 1], session, ops[i].call.key) == View(snaps[i + 1], session, ops[i].call.key);
  }

  lemma {:induction false} TimesGrow(snaps: seq<Snap>, ops: seq<Op>, answers: seq<Answer>, session: bool, i: nat,
                                     j: nat)
    requires MapRun(snaps, ops, answers, session) && i <= j <= |ops|
    ensures snaps[i].at <= snaps[j].at
    decreases j
  {
    if i < j {
      TimesGrow(snaps, ops, answers, session, i, j - 1);
      assert MapStep(snaps[j - 1], ops[j - 1], answers[j - 1], snaps[j], session);
    }
  }

  /** A key that is not shown stays so until it is set: deleted and expired values never come back. */
  lemma {:induction false} GoneUntilSet(snaps: seq<Snap>, ops: seq<Op>, answers: seq<Answer>, session: bool, key: Path,
                                        i: nat, j: nat)
    requires MapRun(snaps, ops, answers, session) && i <= j <= |ops| && View(snaps[i], session, key) == None
    requires forall k {:trigger ops[k]} :: i <= k < j ==> !(ops[k].call.DoSet? && ops[k].call.key == key)
    ensures View(snaps[j], session, key) == None
    decreases j
  {
    hide View, Aged, Seconds;
    if i < j {
      GoneUntilSet(snaps, ops, answers, session, key, i, j - 1);
      StillGone(snaps[j - 1], ops[j - 1], answers[j - 1], snaps[j], session, key);
    }
  }

  lemma StillGone(s: Snap, op: Op, a: Answer, t: Snap, session: bool, key: Path)
    requires MapStep(s, op, a, t, session) && View(s, session, key) == None && !(op.call.DoSet? && op.call.key == key)
    ensures View(t, session, key) == None
  {
    hide View, Seconds;
  }

  /** c is what cell has become by instant at, when its key was only read. */
  ghost predicate Follows(cell: Cell, c: Cell, session: bool, at: nat) {
    c.value == cell.value && c.ttl == cell.ttl && cell.stamp <= c.stamp <= at && (session || c.stamp == cell.stamp)
  }

  /** The age of a cell is below its ttl at an instant less than 2^32 ms after its stamp. */
  ghost predicate Young(cell: Cell, now: nat) {
    cell.ttl == 0 || (WithinRange(now, cell.stamp) && Seconds(now, cell.stamp) < cell.ttl)
  }

  /** Calls i to j, other than reads, do not name the key. */
  ghost predicate OnlyRead(ops: seq<Op>, key: Path, i: nat, j: nat)
    requires j <= |ops|
  {
    forall k {:trigger ops[k]} :: i <= k < j ==> !Names(ops[k].call, key) || ops[k].call.DoGet? || ops[k].call.DoExists?
  }

  lemma YoungEarlier(cell: Cell, c: Cell, session: bool, at: nat, t: nat)
    requires Young(cell, t) && Follows(cell, c, session, at) && at <= t
    ensures cell.ttl == 0 || Seconds(at, c.stamp) < cell.ttl
  {
    if cell.ttl != 0 {
      ElapsedOlder(at, cell.stamp, c.stamp);
      ElapsedGrows(cell.stamp, at, t);
    }
  }

  lemma StillShown(s: Snap, op: Op, a: Answer, t: Snap, session: bool, key: Path, cell: Cell, c: Cell, last: nat)
    requires MapStep(s, op, a, t, session) && View(s, session, key) == Some(c) && Follows(cell, c, session, s.at)
    requires op.now <= last && Young(cell, last) && (!Names(op.call, key) || op.call.DoGet? || op.call.DoExists?)
    ensures View(t, session, key).Some? && Follows(cell, View(t, session, key).value, session, t.at)
    ensures Aged(View(s, session, key), op.now) == Some(c)
  {
    hide View, Seconds, Young;
    assert Follows(cell, c, session, op.now);
    YoungEarlier(cell, c, session, op.now, last);
    assert View(t, session, key) == View(t, session, key);
  }

  /** A shown value that is only read is shown as long as it is younger than its ttl. */
  lemma {:induction false} KeptWhileYoung(snaps: seq<Snap>, ops: seq<Op>, answers: seq<Answer>, session: bool,
                                          key: Path, i: nat, j: nat, cell: Cell, last: nat)
    requires MapRun(snaps, ops, answers, session) && i <= j <= |ops| && OnlyRead(ops, key, i, j)
    requires View(snaps[i], session, key) == Some(cell) && cell.stamp <= snaps[i].at && snaps[j].at <= last
             && Young(cell, last)
    ensures View(snaps[j], session, key).Some?
            && Follows(cell, View(snaps[j], session, key).value, session, snaps[j].at)
    decreases j
  {
    hide View, Young, MapStep;
    if i < j {
      TimesGrow(snaps, ops, answers, session, j - 1, j);
      KeptWhileYoung(snaps, ops, answers, session, key, i, j - 1, cell, last);
      assert MapStep(snaps[j - 1], ops[j - 1], answers[j - 1], snaps[j], session);
      StepTime(snaps[j - 1], ops[j - 1], answers[j - 1], snaps[j], session);
      StillShown(snaps[j - 1], ops[j - 1], answers[j - 1], snaps[j], session, key, cell,
                 View(snaps[j - 1], session, key).value, last);
    }
  }

  lemma StepTime(s: Snap, op: Op, a: Answer, t: Snap, session: bool)
    requires MapStep(s, op, a, t, session)
    ensures t.at == op.now >= s.at
  {
  }

  /** In a user cache a value that is only read is shown unchanged or not at all. */
  lemma {:induction false} SameOrGone(snaps: seq<Snap>, ops: seq<Op>, answers: seq<Answer>, key: Path, i: nat, j: nat,
                                      cell: Cell)
    requires MapRun(snaps, ops, answers, false) && i <= j <= |ops| && OnlyRead(ops, key, i, j)
             && View(snaps[i], false, key) == Some(cell)
    ensures View(snaps[j], false, key) == None || View(snaps[j], false, key) == Some(cell)
    decreases j
  {
    hide View, MapStep;
    if i < j {
      SameOrGone(snaps, ops, answers, key, i, j - 1, cell);
      assert MapStep(snaps[j - 1], ops[j - 1], answers[j - 1], snaps[j], false);
      ReadStep(snaps[j - 1], ops[j - 1], answers[j - 1], snaps[j], key);
    }
  }

  lemma ReadStep(s: Snap, op: Op, a: Answer, t: Snap, key: Path)
    requires MapStep(s, op, a, t, false) && (!Names(op.call, key) || op.call.DoGet? || op.call.DoExists?)
    ensures View(t, false, key) == None || View(t, false, key) == View(s, false, key)
  {
    hide View, Seconds;
    assert View(t, false, key) == View(t, false, key);
  }

  /** A successful write shows its value, stamped with its instant.  Its ttl is the new one, unless a session
      write found the same value: then it is the old one. */
  lemma SetShows(s: Snap, op: Op, a: Answer, t: Snap, session: bool)
    requires MapStep(s, op, a, t, session) && op.call.DoSet? && a.code == NONFATAL
    ensures var v := View(t, session, op.call.key);
            && v.Some? && v.value.value == op.call.value && v.value.stamp == op.now
            && (v.value.ttl == op.call.ttl
                || (session && Aged(View(s, session, op.call.key), op.now) ==
                      Some(v.value.(stamp := Aged(View(s, session, op.call.key), op.now).value.stamp))))
  {
    hide View, Seconds;
  }

  /** Set, then get: before its ttl has passed the value comes back. */
  lemma SetThenGet(snaps: seq<Snap>, ops: seq<Op>, answers: seq<Answer>, session: bool, i: nat, j: nat)
    requires MapRun(snaps, ops, answers, session) && i < j < |ops|
    requires ops[i].call.DoSet? && answers[i].code == NONFATAL && ops[j].call.DoGet?
    requires ops[j].call.key == ops[i].call.key && OnlyRead(ops, ops[i].call.key, i + 1, j)
    ensures View(snaps[i + 1], session, ops[i].call.key).Some?
    ensures var cell := View(snaps[i + 1], session, ops[i].call.key).value;
            cell.stamp == ops[i].now && (Young(cell, ops[j].now) ==>
                  answers[j] == Fetched(ops[j].call.copied, ops[i].call.value))
  {
    hide View, Young, MapStep;
    var key := ops[i].call.key;
    assert MapStep(snaps[i], ops[i], answers[i], snaps[i + 1], session);
    SetShows(snaps[i], ops[i], answers[i], snaps[i + 1], session);
    StepTime(snaps[i], ops[i], answers[i], snaps[i + 1], session);
    var cell := View(snaps[i + 1], session, key).value;
    if Young(cell, ops[j].now) {
      assert MapStep(snaps[j], ops[j], answers[j], snaps[j + 1], session);
      StepTime(snaps[j], ops[j], answers[j], snaps[j + 1], session);
      KeptWhileYoung(snaps, ops, answers, session, key, i + 1, j, cell, ops[j].now);
      StillShown(snaps[j], ops[j], answers[j], snaps[j + 1], session, key, cell, View(snaps[j], session, key).value,
                 ops[j].now);
      GetAnswers(snaps[j], ops[j], answers[j], snaps[j + 1], session, key);
    }
  }

  lemma GetAnswers(s: Snap, op: Op, a: Answer, t: Snap, session: bool, key: Path)
    requires MapStep(s, op, a, t, session) && op.call.DoGet? && op.call.key == key
    ensures match Aged(View(s, session, key), op.now)
            case None => a == Answer(WARNING_ZVCACHE_EMISSING, None)
            case Some(c) => a == Fetched(op.call.copied, c.value)
  {
    hide View, Seconds;
    assert View(t, session, key) == View(t, session, key);
  }

  /** Set, then get, in a user cache: once its ttl has passed the value does not come back. */
  lemma ExpiredThenGet(snaps: seq<Snap>, ops: seq<Op>, answers: seq<Answer>, i: nat, j: nat)
    requires MapRun(snaps, ops, answers, false) && i < j < |ops|
    requires ops[i].call.DoSet? && answers[i].code == NONFATAL && ops[j].call.DoGet?
    requires ops[j].call.key == ops[i].call.key && OnlyRead(ops, ops[i].call.key, i + 1, j)
    requires ops[i].call.ttl != 0 && Seconds(ops[j].now, ops[i].now) > ops[i].call.ttl
    ensures answers[j] == Answer(WARNING_ZVCACHE_EMISSING, None)
  {
    hide View, Seconds, MapStep;
    var key := ops[i].call.key;
    assert MapStep(snaps[i], ops[i], answers[i], snaps[i + 1], false);
    SetShows(snaps[i], ops[i], answers[i], snaps[i + 1], false);
    SameOrGone(snaps, ops, answers, key, i + 1, j, View(snaps[i + 1], false, key).value);
    assert MapStep(snaps[j], ops[j], answers[j], snaps[j + 1], false);
    GetAnswers(snaps[j], ops[j], answers[j], snaps[j + 1], false, key);
  }

  /** Delete, then get: missing until the key is set again. */
  lemma DeleteThenGet(snaps: seq<Snap>, ops: seq<Op>, answers: seq<Answer>, session: bool, i: nat, j: nat)
    requires MapRun(snaps, ops, answers, session) && i < j < |ops| && ops[i].call.DoDelete?
             && ops[j].call.DoGet? && ops[j].call.key == ops[i].call.key
    requires forall k {:trigger ops[k]} :: i < k < j ==> !(ops[k].call.DoSet? && ops[k].call.key == ops[i].call.key)
    ensures answers[j] == Answer(WARNING_ZVCACHE_EMISSING, None)
  {
    hide View, Seconds, MapStep;
    var key := ops[i].call.key;
    assert MapStep(snaps[i], ops[i], answers[i], snaps[i + 1], session);
    DeleteHides(snaps[i], ops[i], answers[i], snaps[i + 1], session, key);
    GoneUntilSet(snaps, ops, answers, session, key, i + 1, j);
    assert MapStep(snaps[j], ops[j], answers[j], snaps[j + 1], session);
    GetAnswers(snaps[j], ops[j], answers[j], snaps[j + 1], session, key);
  }

  lemma DeleteHides(s: Snap, op: Op, a: Answer, t: Snap, session: bool, key: Path)
    requires MapStep(s, op, a, t, session) && op.call == DoDelete(key)
    ensures View(t, session, key) == None
  {
    hide View, Seconds;
  }

  /** The entry at o holds cell for the key, in a user cache, and was used at or after t1. */
  ghost predicate Keeps(m: Entries, o: nat, key: Path, cell: Cell, t1: nat, at: nat) {
    o in m && m[o].key == key && CellOf(m[o], false) == cell && t1 <= m[o].used <= at
  }

  /** No call names the key with anything but a read, and no sweep comes ttl seconds after t1 or later. */
  ghost predicate Spares(s: Snap, op: Op, a: Answer, key: Path, ttl: nat, t1: nat) {
    && (!Names(op.call, key) || op.call.DoGet? || op.call.DoExists?)
    && (ttl != 0 && CallsScavenger(s, op, a, false) && Elapsed(op.now, s.lscavenge) >= SCAVENGE_PAUSE ==>
          WithinRange(op.now, t1) && Seconds(op.now, t1) < ttl)
  }

  lemma NotSwept(m: Entries, bucketOf: Entry -> nat, last: nat, start: nat, buckets: nat, now: nat, o: nat, t1: nat)
    requires o in m && t1 <= m[o].used <= now
    requires m[o].ttl != 0 && Elapsed(now, last) >= SCAVENGE_PAUSE ==>
               WithinRange(now, t1) && Seconds(now, t1) < m[o].ttl
    ensures var n := AfterSweep(m, bucketOf, last, start, buckets, now); o in n && n[o] == m[o]
  {
    hide Elapsed;
    if m[o].ttl != 0 && Elapsed(now, last) >= SCAVENGE_PAUSE {
      ElapsedOlder(now, t1, m[o].used);
    }
  }

  /** An entry that is not the held one is kept by a call, if the sweep it may make spares it. */
  lemma OtherKept(m: Entries, held: set<nat>, swept: Entries, sweptUsed: Entries, op: Op, a: Answer, stores: bool,
                  room: nat, n: Entries, o: nat)
    requires EntryStep(m, held, swept, sweptUsed, op, a, stores, room, n) && !op.call.DoClear?
    requires o in m && o !in held
    requires stores || op.call.DoDelete? || op.call.DoChange? || op.call.DoCompswitch? ==>
               o in swept && swept[o] == m[o] && o in sweptUsed && sweptUsed[o] == m[o]
    ensures o in n && n[o] == m[o]
  {
  }

  lemma NotHeld(nodes: Nodes, op: Op, session: bool, o: nat)
    requires !op.call.DoClear? && o in nodes && nodes[o].data.key != op.call.key
    ensures o !in HeldBy(nodes, op, session)
  {
    hide Alive;
  }

  lemma SparedStep(s: Snap, op: Op, a: Answer, t: Snap, bucketOf: Entry -> nat, buckets: nat, room: nat, o: nat,
                   key: Path, cell: Cell, t1: nat)
    requires EntriesStep(s, op, a, t, false, bucketOf, buckets, room) && s.at <= op.now == t.at
    requires Spares(s, op, a, key, cell.ttl, t1) && Keeps(EntriesOf(s.nodes), o, key, cell, t1, s.at)
    ensures Keeps(EntriesOf(t.nodes), o, key, cell, t1, t.at)
  {
    hide Elapsed, Seconds, AfterSweep, SetSweeps, View, Aged, HeldBy, EntriesOf;
    var m, held := EntriesOf(s.nodes), HeldBy(s.nodes, op, false);
    if !Names(op.call, key) {
      NotHeld(s.nodes, op, false, o);
      if CallsScavenger(s, op, a, false) {
        NotSwept(m, bucketOf, s.lscavenge, s.scstart, buckets, op.now, o, t1);
        NotSwept(Used(m, held, op.now), bucketOf, s.lscavenge, s.scstart, buckets, op.now, o, t1);
      }
      OtherKept(m, held, AfterSweep(m, bucketOf, s.lscavenge, s.scstart, buckets, op.now),
                AfterSweep(Used(m, held, op.now), bucketOf, s.lscavenge, s.scstart, buckets, op.now), op, a,
                CallsScavenger(s, op, a, false), room, EntriesOf(t.nodes), o);
    }
  }

  lemma {:induction false} SparedRun(snaps: seq<Snap>, ops: seq<Op>, answers: seq<Answer>, bucketOf: Entry -> nat,
                                     buckets: nat, place: (nat, set<nat>) -> nat, o: nat, key: Path, cell: Cell,
                                     t1: nat, i: nat, j: nat)
    requires MapRun(snaps, ops, answers, false) && EntriesRun(snaps, ops, answers, false, bucketOf, buckets, place)
    requires i <= j <= |ops| && Keeps(EntriesOf(snaps[i].nodes), o, key, cell, t1, snaps[i].at)
    requires forall k {:trigger ops[k]} :: i <= k < j ==> Spares(snaps[k], ops[k], answers[k], key, cell.ttl, t1)
    ensures Keeps(EntriesOf(snaps[j].nodes), o, key, cell, t1, snaps[j].at)
    decreases j
  {
    hide Spares, Keeps, MapStep, EntriesStep;
    if i < j {
      SparedRun(snaps, ops, answers, bucketOf, buckets, place, o, key, cell, t1, i, j - 1);
      assert MapStep(snaps[j - 1], ops[j - 1], answers[j - 1], snaps[j], false);
      assert EntriesStep(snaps[j - 1], ops[j - 1], answers[j - 1], snaps[j], false, bucketOf, buckets,
                         place(j - 1, snaps[j - 1].nodes.Keys));
      StepTime(snaps[j - 1], ops[j - 1], answers[j - 1], snaps[j], false);
      SparedStep(snaps[j - 1], ops[j - 1], answers[j - 1], snaps[j], bucketOf, buckets,
                 place(j - 1, snaps[j - 1].nodes.Keys), o, key, cell, t1);
    }
  }

  /** A get that finds a key in a user cache leaves an entry used at that very instant. */
  lemma GetKeeps(s: Snap, op: Op, a: Answer, t: Snap, bucketOf: Entry -> nat, buckets: nat, room: nat, cell: Cell)
    returns (o: nat)
    requires EntriesStep(s, op, a, t, false, bucketOf, buckets, room) && op.call.DoGet? && t.at == op.now
    requires Aged(View(s, false, op.call.key), op.now) == Some(cell)
    ensures Keeps(EntriesOf(t.nodes), o, op.call.key, cell, op.now, op.now)
  {
    hide Alive, Aged, AfterSweep, CallsScavenger;
    assert Lookup(s.nodes, op.call.key, op.now, false) == Some(cell);
    o := Shown(s.nodes, op.call.key, op.now, false).value;
  }

  /** The entry kept shows its cell while its age is at most its ttl. */
  lemma KeptShown(nodes: Nodes, o: nat, key: Path, cell: Cell, t1: nat, at: nat, now: nat)
    requires Keeps(EntriesOf(nodes), o, key, cell, t1, at) && cell.stamp <= at <= now
    requires cell.ttl == 0 || (WithinRange(now, cell.stamp) && Seconds(now, cell.stamp) <= cell.ttl)
    ensures Lookup(nodes, key, at, false).Some? && Aged(Some(cell), now) == Some(cell)
  {
    hide Seconds;
    if cell.ttl != 0 {
      ElapsedGrows(cell.stamp, at, now);
    }
    assert Shows(nodes, o, key, at, false);
  }

  lemma StampPast(s: Snap, op: Op, a: Answer, t: Snap, session: bool, bucketOf: Entry -> nat, buckets: nat, o: nat)
    requires TableStep(s, op, a, t, session, bucketOf, buckets) && o in t.nodes
    ensures CellOf(t.nodes[o].data, session).stamp <= op.now
  {
    hide Renews, Swept, CallsScavenger;
    assert Stamped(t.nodes[o].data, op.now, session);
  }

  /** In a user cache a value that was got, and is only read from then on, is got again, as long as its age is at
      most its ttl and every sweep in between comes less than ttl seconds after the first get. */
  lemma KeptWhileUsed(snaps: seq<Snap>, ops: seq<Op>, answers: seq<Answer>, bucketOf: Entry -> nat, buckets: nat,
                      place: (nat, set<nat>) -> nat, i: nat, j: nat, cell: Cell)
    requires MapRun(snaps, ops, answers, false) && TableRun(snaps, ops, answers, false, bucketOf, buckets)
             && EntriesRun(snaps, ops, answers, false, bucketOf, buckets, place)
    requires i < j < |ops| && ops[i].call.DoGet? && ops[j].call.DoGet? && ops[i].call.key == ops[j].call.key
    requires Aged(View(snaps[i], false, ops[i].call.key), ops[i].now) == Some(cell)
    requires forall k {:trigger ops[k]} :: i < k < j ==>
               Spares(snaps[k], ops[k], answers[k], ops[i].call.key, cell.ttl, ops[i].now)
    requires cell.ttl == 0 || (WithinRange(ops[j].now, cell.stamp) && Seconds(ops[j].now, cell.stamp) <= cell.ttl)
    ensures answers[j] == Fetched(ops[j].call.copied, cell.value)
  {
    hide View, Seconds, MapStep, TableStep, EntriesStep, Aged, EntriesOf, Keeps, Spares, Lookup, WithinRange;
    var key, t1 := ops[i].call.key, ops[i].now;
    var room := place(i, snaps[i].nodes.Keys);
    assert MapStep(snaps[i], ops[i], answers[i], snaps[i + 1], false);
    assert TableStep(snaps[i], ops[i], answers[i], snaps[i + 1], false, bucketOf, buckets);
    assert EntriesStep(snaps[i], ops[i], answers[i], snaps[i + 1], false, bucketOf, buckets, room);
    StepTime(snaps[i], ops[i], answers[i], snaps[i + 1], false);
    var o := GetKeeps(snaps[i], ops[i], answers[i], snaps[i + 1], bucketOf, buckets, room, cell);
    StampKept(snaps[i], ops[i], answers[i], snaps[i + 1], bucketOf, buckets, o, key, cell, t1);
    SparedRun(snaps, ops, answers, bucketOf, buckets, place, o, key, cell, t1, i + 1, j);
    TimesGrow(snaps, ops, answers, false, i + 1, j);
    assert MapStep(snaps[j], ops[j], answers[j], snaps[j + 1], false);
    StepTime(snaps[j], ops[j], answers[j], snaps[j + 1], false);
    KeptShown(snaps[j].nodes, o, key, cell, t1, snaps[j].at, ops[j].now);
    SparedReads(snaps, ops, answers, key, cell.ttl, t1, i + 1, j);
    GetView(snaps[i], ops[i], answers[i], snaps[i + 1], cell);
    SameOrGone(snaps, ops, answers, key, i + 1, j, cell);
    LookupView(snaps[j], key);
    GetAnswers(snaps[j], ops[j], answers[j], snaps[j + 1], false, key);
  }

  lemma LookupView(s: Snap, key: Path)
    ensures View(s, false, key) == Lookup(s.nodes, key, s.at, false)
  {
    hide Lookup;
  }

  lemma GetView(s: Snap, op: Op, a: Answer, t: Snap, cell: Cell)
    requires MapStep(s, op, a, t, false) && op.call.DoGet? && Aged(View(s, false, op.call.key), op.now) == Some(cell)
    ensures View(t, false, op.call.key) == Some(cell)
  {
    hide View, Aged;
  }

  lemma SparedReads(snaps: seq<Snap>, ops: seq<Op>, answers: seq<Answer>, key: Path, ttl: nat, t1: nat, i: nat, j: nat)
    requires j <= |ops| == |answers| && |snaps| == |ops| + 1
    requires forall k {:trigger ops[k]} :: i <= k < j ==> Spares(snaps[k], ops[k], answers[k], key, ttl, t1)
    ensures OnlyRead(ops, key, i, j)
  {
    hide CallsScavenger, Elapsed, Seconds;
  }

  lemma StampKept(s: Snap, op: Op, a: Answer, t: Snap, bucketOf: Entry -> nat, buckets: nat, o: nat, key: Path,
                  cell: Cell, t1: nat)
    requires TableStep(s, op, a, t, false, bucketOf, buckets) && Keeps(EntriesOf(t.nodes), o, key, cell, t1, op.now)
    ensures cell.stamp <= op.now
  {
    hide TableStep;
    StampPast(s, op, a, t, false, bucketOf, buckets, o);
  }

  // ----- What the sweeps achieve -----

  /** Call number i sweeps a window. */
  ghost predicate Effective(snaps: seq<Snap>, ops: seq<Op>, answers: seq<Answer>, session: bool, i: nat)
    requires |snaps| == |ops| + 1 && |answers| == |ops| && i < |ops|
  {
    CallsScavenger(snaps[i], ops[i], answers[i], session) && Elapsed(ops[i].now, snaps[i].lscavenge) >= SCAVENGE_PAUSE
  }

  /** The number of sweeps in the first n calls. */
  ghost function SweepCount(snaps: seq<Snap>, ops: seq<Op>, answers: seq<Answer>, session: bool, n: nat): nat
    requires |snaps| == |ops| + 1 && |answers| == |ops| && n <= |ops|
  {
    if n == 0 then 0
    else SweepCount(snaps, ops, answers, session, n - 1)
         + if Effective(snaps, ops, answers, session, n - 1) then 1 else 0
  }

  /** Used at or after t1, or not stale at t1. */
  ghost predicate Recent(e: Entry, t1: nat) {
    e.used >= t1 || !Stale(e, t1)
  }

  /** All entries in the buckets of the first c sweeps of a schedule are recent. */
  ghost predicate RecentIn(nodes: Nodes, bucketOf: Entry -> nat, buckets: nat, start: nat, c: nat, t1: nat) {
    forall o, j: nat {:trigger o in nodes, Visits(buckets, start, j, bucketOf(nodes[o].data))} ::
      o in nodes && j < c && Visits(buckets, start, j, bucketOf(nodes[o].data)) ==> Recent(nodes[o].data, t1)
  }

  lemma NotStaleEarlier(e: Entry, t1: nat, now: nat, session: bool)
    requires t1 <= now && Stamped(e, now, session) && !Stale(e, now)
    ensures Recent(e, t1)
  {
    if e.used < t1 && Stale(e, t1) {
      StaysStale(e, t1, now, session);
    }
  }

  /** An entry that is recent stays so whatever a call does to it, and one not swept by the call is recent. */
  lemma RecentStep(s: Snap, op: Op, a: Answer, t: Snap, session: bool, bucketOf: Entry -> nat, buckets: nat, start: nat,
                   c: nat, t1: nat, o: nat, j: nat)
    requires TableStep(s, op, a, t, session, bucketOf, buckets) && t1 <= op.now
             && RecentIn(s.nodes, bucketOf, buckets, start, c, t1)
    requires Indexed(bucketOf, buckets) && o in t.nodes && j < c && Visits(buckets, start, j, bucketOf(t.nodes[o].data))
    ensures Recent(t.nodes[o].data, t1)
  {
    hide Stale, IndexOf, Visits, Swept, AllStamped;
    var f := t.nodes[o].data;
    assert Renewed(s.nodes, o, f, op.now);
    if f.used != op.now {
      var e := s.nodes[o].data;
      SameBuckets(bucketOf, buckets, f, e);
      assert o in s.nodes && Visits(buckets, start, j, bucketOf(e));
      SameStale(e, f, t1);
    }
  }

  lemma SweepRecent(s: Snap, op: Op, a: Answer, t: Snap, session: bool, bucketOf: Entry -> nat, buckets: nat,
                    start: nat, c: nat, t1: nat, o: nat)
    requires TableStep(s, op, a, t, session, bucketOf, buckets) && t1 <= op.now
    requires CallsScavenger(s, op, a, session) && Elapsed(op.now, s.lscavenge) >= SCAVENGE_PAUSE
             && s.scstart == StartAfter(buckets, start, c)
    requires o in t.nodes && Visits(buckets, start, c, bucketOf(t.nodes[o].data))
    ensures Recent(t.nodes[o].data, t1)
  {
    hide Stale, CallsScavenger, Renews, Elapsed, StartAfter;
    assert Stamped(t.nodes[o].data, op.now, session);
    NotStaleEarlier(t.nodes[o].data, t1, op.now, session);
  }

  /** After c sweeps everything in the buckets they visited is recent. */
  lemma {:induction false} SweptSoFar(snaps: seq<Snap>, ops: seq<Op>, answers: seq<Answer>, session: bool,
                                      bucketOf: Entry -> nat, buckets: nat, t1: nat, n: nat)
    requires TableRun(snaps, ops, answers, session, bucketOf, buckets) && Indexed(bucketOf, buckets) && n <= |ops|
    requires forall k {:trigger ops[k]} :: 0 <= k < |ops| ==> t1 <= ops[k].now
    ensures var c := SweepCount(snaps, ops, answers, session, n);
            snaps[n].scstart == StartAfter(buckets, snaps[0].scstart, c)
                  && RecentIn(snaps[n].nodes, bucketOf, buckets, snaps[0].scstart, c, t1)
  {
    hide Recent, IndexOf, TableStep, RecentIn;
    if n == 0 {
      NoneSwept(snaps[0].nodes, bucketOf, buckets, snaps[0].scstart, t1);
    } else {
      SweptSoFar(snaps, ops, answers, session, bucketOf, buckets, t1, n - 1);
      assert TableStep(snaps[n - 1], ops[n - 1], answers[n - 1], snaps[n], session, bucketOf, buckets);
      SweptStep(snaps[n - 1], ops[n - 1], answers[n - 1], snaps[n], session, bucketOf, buckets, snaps[0].scstart,
                SweepCount(snaps, ops, answers, session, n - 1), t1);
    }
  }

  lemma NoneSwept(nodes: Nodes, bucketOf: Entry -> nat, buckets: nat, start: nat, t1: nat)
    ensures RecentIn(nodes, bucketOf, buckets, start, 0, t1)
  {
  }

  lemma SweptStep(s: Snap, op: Op, a: Answer, t: Snap, session: bool, bucketOf: Entry -> nat, buckets: nat, start: nat,
                  c: nat, t1: nat)
    requires TableStep(s, op, a, t, session, bucketOf, buckets) && Indexed(bucketOf, buckets) && t1 <= op.now
    requires s.scstart == StartAfter(buckets, start, c) && RecentIn(s.nodes, bucketOf, buckets, start, c, t1)
    ensures var swept := CallsScavenger(s, op, a, session) && Elapsed(op.now, s.lscavenge) >= SCAVENGE_PAUSE;
            var d := if swept then c + 1 else c;
            t.scstart == StartAfter(buckets, start, d) && RecentIn(t.nodes, bucketOf, buckets, start, d, t1)
  {
    hide Recent, IndexOf, Renews, AllStamped, Clean, Elapsed, CallsScavenger, Visits;
    var d := if CallsScavenger(s, op, a, session) && Elapsed(op.now, s.lscavenge) >= SCAVENGE_PAUSE then c + 1 else c;
    forall o, j: nat | o in t.nodes && j < d && Visits(buckets, start, j, bucketOf(t.nodes[o].data))
      ensures Recent(t.nodes[o].data, t1)
    {
      if j < c {
        RecentStep(s, op, a, t, session, bucketOf, buckets, start, c, t1, o, j);
      } else {
        SweepRecent(s, op, a, t, session, bucketOf, buckets, start, c, t1, o);
      }
    }
  }

  /** After as many sweeps as there are windows, whatever calls come between them: every entry left was
      used or written at or after t1, or was not stale at t1.  What was stale and untouched is gone. */
  lemma IdleIsSwept(snaps: seq<Snap>, ops: seq<Op>, answers: seq<Answer>, session: bool, bucketOf: Entry -> nat,
                    buckets: nat, t1: nat, o: nat)
    requires TableRun(snaps, ops, answers, session, bucketOf, buckets) && Indexed(bucketOf, buckets)
    requires snaps[0].scstart < buckets && snaps[0].scstart % PER_RUN_SCAVENGE_COUNT == 0
    requires forall k {:trigger ops[k]} :: 0 <= k < |ops| ==> t1 <= ops[k].now
    requires SweepCount(snaps, ops, answers, session, |ops|) >= Sweeps(buckets) && o in snaps[|ops|].nodes
    ensures Recent(snaps[|ops|].nodes[o].data, t1)
  {
    hide Recent, TableStep, SweepCount;
    var e := snaps[|ops|].nodes[o].data;
    SweptSoFar(snaps, ops, answers, session, bucketOf, buckets, t1, |ops|);
    assert bucketOf(e) < buckets;
    var j := VisitedOnce(buckets, snaps[0].scstart, bucketOf(e));
    assert Visits(buckets, snaps[0].scstart, j, bucketOf(snaps[|ops|].nodes[o].data));
  }

  // ----- The code makes such runs -----

  ghost function SnapOf(cache: ZvCache): Snap
    reads cache, cache.table
  {
    Snap(cache.table.nodes, cache.clock, cache.lscavenge, cache.scstart)
  }

  /** The times of a run: in order, and no stamp gets 2^32 ms old before the last. */
  ghost predicate Timed(nodes: Nodes, clock: nat, ops: seq<Op>, last: nat, session: bool) {
    && clock <= last < clock + TICK_RANGE && AllStamped(nodes, last, session)
    && (forall k {:trigger ops[k]} :: 0 <= k < |ops| ==>
          clock <= ops[k].now <= last && (session && ops[k].call.DoSet? ==> ops[k].call.value.Str?))
    && (forall j, k {:trigger ops[j], ops[k]} :: 0 <= j < k < |ops| ==> ops[j].now <= ops[k].now)
  }

  /** MapStep, with the cells before the call taken at its own instant. */
  ghost predicate StepNow(m: Nodes, op: Op, a: Answer, n: Nodes, session: bool) {
    forall k {:trigger Lookup(n, k, op.now, session)} :: KeyNow(m, op, a, n, session, k)
  }

  ghost predicate KeyNow(m: Nodes, op: Op, a: Answer, n: Nodes, session: bool, k: Path) {
    if Names(op.call, k) then OnKey(op, a, session, Lookup(m, k, op.now, session), Lookup(n, k, op.now, session))
    else Thinned(Lookup(m, k, op.now, session), Lookup(n, k, op.now, session), op.now)
  }

  /** The table and schedule before a call, and its answer. */
  ghost predicate CallsNow(m: Nodes, op: Op, a: Answer, session: bool) {
    match op.call
    case DoSet(key, value, _, _) => SetSweeps(a.code, Lookup(m, key, op.now, session), value, session)
    case DoDelete(_) => true
    case DoChange(_, _) => true
    case DoCompswitch(_, _, _) => true
    case _ => false
  }

  ghost predicate ServedNow(m: Nodes, op: Op, a: Answer, session: bool, room: nat) {
    a.code == FATAL_OUT_OF_SMEMORY <==>
      op.call.DoSet? && Stores(op.call, Lookup(m, op.call.key, op.now, session), session) && room == 0
  }

  ghost predicate EntriesNow(m: Nodes, last: nat, start: nat, op: Op, room: nat, a: Answer, n: Nodes, session: bool,
                             bucketOf: Entry -> nat, buckets: nat)
  {
    CallStep(m, last, start, op, room, a, CallsNow(m, op, a, session), n, session, bucketOf, buckets)
  }

  /** Everything a call promises, in terms of its own instant. */
  ghost predicate Performed(m: Nodes, last: nat, start: nat, op: Op, room: nat, a: Answer, n: Nodes, last2: nat,
                            start2: nat, session: bool, bucketOf: Entry -> nat, buckets: nat)
  {
    && StepNow(m, op, a, n, session) && Renews(m, n, op.now) && ServedNow(m, op, a, session, room)
    && EntriesNow(m, last, start, op, room, a, n, session, bucketOf, buckets)
    && Swept(CallsNow(m, op, a, session), last, start, last2, start2, n, bucketOf, buckets, op.now)
  }

  /** The cache after a call that found it as s. */
  ghost predicate PerformedOn(s: Snap, op: Op, room: nat, a: Answer, cache: ZvCache)
    reads cache, cache.table, cache.table.heads
  {
    && cache.Valid() && cache.clock == op.now
    && Performed(s.nodes, s.lscavenge, s.scstart, op, room, a, cache.table.nodes, cache.lscavenge, cache.scstart,
                 cache.session, cache.table.bucketOf, cache.table.heads.Length)
  }

  lemma PerformedSteps(t0: Tab, s: Snap, op: Op, room: nat, a: Answer, t1: Tab, t: Snap, session: bool,
                       bucketOf: Entry -> nat, buckets: nat)
    requires Good(t0, bucketOf, s.at, session) && t0.nodes == s.nodes && s.at <= op.now == t.at
             && AllStamped(s.nodes, op.now, session)
    requires Good(t1, bucketOf, op.now, session) && t1.nodes == t.nodes
    requires Performed(s.nodes, s.lscavenge, s.scstart, op, room, a, t.nodes, t.lscavenge, t.scstart, session,
                       bucketOf, buckets)
    ensures MapStep(s, op, a, t, session) && TableStep(s, op, a, t, session, bucketOf, buckets)
    ensures Served(s, op, a, session, room) && EntriesStep(s, op, a, t, session, bucketOf, buckets, room)
  {
    hide EntriesOf, AfterSweep, Used, EntryStep, HeldBy;
    hide Stores, Renews, Swept, Lookup, Aged, OnKey, TableHolds, Indexed, Ordered, AllStamped, SetSweeps, Thinned;
    forall k ensures Aged(View(s, session, k), op.now) == Lookup(s.nodes, k, op.now, session) {
      hide Good;
      LookLater(t0, bucketOf, s.at, op.now, session, k);
    }
    forall k
      ensures if Names(op.call, k) then OnKey(op, a, session, Aged(View(s, session, k), op.now), View(t, session, k))
              else Thinned(Aged(View(s, session, k), op.now), View(t, session, k), op.now)
    {
      assert Lookup(t.nodes, k, op.now, session) == View(t, session, k);
      assert KeyNow(s.nodes, op, a, t.nodes, session, k);
    }
  }

  lemma NothingShown(n: Nodes, k: Path, now: nat, session: bool)
    requires n == map[]
    ensures Lookup(n, k, now, session) == None
  {
  }

  lemma NothingRenewed(m: Nodes, now: nat)
    ensures Renews(m, map[], now)
  {
  }

  lemma CallDone(m: Nodes, last: nat, start: nat, op: Op, room: nat, a: Answer, stores: bool, n: Nodes, session: bool,
                 bucketOf: Entry -> nat, buckets: nat)
    requires stores == CallsNow(m, op, a, session)
    requires EntryStep(EntriesOf(m), HeldBy(m, op, session),
               AfterSweep(EntriesOf(m), bucketOf, last, start, buckets, op.now),
               AfterSweep(Used(EntriesOf(m), HeldBy(m, op, session), op.now), bucketOf, last, start, buckets, op.now),
               op, a, stores, room, EntriesOf(n))
    ensures EntriesNow(m, last, start, op, room, a, n, session, bucketOf, buckets)
  {
    hide EntryStep, EntriesOf, HeldBy, AfterSweep, Used, CallsNow;
  }

  method PerformGet(cache: ZvCache, op: Op) returns (a: Answer)
    requires cache.Ready(op.now) && op.call.DoGet?
    modifies cache`lscavenge, cache`scstart, cache`clock, cache`hitcount, cache`misscount, cache.table,
             cache.table.heads
    ensures PerformedOn(old(SnapOf(cache)), op, 0, a, cache)
  {
    hide Lookup, Renews, Clean, Good, TableHolds, AllStamped, IndexOf, Seconds;
    hide EntriesOf, AfterSweep, Used, Hit, Valued, Shown, Elapsed, EntriesNow;
    hide Alive, Stamped, WithinRange, CellOf, Wrap64, NextStart, WindowEnd, Stale, Holder, Restamped;
    ghost var m := cache.table.nodes;
    var code, value := cache.Get(op.call.key, op.call.copied, op.now);
    a := Answer(code, value);
    assert StepNow(m, op, a, cache.table.nodes, cache.session) by {
      forall k ensures KeyNow(m, op, a, cache.table.nodes, cache.session, k) {
        assert cache.Look(k, op.now) == Lookup(cache.table.nodes, k, op.now, cache.session);
      }
    }
    hide StepNow;
    CallDone(m, old(cache.lscavenge), old(cache.scstart), op, 0, a, false, cache.table.nodes, cache.session,
             cache.table.bucketOf, cache.table.heads.Length);
  }

  method PerformExists(cache: ZvCache, op: Op) returns (a: Answer)
    requires cache.Ready(op.now) && op.call.DoExists?
    modifies cache`lscavenge, cache`scstart, cache`clock, cache`hitcount, cache`misscount, cache.table,
             cache.table.heads
    ensures PerformedOn(old(SnapOf(cache)), op, 0, a, cache)
  {
    hide Lookup, Renews, Clean, Good, TableHolds, AllStamped, IndexOf, Seconds;
    hide EntriesOf, AfterSweep, Used, Hit, Valued, Shown, Elapsed, EntriesNow;
    hide Alive, Stamped, WithinRange, CellOf, Wrap64, NextStart, WindowEnd, Stale, Holder, Restamped;
    ghost var m := cache.table.nodes;
    var found := cache.Exists(op.call.key, op.now);
    a := Answer(if found then NONFATAL else WARNING_ZVCACHE_EMISSING, None);
    RenewsLess(m, m, op.now);
    assert StepNow(m, op, a, cache.table.nodes, cache.session) by {
      forall k ensures KeyNow(m, op, a, cache.table.nodes, cache.session, k) {
        assert cache.Look(k, op.now) == Lookup(cache.table.nodes, k, op.now, cache.session);
      }
    }
    hide StepNow;
    CallDone(m, old(cache.lscavenge), old(cache.scstart), op, 0, a, false, cache.table.nodes, cache.session,
             cache.table.bucketOf, cache.table.heads.Length);
  }

  method PerformSet(cache: ZvCache, op: Op, room: nat) returns (a: Answer)
    requires cache.Ready(op.now) && op.call.DoSet? && (cache.session ==> op.call.value.Str?)
    requires room == 0 || room !in cache.table.nodes
    modifies cache`lscavenge, cache`scstart, cache`clock, cache`hitcount, cache`misscount, cache.table,
             cache.table.heads
    ensures PerformedOn(old(SnapOf(cache)), op, room, a, cache)
  {
    hide Lookup, Renews, Clean, Good, TableHolds, AllStamped, IndexOf, Seconds;
    hide EntriesOf, AfterSweep, Used, Hit, Valued, Shown, Elapsed, EntriesNow, Swept;
    hide Alive, Stamped, WithinRange, CellOf, Wrap64, NextStart, WindowEnd, Stale, Holder, Restamped;
    ghost var m := cache.table.nodes;
    var code := cache.Set(op.call.key, op.call.value, op.call.ttl, op.call.isadd,
                          if room == 0 then None else Some(room), op.now);
    a := Answer(code, None);
    assert StepNow(m, op, a, cache.table.nodes, cache.session) by {
      forall k ensures KeyNow(m, op, a, cache.table.nodes, cache.session, k) {
        assert cache.Look(k, op.now) == Lookup(cache.table.nodes, k, op.now, cache.session);
      }
    }
    hide StepNow;
    ghost var was := Lookup(m, op.call.key, op.now, cache.session);
    CallDone(m, old(cache.lscavenge), old(cache.scstart), op, room, a,
             SetSweeps(code, was, op.call.value, cache.session), cache.table.nodes, cache.session,
             cache.table.bucketOf, cache.table.heads.Length);
  }

  method PerformDelete(cache: ZvCache, op: Op) returns (a: Answer)
    requires cache.Ready(op.now) && op.call.DoDelete?
    modifies cache`lscavenge, cache`scstart, cache`clock, cache`hitcount, cache`misscount, cache.table,
             cache.table.heads
    ensures PerformedOn(old(SnapOf(cache)), op, 0, a, cache)
  {
    hide Lookup, Renews, Clean, Good, TableHolds, AllStamped, IndexOf, Seconds;
    hide EntriesOf, AfterSweep, Used, Hit, Valued, Shown, Elapsed, EntriesNow, Swept;
    hide Alive, Stamped, WithinRange, CellOf, Wrap64, NextStart, WindowEnd, Stale, Holder, Restamped;
    ghost var m := cache.table.nodes;
    var code := cache.Delete(op.call.key, op.now);
    a := Answer(code, None);
    assert StepNow(m, op, a, cache.table.nodes, cache.session) by {
      forall k ensures KeyNow(m, op, a, cache.table.nodes, cache.session, k) {
        assert cache.Look(k, op.now) == Lookup(cache.table.nodes, k, op.now, cache.session);
      }
    }
    hide StepNow;
    CallDone(m, old(cache.lscavenge), old(cache.scstart), op, 0, a, true, cache.table.nodes, cache.session,
             cache.table.bucketOf, cache.table.heads.Length);
  }

  method PerformChange(cache: ZvCache, op: Op) returns (a: Answer)
    requires cache.Ready(op.now) && op.call.DoChange?
    modifies cache`lscavenge, cache`scstart, cache`clock, cache`hitcount, cache`misscount, cache.table,
             cache.table.heads
    ensures PerformedOn(old(SnapOf(cache)), op, 0, a, cache)
  {
    hide Lookup, Renews, Clean, Good, TableHolds, AllStamped, IndexOf, Seconds;
    hide EntriesOf, AfterSweep, Used, Hit, Valued, Shown, Elapsed, EntriesNow, Swept;
    hide Alive, Stamped, WithinRange, CellOf, Wrap64, NextStart, WindowEnd, Stale, Holder, Restamped;
    ghost var m := cache.table.nodes;
    var code, newvalue := cache.Change(op.call.key, op.call.delta, op.now);
    a := Answer(code, if code == NONFATAL then Some(Long(newvalue)) else None);
    assert StepNow(m, op, a, cache.table.nodes, cache.session) by {
      forall k ensures KeyNow(m, op, a, cache.table.nodes, cache.session, k) {
        assert cache.Look(k, op.now) == Lookup(cache.table.nodes, k, op.now, cache.session);
        if k == op.call.key {
          assert OnKey(op, a, cache.session, Lookup(m, k, op.now, cache.session),
                       Lookup(cache.table.nodes, k, op.now, cache.session));
        }
      }
    }
    hide StepNow;
    CallDone(m, old(cache.lscavenge), old(cache.scstart), op, 0, a, true, cache.table.nodes, cache.session,
             cache.table.bucketOf, cache.table.heads.Length);
  }

  method PerformCompswitch(cache: ZvCache, op: Op) returns (a: Answer)
    requires cache.Ready(op.now) && op.call.DoCompswitch?
    modifies cache`lscavenge, cache`scstart, cache`clock, cache`hitcount, cache`misscount, cache.table,
             cache.table.heads
    ensures PerformedOn(old(SnapOf(cache)), op, 0, a, cache)
  {
    hide Lookup, Renews, Clean, Good, TableHolds, AllStamped, IndexOf, Seconds;
    hide EntriesOf, AfterSweep, Used, Hit, Valued, Shown, Elapsed, EntriesNow, Swept;
    hide Alive, Stamped, WithinRange, CellOf, Wrap64, NextStart, WindowEnd, Stale, Holder, Restamped;
    ghost var m := cache.table.nodes;
    var code := cache.Compswitch(op.call.key, op.call.oldvalue, op.call.newvalue, op.now);
    a := Answer(code, None);
    assert StepNow(m, op, a, cache.table.nodes, cache.session) by {
      forall k ensures KeyNow(m, op, a, cache.table.nodes, cache.session, k) {
        assert cache.Look(k, op.now) == Lookup(cache.table.nodes, k, op.now, cache.session);
      }
    }
    hide StepNow;
    CallDone(m, old(cache.lscavenge), old(cache.scstart), op, 0, a, true, cache.table.nodes, cache.session,
             cache.table.bucketOf, cache.table.heads.Length);
  }

  method PerformClear(cache: ZvCache, op: Op) returns (a: Answer)
    requires cache.Ready(op.now) && op.call.DoClear?
    modifies cache`lscavenge, cache`scstart, cache`clock, cache`hitcount, cache`misscount, cache.table,
             cache.table.heads
    ensures PerformedOn(old(SnapOf(cache)), op, 0, a, cache)
  {
    hide Lookup, Renews, Clean, Good, TableHolds, AllStamped, IndexOf, Seconds;
    hide EntriesOf, AfterSweep, Used, Hit, Valued, Shown, Elapsed, EntriesNow;
    hide Alive, Stamped, WithinRange, CellOf, Wrap64, NextStart, WindowEnd, Stale, Holder, Restamped;
    ghost var m := cache.table.nodes;
    cache.Clear(op.now);
    a := Answer(NONFATAL, None);
    assert StepNow(m, op, a, cache.table.nodes, cache.session) by {
      forall k ensures KeyNow(m, op, a, cache.table.nodes, cache.session, k) {
        NothingShown(cache.table.nodes, k, op.now, cache.session);
      }
    }
    hide StepNow;
    CallDone(m, old(cache.lscavenge), old(cache.scstart), op, 0, a, false, cache.table.nodes, cache.session,
             cache.table.bucketOf, cache.table.heads.Length);
    NothingRenewed(m, op.now);
  }

  /** One call.  room is what the allocator offers to a new entry: an offset not in use, or 0 when it refuses. */
  method Perform(cache: ZvCache, op: Op, room: nat) returns (a: Answer)
    requires cache.Ready(op.now) && (cache.session && op.call.DoSet? ==> op.call.value.Str?)
    requires room == 0 || room !in cache.table.nodes
    modifies cache`lscavenge, cache`scstart, cache`clock, cache`hitcount, cache`misscount, cache.table,
             cache.table.heads
    ensures PerformedOn(old(SnapOf(cache)), op, room, a, cache)
  {
    hide Performed, Good, TableHolds, AllStamped;
    match op.call {
      case DoGet(_, _) =>
        a := PerformGet(cache, op);
      case DoExists(_) =>
        a := PerformExists(cache, op);
      case DoSet(_, _, _, _) =>
        a := PerformSet(cache, op, room);
      case DoDelete(_) =>
        a := PerformDelete(cache, op);
      case DoChange(_, _) =>
        a := PerformChange(cache, op);
      case DoCompswitch(_, _, _) =>
        a := PerformCompswitch(cache, op);
      case DoClear =>
        a := PerformClear(cache, op);
    }
    if !op.call.DoSet? {
      AnyRoom(old(SnapOf(cache)), op, room, a, cache);
    }
  }

  lemma AnyRoom(s: Snap, op: Op, room: nat, a: Answer, cache: ZvCache)
    requires PerformedOn(s, op, 0, a, cache) && !op.call.DoSet?
    ensures PerformedOn(s, op, room, a, cache)
  {
    hide StepNow, Renews, Swept, Good, EntriesOf, AfterSweep, Used, Hit, Valued, HeldBy;
  }

  lemma GoodStamped(t: Tab, bucketOf: Entry -> nat, now: nat, session: bool)
    requires Good(t, bucketOf, now, session)
    ensures AllStamped(t.nodes, now, session) && Indexed(bucketOf, |t.heads|)
  {
  }

  /** Stamps that are in order now and at the end of a run are in order in between. */
  lemma StampedSooner(n: Nodes, t1: nat, t: nat, last: nat, session: bool)
    requires AllStamped(n, t1, session) && AllStamped(n, last, session) && t1 <= t <= last
    ensures AllStamped(n, t, session)
  {
    forall o | o in n ensures Stamped(n[o].data, t, session) {
      assert Stamped(n[o].data, t1, session) && Stamped(n[o].data, last, session);
    }
  }

  lemma RunGrows(snaps: seq<Snap>, ops: seq<Op>, answers: seq<Answer>, a: Answer, t: Snap, session: bool,
                 bucketOf: Entry -> nat, buckets: nat)
    requires |answers| < |ops| && MapRun(snaps, ops[..|answers|], answers, session)
             && TableRun(snaps, ops[..|answers|], answers, session, bucketOf, buckets)
    requires MapStep(snaps[|answers|], ops[|answers|], a, t, session)
             && TableStep(snaps[|answers|], ops[|answers|], a, t, session, bucketOf, buckets)
    ensures MapRun(snaps + [t], ops[..|answers| + 1], answers + [a], session)
    ensures TableRun(snaps + [t], ops[..|answers| + 1], answers + [a], session, bucketOf, buckets)
  {
    hide MapStep, TableStep;
    var n := |answers|;
    var more, done := ops[..n + 1], answers + [a];
    forall i | 0 <= i < |more|
      ensures MapStep((snaps + [t])[i], more[i], done[i], (snaps + [t])[i + 1], session)
      ensures TableStep((snaps + [t])[i], more[i], done[i], (snaps + [t])[i + 1], session, bucketOf, buckets)
    {
      if i < n {
        assert more[i] == ops[..n][i] && done[i] == answers[i];
      }
    }
  }

  /** Any run of calls on a cache is a run of calls on an expiring map, and of its table.  place(i, s) is what
      the allocator offers to call number i when the offsets s are in use, 0 when it refuses. */
  method Run(cache: ZvCache, ops: seq<Op>, place: (nat, set<nat>) -> nat, ghost last: nat)
    returns (answers: seq<Answer>, ghost snaps: seq<Snap>)
    requires cache.Valid() && Timed(cache.table.nodes, cache.clock, ops, last, cache.session)
    requires forall i, s {:trigger place(i, s)} :: place(i, s) == 0 || place(i, s) !in s
    modifies cache`lscavenge, cache`scstart, cache`clock, cache`hitcount, cache`misscount, cache.table,
             cache.table.heads
    ensures ServedRun(snaps, ops, answers, cache.session, place)
    ensures EntriesRun(snaps, ops, answers, cache.session, cache.table.bucketOf, cache.table.heads.Length, place)
    ensures cache.Valid() && MapRun(snaps, ops, answers, cache.session)
    ensures TableRun(snaps, ops, answers, cache.session, cache.table.bucketOf, cache.table.heads.Length)
    ensures snaps[0] == old(SnapOf(cache)) && snaps[|ops|] == SnapOf(cache)
    ensures Indexed(cache.table.bucketOf, cache.table.heads.Length)
  {
    hide Performed, Good, TableHolds, AllStamped, MapStep, TableStep, Indexed, Served, EntriesStep;
    answers, snaps := [], [SnapOf(cache)];
    for i := 0 to |ops|
      invariant cache.Valid() && |answers| == i && |snaps| == i + 1 && snaps[0] == old(SnapOf(cache))
                && snaps[i] == SnapOf(cache)
      invariant AllStamped(cache.table.nodes, last, cache.session) && cache.clock <= last
      invariant i < |ops| ==> cache.clock <= ops[i].now
      invariant MapRun(snaps, ops[..i], answers, cache.session)
      invariant TableRun(snaps, ops[..i], answers, cache.session, cache.table.bucketOf, cache.table.heads.Length)
      invariant forall j {:trigger answers[j]} :: 0 <= j < i ==>
                  && Served(snaps[j], ops[j], answers[j], cache.session, place(j, snaps[j].nodes.Keys))
                  && EntriesStep(snaps[j], ops[j], answers[j], snaps[j + 1], cache.session, cache.table.bucketOf,
                                 cache.table.heads.Length, place(j, snaps[j].nodes.Keys))
    {
      var room := place(i, cache.table.nodes.Keys);
      var a := PerformNext(cache, ops, i, room, last);
      ghost var t := SnapOf(cache);
      RunGrows(snaps, ops, answers, a, t, cache.session, cache.table.bucketOf, cache.table.heads.Length);
      answers, snaps := answers + [a], snaps + [t];
    }
    assert ops[..|ops|] == ops;
    GoodStamped(cache.State(), cache.table.bucketOf, cache.clock, cache.session);
  }

  /** One call of a timed run. */
  method PerformNext(cache: ZvCache, ops: seq<Op>, i: nat, room: nat, ghost last: nat) returns (a: Answer)
    requires cache.Valid() && i < |ops| && cache.clock <= ops[i].now <= last < ops[i].now + TICK_RANGE
    requires AllStamped(cache.table.nodes, last, cache.session)
             && (cache.session && ops[i].call.DoSet? ==> ops[i].call.value.Str?)
    requires room == 0 || room !in cache.table.nodes
    modifies cache`lscavenge, cache`scstart, cache`clock, cache`hitcount, cache`misscount, cache.table,
             cache.table.heads
    ensures cache.Valid() && AllStamped(cache.table.nodes, last, cache.session) && cache.clock == ops[i].now
    ensures MapStep(old(SnapOf(cache)), ops[i], a, SnapOf(cache), cache.session)
    ensures Served(old(SnapOf(cache)), ops[i], a, cache.session, room)
    ensures EntriesStep(old(SnapOf(cache)), ops[i], a, SnapOf(cache), cache.session, cache.table.bucketOf,
              cache.table.heads.Length, room)
    ensures TableStep(old(SnapOf(cache)), ops[i], a, SnapOf(cache), cache.session, cache.table.bucketOf,
              cache.table.heads.Length)
  {
    hide Good, TableHolds, AllStamped, MapStep, TableStep, StepNow, Swept, CallsNow, Renews, Served, ServedNow;
    hide EntriesStep, EntriesNow;
    ghost var s, t0 := SnapOf(cache), cache.State();
    GoodStamped(t0, cache.table.bucketOf, cache.clock, cache.session);
    StampedSooner(cache.table.nodes, cache.clock, ops[i].now, last, cache.session);
    a := Perform(cache, ops[i], room);
    GoodStamped(cache.State(), cache.table.bucketOf, cache.clock, cache.session);
    RenewsStamped(s.nodes, cache.table.nodes, ops[i].now, last, cache.session);
    PerformedSteps(t0, s, ops[i], room, a, cache.State(), SnapOf(cache), cache.session, cache.table.bucketOf,
                   cache.table.heads.Length);
  }
}
