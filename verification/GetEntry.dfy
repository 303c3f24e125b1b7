/** aplist_getentry run by any number of processes.  Each region under the file table's lock is one
    atomic step; the lock is dropped while a new entry is being created. */
module GetEntry {
  import opened Basics
  import opened PathIndex

  // An entry, with the number of its creation: memory is reused, numbers are not.  ticks is add_ticks.
  datatype Ent = Ent(id: nat, path: Path, ticks: nat)

  // What checking an entry against its file says.
  datatype Check = Same | Changed | CheckFails

  // Where a process is.  found is the entry it found changed, addtick the tick to compare, mine its own.
  datatype PC =
    | Idle
    | Entered(path: Path)
    | Creating(path: Path, found: Option<nat>, addtick: nat)
    | Created(path: Path, found: Option<nat>, addtick: nat, mine: Ent)
    | Finished(path: Path, found: Option<nat>, result: Option<nat>)

  // made: every entry ever created; freed: those given back to the allocator.
  datatype State = State(table: seq<Ent>, pcs: seq<PC>, made: map<nat, Ent>, freed: set<nat>)

  datatype Step =
    | Enter(p: nat, path: Path)
    | First(p: nat, gone: set<nat>, check: Check)     // first locked region; gone: what its scavenger removes
    | Sweep(p: nat, gone: set<nat>)                   // full scavenger run, when there is no memory
    | Create(p: nat, ok: bool, id: nat, ticks: nat)   // the new entry is created, or not
    | Second(p: nat)                                  // second locked region
    | Others(gone: set<nat>)                          // any other removal by anybody

  /** The first entry of the table for a path. */
  function Find(table: seq<Ent>, path: Path): (r: Option<Ent>)
    ensures match r
            case Some(e) => e in table && SamePath(e.path, path)
            case None => forall e {:trigger e in table} :: e in table ==> !SamePath(e.path, path)
  {
    assert table != [] ==> table == [table[0]] + table[1..];
    if table == [] then None
    else if SamePath(table[0].path, path) then Some(table[0])
    else Find(table[1..], path)
  }

  /** The table without the entries in gone. */
  function Drop(table: seq<Ent>, gone: set<nat>): (r: seq<Ent>)
    ensures forall e {:trigger e in r} {:trigger e in table} :: e in r <==> e in table && e.id !in gone
  {
    assert table != [] ==> table == [table[0]] + table[1..];
    if table == [] then []
    else if table[0].id in gone then Drop(table[1..], gone)
    else [table[0]] + Drop(table[1..], gone)
  }

  function Ids(table: seq<Ent>): (r: set<nat>)
    ensures forall e {:trigger e in table} :: e in table ==> e.id in r
  {
    assert table != [] ==> table == [table[0]] + table[1..] && table[0] in table;
    if table == [] then {} else Ids(table[1..]) + {table[0].id}
  }

  lemma {:induction false} IdsWithin(table: seq<Ent>, ids: set<nat>)
    requires forall e {:trigger e in table} :: e in table ==> e.id in ids
    ensures Ids(table) <= ids
  {
    if table != [] {
      assert table[0] in table;
      forall e | e in table[1..] ensures e.id in ids {
        assert e in table;
      }
      IdsWithin(table[1..], ids);
    }
  }

  /** remove_aplist_entry for the entries of the table that are in gone. */
  function Removed(s: State, gone: set<nat>): State {
    s.(table := Drop(s.table, gone), freed := s.freed + (gone * Ids(s.table)))
  }

  function Goes(s: State, p: nat, pc: PC): State
    requires p < |s.pcs|
  {
    s.(pcs := s.pcs[p := pc])
  }

  /** The first locked region: scavenge, find, check. */
  function FirstRegion(s: State, p: nat, gone: set<nat>, check: Check): State
    requires p < |s.pcs| && s.pcs[p].Entered?
  {
    var path, t := s.pcs[p].path, Removed(s, gone);
    match Find(t.table, path)
    case None => Goes(t, p, Creating(path, None, 0))
    case Some(e) =>
      match check
      case Same => Goes(t, p, Finished(path, None, Some(e.id)))
      case Changed => Goes(t, p, Creating(path, Some(e.id), e.ticks))
      case CheckFails => Goes(t, p, Finished(path, None, None))
  }

  /** The second locked region: look again, then link or destroy the new entry. */
  function SecondRegion(s: State, p: nat): State
    requires p < |s.pcs| && s.pcs[p].Created?
  {
    var pc := s.pcs[p];
    match Find(s.table, pc.path)
    case Some(e) =>
      if e.ticks == pc.addtick then
        var t := Removed(s, {e.id});
        Goes(t.(table := t.table + [pc.mine]), p, Finished(pc.path, pc.found, Some(pc.mine.id)))
      else
        Goes(s.(freed := s.freed + {pc.mine.id}), p, Finished(pc.path, pc.found, Some(e.id)))
    case None =>
      Goes(s.(table := s.table + [pc.mine]), p, Finished(pc.path, pc.found, Some(pc.mine.id)))
  }

  /** One step; a step that is not possible changes nothing. */
  function Next(s: State, step: Step): State {
    match step
    case Enter(p, path) =>
      if p < |s.pcs| && (s.pcs[p].Idle? || s.pcs[p].Finished?) then Goes(s, p, Entered(path)) else s
    case First(p, gone, check) =>
      if p < |s.pcs| && s.pcs[p].Entered? then FirstRegion(s, p, gone, check) else s
    case Sweep(p, gone) =>
      if p < |s.pcs| && s.pcs[p].Creating? then Removed(s, gone) else s
    case Create(p, ok, id, ticks) =>
      if p < |s.pcs| && s.pcs[p].Creating? && !ok then
        Goes(s, p, Finished(s.pcs[p].path, s.pcs[p].found, None))
      else if p < |s.pcs| && s.pcs[p].Creating? && id !in s.made then
        var e := Ent(id, s.pcs[p].path, ticks);
        Goes(s.(made := s.made[id := e]), p, Created(s.pcs[p].path, s.pcs[p].found, s.pcs[p].addtick, e))
      else s
    case Second(p) =>
      if p < |s.pcs| && s.pcs[p].Created? then SecondRegion(s, p) else s
    case Others(gone) =>
      Removed(s, gone)
  }

  // ----- The invariant -----

  /** No two entries for one path. */
  ghost predicate OnePerPath(table: seq<Ent>) {
    forall i, j {:trigger table[i], table[j]} :: 0 <= i < j < |table| ==> !SamePath(table[i].path, table[j].path)
  }

  /** Every entry in the table is one that was created, unaltered, and not freed. */
  ghost predicate Linked(s: State) {
    forall e {:trigger e in s.table} :: e in s.table ==> e.id in s.made && s.made[e.id] == e && e.id !in s.freed
  }

  ghost predicate PcOk(s: State, pc: PC) {
    && (pc.Creating? || pc.Created? || pc.Finished? ==>
          pc.found.Some? ==> pc.found.value in s.made && SamePath(s.made[pc.found.value].path, pc.path))
    && (pc.Creating? || pc.Created? ==> pc.found.Some? ==> pc.addtick == s.made[pc.found.value].ticks)
    && (pc.Creating? || pc.Created? ==> pc.found.None? ==> pc.addtick == 0)
    && (pc.Created? ==>
          pc.mine.path == pc.path && pc.mine.id in s.made && s.made[pc.mine.id] == pc.mine
          && pc.found != Some(pc.mine.id)
                        && pc.mine !in s.table && pc.mine.id !in s.freed)
    && (pc.Finished? && pc.result.Some? ==>
          pc.result.value in s.made && SamePath(s.made[pc.result.value].path, pc.path) && pc.result != pc.found)
  }

  ghost predicate PcsOk(s: State) {
    && (forall p {:trigger s.pcs[p]} :: 0 <= p < |s.pcs| ==> PcOk(s, s.pcs[p]))
    && (forall p, q {:trigger s.pcs[p], s.pcs[q]} ::
          0 <= p < q < |s.pcs| && s.pcs[p].Created? && s.pcs[q].Created? ==> s.pcs[p].mine.id != s.pcs[q].mine.id)
  }

  /** Every entry created is in the table, freed, or still with the process that created it. */
  ghost predicate Accounted(s: State) {
    && s.freed <= s.made.Keys
    && (forall id {:trigger s.made[id]} :: id in s.made ==> s.made[id].id == id)
    && forall id {:trigger id in s.made} :: id in s.made ==>
         id in s.freed || s.made[id] in s.table || exists p {:trigger s.pcs[p]} ::
               0 <= p < |s.pcs| && s.pcs[p].Created? && s.pcs[p].mine.id == id
  }

  ghost predicate Inv(s: State) {
    OnePerPath(s.table) && Linked(s) && PcsOk(s) && Accounted(s)
  }

  lemma {:induction false} DropOnePerPath(table: seq<Ent>, gone: set<nat>)
    requires OnePerPath(table)
    ensures OnePerPath(Drop(table, gone))
  {
    hide SamePath;
    if table != [] {
      var rest := table[1..];
      DropOnePerPath(rest, gone);
      var d := Drop(rest, gone);
      forall j | 0 <= j < |d| ensures !SamePath(table[0].path, d[j].path) {
        assert d[j] in rest;
      }
    }
  }

  /** There is one entry at most for a path, so Find finds it. */
  lemma FindUnique(table: seq<Ent>, path: Path, e: Ent)
    requires OnePerPath(table) && e in table && SamePath(e.path, path)
    ensures Find(table, path) == Some(e)
  {
    var f := Find(table, path).value;
    SamePaths(e.path, f.path, path);
    var i :| 0 <= i < |table| && table[i] == e;
    var j :| 0 <= j < |table| && table[j] == f;
    SamePaths(table[i].path, table[j].path, path);
    assert i == j;
  }

  lemma SamePaths(a: Path, b: Path, c: Path)
    requires SamePath(a, c) && SamePath(b, c)
    ensures SamePath(a, b) && SamePath(b, a)
  {
  }

  lemma RemovedAccount(s: State, gone: set<nat>, id: nat)
    requires Accounted(s) && id in s.made && s.made[id].id == id
    ensures var t := Removed(s, gone);
            id in t.freed || t.made[id] in t.table || exists p {:trigger t.pcs[p]} ::
                  0 <= p < |t.pcs| && t.pcs[p].Created? && t.pcs[p].mine.id == id
  {
    hide SamePath, Drop, Ids;
    var t := Removed(s, gone);
    if id !in s.freed && s.made[id] !in s.table {
      var p :| 0 <= p < |s.pcs| && s.pcs[p].Created? && s.pcs[p].mine.id == id;
      assert t.pcs[p] == s.pcs[p];
    }
  }

  lemma RemovedInv(s: State, gone: set<nat>)
    requires Inv(s)
    ensures Inv(Removed(s, gone)) && Removed(s, gone).made == s.made && Removed(s, gone).pcs == s.pcs
  {
    hide SamePath, Drop, Ids;
    var t := Removed(s, gone);
    DropOnePerPath(s.table, gone);
    hide OnePerPath;
    IdsWithin(s.table, s.made.Keys);
    forall e | e in t.table ensures e.id in t.made && t.made[e.id] == e && e.id !in t.freed {
      assert e in s.table;
    }
    forall p | 0 <= p < |t.pcs| ensures PcOk(t, t.pcs[p]) {
      RemovedPc(s, gone, s.pcs[p]);
    }
    forall id | id in t.made
      ensures id in t.freed || t.made[id] in t.table || exists p {:trigger t.pcs[p]} ::
                0 <= p < |t.pcs| && t.pcs[p].Created? && t.pcs[p].mine.id == id
    {
      RemovedAccount(s, gone, id);
    }
  }

  /** A created entry is not in the table. */
  lemma NotLinked(s: State, pc: PC)
    requires Linked(s) && PcOk(s, pc) && pc.Created?
    ensures pc.mine.id !in Ids(s.table)
  {
    hide SamePath;
    forall e | e in s.table ensures e.id != pc.mine.id {
      assert s.made[e.id] == e;
    }
    IdsWithin(s.table, Ids(s.table) - {pc.mine.id});
  }

  lemma RemovedPc(s: State, gone: set<nat>, pc: PC)
    requires Linked(s) && PcOk(s, pc)
    ensures PcOk(Removed(s, gone), pc)
  {
    hide SamePath, Drop, Ids;
    if pc.Created? {
      NotLinked(s, pc);
    }
  }

  /** The accounts after process p moves on without having held an entry. */
  lemma GoesInv(s: State, p: nat, pc: PC)
    requires Inv(s) && p < |s.pcs| && PcOk(s, pc) && !s.pcs[p].Created? && !pc.Created?
    ensures Inv(Goes(s, p, pc))
  {
    hide SamePath, OnePerPath;
    var t := Goes(s, p, pc);
    forall q | 0 <= q < |t.pcs| ensures PcOk(t, t.pcs[q]) {
      assert t.pcs[q] == if q == p then pc else s.pcs[q];
      SamePcOk(s, t, t.pcs[q]);
    }
    forall id | id in t.made
      ensures id in t.freed || t.made[id] in t.table || exists q {:trigger t.pcs[q]} ::
                0 <= q < |t.pcs| && t.pcs[q].Created? && t.pcs[q].mine.id == id
    {
      HeldStill(s, t, p, id);
    }
  }

  lemma SamePcOk(s: State, t: State, pc: PC)
    requires PcOk(s, pc) && t.made == s.made && t.table == s.table && t.freed == s.freed
    ensures PcOk(t, pc)
  {
    hide SamePath;
  }

  /** Accounts that do not rest on process p. */
  lemma HeldStill(s: State, t: State, p: nat, id: nat)
    requires Accounted(s) && id in s.made && p < |s.pcs| == |t.pcs| && t.pcs == s.pcs[p := t.pcs[p]]
    requires s.pcs[p].Created? ==> s.pcs[p].mine.id != id
    ensures id in s.freed || s.made[id] in s.table || exists q {:trigger t.pcs[q]} ::
              0 <= q < |t.pcs| && t.pcs[q].Created? && t.pcs[q].mine.id == id
  {
    if id !in s.freed && s.made[id] !in s.table {
      var q :| 0 <= q < |s.pcs| && s.pcs[q].Created? && s.pcs[q].mine.id == id;
      assert t.pcs[q] == s.pcs[q];
    }
  }

  lemma CreateInv(s: State, p: nat, id: nat, ticks: nat)
    requires Inv(s) && p < |s.pcs| && s.pcs[p].Creating? && id !in s.made
    ensures Inv(Next(s, Create(p, true, id, ticks)))
  {
    hide SamePath, OnePerPath;
    var t := Next(s, Create(p, true, id, ticks));
    assert t.table == s.table && t.freed == s.freed && t.pcs == s.pcs[p := t.pcs[p]];
    forall q | 0 <= q < |t.pcs| ensures PcOk(t, t.pcs[q]) {
      assert q != p ==> t.pcs[q] == s.pcs[q] && PcOk(s, s.pcs[q]);
      assert PcOk(s, s.pcs[p]);
    }
    forall i | i in t.made
      ensures i in t.freed || t.made[i] in t.table || exists q {:trigger t.pcs[q]} ::
                0 <= q < |t.pcs| && t.pcs[q].Created? && t.pcs[q].mine.id == i
    {
      if i == id {
        assert t.pcs[p].Created?;
      } else {
        HeldStill(s, t, p, i);
      }
    }
  }

  /** The new entry is linked: there is no other for its path. */
  lemma LinkInv(s: State, p: nat)
    requires Inv(s) && p < |s.pcs| && s.pcs[p].Created? && Find(s.table, s.pcs[p].path) == None
    ensures var pc := s.pcs[p]; Inv(Goes(s.(table := s.table + [pc.mine]), p,
                            Finished(pc.path, pc.found, Some(pc.mine.id))))
  {
    hide SamePath, Find;
    var pc := s.pcs[p];
    var t := Goes(s.(table := s.table + [pc.mine]), p, Finished(pc.path, pc.found, Some(pc.mine.id)));
    assert PcOk(s, pc);
    forall f | f in s.table ensures !SamePath(f.path, pc.mine.path) {
    }
    LinkOnePerPath(s.table, pc.mine);
    hide OnePerPath;
    assert forall e {:trigger e in t.table} :: e in t.table <==> e in s.table || e == pc.mine;
    forall q | 0 <= q < |t.pcs| ensures PcOk(t, t.pcs[q]) {
      if q == p {
        SelfPath(pc.path);
      } else {
        assert t.pcs[q] == s.pcs[q] && PcOk(s, s.pcs[q]);
        if s.pcs[q].Created? {
          Apart(s, p, q);
        }
      }
    }
    forall i | i in t.made
      ensures i in t.freed || t.made[i] in t.table || exists q {:trigger t.pcs[q]} ::
                0 <= q < |t.pcs| && t.pcs[q].Created? && t.pcs[q].mine.id == i
    {
      if i != pc.mine.id {
        HeldStill(s, t, p, i);
      }
    }
  }

  lemma SelfPath(path: Path)
    ensures SamePath(path, path)
  {
  }

  lemma Apart(s: State, p: nat, q: nat)
    requires PcsOk(s) && p < |s.pcs| && q < |s.pcs| && p != q && s.pcs[p].Created? && s.pcs[q].Created?
    ensures s.pcs[p].mine.id != s.pcs[q].mine.id
  {
    hide PcOk;
    if p < q {
      assert s.pcs[p].mine.id != s.pcs[q].mine.id;
    } else {
      assert s.pcs[q].mine.id != s.pcs[p].mine.id;
    }
  }

  lemma LinkOnePerPath(table: seq<Ent>, e: Ent)
    requires OnePerPath(table) && forall f {:trigger f in table} :: f in table ==> !SamePath(f.path, e.path)
    ensures OnePerPath(table + [e])
  {
    hide SamePath;
    var t := table + [e];
    forall i, j | 0 <= i < j < |t| ensures !SamePath(t[i].path, t[j].path) {
      assert t[i] in table;
    }
  }

  /** Another process has put an entry there: the new one is destroyed. */
  lemma DestroyInv(s: State, p: nat, e: Ent)
    requires Inv(s) && p < |s.pcs| && s.pcs[p].Created? && e in s.table && SamePath(e.path, s.pcs[p].path)
             && e.ticks != s.pcs[p].addtick
    ensures var pc := s.pcs[p]; Inv(Goes(s.(freed := s.freed + {pc.mine.id}), p,
                            Finished(pc.path, pc.found, Some(e.id))))
  {
    hide SamePath, OnePerPath;
    var pc := s.pcs[p];
    var t := Goes(s.(freed := s.freed + {pc.mine.id}), p, Finished(pc.path, pc.found, Some(e.id)));
    assert PcOk(s, pc) && s.made[e.id] == e;
    forall q | 0 <= q < |t.pcs| ensures PcOk(t, t.pcs[q]) {
      if q != p {
        assert t.pcs[q] == s.pcs[q] && PcOk(s, s.pcs[q]);
        if s.pcs[q].Created? {
          Apart(s, p, q);
        }
      }
    }
    forall f | f in t.table ensures f.id !in t.freed {
      assert s.made[f.id] == f && f != pc.mine;
    }
    forall i | i in t.made
      ensures i in t.freed || t.made[i] in t.table || exists q {:trigger t.pcs[q]} ::
                0 <= q < |t.pcs| && t.pcs[q].Created? && t.pcs[q].mine.id == i
    {
      if i != pc.mine.id {
        HeldStill(s, t, p, i);
      }
    }
  }

  lemma SecondInv(s: State, p: nat)
    requires Inv(s) && p < |s.pcs| && s.pcs[p].Created?
    ensures Inv(SecondRegion(s, p))
  {
    hide SamePath, Inv, Find, Drop, Ids;
    var pc := s.pcs[p];
    match Find(s.table, pc.path)
    case Some(e) =>
      if e.ticks == pc.addtick {
        RemovedInv(s, {e.id});
        NoneLeft(s, pc.path, e);
        LinkInv(Removed(s, {e.id}), p);
      } else {
        DestroyInv(s, p, e);
      }
    case None =>
      LinkInv(s, p);
  }

  /** Once the entry of a path is removed there is none. */
  lemma NoneLeft(s: State, path: Path, e: Ent)
    requires Inv(s) && Find(s.table, path) == Some(e)
    ensures Find(Removed(s, {e.id}).table, path) == None
  {
    hide SamePath, Find, Drop, Ids, PcsOk, Accounted;
    forall f | f in Removed(s, {e.id}).table ensures !SamePath(f.path, path) {
      if SamePath(f.path, path) {
        FindUnique(s.table, path, f);
      }
    }
  }

  lemma FirstInv(s: State, p: nat, gone: set<nat>, check: Check)
    requires Inv(s) && p < |s.pcs| && s.pcs[p].Entered?
    ensures Inv(FirstRegion(s, p, gone, check))
  {
    hide SamePath, Find, Drop, Ids, OnePerPath, Accounted, PcsOk;
    RemovedInv(s, gone);
    var path, t := s.pcs[p].path, Removed(s, gone);
    match Find(t.table, path)
    case None =>
      GoesInv(t, p, Creating(path, None, 0));
    case Some(e) =>
      assert e.id in t.made && t.made[e.id] == e;
      match check
      case Same => GoesInv(t, p, Finished(path, None, Some(e.id)));
      case Changed => GoesInv(t, p, Creating(path, Some(e.id), e.ticks));
      case CheckFails => GoesInv(t, p, Finished(path, None, None));
  }

  lemma NextInv(s: State, step: Step)
    requires Inv(s)
    ensures Inv(Next(s, step))
  {
    hide SamePath, Inv, PcOk, Removed, FirstRegion, SecondRegion, Goes;
    match step
    case Enter(p, path) =>
      if p < |s.pcs| && (s.pcs[p].Idle? || s.pcs[p].Finished?) {
        EnterInv(s, p, path);
      }
    case First(p, gone, check) =>
      if p < |s.pcs| && s.pcs[p].Entered? {
        FirstInv(s, p, gone, check);
      }
    case Sweep(p, gone) =>
      RemovedInv(s, gone);
    case Create(p, ok, id, ticks) =>
      if p < |s.pcs| && s.pcs[p].Creating? && !ok {
        FailInv(s, p);
      } else if p < |s.pcs| && s.pcs[p].Creating? && id !in s.made {
        CreateInv(s, p, id, ticks);
      }
    case Second(p) =>
      if p < |s.pcs| && s.pcs[p].Created? {
        SecondInv(s, p);
      }
    case Others(gone) =>
      RemovedInv(s, gone);
  }

  lemma EnterInv(s: State, p: nat, path: Path)
    requires Inv(s) && p < |s.pcs| && (s.pcs[p].Idle? || s.pcs[p].Finished?)
    ensures Inv(Goes(s, p, Entered(path)))
  {
    hide Inv;
    GoesInv(s, p, Entered(path));
  }

  lemma FailInv(s: State, p: nat)
    requires Inv(s) && p < |s.pcs| && s.pcs[p].Creating?
    ensures Inv(Goes(s, p, Finished(s.pcs[p].path, s.pcs[p].found, None)))
  {
    hide SamePath, OnePerPath, Accounted;
    assert PcOk(s, s.pcs[p]);
    GoesInv(s, p, Finished(s.pcs[p].path, s.pcs[p].found, None));
  }

  // ----- What the two regions do -----

  /** Everything but process p, its table and the freed entries is as before. */
  ghost predicate OnlyMoves(s: State, t: State, p: nat) {
    |t.pcs| == |s.pcs| && t.made == s.made && forall q {:trigger t.pcs[q]} :: 0 <= q < |s.pcs| && q != p ==>
      t.pcs[q] == s.pcs[q]
  }

  /** The first region removes what its scavenger takes.  An entry of the path that is left is returned when it is
      unchanged, and remembered with its tick when it has changed; the call fails when its check fails, and without
      one an entry is created. */
  lemma FirstExact(s: State, p: nat, gone: set<nat>, check: Check)
    requires Inv(s) && p < |s.pcs| && s.pcs[p].Entered?
    ensures var t := Next(s, First(p, gone, check)); OnlyMoves(s, t, p)
    ensures var t := Next(s, First(p, gone, check));
            && (forall e {:trigger e in t.table} :: e in t.table <==> e in s.table && e.id !in gone)
            && (forall e {:trigger e in s.table} :: e in s.table && e.id in gone ==> e.id in t.freed)
            && (forall i {:trigger i in t.freed} :: i in t.freed ==> i in s.freed || i in gone)
    ensures var t, path := Next(s, First(p, gone, check)), s.pcs[p].path;
            forall e {:trigger e in s.table} :: e in s.table && e.id !in gone && SamePath(e.path, path) ==>
              t.pcs[p] == if check == Same then Finished(path, None, Some(e.id))
                          else if check == Changed then Creating(path, Some(e.id), e.ticks)
                          else Finished(path, None, None)
    ensures var t, path := Next(s, First(p, gone, check)), s.pcs[p].path;
            (forall e {:trigger e in s.table} :: e in s.table && SamePath(e.path, path) ==> e.id in gone) ==>
              t.pcs[p] == Creating(path, None, 0)
  {
    hide SamePath, Ids, PcsOk, Accounted;
    var path, t := s.pcs[p].path, Removed(s, gone);
    DropOnePerPath(s.table, gone);
    forall e | e in s.table && e.id !in gone && SamePath(e.path, path) ensures Find(t.table, path) == Some(e) {
      assert e in t.table;
      FindUnique(t.table, path, e);
    }
  }

  /** The second region looks again.  An entry of the path with the remembered tick goes and the new one takes its
      place; one with another tick is returned instead, and the new one is given back; without one the new entry is
      linked. */
  lemma SecondExact(s: State, p: nat)
    requires Inv(s) && p < |s.pcs| && s.pcs[p].Created?
    ensures var t := Next(s, Second(p)); OnlyMoves(s, t, p) && t.pcs[p].Finished? && t.pcs[p].path == s.pcs[p].path
                                         && t.pcs[p].found == s.pcs[p].found
    ensures var t, pc := Next(s, Second(p)), s.pcs[p];
            forall e {:trigger e in s.table} :: e in s.table && SamePath(e.path, pc.path) ==>
              if e.ticks == pc.addtick then
                && t.pcs[p].result == Some(pc.mine.id) && t.freed == s.freed + {e.id}
                && forall f {:trigger f in t.table} :: f in t.table <==> (f in s.table && f != e) || f == pc.mine
              else t.pcs[p].result == Some(e.id) && t.freed == s.freed + {pc.mine.id} && t.table == s.table
    ensures var t, pc := Next(s, Second(p)), s.pcs[p];
            (forall e {:trigger e in s.table} :: e in s.table ==> !SamePath(e.path, pc.path)) ==>
              t.pcs[p].result == Some(pc.mine.id) && t.freed == s.freed && t.table == s.table + [pc.mine]
  {
    hide SamePath, PcsOk, Accounted;
    var pc := s.pcs[p];
    forall e | e in s.table && SamePath(e.path, pc.path)
      ensures Find(s.table, pc.path) == Some(e) && {e.id} * Ids(s.table) == {e.id}
    {
      FindUnique(s.table, pc.path, e);
    }
    forall e, f | e in s.table && f in s.table && e.id == f.id ensures e == f {
      assert s.made[e.id] == e && s.made[f.id] == f;
    }
  }

  /** Scavengers and other removals take their entries off the table and free them; a full scavenger run is made only
      by a process that is creating an entry.  A process that cannot create one gives up and leaves all as it is. */
  lemma RemovalExact(s: State, p: nat, gone: set<nat>)
    requires p < |s.pcs|
    ensures var t := Next(s, Others(gone));
            && t.pcs == s.pcs && t.made == s.made
            && (forall e {:trigger e in t.table} :: e in t.table <==> e in s.table && e.id !in gone)
            && (forall e {:trigger e in s.table} :: e in s.table && e.id in gone ==> e.id in t.freed)
            && (forall i {:trigger i in t.freed} :: i in t.freed ==> i in s.freed || i in gone)
    ensures Next(s, Sweep(p, gone)) == if s.pcs[p].Creating? then Next(s, Others(gone)) else s
    ensures s.pcs[p].Creating? ==>
              Next(s, Create(p, false, 0, 0)) == s.(pcs := s.pcs[p := Finished(s.pcs[p].path, s.pcs[p].found, None)])
  {
    hide Ids;
  }

  /** A call that nobody interrupts, up to its first region: it returns the entry of its path, if that is unchanged. */
  lemma SoloHit(s: State, p: nat, path: Path, e: Ent)
    requires Inv(s) && p < |s.pcs| && s.pcs[p].Idle? && e in s.table && SamePath(e.path, path)
    ensures var t := Next(Next(s, Enter(p, path)), First(p, {}, Same));
            t.pcs[p] == Finished(path, None, Some(e.id)) && t.freed == s.freed
            && forall f {:trigger f in t.table} :: f in t.table <==> f in s.table
  {
    hide SamePath, Inv;
    NextInv(s, Enter(p, path));
    FirstExact(Next(s, Enter(p, path)), p, {}, Same);
    assert {} * Ids(s.table) == {};
  }

  /** A whole call that nobody interrupts and that creates an entry: it returns the new entry, and the one of the
      path, if there was one, is freed. */
  lemma SoloCreate(s: State, p: nat, path: Path, id: nat, ticks: nat)
    requires Inv(s) && p < |s.pcs| && s.pcs[p].Idle? && id !in s.made
    ensures var t := Next(Next(Next(Next(s, Enter(p, path)), First(p, {}, Changed)), Create(p, true, id, ticks)),
                       Second(p));
            var mine := Ent(id, path, ticks);
            && t.pcs[p].Finished? && t.pcs[p].result == Some(id) && t.made == s.made[id := mine]
            && (forall f {:trigger f in t.table} ::
                  f in t.table <==> (f in s.table && !SamePath(f.path, path)) || f == mine)
            && (forall f {:trigger f in s.table} :: f in s.table && SamePath(f.path, path) ==> f.id in t.freed)
  {
    hide SamePath, Inv, Next;
    var s1 := Next(s, Enter(p, path));
    var s2 := Next(s1, First(p, {}, Changed));
    var s3 := Next(s2, Create(p, true, id, ticks));
    NextInv(s, Enter(p, path));
    NextInv(s1, First(p, {}, Changed));
    NextInv(s2, Create(p, true, id, ticks));
    EnterMoves(s, p, path);
    FirstExact(s1, p, {}, Changed);
    CreateMoves(s2, p, id, ticks);
    SecondExact(s3, p);
    var t, mine := Next(s3, Second(p)), Ent(id, path, ticks);
    forall e, f | e in s.table && f in s.table && SamePath(e.path, path) && SamePath(f.path, path) ensures e == f {
      InvUnique(s, path, e);
      InvUnique(s, path, f);
    }
    if e :| e in s.table && SamePath(e.path, path) {
      assert e in s1.table && e in s2.table && s2.pcs[p] == Creating(path, Some(e.id), e.ticks);
      assert e in s3.table && s3.pcs[p] == Created(path, Some(e.id), e.ticks, mine);
      assert e.id in t.freed;
    } else {
      assert s2.pcs[p] == Creating(path, None, 0) && s3.pcs[p] == Created(path, None, 0, mine);
      forall f | f in s3.table ensures !SamePath(f.path, path) {
        assert f in s2.table && f in s1.table;
      }
      assert t.table == s3.table + [mine];
    }
  }

  lemma InvUnique(s: State, path: Path, e: Ent)
    requires Inv(s) && e in s.table && SamePath(e.path, path)
    ensures Find(s.table, path) == Some(e)
  {
    hide SamePath;
    FindUnique(s.table, path, e);
  }

  lemma EnterMoves(s: State, p: nat, path: Path)
    requires p < |s.pcs| && s.pcs[p].Idle?
    ensures var t := Next(s, Enter(p, path)); OnlyMoves(s, t, p) && t.pcs[p] == Entered(path) && t.table == s.table
                                              && t.freed == s.freed
  {
  }

  /** A process whose entry was created holds it, in nobody else's sight. */
  lemma CreateMoves(s: State, p: nat, id: nat, ticks: nat)
    requires p < |s.pcs| && s.pcs[p].Creating? && id !in s.made
    ensures var t, pc, mine := Next(s, Create(p, true, id, ticks)), s.pcs[p], Ent(id, s.pcs[p].path, ticks);
            t == State(s.table, s.pcs[p := Created(pc.path, pc.found, pc.addtick, mine)], s.made[id := mine], s.freed)
  {
  }

  // ----- Runs -----

  function Run(s: State, steps: seq<Step>): State {
    if steps == [] then s else Next(Run(s, steps[..|steps| - 1]), steps[|steps| - 1])
  }

  /** Nobody is in the function and the table is in order. */
  ghost predicate Init(s: State) {
    && OnePerPath(s.table) && Linked(s) && s.freed == {}
    && (forall id {:trigger s.made[id]} {:trigger id in s.made} :: id in s.made ==>
          s.made[id].id == id && s.made[id] in s.table)
    && forall p {:trigger s.pcs[p]} :: 0 <= p < |s.pcs| ==> s.pcs[p] == Idle
  }

  lemma {:induction false} RunInv(s: State, steps: seq<Step>)
    requires Init(s)
    ensures Inv(Run(s, steps))
  {
    hide OnePerPath, SamePath;
    if steps != [] {
      RunInv(s, steps[..|steps| - 1]);
      NextInv(Run(s, steps[..|steps| - 1]), steps[|steps| - 1]);
    }
  }

  /** However the processes interleave, the table never holds two entries for one path. */
  lemma NeverTwo(s: State, steps: seq<Step>, i: nat, j: nat)
    requires Init(s) && i < j < |Run(s, steps).table|
    ensures !SamePath(Run(s, steps).table[i].path, Run(s, steps).table[j].path)
  {
    hide SamePath, Init, Run;
    RunInv(s, steps);
  }

  /** When no process is between creating an entry and its second region, every entry ever created is
      in the table or freed, and not both. */
  lemma LinkedOrFreed(s: State, steps: seq<Step>, id: nat)
    requires Init(s) && id in Run(s, steps).made
    requires forall p {:trigger Run(s, steps).pcs[p]} :: 0 <= p < |Run(s, steps).pcs| ==> !Run(s, steps).pcs[p].Created?
    ensures var t := Run(s, steps); id in t.freed <==> t.made[id] !in t.table
  {
    hide SamePath, Init, Run, OnePerPath, PcOk;
    RunInv(s, steps);
  }

  /** The entry a process returns is one for its path, and not the one it had found changed. */
  lemma NotTheChanged(s: State, steps: seq<Step>, p: nat)
    requires Init(s) && p < |Run(s, steps).pcs| && Run(s, steps).pcs[p].Finished? && Run(s, steps).pcs[p].result.Some?
    ensures var t, pc := Run(s, steps), Run(s, steps).pcs[p];
            pc.result != pc.found && pc.result.value in t.made && SamePath(t.made[pc.result.value].path, pc.path)
  {
    hide SamePath, Init, Run, OnePerPath;
    RunInv(s, steps);
    var t := Run(s, steps);
    assert PcOk(t, t.pcs[p]);
  }

  // ----- Ticks as identity -----

  /** The second region of process p takes entry e off the table. */
  ghost predicate Removes(s: State, p: nat, e: Ent)
    requires p < |s.pcs| && s.pcs[p].Created?
  {
    e in s.table && e !in SecondRegion(s, p).table
  }

  /** It takes off exactly the entry of the path that carries the tick. */
  lemma RemovesByTick(s: State, p: nat, e: Ent)
    requires Inv(s) && p < |s.pcs| && s.pcs[p].Created? && e in s.table
    ensures Removes(s, p, e) <==> SamePath(e.path, s.pcs[p].path) && e.ticks == s.pcs[p].addtick
  {
    hide SamePath, PcsOk, Accounted, Ids;
    var pc := s.pcs[p];
    if SamePath(e.path, pc.path) {
      FindUnique(s.table, pc.path, e);
    }
    PcIs(s, p);
  }

  lemma PcIs(s: State, p: nat)
    requires Inv(s) && p < |s.pcs|
    ensures PcOk(s, s.pcs[p])
  {
  }

  /** The second region knows the entry it found changed only by its add_ticks.  It takes off nothing else
      exactly when no other entry of the path in the table carries that tick; a process that had found
      no entry at all compares with tick 0. */
  lemma OnlyTheChangedGoes(s: State, p: nat)
    requires Inv(s) && p < |s.pcs| && s.pcs[p].Created?
    ensures (forall e {:trigger Removes(s, p, e)} :: Removes(s, p, e) ==> s.pcs[p].found == Some(e.id))
       <==> (forall e {:trigger e in s.table} ::
             e in s.table && SamePath(e.path, s.pcs[p].path) && e.ticks == s.pcs[p].addtick ==>
               s.pcs[p].found == Some(e.id))
    ensures s.pcs[p].found.None? ==> s.pcs[p].addtick == 0
  {
    hide SamePath, Inv, Find;
    PcIs(s, p);
    forall e | e in s.table
      ensures Removes(s, p, e) <==> SamePath(e.path, s.pcs[p].path) && e.ticks == s.pcs[p].addtick
    {
      RemovesByTick(s, p, e);
    }
  }

  lemma RunStep(s: State, steps: seq<Step>, k: nat)
    requires k < |steps|
    ensures Run(s, steps[..k + 1]) == Next(Run(s, steps[..k]), steps[k])
  {
    assert steps[..k + 1][..k] == steps[..k];
  }

  /** The first four steps of TickClash. */
  lemma ClashStart(s: State, steps: seq<Step>, e: Ent) returns (t: State)
    requires e.id == 0 && s == State([e], [Idle, Idle], map[0 := e], {}) && |steps| >= 4 && SamePath(e.path, e.path)
    requires steps[0] == Enter(0, e.path) && steps[1] == Enter(1, e.path) && steps[2] == First(0, {}, Changed)
             && steps[3] == First(1, {}, Changed)
    ensures t == State([e], [Creating(e.path, Some(0), e.ticks), Creating(e.path, Some(0), e.ticks)], map[0 := e], {})
    ensures Run(s, steps[..4]) == t
  {
    hide SamePath;
    t := State([e], [Creating(e.path, Some(0), e.ticks), Creating(e.path, Some(0), e.ticks)], map[0 := e], {});
    RunStep(s, steps, 0);
    RunStep(s, steps, 1);
    RunStep(s, steps, 2);
    RunStep(s, steps, 3);
    assert Drop([e], {}) == [e];
  }

  /** Its middle: process 1 replaces entry 0 by entry 1. */
  lemma ClashMiddle(s: State, steps: seq<Step>, e: Ent, d: Ent)
    requires e.id == 0 && d == Ent(1, e.path, e.ticks) && |steps| >= 6 && SamePath(e.path, e.path)
    requires Run(s, steps[..4])
             == State([e], [Creating(e.path, Some(0), e.ticks), Creating(e.path, Some(0), e.ticks)], map[0 := e], {})
    requires steps[4] == Create(1, true, 1, e.ticks) && steps[5] == Second(1)
    ensures Run(s, steps[..6]) ==
              State([d], [Creating(e.path, Some(0), e.ticks), Finished(e.path, Some(0), Some(1))],
                    map[0 := e, 1 := d], {0})
  {
    hide SamePath, Run;
    RunStep(s, steps, 4);
    RunStep(s, steps, 5);
    assert Drop([e], {0}) == [] && Ids([e]) == {0};
    assert [] + [d] == [d];
  }

  /** Its end: process 0 replaces entry 1 by entry 2. */
  lemma ClashEnd(s: State, steps: seq<Step>, e: Ent, d: Ent, f: Ent)
    requires e.id == 0 && d == Ent(1, e.path, e.ticks) && f == Ent(2, e.path, e.ticks) && |steps| == 8
             && SamePath(e.path, e.path)
    requires Run(s, steps[..6]) ==
          State([d], [Creating(e.path, Some(0), e.ticks), Finished(e.path, Some(0), Some(1))], map[0 := e, 1 := d], {0})
    requires steps[6] == Create(0, true, 2, e.ticks) && steps[7] == Second(0)
    ensures Run(s, steps) ==
              State([f], [Finished(e.path, Some(0), Some(2)), Finished(e.path, Some(0), Some(1))],
                    map[0 := e, 1 := d, 2 := f], {0, 1})
  {
    hide SamePath, Run;
    RunStep(s, steps, 6);
    RunStep(s, steps, 7);
    assert Drop([d], {1}) == [] && Ids([d]) == {1};
    assert [] + [f] == [f];
    assert steps[..8] == steps;
  }

  /** When the tick is not unique a fresh entry can go: two processes find entry 0 changed, the second
      of them replaces it by entry 1 within the same tick, and the first then throws entry 1 away. */
  lemma TickClash(e: Ent) returns (s: State, steps: seq<Step>)
    requires e.id == 0
    ensures Init(s) && s.table == [e]
    ensures Run(s, steps) ==
              State([Ent(2, e.path, e.ticks)], [Finished(e.path, Some(0), Some(2)), Finished(e.path, Some(0), Some(1))],
                                   map[0 := e, 1 := Ent(1, e.path, e.ticks), 2 := Ent(2, e.path, e.ticks)], {0, 1})
  {
    hide SamePath, Run, Next;
    s := State([e], [Idle, Idle], map[0 := e], {});
    steps := [Enter(0, e.path), Enter(1, e.path), First(0, {}, Changed), First(1, {}, Changed),
              Create(1, true, 1, e.ticks), Second(1), Create(0, true, 2, e.ticks), Second(0)];
    var d, f := Ent(1, e.path, e.ticks), Ent(2, e.path, e.ticks);
    SelfPath(e.path);
    var t := ClashStart(s, steps, e);
    ClashMiddle(s, steps, e, d);
    ClashEnd(s, steps, e, d, f);
  }

  /** Two processes find no entry for a path.  One links entry 1, stamped at tick 0, and the other, which
      compares with tick 0, throws it away. */
  lemma ZeroTick(path: Path) returns (s: State, steps: seq<Step>)
    ensures Init(s) && s.table == []
    ensures Run(s, steps) == State([Ent(2, path, 5)], [Finished(path, None, Some(2)), Finished(path, None, Some(1))],
                                   map[1 := Ent(1, path, 0), 2 := Ent(2, path, 5)], {1})
  {
    hide SamePath, Run, Next;
    s := State([], [Idle, Idle], map[], {});
    steps := [Enter(0, path), Enter(1, path), First(0, {}, Same), First(1, {}, Same),
              Create(1, true, 1, 0), Second(1), Create(0, true, 2, 5), Second(0)];
    SelfPath(path);
    var d, f := Ent(1, path, 0), Ent(2, path, 5);
    ZeroStart(s, steps, path);
    ZeroMiddle(s, steps, path, d);
    ZeroEnd(s, steps, path, d, f);
  }

  lemma ZeroStart(s: State, steps: seq<Step>, path: Path)
    requires s == State([], [Idle, Idle], map[], {}) && |steps| >= 4
    requires steps[0] == Enter(0, path) && steps[1] == Enter(1, path)
    requires steps[2] == First(0, {}, Same) && steps[3] == First(1, {}, Same)
    ensures Run(s, steps[..4]) == State([], [Creating(path, None, 0), Creating(path, None, 0)], map[], {})
  {
    hide SamePath;
    RunStep(s, steps, 0);
    RunStep(s, steps, 1);
    RunStep(s, steps, 2);
    RunStep(s, steps, 3);
    assert Drop([], {}) == [];
  }

  lemma ZeroMiddle(s: State, steps: seq<Step>, path: Path, d: Ent)
    requires d == Ent(1, path, 0) && |steps| >= 6 && steps[4] == Create(1, true, 1, 0) && steps[5] == Second(1)
    requires Run(s, steps[..4]) == State([], [Creating(path, None, 0), Creating(path, None, 0)], map[], {})
    ensures Run(s, steps[..6]) == State([d], [Creating(path, None, 0), Finished(path, None, Some(1))], map[1 := d], {})
  {
    hide SamePath, Run;
    RunStep(s, steps, 4);
    RunStep(s, steps, 5);
    assert [] + [d] == [d];
  }

  lemma ZeroEnd(s: State, steps: seq<Step>, path: Path, d: Ent, f: Ent)
    requires d == Ent(1, path, 0) && f == Ent(2, path, 5) && |steps| == 8 && SamePath(path, path)
    requires steps[6] == Create(0, true, 2, 5) && steps[7] == Second(0)
    requires Run(s, steps[..6]) == State([d], [Creating(path, None, 0), Finished(path, None, Some(1))], map[1 := d], {})
    ensures Run(s, steps) == State([f], [Finished(path, None, Some(2)), Finished(path, None, Some(1))],
                                   map[1 := d, 2 := f], {1})
  {
    hide SamePath, Run;
    RunStep(s, steps, 6);
    RunStep(s, steps, 7);
    assert Drop([d], {1}) == [] && Ids([d]) == {1};
    assert [] + [f] == [f];
    assert steps[..8] == steps;
  }
}
