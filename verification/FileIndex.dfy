/** The file index: a table of files by absolute path (wincache_aplist.c) and a table of requested
    names (wincache_rplist.c).  A resolved name points at its file; the names of one file form a
    list through same_value that starts at the file's resentry. */
module FileIndexes {
  import opened Basics
  import opened Chains
  import opened PathIndex
  import opened Ticks

  // An entry of the file table.  fcacheval: its cached content, 0 for none.  resentry: the first of
  // its names, 0 for none.  addTicks and useTicks are instants.
  datatype ApData = ApData(path: Path, fcacheval: nat, resentry: nat, fcnotify: bool, isChanged: bool, addTicks: nat,
        useTicks: nat)

  // The four strings a name entry is looked up by; a setting that is NULL counts as the empty string.
  datatype RpKey = RpKey(path: Path, cwdCexec: Path, incPath: Path, openBased: Path)

  datatype Verified = NotDone | Passed | Failed

  // absentry: the file the name resolves to, 0 when not known yet.  sameValue: the next name of that file.
  datatype RpData = RpData(key: RpKey, absentry: nat, sameValue: nat, verified: Verified)

  const PER_RUN_SCAVENGE_COUNT: nat := 256

  type ApNodes = map<nat, Node<ApData>>
  type RpNodes = map<nat, Node<RpData>>

  predicate SameKey(a: RpKey, b: RpKey) {
    SamePath(a.path, b.path) && SamePath(a.cwdCexec, b.cwdCexec) && SamePath(a.incPath, b.incPath)
          && SamePath(a.openBased, b.openBased)
  }

  /** All four strings count, up to case. */
  lemma KeyExact(a: RpKey, b: RpKey)
    ensures SameKey(a, b) <==> Fold(a.path) == Fold(b.path) && Fold(a.cwdCexec) == Fold(b.cwdCexec)
                               && Fold(a.incPath) == Fold(b.incPath) && Fold(a.openBased) == Fold(b.openBased)
  {
  }

  // ----- The cross index -----

  /** From head, same_value visits exactly the names c, and all of them resolve to file o. */
  ghost predicate SameChain(head: nat, rp: RpNodes, c: seq<nat>, o: nat) {
    && head == NextIn(c, -1) && Distinct(c)
    && forall i {:trigger c[i]} :: 0 <= i < |c| ==>
         c[i] > 0 && c[i] in rp && rp[c[i]].data.absentry == o && rp[c[i]].data.sameValue == NextIn(c, i)
  }

  /** Every file's list holds exactly the names that resolve to it; a file without content has none. */
  ghost predicate Cross(ap: ApNodes, rp: RpNodes, links: map<nat, seq<nat>>) {
    && links.Keys == ap.Keys && 0 !in ap
    && (forall o {:trigger o in ap} {:trigger links[o]} :: o in ap ==> SameChain(ap[o].data.resentry, rp, links[o], o))
    && (forall r {:trigger r in rp} :: r in rp && rp[r].data.absentry != 0 ==>
          rp[r].data.absentry in ap && r in links[rp[r].data.absentry])
    && forall o {:trigger o in ap} :: o in ap && ap[o].data.fcacheval == 0 ==> ap[o].data.resentry == 0
  }

  lemma NamesOf(ap: ApNodes, rp: RpNodes, links: map<nat, seq<nat>>, o: nat)
    requires Cross(ap, rp, links) && o in ap
    ensures o in links && o > 0 && SameChain(ap[o].data.resentry, rp, links[o], o)
    ensures forall r {:trigger r in links[o]} :: r in links[o] <==> r in rp && rp[r].data.absentry == o
    ensures links[o] == [] <==> ap[o].data.resentry == 0
  {
  }

  lemma ChainElsewhere(head: nat, rp: RpNodes, rp2: RpNodes, c: seq<nat>, o: nat)
    requires SameChain(head, rp, c, o)
    requires forall r {:trigger r in rp2} :: r in rp && rp[r].data.absentry == o ==>
               r in rp2 && SameName(rp[r].data, rp2[r].data)
    ensures SameChain(head, rp2, c, o)
  {
    forall i | 0 <= i < |c|
      ensures c[i] in rp2 && rp2[c[i]].data.absentry == o && rp2[c[i]].data.sameValue == NextIn(c, i)
    {
      assert c[i] in rp && rp[c[i]].data.absentry == o;
    }
  }

  ghost predicate SameName(a: RpData, b: RpData) {
    a.absentry == b.absentry && a.sameValue == b.sameValue
  }

  /** Of the names rp, all but those of file o are left. */
  ghost predicate NamesLeft(rp: RpNodes, rp2: RpNodes, o: nat) {
    forall r {:trigger r in rp2} {:trigger r in rp} :: r in rp2 <==> r in rp && rp[r].data.absentry != o
  }

  /** Taking away a file together with all its names. */
  lemma FileRemoved(ap: ApNodes, rp: RpNodes, links: map<nat, seq<nat>>, o: nat, ap2: ApNodes, rp2: RpNodes)
    requires Cross(ap, rp, links) && o in ap
    requires ap2.Keys == ap.Keys - {o} && SameData(ap, ap2) && SameData(rp, rp2)
    requires NamesLeft(rp, rp2, o)
    ensures Cross(ap2, rp2, links - {o})
  {
    hide SameChain, Distinct, NextIn;
    var links2 := links - {o};
    forall p | p in ap2 ensures SameChain(ap2[p].data.resentry, rp2, links2[p], p) {
      assert p in ap;
      ChainElsewhere(ap[p].data.resentry, rp, rp2, links[p], p);
    }
  }

  /** A new name, not resolved yet. */
  lemma NameAdded(ap: ApNodes, rp: RpNodes, links: map<nat, seq<nat>>, rp2: RpNodes, r: nat)
    requires Cross(ap, rp, links) && r !in rp && rp2.Keys == rp.Keys + {r} && SameData(rp, rp2)
             && rp2[r].data.absentry == 0
    ensures Cross(ap, rp2, links)
  {
    hide SameChain, Distinct, NextIn;
    forall p | p in ap ensures SameChain(ap[p].data.resentry, rp2, links[p], p) {
      ChainElsewhere(ap[p].data.resentry, rp, rp2, links[p], p);
    }
  }

  /** A new file, with no content and no names. */
  lemma FileAdded(ap: ApNodes, rp: RpNodes, links: map<nat, seq<nat>>, ap2: ApNodes, o: nat)
    requires Cross(ap, rp, links) && o !in ap && o > 0 && ap2.Keys == ap.Keys + {o} && SameData(ap, ap2)
    requires ap2[o].data.resentry == 0
    ensures Cross(ap2, rp, links[o := []])
  {
    hide SameChain, Distinct, NextIn;
    var links2 := links[o := []];
    forall p | p in ap2 ensures SameChain(ap2[p].data.resentry, rp, links2[p], p) {
      if p == o {
        EmptyChain(rp, o);
      } else {
        assert p in ap;
      }
    }
  }

  lemma EmptyChain(rp: RpNodes, o: nat)
    ensures SameChain(0, rp, [], o)
  {
  }

  /** The other fields of a file may change freely, as long as content is not taken away. */
  lemma FileTouched(ap: ApNodes, rp: RpNodes, links: map<nat, seq<nat>>, o: nat, d: ApData)
    requires Cross(ap, rp, links) && o in ap && d.resentry == ap[o].data.resentry
             && (d.fcacheval == 0 ==> ap[o].data.fcacheval == 0)
    ensures Cross(ap[o := ap[o].(data := d)], rp, links)
  {
    hide SameChain, Distinct, NextIn;
    var ap2 := ap[o := ap[o].(data := d)];
    forall p | p in ap2 ensures SameChain(ap2[p].data.resentry, rp, links[p], p) {
      assert p in ap;
    }
  }

  lemma NameTouched(ap: ApNodes, rp: RpNodes, links: map<nat, seq<nat>>, r: nat, d: RpData)
    requires Cross(ap, rp, links) && r in rp && SameName(rp[r].data, d)
    ensures Cross(ap, rp[r := rp[r].(data := d)], links)
  {
    hide SameChain, Distinct, NextIn;
    var rp2 := rp[r := rp[r].(data := d)];
    forall p | p in ap ensures SameChain(ap[p].data.resentry, rp2, links[p], p) {
      ChainElsewhere(ap[p].data.resentry, rp, rp2, links[p], p);
    }
  }

  lemma ChainGrown(head: nat, rp: RpNodes, rp2: RpNodes, c: seq<nat>, o: nat, r: nat)
    requires SameChain(head, rp, c, o) && r > 0 && r in rp && rp[r].data.absentry != o
    requires rp2.Keys == rp.Keys && forall q {:trigger rp2[q]} :: q in rp && q != r ==>
               SameName(rp[q].data, rp2[q].data)
    requires rp2[r].data.absentry == o && rp2[r].data.sameValue == head
    ensures SameChain(r, rp2, [r] + c, o)
  {
    var d := [r] + c;
    assert r !in c;
    assert Distinct(d);
    forall i | 0 <= i < |d|
      ensures d[i] > 0 && d[i] in rp2 && rp2[d[i]].data.absentry == o && rp2[d[i]].data.sameValue == NextIn(d, i)
    {
      if i > 0 {
        assert d[i] == c[i - 1];
      }
    }
  }

  /** Name r, not resolved so far, becomes the first name of file o, which now has content. */
  lemma NameLinked(ap: ApNodes, rp: RpNodes, links: map<nat, seq<nat>>, o: nat, r: nat, a: ApData, n: RpData)
    requires Cross(ap, rp, links) && o in ap && r in rp && r > 0 && rp[r].data.absentry == 0
    requires a.resentry == r && a.fcacheval != 0 && n.absentry == o && n.sameValue == ap[o].data.resentry
    ensures Cross(ap[o := ap[o].(data := a)], rp[r := rp[r].(data := n)], links[o := [r] + links[o]])
  {
    hide SameChain, Distinct, NextIn;
    var ap2, rp2, links2 := ap[o := ap[o].(data := a)], rp[r := rp[r].(data := n)], links[o := [r] + links[o]];
    forall p | p in ap2 ensures SameChain(ap2[p].data.resentry, rp2, links2[p], p) {
      assert p in ap;
      if p == o {
        ChainGrown(ap[o].data.resentry, rp, rp2, links[o], o, r);
      } else {
        ChainElsewhere(ap[p].data.resentry, rp, rp2, links[p], p);
      }
    }
    forall q | q in rp2 && rp2[q].data.absentry != 0
      ensures rp2[q].data.absentry in ap2 && q in links2[rp2[q].data.absentry]
    {
      assert q in rp;
    }
  }

  // ----- One entry each -----

  /** No two files have the same path, and no two name entries the same name. */
  ghost predicate OneEach(ap: ApNodes, rp: RpNodes) {
    && (forall o, q {:trigger ap[o], ap[q]} :: o in ap && q in ap && SamePath(ap[o].data.path, ap[q].data.path) ==>
          o == q)
    && (forall o, q {:trigger rp[o], rp[q]} :: o in rp && q in rp && SameKey(rp[o].data.key, rp[q].data.key) ==> o == q)
  }

  /** Removing entries, or changing other fields, keeps that. */
  lemma OneEachKept(ap: ApNodes, rp: RpNodes, ap2: ApNodes, rp2: RpNodes)
    requires OneEach(ap, rp) && ap2.Keys <= ap.Keys && rp2.Keys <= rp.Keys
    requires forall o {:trigger ap2[o]} :: o in ap2 ==> ap2[o].data.path == ap[o].data.path
    requires forall r {:trigger rp2[r]} :: r in rp2 ==> rp2[r].data.key == rp[r].data.key
    ensures OneEach(ap2, rp2)
  {
    hide SamePath, SameKey;
  }

  lemma OneEachFile(ap: ApNodes, rp: RpNodes, ap2: ApNodes, o: nat)
    requires OneEach(ap, rp) && o !in ap && ap2.Keys == ap.Keys + {o} && SameData(ap, ap2)
    requires forall q {:trigger q in ap} :: q in ap ==> !SamePath(ap[q].data.path, ap2[o].data.path)
    ensures OneEach(ap2, rp)
  {
    forall p, q | p in ap2 && q in ap2 && p != q ensures !SamePath(ap2[p].data.path, ap2[q].data.path) {
      assert (p == o || p in ap) && (q == o || q in ap);
    }
  }

  lemma OneEachName(ap: ApNodes, rp: RpNodes, rp2: RpNodes, r: nat)
    requires OneEach(ap, rp) && r !in rp && rp2.Keys == rp.Keys + {r} && SameData(rp, rp2)
    requires forall q {:trigger q in rp} :: q in rp ==> !SameKey(rp[q].data.key, rp2[r].data.key)
    ensures OneEach(ap, rp2)
  {
    hide SamePath;
    forall p, q | p in rp2 && q in rp2 && p != q ensures !SameKey(rp2[p].data.key, rp2[q].data.key) {
      SameBack(rp2[p].data.key, rp2[q].data.key);
      assert (p == r || p in rp) && (q == r || q in rp);
    }
  }

  lemma TouchedOneEach(ap: ApNodes, rp: RpNodes, o: nat, d: ApData)
    requires OneEach(ap, rp) && o in ap && d.path == ap[o].data.path
    ensures OneEach(ap[o := ap[o].(data := d)], rp)
  {
    hide OneEach;
    OneEachKept(ap, rp, ap[o := ap[o].(data := d)], rp);
  }

  lemma RenamedOneEach(ap: ApNodes, rp: RpNodes, r: nat, n: RpData)
    requires OneEach(ap, rp) && r in rp && n.key == rp[r].data.key
    ensures OneEach(ap, rp[r := rp[r].(data := n)])
  {
    hide OneEach;
    OneEachKept(ap, rp, ap, rp[r := rp[r].(data := n)]);
  }

  lemma SameBack(a: RpKey, b: RpKey)
    ensures SameKey(a, b) <==> SameKey(b, a)
  {
  }

  // ----- Walking a bucket -----

  lemma ChainHead<T>(head: nat, nodes: map<nat, Node<T>>, c: seq<nat>)
    requires Chained(head, nodes, c)
    ensures head == NextIn(c, -1) && (head == 0 <==> c == [])
  {
  }

  lemma ChainNext<T>(head: nat, nodes: map<nat, Node<T>>, c: seq<nat>, i: nat)
    requires Chained(head, nodes, c) && 0 < i <= |c|
    ensures NextIn(c, i - 1) == 0 <==> i == |c|
  {
  }

  // ----- Walking a list of names -----

  lemma ListHead(head: nat, rp: RpNodes, c: seq<nat>, o: nat)
    requires SameChain(head, rp, c, o)
    ensures head == NextIn(c, -1) && (head == 0 <==> c == [])
  {
  }

  lemma ListStep(head: nat, rp: RpNodes, c: seq<nat>, o: nat, i: nat)
    requires SameChain(head, rp, c, o) && i < |c|
    ensures NextIn(c, i - 1) == c[i] && c[i] in rp && c[i] !in c[..i] && rp[c[i]].data.sameValue == NextIn(c, i)
    ensures NextIn(c, i) == 0 <==> i + 1 == |c|
  {
  }

  lemma SelfData<T(!new)>(m: map<nat, Node<T>>)
    ensures SameData(m, m)
  {
  }

  lemma SameAs(key: RpKey)
    ensures SameKey(key, key)
  {
  }

  // ----- Removing files -----

  /** ap1 and rp1 are what is left after removing files: unresolved names and the names of the
      files that are left stay, with all their data. */
  ghost predicate Pruned(ap0: ApNodes, rp0: RpNodes, ap1: ApNodes, rp1: RpNodes) {
    && SameData(ap0, ap1) && SameData(rp0, rp1) && ap1.Keys <= ap0.Keys
    && forall r {:trigger r in rp0} {:trigger r in rp1} :: r in rp1 <==>
         r in rp0 && (rp0[r].data.absentry == 0 || rp0[r].data.absentry in ap1)
  }

  lemma PrunedSelf(ap: ApNodes, rp: RpNodes, links: map<nat, seq<nat>>)
    requires Cross(ap, rp, links)
    ensures Pruned(ap, rp, ap, rp)
  {
  }

  lemma PrunedTrans(ap0: ApNodes, rp0: RpNodes, ap1: ApNodes, rp1: RpNodes, ap2: ApNodes, rp2: RpNodes)
    requires Pruned(ap0, rp0, ap1, rp1) && Pruned(ap1, rp1, ap2, rp2)
    ensures Pruned(ap0, rp0, ap2, rp2)
  {
    forall o | o in ap2 ensures ap2[o].data == ap0[o].data {
      assert o in ap1;
    }
  }

  lemma PrunedBy(ap: ApNodes, rp: RpNodes, links: map<nat, seq<nat>>, o: nat, ap2: ApNodes, rp2: RpNodes)
    requires Cross(ap, rp, links) && o in ap && ap2.Keys == ap.Keys - {o} && SameData(ap, ap2) && SameData(rp, rp2)
    requires NamesLeft(rp, rp2, o)
    ensures Pruned(ap, rp, ap2, rp2)
  {
  }

  lemma NamesGone(rp: RpNodes, rp2: RpNodes, c: seq<nat>, o: nat)
    requires forall r {:trigger r in c} :: r in c <==> r in rp && rp[r].data.absentry == o
    requires (c == [] && rp2 == rp) || forall r {:trigger r in rp2} {:trigger r in rp} :: r in rp2 <==>
               r in rp && r !in c
    ensures forall r {:trigger r in rp2} {:trigger r in rp} :: r in rp2 <==> r in rp && rp[r].data.absentry != o
  {
    forall r ensures r in rp2 <==> r in rp && rp[r].data.absentry != o {
      assert r in c <==> r in rp && rp[r].data.absentry == o;
    }
  }

  lemma PrunedOneEach(ap0: ApNodes, rp0: RpNodes, ap1: ApNodes, rp1: RpNodes)
    requires OneEach(ap0, rp0) && Pruned(ap0, rp0, ap1, rp1)
    ensures OneEach(ap1, rp1)
  {
    hide OneEach;
    OneEachKept(ap0, rp0, ap1, rp1);
  }

  lemma FileGone(ap: ApNodes, rp: RpNodes, links: map<nat, seq<nat>>, o: nat, ap2: ApNodes, rp2: RpNodes)
    requires Cross(ap, rp, links) && OneEach(ap, rp) && o in ap && ap2.Keys == ap.Keys - {o}
    requires SameData(ap, ap2) && SameData(rp, rp2) && NamesLeft(rp, rp2, o)
    ensures Cross(ap2, rp2, links - {o}) && OneEach(ap2, rp2) && Pruned(ap, rp, ap2, rp2)
  {
    hide Cross, OneEach, SameData, NamesLeft, Pruned;
    FileRemoved(ap, rp, links, o, ap2, rp2);
    PrunedBy(ap, rp, links, o, ap2, rp2);
    PrunedOneEach(ap, rp, ap2, rp2);
  }

  /** Once the file of a path is removed there is none. */
  lemma NoneLeft(ap0: ApNodes, rp0: RpNodes, ap1: ApNodes, rp1: RpNodes, o: nat, path: Path)
    requires OneEach(ap0, rp0) && Pruned(ap0, rp0, ap1, rp1) && o in ap0 && o !in ap1
             && SamePath(ap0[o].data.path, path)
    ensures forall q {:trigger q in ap1} :: q in ap1 ==> !SamePath(ap1[q].data.path, path)
  {
    forall q | q in ap1 ensures !SamePath(ap1[q].data.path, path) {
      assert q in ap0 && ap1[q].data == ap0[q].data && q != o;
      var a, b := ap0[q].data.path, ap0[o].data.path;
      assert !SamePath(a, b);
    }
  }

  lemma OnlyFile(ap: ApNodes, rp: RpNodes, o: nat, path: Path)
    requires OneEach(ap, rp) && o in ap && SamePath(ap[o].data.path, path)
    ensures forall q {:trigger ap[q]} :: q in ap && SamePath(ap[q].data.path, path) ==> q == o
  {
    forall q | q in ap && q != o ensures !SamePath(ap[q].data.path, path) {
      var a, b := ap[q].data.path, ap[o].data.path;
      assert !SamePath(a, b);
    }
  }

  /** Unused for longer than ttlmax milliseconds. */
  predicate Idle(d: ApData, now: nat, ttlmax: nat) {
    Elapsed(now, d.useTicks) > ttlmax
  }

  /** The scavenger's walk over bucket b, at position i of its chain c: of the files that were there,
      exactly the idle ones of the bucket that it has passed are gone. */
  ghost predicate Walked(ap0: ApNodes, ap1: ApNodes, c: seq<nat>, bucketOf: ApData -> nat, b: nat, i: nat, now: nat,
                         ttlmax: nat)
  {
    && i <= |c| && (forall o {:trigger o in c} :: o in c ==> o in ap1)
    && forall o {:trigger o in ap1} {:trigger o in ap0} ::
         o in ap0 ==> (o in ap1 <==> !(Idle(ap0[o].data, now, ttlmax) && bucketOf(ap0[o].data) == b && o !in c[i..]))
  }

  lemma WalkStart(heads: seq<nat>, ap: ApNodes, chains: seq<seq<nat>>, bucketOf: ApData -> nat, b: nat, now: nat,
                  ttlmax: nat)
    requires TableHolds(heads, ap, chains, bucketOf) && b < |chains|
    ensures Walked(ap, ap, chains[b], bucketOf, b, 0, now, ttlmax)
  {
    hide Chained, Idle;
    assert chains[b][0..] == chains[b];
  }

  lemma WalkDone(ap0: ApNodes, ap1: ApNodes, c: seq<nat>, bucketOf: ApData -> nat, b: nat, now: nat, ttlmax: nat)
    requires Walked(ap0, ap1, c, bucketOf, b, |c|, now, ttlmax)
    ensures forall o {:trigger o in ap1} {:trigger o in ap0} ::
              o in ap0 ==> (o in ap1 <==> !(Idle(ap0[o].data, now, ttlmax) && bucketOf(ap0[o].data) == b))
  {
  }

  lemma WalkKeep(ap0: ApNodes, ap1: ApNodes, c: seq<nat>, bucketOf: ApData -> nat, b: nat, i: nat, now: nat,
                 ttlmax: nat, rp0: RpNodes, rp1: RpNodes)
    requires Walked(ap0, ap1, c, bucketOf, b, i, now, ttlmax) && i < |c| && Pruned(ap0, rp0, ap1, rp1)
    requires c[i] in ap1 && !Idle(ap1[c[i]].data, now, ttlmax)
    ensures Walked(ap0, ap1, c, bucketOf, b, i + 1, now, ttlmax)
  {
    assert c[i..] == [c[i]] + c[i + 1..];
  }

  lemma WalkRemove(ap0: ApNodes, ap1: ApNodes, ap2: ApNodes, c: seq<nat>, d: seq<nat>,
                   bucketOf: ApData -> nat, b: nat, i: nat, now: nat, ttlmax: nat,
                   rp1: RpNodes, rp0: RpNodes, rp2: RpNodes)
    requires Walked(ap0, ap1, c, bucketOf, b, i, now, ttlmax) && i < |c| && Distinct(c) && Pruned(ap0, rp0, ap1, rp1)
    requires c[i] in ap1 && Idle(ap1[c[i]].data, now, ttlmax) && bucketOf(ap1[c[i]].data) == b
    requires ap2.Keys == ap1.Keys - {c[i]} && d == Without(c, Position(c, c[i]))
    ensures Walked(ap0, ap2, d, bucketOf, b, i, now, ttlmax)
    ensures |d| == |c| - 1 && NextIn(d, i - 1) == NextIn(c, i)
  {
    assert Position(c, c[i]) == i;
    WithoutDistinct(c, i);
    assert d[i..] == c[i + 1..] && c[i..] == [c[i]] + c[i + 1..];
  }

  predicate InWindow(d: ApData, bucketOf: ApData -> nat, lo: nat, hi: nat, now: nat, ttlmax: nat) {
    Idle(d, now, ttlmax) && lo <= bucketOf(d) < hi
  }

  lemma WindowGrows(ap0: ApNodes, ap1: ApNodes, ap2: ApNodes, rp0: RpNodes, rp1: RpNodes, rp2: RpNodes,
                    bucketOf: ApData -> nat, lo: nat, k: nat, now: nat, ttlmax: nat)
    requires lo <= k && Pruned(ap0, rp0, ap1, rp1) && Pruned(ap1, rp1, ap2, rp2)
    requires forall o {:trigger o in ap1} {:trigger o in ap0} :: o in ap0 ==>
               (o in ap1 <==> !InWindow(ap0[o].data, bucketOf, lo, k, now, ttlmax))
    requires (forall o {:trigger o in ap1} :: o in ap1 ==> o in ap2 && bucketOf(ap1[o].data) != k)
          || forall o {:trigger o in ap2} {:trigger o in ap1} ::
               o in ap1 ==> (o in ap2 <==> !(Idle(ap1[o].data, now, ttlmax) && bucketOf(ap1[o].data) == k))
    ensures forall o {:trigger o in ap2} {:trigger o in ap0} :: o in ap0 ==>
              (o in ap2 <==> !InWindow(ap0[o].data, bucketOf, lo, k + 1, now, ttlmax))
  {
    hide Idle;
    forall o | o in ap0 ensures o in ap2 <==> !InWindow(ap0[o].data, bucketOf, lo, k + 1, now, ttlmax) {
      assert o in ap1 ==> ap1[o].data == ap0[o].data;
    }
  }

  /** No name is added, and none is renamed. */
  ghost predicate Fewer(rp0: RpNodes, rp1: RpNodes) {
    rp1.Keys <= rp0.Keys && forall r {:trigger rp1[r]} :: r in rp1 ==> rp1[r].data.key == rp0[r].data.key
  }

  lemma FewerNone(rp0: RpNodes, rp1: RpNodes, key: RpKey)
    requires Fewer(rp0, rp1) && forall q {:trigger q in rp0} :: q in rp0 ==> !SameKey(rp0[q].data.key, key)
    ensures forall q {:trigger q in rp1} :: q in rp1 ==> !SameKey(rp1[q].data.key, key)
  {
    hide SameKey;
    forall q | q in rp1 ensures !SameKey(rp1[q].data.key, key) {
      assert q in rp0 && rp1[q].data.key == rp0[q].data.key;
    }
  }

  /** When the file of a name is removed no entry of that name is left. */
  lemma NameIsGone(ap0: ApNodes, rp0: RpNodes, ap1: ApNodes, rp1: RpNodes, r: nat, key: RpKey)
    requires OneEach(ap0, rp0) && Pruned(ap0, rp0, ap1, rp1) && r in rp0 && SameKey(rp0[r].data.key, key)
    requires rp0[r].data.absentry != 0 && rp0[r].data.absentry !in ap1
    ensures forall q {:trigger q in rp1} :: q in rp1 ==> !SameKey(rp1[q].data.key, key)
  {
    hide SamePath;
    forall q | q in rp1 ensures !SameKey(rp1[q].data.key, key) {
      assert q in rp0 && rp1[q].data == rp0[q].data && q != r;
      SamePathsAlike(rp0[q].data.key, rp0[r].data.key, key);
    }
  }

  lemma SamePathsAlike(a: RpKey, b: RpKey, c: RpKey)
    requires SameKey(b, c)
    ensures SameKey(a, c) ==> SameKey(a, b)
  {
  }

  /** Names not resolved yet survive. */
  ghost predicate Unresolved(rp0: RpNodes, rp1: RpNodes) {
    && Fewer(rp0, rp1)
    && forall r {:trigger r in rp0} {:trigger r in rp1} :: r in rp0 && rp0[r].data.absentry == 0 ==>
         r in rp1 && rp1[r].data == rp0[r].data
  }

  lemma SelfUnresolved(rp: RpNodes)
    ensures Unresolved(rp, rp)
  {
  }

  lemma UnresolvedTrans(rp0: RpNodes, rp1: RpNodes, rp2: RpNodes)
    requires Unresolved(rp0, rp1) && Unresolved(rp1, rp2)
    ensures Unresolved(rp0, rp2)
  {
    forall r | r in rp0 && rp0[r].data.absentry == 0 ensures r in rp2 && rp2[r].data == rp0[r].data {
      assert r in rp1;
    }
  }

  lemma PrunedUnresolved(ap0: ApNodes, rp0: RpNodes, ap1: ApNodes, rp1: RpNodes)
    requires Pruned(ap0, rp0, ap1, rp1)
    ensures Unresolved(rp0, rp1)
  {
  }

  lemma SamePathAs(path: Path)
    ensures SamePath(path, path)
  {
  }

  // What looking at the file, or at its listener, says about an entry.
  datatype Check = Same | Changed | CheckFails

  /** An entry whose listener saw a change is changed whatever else the check would say. */
  function CheckFile(d: ApData, check: Check): Check {
    if d.fcnotify && d.isChanged then Changed else check
  }

  /** So it is found unchanged, or its check fails, only when no listener has flagged it. */
  lemma CheckExact(d: ApData, check: Check)
    ensures CheckFile(d, check) == Same <==> check == Same && (!d.fcnotify || !d.isChanged)
    ensures CheckFile(d, check) == CheckFails <==> check == CheckFails && (!d.fcnotify || !d.isChanged)
  {
  }

  /** Entry o is a file that its check finds changed. */
  ghost predicate Outdated(ap: ApNodes, o: nat, check: Check) {
    o in ap && CheckFile(ap[o].data, check) == Changed
  }

  /** The index has an entry of this name that resolves to file o. */
  ghost predicate Named(rp: RpNodes, key: RpKey, o: nat) {
    exists q {:trigger rp[q]} :: q in rp && SameKey(rp[q].data.key, key) && rp[q].data.absentry == o
  }

  /** The index has an entry of this name, and path is that of its file. */
  ghost predicate KnownPath(ap: ApNodes, rp: RpNodes, key: RpKey, path: Path) {
    exists o {:trigger ap[o]} :: o in ap && Named(rp, key, o) && path == ap[o].data.path
  }

  /** The index has an entry of this name, and its file is found changed. */
  ghost predicate StaleName(ap: ApNodes, rp: RpNodes, key: RpKey, check: Check) {
    exists q {:trigger rp[q]} :: q in rp && SameKey(rp[q].data.key, key) && Outdated(ap, rp[q].data.absentry, check)
  }

  /** The entry of the name, found or just added, tells whether that is so. */
  lemma StaleByEntry(ap: ApNodes, rp: RpNodes, rp2: RpNodes, links: map<nat, seq<nat>>, r: nat, key: RpKey,
                     check: Check)
    requires Cross(ap, rp2, links) && OneEach(ap, rp2) && SameData(rp, rp2) && rp2.Keys == rp.Keys + {r}
    requires SameKey(rp2[r].data.key, key) && (r !in rp ==> rp2[r].data.absentry == 0)
    ensures StaleName(ap, rp, key, check) <==> rp2[r].data.absentry != 0 && Outdated(ap, rp2[r].data.absentry, check)
    ensures rp2[r].data.absentry != 0 ==> Named(rp, key, rp2[r].data.absentry)
  {
    hide SameKey, OneEach, SameChain;
    OnlyName(ap, rp2, r, key);
    assert r in rp ==> rp[r].data == rp2[r].data;
    if StaleName(ap, rp, key, check) {
      var q :| q in rp && SameKey(rp[q].data.key, key) && Outdated(ap, rp[q].data.absentry, check);
      assert q in rp2 && rp2[q].data == rp[q].data;
    }
  }

  /** Entry o is what aplist_getentry may give for a path: a file found unchanged, now used, or a new one. */
  ghost predicate Fetched(ap0: ApNodes, ap1: ApNodes, o: nat, path: Path, check: Check, fcnotify: bool, now: nat) {
    && o in ap1 && SamePath(ap1[o].data.path, path)
    && ((o in ap0 && CheckFile(ap0[o].data, check) == Same && ap1[o].data == ap0[o].data.(useTicks := now))
        || ap1[o].data == ApData(path, 0, 0, fcnotify, false, now, now))
  }

  lemma FetchedSame(ap0: ApNodes, ap: ApNodes, o: nat, path: Path, check: Check, fcnotify: bool, now: nat)
    requires SameData(ap0, ap) && ap.Keys <= ap0.Keys && o in ap && SamePath(ap[o].data.path, path)
    requires CheckFile(ap[o].data, check) == Same
    ensures Fetched(ap0, ap[o := ap[o].(data := ap[o].data.(useTicks := now))], o, path, check, fcnotify, now)
  {
    hide SamePath;
  }

  lemma FetchedNew(ap0: ApNodes, ap1: ApNodes, o: nat, path: Path, check: Check, fcnotify: bool, now: nat)
    ensures o in ap1 && SamePath(ap1[o].data.path, path) && ap1[o].data == ApData(path, 0, 0, fcnotify, false, now, now)
            ==> Fetched(ap0, ap1, o, path, check, fcnotify, now)
  {
    hide SamePath;
  }

  /** Entry o of a path has the content it had, and was found unchanged, or the new content. */
  ghost predicate Filled(ap0: ApNodes, ap1: ApNodes, o: nat, path: Path, check: Check, fcacheval: nat) {
    && o in ap1 && SamePath(ap1[o].data.path, path) && ap1[o].data.fcacheval != 0
    && (ap1[o].data.fcacheval == fcacheval
        || (o in ap0 && CheckFile(ap0[o].data, check) == Same && ap1[o].data.fcacheval == ap0[o].data.fcacheval))
  }

  lemma FilledFrom(ap0: ApNodes, ap: ApNodes, ap1: ApNodes, o: nat, path: Path, check: Check, fcacheval: nat)
    requires SameData(ap0, ap) && ap.Keys <= ap0.Keys && Filled(ap, ap1, o, path, check, fcacheval)
    ensures Filled(ap0, ap1, o, path, check, fcacheval) && o in ap1 && ap1[o].data.fcacheval != 0
  {
    hide SamePath;
  }

  /** Every entry of the path carries this tick. */
  ghost predicate Ticked(ap: ApNodes, path: Path, addtick: nat) {
    forall o {:trigger o in ap} :: o in ap && SamePath(ap[o].data.path, path) ==> Tick(ap[o].data.addTicks) == addtick
  }

  lemma TickedLess(ap0: ApNodes, ap: ApNodes, path: Path, addtick: nat)
    requires SameData(ap0, ap) && ap.Keys <= ap0.Keys && Ticked(ap0, path, addtick)
    ensures Ticked(ap, path, addtick)
  {
    hide SamePath;
  }

  // ----- What a call leaves, exactly -----

  /** The instant of last use lies more than ttlmax milliseconds back, on the unbounded clock; the code counts one
      less when the tick counter has rolled over since. */
  lemma IdleExact(d: ApData, now: nat, ttlmax: nat)
    requires WithinRange(now, d.useTicks)
    ensures Idle(d, now, ttlmax) <==> now - d.useTicks - (if RolledOver(now, d.useTicks) then 1 else 0) > ttlmax
  {
    ElapsedExact(now, d.useTicks);
  }

  /** Of these files, the ones a sweep of the buckets lo..hi at instant now leaves. */
  ghost function Left(ap: ApNodes, keys: set<nat>, sweeps: bool, bucketOf: ApData -> nat, lo: nat, hi: nat, now: nat,
                      ttlmax: nat): set<nat>
  {
    set o | o in keys && o in ap && !(sweeps && InWindow(ap[o].data, bucketOf, lo, hi, now, ttlmax))
  }

  /** Of these files, the ones of other paths. */
  ghost function Others(ap: ApNodes, keys: set<nat>, path: Path): set<nat> {
    set o | o in keys && o in ap && !SamePath(ap[o].data.path, path)
  }

  /** Of the files ap0 those in kept are still there, and of the names rp0 exactly theirs and the unresolved ones.
      All but the touched files have the data they had. */
  ghost predicate Remains(ap0: ApNodes, rp0: RpNodes, kept: set<nat>, ap1: ApNodes, rp1: RpNodes, touched: set<nat>) {
    && (forall o {:trigger o in kept} {:trigger ap1[o]} :: o in kept ==>
          o in ap0 && o in ap1 && (o !in touched ==> ap1[o].data == ap0[o].data))
    && SameData(rp0, rp1)
    && forall r {:trigger r in rp0} {:trigger r in rp1} :: r in rp1 <==>
         r in rp0 && (rp0[r].data.absentry == 0 || rp0[r].data.absentry in kept)
  }

  /** A new entry was made at room for the path, in place of the one there was; or, with no room, none was. */
  ghost predicate Created(ap0: ApNodes, rp0: RpNodes, keys: set<nat>, path: Path, room: nat, fcnotify: bool, now: nat,
                          pvalue: nat, ap1: ApNodes, rp1: RpNodes)
  {
    if room == 0 then pvalue == 0 && ap1.Keys == keys && Remains(ap0, rp0, keys, ap1, rp1, {})
    else
      && pvalue == room && ap1.Keys == Others(ap0, keys, path) + {room}
      && ap1[room].data == ApData(path, 0, 0, fcnotify, false, now, now)
      && Remains(ap0, rp0, Others(ap0, keys, path), ap1, rp1, {})
  }

  /** What a call gets that finds file o of its path: it, now used, when it is unchanged, a new entry in its place
      when it has changed, and nothing when its check fails. */
  ghost predicate GotFrom(ap0: ApNodes, rp0: RpNodes, keys: set<nat>, keys2: set<nat>, o: nat, path: Path, check: Check,
                          room: nat, fcnotify: bool, now: nat, pvalue: nat, ap1: ApNodes, rp1: RpNodes)
  {
    o in ap0 &&
    match CheckFile(ap0[o].data, check)
    case Same =>
      && pvalue == o && ap1.Keys == keys && o in keys && ap1[o].data == ap0[o].data.(useTicks := now)
      && Remains(ap0, rp0, keys, ap1, rp1, {o})
    case CheckFails => pvalue == 0 && ap1.Keys == keys && Remains(ap0, rp0, keys, ap1, rp1, {})
    case Changed => Created(ap0, rp0, keys2, path, room, fcnotify, now, pvalue, ap1, rp1)
  }

  /** The same for any path: without a file of it, a new entry is made. */
  ghost predicate GotFile(ap0: ApNodes, rp0: RpNodes, keys: set<nat>, keys2: set<nat>, path: Path, check: Check,
                          room: nat, fcnotify: bool, now: nat, pvalue: nat, ap1: ApNodes, rp1: RpNodes)
  {
    && (forall o {:trigger ap0[o]} :: o in keys && o in ap0 && SamePath(ap0[o].data.path, path) ==>
          GotFrom(ap0, rp0, keys, keys2, o, path, check, room, fcnotify, now, pvalue, ap1, rp1))
    && ((forall o {:trigger ap0[o]} :: o in keys && o in ap0 ==> !SamePath(ap0[o].data.path, path)) ==>
          Created(ap0, rp0, keys2, path, room, fcnotify, now, pvalue, ap1, rp1))
  }

  /** There is a file of the path that has not changed, or whose check fails. */
  ghost predicate Settled(ap: ApNodes, keys: set<nat>, path: Path, check: Check) {
    exists o {:trigger ap[o]} :: o in keys && o in ap && SamePath(ap[o].data.path, path)
      && CheckFile(ap[o].data, check) != Changed
  }

  lemma GotOne(ap0: ApNodes, rp0: RpNodes, keys: set<nat>, keys2: set<nat>, o: nat, path: Path, check: Check,
               room: nat, fcnotify: bool, now: nat, pvalue: nat, ap1: ApNodes, rp1: RpNodes)
    requires OneEach(ap0, rp0) && o in keys && o in ap0 && SamePath(ap0[o].data.path, path)
    requires GotFrom(ap0, rp0, keys, keys2, o, path, check, room, fcnotify, now, pvalue, ap1, rp1)
    ensures GotFile(ap0, rp0, keys, keys2, path, check, room, fcnotify, now, pvalue, ap1, rp1)
    ensures Settled(ap0, keys, path, check) <==> CheckFile(ap0[o].data, check) != Changed
  {
    hide SamePath, CheckFile, GotFrom, Created;
    OnlyFile(ap0, rp0, o, path);
  }

  lemma GotNone(ap0: ApNodes, rp0: RpNodes, keys: set<nat>, keys2: set<nat>, path: Path, check: Check,
                room: nat, fcnotify: bool, now: nat, pvalue: nat, ap1: ApNodes, rp1: RpNodes)
    requires forall o {:trigger ap0[o]} :: o in keys && o in ap0 ==> !SamePath(ap0[o].data.path, path)
    requires Created(ap0, rp0, keys2, path, room, fcnotify, now, pvalue, ap1, rp1)
    ensures GotFile(ap0, rp0, keys, keys2, path, check, room, fcnotify, now, pvalue, ap1, rp1)
    ensures !Settled(ap0, keys, path, check)
  {
    hide SamePath, CheckFile, GotFrom, Created;
  }

  /** A file found unchanged that has been used lately is what the call gets. */
  lemma YoungIsGot(ap0: ApNodes, rp0: RpNodes, sweeps: bool, bucketOf: ApData -> nat, lo: nat, hi: nat,
                   keys2: set<nat>, path: Path, check: Check, room: nat, fcnotify: bool, now: nat, ttlmax: nat,
                   pvalue: nat, ap1: ApNodes, rp1: RpNodes)
    requires GotFile(ap0, rp0, Left(ap0, ap0.Keys, sweeps, bucketOf, lo, hi, now, ttlmax), keys2, path, check, room,
               fcnotify, now, pvalue, ap1, rp1)
    ensures forall o {:trigger ap0[o]} ::
              o in ap0 && SamePath(ap0[o].data.path, path) && CheckFile(ap0[o].data, check) == Same
              && Elapsed(now, ap0[o].data.useTicks) <= ttlmax ==>
              pvalue == o && o in ap1 && ap1[o].data == ap0[o].data.(useTicks := now)
  {
    hide SamePath, CheckFile, Elapsed, Created;
  }

  /** The schedule of the scavenger after a call that was due for a partial sweep, or made a full one. */
  ghost predicate Scheduled(due: bool, full: bool, last: nat, start: nat, buckets: nat, now: nat, last2: nat,
                            start2: nat)
  {
    && last2 == (if due || full then now else last)
    && start2 == if full then 0 else if !due then start else if start + 256 >= buckets then 0 else start + 256
  }

  lemma PrunedRemains(ap0: ApNodes, rp0: RpNodes, ap1: ApNodes, rp1: RpNodes)
    requires Pruned(ap0, rp0, ap1, rp1)
    ensures Remains(ap0, rp0, ap1.Keys, ap1, rp1, {})
  {
  }

  lemma RemainsTouched(ap0: ApNodes, rp0: RpNodes, kept: set<nat>, ap1: ApNodes, rp1: RpNodes, o: nat, d: ApData)
    requires Remains(ap0, rp0, kept, ap1, rp1, {}) && o in ap1
    ensures Remains(ap0, rp0, kept, ap1[o := ap1[o].(data := d)], rp1, {o})
  {
  }

  lemma PrunedKeys(ap0: ApNodes, rp0: RpNodes, ap1: ApNodes, rp1: RpNodes)
    requires Pruned(ap0, rp0, ap1, rp1)
    ensures ap1.Keys <= ap0.Keys && SameData(ap0, ap1)
  {
  }

  /** The file found after a sweep is the one of the path that was there. */
  lemma PathKept(ap0: ApNodes, rp0: RpNodes, ap1: ApNodes, rp1: RpNodes, path: Path, pvalue: nat)
    requires OneEach(ap0, rp0) && Pruned(ap0, rp0, ap1, rp1)
    requires if pvalue != 0 then pvalue in ap1 && SamePath(ap1[pvalue].data.path, path)
             else forall o {:trigger o in ap1} :: o in ap1 ==> !SamePath(ap1[o].data.path, path)
    ensures pvalue != 0 ==> pvalue in ap0 && ap1[pvalue].data == ap0[pvalue].data
    ensures forall o {:trigger ap0[o]} :: o in ap0 && SamePath(ap0[o].data.path, path) ==>
              o !in ap1 || (o == pvalue && pvalue != 0)
  {
    hide SamePath;
    if pvalue != 0 {
      OnlyFile(ap0, rp0, pvalue, path);
    }
    forall o | o in ap0 && SamePath(ap0[o].data.path, path) ensures o !in ap1 || (o == pvalue && pvalue != 0) {
      if o in ap1 {
        assert ap1[o].data == ap0[o].data;
      }
    }
  }

  lemma LeftAll(ap: ApNodes, bucketOf: ApData -> nat, lo: nat, hi: nat, now: nat, ttlmax: nat)
    ensures Left(ap, ap.Keys, false, bucketOf, lo, hi, now, ttlmax) == ap.Keys
  {
  }

  lemma LeftSwept(ap0: ApNodes, ap1: ApNodes, bucketOf: ApData -> nat, lo: nat, hi: nat, now: nat, ttlmax: nat)
    requires ap1.Keys <= ap0.Keys
    requires forall o {:trigger o in ap1} {:trigger o in ap0} ::
               o in ap0 ==> (o in ap1 <==> !InWindow(ap0[o].data, bucketOf, lo, hi, now, ttlmax))
    ensures ap1.Keys == Left(ap0, ap0.Keys, true, bucketOf, lo, hi, now, ttlmax)
  {
    hide InWindow;
  }

  /** The same of what an earlier sweep has left. */
  lemma LeftThen(ap0: ApNodes, ap1: ApNodes, sweeps: bool, bucketOf: ApData -> nat, hi: nat, now: nat, ttlmax: nat)
    requires SameData(ap0, ap1) && ap1.Keys <= ap0.Keys
    ensures Left(ap1, ap1.Keys, sweeps, bucketOf, 0, hi, now, ttlmax) ==
            Left(ap0, ap1.Keys, sweeps, bucketOf, 0, hi, now, ttlmax)
    ensures Left(ap0, ap1.Keys, sweeps, bucketOf, 0, hi, now, ttlmax) <= ap1.Keys
  {
    hide InWindow;
  }

  /** A new entry made after a sweep, when the path had no file left, or the changed file o. */
  lemma CreatedAfter(ap0: ApNodes, rp0: RpNodes, ap1: ApNodes, rp1: RpNodes, o: nat, keys2: set<nat>, sweeps: bool,
                     bucketOf: ApData -> nat, buckets: nat, path: Path, check: Check, room: nat, fcnotify: bool,
                     now: nat, ttlmax: nat, pvalue: nat, ap2: ApNodes, rp2: RpNodes)
    requires OneEach(ap0, rp0) && Pruned(ap0, rp0, ap1, rp1)
    requires keys2 == Left(ap0, ap1.Keys, sweeps, bucketOf, 0, buckets, now, ttlmax)
    requires Created(ap1, rp1, Left(ap1, ap1.Keys, sweeps, bucketOf, 0, buckets, now, ttlmax), path, room, fcnotify,
               now, pvalue, ap2, rp2)
    requires if o != 0 then o in ap0 && o in ap1 && SamePath(ap0[o].data.path, path)
                            && CheckFile(ap0[o].data, check) == Changed
             else forall q {:trigger ap0[q]} :: q in ap1.Keys && q in ap0 ==> !SamePath(ap0[q].data.path, path)
    ensures GotFile(ap0, rp0, ap1.Keys, keys2, path, check, room, fcnotify, now, pvalue, ap2, rp2)
    ensures !Settled(ap0, ap1.Keys, path, check)
  {
    hide SamePath, Left, Created, Pruned, GotFile, Settled, OneEach;
    PrunedKeys(ap0, rp0, ap1, rp1);
    LeftThen(ap0, ap1, sweeps, bucketOf, buckets, now, ttlmax);
    CreatedFrom(ap0, rp0, ap1, rp1, keys2, path, room, fcnotify, now, pvalue, ap2, rp2);
    if o != 0 {
      GotOne(ap0, rp0, ap1.Keys, keys2, o, path, check, room, fcnotify, now, pvalue, ap2, rp2);
    } else {
      GotNone(ap0, rp0, ap1.Keys, keys2, path, check, room, fcnotify, now, pvalue, ap2, rp2);
    }
  }

  lemma CreatedFrom(ap0: ApNodes, rp0: RpNodes, ap1: ApNodes, rp1: RpNodes, keys: set<nat>, path: Path, room: nat,
                    fcnotify: bool, now: nat, pvalue: nat, ap2: ApNodes, rp2: RpNodes)
    requires Pruned(ap0, rp0, ap1, rp1) && keys <= ap1.Keys
             && Created(ap1, rp1, keys, path, room, fcnotify, now, pvalue, ap2, rp2)
    ensures Created(ap0, rp0, keys, path, room, fcnotify, now, pvalue, ap2, rp2)
  {
    hide SamePath;
    assert Others(ap1, keys, path) == Others(ap0, keys, path);
    RemainsFrom(ap0, rp0, ap1, rp1, if room == 0 then keys else Others(ap1, keys, path), ap2, rp2);
  }

  lemma RemainsFrom(ap0: ApNodes, rp0: RpNodes, ap1: ApNodes, rp1: RpNodes, kept: set<nat>, ap2: ApNodes, rp2: RpNodes)
    requires Pruned(ap0, rp0, ap1, rp1) && Remains(ap1, rp1, kept, ap2, rp2, {})
    ensures Remains(ap0, rp0, kept, ap2, rp2, {})
  {
    forall r | r in rp0 && r in rp2 ensures rp2[r].data == rp0[r].data {
      assert r in rp1;
    }
  }

  /** The entry of the path goes, if there is one, and then the new one comes. */
  lemma CreatedBy(ap0: ApNodes, rp0: RpNodes, ap1: ApNodes, rp1: RpNodes, path: Path, room: nat, fcnotify: bool,
                  now: nat, ap2: ApNodes)
    requires Pruned(ap0, rp0, ap1, rp1) && ap1.Keys == Others(ap0, ap0.Keys, path) && room != 0
    requires ap2.Keys == ap1.Keys + {room} && SameData(ap1, ap2) && room !in ap1
             && ap2[room].data == ApData(path, 0, 0, fcnotify, false, now, now)
    ensures Created(ap0, rp0, ap0.Keys, path, room, fcnotify, now, room, ap2, rp1)
  {
    hide SamePath;
  }

  lemma NothingCreated(ap0: ApNodes, rp0: RpNodes, ap1: ApNodes, rp1: RpNodes, path: Path, fcnotify: bool, now: nat)
    requires Pruned(ap0, rp0, ap1, rp1)
    ensures Created(ap0, rp0, ap1.Keys, path, 0, fcnotify, now, 0, ap1, rp1)
  {
    PrunedRemains(ap0, rp0, ap1, rp1);
  }

  lemma OthersAll(ap: ApNodes, path: Path)
    requires forall o {:trigger o in ap} :: o in ap ==> !SamePath(ap[o].data.path, path)
    ensures Others(ap, ap.Keys, path) == ap.Keys
  {
    hide SamePath;
  }

  lemma OthersBut(ap: ApNodes, path: Path, o: nat)
    requires o in ap && SamePath(ap[o].data.path, path)
    requires forall q {:trigger ap[q]} :: q in ap && SamePath(ap[q].data.path, path) ==> q == o
    ensures Others(ap, ap.Keys, path) == ap.Keys - {o}
  {
    hide SamePath;
  }

  // ----- Giving a file its content -----

  /** May a name be given a file, by what is recorded for it (NotDone without an entry) and what php's own open
      function says now? */
  ghost predicate Admits(v: Verified, accepted: bool) {
    v.Passed? || (v.NotDone? && accepted)
  }

  /** What is recorded for a name after php's own open function was asked, or was not. */
  ghost function Judged(v: Verified, asked: bool, accepted: bool): Verified {
    if asked && v.NotDone? then (if accepted then Passed else Failed) else v
  }

  /** What is recorded for name entry r; 0 stands for none. */
  ghost function Recorded(rp: RpNodes, r: nat): Verified {
    if r != 0 && r in rp then rp[r].data.verified else NotDone
  }

  /** File o, just looked up, is given to name r (0 for none), or not: it is when it has content, or new content
      can be made and, where that is asked for, php's own open function agrees. */
  ghost predicate FilledIn(ap1: ApNodes, rp1: RpNodes, o: nat, r: nat, usesopen: bool, accepted: bool, fcacheval: nat,
                           got: Got, ap2: ApNodes, rp2: RpNodes)
  {
    && o in ap1 && (r != 0 ==> r in rp1)
    && var d, v := ap1[o].data, Recorded(rp1, r);
       var ok := d.fcacheval != 0 || ((usesopen ==> Admits(v, accepted)) && fcacheval != 0);
       var judged := Judged(v, usesopen && d.fcacheval == 0, accepted);
       && got == (if ok then Entry(o, r) else Nothing)
       && ap2 == (if ok then ap1[o := ap1[o].(data := d.(
                                   fcacheval := if d.fcacheval != 0 then d.fcacheval else fcacheval,
                                   resentry := if r != 0 then r else d.resentry))]
                  else ap1)
       && rp2 == if r == 0 then rp1
                 else if ok then rp1[r := rp1[r].(data := rp1[r].data.(verified := judged, absentry := o,
                                                                       sameValue := d.resentry))]
                 else rp1[r := rp1[r].(data := rp1[r].data.(verified := judged))]
  }

  /** File o has been used within ttlmax milliseconds, and is not a file of this path that has changed. */
  ghost predicate Stays(ap: ApNodes, o: nat, path: Path, check: Check, now: nat, ttlmax: nat) {
    && o in ap && Elapsed(now, ap[o].data.useTicks) <= ttlmax
    && !(SamePath(ap[o].data.path, path) && CheckFile(ap[o].data, check) == Changed)
  }

  /** The same file, used since, or given content or a first name. */
  ghost predicate LikeFile(d: ApData, e: ApData) {
    && e == d.(useTicks := e.useTicks, fcacheval := e.fcacheval, resentry := e.resentry)
    && (d.fcacheval != 0 ==> e.fcacheval == d.fcacheval)
  }

  /** A call for a path spares the files that stay, with their names, and the unresolved names.  Files of other
      paths and all names but those in touched keep their data, and no name is added. */
  ghost predicate Spares(ap0: ApNodes, rp0: RpNodes, ap1: ApNodes, rp1: RpNodes, path: Path, check: Check, now: nat,
                         ttlmax: nat, touched: set<nat>)
  {
    && (forall o {:trigger ap0[o]} {:trigger ap1[o]} {:trigger Stays(ap0, o, path, check, now, ttlmax)} ::
          Stays(ap0, o, path, check, now, ttlmax) ==> o in ap1 && LikeFile(ap0[o].data, ap1[o].data))
    && (forall o {:trigger o in ap1} {:trigger ap1[o]} :: o in ap1 && !SamePath(ap1[o].data.path, path) ==>
          o in ap0 && ap1[o].data == ap0[o].data)
    && (forall q {:trigger q in rp0} {:trigger rp0[q]} ::
          q in rp0 && (rp0[q].data.absentry == 0 || Stays(ap0, rp0[q].data.absentry, path, check, now, ttlmax)) ==>
          q in rp1)
    && forall q {:trigger q in rp1} {:trigger rp1[q]} :: q in rp1 ==>
         q in rp0 && rp1[q].data.key == rp0[q].data.key && (q !in touched ==> rp1[q].data == rp0[q].data)
  }

  /** File o of the path was there, with content and unchanged, and has that content still. */
  ghost predicate Reused(ap0: ApNodes, ap1: ApNodes, o: nat, path: Path, check: Check) {
    && o in ap0 && o in ap1 && SamePath(ap0[o].data.path, path) && CheckFile(ap0[o].data, check) == Same
    && ap0[o].data.fcacheval != 0 && ap1[o].data.fcacheval == ap0[o].data.fcacheval
  }

  /** No file of the path has content and is unchanged. */
  ghost predicate NoContent(ap: ApNodes, path: Path, check: Check) {
    forall o {:trigger ap[o]} :: o in ap && SamePath(ap[o].data.path, path) && CheckFile(ap[o].data, check) == Same ==>
      ap[o].data.fcacheval == 0
  }

  lemma LeftSpares(ap0: ApNodes, keys: set<nat>, sweeps: bool, bucketOf: ApData -> nat, lo: nat, hi: nat, now: nat,
                   ttlmax: nat, path: Path, check: Check, o: nat)
    requires Stays(ap0, o, path, check, now, ttlmax) && o in keys
    ensures o in Left(ap0, keys, sweeps, bucketOf, lo, hi, now, ttlmax)
  {
    hide SamePath, CheckFile, Elapsed;
  }

  /** A lookup spares what stays. */
  lemma GotSpares(ap0: ApNodes, rp0: RpNodes, keys: set<nat>, keys2: set<nat>, path: Path, check: Check, room: nat,
                  fcnotify: bool, now: nat, ttlmax: nat, pvalue: nat, ap1: ApNodes, rp1: RpNodes)
    requires GotFile(ap0, rp0, keys, keys2, path, check, room, fcnotify, now, pvalue, ap1, rp1)
    requires keys2 <= keys <= ap0.Keys && (room == 0 || room !in keys2) && OneEach(ap0, rp0)
    requires forall o {:trigger Stays(ap0, o, path, check, now, ttlmax)} ::
               Stays(ap0, o, path, check, now, ttlmax) ==> o in keys && o in keys2
    ensures Spares(ap0, rp0, ap1, rp1, path, check, now, ttlmax, {})
  {
    hide SamePath, CheckFile, Elapsed;
    if o :| o in keys && o in ap0 && SamePath(ap0[o].data.path, path) {
      OnlyFile(ap0, rp0, o, path);
      if CheckFile(ap0[o].data, check) == Changed {
        CreatedSpares(ap0, rp0, keys2, path, check, room, fcnotify, now, ttlmax, pvalue, ap1, rp1);
      } else {
        KeptSpares(ap0, rp0, keys, path, check, now, ttlmax, o, ap1, rp1);
      }
    } else {
      CreatedSpares(ap0, rp0, keys2, path, check, room, fcnotify, now, ttlmax, pvalue, ap1, rp1);
    }
  }

  lemma CreatedSpares(ap0: ApNodes, rp0: RpNodes, keys: set<nat>, path: Path, check: Check, room: nat, fcnotify: bool,
                      now: nat, ttlmax: nat, pvalue: nat, ap1: ApNodes, rp1: RpNodes)
    requires Created(ap0, rp0, keys, path, room, fcnotify, now, pvalue, ap1, rp1) && (room == 0 || room !in keys)
    requires forall o {:trigger Stays(ap0, o, path, check, now, ttlmax)} :: Stays(ap0, o, path, check, now, ttlmax) ==>
               o in keys && !SamePath(ap0[o].data.path, path)
    ensures Spares(ap0, rp0, ap1, rp1, path, check, now, ttlmax, {})
  {
    hide CheckFile, Elapsed;
    SamePathAs(path);
    hide SamePath;
  }

  lemma KeptSpares(ap0: ApNodes, rp0: RpNodes, keys: set<nat>, path: Path, check: Check, now: nat, ttlmax: nat, o: nat,
                   ap1: ApNodes, rp1: RpNodes)
    requires Remains(ap0, rp0, keys, ap1, rp1, {o}) && ap1.Keys == keys && o in ap0 && SamePath(ap0[o].data.path, path)
    requires o in ap1 ==> ap1[o].data == ap0[o].data.(useTicks := ap1[o].data.useTicks)
    requires forall q {:trigger Stays(ap0, q, path, check, now, ttlmax)} :: Stays(ap0, q, path, check, now, ttlmax) ==>
               q in keys
    ensures Spares(ap0, rp0, ap1, rp1, path, check, now, ttlmax, {})
  {
    hide SamePath, CheckFile, Elapsed;
  }

  /** What filling the entry that a lookup gave comes to. */
  lemma FillFacts(ap0: ApNodes, ap1: ApNodes, rp1: RpNodes, o: nat, path: Path, check: Check, fcnotify: bool, now: nat,
                  r: nat, usesopen: bool, accepted: bool, fcacheval: nat, got: Got, ap2: ApNodes, rp2: RpNodes)
    requires Fetched(ap0, ap1, o, path, check, fcnotify, now)
    requires FilledIn(ap1, rp1, o, r, usesopen, accepted, fcacheval, got, ap2, rp2)
    ensures got.Entry? ==> got == Entry(o, r) && Filled(ap0, ap2, o, path, check, fcacheval)
    ensures fcacheval != 0 && (usesopen ==> Admits(Recorded(rp1, r), accepted)) ==> got.Entry?
    ensures got.Entry? && usesopen ==>
              Reused(ap0, ap2, o, path, check)
              || (Admits(Recorded(rp1, r), accepted) && (r != 0 ==> Recorded(rp2, r) == Passed))
    ensures usesopen && NoContent(ap0, path, check) && r != 0 ==>
              Recorded(rp2, r) == Judged(Recorded(rp1, r), true, accepted)
    ensures Recorded(rp2, r) == Recorded(rp1, r)
            || (usesopen && Recorded(rp2, r) == Judged(Recorded(rp1, r), true, accepted))
    ensures !got.PathOf? && (got.Entry? && r != 0 ==>
              r in rp1 && r in rp2 && rp2[r].data.key == rp1[r].data.key && rp2[r].data.absentry == o)
  {
    hide SamePath, CheckFile;
  }

  /** A file found with content keeps it, and gets the name. */
  lemma FillReuse(ap1: ApNodes, rp1: RpNodes, o: nat, r: nat, usesopen: bool, accepted: bool, fcacheval: nat, got: Got,
                  ap2: ApNodes, rp2: RpNodes)
    requires FilledIn(ap1, rp1, o, r, usesopen, accepted, fcacheval, got, ap2, rp2) && ap1[o].data.fcacheval != 0
    ensures got == Entry(o, r) && o in ap2 && Recorded(rp2, r) == Recorded(rp1, r)
    ensures ap2[o].data == ap1[o].data.(resentry := if r != 0 then r else ap1[o].data.resentry)
  {
  }

  lemma FillSpares(ap0: ApNodes, rp0: RpNodes, ap1: ApNodes, rp1: RpNodes, o: nat, path: Path, check: Check, now: nat,
                   ttlmax: nat, r: nat, usesopen: bool, accepted: bool, fcacheval: nat, got: Got, ap2: ApNodes,
                   rp2: RpNodes)
    requires Spares(ap0, rp0, ap1, rp1, path, check, now, ttlmax, {})
    requires FilledIn(ap1, rp1, o, r, usesopen, accepted, fcacheval, got, ap2, rp2) && SamePath(ap1[o].data.path, path)
    ensures Spares(ap0, rp0, ap2, rp2, path, check, now, ttlmax, if r == 0 then {} else {r})
  {
    hide SamePath, Stays;
  }

  lemma SparesMore(ap0: ApNodes, rp0: RpNodes, ap1: ApNodes, rp1: RpNodes, path: Path, check: Check, now: nat,
                   ttlmax: nat, r: nat)
    requires Spares(ap0, rp0, ap1, rp1, path, check, now, ttlmax, {})
    ensures Spares(ap0, rp0, ap1, rp1, path, check, now, ttlmax, if r == 0 then {} else {r})
  {
    hide SamePath, Stays, LikeFile;
  }

  lemma SparesFewer(ap0: ApNodes, rp0: RpNodes, ap1: ApNodes, rp1: RpNodes, path: Path, check: Check, now: nat,
                    ttlmax: nat, touched: set<nat>)
    requires Spares(ap0, rp0, ap1, rp1, path, check, now, ttlmax, touched)
    ensures Fewer(rp0, rp1)
  {
    hide SamePath, Stays, LikeFile;
  }

  lemma StaysThere(ap: ApNodes, o: nat, path: Path, check: Check, now: nat, ttlmax: nat)
    requires Stays(ap, o, path, check, now, ttlmax)
    ensures o in ap
  {
  }

  lemma StillRecorded(rp0: RpNodes, rp1: RpNodes, r: nat)
    requires Unresolved(rp0, rp1) && (r != 0 ==> r in rp0 && rp0[r].data.absentry == 0)
    ensures Recorded(rp1, r) == Recorded(rp0, r) && (r != 0 ==> r in rp1 && rp1[r].data == rp0[r].data)
  {
  }

  lemma FetchedPath(ap0: ApNodes, ap1: ApNodes, o: nat, path: Path, check: Check, fcnotify: bool, now: nat)
    requires Fetched(ap0, ap1, o, path, check, fcnotify, now)
    ensures o in ap1 && SamePath(ap1[o].data.path, path)
  {
  }

  // ----- What a lookup by name comes to -----

  /** No entry of this name is resolved. */
  ghost predicate NotResolved(rp: RpNodes, key: RpKey) {
    forall q {:trigger rp[q]} :: q in rp && SameKey(rp[q].data.key, key) ==> rp[q].data.absentry == 0
  }

  /** There is no entry of this name, and none can be made. */
  ghost predicate NoRoom(rp: RpNodes, key: RpKey, place: Allocator) {
    place(rp.Keys) == 0 && forall q {:trigger rp[q]} :: q in rp ==> !SameKey(rp[q].data.key, key)
  }

  /** May this name be given a file?  An entry whose file has changed does not count. */
  ghost predicate GateOpen(ap: ApNodes, rp: RpNodes, key: RpKey, check: Check, accepted: bool) {
    if StaleName(ap, rp, key, check) then accepted
    else
      || (exists q {:trigger rp[q]} :: q in rp && SameKey(rp[q].data.key, key) && rp[q].data.verified == Passed)
      || (accepted
          && forall q {:trigger rp[q]} :: q in rp && SameKey(rp[q].data.key, key) ==> rp[q].data.verified == NotDone)
  }

  /** The name resolves to file o, which is unchanged. */
  ghost predicate Hit(ap: ApNodes, rp: RpNodes, key: RpKey, o: nat, check: Check) {
    Named(rp, key, o) && o in ap && CheckFile(ap[o].data, check) == Same
  }

  /** What is recorded for the entry of this name is what php's own open function said, or said before. */
  ghost predicate Outcome(rp0: RpNodes, rp1: RpNodes, key: RpKey, accepted: bool) {
    exists q {:trigger rp1[q]} :: q != 0 && q in rp1 && SameKey(rp1[q].data.key, key)
      && Recorded(rp1, q) == Judged(Recorded(rp0, q), true, accepted)
  }

  /** Entry q of the name, already resolved, decides the call, unless content is wanted and its file has changed. */
  ghost predicate Settles(ap0: ApNodes, rp0: RpNodes, q: nat, contents: bool, check: Check, r: Got, ap1: ApNodes,
                          rp1: RpNodes)
  {
    && q in rp0 && rp0[q].data.absentry in ap0
    && var o := rp0[q].data.absentry;
       var found := CheckFile(ap0[o].data, check);
       && (!contents || found != Changed ==> ap1 == ap0 && rp1 == rp0)
       && (if !contents then r == PathOf(ap0[o].data.path)
           else if found == Same then r == Entry(o, q)
           else found == CheckFails ==> r == Nothing)
  }

  /** File o has been used lately, and is found changed neither by its path nor by the name. */
  ghost predicate StaysBut(ap: ApNodes, rp: RpNodes, o: nat, key: RpKey, check1: Check, resolved: Option<Path>,
                           check2: Check, now: nat, ttlmax: nat)
  {
    && o in ap && Elapsed(now, ap[o].data.useTicks) <= ttlmax
    && !(resolved.Some? && SamePath(ap[o].data.path, resolved.value) && CheckFile(ap[o].data, check2) == Changed)
    && !(Named(rp, key, o) && CheckFile(ap[o].data, check1) == Changed)
  }

  /** A call for a name spares such files, with their names, and unresolved names.  Files not of the resolved path
      and all other names keep their data. */
  ghost predicate SparesBut(ap0: ApNodes, rp0: RpNodes, ap1: ApNodes, rp1: RpNodes, key: RpKey, check1: Check,
                            resolved: Option<Path>, check2: Check, now: nat, ttlmax: nat)
  {
    && (forall o {:trigger ap0[o]} {:trigger StaysBut(ap0, rp0, o, key, check1, resolved, check2, now, ttlmax)} ::
          StaysBut(ap0, rp0, o, key, check1, resolved, check2, now, ttlmax) ==>
          o in ap1 && LikeFile(ap0[o].data, ap1[o].data))
    && (forall o {:trigger o in ap1} {:trigger ap1[o]} ::
          o in ap1 && (resolved.None? || !SamePath(ap1[o].data.path, resolved.value)) ==>
          o in ap0 && ap1[o].data == ap0[o].data)
    && (forall q {:trigger q in rp0} {:trigger rp0[q]} ::
          q in rp0 && !SameKey(rp0[q].data.key, key)
          && (rp0[q].data.absentry == 0
              || StaysBut(ap0, rp0, rp0[q].data.absentry, key, check1, resolved, check2, now, ttlmax)) ==>
          q in rp1)
    && forall q {:trigger q in rp1} {:trigger rp1[q]} :: q in rp1 && !SameKey(rp1[q].data.key, key) ==>
         q in rp0 && rp1[q].data == rp0[q].data
  }

  /** Everything FillEntry promises, on values; made says that an entry can be made. */
  ghost predicate Filling(ap0: ApNodes, rp0: RpNodes, r: nat, path: Path, usesopen: bool, check: Check, made: bool,
                          accepted: bool, fcacheval: nat, now: nat, ttlmax: nat, got: Got, ap1: ApNodes, rp1: RpNodes)
  {
    && (check != CheckFails && made && fcacheval != 0 && (usesopen ==> Admits(Recorded(rp0, r), accepted)) ==>
          got.Entry?)
    && (got.Entry? && usesopen ==>
          Reused(ap0, ap1, got.file, path, check)
          || (Admits(Recorded(rp0, r), accepted) && (r != 0 ==> Recorded(rp1, r) == Passed)))
    && (usesopen && NoContent(ap0, path, check) && r != 0 && check != CheckFails && made ==>
          Recorded(rp1, r) == Judged(Recorded(rp0, r), true, accepted))
    && (Recorded(rp1, r) == Recorded(rp0, r)
        || (usesopen && Recorded(rp1, r) == Judged(Recorded(rp0, r), true, accepted)))
    && (forall o {:trigger ap0[o]} ::
          o in ap0 && SamePath(ap0[o].data.path, path) && CheckFile(ap0[o].data, check) == Same
          && ap0[o].data.fcacheval != 0 && Elapsed(now, ap0[o].data.useTicks) <= ttlmax ==>
          got == Entry(o, r) && o in ap1 && Recorded(rp1, r) == Recorded(rp0, r)
          && ap1[o].data == ap0[o].data.(useTicks := now, resentry := if r != 0 then r else ap0[o].data.resentry))
    && Spares(ap0, rp0, ap1, rp1, path, check, now, ttlmax, if r == 0 then {} else {r})
    && !got.PathOf? && (r == 0 ==> Fewer(rp0, rp1))
    && (got.Entry? ==> Filled(ap0, ap1, got.file, path, check, fcacheval) && got.name == r)
  }

  /** The answer of a call for a name whose entry r resolves to a file, when that is all it takes. */
  ghost predicate Answers(ap: ApNodes, rp: RpNodes, r: nat, contents: bool, check: Check, answer: Got) {
    && r in rp && rp[r].data.absentry in ap
    && var o := rp[r].data.absentry;
       var found := CheckFile(ap[o].data, check);
       if !contents then answer == PathOf(ap[o].data.path)
       else found != Changed && answer == if found == Same then Entry(o, r) else Nothing
  }

  lemma AnswerFacts(ap: ApNodes, rp: RpNodes, links: map<nat, seq<nat>>, r: nat, key: RpKey, contents: bool,
                    check: Check, answer: Got)
    requires Cross(ap, rp, links) && OneEach(ap, rp) && r != 0 && r in rp && SameKey(rp[r].data.key, key)
             && rp[r].data.absentry != 0 && Answers(ap, rp, r, contents, check, answer)
    ensures forall q {:trigger rp[q]} :: q in rp && SameKey(rp[q].data.key, key) ==>
              Settles(ap, rp, q, contents, check, answer, ap, rp)
    ensures !NotResolved(rp, key) && (answer.Nothing? ==> check == CheckFails)
    ensures answer.PathOf? ==> !contents && KnownPath(ap, rp, key, answer.path)
    ensures answer.Entry? ==>
              && contents && Hit(ap, rp, key, answer.file, check) && answer.name == r && !StaleName(ap, rp, key, check)
              && rp[r].data.absentry == answer.file && ap[answer.file].data.fcacheval != 0
    ensures contents <==> !answer.PathOf?
  {
    hide SameKey, OneEach, Cross;
    ResolvedFile(ap, rp, links, r);
    OnlyName(ap, rp, r, key);
    assert Named(rp, key, rp[r].data.absentry);
  }

  lemma ItIsOutdated(ap: ApNodes, o: nat, check: Check)
    requires o in ap && CheckFile(ap[o].data, check) == Changed
    ensures Outdated(ap, o, check)
  {
  }

  /** The state of a lookup by name once its entry r is known not to resolve to a valid file: the entry is
      unresolved, or r is 0 and the entry has gone with its changed file. */
  ghost predicate Midway(ap0: ApNodes, rp0: RpNodes, ap1: ApNodes, rp1: RpNodes, r: nat, key: RpKey, check1: Check,
                         accepted: bool)
  {
    && SameData(ap0, ap1) && ap1.Keys <= ap0.Keys && SameData(rp0, rp1)
    && (GateOpen(ap0, rp0, key, check1, accepted) <==> Admits(Recorded(rp1, r), accepted))
    && (StaleName(ap0, rp0, key, check1) <==> r == 0)
    && if r == 0 then
         && !NotResolved(rp0, key) && (forall q {:trigger q in rp1} :: q in rp1 ==> !SameKey(rp1[q].data.key, key))
         && forall q {:trigger rp0[q]} :: q in rp0 && SameKey(rp0[q].data.key, key) ==>
              Outdated(ap0, rp0[q].data.absentry, check1)
       else
         && r in rp1 && SameKey(rp1[r].data.key, key) && rp1[r].data.absentry == 0 && ap1 == ap0
         && NotResolved(rp0, key) && Recorded(rp0, r) == Recorded(rp1, r)
  }

  lemma MidUnlinked(ap: ApNodes, rp0: RpNodes, rp1: RpNodes, links: map<nat, seq<nat>>, r: nat, key: RpKey,
                    check: Check, accepted: bool)
    requires Cross(ap, rp1, links) && OneEach(ap, rp1) && SameData(rp0, rp1) && rp1.Keys == rp0.Keys + {r} && r != 0
    requires SameKey(rp1[r].data.key, key) && rp1[r].data.absentry == 0
             && (r !in rp0 ==> rp1[r].data.verified == NotDone)
    ensures Midway(ap, rp0, ap, rp1, r, key, check, accepted)
  {
    hide SameKey, OneEach, Cross, GateOpen, StaleName, NotResolved, Admits;
    SelfData(ap);
    NotResolvedName(ap, rp0, rp1, links, r, key, check, accepted);
    StaleByEntry(ap, rp0, rp1, links, r, key, check);
  }

  lemma MidDropped(ap0: ApNodes, rp0: RpNodes, rp1: RpNodes, links: map<nat, seq<nat>>, r: nat, key: RpKey,
                   check: Check, accepted: bool, ap2: ApNodes, rp2: RpNodes)
    requires Cross(ap0, rp1, links) && OneEach(ap0, rp1) && SameData(rp0, rp1) && rp1.Keys == rp0.Keys + {r}
    requires SameKey(rp1[r].data.key, key) && rp1[r].data.absentry != 0 && (r !in rp0 ==> rp1[r].data.absentry == 0)
    requires Outdated(ap0, rp1[r].data.absentry, check)
    requires Pruned(ap0, rp1, ap2, rp2) && ap2.Keys == ap0.Keys - {rp1[r].data.absentry}
    ensures Midway(ap0, rp0, ap2, rp2, 0, key, check, accepted)
    ensures Pruned(ap0, rp0, ap2, rp2)
  {
    hide SameKey, OneEach, Cross, NotResolved, Outdated;
    LinkedName(ap0, rp0, rp1, links, r, key);
    StaleByEntry(ap0, rp0, rp1, links, r, key, check);
    NameIsGone(ap0, rp1, ap2, rp2, r, key);
    PrunedSame(rp0, rp1, r, ap0, ap2, rp2);
    hide StaleName;
  }

  /** With an entry for the name, found or made, there is room; without one nothing has happened. */
  lemma RoomOrNot(ap: ApNodes, rp0: RpNodes, rp1: RpNodes, r: nat, key: RpKey, place: Allocator, check1: Check,
                  resolved: Option<Path>, check2: Check, now: nat, ttlmax: nat)
    requires SameData(rp0, rp1) && (r == 0 ==> rp1 == rp0)
    requires r != 0 ==> rp1.Keys == rp0.Keys + {r} && SameKey(rp1[r].data.key, key)
    requires r == 0 || r !in rp0 ==>
               r == place(rp0.Keys) && forall o {:trigger o in rp0} :: o in rp0 ==> !SameKey(rp0[o].data.key, key)
    ensures NoRoom(rp0, key, place) <==> r == 0
    ensures r == 0 ==> NotResolved(rp0, key) && !StaleName(ap, rp0, key, check1)
    ensures SparesBut(ap, rp0, ap, rp1, key, check1, resolved, check2, now, ttlmax)
  {
    hide SameKey, CheckFile;
    if r == 0 {
      hide StaysBut;
    } else {
      assert r in rp0 ==> rp0[r].data == rp1[r].data;
      hide NotResolved, StaleName;
      AddedSpares(ap, rp0, rp1, r, key, check1, resolved, check2, now, ttlmax);
    }
  }

  lemma MidFacts(ap0: ApNodes, rp0: RpNodes, ap1: ApNodes, rp1: RpNodes, r: nat, key: RpKey, check1: Check,
                 accepted: bool, contents: bool, got: Got, ap2: ApNodes, rp2: RpNodes)
    requires Midway(ap0, rp0, ap1, rp1, r, key, check1, accepted) && (r == 0 ==> contents)
    ensures if r == 0 then !NotResolved(rp0, key)
            else r in rp1 && SameKey(rp1[r].data.key, key) && rp1[r].data.absentry == 0 && ap1 == ap0
                 && NotResolved(rp0, key)
    ensures forall q {:trigger rp0[q]} :: q in rp0 && SameKey(rp0[q].data.key, key) && rp0[q].data.absentry != 0 ==>
              Settles(ap0, rp0, q, contents, check1, got, ap2, rp2)
  {
    hide SameKey, GateOpen, StaleName, Admits, Recorded, SameData;
  }

  /** The whole of a lookup by name that gets as far as filling an entry. */
  lemma Concluded(ap0: ApNodes, rp0: RpNodes, ap1: ApNodes, rp1: RpNodes, r: nat, key: RpKey, check1: Check, path: Path,
                  usesopen: bool, check2: Check, made: bool, accepted: bool, fcacheval: nat, now: nat, ttlmax: nat,
                  got: Got, ap2: ApNodes, rp2: RpNodes)
    requires Midway(ap0, rp0, ap1, rp1, r, key, check1, accepted)
    requires SparesBut(ap0, rp0, ap1, rp1, key, check1, Some(path), check2, now, ttlmax)
    requires Filling(ap1, rp1, r, path, usesopen, check2, made, accepted, fcacheval, now, ttlmax, got, ap2, rp2)
    ensures check2 != CheckFails && made && fcacheval != 0
            && (usesopen ==> GateOpen(ap0, rp0, key, check1, accepted)) ==>
              got.Entry?
    ensures !got.PathOf? && (r == 0 ==> forall q {:trigger q in rp2} :: q in rp2 ==> !SameKey(rp2[q].data.key, key))
    ensures got.Entry? ==>
              && Filled(ap0, ap2, got.file, path, check2, fcacheval) && got.file in ap2
              && ap2[got.file].data.fcacheval != 0 && got.name == r && (r == 0 <==> StaleName(ap0, rp0, key, check1))
    ensures got.Entry? && usesopen ==>
              || Reused(ap0, ap2, got.file, path, check2)
              || (GateOpen(ap0, rp0, key, check1, accepted) && (got.name != 0 ==> Recorded(rp2, got.name) == Passed))
    ensures SparesBut(ap0, rp0, ap2, rp2, key, check1, Some(path), check2, now, ttlmax)
    ensures forall q {:trigger rp0[q]} :: q in rp0 && SameKey(rp0[q].data.key, key) && rp0[q].data.absentry != 0 ==>
              Settles(ap0, rp0, q, true, check1, got, ap2, rp2)
  {
    hide SamePath, SameKey, CheckFile, Elapsed, Spares, Admits, Judged, NoContent, Fewer, Recorded, Filled, GateOpen;
    hide StaleName, SparesBut, Reused;
    if got.Entry? {
      FilledFrom(ap0, ap1, ap2, got.file, path, check2, fcacheval);
      if Reused(ap1, ap2, got.file, path, check2) {
        ReusedBefore(ap0, ap1, ap2, got.file, path, check2);
      }
    }
    if r == 0 {
      FewerNone(rp1, rp2, key);
    }
    SparesThen(ap0, rp0, ap1, rp1, ap2, rp2, key, check1, path, check2, now, ttlmax, if r == 0 then {} else {r});
  }

  /** The same for a name that was not resolved: what is recorded for it, and the file it finds. */
  lemma ConcludedFirst(ap0: ApNodes, rp0: RpNodes, rp1: RpNodes, r: nat, key: RpKey, check1: Check, path: Path,
                       usesopen: bool, check2: Check, made: bool, accepted: bool, fcacheval: nat, now: nat, ttlmax: nat,
                       got: Got, ap2: ApNodes, rp2: RpNodes)
    requires Midway(ap0, rp0, ap0, rp1, r, key, check1, accepted) && r != 0
    requires Filling(ap0, rp1, r, path, usesopen, check2, made, accepted, fcacheval, now, ttlmax, got, ap2, rp2)
    ensures usesopen && NoContent(ap0, path, check2) && check2 != CheckFails && made ==>
              Outcome(rp0, rp2, key, accepted)
    ensures forall o {:trigger ap0[o]} ::
              o in ap0 && SamePath(ap0[o].data.path, path) && CheckFile(ap0[o].data, check2) == Same
              && ap0[o].data.fcacheval != 0 && Elapsed(now, ap0[o].data.useTicks) <= ttlmax ==>
              got.Entry? && got.file == o && got.name != 0 && o in ap2
              && ap2[o].data == ap0[o].data.(useTicks := now, resentry := got.name)
  {
    hide SamePath, SameKey, CheckFile, Elapsed, Admits, Judged, NoContent, Fewer, Recorded, Filled, GateOpen, StaleName;
    hide Reused, Stays, LikeFile;
    assert r in rp2 && rp2[r].data.key == rp1[r].data.key;
  }

  /** A lookup that fails. */
  lemma FillFails(ap0: ApNodes, rp0: RpNodes, ap1: ApNodes, rp1: RpNodes, r: nat, path: Path, usesopen: bool,
                  check: Check, made: bool, accepted: bool, fcacheval: nat, now: nat, ttlmax: nat)
    requires Spares(ap0, rp0, ap1, rp1, path, check, now, ttlmax, {}) && Unresolved(rp0, rp1)
    requires (check == CheckFails || !made) && (r != 0 ==> r in rp0 && rp0[r].data.absentry == 0)
    requires forall o {:trigger ap0[o]} ::
               o in ap0 && SamePath(ap0[o].data.path, path) && CheckFile(ap0[o].data, check) == Same ==>
               Elapsed(now, ap0[o].data.useTicks) > ttlmax
    ensures Filling(ap0, rp0, r, path, usesopen, check, made, accepted, fcacheval, now, ttlmax, Nothing, ap1, rp1)
  {
    hide SamePath, CheckFile, Elapsed, Spares, Admits, Judged, NoContent, Fewer, Unresolved;
    StillRecorded(rp0, rp1, r);
    SparesFewer(ap0, rp0, ap1, rp1, path, check, now, ttlmax, {});
    SparesMore(ap0, rp0, ap1, rp1, path, check, now, ttlmax, r);
  }

  lemma FillHolds(ap0: ApNodes, rp0: RpNodes, ap1: ApNodes, rp1: RpNodes, o: nat, r: nat, path: Path, usesopen: bool,
                  check: Check, fcnotify: bool, made: bool, accepted: bool, fcacheval: nat, now: nat, ttlmax: nat,
                  got: Got, ap2: ApNodes, rp2: RpNodes)
    requires Spares(ap0, rp0, ap1, rp1, path, check, now, ttlmax, {}) && Unresolved(rp0, rp1)
    requires r != 0 ==> r in rp0 && rp0[r].data.absentry == 0
    requires Fetched(ap0, ap1, o, path, check, fcnotify, now)
    requires FilledIn(ap1, rp1, o, r, usesopen, accepted, fcacheval, got, ap2, rp2)
    requires forall q {:trigger ap0[q]} ::
               q in ap0 && SamePath(ap0[q].data.path, path) && CheckFile(ap0[q].data, check) == Same
               && Elapsed(now, ap0[q].data.useTicks) <= ttlmax ==>
               o == q && q in ap1 && ap1[q].data == ap0[q].data.(useTicks := now)
    ensures Filling(ap0, rp0, r, path, usesopen, check, made, accepted, fcacheval, now, ttlmax, got, ap2, rp2)
  {
    hide SamePath, CheckFile, Elapsed, Spares, Admits, Judged, NoContent, Fewer, Unresolved, FilledIn, Fetched;
    hide Recorded, Reused, Filled;
    var touched := if r == 0 then {} else {r};
    assert Spares(ap0, rp0, ap2, rp2, path, check, now, ttlmax, touched) && Fewer(rp0, rp2) by {
      FetchedPath(ap0, ap1, o, path, check, fcnotify, now);
      FillSpares(ap0, rp0, ap1, rp1, o, path, check, now, ttlmax, r, usesopen, accepted, fcacheval, got, ap2, rp2);
      SparesFewer(ap0, rp0, ap2, rp2, path, check, now, ttlmax, touched);
    }
    StillRecorded(rp0, rp1, r);
    forall q | q in ap0 && SamePath(ap0[q].data.path, path) && CheckFile(ap0[q].data, check) == Same
               && ap0[q].data.fcacheval != 0 && Elapsed(now, ap0[q].data.useTicks) <= ttlmax
      ensures got == Entry(q, r) && q in ap2 && Recorded(rp2, r) == Recorded(rp0, r)
      ensures ap2[q].data == ap0[q].data.(useTicks := now, resentry := if r != 0 then r else ap0[q].data.resentry)
    {
      FillReuse(ap1, rp1, o, r, usesopen, accepted, fcacheval, got, ap2, rp2);
    }
    FillFacts(ap0, ap1, rp1, o, path, check, fcnotify, now, r, usesopen, accepted, fcacheval, got, ap2, rp2);
  }

  lemma AddedSpares(ap: ApNodes, rp0: RpNodes, rp1: RpNodes, r: nat, key: RpKey, check1: Check, resolved: Option<Path>,
                    check2: Check, now: nat, ttlmax: nat)
    requires SameData(rp0, rp1) && rp1.Keys == rp0.Keys + {r} && SameKey(rp1[r].data.key, key)
    ensures SparesBut(ap, rp0, ap, rp1, key, check1, resolved, check2, now, ttlmax)
  {
    hide SamePath, SameKey, CheckFile, Elapsed, Named;
  }

  lemma DroppedSpares(ap0: ApNodes, rp0: RpNodes, ap1: ApNodes, rp1: RpNodes, o: nat, key: RpKey, check1: Check,
                      resolved: Option<Path>, check2: Check, now: nat, ttlmax: nat)
    requires Pruned(ap0, rp0, ap1, rp1) && o in ap0 && ap1.Keys == ap0.Keys - {o}
    requires Named(rp0, key, o) && CheckFile(ap0[o].data, check1) == Changed
    ensures SparesBut(ap0, rp0, ap1, rp1, key, check1, resolved, check2, now, ttlmax)
  {
    hide SamePath, SameKey, CheckFile, Elapsed, Named;
  }

  lemma SparesThen(ap0: ApNodes, rp0: RpNodes, ap1: ApNodes, rp1: RpNodes, ap2: ApNodes, rp2: RpNodes, key: RpKey,
                   check1: Check, path: Path, check2: Check, now: nat, ttlmax: nat, touched: set<nat>)
    requires SparesBut(ap0, rp0, ap1, rp1, key, check1, Some(path), check2, now, ttlmax)
    requires SameData(ap0, ap1) && ap1.Keys <= ap0.Keys && SameData(rp0, rp1)
    requires Spares(ap1, rp1, ap2, rp2, path, check2, now, ttlmax, touched)
    requires forall r {:trigger r in touched} :: r in touched ==> r in rp1 && SameKey(rp1[r].data.key, key)
    ensures SparesBut(ap0, rp0, ap2, rp2, key, check1, Some(path), check2, now, ttlmax)
  {
    hide SamePath, SameKey, CheckFile, Elapsed, Named;
    forall o | StaysBut(ap0, rp0, o, key, check1, Some(path), check2, now, ttlmax)
      ensures Stays(ap1, o, path, check2, now, ttlmax) && o in ap2 && LikeFile(ap0[o].data, ap2[o].data)
    {
      assert o in ap1 && ap1[o].data == ap0[o].data;
      assert Stays(ap1, o, path, check2, now, ttlmax);
    }
    hide StaysBut, Stays, LikeFile;
    forall q | q in rp2 && !SameKey(rp2[q].data.key, key) ensures q in rp0 && rp2[q].data == rp0[q].data {
      assert q in rp1 && rp2[q].data.key == rp1[q].data.key;
    }
  }

  /** An unresolved name, found or just added. */
  lemma NotResolvedName(ap: ApNodes, rp0: RpNodes, rp1: RpNodes, links: map<nat, seq<nat>>, r: nat, key: RpKey,
                     check: Check, accepted: bool)
    requires Cross(ap, rp1, links) && OneEach(ap, rp1) && SameData(rp0, rp1) && rp1.Keys == rp0.Keys + {r} && r != 0
    requires SameKey(rp1[r].data.key, key) && rp1[r].data.absentry == 0
             && (r !in rp0 ==> rp1[r].data.verified == NotDone)
    ensures NotResolved(rp0, key) && Recorded(rp0, r) == Recorded(rp1, r)
    ensures GateOpen(ap, rp0, key, check, accepted) <==> Admits(Recorded(rp1, r), accepted)
    ensures forall q {:trigger rp0[q]} :: q in rp0 && SameKey(rp0[q].data.key, key) ==> q == r
  {
    hide SameKey, OneEach, Cross, CheckFile;
    OnlyName(ap, rp1, r, key);
    StaleByEntry(ap, rp0, rp1, links, r, key, check);
    hide StaleName;
    forall q | q in rp0 && SameKey(rp0[q].data.key, key) ensures q == r && rp0[q].data == rp1[q].data {
      assert q in rp1 && rp1[q].data == rp0[q].data;
    }
    if r in rp0 {
      assert rp0[r].data == rp1[r].data;
    }
  }

  /** A name that resolves to file o. */
  lemma LinkedName(ap: ApNodes, rp0: RpNodes, rp1: RpNodes, links: map<nat, seq<nat>>, r: nat, key: RpKey)
    requires Cross(ap, rp1, links) && OneEach(ap, rp1) && SameData(rp0, rp1) && rp1.Keys == rp0.Keys + {r}
    requires SameKey(rp1[r].data.key, key) && rp1[r].data.absentry != 0 && (r !in rp0 ==> rp1[r].data.absentry == 0)
    ensures r in rp0 && rp0[r].data == rp1[r].data && rp0[r].data.absentry in ap
            && Named(rp0, key, rp0[r].data.absentry)
    ensures !NotResolved(rp0, key)
    ensures forall q {:trigger rp0[q]} :: q in rp0 && SameKey(rp0[q].data.key, key) ==> q == r
  {
    hide SameKey, OneEach;
    OnlyName(ap, rp1, r, key);
    forall q | q in rp0 && SameKey(rp0[q].data.key, key) ensures q == r {
      assert q in rp1 && rp1[q].data == rp0[q].data;
    }
    assert rp0[r].data == rp1[r].data;
  }

  lemma ReusedBefore(ap0: ApNodes, ap1: ApNodes, ap2: ApNodes, o: nat, path: Path, check: Check)
    requires SameData(ap0, ap1) && ap1.Keys <= ap0.Keys && Reused(ap1, ap2, o, path, check)
    ensures Reused(ap0, ap2, o, path, check)
  {
    hide SamePath, CheckFile;
  }

  lemma OnlyName(ap: ApNodes, rp: RpNodes, r: nat, key: RpKey)
    requires OneEach(ap, rp) && r in rp && SameKey(rp[r].data.key, key)
    ensures forall q {:trigger q in rp} :: q in rp && SameKey(rp[q].data.key, key) ==> q == r
  {
    forall q | q in rp && SameKey(rp[q].data.key, key) ensures q == r {
      SamePathsAlike(rp[q].data.key, rp[r].data.key, key);
    }
  }

  // What aplist_fcache_get gives: nothing, a path only, or a file with content and the name entry
  // linked to it (0 when none).
  datatype Got = Nothing | PathOf(path: Path) | Entry(file: nat, name: nat)

  // What one call's allocation gets when these offsets are in use: one that is not, or 0 when the allocator
  // refuses.  It differs from call to call, as the sizes do that the calls ask for.
  type Allocator = set<nat> -> nat

  ghost predicate Sound(place: Allocator) {
    forall s {:trigger place(s)} :: place(s) == 0 || place(s) !in s
  }

  /** It never refuses. */
  ghost predicate Generous(place: Allocator) {
    forall s {:trigger place(s)} :: place(s) != 0
  }

  // The whole operations on the two caches, with their oracles.
  datatype Op =
    | Get(key: RpKey, contents: bool, usesopen: bool, resolved: Option<Path>, check1: Check, check2: Check,
          retry: bool, created: bool, fcnotify: bool, accepted: bool, fcacheval: nat, now: nat,
          placeAp: Allocator, placeRp: Allocator)
    | Delete(key: RpKey, placeRp: Allocator)
    | Mark(path: Path)
    | GetFile(path: Path, now: nat, check: Check, retry: bool, created: bool, fcnotify: bool, placeAp: Allocator)

  ghost predicate SoundOp(op: Op) {
    match op
    case Get(_, _, _, _, _, _, _, _, _, _, _, _, placeAp, placeRp) => Sound(placeAp) && Sound(placeRp)
    case Delete(_, placeRp) => Sound(placeRp)
    case Mark(_) => true
    case GetFile(_, _, _, _, _, _, placeAp) => Sound(placeAp)
  }

  // The two caches at an instant.
  datatype Snap = Snap(ap: ApNodes, rp: RpNodes)

  /** What a whole operation answers and leaves: a lookup spares all files that are neither idle nor changed and gives
      none that the name may not have; a deletion takes the file of the name and nothing else; a mark flags the file of
      its path and nothing else. */
  ghost predicate OpDone(s: Snap, op: Op, r: Got, t: Snap, ttlmax: nat) {
    match op
    case Get(key, contents, usesopen, resolved, check1, check2, _, _, _, accepted, fcacheval, now, _, _) =>
      && SparesBut(s.ap, s.rp, t.ap, t.rp, key, check1, resolved, check2, now, ttlmax)
      && (forall q {:trigger s.rp[q]} :: q in s.rp && SameKey(s.rp[q].data.key, key) && s.rp[q].data.absentry != 0 ==>
            Settles(s.ap, s.rp, q, contents, check1, r, t.ap, t.rp))
      && (r.Entry? ==> r.file in t.ap && t.ap[r.file].data.fcacheval != 0)
      && (r.Entry? && usesopen ==>
            || Hit(s.ap, s.rp, key, r.file, check1)
            || (resolved.Some? && Reused(s.ap, t.ap, r.file, resolved.value, check2))
            || GateOpen(s.ap, s.rp, key, check1, accepted))
    case Delete(key, _) =>
      r == Nothing && Deleted(s.ap, s.rp, key, t.ap, t.rp)
    case Mark(path) =>
      && r == Nothing && t.rp == s.rp && t.ap.Keys == s.ap.Keys
      && forall o {:trigger t.ap[o]} :: o in t.ap ==>
           t.ap[o].data == if SamePath(s.ap[o].data.path, path) then s.ap[o].data.(isChanged := true) else s.ap[o].data
    case GetFile(path, now, check, _, _, fcnotify, _) =>
      && Spares(s.ap, s.rp, t.ap, t.rp, path, check, now, ttlmax, {})
      && if r.Entry? then Fetched(s.ap, t.ap, r.file, path, check, fcnotify, now) else r == Nothing
  }

  /** Exactly the files the name resolves to are gone, with their names; the name itself may be new. */
  ghost predicate Deleted(ap0: ApNodes, rp0: RpNodes, key: RpKey, ap1: ApNodes, rp1: RpNodes) {
    && SameData(ap0, ap1) && SameData(rp0, rp1)
    && (forall o {:trigger o in ap1} {:trigger o in ap0} :: o in ap1 <==> o in ap0 && !Named(rp0, key, o))
    && (forall q {:trigger q in rp0} :: q in rp0 ==>
          (q in rp1 <==> rp0[q].data.absentry == 0 || !Named(rp0, key, rp0[q].data.absentry)))
    && forall q {:trigger q in rp1} :: q in rp1 && q !in rp0 ==> rp1[q].data == RpData(key, 0, 0, NotDone)
  }

  /** The operation finds file o neither idle nor changed, and does not delete it. */
  ghost predicate Leaves(s: Snap, op: Op, o: nat, ttlmax: nat) {
    match op
    case Get(key, _, _, resolved, check1, check2, _, _, _, _, _, now, _, _) =>
      StaysBut(s.ap, s.rp, o, key, check1, resolved, check2, now, ttlmax)
    case Delete(key, _) => o in s.ap && !Named(s.rp, key, o)
    case Mark(_) => o in s.ap
    case GetFile(path, now, check, _, _, _, _) => Stays(s.ap, o, path, check, now, ttlmax)
  }

  ghost predicate OpsRun(snaps: seq<Snap>, ops: seq<Op>, answers: seq<Got>, ttlmax: nat) {
    && |snaps| == |ops| + 1 && |answers| == |ops|
    && forall k {:trigger ops[k]} {:trigger answers[k]} :: 0 <= k < |ops| ==>
         OpDone(snaps[k], ops[k], answers[k], snaps[k + 1], ttlmax)
  }

  /** In any run, a file keeps its entry and its content for as long as no operation finds it idle or changed, or
      deletes it. */
  lemma {:induction false} FileKept(snaps: seq<Snap>, ops: seq<Op>, answers: seq<Got>, ttlmax: nat, o: nat, i: nat,
                                    j: nat)
    requires OpsRun(snaps, ops, answers, ttlmax) && i <= j <= |ops| && o in snaps[i].ap
    requires forall k {:trigger ops[k]} :: i <= k < j ==> Leaves(snaps[k], ops[k], o, ttlmax)
    ensures o in snaps[j].ap
    ensures var d, e := snaps[i].ap[o].data, snaps[j].ap[o].data;
            && e.path == d.path && e.addTicks == d.addTicks && e.fcnotify == d.fcnotify
            && (d.isChanged ==> e.isChanged) && (d.fcacheval != 0 ==> e.fcacheval == d.fcacheval)
    decreases j
  {
    hide OpDone, Leaves;
    if i < j {
      FileKept(snaps, ops, answers, ttlmax, o, i, j - 1);
      assert OpDone(snaps[j - 1], ops[j - 1], answers[j - 1], snaps[j], ttlmax);
      FileKeptOnce(snaps[j - 1], ops[j - 1], answers[j - 1], snaps[j], ttlmax, o);
    }
  }

  lemma FileKeptOnce(s: Snap, op: Op, r: Got, t: Snap, ttlmax: nat, o: nat)
    requires OpDone(s, op, r, t, ttlmax) && Leaves(s, op, o, ttlmax)
    ensures o in s.ap && o in t.ap
    ensures var d, e := s.ap[o].data, t.ap[o].data;
            && e.path == d.path && e.addTicks == d.addTicks && e.fcnotify == d.fcnotify
            && (d.isChanged ==> e.isChanged) && (d.fcacheval != 0 ==> e.fcacheval == d.fcacheval)
  {
    hide SamePath, SameKey, CheckFile, Elapsed, Named, GateOpen, Hit, Reused, Settles, Fetched;
  }

  lemma NothingDeleted(ap: ApNodes, rp: RpNodes, key: RpKey)
    requires forall o {:trigger o in rp} :: o in rp ==> !SameKey(rp[o].data.key, key)
    ensures Deleted(ap, rp, key, ap, rp)
  {
    hide SameKey;
  }

  lemma DeletedBy(ap: ApNodes, rp: RpNodes, rp1: RpNodes, links: map<nat, seq<nat>>, r: nat, key: RpKey, ap2: ApNodes,
                  rp2: RpNodes)
    requires Cross(ap, rp1, links) && OneEach(ap, rp1) && SameData(rp, rp1) && rp1.Keys == rp.Keys + {r}
    requires SameKey(rp1[r].data.key, key) && (r !in rp ==> rp1[r].data == RpData(key, 0, 0, NotDone))
    requires Pruned(ap, rp1, ap2, rp2) && ap2.Keys == ap.Keys - {rp1[r].data.absentry}
    ensures Deleted(ap, rp, key, ap2, rp2)
  {
    hide SameKey, OneEach, SameChain, NextIn, Distinct;
    OnlyName(ap, rp1, r, key);
    var o := rp1[r].data.absentry;
    forall q | q in rp ensures rp1[q].data == rp[q].data && (SameKey(rp[q].data.key, key) ==> q == r) {
      assert q in rp1;
    }
    forall p | p in ap ensures Named(rp, key, p) <==> p == o {
      if p == o {
        assert r in rp && rp[r].data == rp1[r].data;
      }
    }
    forall q | q in rp && rp[q].data.absentry != 0 ensures rp[q].data.absentry in ap {
      assert q in rp1;
    }
  }

  lemma ResolvedFile(ap: ApNodes, rp: RpNodes, links: map<nat, seq<nat>>, r: nat)
    requires Cross(ap, rp, links) && r in rp && rp[r].data.absentry != 0
    ensures rp[r].data.absentry in ap && ap[rp[r].data.absentry].data.fcacheval != 0
  {
    var o := rp[r].data.absentry;
    NamesOf(ap, rp, links, o);
    assert r in links[o];
  }

  lemma NoFileAtZero(ap: ApNodes, rp: RpNodes, links: map<nat, seq<nat>>)
    requires Cross(ap, rp, links)
    ensures 0 !in ap
  {
  }

  lemma SameNodes(rp: RpNodes, rp2: RpNodes, r: nat)
    requires SameData(rp, rp2) && rp2.Keys == rp.Keys + {r}
    ensures r in rp ==> rp2[r].data == rp[r].data
  {
  }

  /** When r was there already, what is left of rp2 is what is left of rp. */
  lemma PrunedSame(rp: RpNodes, rp2: RpNodes, r: nat, ap: ApNodes, ap3: ApNodes, rp3: RpNodes)
    requires SameData(rp, rp2) && rp2.Keys == rp.Keys + {r} && Pruned(ap, rp2, ap3, rp3)
    ensures r in rp ==> Pruned(ap, rp, ap3, rp3)
  {
    if r in rp {
      forall q | q in rp ensures rp2[q].data == rp[q].data {
        assert q in rp2;
      }
      forall q | q in rp3 ensures q in rp {
        assert q in rp2;
      }
    }
  }

  lemma FirstIsResolved(ap: ApNodes, rp: RpNodes, links: map<nat, seq<nat>>, o: nat)
    requires Cross(ap, rp, links) && o in ap
    ensures ap[o].data.resentry != 0 ==> ap[o].data.resentry in rp && rp[ap[o].data.resentry].data.absentry == o != 0
  {
    NamesOf(ap, rp, links, o);
    if ap[o].data.resentry != 0 {
      assert links[o][0] in links[o];
    }
  }

  // ----- The two caches -----

  class FileIndex {
    const ap: ChainTable<ApData>
    const rp: ChainTable<RpData>
    const ttlmax: nat
    const scfreq: nat
    // Whether this process may scavenge.
    const active: bool
    var lscavenge: nat
    var scstart: nat
    // For each file, its names in list order.
    ghost var links: map<nat, seq<nat>>

    /** What is fixed when the caches are created: sizes and bucket functions. */
    ghost predicate Wired() {
      && ap.heads != rp.heads && ap.heads.Length > 0 && rp.heads.Length > 0
      && (forall d {:trigger ap.bucketOf(d)} :: ap.bucketOf(d) == IndexOf(d.path, ap.heads.Length))
      && (forall d {:trigger rp.bucketOf(d)} :: rp.bucketOf(d) == IndexOf(d.key.path, rp.heads.Length))
    }

    lemma ApBucket(d: ApData)
      requires Wired()
      ensures ap.heads.Length > 0 && ap.bucketOf(d) == IndexOf(d.path, ap.heads.Length)
    {
    }

    lemma RpBucket(d: RpData)
      requires Wired()
      ensures rp.heads.Length > 0 && rp.bucketOf(d) == IndexOf(d.key.path, rp.heads.Length)
    {
    }

    ghost predicate Tables()
      reads this, ap, ap.heads, rp, rp.heads
    {
      Wired() && ap.heads != rp.heads && ap.heads.Length > 0 && rp.heads.Length > 0 && scstart < ap.heads.Length
            && ap.Valid() && rp.Valid()
    }

    ghost predicate Valid()
      reads this, ap, ap.heads, rp, rp.heads
    {
      Tables() && Cross(ap.nodes, rp.nodes, links) && OneEach(ap.nodes, rp.nodes)
    }

    constructor (apCount: nat, rpCount: nat, ttlmax: nat, scfreq: nat, active: bool, now: nat)
      requires apCount > 0 && rpCount > 0
      ensures Valid() && ap.nodes == map[] && rp.nodes == map[]
      ensures this.ttlmax == ttlmax && this.scfreq == scfreq && this.active == active
      ensures ap.heads.Length == apCount && rp.heads.Length == rpCount && lscavenge == now && scstart == 0
      ensures fresh(ap) && fresh(ap.heads) && fresh(rp) && fresh(rp.heads)
    {
      hide IndexOf, TableHolds;
      ap := new ChainTable(apCount, (d: ApData) => IndexOf(d.path, apCount));
      rp := new ChainTable(rpCount, (d: RpData) => IndexOf(d.key.path, rpCount));
      this.ttlmax, this.scfreq, this.active := ttlmax, scfreq, active;
      lscavenge, scstart, links := now, 0, map[];
    }

    /** find_aplist_entry: the first entry of the bucket with this path, or 0; there is then none in
        any bucket. */
    method FindAp(path: Path, index: nat) returns (pvalue: nat)
      requires Tables() && index == IndexOf(path, ap.heads.Length)
      ensures pvalue != 0 ==> pvalue in ap.nodes && SamePath(ap.nodes[pvalue].data.path, path)
      ensures pvalue == 0 ==> forall o {:trigger o in ap.nodes} :: o in ap.nodes ==>
                !SamePath(ap.nodes[o].data.path, path)
    {
      hide IndexOf, SamePath, Distinct, Chained, TableHolds;
      ghost var c, i := ap.chains[index], 0;
      ChainOf(ap.heads[..], ap.nodes, ap.chains, ap.bucketOf, index);
      pvalue := ap.heads[index];
      ChainHead(pvalue, ap.nodes, c);
      while pvalue != 0
        invariant i <= |c| && pvalue == NextIn(c, i - 1) && (pvalue == 0 ==> i == |c|)
        invariant forall j {:trigger c[j]} :: 0 <= j < i && c[j] in ap.nodes ==>
                    !SamePath(ap.nodes[c[j]].data.path, path)
        decreases |c| - i
      {
        LinksOf(ap.heads[index], ap.nodes, c, i);
        if SamePath(ap.nodes[pvalue].data.path, path) {
          return;
        }
        pvalue := ap.nodes[pvalue].next;
        i := i + 1;
        ChainNext(ap.heads[index], ap.nodes, c, i);
      }
      NotThere(path, index, c);
    }

    lemma NotThere(path: Path, index: nat, c: seq<nat>)
      requires Tables() && index == IndexOf(path, ap.heads.Length) && c == ap.chains[index]
      requires forall j {:trigger c[j]} :: 0 <= j < |c| && c[j] in ap.nodes ==>
                 !SamePath(ap.nodes[c[j]].data.path, path)
      ensures forall o {:trigger o in ap.nodes} :: o in ap.nodes ==> !SamePath(ap.nodes[o].data.path, path)
    {
      hide IndexOf, SamePath, Distinct, Chained, TableHolds;
      var wanted := (d: ApData) => SamePath(d.path, path);
      forall d: ApData | wanted(d) ensures ap.bucketOf(d) == index {
        SameBucket(d.path, path, ap.heads.Length);
      }
      BucketIsEnough(ap.heads[..], ap.nodes, ap.chains, ap.bucketOf, index, wanted);
      forall o | o in ap.nodes ensures !SamePath(ap.nodes[o].data.path, path) {
        assert !wanted(ap.nodes[o].data);
      }
    }

    /** findrpath_in_cache. */
    method FindRp(key: RpKey, index: nat) returns (pvalue: nat)
      requires Tables() && index == IndexOf(key.path, rp.heads.Length)
      ensures pvalue != 0 ==> pvalue in rp.nodes && SameKey(rp.nodes[pvalue].data.key, key)
      ensures pvalue == 0 ==> forall o {:trigger o in rp.nodes} :: o in rp.nodes ==> !SameKey(rp.nodes[o].data.key, key)
    {
      hide IndexOf, SameKey, Distinct, Chained, TableHolds;
      ghost var c, i := rp.chains[index], 0;
      ChainOf(rp.heads[..], rp.nodes, rp.chains, rp.bucketOf, index);
      pvalue := rp.heads[index];
      ChainHead(pvalue, rp.nodes, c);
      while pvalue != 0
        invariant i <= |c| && pvalue == NextIn(c, i - 1) && (pvalue == 0 ==> i == |c|)
        invariant forall j {:trigger c[j]} :: 0 <= j < i && c[j] in rp.nodes ==> !SameKey(rp.nodes[c[j]].data.key, key)
        decreases |c| - i
      {
        LinksOf(rp.heads[index], rp.nodes, c, i);
        if SameKey(rp.nodes[pvalue].data.key, key) {
          return;
        }
        pvalue := rp.nodes[pvalue].next;
        i := i + 1;
        ChainNext(rp.heads[index], rp.nodes, c, i);
      }
      NoSuchName(key, index, c);
    }

    lemma NoSuchName(key: RpKey, index: nat, c: seq<nat>)
      requires Tables() && index == IndexOf(key.path, rp.heads.Length) && c == rp.chains[index]
      requires forall j {:trigger c[j]} :: 0 <= j < |c| && c[j] in rp.nodes ==> !SameKey(rp.nodes[c[j]].data.key, key)
      ensures forall o {:trigger o in rp.nodes} :: o in rp.nodes ==> !SameKey(rp.nodes[o].data.key, key)
    {
      hide IndexOf, SamePath, Distinct, Chained, TableHolds;
      var wanted := (d: RpData) => SameKey(d.key, key);
      forall d: RpData | wanted(d) ensures rp.bucketOf(d) == index {
        SameBucket(d.key.path, key.path, rp.heads.Length);
      }
      BucketIsEnough(rp.heads[..], rp.nodes, rp.chains, rp.bucketOf, index, wanted);
      forall o | o in rp.nodes ensures !SameKey(rp.nodes[o].data.key, key) {
        assert !wanted(rp.nodes[o].data);
      }
    }

    /** rplist_getentry: the entry of a name, created unresolved when there is none; 0 when there is
        no room for it. */
    method RpGetEntry(key: RpKey, place: Allocator) returns (pvalue: nat)
      requires Valid() && Sound(place)
      modifies rp, rp.heads
      ensures Valid() && SameData(old(rp.nodes), rp.nodes) && (pvalue in old(rp.nodes) ==> rp.nodes == old(rp.nodes))
      ensures pvalue == 0 ==> rp.nodes == old(rp.nodes) && place(old(rp.nodes).Keys) == 0
      ensures pvalue != 0 ==>
                pvalue in rp.nodes && SameKey(rp.nodes[pvalue].data.key, key)
                && rp.nodes.Keys == old(rp.nodes).Keys + {pvalue}
      ensures pvalue != 0 && pvalue !in old(rp.nodes) ==> rp.nodes[pvalue].data == RpData(key, 0, 0, NotDone)
      ensures pvalue == 0 || pvalue !in old(rp.nodes) ==>
                pvalue == place(old(rp.nodes).Keys)
                && forall o {:trigger o in old(rp.nodes)} :: o in old(rp.nodes) ==>
                     !SameKey(old(rp.nodes)[o].data.key, key)
    {
      hide IndexOf, SameKey, TableHolds, Cross, OneEach;
      var findex := GetIndex(key.path, rp.heads.Length);
      pvalue := FindRp(key, findex);
      SelfData(rp.nodes);
      if pvalue == 0 {
        pvalue := place(rp.nodes.Keys);
        SameAs(key);
        if pvalue != 0 {
          ghost var was := rp.nodes;
          rp.Add(findex, pvalue, RpData(key, 0, 0, NotDone));
          NameAdded(ap.nodes, was, links, rp.nodes, pvalue);
          OneEachName(ap.nodes, was, rp.nodes, pvalue);
        }
      } else {
        assert rp.nodes.Keys == rp.nodes.Keys + {pvalue};
      }
    }

    /** remove_rplist_entry, and the bucket its caller looks up for it. */
    method RemoveRp(off: nat)
      requires Tables() && off in rp.nodes
      modifies rp, rp.heads
      ensures Tables() && rp.nodes.Keys == old(rp.nodes).Keys - {off} && SameData(old(rp.nodes), rp.nodes)
    {
      hide IndexOf, TableHolds, Distinct, Without, Chained, Position, Wired;
      var index := GetIndex(rp.nodes[off].data.key.path, rp.heads.Length);
      RpBucket(rp.nodes[off].data);
      InOwnBucket(rp.heads[..], rp.nodes, rp.chains, rp.bucketOf, off);
      rp.Remove(index, off);
    }

    /** rplist_deleteval: frees a list of names. */
    method RpDeleteVal(valoffset: nat, ghost c: seq<nat>, ghost o: nat)
      requires Tables() && SameChain(valoffset, rp.nodes, c, o)
      modifies rp, rp.heads
      ensures Tables() && SameData(old(rp.nodes), rp.nodes)
      ensures forall r {:trigger r in rp.nodes} {:trigger r in old(rp.nodes)} :: r in rp.nodes <==>
                r in old(rp.nodes) && r !in c
    {
      hide IndexOf, TableHolds, Distinct, SameChain, Without, NextIn, Wired;
      ghost var was, i := rp.nodes, 0;
      SelfData(was);
      ListHead(valoffset, was, c, o);
      var pvalue := valoffset;
      while pvalue != 0
        invariant i <= |c| && pvalue == NextIn(c, i - 1) && (pvalue == 0 <==> i == |c|)
        invariant Tables() && SameData(was, rp.nodes)
        invariant forall r {:trigger r in rp.nodes} {:trigger r in was} :: r in rp.nodes <==> r in was && r !in c[..i]
        decreases |c| - i
      {
        var ptemp := pvalue;
        ListStep(valoffset, was, c, o, i);
        pvalue := rp.nodes[ptemp].data.sameValue;
        ghost var before := rp.nodes;
        RemoveRp(ptemp);
        DataTrans(was, before, rp.nodes);
        i := i + 1;
        assert c[..i] == c[..i - 1] + [ptemp];
      }
      assert c[..i] == c;
    }

    /** remove_aplist_entry: the file goes, and all its names with it. */
    method RemoveAp(index: nat, off: nat)
      requires Valid() && off in ap.nodes && index == IndexOf(ap.nodes[off].data.path, ap.heads.Length)
      modifies this`links, ap, ap.heads, rp, rp.heads
      ensures Valid() && ap.nodes.Keys == old(ap.nodes).Keys - {off}
      ensures Pruned(old(ap.nodes), old(rp.nodes), ap.nodes, rp.nodes)
      ensures |ap.chains| == |old(ap.chains)| && off in old(ap.chains)[index]
      ensures ap.chains[index] == Without(old(ap.chains)[index], Position(old(ap.chains)[index], off))
    {
      hide IndexOf, TableHolds, Distinct, Cross, OneEach, SameChain, Without, NextIn, Position, SameData, Pruned, Wired;
      hide NamesLeft, Chained;
      ghost var files, names, list := ap.nodes, rp.nodes, links;
      DropNames(off);
      UnlinkAp(index, off);
      links := links - {off};
      FileGone(files, names, list, off, ap.nodes, rp.nodes);
    }

    method UnlinkAp(index: nat, off: nat)
      requires Tables() && off in ap.nodes && index == IndexOf(ap.nodes[off].data.path, ap.heads.Length)
      modifies ap, ap.heads
      ensures Tables() && ap.nodes.Keys == old(ap.nodes).Keys - {off} && SameData(old(ap.nodes), ap.nodes)
      ensures |ap.chains| == |old(ap.chains)| && off in old(ap.chains)[index]
      ensures ap.chains[index] == Without(old(ap.chains)[index], Position(old(ap.chains)[index], off))
    {
      hide IndexOf, TableHolds, Distinct, Without, Chained, Position, SameData, Wired;
      ApBucket(ap.nodes[off].data);
      InOwnBucket(ap.heads[..], ap.nodes, ap.chains, ap.bucketOf, off);
      ap.Remove(index, off);
    }

    /** The names of a file that is about to be freed. */
    method DropNames(off: nat)
      requires Valid() && off in ap.nodes
      modifies rp, rp.heads
      ensures Tables() && SameData(old(rp.nodes), rp.nodes)
      ensures NamesLeft(old(rp.nodes), rp.nodes, off)
    {
      hide IndexOf, TableHolds, Distinct, Cross, OneEach, SameChain, SameData;
      hide Wired;
      ghost var names := rp.nodes;
      NamesOf(ap.nodes, names, links, off);
      ghost var c := links[off];
      SelfData(names);
      if ap.nodes[off].data.resentry != 0 {
        RpDeleteVal(ap.nodes[off].data.resentry, c, off);
      }
      NamesGone(names, rp.nodes, c, off);
    }

    /** The inner loop of run_aplist_scavenger: one bucket, removing while walking. */
    method ScavengeBucket(sindex: nat, now: nat)
      requires Valid() && sindex < ap.heads.Length
      modifies this`links, ap, ap.heads, rp, rp.heads
      ensures Valid() && Pruned(old(ap.nodes), old(rp.nodes), ap.nodes, rp.nodes)
      ensures forall o {:trigger o in ap.nodes} {:trigger o in old(ap.nodes)} ::
                o in old(ap.nodes) ==>
                  (o !in ap.nodes <==>
                     Idle(old(ap.nodes)[o].data, now, ttlmax) && ap.bucketOf(old(ap.nodes)[o].data) == sindex)
    {
      hide IndexOf, TableHolds, Distinct, Cross, OneEach, Without, Position, Pruned, Idle, Walked, Wired;
      ghost var files, names := ap.nodes, rp.nodes;
      ghost var i: nat := 0;
      PrunedSelf(files, names, links);
      ChainOf(ap.heads[..], ap.nodes, ap.chains, ap.bucketOf, sindex);
      var pvalue := ap.heads[sindex];
      ChainHead(pvalue, ap.nodes, ap.chains[sindex]);
      WalkStart(ap.heads[..], files, ap.chains, ap.bucketOf, sindex, now, ttlmax);
      while pvalue != 0
        invariant Valid() && Pruned(files, names, ap.nodes, rp.nodes)
        invariant i <= |ap.chains[sindex]| && pvalue == NextIn(ap.chains[sindex], i - 1)
                  && (pvalue == 0 ==> i == |ap.chains[sindex]|)
        invariant Walked(files, ap.nodes, ap.chains[sindex], ap.bucketOf, sindex, i, now, ttlmax)
        decreases |ap.chains[sindex]| - i
      {
        pvalue, i := ScavengeEntry(sindex, pvalue, now, files, names, i);
      }
      WalkDone(files, ap.nodes, ap.chains[sindex], ap.bucketOf, sindex, now, ttlmax);
    }

    /** One entry of the walk: its link is read before the entry may be freed. */
    method ScavengeEntry(sindex: nat, ptemp: nat, now: nat, ghost files: ApNodes, ghost names: RpNodes, ghost i: nat)
      returns (pvalue: nat, ghost j: nat)
      requires Valid() && Pruned(files, names, ap.nodes, rp.nodes) && sindex < |ap.chains|
      requires i < |ap.chains[sindex]| && ptemp == NextIn(ap.chains[sindex], i - 1)
      requires Walked(files, ap.nodes, ap.chains[sindex], ap.bucketOf, sindex, i, now, ttlmax)
      modifies this`links, ap, ap.heads, rp, rp.heads
      ensures Valid() && Pruned(files, names, ap.nodes, rp.nodes) && |ap.chains| == |old(ap.chains)|
      ensures j <= |ap.chains[sindex]| && pvalue == NextIn(ap.chains[sindex], j - 1)
              && (pvalue == 0 ==> j == |ap.chains[sindex]|)
      ensures |ap.chains[sindex]| - j < |old(ap.chains)[sindex]| - i
      ensures Walked(files, ap.nodes, ap.chains[sindex], ap.bucketOf, sindex, j, now, ttlmax)
    {
      hide IndexOf, TableHolds, Cross, OneEach, Position, Pruned, Idle, Without, Walked, Wired;
      ghost var c := ap.chains[sindex];
      ChainOf(ap.heads[..], ap.nodes, ap.chains, ap.bucketOf, sindex);
      LinksOf(ap.heads[sindex], ap.nodes, c, i);
      assert c[i] in c;
      pvalue := ap.nodes[ptemp].next;
      ChainNext(ap.heads[sindex], ap.nodes, c, i + 1);
      if Idle(ap.nodes[ptemp].data, now, ttlmax) {
        ScavengeIdle(sindex, ptemp, now, files, names, i);
        j := i;
      } else {
        WalkKeep(files, ap.nodes, c, ap.bucketOf, sindex, i, now, ttlmax, names, rp.nodes);
        j := i + 1;
      }
    }

    /** An idle file is removed in the middle of the walk. */
    method ScavengeIdle(sindex: nat, ptemp: nat, now: nat, ghost files: ApNodes, ghost names: RpNodes, ghost i: nat)
      requires Valid() && Pruned(files, names, ap.nodes, rp.nodes) && sindex < |ap.chains|
      requires i < |ap.chains[sindex]| && ptemp == ap.chains[sindex][i] && ptemp in ap.nodes
               && Idle(ap.nodes[ptemp].data, now, ttlmax)
      requires ap.bucketOf(ap.nodes[ptemp].data) == sindex && Distinct(ap.chains[sindex])
      requires Walked(files, ap.nodes, ap.chains[sindex], ap.bucketOf, sindex, i, now, ttlmax)
      modifies this`links, ap, ap.heads, rp, rp.heads
      ensures Valid() && Pruned(files, names, ap.nodes, rp.nodes) && |ap.chains| == |old(ap.chains)|
      ensures |ap.chains[sindex]| == |old(ap.chains)[sindex]| - 1
              && NextIn(ap.chains[sindex], i - 1) == NextIn(old(ap.chains)[sindex], i)
      ensures Walked(files, ap.nodes, ap.chains[sindex], ap.bucketOf, sindex, i, now, ttlmax)
    {
      hide IndexOf, TableHolds, Chained, Distinct, Cross, OneEach;
      hide Position, Pruned, Idle, Without, NextIn, Walked, Wired;
      ghost var c, here, rps := ap.chains[sindex], ap.nodes, rp.nodes;
      ApBucket(ap.nodes[ptemp].data);
      RemoveAp(sindex, ptemp);
      PrunedTrans(files, names, here, rps, ap.nodes, rp.nodes);
      WalkRemove(files, here, ap.nodes, c, ap.chains[sindex], ap.bucketOf, sindex, i, now, ttlmax,
                 rps, names, rp.nodes);
    }

    /** The outer loop of run_aplist_scavenger: the buckets of one window. */
    method ScavengeWindow(sindex: nat, eindex: nat, now: nat)
      requires Valid() && sindex <= eindex <= ap.heads.Length
      modifies this`links, ap, ap.heads, rp, rp.heads
      ensures Valid() && Pruned(old(ap.nodes), old(rp.nodes), ap.nodes, rp.nodes)
      ensures forall o {:trigger o in ap.nodes} {:trigger o in old(ap.nodes)} ::
                o in old(ap.nodes) ==>
                      (o in ap.nodes <==> !InWindow(old(ap.nodes)[o].data, ap.bucketOf, sindex, eindex, now, ttlmax))
    {
      hide IndexOf, TableHolds, Cross, OneEach, Pruned, Idle, Wired;
      ghost var files, names := ap.nodes, rp.nodes;
      PrunedSelf(files, names, links);
      var k := sindex;
      while k < eindex
        invariant sindex <= k <= eindex && Valid() && Pruned(files, names, ap.nodes, rp.nodes)
        invariant forall o {:trigger o in ap.nodes} {:trigger o in files} ::
                    o in files ==> (o in ap.nodes <==> !InWindow(files[o].data, ap.bucketOf, sindex, k, now, ttlmax))
      {
        ghost var here, rps := ap.nodes, rp.nodes;
        if ap.heads[k] != 0 {
          ScavengeBucket(k, now);
        } else {
          NothingThere(k, here);
          PrunedSelf(here, rps, links);
        }
        PrunedTrans(files, names, here, rps, ap.nodes, rp.nodes);
        WindowGrows(files, here, ap.nodes, names, rps, rp.nodes, ap.bucketOf, sindex, k, now, ttlmax);
        k := k + 1;
      }
    }

    lemma NothingThere(k: nat, here: ApNodes)
      requires Valid() && k < ap.heads.Length && ap.heads[k] == 0 && here == ap.nodes
      ensures forall o {:trigger o in here} :: o in here ==> ap.bucketOf(here[o].data) != k
    {
      hide IndexOf, TableHolds, Cross, OneEach, Chained;
      ChainOf(ap.heads[..], ap.nodes, ap.chains, ap.bucketOf, k);
      ChainHead(ap.heads[k], ap.nodes, ap.chains[k]);
      forall o | o in here ensures ap.bucketOf(here[o].data) != k {
        InOwnBucket(ap.heads[..], ap.nodes, ap.chains, ap.bucketOf, o);
      }
    }

    /** run_aplist_scavenger: the next 256 buckets, or all of them. */
    method Scavenge(ffull: bool, now: nat)
      requires Valid()
      modifies this`links, this`scstart, this`lscavenge, ap, ap.heads, rp, rp.heads
      ensures Valid() && Pruned(old(ap.nodes), old(rp.nodes), ap.nodes, rp.nodes) && lscavenge == now
      ensures scstart == if ffull || old(scstart) + PER_RUN_SCAVENGE_COUNT >= ap.heads.Length then 0
                         else old(scstart) + PER_RUN_SCAVENGE_COUNT
      ensures forall o {:trigger o in ap.nodes} {:trigger o in old(ap.nodes)} ::
                o in old(ap.nodes) ==> (o in ap.nodes <==> !InWindow(old(ap.nodes)[o].data, ap.bucketOf,
                                          if ffull then 0 else old(scstart),
                                          if ffull then ap.heads.Length else old(scstart) + PER_RUN_SCAVENGE_COUNT,
                                          now, ttlmax))
    {
      hide IndexOf, TableHolds, Cross, OneEach, Pruned, Idle;
      ghost var files, names := ap.nodes, rp.nodes;
      var sindex, eindex := 0, ap.heads.Length;
      if ffull {
        scstart := 0;
      } else {
        sindex := scstart;
        eindex := sindex + PER_RUN_SCAVENGE_COUNT;
        scstart := eindex;
        if eindex >= ap.heads.Length {
          eindex := ap.heads.Length;
          scstart := 0;
        }
      }
      ScavengeWindow(sindex, eindex, now);
      lscavenge := now;
    }

    /** Is a partial sweep due at instant now? */
    ghost predicate Due(now: nat)
      reads this
    {
      active && Elapsed(now, lscavenge) > scfreq
    }

    /** The files that the partial sweep of a call at instant now leaves. */
    ghost function FirstLeft(now: nat): set<nat>
      reads this, ap
    {
      Left(ap.nodes, ap.nodes.Keys, Due(now), ap.bucketOf, scstart, scstart + 256, now, ttlmax)
    }

    /** The files that are left when a full sweep may follow. */
    ghost function ThenLeft(retry: bool, now: nat): set<nat>
      reads this, ap, ap.heads
    {
      Left(ap.nodes, FirstLeft(now), retry && active, ap.bucketOf, 0, ap.heads.Length, now, ttlmax)
    }

    /** Where a new entry would come to lie, 0 if none can be made. */
    ghost function Room(created: bool, place: Allocator, retry: bool, now: nat): nat
      reads this, ap, ap.heads
    {
      if created then place(ThenLeft(retry, now)) else 0
    }

    /** The first part of aplist_getentry: a partial sweep, when one is due. */
    method PartialSweep(now: nat)
      requires Valid()
      modifies this`links, this`scstart, this`lscavenge, ap, ap.heads, rp, rp.heads
      ensures Valid() && Pruned(old(ap.nodes), old(rp.nodes), ap.nodes, rp.nodes) && Unresolved(old(rp.nodes), rp.nodes)
      ensures ap.nodes.Keys == old(FirstLeft(now))
      ensures Scheduled(old(Due(now)), false, old(lscavenge), old(scstart), ap.heads.Length, now, lscavenge, scstart)
    {
      hide IndexOf, SamePath, TableHolds, Cross, OneEach, Idle, InWindow, SameData, Wired, Left, Pruned, Unresolved;
      ghost var names := rp.nodes;
      SelfUnresolved(names);
      PrunedSelf(ap.nodes, names, links);
      LeftAll(ap.nodes, ap.bucketOf, scstart, scstart + 256, now, ttlmax);
      if active && Elapsed(now, lscavenge) > scfreq {
        Sweep(false, now, names);
      }
    }

    /** aplist_getentry, as one step.  0 means that it failed; the files and names it removed are then
        still gone.  retry says that the first try for memory fails, place what the last one gives: a process that
        scavenges makes a full sweep in between. */
    method ApGetEntry(path: Path, findex: nat, now: nat, check: Check, retry: bool, created: bool, fcnotify: bool,
                      place: Allocator) returns (pvalue: nat)
      requires Valid() && Sound(place) && findex == IndexOf(path, ap.heads.Length)
      modifies this`links, this`scstart, this`lscavenge, ap, ap.heads, rp, rp.heads
      ensures Valid() && Unresolved(old(rp.nodes), rp.nodes)
      ensures pvalue == 0 ==> check == CheckFails || !created || place(ap.nodes.Keys) == 0
      ensures pvalue != 0 ==> Fetched(old(ap.nodes), ap.nodes, pvalue, path, check, fcnotify, now)
      ensures forall o {:trigger old(ap.nodes)[o]} ::
                o in old(ap.nodes) && SamePath(old(ap.nodes)[o].data.path, path)
                && CheckFile(old(ap.nodes)[o].data, check) == Same
                && Elapsed(now, old(ap.nodes)[o].data.useTicks) <= ttlmax ==>
                pvalue == o && o in ap.nodes && ap.nodes[o].data == old(ap.nodes)[o].data.(useTicks := now)
      ensures GotFile(old(ap.nodes), old(rp.nodes), old(FirstLeft(now)), old(ThenLeft(retry, now)), path, check,
                old(Room(created, place, retry, now)), fcnotify, now, pvalue, ap.nodes, rp.nodes)
      ensures Scheduled(old(Due(now)), retry && active && !Settled(old(ap.nodes), old(FirstLeft(now)), path, check),
                old(lscavenge), old(scstart), ap.heads.Length, now, lscavenge, scstart)
      ensures active && Elapsed(now, old(lscavenge)) > scfreq ==> lscavenge == now
      ensures !active || (Elapsed(now, old(lscavenge)) <= scfreq && !retry) ==>
                lscavenge == old(lscavenge) && scstart == old(scstart)
    {
      hide IndexOf, SamePath, TableHolds, Cross, OneEach, Idle, InWindow, SameData, Wired, Elapsed;
      hide Left, Remains, Pruned, Unresolved, Fetched, GotFile, Settled, CheckFile;
      ghost var names, files, keys2 := rp.nodes, ap.nodes, ThenLeft(retry, now);
      PartialSweep(now);
      pvalue := FindOrCreate(path, findex, now, check, retry, created, fcnotify, place, files, names, keys2,
                             old(Room(created, place, retry, now)));
      YoungIsGot(files, names, old(Due(now)), ap.bucketOf, old(scstart), old(scstart) + 256, keys2, path, check,
                 old(Room(created, place, retry, now)), fcnotify, now, ttlmax, pvalue, ap.nodes, rp.nodes);
    }

    /** The rest of aplist_getentry.  files and names are the two caches before the partial sweep, keys2 what a full
        sweep may leave of the files. */
    method FindOrCreate(path: Path, findex: nat, now: nat, check: Check, retry: bool, created: bool, fcnotify: bool,
                        place: Allocator, ghost files: ApNodes, ghost names: RpNodes, ghost keys2: set<nat>,
                        ghost room: nat)
      returns (pvalue: nat)
      requires Valid() && Sound(place) && findex == IndexOf(path, ap.heads.Length)
      requires OneEach(files, names) && Pruned(files, names, ap.nodes, rp.nodes) && Unresolved(names, rp.nodes)
      requires keys2 == Left(files, ap.nodes.Keys, retry && active, ap.bucketOf, 0, ap.heads.Length, now, ttlmax)
      requires room == if created then place(keys2) else 0
      modifies this`links, this`scstart, this`lscavenge, ap, ap.heads, rp, rp.heads
      ensures Valid() && Unresolved(names, rp.nodes)
      ensures pvalue == 0 ==> check == CheckFails || !created || place(ap.nodes.Keys) == 0
      ensures pvalue != 0 ==> Fetched(files, ap.nodes, pvalue, path, check, fcnotify, now)
      ensures GotFile(files, names, old(ap.nodes).Keys, keys2, path, check, room, fcnotify, now, pvalue, ap.nodes,
                rp.nodes)
      ensures var full := retry && active && !Settled(files, old(ap.nodes).Keys, path, check);
              lscavenge == (if full then now else old(lscavenge)) && scstart == if full then 0 else old(scstart)
    {
      hide IndexOf, SamePath, TableHolds, Cross, OneEach, Idle, InWindow, SameData, Wired;
      hide Left, Created, Remains, Pruned, Unresolved, Fetched, GotFile, Settled;
      ghost var kept, rest := ap.nodes, rp.nodes;
      PrunedKeys(files, names, kept, rest);
      pvalue := FindAp(path, findex);
      PathKept(files, names, kept, rest, path, pvalue);
      ghost var o := pvalue;
      var addtick := 0;
      if pvalue != 0 {
        OnlyFile(ap.nodes, rp.nodes, pvalue, path);
        var d := ap.nodes[pvalue].data;
        var found := CheckFile(d, check);
        addtick := Tick(d.addTicks);
        PrunedRemains(files, names, kept, rest);
        if found == CheckFails {
          GotOne(files, names, kept.Keys, keys2, o, path, check, room, fcnotify, now, 0, kept, rest);
          return 0;
        }
        if found == Same {
          FetchedSame(files, ap.nodes, pvalue, path, check, fcnotify, now);
          RemainsTouched(files, names, kept.Keys, kept, rest, pvalue, d.(useTicks := now));
          Touch(pvalue, now);
          GotOne(files, names, kept.Keys, keys2, o, path, check, room, fcnotify, now, o, ap.nodes, rp.nodes);
          return;
        }
      }
      pvalue := CreateEntry(path, findex, now, addtick, retry, created, fcnotify, place, names);
      FetchedNew(files, ap.nodes, pvalue, path, check, fcnotify, now);
      LeftThen(files, kept, retry && active, ap.bucketOf, ap.heads.Length, now, ttlmax);
      CreatedAfter(files, names, kept, rest, o, keys2, retry && active, ap.bucketOf, ap.heads.Length, path, check, room,
                   fcnotify, now, ttlmax, pvalue, ap.nodes, rp.nodes);
    }

    method Touch(o: nat, now: nat)
      requires Valid() && o in ap.nodes
      modifies ap`nodes
      ensures Valid()
      ensures ap.nodes == old(ap.nodes)[o := old(ap.nodes)[o].(data := old(ap.nodes)[o].data.(useTicks := now))]
    {
      hide IndexOf, TableHolds, Cross, OneEach;
      var d := ap.nodes[o].data.(useTicks := now);
      FileTouched(ap.nodes, rp.nodes, links, o, d);
      TouchedOneEach(ap.nodes, rp.nodes, o, d);
      ap.SetData(o, d);
    }

    /** The part of aplist_getentry for a file that is not there or has changed. */
    method CreateEntry(path: Path, findex: nat, now: nat, addtick: nat, retry: bool, created: bool, fcnotify: bool,
                       place: Allocator, ghost names: RpNodes) returns (pvalue: nat)
      requires Valid() && Sound(place) && findex == IndexOf(path, ap.heads.Length) && Unresolved(names, rp.nodes)
      requires Ticked(ap.nodes, path, addtick)
      modifies this`links, this`scstart, this`lscavenge, ap, ap.heads, rp, rp.heads
      ensures Valid() && Unresolved(names, rp.nodes)
      ensures pvalue == 0 ==> !created || place(ap.nodes.Keys) == 0
      ensures pvalue != 0 ==> pvalue in ap.nodes && SamePath(ap.nodes[pvalue].data.path, path)
      ensures pvalue != 0 ==> ap.nodes[pvalue].data == ApData(path, 0, 0, fcnotify, false, now, now)
      ensures var keys := Left(old(ap.nodes), old(ap.nodes).Keys, retry && active, ap.bucketOf, 0, ap.heads.Length, now,
                            ttlmax);
              Created(old(ap.nodes), old(rp.nodes), keys, path, if created then place(keys) else 0, fcnotify, now,
                      pvalue, ap.nodes, rp.nodes)
      ensures if retry && active then lscavenge == now && scstart == 0
              else lscavenge == old(lscavenge) && scstart == old(scstart)
    {
      hide IndexOf, SamePath, TableHolds, Cross, OneEach, Idle, InWindow, Unresolved, SameData, Ticked;
      hide Left, Created, Pruned;
      ghost var files, rps := ap.nodes, rp.nodes;
      PrunedSelf(files, rps, links);
      LeftAll(files, ap.bucketOf, 0, ap.heads.Length, now, ttlmax);
      PrunedKeys(files, rps, ap.nodes, rp.nodes);
      if retry && active {
        Sweep(true, now, names);
        PrunedKeys(files, rps, ap.nodes, rp.nodes);
        TickedLess(files, ap.nodes, path, addtick);
      }
      ghost var kept, rest := ap.nodes, rp.nodes;
      var pnewval := place(ap.nodes.Keys);
      if !created || pnewval == 0 {
        NothingCreated(files, rps, kept, rest, path, fcnotify, now);
        return 0;
      }
      pvalue := SecondLook(path, findex, now, addtick, pnewval, fcnotify, names);
      CreatedFrom(files, rps, kept, rest, kept.Keys, path, pnewval, fcnotify, now, pvalue, ap.nodes, rp.nodes);
    }

    /** The second locked region: the new entry is linked, after the changed one is removed, or given up. */
    method SecondLook(path: Path, findex: nat, now: nat, addtick: nat, pnewval: nat, fcnotify: bool,
                      ghost names: RpNodes) returns (pvalue: nat)
      requires Valid() && findex == IndexOf(path, ap.heads.Length) && Unresolved(names, rp.nodes) && pnewval > 0
               && pnewval !in ap.nodes
      modifies this`links, ap, ap.heads, rp, rp.heads
      ensures Valid() && Unresolved(names, rp.nodes)
      ensures pvalue != 0 && pvalue in ap.nodes && SamePath(ap.nodes[pvalue].data.path, path)
      ensures if pvalue == pnewval then ap.nodes[pvalue].data == ApData(path, 0, 0, fcnotify, false, now, now)
              else ap.nodes == old(ap.nodes) && rp.nodes == old(rp.nodes)
                   && Tick(ap.nodes[pvalue].data.addTicks) != addtick
      ensures pvalue == pnewval <==> Ticked(old(ap.nodes), path, addtick)
      ensures pvalue == pnewval ==>
                Created(old(ap.nodes), old(rp.nodes), old(ap.nodes).Keys, path, pnewval, fcnotify, now, pvalue,
                        ap.nodes, rp.nodes)
    {
      hide IndexOf, SamePath, TableHolds, Cross, OneEach, Pruned, Unresolved, Wired, Others, Created, SameData;
      ghost var files, rps := ap.nodes, rp.nodes;
      pvalue := FindAp(path, findex);
      PrunedSelf(files, rps, links);
      if pvalue != 0 {
        OnlyFile(ap.nodes, rp.nodes, pvalue, path);
        if Tick(ap.nodes[pvalue].data.addTicks) != addtick {
          return;
        }
        OthersBut(files, path, pvalue);
        RemoveChanged(path, findex, pvalue, names);
      } else {
        OthersAll(files, path);
      }
      ghost var kept := ap.nodes;
      AddNew(path, findex, pnewval, now, fcnotify);
      CreatedBy(files, rps, kept, rp.nodes, path, pnewval, fcnotify, now, ap.nodes);
      pvalue := pnewval;
    }

    method Sweep(ffull: bool, now: nat, ghost names: RpNodes)
      requires Valid() && Unresolved(names, rp.nodes)
      modifies this`links, this`scstart, this`lscavenge, ap, ap.heads, rp, rp.heads
      ensures Valid() && Unresolved(names, rp.nodes) && Pruned(old(ap.nodes), old(rp.nodes), ap.nodes, rp.nodes)
      ensures lscavenge == now
      ensures scstart == if ffull || old(scstart) + 256 >= ap.heads.Length then 0 else old(scstart) + 256
      ensures ap.nodes.Keys == Left(old(ap.nodes), old(ap.nodes).Keys, true, ap.bucketOf,
                if ffull then 0 else old(scstart), if ffull then ap.heads.Length else old(scstart) + 256, now, ttlmax)
    {
      hide IndexOf, TableHolds, Cross, OneEach, Pruned, InWindow, Unresolved, Wired, Left;
      ghost var files, rps := ap.nodes, rp.nodes;
      Scavenge(ffull, now);
      PrunedKeys(files, rps, ap.nodes, rp.nodes);
      LeftSwept(files, ap.nodes, ap.bucketOf, if ffull then 0 else old(scstart),
                if ffull then ap.heads.Length else old(scstart) + 256, now, ttlmax);
      PrunedUnresolved(files, rps, ap.nodes, rp.nodes);
      UnresolvedTrans(names, rps, rp.nodes);
    }

    method RemoveChanged(path: Path, findex: nat, pvalue: nat, ghost names: RpNodes)
      requires Valid() && pvalue in ap.nodes && SamePath(ap.nodes[pvalue].data.path, path)
               && findex == IndexOf(path, ap.heads.Length)
      requires Unresolved(names, rp.nodes)
      modifies this`links, ap, ap.heads, rp, rp.heads
      ensures Valid() && Unresolved(names, rp.nodes) && ap.nodes.Keys == old(ap.nodes).Keys - {pvalue}
      ensures Pruned(old(ap.nodes), old(rp.nodes), ap.nodes, rp.nodes)
      ensures forall o {:trigger o in ap.nodes} :: o in ap.nodes ==> !SamePath(ap.nodes[o].data.path, path)
    {
      hide IndexOf, SamePath, TableHolds, Cross, OneEach, Pruned, Unresolved;
      ghost var files, rps := ap.nodes, rp.nodes;
      SameIndex(path, pvalue);
      RemoveAp(findex, pvalue);
      PrunedUnresolved(files, rps, ap.nodes, rp.nodes);
      UnresolvedTrans(names, rps, rp.nodes);
      NoneLeft(files, rps, ap.nodes, rp.nodes, pvalue, path);
    }

    /** add_aplist_entry for a new file. */
    method AddNew(path: Path, findex: nat, pnewval: nat, now: nat, fcnotify: bool)
      requires Valid() && findex == IndexOf(path, ap.heads.Length) && pnewval > 0 && pnewval !in ap.nodes
      requires forall o {:trigger o in ap.nodes} :: o in ap.nodes ==> !SamePath(ap.nodes[o].data.path, path)
      modifies this`links, ap, ap.heads
      ensures Valid() && ap.nodes.Keys == old(ap.nodes).Keys + {pnewval} && SamePath(ap.nodes[pnewval].data.path, path)
      ensures ap.nodes[pnewval].data == ApData(path, 0, 0, fcnotify, false, now, now)
      ensures SameData(old(ap.nodes), ap.nodes)
    {
      hide IndexOf, SamePath, TableHolds, Cross, OneEach, SameData;
      ghost var files := ap.nodes;
      ap.Add(findex, pnewval, ApData(path, 0, 0, fcnotify, false, now, now));
      FileAdded(files, rp.nodes, links, ap.nodes, pnewval);
      OneEachFile(files, rp.nodes, ap.nodes, pnewval);
      links := links[pnewval := []];
      SamePathAs(path);
    }

    lemma SameIndex(path: Path, off: nat)
      requires Tables() && off in ap.nodes && SamePath(ap.nodes[off].data.path, path)
      ensures IndexOf(ap.nodes[off].data.path, ap.heads.Length) == IndexOf(path, ap.heads.Length)
    {
      hide IndexOf, SamePath, TableHolds;
      SameBucket(ap.nodes[off].data.path, path, ap.heads.Length);
    }

    /** The content of file o is cached, and name r, not resolved so far, becomes its first name
        (rplist_setabsval and the writes around it). */
    method LinkName(r: nat, o: nat, fcacheval: nat)
      requires Valid() && r in rp.nodes && o in ap.nodes && rp.nodes[r].data.absentry == 0 && fcacheval != 0
      modifies this`links, ap`nodes, rp`nodes
      ensures Valid() && links == old(links)[o := [r] + old(links)[o]]
      ensures ap.nodes ==
                old(ap.nodes)[o := old(ap.nodes)[o].(data := old(ap.nodes)[o].data.(fcacheval := fcacheval,
                resentry := r))]
      ensures rp.nodes == old(rp.nodes)[r := old(rp.nodes)[r].(data := old(rp.nodes)[r].data.(absentry := o,
                sameValue := old(ap.nodes)[o].data.resentry))]
    {
      hide IndexOf, TableHolds, Cross, OneEach, SameChain;
      ghost var files, names, list := ap.nodes, rp.nodes, links;
      NamesOf(files, names, links, o);
      InOwnBucket(rp.heads[..], rp.nodes, rp.chains, rp.bucketOf, r);
      var a, n := ap.nodes[o].data, rp.nodes[r].data;
      var prevsame := a.resentry;
      n := n.(absentry := o);
      if r != prevsame {
        n := n.(sameValue := prevsame);
      }
      FirstIsResolved(files, names, list, o);
      a := a.(fcacheval := fcacheval, resentry := r);
      NameLinked(files, names, list, o, r, a, n);
      RenamedOneEach(files, names, r, n);
      TouchedOneEach(files, names[r := names[r].(data := n)], o, a);
      rp.SetData(r, n);
      ap.SetData(o, a);
      links := links[o := [r] + links[o]];
    }

    /** aplist_fcache_get, as one step.  contents says whether the caller wants the content or just the
        path.  The oracles: resolved is what php's resolver makes of the name, check1 and check2 what
        checking a file says, accepted whether php's own open function accepts it, fcacheval the
        new cached content, 0 when it cannot be made, placeAp and placeRp what the allocators of the two
        tables offer. */
    method FcacheGet(key: RpKey, contents: bool, usesopen: bool, resolved: Option<Path>, check1: Check, check2: Check,
                     retry: bool, created: bool, fcnotify: bool, accepted: bool, fcacheval: nat, now: nat,
                     placeAp: Allocator, placeRp: Allocator) returns (r: Got)
      requires Valid() && Sound(placeAp) && Sound(placeRp)
      modifies this`links, this`scstart, this`lscavenge, ap, ap.heads, rp, rp.heads
      ensures Valid()
      ensures check1 != CheckFails && check2 != CheckFails && resolved.Some? && created && fcacheval != 0
                && Generous(placeAp) && Generous(placeRp)
                && (contents && usesopen ==> GateOpen(old(ap.nodes), old(rp.nodes), key, check1, accepted)) ==>
                if contents then r.Entry? else r.PathOf?
      ensures NoRoom(old(rp.nodes), key, placeRp) ==>
                r == Nothing && ap.nodes == old(ap.nodes) && rp.nodes == old(rp.nodes)
      ensures forall q {:trigger old(rp.nodes)[q]} ::
                q in old(rp.nodes) && SameKey(old(rp.nodes)[q].data.key, key) && old(rp.nodes)[q].data.absentry != 0 ==>
                Settles(old(ap.nodes), old(rp.nodes), q, contents, check1, r, ap.nodes, rp.nodes)
      ensures r.Entry? && usesopen ==>
                || Hit(old(ap.nodes), old(rp.nodes), key, r.file, check1)
                || (resolved.Some? && Reused(old(ap.nodes), ap.nodes, r.file, resolved.value, check2))
                || (GateOpen(old(ap.nodes), old(rp.nodes), key, check1, accepted)
                    && (r.name != 0 ==> Recorded(rp.nodes, r.name) == Passed))
      ensures contents && resolved.Some? && NotResolved(old(rp.nodes), key) && !NoRoom(old(rp.nodes), key, placeRp) ==>
                && (usesopen && NoContent(old(ap.nodes), resolved.value, check2) && check2 != CheckFails && created
                    && Generous(placeAp) ==>
                      Outcome(old(rp.nodes), rp.nodes, key, accepted))
                && forall o {:trigger old(ap.nodes)[o]} ::
                     o in old(ap.nodes) && SamePath(old(ap.nodes)[o].data.path, resolved.value)
                     && CheckFile(old(ap.nodes)[o].data, check2) == Same && old(ap.nodes)[o].data.fcacheval != 0
                     && Elapsed(now, old(ap.nodes)[o].data.useTicks) <= ttlmax ==>
                     r.Entry? && r.file == o && r.name != 0 && o in ap.nodes
                     && ap.nodes[o].data == old(ap.nodes)[o].data.(useTicks := now, resentry := r.name)
      ensures SparesBut(old(ap.nodes), old(rp.nodes), ap.nodes, rp.nodes, key, check1, resolved, check2, now, ttlmax)
      ensures r.PathOf? ==>
                !contents && (resolved == Some(r.path) || KnownPath(old(ap.nodes), old(rp.nodes), key, r.path))
      ensures r.Entry? ==> contents && r.file in ap.nodes && ap.nodes[r.file].data.fcacheval != 0
      ensures r.Entry? && r.name != 0 ==>
                r.name in rp.nodes && SameKey(rp.nodes[r.name].data.key, key)
                && rp.nodes[r.name].data.absentry == r.file
      ensures r.Entry? ==>
                || (resolved.Some? && Filled(old(ap.nodes), ap.nodes, r.file, resolved.value, check2, fcacheval))
                || (r.name in old(rp.nodes) && old(rp.nodes)[r.name].data.absentry == r.file && r.file in old(ap.nodes)
                    && CheckFile(old(ap.nodes)[r.file].data, check1) == Same
                    && ap.nodes[r.file].data == old(ap.nodes)[r.file].data)
      ensures r.Entry? ==> (r.name == 0 <==> StaleName(old(ap.nodes), old(rp.nodes), key, check1))
      ensures r.Entry? && r.name == 0 ==> forall q {:trigger q in rp.nodes} :: q in rp.nodes ==>
                !SameKey(rp.nodes[q].data.key, key)
    {
      hide IndexOf, SameKey, SamePath, TableHolds, Cross, OneEach, Idle;
      hide InWindow, Wired, SameData, Fewer, Filled, StaleName, Named, CheckFile, Elapsed, Filling, Reused, Hit;
      hide Settles, GateOpen, NotResolved, NoRoom, Outcome, SparesBut, NoContent, Admits, Judged, Pruned, Midway;
      ghost var names, was := rp.nodes, ap.nodes;
      var rpvalue := RpGetEntry(key, placeRp);
      RoomOrNot(was, names, rp.nodes, rpvalue, key, placeRp, check1, resolved, check2, now, ttlmax);
      if rpvalue == 0 {
        return Nothing;
      }
      var answer, resentry := CheckLinked(key, rpvalue, contents, check1, accepted, names, resolved, check2, now);
      if answer.Some? {
        AnswerFacts(ap.nodes, rp.nodes, links, rpvalue, key, contents, check1, answer.value);
        return answer.value;
      }
      if resolved.None? {
        MidFacts(was, names, ap.nodes, rp.nodes, resentry, key, check1, accepted, contents, Nothing, ap.nodes,
                 rp.nodes);
        return Nothing;
      }
      MidFacts(was, names, ap.nodes, rp.nodes, resentry, key, check1, accepted, contents, PathOf(resolved.value),
               ap.nodes, rp.nodes);
      if !contents {
        return PathOf(resolved.value);
      }
      ghost var left, kept := rp.nodes, ap.nodes;
      r := FillEntry(key, resentry, resolved.value, usesopen, check2, retry, created, fcnotify, accepted, fcacheval,
                     now, placeAp);
      Concluded(was, names, kept, left, resentry, key, check1, resolved.value, usesopen, check2,
                created && Generous(placeAp), accepted, fcacheval, now, ttlmax, r, ap.nodes, rp.nodes);
      if resentry != 0 {
        ConcludedFirst(was, names, left, resentry, key, check1, resolved.value, usesopen, check2,
                       created && Generous(placeAp), accepted, fcacheval, now, ttlmax, r, ap.nodes, rp.nodes);
      }
    }

    /** The file a name resolves to already is checked: the answer, if that settles it, or the name entry to go on
        with, 0 when it went with its changed file. */
    method CheckLinked(key: RpKey, rpvalue: nat, contents: bool, check1: Check, ghost accepted: bool,
                       ghost names: RpNodes, ghost resolved: Option<Path>, ghost check2: Check, ghost now: nat)
      returns (answer: Option<Got>, resentry: nat)
      requires Valid() && rpvalue != 0 && rpvalue in rp.nodes && SameKey(rp.nodes[rpvalue].data.key, key)
      requires SameData(names, rp.nodes) && rp.nodes.Keys == names.Keys + {rpvalue}
      requires if rpvalue in names then rp.nodes == names else rp.nodes[rpvalue].data == RpData(key, 0, 0, NotDone)
      modifies this`links, ap, ap.heads, rp, rp.heads
      ensures Valid()
      ensures answer.Some? ==>
                && ap.nodes == old(ap.nodes) && rp.nodes == names && rpvalue in names
                && names[rpvalue].data.absentry != 0
                && Answers(ap.nodes, names, rpvalue, contents, check1, answer.value)
      ensures answer.None? ==>
                && Midway(old(ap.nodes), names, ap.nodes, rp.nodes, resentry, key, check1, accepted)
                && SparesBut(old(ap.nodes), names, ap.nodes, rp.nodes, key, check1, resolved, check2, now, ttlmax)
                && if resentry == 0 then contents else ap.nodes == old(ap.nodes) && resentry == rpvalue
    {
      hide IndexOf, SameKey, SamePath, TableHolds, Cross, OneEach, Idle, Wired, SameData;
      hide Midway, SparesBut, Pruned, CheckFile, Named, Outdated;
      ghost var files, before, list := ap.nodes, rp.nodes, links;
      AddedSpares(files, names, before, rpvalue, key, check1, resolved, check2, now, ttlmax);
      answer, resentry := None, rpvalue;
      var pvalue := rp.nodes[rpvalue].data.absentry;
      if pvalue == 0 {
        MidUnlinked(files, names, before, list, rpvalue, key, check1, accepted);
        return;
      }
      ResolvedFile(ap.nodes, rp.nodes, links, rpvalue);
      LinkedName(files, names, before, list, rpvalue, key);
      if !contents {
        return Some(PathOf(ap.nodes[pvalue].data.path)), 0;
      }
      var c := CheckFile(ap.nodes[pvalue].data, check1);
      if c == CheckFails {
        return Some(Nothing), 0;
      }
      if c == Same {
        return Some(Entry(pvalue, rpvalue)), 0;
      }
      var findex := GetIndex(ap.nodes[pvalue].data.path, ap.heads.Length);
      ItIsOutdated(files, pvalue, check1);
      RemoveAp(findex, pvalue);
      MidDropped(files, names, before, list, rpvalue, key, check1, accepted, ap.nodes, rp.nodes);
      DroppedSpares(files, names, ap.nodes, rp.nodes, pvalue, key, check1, resolved, check2, now, ttlmax);
      resentry := 0;
    }

    /** The rest of aplist_fcache_get, for a name that does not resolve to a valid file yet; resentry is
        0 when its old file was removed. */
    method FillEntry(key: RpKey, resentry: nat, fullpath: Path, usesopen: bool, check: Check,
                     retry: bool, created: bool, fcnotify: bool, accepted: bool, fcacheval: nat, now: nat,
                     place: Allocator) returns (r: Got)
      requires Valid() && Sound(place)
      requires resentry != 0 ==>
                 resentry in rp.nodes && SameKey(rp.nodes[resentry].data.key, key)
                 && rp.nodes[resentry].data.absentry == 0
      modifies this`links, this`scstart, this`lscavenge, ap, ap.heads, rp, rp.heads
      ensures Valid()
      ensures Filling(old(ap.nodes), old(rp.nodes), resentry, fullpath, usesopen, check, created && Generous(place),
                accepted, fcacheval, now, ttlmax, r, ap.nodes, rp.nodes)
      ensures r.Entry? && r.name != 0 ==>
                r.name in rp.nodes && SameKey(rp.nodes[r.name].data.key, key)
                && rp.nodes[r.name].data.absentry == r.file
    {
      hide IndexOf, SameKey, TableHolds, Cross, OneEach, Pruned, Idle, InWindow, Wired, SameData, SamePath, Fewer;
      hide CheckFile, Elapsed, FilledIn, Fetched, Filled, Spares, GotFile, Left, Settled, Scheduled, Filling;
      hide Unresolved;
      ghost var files, names, made := ap.nodes, rp.nodes, created && Generous(place);
      var findex := GetIndex(fullpath, ap.heads.Length);
      var pvalue := ApGetEntry(fullpath, findex, now, check, retry, created, fcnotify, place);
      ghost var ap1, rp1 := ap.nodes, rp.nodes;
      NoFileAtZero(files, names, old(links));
      LookupSpares(files, names, old(Due(now)), old(scstart), retry && active, fullpath, check,
                   old(Room(created, place, retry, now)), place, created, fcnotify, now, pvalue, ap1, rp1);
      if pvalue == 0 {
        FillFails(files, names, ap1, rp1, resentry, fullpath, usesopen, check, made, accepted, fcacheval, now, ttlmax);
        return Nothing;
      }
      StillRecorded(names, rp1, resentry);
      FetchedPath(files, ap1, pvalue, fullpath, check, fcnotify, now);
      r := FillFrom(pvalue, resentry, usesopen, accepted, fcacheval);
      FillHolds(files, names, ap1, rp1, pvalue, resentry, fullpath, usesopen, check, fcnotify, made, accepted,
                fcacheval, now, ttlmax, r, ap.nodes, rp.nodes);
      FillFacts(files, ap1, rp1, pvalue, fullpath, check, fcnotify, now, resentry, usesopen, accepted, fcacheval, r,
                ap.nodes, rp.nodes);
    }

    /** A lookup spares what stays. */
    lemma LookupSpares(ap0: ApNodes, rp0: RpNodes, due: bool, start: nat, full: bool, path: Path, check: Check,
                       room: nat, place: Allocator, created: bool, fcnotify: bool, now: nat, pvalue: nat, ap1: ApNodes,
                       rp1: RpNodes)
      requires OneEach(ap0, rp0) && Sound(place)
      requires var keys := Left(ap0, ap0.Keys, due, ap.bucketOf, start, start + 256, now, ttlmax);
               var keys2 := Left(ap0, keys, full, ap.bucketOf, 0, ap.heads.Length, now, ttlmax);
               room == (if created then place(keys2) else 0)
               && GotFile(ap0, rp0, keys, keys2, path, check, room, fcnotify, now, pvalue, ap1, rp1)
      ensures Spares(ap0, rp0, ap1, rp1, path, check, now, ttlmax, {})
    {
      hide OneEach, GotFile, Stays;
      var keys := Left(ap0, ap0.Keys, due, ap.bucketOf, start, start + 256, now, ttlmax);
      var keys2 := Left(ap0, keys, full, ap.bucketOf, 0, ap.heads.Length, now, ttlmax);
      forall o | Stays(ap0, o, path, check, now, ttlmax) ensures o in keys && o in keys2 {
        StaysThere(ap0, o, path, check, now, ttlmax);
        LeftSpares(ap0, ap0.Keys, due, ap.bucketOf, start, start + 256, now, ttlmax, path, check, o);
        LeftSpares(ap0, keys, full, ap.bucketOf, 0, ap.heads.Length, now, ttlmax, path, check, o);
      }
      GotSpares(ap0, rp0, keys, keys2, path, check, room, fcnotify, now, ttlmax, pvalue, ap1, rp1);
    }

    /** The content of a file that was looked up, and its link to the name. */
    method FillFrom(pvalue: nat, resentry: nat, usesopen: bool, accepted: bool, fcacheval: nat) returns (r: Got)
      requires Valid() && pvalue in ap.nodes
      requires resentry != 0 ==> resentry in rp.nodes && rp.nodes[resentry].data.absentry == 0
      modifies this`links, ap`nodes, rp`nodes
      ensures Valid()
      ensures FilledIn(old(ap.nodes), old(rp.nodes), pvalue, resentry, usesopen, accepted, fcacheval, r, ap.nodes,
                rp.nodes)
    {
      hide IndexOf, TableHolds, Cross, OneEach, Wired;
      var content := ap.nodes[pvalue].data.fcacheval;
      if content == 0 {
        if usesopen {
          var fine := VerifyName(resentry, accepted);
          if !fine {
            return Nothing;
          }
        }
        if fcacheval == 0 {
          return Nothing;
        }
        content := fcacheval;
      }
      if resentry != 0 {
        LinkName(resentry, pvalue, content);
      } else if ap.nodes[pvalue].data.fcacheval == 0 {
        SetContent(pvalue, content);
      }
      r := Entry(pvalue, resentry);
    }

    /** Whether php's own open function has accepted the file for this name. */
    method VerifyName(resentry: nat, accepted: bool) returns (fine: bool)
      requires Valid() && (resentry != 0 ==> resentry in rp.nodes)
      modifies rp`nodes
      ensures Valid()
      ensures resentry == 0 || !old(rp.nodes)[resentry].data.verified.NotDone? ==> rp.nodes == old(rp.nodes)
      ensures resentry != 0 && old(rp.nodes)[resentry].data.verified.NotDone? ==>
                rp.nodes == old(rp.nodes)[resentry := old(rp.nodes)[resentry].(data :=
                  old(rp.nodes)[resentry].data.(verified := if accepted then Passed else Failed))]
      ensures fine <==> if resentry == 0 || old(rp.nodes)[resentry].data.verified.NotDone? then accepted
                        else old(rp.nodes)[resentry].data.verified.Passed?
    {
      hide IndexOf, TableHolds, Cross, OneEach;
      if resentry == 0 {
        return accepted;
      }
      var n := rp.nodes[resentry].data;
      if n.verified == Failed {
        return false;
      }
      if n.verified == NotDone {
        n := n.(verified := if accepted then Passed else Failed);
        NameTouched(ap.nodes, rp.nodes, links, resentry, n);
        RenamedOneEach(ap.nodes, rp.nodes, resentry, n);
        rp.SetData(resentry, n);
      }
      fine := n.verified == Passed;
    }

    method SetContent(o: nat, fcacheval: nat)
      requires Valid() && o in ap.nodes && fcacheval != 0
      modifies ap`nodes
      ensures Valid() && ap.nodes
              == old(ap.nodes)[o := old(ap.nodes)[o].(data := old(ap.nodes)[o].data.(fcacheval := fcacheval))]
    {
      hide IndexOf, TableHolds, Cross, OneEach;
      var d := ap.nodes[o].data.(fcacheval := fcacheval);
      FileTouched(ap.nodes, rp.nodes, links, o, d);
      TouchedOneEach(ap.nodes, rp.nodes, o, d);
      ap.SetData(o, d);
    }

    /** aplist_fcache_delete: r is the name entry that was looked at, or made.  If it was resolved,
        its file goes, with all the names of that file. */
    method FcacheDelete(key: RpKey, place: Allocator) returns (ok: bool, ghost r: nat)
      requires Valid() && Sound(place)
      modifies this`links, ap, ap.heads, rp, rp.heads
      ensures Valid()
      ensures !ok ==> ap.nodes == old(ap.nodes) && rp.nodes == old(rp.nodes) && NoRoom(old(rp.nodes), key, place)
      ensures Deleted(old(ap.nodes), old(rp.nodes), key, ap.nodes, rp.nodes)
      ensures ok && r in old(rp.nodes) ==> SameKey(old(rp.nodes)[r].data.key, key)
      ensures ok && r in old(rp.nodes) ==> ap.nodes.Keys == old(ap.nodes).Keys - {old(rp.nodes)[r].data.absentry}
      ensures ok && r in old(rp.nodes) ==> Pruned(old(ap.nodes), old(rp.nodes), ap.nodes, rp.nodes)
      ensures ok && r !in old(rp.nodes) ==>
                ap.nodes == old(ap.nodes) && rp.nodes.Keys == old(rp.nodes).Keys + {r}
                && SameData(old(rp.nodes), rp.nodes) && rp.nodes[r].data == RpData(key, 0, 0, NotDone)
    {
      hide IndexOf, SameKey, TableHolds, Cross, OneEach, Wired, SameData, Pruned, Deleted;
      ghost var names, was := rp.nodes, ap.nodes;
      var rpvalue := RpGetEntry(key, place);
      r := rpvalue;
      if rpvalue == 0 {
        NothingDeleted(was, names, key);
        return false, r;
      }
      ok := true;
      ghost var names2 := rp.nodes;
      var pvalue := rp.nodes[rpvalue].data.absentry;
      PrunedSelf(ap.nodes, names2, links);
      SameNodes(names, names2, r);
      NoFileAtZero(ap.nodes, names2, links);
      if pvalue != 0 {
        ResolvedFile(ap.nodes, rp.nodes, links, rpvalue);
        var findex := GetIndex(ap.nodes[pvalue].data.path, ap.heads.Length);
        ghost var files := ap.nodes;
        RemoveAp(findex, pvalue);
        PrunedSame(names, names2, r, files, ap.nodes, rp.nodes);
      } else {
        PrunedSame(names, names2, r, ap.nodes, ap.nodes, rp.nodes);
      }
      DeletedBy(was, names, names2, old(links), r, key, ap.nodes, rp.nodes);
    }

    /** aplist_mark_file_changed: the flag the file listener sets, on the file of that path. */
    method MarkFileChanged(path: Path)
      requires Valid()
      modifies ap`nodes
      ensures Valid() && ap.nodes.Keys == old(ap.nodes).Keys
      ensures forall o {:trigger ap.nodes[o]} :: o in ap.nodes ==>
                ap.nodes[o].data ==
                if SamePath(old(ap.nodes)[o].data.path, path) then old(ap.nodes)[o].data.(isChanged := true)
                else old(ap.nodes)[o].data
    {
      hide IndexOf, SamePath, TableHolds, Cross, OneEach, Wired;
      var findex := GetIndex(path, ap.heads.Length);
      var pvalue := FindAp(path, findex);
      if pvalue != 0 {
        var d := ap.nodes[pvalue].data.(isChanged := true);
        ApBucket(d);
        ApBucket(ap.nodes[pvalue].data);
        FileTouched(ap.nodes, rp.nodes, links, pvalue, d);
        TouchedOneEach(ap.nodes, rp.nodes, pvalue, d);
        OnlyFile(ap.nodes, rp.nodes, pvalue, path);
        ap.SetData(pvalue, d);
      }
    }

    /** aplist_getentry on its own, for a path: what it spares. */
    method GetFileEntry(path: Path, now: nat, check: Check, retry: bool, created: bool, fcnotify: bool,
                        place: Allocator) returns (pvalue: nat)
      requires Valid() && Sound(place)
      modifies this`links, this`scstart, this`lscavenge, ap, ap.heads, rp, rp.heads
      ensures Valid() && Spares(old(ap.nodes), old(rp.nodes), ap.nodes, rp.nodes, path, check, now, ttlmax, {})
      ensures pvalue != 0 ==> Fetched(old(ap.nodes), ap.nodes, pvalue, path, check, fcnotify, now)
    {
      hide IndexOf, TableHolds, Cross, OneEach, Wired, SamePath, GotFile, Fetched, Spares, Left, Elapsed, Unresolved;
      hide Settled, Scheduled, CheckFile;
      ghost var files, names := ap.nodes, rp.nodes;
      var findex := GetIndex(path, ap.heads.Length);
      pvalue := ApGetEntry(path, findex, now, check, retry, created, fcnotify, place);
      LookupSpares(files, names, old(Due(now)), old(scstart), retry && active, path, check,
                   old(Room(created, place, retry, now)), place, created, fcnotify, now, pvalue, ap.nodes, rp.nodes);
    }

    ghost function SnapOf(): Snap
      reads ap, rp
    {
      Snap(ap.nodes, rp.nodes)
    }

    /** Any run of whole operations: between two of them the two caches agree, and each does what it should. */
    method Run(ops: seq<Op>) returns (answers: seq<Got>, ghost snaps: seq<Snap>)
      requires Valid() && forall k {:trigger ops[k]} :: 0 <= k < |ops| ==> SoundOp(ops[k])
      modifies this`links, this`scstart, this`lscavenge, ap, ap.heads, rp, rp.heads
      ensures Valid() && OpsRun(snaps, ops, answers, ttlmax)
      ensures snaps[0] == old(SnapOf()) && snaps[|ops|] == SnapOf()
    {
      hide IndexOf, TableHolds, Cross, OneEach, Wired, OpDone;
      answers, snaps := [], [SnapOf()];
      for k := 0 to |ops|
        invariant Valid() && |answers| == k && |snaps| == k + 1 && snaps[0] == old(SnapOf()) && snaps[k] == SnapOf()
        invariant forall j {:trigger answers[j]} :: 0 <= j < k ==>
                    OpDone(snaps[j], ops[j], answers[j], snaps[j + 1], ttlmax)
      {
        var r := Perform(ops[k]);
        answers, snaps := answers + [r], snaps + [SnapOf()];
      }
    }

    method Perform(op: Op) returns (r: Got)
      requires Valid() && SoundOp(op)
      modifies this`links, this`scstart, this`lscavenge, ap, ap.heads, rp, rp.heads
      ensures Valid() && OpDone(old(SnapOf()), op, r, SnapOf(), ttlmax)
    {
      hide IndexOf, TableHolds, Cross, OneEach, Wired, SamePath, Spares, SparesBut, Settles, Hit, Reused, GateOpen;
      hide NotResolved, NoRoom, Outcome, StaleName, Filled, Fetched, Elapsed, CheckFile, Pruned, SameKey, SameData;
      hide NoContent, Recorded;
      r := Nothing;
      match op {
        case Get(key, contents, usesopen, resolved, check1, check2, retry, created, fcnotify, accepted, fcacheval,
                 now, placeAp, placeRp) =>
          r := FcacheGet(key, contents, usesopen, resolved, check1, check2, retry, created, fcnotify, accepted,
                         fcacheval, now, placeAp, placeRp);
        case Delete(key, placeRp) =>
          var ok;
          ghost var q;
          ok, q := FcacheDelete(key, placeRp);
        case Mark(path) =>
          MarkFileChanged(path);
        case GetFile(path, now, check, retry, created, fcnotify, placeAp) =>
          var pvalue := GetFileEntry(path, now, check, retry, created, fcnotify, placeAp);
          r := if pvalue == 0 then Nothing else Entry(pvalue, 0);
      }
    }
  }
}
