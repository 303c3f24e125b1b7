/** alloc_get_cacheheader run by any number of processes.  Each locked region, and each read
    of the slot outside a lock, is one atomic step; between steps any process may run. */
module CacheHeader {
  import opened Basics
  import opened Layout

  // Where a process is in its call.
  datatype PC =
    | Start
    | Missed                    // read an empty slot, about to allocate
    | Holding(block: Block)     // allocated, about to take the lock and look again
    | Losing(block: Block)      // found the slot taken, about to free its own block
    | Rereading                 // freed its own block, about to read the slot
    | Done(result: Option<Block>)

  // bs: heap layout; slot: the cacheheader word; others: blocks of other callers of the heap.
  datatype State = State(bs: seq<Block>, slot: Option<Block>, others: set<Block>, pcs: seq<PC>)

  /** First-fit allocation of block b. */
  ghost predicate Allocates(bs: seq<Block>, nbytes: nat, cs: seq<Block>, b: Block) {
    var w := Words(nbytes);
    exists i {:trigger bs[i]} ::
      FirstFit(bs, w, i) && cs == AllocAt(bs, i, w) && b == Block(bs[i].off, Taken(bs[i], w), Used)
  }

  /** One atomic step of process p, asking for msize bytes. */
  ghost predicate ProcessStep(s: State, t: State, p: nat, msize: nat) {
    && p < |s.pcs| && |t.pcs| == |s.pcs| && t.others == s.others && t.pcs == s.pcs[p := t.pcs[p]]
    && match s.pcs[p]
       case Start =>
         && t.bs == s.bs && t.slot == s.slot
         && t.pcs[p] == if s.slot.Some? then Done(s.slot) else Missed
       case Missed =>
         && t.slot == s.slot
         && (|| (NoFit(s.bs, Words(msize)) && t.bs == s.bs && t.pcs[p] == Done(None))
             || (t.pcs[p].Holding? && Allocates(s.bs, msize, t.bs, t.pcs[p].block)))
       case Holding(b) =>
         && t.bs == s.bs
         && (if s.slot.Some? then t.slot == s.slot && t.pcs[p] == Losing(b)
             else t.slot == Some(b) && t.pcs[p] == Done(Some(b)))
       case Losing(b) =>
         t.slot == s.slot && Step(s.bs, Release(b), t.bs) && t.pcs[p] == Rereading
       case Rereading =>
         t.bs == s.bs && t.slot == s.slot && t.pcs[p] == Done(s.slot)
       case Done(_) =>
         false
  }

  /** Any other use of the heap: a new block, or the release of a block its holder owns. */
  ghost predicate OtherStep(s: State, t: State) {
    && t.slot == s.slot && t.pcs == s.pcs
    && (|| (exists nbytes, b {:trigger Allocates(s.bs, nbytes, t.bs, b)} ::
              Allocates(s.bs, nbytes, t.bs, b) && t.others == s.others + {b})
        || (exists b {:trigger b in s.others} ::
              b in s.others && Step(s.bs, Release(b), t.bs) && t.others == s.others - {b}))
  }

  ghost predicate Next(s: State, t: State, msize: nat) {
    (exists p: nat {:trigger s.pcs[p]} :: p < |s.pcs| && ProcessStep(s, t, p, msize)) || OtherStep(s, t)
  }

  ghost predicate Init(s: State, total: nat) {
    && Segmented(s.bs, total) && s.slot == None && s.others == Live(s.bs)
    && forall p {:trigger s.pcs[p]} :: 0 <= p < |s.pcs| ==> s.pcs[p] == Start
  }

  // ----- The invariant -----

  /** The block process state pc still has to account for. */
  ghost function Held(pc: PC): set<Block> {
    if pc.Holding? || pc.Losing? then {pc.block} else {}
  }

  ghost function AllHeld(pcs: seq<PC>): set<Block> {
    if pcs == [] then {} else AllHeld(pcs[..|pcs| - 1]) + Held(pcs[|pcs| - 1])
  }

  ghost function Slot(slot: Option<Block>): set<Block> {
    if slot.Some? then {slot.value} else {}
  }

  ghost predicate Settled(slot: Option<Block>, pc: PC) {
    && (pc.Losing? || pc.Rereading? ==> slot.Some?)
    && (pc.Done? && pc.result.Some? ==> pc.result == slot)
  }

  ghost predicate Inv(s: State, total: nat) {
    && Segmented(s.bs, total)
    && Live(s.bs) == s.others + AllHeld(s.pcs) + Slot(s.slot)
    && s.others !! AllHeld(s.pcs) && s.others !! Slot(s.slot) && AllHeld(s.pcs) !! Slot(s.slot)
    && (forall p {:trigger s.pcs[p]} :: 0 <= p < |s.pcs| ==> Settled(s.slot, s.pcs[p]))
    && (forall p, q {:trigger s.pcs[p], s.pcs[q]} :: 0 <= p < q < |s.pcs| ==> Held(s.pcs[p]) !! Held(s.pcs[q]))
  }

  lemma {:induction false} HeldOf(pcs: seq<PC>, p: nat)
    requires p < |pcs|
    ensures Held(pcs[p]) <= AllHeld(pcs)
  {
    if p < |pcs| - 1 {
      HeldOf(pcs[..|pcs| - 1], p);
    }
  }

  /** Changing one process state exchanges its held block for the new one. */
  lemma {:induction false} HeldUpdate(pcs: seq<PC>, p: nat, pc: PC)
    requires p < |pcs|
    requires forall p, q {:trigger pcs[p], pcs[q]} :: 0 <= p < q < |pcs| ==> Held(pcs[p]) !! Held(pcs[q])
    ensures AllHeld(pcs[p := pc]) == AllHeld(pcs) - Held(pcs[p]) + Held(pc)
  {
    var n := |pcs| - 1;
    if p < n {
      assert pcs[p := pc][..n] == pcs[..n][p := pc];
      HeldUpdate(pcs[..n], p, pc);
      assert Held(pcs[p]) !! Held(pcs[n]);
    } else {
      assert pcs[p := pc][..n] == pcs[..n];
      HeldApart(pcs, n, n);
    }
  }

  lemma {:induction false} HeldApart(pcs: seq<PC>, n: nat, k: nat)
    requires k <= n < |pcs|
    requires forall p, q {:trigger pcs[p], pcs[q]} :: 0 <= p < q < |pcs| ==> Held(pcs[p]) !! Held(pcs[q])
    ensures AllHeld(pcs[..k]) !! Held(pcs[n])
  {
    if k > 0 {
      HeldApart(pcs, n, k - 1);
      assert pcs[..k][..k - 1] == pcs[..k - 1];
    }
  }

  lemma AllocatesFresh(bs: seq<Block>, nbytes: nat, cs: seq<Block>, b: Block, total: nat)
    requires Segmented(bs, total) && Allocates(bs, nbytes, cs, b)
    ensures Segmented(cs, total) && b !in Live(bs) && Live(cs) == Live(bs) + {b}
  {
    var w := Words(nbytes);
    var i :| FirstFit(bs, w, i) && cs == AllocAt(bs, i, w) && b == Block(bs[i].off, Taken(bs[i], w), Used);
    assert FirstFit(bs, w, i);
    AllocAtSegmented(bs, total, i, w);
    AllocAtLive(bs, total, i, w);
  }

  lemma ProcessStepInv(s: State, t: State, p: nat, msize: nat, total: nat)
    requires Inv(s, total) && ProcessStep(s, t, p, msize)
    ensures Inv(t, total)
  {
    hide Segmented, Allocates, Step, Live, AllHeld;
    var pc := t.pcs[p];
    HeldUpdate(s.pcs, p, pc);
    HeldOf(s.pcs, p);
    match s.pcs[p]
    case Missed =>
      if pc.Holding? {
        AllocatesFresh(s.bs, msize, t.bs, pc.block, total);
        FreshHeld(s.pcs, p, pc, Live(s.bs));
      }
    case Losing(b) =>
      StepSegmented(s.bs, Release(b), t.bs, total);
    case _ =>
  }

  lemma FreshHeld(pcs: seq<PC>, p: nat, pc: PC, live: set<Block>)
    requires p < |pcs| && Held(pc) !! live && AllHeld(pcs) <= live
    ensures forall q {:trigger pcs[q]} :: 0 <= q < |pcs| ==> Held(pcs[q]) !! Held(pc)
  {
    forall q | 0 <= q < |pcs| ensures Held(pcs[q]) !! Held(pc) {
      HeldOf(pcs, q);
    }
  }

  lemma OtherStepInv(s: State, t: State, total: nat)
    requires Inv(s, total) && OtherStep(s, t)
    ensures Inv(t, total)
  {
    hide Segmented, Allocates, Step, Live, AllHeld, Held, Settled, Slot;
    if exists nbytes, b :: Allocates(s.bs, nbytes, t.bs, b) && t.others == s.others + {b} {
      var nbytes, b :| Allocates(s.bs, nbytes, t.bs, b) && t.others == s.others + {b};
      AllocatesFresh(s.bs, nbytes, t.bs, b, total);
    } else {
      var b :| b in s.others && Step(s.bs, Release(b), t.bs) && t.others == s.others - {b};
      StepSegmented(s.bs, Release(b), t.bs, total);
    }
  }

  // ----- Runs -----

  ghost predicate Run(run: seq<State>, msize: nat, total: nat) {
    && |run| > 0 && Init(run[0], total)
    && forall k {:trigger run[k]} :: 0 <= k < |run| - 1 ==> Next(run[k], run[k + 1], msize)
  }

  lemma {:induction false} NoneHeld(pcs: seq<PC>)
    requires forall p {:trigger pcs[p]} :: 0 <= p < |pcs| ==> Held(pcs[p]) == {}
    ensures AllHeld(pcs) == {}
  {
    if pcs != [] {
      NoneHeld(pcs[..|pcs| - 1]);
    }
  }

  lemma RunStep(run: seq<State>, msize: nat, total: nat, k: nat)
    requires Run(run, msize, total) && k + 1 < |run|
    ensures Next(run[k], run[k + 1], msize)
  {
    hide Init, Next;
  }

  lemma StepInv(s: State, t: State, msize: nat, total: nat)
    requires Inv(s, total) && Next(s, t, msize)
    ensures Inv(t, total)
  {
    hide Inv, ProcessStep, OtherStep;
    if p: nat :| p < |s.pcs| && ProcessStep(s, t, p, msize) {
      ProcessStepInv(s, t, p, msize, total);
    } else {
      OtherStepInv(s, t, total);
    }
  }

  lemma InitInv(s: State, total: nat)
    requires Init(s, total)
    ensures Inv(s, total)
  {
    hide Segmented, Live;
    NoneHeld(s.pcs);
  }

  lemma {:induction false} RunInv(run: seq<State>, msize: nat, total: nat, k: nat)
    requires Run(run, msize, total) && k < |run|
    ensures Inv(run[k], total)
  {
    hide Init, Inv, Next;
    if k == 0 {
      InitInv(run[0], total);
    } else {
      RunInv(run, msize, total, k - 1);
      RunStep(run, msize, total, k - 1);
      StepInv(run[k - 1], run[k], msize, total);
    }
  }

  /** Once the slot is set it never changes again. */
  lemma {:induction false} SlotNeverChanges(run: seq<State>, msize: nat, total: nat, j: nat, k: nat)
    requires Run(run, msize, total) && j <= k < |run| && run[j].slot.Some?
    ensures run[k].slot == run[j].slot
    decreases k
  {
    hide Run, Next;
    if j < k {
      SlotNeverChanges(run, msize, total, j, k - 1);
      RunStep(run, msize, total, k - 1);
      StepKeepsSlot(run[k - 1], run[k], msize);
    }
  }

  lemma StepKeepsSlot(s: State, t: State, msize: nat)
    requires Next(s, t, msize) && s.slot.Some?
    ensures t.slot == s.slot
  {
    if exists p: nat :: p < |s.pcs| && ProcessStep(s, t, p, msize) {
      var p: nat :| p < |s.pcs| && ProcessStep(s, t, p, msize);
      assert ProcessStep(s, t, p, msize);
    }
  }

  /** All processes that got an offset got the same one, whenever they finished. */
  lemma SameResult(run: seq<State>, msize: nat, total: nat, j: nat, k: nat, p: nat, q: nat)
    requires Run(run, msize, total) && j <= k < |run| && p < |run[j].pcs| && q < |run[k].pcs|
    requires run[j].pcs[p].Done? && run[j].pcs[p].result.Some?
    requires run[k].pcs[q].Done? && run[k].pcs[q].result.Some?
    ensures run[j].pcs[p].result == run[k].pcs[q].result == run[k].slot
  {
    RunInv(run, msize, total, j);
    RunInv(run, msize, total, k);
    SlotNeverChanges(run, msize, total, j, k);
  }

  /** When every process has finished, the heap holds the blocks of the other callers and
      exactly one more, the shared header; or none, and then every process got null. */
  lemma OneBlockRemains(run: seq<State>, msize: nat, total: nat, k: nat)
    requires Run(run, msize, total) && k < |run|
    requires forall p {:trigger run[k].pcs[p]} :: 0 <= p < |run[k].pcs| ==> run[k].pcs[p].Done?
    ensures run[k].slot.Some? ==>
              run[k].slot.value !in run[k].others && Live(run[k].bs) == run[k].others + {run[k].slot.value}
    ensures run[k].slot.None? ==> Live(run[k].bs) == run[k].others
    ensures run[k].slot.None? ==> forall p {:trigger run[k].pcs[p]} :: 0 <= p < |run[k].pcs| ==>
              run[k].pcs[p].result == None
  {
    RunInv(run, msize, total, k);
    NoneHeld(run[k].pcs);
  }

  // ----- What one process can rely on -----

  /** A process that has not read the slot yet when it is set gets what is in it, however full the heap is. */
  lemma {:induction false} LateStart(run: seq<State>, msize: nat, total: nat, j: nat, k: nat, p: nat)
    requires Run(run, msize, total) && j <= k < |run| && run[j].slot.Some?
    requires p < |run[j].pcs| && run[j].pcs[p] == Start
    ensures p < |run[k].pcs| && (run[k].pcs[p] == Start || run[k].pcs[p] == Done(run[j].slot))
    decreases k
  {
    hide Run, Next;
    if j < k {
      LateStart(run, msize, total, j, k - 1, p);
      SlotNeverChanges(run, msize, total, j, k - 1);
      RunStep(run, msize, total, k - 1);
      OneStep(run[k - 1], run[k], msize, p);
    }
  }

  /** In one step a process stays where it is, or makes its own step. */
  lemma OneStep(s: State, t: State, msize: nat, p: nat)
    requires Next(s, t, msize) && p < |s.pcs|
    ensures |t.pcs| == |s.pcs| && (t.pcs[p] == s.pcs[p] || ProcessStep(s, t, p, msize))
  {
    if q: nat :| q < |s.pcs| && ProcessStep(s, t, q, msize) {
      assert p != q ==> t.pcs[p] == s.pcs[p];
    }
  }

  /** A process that gets null was refused by the heap: at some earlier instant it had read an empty slot and
      no free block could hold the header. */
  lemma {:induction false} NullMeansRefused(run: seq<State>, msize: nat, total: nat, k: nat, p: nat) returns (j: nat)
    requires Run(run, msize, total) && k < |run| && p < |run[k].pcs| && run[k].pcs[p] == Done(None)
    ensures j < k && p < |run[j].pcs| && run[j].pcs[p] == Missed && NoFit(run[j].bs, Words(msize))
  {
    hide Run, Next, Init, Inv;
    if k == 0 {
      AllStart(run, msize, total, p);
    } else {
      RunStep(run, msize, total, k - 1);
      SameProcesses(run[k - 1], run[k], msize);
      OneStep(run[k - 1], run[k], msize, p);
      if run[k - 1].pcs[p] == Done(None) {
        j := NullMeansRefused(run, msize, total, k - 1, p);
      } else {
        RunInv(run, msize, total, k - 1);
        FirstNull(run[k - 1], run[k], msize, total, p);
        j := k - 1;
      }
    }
  }

  lemma AllStart(run: seq<State>, msize: nat, total: nat, p: nat)
    requires Run(run, msize, total) && p < |run[0].pcs|
    ensures run[0].pcs[p] == Start
  {
  }

  lemma SameProcesses(s: State, t: State, msize: nat)
    requires Next(s, t, msize)
    ensures |t.pcs| == |s.pcs|
  {
    if p: nat :| p < |s.pcs| && ProcessStep(s, t, p, msize) {
      assert |t.pcs| == |s.pcs|;
    }
  }

  lemma FirstNull(s: State, t: State, msize: nat, total: nat, p: nat)
    requires Inv(s, total) && ProcessStep(s, t, p, msize) && t.pcs[p] == Done(None)
    ensures s.pcs[p] == Missed && NoFit(s.bs, Words(msize))
  {
    assert Settled(s.slot, s.pcs[p]);
  }

  /** The block in the slot is large enough for the header, whoever has put it there. */
  lemma {:induction false} HeaderFits(run: seq<State>, msize: nat, total: nat, k: nat)
    requires Run(run, msize, total) && k < |run|
    ensures Sized(run[k], msize)
  {
    hide Run, Next, Init;
    if k == 0 {
      NoneSized(run, msize, total);
    } else {
      HeaderFits(run, msize, total, k - 1);
      RunStep(run, msize, total, k - 1);
      StepSized(run[k - 1], run[k], msize);
    }
  }

  /** The header, and every block a process has allocated for it, holds msize bytes. */
  ghost predicate Sized(s: State, msize: nat) {
    && (s.slot.Some? ==> WORD_BYTES * s.slot.value.size >= msize)
    && forall p {:trigger s.pcs[p]} :: 0 <= p < |s.pcs| && s.pcs[p].Holding? ==>
         WORD_BYTES * s.pcs[p].block.size >= msize
  }

  lemma NoneSized(run: seq<State>, msize: nat, total: nat)
    requires Run(run, msize, total)
    ensures Sized(run[0], msize)
  {
  }

  lemma StepSized(s: State, t: State, msize: nat)
    requires Sized(s, msize) && Next(s, t, msize)
    ensures Sized(t, msize)
  {
    hide Step;
    if p: nat :| p < |s.pcs| && ProcessStep(s, t, p, msize) {
      if t.pcs[p].Holding? && s.pcs[p].Missed? {
        EnoughTaken(s.bs, msize, t.bs, t.pcs[p].block);
      }
      forall q | 0 <= q < |t.pcs| && t.pcs[q].Holding? ensures WORD_BYTES * t.pcs[q].block.size >= msize {
        if q != p {
          assert t.pcs[q] == s.pcs[q];
        }
      }
    }
  }

  lemma EnoughTaken(bs: seq<Block>, nbytes: nat, cs: seq<Block>, b: Block)
    requires Allocates(bs, nbytes, cs, b)
    ensures WORD_BYTES * b.size >= nbytes
  {
    var w := Words(nbytes);
    WordsIsCeiling(nbytes);
    var i :| FirstFit(bs, w, i) && cs == AllocAt(bs, i, w) && b == Block(bs[i].off, Taken(bs[i], w), Used);
    assert FirstFit(bs, w, i);
    TakenExact(bs[i], w);
  }

  /** How many steps a process has left at most. */
  ghost function Left(pc: PC): nat {
    match pc
    case Start => 5
    case Missed => 4
    case Holding(_) => 3
    case Losing(_) => 2
    case Rereading => 1
    case Done(_) => 0
  }

  /** A process is never stuck before it is done, and never makes more than five steps. */
  lemma NeverStuck(s: State, total: nat, p: nat, msize: nat) returns (t: State)
    requires Inv(s, total) && p < |s.pcs| && !s.pcs[p].Done?
    ensures ProcessStep(s, t, p, msize)
    ensures forall u {:trigger ProcessStep(s, u, p, msize)} :: ProcessStep(s, u, p, msize) ==>
              Left(u.pcs[p]) < Left(s.pcs[p])
  {
    hide Segmented, Live, AllHeld, FirstFit, NoFit;
    match s.pcs[p]
    case Start =>
      t := s.(pcs := s.pcs[p := if s.slot.Some? then Done(s.slot) else Missed]);
    case Missed =>
      var w := Words(msize);
      if NoFit(s.bs, w) {
        t := s.(pcs := s.pcs[p := Done(None)]);
      } else {
        var i := FirstFits(s.bs, w);
        t := s.(bs := AllocAt(s.bs, i, w), pcs := s.pcs[p := Holding(Block(s.bs[i].off, Taken(s.bs[i], w), Used))]);
        assert Allocates(s.bs, msize, t.bs, t.pcs[p].block);
      }
    case Holding(b) =>
      t := if s.slot.Some? then s.(pcs := s.pcs[p := Losing(b)])
           else s.(slot := Some(b), pcs := s.pcs[p := Done(Some(b))]);
    case Losing(b) =>
      HeldOf(s.pcs, p);
      var i := LiveAt(s.bs, b, total);
      t := s.(bs := FreeAt(s.bs, i), pcs := s.pcs[p := Rereading]);
      assert Step(s.bs, Release(b), t.bs);
    case Rereading =>
      t := s.(pcs := s.pcs[p := Done(s.slot)]);
  }

  lemma FirstFits(bs: seq<Block>, w: nat) returns (i: nat)
    requires !NoFit(bs, w)
    ensures FirstFit(bs, w, i) && i < |bs| && bs[i].size >= w
  {
    i := 0;
    while !Fits(bs[i], w)
      invariant i < |bs| && forall j {:trigger bs[j]} :: 0 <= j < i ==> !Fits(bs[j], w)
      decreases |bs| - i
    {
      i := i + 1;
    }
  }

  lemma LiveAt(bs: seq<Block>, b: Block, total: nat) returns (i: nat)
    requires Segmented(bs, total) && b in Live(bs)
    ensures 0 < i < |bs| - 1 && bs[i] == b && b.kind == Used && Tiled(bs)
  {
    i :| i < |bs| && bs[i] == b;
  }
}
