/** What the asynchronous protocol guarantees over all runs, and the one way to break it. */
module AsyncGenVarSafety {
  import opened AsyncGenVar

  // ---------------------------------------------------------------- in every run

  /** No record is ever refused because of a conflict. */
  lemma NeverRefused(s: State)
    requires Reachable(false, s)
    ensures !s.conflict
  {
    ReachableInv(false, s);
  }

  /** While the mutex is free, `rec_p` and PACT agree, and a pending record has its wake-up before it. */
  lemma FreeMutex(s: State, r: nat)
    requires Reachable(false, s) && r < |s.recs| && s.recs[r].mtx.Free?
    ensures s.recs[r].recP == s.recs[r].pact
    ensures s.recs[r].pact ==> s.recs[r].full || s.recs[r].ll.LLock?
  {
    ReachableInv(false, s);
    LowLevelIsOutside(false, s, r);
  }

  lemma LowLevelIsOutside(careful: bool, s: State, r: nat)
    requires Inv(careful, s) && r < |s.recs| && s.recs[r].mtx.Free?
    ensures s.recs[r].ll.LLoop? || s.recs[r].ll.LWait? || s.recs[r].ll.LLock?
    ensures RecOk(careful, s.recs[r], SIdle)
  {
    assert RecOk(careful, s.recs[r], Filler(s, r));
    assert Kind(LowLevel(r), PcOf(s, LowLevel(r)));
    assert DepthOf(s.recs[r].mtx, LowLevel(r)) == Depth(LowLevel(r), PcOf(s, LowLevel(r)), r);
  }

  // ---------------------------------------------------------------- the rendezvous

  /** Exactly-once rendezvous: nothing is lost, overwritten or consumed twice. */
  lemma ExactlyOnce(s: State, r: nat)
    requires Reachable(true, s) && r < |s.recs|
    ensures var rec := s.recs[r];
      || rec.written == rec.consumed
      || rec.written == rec.consumed + [rec.data]
  {
    ReachableInv(true, s);
    assert RecOk(true, s.recs[r], Filler(s, r));
  }

  /** `devGenVarProcComplete` never fails. */
  lemma NeverFails(s: State, r: nat, k: nat)
    requires Reachable(true, s) && r < |s.recs| && k < |s.recs[r].results|
    ensures s.recs[r].results[k] == 0
  {
    ReachableInv(true, s);
    assert RecOk(true, s.recs[r], Filler(s, r));
  }

  /** While the mutex is free a value is pending exactly if PACT is set, and exactly then it has one wake-up. */
  lemma NoSpuriousWakeUp(s: State, r: nat)
    requires Reachable(true, s) && r < |s.recs| && s.recs[r].mtx.Free?
    ensures var rec := s.recs[r];
      && rec.written == rec.consumed + (if rec.pact then [rec.data] else [])
      && (rec.pact <==> rec.full || rec.ll.LLock?)
      && !(rec.full && rec.ll.LLock?)
  {
    ReachableInv(true, s);
    LowLevelIsOutside(true, s, r);
  }

  // ---------------------------------------------------------------- deadlock freedom

  predicate WantsScan(pc: Pc) {
    pc.LScanLock? || pc.SWant?
  }

  /** Thread `t` at `pc` is about to lock the mutex of variable `r`. */
  predicate WantsMutex(t: Thread, pc: Pc, r: nat) {
    || (pc.Walk? && pc.at.Want? && |pc.todo| > 0 && pc.todo[0] == r)
    || ((pc.LLock? || pc.LRelock? || pc.LNest? || pc.ILock?) && !t.Scan? && t.r == r)
  }

  /** Thread `t` cannot go on before thread `u` has released a lock. */
  ghost predicate WaitsFor(s: State, t: Thread, u: Thread) {
    && Exists(s, t) && t != u
    && ( || (WantsScan(PcOf(s, t)) && s.scanLock.Held? && s.scanLock.owner == u)
         || (exists r: nat ::
               r < |s.recs| && WantsMutex(t, PcOf(s, t), r) && s.recs[r].mtx.Held? && s.recs[r].mtx.owner == u))
  }

  /**
    What makes the inverted lock order harmless: a low-level thread which wants the lock-set
    lock has PACT of its record set, a thread which wants a mutex with the lock-set lock in its
    hands has seen it clear, so no variable is on both sides.
  */
  lemma LockOrder(s: State, r: nat, t: Thread)
    requires Reachable(false, s) && r < |s.recs| && s.recs[r].ll.LScanLock?
    ensures s.recs[r].pact && !(HoldsScan(PcOf(s, t)) && WantsMutex(t, PcOf(s, t), r))
  {
    ReachableInv(false, s);
    assert RecOk(false, s.recs[r], Filler(s, r));
    assert Exists(s, t) ==> Kind(t, PcOf(s, t));
  }

  function Rank(pc: Pc): nat {
    if WantsScan(pc) then 2
    else if (pc.Walk? && pc.at.Want?) || pc.LLock? || pc.ILock? then 1
    else 0
  }

  /** The owner of a mutex which a processing thread waits for is past its own use of the lock-set lock. */
  lemma WantedMutexOwner(s: State, t: Thread, f: nat)
    requires Inv(false, s) && f < |s.recs| && Exists(s, t)
    requires PcOf(s, t).Walk? && PcOf(s, t).at.Want? && PcOf(s, t).todo != [] && PcOf(s, t).todo[0] == f
    requires s.recs[f].mtx.Held?
    ensures s.recs[f].mtx.owner == LowLevel(f)
    ensures var ll := s.recs[f].ll; ll.LConsume? || ll.LTest? || ll.LClear? || ll.LRelease? || ll.LUnlock?
  {
    var u := s.recs[f].mtx.owner;
    assert Kind(t, PcOf(s, t)) && (Exists(s, u) ==> Kind(u, PcOf(s, u)));
    HeadRec(false, s, t);
    assert RecOk(false, s.recs[f], Filler(s, f));
    assert DepthOf(s.recs[f].mtx, u) == Depth(u, PcOf(s, u), f);
    assert DepthOf(s.scanLock, t) == 1;
    assert DepthOf(s.scanLock, u) == if HoldsScan(PcOf(s, u)) then 1 else 0;
    assert DepthOf(s.scanLock, LowLevel(f)) == if HoldsScan(PcOf(s, LowLevel(f))) then 1 else 0;
  }

  /** The owner of a mutex which its low-level thread waits for is not blocked. */
  lemma OwnMutexOwner(s: State, t: Thread, r: nat)
    requires Inv(false, s) && r < |s.recs| && (t == LowLevel(r) || t == Init(r))
    requires PcOf(s, t).LLock? || PcOf(s, t).ILock?
    requires s.recs[r].mtx.Held?
    ensures var u := s.recs[r].mtx.owner;
      u != t && Exists(s, u) && Rank(PcOf(s, u)) == 0 && !WantsMutex(u, PcOf(s, u), r)
  {
    var u := s.recs[r].mtx.owner;
    assert Kind(t, PcOf(s, t)) && (Exists(s, u) ==> Kind(u, PcOf(s, u)));
    assert RecOk(false, s.recs[r], Filler(s, r));
    assert DepthOf(s.recs[r].mtx, u) == Depth(u, PcOf(s, u), r);
    assert PcOf(s, LowLevel(r)) == s.recs[r].ll && PcOf(s, Init(r)) == s.recs[r].ini;
  }

  /** A nested lock never blocks. */
  lemma OwnsNested(s: State, t: Thread, r: nat)
    requires Inv(false, s) && r < |s.recs| && t == LowLevel(r) && (PcOf(s, t).LRelock? || PcOf(s, t).LNest?)
    ensures s.recs[r].mtx.Held? && s.recs[r].mtx.owner == t
  {
    assert DepthOf(s.recs[r].mtx, t) == Depth(t, PcOf(s, t), r);
  }

  lemma WaitLowersRank(s: State, t: Thread, u: Thread)
    requires Inv(false, s) && WaitsFor(s, t, u)
    ensures Rank(PcOf(s, u)) < Rank(PcOf(s, t))
  {
    assert Kind(t, PcOf(s, t));
    if WantsScan(PcOf(s, t)) && s.scanLock.Held? && s.scanLock.owner == u {
      assert DepthOf(s.scanLock, u) == 1;
    } else {
      var r: nat :| r < |s.recs| && WantsMutex(t, PcOf(s, t), r) && s.recs[r].mtx.Held? && s.recs[r].mtx.owner == u;
      if PcOf(s, t).Walk? {
        WantedMutexOwner(s, t, r);
      } else if PcOf(s, t).LLock? || PcOf(s, t).ILock? {
        OwnMutexOwner(s, t, r);
      } else {
        OwnsNested(s, t, r);
      }
    }
  }

  /** Every thread of `ts` waits for the next one. */
  ghost predicate WaitChain(s: State, ts: seq<Thread>) {
    |ts| > 1 ==> WaitsFor(s, ts[0], ts[1]) && WaitChain(s, ts[1..])
  }

  lemma {:induction false} ChainLowersRank(s: State, ts: seq<Thread>)
    requires Inv(false, s) && ts != [] && WaitChain(s, ts)
    ensures Rank(PcOf(s, ts[|ts| - 1])) + |ts| - 1 <= Rank(PcOf(s, ts[0]))
  {
    if |ts| > 1 {
      WaitLowersRank(s, ts[0], ts[1]);
      ChainLowersRank(s, ts[1..]);
    }
  }

  /**
    However many threads and records there are, threads never wait for one another in a circle,
    and no thread waits behind more than two others.
  */
  lemma NoCircularWait(s: State, ts: seq<Thread>)
    requires Reachable(false, s) && WaitChain(s, ts)
    ensures |ts| <= 3
    ensures |ts| > 1 ==> ts[0] != ts[|ts| - 1]
  {
    ReachableInv(false, s);
    if ts != [] {
      ChainLowersRank(s, ts);
    }
  }

  /** The thread another one waits for can go on, unless it waits for a third one itself. */
  lemma OwnerGoesOn(s: State, t: Thread, u: Thread)
    requires Reachable(false, s) && WaitsFor(s, t, u)
    ensures Enabled(s, Step(u, [], 0)) || exists w :: WaitsFor(s, u, w)
  {
    ReachableInv(false, s);
    WaitLowersRank(s, t, u);
    OwnerHasWork(s, t, u);
    if !Enabled(s, Step(u, [], 0)) {
      assert Kind(u, PcOf(s, u)) && PcOk(PcOf(s, u), |s.recs|);
      if PcOf(s, u).Walk? {
        var f := PcOf(s, u).todo[0];
        assert WantsMutex(u, PcOf(s, u), f) && WaitsFor(s, u, s.recs[f].mtx.owner);
      }
    }
  }

  lemma OwnerHasWork(s: State, t: Thread, u: Thread)
    requires Inv(false, s) && WaitsFor(s, t, u)
    ensures Exists(s, u) && !PcOf(s, u).SIdle? && !PcOf(s, u).IDone? && !PcOf(s, u).LWait?
  {
    if s.scanLock.Held? && s.scanLock.owner == u {
      assert DepthOf(s.scanLock, u) == 1;
    } else {
      var r: nat :| r < |s.recs| && WantsMutex(t, PcOf(s, t), r) && s.recs[r].mtx.Held? && s.recs[r].mtx.owner == u;
      assert DepthOf(s.recs[r].mtx, u) == Depth(u, PcOf(s, u), r);
    }
  }

  /**
    No lost wake-up and no deadlock over whole runs: when no thread can go on except by starting
    a new scan, every record has completed and no lock is held.
  */
  lemma RestIsComplete(s: State, r: nat)
    requires Reachable(false, s) && r < |s.recs|
    requires forall st: Step :: Enabled(s, st) ==> PcOf(s, st.t).SIdle?
    ensures var rec := s.recs[r];
      && !rec.pact && !rec.recP && !rec.full
      && rec.mtx.Free? && rec.ll.LWait? && rec.ini.IDone?
    ensures s.scanLock.Free?
  {
    ReachableInv(false, s);
    NoScanLockAtRest(s);
    RestOfRecord(s, r);
  }

  /** And every value has been consumed. */
  lemma RestIsConsumed(s: State, r: nat)
    requires Reachable(true, s) && r < |s.recs|
    requires forall st: Step :: Enabled(s, st) ==> PcOf(s, st.t).SIdle?
    ensures s.recs[r].written == s.recs[r].consumed
  {
    ReachableCareful(s);
    RestIsComplete(s, r);
    NoSpuriousWakeUp(s, r);
  }

  lemma {:induction false} CarefulRun(s: State, steps: seq<Step>, s': State)
    requires Run(true, s, steps, s')
    ensures Run(false, s, steps, s')
    decreases |steps|
  {
    if steps != [] {
      CarefulRun(Apply(s, steps[0]), steps[1..], s');
    }
  }

  lemma ReachableCareful(s: State)
    requires Reachable(true, s)
    ensures Reachable(false, s)
  {
    var s0, steps :| Initial(s0) && Run(true, s0, steps, s);
    CarefulRun(s0, steps, s);
  }

  lemma NoScanLockAtRest(s: State)
    requires Inv(false, s)
    requires forall st: Step :: Enabled(s, st) ==> PcOf(s, st.t).SIdle?
    ensures s.scanLock.Free?
  {
    if s.scanLock.Held? {
      var u := s.scanLock.owner;
      assert DepthOf(s.scanLock, u) == 1;
      assert Kind(u, PcOf(s, u)) && PcOk(PcOf(s, u), |s.recs|);
      assert !Enabled(s, Step(u, [], 0));
      if PcOf(s, u).LNest? {
        OwnsNested(s, u, u.r);
      } else {
        var f := PcOf(s, u).todo[0];
        WantedMutexOwner(s, u, f);
        assert DepthOf(s.recs[f].mtx, LowLevel(f)) == Depth(LowLevel(f), PcOf(s, LowLevel(f)), f);
        assert Enabled(s, Step(LowLevel(f), [], 0));
      }
    }
  }

  lemma RestOfRecord(s: State, r: nat)
    requires Inv(false, s) && r < |s.recs| && s.scanLock.Free?
    requires forall st: Step :: Enabled(s, st) ==> PcOf(s, st.t).SIdle?
    ensures var rec := s.recs[r];
      && !rec.pact && !rec.recP && !rec.full
      && rec.mtx.Free? && rec.ll.LWait? && rec.ini.IDone?
  {
    var t := LowLevel(r);
    NoMutexAtRest(s, r);
    assert Kind(t, PcOf(s, t)) && Kind(Init(r), PcOf(s, Init(r)));
    assert PcOf(s, t) == s.recs[r].ll && PcOf(s, Init(r)) == s.recs[r].ini;
    assert RecOk(false, s.recs[r], Filler(s, r));
    assert !Enabled(s, Step(t, [], 0)) && !Enabled(s, Step(Init(r), [], 0));
  }

  lemma NoMutexAtRest(s: State, r: nat)
    requires Inv(false, s) && r < |s.recs| && s.scanLock.Free?
    requires forall st: Step :: Enabled(s, st) ==> PcOf(s, st.t).SIdle?
    ensures s.recs[r].mtx.Free?
  {
    if s.recs[r].mtx.Held? {
      var u := s.recs[r].mtx.owner;
      assert DepthOf(s.recs[r].mtx, u) == Depth(u, PcOf(s, u), r);
      assert DepthOf(s.scanLock, u) == if HoldsScan(PcOf(s, u)) then 1 else 0;
      assert Enabled(s, Step(u, [], 0));
    }
  }

  // ---------------------------------------------------------------- the hidden event

  lemma OnlyRecordMoves(s: State, r: nat, rec: Rec)
    requires WellFormed(s) && r < |s.recs|
    requires rec.flnk == s.recs[r].flnk && !rec.ll.Walk?
    requires Kind(LowLevel(r), rec.ll) && Kind(Init(r), rec.ini)
    ensures WellFormed(WithRec(s, r, rec))
  {
    var s' := WithRec(s, r, rec);
    forall t: Thread | Exists(s', t)
      ensures Kind(t, PcOf(s', t)) && PcOk(PcOf(s', t), |s'.recs|)
    {
      assert Kind(t, PcOf(s, t)) && PcOk(PcOf(s, t), |s.recs|);
    }
  }

  /** One step of a thread of record `r` in front of a run. */
  lemma Prepend(s: State, t: Thread, steps: seq<Step>, s': State)
    requires WellFormed(s) && Enabled(s, Step(t, [], 0)) && Run(false, Apply(s, Step(t, [], 0)), steps, s')
    ensures Run(false, s, [Step(t, [], 0)] + steps, s')
  {
    assert ([Step(t, [], 0)] + steps)[1..] == steps;
  }

  /** A low-level thread past its wait finds no record. */
  lemma FindsNothing(s: State, r: nat) returns (steps: seq<Step>, s': State)
    requires WellFormed(s) && r < |s.recs| && s.recs[r].ll.LLock? && s.recs[r].mtx.Free? && !s.recs[r].recP
    ensures Run(false, s, steps, s') && r < |s'.recs|
    ensures s'.recs[r] == s.recs[r].(mtx := Held(LowLevel(r), 1), ll := LUnlock,
      consumed := s.recs[r].consumed + [s.recs[r].data], results := s.recs[r].results + [-1])
  {
    var st := Step(LowLevel(r), [], 0);
    assert Kind(Init(r), PcOf(s, Init(r)));
    var s1 := Apply(s, st);
    OnlyRecordMoves(s, r, s1.recs[r]);
    var s2 := Apply(s1, st);
    OnlyRecordMoves(s1, r, s2.recs[r]);
    s' := Apply(s2, st);
    Prepend(s2, LowLevel(r), [], s');
    Prepend(s1, LowLevel(r), [st], s');
    Prepend(s, LowLevel(r), [st, st], s');
    steps := [st] + [st, st];
  }

  /** The read-back ends and the low-level thread goes on without a record. */
  lemma {:induction false} AfterReadBack(s: State, r: nat) returns (steps: seq<Step>, s': State)
    requires WellFormed(s) && r < |s.recs| && s.recs[r].ll.LLock? && !s.recs[r].recP
    requires s.recs[r].mtx == Held(Init(r), 1)
    requires s.recs[r].ini.IGet? || s.recs[r].ini.IRestore? || s.recs[r].ini.IUnlock?
    ensures Run(false, s, steps, s') && r < |s'.recs|
    ensures var rec, rec' := s.recs[r], s'.recs[r];
      && rec'.results == rec.results + [-1]
      && rec'.consumed == rec.consumed + [rec.data] && rec'.written == rec.written
    decreases if s.recs[r].ini.IGet? then 2 else if s.recs[r].ini.IRestore? then 1 else 0
  {
    var s1 := Apply(s, Step(Init(r), [], 0));
    OnlyRecordMoves(s, r, s1.recs[r]);
    if s.recs[r].ini.IUnlock? {
      steps, s' := FindsNothing(s1, r);
    } else {
      steps, s' := AfterReadBack(s1, r);
    }
    Prepend(s, Init(r), steps, s');
    steps := [Step(Init(r), [], 0)] + steps;
  }

  /** While the event is hidden the read-back holds the mutex and nothing is pending. */
  lemma HiddenRecord(s: State, r: nat)
    requires Inv(true, s) && BlindWait(s, LowLevel(r))
    ensures var rec := s.recs[r];
      && rec.mtx == Held(Init(r), 1) && !rec.recP && rec.written == rec.consumed
      && (rec.ini.IGet? || rec.ini.IRestore?)
  {
    assert RecOk(true, s.recs[r], Filler(s, r));
    assert PcOf(s, LowLevel(r)) == s.recs[r].ll && PcOf(s, Init(r)) == s.recs[r].ini;
    assert DepthOf(s.recs[r].mtx, Init(r)) == Depth(Init(r), PcOf(s, Init(r)), r);
  }

  /** The low-level thread does not block. */
  lemma BlindStep(s: State, r: nat)
    requires Inv(true, s) && BlindWait(s, LowLevel(r))
    ensures Enabled(s, Step(LowLevel(r), [], 0))
    ensures Apply(s, Step(LowLevel(r), [], 0)) == WithRec(s, r, s.recs[r].(ll := LLock))
    ensures WellFormed(WithRec(s, r, s.recs[r].(ll := LLock)))
  {
    assert PcOf(s, LowLevel(r)) == s.recs[r].ll;
    assert Kind(Init(r), PcOf(s, Init(r)));
    OnlyRecordMoves(s, r, s.recs[r].(ll := LLock));
  }

  /**
    The condition on runs is needed: whenever a low-level thread gets to its wait while the event
    is hidden, a run exists in which it uses a value no record has written and in which
    `devGenVarProcComplete` returns -1.
  */
  lemma BlindWaitFails(s: State, r: nat) returns (steps: seq<Step>, s': State)
    requires Reachable(true, s) && BlindWait(s, LowLevel(r))
    ensures Run(false, s, steps, s') && r < |s'.recs|
    ensures var rec, rec' := s.recs[r], s'.recs[r];
      && rec'.results == rec.results + [-1]
      && rec'.consumed == rec'.written + [rec.data]
  {
    ReachableInv(true, s);
    HiddenRecord(s, r);
    BlindStep(s, r);
    var s1 := Apply(s, Step(LowLevel(r), [], 0));
    steps, s' := AfterReadBack(s1, r);
    Prepend(s, LowLevel(r), steps, s');
    steps := [Step(LowLevel(r), [], 0)] + steps;
  }

  /** The window exists: the read-back of any record opens it with its first two steps. */
  lemma WindowOpens(s: State, r: nat) returns (s': State)
    requires Initial(s) && r < |s.recs| && s.recs[r].ini.ILock?
    ensures Run(true, s, [Step(Init(r), [], 0), Step(Init(r), [], 0)], s')
    ensures Reachable(true, s') && BlindWait(s', LowLevel(r))
  {
    var st := Step(Init(r), [], 0);
    InitialInv(true, s);
    assert PcOf(s, Init(r)).ILock?;
    var s1 := Apply(s, st);
    StepKeepsInv(true, s, st);
    assert PcOf(s1, Init(r)).IHide?;
    s' := Apply(s1, st);
    StepKeepsInv(true, s1, st);
    var steps := [st, st];
    assert Run(true, s', [], s') && steps[1..] == [st] && [st][1..] == [];
    assert Run(true, s1, [st], s');
    assert Run(true, s, steps, s');
  }

  /** Low-level threads begin to wait only when all records have been initialised. */
  ghost predicate Patient(s: State, steps: seq<Step>)
    decreases |steps|
  {
    steps != [] && WellFormed(s) && Enabled(s, steps[0]) ==>
      && (steps[0].t.LowLevel? && PcOf(s, steps[0].t).LLoop? ==> AllInit(s))
      && Patient(Apply(s, steps[0]), steps[1..])
  }

  lemma NothingHidden(s: State, t: Thread)
    requires Inv(true, s) && AllInit(s)
    ensures !BlindWait(s, t)
  {
    if t.LowLevel? && t.r < |s.recs| {
      assert RecOk(true, s.recs[t.r], Filler(s, t.r));
    }
  }

  /** A rule which keeps clear of the window: wait only after initialisation. */
  lemma {:induction false} PatientIsCareful(s: State, steps: seq<Step>, s': State)
    requires Inv(true, s) && Run(false, s, steps, s') && Patient(s, steps)
    ensures Run(true, s, steps, s')
    decreases |steps|
  {
    if steps != [] {
      if AllInit(s) {
        NothingHidden(s, steps[0].t);
      }
      StepKeepsInv(true, s, steps[0]);
      PatientIsCareful(Apply(s, steps[0]), steps[1..], s');
    }
  }
}
