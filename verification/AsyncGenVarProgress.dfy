/**
  The asynchronous protocol comes to rest: unless forward links form a circle, every run in which no
  new scan is started ends, whatever the schedule. Where it cannot go on every record has completed.
*/
module AsyncGenVarProgress {
  import opened AsyncGenVar
  import opened AsyncGenVarSafety

  // ---------------------------------------------------------------- what is left to do

  /** The forward links of all records and a rank for each record. */
  datatype Graph = Graph(links: seq<seq<nat>>, rank: seq<nat>)

  type Net = g: Graph | |g.rank| == |g.links| witness Graph([], [])

  function Links(s: State): (links: seq<seq<nat>>)
    ensures |links| == |s.recs|
  {
    seq(|s.recs|, r requires 0 <= r < |s.recs| => s.recs[r].flnk)
  }

  /** Forward links lead to records of lower rank, or back to the record itself. */
  predicate Ordered(net: Net) {
    forall r | 0 <= r < |net.links| ::
      forall f <- net.links[r] :: f < |net.links| && (f == r || net.rank[f] < net.rank[r])
  }

  function Top(rank: seq<nat>): (n: nat)
    ensures forall k | 0 <= k < |rank| :: rank[k] < n
  {
    if rank == [] then 0
    else
      var n := Top(rank[..|rank| - 1]);
      if n <= rank[|rank| - 1] then rank[|rank| - 1] + 1 else n
  }

  /** The record whose low-level thread processes a list; a scan thread has none. */
  const NOBODY: int := -1

  /**
    The steps it takes at most to process the records of a list, counting only those of rank below `n`.
    A record on its own list has PACT set and is skipped.
  */
  function TodoCost(net: Net, self: int, n: nat, todo: seq<nat>): nat
    decreases 2 * n, |todo|
  {
    if todo == [] then 0
    else
      (if todo[0] == self then 1
       else if todo[0] < |net.links| && net.rank[todo[0]] < n then Cost(net, todo[0])
       else 0)
      + TodoCost(net, self, n, todo[1..])
  }

  /** Phase 1 of a record, and then its phase 2. */
  function Cost(net: Net, r: nat): nat
    requires r < |net.links|
    decreases 2 * net.rank[r] + 1, 0
  {
    14 + Phase2Cost(net, r)
  }

  /** What a low-level thread does for a record which waits for it. */
  function Phase2Cost(net: Net, r: nat): nat
    requires r < |net.links|
    decreases 2 * net.rank[r], |net.links[r]| + 1
  {
    14 + TodoCost(net, r, net.rank[r], net.links[r])
  }

  const WAKE_UP: nat := 6

  /** What is left of one record of a list. */
  function StageCost(net: Net, f: nat, at: Stage): nat {
    var phase2 := if f < |net.links| then Phase2Cost(net, f) else 0;
    match at
    case Next => 14 + phase2
    case Want => 13 + phase2
    case Test => 12 + phase2
    case SetRecP => 11 + phase2
    case SetPact => 10
    case Store => 9
    case Signal => 8
    case Leave => 1
  }

  /** What is left of a list. */
  function WalkCost(net: Net, self: int, todo: seq<nat>, at: Stage): nat {
    if todo == [] then 1
    else
      (if todo[0] == self then 1 else StageCost(net, todo[0], at))
      + TodoCost(net, self, Top(net.rank), todo[1..]) + 1
  }

  /** What is left of the current round of a low-level thread. */
  function Round(net: Net, r: nat, rec: Rec): nat
    requires r < |net.links|
  {
    var after := TodoCost(net, r, net.rank[r], net.links[r]);
    match rec.ll
    case LLoop => if rec.ini.IDone? then 1 else 6
    case LWait => 0
    case LLock => 5
    case LConsume => 4
    case LTest => 3
    case LRelock => 13 + after
    case LRetest => 12 + after
    case LScanLock => 11 + after
    case LNest => 10 + after
    case LPhase2 => 9 + after
    case LUnnest => 8 + after
    case Walk(todo, at) => 5 + WalkCost(net, r, todo, at)
    case LUnscan => 5
    case LClear => 4
    case LRelease(_) => 3
    case LUnlock => 2
    case _ => 0
  }

  /** A record waits for its low-level thread. */
  predicate Waits(rec: Rec) {
    rec.recP && (rec.ll.LLoop? || rec.ll.LWait? || rec.ll.LLock? || rec.ll.LConsume? || rec.ll.LTest?)
  }

  function IniCost(pc: Pc): nat {
    match pc
    case ILock => 5
    case IHide => 4
    case IGet => 3
    case IRestore => 2
    case IUnlock => 1
    case _ => 0
  }

  function RecCost(net: Net, r: nat, rec: Rec): nat
    requires r < |net.links|
  {
    Round(net, r, rec)
    + (if Waits(rec) then Phase2Cost(net, r) else 0)
    + (if rec.full then WAKE_UP else 0)
    + IniCost(rec.ini)
  }

  function ScanCost(net: Net, pc: Pc): nat {
    match pc
    case SWant(todo) => TodoCost(net, NOBODY, Top(net.rank), todo) + 2
    case Walk(todo, at) => WalkCost(net, NOBODY, todo, at)
    case _ => 0
  }

  function RecsCost(net: Net, recs: seq<Rec>): nat
    requires |recs| <= |net.links|
  {
    if recs == [] then 0
    else RecsCost(net, recs[..|recs| - 1]) + RecCost(net, |recs| - 1, recs[|recs| - 1])
  }

  function ScansCost(net: Net, scans: seq<Pc>): nat {
    if scans == [] then 0 else ScansCost(net, scans[..|scans| - 1]) + ScanCost(net, scans[|scans| - 1])
  }

  /** More than the steps which all threads together still make without a new scan. */
  function Work(net: Net, s: State): nat
    requires |s.recs| <= |net.links|
  {
    RecsCost(net, s.recs) + ScansCost(net, s.scans)
  }

  // ---------------------------------------------------------------- one thread moves

  lemma {:induction false} OneRec(net: Net, recs: seq<Rec>, r: nat, rec: Rec)
    requires r < |recs| <= |net.links|
    ensures RecsCost(net, recs[r := rec]) + RecCost(net, r, recs[r]) == RecsCost(net, recs) + RecCost(net, r, rec)
  {
    var n := |recs| - 1;
    if r == n {
      assert recs[r := rec][..n] == recs[..n];
    } else {
      assert recs[r := rec][..n] == recs[..n][r := rec];
      OneRec(net, recs[..n], r, rec);
    }
  }

  lemma {:induction false} OneScan(net: Net, scans: seq<Pc>, i: nat, pc: Pc)
    requires i < |scans|
    ensures ScansCost(net, scans[i := pc]) + ScanCost(net, scans[i]) == ScansCost(net, scans) + ScanCost(net, pc)
  {
    var n := |scans| - 1;
    if i == n {
      assert scans[i := pc][..n] == scans[..n];
    } else {
      assert scans[i := pc][..n] == scans[..n][i := pc];
      OneScan(net, scans[..n], i, pc);
    }
  }

  /** The cost of a list does not depend on a bound above its records. */
  lemma {:induction false} AnyBound(net: Net, self: int, n: nat, m: nat, todo: seq<nat>)
    requires forall f <- todo :: f == self || (f < |net.links| && net.rank[f] < n && net.rank[f] < m)
    ensures TodoCost(net, self, n, todo) == TodoCost(net, self, m, todo)
  {
    if todo != [] {
      assert todo[0] in todo && forall f <- todo[1..] :: f in todo;
      AnyBound(net, self, n, m, todo[1..]);
    }
  }

  lemma WalkBegins(net: Net, self: int, todo: seq<nat>)
    requires InRange(todo, |net.links|)
    ensures WalkCost(net, self, todo, Next) == TodoCost(net, self, Top(net.rank), todo) + 1
  {
    if todo != [] {
      assert todo[0] in todo;
    }
  }

  /** The low-level thread of a record goes on outside its critical section or at its edges, */
  lemma OuterCounts(net: Net, r: nat, rec: Rec)
    requires r < |net.links|
    requires rec.ll.LLoop? || rec.ll.LWait? || rec.ll.LLock? || rec.ll.LConsume? || rec.ll.LTest? || rec.ll.LUnlock?
    requires rec.ll.LWait? ==> rec.full
    requires rec.ll.LUnlock? ==> rec.ini.IDone? && !rec.recP
    requires rec.hidden ==> !rec.ini.IDone?
    ensures RecCost(net, r, LowLevelMove(rec, LowLevel(r))) < RecCost(net, r, rec)
  {
  }

  /** begins phase 2 of the record, */
  lemma InnerCounts(net: Net, r: nat, rec: Rec)
    requires r < |net.links|
    requires rec.ll.LRelock? || rec.ll.LRetest? || rec.ll.LScanLock? || rec.ll.LNest? || rec.ll.LPhase2?
    requires rec.ll.LRetest? ==> rec.recP
    ensures RecCost(net, r, LowLevelMove(rec, LowLevel(r))) < RecCost(net, r, rec)
  {
  }

  /** or ends it. */
  lemma FinalCounts(net: Net, r: nat, rec: Rec)
    requires r < |net.links| && (rec.ll.LUnscan? || rec.ll.LClear? || rec.ll.LRelease?)
    ensures RecCost(net, r, LowLevelMove(rec, LowLevel(r))) < RecCost(net, r, rec)
  {
  }

  /** In between it follows the forward links. */
  lemma ForwardCounts(net: Net, r: nat, rec: Rec)
    requires r < |net.links| && net.links[r] == rec.flnk && Ordered(net) && rec.ll.LUnnest?
    ensures RecCost(net, r, LowLevelMove(rec, LowLevel(r))) < RecCost(net, r, rec)
  {
    assert InRange(rec.flnk, |net.links|);
    WalkBegins(net, r, rec.flnk);
    AnyBound(net, r, net.rank[r], Top(net.rank), rec.flnk);
  }

  lemma LowLevelCounts(net: Net, r: nat, rec: Rec)
    requires r < |net.links| && net.links[r] == rec.flnk && Ordered(net)
    requires Kind(LowLevel(r), rec.ll) && !rec.ll.Walk?
    requires rec.ll.LWait? ==> rec.full
    requires rec.ll.LRetest? ==> rec.recP
    requires rec.ll.LUnlock? ==> rec.ini.IDone? && !rec.recP
    requires rec.hidden ==> !rec.ini.IDone?
    ensures RecCost(net, r, LowLevelMove(rec, LowLevel(r))) < RecCost(net, r, rec)
  {
    if rec.ll.LUnnest? {
      ForwardCounts(net, r, rec);
    } else if rec.ll.LUnscan? || rec.ll.LClear? || rec.ll.LRelease? {
      FinalCounts(net, r, rec);
    } else if rec.ll.LRelock? || rec.ll.LRetest? || rec.ll.LScanLock? || rec.ll.LNest? || rec.ll.LPhase2? {
      InnerCounts(net, r, rec);
    } else {
      OuterCounts(net, r, rec);
    }
  }

  lemma LowLevelStepCounts(net: Net, s: State, r: nat)
    requires Inv(false, s) && r < |s.recs| && net.links == Links(s) && Ordered(net)
    requires !s.recs[r].ll.Walk? && Enabled(s, Step(LowLevel(r), [], 0))
    ensures Work(net, LowLevelStep(s, r)) < Work(net, s)
  {
    var t := LowLevel(r);
    assert PcOf(s, t) == s.recs[r].ll && Kind(t, PcOf(s, t));
    assert RecOk(false, s.recs[r], Filler(s, r));
    RoundFacts(s, r);
    LowLevelCounts(net, r, s.recs[r]);
    OneRec(net, s.recs, r, LowLevelMove(s.recs[r], t));
  }

  lemma RoundFacts(s: State, r: nat)
    requires Inv(false, s) && r < |s.recs|
    ensures s.recs[r].ll.LRetest? ==> s.recs[r].recP
    ensures s.recs[r].ll.LUnlock? ==> s.recs[r].ini.IDone? && !s.recs[r].recP
    ensures s.recs[r].hidden ==> !s.recs[r].ini.IDone?
  {
    assert RecOk(false, s.recs[r], Filler(s, r));
    assert PcOf(s, LowLevel(r)) == s.recs[r].ll && PcOf(s, Init(r)) == s.recs[r].ini;
    assert Kind(Init(r), PcOf(s, Init(r)));
    assert DepthOf(s.recs[r].mtx, LowLevel(r)) == Depth(LowLevel(r), PcOf(s, LowLevel(r)), r);
    assert DepthOf(s.recs[r].mtx, Init(r)) == Depth(Init(r), PcOf(s, Init(r)), r);
  }

  lemma InitStepCounts(net: Net, s: State, r: nat)
    requires Inv(false, s) && r < |s.recs| && net.links == Links(s) && Enabled(s, Step(Init(r), [], 0))
    ensures Work(net, InitStep(s, r)) < Work(net, s)
  {
    var rec := InitStep(s, r).recs[r];
    assert PcOf(s, Init(r)) == s.recs[r].ini && Kind(Init(r), PcOf(s, Init(r)));
    assert RecOk(false, s.recs[r], Filler(s, r));
    InitLocal(net, r, s.recs[r], rec);
    assert InitStep(s, r).recs == s.recs[r := rec] && InitStep(s, r).scans == s.scans;
    OneRec(net, s.recs, r, rec);
  }

  lemma InitLocal(net: Net, r: nat, rec: Rec, rec': Rec)
    requires r < |net.links| && IniCost(rec'.ini) < IniCost(rec.ini)
    requires rec'.ll == rec.ll && rec'.recP == rec.recP && rec'.full == rec.full
    ensures RecCost(net, r, rec') < RecCost(net, r, rec)
  {
  }

  lemma ScanStepCounts(net: Net, s: State, i: nat)
    requires Inv(false, s) && i < |s.scans| && net.links == Links(s) && s.scans[i].SWant?
    ensures Work(net, ScanStep(s, i, [])) < Work(net, s)
  {
    var todo := s.scans[i].todo;
    assert PcOf(s, Scan(i)) == s.scans[i] && PcOk(PcOf(s, Scan(i)), |s.recs|);
    WalkBegins(net, NOBODY, todo);
    OneScan(net, s.scans, i, Walk(todo, Next));
  }

  // ---------------------------------------------------------------- processing a list

  /** A record at the head of a list gains at most what its walker loses. */
  lemma HeadCounts(net: Net, f: nat, rec: Rec, t: Thread, at: Stage, v: int)
    requires f < |net.links| && (at.SetRecP? ==> rec.ll.LLoop? || rec.ll.LWait? || rec.ll.LLock?)
    ensures RecCost(net, f, HeadStep(rec, t, at, v)) <=
      RecCost(net, f, rec) + (if at.SetRecP? then Phase2Cost(net, f) else if at.Signal? then WAKE_UP else 0)
  {
  }

  lemma WalkerCounts(net: Net, self: int, rec: Rec, todo: seq<nat>, at: Stage)
    requires todo != [] && todo[0] < |net.links| && InRange(todo, |net.links|)
    requires todo[0] == self ==> at.Next? && rec.pact
    ensures var pc := NextPc(rec, todo, at);
      WalkCost(net, self, pc.todo, pc.at)
      + (if at.SetRecP? then Phase2Cost(net, todo[0]) else if at.Signal? then WAKE_UP else 0)
      < WalkCost(net, self, todo, at)
  {
    if at.Leave? || (at.Next? && rec.pact) {
      assert forall f <- todo[1..] :: f in todo;
      WalkBegins(net, self, todo[1..]);
    }
  }

  function SelfOf(t: Thread): int {
    if t.LowLevel? then t.r else NOBODY
  }

  /** What a thread which processes a list still has to do there. */
  lemma MoverCounts(net: Net, s: State, t: Thread, pc: Pc)
    requires |s.recs| <= |net.links| && Exists(s, t) && !t.Init? && PcOf(s, t).Walk? && pc.Walk?
    ensures Work(net, SetPc(s, t, pc)) + WalkCost(net, SelfOf(t), PcOf(s, t).todo, PcOf(s, t).at)
         == Work(net, s) + WalkCost(net, SelfOf(t), pc.todo, pc.at)
  {
    match t
    case LowLevel(r) => OneRec(net, s.recs, r, s.recs[r].(ll := pc));
    case Scan(i) => OneScan(net, s.scans, i, pc);
  }

  lemma SameSize(s: State, t: Thread, v: int)
    requires Exists(s, t) && PcOf(s, t).Walk? && PcOk(PcOf(s, t), |s.recs|)
    ensures |WalkStep(s, t, v).recs| == |s.recs|
  {
    if PcOf(s, t).todo != [] {
      assert PcOf(s, t).todo[0] in PcOf(s, t).todo;
    }
  }

  lemma WalkStepCounts(net: Net, s: State, t: Thread, v: int)
    requires CanWalk(false, s, t) && net.links == Links(s) && PcOf(s, t).todo != [] && PcOk(PcOf(s, t), |s.recs|)
    ensures |WalkStep(s, t, v).recs| == |s.recs| && Work(net, WalkStep(s, t, v)) < Work(net, s)
  {
    var Walk(todo, at) := PcOf(s, t);
    var f := todo[0];
    assert f in todo && Kind(t, PcOf(s, t));
    SameSize(s, t, v);
    HeadReady(s, t);
    WalkShape(s, t, v);
    var rec := HeadStep(s.recs[f], t, at, v);
    var w := WithRec(s, f, rec);
    OneRec(net, s.recs, f, rec);
    HeadCounts(net, f, s.recs[f], t, at, v);
    assert PcOf(w, t) == PcOf(s, t);
    MoverCounts(net, w, t, NextPc(s.recs[f], todo, at));
    WalkerCounts(net, SelfOf(t), s.recs[f], todo, at);
  }

  lemma HeadReady(s: State, t: Thread)
    requires CanWalk(false, s, t) && PcOf(s, t).todo != [] && PcOf(s, t).todo[0] < |s.recs|
    ensures var rec, at := s.recs[PcOf(s, t).todo[0]], PcOf(s, t).at;
      && (at.Test? ==> !rec.pact && !rec.recP)
      && (at.SetRecP? ==> rec.ll.LLoop? || rec.ll.LWait? || rec.ll.LLock?)
      && (t == LowLevel(PcOf(s, t).todo[0]) ==> at.Next? && rec.pact)
  {
    var f := PcOf(s, t).todo[0];
    if !PcOf(s, t).at.Next? {
      HeadRec(false, s, t);
    }
    assert RecOk(false, s.recs[f], Filler(s, f));
  }

  lemma WalkEndCounts(net: Net, s: State, t: Thread, v: int)
    requires CanWalk(false, s, t) && net.links == Links(s) && PcOf(s, t).todo == [] && PcOk(PcOf(s, t), |s.recs|)
    ensures |WalkStep(s, t, v).recs| == |s.recs| && Work(net, WalkStep(s, t, v)) < Work(net, s)
  {
    assert Kind(t, PcOf(s, t));
    match t
    case LowLevel(r) =>
      var rec := s.recs[r].(pact := false, ll := LUnscan);
      assert WalkStep(s, t, v) == WithRec(s, r, rec);
      assert s.recs[r].ll == PcOf(s, t);
      OneRec(net, s.recs, r, rec);
    case Scan(i) =>
      assert s.scans[i] == PcOf(s, t);
      OneScan(net, s.scans, i, SIdle);
  }

  // ---------------------------------------------------------------- every run ends

  /** Every step but the start of a scan leaves less to do. */
  lemma EveryStepCounts(net: Net, s: State, st: Step)
    requires Inv(false, s) && Enabled(s, st) && !PcOf(s, st.t).SIdle? && net.links == Links(s) && Ordered(net)
    ensures |Apply(s, st).recs| == |s.recs| && Work(net, Apply(s, st)) < Work(net, s)
  {
    var t := st.t;
    assert Kind(t, PcOf(s, t)) && PcOk(PcOf(s, t), |s.recs|);
    if PcOf(s, t).Walk? {
      SameSize(s, t, st.v);
      if PcOf(s, t).todo == [] {
        WalkEndCounts(net, s, t, st.v);
      } else {
        WalkStepCounts(net, s, t, st.v);
      }
    } else {
      match t
      case LowLevel(r) => LowLevelStepCounts(net, s, r);
      case Init(r) => InitStepCounts(net, s, r);
      case Scan(i) => ScanStepCounts(net, s, i);
    }
  }

  /** No scan is started. */
  ghost predicate NoNewScan(s: State, steps: seq<Step>)
    decreases |steps|
  {
    steps != [] && WellFormed(s) && Enabled(s, steps[0]) ==>
      !PcOf(s, steps[0].t).SIdle? && NoNewScan(Apply(s, steps[0]), steps[1..])
  }

  lemma LinksStay(s: State, st: Step)
    requires Inv(false, s) && Enabled(s, st)
    ensures Links(Apply(s, st)) == Links(s)
  {
    assert Kind(st.t, PcOf(s, st.t)) && PcOk(PcOf(s, st.t), |s.recs|);
    var s' := Apply(s, st);
    if PcOf(s, st.t).Walk? {
      SameSize(s, st.t, st.v);
    }
    forall r | 0 <= r < |s.recs|
      ensures s'.recs[r].flnk == s.recs[r].flnk
    {
      if PcOf(s, st.t).Walk? {
        WalkKeepsLinks(s, st.t, st.v, r);
      } else if st.t == LowLevel(r) {
        LowLevelFrame(s.recs[r], st.t);
      }
    }
  }

  lemma WalkKeepsLinks(s: State, t: Thread, v: int, r: nat)
    requires CanWalk(false, s, t) && PcOk(PcOf(s, t), |s.recs|) && r < |s.recs|
    ensures |WalkStep(s, t, v).recs| == |s.recs| && WalkStep(s, t, v).recs[r].flnk == s.recs[r].flnk
  {
    SameSize(s, t, v);
    if PcOf(s, t).todo != [] {
      assert PcOf(s, t).todo[0] in PcOf(s, t).todo;
      HeadReady(s, t);
      WalkHasEffect(s, t, v);
      HeadLinks(s.recs[PcOf(s, t).todo[0]], t, PcOf(s, t).at, v);
    }
  }

  lemma HeadLinks(rec: Rec, t: Thread, at: Stage, v: int)
    ensures HeadStep(rec, t, at, v).flnk == rec.flnk
  {
  }

  /**
    If forward links do not form a circle, a run without new scans has fewer steps than there was
    work when it began, whatever the schedule.
  */
  lemma {:induction false} EveryRunEnds(net: Net, s: State, steps: seq<Step>, s': State)
    requires Inv(false, s) && Run(false, s, steps, s') && NoNewScan(s, steps)
    requires net.links == Links(s) && Ordered(net)
    ensures |s'.recs| == |s.recs| && Work(net, s') + |steps| <= Work(net, s)
    decreases |steps|
  {
    if steps != [] {
      EveryStepCounts(net, s, steps[0]);
      LinksStay(s, steps[0]);
      StepKeepsInv(false, s, steps[0]);
      EveryRunEnds(net, Apply(s, steps[0]), steps[1..], s');
    }
  }

  /** Nobody can go on except by starting a scan. */
  ghost predicate AtRest(s: State) {
    forall st: Step :: Enabled(s, st) ==> PcOf(s, st.t).SIdle?
  }

  /** A record has gone through phase 2, and nobody holds a lock. */
  predicate Completed(s: State, r: nat)
    requires r < |s.recs|
  {
    var rec := s.recs[r];
    && !rec.pact && !rec.recP && !rec.full
    && rec.mtx.Free? && rec.ll.LWait? && rec.ini.IDone? && s.scanLock.Free?
  }

  lemma RestCompletes(s: State, r: nat)
    requires Inv(false, s) && AtRest(s) && r < |s.recs|
    ensures Completed(s, r)
  {
    NoScanLockAtRest(s);
    RestOfRecord(s, r);
  }

  /**
    Without a circle of forward links every run which goes on as long as it can without new scans is
    finite and ends with every record completed.
  */
  lemma EveryRunCompletes(net: Net, s: State, steps: seq<Step>, s': State, r: nat)
    requires Reachable(false, s) && Run(false, s, steps, s') && NoNewScan(s, steps) && AtRest(s')
    requires net.links == Links(s) && Ordered(net) && r < |s'.recs|
    ensures |steps| <= Work(net, s) && Completed(s', r)
  {
    ReachableInv(false, s);
    EveryRunEnds(net, s, steps, s');
    RunKeepsInv(false, s, steps, s');
    RestCompletes(s', r);
  }
}
