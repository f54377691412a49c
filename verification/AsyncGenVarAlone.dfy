/**
  What one scan and one wake-up of a low-level thread do to the whole state when no other thread moves
  in between: their many steps together are one simple change of the records.
*/
module AsyncGenVarAlone {
  import opened AsyncGenVar
  import opened AsyncGenVarSafety
  import opened AsyncGenVarProgress

  /** Phase 1 of a record which writes `v`; a record with PACT set is skipped. */
  function AfterPut(rec: Rec, v: int): Rec {
    if rec.pact then rec
    else rec.(pact := true, recP := true, full := true, data := v, written := rec.written + [v])
  }

  /** What is left of phase 1 at `at`. */
  function Finished(rec: Rec, t: Thread, at: Stage, v: int): Rec {
    var marked := at.Store? || at.Signal? || at.Leave?;
    var stored := at.Signal? || at.Leave?;
    rec.(recP := rec.recP || at.Want? || at.Test? || at.SetRecP?,
         pact := rec.pact || !marked,
         data := if stored then rec.data else v,
         written := if stored then rec.written else rec.written + [v],
         full := rec.full || (!at.Leave? && !rec.hidden),
         mtx := Unlock(if at.Want? then Lock(rec.mtx, t) else rec.mtx))
  }

  /** Nothing but the records and the program point of `t` has changed. */
  ghost predicate Quiet(s: State, s': State, t: Thread) {
    && |s'.recs| == |s.recs| && |s'.scans| == |s.scans|
    && s'.scanLock == s.scanLock && s'.conflict == s.conflict
    && forall u: Thread | u != t :: PcOf(s', u) == PcOf(s, u)
  }

  /** The records are these, apart from the program points. */
  predicate Becomes(rec': Rec, rec: Rec) {
    rec' == rec.(ll := rec'.ll, ini := rec'.ini)
  }

  /** Only record `f` has changed, into `rec`. */
  ghost predicate OnlyHead(s: State, s': State, t: Thread, f: nat, rec: Rec) {
    && Quiet(s, s', t) && f < |s.recs| && Becomes(s'.recs[f], rec)
    && forall q: nat | q < |s.recs| && q != f :: Becomes(s'.recs[q], s.recs[q])
  }

  lemma FinishedStep(rec: Rec, t: Thread, at: Stage, v: int)
    requires !at.Next? && !at.Leave?
    ensures Finished(HeadStep(rec, t, at, v), t, Following(at), v) == Finished(rec, t, at, v)
  {
  }

  lemma FinishedLast(rec: Rec, t: Thread, v: int)
    ensures Finished(rec, t, Leave, v) == HeadStep(rec, t, Leave, v)
  {
  }

  lemma SameFinish(rec': Rec, a: Rec, b: Rec, t: Thread, at: Stage, v: int)
    requires Becomes(a, b) && Becomes(rec', Finished(a, t, at, v))
    ensures Becomes(rec', Finished(b, t, at, v))
  {
  }

  lemma HeadTwice(s: State, s1: State, s': State, t: Thread, f: nat, rec: Rec, rec': Rec)
    requires OnlyHead(s, s1, t, f, rec) && OnlyHead(s1, s', t, f, rec')
    ensures OnlyHead(s, s', t, f, rec')
  {
  }

  lemma StepThenRest(s: State, s1: State, s': State, t: Thread, f: nat, at: Stage, v: int)
    requires f < |s.recs| == |s1.recs| && !at.Next? && !at.Leave?
    requires OnlyHead(s, s1, t, f, HeadStep(s.recs[f], t, at, v))
    requires OnlyHead(s1, s', t, f, Finished(s1.recs[f], t, Following(at), v))
    ensures OnlyHead(s, s', t, f, Finished(s.recs[f], t, at, v))
  {
    FinishedStep(s.recs[f], t, at, v);
    SameFinish(s'.recs[f], s1.recs[f], HeadStep(s.recs[f], t, at, v), t, Following(at), v);
    HeadTwice(s, s1, s', t, f, HeadStep(s.recs[f], t, at, v), Finished(s.recs[f], t, at, v));
  }

  /** A step on the record at the head of the list. */
  lemma HeadMoves(s: State, t: Thread, v: int) returns (s': State)
    requires CanWalk(false, s, t) && PcOf(s, t).todo != []
    ensures var Walk(todo, at) := PcOf(s, t);
      && Enabled(s, Step(t, [], v)) && s' == Apply(s, Step(t, [], v)) && Inv(false, s') && Exists(s', t)
      && todo[0] < |s.recs| && OnlyHead(s, s', t, todo[0], HeadStep(s.recs[todo[0]], t, at, v))
      && PcOf(s', t) == NextPc(s.recs[todo[0]], todo, at)
  {
    assert PcOf(s, t).todo[0] in PcOf(s, t).todo;
    HeadReady(s, t);
    WalkHasEffect(s, t, v);
    s' := Apply(s, Step(t, [], v));
    StepKeepsInv(false, s, Step(t, [], v));
  }

  /** From inside phase 1 to its end. */
  lemma {:induction false} RestOfPut(s: State, t: Thread, v: int) returns (steps: seq<Step>, s': State)
    requires CanWalk(false, s, t) && PcOf(s, t).todo != [] && !PcOf(s, t).at.Next?
    ensures Run(false, s, steps, s') && Inv(false, s') && Exists(s', t)
    ensures var Walk(todo, at) := PcOf(s, t);
      && todo[0] < |s.recs| && OnlyHead(s, s', t, todo[0], Finished(s.recs[todo[0]], t, at, v))
      && PcOf(s', t) == Walk(todo[1..], Next)
    decreases StageCost(Graph([], []), 0, PcOf(s, t).at)
  {
    var Walk(todo, at) := PcOf(s, t);
    var s1 := HeadMoves(s, t, v);
    steps, s' := [], s1;
    if at.Leave? {
      FinishedLast(s.recs[todo[0]], t, v);
    } else {
      steps, s' := RestOfPut(s1, t, v);
      StepThenRest(s, s1, s', t, todo[0], at, v);
    }
    steps := [Step(t, [], v)] + steps;
    InFront(s, Step(t, [], v), s1, steps[1..], s');
  }

  lemma InFront(s: State, st: Step, s1: State, rest: seq<Step>, s': State)
    requires WellFormed(s) && Enabled(s, st) && s1 == Apply(s, st) && Run(false, s1, rest, s')
    ensures Run(false, s, [st] + rest, s')
  {
    assert ([st] + rest)[1..] == rest;
  }

  /** Phase 1 of a record which is not in process and whose mutex is free. */
  lemma WholePut(s: State, f: nat, rec: Rec, t: Thread, v: int)
    requires Inv(false, s) && AllInit(s) && f < |s.recs| && !s.recs[f].pact && s.recs[f].mtx.Free?
    requires Becomes(rec, s.recs[f])
    ensures Finished(rec, t, Want, v) == AfterPut(rec, v)
  {
    LowLevelIsOutside(false, s, f);
  }

  /** The record at the head of a list is skipped or goes through phase 1. */
  lemma HeadAlone(s: State, t: Thread, v: int) returns (steps: seq<Step>, s': State)
    requires CanWalk(false, s, t) && PcOf(s, t).todo != [] && PcOf(s, t).at.Next?
    requires var f := PcOf(s, t).todo[0]; f < |s.recs| && (s.recs[f].pact || s.recs[f].mtx.Free?)
    ensures Run(false, s, steps, s') && Inv(false, s') && Exists(s', t)
    ensures var todo := PcOf(s, t).todo;
      && OnlyHead(s, s', t, todo[0], AfterPut(s.recs[todo[0]], v))
      && PcOf(s', t) == Walk(todo[1..], Next)
  {
    var f := PcOf(s, t).todo[0];
    var s1 := HeadMoves(s, t, v);
    steps, s' := [], s1;
    if !s.recs[f].pact {
      assert AllInit(s);
      assert s1.recs[f].mtx.Free?;
      steps, s' := RestOfPut(s1, t, v);
      WholePut(s, f, s1.recs[f], t, v);
    }
    steps := [Step(t, [], v)] + steps;
    InFront(s, Step(t, [], v), s1, steps[1..], s');
  }

  /** Records of a list are not in process, or skipped. */
  predicate Ready(recs: seq<Rec>, todo: seq<nat>) {
    forall f <- todo :: f < |recs| && (recs[f].pact || recs[f].mtx.Free?)
  }

  /** Every record of the list has been through phase 1 or was skipped, and nothing else has changed. */
  ghost predicate Processed(s: State, s': State, t: Thread, todo: seq<nat>, vs: seq<int>)
    requires |vs| == |s.recs|
  {
    && Quiet(s, s', t)
    && forall q: nat | q < |s.recs| ::
         Becomes(s'.recs[q], if q in todo then AfterPut(s.recs[q], vs[q]) else s.recs[q])
  }

  lemma HeadThenRest(s: State, s1: State, s': State, t: Thread, todo: seq<nat>, vs: seq<int>)
    requires |vs| == |s.recs| == |s1.recs| && todo != [] && todo[0] < |s.recs|
    requires OnlyHead(s, s1, t, todo[0], AfterPut(s.recs[todo[0]], vs[todo[0]]))
    requires Processed(s1, s', t, todo[1..], vs)
    ensures Processed(s, s', t, todo, vs)
  {
    forall q: nat | q < |s.recs|
      ensures Becomes(s'.recs[q], if q in todo then AfterPut(s.recs[q], vs[q]) else s.recs[q])
    {
      assert q in todo <==> q == todo[0] || q in todo[1..];
    }
  }

  /** A list is processed from its head to its end. */
  lemma {:induction false} ListAlone(s: State, t: Thread, vs: seq<int>) returns (steps: seq<Step>, s': State)
    requires CanWalk(false, s, t) && PcOf(s, t).at.Next? && Ready(s.recs, PcOf(s, t).todo) && |vs| == |s.recs|
    ensures Run(false, s, steps, s') && Inv(false, s') && Exists(s', t)
    ensures PcOf(s', t) == Walk([], Next) && Processed(s, s', t, PcOf(s, t).todo, vs)
    decreases |PcOf(s, t).todo|
  {
    var todo := PcOf(s, t).todo;
    if todo == [] {
      steps, s' := [], s;
    } else {
      assert todo[0] in todo && forall f <- todo[1..] :: f in todo;
      var p, s1 := HeadAlone(s, t, vs[todo[0]]);
      var q, m := ListAlone(s1, t, vs);
      HeadThenRest(s, s1, m, t, todo, vs);
      OneAfterOther(s, p, s1, q, m);
      steps, s' := p + q, m;
    }
  }

  lemma Regroup(p: seq<Step>, q: seq<Step>)
    requires p != []
    ensures [p[0]] + (p[1..] + q) == p + q
  {
  }

  lemma {:induction false} OneAfterOther(s: State, p: seq<Step>, m: State, q: seq<Step>, s': State)
    requires Run(false, s, p, m) && Run(false, m, q, s')
    ensures Run(false, s, p + q, s')
    decreases |p|
  {
    if p == [] {
      assert p + q == q;
    } else {
      OneAfterOther(Apply(s, p[0]), p[1..], m, q, s');
      InFront(s, p[0], Apply(s, p[0]), p[1..] + q, s');
      Regroup(p, q);
    }
  }

  /** The records after a list has been processed. */
  function AfterList(recs: seq<Rec>, todo: seq<nat>, vs: seq<int>): (recs': seq<Rec>)
    requires |vs| == |recs|
    ensures |recs'| == |recs|
  {
    seq(|recs|, q requires 0 <= q < |recs| => if q in todo then AfterPut(recs[q], vs[q]) else recs[q])
  }

  lemma SamePcs(s: State, s': State, t: Thread, todo: seq<nat>, vs: seq<int>)
    requires |vs| == |s.recs| && Processed(s, s', t, todo, vs) && t.Scan? && t.i < |s.scans|
    ensures s' == s.(recs := AfterList(s.recs, todo, vs), scans := s.scans[t.i := s'.scans[t.i]])
  {
    forall q: nat | q < |s.recs| ensures s'.recs[q] == AfterList(s.recs, todo, vs)[q] {
      assert PcOf(s', LowLevel(q)) == PcOf(s, LowLevel(q)) && PcOf(s', Init(q)) == PcOf(s, Init(q));
    }
    forall i: nat | i < |s.scans| && i != t.i ensures s'.scans[i] == s.scans[i] {
      assert PcOf(s', Scan(i)) == PcOf(s, Scan(i));
    }
  }

  /** A scan thread takes the lock of the lock set. */
  lemma ScanStarts(s: State, i: nat, todo: seq<nat>) returns (steps: seq<Step>, s': State)
    requires Inv(false, s) && AllInit(s) && i < |s.scans| && s.scans[i].SIdle? && s.scanLock.Free?
    requires InRange(todo, |s.recs|)
    ensures Run(false, s, steps, s') && CanWalk(false, s', Scan(i)) && PcOf(s', Scan(i)) == Walk(todo, Next)
    ensures s' == s.(scans := s.scans[i := Walk(todo, Next)], scanLock := Held(Scan(i), 1))
  {
    var t, st := Scan(i), Step(Scan(i), todo, 0);
    assert PcOf(s, t).SIdle?;
    var s1 := Apply(s, st);
    StepKeepsInv(false, s, st);
    assert PcOf(s1, t) == SWant(todo);
    s' := Apply(s1, st);
    StepKeepsInv(false, s1, st);
    assert PcOf(s', t) == Walk(todo, Next);
    InFront(s1, st, s', [], s');
    InFront(s, st, s1, [st] + [], s');
    steps := [st] + ([st] + []);
  }

  /** And gives it back. */
  lemma ScanEnds(s: State, i: nat) returns (steps: seq<Step>, s': State)
    requires Inv(false, s) && i < |s.scans| && s.scans[i] == Walk([], Next)
    ensures Run(false, s, steps, s') && s' == s.(scans := s.scans[i := SIdle], scanLock := Free)
  {
    var t, st := Scan(i), Step(Scan(i), [], 0);
    assert PcOf(s, t) == Walk([], Next);
    assert DepthOf(s.scanLock, t) == 1;
    s' := Apply(s, st);
    InFront(s, st, s', [], s');
    steps := [st] + [];
  }

  /**
    A scan of any list of records: each record of the list which was not in process has been written once
    with its value, has PACT set and its event full; everything else is as it was, and the thread is idle.
  */
  lemma ScanAlone(s: State, i: nat, todo: seq<nat>, vs: seq<int>) returns (steps: seq<Step>)
    requires Inv(false, s) && AllInit(s) && i < |s.scans| && s.scans[i].SIdle? && s.scanLock.Free?
    requires Ready(s.recs, todo) && |vs| == |s.recs|
    ensures Run(false, s, steps, s.(recs := AfterList(s.recs, todo, vs)))
  {
    var p1, s1 := ScanStarts(s, i, todo);
    var p2, s2 := ListAlone(s1, Scan(i), vs);
    SamePcs(s1, s2, Scan(i), todo, vs);
    assert PcOf(s2, Scan(i)) == s2.scans[i];
    var p3, s3 := ScanEnds(s2, i);
    assert s3.scans == s.scans;
    OneAfterOther(s1, p2, s2, p3, s3);
    OneAfterOther(s, p1, s1, p2 + p3, s3);
    steps := p1 + (p2 + p3);
  }

  // ---------------------------------------------------------------- a wake-up

  predicate BeforeWalk(pc: Pc) {
    pc.LWait? || pc.LLock? || pc.LConsume? || pc.LTest? || pc.LRelock? || pc.LRetest? || pc.LScanLock? || pc.LNest?
    || pc.LPhase2? || pc.LUnnest?
  }

  function ToWalk(pc: Pc): nat {
    match pc
    case LWait => 10
    case LLock => 9
    case LConsume => 8
    case LTest => 7
    case LRelock => 6
    case LRetest => 5
    case LScanLock => 4
    case LNest => 3
    case LPhase2 => 2
    case _ => 1
  }

  /** The record of a low-level thread which has got to the forward links. */
  function AtLinks(rec: Rec, t: Thread): Rec {
    var consuming := rec.ll.LWait? || rec.ll.LLock? || rec.ll.LConsume?;
    rec.(full := rec.full && !rec.ll.LWait?,
         consumed := if consuming then rec.consumed + [rec.data] else rec.consumed,
         mtx := Held(t, 2), ll := Walk(rec.flnk, Next))
  }

  /** A low-level thread on its way to the forward links is not blocked. */
  lemma NotBlocked(s: State, r: nat)
    requires Inv(false, s) && r < |s.recs| && BeforeWalk(s.recs[r].ll) && s.recs[r].recP
    requires s.recs[r].ll.LWait? ==> s.recs[r].full
    requires s.recs[r].ll.LLock? ==> s.recs[r].mtx.Free?
    requires s.recs[r].ll.LScanLock? ==> s.scanLock.Free?
    ensures Enabled(s, Step(LowLevel(r), [], 0))
    ensures Apply(s, Step(LowLevel(r), [], 0)) == LowLevelStep(s, r)
    ensures Inv(false, LowLevelStep(s, r))
  {
    var t := LowLevel(r);
    assert PcOf(s, t) == s.recs[r].ll;
    assert DepthOf(s.recs[r].mtx, t) == Depth(t, PcOf(s, t), r);
    StepKeepsInv(false, s, Step(t, [], 0));
  }

  lemma AtLinksStep(rec: Rec, t: Thread)
    requires t.LowLevel? && BeforeWalk(rec.ll) && !rec.ll.LUnnest? && rec.recP
    ensures AtLinks(LowLevelMove(rec, t), t) == AtLinks(rec, t) && LowLevelMove(rec, t).recP
    ensures ToWalk(LowLevelMove(rec, t).ll) < ToWalk(rec.ll) && BeforeWalk(LowLevelMove(rec, t).ll)
  {
  }

  /** From the event to the forward links. */
  lemma {:induction false} UpToLinks(s: State, r: nat) returns (steps: seq<Step>, s': State)
    requires Inv(false, s) && r < |s.recs| && BeforeWalk(s.recs[r].ll) && s.recs[r].recP
    requires s.recs[r].ll.LWait? ==> s.recs[r].full
    requires s.recs[r].ll.LWait? || s.recs[r].ll.LLock? ==> s.recs[r].mtx.Free?
    requires s.recs[r].ll.LNest? || s.recs[r].ll.LPhase2? || s.recs[r].ll.LUnnest? || s.scanLock.Free?
    ensures Run(false, s, steps, s') && Inv(false, s')
    ensures s' == s.(recs := s.recs[r := AtLinks(s.recs[r], LowLevel(r))], scanLock := Held(LowLevel(r), 1))
    decreases ToWalk(s.recs[r].ll)
  {
    var t := LowLevel(r);
    var st, s1 := Step(t, [], 0), LowLevelStep(s, r);
    NotBlocked(s, r);
    HoldsItself(s, r);
    steps, s' := [], s1;
    if !s.recs[r].ll.LUnnest? {
      AtLinksStep(s.recs[r], t);
      steps, s' := UpToLinks(s1, r);
    }
    steps := [st] + steps;
    InFront(s, st, s1, steps[1..], s');
  }

  lemma HoldsItself(s: State, r: nat)
    requires Inv(false, s) && r < |s.recs|
    ensures DepthOf(s.recs[r].mtx, LowLevel(r)) == Depth(LowLevel(r), s.recs[r].ll, r)
    ensures DepthOf(s.scanLock, LowLevel(r)) == if HoldsScan(s.recs[r].ll) then 1 else 0
    ensures RecOk(false, s.recs[r], Filler(s, r))
  {
    assert PcOf(s, LowLevel(r)) == s.recs[r].ll;
  }

  /** A low-level thread after the forward links. */
  predicate AfterWalk(pc: Pc) {
    pc.LUnscan? || pc.LClear? || pc == LRelease(0) || pc.LUnlock?
  }

  function ToLoop(pc: Pc): nat {
    match pc
    case LUnscan => 3
    case LClear => 2
    case LRelease(_) => 1
    case _ => 0
  }

  /** The record of a low-level thread which is back at its loop. */
  function AtLoop(rec: Rec): Rec {
    rec.(recP := rec.recP && !rec.ll.LUnscan? && !rec.ll.LClear?,
         results := if rec.ll.LUnlock? then rec.results else rec.results + [0],
         mtx := Free, ll := LLoop)
  }

  lemma AtLoopStep(rec: Rec, t: Thread)
    requires t.LowLevel? && AfterWalk(rec.ll) && !rec.ll.LUnlock?
    ensures AtLoop(LowLevelMove(rec, t)) == AtLoop(rec) && AfterWalk(LowLevelMove(rec, t).ll)
    ensures ToLoop(LowLevelMove(rec, t).ll) < ToLoop(rec.ll)
  {
  }

  lemma GoesOn(s: State, r: nat)
    requires Inv(false, s) && r < |s.recs| && AfterWalk(s.recs[r].ll)
    ensures Enabled(s, Step(LowLevel(r), [], 0))
    ensures Apply(s, Step(LowLevel(r), [], 0)) == LowLevelStep(s, r) && Inv(false, LowLevelStep(s, r))
  {
    assert PcOf(s, LowLevel(r)) == s.recs[r].ll;
    StepKeepsInv(false, s, Step(LowLevel(r), [], 0));
  }

  /** From the end of phase 2 back to the loop. */
  lemma {:induction false} UpToLoop(s: State, r: nat) returns (steps: seq<Step>, s': State)
    requires Inv(false, s) && r < |s.recs| && AfterWalk(s.recs[r].ll)
    ensures Run(false, s, steps, s') && Inv(false, s')
    ensures s' == s.(recs := s.recs[r := AtLoop(s.recs[r])],
                     scanLock := if s.recs[r].ll.LUnscan? then Free else s.scanLock)
    decreases ToLoop(s.recs[r].ll)
  {
    var t := LowLevel(r);
    var st, s1 := Step(t, [], 0), LowLevelStep(s, r);
    GoesOn(s, r);
    HoldsItself(s, r);
    steps, s' := [], s1;
    if !s.recs[r].ll.LUnlock? {
      AtLoopStep(s.recs[r], t);
      steps, s' := UpToLoop(s1, r);
    }
    steps := [st] + steps;
    InFront(s, st, s1, steps[1..], s');
  }

  /** The end of the forward links: phase 2 clears PACT. */
  lemma LinksEnd(s: State, r: nat) returns (steps: seq<Step>, s': State)
    requires Inv(false, s) && r < |s.recs| && s.recs[r].ll == Walk([], Next)
    ensures Run(false, s, steps, s') && Inv(false, s')
    ensures s' == s.(recs := s.recs[r := s.recs[r].(pact := false, ll := LUnscan)])
  {
    var st := Step(LowLevel(r), [], 0);
    assert PcOf(s, LowLevel(r)) == Walk([], Next);
    s' := Apply(s, st);
    StepKeepsInv(false, s, st);
    InFront(s, st, s', [], s');
    steps := [st] + [];
  }

  /** All that follows the forward links. */
  lemma AfterLinks(s: State, r: nat) returns (steps: seq<Step>, s': State)
    requires Inv(false, s) && r < |s.recs| && s.recs[r].ll == Walk([], Next)
    ensures Run(false, s, steps, s')
    ensures s' == s.(recs := s.recs[r := AtLoop(s.recs[r].(pact := false, ll := LUnscan))], scanLock := Free)
  {
    var p, s1 := LinksEnd(s, r);
    var q, s2 := UpToLoop(s1, r);
    OneAfterOther(s, p, s1, q, s2);
    steps, s' := p + q, s2;
  }

  /** A low-level thread which has processed the forward links. */
  lemma SameButLinks(s: State, s': State, r: nat, todo: seq<nat>, vs: seq<int>)
    requires |vs| == |s.recs| && r < |s.recs| && Processed(s, s', LowLevel(r), todo, vs)
    requires s.recs[r].pact && PcOf(s', LowLevel(r)) == Walk([], Next)
    ensures s' == s.(recs := AfterList(s.recs, todo, vs)[r := s.recs[r].(ll := Walk([], Next))])
  {
    forall q: nat | q < |s.recs|
      ensures s'.recs[q] == AfterList(s.recs, todo, vs)[r := s.recs[r].(ll := Walk([], Next))][q]
    {
      assert PcOf(s', Init(q)) == PcOf(s, Init(q));
      assert q != r ==> PcOf(s', LowLevel(q)) == PcOf(s, LowLevel(q));
      assert PcOf(s', LowLevel(r)) == s'.recs[r].ll;
    }
    forall i: nat | i < |s.scans| ensures s'.scans[i] == s.scans[i] {
      assert PcOf(s', Scan(i)) == PcOf(s, Scan(i));
    }
  }

  /** The record whose wake-up has been served. */
  function Served(rec: Rec): Rec {
    rec.(pact := false, recP := false, full := false, ll := LLoop,
         consumed := rec.consumed + [rec.data], results := rec.results + [0])
  }

  /**
    A wake-up: the low-level thread consumes the value once, its record has completed and can be written
    again, `devGenVarProcComplete` has returned 0, each record of its forward link which was not in process
    has been written once, and everything else is as it was.
  */
  lemma WakeUpAlone(s: State, r: nat, vs: seq<int>) returns (steps: seq<Step>)
    requires Inv(false, s) && r < |s.recs| && |vs| == |s.recs| && s.scanLock.Free?
    requires s.recs[r].ll.LWait? && s.recs[r].full && s.recs[r].pact && s.recs[r].mtx.Free?
    requires Ready(s.recs, s.recs[r].flnk)
    ensures Run(false, s, steps, s.(recs := AfterList(s.recs, s.recs[r].flnk, vs)[r := Served(s.recs[r])]))
  {
    LowLevelIsOutside(false, s, r);
    var p1, s1 := UpToLinks(s, r);
    assert PcOf(s1, LowLevel(r)) == Walk(s.recs[r].flnk, Next);
    var p2, s2 := ListAlone(s1, LowLevel(r), vs);
    SameButLinks(s1, s2, r, s.recs[r].flnk, vs);
    var p3, s3 := AfterLinks(s2, r);
    OneAfterOther(s1, p2, s2, p3, s3);
    OneAfterOther(s, p1, s1, p2 + p3, s3);
    steps := p1 + (p2 + p3);
    ServedLast(s.recs, r, s.recs[r].flnk, vs, s2.recs[r], s3.recs[r]);
  }

  lemma ServedLast(recs: seq<Rec>, r: nat, todo: seq<nat>, vs: seq<int>, rec2: Rec, rec3: Rec)
    requires |vs| == |recs| && r < |recs| && recs[r].ll.LWait? && recs[r].mtx.Free? && recs[r].recP
    requires rec2 == AtLinks(recs[r], LowLevel(r)).(ll := Walk([], Next))
    requires rec3 == AtLoop(rec2.(pact := false, ll := LUnscan))
    ensures rec3 == Served(recs[r])
    ensures AfterList(recs[r := AtLinks(recs[r], LowLevel(r))], todo, vs)[r := rec2][r := rec3]
         == AfterList(recs, todo, vs)[r := Served(recs[r])]
  {
  }
}
