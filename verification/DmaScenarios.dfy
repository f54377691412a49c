/** Whole calls as runs of the channel: that they complete, and what careless use leads to. */
module DmaScenarios {
  import opened Wrappers
  import opened DmaChannel

  lemma {:induction false} RunConcat(b: bool, s: State, p: seq<Step>, m: State, q: seq<Step>, s': State)
    requires Run(b, s, p, m) && Run(b, m, q, s')
    ensures Run(b, s, p + q, s')
    decreases |p|
  {
    if p == [] {
      assert p + q == q;
    } else {
      RunConcat(b, Apply(s, p[0]), p[1..], m, q, s');
      assert (p + q)[0] == p[0] && (p + q)[1..] == p[1..] + q;
    }
  }

  /** Appends a step to a run. */
  lemma Then(b: bool, s: State, p: seq<Step>, m: State, st: Step) returns (q: seq<Step>, s': State)
    requires Run(b, s, p, m) && Enabled(m, st) && (b ==> Disciplined(m, st))
    ensures s' == Apply(m, st) && q == p + [st] && Run(b, s, q, s')
  {
    s' := Apply(m, st);
    q := p + [st];
    assert Run(b, s', [], s') && [st][1..] == [];
    assert Run(b, m, [st], s');
    RunConcat(b, s, p, m, [st], s');
  }

  /** Nobody has or waits for the channel. */
  predicate AtRest(s: State, d: nat) {
    && d < |s.ids| && s.ids[d].pc.Idle?
    && s.full && s.inProgress.None? && !s.flight && s.isr.NoIsr?
  }

  /** A call takes the channel up to the test of the cached mode. */
  lemma TakeChannel(b: bool, s: State, d: nat, m: nat, wait: bool) returns (p: seq<Step>, s': State)
    requires AtRest(s, d) && (b && !wait ==> !s.ids[d].waiting)
    ensures Run(b, s, p, s')
    ensures var x := s.ids[d];
      s' == s.(full := false, ids := s.ids[d := x.(waiting := wait || x.waiting, status := -1, pc := Check(m, wait))])
  {
    p, s' := Then(b, s, [], s, if wait then CallWait(d, m) else CallPlain(d, m));
    if wait {
      p, s' := Then(b, s, p, s', Go(d, true));
    }
    p, s' := Then(b, s, p, s', Go(d, true));
    p, s' := Then(b, s, p, s', Go(d, true));
  }

  /** The setup is made if the mode is not the cached one. */
  lemma SetMode(b: bool, s: State, d: nat) returns (p: seq<Step>, s': State)
    requires d < |s.ids| && s.ids[d].pc.Check?
    ensures Run(b, s, p, s')
    ensures var x, m := s.ids[d], s.ids[d].pc.mode;
      s' == s.(seenCached := x.mode, seenChannel := s.hwMode, hwMode := if m != x.mode then m else s.hwMode,
               ids := s.ids[d := x.(mode := m, pc := Own(m, x.pc.wait))])
  {
    p, s' := Then(b, s, [], s, Go(d, true));
    if s.ids[d].pc.mode != s.ids[d].mode {
      p, s' := Then(b, s, p, s', Go(d, true));
      p, s' := Then(b, s, p, s', Go(d, true));
    }
  }

  lemma StartTransfer(b: bool, s: State, d: nat) returns (p: seq<Step>, s': State)
    requires d < |s.ids| && s.ids[d].pc.Own?
    ensures Run(b, s, p, s')
    ensures var x := s.ids[d];
      s' == s.(inProgress := Some(d), flight := true,
               log := s.log + [Log(d, x.pc.mode, s.seenCached, s.seenChannel, s.hwMode)],
               ids := s.ids[d := x.(started := x.started + 1, pc := if x.pc.wait then Await else Idle)])
  {
    p, s' := Then(b, s, [], s, Go(d, true));
    p, s' := Then(b, s, p, s', Go(d, true));
  }

  /** A call which starts a transfer. */
  lemma Begin(b: bool, s: State, d: nat, m: nat, wait: bool) returns (p: seq<Step>, s': State)
    requires AtRest(s, d) && (b && !wait ==> !s.ids[d].waiting)
    ensures Run(b, s, p, s')
    ensures var x := s.ids[d];
      var mode := if m != x.mode then m else s.hwMode;
      s' == s.(full := false, inProgress := Some(d), flight := true,
               hwMode := mode, seenCached := x.mode, seenChannel := s.hwMode,
               log := s.log + [Log(d, m, x.mode, s.hwMode, mode)],
               ids := s.ids[d := x.(waiting := wait || x.waiting, status := -1, mode := m, started := x.started + 1,
                                    pc := if wait then Await else Idle)])
  {
    var p2, s2 := TakeAndSet(b, s, d, m, wait);
    var p3, s3 := StartTransfer(b, s2, d);
    RunConcat(b, s, p2, s2, p3, s3);
    p, s' := p2 + p3, s3;
  }

  lemma TakeAndSet(b: bool, s: State, d: nat, m: nat, wait: bool) returns (p: seq<Step>, s': State)
    requires AtRest(s, d) && (b && !wait ==> !s.ids[d].waiting)
    ensures Run(b, s, p, s')
    ensures var x := s.ids[d];
      s' == s.(full := false, hwMode := if m != x.mode then m else s.hwMode,
               seenCached := x.mode, seenChannel := s.hwMode,
               ids := s.ids[d := x.(waiting := wait || x.waiting, status := -1, mode := m, pc := Own(m, wait))])
  {
    var p1, s1 := TakeChannel(b, s, d, m, wait);
    var p2, s2 := SetMode(b, s1, d);
    RunConcat(b, s, p1, s1, p2, s2);
    p, s' := p1 + p2, s2;
  }

  /** The transfer ends and the interrupt routine calls back. */
  lemma EndTransfer(b: bool, s: State, d: nat, st: int) returns (p: seq<Step>, s': State)
    requires d < |s.ids| && s.flight && s.isr.NoIsr? && s.inProgress == Some(d)
    ensures Run(b, s, p, s')
    ensures var x := s.ids[d];
      s' == s.(flight := false, isr := if x.waiting then IUnmark else IUser,
               ids := s.ids[d := x.(status := st, outcomes := x.outcomes + [st], called := x.called + 1)])
  {
    p, s' := Then(b, s, [], s, Interrupt(st));
    p, s' := Then(b, s, p, s', Isr);
    p, s' := Then(b, s, p, s', Isr);
    p, s' := Then(b, s, p, s', Isr);
  }

  lemma WakeThread(b: bool, s: State, d: nat) returns (p: seq<Step>, s': State)
    requires d < |s.ids| && s.isr.IUnmark? && s.inProgress == Some(d)
    ensures Run(b, s, p, s')
    ensures s' == s.(isr := IUser, ids := s.ids[d := s.ids[d].(waiting := false, evt := true)])
  {
    p, s' := Then(b, s, [], s, Isr);
    p, s' := Then(b, s, p, s', Isr);
  }

  lemma YieldChannel(b: bool, s: State, d: nat) returns (p: seq<Step>, s': State)
    requires d < |s.ids| && s.isr.IUser? && s.inProgress == Some(d)
    ensures Run(b, s, p, s')
    ensures s' == s.(full := true, inProgress := None, isr := NoIsr)
  {
    p, s' := Then(b, s, [], s, Isr);
    p, s' := Then(b, s, p, s', Isr);
    p, s' := Then(b, s, p, s', Isr);
  }

  /** The transfer ends and the interrupt routine runs to its end. */
  lemma End(b: bool, s: State, d: nat, st: int) returns (p: seq<Step>, s': State)
    requires d < |s.ids| && s.flight && s.isr.NoIsr? && s.inProgress == Some(d)
    ensures Run(b, s, p, s')
    ensures var x := s.ids[d];
      s' == s.(full := true, inProgress := None, flight := false,
               ids := s.ids[d := x.(status := st, outcomes := x.outcomes + [st], called := x.called + 1,
                                    waiting := false, evt := x.evt || x.waiting)])
  {
    p, s' := EndTransfer(b, s, d, st);
    if s.ids[d].waiting {
      var q, m := WakeThread(b, s', d);
      RunConcat(b, s, p, s', q, m);
      p, s' := p + q, m;
    }
    var q, m := YieldChannel(b, s', d);
    RunConcat(b, s, p, s', q, m);
    p, s' := p + q, m;
  }

  lemma Return(b: bool, s: State, d: nat) returns (p: seq<Step>, s': State)
    requires d < |s.ids| && s.ids[d].pc.Await? && s.ids[d].evt && s.ids[d].outcomes != []
    ensures Run(b, s, p, s')
    ensures var x := s.ids[d];
      s' == s.(ids := s.ids[d := x.(evt := false, pc := Idle,
        results := x.results + [DmaChannel.Return(
          if x.status != 0 then EIO else 0, x.started, |x.outcomes|, x.outcomes[|x.outcomes| - 1])])])
  {
    p, s' := Then(b, s, [], s, Go(d, true));
    p, s' := Then(b, s, p, s', Go(d, true));
  }

  /** With working hardware an AndWait call comes back, with the status of its transfer. */
  lemma CallCompletes(s: State, d: nat, m: nat, st: int) returns (p: seq<Step>, s': State)
    requires Reachable(true, s) && AtRest(s, d)
    ensures Run(true, s, p, s') && Reachable(true, s') && AtRest(s', d)
    ensures |s'.ids| == |s.ids| && forall e | 0 <= e < |s.ids| && e != d :: s'.ids[e] == s.ids[e]
    ensures s'.ids[d].mode == m && s'.hwMode == (if m != s.ids[d].mode then m else s.hwMode)
    ensures |s'.log| == |s.log| + 1 && s'.log[|s.log|] == Log(d, m, s.ids[d].mode, s.hwMode, s'.hwMode)
    ensures |s'.ids[d].results| == |s.ids[d].results| + 1
    ensures s'.ids[d].results[|s.ids[d].results|].rc == if st != 0 then EIO else 0
  {
    ReachableInv(true, s);
    assert IdOk(true, s, d);
    var p1, s1 := Begin(true, s, d, m, true);
    var p2, s2 := End(true, s1, d, st);
    var p3, s3 := Return(true, s2, d);
    RunConcat(true, s, p1, s1, p2, s2);
    RunConcat(true, s, p1 + p2, s2, p3, s3);
    p, s' := p1 + p2 + p3, s3;
    var s0, q :| Initial(s0) && Run(true, s0, q, s);
    RunConcat(true, s0, q, s, p, s');
  }

  /**
    The mode is cached for each identifier although the channel has only one: after another
    identifier has set the channel up, a transfer runs in that one's mode.
  */
  lemma ModeOfSomebodyElse(s: State) returns (p: seq<Step>, s': State)
    requires Initial(s) && |s.ids| == 2
    ensures Run(true, s, p, s') && |s'.log| == 3
    ensures s'.log[2].id == 0 && s'.log[2].requested == 1 && s'.log[2].used == 2
  {
    assert Run(true, s, [], s);
    assert Reachable(true, s);
    var p1, s1 := CallCompletes(s, 0, 1, 0);
    var p2, s2 := CallCompletes(s1, 1, 2, 0);
    var p3, s3 := CallCompletes(s2, 0, 1, 0);
    RunConcat(true, s, p1, s1, p2, s2);
    RunConcat(true, s, p1 + p2, s2, p3, s3);
    p, s' := p1 + p2 + p3, s3;
  }

  /** A call whose setup fails gives the channel back; an AndWait call leaves `waiting` set. */
  lemma FailingSetup(b: bool, s: State, d: nat, m: nat, wait: bool) returns (p: seq<Step>, s': State)
    requires AtRest(s, d) && (b && !wait ==> !s.ids[d].waiting) && m != s.ids[d].mode
    ensures Run(b, s, p, s') && AtRest(s', d)
    ensures var x := s.ids[d];
      s' == s.(seenCached := x.mode, seenChannel := s.hwMode,
               ids := s.ids[d := x.(waiting := wait || x.waiting, status := -1)])
  {
    var p1, s1 := TakeChannel(b, s, d, m, wait);
    p, s' := p1, s1;
    p, s' := Then(b, s, p, s', Go(d, true));
    p, s' := Then(b, s, p, s', Go(d, false));
    p, s' := Then(b, s, p, s', Go(d, true));
  }

  /** So does one whose start fails, but the mode has been set up and cached. */
  lemma FailingStart(b: bool, s: State, d: nat, m: nat, wait: bool) returns (p: seq<Step>, s': State)
    requires AtRest(s, d) && (b && !wait ==> !s.ids[d].waiting)
    ensures Run(b, s, p, s') && AtRest(s', d)
    ensures var x := s.ids[d];
      s' == s.(hwMode := if m != x.mode then m else s.hwMode, seenCached := x.mode, seenChannel := s.hwMode,
               ids := s.ids[d := x.(waiting := wait || x.waiting, status := -1, mode := m)])
  {
    p, s' := TakeAndSet(b, s, d, m, wait);
    p, s' := Then(b, s, p, s', Go(d, true));
    p, s' := Then(b, s, p, s', Go(d, false));
    p, s' := Then(b, s, p, s', Go(d, true));
    p, s' := Then(b, s, p, s', Go(d, true));
  }

  /** The last result of `d` was returned before its own transfer had ended. */
  predicate ReturnedEarly(s: State, d: nat) {
    && d < |s.ids| && s.ids[d].results != []
    && var r := s.ids[d].results[|s.ids[d].results| - 1]; r.ended < r.started
  }

  // ---------------------------------------------------------------- the discipline is needed

  /** How many steps the channel is away from its event if whoever has it gives it back. */
  function Distance(s: State): nat {
    if s.full then 0
    else if s.flight then 9
    else
      match s.isr
      case ITest(_) => 8
      case IStatus(_) => 7
      case ICall => 6
      case IUnmark => 5
      case IWake => 4
      case IUser => 3
      case IClear => 2
      case ISignal => 1
      case NoIsr => 10
  }

  function HolderDistance(pc: Pc): nat {
    match pc
    case Check(_, _) => 7
    case Setup(_, _) => 6
    case Cache(_, _) => 5
    case Own(_, _) => 4
    case Start(_, _) => 3
    case Undo => 2
    case Give => 1
    case _ => 0
  }

  /** Nobody has the channel. */
  predicate ChannelFree(s: State) {
    s.full && s.inProgress.None? && !s.flight && s.isr.NoIsr?
  }

  lemma FreeWhenFull(s: State)
    requires Inv(false, s) && s.full
    ensures ChannelFree(s)
  {
  }

  /** The interrupt routine is not going to touch `d` any more. */
  predicate Done(s: State, d: nat) {
    s.inProgress == Some(d) ==> !s.flight && (s.isr.IUser? || s.isr.IClear?)
  }

  lemma FreeFromIsr(s: State, d: nat) returns (p: seq<Step>, s': State)
    requires Inv(false, s) && d < |s.ids| && Done(s, d) && (s.flight || !s.isr.NoIsr?)
    ensures Run(false, s, p, s') && Inv(false, s') && ChannelFree(s')
    ensures |s'.ids| == |s.ids| && s'.ids[d] == s.ids[d]
    decreases Distance(s)
  {
    var st := if s.flight then Interrupt(0) else Isr;
    var s1 := Apply(s, st);
    StepKeepsInv(false, s, st);
    assert s1.ids[d] == s.ids[d];
    if s1.full {
      FreeWhenFull(s1);
      p, s' := Then(false, s, [], s, st);
    } else {
      p, s' := FreeFromIsr(s1, d);
      p := Before(s, st, s1, p, s');
    }
  }

  lemma Before(s: State, st: Step, s1: State, p: seq<Step>, s': State) returns (q: seq<Step>)
    requires Enabled(s, st) && Apply(s, st) == s1 && Run(false, s1, p, s')
    ensures q == [st] + p && Run(false, s, q, s')
  {
    q := [st] + p;
    assert q[1..] == p;
  }

  lemma FreeFromHolder(s: State, d: nat, e: nat) returns (p: seq<Step>, s': State)
    requires Inv(false, s) && d < |s.ids| && e < |s.ids| && e != d && HoldsChannel(s.ids[e].pc)
    ensures Run(false, s, p, s') && Inv(false, s') && ChannelFree(s')
    ensures |s'.ids| == |s.ids| && s'.ids[d] == s.ids[d]
    decreases HolderDistance(s.ids[e].pc)
  {
    var st := Go(e, false);
    var s1 := Apply(s, st);
    StepKeepsInv(false, s, st);
    if s1.full {
      FreeWhenFull(s1);
      p, s' := Then(false, s, [], s, st);
    } else {
      p, s' := FreeFromHolder(s1, d, e);
      p := Before(s, st, s1, p, s');
    }
  }

  /** Whoever has the channel can give it back without anything happening to `d`. */
  lemma FreeTheChannel(s: State, d: nat) returns (p: seq<Step>, s': State)
    requires Inv(false, s) && d < |s.ids| && Done(s, d) && !HoldsChannel(s.ids[d].pc)
    ensures Run(false, s, p, s') && Inv(false, s') && ChannelFree(s')
    ensures |s'.ids| == |s.ids| && s'.ids[d] == s.ids[d]
  {
    if s.full {
      FreeWhenFull(s);
      p, s' := [], s;
    } else if s.flight || !s.isr.NoIsr? {
      p, s' := FreeFromIsr(s, d);
    } else {
      var e: nat :| e < |s.ids| && HoldsChannel(s.ids[e].pc);
      p, s' := FreeFromHolder(s, d, e);
    }
  }

  /** The event of `d` is full, or the interrupt routine is going to fill it. */
  predicate WillWake(s: State, d: nat)
    requires d < |s.ids|
  {
    s.ids[d].evt || Waking(s, d) || (Pending(s, d) && s.ids[d].waiting)
  }

  /** The transfer of `d` ends; whether it wakes the thread depends on `waiting`. */
  lemma FinishTransfer(s: State, d: nat) returns (p: seq<Step>, s': State)
    requires Inv(false, s) && d < |s.ids| && s.inProgress == Some(d) && !HoldsChannel(s.ids[d].pc)
    ensures Run(false, s, p, s') && Inv(false, s') && ChannelFree(s') && |s'.ids| == |s.ids|
    ensures var x, x' := s.ids[d], s'.ids[d];
      x'.pc == x.pc && x'.mode == x.mode && x'.results == x.results && x'.started == x.started
    ensures WillWake(s, d) ==> s'.ids[d].evt
    decreases Distance(s)
  {
    InProgressIsBusy(s, d);
    var st := if s.flight then Interrupt(0) else Isr;
    var s1 := Apply(s, st);
    StepKeepsInv(false, s, st);
    if s.isr.IClear? {
      assert s1.isr.ISignal? && s1.inProgress.None?;
      StepKeepsInv(false, s1, Isr);
      FreeWhenFull(Apply(s1, Isr));
      p, s' := Then(false, s1, [], s1, Isr);
    } else {
      p, s' := FinishTransfer(s1, d);
    }
    p := Before(s, st, s1, p, s');
  }

  lemma InProgressIsBusy(s: State, d: nat)
    requires Inv(false, s) && d < |s.ids| && s.inProgress == Some(d) && !HoldsChannel(s.ids[d].pc)
    ensures s.flight || (!s.isr.NoIsr? && !s.isr.ISignal?)
    ensures s.flight ==> s.isr.NoIsr?
    ensures !s.full
  {
    assert NoThreadHolds(s);
  }

  /** A thread takes the free channel and starts a transfer. */
  lemma Launch(s: State, d: nat) returns (p: seq<Step>, s': State)
    requires d < |s.ids| && ChannelFree(s) && s.ids[d].pc.Take?
    ensures Run(false, s, p, s')
    ensures s'.flight && s'.isr.NoIsr? && s'.inProgress == Some(d) && |s'.ids| == |s.ids|
    ensures s'.ids[d] == s.ids[d].(mode := s.ids[d].pc.mode, started := s.ids[d].started + 1,
                                   pc := if s.ids[d].pc.wait then Await else Idle)
  {
    var p1, s1 := Then(false, s, [], s, Go(d, true));
    var p2, s2 := SetMode(false, s1, d);
    var p3, s3 := StartTransfer(false, s2, d);
    RunConcat(false, s, p1, s1, p2, s2);
    RunConcat(false, s, p1 + p2, s2, p3, s3);
    p, s' := p1 + p2 + p3, s3;
  }

  /** A thread which has been woken before its transfer is started returns before it has ended. */
  lemma EarlyReturn(s: State, d: nat) returns (p: seq<Step>, s': State)
    requires Inv(false, s) && d < |s.ids| && ChannelFree(s) && s.ids[d].evt && s.ids[d].started > 0
    requires s.ids[d].pc.Take? && s.ids[d].pc.wait
    ensures Run(false, s, p, s') && ReturnedEarly(s', d)
  {
    assert IdOk(false, s, d);
    var p1, s1 := Launch(s, d);
    var p2, s2 := Return(false, s1, d);
    RunConcat(false, s, p1, s1, p2, s2);
    p, s' := p1 + p2, s2;
  }

  /** A call gets as far as the lock. */
  lemma QueueUp(s: State, st: Step) returns (p: seq<Step>, s': State)
    requires Enabled(s, st) && (st.CallWait? || st.CallPlain?)
    ensures Run(false, s, p, s') && p != [] && p[0] == st
    ensures s' == s.(ids := s.ids[st.d := s.ids[st.d].(waiting := st.CallWait? || s.ids[st.d].waiting, status := -1,
                                                       pc := Take(st.mode, st.CallWait?))])
  {
    p, s' := Then(false, s, [], s, st);
    if st.CallWait? {
      p, s' := Then(false, s, p, s', Go(st.d, true));
    }
    p, s' := Then(false, s, p, s', Go(st.d, true));
  }

  /** An AndWait call during an own transfer which nobody waits for is woken by that transfer. */
  lemma WaitDuringTransfer(s: State, st: Step) returns (p: seq<Step>, s': State)
    requires Inv(false, s) && Enabled(s, st) && st.CallWait? && Pending(s, st.d)
    ensures Run(false, s, p, s') && p != [] && p[0] == st && ReturnedEarly(s', st.d)
  {
    var d := st.d;
    assert IdOk(false, s, d);
    var p1, s1 := QueueUp(s, st);
    RunKeepsInv(false, s, p1, s1);
    var p2, s2 := FinishTransfer(s1, d);
    var p3, s3 := EarlyReturn(s2, d);
    RunConcat(false, s, p1, s1, p2, s2);
    RunConcat(false, s, p1 + p2, s2, p3, s3);
    p, s' := p1 + p2 + p3, s3;
  }

  /** A plain call with `waiting` left over from a failed AndWait leaves an event behind for the next AndWait. */
  lemma PlainAfterFailure(s: State, st: Step) returns (p: seq<Step>, s': State)
    requires Inv(false, s) && Enabled(s, st) && st.CallPlain? && s.ids[st.d].waiting && Done(s, st.d)
    ensures Run(false, s, p, s') && p != [] && p[0] == st && ReturnedEarly(s', st.d)
  {
    var d := st.d;
    var p1, s1 := QueueUp(s, st);
    RunKeepsInv(false, s, p1, s1);
    var p2, s2 := FreeTheChannel(s1, d);
    var p3, s3 := Launch(s2, d);
    RunKeepsInv(false, s2, p3, s3);
    var p4, s4 := FinishTransfer(s3, d);
    var p5, s5 := QueueUp(s4, CallWait(d, 0));
    RunKeepsInv(false, s4, p5, s5);
    var p6, s6 := EarlyReturn(s5, d);
    RunConcat(false, s, p1, s1, p2, s2);
    RunConcat(false, s, p1 + p2, s2, p3, s3);
    RunConcat(false, s, p1 + p2 + p3, s3, p4, s4);
    RunConcat(false, s, p1 + p2 + p3 + p4, s4, p5, s5);
    RunConcat(false, s, p1 + p2 + p3 + p4 + p5, s5, p6, s6);
    p, s' := p1 + p2 + p3 + p4 + p5 + p6, s6;
  }

  /**
    The discipline is exactly what sound waiting takes: after any disciplined run, every call which
    breaks it begins a run at whose end a waiting call has returned before its own transfer ended.
  */
  lemma EveryBreachIsUnsound(s: State, st: Step) returns (p: seq<Step>, s': State)
    requires Reachable(true, s) && Enabled(s, st) && !Disciplined(s, st)
    ensures Run(false, s, p, s') && p != [] && p[0] == st
    ensures (st.CallWait? || st.CallPlain?) && ReturnedEarly(s', st.d)
  {
    ReachableInv(true, s);
    Weaker(s);
    assert IdOk(true, s, st.d);
    if st.CallWait? {
      p, s' := WaitDuringTransfer(s, st);
    } else {
      IdleIsDone(s, st.d);
      p, s' := PlainAfterFailure(s, st);
    }
  }

  lemma Weaker(s: State)
    requires Inv(true, s)
    ensures Inv(false, s)
  {
    forall d: nat | d < |s.ids| ensures IdOk(false, s, d) {
      assert IdOk(true, s, d);
    }
  }

  lemma IdleIsDone(s: State, d: nat)
    requires Inv(true, s) && d < |s.ids| && s.ids[d].pc.Idle? && s.ids[d].waiting
    ensures Done(s, d)
  {
    assert IdOk(true, s, d);
    if s.inProgress == Some(d) {
      Weaker(s);
      InProgressIsBusy(s, d);
    }
  }

  /** From the start, one failing setup is enough for a wait which ends early. */
  lemma StaleEvent(s: State) returns (p: seq<Step>, s': State)
    requires Initial(s) && |s.ids| == 1
    ensures Run(false, s, p, s') && ReturnedEarly(s', 0)
  {
    var p1, s1 := FailingSetup(true, s, 0, 1, true);
    assert Reachable(true, s1);
    var p2, s2 := EveryBreachIsUnsound(s1, CallPlain(0, 1));
    Loosen(s, p1, s1);
    RunConcat(false, s, p1, s1, p2, s2);
    p, s' := p1 + p2, s2;
  }

  lemma {:induction false} Loosen(s: State, p: seq<Step>, s': State)
    requires Run(true, s, p, s')
    ensures Run(false, s, p, s')
    decreases |p|
  {
    if p != [] {
      Loosen(Apply(s, p[0]), p[1..], s');
    }
  }

  // ---------------------------------------------------------------- who changes what

  lemma HolderWakesNobody(s: State, d: nat, ok: bool)
    requires d < |s.ids| && HoldsChannel(s.ids[d].pc)
    ensures |ThreadStep(s, d, ok).ids| == |s.ids|
    ensures ThreadStep(s, d, ok).ids[d].waiting == s.ids[d].waiting && ThreadStep(s, d, ok).ids[d].evt == s.ids[d].evt
  {
  }

  lemma OtherWakesNobody(s: State, d: nat, ok: bool)
    requires d < |s.ids| && !HoldsChannel(s.ids[d].pc)
    ensures |ThreadStep(s, d, ok).ids| == |s.ids|
    ensures var x, x' := s.ids[d], ThreadStep(s, d, ok).ids[d];
      && x'.waiting == (x.waiting || x.pc.Mark?) && x'.evt == (x.evt && !x.pc.Await?)
  {
  }

  lemma IsrWakes(s: State, d: nat)
    requires Enabled(s, Isr) && d < |s.ids|
    ensures |IsrStep(s).ids| == |s.ids|
    ensures var x, x' := s.ids[d], IsrStep(s).ids[d];
      && x'.waiting == (x.waiting && !(s.inProgress == Some(d) && s.isr.IUnmark?))
      && x'.evt == (x.evt || (s.inProgress == Some(d) && s.isr.IWake?))
  {
  }

  /**
    `waiting` is set by the AndWait calls of its identifier only and cleared only by the interrupt
    routine, at the end of a transfer of that identifier; the event is filled and emptied likewise.
  */
  lemma WhoWakes(s: State, st: Step, d: nat)
    requires Enabled(s, st) && d < |s.ids|
    ensures |Apply(s, st).ids| == |s.ids|
    ensures var x, x' := s.ids[d], Apply(s, st).ids[d];
      && (x'.waiting && !x.waiting ==> st.Go? && st.d == d && x.pc.Mark?)
      && (x.waiting && !x'.waiting ==> st.Isr? && s.inProgress == Some(d) && s.isr.IUnmark?)
      && (x'.evt && !x.evt ==> st.Isr? && s.inProgress == Some(d) && s.isr.IWake?)
      && (x.evt && !x'.evt ==> st.Go? && st.d == d && x.pc.Await?)
  {
    SameIds(s, st);
    match st
    case Go(e, ok) =>
      ThreadFrame(s, e, ok);
      if e == d && HoldsChannel(s.ids[d].pc) {
        HolderWakesNobody(s, d, ok);
      } else if e == d {
        OtherWakesNobody(s, d, ok);
      }
    case Isr => IsrWakes(s, d);
    case _ =>
  }

  /** The routine is past the point where it has noted the status of the transfer of `d`. */
  predicate Unmarking(s: State, d: nat) {
    s.inProgress == Some(d) && (s.isr.ICall? || s.isr.IUnmark?)
  }

  lemma WaitingStep(s: State, st: Step, d: nat, n: nat)
    requires Inv(false, s) && Enabled(s, st) && d < |s.ids| && |s.ids[d].outcomes| >= n
    requires |s.ids[d].outcomes| > n || (s.ids[d].waiting && !Unmarking(s, d))
    ensures var s' := Apply(s, st);
      && |s'.ids| == |s.ids| && |s'.ids[d].outcomes| >= n
      && (|s'.ids[d].outcomes| > n || (s'.ids[d].waiting && !Unmarking(s', d)))
  {
    SameIds(s, st);
    WhoWakes(s, st, d);
    if st.Go? {
      assert HoldsChannel(s.ids[st.d].pc) ==> s.isr.NoIsr?;
    }
  }

  lemma {:induction false} WaitingOrEnded(s: State, steps: seq<Step>, s': State, d: nat, n: nat)
    requires Inv(false, s) && Run(false, s, steps, s') && d < |s.ids| && |s.ids[d].outcomes| >= n
    requires |s.ids[d].outcomes| > n || (s.ids[d].waiting && !Unmarking(s, d))
    ensures |s'.ids| == |s.ids|
    ensures |s'.ids[d].outcomes| > n || s'.ids[d].waiting
    decreases |steps|
  {
    if steps != [] {
      WaitingStep(s, steps[0], d, n);
      StepKeepsInv(false, s, steps[0]);
      WaitingOrEnded(Apply(s, steps[0]), steps[1..], s', d, n);
    }
  }

  /**
    What a failed AndWait call leaves behind stays in every run until a transfer of the same identifier
    has ended: no other call, failing or not, takes it back.
  */
  lemma WaitingStays(s: State, steps: seq<Step>, s': State, d: nat)
    requires Reachable(false, s) && AtRest(s, d) && s.ids[d].waiting && Run(false, s, steps, s')
    ensures |s'.ids| == |s.ids|
    ensures |s'.ids[d].outcomes| > |s.ids[d].outcomes| || s'.ids[d].waiting
  {
    ReachableInv(false, s);
    WaitingOrEnded(s, steps, s', d, |s.ids[d].outcomes|);
  }

  // ---------------------------------------------------------------- a single user

  /** The cached mode is that of the channel, unless nothing has been cached yet. */
  ghost predicate SoleOk(s: State) {
    && |s.ids| == 1
    && var x := s.ids[0];
       && (x.mode == 0 || x.mode == s.hwMode || x.pc.Cache?)
       && (x.pc.Own? || x.pc.Start? ==> x.pc.mode != 0 ==> s.hwMode == x.pc.mode)
       && (x.pc.Cache? ==> s.hwMode == x.pc.mode)
       && (forall k | 0 <= k < |s.log| :: s.log[k].requested != 0 ==> s.log[k].used == s.log[k].requested)
  }

  lemma SoleIsr(s: State)
    requires SoleOk(s) && Enabled(s, Isr)
    ensures SoleOk(IsrStep(s))
  {
    assert IsrStep(s).log == s.log && IsrStep(s).hwMode == s.hwMode;
  }

  lemma SoleStart(s: State, ok: bool)
    requires SoleOk(s) && s.ids[0].pc.Start?
    ensures SoleOk(ThreadStep(s, 0, ok))
  {
  }

  lemma SoleHolder(s: State, ok: bool)
    requires SoleOk(s) && (s.ids[0].pc.Check? || s.ids[0].pc.Setup? || s.ids[0].pc.Cache? || s.ids[0].pc.Own?)
    ensures SoleOk(ThreadStep(s, 0, ok))
  {
  }

  lemma SoleSame(s: State, s': State)
    requires SoleOk(s) && |s'.ids| == 1 && s'.ids[0].mode == s.ids[0].mode && s'.hwMode == s.hwMode && s'.log == s.log
    requires !s.ids[0].pc.Cache? && !(s'.ids[0].pc.Cache? || s'.ids[0].pc.Own? || s'.ids[0].pc.Start?)
    ensures SoleOk(s')
  {
  }

  lemma SoleOther(s: State, ok: bool)
    requires SoleOk(s) && !HoldsChannel(s.ids[0].pc)
    ensures SoleOk(ThreadStep(s, 0, ok))
  {
    SoleSame(s, ThreadStep(s, 0, ok));
  }

  lemma SoleThread(s: State, ok: bool)
    requires SoleOk(s) && Enabled(s, Go(0, ok))
    ensures SoleOk(ThreadStep(s, 0, ok))
  {
    var pc := s.ids[0].pc;
    if !HoldsChannel(pc) {
      SoleOther(s, ok);
    } else if pc.Start? {
      SoleStart(s, ok);
    } else if pc.Check? || pc.Setup? || pc.Cache? || pc.Own? {
      SoleHolder(s, ok);
    }
  }

  lemma SoleKept(s: State, st: Step)
    requires SoleOk(s) && Enabled(s, st)
    ensures SoleOk(Apply(s, st))
  {
    match st
    case Isr => SoleIsr(s);
    case Go(d, ok) => SoleThread(s, ok);
    case _ =>
  }

  lemma {:induction false} SoleRun(s: State, steps: seq<Step>, s': State)
    requires SoleOk(s) && Run(false, s, steps, s')
    ensures SoleOk(s')
    decreases |steps|
  {
    if steps != [] {
      SoleKept(s, steps[0]);
      SoleRun(Apply(s, steps[0]), steps[1..], s');
    }
  }

  /** With a single identifier every transfer runs in the mode requested, whatever calls have failed before. */
  lemma SoleUserGetsItsMode(s: State, k: nat)
    requires Reachable(false, s) && |s.ids| == 1 && k < |s.log| && s.log[k].requested != 0
    ensures s.log[k].used == s.log[k].requested
  {
    var s0, steps :| Initial(s0) && Run(false, s0, steps, s);
    RunKeepsIds(s0, steps, s);
    SoleRun(s0, steps, s);
  }

  lemma {:induction false} RunKeepsIds(s: State, steps: seq<Step>, s': State)
    requires Run(false, s, steps, s')
    ensures |s'.ids| == |s.ids|
    decreases |steps|
  {
    if steps != [] {
      SameIds(s, steps[0]);
      RunKeepsIds(Apply(s, steps[0]), steps[1..], s');
    }
  }
}
