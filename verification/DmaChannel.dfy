/**
  Hand-over of the VME DMA channel between threads and the interrupt routine, and waiting for
  completion on top of it. Every identifier is used by one thread; the steps of all threads, of
  the hardware and of the interrupt routine interleave arbitrarily. An interrupt happens only
  when a transfer ends.
*/
module DmaChannel {
  import opened Wrappers

  const EIO: int := 5

  /** A thread inside `epicsDma...AndWait` (`wait`) or `epicsDma{To,From}Vme`. */
  datatype Pc =
    | Idle
    | Mark(mode: nat)                  // waiting = 1
    | Reset(mode: nat, wait: bool)     // status = -1
    | Take(mode: nat, wait: bool)      // epicsEventWait(lock)
    | Check(mode: nat, wait: bool)     // mode != dmaId->mode?
    | Setup(mode: nat, wait: bool)     // BSP_VMEDmaSetup
    | Cache(mode: nat, wait: bool)     // dmaId->mode = mode
    | Own(mode: nat, wait: bool)       // inProgress = dmaId
    | Start(mode: nat, wait: bool)     // BSP_VMEDmaStart
    | Undo                             // inProgress = 0
    | Give                             // epicsEventSignal(lock)
    | Await                            // epicsEventWait(eventId)
    | Result                           // return the status

  /** The interrupt routine with `myCallback` expanded. */
  datatype IsrPc =
    | NoIsr
    | ITest(st: int)     // inProgress set?
    | IStatus(st: int)   // inProgress->status = s
    | ICall              // callback: waiting?
    | IUnmark            // waiting = 0
    | IWake              // epicsEventSignal(eventId)
    | IUser              // the user's callback
    | IClear             // inProgress = 0
    | ISignal            // epicsEventSignal(lock)

  /** What an AndWait call returned, how many transfers it had started and seen end, and how the last one ended. */
  datatype Return = Return(rc: int, started: nat, ended: nat, outcome: int)

  datatype Dma = Dma(
    pc: Pc,
    status: int,
    mode: nat,
    waiting: bool,
    evt: bool,
    started: nat,           // transfers started
    outcomes: seq<int>,     // hardware status of the transfers which have ended
    called: nat,            // callbacks made
    results: seq<Return>)

  /**
    A transfer: its identifier, the requested mode, the cached mode and the channel's mode when the
    request came, and the mode it ran in.
  */
  datatype Log = Log(id: nat, requested: nat, cached: nat, channel: nat, used: nat)

  datatype State = State(
    full: bool,             // the event `lock`
    inProgress: Option<nat>,
    flight: bool,           // the hardware is transferring
    hwMode: nat,            // mode of the last successful setup
    isr: IsrPc,
    ids: seq<Dma>,
    seenCached: nat,        // cached mode and channel mode at the last check
    seenChannel: nat,
    log: seq<Log>)

  datatype Step =
    | CallWait(d: nat, mode: nat)
    | CallPlain(d: nat, mode: nat)
    | Go(d: nat, ok: bool)     // `ok`: result of setup or start
    | Interrupt(st: int)       // the transfer ends with this hardware status
    | Isr

  /** The transfer of `d` has not yet got to the test of `waiting`. */
  predicate Pending(s: State, d: nat) {
    s.inProgress == Some(d) && (s.flight || s.isr.ITest? || s.isr.IStatus? || s.isr.ICall?)
  }

  predicate Enabled(s: State, st: Step) {
    match st
    case CallWait(d, _) => d < |s.ids| && s.ids[d].pc.Idle?
    case CallPlain(d, _) => d < |s.ids| && s.ids[d].pc.Idle?
    case Go(d, _) =>
      && d < |s.ids| && !s.ids[d].pc.Idle?
      && (s.ids[d].pc.Take? ==> s.full)
      && (s.ids[d].pc.Await? ==> s.ids[d].evt)
    case Interrupt(_) => s.flight && s.isr.NoIsr?
    case Isr => !s.isr.NoIsr? && (s.inProgress.Some? ==> s.inProgress.value < |s.ids|)
  }

  /**
    How an identifier may be used: AndWait is not called while an own transfer which nobody waits
    for may still find `waiting` set, and after a failed AndWait only AndWait is called.
  */
  predicate Disciplined(s: State, st: Step)
    requires Enabled(s, st)
  {
    match st
    case CallWait(d, _) => !Pending(s, d)
    case CallPlain(d, _) => !s.ids[d].waiting
    case _ => true
  }

  function With(s: State, d: nat, x: Dma): (s': State)
    requires d < |s.ids|
    ensures |s'.ids| == |s.ids|
  {
    s.(ids := s.ids[d := x])
  }

  function ThreadStep(s: State, d: nat, ok: bool): State
    requires d < |s.ids|
  {
    var x := s.ids[d];
    match x.pc
    case Mark(m) => With(s, d, x.(waiting := true, pc := Reset(m, true)))
    case Reset(m, w) => With(s, d, x.(status := -1, pc := Take(m, w)))
    case Take(m, w) => With(s.(full := false), d, x.(pc := Check(m, w)))
    case Check(m, w) =>
      With(s.(seenCached := x.mode, seenChannel := s.hwMode), d,
           x.(pc := if m != x.mode then Setup(m, w) else Own(m, w)))
    case Setup(m, w) =>
      if ok then With(s.(hwMode := m), d, x.(pc := Cache(m, w))) else With(s, d, x.(pc := Give))
    case Cache(m, w) => With(s, d, x.(mode := m, pc := Own(m, w)))
    case Own(m, w) => With(s.(inProgress := Some(d)), d, x.(pc := Start(m, w)))
    case Start(m, w) =>
      if ok then
        With(s.(flight := true, log := s.log + [Log(d, m, s.seenCached, s.seenChannel, s.hwMode)]), d,
             x.(started := x.started + 1, pc := if w then Await else Idle))
      else With(s, d, x.(pc := Undo))
    case Undo => With(s.(inProgress := None), d, x.(pc := Give))
    case Give => With(s.(full := true), d, x.(pc := Idle))
    case Await => With(s, d, x.(evt := false, pc := Result))
    case Result =>
      var rc := if x.status != 0 then EIO else 0;
      var outcome := if x.outcomes == [] then 0 else x.outcomes[|x.outcomes| - 1];
      With(s, d, x.(results := x.results + [Return(rc, x.started, |x.outcomes|, outcome)], pc := Idle))
    case Idle => s
  }

  function IsrStep(s: State): State
    requires s.inProgress.Some? ==> s.inProgress.value < |s.ids|
  {
    if s.isr.ITest? && s.inProgress.None? then s.(isr := ISignal)
    else if s.isr.ISignal? || s.inProgress.None? then s.(full := true, isr := NoIsr)
    else
      var d := s.inProgress.value;
      var x := s.ids[d];
      match s.isr
      case NoIsr | ISignal => s
      case ITest(st) => s.(isr := IStatus(st))
      case IStatus(st) => With(s.(isr := ICall), d, x.(status := st, outcomes := x.outcomes + [st]))
      case ICall => With(s.(isr := if x.waiting then IUnmark else IUser), d, x.(called := x.called + 1))
      case IUnmark => With(s.(isr := IWake), d, x.(waiting := false))
      case IWake => With(s.(isr := IUser), d, x.(evt := true))
      case IUser => s.(isr := IClear)
      case IClear => s.(inProgress := None, isr := ISignal)
  }

  function Apply(s: State, st: Step): State
    requires Enabled(s, st)
  {
    match st
    case CallWait(d, mode) => With(s, d, s.ids[d].(pc := Mark(mode)))
    case CallPlain(d, mode) => With(s, d, s.ids[d].(pc := Reset(mode, false)))
    case Go(d, ok) => ThreadStep(s, d, ok)
    case Interrupt(st) => s.(flight := false, isr := ITest(st))
    case Isr => IsrStep(s)
  }

  // ---------------------------------------------------------------- the token

  predicate HoldsChannel(pc: Pc) {
    pc.Check? || pc.Setup? || pc.Cache? || pc.Own? || pc.Start? || pc.Undo? || pc.Give?
  }

  datatype Token = InEvent | WithThread(d: nat) | WithHardware | WithIsr

  /** Who has the channel. */
  predicate TokenIs(s: State, o: Token) {
    match o
    case InEvent => s.full
    case WithThread(d) => d < |s.ids| && HoldsChannel(s.ids[d].pc)
    case WithHardware => s.flight
    case WithIsr => !s.isr.NoIsr?
  }

  ghost predicate NoThreadHolds(s: State) {
    forall d: nat | d < |s.ids| :: !HoldsChannel(s.ids[d].pc)
  }

  ghost predicate TokenOk(s: State) {
    && (s.full ==> !s.flight && s.isr.NoIsr? && NoThreadHolds(s))
    && (s.flight ==> s.isr.NoIsr? && NoThreadHolds(s))
    && (!s.isr.NoIsr? ==> NoThreadHolds(s))
    && (forall d: nat, e: nat | d < |s.ids| && e < |s.ids| ::
          HoldsChannel(s.ids[d].pc) && HoldsChannel(s.ids[e].pc) ==> d == e)
    && (s.full || s.flight || !s.isr.NoIsr? || !NoThreadHolds(s))
  }

  ghost predicate InProgressOk(s: State) {
    && (s.inProgress.Some? ==> s.inProgress.value < |s.ids|)
    && (s.full ==> s.inProgress.None?)
    && (forall d: nat | d < |s.ids| && HoldsChannel(s.ids[d].pc) ::
          s.inProgress == if s.ids[d].pc.Start? || s.ids[d].pc.Undo? then Some(d) else None)
    && (s.flight || (!s.isr.NoIsr? && !s.isr.ISignal?) ==> s.inProgress.Some?)
    && (s.isr.ISignal? ==> s.inProgress.None?)
  }

  // ---------------------------------------------------------------- one identifier

  predicate Ended(s: State, d: nat) {
    !(s.inProgress == Some(d) && (s.flight || s.isr.ITest? || s.isr.IStatus?))
  }

  /** The interrupt routine is about to wake the thread of `d`. */
  predicate Waking(s: State, d: nat) {
    s.inProgress == Some(d) && (s.isr.IUnmark? || s.isr.IWake?)
  }

  ghost predicate CountsOk(s: State, d: nat)
    requires d < |s.ids|
  {
    var x := s.ids[d];
    && x.started == |x.outcomes| + (if Ended(s, d) then 0 else 1)
    && x.started == x.called + (if Pending(s, d) then 1 else 0)
  }

  predicate WaitPc(pc: Pc) {
    match pc
    case Reset(_, w) => w
    case Take(_, w) => w
    case Check(_, w) => w
    case Setup(_, w) => w
    case Cache(_, w) => w
    case Own(_, w) => w
    case Start(_, w) => w
    case Await => true
    case _ => false
  }

  /** A thread which is going to wait has its wake-up before it. */
  ghost predicate WakeOk(s: State, d: nat)
    requires d < |s.ids|
  {
    var x := s.ids[d];
    && (WaitPc(x.pc) ==> x.waiting || x.evt || Waking(s, d))
    && (x.pc.Await? && x.waiting ==> Pending(s, d) || (s.inProgress == Some(d) && s.isr.IUnmark?))
  }

  ghost predicate ResultsOk(x: Dma) {
    forall k | 0 <= k < |x.results| :: var r := x.results[k];
      r.started == r.ended && r.started > 0 && r.rc == if r.outcome != 0 then EIO else 0
  }

  ghost predicate WaitOk(s: State, d: nat)
    requires d < |s.ids|
  {
    var x := s.ids[d];
    match x.pc
    case Await =>
      && x.waiting == (Pending(s, d) || (s.inProgress == Some(d) && s.isr.IUnmark?))
      && x.evt == !(Pending(s, d) || Waking(s, d))
      && (Ended(s, d) ==> x.outcomes != [] && x.status == x.outcomes[|x.outcomes| - 1])
    case Result =>
      && !x.evt && !x.waiting && !Pending(s, d) && !Waking(s, d)
      && x.outcomes != [] && x.status == x.outcomes[|x.outcomes| - 1]
    case Idle | Undo | Give => !x.evt && !Waking(s, d) && (Pending(s, d) ==> !x.waiting)
    case Mark(_) => !x.evt && !Waking(s, d) && !Pending(s, d)
    case Reset(_, w) => !x.evt && !Waking(s, d) && x.waiting == w && (w ==> !Pending(s, d))
    case Take(_, w) => !x.evt && !Waking(s, d) && x.waiting == w && (w ==> !Pending(s, d))
    case Check(_, w) => !x.evt && !Waking(s, d) && x.waiting == w
    case Setup(_, w) => !x.evt && !Waking(s, d) && x.waiting == w
    case Cache(_, w) => !x.evt && !Waking(s, d) && x.waiting == w
    case Own(_, w) => !x.evt && !Waking(s, d) && x.waiting == w
    case Start(_, w) => !x.evt && !Waking(s, d) && x.waiting == w
  }

  /** What every run keeps and, if `disciplined`, what disciplined runs keep besides. */
  ghost predicate IdOk(disciplined: bool, s: State, d: nat)
    requires d < |s.ids|
  {
    CountsOk(s, d) && WakeOk(s, d) && (disciplined ==> WaitOk(s, d) && ResultsOk(s.ids[d]))
  }

  // ---------------------------------------------------------------- modes

  /** What a thread which has the channel knows about the modes. */
  ghost predicate PcMode(s: State, pc: Pc) {
    match pc
    case Setup(m, _) => m != s.seenCached && s.hwMode == s.seenChannel
    case Cache(m, _) => m != s.seenCached && s.hwMode == m
    case Own(m, _) => s.hwMode == if m != s.seenCached then m else s.seenChannel
    case Start(m, _) => s.hwMode == if m != s.seenCached then m else s.seenChannel
    case _ => true
  }

  ghost predicate ModeOk(s: State) {
    && (forall d: nat | d < |s.ids| :: PcMode(s, s.ids[d].pc))
    && (forall k | 0 <= k < |s.log| :: var l := s.log[k];
          l.used == if l.requested != l.cached then l.requested else l.channel)
  }

  ghost predicate Inv(disciplined: bool, s: State) {
    && TokenOk(s) && InProgressOk(s) && ModeOk(s)
    && (forall d: nat | d < |s.ids| :: IdOk(disciplined, s, d))
  }

  ghost predicate Initial(s: State) {
    && s.full && s.inProgress.None? && !s.flight && s.isr.NoIsr? && s.log == []
    && (forall d | 0 <= d < |s.ids| :: s.ids[d] == Dma(Idle, -1, 0, false, false, 0, [], 0, []))
  }

  lemma InitialInv(disciplined: bool, s: State)
    requires Initial(s)
    ensures Inv(disciplined, s)
  {
  }

  /** A thread which has the channel keeps it, gives it back, or hands it to the hardware. */
  lemma HolderKeepsToken(disciplined: bool, s: State, d: nat, ok: bool)
    requires Inv(disciplined, s) && Enabled(s, Go(d, ok)) && HoldsChannel(s.ids[d].pc)
    ensures TokenOk(ThreadStep(s, d, ok)) && InProgressOk(ThreadStep(s, d, ok))
  {
    var s' := ThreadStep(s, d, ok);
    assert !s.full && !s.flight && s.isr.NoIsr?;
    forall e: nat | e < |s.ids| && e != d
      ensures !HoldsChannel(s'.ids[e].pc)
    {
      assert !HoldsChannel(s.ids[e].pc);
    }
    if HoldsChannel(s'.ids[d].pc) {
      assert !NoThreadHolds(s');
    }
  }

  /** Steps which leave the channel alone. */
  lemma SameToken(s: State, s': State)
    requires TokenOk(s) && InProgressOk(s) && |s'.ids| == |s.ids|
    requires s'.full == s.full && s'.flight == s.flight && s'.isr == s.isr && s'.inProgress == s.inProgress
    requires forall e: nat | e < |s.ids| ::
      s'.ids[e].pc == s.ids[e].pc || (!HoldsChannel(s.ids[e].pc) && !HoldsChannel(s'.ids[e].pc))
    ensures TokenOk(s') && InProgressOk(s')
  {
    if e: nat :| e < |s.ids| && HoldsChannel(s.ids[e].pc) {
      assert HoldsChannel(s'.ids[e].pc);
    } else {
      assert NoThreadHolds(s) && NoThreadHolds(s');
    }
  }

  lemma TakeKeepsToken(disciplined: bool, s: State, d: nat, ok: bool)
    requires Inv(disciplined, s) && Enabled(s, Go(d, ok)) && s.ids[d].pc.Take?
    ensures TokenOk(ThreadStep(s, d, ok)) && InProgressOk(ThreadStep(s, d, ok))
  {
    var s' := ThreadStep(s, d, ok);
    assert NoThreadHolds(s) && HoldsChannel(s'.ids[d].pc);
    assert forall e: nat | e < |s.ids| && e != d :: s'.ids[e] == s.ids[e] && !HoldsChannel(s'.ids[e].pc);
  }

  lemma IsrKeepsToken(disciplined: bool, s: State)
    requires Inv(disciplined, s) && Enabled(s, Isr)
    ensures TokenOk(IsrStep(s)) && InProgressOk(IsrStep(s))
  {
    var s' := IsrStep(s);
    assert NoThreadHolds(s);
    assert NoThreadHolds(s');
  }

  lemma ThreadKeepsToken(disciplined: bool, s: State, d: nat, ok: bool)
    requires Inv(disciplined, s) && Enabled(s, Go(d, ok))
    ensures TokenOk(ThreadStep(s, d, ok)) && InProgressOk(ThreadStep(s, d, ok))
  {
    if HoldsChannel(s.ids[d].pc) {
      HolderKeepsToken(disciplined, s, d, ok);
    } else if s.ids[d].pc.Take? {
      TakeKeepsToken(disciplined, s, d, ok);
    } else {
      SameToken(s, ThreadStep(s, d, ok));
    }
  }

  lemma TokenKept(disciplined: bool, s: State, st: Step)
    requires Inv(disciplined, s) && Enabled(s, st)
    ensures TokenOk(Apply(s, st)) && InProgressOk(Apply(s, st))
  {
    match st
    case Go(d, ok) => ThreadKeepsToken(disciplined, s, d, ok);
    case Isr => IsrKeepsToken(disciplined, s);
    case CallWait(_, _) => SameToken(s, Apply(s, st));
    case CallPlain(_, _) => SameToken(s, Apply(s, st));
    case Interrupt(_) =>
      assert NoThreadHolds(Apply(s, st)) == NoThreadHolds(s);
  }

  lemma OwnMode(disciplined: bool, s: State, d: nat, ok: bool)
    requires Inv(disciplined, s) && Enabled(s, Go(d, ok))
    ensures var s' := ThreadStep(s, d, ok);
      && |s'.ids| == |s.ids| && PcMode(s', s'.ids[d].pc)
      && forall k | 0 <= k < |s'.log| :: var l := s'.log[k];
           l.used == if l.requested != l.cached then l.requested else l.channel
  {
    assert PcMode(s, s.ids[d].pc);
  }

  lemma OtherModes(disciplined: bool, s: State, d: nat, ok: bool, e: nat)
    requires Inv(disciplined, s) && Enabled(s, Go(d, ok)) && e < |s.ids| && e != d
    ensures var s' := ThreadStep(s, d, ok); |s'.ids| == |s.ids| && PcMode(s', s'.ids[e].pc)
  {
    assert ThreadStep(s, d, ok).ids[e] == s.ids[e] && PcMode(s, s.ids[e].pc);
    assert HoldsChannel(s.ids[d].pc) ==> !HoldsChannel(s.ids[e].pc);
  }

  lemma ThreadKeepsModes(disciplined: bool, s: State, d: nat, ok: bool)
    requires Inv(disciplined, s) && Enabled(s, Go(d, ok))
    ensures ModeOk(ThreadStep(s, d, ok))
  {
    OwnMode(disciplined, s, d, ok);
    forall e: nat | e < |s.ids| && e != d
      ensures PcMode(ThreadStep(s, d, ok), ThreadStep(s, d, ok).ids[e].pc)
    {
      OtherModes(disciplined, s, d, ok, e);
    }
  }

  lemma ModesKept(disciplined: bool, s: State, st: Step)
    requires Inv(disciplined, s) && Enabled(s, st)
    ensures ModeOk(Apply(s, st))
  {
    if st.Go? {
      ThreadKeepsModes(disciplined, s, st.d, st.ok);
    } else {
      forall e: nat | e < |Apply(s, st).ids|
        ensures PcMode(Apply(s, st), Apply(s, st).ids[e].pc)
      {
        assert PcMode(s, s.ids[e].pc);
      }
    }
  }

  lemma IdKept(disciplined: bool, s: State, st: Step, d: nat)
    requires Inv(disciplined, s) && Enabled(s, st) && (disciplined ==> Disciplined(s, st)) && d < |s.ids|
    ensures |Apply(s, st).ids| == |s.ids| && IdOk(disciplined, Apply(s, st), d)
  {
    var s' := Apply(s, st);
    assert IdOk(disciplined, s, d);
    match st
    case Go(e, ok) => ThreadKeepsId(disciplined, s, e, ok, d);
    case Isr => IsrKeepsId(disciplined, s, d);
    case CallWait(e, m) =>
    case CallPlain(e, m) =>
    case Interrupt(_) =>
      assert NoThreadHolds(s);
  }

  lemma ThreadKeepsId(disciplined: bool, s: State, e: nat, ok: bool, d: nat)
    requires Inv(disciplined, s) && Enabled(s, Go(e, ok)) && d < |s.ids|
    ensures |ThreadStep(s, e, ok).ids| == |s.ids| && IdOk(disciplined, ThreadStep(s, e, ok), d)
  {
    var s' := ThreadStep(s, e, ok);
    assert IdOk(disciplined, s, d);
    assert s'.isr == s.isr;
    if HoldsChannel(s.ids[e].pc) {
      assert !s.full && !s.flight && s.isr.NoIsr?;
    }
    if d == e {
      if HoldsChannel(s.ids[d].pc) {
        HolderKeepsOwnId(disciplined, s, d, ok);
      } else {
        OthersKeepOwnId(disciplined, s, d, ok);
      }
    } else {
      assert s'.ids[d] == s.ids[d];
      assert Pending(s', d) == Pending(s, d) && Waking(s', d) == Waking(s, d) && Ended(s', d) == Ended(s, d);
    }
  }

  lemma HolderKeepsOwnId(disciplined: bool, s: State, d: nat, ok: bool)
    requires Inv(disciplined, s) && Enabled(s, Go(d, ok)) && HoldsChannel(s.ids[d].pc)
    ensures IdOk(disciplined, ThreadStep(s, d, ok), d)
  {
    assert IdOk(disciplined, s, d);
    assert !s.full && !s.flight && s.isr.NoIsr?;
    assert !Pending(s, d) && !Waking(s, d) && Ended(s, d);
  }

  lemma OthersKeepOwnId(disciplined: bool, s: State, d: nat, ok: bool)
    requires Inv(disciplined, s) && Enabled(s, Go(d, ok)) && !HoldsChannel(s.ids[d].pc)
    ensures IdOk(disciplined, ThreadStep(s, d, ok), d)
  {
    var s' := ThreadStep(s, d, ok);
    assert IdOk(disciplined, s, d) && s'.isr == s.isr && s'.flight == s.flight && s'.inProgress == s.inProgress;
    assert Pending(s', d) == Pending(s, d) && Waking(s', d) == Waking(s, d) && Ended(s', d) == Ended(s, d);
  }

  lemma IsrKeepsId(disciplined: bool, s: State, d: nat)
    requires Inv(disciplined, s) && Enabled(s, Isr) && d < |s.ids|
    ensures |IsrStep(s).ids| == |s.ids| && IdOk(disciplined, IsrStep(s), d)
  {
    var s' := IsrStep(s);
    assert IdOk(disciplined, s, d);
    assert !HoldsChannel(s.ids[d].pc) by { assert NoThreadHolds(s); }
  }

  lemma IdsKept(disciplined: bool, s: State, st: Step)
    requires Inv(disciplined, s) && Enabled(s, st) && (disciplined ==> Disciplined(s, st))
    ensures |Apply(s, st).ids| == |s.ids|
    ensures forall d: nat | d < |s.ids| :: IdOk(disciplined, Apply(s, st), d)
  {
    SameIds(s, st);
    forall d: nat | d < |s.ids|
      ensures IdOk(disciplined, Apply(s, st), d)
    {
      IdKept(disciplined, s, st, d);
    }
  }

  lemma ThreadSameIds(s: State, d: nat, ok: bool)
    requires d < |s.ids|
    ensures |ThreadStep(s, d, ok).ids| == |s.ids|
  {
  }

  /** A step of a thread touches its own identifier only. */
  lemma ThreadFrame(s: State, d: nat, ok: bool)
    requires d < |s.ids|
    ensures ThreadStep(s, d, ok).ids == s.ids[d := ThreadStep(s, d, ok).ids[d]]
  {
  }

  lemma SameIds(s: State, st: Step)
    requires Enabled(s, st)
    ensures |Apply(s, st).ids| == |s.ids|
  {
    if st.Go? {
      ThreadSameIds(s, st.d, st.ok);
    }
  }

  lemma StepKeepsInv(disciplined: bool, s: State, st: Step)
    requires Inv(disciplined, s) && Enabled(s, st) && (disciplined ==> Disciplined(s, st))
    ensures Inv(disciplined, Apply(s, st))
  {
    TokenKept(disciplined, s, st);
    ModesKept(disciplined, s, st);
    IdsKept(disciplined, s, st);
  }

  // ---------------------------------------------------------------- runs

  /** An arbitrary interleaving; if `disciplined`, identifiers are used as `Disciplined` asks. */
  ghost predicate Run(disciplined: bool, s: State, steps: seq<Step>, s': State)
    decreases |steps|
  {
    if steps == [] then s == s'
    else
      && Enabled(s, steps[0]) && (disciplined ==> Disciplined(s, steps[0]))
      && Run(disciplined, Apply(s, steps[0]), steps[1..], s')
  }

  ghost predicate Reachable(disciplined: bool, s: State) {
    exists s0, steps :: Initial(s0) && Run(disciplined, s0, steps, s)
  }

  lemma {:induction false} RunKeepsInv(disciplined: bool, s: State, steps: seq<Step>, s': State)
    requires Inv(disciplined, s) && Run(disciplined, s, steps, s')
    ensures Inv(disciplined, s')
    decreases |steps|
  {
    if steps != [] {
      StepKeepsInv(disciplined, s, steps[0]);
      RunKeepsInv(disciplined, Apply(s, steps[0]), steps[1..], s');
    }
  }

  lemma ReachableInv(disciplined: bool, s: State)
    requires Reachable(disciplined, s)
    ensures Inv(disciplined, s)
  {
    var s0, steps :| Initial(s0) && Run(disciplined, s0, steps, s);
    InitialInv(disciplined, s0);
    RunKeepsInv(disciplined, s0, steps, s);
  }

  /** The channel is in exactly one place: the event, a thread, the hardware or the interrupt routine. */
  lemma OneToken(s: State)
    requires Reachable(false, s)
    ensures exists o :: TokenIs(s, o)
    ensures forall o, o' :: TokenIs(s, o) && TokenIs(s, o') ==> o == o'
  {
    ReachableInv(false, s);
    if s.full {
      assert TokenIs(s, InEvent);
    } else if s.flight {
      assert TokenIs(s, WithHardware);
    } else if !s.isr.NoIsr? {
      assert TokenIs(s, WithIsr);
    } else {
      var d: nat :| d < |s.ids| && HoldsChannel(s.ids[d].pc);
      assert TokenIs(s, WithThread(d));
    }
  }

  /** Every transfer started makes its callback exactly once, unless it has not yet come to it. */
  lemma OneCallback(s: State, d: nat)
    requires Reachable(false, s) && d < |s.ids|
    ensures s.ids[d].called == s.ids[d].started - if Pending(s, d) then 1 else 0
    ensures s.full ==> s.ids[d].called == s.ids[d].started == |s.ids[d].outcomes|
  {
    ReachableInv(false, s);
    assert IdOk(false, s, d);
  }

  /**
    An AndWait call returns after its own transfer has ended, never because of an older one, and
    returns 0 exactly when the hardware reported 0 for that transfer.
  */
  lemma WaitIsSound(s: State, d: nat, k: nat)
    requires Reachable(true, s) && d < |s.ids| && k < |s.ids[d].results|
    ensures var r := s.ids[d].results[k];
      r.ended == r.started > 0 && (r.rc == 0 <==> r.outcome == 0)
  {
    ReachableInv(true, s);
    assert IdOk(true, s, d);
  }

  /** A transfer which has ended wakes its thread: no thread waits for a wake-up that is over. */
  lemma WakeUpArrives(s: State, d: nat)
    requires Reachable(false, s) && d < |s.ids| && s.ids[d].pc.Await?
    ensures s.ids[d].evt || (s.inProgress == Some(d) && (s.flight || !s.isr.NoIsr?))
  {
    ReachableInv(false, s);
    assert IdOk(false, s, d);
  }

  /**
    A transfer runs in the mode it was requested with if and only if the request differed from
    the mode cached for its identifier or the channel was set to that mode already.
  */
  lemma ModeExactly(s: State, k: nat)
    requires Reachable(false, s) && k < |s.log|
    ensures var l := s.log[k];
      l.used == l.requested <==> l.requested != l.cached || l.channel == l.requested
  {
    ReachableInv(false, s);
  }
}
