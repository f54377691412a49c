/**
  Asynchronous two-phase processing of output records attached to generic variables.

  Scan threads take the lock-set lock and then the mutex of a generic variable; the low-level
  thread of a variable takes its mutex and then the lock-set lock. The module is a transition
  system with one step for every lock operation, every test and every assignment to shared
  state, so a run is an arbitrary interleaving. Record support (`dbProcess` and `process`) is
  the environment: a record whose PACT is set is skipped, phase 2 follows the forward links
  with PACT still set, and clears PACT before the lock-set lock is released.
*/
module AsyncGenVar {

  /** The low-level thread of variable `r`, scan thread `i`, or the initialisation of record `r`. */
  datatype Thread = LowLevel(r: nat) | Scan(i: nat) | Init(r: nat)

  /** A recursive mutex. */
  datatype Mutex = Free | Held(owner: Thread, depth: nat)

  /** The next statement of a thread which processes record `todo[0]` synchronously. */
  datatype Stage =
    | Next     // dbProcess: skip if PACT is set
    | Want     // lock the variable
    | Test     // phase 2? conflict?
    | SetRecP
    | SetPact
    | Store    // convert the field into the variable
    | Signal
    | Leave    // unlock the variable

  datatype Pc =
    /** Processing a list of records while holding the lock-set lock. */
    | Walk(todo: seq<nat>, at: Stage)
    // the documented low-level loop
    | LLoop                 // about to read `evt` and block on it
    | LWait                 // blocked on the event
    | LLock                 // devGenVarLock
    | LConsume              // use the variable
    | LTest                 // devGenVarProcComplete: first test of rec_p
    | LRelock               // nested lock
    | LRetest               // second test of rec_p
    | LScanLock             // dbScanLock
    | LNest                 // process: devGenVarPut locks once more
    | LPhase2               // devGenVarPhase2
    | LUnnest               // devGenVarPut unlocks; then forward links (Walk)
    | LUnscan               // dbScanUnlock
    | LClear                // rec_p = 0
    | LRelease(rc: int)     // nested unlock; devGenVarProcComplete returns rc
    | LUnlock               // devGenVarUnlock
    // a scan thread
    | SIdle
    | SWant(todo: seq<nat>) // dbScanLock
    // reading the variable back while the record is initialised
    | ILock | IHide | IGet | IRestore | IUnlock | IDone

  datatype Rec = Rec(
    flnk: seq<nat>,        // records processed by the forward link
    pact: bool,
    recP: bool,            // rec_p points to the record
    full: bool,            // the event is full
    hidden: bool,          // evt is temporarily NULL
    data: int,             // the variable
    mtx: Mutex,
    ll: Pc,                // low-level thread
    ini: Pc,               // initialisation
    written: seq<int>,     // values stored by phase 1
    consumed: seq<int>,    // values used by the low-level thread
    results: seq<int>)     // what devGenVarProcComplete returned

  datatype State = State(recs: seq<Rec>, scans: seq<Pc>, scanLock: Mutex, conflict: bool)

  /** One step of thread `t`; `todo` and `v` resolve its choices. */
  datatype Step = Step(t: Thread, todo: seq<nat>, v: int)

  // ---------------------------------------------------------------- threads and locks

  predicate Exists(s: State, t: Thread) {
    match t
    case LowLevel(r) => r < |s.recs|
    case Scan(i) => i < |s.scans|
    case Init(r) => r < |s.recs|
  }

  function PcOf(s: State, t: Thread): Pc {
    if !Exists(s, t) then SIdle else
    match t
    case LowLevel(r) => s.recs[r].ll
    case Scan(i) => s.scans[i]
    case Init(r) => s.recs[r].ini
  }

  function SetPc(s: State, t: Thread, pc: Pc): State
    requires Exists(s, t)
  {
    match t
    case LowLevel(r) => s.(recs := s.recs[r := s.recs[r].(ll := pc)])
    case Scan(i) => s.(scans := s.scans[i := pc])
    case Init(r) => s.(recs := s.recs[r := s.recs[r].(ini := pc)])
  }

  predicate CanLock(m: Mutex, t: Thread) {
    m.Free? || m.owner == t
  }

  function Lock(m: Mutex, t: Thread): Mutex {
    if m.Free? then Held(t, 1) else Held(t, m.depth + 1)
  }

  function Unlock(m: Mutex): Mutex {
    if m.Free? || m.depth <= 1 then Free else Held(m.owner, m.depth - 1)
  }

  function DepthOf(m: Mutex, t: Thread): nat {
    if m.Held? && m.owner == t then m.depth else 0
  }

  predicate InPut(at: Stage) {
    at.Test? || at.SetRecP? || at.SetPact? || at.Store? || at.Signal? || at.Leave?
  }

  /** How often a thread at `pc` has locked the mutex its own loop locks. */
  function OwnDepth(pc: Pc): nat {
    match pc
    case LConsume | LTest | LRelock | LUnlock => 1
    case LRetest | LScanLock | LNest | LUnscan | LClear | LRelease(_) | Walk(_, _) => 2
    case LPhase2 | LUnnest => 3
    case IHide | IGet | IRestore | IUnlock => 1
    case _ => 0
  }

  /** How often thread `t`, being at `pc`, has locked the mutex of variable `r`. */
  function Depth(t: Thread, pc: Pc, r: nat): nat {
    (if t.Scan? || t.r != r then 0 else OwnDepth(pc)) +
    (if pc.Walk? && InPut(pc.at) && |pc.todo| > 0 && pc.todo[0] == r then 1 else 0)
  }

  predicate HoldsScan(pc: Pc) {
    pc.Walk? || pc.LNest? || pc.LPhase2? || pc.LUnnest? || pc.LUnscan?
  }

  predicate InRange(todo: seq<nat>, n: nat) {
    forall f <- todo :: f < n
  }

  predicate PcOk(pc: Pc, n: nat) {
    match pc
    case Walk(todo, at) => InRange(todo, n) && (at.Next? || |todo| > 0)
    case SWant(todo) => InRange(todo, n)
    case _ => true
  }

  /** Which program points belong to which kind of thread. */
  predicate Kind(t: Thread, pc: Pc) {
    match t
    case Scan(_) => pc.SIdle? || pc.SWant? || pc.Walk?
    case Init(_) => pc.ILock? || pc.IHide? || pc.IGet? || pc.IRestore? || pc.IUnlock? || pc.IDone?
    case LowLevel(_) =>
      !(pc.SIdle? || pc.SWant? || pc.ILock? || pc.IHide? || pc.IGet? || pc.IRestore? || pc.IUnlock? || pc.IDone?)
  }

  ghost predicate WellFormed(s: State) {
    && (forall r: nat | r < |s.recs| :: InRange(s.recs[r].flnk, |s.recs|))
    && (forall t: Thread | Exists(s, t) :: Kind(t, PcOf(s, t)) && PcOk(PcOf(s, t), |s.recs|))
  }

  predicate AllInit(s: State) {
    forall r: nat | r < |s.recs| :: s.recs[r].ini.IDone?
  }

  // ---------------------------------------------------------------- steps

  /** The step of a thread is enabled unless the thread is blocked or has nothing to do. */
  ghost predicate Enabled(s: State, st: Step) {
    && Exists(s, st.t)
    && match PcOf(s, st.t)
       case Walk(todo, at) => at.Want? && |todo| > 0 && todo[0] < |s.recs| ==> CanLock(s.recs[todo[0]].mtx, st.t)
       case LWait => st.t.LowLevel? && s.recs[st.t.r].full
       case LLock | LRelock | LNest | ILock => !st.t.Scan? && CanLock(s.recs[st.t.r].mtx, st.t)
       case LScanLock | SWant(_) => s.scanLock.Free?
       case SIdle => AllInit(s) && InRange(st.todo, |s.recs|)
       case IDone => false
       case _ => true
  }

  function WithRec(s: State, f: nat, rec: Rec): State
    requires f < |s.recs|
  {
    s.(recs := s.recs[f := rec])
  }

  /** A thread processing a list of records: `dbProcess` and `devGenVarPut_nolock`, phase 1. */
  function WalkStep(s: State, t: Thread, v: int): State
    requires Exists(s, t) && PcOf(s, t).Walk? && PcOk(PcOf(s, t), |s.recs|)
  {
    var Walk(todo, at) := PcOf(s, t);
    if todo == [] then
      // end of the list: phase 2 clears PACT, a scan thread releases the lock set
      match t
      case LowLevel(r) => WithRec(s, r, s.recs[r].(pact := false, ll := LUnscan))
      case _ => SetPc(s.(scanLock := Unlock(s.scanLock)), t, SIdle)
    else
      assert todo[0] in todo;
      var f := todo[0];
      var rec := s.recs[f];
      match at
      case Next =>
        SetPc(s, t, if rec.pact then Walk(todo[1..], Next) else Walk(todo, Want))
      case Want =>
        SetPc(WithRec(s, f, rec.(mtx := Lock(rec.mtx, t))), t, Walk(todo, Test))
      case Test =>
        if rec.pact then SetPc(s, t, Walk(todo, Leave))
        else if rec.recP then SetPc(s.(conflict := true), t, Walk(todo, Leave))
        else SetPc(s, t, Walk(todo, SetRecP))
      case SetRecP =>
        SetPc(WithRec(s, f, rec.(recP := true)), t, Walk(todo, SetPact))
      case SetPact =>
        SetPc(WithRec(s, f, rec.(pact := true)), t, Walk(todo, Store))
      case Store =>
        SetPc(WithRec(s, f, rec.(data := v, written := rec.written + [v])), t, Walk(todo, Signal))
      case Signal =>
        SetPc(WithRec(s, f, rec.(full := rec.full || !rec.hidden)), t, Walk(todo, Leave))
      case Leave =>
        SetPc(WithRec(s, f, rec.(mtx := Unlock(rec.mtx))), t, Walk(todo[1..], Next))
  }

  /** The documented low-level loop with `devGenVarProcComplete` expanded: the variable and its record. */
  function LowLevelMove(rec: Rec, t: Thread): Rec {
    match rec.ll
    case LLoop => rec.(ll := if rec.hidden then LLock else LWait)
    case LWait => rec.(full := false, ll := LLock)
    case LLock => rec.(mtx := Lock(rec.mtx, t), ll := LConsume)
    case LConsume => rec.(consumed := rec.consumed + [rec.data], ll := LTest)
    case LTest =>
      if rec.recP then rec.(ll := LRelock)
      else rec.(results := rec.results + [-1], ll := LUnlock)
    case LRelock => rec.(mtx := Lock(rec.mtx, t), ll := LRetest)
    case LRetest => rec.(ll := if rec.recP then LScanLock else LRelease(-1))
    case LScanLock => rec.(ll := LNest)
    case LNest => rec.(mtx := Lock(rec.mtx, t), ll := LPhase2)
    case LPhase2 => rec.(ll := LUnnest)
    case LUnnest => rec.(mtx := Unlock(rec.mtx), ll := Walk(rec.flnk, Next))
    case LUnscan => rec.(ll := LClear)
    case LClear => rec.(recP := false, ll := LRelease(0))
    case LRelease(rc) => rec.(mtx := Unlock(rec.mtx), results := rec.results + [rc], ll := LUnlock)
    case LUnlock => rec.(mtx := Unlock(rec.mtx), ll := LLoop)
    case _ => rec
  }

  /** Phase 2 of a record whose PACT is clear would find `rec_p` set: devGenVarPut_nolock reports a conflict. */
  function LowLevelStep(s: State, r: nat): State
    requires r < |s.recs|
  {
    var rec := s.recs[r];
    var lock := if rec.ll.LScanLock? then Lock(s.scanLock, LowLevel(r))
                else if rec.ll.LUnscan? then Unlock(s.scanLock) else s.scanLock;
    s.(recs := s.recs[r := LowLevelMove(rec, LowLevel(r))],
       scanLock := lock,
       conflict := s.conflict || (rec.ll.LPhase2? && !rec.pact))
  }

  /** `devGenVarInitOutRec` reading the variable back with the event hidden. */
  function InitStep(s: State, r: nat): State
    requires r < |s.recs|
  {
    var t := Init(r);
    var rec := s.recs[r];
    match rec.ini
    case ILock => WithRec(s, r, rec.(mtx := Lock(rec.mtx, t), ini := IHide))
    case IHide => WithRec(s, r, rec.(hidden := true, ini := IGet))
    case IGet => WithRec(s, r, rec.(full := rec.full || !rec.hidden, ini := IRestore))
    case IRestore => WithRec(s, r, rec.(hidden := false, ini := IUnlock))
    case IUnlock => WithRec(s, r, rec.(mtx := Unlock(rec.mtx), ini := IDone))
    case _ => s
  }

  function ScanStep(s: State, i: nat, todo: seq<nat>): State
    requires i < |s.scans|
  {
    match s.scans[i]
    case SIdle => SetPc(s, Scan(i), SWant(todo))
    case SWant(job) => SetPc(s.(scanLock := Lock(s.scanLock, Scan(i))), Scan(i), Walk(job, Next))
    case _ => s
  }

  ghost function Apply(s: State, st: Step): State
    requires WellFormed(s) && Enabled(s, st)
  {
    if PcOf(s, st.t).Walk? then WalkStep(s, st.t, st.v)
    else match st.t
      case LowLevel(r) => LowLevelStep(s, r)
      case Init(r) => InitStep(s, r)
      case Scan(i) => ScanStep(s, i, st.todo)
  }

  /** A low-level thread starts to wait although its event is hidden. */
  predicate BlindWait(s: State, t: Thread) {
    t.LowLevel? && t.r < |s.recs| && s.recs[t.r].ll.LLoop? && s.recs[t.r].hidden
  }

  // ---------------------------------------------------------------- the invariant

  ghost predicate ScanLockOk(s: State) {
    && (s.scanLock.Held? ==> s.scanLock.depth == 1)
    && forall t: Thread :: DepthOf(s.scanLock, t) == if HoldsScan(PcOf(s, t)) then 1 else 0
  }

  ghost predicate MutexOk(s: State) {
    && (forall r: nat | r < |s.recs| :: s.recs[r].mtx.Held? ==> s.recs[r].mtx.depth > 0)
    && forall t: Thread, r: nat | r < |s.recs| :: DepthOf(s.recs[r].mtx, t) == Depth(t, PcOf(s, t), r)
  }

  /** PACT of the record a thread is working on. */
  ghost predicate WalkOk(s: State) {
    forall t: Thread :: var pc := PcOf(s, t);
      pc.Walk? && |pc.todo| > 0 && pc.todo[0] < |s.recs| && !pc.at.Next? ==>
        && t != LowLevel(pc.todo[0])
        && (pc.at.Want? || pc.at.Test? || pc.at.SetRecP? || pc.at.SetPact? ==> !s.recs[pc.todo[0]].pact)
  }

  /** The program point of the thread, other than its low-level thread, which holds the mutex. */
  function Filler(s: State, r: nat): Pc
    requires r < |s.recs|
  {
    var m := s.recs[r].mtx;
    if m.Held? && m.owner != LowLevel(r) then PcOf(s, m.owner) else SIdle
  }

  /** `rec_p`, PACT and event have these values and this many values wait to be consumed. */
  predicate Has(rec: Rec, recP: bool, pact: bool, full: bool, pending: bool) {
    && rec.recP == recP && rec.pact == pact && rec.full == full
    && rec.written == rec.consumed + if pending then [rec.data] else []
  }

  /** `rec_p` and PACT have these values, and the event is full if it has to be. */
  predicate Marked(rec: Rec, recP: bool, pact: bool, full: bool) {
    rec.recP == recP && rec.pact == pact && (full ==> rec.full)
  }

  /**
    How `rec_p`, PACT and the event hang together in every run. A low-level thread which has not
    waited for its event may find anything between nothing and a pending record.
  */
  predicate Coupled(rec: Rec, filler: Pc) {
    && rec.hidden == (rec.ini.IGet? || rec.ini.IRestore?)
    && (!rec.ini.IDone? ==> Marked(rec, false, false, false) && !rec.full && Unarmed(rec.ll))
    && (rec.ini.ILock? || rec.ini.IHide? ==> rec.ll.LLoop? || rec.ll.LWait?)
    && match rec.ll
       case LLoop | LWait | LLock =>
         if !filler.Walk? then Marked(rec, rec.pact, rec.pact, rec.pact && !rec.ll.LLock?) else (
         match filler.at
         case Test | SetRecP => Marked(rec, false, false, false)
         case SetPact => Marked(rec, true, false, false)
         case Store | Signal => Marked(rec, true, true, false)
         case _ => Marked(rec, true, true, !rec.ll.LLock?))
       case LConsume | LTest => Marked(rec, rec.pact, rec.pact, false)
       case LUnscan | LClear => Marked(rec, true, false, false)
       case LRelease(rc) => rc == 0 && Marked(rec, false, false, false)
       case LUnlock => Marked(rec, false, false, false)
       case _ => Marked(rec, true, true, false)
  }

  /** Where a low-level thread can be while no record has been processed. */
  predicate Unarmed(ll: Pc) {
    ll.LLoop? || ll.LWait? || ll.LLock? || ll.LConsume? || ll.LTest? || ll.LUnlock?
  }

  /** What holds besides if no thread has begun to wait on a hidden event: nothing lost, nothing spurious. */
  predicate Exact(rec: Rec, filler: Pc) {
    && (forall k | 0 <= k < |rec.results| :: rec.results[k] == 0)
    && (!rec.ini.IDone? ==> Has(rec, false, false, false, false) && (rec.ll.LLoop? || rec.ll.LWait?))
    && match rec.ll
       case LLoop | LWait =>
         if !filler.Walk? then Has(rec, rec.full, rec.full, rec.full, rec.full) else (
         match filler.at
         case Test | SetRecP => Has(rec, false, false, false, false)
         case SetPact => Has(rec, true, false, false, false)
         case Store => Has(rec, true, true, false, false)
         case Signal => Has(rec, true, true, false, true)
         case _ => Has(rec, true, true, true, true))
       case LLock =>
         Has(rec, true, true, false, true) && (filler.Walk? ==> filler.at.Leave?)
       case LConsume => Has(rec, true, true, false, true)
       case LUnscan | LClear => Has(rec, true, false, false, false)
       case LRelease(rc) => Has(rec, false, false, false, false)
       case LUnlock => Has(rec, false, false, false, false)
       case _ => Has(rec, true, true, false, false)
  }

  predicate RecOk(careful: bool, rec: Rec, filler: Pc) {
    Coupled(rec, filler) && (careful ==> Exact(rec, filler))
  }

  ghost predicate StartOk(careful: bool, s: State) {
    !AllInit(s) ==>
      && s.scanLock.Free?
      && (forall t: Thread :: !PcOf(s, t).Walk? && !PcOf(s, t).SWant?)
      && (forall r: nat | r < |s.recs| ::
           !s.recs[r].full && !s.recs[r].recP && !s.recs[r].pact && Unarmed(s.recs[r].ll))
      && (careful ==> forall r: nat | r < |s.recs| :: s.recs[r].ll.LLoop? || s.recs[r].ll.LWait?)
  }

  ghost predicate Locks(s: State) {
    WellFormed(s) && ScanLockOk(s) && MutexOk(s)
  }

  /** The invariant of all runs and, if `careful`, what runs without a wait on a hidden event keep besides. */
  ghost predicate Inv(careful: bool, s: State) {
    && Locks(s)
    && WalkOk(s)
    && StartOk(careful, s)
    && !s.conflict
    && (forall r: nat | r < |s.recs| :: RecOk(careful, s.recs[r], Filler(s, r)))
  }

  /** All threads are at their start; a record with PINI set is not read back (`IDone`). */
  ghost predicate Initial(s: State) {
    && (forall r: nat | r < |s.recs| :: var rec := s.recs[r];
         && InRange(rec.flnk, |s.recs|)
         && Has(rec, false, false, false, false) && !rec.hidden && rec.mtx.Free?
         && rec.written == rec.consumed == rec.results == []
         && rec.ll.LLoop? && (rec.ini.ILock? || rec.ini.IDone?))
    && (forall i: nat | i < |s.scans| :: s.scans[i].SIdle?)
    && s.scanLock.Free? && !s.conflict
  }

  lemma InitialInv(careful: bool, s: State)
    requires Initial(s)
    ensures Inv(careful, s)
  {
  }

  // ---------------------------------------------------------------- every step keeps it

  predicate Only(m: Mutex, t: Thread) {
    m.Free? || m.owner == t
  }

  /** Only thread `t` has moved, and locks have changed only hands with `t`. */
  ghost predicate OnlyMoves(s: State, s': State, t: Thread) {
    && |s'.recs| == |s.recs| && |s'.scans| == |s.scans|
    && Exists(s, t)
    && (forall u: Thread | u != t :: PcOf(s', u) == PcOf(s, u))
    && (s'.scanLock == s.scanLock || (Only(s.scanLock, t) && Only(s'.scanLock, t)))
    && (forall r: nat | r < |s.recs| ::
         && s'.recs[r].flnk == s.recs[r].flnk
         && (s'.recs[r].mtx == s.recs[r].mtx || (Only(s.recs[r].mtx, t) && Only(s'.recs[r].mtx, t))))
  }

  lemma LocksKept(s: State, s': State, t: Thread)
    requires Locks(s) && OnlyMoves(s, s', t)
    requires Kind(t, PcOf(s', t)) && PcOk(PcOf(s', t), |s.recs|)
    requires s'.scanLock.Held? ==> s'.scanLock.depth == 1
    requires DepthOf(s'.scanLock, t) == if HoldsScan(PcOf(s', t)) then 1 else 0
    requires forall r: nat | r < |s.recs| ::
      && DepthOf(s'.recs[r].mtx, t) == Depth(t, PcOf(s', t), r)
      && (s'.recs[r].mtx.Held? ==> s'.recs[r].mtx.depth > 0)
    ensures Locks(s')
  {
  }

  /** What a low-level step does to the mutex. */
  lemma LowLevelMutex(rec: Rec, t: Thread)
    requires Kind(t, rec.ll) && t.LowLevel? && !rec.ll.Walk?
    requires DepthOf(rec.mtx, t) == OwnDepth(rec.ll) && (rec.mtx.Held? ==> rec.mtx.depth > 0)
    requires rec.ll.LLock? || rec.ll.LRelock? || rec.ll.LNest? ==> CanLock(rec.mtx, t)
    ensures var rec' := LowLevelMove(rec, t);
      && DepthOf(rec'.mtx, t) == OwnDepth(rec'.ll) && (rec'.mtx.Held? ==> rec'.mtx.depth > 0)
      && (rec'.mtx == rec.mtx || (Only(rec.mtx, t) && Only(rec'.mtx, t)))
  {
    MutexAfter(rec, t);
  }

  lemma MutexAfter(rec: Rec, t: Thread)
    ensures LowLevelMove(rec, t).mtx ==
      if rec.ll.LLock? || rec.ll.LRelock? || rec.ll.LNest? then Lock(rec.mtx, t)
      else if rec.ll.LUnnest? || rec.ll.LRelease? || rec.ll.LUnlock? then Unlock(rec.mtx)
      else rec.mtx
  {
  }

  /** What it leaves alone. */
  lemma LowLevelFrame(rec: Rec, t: Thread)
    ensures var rec' := LowLevelMove(rec, t);
      rec'.flnk == rec.flnk && rec'.pact == rec.pact && rec'.ini == rec.ini && rec'.hidden == rec.hidden
  {
  }

  /** Where it leads. */
  lemma LowLevelTarget(rec: Rec, t: Thread)
    requires Kind(t, rec.ll) && t.LowLevel? && !rec.ll.Walk?
    ensures Kind(t, LowLevelMove(rec, t).ll)
  {
    if OwnDepth(rec.ll) < 2 {
      OuterTarget(rec, t);
    } else {
      InnerTarget(rec, t);
    }
  }

  lemma OuterTarget(rec: Rec, t: Thread)
    requires Kind(t, rec.ll) && t.LowLevel? && OwnDepth(rec.ll) < 2
    ensures Kind(t, LowLevelMove(rec, t).ll)
  {
  }

  lemma InnerTarget(rec: Rec, t: Thread)
    requires Kind(t, rec.ll) && t.LowLevel? && !rec.ll.Walk? && OwnDepth(rec.ll) >= 2
    ensures Kind(t, LowLevelMove(rec, t).ll)
  {
  }

  lemma LowLevelWalk(rec: Rec, t: Thread)
    requires !rec.ll.Walk?
    ensures LowLevelMove(rec, t).ll.Walk? ==> LowLevelMove(rec, t).ll == Walk(rec.flnk, Next)
  {
  }

  lemma LowLevelScanLock(rec: Rec, t: Thread)
    requires Kind(t, rec.ll) && t.LowLevel? && !rec.ll.Walk?
    ensures HoldsScan(LowLevelMove(rec, t).ll) == (rec.ll.LScanLock? || (HoldsScan(rec.ll) && !rec.ll.LUnscan?))
  {
  }

  lemma LowLevelLocal(rec: Rec, t: Thread)
    requires Kind(t, rec.ll) && t.LowLevel? && !rec.ll.Walk?
    ensures var rec' := LowLevelMove(rec, t);
      && rec'.flnk == rec.flnk && rec'.pact == rec.pact && rec'.ini == rec.ini && rec'.hidden == rec.hidden
      && Kind(t, rec'.ll) && (rec'.ll.Walk? ==> rec'.ll == Walk(rec.flnk, Next))
      && HoldsScan(rec'.ll) == (rec.ll.LScanLock? || (HoldsScan(rec.ll) && !rec.ll.LUnscan?))
  {
    LowLevelFrame(rec, t);
    LowLevelTarget(rec, t);
    LowLevelWalk(rec, t);
    LowLevelScanLock(rec, t);
  }

  lemma LowLevelMoves(s: State, r: nat)
    requires Locks(s) && r < |s.recs| && !s.recs[r].ll.Walk? && Enabled(s, Step(LowLevel(r), [], 0))
    ensures OnlyMoves(s, LowLevelStep(s, r), LowLevel(r))
    ensures var t, s' := LowLevel(r), LowLevelStep(s, r);
      && Kind(t, PcOf(s', t)) && PcOk(PcOf(s', t), |s.recs|)
      && (s'.scanLock.Held? ==> s'.scanLock.depth == 1)
      && DepthOf(s'.scanLock, t) == (if HoldsScan(PcOf(s', t)) then 1 else 0)
  {
    var t := LowLevel(r);
    assert Kind(t, PcOf(s, t)) && PcOf(s, t) == s.recs[r].ll;
    assert DepthOf(s.recs[r].mtx, t) == Depth(t, PcOf(s, t), r);
    assert DepthOf(s.scanLock, t) == if HoldsScan(PcOf(s, t)) then 1 else 0;
    LowLevelMutex(s.recs[r], t);
    LowLevelLocal(s.recs[r], t);
  }

  lemma LowLevelMutexes(s: State, r: nat, q: nat)
    requires Locks(s) && r < |s.recs| && q < |s.recs|
    requires !s.recs[r].ll.Walk? && Enabled(s, Step(LowLevel(r), [], 0))
    ensures var t, s' := LowLevel(r), LowLevelStep(s, r);
      && DepthOf(s'.recs[q].mtx, t) == Depth(t, PcOf(s', t), q)
      && (s'.recs[q].mtx.Held? ==> s'.recs[q].mtx.depth > 0)
  {
    var t := LowLevel(r);
    assert Kind(t, PcOf(s, t)) && PcOf(s, t) == s.recs[r].ll;
    assert DepthOf(s.recs[r].mtx, t) == Depth(t, PcOf(s, t), r);
    assert DepthOf(s.recs[q].mtx, t) == Depth(t, PcOf(s, t), q);
    LowLevelMutex(s.recs[r], t);
    LowLevelLocal(s.recs[r], t);
  }

  lemma LowLevelCoupled(careful: bool, s: State, r: nat)
    requires Inv(careful, s) && r < |s.recs| && !s.recs[r].ll.Walk? && Enabled(s, Step(LowLevel(r), [], 0))
    ensures var s' := LowLevelStep(s, r); Coupled(s'.recs[r], Filler(s', r)) && !s'.conflict
  {
    var s', t := LowLevelStep(s, r), LowLevel(r);
    assert Kind(t, PcOf(s, t));
    assert RecOk(careful, s.recs[r], Filler(s, r));
    assert DepthOf(s.recs[r].mtx, t) == Depth(t, PcOf(s, t), r);
    LowLevelMoves(s, r);
  }

  lemma LowLevelExact(s: State, r: nat)
    requires Inv(true, s) && r < |s.recs| && !s.recs[r].ll.Walk? && Enabled(s, Step(LowLevel(r), [], 0))
    requires !BlindWait(s, LowLevel(r))
    ensures var s' := LowLevelStep(s, r); Exact(s'.recs[r], Filler(s', r))
  {
    var s', t := LowLevelStep(s, r), LowLevel(r);
    assert Kind(t, PcOf(s, t));
    assert RecOk(true, s.recs[r], Filler(s, r));
    assert DepthOf(s.recs[r].mtx, t) == Depth(t, PcOf(s, t), r);
    LowLevelMoves(s, r);
  }

  lemma LowLevelRec(careful: bool, s: State, r: nat)
    requires Inv(careful, s) && r < |s.recs| && !s.recs[r].ll.Walk? && Enabled(s, Step(LowLevel(r), [], 0))
    requires careful ==> !BlindWait(s, LowLevel(r))
    ensures var s' := LowLevelStep(s, r); RecOk(careful, s'.recs[r], Filler(s', r)) && !s'.conflict
  {
    LowLevelCoupled(careful, s, r);
    if careful {
      LowLevelExact(s, r);
    }
  }

  /** A record whose mutex was not held by the moving thread and which has not changed stays consistent. */
  lemma OtherRecKept(careful: bool, s: State, s': State, t: Thread, q: nat)
    requires Inv(careful, s) && OnlyMoves(s, s', t) && q < |s.recs|
    requires s'.recs[q] == s.recs[q]
    requires DepthOf(s.recs[q].mtx, t) == 0
    ensures RecOk(careful, s'.recs[q], Filler(s', q))
  {
    assert RecOk(careful, s.recs[q], Filler(s, q));
  }

  lemma LowLevelKeepsInv(careful: bool, s: State, r: nat)
    requires Inv(careful, s) && r < |s.recs| && !s.recs[r].ll.Walk? && Enabled(s, Step(LowLevel(r), [], 0))
    requires careful ==> !BlindWait(s, LowLevel(r))
    ensures Inv(careful, LowLevelStep(s, r))
  {
    var s', t := LowLevelStep(s, r), LowLevel(r);
    LowLevelMoves(s, r);
    forall q: nat | q < |s.recs|
      ensures DepthOf(s'.recs[q].mtx, t) == Depth(t, PcOf(s', t), q)
      ensures s'.recs[q].mtx.Held? ==> s'.recs[q].mtx.depth > 0
    {
      LowLevelMutexes(s, r, q);
    }
    LocksKept(s, s', t);
    forall q: nat | q < |s.recs|
      ensures RecOk(careful, s'.recs[q], Filler(s', q))
    {
      if q == r {
        LowLevelRec(careful, s, r);
      } else {
        assert Depth(t, PcOf(s, t), q) == 0;
        OtherRecKept(careful, s, s', t, q);
      }
    }
    LowLevelRec(careful, s, r);
    LowLevelWalks(careful, s, r);
    LowLevelStarts(careful, s, r);
  }

  lemma LowLevelWalks(careful: bool, s: State, r: nat)
    requires Inv(careful, s) && r < |s.recs| && !s.recs[r].ll.Walk? && Enabled(s, Step(LowLevel(r), [], 0))
    ensures WalkOk(LowLevelStep(s, r))
  {
    var t := LowLevel(r);
    assert Kind(t, PcOf(s, t)) && PcOf(s, t) == s.recs[r].ll;
    assert DepthOf(s.recs[r].mtx, t) == Depth(t, PcOf(s, t), r);
    LowLevelMutex(s.recs[r], t);
    LowLevelLocal(s.recs[r], t);
    LowLevelMoves(s, r);
  }

  lemma LowLevelStarts(careful: bool, s: State, r: nat)
    requires Inv(careful, s) && r < |s.recs| && !s.recs[r].ll.Walk? && Enabled(s, Step(LowLevel(r), [], 0))
    requires careful ==> !BlindWait(s, LowLevel(r))
    ensures StartOk(careful, LowLevelStep(s, r))
  {
    LowLevelMoves(s, r);
    LowLevelRecord(careful, s, r);
  }

  /** A low-level step changes no PACT, and outside the idle loop it is made after initialisation. */
  lemma LowLevelRecord(careful: bool, s: State, r: nat)
    requires Inv(careful, s) && r < |s.recs| && !s.recs[r].ll.Walk? && Enabled(s, Step(LowLevel(r), [], 0))
    requires careful ==> !BlindWait(s, LowLevel(r))
    ensures var rec, rec' := s.recs[r], LowLevelStep(s, r).recs[r];
      && rec'.pact == rec.pact && rec'.ini == rec.ini
      && (forall q: nat | q < |s.recs| && q != r :: LowLevelStep(s, r).recs[q] == s.recs[q])
      && (!AllInit(s) ==> !rec'.full && !rec'.recP && Unarmed(rec'.ll) && LowLevelStep(s, r).scanLock == s.scanLock)
      && (careful && !AllInit(s) ==> rec'.ll.LLoop? || rec'.ll.LWait?)
  {
    assert RecOk(careful, s.recs[r], Filler(s, r));
    assert Kind(LowLevel(r), PcOf(s, LowLevel(r)));
  }

  lemma InitMoves(careful: bool, s: State, r: nat)
    requires Inv(careful, s) && r < |s.recs| && Enabled(s, Step(Init(r), [], 0))
    ensures OnlyMoves(s, InitStep(s, r), Init(r)) && !AllInit(s)
    ensures var t, s' := Init(r), InitStep(s, r);
      && Kind(t, PcOf(s', t)) && s'.scanLock == s.scanLock
      && DepthOf(s'.scanLock, t) == 0
  {
    var s', t := InitStep(s, r), Init(r);
    assert Kind(t, PcOf(s, t));
    assert DepthOf(s.recs[r].mtx, t) == Depth(t, PcOf(s, t), r);
  }

  lemma InitMutexes(s: State, r: nat, q: nat)
    requires Locks(s) && r < |s.recs| && q < |s.recs| && Enabled(s, Step(Init(r), [], 0))
    ensures var t, s' := Init(r), InitStep(s, r);
      && DepthOf(s'.recs[q].mtx, t) == Depth(t, PcOf(s', t), q)
      && (s'.recs[q].mtx.Held? ==> s'.recs[q].mtx.depth > 0)
  {
    assert Kind(Init(r), PcOf(s, Init(r)));
    assert DepthOf(s.recs[q].mtx, Init(r)) == Depth(Init(r), PcOf(s, Init(r)), q);
  }

  lemma InitKeepsInv(careful: bool, s: State, r: nat)
    requires Inv(careful, s) && r < |s.recs| && Enabled(s, Step(Init(r), [], 0))
    ensures Inv(careful, InitStep(s, r))
  {
    var s', t := InitStep(s, r), Init(r);
    InitMoves(careful, s, r);
    forall q: nat | q < |s.recs|
      ensures DepthOf(s'.recs[q].mtx, t) == Depth(t, PcOf(s', t), q)
      ensures s'.recs[q].mtx.Held? ==> s'.recs[q].mtx.depth > 0
    {
      InitMutexes(s, r, q);
    }
    LocksKept(s, s', t);
    forall q: nat | q < |s.recs|
      ensures RecOk(careful, s'.recs[q], Filler(s', q))
    {
      if q == r {
        InitRec(careful, s, r);
      } else {
        assert Depth(t, PcOf(s, t), q) == 0;
        OtherRecKept(careful, s, s', t, q);
      }
    }
  }

  lemma InitRec(careful: bool, s: State, r: nat)
    requires Inv(careful, s) && r < |s.recs| && Enabled(s, Step(Init(r), [], 0))
    ensures RecOk(careful, InitStep(s, r).recs[r], Filler(InitStep(s, r), r))
  {
    var s', t := InitStep(s, r), Init(r);
    InitMoves(careful, s, r);
    assert RecOk(careful, s.recs[r], Filler(s, r));
  }

  lemma ScanKeepsInv(careful: bool, s: State, i: nat, todo: seq<nat>)
    requires Inv(careful, s) && i < |s.scans| && !s.scans[i].Walk? && Enabled(s, Step(Scan(i), todo, 0))
    ensures Inv(careful, ScanStep(s, i, todo))
  {
    var s', t := ScanStep(s, i, todo), Scan(i);
    assert Kind(t, PcOf(s, t));
    assert OnlyMoves(s, s', t);
    LocksKept(s, s', t);
    forall q: nat | q < |s.recs|
      ensures RecOk(careful, s'.recs[q], Filler(s', q))
    {
      assert Depth(t, PcOf(s, t), q) == 0;
      OtherRecKept(careful, s, s', t, q);
    }
  }

  ghost predicate CanWalk(careful: bool, s: State, t: Thread) {
    Inv(careful, s) && Exists(s, t) && PcOf(s, t).Walk? && Enabled(s, Step(t, [], 0))
  }

  /** What a processing step does to the record at the head of the list. */
  function HeadStep(rec: Rec, t: Thread, at: Stage, v: int): Rec {
    match at
    case Want => rec.(mtx := Lock(rec.mtx, t))
    case SetRecP => rec.(recP := true)
    case SetPact => rec.(pact := true)
    case Store => rec.(data := v, written := rec.written + [v])
    case Signal => rec.(full := rec.full || !rec.hidden)
    case Leave => rec.(mtx := Unlock(rec.mtx))
    case _ => rec
  }

  function Following(at: Stage): Stage {
    match at
    case Next => Want
    case Want => Test
    case Test => SetRecP
    case SetRecP => SetPact
    case SetPact => Store
    case Store => Signal
    case Signal => Leave
    case Leave => Next
  }

  function NextPc(rec: Rec, todo: seq<nat>, at: Stage): Pc
    requires todo != []
  {
    if at.Leave? || (at.Next? && rec.pact) then Walk(todo[1..], Next) else Walk(todo, Following(at))
  }

  /** While a thread is inside devGenVarPut the low-level thread is before or after its critical section. */
  lemma HeadRec(careful: bool, s: State, t: Thread)
    requires Inv(careful, s) && Exists(s, t) && PcOf(s, t).Walk? && PcOf(s, t).todo != [] && !PcOf(s, t).at.Next?
    ensures var f, at := PcOf(s, t).todo[0], PcOf(s, t).at;
      && f < |s.recs| && t != LowLevel(f)
      && s.recs[f].ini.IDone?
      && (InPut(at) ==>
           && s.recs[f].mtx == Held(t, 1) && Filler(s, f) == PcOf(s, t)
           && (s.recs[f].ll.LLoop? || s.recs[f].ll.LWait? || s.recs[f].ll.LLock?)
           && (careful && s.recs[f].ll.LLock? ==> at.Leave?))
  {
    var f := PcOf(s, t).todo[0];
    assert f in PcOf(s, t).todo;
    assert Kind(t, PcOf(s, t));
    assert RecOk(careful, s.recs[f], Filler(s, f));
    assert DepthOf(s.recs[f].mtx, t) == Depth(t, PcOf(s, t), f);
    assert DepthOf(s.recs[f].mtx, LowLevel(f)) == Depth(LowLevel(f), PcOf(s, LowLevel(f)), f);
    assert Kind(LowLevel(f), PcOf(s, LowLevel(f)));
    assert AllInit(s);
  }

  /** A processing step on a non-empty list changes its first record and the program point. */
  ghost predicate WalkEffect(s: State, s': State, t: Thread, v: int) {
    && PcOf(s, t).Walk? && PcOf(s, t).todo != [] && PcOf(s, t).todo[0] < |s.recs|
    && var Walk(todo, at) := PcOf(s, t);
       var f := todo[0];
       && Exists(s, t) && PcOf(s', t) == NextPc(s.recs[f], todo, at)
       && s'.scanLock == s.scanLock && s'.conflict == s.conflict
       && |s'.recs| == |s.recs| && |s'.scans| == |s.scans|
       && (forall u: Thread | u != t :: PcOf(s', u) == PcOf(s, u))
       && (forall q: nat | q < |s.recs| && q != f ::
             s'.recs[q] == s.recs[q].(ll := s'.recs[q].ll, ini := s'.recs[q].ini))
       && s'.recs[f] == HeadStep(s.recs[f], t, at, v).(ll := s'.recs[f].ll, ini := s'.recs[f].ini)
  }

  lemma MovesOnly(s: State, t: Thread, pc: Pc, f: nat, rec: Rec, u: Thread)
    requires Exists(s, t) && f < |s.recs| && u != t
    requires rec.ll == s.recs[f].ll && rec.ini == s.recs[f].ini
    ensures PcOf(SetPc(WithRec(s, f, rec), t, pc), u) == PcOf(s, u)
  {
    var w := WithRec(s, f, rec);
    assert PcOf(w, u) == PcOf(s, u);
    assert Exists(w, t);
    assert PcOf(SetPc(w, t, pc), u) == PcOf(w, u);
  }

  lemma MovesWith(s: State, t: Thread, pc: Pc, f: nat, rec: Rec)
    requires Exists(s, t) && f < |s.recs|
    requires rec.ll == s.recs[f].ll && rec.ini == s.recs[f].ini
    ensures var s' := SetPc(WithRec(s, f, rec), t, pc);
      && PcOf(s', t) == pc && s'.scanLock == s.scanLock && s'.conflict == s.conflict
      && |s'.recs| == |s.recs| && |s'.scans| == |s.scans|
      && (forall u: Thread | u != t :: PcOf(s', u) == PcOf(s, u))
      && (forall q: nat | q < |s.recs| && q != f ::
            s'.recs[q] == s.recs[q].(ll := s'.recs[q].ll, ini := s'.recs[q].ini))
      && s'.recs[f] == rec.(ll := s'.recs[f].ll, ini := s'.recs[f].ini)
  {
    forall u: Thread | u != t ensures PcOf(SetPc(WithRec(s, f, rec), t, pc), u) == PcOf(s, u) {
      MovesOnly(s, t, pc, f, rec, u);
    }
  }

  lemma WalkShape(s: State, t: Thread, v: int)
    requires Exists(s, t) && PcOf(s, t).Walk? && PcOf(s, t).todo != [] && PcOk(PcOf(s, t), |s.recs|)
    requires PcOf(s, t).todo[0] < |s.recs|
    requires PcOf(s, t).at.Test? ==> var rec := s.recs[PcOf(s, t).todo[0]]; !rec.pact && !rec.recP
    ensures var Walk(todo, at) := PcOf(s, t);
      var f := todo[0];
      WalkStep(s, t, v) == SetPc(WithRec(s, f, HeadStep(s.recs[f], t, at, v)), t, NextPc(s.recs[f], todo, at))
  {
    var f := PcOf(s, t).todo[0];
    assert WithRec(s, f, s.recs[f]) == s;
  }

  lemma WalkHasEffect(s: State, t: Thread, v: int)
    requires Exists(s, t) && PcOf(s, t).Walk? && PcOf(s, t).todo != [] && PcOk(PcOf(s, t), |s.recs|)
    requires PcOf(s, t).todo[0] < |s.recs|
    requires PcOf(s, t).at.Test? ==> var rec := s.recs[PcOf(s, t).todo[0]]; !rec.pact && !rec.recP
    ensures WalkEffect(s, WalkStep(s, t, v), t, v)
  {
    var Walk(todo, at) := PcOf(s, t);
    var f := todo[0];
    WalkShape(s, t, v);
    MovesWith(s, t, NextPc(s.recs[f], todo, at), f, HeadStep(s.recs[f], t, at, v));
  }

  lemma DepthAfter(rec: Rec, t: Thread, todo: seq<nat>, at: Stage, v: int, q: nat, head: Rec)
    requires todo != [] && (q == todo[0] ==> rec == head)
    requires DepthOf(rec.mtx, t) == Depth(t, Walk(todo, at), q)
    requires rec.mtx.Held? ==> rec.mtx.depth > 0
    requires at.Want? && q == todo[0] ==> CanLock(rec.mtx, t)
    ensures var m := if q == todo[0] then HeadStep(rec, t, at, v).mtx else rec.mtx;
      && DepthOf(m, t) == Depth(t, NextPc(head, todo, at), q)
      && (m.Held? ==> m.depth > 0)
  {
  }

  lemma WalkMutexes(s: State, s': State, t: Thread, v: int, q: nat)
    requires WalkEffect(s, s', t, v) && q < |s.recs|
    requires DepthOf(s.recs[q].mtx, t) == Depth(t, PcOf(s, t), q)
    requires s.recs[q].mtx.Held? ==> s.recs[q].mtx.depth > 0
    requires PcOf(s, t).at.Want? ==> CanLock(s.recs[PcOf(s, t).todo[0]].mtx, t)
    ensures DepthOf(s'.recs[q].mtx, t) == Depth(t, PcOf(s', t), q)
    ensures s'.recs[q].mtx.Held? ==> s'.recs[q].mtx.depth > 0
  {
    var Walk(todo, at) := PcOf(s, t);
    DepthAfter(s.recs[q], t, todo, at, v, q, s.recs[todo[0]]);
  }

  lemma WalkMoves(careful: bool, s: State, s': State, t: Thread, v: int)
    requires CanWalk(careful, s, t) && WalkEffect(s, s', t, v)
    ensures OnlyMoves(s, s', t)
  {
    var Walk(todo, at) := PcOf(s, t);
    if InPut(at) {
      HeadRec(careful, s, t);
    }
  }

  lemma WalkLocks(careful: bool, s: State, s': State, t: Thread, v: int)
    requires CanWalk(careful, s, t) && WalkEffect(s, s', t, v)
    ensures OnlyMoves(s, s', t) && Locks(s')
  {
    var todo := PcOf(s, t).todo;
    assert Kind(t, PcOf(s, t)) && PcOk(PcOf(s, t), |s.recs|);
    assert forall g <- todo[1..] :: g in todo;
    WalkMoves(careful, s, s', t, v);
    forall q: nat | q < |s.recs|
      ensures DepthOf(s'.recs[q].mtx, t) == Depth(t, PcOf(s', t), q)
      ensures s'.recs[q].mtx.Held? ==> s'.recs[q].mtx.depth > 0
    {
      WalkMutexes(s, s', t, v, q);
    }
    assert DepthOf(s.scanLock, t) == 1;
    LocksKept(s, s', t);
  }

  lemma WalkOtherRec(careful: bool, s: State, s': State, t: Thread, v: int, q: nat)
    requires CanWalk(careful, s, t) && WalkEffect(s, s', t, v) && q < |s.recs| && q != PcOf(s, t).todo[0]
    ensures RecOk(careful, s'.recs[q], Filler(s', q))
  {
    assert Kind(t, PcOf(s, t));
    assert RecOk(careful, s.recs[q], Filler(s, q));
    assert DepthOf(s.recs[q].mtx, t) == Depth(t, PcOf(s, t), q);
    assert PcOf(s', LowLevel(q)) == s'.recs[q].ll && PcOf(s', Init(q)) == s'.recs[q].ini;
    assert PcOf(s, LowLevel(q)) == s.recs[q].ll && PcOf(s, Init(q)) == s.recs[q].ini;
    if t == LowLevel(q) {
      assert Filler(s', q) == Filler(s, q) == SIdle;
    } else {
      assert s'.recs[q] == s.recs[q];
    }
  }

  /** One processing step on a record whose low-level thread is outside its critical section. */
  lemma HeadStepCoupled(rec: Rec, t: Thread, at: Stage, v: int, filler: Pc, filler': Pc)
    requires Coupled(rec, filler) && rec.ini.IDone?
    requires InPut(at) && filler.Walk? && filler.at == at
    requires rec.ll.LLoop? || rec.ll.LWait? || rec.ll.LLock?
    requires if at.Leave? then !filler'.Walk? else filler'.Walk? && filler'.at == Following(at)
    ensures Coupled(HeadStep(rec, t, at, v), filler')
  {
  }

  lemma HeadStepExact(rec: Rec, t: Thread, at: Stage, v: int, filler: Pc, filler': Pc)
    requires Coupled(rec, filler) && Exact(rec, filler) && rec.ini.IDone?
    requires InPut(at) && filler.Walk? && filler.at == at
    requires rec.ll.LLoop? || rec.ll.LWait? || rec.ll.LLock?
    requires if at.Leave? then !filler'.Walk? else filler'.Walk? && filler'.at == Following(at)
    ensures Exact(HeadStep(rec, t, at, v), filler')
  {
  }

  lemma WalkHeadRec(careful: bool, s: State, s': State, t: Thread, v: int, f: nat)
    requires CanWalk(careful, s, t) && WalkEffect(s, s', t, v) && f == PcOf(s, t).todo[0]
    ensures RecOk(careful, s'.recs[f], Filler(s', f))
  {
    var at := PcOf(s, t).at;
    assert RecOk(careful, s.recs[f], Filler(s, f));
    WalkKeepsPcs(careful, s, s', t, v, f);
    if InPut(at) {
      HeadRec(careful, s, t);
      WalkInPut(careful, s, s', t, v, f);
    } else {
      WalkOutside(careful, s, s', t, v, f);
    }
  }

  /** Before the record is locked its state does not change. */
  lemma WalkOutside(careful: bool, s: State, s': State, t: Thread, v: int, f: nat)
    requires CanWalk(careful, s, t) && WalkEffect(s, s', t, v) && f == PcOf(s, t).todo[0] && !InPut(PcOf(s, t).at)
    requires s'.recs[f].ini == s.recs[f].ini && (t != LowLevel(f) ==> s'.recs[f].ll == s.recs[f].ll)
    ensures RecOk(careful, s'.recs[f], Filler(s', f))
  {
    assert RecOk(careful, s.recs[f], Filler(s, f));
    assert DepthOf(s.recs[f].mtx, t) == Depth(t, PcOf(s, t), f);
    assert PcOf(s', LowLevel(f)) == s'.recs[f].ll && PcOf(s, LowLevel(f)) == s.recs[f].ll;
    if PcOf(s, t).at.Want? {
      HeadRec(careful, s, t);
    }
  }

  lemma WalkKeepsPcs(careful: bool, s: State, s': State, t: Thread, v: int, f: nat)
    requires CanWalk(careful, s, t) && WalkEffect(s, s', t, v) && f == PcOf(s, t).todo[0]
    ensures s'.recs[f].ini == s.recs[f].ini && (t != LowLevel(f) ==> s'.recs[f].ll == s.recs[f].ll)
  {
    assert Kind(t, PcOf(s, t));
    assert PcOf(s', LowLevel(f)) == s'.recs[f].ll && PcOf(s', Init(f)) == s'.recs[f].ini;
    assert PcOf(s, LowLevel(f)) == s.recs[f].ll && PcOf(s, Init(f)) == s.recs[f].ini;
  }

  lemma WalkInPut(careful: bool, s: State, s': State, t: Thread, v: int, f: nat)
    requires WalkEffect(s, s', t, v) && f == PcOf(s, t).todo[0] && InPut(PcOf(s, t).at)
    requires RecOk(careful, s.recs[f], Filler(s, f)) && s.recs[f].ini.IDone?
    requires s.recs[f].mtx == Held(t, 1) && t != LowLevel(f)
    requires s.recs[f].ll.LLoop? || s.recs[f].ll.LWait? || s.recs[f].ll.LLock?
    requires s'.recs[f] == HeadStep(s.recs[f], t, PcOf(s, t).at, v)
    ensures RecOk(careful, s'.recs[f], Filler(s', f))
  {
    var at := PcOf(s, t).at;
    var filler, filler' := Filler(s, f), Filler(s', f);
    FillerAfter(s, s', t, v, f);
    HeadStepCoupled(s.recs[f], t, at, v, filler, filler');
    if careful {
      HeadStepExact(s.recs[f], t, at, v, filler, filler');
    }
  }

  lemma FillerAfter(s: State, s': State, t: Thread, v: int, f: nat)
    requires WalkEffect(s, s', t, v) && f == PcOf(s, t).todo[0] && InPut(PcOf(s, t).at)
    requires s.recs[f].mtx == Held(t, 1) && t != LowLevel(f)
    requires s'.recs[f] == HeadStep(s.recs[f], t, PcOf(s, t).at, v)
    ensures Filler(s, f) == PcOf(s, t)
    ensures if PcOf(s, t).at.Leave? then !Filler(s', f).Walk?
      else Filler(s', f).Walk? && Filler(s', f).at == Following(PcOf(s, t).at)
  {
  }

  lemma WalkKeepsInv(careful: bool, s: State, t: Thread, v: int)
    requires CanWalk(careful, s, t) && PcOf(s, t).todo != []
    ensures PcOk(PcOf(s, t), |s.recs|) && Inv(careful, WalkStep(s, t, v))
  {
    var Walk(todo, at) := PcOf(s, t);
    assert Kind(t, PcOf(s, t)) && PcOk(PcOf(s, t), |s.recs|);
    assert todo[0] in todo;
    var f := todo[0];
    if !at.Next? {
      HeadRec(careful, s, t);
    }
    assert RecOk(careful, s.recs[f], Filler(s, f));
    WalkHasEffect(s, t, v);
    var s' := WalkStep(s, t, v);
    WalkLocks(careful, s, s', t, v);
    forall q: nat | q < |s.recs|
      ensures RecOk(careful, s'.recs[q], Filler(s', q))
    {
      if q == f {
        WalkHeadRec(careful, s, s', t, v, f);
      } else {
        WalkOtherRec(careful, s, s', t, v, q);
      }
    }
    WalkKeepsWalkOk(careful, s, s', t, v);
  }

  lemma WalkKeepsWalkOk(careful: bool, s: State, s': State, t: Thread, v: int)
    requires CanWalk(careful, s, t) && WalkEffect(s, s', t, v) && OnlyMoves(s, s', t) && ScanLockOk(s')
    requires forall q: nat | q < |s.recs| :: RecOk(careful, s'.recs[q], Filler(s', q))
    ensures WalkOk(s') && StartOk(careful, s')
  {
    assert AllInit(s);
    forall q: nat | q < |s'.recs|
      ensures s'.recs[q].ini.IDone?
    {
      assert PcOf(s', Init(q)) == PcOf(s, Init(q)) == s.recs[q].ini by { assert Kind(t, PcOf(s, t)); }
    }
    forall u: Thread | u != t
      ensures !PcOf(s', u).Walk?
    {
      assert DepthOf(s.scanLock, t) == 1 && DepthOf(s.scanLock, u) == 0;
    }
    if !PcOf(s, t).at.Next? {
      HeadRec(careful, s, t);
    }
    var f := PcOf(s, t).todo[0];
    if t == LowLevel(f) {
      assert RecOk(careful, s.recs[f], Filler(s, f));
    }
  }

  lemma WalkEndKeepsInv(careful: bool, s: State, t: Thread, v: int)
    requires CanWalk(careful, s, t) && PcOf(s, t).todo == []
    ensures PcOk(PcOf(s, t), |s.recs|) && Inv(careful, WalkStep(s, t, v))
  {
    assert Kind(t, PcOf(s, t)) && PcOk(PcOf(s, t), |s.recs|);
    var s' := WalkStep(s, t, v);
    assert DepthOf(s.scanLock, t) == 1;
    assert OnlyMoves(s, s', t);
    forall q: nat | q < |s.recs|
      ensures DepthOf(s'.recs[q].mtx, t) == Depth(t, PcOf(s', t), q)
    {
      assert DepthOf(s.recs[q].mtx, t) == Depth(t, PcOf(s, t), q);
    }
    LocksKept(s, s', t);
    forall q: nat | q < |s.recs|
      ensures RecOk(careful, s'.recs[q], Filler(s', q))
    {
      assert RecOk(careful, s.recs[q], Filler(s, q));
      assert DepthOf(s.recs[q].mtx, t) == Depth(t, PcOf(s, t), q);
      if t == LowLevel(q) {
        assert s.recs[q].mtx.Held?;
      } else {
        OtherRecKept(careful, s, s', t, q);
      }
    }
  }

  /** Every step of every thread, except a wait on a hidden event, keeps the invariant. */
  lemma StepKeepsInv(careful: bool, s: State, st: Step)
    requires Inv(careful, s) && Enabled(s, st) && (careful ==> !BlindWait(s, st.t))
    ensures Inv(careful, Apply(s, st))
  {
    assert Kind(st.t, PcOf(s, st.t));
    if PcOf(s, st.t).Walk? {
      if PcOf(s, st.t).todo == [] {
        WalkEndKeepsInv(careful, s, st.t, st.v);
      } else {
        WalkKeepsInv(careful, s, st.t, st.v);
      }
    } else {
      match st.t
      case LowLevel(r) => LowLevelKeepsInv(careful, s, r);
      case Init(r) => InitKeepsInv(careful, s, r);
      case Scan(i) => ScanKeepsInv(careful, s, i, st.todo);
    }
  }

  // ---------------------------------------------------------------- runs

  /** An arbitrary interleaving; if `careful`, no low-level thread starts to wait while its event is hidden. */
  ghost predicate Run(careful: bool, s: State, steps: seq<Step>, s': State)
    decreases |steps|
  {
    if steps == [] then s == s'
    else
      && WellFormed(s) && Enabled(s, steps[0])
      && !(careful && BlindWait(s, steps[0].t))
      && Run(careful, Apply(s, steps[0]), steps[1..], s')
  }

  ghost predicate Reachable(careful: bool, s: State) {
    exists s0, steps :: Initial(s0) && Run(careful, s0, steps, s)
  }

  lemma {:induction false} RunKeepsInv(careful: bool, s: State, steps: seq<Step>, s': State)
    requires Inv(careful, s) && Run(careful, s, steps, s')
    ensures Inv(careful, s')
    decreases |steps|
  {
    if steps != [] {
      StepKeepsInv(careful, s, steps[0]);
      RunKeepsInv(careful, Apply(s, steps[0]), steps[1..], s');
    }
  }

  lemma ReachableInv(careful: bool, s: State)
    requires Reachable(careful, s)
    ensures Inv(careful, s)
  {
    var s0, steps :| Initial(s0) && Run(careful, s0, steps, s);
    InitialInv(careful, s0);
    RunKeepsInv(careful, s0, steps, s);
  }
}
