/**
  Asynchronous saving: records are padded and queued while their locks are held; one writer
  thread dumps the live buffers in pieces, without a lock, while they may change.
*/
module SaveQueue {
  import opened SaveRestore

  /** Length of the message queue. */
  const QLEN: nat := 10

  datatype File = Absent | File(data: seq<bv8>)

  datatype Writer =
    | Receive
    | Open(r: nat, n: nat)   // savresDumpData has been called for `n` bytes
    | Dump(r: nat, n: nat)   // the file is open
    | Fail(r: nat)           // an error occurred; the file is about to be removed

  /** A record: its buffer, how much of it the last writer of the record has filled, and its file. */
  datatype Rec = Rec(
    buf: seq<bv8>,
    nelm: nat,
    file: File,
    touched: bool,           // has been written since the start
    stage: Stage,
    failed: bool)            // the last dump of the record reported an error

  /** Clean, or in `savres_aao_write`: written, or padded and about to be queued. */
  datatype Stage = Clean | Written | Padded

  datatype State = State(recs: seq<Rec>, queue: seq<nat>, writer: Writer)

  datatype Step =
    | Update(r: nat, buf: seq<bv8>, nelm: nat)  // a client writes to the array
    | Pad(r: nat)                               // write_aao_pad
    | Send(r: nat)                              // aaoDumpDataAsync
    | Take                                      // epicsMessageQueueReceive
    | Create(ok: bool)                          // open
    | Chunk(k: nat)                             // write returns k > 0
    | Finish                                    // write returns 0
    | Error                                     // write returns -1
    | Remove(ok: bool)                          // unlink

  predicate Enabled(s: State, st: Step) {
    match st
    case Update(r, buf, nelm) => r < |s.recs| && |buf| == |s.recs[r].buf| && nelm <= |buf| && !s.recs[r].stage.Padded?
    case Pad(r) => r < |s.recs| && s.recs[r].stage.Written? && s.recs[r].nelm <= |s.recs[r].buf|
    case Send(r) => r < |s.recs| && s.recs[r].stage.Padded? && |s.queue| < QLEN
    case Take => s.writer.Receive? && s.queue != [] && s.queue[0] < |s.recs|
    case Create(_) => s.writer.Open? && s.writer.r < |s.recs|
    case Chunk(k) =>
      && s.writer.Dump? && s.writer.r < |s.recs| && s.recs[s.writer.r].file.File?
      && 1 <= k <= s.writer.n - |s.recs[s.writer.r].file.data| && s.writer.n <= |s.recs[s.writer.r].buf|
    case Finish => s.writer.Dump? && s.writer.r < |s.recs| && s.recs[s.writer.r].file.File?
    case Error => s.writer.Dump?
    case Remove(_) => s.writer.Fail? && s.writer.r < |s.recs|
  }

  function With(s: State, r: nat, rec: Rec): State
    requires r < |s.recs|
  {
    s.(recs := s.recs[r := rec])
  }

  function Apply(s: State, st: Step): State
    requires Enabled(s, st)
  {
    match st
    case Update(r, buf, nelm) => With(s, r, s.recs[r].(buf := buf, nelm := nelm, touched := true, stage := Written))
    case Pad(r) =>
      var rec := s.recs[r];
      With(s, r, rec.(buf := Fit(rec.buf[..rec.nelm], |rec.buf|), nelm := |rec.buf|, stage := Padded))
    case Send(r) => With(s.(queue := s.queue + [r]), r, s.recs[r].(stage := Clean))
    case Take => s.(queue := s.queue[1..], writer := Open(s.queue[0], s.recs[s.queue[0]].nelm))
    case Create(ok) =>
      var r := s.writer.r;
      if ok then With(s.(writer := Dump(r, s.writer.n)), r, s.recs[r].(file := File([])))
      else s.(writer := Fail(r))
    case Chunk(k) =>
      var r := s.writer.r;
      var at := |s.recs[r].file.data|;
      With(s, r, s.recs[r].(file := File(s.recs[r].file.data + s.recs[r].buf[at..at + k])))
    case Finish =>
      var r := s.writer.r;
      // `write` returns 0 when all is written, and may do so before
      if |s.recs[r].file.data| >= s.writer.n then With(s.(writer := Receive), r, s.recs[r].(failed := false))
      else s.(writer := Fail(r))
    case Error => s.(writer := Fail(s.writer.r))
    case Remove(ok) =>
      var r := s.writer.r;
      With(s.(writer := Receive), r, s.recs[r].(failed := true, file := if ok then Absent else s.recs[r].file))
  }

  // ---------------------------------------------------------------- the invariant

  /** The writer is dumping record `r` and what it has written so far agrees with the buffer. */
  predicate Agrees(rec: Rec, w: Writer, r: nat) {
    w.Dump? && w.r == r && w.n == |rec.buf| && rec.file.File? && rec.file.data <= rec.buf
  }

  /** The file of a record equals its buffer, or something is still going to be done about it. */
  predicate Safe(s: State, r: nat)
    requires r < |s.recs|
  {
    var rec := s.recs[r];
    || !rec.touched
    || !rec.stage.Clean?
    || r in s.queue
    || s.writer == Open(r, |rec.buf|)
    || s.writer == Fail(r)
    || Agrees(rec, s.writer, r)
    || (rec.failed && !((s.writer.Open? || s.writer.Dump?) && s.writer.r == r))
    || (rec.file == File(rec.buf) && !(s.writer.Open? && s.writer.r == r))
  }

  predicate WriterOk(s: State) {
    match s.writer
    case Receive => true
    case Open(r, n) => r < |s.recs| && n <= |s.recs[r].buf|
    case Dump(r, n) => r < |s.recs| && n <= |s.recs[r].buf| && s.recs[r].file.File? && |s.recs[r].file.data| <= n
    case Fail(r) => r < |s.recs|
  }

  ghost predicate Inv(s: State) {
    && WriterOk(s) && |s.queue| <= QLEN
    && (forall r <- s.queue :: r < |s.recs|)
    && (forall r | 0 <= r < |s.recs| ::
         && s.recs[r].nelm <= |s.recs[r].buf|
         && (!s.recs[r].stage.Written? ==> s.recs[r].nelm == |s.recs[r].buf|)
         && Safe(s, r))
  }

  ghost predicate Initial(s: State) {
    && s.queue == [] && s.writer.Receive?
    && forall r | 0 <= r < |s.recs| ::
         s.recs[r].stage.Clean? && !s.recs[r].touched && !s.recs[r].failed && s.recs[r].nelm == |s.recs[r].buf|
  }

  lemma StepKeepsInv(s: State, st: Step)
    requires Inv(s) && Enabled(s, st)
    ensures Inv(Apply(s, st))
  {
    var s' := Apply(s, st);
    if st.Take? {
      assert s.queue[0] in s.queue;
      assert forall r <- s.queue :: r == s.queue[0] || r in s.queue[1..];
      assert forall r <- s.queue[1..] :: r in s.queue;
    }
    forall r | 0 <= r < |s.recs|
      ensures Safe(s', r)
    {
      SafeKept(s, st, r);
    }
  }

  lemma SafeKept(s: State, st: Step, r: nat)
    requires Inv(s) && Enabled(s, st) && r < |s.recs|
    ensures |Apply(s, st).recs| == |s.recs| && Safe(Apply(s, st), r)
  {
    assert Safe(s, r);
    match st
    case Take => assert r in s.queue ==> r == s.queue[0] || r in s.queue[1..];
    case Chunk(k) =>
      var rec := s.recs[s.writer.r];
      if rec.file.data <= rec.buf {
        assert rec.file.data + rec.buf[|rec.file.data|..|rec.file.data| + k] == rec.buf[..|rec.file.data| + k];
      }
    case Finish =>
      var rec := s.recs[s.writer.r];
      if rec.file.data <= rec.buf && |rec.file.data| == |rec.buf| {
        assert rec.file.data == rec.buf;
      }
    case Send(q) => assert forall x <- s.queue :: x in s.queue + [q];
    case _ =>
  }

  // ---------------------------------------------------------------- runs

  ghost predicate Run(s: State, steps: seq<Step>, s': State)
    decreases |steps|
  {
    if steps == [] then s == s'
    else Enabled(s, steps[0]) && Run(Apply(s, steps[0]), steps[1..], s')
  }

  ghost predicate Reachable(s: State) {
    exists s0, steps :: Initial(s0) && Run(s0, steps, s)
  }

  lemma {:induction false} RunKeepsInv(s: State, steps: seq<Step>, s': State)
    requires Inv(s) && Run(s, steps, s')
    ensures Inv(s')
    decreases |steps|
  {
    if steps != [] {
      StepKeepsInv(s, steps[0]);
      RunKeepsInv(Apply(s, steps[0]), steps[1..], s');
    }
  }

  lemma ReachableInv(s: State)
    requires Reachable(s)
    ensures Inv(s)
  {
    var s0, steps :| Initial(s0) && Run(s0, steps, s);
    assert Inv(s0);
    RunKeepsInv(s0, steps, s);
  }

  /**
    In every reachable state and for every record that was ever written and whose last dump has
    not failed: its file equals its buffer, or it is being written and not yet queued, or it is in
    the queue, or the writer is about to dump it, is dumping it and so far agrees with it, or is
    about to report the failure.
  */
  lemma FileOnItsWay(s: State, r: nat)
    requires Reachable(s) && r < |s.recs| && s.recs[r].touched && !s.recs[r].failed
    ensures var rec := s.recs[r];
      || rec.file == File(rec.buf)
      || !rec.stage.Clean?
      || r in s.queue
      || s.writer == Open(r, |rec.buf|) || s.writer == Fail(r)
      || (s.writer == Dump(r, |rec.buf|) && rec.file.File? && rec.file.data <= rec.buf)
  {
    ReachableInv(s);
    assert Safe(s, r);
  }

  /** No record is being written, the queue is empty and the writer waits. */
  predicate Drained(s: State) {
    && s.queue == [] && s.writer.Receive?
    && forall r | 0 <= r < |s.recs| :: s.recs[r].stage.Clean?
  }

  /**
    When everything has drained, the file of every record that was ever written equals its buffer,
    however buffers changed while they were dumped, unless the last dump of that record failed.
  */
  lemma DrainedIsSaved(s: State, r: nat)
    requires Reachable(s) && Drained(s) && r < |s.recs| && s.recs[r].touched && !s.recs[r].failed
    ensures s.recs[r].file == File(s.recs[r].buf)
  {
    ReachableInv(s);
    assert Safe(s, r);
  }

  // ---------------------------------------------------------------- failing dumps

  /** What clients do while the writer is busy. */
  predicate IsClient(st: Step) {
    st.Update? || st.Pad? || st.Send?
  }

  lemma {:induction false} ClientsKeepFiles(s: State, steps: seq<Step>, s': State)
    requires Run(s, steps, s') && forall st <- steps :: IsClient(st)
    ensures s'.writer == s.writer && |s'.recs| == |s.recs|
    ensures forall r | 0 <= r < |s.recs| :: s'.recs[r].file == s.recs[r].file
    decreases |steps|
  {
    if steps != [] {
      assert steps[0] in steps && forall st <- steps[1..] :: st in steps;
      ClientsKeepFiles(Apply(s, steps[0]), steps[1..], s');
    }
  }

  /**
    A dump which cannot even open its file removes the old one all the same: it is still there
    afterwards if and only if the removal failed, too.
  */
  lemma FailedOpenRemoves(s: State, steps: seq<Step>, m: State, ok: bool)
    requires Inv(s) && s.writer.Open? && s.recs[s.writer.r].file.File?
    requires Run(Apply(s, Create(false)), steps, m) && forall st <- steps :: IsClient(st)
    ensures |m.recs| == |s.recs| && Enabled(m, Remove(ok))
    ensures var r, s' := s.writer.r, Apply(m, Remove(ok));
      && s'.recs[r].file == (if ok then Absent else s.recs[r].file)
      && s'.recs[r].failed && s'.writer.Receive?
    ensures Apply(m, Remove(ok)).recs[s.writer.r].file == s.recs[s.writer.r].file <==> !ok
  {
    ClientsKeepFiles(Apply(s, Create(false)), steps, m);
  }

  // ---------------------------------------------------------------- draining

  /** How many steps records have to make until they are queued. */
  function Unsent(recs: seq<Rec>): nat {
    if recs == [] then 0 else Unsent(recs[..|recs| - 1]) + Ahead(recs[|recs| - 1].stage)
  }

  function Ahead(stage: Stage): nat {
    if stage.Written? then 2 else if stage.Padded? then 1 else 0
  }

  lemma {:induction false} UnsentOne(recs: seq<Rec>, r: nat, rec: Rec)
    requires r < |recs|
    ensures Unsent(recs[r := rec]) + Ahead(recs[r].stage) == Unsent(recs) + Ahead(rec.stage)
  {
    var n := |recs| - 1;
    if r == n {
      assert recs[r := rec][..n] == recs[..n];
    } else {
      assert recs[r := rec][..n] == recs[..n][r := rec];
      UnsentOne(recs[..n], r, rec);
    }
  }

  /** How much the writer still has to do for its current record. */
  function WriterWork(s: State): nat {
    match s.writer
    case Receive => 0
    case Fail(_) => 1
    case Dump(r, n) =>
      if r < |s.recs| && s.recs[r].file.File? && |s.recs[r].file.data| <= n then n - |s.recs[r].file.data| + 2 else 2
    case Open(_, n) => n + 3
  }

  /** Every step but a client's brings the system nearer to rest. */
  lemma EveryStepCounts(s: State, st: Step)
    requires Inv(s) && Enabled(s, st) && !st.Update?
    ensures var s' := Apply(s, st);
      || Unsent(s'.recs) < Unsent(s.recs)
      || (Unsent(s'.recs) == Unsent(s.recs) && |s'.queue| < |s.queue|)
      || (Unsent(s'.recs) == Unsent(s.recs) && |s'.queue| == |s.queue| && WriterWork(s') < WriterWork(s))
  {
    var s' := Apply(s, st);
    var r := match st
      case Pad(q) => q
      case Send(q) => q
      case Create(_) => s.writer.r
      case Chunk(_) => s.writer.r
      case Finish => s.writer.r
      case Remove(_) => s.writer.r
      case _ => 0;
    if s'.recs != s.recs {
      assert s'.recs == s.recs[r := s'.recs[r]];
      UnsentOne(s.recs, r, s'.recs[r]);
    }
  }

  /** Unless everything has drained, the system can go on without a client. */
  lemma SomeStep(s: State) returns (st: Step)
    requires Inv(s) && !Drained(s)
    ensures Enabled(s, st) && !st.Update? && !st.Error? && (st.Create? ==> st.ok)
    ensures st.Finish? ==> |s.recs[s.writer.r].file.data| >= s.writer.n
  {
    match s.writer
    case Open(_, _) => st := Create(true);
    case Fail(_) => st := Remove(true);
    case Dump(r, n) =>
      var at := |s.recs[r].file.data|;
      st := if at < n then Chunk(n - at) else Finish;
    case Receive =>
      if s.queue != [] {
        assert s.queue[0] in s.queue;
        st := Take;
      } else {
        var r: nat :| r < |s.recs| && !s.recs[r].stage.Clean?;
        st := if s.recs[r].stage.Written? then Pad(r) else Send(r);
      }
  }

  /** The last dump of no record has failed, and no dump is failing. */
  ghost predicate NoFailure(s: State) {
    !s.writer.Fail? && forall r | 0 <= r < |s.recs| :: !s.recs[r].failed
  }

  /** A step which brings a state nearer to rest, fails only if something has failed, and changes no clean buffer. */
  lemma DrainStep(s: State) returns (st: Step)
    requires Inv(s) && !Drained(s)
    ensures Enabled(s, st) && !st.Update? && Inv(Apply(s, st)) && |Apply(s, st).recs| == |s.recs|
    ensures NoFailure(s) ==> NoFailure(Apply(s, st))
    ensures forall r | 0 <= r < |s.recs| && s.recs[r].stage.Clean? ::
      Apply(s, st).recs[r].stage.Clean? && Apply(s, st).recs[r].buf == s.recs[r].buf
  {
    st := SomeStep(s);
    StepKeepsInv(s, st);
  }

  /**
    Eventual persistence: from every reachable state, steps of the system alone lead to a state in
    which the queue has drained, without touching a buffer except to pad it; and if nothing has
    failed, every file then equals its buffer.
  */
  lemma {:induction false} Drains(s: State) returns (steps: seq<Step>, s': State)
    requires Inv(s)
    ensures Run(s, steps, s') && Inv(s') && Drained(s') && |s'.recs| == |s.recs|
    ensures NoFailure(s) ==>
      forall r | 0 <= r < |s'.recs| && s'.recs[r].touched :: s'.recs[r].file == File(s'.recs[r].buf)
    ensures NoFailure(s) ==> NoFailure(s')
    ensures forall r | 0 <= r < |s.recs| && s.recs[r].stage.Clean? :: s'.recs[r].buf == s.recs[r].buf
    ensures forall st <- steps :: !st.Update?
    decreases Unsent(s.recs), |s.queue|, WriterWork(s)
  {
    if Drained(s) {
      steps, s' := [], s;
      assert forall r: nat | r < |s.recs| :: Safe(s, r);
    } else {
      var st := DrainStep(s);
      EveryStepCounts(s, st);
      var rest;
      rest, s' := Drains(Apply(s, st));
      steps := [st] + rest;
      assert steps[1..] == rest;
    }
  }

  // ---------------------------------------------------------------- the order of the queue

  /** How many records the writer has taken from the queue. */
  function Takes(steps: seq<Step>): nat {
    if steps == [] then 0 else (if steps[0].Take? then 1 else 0) + Takes(steps[1..])
  }

  /** A record moves ahead in the queue by one place whenever the writer takes one, and no record overtakes it. */
  lemma {:induction false} NobodyOvertakes(s: State, steps: seq<Step>, s': State, k: nat)
    requires Run(s, steps, s') && k < |s.queue| && Takes(steps) <= k
    ensures k - Takes(steps) < |s'.queue| && s'.queue[k - Takes(steps)] == s.queue[k]
    decreases |steps|
  {
    if steps != [] {
      var s1 := Apply(s, steps[0]);
      NobodyOvertakes(s1, steps[1..], s', if steps[0].Take? then k - 1 else k);
    }
  }

  /** So the writer serves the record which is in place `k` after `k` other ones, with the length it has then. */
  lemma ServedInOrder(s: State, steps: seq<Step>, s': State, k: nat)
    requires Run(s, steps, s') && k < |s.queue| && Takes(steps) == k && Enabled(s', Take)
    ensures var r := s.queue[k]; r < |s'.recs| && Apply(s', Take).writer == Open(r, s'.recs[r].nelm)
  {
    NobodyOvertakes(s, steps, s', k);
  }

  // ---------------------------------------------------------------- from the client to the file

  /** What a client has written last: `n` of the bytes of `b`; padding turns the other ones into zeroes. */
  predicate HasContent(rec: Rec, b: seq<bv8>, n: nat) {
    && |rec.buf| == |b| && n <= |b| && rec.buf[..n] == b[..n] && rec.touched
    && if rec.stage.Written? then rec.nelm == n else forall k | n <= k < |b| :: rec.buf[k] == 0
  }

  predicate Updates(st: Step, r: nat) {
    st.Update? && st.r == r
  }

  lemma ContentStays(s: State, st: Step, r: nat, b: seq<bv8>, n: nat)
    requires Inv(s) && Enabled(s, st) && r < |s.recs| && HasContent(s.recs[r], b, n) && !Updates(st, r)
    ensures |Apply(s, st).recs| == |s.recs| && HasContent(Apply(s, st).recs[r], b, n)
  {
    if st.Pad? && st.r == r {
      var rec, rec' := s.recs[r], Apply(s, st).recs[r];
      assert rec'.buf[..n] == rec.buf[..n];
    }
  }

  lemma {:induction false} ContentKept(s: State, steps: seq<Step>, s': State, r: nat, b: seq<bv8>, n: nat)
    requires Inv(s) && Run(s, steps, s') && r < |s.recs| && HasContent(s.recs[r], b, n)
    requires forall st <- steps :: !Updates(st, r)
    ensures Inv(s') && |s'.recs| == |s.recs| && HasContent(s'.recs[r], b, n)
    decreases |steps|
  {
    if steps != [] {
      assert steps[0] in steps && forall st <- steps[1..] :: st in steps;
      ContentStays(s, steps[0], r, b, n);
      StepKeepsInv(s, steps[0]);
      ContentKept(Apply(s, steps[0]), steps[1..], s', r, b, n);
    }
  }

  /** No dump of `r` fails. */
  predicate NoneFails(s: State, steps: seq<Step>, r: nat)
    decreases |steps|
  {
    steps != [] && Enabled(s, steps[0]) ==>
      !(steps[0].Remove? && s.writer.r == r) && NoneFails(Apply(s, steps[0]), steps[1..], r)
  }

  /** What has been written is going to be dumped, or has been since. */
  predicate Underway(s: State, r: nat)
    requires r < |s.recs|
  {
    || !s.recs[r].stage.Clean?
    || r in s.queue
    || (!s.writer.Receive? && s.writer.r == r)
    || !s.recs[r].failed
  }

  lemma {:induction false} LastDump(s: State, steps: seq<Step>, s': State, r: nat)
    requires Inv(s) && Run(s, steps, s') && r < |s.recs| && Underway(s, r)
    requires NoneFails(s, steps, r)
    ensures |s'.recs| == |s.recs| && Underway(s', r)
    decreases |steps|
  {
    if steps != [] {
      var s1 := Apply(s, steps[0]);
      StepKeepsInv(s, steps[0]);
      StaysUnderway(s, steps[0], r);
      LastDump(s1, steps[1..], s', r);
    }
  }

  lemma StaysUnderway(s: State, st: Step, r: nat)
    requires Inv(s) && Enabled(s, st) && r < |s.recs| && Underway(s, r)
    requires !(st.Remove? && s.writer.r == r)
    ensures |Apply(s, st).recs| == |s.recs| && Underway(Apply(s, st), r)
  {
    match st
    case Take => assert r in s.queue ==> r == s.queue[0] || r in s.queue[1..];
    case Send(q) => assert forall x <- s.queue + [q] :: x in s.queue || x == q;
      assert q in s.queue + [q] && forall x <- s.queue :: x in s.queue + [q];
    case _ =>
  }

  /**
    What a client has written gets to the file: after the last update of a record, when everything has
    drained, its file has the bytes the client has written, and zeroes behind them, unless the last
    dump of the record failed; and if no dump of the record has failed since, then the last one has not.
  */
  lemma UpdateIsSaved(s: State, r: nat, b: seq<bv8>, n: nat, steps: seq<Step>, s': State)
    requires Reachable(s) && Enabled(s, Update(r, b, n))
    requires Run(Apply(s, Update(r, b, n)), steps, s') && (forall st <- steps :: !Updates(st, r)) && Drained(s')
    ensures r < |s'.recs|
    ensures NoneFails(Apply(s, Update(r, b, n)), steps, r) ==> !s'.recs[r].failed
    ensures !s'.recs[r].failed ==> var file := s'.recs[r].file;
      && file.File? && |file.data| == |b| && file.data[..n] == b[..n]
      && forall k | n <= k < |b| :: file.data[k] == 0
  {
    ReachableInv(s);
    var s1 := Apply(s, Update(r, b, n));
    StepKeepsInv(s, Update(r, b, n));
    ContentKept(s1, steps, s', r, b, n);
    assert Safe(s', r);
    if NoneFails(s1, steps, r) {
      LastDump(s1, steps, s', r);
    }
  }

  /** And it can: after an update, if nothing has failed, the system alone can bring the bytes to the file. */
  lemma UpdateCanBeSaved(s: State, r: nat, b: seq<bv8>, n: nat) returns (steps: seq<Step>, s': State)
    requires Reachable(s) && Enabled(s, Update(r, b, n)) && NoFailure(s)
    ensures Run(Apply(s, Update(r, b, n)), steps, s') && Drained(s') && |s'.recs| == |s.recs|
    ensures s'.recs[r].file == File(b[..n] + Zeros(|b| - n))
  {
    ReachableInv(s);
    var s1 := Apply(s, Update(r, b, n));
    StepKeepsInv(s, Update(r, b, n));
    steps, s' := Drains(s1);
    ContentKept(s1, steps, s', r, b, n);
    assert s'.recs[r].buf == b[..n] + Zeros(|b| - n);
  }
}
