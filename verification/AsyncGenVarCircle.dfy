/**
  Forward links which form a circle: once one of its records is being processed, the circle never
  comes to rest. Together with `AsyncGenVarProgress` this is the exact condition for runs to end.
*/
module AsyncGenVarCircle {
  import opened AsyncGenVar
  import opened AsyncGenVarProgress

  /** Every record of `nx` has a forward link to another one of them. */
  predicate Circle(links: seq<seq<nat>>, nx: map<nat, nat>) {
    nx != map[] && forall a <- nx :: a < |links| && nx[a] in nx && nx[a] != a && nx[a] in links[a]
  }

  // ---------------------------------------------------------------- either a rank or a circle

  /** The records which have been given a rank below `level` refer to each other only. */
  predicate Ranked(links: seq<seq<nat>>, rank: seq<nat>, done: set<nat>, level: nat) {
    && |rank| == |links|
    && (forall r <- done :: r < |links| && rank[r] < level)
    && (forall r <- done :: forall f <- links[r] :: f == r || (f in done && rank[f] < rank[r]))
  }

  /** The first record of a list other than `a` and those in `done`. */
  function Outside(todo: seq<nat>, a: nat, done: set<nat>): (f: nat)
    requires exists g <- todo :: g != a && g !in done
    ensures f in todo && f != a && f !in done
  {
    if todo[0] != a && todo[0] !in done then todo[0]
    else
      assert forall g <- todo :: g == todo[0] || g in todo[1..];
      Outside(todo[1..], a, done)
  }

  predicate Closed(links: seq<seq<nat>>, a: nat, done: set<nat>)
    requires a < |links|
  {
    forall f <- links[a] :: f == a || f in done
  }

  function UpTo(n: nat): (s: set<nat>)
    ensures forall r: nat :: r in s <==> r < n
  {
    if n == 0 then {} else UpTo(n - 1) + {n - 1}
  }

  /** The records not yet in `done`. */
  predicate Rest(links: seq<seq<nat>>, rest: set<nat>, done: set<nat>) {
    && (forall r <- rest :: r < |links| && r !in done)
    && (forall r | 0 <= r < |links| :: r in rest || r in done)
  }

  lemma RankNext(links: seq<seq<nat>>, rank: seq<nat>, done: set<nat>, level: nat, a: nat)
    requires Ranked(links, rank, done, level) && a < |links| && a !in done && Closed(links, a, done)
    ensures Ranked(links, rank[a := level], done + {a}, level + 1)
  {
    var rank' := rank[a := level];
    forall r, f | r in done + {a} && f in links[r]
      ensures f == r || (f in done + {a} && rank'[f] < rank'[r])
    {
      if r != a && f != r {
        assert f in done;
      }
    }
  }

  lemma Entangled(links: seq<seq<nat>>, rest: set<nat>, done: set<nat>) returns (nx: map<nat, nat>)
    requires (forall r | 0 <= r < |links| :: InRange(links[r], |links|)) && Rest(links, rest, done) && rest != {}
    requires forall a <- rest :: !Closed(links, a, done)
    ensures Circle(links, nx)
  {
    forall a | a in rest
      ensures exists g <- links[a] :: g != a && g !in done
    {
      assert !Closed(links, a, done);
    }
    nx := map a | a in rest :: Outside(links[a], a, done);
    var b :| b in rest;
    assert b in nx;
    forall a | a in nx
      ensures nx[a] in nx
    {
      assert InRange(links[a], |links|) && nx[a] in links[a];
    }
  }

  lemma {:induction false} Ranking(links: seq<seq<nat>>, rank: seq<nat>, done: set<nat>, level: nat, rest: set<nat>)
    returns (rank': seq<nat>, nx: map<nat, nat>)
    requires forall r | 0 <= r < |links| :: InRange(links[r], |links|)
    requires Ranked(links, rank, done, level) && Rest(links, rest, done)
    ensures |rank'| == |links| && (Ordered(Graph(links, rank')) || Circle(links, nx))
    decreases |rest|
  {
    if a: nat :| a in rest && Closed(links, a, done) {
      RankNext(links, rank, done, level, a);
      rank', nx := Ranking(links, rank[a := level], done + {a}, level + 1, rest - {a});
    } else if rest == {} {
      rank', nx := rank, map[];
    } else {
      rank' := rank;
      nx := Entangled(links, rest, done);
    }
  }

  /** Forward links either can be ranked or contain a circle, */
  lemma RankOrCircle(links: seq<seq<nat>>) returns (rank: seq<nat>, nx: map<nat, nat>)
    requires forall r | 0 <= r < |links| :: InRange(links[r], |links|)
    ensures |rank| == |links| && (Ordered(Graph(links, rank)) || Circle(links, nx))
  {
    rank, nx := Ranking(links, seq(|links|, _ => 0), {}, 0, UpTo(|links|));
  }

  /** and never both. */
  lemma {:induction false} NotBoth(net: Net, nx: map<nat, nat>, a: nat)
    requires Ordered(net) && a in nx && a < |net.links|
    ensures !Circle(net.links, nx)
    decreases net.rank[a]
  {
    if Circle(net.links, nx) {
      NotBoth(net, nx, nx[a]);
    }
  }

  // ---------------------------------------------------------------- what a step does to PACT

  /** A low-level thread which ends phase 2 of its record. */
  predicate Ends(s: State, t: Thread) {
    t.LowLevel? && t.r < |s.recs| && s.recs[t.r].ll.Walk? && s.recs[t.r].ll.todo == []
  }

  lemma WalkKeeps(s: State, t: Thread, v: int, q: nat)
    requires CanWalk(false, s, t) && PcOk(PcOf(s, t), |s.recs|) && PcOf(s, t).todo != [] && q < |s.recs|
    requires PcOf(s, t).todo[0] < |s.recs|
    ensures |WalkStep(s, t, v).recs| == |s.recs|
    ensures s.recs[q].pact ==> WalkStep(s, t, v).recs[q].pact
    ensures WalkStep(s, t, v).recs[q].ll ==
      if t == LowLevel(q) then NextPc(s.recs[PcOf(s, t).todo[0]], PcOf(s, t).todo, PcOf(s, t).at) else s.recs[q].ll
  {
    var f := PcOf(s, t).todo[0];
    SameSize(s, t, v);
    HeadReady(s, t);
    WalkHasEffect(s, t, v);
    HeadPact(s.recs[f], t, PcOf(s, t).at, v);
    var s' := WalkStep(s, t, v);
    assert PcOf(s', LowLevel(q)) == s'.recs[q].ll && PcOf(s, LowLevel(q)) == s.recs[q].ll;
  }

  lemma HeadPact(rec: Rec, t: Thread, at: Stage, v: int)
    ensures rec.pact ==> HeadStep(rec, t, at, v).pact
  {
  }

  /** Only the end of its phase 2 clears PACT of a record. */
  lemma PactStays(s: State, st: Step, q: nat)
    requires Inv(false, s) && Enabled(s, st) && q < |s.recs|
    ensures |Apply(s, st).recs| == |s.recs|
    ensures s.recs[q].pact && !(st.t == LowLevel(q) && Ends(s, st.t)) ==> Apply(s, st).recs[q].pact
  {
    var t := st.t;
    assert Kind(t, PcOf(s, t)) && PcOk(PcOf(s, t), |s.recs|);
    if PcOf(s, t).Walk? {
      SameSize(s, t, st.v);
      if PcOf(s, t).todo != [] {
        assert PcOf(s, t).todo[0] in PcOf(s, t).todo;
        WalkKeeps(s, t, st.v, q);
      }
    } else if t == LowLevel(q) {
      LowLevelFrame(s.recs[q], t);
    }
  }

  /** Only a low-level thread itself moves. */
  lemma LowLevelStays(s: State, st: Step, a: nat)
    requires Inv(false, s) && Enabled(s, st) && a < |s.recs| && st.t != LowLevel(a)
    ensures |Apply(s, st).recs| == |s.recs| && Apply(s, st).recs[a].ll == s.recs[a].ll
  {
    var t := st.t;
    assert Kind(t, PcOf(s, t)) && PcOk(PcOf(s, t), |s.recs|);
    if PcOf(s, t).Walk? {
      SameSize(s, t, st.v);
      if PcOf(s, t).todo != [] {
        assert PcOf(s, t).todo[0] in PcOf(s, t).todo;
        WalkKeeps(s, t, st.v, a);
      }
    }
  }

  // ---------------------------------------------------------------- the circle stays alive

  /** A low-level thread which follows its links has `b` before it, or `b` is being processed. */
  predicate Passes(s: State, a: nat, b: nat) {
    a < |s.recs| && b < |s.recs| && (s.recs[a].ll.Walk? ==> b in s.recs[a].ll.todo || s.recs[b].pact)
  }

  /** The thread of `a` itself goes on. */
  lemma PassesOn(s: State, st: Step, a: nat, b: nat)
    requires Inv(false, s) && Enabled(s, st) && Passes(s, a, b) && a != b && b in s.recs[a].flnk
    requires st.t == LowLevel(a)
    ensures Passes(Apply(s, st), a, b)
  {
    var t := st.t;
    assert Kind(t, PcOf(s, t)) && PcOk(PcOf(s, t), |s.recs|) && PcOf(s, t) == s.recs[a].ll;
    PactStays(s, st, b);
    PactStays(s, st, a);
    if !PcOf(s, t).Walk? {
      LowLevelWalk(s.recs[a], t);
    } else if PcOf(s, t).todo != [] {
      var Walk(todo, at) := PcOf(s, t);
      assert todo[0] in todo;
      WalkKeeps(s, t, st.v, a);
      HeadDone(s, t);
      assert b in todo ==> b == todo[0] || b in todo[1..];
    }
  }

  /** A record which has been dealt with has PACT set. */
  lemma HeadDone(s: State, t: Thread)
    requires CanWalk(false, s, t) && PcOf(s, t).todo != [] && PcOf(s, t).todo[0] < |s.recs|
    ensures PcOf(s, t).at.Leave? ==> s.recs[PcOf(s, t).todo[0]].pact
  {
    if PcOf(s, t).at.Leave? {
      HeadRec(false, s, t);
      assert RecOk(false, s.recs[PcOf(s, t).todo[0]], Filler(s, PcOf(s, t).todo[0]));
    }
  }

  lemma StepPasses(s: State, st: Step, a: nat, b: nat)
    requires Inv(false, s) && Enabled(s, st) && Passes(s, a, b) && a != b && b in s.recs[a].flnk
    ensures Passes(Apply(s, st), a, b)
  {
    if st.t == LowLevel(a) {
      PassesOn(s, st, a, b);
    } else {
      LowLevelStays(s, st, a);
      PactStays(s, st, b);
      if s.recs[a].ll.Walk? && st.t == LowLevel(b) && Ends(s, st.t) {
        OneWalker(s, a, b);
      }
    }
  }

  lemma OneWalker(s: State, a: nat, b: nat)
    requires Inv(false, s) && a < |s.recs| && b < |s.recs| && a != b
    ensures !(s.recs[a].ll.Walk? && s.recs[b].ll.Walk?)
  {
    assert PcOf(s, LowLevel(a)) == s.recs[a].ll && PcOf(s, LowLevel(b)) == s.recs[b].ll;
    assert DepthOf(s.scanLock, LowLevel(a)) == if HoldsScan(PcOf(s, LowLevel(a))) then 1 else 0;
    assert DepthOf(s.scanLock, LowLevel(b)) == if HoldsScan(PcOf(s, LowLevel(b))) then 1 else 0;
  }

  ghost predicate AllPass(s: State, nx: map<nat, nat>) {
    forall a <- nx :: Passes(s, a, nx[a])
  }

  /** A record of the circle is being processed. */
  ghost predicate Alive(s: State, nx: map<nat, nat>) {
    exists a <- nx :: a < |s.recs| && s.recs[a].pact
  }

  lemma OnCircle(s: State, nx: map<nat, nat>, a: nat)
    requires Circle(Links(s), nx) && a in nx
    ensures a < |s.recs| && nx[a] in nx && nx[a] != a && nx[a] in s.recs[a].flnk && nx[a] < |s.recs|
  {
  }

  lemma StepPassesAll(s: State, st: Step, nx: map<nat, nat>)
    requires Inv(false, s) && Enabled(s, st) && Circle(Links(s), nx) && AllPass(s, nx)
    ensures AllPass(Apply(s, st), nx)
  {
    forall a | a in nx
      ensures Passes(Apply(s, st), a, nx[a])
    {
      OnCircle(s, nx, a);
      StepPasses(s, st, a, nx[a]);
    }
  }

  /** If PACT of `a` is cleared, PACT of the next record is set. */
  lemma HandOver(s: State, st: Step, a: nat, b: nat)
    requires Inv(false, s) && Enabled(s, st) && Passes(s, a, b) && a != b && s.recs[a].pact
    ensures |Apply(s, st).recs| == |s.recs| && (Apply(s, st).recs[a].pact || Apply(s, st).recs[b].pact)
  {
    PactStays(s, st, a);
    PactStays(s, st, b);
  }

  lemma StaysAlive(s: State, st: Step, nx: map<nat, nat>)
    requires Inv(false, s) && Enabled(s, st) && Circle(Links(s), nx) && AllPass(s, nx) && Alive(s, nx)
    ensures Alive(Apply(s, st), nx)
  {
    var a: nat :| a in nx && a < |s.recs| && s.recs[a].pact;
    OnCircle(s, nx, a);
    assert Passes(s, a, nx[a]);
    HandOver(s, st, a, nx[a]);
  }

  lemma StepKeepsCircle(s: State, st: Step, nx: map<nat, nat>)
    requires Inv(false, s) && Enabled(s, st) && Circle(Links(s), nx) && AllPass(s, nx)
    ensures AllPass(Apply(s, st), nx) && (Alive(s, nx) ==> Alive(Apply(s, st), nx))
  {
    StepPassesAll(s, st, nx);
    if Alive(s, nx) {
      StaysAlive(s, st, nx);
    }
  }

  lemma {:induction false} RunKeepsCircle(s: State, steps: seq<Step>, s': State, nx: map<nat, nat>)
    requires Inv(false, s) && Run(false, s, steps, s') && Circle(Links(s), nx) && AllPass(s, nx)
    ensures Inv(false, s') && Links(s') == Links(s) && AllPass(s', nx) && (Alive(s, nx) ==> Alive(s', nx))
    decreases |steps|
  {
    if steps != [] {
      StepKeepsCircle(s, steps[0], nx);
      LinksStay(s, steps[0]);
      StepKeepsInv(false, s, steps[0]);
      RunKeepsCircle(Apply(s, steps[0]), steps[1..], s', nx);
    }
  }

  lemma {:induction false} RunKeepsLinks(s: State, steps: seq<Step>, s': State)
    requires Inv(false, s) && Run(false, s, steps, s')
    ensures Links(s') == Links(s)
    decreases |steps|
  {
    if steps != [] {
      LinksStay(s, steps[0]);
      StepKeepsInv(false, s, steps[0]);
      RunKeepsLinks(Apply(s, steps[0]), steps[1..], s');
    }
  }

  lemma InitialPasses(s: State, nx: map<nat, nat>)
    requires Initial(s) && Circle(Links(s), nx)
    ensures AllPass(s, nx)
  {
    forall a | a in nx
      ensures Passes(s, a, nx[a])
    {
      OnCircle(s, nx, a);
    }
  }

  lemma ReachablePasses(s: State, nx: map<nat, nat>)
    requires Reachable(false, s) && Circle(Links(s), nx)
    ensures Inv(false, s) && AllPass(s, nx)
  {
    var s0, steps :| Initial(s0) && Run(false, s0, steps, s);
    InitialInv(false, s0);
    RunKeepsLinks(s0, steps, s);
    InitialPasses(s0, nx);
    RunKeepsCircle(s0, steps, s, nx);
  }

  lemma AliveIsNotAtRest(s: State, nx: map<nat, nat>)
    requires Inv(false, s) && Alive(s, nx)
    ensures !AtRest(s)
  {
    if AtRest(s) {
      var a :| a in nx && a < |s.recs| && s.recs[a].pact;
      RestCompletes(s, a);
    }
  }

  /** Once a record of a circle is being processed, no run ever comes to rest. */
  lemma CircleNeverRests(s: State, nx: map<nat, nat>, steps: seq<Step>, s': State)
    requires Reachable(false, s) && Circle(Links(s), nx) && Alive(s, nx) && Run(false, s, steps, s')
    ensures !AtRest(s')
  {
    ReachablePasses(s, nx);
    RunKeepsCircle(s, steps, s', nx);
    AliveIsNotAtRest(s', nx);
  }

  lemma NextStep(s: State, nx: map<nat, nat>) returns (st: Step)
    requires Inv(false, s) && Circle(Links(s), nx) && AllPass(s, nx) && Alive(s, nx)
    ensures Enabled(s, st) && !PcOf(s, st.t).SIdle? && Inv(false, Apply(s, st))
    ensures Links(Apply(s, st)) == Links(s) && AllPass(Apply(s, st), nx) && Alive(Apply(s, st), nx)
  {
    AliveIsNotAtRest(s, nx);
    st :| Enabled(s, st) && !PcOf(s, st.t).SIdle?;
    StepKeepsCircle(s, st, nx);
    LinksStay(s, st);
    StepKeepsInv(false, s, st);
  }

  lemma InFront(s: State, st: Step, rest: seq<Step>, s': State) returns (steps: seq<Step>)
    requires WellFormed(s) && Enabled(s, st) && !PcOf(s, st.t).SIdle?
    requires Run(false, Apply(s, st), rest, s') && NoNewScan(Apply(s, st), rest)
    ensures steps == [st] + rest && Run(false, s, steps, s') && NoNewScan(s, steps)
  {
    steps := [st] + rest;
    assert steps[1..] == rest;
  }

  /** Runs of any length exist in which no scan is started. */
  lemma {:induction false} CircleRunsOn(s: State, nx: map<nat, nat>, n: nat) returns (steps: seq<Step>, s': State)
    requires Inv(false, s) && Circle(Links(s), nx) && AllPass(s, nx) && Alive(s, nx)
    ensures |steps| == n && Run(false, s, steps, s') && NoNewScan(s, steps)
    decreases n
  {
    if n == 0 {
      steps, s' := [], s;
    } else {
      var st := NextStep(s, nx);
      steps, s' := CircleRunsOn(Apply(s, st), nx, n - 1);
      steps := InFront(s, st, steps, s');
    }
  }

  /** After any run, a circle with a record in process goes on for as long as one likes. */
  lemma CircleGoesOn(s: State, nx: map<nat, nat>, n: nat) returns (steps: seq<Step>, s': State)
    requires Reachable(false, s) && Circle(Links(s), nx) && Alive(s, nx)
    ensures |steps| == n && Run(false, s, steps, s') && NoNewScan(s, steps)
  {
    ReachablePasses(s, nx);
    steps, s' := CircleRunsOn(s, nx, n);
  }

  // ---------------------------------------------------------------- how it comes alive

  /** A scan thread gets from the head of its list to the point where PACT is set. */
  lemma {:induction false} UpToPact(s: State, i: nat, a: nat) returns (steps: seq<Step>, s': State)
    requires Inv(false, s) && i < |s.scans| && a < |s.recs| && s.scans[i].Walk? && s.scans[i].todo == [a]
    requires s.scans[i].at.Next? || s.scans[i].at.Want? ==> !s.recs[a].pact && s.recs[a].mtx.Free?
    requires var at := s.scans[i].at; at.Next? || at.Want? || at.Test? || at.SetRecP? || at.SetPact?
    ensures Run(false, s, steps, s') && a < |s'.recs| && s'.recs[a].pact
    decreases StageCost(Graph([], []), 0, s.scans[i].at)
  {
    var t, at := Scan(i), s.scans[i].at;
    var st := Step(t, [], 0);
    assert PcOf(s, t) == s.scans[i];
    var s1 := Apply(s, st);
    StepKeepsInv(false, s, st);
    HeadReady(s, t);
    WalkShape(s, t, 0);
    var rest: seq<Step> := [];
    s' := s1;
    if !at.SetPact? {
      rest, s' := UpToPact(s1, i, a);
    }
    steps := [st] + rest;
    assert steps[1..] == rest;
  }

  lemma ScanBegins(s: State, i: nat, a: nat)
    requires Inv(false, s) && AllInit(s) && i < |s.scans| && s.scans[i].SIdle? && a < |s.recs|
    ensures Enabled(s, Step(Scan(i), [a], 0))
    ensures Apply(s, Step(Scan(i), [a], 0)) == s.(scans := s.scans[i := SWant([a])])
  {
    assert PcOf(s, Scan(i)).SIdle?;
  }

  lemma ScanLocks(s: State, i: nat, a: nat)
    requires Inv(false, s) && i < |s.scans| && s.scans[i] == SWant([a]) && s.scanLock.Free?
    ensures Enabled(s, Step(Scan(i), [a], 0))
    ensures Apply(s, Step(Scan(i), [a], 0)) == s.(scans := s.scans[i := Walk([a], Next)], scanLock := Held(Scan(i), 1))
  {
    assert PcOf(s, Scan(i)) == SWant([a]);
  }

  /** One step in front of a run. */
  lemma OneMore(s: State, st: Step, s1: State, steps: seq<Step>, s': State) returns (more: seq<Step>)
    requires WellFormed(s) && Enabled(s, st) && Apply(s, st) == s1 && Run(false, s1, steps, s')
    ensures Run(false, s, more, s')
  {
    more := [st] + steps;
    assert more[1..] == steps;
  }

  /** A scan of a record which nobody is processing sets its PACT. */
  lemma ScanSetsPact(s: State, i: nat, a: nat) returns (steps: seq<Step>, s': State)
    requires Inv(false, s) && AllInit(s) && i < |s.scans| && s.scans[i].SIdle? && s.scanLock.Free?
    requires a < |s.recs| && !s.recs[a].pact && s.recs[a].mtx.Free?
    ensures Run(false, s, steps, s') && a < |s'.recs| && s'.recs[a].pact
  {
    var st := Step(Scan(i), [a], 0);
    ScanBegins(s, i, a);
    StepKeepsInv(false, s, st);
    var s1 := Apply(s, st);
    ScanLocks(s1, i, a);
    StepKeepsInv(false, s1, st);
    var s2 := Apply(s1, st);
    steps, s' := UpToPact(s2, i, a);
    steps := OneMore(s1, st, s2, steps, s');
    steps := OneMore(s, st, s1, steps, s');
  }

  /** From every start without records to be read back, a scan of a record of the circle sets it going. */
  lemma ScanStartsCircle(s: State, nx: map<nat, nat>, a: nat, i: nat) returns (steps: seq<Step>, s': State)
    requires Initial(s) && AllInit(s) && Circle(Links(s), nx) && a in nx && i < |s.scans|
    ensures Run(false, s, steps, s') && Reachable(false, s') && Links(s') == Links(s) && Alive(s', nx)
  {
    OnCircle(s, nx, a);
    InitialInv(false, s);
    steps, s' := ScanSetsPact(s, i, a);
    RunKeepsLinks(s, steps, s');
  }
}
