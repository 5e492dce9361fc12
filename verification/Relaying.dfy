// proxy/gas_relay.go: tryCoalesce over batchSubmit. A leader submits its request to the batch queue and blocks, without
// a timeout, until its item is answered; only then does it close its key and serve its waiters.
module Relaying {
  import opened Options
  import B = Batching
  import C = Coalescing

  /** `items` names the batch item of every leader that has submitted its request. */
  datatype State = State(batch: B.State, coal: C.State, items: map<nat, B.Item>)

  const INIT := State(B.INIT, C.INIT, map[])

  /** Requests that are not coalesced submit to the batch queue as well. */
  datatype Step =
    | Batch(b: B.Step)
    | Coal(c: C.Step)
    | LeaderSubmits(l: nat)
    | LeaderReturns(l: nat, resp: B.Resp)

  predicate IsLeading(s: State, l: nat) {
    l < |s.coal.leaders| && s.coal.leaders[l].Leading?
  }

  /** Nothing runs any more once the program has crashed. */
  predicate Enabled(s: State, step: Step) {
    !s.batch.crashed &&
    match step
    case Batch(b) => B.Enabled(s.batch, b)
    case Coal(c) => !c.Close? && C.Enabled(s.coal, c)
    case LeaderSubmits(l) => IsLeading(s, l) && l !in s.items
    case LeaderReturns(l, resp) => IsLeading(s, l) && l in s.items && (s.items[l], resp) in s.batch.answers
  }

  function Next(s: State, step: Step): State
    requires Enabled(s, step)
  {
    match step
    case Batch(b) => s.(batch := B.Next(s.batch, b))
    case Coal(c) => s.(coal := C.Next(s.coal, c))
    case LeaderSubmits(l) => s.(batch := B.Next(s.batch, B.Submit), items := s.items[l := s.batch.submitted])
    case LeaderReturns(l, resp) => s.(coal := C.Next(s.coal, C.Close(l, resp)))
  }

  predicate Run(s: State, steps: seq<Step>)
    decreases |steps|
  {
    steps == [] || (Enabled(s, steps[0]) && Run(Next(s, steps[0]), steps[1..]))
  }

  function Exec(s: State, steps: seq<Step>): State
    requires Run(s, steps)
    decreases |steps|
  {
    if steps == [] then s else Exec(Next(s, steps[0]), steps[1..])
  }

  // ---------------------------------------------------------------------------
  // The invariant
  // ---------------------------------------------------------------------------

  ghost predicate ItemsInv(s: State) {
    forall l <- s.items :: l < |s.coal.leaders| && s.items[l] < s.batch.submitted
  }

  ghost predicate Inv(s: State) {
    B.Inv(s.batch) && C.Inv(s.coal) && C.SentInv(s.coal) && ItemsInv(s)
  }

  lemma BatchSubmits(s: B.State, b: B.Step)
    requires B.Enabled(s, b)
    ensures s.submitted <= B.Next(s, b).submitted
    ensures b == B.Submit ==> B.Next(s, b).submitted == s.submitted + 1
  {
    B.StepSubmits(s, b);
  }

  /** Leaders never disappear, and only a close ends one. */
  lemma CoalKeepsLeaders(s: C.State, c: C.Step, l: nat)
    requires C.Enabled(s, c) && l < |s.leaders|
    ensures l < |C.Next(s, c).leaders|
    ensures s.leaders[l].Leading? && !(c.Close? && c.l == l) ==> C.Next(s, c).leaders[l].Leading?
  {
  }

  lemma CoalKeepsInv(s: C.State, c: C.Step)
    requires C.Inv(s) && C.SentInv(s) && C.Enabled(s, c)
    ensures C.Inv(C.Next(s, c)) && C.SentInv(C.Next(s, c))
  {
    C.StepKeepsInv(s, c);
  }

  lemma StepKeepsInv(s: State, step: Step)
    requires Inv(s) && Enabled(s, step)
    ensures Inv(Next(s, step))
  {
    hide B.Inv, B.Enabled, B.Next, C.Inv, C.SentInv, C.Next;
    match step
    case Batch(b) =>
      B.StepKeepsInv(s.batch, b);
      BatchSubmits(s.batch, b);
    case Coal(c) =>
      CoalKeepsInv(s.coal, c);
      CoalKeepsItems(s, c);
    case LeaderSubmits(l) =>
      SubmitIsEnabled(s.batch);
      B.StepKeepsInv(s.batch, B.Submit);
      BatchSubmits(s.batch, B.Submit);
    case LeaderReturns(l, resp) =>
      CoalKeepsInv(s.coal, C.Close(l, resp));
      CoalKeepsItems(s, C.Close(l, resp));
  }

  lemma SubmitIsEnabled(s: B.State)
    requires !s.crashed
    ensures B.Enabled(s, B.Submit)
  {
  }

  lemma CoalKeepsItems(s: State, c: C.Step)
    requires ItemsInv(s) && C.Enabled(s.coal, c)
    ensures ItemsInv(s.(coal := C.Next(s.coal, c)))
  {
    forall l | l in s.items ensures l < |C.Next(s.coal, c).leaders| {
      CoalKeepsLeaders(s.coal, c, l);
    }
  }

  lemma {:induction false} RunKeepsInv(s: State, steps: seq<Step>)
    requires Inv(s) && Run(s, steps)
    ensures Inv(Exec(s, steps))
    decreases |steps|
  {
    hide Inv, Enabled, Next;
    if steps != [] {
      StepKeepsInv(s, steps[0]);
      RunKeepsInv(Next(s, steps[0]), steps[1..]);
    }
  }

  lemma InitInv()
    ensures Inv(INIT)
  {
  }

  // ---------------------------------------------------------------------------
  // Which responses waiters get
  // ---------------------------------------------------------------------------

  /** What a leader sends is the answer to the item it submitted. */
  ghost predicate ResponsesInv(s: State) {
    forall l :: 0 <= l < |s.coal.leaders| && s.coal.leaders[l].Sending? ==>
      l in s.items && (s.items[l], s.coal.leaders[l].resp) in s.batch.answers
  }

  lemma AnswersStay(s: B.State, b: B.Step, a: (B.Item, B.Resp))
    requires B.Enabled(s, b) && a in s.answers
    ensures a in B.Next(s, b).answers
  {
  }

  lemma CloseSetsResponse(s: C.State, c: C.Step, l: nat)
    requires C.Enabled(s, c) && l < |C.Next(s, c).leaders| && C.Next(s, c).leaders[l].Sending?
    ensures var r := C.Next(s, c).leaders[l].resp;
      c == C.Close(l, r) || (l < |s.leaders| && s.leaders[l].Sending? && s.leaders[l].resp == r)
  {
    C.CloseSetsResponse(s, c, l);
  }

  lemma StepKeepsResponses(s: State, step: Step)
    requires ResponsesInv(s) && Enabled(s, step)
    ensures ResponsesInv(Next(s, step))
  {
    hide B.Next, C.Next, B.Enabled;
    var s' := Next(s, step);
    forall l | 0 <= l < |s'.coal.leaders| && s'.coal.leaders[l].Sending?
      ensures l in s'.items && (s'.items[l], s'.coal.leaders[l].resp) in s'.batch.answers
    {
      match step
      case Batch(b) => AnswersStay(s.batch, b, (s.items[l], s.coal.leaders[l].resp));
      case Coal(c) => CloseSetsResponse(s.coal, c, l);
      case LeaderSubmits(m) =>
        SubmitIsEnabled(s.batch);
        AnswersStay(s.batch, B.Submit, (s.items[l], s.coal.leaders[l].resp));
      case LeaderReturns(m, resp) => CloseSetsResponse(s.coal, C.Close(m, resp), l);
    }
  }

  lemma {:induction false} RunKeepsResponses(s: State, steps: seq<Step>)
    requires ResponsesInv(s) && Run(s, steps)
    ensures ResponsesInv(Exec(s, steps))
    decreases |steps|
  {
    if steps != [] {
      hide ResponsesInv, Enabled, Next;
      StepKeepsResponses(s, steps[0]);
      RunKeepsResponses(Next(s, steps[0]), steps[1..]);
    }
  }

  /** A waiter that gets a response gets the answer to the batch item of the leader it joined. */
  lemma ResponseIsLeadersAnswer(steps: seq<Step>, c: nat)
    requires Run(INIT, steps) && c < |Exec(INIT, steps).coal.chans| && Exec(INIT, steps).coal.chans[c].status.Got?
    ensures var s := Exec(INIT, steps);
      var l := s.coal.chans[c].leader;
      l in s.items && (s.items[l], s.coal.chans[c].status.resp) in s.batch.answers
  {
    InitInv();
    RunKeepsInv(INIT, steps);
    RunKeepsResponses(INIT, steps);
    C.GotFromLeader(Exec(INIT, steps).coal, c);
  }

  // ---------------------------------------------------------------------------
  // Which waiters can be served
  // ---------------------------------------------------------------------------

  /** The steps bring waiter c a response. */
  predicate Serves(s: State, steps: seq<Step>, c: nat) {
    Run(s, steps) && c < |Exec(s, steps).coal.chans| && Exec(s, steps).coal.chans[c].status.Got?
  }

  ghost predicate CanBeServed(s: State, c: nat) {
    exists steps: seq<Step> :: Serves(s, steps, c)
  }

  /** Leader l blocks for good: its item is held nowhere, or stands in a batch without a result for it. */
  ghost predicate Stuck(s: State, l: nat)
    requires B.FlightsValid(s.batch)
  {
    IsLeading(s, l) && l in s.items && B.Hopeless(s.batch, s.items[l])
  }

  lemma BatchKeepsHopeless(s: B.State, b: B.Step, i: B.Item)
    requires B.Inv(s) && B.Enabled(s, b) && i < s.submitted && B.Hopeless(s, i)
    ensures B.FlightsValid(B.Next(s, b)) && B.Hopeless(B.Next(s, b), i)
  {
    hide B.Starved, B.Next, B.Holdings;
    B.StepKeepsInv(s, b);
    if B.Starved(s, i) {
      B.StepKeepsStarved(s, b, i);
    } else {
      B.StepKeepsLost(s, b, i);
    }
  }

  lemma HopelessHasNoAnswer(s: B.State, i: B.Item, r: B.Resp)
    requires B.Inv(s) && B.Hopeless(s, i)
    ensures (i, r) !in s.answers
  {
    if B.Starved(s, i) {
      B.StarvedIsUnanswered(s, i, r);
    } else {
      B.LostIsUnanswered(s, i, r);
    }
  }

  lemma StepKeepsStuck(s: State, step: Step, l: nat)
    requires Inv(s) && Enabled(s, step) && Stuck(s, l)
    ensures Inv(Next(s, step)) && Stuck(Next(s, step), l)
  {
    hide C.Inv, C.SentInv, C.Next, B.Next, B.Hopeless;
    StepKeepsInv(s, step);
    var i := s.items[l];
    match step
    case Batch(b) =>
      BatchKeepsHopeless(s.batch, b, i);
    case Coal(c) =>
      CoalKeepsLeaders(s.coal, c, l);
    case LeaderSubmits(m) =>
      BatchKeepsHopeless(s.batch, B.Submit, i);
    case LeaderReturns(m, resp) =>
      HopelessHasNoAnswer(s.batch, i, resp);
      CoalKeepsLeaders(s.coal, C.Close(m, resp), l);
  }

  lemma {:induction false} RunKeepsStuck(s: State, steps: seq<Step>, l: nat)
    requires Inv(s) && Run(s, steps) && Stuck(s, l)
    ensures Inv(Exec(s, steps)) && Stuck(Exec(s, steps), l)
    decreases |steps|
  {
    if steps != [] {
      hide Stuck, Enabled, Next;
      StepKeepsStuck(s, steps[0], l);
      RunKeepsStuck(Next(s, steps[0]), steps[1..], l);
    }
  }

  /** A channel stays with the leader it was made for. */
  lemma StepKeepsChannel(s: State, step: Step, c: nat)
    requires Enabled(s, step) && c < |s.coal.chans|
    ensures c < |Next(s, step).coal.chans| && Next(s, step).coal.chans[c].leader == s.coal.chans[c].leader
  {
  }

  lemma {:induction false} RunKeepsChannel(s: State, steps: seq<Step>, c: nat)
    requires Run(s, steps) && c < |s.coal.chans|
    ensures c < |Exec(s, steps).coal.chans| && Exec(s, steps).coal.chans[c].leader == s.coal.chans[c].leader
    decreases |steps|
  {
    if steps != [] {
      hide Enabled, Next;
      StepKeepsChannel(s, steps[0], c);
      RunKeepsChannel(Next(s, steps[0]), steps[1..], c);
    }
  }

  lemma StuckServesNobody(s: State, steps: seq<Step>, c: nat)
    requires Inv(s) && c < |s.coal.chans| && Stuck(s, s.coal.chans[c].leader)
    ensures !Serves(s, steps, c)
  {
    hide B.Inv, C.Inv, B.Hopeless;
    if Run(s, steps) {
      RunKeepsStuck(s, steps, s.coal.chans[c].leader);
      RunKeepsChannel(s, steps, c);
      C.LeadingHasNotServed(Exec(s, steps).coal, c);
    }
  }

  // ---------------------------------------------------------------------------
  // Putting the continuations together
  // ---------------------------------------------------------------------------

  lemma RunCons(s: State, steps: seq<Step>, next: State, end: State)
    requires steps != [] && Enabled(s, steps[0]) && Next(s, steps[0]) == next
    requires Run(next, steps[1..]) && Exec(next, steps[1..]) == end
    ensures Run(s, steps) && Exec(s, steps) == end
  {
  }

  lemma RunSplit(s: State, steps: seq<Step>)
    requires steps != [] && Run(s, steps)
    ensures Enabled(s, steps[0]) && Run(Next(s, steps[0]), steps[1..])
    ensures Exec(s, steps) == Exec(Next(s, steps[0]), steps[1..])
  {
  }

  lemma {:induction false} RunAppend(s: State, a: seq<Step>, b: seq<Step>)
    requires Run(s, a) && Run(Exec(s, a), b)
    ensures Run(s, a + b) && Exec(s, a + b) == Exec(Exec(s, a), b)
    decreases |a|
  {
    if a == [] {
      assert a + b == b;
    } else {
      hide Run, Exec, Enabled, Next;
      RunSplit(s, a);
      RunAppend(Next(s, a[0]), a[1..], b);
      assert (a + b)[0] == a[0] && (a + b)[1..] == a[1..] + b;
      RunCons(s, a + b, Next(s, a[0]), Exec(Exec(s, a), b));
    }
  }

  /** Steps of the batching protocol alone. */
  lemma {:induction false} LiftBatch(s: State, bs: seq<B.Step>) returns (steps: seq<Step>)
    requires B.Run(s.batch, bs)
    ensures Run(s, steps) && Exec(s, steps) == s.(batch := B.Exec(s.batch, bs))
    ensures B.Restart !in bs ==> Batch(B.Restart) !in steps
    decreases |bs|
  {
    if bs == [] {
      steps := [];
    } else {
      hide B.Next;
      assert !s.batch.crashed && Enabled(s, Batch(bs[0]));
      var rest := LiftBatch(Next(s, Batch(bs[0])), bs[1..]);
      steps := [Batch(bs[0])] + rest;
      assert steps[1..] == rest;
    }
  }

  lemma {:induction false} LiftCoal(s: State, cs: seq<C.Step>) returns (steps: seq<Step>)
    requires !s.batch.crashed && C.Run(s.coal, cs) && forall c <- cs :: !c.Close?
    ensures Run(s, steps) && Exec(s, steps) == s.(coal := C.Exec(s.coal, cs))
    ensures Batch(B.Restart) !in steps
    decreases |cs|
  {
    if cs == [] {
      steps := [];
    } else {
      hide C.Next;
      assert !cs[0].Close?;
      var rest := LiftCoal(Next(s, Coal(cs[0])), cs[1..]);
      steps := [Coal(cs[0])] + rest;
      assert steps[1..] == rest;
    }
  }

  lemma StepThenServes(s: State, step: Step, rest: seq<Step>, c: nat)
    requires Enabled(s, step) && Serves(Next(s, step), rest, c)
    ensures Serves(s, [step] + rest, c)
  {
    assert ([step] + rest)[1..] == rest;
  }

  lemma RunThenServes(s: State, a: seq<Step>, b: seq<Step>, c: nat)
    requires Run(s, a) && Serves(Exec(s, a), b, c)
    ensures Serves(s, a + b, c)
  {
    RunAppend(s, a, b);
  }

  predicate IsWaiting(s: State, c: nat) {
    c < |s.coal.chans| && s.coal.chans[c].status.Waiting?
  }

  lemma SendingCanServe(s: State, c: nat) returns (steps: seq<Step>)
    requires Inv(s) && !s.batch.crashed && IsWaiting(s, c)
    requires s.coal.leaders[s.coal.chans[c].leader].Sending?
    ensures Serves(s, steps, c) && Batch(B.Restart) !in steps
  {
    var cs := C.SendingLeaderServes(s.coal, c);
    steps := LiftCoal(s, cs);
  }

  lemma AnsweredCanServe(s: State, c: nat, r: B.Resp) returns (steps: seq<Step>)
    requires Inv(s) && !s.batch.crashed && IsWaiting(s, c)
    requires var l := s.coal.chans[c].leader; IsLeading(s, l) && l in s.items && (s.items[l], r) in s.batch.answers
    ensures Serves(s, steps, c) && Batch(B.Restart) !in steps
  {
    var step := LeaderReturns(s.coal.chans[c].leader, r);
    StepKeepsInv(s, step);
    var rest := SendingCanServe(Next(s, step), c);
    steps := [step] + rest;
    StepThenServes(s, step, rest, c);
  }

  lemma SubmittedCanServe(s: State, c: nat) returns (steps: seq<Step>)
    requires Inv(s) && !s.batch.crashed && IsWaiting(s, c)
    requires var l := s.coal.chans[c].leader; IsLeading(s, l) && l in s.items && !Stuck(s, l)
    ensures Serves(s, steps, c) && Batch(B.Restart) !in steps
  {
    var l := s.coal.chans[c].leader;
    var bs, r := B.CanLand(s.batch, s.items[l]);
    var first := LiftBatch(s, bs);
    RunKeepsInv(s, first);
    var rest := AnsweredCanServe(Exec(s, first), c, r);
    RunThenServes(s, first, rest, c);
    steps := first + rest;
  }

  /** Items that have not been submitted yet are in no batch that waits for them. */
  lemma NewItemHasNoFlight(s: B.State, f: nat, k: nat)
    requires B.Inv(s) && f < |s.flights|
    ensures !B.NoResultAt(s.flights[f], k, s.submitted)
  {
    var i := s.submitted;
    assert s.flights[f].Valid();
    B.HoldingsAt(s, i);
    assert B.Holdings(s)[i] <= 0;
    if B.NoResultAt(s.flights[f], k, i) {
      B.InFlightHas(s.flights, f, k);
    }
  }

  lemma SubmitAddsFlight(s: B.State, f: nat)
    requires !s.crashed && f < |B.Next(s, B.Submit).flights|
    ensures var fl := B.Next(s, B.Submit).flights[f];
      fl.results.None? || (f < |s.flights| && fl == s.flights[f])
  {
  }

  /** A new item is held, and no batch has come back without it. */
  lemma NewItemIsHeld(s: B.State)
    requires B.Inv(s) && !s.crashed
    ensures B.Enabled(s, B.Submit) && B.Inv(B.Next(s, B.Submit)) && !B.Hopeless(B.Next(s, B.Submit), s.submitted)
    ensures !B.Next(s, B.Submit).crashed
  {
    var i := s.submitted;
    B.StepKeepsInv(s, B.Submit);
    B.StepConserves(s, B.Submit);
    var s' := B.Next(s, B.Submit);
    hide B.Holdings, B.Inv, B.Next;
    assert (B.Holdings(s) + multiset{i})[i] >= 1;
    forall f: nat, k: nat | f < |s'.flights| ensures !B.NoResultAt(s'.flights[f], k, i) {
      SubmitAddsFlight(s, f);
      if f < |s.flights| {
        NewItemHasNoFlight(s, f, k);
      }
    }
  }

  lemma LeadingCanServe(s: State, c: nat) returns (steps: seq<Step>)
    requires Inv(s) && !s.batch.crashed && IsWaiting(s, c)
    requires var l := s.coal.chans[c].leader; IsLeading(s, l) && l !in s.items
    ensures Serves(s, steps, c) && Batch(B.Restart) !in steps
  {
    var step := LeaderSubmits(s.coal.chans[c].leader);
    StepKeepsInv(s, step);
    NewItemIsHeld(s.batch);
    var rest := SubmittedCanServe(Next(s, step), c);
    steps := [step] + rest;
    StepThenServes(s, step, rest, c);
  }

  /**
   * From every reachable state, a waiter that has not given up can be served exactly when the program still runs and
   * its leader is not stuck: the leader is sending already, has yet to submit, or its item can be answered.
   */
  lemma WaiterServedIff(before: seq<Step>, c: nat)
    requires Run(INIT, before) && IsWaiting(Exec(INIT, before), c)
    ensures var s := Exec(INIT, before);
      && B.FlightsValid(s.batch)
      && (!s.batch.crashed ==> (CanBeServed(s, c) <==> !Stuck(s, s.coal.chans[c].leader)))
      && (s.batch.crashed ==> !CanBeServed(s, c))
  {
    var s := Exec(INIT, before);
    InitInv();
    RunKeepsInv(INIT, before);
    if s.batch.crashed {
      forall steps: seq<Step> ensures !Serves(s, steps, c) {
      }
    } else if Stuck(s, s.coal.chans[c].leader) {
      forall steps: seq<Step> ensures !Serves(s, steps, c) {
        StuckServesNobody(s, steps, c);
      }
    } else {
      var steps := WaiterCanBeServed(s, c);
    }
  }

  /** The continuation that serves a waiter needs no restart. */
  lemma WaiterCanBeServed(s: State, c: nat) returns (steps: seq<Step>)
    requires Inv(s) && !s.batch.crashed && IsWaiting(s, c) && !Stuck(s, s.coal.chans[c].leader)
    ensures Serves(s, steps, c) && Batch(B.Restart) !in steps
  {
    var l := s.coal.chans[c].leader;
    if s.coal.leaders[l].Sending? {
      steps := SendingCanServe(s, c);
    } else if l in s.items {
      steps := SubmittedCanServe(s, c);
    } else {
      steps := LeadingCanServe(s, c);
    }
  }

  // ---------------------------------------------------------------------------
  // Settling down
  // ---------------------------------------------------------------------------

  /** A step that brings nothing new and takes nothing away: no request, restart, crash or timeout. */
  predicate Quiet(step: Step) {
    match step
    case Batch(b) => B.Quiet(b)
    case Coal(c) => c.Send? || c.Receive?
    case _ => true
  }

  /** What leader l has still to do. */
  function LeaderWork(s: State, l: nat): nat
    requires l < |s.coal.leaders|
  {
    match s.coal.leaders[l]
    case Leading(_) => (if l in s.items then 1 else 6) + |C.Waiters(s.coal, l)|
    case Sending(_, _, snapshot, sent) => if sent <= |snapshot| then |snapshot| - sent else 0
  }

  function LeadersWork(s: State, n: nat): nat
    requires n <= |s.coal.leaders|
  {
    if n == 0 then 0 else LeadersWork(s, n - 1) + LeaderWork(s, n - 1)
  }

  function ChannelsWork(chans: seq<C.Channel>): nat {
    if chans == [] then 0 else ChannelsWork(chans[1..]) + if chans[0].status.Waiting? then 1 else 0
  }

  /** A bound on the quiet steps that are left. */
  function Work(s: State): nat {
    B.Work(s.batch) + LeadersWork(s, |s.coal.leaders|) + ChannelsWork(s.coal.chans)
  }

  /** All leaders but m have as much to do as before. */
  lemma {:induction false} LeadersWorkUpdate(s: State, s': State, m: nat, n: nat)
    requires n <= |s.coal.leaders| == |s'.coal.leaders| && m < |s.coal.leaders|
    requires forall l :: 0 <= l < n && l != m ==> LeaderWork(s', l) == LeaderWork(s, l)
    ensures LeadersWork(s', n) + (if m < n then LeaderWork(s, m) else 0) ==
      LeadersWork(s, n) + (if m < n then LeaderWork(s', m) else 0)
  {
    if n > 0 {
      LeadersWorkUpdate(s, s', m, n - 1);
    }
  }

  lemma {:induction false} LeadersWorkSame(s: State, s': State, n: nat)
    requires n <= |s.coal.leaders| == |s'.coal.leaders|
    requires forall l :: 0 <= l < n ==> LeaderWork(s', l) == LeaderWork(s, l)
    ensures LeadersWork(s', n) == LeadersWork(s, n)
  {
    if n > 0 {
      LeadersWorkSame(s, s', n - 1);
    }
  }

  lemma {:induction false} ChannelsWorkUpdate(chans: seq<C.Channel>, c: nat, ch: C.Channel)
    requires c < |chans|
    ensures ChannelsWork(chans[c := ch]) + (if chans[c].status.Waiting? then 1 else 0) ==
      ChannelsWork(chans) + if ch.status.Waiting? then 1 else 0
  {
    assert chans[c := ch][0] == if c == 0 then ch else chans[0];
    if c == 0 {
      assert chans[c := ch][1..] == chans[1..];
    } else {
      ChannelsWorkUpdate(chans[1..], c - 1, ch);
      assert chans[c := ch][1..] == chans[1..][c - 1 := ch];
    }
  }

  lemma SendWorks(s: State, l: nat)
    requires Enabled(s, Coal(C.Send(l)))
    ensures Work(Next(s, Coal(C.Send(l)))) < Work(s)
  {
    var s' := Next(s, Coal(C.Send(l)));
    var c := C.Target(s.coal, l);
    LeadersWorkUpdate(s, s', l, |s.coal.leaders|);
    hide LeadersWork, ChannelsWork, B.Work;
    ChannelsWorkUpdate(s.coal.chans, c, s'.coal.chans[c]);
  }

  lemma ReceiveWorks(s: State, c: nat)
    requires Enabled(s, Coal(C.Receive(c)))
    ensures Work(Next(s, Coal(C.Receive(c)))) < Work(s)
  {
    var s' := Next(s, Coal(C.Receive(c)));
    LeadersWorkSame(s, s', |s.coal.leaders|);
    hide LeadersWork, ChannelsWork, B.Work;
    ChannelsWorkUpdate(s.coal.chans, c, s'.coal.chans[c]);
  }

  lemma SubmitWorks(s: State, l: nat)
    requires Inv(s) && Enabled(s, LeaderSubmits(l))
    ensures Work(Next(s, LeaderSubmits(l))) < Work(s)
  {
    var s' := Next(s, LeaderSubmits(l));
    LeadersWorkUpdate(s, s', l, |s.coal.leaders|);
    hide LeadersWork, ChannelsWork, B.Work;
    B.SubmitWorks(s.batch);
  }

  lemma ReturnWorks(s: State, l: nat, resp: B.Resp)
    requires Inv(s) && Enabled(s, LeaderReturns(l, resp))
    ensures Work(Next(s, LeaderReturns(l, resp))) < Work(s)
  {
    var s' := Next(s, LeaderReturns(l, resp));
    forall m | 0 <= m < |s.coal.leaders| && m != l ensures LeaderWork(s', m) == LeaderWork(s, m) {
      OthersKeepWaiters(s.coal, l, resp, m);
    }
    LeadersWorkUpdate(s, s', l, |s.coal.leaders|);
  }

  lemma OthersKeepWaiters(s: C.State, l: nat, resp: C.Resp, m: nat)
    requires C.MapInv(s) && C.Enabled(s, C.Close(l, resp)) && m < |s.leaders| && m != l
    ensures m < |C.Next(s, C.Close(l, resp)).leaders| && C.Next(s, C.Close(l, resp)).leaders[m] == s.leaders[m]
    ensures C.Waiters(C.Next(s, C.Close(l, resp)), m) == C.Waiters(s, m)
  {
  }

  lemma QuietStepWorks(s: State, step: Step)
    requires Inv(s) && Enabled(s, step) && Quiet(step)
    ensures Work(Next(s, step)) < Work(s)
  {
    match step
    case Batch(b) =>
      hide LeadersWork, ChannelsWork, B.Work, B.Next;
      B.QuietStepWorks(s.batch, b);
      LeadersWorkSame(s, Next(s, step), |s.coal.leaders|);
    case Coal(c) =>
      if c.Send? { SendWorks(s, c.l); } else { ReceiveWorks(s, c.c); }
    case LeaderSubmits(l) => SubmitWorks(s, l);
    case LeaderReturns(l, resp) => ReturnWorks(s, l, resp);
  }

  lemma {:induction false} QuietRunEnds(s: State, steps: seq<Step>)
    requires Inv(s) && Run(s, steps) && forall st <- steps :: Quiet(st)
    ensures |steps| <= Work(s)
    decreases |steps|
  {
    if steps != [] {
      hide Work, Next, Enabled, Inv;
      assert Quiet(steps[0]);
      QuietStepWorks(s, steps[0]);
      StepKeepsInv(s, steps[0]);
      QuietRunEnds(Next(s, steps[0]), steps[1..]);
    }
  }

  lemma {:induction false} QuietDoesNotCrash(s: State, steps: seq<Step>)
    requires !s.batch.crashed && Run(s, steps) && forall st <- steps :: Quiet(st)
    ensures !Exec(s, steps).batch.crashed
    decreases |steps|
  {
    if steps != [] {
      assert Quiet(steps[0]);
      QuietDoesNotCrash(Next(s, steps[0]), steps[1..]);
    }
  }

  ghost predicate Settled(s: State) {
    forall step: Step :: Quiet(step) ==> !Enabled(s, step)
  }

  lemma SettledBatch(s: State)
    requires Settled(s) && !s.batch.crashed
    ensures B.Settled(s.batch)
  {
    forall b: B.Step | B.Quiet(b) ensures !B.Enabled(s.batch, b) {
      assert !Enabled(s, Batch(b));
    }
  }

  /** A leader that has its response leaves no waiter waiting. */
  lemma SendingHasQuietStep(s: State, c: nat)
    requires Inv(s) && !s.batch.crashed && IsWaiting(s, c)
    ensures s.coal.leaders[s.coal.chans[c].leader].Sending? ==> exists step: Step :: Quiet(step) && Enabled(s, step)
  {
    var l := s.coal.chans[c].leader;
    if s.coal.leaders[l].Sending? {
      var i :| 0 <= i < |C.Waiters(s.coal, l)| && C.Waiters(s.coal, l)[i] == c;
      assert C.EntryInv(s.coal, l, i);
      if i < s.coal.leaders[l].sent {
        assert Enabled(s, Coal(C.Receive(c)));
      } else {
        C.SendIsEnabled(s.coal, l);
        assert Enabled(s, Coal(C.Send(l)));
      }
    }
  }

  /** A leader whose item has its answer can return. */
  lemma AnsweredHasQuietStep(s: State, l: nat)
    requires !s.batch.crashed && IsLeading(s, l) && l in s.items
    ensures s.items[l] in B.Answered(s.batch.answers) ==> exists step: Step :: Quiet(step) && Enabled(s, step)
  {
    if s.items[l] in B.Answered(s.batch.answers) {
      var r := B.FindAnswer(s.batch.answers, s.items[l]);
      assert Enabled(s, LeaderReturns(l, r));
    }
  }

  lemma SettledLeaderIsStuck(s: State, c: nat)
    requires Inv(s) && !s.batch.crashed && Settled(s) && IsWaiting(s, c)
    ensures Stuck(s, s.coal.chans[c].leader)
  {
    hide B.Holdings, B.Starved, B.Settled;
    var l := s.coal.chans[c].leader;
    SendingHasQuietStep(s, c);
    assert IsLeading(s, l);
    assert !Enabled(s, LeaderSubmits(l));
    var i := s.items[l];
    if i in B.Holdings(s.batch) {
      SettledBatch(s);
      B.SettledIsAnswered(s.batch, i);
      AnsweredHasQuietStep(s, l);
    }
  }

  /**
   * Whatever the order of the steps: after any run, restarts included, once no request, restart, crash or timeout comes
   * in between, the protocols stop within a bounded number of steps, and then only waiters of stuck leaders still wait.
   */
  lemma EveryWaiterIsServed(before: seq<Step>, quiet: seq<Step>)
    requires Run(INIT, before) && !Exec(INIT, before).batch.crashed
    requires Run(Exec(INIT, before), quiet) && forall st <- quiet :: Quiet(st)
    ensures |quiet| <= Work(Exec(INIT, before))
    ensures var s := Exec(Exec(INIT, before), quiet);
      && B.FlightsValid(s.batch)
      && (Settled(s) ==> forall c: nat :: IsWaiting(s, c) ==> Stuck(s, s.coal.chans[c].leader))
  {
    var m := Exec(INIT, before);
    InitInv();
    RunKeepsInv(INIT, before);
    RunKeepsInv(m, quiet);
    QuietRunEnds(m, quiet);
    QuietDoesNotCrash(m, quiet);
    var s := Exec(m, quiet);
    if Settled(s) {
      forall c: nat | IsWaiting(s, c) ensures Stuck(s, s.coal.chans[c].leader) {
        SettledLeaderIsStuck(s, c);
      }
    }
  }

  // ---------------------------------------------------------------------------
  // A restart strands waiters
  // ---------------------------------------------------------------------------

  /** A leader submits, a second request joins it, and a restart empties the batch queue. */
  const STRANDING: seq<Step> := [Coal(C.Enter("k")), LeaderSubmits(0), Coal(C.Enter("k")), Batch(B.Restart)]
  const STRANDED := State(
    B.State(false, 1, [], None, [B.Stopped], [], []),
    C.State(map["k" := [0]], map["k" := 0], [C.Leading("k")], [C.Channel(0, None, C.Waiting)]),
    map[0 := 0])

  lemma StrandingRun()
    ensures Run(INIT, STRANDING) && Exec(INIT, STRANDING) == STRANDED
  {
    var s1 := INIT.(coal := C.State(map["k" := []], map["k" := 0], [C.Leading("k")], []));
    var s2 := State(B.State(false, 1, [0], Some(0), [B.Armed], [], []), s1.coal, map[0 := 0]);
    var s3 := s2.(coal := STRANDED.coal);
    assert STRANDING[3..][1..] == [] && STRANDING[2..][1..] == STRANDING[3..];
    assert STRANDING[1..][1..] == STRANDING[2..];
    assert map["k" := []]["k" := [0]] == map["k" := [0]];
    assert s2.coal.coalesce["k"] + [|s2.coal.chans|] == [0] && |s2.coal.chans| == 0;
    assert s2.coal.chans + [C.Channel(0, None, C.Waiting)] == s3.coal.chans;
    assert C.AfterEnter(s2.coal, "k") == s3.coal;
    RunCons(s3, STRANDING[3..], STRANDED, STRANDED);
    RunCons(s2, STRANDING[2..], s3, STRANDED);
    RunCons(s1, STRANDING[1..], s2, STRANDED);
    RunCons(INIT, STRANDING, s1, STRANDED);
  }

  /** The waiter of a leader whose item a restart dropped can only time out. */
  lemma RestartStrandsWaiter()
    ensures Run(INIT, STRANDING) && IsWaiting(Exec(INIT, STRANDING), 0) && !CanBeServed(Exec(INIT, STRANDING), 0)
  {
    StrandingRun();
    WaiterServedIff(STRANDING, 0);
    B.HoldingsAt(STRANDED.batch, 0);
  }
}
