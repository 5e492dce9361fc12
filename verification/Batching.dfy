// proxy/gas_relay.go: batchSubmit, its timer callback, flushBatch and the batch part of restart.
//
// Every critical section of batchMu is one step, and so is every send to a submitter. Goroutines may take
// their steps in any order. Stopping a timer prevents its callback only while the timer is still armed: once it
// has fired, the callback is waiting for the lock and will run.
module Batching {
  import opened Options

  const GAS_BATCH_MAX: nat := 50

  /** Submissions are numbered in the order in which they enter the lock. */
  type Item = nat
  type Resp = string

  datatype Timer = Armed | Fired | Stopped | Finished {
    predicate Outstanding() { Armed? || Fired? }
  }

  /** A batch handed to flushBatch: `results` once the relay has answered, `sent` of them already delivered. */
  datatype Flight = Flight(items: seq<Item>, results: Option<seq<Resp>>, sent: nat) {
    predicate Valid() {
      && 1 <= |items| <= GAS_BATCH_MAX
      && sent <= |items|
      && (results.None? ==> sent == 0)
      && (results.Some? ==> sent <= |results.value| <= |items|)
    }

    function Waiting(): seq<Item>
      requires sent <= |items|
    {
      items[sent..]
    }
  }

  /** What the relay gives flushBatch: results, or one error for all items. */
  datatype Outcome = Replies(rs: seq<Resp>) | Failure(error: Resp)

  function ResultsOf(n: nat, o: Outcome): seq<Resp> {
    match o
    case Replies(rs) => rs
    case Failure(e) => seq(n, _ => e)
  }

  /** A batch of several items may come back with results missing, a single item always gets one. */
  predicate Possible(n: nat, o: Outcome) {
    |ResultsOf(n, o)| <= n && (n == 1 ==> |ResultsOf(n, o)| == 1)
  }

  /** `crashed` once a delivery loop has run out of results: the index out of range ends the whole program. */
  datatype State = State(
    crashed: bool,
    submitted: nat,
    pending: seq<Item>,
    field: Option<nat>,
    timers: seq<Timer>,
    flights: seq<Flight>,
    answers: seq<(Item, Resp)>)

  const INIT := State(false, 0, [], None, [], [], [])

  datatype Step =
    | Submit
    | TimerFires(t: nat)
    | TimerRuns(t: nat)
    | RelayReturns(f: nat, outcome: Outcome)
    | Deliver(f: nat)
    | RunsOut(f: nat)
    | Restart

  predicate Enabled(s: State, step: Step) {
    !s.crashed &&
    match step
    case Submit => true
    case TimerFires(t) => t < |s.timers| && s.timers[t].Armed?
    case TimerRuns(t) => t < |s.timers| && s.timers[t].Fired?
    case RelayReturns(f, o) =>
      f < |s.flights| && s.flights[f].results.None? && Possible(|s.flights[f].items|, o)
    case Deliver(f) =>
      && f < |s.flights| && s.flights[f].results.Some?
      && s.flights[f].sent < |s.flights[f].results.value| <= |s.flights[f].items|
    case RunsOut(f) =>
      && f < |s.flights| && s.flights[f].results.Some?
      && s.flights[f].sent == |s.flights[f].results.value| < |s.flights[f].items|
    case Restart => true
  }

  function StopField(field: Option<nat>, timers: seq<Timer>): (r: seq<Timer>)
    ensures |r| == |timers|
  {
    if field.Some? && field.value < |timers| && timers[field.value].Armed?
    then timers[field.value := Stopped] else timers
  }

  function AfterSubmit(s: State): State {
    var all := s.pending + [s.submitted];
    if |all| >= GAS_BATCH_MAX then
      s.(submitted := s.submitted + 1, pending := [], field := None, timers := StopField(s.field, s.timers),
         flights := s.flights + [Flight(all, None, 0)])
    else if s.field.None? then
      s.(submitted := s.submitted + 1, pending := all, field := Some(|s.timers|), timers := s.timers + [Armed])
    else
      s.(submitted := s.submitted + 1, pending := all)
  }

  function AfterTimer(s: State, t: nat): State
    requires t < |s.timers|
  {
    s.(pending := [], field := None, timers := s.timers[t := Finished],
       flights := if s.pending == [] then s.flights else s.flights + [Flight(s.pending, None, 0)])
  }

  function AfterDeliver(s: State, f: nat): State
    requires Enabled(s, Deliver(f))
  {
    var fl := s.flights[f];
    s.(flights := s.flights[f := fl.(sent := fl.sent + 1)],
       answers := s.answers + [(fl.items[fl.sent], fl.results.value[fl.sent])])
  }

  function Next(s: State, step: Step): State
    requires Enabled(s, step)
  {
    match step
    case Submit => AfterSubmit(s)
    case TimerFires(t) => s.(timers := s.timers[t := Fired])
    case TimerRuns(t) => AfterTimer(s, t)
    case RelayReturns(f, o) =>
      s.(flights := s.flights[f := s.flights[f].(results := Some(ResultsOf(|s.flights[f].items|, o)))])
    case Deliver(f) => AfterDeliver(s, f)
    case RunsOut(f) => s.(crashed := true)
    case Restart => s.(pending := [], field := None, timers := StopField(s.field, s.timers))
  }

  // ---------------------------------------------------------------------------
  // The queue as an object
  // ---------------------------------------------------------------------------

  /** The relay's batch fields, with the timers and goroutines they have set in motion. */
  class BatchQueue {
    var crashed: bool
    var submitted: nat
    var batchPending: seq<Item>
    var batchTimer: Option<nat>
    var timers: seq<Timer>
    var flights: seq<Flight>
    var answers: seq<(Item, Resp)>

    function Snapshot(): State
      reads this
    {
      State(crashed, submitted, batchPending, batchTimer, timers, flights, answers)
    }

    constructor ()
      ensures Snapshot() == INIT
    {
      crashed, submitted, batchPending, batchTimer, timers, flights, answers := false, 0, [], None, [], [], [];
    }

    method StopTimer()
      modifies this
      ensures Snapshot() == old(Snapshot()).(field := None, timers := StopField(old(batchTimer), old(timers)))
      ensures batchTimer == None && |timers| == |old(timers)|
      ensures forall t :: 0 <= t < |timers| ==>
        timers[t] == if old(batchTimer) == Some(t) && old(timers)[t].Armed? then Stopped else old(timers)[t]
    {
      if batchTimer.Some? {
        var t := batchTimer.value;
        if t < |timers| && timers[t].Armed? {
          timers := timers[t := Stopped];
        }
        batchTimer := None;
      }
    }

    method BatchSubmit() returns (item: Item)
      requires !crashed
      modifies this
      ensures item == old(submitted)
      ensures Snapshot() == Next(old(Snapshot()), Submit)
      ensures |old(batchPending)| + 1 >= 50 ==>
        && batchPending == [] && batchTimer == None
        && flights == old(flights) + [Flight(old(batchPending) + [item], None, 0)]
      ensures |old(batchPending)| + 1 < 50 ==>
        && batchPending == old(batchPending) + [item] && flights == old(flights)
        && (old(batchTimer) == None ==> timers == old(timers) + [Armed] && batchTimer == Some(|old(timers)|))
        && (old(batchTimer) != None ==> timers == old(timers) && batchTimer == old(batchTimer))
    {
      item := submitted;
      submitted := submitted + 1;
      batchPending := batchPending + [item];
      if |batchPending| >= GAS_BATCH_MAX {
        var pending := batchPending;
        batchPending := [];
        StopTimer();
        flights := flights + [Flight(pending, None, 0)];
        return;
      }
      if batchTimer.None? {
        batchTimer := Some(|timers|);
        timers := timers + [Armed];
      }
    }

    method RunTimer(t: nat)
      requires Enabled(Snapshot(), TimerRuns(t))
      modifies this
      ensures Snapshot() == Next(old(Snapshot()), TimerRuns(t))
      ensures batchPending == [] && batchTimer == None && timers == old(timers)[t := Finished]
      ensures flights ==
        old(flights) + if old(batchPending) == [] then [] else [Flight(old(batchPending), None, 0)]
    {
      var pending := batchPending;
      batchPending := [];
      batchTimer := None;
      timers := timers[t := Finished];
      if |pending| > 0 {
        flights := flights + [Flight(pending, None, 0)];
      }
    }

    /** One round of the loop in flushBatch: a send, or the failure behind the last result. */
    method FlushOne(f: nat)
      requires Enabled(Snapshot(), Deliver(f)) || Enabled(Snapshot(), RunsOut(f))
      modifies this
      ensures Snapshot() ==
        Next(old(Snapshot()), if old(Enabled(Snapshot(), Deliver(f))) then Deliver(f) else RunsOut(f))
      ensures old(flights[f].sent >= |flights[f].results.value|) ==>
        crashed && answers == old(answers) && flights == old(flights)
      ensures old(flights[f].sent < |flights[f].results.value|) ==>
        && !crashed
        && answers == old(answers + [(flights[f].items[flights[f].sent], flights[f].results.value[flights[f].sent])])
        && flights == old(flights[f := flights[f].(sent := flights[f].sent + 1)])
    {
      var fl := flights[f];
      if fl.sent >= |fl.results.value| {
        crashed := true;
        return;
      }
      answers := answers + [(fl.items[fl.sent], fl.results.value[fl.sent])];
      flights := flights[f := fl.(sent := fl.sent + 1)];
    }

    method RestartBatching()
      requires !crashed
      modifies this
      ensures Snapshot() == Next(old(Snapshot()), Restart)
      ensures batchPending == [] && batchTimer == None && flights == old(flights) && answers == old(answers)
    {
      batchPending := [];
      StopTimer();
    }
  }

  // ---------------------------------------------------------------------------
  // Where every item is
  // ---------------------------------------------------------------------------

  predicate AllBounded(fs: seq<Flight>) {
    forall k :: 0 <= k < |fs| ==> fs[k].sent <= |fs[k].items|
  }

  /** The items still waiting in flights. */
  function InFlight(fs: seq<Flight>): multiset<Item>
    requires AllBounded(fs)
  {
    if fs == [] then multiset{} else multiset(fs[0].Waiting()) + InFlight(fs[1..])
  }

  function Answered(answers: seq<(Item, Resp)>): multiset<Item> {
    if answers == [] then multiset{} else Answered(answers[..|answers| - 1]) + multiset{answers[|answers| - 1].0}
  }

  predicate FlightsValid(s: State) {
    forall k :: 0 <= k < |s.flights| ==> s.flights[k].Valid()
  }

  /** All the places an item can be, with multiplicity. */
  function Holdings(s: State): multiset<Item>
    requires FlightsValid(s)
  {
    multiset(s.pending) + InFlight(s.flights) + Answered(s.answers)
  }

  predicate TimerInv(s: State) {
    && |s.pending| < GAS_BATCH_MAX
    && (s.field.Some? ==> s.field.value < |s.timers| && s.timers[s.field.value].Outstanding())
    && (s.pending != [] ==> s.field.Some?)
  }

  /** Answer a was computed by some flight for exactly that item. */
  ghost predicate AnswerFromFlight(s: State, a: (Item, Resp)) {
    exists f, k :: 0 <= f < |s.flights| && DeliveredAt(s.flights[f], k, a)
  }

  predicate DeliveredAt(fl: Flight, k: int, a: (Item, Resp)) {
    && 0 <= k < fl.sent <= |fl.items|
    && fl.results.Some? && k < |fl.results.value|
    && a == (fl.items[k], fl.results.value[k])
  }

  ghost predicate Inv(s: State) {
    && FlightsValid(s)
    && TimerInv(s)
    && HeldOnce(s)
    && (forall a <- s.answers :: AnswerFromFlight(s, a))
  }

  lemma {:induction false} InFlightAppend(fs: seq<Flight>, fl: Flight)
    requires AllBounded(fs) && fl.sent <= |fl.items|
    ensures InFlight(fs + [fl]) == InFlight(fs) + multiset(fl.Waiting())
  {
    if fs == [] {
      assert fs + [fl] == [fl];
      assert InFlight([fl][1..]) == multiset{};
    } else {
      InFlightAppend(fs[1..], fl);
      assert (fs + [fl])[1..] == fs[1..] + [fl];
    }
  }

  lemma Shift(a: multiset<Item>, x: multiset<Item>, m: multiset<Item>, y: multiset<Item>, n: multiset<Item>)
    requires x + m == y + n
    ensures a + x + m == a + y + n
  {
    assert a + x + m == a + (x + m);
  }

  /** When one flight of fs becomes fl, the items in flight change by what that flight was waiting for. */
  lemma {:induction false} InFlightUpdate(fs: seq<Flight>, k: nat, fl: Flight)
    requires k < |fs| && AllBounded(fs) && fl.sent <= |fl.items|
    ensures AllBounded(fs[k := fl])
    ensures InFlight(fs[k := fl]) + multiset(fs[k].Waiting()) == InFlight(fs) + multiset(fl.Waiting())
  {
    if k == 0 {
      assert fs[k := fl][1..] == fs[1..];
    } else {
      InFlightUpdate(fs[1..], k - 1, fl);
      var gs := fs[k := fl];
      assert gs[1..] == fs[1..][k - 1 := fl] && gs[0] == fs[0];
      Shift(multiset(fs[0].Waiting()), InFlight(gs[1..]), multiset(fs[k].Waiting()),
            InFlight(fs[1..]), multiset(fl.Waiting()));
    }
  }

  lemma SubmitConserves(s: State)
    requires FlightsValid(s) && |s.pending| < GAS_BATCH_MAX
    ensures FlightsValid(AfterSubmit(s)) && Holdings(AfterSubmit(s)) == Holdings(s) + multiset{s.submitted}
  {
    hide InFlight, Answered;
    var all := s.pending + [s.submitted];
    assert multiset(all) == multiset(s.pending) + multiset{s.submitted};
    if |all| >= GAS_BATCH_MAX {
      InFlightAppend(s.flights, Flight(all, None, 0));
      assert Flight(all, None, 0).Waiting() == all;
      Board(multiset(s.pending), multiset{s.submitted}, InFlight(s.flights), Answered(s.answers));
    } else {
      Join(multiset(s.pending), multiset{s.submitted}, InFlight(s.flights), Answered(s.answers));
    }
  }

  lemma Board(p: multiset<Item>, one: multiset<Item>, i: multiset<Item>, a: multiset<Item>)
    ensures multiset{} + (i + (p + one)) + a == p + i + a + one
  {
  }

  lemma Join(p: multiset<Item>, one: multiset<Item>, i: multiset<Item>, a: multiset<Item>)
    ensures (p + one) + i + a == p + i + a + one
  {
  }

  lemma TimerConserves(s: State, t: nat)
    requires FlightsValid(s) && |s.pending| < GAS_BATCH_MAX && t < |s.timers|
    ensures FlightsValid(AfterTimer(s, t)) && Holdings(AfterTimer(s, t)) == Holdings(s)
  {
    if s.pending != [] {
      InFlightAppend(s.flights, Flight(s.pending, None, 0));
      assert s.pending[0..] == s.pending;
    }
  }

  lemma Cancel(x: multiset<Item>, moved: multiset<Item>, m: multiset<Item>, y: multiset<Item>)
    requires x + (moved + m) == y + m
    ensures x + moved == y
  {
    assert forall i :: (x + moved)[i] == (x + (moved + m))[i] - m[i];
    assert forall i :: y[i] == (y + m)[i] - m[i];
  }

  /** Flight k turns into fl, and `moved` is what it no longer waits for. */
  lemma ReplaceFlight(fs: seq<Flight>, k: nat, fl: Flight, moved: multiset<Item>)
    requires k < |fs| && AllBounded(fs) && fl.sent <= |fl.items|
    requires multiset(fs[k].Waiting()) == moved + multiset(fl.Waiting())
    ensures AllBounded(fs[k := fl]) && InFlight(fs[k := fl]) + moved == InFlight(fs)
  {
    InFlightUpdate(fs, k, fl);
    Cancel(InFlight(fs[k := fl]), moved, multiset(fl.Waiting()), InFlight(fs));
  }

  lemma AnsweredAppend(answers: seq<(Item, Resp)>, a: (Item, Resp))
    ensures Answered(answers + [a]) == Answered(answers) + multiset{a.0}
  {
    assert (answers + [a])[..|answers|] == answers;
  }

  lemma SendMoves(fs: seq<Flight>, k: nat)
    requires k < |fs| && AllBounded(fs) && fs[k].sent < |fs[k].items|
    ensures var fs' := fs[k := fs[k].(sent := fs[k].sent + 1)];
      AllBounded(fs') && InFlight(fs') + multiset{fs[k].items[fs[k].sent]} == InFlight(fs)
  {
    var fl := fs[k];
    var fl' := fl.(sent := fl.sent + 1);
    assert fl.Waiting() == [fl.items[fl.sent]] + fl'.Waiting();
    ReplaceFlight(fs, k, fl', multiset{fl.items[fl.sent]});
  }

  lemma DeliverKeepsFlights(s: State, f: nat)
    requires FlightsValid(s) && Enabled(s, Deliver(f))
    ensures FlightsValid(AfterDeliver(s, f))
  {
    var fs' := AfterDeliver(s, f).flights;
    forall k | 0 <= k < |fs'| ensures fs'[k].Valid() {
      assert s.flights[k].Valid();
    }
  }

  lemma DeliverConserves(s: State, f: nat)
    requires FlightsValid(s) && Enabled(s, Deliver(f)) && FlightsValid(AfterDeliver(s, f))
    ensures Holdings(AfterDeliver(s, f)) == Holdings(s)
  {
    hide InFlight, Answered, Holdings;
    var fl := s.flights[f];
    var one := fl.items[fl.sent];
    SendMoves(s.flights, f);
    AnsweredAppend(s.answers, (one, fl.results.value[fl.sent]));
    Moved(s, AfterDeliver(s, f), one);
  }

  /** One item goes from the flights to the answers. */
  lemma Moved(s: State, s': State, one: Item)
    requires FlightsValid(s) && FlightsValid(s') && s'.pending == s.pending
    requires InFlight(s'.flights) + multiset{one} == InFlight(s.flights)
    requires Answered(s'.answers) == Answered(s.answers) + multiset{one}
    ensures Holdings(s') == Holdings(s)
  {
    hide InFlight, Answered;
    Move(multiset(s.pending), InFlight(s'.flights), multiset{one}, Answered(s.answers));
  }

  lemma Move(p: multiset<Item>, i: multiset<Item>, one: multiset<Item>, a: multiset<Item>)
    ensures p + i + (a + one) == p + (i + one) + a
  {
  }

  lemma ReturnConserves(s: State, f: nat, o: Outcome)
    requires FlightsValid(s) && Enabled(s, RelayReturns(f, o))
    ensures FlightsValid(Next(s, RelayReturns(f, o))) && Holdings(Next(s, RelayReturns(f, o))) == Holdings(s)
  {
    var fl := s.flights[f];
    var fl' := fl.(results := Some(ResultsOf(|fl.items|, o)));
    assert fl'.Waiting() == fl.Waiting();
    hide InFlight;
    ReplaceFlight(s.flights, f, fl', multiset{});
    assert InFlight(s.flights[f := fl']) + multiset{} == InFlight(s.flights[f := fl']);
  }

  /** What one step does to the places items are in. Only Restart makes any of them disappear. */
  lemma StepConserves(s: State, step: Step)
    requires FlightsValid(s) && |s.pending| < GAS_BATCH_MAX && Enabled(s, step)
    ensures FlightsValid(Next(s, step))
    ensures step.Submit? ==> Holdings(Next(s, step)) == Holdings(s) + multiset{s.submitted}
    ensures step.Restart? ==> Holdings(Next(s, step)) + multiset(s.pending) == Holdings(s)
    ensures !step.Submit? && !step.Restart? ==> Holdings(Next(s, step)) == Holdings(s)
  {
    match step
    case Submit => SubmitConserves(s);
    case TimerFires(t) =>
    case TimerRuns(t) => TimerConserves(s, t);
    case RelayReturns(f, o) => ReturnConserves(s, f, o);
    case Deliver(f) => DeliverKeepsFlights(s, f); DeliverConserves(s, f);
    case RunsOut(f) =>
    case Restart =>
  }

  /** The timer field and the pending list stay in step, even when a stopped timer's callback runs late. */
  lemma StepKeepsTimer(s: State, step: Step)
    requires TimerInv(s) && Enabled(s, step)
    ensures TimerInv(Next(s, step))
  {
  }

  lemma StepKeepsAnswers(s: State, step: Step)
    requires FlightsValid(s) && Enabled(s, step) && forall a <- s.answers :: AnswerFromFlight(s, a)
    ensures forall a <- Next(s, step).answers :: AnswerFromFlight(Next(s, step), a)
  {
    var s' := Next(s, step);
    forall a | a in s'.answers ensures AnswerFromFlight(s', a) {
      if a in s.answers {
        var f, k :| 0 <= f < |s.flights| && DeliveredAt(s.flights[f], k, a);
        assert DeliveredAt(s'.flights[f], k, a);
      } else {
        assert step.Deliver?;
        assert DeliveredAt(s'.flights[step.f], s.flights[step.f].sent, a);
      }
    }
  }

  lemma StepSubmits(s: State, step: Step)
    requires Enabled(s, step)
    ensures Next(s, step).submitted == s.submitted + if step.Submit? then 1 else 0
  {
  }

  /** Nothing is held twice, and nothing that has not been submitted. */
  ghost predicate HeldOnce(s: State)
    requires FlightsValid(s)
  {
    forall i: Item :: Holdings(s)[i] <= if i < s.submitted then 1 else 0
  }

  lemma StepKeepsHeldOnce(s: State, step: Step)
    requires FlightsValid(s) && |s.pending| < GAS_BATCH_MAX && Enabled(s, step) && FlightsValid(Next(s, step))
    requires HeldOnce(s)
    ensures HeldOnce(Next(s, step))
  {
    hide Holdings, Next, Enabled, FlightsValid;
    StepConserves(s, step);
    StepSubmits(s, step);
    var s' := Next(s, step);
    forall i: Item ensures Holdings(s')[i] <= if i < s'.submitted then 1 else 0 {
      assert Holdings(s)[i] <= if i < s.submitted then 1 else 0;
      if step.Restart? {
        assert Holdings(s')[i] + multiset(s.pending)[i] == Holdings(s)[i];
      }
    }
  }

  lemma StepKeepsInv(s: State, step: Step)
    requires Inv(s) && Enabled(s, step)
    ensures Inv(Next(s, step))
  {
    hide Holdings, Next, Enabled, FlightsValid, HeldOnce, AnswerFromFlight;
    StepConserves(s, step);
    StepKeepsHeldOnce(s, step);
    StepKeepsTimer(s, step);
    StepKeepsAnswers(s, step);
  }

  // ---------------------------------------------------------------------------
  // Whole runs
  // ---------------------------------------------------------------------------

  /** Steps taken one after the other, each of them enabled when its turn comes. */
  predicate Run(s: State, steps: seq<Step>)
    decreases |steps|
  {
    steps == [] || (Enabled(s, steps[0]) && Run(Next(s, steps[0]), steps[1..]))
  }

  function Exec(s: State, steps: seq<Step>): State
    requires Run(s, steps)
    decreases |steps|
  {
    if steps == [] then s else Exec(Next(s, steps[0]), steps[1..])
  }

  ghost predicate Complete(s: State)
    requires FlightsValid(s)
  {
    forall i: Item :: i < s.submitted ==> Holdings(s)[i] == 1
  }

  lemma StepKeepsComplete(s: State, step: Step)
    requires Inv(s) && Complete(s) && Enabled(s, step) && !step.Restart?
    ensures FlightsValid(Next(s, step)) && Complete(Next(s, step))
  {
    hide Holdings, Next, Enabled, FlightsValid;
    StepConserves(s, step);
    StepSubmits(s, step);
    forall i: Item | i < Next(s, step).submitted ensures Holdings(Next(s, step))[i] == 1 {
      assert Holdings(s)[i] <= if i < s.submitted then 1 else 0;
    }
  }

  lemma {:induction false} RunKeepsInv(s: State, steps: seq<Step>)
    requires Inv(s) && Run(s, steps)
    ensures Inv(Exec(s, steps))
    ensures Restart !in steps && Complete(s) ==> Complete(Exec(s, steps))
    decreases |steps|
  {
    if steps != [] {
      StepKeepsInv(s, steps[0]);
      if Restart !in steps && Complete(s) {
        StepKeepsComplete(s, steps[0]);
      }
      RunKeepsInv(Next(s, steps[0]), steps[1..]);
    }
  }

  /**
   * Exactly once: in every interleaving without a restart, every submitted item is pending, or waiting in a
   * flight, or answered: in exactly one of these, and there only once. Every batch has 1 to 50 items.
   */
  lemma ExactlyOnce(steps: seq<Step>, i: Item)
    requires Run(INIT, steps) && Restart !in steps
    ensures var s := Exec(INIT, steps);
      && FlightsValid(s)
      && multiset(s.pending)[i] + InFlight(s.flights)[i] + Answered(s.answers)[i] == (if i < s.submitted then 1 else 0)
      && forall f <- s.flights :: 1 <= |f.items| <= 50
  {
    RunKeepsInv(INIT, steps);
    var s := Exec(INIT, steps);
    assert Holdings(s)[i] == multiset(s.pending)[i] + InFlight(s.flights)[i] + Answered(s.answers)[i];
  }

  /** No item is stranded: in every reachable state, restarts included, pending items have a timer that will run. */
  lemma NeverStranded(steps: seq<Step>)
    requires Run(INIT, steps)
    ensures var s := Exec(INIT, steps);
      s.pending != [] ==>
        s.field.Some? && s.field.value < |s.timers| && s.timers[s.field.value].Outstanding()
  {
    RunKeepsInv(INIT, steps);
  }

  /** Every answer a submitter gets was computed for its own position in its own batch. */
  lemma AnswersAreOwn(steps: seq<Step>, a: (Item, Resp))
    requires Run(INIT, steps) && a in Exec(INIT, steps).answers
    ensures AnswerFromFlight(Exec(INIT, steps), a)
  {
    RunKeepsInv(INIT, steps);
  }

  // ---------------------------------------------------------------------------
  // When a batch leaves, and what its submitters get
  // ---------------------------------------------------------------------------

  /**
   * In every run, a step dispatches nothing, or one batch behind the others: fifty items when a submission fills it, or
   * what is pending, if anything, when a timer runs. Either way the queue is empty afterwards and no timer is set.
   */
  lemma BatchLeavesWhen(before: seq<Step>, step: Step)
    requires Run(INIT, before) && Enabled(Exec(INIT, before), step)
    ensures var s, s' := Exec(INIT, before), Next(Exec(INIT, before), step);
      var full := step.Submit? && |s.pending| == 49;
      var due := step.TimerRuns? && s.pending != [];
      && (!full && !due ==> |s'.flights| == |s.flights|)
      && (full ==> s'.flights == s.flights + [Flight(s.pending + [s.submitted], None, 0)])
      && (due ==> s'.flights == s.flights + [Flight(s.pending, None, 0)])
      && (full || due ==> s'.pending == [] && s'.field == None)
  {
    RunKeepsInv(INIT, before);
  }

  /** In every run, the submission that fills a batch stops the timer that is set, unless that has fired already. */
  lemma FullBatchStopsTimer(before: seq<Step>)
    requires Run(INIT, before) && Enabled(Exec(INIT, before), Submit) && |Exec(INIT, before).pending| == 49
    ensures var s, s' := Exec(INIT, before), Next(Exec(INIT, before), Submit);
      && s.field.Some? && s.field.value < |s.timers| == |s'.timers|
      && s'.timers[s.field.value] == (if s.timers[s.field.value].Armed? then Stopped else Fired)
      && forall t :: 0 <= t < |s.timers| && t != s.field.value ==> s'.timers[t] == s.timers[t]
  {
    RunKeepsInv(INIT, before);
  }

  /** The pending items are the latest submissions, and every batch holds consecutive ones. */
  ghost predicate InOrder(s: State) {
    && |s.pending| <= s.submitted
    && (forall k :: 0 <= k < |s.pending| ==> s.pending[k] == s.submitted - |s.pending| + k)
    && (forall f :: 0 <= f < |s.flights| ==> Consecutive(s.flights[f].items))
  }

  predicate Consecutive(items: seq<Item>) {
    forall k :: 0 <= k < |items| - 1 ==> items[k + 1] == items[k] + 1
  }

  lemma StepKeepsOrder(s: State, step: Step)
    requires InOrder(s) && Enabled(s, step)
    ensures InOrder(Next(s, step))
  {
    assert Consecutive(s.pending) && Consecutive(s.pending + [s.submitted]);
  }

  /** In every run the items of a batch are consecutive submissions, in their order. */
  lemma {:induction false} RunKeepsOrder(s: State, steps: seq<Step>)
    requires InOrder(s) && Run(s, steps)
    ensures InOrder(Exec(s, steps))
    decreases |steps|
  {
    if steps != [] {
      hide InOrder, Next, Enabled;
      StepKeepsOrder(s, steps[0]);
      RunKeepsOrder(Next(s, steps[0]), steps[1..]);
    }
  }

  /** The results of flight f are those with which the relay returned. */
  lemma ReturnSetsResults(s: State, step: Step, f: nat)
    requires Enabled(s, step) && f < |Next(s, step).flights| && Next(s, step).flights[f].results.Some?
    ensures var fl := Next(s, step).flights[f];
      || (f < |s.flights| && s.flights[f].results == fl.results && s.flights[f].items == fl.items)
      || (step.RelayReturns? && step.f == f && ComesFrom(fl, step.outcome))
  {
  }

  /** The outcome is these results, or one error for as many items as the flight has. */
  predicate ComesFrom(fl: Flight, o: Outcome) {
    fl.results.Some? &&
    match o
    case Replies(rs) => fl.results.value == rs
    case Failure(e) => |fl.results.value| == |fl.items| && forall k :: 0 <= k < |fl.items| ==> fl.results.value[k] == e
  }

  ghost predicate Returned(steps: seq<Step>, f: nat, fl: Flight) {
    exists o: Outcome :: RelayReturns(f, o) in steps && ComesFrom(fl, o)
  }

  lemma {:induction false} ResultsWereReturned(s: State, steps: seq<Step>, f: nat)
    requires Run(s, steps) && f < |Exec(s, steps).flights| && Exec(s, steps).flights[f].results.Some?
    ensures var fl := Exec(s, steps).flights[f];
      || Returned(steps, f, fl)
      || (f < |s.flights| && s.flights[f].results == fl.results && s.flights[f].items == fl.items)
    decreases |steps|
  {
    if steps != [] {
      hide Next, Enabled;
      var s' := Next(s, steps[0]);
      var fl := Exec(s, steps).flights[f];
      ResultsWereReturned(s', steps[1..], f);
      if Returned(steps[1..], f, fl) {
        var o :| RelayReturns(f, o) in steps[1..] && ComesFrom(fl, o);
        assert RelayReturns(f, o) in steps;
      } else {
        ReturnSetsResults(s, steps[0], f);
      }
    }
  }

  /**
   * In every run, what a submitter gets is what the relay returned for its batch: the result at its own position, or
   * the one error.
   */
  lemma AnswersWereReturned(steps: seq<Step>, a: (Item, Resp)) returns (f: nat, k: nat, o: Outcome)
    requires Run(INIT, steps) && a in Exec(INIT, steps).answers
    ensures RelayReturns(f, o) in steps && f < |Exec(INIT, steps).flights|
    ensures k < |Exec(INIT, steps).flights[f].items| && Exec(INIT, steps).flights[f].items[k] == a.0
    ensures match o
      case Replies(rs) => k < |rs| && a.1 == rs[k]
      case Failure(e) => a.1 == e
  {
    AnswersAreOwn(steps, a);
    var s := Exec(INIT, steps);
    f, k :| 0 <= f < |s.flights| && 0 <= k && DeliveredAt(s.flights[f], k, a);
    ResultsWereReturned(INIT, steps, f);
    o :| RelayReturns(f, o) in steps && ComesFrom(s.flights[f], o);
  }

  // ---------------------------------------------------------------------------
  // Every item can still be answered
  // ---------------------------------------------------------------------------

  lemma {:induction false} RunAppend(s: State, a: seq<Step>, b: seq<Step>)
    requires Run(s, a) && Run(Exec(s, a), b)
    ensures Run(s, a + b) && Exec(s, a + b) == Exec(Exec(s, a), b)
    decreases |a|
  {
    if a == [] {
      assert a + b == b;
    } else {
      RunAppend(Next(s, a[0]), a[1..], b);
      assert (a + b)[1..] == a[1..] + b;
    }
  }

  lemma OneStep(s: State, step: Step)
    requires Enabled(s, step)
    ensures Run(s, [step]) && Exec(s, [step]) == Next(s, step)
  {
    assert [step][1..] == [];
  }

  /** From any reachable state with pending items, its timer alone dispatches them all, in order. */
  lemma PendingCanFly(s: State) returns (steps: seq<Step>)
    requires Inv(s) && !s.crashed && s.pending != []
    ensures Run(s, steps) && Restart !in steps && !Exec(s, steps).crashed
    ensures Exec(s, steps).flights == s.flights + [Flight(s.pending, None, 0)]
  {
    var t := s.field.value;
    steps := [TimerRuns(t)];
    if s.timers[t].Fired? {
      OneStep(s, TimerRuns(t));
    } else {
      OneStep(s, TimerFires(t));
      OneStep(Next(s, TimerFires(t)), TimerRuns(t));
      RunAppend(s, [TimerFires(t)], steps);
      steps := [TimerFires(t)] + steps;
    }
  }

  /** A flight whose relay has answered delivers to each of the submitters there is a result for. */
  lemma {:induction false} FlightCanLand(s: State, f: nat, k: nat) returns (steps: seq<Step>)
    requires Inv(s) && !s.crashed && f < |s.flights| && s.flights[f].results.Some?
    requires s.flights[f].sent <= k < |s.flights[f].results.value| <= |s.flights[f].items|
    ensures Answers(s, steps, s.flights[f].items[k], s.flights[f].results.value[k])
    decreases k - s.flights[f].sent
  {
    var fl := s.flights[f];
    assert fl.Valid();
    var s' := Next(s, Deliver(f));
    if fl.sent == k {
      steps := [Deliver(f)];
      OneStep(s, Deliver(f));
      assert s'.answers[|s.answers|] == (fl.items[k], fl.results.value[k]);
    } else {
      StepKeepsInv(s, Deliver(f));
      var rest := FlightCanLand(s', f, k);
      steps := [Deliver(f)] + rest;
      StepThenAnswers(s, Deliver(f), rest, fl.items[k], fl.results.value[k]);
    }
  }

  lemma StepThenAnswers(s: State, step: Step, rest: seq<Step>, i: Item, r: Resp)
    requires Enabled(s, step) && !step.Restart? && Answers(Next(s, step), rest, i, r)
    ensures Answers(s, [step] + rest, i, r)
  {
    assert ([step] + rest)[1..] == rest;
  }

  lemma {:induction false} FindFlight(fs: seq<Flight>, i: Item) returns (f: nat, k: nat)
    requires AllBounded(fs) && i in InFlight(fs)
    ensures f < |fs| && fs[f].sent <= k < |fs[f].items| && fs[f].items[k] == i
    decreases |fs|
  {
    if i in fs[0].Waiting() {
      var j :| 0 <= j < |fs[0].Waiting()| && fs[0].Waiting()[j] == i;
      return 0, fs[0].sent + j;
    }
    f, k := FindFlight(fs[1..], i);
    f := f + 1;
  }

  /** The steps, none of them a restart, hand r to the submitter of i. */
  predicate Answers(s: State, steps: seq<Step>, i: Item, r: Resp) {
    Run(s, steps) && Restart !in steps && (i, r) in Exec(s, steps).answers
  }

  ghost predicate CanBeAnswered(s: State, i: Item) {
    exists steps: seq<Step>, r: Resp :: Answers(s, steps, i, r)
  }

  /** The relay has answered the flight without a result for the item at position k. */
  predicate NoResultAt(fl: Flight, k: nat, i: Item) {
    k < |fl.items| && fl.items[k] == i && fl.results.Some? && |fl.results.value| <= k
  }

  ghost predicate Starved(s: State, i: Item) {
    exists f: nat, k: nat :: f < |s.flights| && NoResultAt(s.flights[f], k, i)
  }

  lemma WaitingCanLand(s: State, i: Item) returns (steps: seq<Step>, r: Resp)
    requires Inv(s) && !s.crashed && i in InFlight(s.flights) && !Starved(s, i)
    ensures Answers(s, steps, i, r)
  {
    var f, k := FindFlight(s.flights, i);
    assert s.flights[f].Valid();
    assert !NoResultAt(s.flights[f], k, i);
    if s.flights[f].results.Some? {
      steps := FlightCanLand(s, f, k);
      r := s.flights[f].results.value[k];
    } else {
      var back := RelayReturns(f, Failure(""));
      var s' := Next(s, back);
      StepKeepsInv(s, back);
      var rest := FlightCanLand(s', f, k);
      steps := [back] + rest;
      r := s'.flights[f].results.value[k];
      StepThenAnswers(s, back, rest, i, r);
    }
  }

  lemma PendingIsNotStarved(s: State, s': State, i: Item)
    requires !Starved(s, i) && s'.flights == s.flights + [Flight(s.pending, None, 0)]
    ensures !Starved(s', i)
  {
    forall f: nat, k: nat | f < |s'.flights| ensures !NoResultAt(s'.flights[f], k, i) {
      if f < |s.flights| {
        assert !NoResultAt(s.flights[f], k, i);
      }
    }
  }

  lemma PendingCanLand(s: State, i: Item) returns (steps: seq<Step>, r: Resp)
    requires Inv(s) && !s.crashed && i in s.pending && !Starved(s, i)
    ensures Answers(s, steps, i, r)
  {
    var fly := PendingCanFly(s);
    RunKeepsInv(s, fly);
    var s' := Exec(s, fly);
    InFlightAppend(s.flights, Flight(s.pending, None, 0));
    assert Flight(s.pending, None, 0).Waiting() == s.pending;
    PendingIsNotStarved(s, s', i);
    var land, r' := WaitingCanLand(s', i);
    RunAppend(s, fly, land);
    steps, r := fly + land, r';
  }

  lemma {:induction false} FindAnswer(answers: seq<(Item, Resp)>, i: Item) returns (r: Resp)
    requires i in Answered(answers)
    ensures (i, r) in answers
    decreases |answers|
  {
    var last := answers[|answers| - 1];
    if last.0 == i {
      r := last.1;
    } else {
      r := FindAnswer(answers[..|answers| - 1], i);
    }
  }

  lemma {:induction false} AnsweredHas(answers: seq<(Item, Resp)>, i: Item, r: Resp)
    requires (i, r) in answers
    ensures i in Answered(answers)
    decreases |answers|
  {
    var n := |answers| - 1;
    if answers[n] != (i, r) {
      assert answers == answers[..n] + [answers[n]];
      AnsweredHas(answers[..n], i, r);
    }
  }

  lemma {:induction false} InFlightHas(fs: seq<Flight>, f: nat, k: nat)
    requires AllBounded(fs) && f < |fs| && fs[f].sent <= k < |fs[f].items|
    ensures fs[f].items[k] in InFlight(fs)
    decreases |fs|
  {
    if f == 0 {
      assert fs[0].Waiting()[k - fs[0].sent] == fs[0].items[k];
    } else {
      InFlightHas(fs[1..], f - 1, k);
    }
  }

  /** No step gives a flight the result it lacks. */
  lemma StepKeepsStarved(s: State, step: Step, i: Item)
    requires Enabled(s, step) && Starved(s, i)
    ensures Starved(Next(s, step), i)
  {
    var f: nat, k: nat :| f < |s.flights| && NoResultAt(s.flights[f], k, i);
    assert NoResultAt(Next(s, step).flights[f], k, i);
  }

  lemma {:induction false} RunKeepsStarved(s: State, steps: seq<Step>, i: Item)
    requires Run(s, steps) && Starved(s, i)
    ensures Starved(Exec(s, steps), i)
    decreases |steps|
  {
    if steps != [] {
      StepKeepsStarved(s, steps[0], i);
      RunKeepsStarved(Next(s, steps[0]), steps[1..], i);
    }
  }

  lemma StarvedIsUnanswered(s: State, i: Item, r: Resp)
    requires Inv(s) && Starved(s, i)
    ensures (i, r) !in s.answers
  {
    var f: nat, k: nat :| f < |s.flights| && NoResultAt(s.flights[f], k, i);
    assert s.flights[f].Valid();
    InFlightHas(s.flights, f, k);
    assert Holdings(s)[i] == multiset(s.pending)[i] + InFlight(s.flights)[i] + Answered(s.answers)[i];
    if (i, r) in s.answers {
      AnsweredHas(s.answers, i, r);
    }
  }

  /** What is not held anywhere, and has been submitted, is not held after any step. */
  lemma StepKeepsLost(s: State, step: Step, i: Item)
    requires Inv(s) && Enabled(s, step) && i < s.submitted && i !in Holdings(s)
    ensures FlightsValid(Next(s, step)) && i !in Holdings(Next(s, step)) && i < Next(s, step).submitted
  {
    hide Holdings, Next, Enabled, FlightsValid;
    StepConserves(s, step);
    StepSubmits(s, step);
    var h, h' := Holdings(s), Holdings(Next(s, step));
    if step.Restart? {
      assert (h' + multiset(s.pending))[i] == h[i];
    }
  }

  lemma {:induction false} RunKeepsLost(s: State, steps: seq<Step>, i: Item)
    requires Inv(s) && Run(s, steps) && i < s.submitted && i !in Holdings(s)
    ensures FlightsValid(Exec(s, steps)) && i !in Holdings(Exec(s, steps))
    decreases |steps|
  {
    if steps != [] {
      StepKeepsInv(s, steps[0]);
      StepKeepsLost(s, steps[0], i);
      RunKeepsLost(Next(s, steps[0]), steps[1..], i);
    }
  }

  lemma HoldingsAt(s: State, i: Item)
    requires FlightsValid(s)
    ensures Holdings(s)[i] == multiset(s.pending)[i] + InFlight(s.flights)[i] + Answered(s.answers)[i]
  {
  }

  lemma LostIsUnanswered(s: State, i: Item, r: Resp)
    requires FlightsValid(s) && i !in Holdings(s)
    ensures (i, r) !in s.answers
  {
    HoldingsAt(s, i);
    if (i, r) in s.answers {
      AnsweredHas(s.answers, i, r);
    }
  }

  /** Whatever happens from here on, the item gets no answer: it is lost, or has no result in its batch. */
  ghost predicate Hopeless(s: State, i: Item)
    requires FlightsValid(s)
  {
    i !in Holdings(s) || Starved(s, i)
  }

  lemma HopelessIsUnanswered(s: State, steps: seq<Step>, i: Item, r: Resp)
    requires Inv(s) && i < s.submitted && Hopeless(s, i)
    ensures !Answers(s, steps, i, r)
  {
    if Run(s, steps) {
      RunKeepsInv(s, steps);
      if Starved(s, i) {
        RunKeepsStarved(s, steps, i);
        StarvedIsUnanswered(Exec(s, steps), i, r);
      } else {
        RunKeepsLost(s, steps, i);
        LostIsUnanswered(Exec(s, steps), i, r);
      }
    }
  }

  /**
   * From every reachable state, restarts included, some continuation answers a submitted item exactly when it has its
   * answer already, or the program still runs, the item is held somewhere (a restart has not dropped it), and it is not
   * in a batch that came back without a result for it.
   */
  lemma AnswerableIff(before: seq<Step>, i: Item)
    requires Run(INIT, before) && i < Exec(INIT, before).submitted
    ensures var s := Exec(INIT, before);
      && FlightsValid(s)
      && (CanBeAnswered(s, i) <==> i in Answered(s.answers) || (!s.crashed && !Hopeless(s, i)))
  {
    RunKeepsInv(INIT, before);
    AnswerableFrom(Exec(INIT, before), i);
  }

  lemma AnswerableFrom(s: State, i: Item)
    requires Inv(s) && i < s.submitted
    ensures CanBeAnswered(s, i) <==> i in Answered(s.answers) || (!s.crashed && !Hopeless(s, i))
  {
    hide Holdings, InFlight, Starved;
    if i in Answered(s.answers) {
      var r := FindAnswer(s.answers, i);
      assert Answers(s, [], i, r);
    } else if s.crashed {
      forall steps: seq<Step>, r: Resp ensures !Answers(s, steps, i, r) {
        if Answers(s, steps, i, r) {
          AnsweredHas(s.answers, i, r);
        }
      }
    } else if Hopeless(s, i) {
      forall steps: seq<Step>, r: Resp ensures !Answers(s, steps, i, r) {
        HopelessIsUnanswered(s, steps, i, r);
      }
    } else {
      var steps, r := CanLand(s, i);
    }
  }

  lemma CanLand(s: State, i: Item) returns (steps: seq<Step>, r: Resp)
    requires Inv(s) && !s.crashed && !Hopeless(s, i)
    ensures Answers(s, steps, i, r) && !Exec(s, steps).crashed
  {
    var landing: seq<Step>;
    landing, r := CanLandSomehow(s, i);
    steps := AnswersUncrashed(s, landing, i, r);
  }

  lemma CanLandSomehow(s: State, i: Item) returns (steps: seq<Step>, r: Resp)
    requires Inv(s) && !s.crashed && !Hopeless(s, i)
    ensures Answers(s, steps, i, r)
  {
    HoldingsAt(s, i);
    if i in Answered(s.answers) {
      r := FindAnswer(s.answers, i);
      steps := [];
    } else if i in InFlight(s.flights) {
      steps, r := WaitingCanLand(s, i);
    } else {
      assert i in multiset(s.pending);
      steps, r := PendingCanLand(s, i);
    }
  }

  lemma CrashedIsOver(s: State, steps: seq<Step>)
    requires s.crashed && Run(s, steps)
    ensures steps == []
  {
  }

  // ---------------------------------------------------------------------------
  // Settling down
  // ---------------------------------------------------------------------------

  /** A step that neither brings a new item nor takes one away. */
  predicate Quiet(step: Step) {
    !step.Submit? && !step.Restart? && !step.RunsOut?
  }

  function TimerWork(timers: seq<Timer>): nat {
    if timers == [] then 0 else
    TimerWork(timers[1..]) + match timers[0] case Armed => 2 case Fired => 1 case _ => 0
  }

  /** The relay's return and the sends that are left. */
  function FlightWork(fl: Flight): nat {
    match fl.results
    case None => 1 + |fl.items|
    case Some(rs) => if fl.sent <= |rs| then |rs| - fl.sent else 0
  }

  function FlightsWork(fs: seq<Flight>): nat {
    if fs == [] then 0 else FlightsWork(fs[1..]) + FlightWork(fs[0])
  }

  /** A bound on the quiet steps that are left. */
  function Work(s: State): nat {
    TimerWork(s.timers) + 2 * |s.pending| + FlightsWork(s.flights)
  }

  lemma {:induction false} TimerWorkUpdate(timers: seq<Timer>, t: nat, x: Timer)
    requires t < |timers|
    ensures TimerWork(timers[t := x]) + TimerWork([timers[t]]) == TimerWork(timers) + TimerWork([x])
  {
    assert timers[t := x][0] == if t == 0 then x else timers[0];
    if t == 0 {
      assert timers[t := x][1..] == timers[1..];
    } else {
      TimerWorkUpdate(timers[1..], t - 1, x);
      assert timers[t := x][1..] == timers[1..][t - 1 := x];
    }
  }

  lemma {:induction false} FlightsWorkUpdate(fs: seq<Flight>, f: nat, fl: Flight)
    requires f < |fs|
    ensures FlightsWork(fs[f := fl]) + FlightWork(fs[f]) == FlightsWork(fs) + FlightWork(fl)
  {
    assert fs[f := fl][0] == if f == 0 then fl else fs[0];
    if f == 0 {
      assert fs[f := fl][1..] == fs[1..];
    } else {
      FlightsWorkUpdate(fs[1..], f - 1, fl);
      assert fs[f := fl][1..] == fs[1..][f - 1 := fl];
    }
  }

  lemma {:induction false} FlightsWorkAppend(fs: seq<Flight>, fl: Flight)
    ensures FlightsWork(fs + [fl]) == FlightsWork(fs) + FlightWork(fl)
  {
    if fs == [] {
      assert fs + [fl] == [fl];
      assert [fl][1..] == [];
    } else {
      FlightsWorkAppend(fs[1..], fl);
      assert (fs + [fl])[1..] == fs[1..] + [fl];
    }
  }

  /** Every quiet step leaves less to do. */
  lemma QuietStepWorks(s: State, step: Step)
    requires FlightsValid(s) && Enabled(s, step) && Quiet(step)
    ensures Work(Next(s, step)) < Work(s)
  {
    hide FlightsWork, TimerWork;
    match step
    case TimerFires(t) =>
      TimerWorkUpdate(s.timers, t, Fired);
      OneTimer();
    case TimerRuns(t) =>
      TimerWorkUpdate(s.timers, t, Finished);
      OneTimer();
      FlightsWorkAppend(s.flights, Flight(s.pending, None, 0));
    case RelayReturns(f, o) =>
      FlightsWorkUpdate(s.flights, f, s.flights[f].(results := Some(ResultsOf(|s.flights[f].items|, o))));
    case Deliver(f) =>
      FlightsWorkUpdate(s.flights, f, s.flights[f].(sent := s.flights[f].sent + 1));
  }

  lemma OneTimer()
    ensures TimerWork([Armed]) == 2 && TimerWork([Fired]) == 1
    ensures TimerWork([Stopped]) == TimerWork([Finished]) == 0
  {
    assert [Armed][1..] == [] && [Fired][1..] == [] && [Stopped][1..] == [] && [Finished][1..] == [];
  }

  lemma {:induction false} TimerWorkAppend(timers: seq<Timer>, x: Timer)
    ensures TimerWork(timers + [x]) == TimerWork(timers) + TimerWork([x])
  {
    if timers == [] {
      assert timers + [x] == [x];
    } else {
      TimerWorkAppend(timers[1..], x);
      assert (timers + [x])[1..] == timers[1..] + [x];
    }
  }

  lemma StopFieldWorks(field: Option<nat>, timers: seq<Timer>)
    ensures TimerWork(StopField(field, timers)) <= TimerWork(timers)
  {
    if field.Some? && field.value < |timers| && timers[field.value].Armed? {
      TimerWorkUpdate(timers, field.value, Stopped);
      OneTimer();
    }
  }

  /** A new item brings four steps at most. */
  lemma SubmitWorks(s: State)
    requires |s.pending| < GAS_BATCH_MAX
    ensures Work(AfterSubmit(s)) <= Work(s) + 4
  {
    hide TimerWork, FlightsWork, StopField;
    TimerWorkAppend(s.timers, Armed);
    OneTimer();
    StopFieldWorks(s.field, s.timers);
    FlightsWorkAppend(s.flights, Flight(s.pending + [s.submitted], None, 0));
  }

  /** Left alone, the protocol stops after a bounded number of steps. */
  lemma {:induction false} QuietRunEnds(s: State, steps: seq<Step>)
    requires Inv(s) && Run(s, steps) && forall st <- steps :: Quiet(st)
    ensures |steps| <= Work(s)
    decreases |steps|
  {
    if steps != [] {
      hide Work, Next, Enabled;
      QuietStepWorks(s, steps[0]);
      StepKeepsInv(s, steps[0]);
      QuietRunEnds(Next(s, steps[0]), steps[1..]);
    }
  }

  /** No quiet step is left. */
  ghost predicate Settled(s: State) {
    forall step: Step :: Quiet(step) ==> !Enabled(s, step)
  }

  lemma PendingHasStep(s: State)
    requires TimerInv(s) && !s.crashed
    ensures s.pending != [] ==> exists step: Step :: Quiet(step) && Enabled(s, step)
  {
    if s.pending != [] {
      var t := s.field.value;
      assert Enabled(s, TimerFires(t)) || Enabled(s, TimerRuns(t));
    }
  }

  /** Once it has stopped, and has not crashed, every item that is still held has its answer, or never had a result. */
  lemma SettledIsAnswered(s: State, i: Item)
    requires Inv(s) && !s.crashed && Settled(s) && i in Holdings(s)
    ensures i in Answered(s.answers) || Starved(s, i)
  {
    HoldingsAt(s, i);
    PendingHasStep(s);
    if i in InFlight(s.flights) {
      var f, k := FindFlight(s.flights, i);
      assert s.flights[f].Valid();
      assert !Enabled(s, RelayReturns(f, Failure("")));
      assert !Enabled(s, Deliver(f));
      assert NoResultAt(s.flights[f], k, i);
    }
  }

  /**
   * Whatever the order of the steps: after any run, once nothing new is submitted, there is no restart and the program
   * does not crash, the protocol stops within a bounded number of steps, and then every item that is held has its
   * answer or came back without a result. Without an earlier restart, all that were submitted are held.
   */
  lemma EveryItemIsAnswered(before: seq<Step>, quiet: seq<Step>)
    requires Run(INIT, before) && !Exec(INIT, before).crashed
    requires Run(Exec(INIT, before), quiet) && forall st <- quiet :: Quiet(st)
    ensures |quiet| <= Work(Exec(INIT, before))
    ensures var s := Exec(Exec(INIT, before), quiet);
      && !s.crashed && FlightsValid(s)
      && (Settled(s) ==> forall i: Item :: i in Holdings(s) ==> i in Answered(s.answers) || Starved(s, i))
      && (Restart !in before ==> Complete(s))
  {
    assert Restart !in quiet;
    var m := Exec(INIT, before);
    RunKeepsInv(INIT, before);
    RunKeepsInv(m, quiet);
    QuietRunEnds(m, quiet);
    QuietDoesNotCrash(m, quiet);
    var s := Exec(m, quiet);
    if Settled(s) {
      forall i: Item | i in Holdings(s) ensures i in Answered(s.answers) || Starved(s, i) {
        SettledIsAnswered(s, i);
      }
    }
  }

  lemma {:induction false} QuietDoesNotCrash(s: State, steps: seq<Step>)
    requires !s.crashed && Run(s, steps) && forall st <- steps :: Quiet(st)
    ensures !Exec(s, steps).crashed
    decreases |steps|
  {
    if steps != [] {
      assert Quiet(steps[0]);
      QuietDoesNotCrash(Next(s, steps[0]), steps[1..]);
    }
  }

  /** An answer can be had without letting the program crash behind it. */
  lemma {:induction false} AnswersUncrashed(s: State, steps: seq<Step>, i: Item, r: Resp) returns (safe: seq<Step>)
    requires !s.crashed && Answers(s, steps, i, r)
    ensures Answers(s, safe, i, r) && !Exec(s, safe).crashed
    decreases |steps|
  {
    if steps == [] {
      safe := [];
    } else if steps[0].RunsOut? {
      CrashedIsOver(Next(s, steps[0]), steps[1..]);
      assert Exec(s, steps) == Exec(Next(s, steps[0]), []) == Next(s, steps[0]);
      safe := [];
    } else {
      var rest := AnswersUncrashed(Next(s, steps[0]), steps[1..], i, r);
      safe := [steps[0]] + rest;
      StepThenAnswers(s, steps[0], rest, i, r);
      assert safe[1..] == rest && Exec(s, safe) == Exec(Next(s, steps[0]), rest);
    }
  }

  lemma RunCons(s: State, steps: seq<Step>, next: State, end: State)
    requires steps != [] && Enabled(s, steps[0]) && Next(s, steps[0]) == next
    requires Run(next, steps[1..]) && Exec(next, steps[1..]) == end
    ensures Run(s, steps) && Exec(s, steps) == end
  {
  }

  /** Two items in a batch whose relay brings one result. */
  const SHORT_RUN: seq<Step> := [Submit, Submit, TimerFires(0), TimerRuns(0), RelayReturns(0, Replies(["x"]))]
  const SHORT_END := State(false, 2, [], None, [Finished], [Flight([0, 1], Some(["x"]), 0)], [])

  lemma ShortRun()
    ensures Run(INIT, SHORT_RUN) && Exec(INIT, SHORT_RUN) == SHORT_END
  {
    var s1 := State(false, 1, [0], Some(0), [Armed], [], []);
    var s2 := s1.(submitted := 2, pending := [0, 1]);
    var s3 := s2.(timers := [Fired]);
    var s4 := State(false, 2, [], None, [Finished], [Flight([0, 1], None, 0)], []);
    assert SHORT_RUN[4..][1..] == [];
    assert SHORT_RUN[3..][1..] == SHORT_RUN[4..] && SHORT_RUN[2..][1..] == SHORT_RUN[3..];
    assert SHORT_RUN[1..][1..] == SHORT_RUN[2..];
    RunCons(s4, SHORT_RUN[4..], SHORT_END, SHORT_END);
    RunCons(s3, SHORT_RUN[3..], s4, SHORT_END);
    RunCons(s2, SHORT_RUN[2..], s3, SHORT_END);
    RunCons(s1, SHORT_RUN[1..], s2, SHORT_END);
    RunCons(INIT, SHORT_RUN, s1, SHORT_END);
  }

  /** A short reply starves the item behind its last result. */
  lemma ShortReplyStarves()
    ensures Run(INIT, SHORT_RUN) && Starved(Exec(INIT, SHORT_RUN), 1) && !CanBeAnswered(Exec(INIT, SHORT_RUN), 1)
  {
    ShortRun();
    assert NoResultAt(SHORT_END.flights[0], 1, 1);
    AnswerableIff(SHORT_RUN, 1);
    assert Answered([]) == multiset{};
  }

  /** A restart loses the item that is pending. */
  lemma RestartLoses()
    ensures Run(INIT, [Submit, Restart]) && !CanBeAnswered(Exec(INIT, [Submit, Restart]), 0)
  {
    var s1 := State(false, 1, [0], Some(0), [Armed], [], []);
    var s2 := State(false, 1, [], None, [Stopped], [], []);
    assert [Submit, Restart][1..] == [Restart] && [Restart][1..] == [];
    RunCons(s1, [Restart], s2, s2);
    RunCons(INIT, [Submit, Restart], s1, s2);
    AnswerableIff([Submit, Restart], 0);
    HoldingsAt(s2, 0);
  }
}
