// proxy/gas_relay.go: tryCoalesce. Identical requests share one leader; the others wait on a channel of
// capacity one until the leader sends its response or thirty seconds are over.
//
// Every critical section of coalesceMu is one step, and so is every channel operation.
module Coalescing {
  import opened Options
  import opened Sequences

  type Key = string
  type Resp = string

  /** A leader that still relays, or one that has left the map with the list of waiters it found there. */
  datatype Leader =
    | Leading(key: Key)
    | Sending(key: Key, resp: Resp, snapshot: seq<nat>, sent: nat)

  datatype Status = Waiting | Got(resp: Resp) | TimedOut

  /** A waiter's channel; `leader` is the leader of its key at the moment it joined. */
  datatype Channel = Channel(leader: nat, buffer: Option<Resp>, status: Status)

  /** `lead` records which leader put a key into the map. */
  datatype State = State(coalesce: map<Key, seq<nat>>, lead: map<Key, nat>, leaders: seq<Leader>, chans: seq<Channel>)

  const INIT := State(map[], map[], [], [])

  datatype Step =
    | Enter(key: Key)
    | Close(l: nat, resp: Resp)
    | Send(l: nat)
    | Receive(c: nat)
    | Timeout(c: nat)

  /** Leader l has a send to do; whether it can go ahead is another matter. */
  predicate WantsToSend(s: State, l: nat) {
    && l < |s.leaders| && s.leaders[l].Sending? && s.leaders[l].sent < |s.leaders[l].snapshot|
    && s.leaders[l].snapshot[s.leaders[l].sent] < |s.chans|
  }

  function Target(s: State, l: nat): nat
    requires WantsToSend(s, l)
  {
    s.leaders[l].snapshot[s.leaders[l].sent]
  }

  /** A send on a channel of capacity one goes ahead only when the buffer is empty. */
  predicate Enabled(s: State, step: Step) {
    match step
    case Enter(key) => key in s.coalesce ==> key in s.lead
    case Close(l, _) => l < |s.leaders| && s.leaders[l].Leading?
    case Send(l) => WantsToSend(s, l) && s.chans[Target(s, l)].buffer.None?
    case Receive(c) => c < |s.chans| && s.chans[c].status.Waiting? && s.chans[c].buffer.Some?
    case Timeout(c) => c < |s.chans| && s.chans[c].status.Waiting?
  }

  function AfterEnter(s: State, key: Key): State
    requires Enabled(s, Enter(key))
  {
    if key in s.coalesce then
      s.(coalesce := s.coalesce[key := s.coalesce[key] + [|s.chans|]],
         chans := s.chans + [Channel(s.lead[key], None, Waiting)])
    else
      s.(coalesce := s.coalesce[key := []], lead := s.lead[key := |s.leaders|], leaders := s.leaders + [Leading(key)])
  }

  function AfterClose(s: State, l: nat, resp: Resp): State
    requires Enabled(s, Close(l, resp))
  {
    var key := s.leaders[l].key;
    var waiters := if key in s.coalesce then s.coalesce[key] else [];
    s.(coalesce := s.coalesce - {key}, lead := s.lead - {key},
       leaders := s.leaders[l := Sending(key, resp, waiters, 0)])
  }

  function AfterSend(s: State, l: nat): State
    requires Enabled(s, Send(l))
  {
    var ld := s.leaders[l];
    var c := Target(s, l);
    s.(leaders := s.leaders[l := ld.(sent := ld.sent + 1)],
       chans := s.chans[c := s.chans[c].(buffer := Some(ld.resp))])
  }

  function Next(s: State, step: Step): State
    requires Enabled(s, step)
  {
    match step
    case Enter(key) => AfterEnter(s, key)
    case Close(l, resp) => AfterClose(s, l, resp)
    case Send(l) => AfterSend(s, l)
    case Receive(c) => s.(chans := s.chans[c := s.chans[c].(buffer := None, status := Got(s.chans[c].buffer.value))])
    case Timeout(c) => s.(chans := s.chans[c := s.chans[c].(status := TimedOut)])
  }

  // ---------------------------------------------------------------------------
  // The coalescing map as an object
  // ---------------------------------------------------------------------------

  class Coalescer {
    var coalesce: map<Key, seq<nat>>
    var lead: map<Key, nat>
    var leaders: seq<Leader>
    var chans: seq<Channel>

    function Snapshot(): State
      reads this
    {
      State(coalesce, lead, leaders, chans)
    }

    constructor ()
      ensures Snapshot() == INIT
    {
      coalesce, lead, leaders, chans := map[], map[], [], [];
    }

    /** The first critical section: join as a waiter, or become the leader. */
    method EnterKey(key: Key) returns (leading: bool, id: nat)
      requires Enabled(Snapshot(), Enter(key))
      modifies this
      ensures leading == (key !in old(coalesce))
      ensures id == if leading then |old(leaders)| else |old(chans)|
      ensures Snapshot() == Next(old(Snapshot()), Enter(key))
      ensures leading ==> coalesce == old(coalesce)[key := []] && leaders == old(leaders) + [Leading(key)]
      ensures !leading ==>
        && coalesce == old(coalesce)[key := old(coalesce)[key] + [id]]
        && chans == old(chans) + [Channel(old(lead)[key], None, Waiting)]
    {
      if key in coalesce {
        id := |chans|;
        chans := chans + [Channel(lead[key], None, Waiting)];
        coalesce := coalesce[key := coalesce[key] + [id]];
        return false, id;
      }
      id := |leaders|;
      leaders := leaders + [Leading(key)];
      coalesce := coalesce[key := []];
      lead := lead[key := id];
      return true, id;
    }

    /** The second critical section: take the waiters out of the map. */
    method CloseKey(l: nat, resp: Resp)
      requires Enabled(Snapshot(), Close(l, resp))
      modifies this
      ensures Snapshot() == Next(old(Snapshot()), Close(l, resp))
      ensures coalesce == old(coalesce - {leaders[l].key}) && chans == old(chans)
      ensures leaders == old(leaders[l := Sending(leaders[l].key, resp,
        if leaders[l].key in coalesce then coalesce[leaders[l].key] else [], 0)])
    {
      var key := leaders[l].key;
      var waiters := if key in coalesce then coalesce[key] else [];
      coalesce := coalesce - {key};
      lead := lead - {key};
      leaders := leaders[l := Sending(key, resp, waiters, 0)];
    }

    /** One send of the delivery loop. */
    method SendOne(l: nat)
      requires Enabled(Snapshot(), Send(l))
      modifies this
      ensures Snapshot() == Next(old(Snapshot()), Send(l))
      ensures leaders == old(leaders[l := leaders[l].(sent := leaders[l].sent + 1)])
      ensures chans == old(chans[leaders[l].snapshot[leaders[l].sent] :=
        chans[leaders[l].snapshot[leaders[l].sent]].(buffer := Some(leaders[l].resp))])
    {
      var ld := leaders[l];
      var c := ld.snapshot[ld.sent];
      chans := chans[c := chans[c].(buffer := Some(ld.resp))];
      leaders := leaders[l := ld.(sent := ld.sent + 1)];
    }
  }

  // ---------------------------------------------------------------------------
  // The invariant
  // ---------------------------------------------------------------------------

  /** Each key of the map belongs to the one leader that is leading it. */
  ghost predicate MapInv(s: State) {
    && s.coalesce.Keys == s.lead.Keys
    && (forall k <- s.lead :: s.lead[k] < |s.leaders| && s.leaders[s.lead[k]] == Leading(k))
    && (forall l :: 0 <= l < |s.leaders| && s.leaders[l].Leading? ==>
          s.leaders[l].key in s.lead && s.lead[s.leaders[l].key] == l)
  }

  /** The channels leader l has to serve, served or not. */
  function Waiters(s: State, l: nat): seq<nat>
    requires l < |s.leaders|
  {
    match s.leaders[l]
    case Leading(key) => if key in s.coalesce then s.coalesce[key] else []
    case Sending(_, _, snapshot, _) => snapshot
  }

  predicate Untouched(ch: Channel) {
    ch.buffer.None? && !ch.status.Got?
  }

  /** A channel that has been sent r once: still in the buffer, or received. */
  predicate Holds(ch: Channel, r: Resp) {
    (ch.buffer == Some(r) && !ch.status.Got?) || (ch.buffer.None? && ch.status == Got(r))
  }

  /** Entry i of leader l's list. */
  predicate EntryInv(s: State, l: nat, i: nat)
    requires l < |s.leaders| && i < |Waiters(s, l)|
  {
    var c := Waiters(s, l)[i];
    && c < |s.chans| && s.chans[c].leader == l
    && (if s.leaders[l].Sending? && i < s.leaders[l].sent
        then Holds(s.chans[c], s.leaders[l].resp) else Untouched(s.chans[c]))
  }

  ghost predicate ListInv(s: State) {
    forall l :: 0 <= l < |s.leaders| ==>
      && Distinct(Waiters(s, l))
      && forall i :: 0 <= i < |Waiters(s, l)| ==> EntryInv(s, l, i)
  }

  ghost predicate ChannelInv(s: State) {
    forall c :: 0 <= c < |s.chans| ==> s.chans[c].leader < |s.leaders| && c in Waiters(s, s.chans[c].leader)
  }

  ghost predicate Inv(s: State) {
    MapInv(s) && ListInv(s) && ChannelInv(s)
  }

  /** A new leader starts with an empty list, and nobody else's list changes. */
  lemma LeadKeepsInv(s: State, key: Key)
    requires Inv(s) && key !in s.coalesce
    ensures Enabled(s, Enter(key)) && Inv(Next(s, Enter(key)))
  {
    var s' := AfterEnter(s, key);
    assert MapInv(s');
    forall l | 0 <= l < |s.leaders| ensures Waiters(s', l) == Waiters(s, l) {
    }
    forall l, i | 0 <= l < |s'.leaders| && 0 <= i < |Waiters(s', l)| ensures EntryInv(s', l, i) {
      assert EntryInv(s, l, i);
    }
    assert ListInv(s');
  }

  /** A new waiter goes to the end of its leader's list, and no other list changes. */
  lemma JoinKeepsInv(s: State, key: Key)
    requires Inv(s) && key in s.coalesce
    ensures Enabled(s, Enter(key)) && Inv(Next(s, Enter(key)))
  {
    var s' := AfterEnter(s, key);
    var m := s.lead[key];
    assert MapInv(s');
    assert Waiters(s', m) == Waiters(s, m) + [|s.chans|];
    forall l | 0 <= l < |s.leaders| && l != m ensures Waiters(s', l) == Waiters(s, l) {
    }
    forall l, i | 0 <= l < |s.leaders| && 0 <= i < |Waiters(s, l)| ensures EntryInv(s', l, i) {
      assert EntryInv(s, l, i);
    }
    assert EntryInv(s', m, |Waiters(s, m)|);
    forall i | 0 <= i < |Waiters(s, m)| ensures Waiters(s, m)[i] < |s.chans| {
      assert EntryInv(s, m, i);
    }
    assert Distinct(Waiters(s', m));
    assert ListInv(s');
    JoinKeepsChannels(s, s', m);
  }

  lemma JoinKeepsChannels(s: State, s': State, m: nat)
    requires ChannelInv(s) && m < |s.leaders| == |s'.leaders|
    requires s'.chans == s.chans + [Channel(m, None, Waiting)]
    requires Waiters(s', m) == Waiters(s, m) + [|s.chans|]
    requires forall l :: 0 <= l < |s.leaders| && l != m ==> Waiters(s', l) == Waiters(s, l)
    ensures ChannelInv(s')
  {
    hide Waiters;
    forall c | 0 <= c < |s'.chans| ensures s'.chans[c].leader < |s'.leaders| && c in Waiters(s', s'.chans[c].leader) {
      if c < |s.chans| {
        assert c in Waiters(s, s.chans[c].leader);
      }
    }
  }

  lemma EnterKeepsInv(s: State, key: Key)
    requires Inv(s)
    ensures Enabled(s, Enter(key)) && Inv(Next(s, Enter(key)))
  {
    if key in s.coalesce {
      JoinKeepsInv(s, key);
    } else {
      LeadKeepsInv(s, key);
    }
  }

  lemma CloseKeepsInv(s: State, l: nat, resp: Resp)
    requires Inv(s) && Enabled(s, Close(l, resp))
    ensures Inv(Next(s, Close(l, resp)))
  {
    var s' := AfterClose(s, l, resp);
    forall m | 0 <= m < |s.leaders| ensures Waiters(s', m) == Waiters(s, m) {
    }
    forall m, i | 0 <= m < |s.leaders| && 0 <= i < |Waiters(s', m)| ensures EntryInv(s', m, i) {
      assert EntryInv(s, m, i);
    }
    assert ListInv(s');
  }

  /** The channel a leader is about to send to has an empty buffer. */
  lemma SendIsEnabled(s: State, l: nat)
    requires Inv(s) && l < |s.leaders| && s.leaders[l].Sending? && s.leaders[l].sent < |s.leaders[l].snapshot|
    ensures Enabled(s, Send(l))
  {
    assert EntryInv(s, l, s.leaders[l].sent);
  }

  lemma SendKeepsInv(s: State, l: nat)
    requires Inv(s) && Enabled(s, Send(l))
    ensures Inv(Next(s, Send(l)))
  {
    var s' := AfterSend(s, l);
    var c := Target(s, l);
    assert EntryInv(s, l, s.leaders[l].sent);
    forall m | 0 <= m < |s.leaders| ensures Waiters(s', m) == Waiters(s, m) {
    }
    forall m, i | 0 <= m < |s.leaders| && 0 <= i < |Waiters(s', m)| ensures EntryInv(s', m, i) {
      assert EntryInv(s, m, i);
    }
    assert ListInv(s');
  }

  /** Receiving and timing out touch one channel, and leave it in a state its leader's list allows. */
  lemma WaiterKeepsInv(s: State, step: Step)
    requires Inv(s) && Enabled(s, step) && (step.Receive? || step.Timeout?)
    ensures Inv(Next(s, step))
  {
    var s' := Next(s, step);
    forall m | 0 <= m < |s.leaders| ensures Waiters(s', m) == Waiters(s, m) {
    }
    forall m, i | 0 <= m < |s.leaders| && 0 <= i < |Waiters(s', m)| ensures EntryInv(s', m, i) {
      assert EntryInv(s, m, i);
    }
    assert ListInv(s');
  }

  lemma StepKeepsInv(s: State, step: Step)
    requires Inv(s) && Enabled(s, step)
    ensures Inv(Next(s, step))
  {
    match step
    case Enter(key) => EnterKeepsInv(s, key);
    case Close(l, resp) => CloseKeepsInv(s, l, resp);
    case Send(l) => SendKeepsInv(s, l);
    case Receive(c) => WaiterKeepsInv(s, step);
    case Timeout(c) => WaiterKeepsInv(s, step);
  }

  // ---------------------------------------------------------------------------
  // Whole runs
  // ---------------------------------------------------------------------------

  predicate Run(s: State, steps: seq<Step>)
    decreases |steps|
  {
    steps == [] || (Enabled(s, steps[0]) && Run(Next(s, steps[0]), steps[1..]))
  }

  function Exec(s: State, steps: seq<Step>): State
    requires Run(s, steps)
    decreases |steps|
  {
    if steps == [] then s else Exec(Next(s, steps[0]), steps[1..])
  }

  lemma {:induction false} RunKeepsInv(s: State, steps: seq<Step>)
    requires Inv(s) && Run(s, steps)
    ensures Inv(Exec(s, steps))
    decreases |steps|
  {
    if steps != [] {
      StepKeepsInv(s, steps[0]);
      RunKeepsInv(Next(s, steps[0]), steps[1..]);
    }
  }

  /** In every reachable state a key is in the map exactly when it has a leader, and then it has only one. */
  lemma OneLeaderPerKey(steps: seq<Step>, key: Key)
    requires Run(INIT, steps)
    ensures var s := Exec(INIT, steps);
      && (key in s.coalesce <==> Leading(key) in s.leaders)
      && forall l, m ::
           0 <= l < |s.leaders| && 0 <= m < |s.leaders| && s.leaders[l] == s.leaders[m] == Leading(key) ==> l == m
  {
    RunKeepsInv(INIT, steps);
    var s := Exec(INIT, steps);
    if key in s.coalesce {
      assert s.leaders[s.lead[key]] == Leading(key);
    }
  }

  /** No waiter is lost: who still waits with nothing in the buffer is on the part of a list yet to be served. */
  lemma NoWaiterLost(steps: seq<Step>, c: nat)
    requires Run(INIT, steps) && c < |Exec(INIT, steps).chans|
    requires Exec(INIT, steps).chans[c].status.Waiting? && Exec(INIT, steps).chans[c].buffer.None?
    ensures var s := Exec(INIT, steps);
      var l := s.chans[c].leader;
      && l < |s.leaders|
      && match s.leaders[l]
         case Leading(key) => key in s.coalesce && c in s.coalesce[key]
         case Sending(_, _, snapshot, sent) => sent <= |snapshot| && c in snapshot[sent..]
  {
    RunKeepsInv(INIT, steps);
    RunKeepsSent(INIT, steps);
    var s := Exec(INIT, steps);
    var l := s.chans[c].leader;
    var w := Waiters(s, l);
    var i :| 0 <= i < |w| && w[i] == c;
    assert EntryInv(s, l, i);
    if s.leaders[l].Sending? {
      assert w[s.leaders[l].sent..][i - s.leaders[l].sent] == c;
    }
  }

  ghost predicate SentInv(s: State) {
    forall l :: 0 <= l < |s.leaders| && s.leaders[l].Sending? ==> s.leaders[l].sent <= |s.leaders[l].snapshot|
  }

  lemma {:induction false} RunKeepsSent(s: State, steps: seq<Step>)
    requires SentInv(s) && Run(s, steps)
    ensures SentInv(Exec(s, steps))
    decreases |steps|
  {
    if steps != [] {
      RunKeepsSent(Next(s, steps[0]), steps[1..]);
    }
  }

  /** A waiter that gets a response gets the response of the leader it joined. */
  lemma OwnResponse(steps: seq<Step>, c: nat)
    requires Run(INIT, steps) && c < |Exec(INIT, steps).chans| && Exec(INIT, steps).chans[c].status.Got?
    ensures var s := Exec(INIT, steps);
      var l := s.chans[c].leader;
      l < |s.leaders| && s.leaders[l].Sending? && s.chans[c].status.resp == s.leaders[l].resp
  {
    RunKeepsInv(INIT, steps);
    GotFromLeader(Exec(INIT, steps), c);
  }

  lemma GotFromLeader(s: State, c: nat)
    requires Inv(s) && c < |s.chans| && s.chans[c].status.Got?
    ensures var l := s.chans[c].leader;
      l < |s.leaders| && s.leaders[l].Sending? && s.chans[c].status.resp == s.leaders[l].resp
  {
    var l := s.chans[c].leader;
    var i :| 0 <= i < |Waiters(s, l)| && Waiters(s, l)[i] == c;
    assert EntryInv(s, l, i);
  }

  /** A leader that sends has been closed with the response it sends, at some step of the run or before it. */
  lemma {:induction false} SendingWasClosed(s: State, steps: seq<Step>, l: nat)
    requires Run(s, steps) && l < |Exec(s, steps).leaders| && Exec(s, steps).leaders[l].Sending?
    ensures var r := Exec(s, steps).leaders[l].resp;
      Close(l, r) in steps || (l < |s.leaders| && s.leaders[l].Sending? && s.leaders[l].resp == r)
    decreases |steps|
  {
    if steps != [] {
      SendingWasClosed(Next(s, steps[0]), steps[1..], l);
      var s' := Next(s, steps[0]);
      if l < |s'.leaders| && s'.leaders[l].Sending? {
        CloseSetsResponse(s, steps[0], l);
      }
    }
  }

  /** Only its own close makes a leader send, and what it sends is what it was closed with. */
  lemma CloseSetsResponse(s: State, step: Step, l: nat)
    requires Enabled(s, step) && l < |Next(s, step).leaders| && Next(s, step).leaders[l].Sending?
    ensures var r := Next(s, step).leaders[l].resp;
      step == Close(l, r) || (l < |s.leaders| && s.leaders[l].Sending? && s.leaders[l].resp == r)
  {
  }

  /** In every run, a waiter that gets a response gets the very one with which the leader it joined was closed. */
  lemma ResponseWasClosedWith(steps: seq<Step>, c: nat)
    requires Run(INIT, steps) && c < |Exec(INIT, steps).chans| && Exec(INIT, steps).chans[c].status.Got?
    ensures var ch := Exec(INIT, steps).chans[c];
      Close(ch.leader, ch.status.resp) in steps
  {
    OwnResponse(steps, c);
    SendingWasClosed(INIT, steps, Exec(INIT, steps).chans[c].leader);
  }

  /** Receiving empties the buffer into the waiter, giving up leaves the buffer alone; no other channel changes. */
  lemma WaiterSteps(s: State, c: nat)
    ensures Enabled(s, Receive(c)) ==>
      Next(s, Receive(c)).chans == s.chans[c := Channel(s.chans[c].leader, None, Got(s.chans[c].buffer.value))]
    ensures Enabled(s, Timeout(c)) ==>
      Next(s, Timeout(c)).chans == s.chans[c := Channel(s.chans[c].leader, s.chans[c].buffer, TimedOut)]
  {
  }

  /** A waiter that has given up never gets a response, whatever happens later. */
  lemma {:induction false} GivenUpForGood(s: State, steps: seq<Step>, c: nat)
    requires Run(s, steps) && c < |s.chans| && s.chans[c].status.TimedOut?
    ensures c < |Exec(s, steps).chans| && Exec(s, steps).chans[c].status.TimedOut?
    decreases |steps|
  {
    if steps != [] {
      GivenUpForGood(Next(s, steps[0]), steps[1..], c);
    }
  }

  /** No send to a waiter ever blocks, whether or not the waiter has given up. */
  lemma SendNeverBlocks(steps: seq<Step>, l: nat)
    requires Run(INIT, steps)
    requires var s := Exec(INIT, steps);
      l < |s.leaders| && s.leaders[l].Sending? && s.leaders[l].sent < |s.leaders[l].snapshot|
    ensures Enabled(Exec(INIT, steps), Send(l))
  {
    RunKeepsInv(INIT, steps);
    SendIsEnabled(Exec(INIT, steps), l);
  }

  // ---------------------------------------------------------------------------
  // Serving a waiter
  // ---------------------------------------------------------------------------

  lemma {:induction false} SendsReach(s: State, l: nat, i: nat) returns (steps: seq<Step>)
    requires Inv(s) && l < |s.leaders| && s.leaders[l].Sending?
    requires s.leaders[l].sent <= i < |s.leaders[l].snapshot| && s.leaders[l].snapshot[i] < |s.chans|
    requires s.chans[s.leaders[l].snapshot[i]].status.Waiting?
    ensures Run(s, steps) && forall st <- steps :: st.Send? || st.Receive?
    ensures var c := s.leaders[l].snapshot[i];
      c < |Exec(s, steps).chans| && Exec(s, steps).chans[c].status == Got(s.leaders[l].resp)
    decreases i - s.leaders[l].sent
  {
    var c := s.leaders[l].snapshot[i];
    SendIsEnabled(s, l);
    SendKeepsInv(s, l);
    var s' := Next(s, Send(l));
    if s.leaders[l].sent == i {
      var s'' := Next(s', Receive(c));
      steps := [Send(l), Receive(c)];
      assert steps[1..] == [Receive(c)] && [Receive(c)][1..] == [];
      assert Run(s'', []) && Exec(s'', []) == s'';
      assert Run(s', [Receive(c)]) && Exec(s', [Receive(c)]) == s'';
    } else {
      assert s'.chans[c].status.Waiting?;
      var rest := SendsReach(s', l, i);
      steps := [Send(l)] + rest;
      assert steps[1..] == rest;
    }
  }

  /** A waiter that has not given up and whose leader has left the map can still get the leader's response. */
  lemma SendingLeaderServes(s: State, c: nat) returns (after: seq<Step>)
    requires Inv(s) && SentInv(s) && c < |s.chans| && s.chans[c].status.Waiting?
    requires s.leaders[s.chans[c].leader].Sending?
    ensures Run(s, after) && forall st <- after :: st.Send? || st.Receive?
    ensures c < |Exec(s, after).chans|
    ensures Exec(s, after).chans[c].status == Got(s.leaders[s.chans[c].leader].resp)
  {
    var l := s.chans[c].leader;
    var i :| 0 <= i < |Waiters(s, l)| && Waiters(s, l)[i] == c;
    assert EntryInv(s, l, i);
    if s.chans[c].buffer.Some? {
      after := [Receive(c)];
      assert after[1..] == [];
    } else {
      after := SendsReach(s, l, i);
    }
  }

  /** Nobody gets a response from a leader that is still leading. */
  lemma LeadingHasNotServed(s: State, c: nat)
    requires Inv(s) && c < |s.chans| && s.leaders[s.chans[c].leader].Leading?
    ensures !s.chans[c].status.Got?
  {
    var l := s.chans[c].leader;
    var i :| 0 <= i < |Waiters(s, l)| && Waiters(s, l)[i] == c;
    assert EntryInv(s, l, i);
  }
}
