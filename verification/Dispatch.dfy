/**
  Requests to the engine and its shutdown: any number of callers send events over
  a bounded channel and wait for a reply, or for the engine to be done.
 */
module Dispatch {
  const EVENTS_CAPACITY: nat := 256

  /** Where a caller stands; a caller that waits has a reply channel for one reply. */
  datatype Phase = Sending | Waiting | Accepted | Answered | Stopped

  datatype Caller = Caller(waits: bool, phase: Phase)

  datatype Engine = Running | Handling(call: nat) | Draining | Refusing(call: nat) | Drained | Closed

  /** replies holds the callers whose channel has a reply in it; answered counts the replies ever given. */
  datatype State = State(
    engine: Engine,
    events: seq<nat>,
    callers: map<nat, Caller>,
    replies: set<nat>,
    answered: multiset<nat>)

  datatype Step =
    | Call(call: nat, waits: bool)
    | Send(call: nat)
    | SendStopped(call: nat)
    | Receive(call: nat)
    | WaitStopped(call: nat)
    | Take
    | Reply
    | Cancel
    | DrainEmpty
    | CloseDone

  function Initial(): State {
    State(Running, [], map[], {}, multiset{})
  }

  predicate InPhase(s: State, call: nat, phase: Phase) {
    call in s.callers && s.callers[call].phase == phase
  }

  /** The request the engine has taken and not yet replied to. */
  predicate InHand(s: State, call: nat) {
    s.engine == Handling(call) || s.engine == Refusing(call)
  }

  predicate Busy(s: State) {
    s.engine.Handling? || s.engine.Refusing?
  }

  predicate Enabled(s: State, step: Step) {
    match step
    case Call(call, _) => call !in s.callers
    case Send(call) => InPhase(s, call, Sending) && |s.events| < EVENTS_CAPACITY
    case SendStopped(call) => InPhase(s, call, Sending) && s.engine.Closed?
    case Receive(call) => InPhase(s, call, Waiting) && call in s.replies
    case WaitStopped(call) => InPhase(s, call, Waiting) && s.engine.Closed?
    case Take => (s.engine.Running? || s.engine.Draining?) && s.events != []
    // A reply channel takes one reply; the engine would block on a full one.
    case Reply => Busy(s) && (s.engine.call in s.callers && s.callers[s.engine.call].waits ==>
      s.engine.call !in s.replies)
    case Cancel => s.engine.Running?
    case DrainEmpty => s.engine.Draining? && s.events == []
    case CloseDone => s.engine.Drained?
  }

  function Moved(s: State, call: nat, phase: Phase): map<nat, Caller>
    requires call in s.callers
  {
    s.callers[call := s.callers[call].(phase := phase)]
  }

  function After(s: State, step: Step): State
    requires Enabled(s, step)
  {
    match step
    case Call(call, waits) => s.(callers := s.callers[call := Caller(waits, Sending)])
    case Send(call) =>
      s.(events := s.events + [call], callers := Moved(s, call, if s.callers[call].waits then Waiting else Accepted))
    case SendStopped(call) => s.(callers := Moved(s, call, Stopped))
    case Receive(call) => s.(callers := Moved(s, call, Answered), replies := s.replies - {call})
    case WaitStopped(call) => s.(callers := Moved(s, call, Stopped))
    case Take =>
      s.(engine := if s.engine.Running? then Handling(s.events[0]) else Refusing(s.events[0]), events := s.events[1..])
    case Reply =>
      var call := s.engine.call;
      var t := s.(engine := if s.engine.Handling? then Running else Draining);
      if call in s.callers && s.callers[call].waits
      then t.(replies := t.replies + {call}, answered := t.answered + multiset{call})
      else t
    case Cancel => s.(engine := Draining)
    case DrainEmpty => s.(engine := Drained)
    case CloseDone => s.(engine := Closed)
  }

  /** states[i + 1] follows states[i]. */
  ghost predicate Runs(states: seq<State>, steps: seq<Step>) {
    && |states| == |steps| + 1
    && forall i :: 0 <= i < |steps| ==> Enabled(states[i], steps[i]) && states[i + 1] == After(states[i], steps[i])
  }

  // ------------------------------------------------------------------ safety

  predicate Queued(s: State, call: nat) {
    call in s.events || InHand(s, call)
  }

  /**
    One request: before it is sent nothing of it is anywhere; after that it is queued
    or in hand and unanswered, or has been answered once.
   */
  ghost predicate Tracked(s: State, call: nat) {
    && (call !in s.callers || s.callers[call].phase == Sending ==> !Queued(s, call) && s.answered[call] == 0)
    && (Queued(s, call) ==> s.answered[call] == 0)
    && (call in s.replies ==> s.answered[call] == 1)
    && s.answered[call] <= 1
    && (call in s.callers && s.callers[call].waits && s.callers[call].phase == Waiting ==>
          Queued(s, call) || call in s.replies)
    && (call in s.callers && s.callers[call].phase == Waiting ==> s.callers[call].waits)
    && (call in s.callers && s.callers[call].phase == Answered ==> s.answered[call] == 1)
    && (call in s.callers && s.callers[call].phase == Stopped ==> s.engine.Closed?)
  }

  /** One event at a time, and no event twice. */
  ghost predicate QueueOk(s: State) {
    && |s.events| <= EVENTS_CAPACITY
    && (forall i, j :: 0 <= i < j < |s.events| ==> s.events[i] != s.events[j])
    && (Busy(s) ==> s.engine.call !in s.events)
  }

  ghost predicate Good(s: State) {
    QueueOk(s) && forall call :: Tracked(s, call)
  }

  lemma GoodInitially()
    ensures Good(Initial())
  {
  }

  lemma StepKeepsQueue(s: State, step: Step)
    requires QueueOk(s) && Enabled(s, step)
    requires step.Send? ==> Tracked(s, step.call)
    ensures QueueOk(After(s, step))
  {
  }

  lemma StepKeepsTracked(s: State, step: Step, call: nat)
    requires QueueOk(s) && Enabled(s, step) && Tracked(s, call)
    ensures Tracked(After(s, step), call)
  {
  }

  lemma StepKeepsGood(s: State, step: Step)
    requires Good(s) && Enabled(s, step)
    ensures Good(After(s, step))
  {
    hide Tracked, Enabled, After, QueueOk;
    if step.Send? {
      assert Tracked(s, step.call);
    }
    StepKeepsQueue(s, step);
    forall call: nat
      ensures Tracked(After(s, step), call)
    {
      StepKeepsTracked(s, step, call);
    }
  }

  lemma {:induction false} RunsKeepGood(states: seq<State>, steps: seq<Step>)
    requires Runs(states, steps) && Good(states[0])
    ensures forall i :: 0 <= i < |states| ==> Good(states[i])
    decreases |steps|
  {
    hide Good, After, Enabled;
    if steps != [] {
      var n: nat := |steps| - 1;
      assert Runs(states[..n + 1], steps[..n]);
      RunsKeepGood(states[..n + 1], steps[..n]);
      assert states[..n + 1][n] == states[n];
      StepKeepsGood(states[n], steps[n]);
      assert forall i :: 0 <= i < |states| ==> states[i] == if i <= n then states[..n + 1][i] else states[n + 1];
    }
  }

  /** The engine never blocks on a reply, in any run. */
  lemma EngineNeverBlocks(states: seq<State>, steps: seq<Step>)
    requires Runs(states, steps) && states[0] == Initial()
    ensures forall i :: 0 <= i < |states| && Busy(states[i]) ==> Enabled(states[i], Reply)
  {
    hide Runs, After;
    GoodInitially();
    RunsKeepGood(states, steps);
    forall i | 0 <= i < |states| && Busy(states[i])
      ensures Enabled(states[i], Reply)
    {
      BusyCanReply(states[i]);
    }
  }

  lemma BusyCanReply(s: State)
    requires Good(s)
    ensures Busy(s) ==> Enabled(s, Reply)
  {
    assert Busy(s) ==> Tracked(s, s.engine.call);
  }

  /** Nothing is answered twice; a waiting request has its reply there unless it is still queued or in hand. */
  lemma TakenIsAnsweredOnce(s: State, call: nat)
    requires Good(s)
    ensures s.answered[call] <= if Queued(s, call) then 0 else 1
    ensures InPhase(s, call, Waiting) && !Queued(s, call) ==> s.answered[call] == 1
    ensures InPhase(s, call, Waiting) ==> (Enabled(s, Receive(call)) <==> !Queued(s, call))
  {
    assert Tracked(s, call);
  }

  /** Before the engine is done, a caller is held up in sending exactly while 256 events are queued. */
  lemma HeldUpIffFull(s: State, call: nat)
    requires Good(s) && !s.engine.Closed? && InPhase(s, call, Sending)
    ensures |s.events| == 256 <==>
              !Enabled(s, Send(call)) && !Enabled(s, SendStopped(call)) && !Enabled(s, Receive(call))
              && !Enabled(s, WaitStopped(call))
  {
  }

  // ---------------------------------------------------------------- liveness

  /** Still in a call. */
  predicate Pending(s: State, call: nat) {
    InPhase(s, call, Sending) || InPhase(s, call, Waiting)
  }

  /** After done is closed, every pending caller can return. */
  lemma DoneReleases(s: State, call: nat)
    requires s.engine.Closed?
    ensures Pending(s, call) ==>
              exists step: Step :: !step.Call? && Enabled(s, step) && !Pending(After(s, step), call)
  {
    var step := if InPhase(s, call, Sending) then SendStopped(call) else WaitStopped(call);
    assert Pending(s, call) ==> Enabled(s, step) && !Pending(After(s, step), call);
  }

  ghost function InPhaseSet(s: State, phase: Phase): set<nat> {
    set call | call in s.callers && s.callers[call].phase == phase
  }

  function Stage(engine: Engine): nat {
    match engine
    case Running => 4
    case Handling(_) => 5
    case Draining => 2
    case Refusing(_) => 3
    case Drained => 1
    case Closed => 0
  }

  /** What is left to do once shutdown has begun and no new calls arrive. */
  ghost function Left(s: State): nat {
    4 * |InPhaseSet(s, Sending)| + |InPhaseSet(s, Waiting)| + 2 * |s.events| + Stage(s.engine)
  }

  predicate ShuttingDown(s: State) {
    s.engine.Draining? || s.engine.Refusing? || s.engine.Drained? || s.engine.Closed?
  }

  function Change(was: Phase, now: Phase, p: Phase): int {
    (if p == now then 1 else 0) - (if p == was then 1 else 0)
  }

  lemma PhaseSets(s: State, call: nat, phase: Phase, p: Phase)
    requires call in s.callers && s.callers[call].phase != phase
    ensures var before, after := InPhaseSet(s, p), InPhaseSet(s.(callers := Moved(s, call, phase)), p);
            && (p == phase ==> call !in before && after == before + {call})
            && (p == s.callers[call].phase ==> call in before && after == before - {call})
            && (p != phase && p != s.callers[call].phase ==> after == before)
  {
  }

  lemma PhaseMoves(s: State, call: nat, phase: Phase, p: Phase)
    requires call in s.callers && s.callers[call].phase != phase
    ensures var t := s.(callers := Moved(s, call, phase));
            |InPhaseSet(t, p)| == |InPhaseSet(s, p)| + Change(s.callers[call].phase, phase, p)
  {
    hide InPhaseSet, Moved;
    PhaseSets(s, call, phase, p);
  }

  lemma CallerMoves(s: State, call: nat, phase: Phase)
    requires call in s.callers && s.callers[call].phase != phase
    ensures var t := s.(callers := Moved(s, call, phase));
            forall p :: |InPhaseSet(t, p)| == |InPhaseSet(s, p)| + Change(s.callers[call].phase, phase, p)
  {
    hide InPhaseSet, Change;
    forall p: Phase
      ensures |InPhaseSet(s.(callers := Moved(s, call, phase)), p)|
              == |InPhaseSet(s, p)| + Change(s.callers[call].phase, phase, p)
    {
      PhaseMoves(s, call, phase, p);
    }
  }

  lemma SamePhases(s: State, t: State)
    requires s.callers == t.callers
    ensures forall p :: InPhaseSet(s, p) == InPhaseSet(t, p)
  {
  }

  /** Each step of a shutdown, of anybody, brings its end nearer. */
  lemma ShutdownProgresses(s: State, step: Step)
    requires ShuttingDown(s) && Enabled(s, step) && !step.Call?
    ensures ShuttingDown(After(s, step)) && Left(After(s, step)) < Left(s)
  {
    hide InPhaseSet;
    var t := After(s, step);
    match step
    case Send(call) =>
      CallerMoves(s, call, if s.callers[call].waits then Waiting else Accepted);
      SamePhases(t, s.(callers := t.callers));
    case SendStopped(call) => CallerMoves(s, call, Stopped);
    case Receive(call) =>
      CallerMoves(s, call, Answered);
      SamePhases(t, s.(callers := t.callers));
    case WaitStopped(call) => CallerMoves(s, call, Stopped);
    case Take => SamePhases(s, t);
    case Reply => SamePhases(s, t);
    case DrainEmpty => SamePhases(s, t);
    case CloseDone => SamePhases(s, t);
  }

  /** A shutdown that cannot go on is over: the engine is done and nobody is waiting. */
  lemma ShutdownEndsReleased(s: State)
    requires Good(s) && ShuttingDown(s)
    requires forall step :: Enabled(s, step) ==> step.Call?
    ensures s.engine.Closed? && forall call :: !Pending(s, call)
  {
    assert !Enabled(s, Take) && !Enabled(s, Reply) && !Enabled(s, DrainEmpty) && !Enabled(s, CloseDone);
    BusyCanReply(s);
    forall call
      ensures !Pending(s, call)
    {
      DoneReleases(s, call);
    }
  }

  /** Without new calls a shutdown takes a bounded number of steps, whoever makes them. */
  lemma {:induction false} ShutdownIsBounded(states: seq<State>, steps: seq<Step>)
    requires Runs(states, steps) && ShuttingDown(states[0])
    requires forall i :: 0 <= i < |steps| ==> !steps[i].Call?
    ensures |steps| + Left(states[|steps|]) <= Left(states[0]) && ShuttingDown(states[|steps|])
    decreases |steps|
  {
    hide Left, ShuttingDown, After, Enabled;
    if steps != [] {
      var n: nat := |steps| - 1;
      assert Runs(states[..n + 1], steps[..n]);
      ShutdownIsBounded(states[..n + 1], steps[..n]);
      ShutdownProgresses(states[n], steps[n]);
    }
  }

  // ----------------------------------------------------- the gap before done

  /**
    An event can be sent between the last look at the channel and the closing of done:
    nobody answers it, although it was accepted. Its caller is released by done.
   */
  lemma GapLeavesEventUnanswered()
    ensures var steps := [Call(1, true), Cancel, DrainEmpty, Send(1), CloseDone];
            exists states: seq<State> :: Runs(states, steps) && states[0] == Initial()
              && states[5].engine.Closed? && 1 in states[5].events && states[5].answered[1] == 0
              && InPhase(states[5], 1, Waiting) && Enabled(states[5], WaitStopped(1))
  {
    var steps := [Call(1, true), Cancel, DrainEmpty, Send(1), CloseDone];
    var s1 := Initial().(callers := map[1 := Caller(true, Sending)]);
    var s2 := s1.(engine := Draining);
    var s3 := s1.(engine := Drained);
    var s4 := s3.(events := [1], callers := map[1 := Caller(true, Waiting)]);
    var s5 := s4.(engine := Closed);
    hide Runs;
    NoRunYet(Initial());
    RunMore([Initial()], [], Call(1, true), s1);
    RunMore([Initial(), s1], steps[..1], Cancel, s2);
    RunMore([Initial(), s1, s2], steps[..2], DrainEmpty, s3);
    RunMore([Initial(), s1, s2, s3], steps[..3], Send(1), s4);
    RunMore([Initial(), s1, s2, s3, s4], steps[..4], CloseDone, s5);
    var states := [Initial(), s1, s2, s3, s4, s5];
    assert Runs(states, steps) && states[5] == s5;
  }

  lemma NoRunYet(s: State)
    ensures Runs([s], [])
  {
  }

  lemma RunMore(states: seq<State>, steps: seq<Step>, step: Step, t: State)
    requires Runs(states, steps) && Enabled(states[|steps|], step) && t == After(states[|steps|], step)
    ensures Runs(states + [t], steps + [step])
  {
    hide Enabled, After;
  }

  /** The gap is there for every caller still sending when the engine has taken its last look. */
  lemma AnyoneCanFallInTheGap(s: State, call: nat)
    requires Good(s) && s.engine.Drained? && InPhase(s, call, Sending) && s.callers[call].waits
               && |s.events| < EVENTS_CAPACITY
    ensures Enabled(s, Send(call)) && Enabled(After(s, Send(call)), CloseDone)
    ensures var t := After(After(s, Send(call)), CloseDone);
            call in t.events && t.answered[call] == 0 && Enabled(t, WaitStopped(call)) && !Enabled(t, Receive(call))
  {
    assert Tracked(s, call);
  }

  // ------------------------------------------------------------- over whole runs

  /** A request that has been sent: queued or in hand, or answered. */
  ghost predicate Posted(s: State, call: nat) {
    call in s.callers && s.callers[call].waits && s.callers[call].phase != Sending
    && (Queued(s, call) || s.answered[call] == 1)
  }

  predicate Over(s: State) {
    s.engine.Drained? || s.engine.Closed?
  }

  lemma StepKeepsPosted(s: State, step: Step, call: nat)
    requires Good(s) && Enabled(s, step)
    ensures Posted(s, call) ==> Posted(After(s, step), call)
    ensures InPhase(s, call, Sending) && s.callers[call].waits && step == Send(call) ==> Posted(After(s, step), call)
    ensures s.answered[call] == 1 ==> After(s, step).answered[call] == 1
  {
    assert Tracked(s, call);
    StepKeepsGood(s, step);
    assert Tracked(After(s, step), call);
  }

  /** After the last look nothing leaves the channel any more, and only that look leads there. */
  lemma StepWhenOver(s: State, step: Step, call: nat)
    requires Enabled(s, step)
    ensures Over(s) && call in s.events ==> call in After(s, step).events
    ensures Over(s) ==> Over(After(s, step))
    ensures Over(After(s, step)) && step != DrainEmpty ==> Over(s)
    ensures step == Send(call) ==> call in After(s, step).events
  {
  }

  /** A request posted at some point of a run is posted from then on, and an answer is never lost. */
  lemma {:induction false} StaysPosted(states: seq<State>, steps: seq<Step>, call: nat, i: nat, k: nat)
    requires Runs(states, steps) && i <= k < |states|
    requires forall j :: 0 <= j < |states| ==> Good(states[j])
    ensures Posted(states[i], call) ==> Posted(states[k], call)
    ensures states[i].answered[call] == 1 ==> states[k].answered[call] == 1
    decreases k - i
  {
    hide Posted, Good, Enabled, After;
    if i < k {
      StepKeepsPosted(states[i], steps[i], call);
      StaysPosted(states, steps, call, i + 1, k);
    }
  }

  /** Without another look, the channel has been closed off since i, and what is in it stays. */
  lemma {:induction false} StaysLate(states: seq<State>, steps: seq<Step>, call: nat, i: nat, k: nat)
    requires Runs(states, steps) && i <= k < |states|
    requires forall j :: i <= j < k ==> steps[j] != DrainEmpty
    requires Over(states[k])
    ensures Over(states[i]) && (call in states[i].events ==> call in states[k].events)
    decreases k - i
  {
    hide Enabled, After, Over;
    if i < k {
      StaysLate(states, steps, call, i + 1, k);
      StepWhenOver(states[i], steps[i], call);
    }
  }

  /**
    What the two selects can promise, over every run that has taken the last look: a
    request that wants a reply is answered if and only if it was sent before that look.
    While its caller waits, the reply is there to be received, or the event still in the
    channel.
   */
  lemma AnsweredIffSentInTime(states: seq<State>, steps: seq<Step>, call: nat, i: nat)
    requires Runs(states, steps) && states[0] == Initial() && Over(states[|steps|])
    requires i < |steps| && steps[i] == Send(call) && states[i].callers[call].waits
    ensures states[|steps|].answered[call] == 1 <==> exists j :: i < j < |steps| && steps[j] == DrainEmpty
    ensures states[|steps|].answered[call] <= 1
    ensures var s := states[|steps|];
            InPhase(s, call, Waiting) ==>
              (s.answered[call] == 1 <==> Enabled(s, Receive(call))) && (s.answered[call] == 0 <==> call in s.events)
  {
    hide Good, After;
    var n: nat := |steps|;
    GoodInitially();
    RunsKeepGood(states, steps);
    TakenIsAnsweredOnce(states[n], call);
    StepKeepsPosted(states[i], steps[i], call);
    StepWhenOver(states[i], steps[i], call);
    if j: nat :| i < j < n && steps[j] == DrainEmpty {
      StaysPosted(states, steps, call, i + 1, j);
      assert Posted(states[j], call);
      StaysPosted(states, steps, call, j, n);
    } else {
      StaysLate(states, steps, call, i + 1, n);
    }
  }

  // ------------------------------------------------------------------- order

  /** a is queued ahead of b. */
  ghost predicate Ahead(events: seq<nat>, a: nat, b: nat) {
    exists p, q :: 0 <= p < q < |events| && events[p] == a && events[q] == b
  }

  /** The engine takes this event now. */
  predicate Takes(s: State, step: Step, call: nat) {
    step.Take? && s.events != [] && s.events[0] == call
  }

  /** Events join at the back and leave from the front. */
  lemma QueueMoves(s: State, step: Step)
    requires Enabled(s, step)
    ensures After(s, step).events == if step.Send? then s.events + [step.call] else if step.Take? then s.events[1..]
                                     else s.events
    ensures step.Take? ==> s.events != []
  {
  }

  lemma JoinBehind(events: seq<nat>, c: nat, a: nat, b: nat)
    ensures Ahead(events, a, b) ==> Ahead(events + [c], a, b)
    ensures a in events && b == c ==> Ahead(events + [c], a, b)
  {
    var more := events + [c];
    if Ahead(events, a, b) {
      var p, q :| 0 <= p < q < |events| && events[p] == a && events[q] == b;
      assert more[p] == a && more[q] == b;
    }
    if a in events && b == c {
      var p :| 0 <= p < |events| && events[p] == a;
      assert more[p] == a && more[|events|] == b;
    }
  }

  lemma OthersStay(events: seq<nat>, a: nat, b: nat)
    requires events != [] && events[0] != a
    ensures a in events ==> a in events[1..]
    ensures Ahead(events, a, b) ==> Ahead(events[1..], a, b)
  {
    var rest := events[1..];
    if a in events {
      var p :| 0 <= p < |events| && events[p] == a;
      assert rest[p - 1] == a;
    }
    if Ahead(events, a, b) {
      var p, q :| 0 <= p < q < |events| && events[p] == a && events[q] == b;
      assert rest[p - 1] == a && rest[q - 1] == b;
    }
  }

  lemma StepKeepsAhead(s: State, step: Step, a: nat, b: nat)
    requires Enabled(s, step) && !Takes(s, step, a)
    ensures a in s.events ==> a in After(s, step).events
    ensures Ahead(s.events, a, b) ==> Ahead(After(s, step).events, a, b)
    ensures step == Send(b) && a in s.events ==> Ahead(After(s, step).events, a, b)
  {
    QueueMoves(s, step);
    hide Enabled, After, Ahead;
    if step.Send? {
      JoinBehind(s.events, step.call, a, b);
    } else if step.Take? {
      OthersStay(s.events, a, b);
    }
  }

  /** While a has not been taken it stays in the channel, and ahead of whatever it was ahead of. */
  lemma {:induction false} StaysAhead(states: seq<State>, steps: seq<Step>, a: nat, b: nat, i: nat, k: nat)
    requires Runs(states, steps) && i <= k < |states|
    requires forall m :: i <= m < k ==> !Takes(states[m], steps[m], a)
    ensures a in states[i].events ==> a in states[k].events
    ensures Ahead(states[i].events, a, b) ==> Ahead(states[k].events, a, b)
    decreases k - i
  {
    hide Enabled, After, Ahead, Takes;
    if i < k {
      StepKeepsAhead(states[i], steps[i], a, b);
      StaysAhead(states, steps, a, b, i + 1, k);
    }
  }

  /** Over every run, events are taken in the order in which they were sent, whoever sent them. */
  lemma FirstSentFirstTaken(states: seq<State>, steps: seq<Step>, a: nat, b: nat, i: nat, j: nat, k: nat)
    requires Runs(states, steps) && states[0] == Initial() && i < j < k < |steps|
    requires steps[i] == Send(a) && steps[j] == Send(b) && Takes(states[k], steps[k], b)
    ensures exists m :: i < m < k && Takes(states[m], steps[m], a)
  {
    GoodInitially();
    RunsKeepGood(states, steps);
    hide Enabled, Takes, Ahead, QueueOk, Tracked;
    if forall m :: i < m < k ==> !Takes(states[m], steps[m], a) {
      assert a in states[i + 1].events;
      StaysAhead(states, steps, a, b, i + 1, j);
      assert Good(states[k]);
      StepKeepsAhead(states[j], steps[j], a, b);
      StaysAhead(states, steps, a, b, j + 1, k);
      HeadIsNotBehind(states[k], steps[k], a, b);
    }
  }

  lemma HeadIsNotBehind(s: State, step: Step, a: nat, b: nat)
    requires QueueOk(s) && Ahead(s.events, a, b)
    ensures !Takes(s, step, b)
  {
  }
}
