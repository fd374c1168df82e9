/**
  The C client's table of pending calls: 64 slots, chosen by message id, shared by
  the calling threads and the reader thread. Each critical section is one step.
 */
module PendingCalls {
  import opened Format

  const MAX_PENDING: nat := 64

  /** data is empty while the slot holds no bytes. */
  datatype Slot = Slot(active: bool, done: bool, hasError: bool, data: seq<byte>)

  /** What the server answers: the bytes of a result, or an error. */
  datatype Reply = Result(bytes: seq<byte>) | RpcError

  datatype Outcome = Success(bytes: seq<byte>) | Refused | Busy | NotSent | TimedOut | Cut

  /** A call that was refused or cut off knows its outcome before it lets go of its slot. */
  datatype Phase = Claimed | Waiting | Leaving(outcome: Outcome) | Returned(outcome: Outcome)

  /** 64 divides the range of message ids, so the slot of a call does not change when ids wrap around. */
  function SlotOf(call: nat): (slot: nat)
    ensures slot < MAX_PENDING
  {
    call % MAX_PENDING
  }

  // ------------------------------------------------------- critical sections

  const FREE := Slot(false, false, false, [])

  function Claiming(slots: seq<Slot>, call: nat): seq<Slot>
    requires |slots| == MAX_PENDING
  {
    slots[SlotOf(call) := Slot(true, false, false, [])]
  }

  function Releasing(slots: seq<Slot>, call: nat): seq<Slot>
    requires |slots| == MAX_PENDING
  {
    slots[SlotOf(call) := slots[SlotOf(call)].(active := false)]
  }

  /** A success hands the slot's data out and keeps no pointer to it. */
  function HandingOut(slots: seq<Slot>, call: nat): seq<Slot>
    requires |slots| == MAX_PENDING
  {
    slots[SlotOf(call) := slots[SlotOf(call)].(active := false, data := [])]
  }

  /** An answer to a call is put in whatever call holds the slot; without one it is dropped. */
  function Answering(slots: seq<Slot>, call: nat, reply: Reply): seq<Slot>
    requires |slots| == MAX_PENDING
  {
    var slot := slots[SlotOf(call)];
    if !slot.active then slots
    else slots[SlotOf(call) := Slot(true, true, reply.RpcError?, if reply.Result?
      && reply.bytes != [] then reply.bytes else slot.data)]
  }

  /** How a call returns from a slot that is done. */
  function OutcomeIn(slot: Slot): Outcome {
    if slot.hasError then Refused else Success(slot.data)
  }

  /** How a waiting call returns, from a slot that may not be done. */
  function Collected(slots: seq<Slot>, call: nat): Outcome
    requires |slots| == MAX_PENDING
  {
    if slots[SlotOf(call)].done then OutcomeIn(slots[SlotOf(call)]) else Cut
  }

  function Woken(slot: Slot): Slot {
    if slot.active then slot.(done := true) else slot
  }

  function AllWoken(slots: seq<Slot>): (r: seq<Slot>)
    ensures |r| == |slots|
  {
    seq(|slots|, i requires 0 <= i < |slots| => Woken(slots[i]))
  }

  class Table {
    const slots: array<Slot>

    constructor ()
      ensures fresh(slots) && slots.Length == MAX_PENDING && slots[..] == seq(MAX_PENDING, _ => FREE)
    {
      slots := new Slot[MAX_PENDING](_ => FREE);
    }

    /** The first critical section of do_call. */
    method Claim(call: nat) returns (ok: bool)
      requires slots.Length == MAX_PENDING
      modifies slots
      ensures ok == !old(slots[SlotOf(call)].active)
      ensures slots[..] == if ok then Claiming(old(slots[..]), call) else old(slots[..])
    {
      var slot := SlotOf(call);
      if slots[slot].active {
        return false;
      }
      slots[slot] := Slot(true, false, false, []);
      ok := true;
    }

    /** A call that could not be sent, gave up waiting, or leaves with an error. */
    method Release(call: nat)
      requires slots.Length == MAX_PENDING
      modifies slots
      ensures slots[..] == Releasing(old(slots[..]), call)
    {
      var slot := SlotOf(call);
      slots[slot] := slots[slot].(active := false);
    }

    /** The last critical section of do_call, once done or closed: only a success lets go of the slot inside it. */
    method Collect(call: nat, closed: bool) returns (outcome: Outcome)
      requires slots.Length == MAX_PENDING && (slots[SlotOf(call)].done || closed)
      modifies slots
      ensures outcome == Collected(old(slots[..]), call)
      ensures slots[..] == if outcome.Success? then HandingOut(old(slots[..]), call) else old(slots[..])
    {
      var slot := SlotOf(call);
      if closed && !slots[slot].done {
        return Cut;
      }
      if slots[slot].hasError {
        return Refused;
      }
      outcome := Success(slots[slot].data);
      slots[slot] := slots[slot].(active := false, data := []);
    }

    /** The response half of process_message. */
    method Answer(call: nat, reply: Reply)
      requires slots.Length == MAX_PENDING
      modifies slots
      ensures slots[..] == Answering(old(slots[..]), call, reply)
    {
      var i := SlotOf(call);
      if slots[i].active {
        var slot := slots[i].(hasError := reply.RpcError?);
        if reply.Result? && |reply.bytes| > 0 {
          slot := slot.(data := reply.bytes);
        }
        slots[i] := slot.(done := true);
      }
    }

    /** The end of reader_thread. */
    method WakeAll()
      requires slots.Length == MAX_PENDING
      modifies slots
      ensures slots[..] == AllWoken(old(slots[..]))
    {
      var i := 0;
      while i < slots.Length
        invariant i <= slots.Length
        invariant forall k :: 0 <= k < i ==> slots[k] == Woken(old(slots[k]))
        invariant forall k :: i <= k < slots.Length ==> slots[k] == old(slots[k])
      {
        if slots[i].active {
          slots[i] := slots[i].(done := true);
        }
        i := i + 1;
      }
    }
  }

  // ---------------------------------------------------------------- the protocol

  /** Calls are numbered in the order their ids were drawn; they may claim their slots in any order. */
  datatype State = State(
    slots: seq<Slot>,
    calls: map<nat, Phase>,
    sent: set<nat>,
    answers: map<nat, Reply>,
    closed: bool,
    ended: bool)

  datatype Event =
    | Start(call: nat)
    | Send(call: nat)
    | FailToSend(call: nat)
    | Respond(call: nat, reply: Reply)
    | Finish(call: nat)
    | Leave(call: nat)
    | TimeOut(call: nat)
    | Close
    | EndReader

  function Initial(): State {
    State(seq(MAX_PENDING, _ => FREE), map[], {}, map[], false, false)
  }

  predicate InPhase(s: State, call: nat, phase: Phase) {
    call in s.calls && s.calls[call] == phase
  }

  /** The server answers each request it was sent at most once. */
  predicate Enabled(s: State, e: Event) {
    && |s.slots| == MAX_PENDING
    && match e
       case Start(call) => call !in s.calls
       case Send(call) => InPhase(s, call, Claimed)
       case FailToSend(call) => InPhase(s, call, Claimed)
       case Respond(call, _) => call in s.sent && call !in s.answers && !s.ended
       case Finish(call) => InPhase(s, call, Waiting) && (s.slots[SlotOf(call)].done || s.closed)
       case Leave(call) => call in s.calls && s.calls[call].Leaving?
       case TimeOut(call) => InPhase(s, call, Waiting) && !s.slots[SlotOf(call)].done
       case Close => true
       case EndReader => !s.ended
  }

  function Step(s: State, e: Event): (t: State)
    requires Enabled(s, e)
    ensures |t.slots| == MAX_PENDING
  {
    match e
    case Start(call) =>
      if s.slots[SlotOf(call)].active then s.(calls := s.calls[call := Returned(Busy)])
      else s.(slots := Claiming(s.slots, call), calls := s.calls[call := Claimed])
    case Send(call) => s.(calls := s.calls[call := Waiting], sent := s.sent + {call})
    case FailToSend(call) => s.(slots := Releasing(s.slots, call), calls := s.calls[call := Returned(NotSent)])
    case Respond(call, reply) => s.(slots := Answering(s.slots, call, reply), answers := s.answers[call := reply])
    case Finish(call) =>
      var outcome := Collected(s.slots, call);
      if outcome.Success? then
        s.(slots := HandingOut(s.slots, call), calls := s.calls[call := Returned(outcome)])
      else s.(calls := s.calls[call := Leaving(outcome)])
    case Leave(call) =>
      s.(slots := Releasing(s.slots, call), calls := s.calls[call := Returned(s.calls[call].outcome)])
    case TimeOut(call) => s.(slots := Releasing(s.slots, call), calls := s.calls[call := Returned(TimedOut)])
    case Close => s.(closed := true)
    case EndReader => s.(slots := AllWoken(s.slots), ended := true)
  }

  ghost predicate Runs(s: State, events: seq<Event>)
    decreases |events|
  {
    events == [] || (Enabled(s, events[0]) && Runs(Step(s, events[0]), events[1..]))
  }

  ghost function After(s: State, events: seq<Event>): State
    requires Runs(s, events)
    decreases |events|
  {
    if events == [] then s else After(Step(s, events[0]), events[1..])
  }

  // ------------------------------------------------------------------- ownership

  /** Waiting for an answer, or about to. */
  predicate Open(s: State, call: nat) {
    InPhase(s, call, Claimed) || InPhase(s, call, Waiting)
  }

  /** Not yet out of its slot. */
  predicate Live(s: State, call: nat) {
    Open(s, call) || (call in s.calls && s.calls[call].Leaving?)
  }

  /** A slot is active exactly while one call owns it, and only what was sent can be answered. */
  ghost predicate Owned(s: State) {
    && |s.slots| == MAX_PENDING
    && (forall c :: c in s.calls && Live(s, c) ==> s.slots[SlotOf(c)].active)
    && (forall c, d ::
          c in s.calls && d in s.calls && Live(s, c) && Live(s, d) && SlotOf(c) == SlotOf(d) ==> c == d)
    && (forall i :: 0 <= i < MAX_PENDING && s.slots[i].active ==>
          exists c :: c in s.calls && Live(s, c) && SlotOf(c) == i)
    && (forall c :: c in s.sent ==> c in s.calls && s.calls[c] != Claimed)
    && (forall c :: c in s.calls && s.calls[c] == Waiting ==> c in s.sent)
    && s.answers.Keys <= s.sent
  }

  lemma OwnedInitially()
    ensures Owned(Initial())
  {
  }

  /** What a step does to who is live. */
  lemma WhoMoves(s: State, e: Event)
    requires |s.slots| == MAX_PENDING && Enabled(s, e)
    ensures var t := Step(s, e);
            forall c :: (c in t.calls && Live(t, c)) <==>
              ((c in s.calls && Live(s, c) && !Leaves(s, e, c)) || Enters(s, e, c))
    ensures LetsGo(s, e) ==> e.call in s.calls && Live(s, e.call)
  {
    hide Answering, OutcomeIn, SlotOf, Collected, Claiming, Releasing, HandingOut, AllWoken;
  }

  /** What a step does to the slots. */
  lemma SlotsMove(s: State, e: Event)
    requires |s.slots| == MAX_PENDING && Enabled(s, e)
    ensures var t := Step(s, e);
            forall i :: 0 <= i < MAX_PENDING ==> t.slots[i].active == ActiveAfter(s, s.slots[i].active, e, i)
  {
    hide Answering, OutcomeIn, SlotOf, Collected;
    if e.Respond? {
      AnsweringKeepsActive(s.slots, e.call, e.reply);
    }
  }

  /** The steps that take a call out of its slot. */
  predicate LetsGo(s: State, e: Event)
    requires |s.slots| == MAX_PENDING
  {
    e.FailToSend? || e.TimeOut? || e.Leave? || (e.Finish? && Collected(s.slots, e.call).Success?)
  }

  predicate ActiveAfter(s: State, active: bool, e: Event, i: nat)
    requires |s.slots| == MAX_PENDING
  {
    if e.Start? then active || SlotOf(e.call) == i
    else if LetsGo(s, e) then active && SlotOf(e.call) != i
    else active
  }

  predicate Leaves(s: State, e: Event, call: nat)
    requires |s.slots| == MAX_PENDING
  {
    LetsGo(s, e) && e.call == call
  }

  predicate Enters(s: State, e: Event, call: nat)
    requires |s.slots| == MAX_PENDING
  {
    e.Start? && e.call == call && !s.slots[SlotOf(call)].active
  }

  lemma StepKeepsOwned(s: State, e: Event)
    requires Owned(s) && Enabled(s, e)
    ensures Owned(Step(s, e))
  {
    hide Answering, OutcomeIn, SlotOf, Live, Step, Collected;
    var t := Step(s, e);
    WhoMoves(s, e);
    SlotsMove(s, e);
    StepKeepsSent(s, e);
    forall i | 0 <= i < MAX_PENDING && t.slots[i].active
      ensures exists c :: c in t.calls && Live(t, c) && SlotOf(c) == i
    {
      if e.Start? && i == SlotOf(e.call) && !s.slots[i].active {
        assert Live(t, e.call);
      } else {
        var c :| c in s.calls && Live(s, c) && SlotOf(c) == i;
        assert Live(t, c);
      }
    }
  }

  lemma StepKeepsSent(s: State, e: Event)
    requires Owned(s) && Enabled(s, e)
    ensures var t := Step(s, e);
            && (forall c :: c in t.sent ==> c in t.calls && t.calls[c] != Claimed)
            && (forall c :: c in t.calls && t.calls[c] == Waiting ==> c in t.sent)
            && t.answers.Keys <= t.sent
  {
    hide Answering, OutcomeIn, SlotOf, Claiming, Releasing, HandingOut, AllWoken;
  }

  lemma AnsweringKeepsActive(slots: seq<Slot>, call: nat, reply: Reply)
    requires |slots| == MAX_PENDING
    ensures |Answering(slots, call, reply)| == MAX_PENDING
    ensures forall i :: 0 <= i < MAX_PENDING ==> Answering(slots, call, reply)[i].active == slots[i].active
  {
  }

  // ------------------------------------------------------------ who fits in

  lemma {:induction false} RunsKeepOwned(s: State, events: seq<Event>)
    requires Owned(s) && Runs(s, events)
    ensures Owned(After(s, events))
    decreases |events|
  {
    hide Owned, Step;
    if events != [] {
      StepKeepsOwned(s, events[0]);
      RunsKeepOwned(Step(s, events[0]), events[1..]);
    }
  }

  /** Over every run, a new call is refused exactly when a live call's id is the same modulo 64. */
  lemma RefusedIffSlotTaken(events: seq<Event>, call: nat)
    requires Runs(Initial(), events) && call !in After(Initial(), events).calls
    ensures var s := After(Initial(), events);
            && Enabled(s, Start(call))
            && (InPhase(Step(s, Start(call)), call, Returned(Busy)) <==>
                  exists c :: c in s.calls && Live(s, c) && c % 64 == call % 64)
  {
    hide Runs, After;
    OwnedInitially();
    RunsKeepOwned(Initial(), events);
    var s := After(Initial(), events);
    if s.slots[SlotOf(call)].active {
      var c :| c in s.calls && Live(s, c) && SlotOf(c) == SlotOf(call);
    }
  }

  /** Calls with consecutive ids start one after the other. */
  function Starts(first: nat, n: nat): seq<Event>
    decreases n
  {
    if n == 0 then [] else [Start(first)] + Starts(first + 1, n - 1)
  }

  ghost predicate SlotsFreeFor(s: State, first: nat, n: nat) {
    |s.slots| == MAX_PENDING
    && forall c :: first <= c < first + n ==> c !in s.calls && !s.slots[SlotOf(c)].active
  }

  lemma {:induction false} StartsClaim(s: State, first: nat, n: nat)
    requires n <= 64 && SlotsFreeFor(s, first, n)
    ensures Runs(s, Starts(first, n))
    ensures var t := After(s, Starts(first, n));
            && (forall c :: c in s.calls && c < first ==> c in t.calls && t.calls[c] == s.calls[c])
            && forall c :: first <= c < first + n ==> InPhase(t, c, Claimed)
    decreases n
  {
    hide Step, Enabled, SlotsFreeFor;
    if n > 0 {
      FirstClaims(s, first, n);
      var next, events := Step(s, Start(first)), Starts(first, n);
      StartsClaim(next, first + 1, n - 1);
      assert events[0] == Start(first) && events[1..] == Starts(first + 1, n - 1);
      var t := After(next, Starts(first + 1, n - 1));
      assert After(s, events) == t;
      assert first in next.calls && next.calls[first] == Claimed;
      assert t.calls[first] == Claimed;
      forall c | c in s.calls && c < first
        ensures c in t.calls && t.calls[c] == s.calls[c]
      {
        assert c in next.calls && next.calls[c] == s.calls[c];
      }
    }
  }

  lemma FirstClaims(s: State, first: nat, n: nat)
    requires 0 < n <= 64 && SlotsFreeFor(s, first, n)
    ensures Enabled(s, Start(first)) && first !in s.calls
    ensures var t := Step(s, Start(first));
            SlotsFreeFor(t, first + 1, n - 1) && t.calls == s.calls[first := Claimed]
  {
    var t := Step(s, Start(first));
    forall c | first + 1 <= c < first + 1 + (n - 1)
      ensures c !in t.calls && !t.slots[SlotOf(c)].active
    {
      Apart(first, c);
    }
  }

  lemma Apart(a: nat, b: nat)
    requires a < b < a + 64
    ensures SlotOf(a) != SlotOf(b)
  {
  }

  /** From the start, any 64 calls with consecutive ids can hold their slots at once. */
  lemma SixtyFourAtOnce(first: nat)
    ensures Runs(Initial(), Starts(first, 64))
    ensures forall c :: first <= c < first + 64 ==> InPhase(After(Initial(), Starts(first, 64)), c, Claimed)
  {
    StartsClaim(Initial(), first, 64);
  }

  // -------------------------------------------------------------- own results

  /** A request still unanswered whose call has already returned. */
  predicate Stray(s: State, call: nat) {
    call in s.sent && call !in s.answers && call in s.calls && s.calls[call].Returned?
  }

  /** No unanswered request of a returned call maps to the slot of this call. */
  ghost predicate NoStrayFor(s: State, call: nat) {
    forall d :: Stray(s, d) ==> SlotOf(d) != SlotOf(call)
  }

  /** Nobody waits for an answer that has not come. */
  ghost predicate AllAnswered(s: State) {
    forall c :: c in s.calls && Open(s, c) ==> c in s.answers
  }

  /**
    A call starts in a slot that no stray answer can still reach, and the stream ends
    only when nobody waits for an answer.
   */
  ghost predicate CarefulStep(s: State, e: Event) {
    && (e.Start? ==> s.ended || NoStrayFor(s, e.call))
    && (e.EndReader? ==> AllAnswered(s))
  }

  ghost predicate Careful(s: State, events: seq<Event>)
    requires Runs(s, events)
    decreases |events|
  {
    events == [] || (CarefulStep(s, events[0]) && Careful(Step(s, events[0]), events[1..]))
  }

  /** The slot of an open call holds its own answer and no other. */
  ghost predicate HoldsOwn(s: State, call: nat)
    requires |s.slots| == MAX_PENDING
  {
    var slot := s.slots[SlotOf(call)];
    slot == if call in s.answers then AnsweredSlot(s.answers[call]) else Slot(true, false, false, [])
  }

  function AnsweredSlot(reply: Reply): Slot {
    match reply
    case Result(bytes) => Slot(true, true, false, bytes)
    case RpcError => Slot(true, true, true, [])
  }

  function OutcomeOf(reply: Reply): Outcome {
    match reply
    case Result(bytes) => Success(bytes)
    case RpcError => Refused
  }

  /** A call that ends with an outcome from the server ends with its own. */
  predicate GotOwn(s: State, call: nat) {
    call in s.calls && (s.calls[call].Leaving? || s.calls[call].Returned?)
    && (s.calls[call].outcome.Success? || s.calls[call].outcome.Refused?) ==>
      call in s.answers && s.calls[call].outcome == OutcomeOf(s.answers[call])
  }

  ghost predicate AllGotOwn(s: State) {
    forall c :: c in s.calls ==> GotOwn(s, c)
  }

  /** The table acts as a map from message ids to answers. */
  ghost predicate ActsAsMap(s: State) {
    && Owned(s)
    && (forall c :: c in s.calls && Open(s, c) ==> HoldsOwn(s, c) && (s.ended || NoStrayFor(s, c)))
    && AllGotOwn(s)
  }

  lemma StepActsAsMap(s: State, e: Event)
    requires ActsAsMap(s) && Enabled(s, e) && CarefulStep(s, e)
    ensures ActsAsMap(Step(s, e))
  {
    hide Owned, HoldsOwn, Step;
    var t := Step(s, e);
    StepKeepsOwned(s, e);
    forall c | c in t.calls && Open(t, c)
      ensures HoldsOwn(t, c) && (t.ended || NoStrayFor(t, c))
    {
      StepKeepsOwn(s, e, c);
    }
    EndsWithOwn(s, e);
  }

  /** A call that ends takes its outcome from a slot that holds its own. */
  lemma EndsWithOwn(s: State, e: Event)
    requires ActsAsMap(s) && Enabled(s, e)
    ensures AllGotOwn(Step(s, e))
  {
    hide Answering, SlotOf, Claiming, Releasing, HandingOut, AllWoken;
    var t := Step(s, e);
    forall c | c in t.calls
      ensures GotOwn(t, c)
    {
      assert c in s.calls ==> GotOwn(s, c);
      if e.Finish? && c == e.call {
        assert Open(s, c) && HoldsOwn(s, c);
      }
    }
  }

  lemma StepKeepsOwn(s: State, e: Event, c: nat)
    requires ActsAsMap(s) && Enabled(s, e) && CarefulStep(s, e)
    requires c in Step(s, e).calls && Open(Step(s, e), c)
    ensures HoldsOwn(Step(s, e), c) && (Step(s, e).ended || NoStrayFor(Step(s, e), c))
  {
    var t := Step(s, e);
    WhoMoves(s, e);
    OpenedBefore(s, e, c);
    StrayMoves(s, e);
    OwnSlotMoves(s, e, c);
    hide Step, HoldsOwn;
    if !s.ended && !t.ended {
      forall d | Stray(t, d)
        ensures SlotOf(d) != SlotOf(c)
      {
        if !Stray(s, d) {
          assert Live(s, d) && d != c;
        }
      }
    }
  }

  /** An open call was open, or has just claimed its slot. */
  lemma OpenedBefore(s: State, e: Event, c: nat)
    requires Owned(s) && Enabled(s, e) && c in Step(s, e).calls && Open(Step(s, e), c)
    ensures Enters(s, e, c) || (c in s.calls && Open(s, c) && !Leaves(s, e, c))
    ensures e.EndReader? || Step(s, e).ended == s.ended
  {
    hide Answering, OutcomeIn, SlotOf, Claiming, Releasing, HandingOut, AllWoken;
  }

  /** A stray was one before, or its call has just returned. */
  lemma StrayMoves(s: State, e: Event)
    requires Owned(s) && Enabled(s, e)
    ensures forall d :: Stray(Step(s, e), d) ==>
              Stray(s, d) || (d in s.calls && Live(s, d) && Leaves(s, e, d) && !e.FailToSend?)
  {
    hide Answering, OutcomeIn, SlotOf, Claiming, Releasing, HandingOut, AllWoken;
  }

  lemma OwnSlotMoves(s: State, e: Event, c: nat)
    requires ActsAsMap(s) && Enabled(s, e) && CarefulStep(s, e)
    requires (c in s.calls && Open(s, c) && !Leaves(s, e, c)) || Enters(s, e, c)
    ensures HoldsOwn(Step(s, e), c)
  {
    if Enters(s, e, c) {
      assert c !in s.answers;
    } else {
      assert HoldsOwn(s, c) && (s.ended || NoStrayFor(s, c));
      if (e.Start? && Enters(s, e, e.call)) || LetsGo(s, e) {
        WhoMoves(s, e);
        assert SlotOf(e.call) != SlotOf(c);
      }
      if e.Respond? && SlotOf(e.call) == SlotOf(c) {
        // The answer is not a stray, so it belongs to a live call, and this slot has one owner.
        assert !Stray(s, e.call);
        assert e.call == c;
      }
    }
  }

  /** A careful run gives every call its own answer. */
  lemma {:induction false} CarefulRunsActAsMap(s: State, events: seq<Event>)
    requires ActsAsMap(s) && Runs(s, events) && Careful(s, events)
    ensures ActsAsMap(After(s, events))
    decreases |events|
  {
    hide ActsAsMap, Step, CarefulStep;
    if events != [] {
      StepActsAsMap(s, events[0]);
      CarefulRunsActAsMap(Step(s, events[0]), events[1..]);
    }
  }

  /** Over every careful run of a client, each call that ends with an answer ends with its own. */
  lemma CarefulRunsGetOwn(events: seq<Event>)
    requires Runs(Initial(), events) && Careful(Initial(), events)
    ensures AllGotOwn(After(Initial(), events))
  {
    ActsAsMapInitially();
    CarefulRunsActAsMap(Initial(), events);
  }

  ghost predicate NoStrays(s: State) {
    forall d :: !Stray(s, d)
  }

  /** Only a call that gives up leaves an unanswered request behind. */
  lemma StepKeepsNoStrays(s: State, e: Event)
    requires ActsAsMap(s) && NoStrays(s) && NoneCut(s) && Enabled(s, e)
    requires !e.TimeOut? && !e.Close? && !e.EndReader? && !s.closed
    ensures NoStrays(Step(s, e)) && NoneCut(Step(s, e)) && !Step(s, e).closed
  {
    hide Answering, SlotOf, Claiming, Releasing, HandingOut, AllWoken;
    StrayMoves(s, e);
    if e.Finish? {
      assert Open(s, e.call) && HoldsOwn(s, e.call);
    }
  }

  /** Nobody leaves without an answer. */
  ghost predicate NoneCut(s: State) {
    forall c :: c in s.calls && s.calls[c].Leaving? ==> c in s.answers
  }

  /** Without a timeout, a close or a lost connection, every call gets its own answer. */
  lemma CallsGetOwnAnswers(events: seq<Event>)
    requires Runs(Initial(), events)
    requires forall e :: e in events ==> !e.TimeOut? && !e.Close? && !e.EndReader?
    ensures AllGotOwn(After(Initial(), events))
  {
    ActsAsMapInitially();
    QuietRunsActAsMap(Initial(), events);
  }

  lemma {:induction false} QuietRunsActAsMap(s: State, events: seq<Event>)
    requires ActsAsMap(s) && NoStrays(s) && NoneCut(s) && !s.closed && Runs(s, events)
    requires forall e :: e in events ==> !e.TimeOut? && !e.Close? && !e.EndReader?
    ensures ActsAsMap(After(s, events))
    decreases |events|
  {
    hide ActsAsMap, Step, NoStrays, NoneCut, CarefulStep;
    if events != [] {
      assert events[0] in events;
      NoStrayAnywhere(s, events[0]);
      StepActsAsMap(s, events[0]);
      StepKeepsNoStrays(s, events[0]);
      QuietRunsActAsMap(Step(s, events[0]), events[1..]);
    }
  }

  lemma NoStrayAnywhere(s: State, e: Event)
    requires NoStrays(s) && !e.EndReader?
    ensures CarefulStep(s, e)
  {
  }

  lemma ActsAsMapInitially()
    ensures ActsAsMap(Initial()) && NoStrays(Initial()) && NoneCut(Initial())
  {
    OwnedInitially();
  }

  // ------------------------------------------------------------ when it fails

  /**
    The condition on starting a call is exact: while a stray answer can still reach
    a free slot, a call that starts there can be given that answer as its own.
   */
  lemma StrayAnswersMislead(s: State, stray: nat, call: nat, bytes: seq<byte>)
    requires Owned(s) && !s.ended && Stray(s, stray)
    requires call !in s.calls && SlotOf(call) == SlotOf(stray) && !s.slots[SlotOf(call)].active
    requires bytes != []
    ensures var events := [Start(call), Send(call), Respond(stray, Result(bytes)), Finish(call)];
            && Runs(s, events)
            && InPhase(After(s, events), call, Returned(Success(bytes)))
            && call !in After(s, events).answers
  {
    StrayTaken(s, stray, call, bytes);
  }

  lemma StrayTaken(s: State, stray: nat, call: nat, bytes: seq<byte>)
    requires |s.slots| == MAX_PENDING && !s.ended && Stray(s, stray) && bytes != []
    requires call !in s.calls && call !in s.answers && SlotOf(call) == SlotOf(stray) && !s.slots[SlotOf(call)].active
    ensures var events := [Start(call), Send(call), Respond(stray, Result(bytes)), Finish(call)];
            && Runs(s, events)
            && InPhase(After(s, events), call, Returned(Success(bytes)))
            && call !in After(s, events).answers
  {
    var s1 := Step(s, Start(call));
    var s2 := Step(s1, Send(call));
    var s3 := Step(s2, Respond(stray, Result(bytes)));
    assert s3.slots[SlotOf(call)] == Slot(true, true, false, bytes);
    RunsFour(s, Start(call), Send(call), Respond(stray, Result(bytes)), Finish(call));
  }

  lemma RunsTwo(s: State, a: Event, b: Event)
    requires Enabled(s, a) && Enabled(Step(s, a), b)
    ensures Runs(s, [a, b]) && After(s, [a, b]) == Step(Step(s, a), b)
  {
    hide Step, Enabled;
    var t := Step(Step(s, a), b);
    assert [a, b][1..] == [b] && [b][1..] == [];
    assert Runs(t, []) && After(t, []) == t;
    assert Runs(Step(s, a), [b]) && After(Step(s, a), [b]) == t;
  }

  lemma RunsFour(s: State, a: Event, b: Event, c: Event, d: Event)
    requires Enabled(s, a) && Enabled(Step(s, a), b) && Enabled(Step(Step(s, a), b), c)
    requires Enabled(Step(Step(Step(s, a), b), c), d)
    ensures Runs(s, [a, b, c, d])
    ensures After(s, [a, b, c, d]) == Step(Step(Step(Step(s, a), b), c), d)
  {
    hide Step, Enabled;
    var s2 := Step(Step(s, a), b);
    RunsTwo(s2, c, d);
    assert [a, b, c, d][1..] == [b, c, d] && [b, c, d][1..] == [c, d];
    assert Runs(Step(s, a), [b, c, d]) && After(Step(s, a), [b, c, d]) == After(s2, [c, d]);
  }

  /** Call 0 times out, call 64 then returns the answer to call 0. */
  lemma TimeoutMisleads(bytes: seq<byte>)
    requires bytes != []
    ensures var before := [Start(0), Send(0), TimeOut(0)];
            var after := [Start(64), Send(64), Respond(0, Result(bytes)), Finish(64)];
            && Runs(Initial(), before) && Runs(After(Initial(), before), after)
            && InPhase(After(After(Initial(), before), after), 64, Returned(Success(bytes)))
            && 64 !in After(After(Initial(), before), after).answers
  {
    var before := [Start(0), Send(0), TimeOut(0)];
    var s1 := Step(Initial(), Start(0));
    var s2 := Step(s1, Send(0));
    var s3 := Step(s2, TimeOut(0));
    RunsTwo(s1, Send(0), TimeOut(0));
    assert before[1..] == [Send(0), TimeOut(0)];
    assert After(Initial(), before) == After(s1, before[1..]) == s3;
    StrayTaken(s3, 0, 64, bytes);
  }

  // -------------------------------------------------------- the stream's end

  /** A call, sent or about to be, that still waits when the stream ends can return success without a result. */
  lemma WokenWithoutAnswer(s: State, call: nat)
    requires ActsAsMap(s) && !s.ended && call in s.calls && Open(s, call) && call !in s.answers
    ensures var t := Step(s, EndReader);
            var events := if s.calls[call].Waiting? then [Finish(call)] else [Send(call), Finish(call)];
            && Runs(t, events)
            && InPhase(After(t, events), call, Returned(Success([])))
            && call !in After(t, events).answers
  {
    var t := Step(s, EndReader);
    assert s.slots[SlotOf(call)] == Slot(true, false, false, []) by { assert HoldsOwn(s, call); }
    assert t.slots[SlotOf(call)] == Slot(true, true, false, []);
    if s.calls[call].Waiting? {
      var u := Step(t, Finish(call));
      assert [Finish(call)][1..] == [] && Runs(u, []) && After(u, []) == u;
    } else {
      RunsTwo(t, Send(call), Finish(call));
    }
  }

  /** A run from the start: call 0 is sent, the stream ends, and the call returns success without a result. */
  lemma EndOfStreamMisleads()
    ensures var events := [Start(0), Send(0), EndReader, Finish(0)];
            && Runs(Initial(), events)
            && InPhase(After(Initial(), events), 0, Returned(Success([])))
            && 0 !in After(Initial(), events).answers
  {
    hide Runs, After;
    var s1 := Step(Initial(), Start(0));
    var s2 := Step(s1, Send(0));
    var s3 := Step(s2, EndReader);
    assert s2.slots[0] == Slot(true, false, false, []) && s3.slots[0] == Slot(true, true, false, []);
    RunsFour(Initial(), Start(0), Send(0), EndReader, Finish(0));
  }

  /** Once the stream has ended no answer comes, so no start is careless. */
  lemma {:induction false} EndedIsCareful(s: State, events: seq<Event>)
    requires s.ended && Runs(s, events)
    ensures Careful(s, events)
    decreases |events|
  {
    if events != [] {
      EndedIsCareful(Step(s, events[0]), events[1..]);
    }
  }

  /**
    The end of the stream is harmless exactly when nobody waits for an answer then:
    only then does every continuation give every call its own.
   */
  lemma EndOfStreamIsSafeIffAnswered(s: State)
    requires ActsAsMap(s) && !s.ended
    ensures var t := Step(s, EndReader);
            (forall events :: Runs(t, events) ==> AllGotOwn(After(t, events))) <==> AllAnswered(s)
  {
    hide ActsAsMap, Runs, After, Careful;
    MapGetsOwn(s);
    var t := Step(s, EndReader);
    if AllAnswered(s) {
      StepActsAsMap(s, EndReader);
      forall events | Runs(t, events)
        ensures AllGotOwn(After(t, events))
      {
        EndedIsCareful(t, events);
        CarefulRunsActAsMap(t, events);
        MapGetsOwn(After(t, events));
      }
    } else {
      var call :| call in s.calls && Open(s, call) && call !in s.answers;
      WokenWithoutAnswer(s, call);
      var events := if s.calls[call].Waiting? then [Finish(call)] else [Send(call), Finish(call)];
      assert Runs(t, events) && !GotOwn(After(t, events), call);
    }
  }

  lemma MapGetsOwn(s: State)
    requires ActsAsMap(s)
    ensures AllGotOwn(s) && |s.slots| == MAX_PENDING
  {
  }
}
