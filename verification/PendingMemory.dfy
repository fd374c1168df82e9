/**
  Who frees a stored result: the memory behind the slots of the pending table, one
  block for every result that process_message copies.
 */
module PendingMemory {
  import opened Format
  import opened PendingCalls

  /**
    The blocks the slots point to, how many were ever allocated, and how often each was
    freed by the client or handed to a caller.
   */
  datatype Memory = Memory(held: map<nat, nat>, next: nat, freed: multiset<nat>, handed: multiset<nat>)

  const UNUSED := Memory(map[], 0, multiset{}, multiset{})

  /** What a step does to the memory behind the slots. */
  function Touched(s: State, e: Event, m: Memory): Memory
    requires Enabled(s, e)
  {
    match e
    case Start(call) =>
      var k := SlotOf(call);
      // The slot is cleared, whatever it points to is freed.
      if s.slots[k].active || k !in m.held then m
      else m.(held := m.held - {k}, freed := m.freed + multiset{m.held[k]})
    case Respond(call, reply) =>
      // The new block replaces what the slot points to.
      if s.slots[SlotOf(call)].active && reply.Result? && reply.bytes != []
      then m.(held := m.held[SlotOf(call) := m.next], next := m.next + 1)
      else m
    case Finish(call) =>
      var k := SlotOf(call);
      if k !in m.held then m
      else
        var outcome := Collected(s.slots, call);
        if outcome.Success? then m.(held := m.held - {k}, handed := m.handed + multiset{m.held[k]})
        // Freed, but the slot keeps pointing to it.
        else if outcome.Refused? then m.(freed := m.freed + multiset{m.held[k]})
        else m
    case _ => m
  }

  ghost function MemoryAfter(s: State, events: seq<Event>, m: Memory): Memory
    requires Runs(s, events)
    decreases |events|
  {
    if events == [] then m else MemoryAfter(Step(s, events[0]), events[1..], Touched(s, events[0], m))
  }

  /** kgd_close frees what the slots still point to. */
  function Closed(m: Memory): Memory {
    m.(held := map[], freed := m.freed + multiset(m.held.Values))
  }

  predicate InUse(m: Memory, p: nat) {
    exists k :: k in m.held && m.held[k] == p
  }

  /** How often a block has been disposed of. */
  function Gone(m: Memory, p: nat): nat {
    m.freed[p] + m.handed[p]
  }

  /** Every block is pointed to by one slot, or has been freed or handed out once. */
  ghost predicate Accounted(m: Memory) {
    && (forall k :: k in m.held ==> m.held[k] < m.next)
    && (forall j, k :: j in m.held && k in m.held && m.held[j] == m.held[k] ==> j == k)
    && (forall p: nat :: Gone(m, p) == if p < m.next && !InUse(m, p) then 1 else 0)
  }

  /** A slot points to memory exactly while it has data. */
  ghost predicate Mirrors(s: State, m: Memory) {
    && |s.slots| == MAX_PENDING
    && forall k :: k in m.held <==> 0 <= k < MAX_PENDING && s.slots[k].data != []
  }

  // ------------------------------------------------------------ the table's side

  /** A call on its way out has had no answer but its own, and its slot is as empty as it left it. */
  ghost predicate LeavesClean(s: State, c: nat)
    requires |s.slots| == MAX_PENDING
  {
    (s.ended || NoStrayFor(s, c)) && (c !in s.answers ==> s.slots[SlotOf(c)].data == [])
  }

  ghost predicate Tidy(s: State) {
    && ActsAsMap(s)
    && forall c :: c in s.calls && Live(s, c) ==> LeavesClean(s, c)
  }

  lemma TidyInitially()
    ensures Tidy(Initial())
  {
    ActsAsMapInitially();
  }

  lemma OpenIsClean(s: State, c: nat)
    requires ActsAsMap(s) && c in s.calls && Open(s, c)
    ensures LeavesClean(s, c)
  {
    assert HoldsOwn(s, c);
  }

  lemma StepKeepsTidy(s: State, e: Event)
    requires Tidy(s) && Enabled(s, e) && CarefulStep(s, e)
    ensures Tidy(Step(s, e))
  {
    hide Step, ActsAsMap, LeavesClean, CarefulStep;
    var t := Step(s, e);
    StepActsAsMap(s, e);
    forall c | c in t.calls && Live(t, c)
      ensures LeavesClean(t, c)
    {
      if Open(t, c) {
        OpenIsClean(t, c);
      } else {
        LeavingStaysClean(s, e, c);
      }
    }
  }

  lemma LeavingStaysClean(s: State, e: Event, c: nat)
    requires Tidy(s) && Enabled(s, e) && |Step(s, e).slots| == MAX_PENDING
    requires c in Step(s, e).calls && Step(s, e).calls[c].Leaving?
    ensures LeavesClean(Step(s, e), c)
  {
    var t := Step(s, e);
    LeavingWasLive(s, e, c);
    assert LeavesClean(s, c);
    StrayMoves(s, e);
    SlotStays(s, e, c);
    hide Step;
    if !t.ended {
      forall d | Stray(t, d)
        ensures SlotOf(d) != SlotOf(c)
      {
        if !Stray(s, d) {
          assert Live(s, d) && d != c;
        }
      }
    }
  }

  lemma LeavingWasLive(s: State, e: Event, c: nat)
    requires Owned(s) && Enabled(s, e) && c in Step(s, e).calls && Step(s, e).calls[c].Leaving?
    ensures c in s.calls && Live(s, c) && !Leaves(s, e, c)
    ensures !Step(s, e).ended ==> !s.ended
  {
    hide Answering, OutcomeIn, SlotOf, Claiming, Releasing, HandingOut, AllWoken;
  }

  /** Only its own answer puts data into a live call's slot. */
  lemma SlotStays(s: State, e: Event, c: nat)
    requires Tidy(s) && Enabled(s, e) && c in s.calls && Live(s, c) && !Leaves(s, e, c)
    ensures c !in Step(s, e).answers ==> Step(s, e).slots[SlotOf(c)].data == []
  {
    assert LeavesClean(s, c) && s.slots[SlotOf(c)].active;
    if LetsGo(s, e) {
      WhoMoves(s, e);
      assert SlotOf(e.call) != SlotOf(c);
    }
    if e.Respond? && SlotOf(e.call) == SlotOf(c) {
      assert !Stray(s, e.call);
      assert e.call == c;
    }
  }

  // ----------------------------------------------------------- the memory's side

  /** An answer is stored in a slot that points to nothing; an error is returned from one. */
  lemma NothingOverwritten(s: State, e: Event)
    requires Tidy(s) && Enabled(s, e)
    ensures e.Respond? && s.slots[SlotOf(e.call)].active ==> s.slots[SlotOf(e.call)].data == []
    ensures e.Finish? && Collected(s.slots, e.call).Refused? ==> s.slots[SlotOf(e.call)].data == []
  {
    if e.Respond? && s.slots[SlotOf(e.call)].active {
      var c :| c in s.calls && Live(s, c) && SlotOf(c) == SlotOf(e.call);
      assert LeavesClean(s, c);
      assert !Stray(s, e.call);
      assert e.call == c;
    }
    if e.Finish? {
      assert Open(s, e.call) && HoldsOwn(s, e.call);
    }
  }

  /** What a step leaves in a slot. */
  function DataAfter(s: State, e: Event, k: nat): seq<byte>
    requires Enabled(s, e) && k < MAX_PENDING
  {
    var slot := s.slots[k];
    match e
    case Start(call) => if k == SlotOf(call) && !slot.active then [] else slot.data
    case Respond(call, reply) =>
      if k == SlotOf(call) && slot.active && reply.Result? && reply.bytes != [] then reply.bytes else slot.data
    case Finish(call) => if k == SlotOf(call) && Collected(s.slots, call).Success? then [] else slot.data
    case _ => slot.data
  }

  lemma DataMoves(s: State, e: Event)
    requires Enabled(s, e)
    ensures forall k :: 0 <= k < MAX_PENDING ==> Step(s, e).slots[k].data == DataAfter(s, e, k)
  {
    hide SlotOf, Collected;
  }

  lemma StepKeepsMirrors(s: State, e: Event, m: Memory)
    requires Enabled(s, e) && Mirrors(s, m)
    requires e.Finish? && Collected(s.slots, e.call).Refused? ==> s.slots[SlotOf(e.call)].data == []
    ensures Mirrors(Step(s, e), Touched(s, e, m))
  {
    hide Step, SlotOf, Collected;
    DataMoves(s, e);
  }

  lemma StepKeepsAccounted(s: State, e: Event, m: Memory)
    requires Enabled(s, e) && Mirrors(s, m) && Accounted(m)
    requires e.Respond? && s.slots[SlotOf(e.call)].active ==> s.slots[SlotOf(e.call)].data == []
    requires e.Finish? && Collected(s.slots, e.call).Refused? ==> s.slots[SlotOf(e.call)].data == []
    ensures Accounted(Touched(s, e, m))
  {
    hide SlotOf, Collected, Accounted;
    var n := Touched(s, e, m);
    if n != m {
      var k := SlotOf(e.call);
      if e.Respond? {
        AllocatedOnce(m, k, n);
      } else {
        assert forall p: nat :: Gone(n, p) == Gone(m, p) + if p == m.held[k] then 1 else 0;
        DroppedOnce(m, k, n);
      }
    }
  }

  /** A slot's block is freed or handed out, and the slot points to it no more. */
  lemma DroppedOnce(m: Memory, k: nat, n: Memory)
    requires Accounted(m) && k in m.held && n.held == m.held - {k} && n.next == m.next
    requires forall p: nat :: Gone(n, p) == Gone(m, p) + if p == m.held[k] then 1 else 0
    ensures Accounted(n)
  {
    hide Gone;
    forall p: nat
      ensures Gone(n, p) == if p < n.next && !InUse(n, p) then 1 else 0
    {
      if InUse(m, p) && p != m.held[k] {
        var j :| j in m.held && m.held[j] == p;
        assert j in n.held && n.held[j] == p;
      }
      assert p == m.held[k] ==> InUse(m, p) && !InUse(n, p);
    }
  }

  lemma AllocatedOnce(m: Memory, k: nat, n: Memory)
    requires Accounted(m) && k !in m.held
    requires n == m.(held := m.held[k := m.next], next := m.next + 1)
    ensures Accounted(n)
  {
    forall p: nat
      ensures Gone(n, p) == if p < n.next && !InUse(n, p) then 1 else 0
    {
      assert Gone(n, p) == Gone(m, p);
      if InUse(m, p) {
        var j :| j in m.held && m.held[j] == p;
        assert j in n.held && n.held[j] == p;
      }
      assert p == m.next ==> k in n.held && n.held[k] == p;
    }
  }

  lemma {:induction false} CarefulRunsAccount(s: State, events: seq<Event>, m: Memory)
    requires Tidy(s) && Mirrors(s, m) && Accounted(m) && Runs(s, events) && Careful(s, events)
    ensures Accounted(MemoryAfter(s, events, m))
    decreases |events|
  {
    hide Tidy, Mirrors, Accounted, Step, Touched, CarefulStep;
    if events != [] {
      NothingOverwritten(s, events[0]);
      StepKeepsTidy(s, events[0]);
      StepKeepsMirrors(s, events[0], m);
      StepKeepsAccounted(s, events[0], m);
      CarefulRunsAccount(Step(s, events[0]), events[1..], Touched(s, events[0], m));
    }
  }

  /**
    Over every careful run, a stored result is never freed or handed out twice, and once
    the client is closed each has been disposed of exactly once.
   */
  lemma ResultsAreDisposedOfOnce(events: seq<Event>)
    requires Runs(Initial(), events) && Careful(Initial(), events)
    ensures var m := MemoryAfter(Initial(), events, UNUSED);
            && (forall p: nat :: Gone(m, p) <= 1)
            && (forall p: nat :: p < m.next ==> Gone(Closed(m), p) == 1)
  {
    TidyInitially();
    CarefulRunsAccount(Initial(), events, UNUSED);
    var m := MemoryAfter(Initial(), events, UNUSED);
    forall p: nat | p < m.next
      ensures Gone(Closed(m), p) == 1
    {
      assert InUse(m, p) <==> p in m.held.Values;
      assert multiset(m.held.Values)[p] == if p in m.held.Values then 1 else 0;
    }
  }

  // -------------------------------------------------------------- when it fails

  /** Everybody uses slot 0. */
  function At(slot: Slot, calls: map<nat, Phase>, sent: set<nat>, answers: map<nat, Reply>): State {
    State(Initial().slots[0 := slot], calls, sent, answers, false, false)
  }

  /** Call 0 times out and call 64 gets its result. */
  function UpToResult(bytes: seq<byte>): seq<Event> {
    [Start(0), Send(0), TimeOut(0), Start(64), Send(64), Respond(64, Result(bytes))]
  }

  /** The late error for call 0 reaches the slot; calls 64 and 128 then both free the result. */
  const ERROR_AFTER: seq<Event> := [Respond(0, RpcError), Finish(64), Leave(64), Start(128)]

  lemma RunsFirst(s: State, e: Event, t: State, rest: seq<Event>, m: Memory)
    requires Enabled(s, e) && Step(s, e) == t && Runs(t, rest)
    ensures Runs(s, [e] + rest)
    ensures After(s, [e] + rest) == After(t, rest)
    ensures MemoryAfter(s, [e] + rest, m) == MemoryAfter(t, rest, Touched(s, e, m))
  {
    hide Step, Enabled, Touched;
    assert ([e] + rest)[1..] == rest;
  }

  lemma NothingToRun(s: State, m: Memory)
    ensures Runs(s, []) && After(s, []) == s && MemoryAfter(s, [], m) == m
  {
  }

  lemma ResultStored(bytes: seq<byte>)
    requires bytes != []
    ensures var t := At(Slot(true, true, false, bytes), map[0 := Returned(TimedOut), 64 := Waiting], {0, 64},
                        map[64 := Result(bytes)]);
            && Runs(Initial(), UpToResult(bytes)) && After(Initial(), UpToResult(bytes)) == t
            && MemoryAfter(Initial(), UpToResult(bytes), UNUSED) == UNUSED.(held := map[0 := 0], next := 1)
  {
    var taken := Slot(true, false, false, []);
    var s1 := At(taken, map[0 := Claimed], {}, map[]);
    var s2 := At(taken, map[0 := Waiting], {0}, map[]);
    var s3 := At(FREE, map[0 := Returned(TimedOut)], {0}, map[]);
    var s4 := At(taken, map[0 := Returned(TimedOut), 64 := Claimed], {0}, map[]);
    var s5 := At(taken, map[0 := Returned(TimedOut), 64 := Waiting], {0, 64}, map[]);
    var s6 := At(Slot(true, true, false, bytes), map[0 := Returned(TimedOut), 64 := Waiting], {0, 64},
                 map[64 := Result(bytes)]);
    var m6 := UNUSED.(held := map[0 := 0], next := 1);
    NothingToRun(s6, m6);
    RunsFirst(s5, Respond(64, Result(bytes)), s6, [], UNUSED);
    RunsFirst(s4, Send(64), s5, [Respond(64, Result(bytes))], UNUSED);
    RunsFirst(s3, Start(64), s4, [Send(64), Respond(64, Result(bytes))], UNUSED);
    RunsFirst(s2, TimeOut(0), s3, [Start(64), Send(64), Respond(64, Result(bytes))], UNUSED);
    RunsFirst(s1, Send(0), s2, [TimeOut(0), Start(64), Send(64), Respond(64, Result(bytes))], UNUSED);
    RunsFirst(Initial(), Start(0), s1, [Send(0), TimeOut(0), Start(64), Send(64), Respond(64, Result(bytes))], UNUSED);
  }

  lemma ResultFreedTwice(bytes: seq<byte>)
    requires bytes != []
    ensures var s := At(Slot(true, true, false, bytes), map[0 := Returned(TimedOut), 64 := Waiting], {0, 64},
                        map[64 := Result(bytes)]);
            && Runs(s, ERROR_AFTER)
            && Gone(MemoryAfter(s, ERROR_AFTER, UNUSED.(held := map[0 := 0], next := 1)), 0) == 2
  {
    var calls: map<nat, Phase> := map[0 := Returned(TimedOut), 64 := Waiting];
    var answers: map<nat, Reply> := map[64 := Result(bytes), 0 := RpcError];
    var s := At(Slot(true, true, false, bytes), calls, {0, 64}, map[64 := Result(bytes)]);
    var s1 := At(Slot(true, true, true, bytes), calls, {0, 64}, answers);
    var s2 := At(Slot(true, true, true, bytes), calls[64 := Leaving(Refused)], {0, 64}, answers);
    var s3 := At(Slot(false, true, true, bytes), calls[64 := Returned(Refused)], {0, 64}, answers);
    var s4 := At(Slot(true, false, false, []), calls[64 := Returned(Refused)][128 := Claimed], {0, 64}, answers);
    var m := UNUSED.(held := map[0 := 0], next := 1);
    var m2 := m.(freed := multiset{0});
    var m4 := Memory(map[], 1, multiset{0, 0}, multiset{});
    NothingToRun(s4, m4);
    RunsFirst(s3, Start(128), s4, [], m2);
    RunsFirst(s2, Leave(64), s3, [Start(128)], m2);
    RunsFirst(s1, Finish(64), s2, [Leave(64), Start(128)], m);
    RunsFirst(s, Respond(0, RpcError), s1, [Finish(64), Leave(64), Start(128)], m);
  }

  /** With a stray answer the same result is freed twice: by the call that returns the error and by the next one. */
  lemma StrayErrorFreesTwice(bytes: seq<byte>)
    requires bytes != []
    ensures Runs(Initial(), UpToResult(bytes))
    ensures var s := After(Initial(), UpToResult(bytes));
            && Runs(s, ERROR_AFTER)
            && Gone(MemoryAfter(s, ERROR_AFTER, MemoryAfter(Initial(), UpToResult(bytes), UNUSED)), 0) == 2
  {
    hide Runs, After, Gone;
    ResultStored(bytes);
    ResultFreedTwice(bytes);
  }
}
