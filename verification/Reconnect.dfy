/** ReconnectHandler of adb/transport.cpp: transports that are to be reconnected wait in an ordered
    set; one thread takes them out when they are due. The two threads interleave in steps, each of
    which is one section under the lock, or one call of Reconnect() outside it. */
module Reconnect {
  import opened Options

  type Transport = nat  // its address
  type Time = nat       // milliseconds of the steady clock

  const MAX_ATTEMPTS := 6
  const FIRST_DELAY := 250
  const RETRY_DELAY := 10000

  datatype Attempt = Attempt(transport: Transport, due: Time, left: nat)

  datatype Event =
    | Tracked(transport: Transport, at: Time)
    | Tried(transport: Transport, at: Time)
    | Registered(transport: Transport)
    | Removed(transport: Transport)

  predicate Less(a: Attempt, b: Attempt) {
    if a.due == b.due then a.transport < b.transport else a.due < b.due
  }

  /** std::set: strictly increasing. */
  predicate Sorted(queue: seq<Attempt>) {
    forall i, j :: 0 <= i < j < |queue| ==> Less(queue[i], queue[j])
  }

  /** emplace: no effect if there is an equivalent element. */
  function Emplace(queue: seq<Attempt>, a: Attempt): (r: seq<Attempt>)
    ensures |queue| <= |r| <= |queue| + 1
    ensures forall x :: x in r ==> x == a || x in queue
    ensures forall x :: x in queue ==> x in r
  {
    if queue == [] || Less(a, queue[0]) then [a] + queue
    else if !Less(queue[0], a) then queue
    else
      assert queue == [queue[0]] + queue[1..];
      [queue[0]] + Emplace(queue[1..], a)
  }

  lemma {:induction false} EmplaceSorted(queue: seq<Attempt>, a: Attempt)
    requires Sorted(queue)
    ensures Sorted(Emplace(queue, a))
  {
    if queue != [] && Less(queue[0], a) {
      var rest := Emplace(queue[1..], a);
      EmplaceSorted(queue[1..], a);
      forall j | 0 <= j < |rest|
        ensures Less(queue[0], rest[j])
      {
        assert rest[j] in rest;
        if rest[j] != a {
          var k :| 0 <= k < |queue[1..]| && queue[1..][k] == rest[j];
          assert Less(queue[0], queue[k + 1]);
        }
      }
    }
  }

  function Count(queue: seq<Attempt>, t: Transport): nat {
    if queue == [] then 0 else (if queue[0].transport == t then 1 else 0) + Count(queue[1..], t)
  }

  lemma {:induction false} CountMember(queue: seq<Attempt>, a: Attempt)
    requires a in queue
    ensures Count(queue, a.transport) > 0
  {
    assert queue == [queue[0]] + queue[1..];
    if queue[0] != a {
      CountMember(queue[1..], a);
    }
  }

  lemma {:induction false} CountEmplace(queue: seq<Attempt>, a: Attempt, t: Transport)
    requires t == a.transport ==> Count(queue, t) == 0
    ensures Count(Emplace(queue, a), t) == Count(queue, t) + if t == a.transport then 1 else 0
  {
    if queue == [] || Less(a, queue[0]) {
      assert ([a] + queue)[1..] == queue;
    } else if Less(queue[0], a) {
      CountEmplace(queue[1..], a, t);
      var r := [queue[0]] + Emplace(queue[1..], a);
      assert r[1..] == Emplace(queue[1..], a);
    }
  }

  // The steps.

  datatype State = State(running: bool, queue: seq<Attempt>, hand: Option<Attempt>, exited: bool,
                         now: Time, log: seq<Event>)

  datatype Outcome = Retry | Success | Abort

  datatype Step =
    | Tick(elapsed: nat)
    | Track(transport: Transport)
    | Wake(kicked: set<Transport>)
    | Reconnected(outcome: Outcome)
    | StopRunning
    | Drain

  const START := State(true, [], None, false, 0, [])

  /** The scan for kicked transports: what is left, and what was removed. */
  function Unkicked(queue: seq<Attempt>, kicked: set<Transport>): (r: seq<Attempt>)
    ensures forall a :: a in r ==> a in queue
  {
    if queue == [] then []
    else
      assert queue == [queue[0]] + queue[1..];
      var rest := Unkicked(queue[1..], kicked);
      if queue[0].transport in kicked then rest else [queue[0]] + rest
  }

  function Removals(queue: seq<Attempt>, kicked: set<Transport>): seq<Event> {
    if queue == [] then []
    else if queue[0].transport in kicked then [Removed(queue[0].transport)] + Removals(queue[1..], kicked)
    else Removals(queue[1..], kicked)
  }

  function RemoveAll(queue: seq<Attempt>): seq<Event> {
    if queue == [] then [] else [Removed(queue[0].transport)] + RemoveAll(queue[1..])
  }

  /** When a step can be taken: a transport is handed over only while nobody tracks it; the thread is
      either waiting, or in a call of Reconnect(), or has returned; Stop() drains after join(). */
  predicate Enabled(s: State, step: Step) {
    match step
    case Track(t) => Count(s.queue, t) == 0 && (s.hand.Some? ==> s.hand.value.transport != t)
    case Wake(_) => s.hand.None? && !s.exited
    case Reconnected(_) => s.hand.Some?
    case Drain => s.exited
    case _ => true
  }

  function Take(s: State): State {
    if s.queue == [] || s.queue[0].due > s.now then s
    else s.(queue := s.queue[1..], hand := Some(s.queue[0]), log := s.log + [Tried(s.queue[0].transport, s.now)])
  }

  function AfterReconnect(s: State, outcome: Outcome): State
    requires s.hand.Some?
  {
    var a := s.hand.value;
    match outcome
    case Retry =>
      if a.left == 0 then s.(hand := None, log := s.log + [Removed(a.transport)])
      else s.(hand := None, queue := Emplace(s.queue, Attempt(a.transport, s.now + RETRY_DELAY, a.left - 1)))
    case Success => s.(hand := None, log := s.log + [Registered(a.transport)])
    case Abort => s.(hand := None, log := s.log + [Removed(a.transport)])
  }

  function Next(s: State, step: Step): State
    requires Enabled(s, step)
  {
    match step
    case Tick(elapsed) => s.(now := s.now + elapsed)
    case Track(t) =>
      if !s.running then s
      else s.(queue := Emplace(s.queue, Attempt(t, s.now + FIRST_DELAY, MAX_ATTEMPTS)), log := s.log + [Tracked(t, s.now)])
    case Wake(kicked) =>
      if !s.running then s.(exited := true)
      else Take(s.(queue := Unkicked(s.queue, kicked), log := s.log + Removals(s.queue, kicked)))
    case Reconnected(outcome) => AfterReconnect(s, outcome)
    case StopRunning => s.(running := false)
    case Drain => s.(queue := [], log := s.log + RemoveAll(s.queue))
  }

  ghost predicate Run(s: State, steps: seq<Step>, end: State)
    decreases steps
  {
    if steps == [] then end == s
    else Enabled(s, steps[0]) && Run(Next(s, steps[0]), steps[1..], end)
  }

  // What the log of a run looks like for one transport.

  datatype Phase = Idle | Pending(notBefore: Time, tries: nat)

  /** The rules: once tracked, a transport is tried no earlier than 250 ms later, and no earlier than
      10 s after the try before, at most seven times; it is then reported once, as registered after a
      try or as removed. */
  function Advance(p: Phase, e: Event): Option<Phase> {
    match e
    case Tracked(_, at) => if p.Idle? then Some(Pending(at + 250, 0)) else None
    case Tried(_, at) =>
      if p.Pending? && p.notBefore <= at && p.tries < 7 then Some(Pending(at + 10000, p.tries + 1)) else None
    case Registered(_) => if p.Pending? && p.tries > 0 then Some(Idle) else None
    case Removed(_) => if p.Pending? then Some(Idle) else None
  }

  /** None if the log breaks a rule for t. */
  function Replay(log: seq<Event>, t: Transport): Option<Phase> {
    if log == [] then Some(Idle)
    else
      var (p, e) := (Replay(log[..|log| - 1], t), log[|log| - 1]);
      if p.None? || e.transport != t then p else Advance(p.value, e)
  }

  lemma ReplayOne(log: seq<Event>, e: Event, t: Transport)
    ensures Replay(log + [e], t)
         == if Replay(log, t).None? || e.transport != t then Replay(log, t) else Advance(Replay(log, t).value, e)
  {
    assert (log + [e])[..|log|] == log;
  }

  /** The transport is where the log says, exactly once. */
  ghost predicate Placed(s: State, t: Transport) {
    match Replay(s.log, t)
    case None => false
    case Some(Idle) => Count(s.queue, t) == 0 && !InHand(s, t)
    case Some(Pending(notBefore, tries)) =>
      if InHand(s, t) then
        && Count(s.queue, t) == 0 && tries > 0 && s.hand.value.left + tries == MAX_ATTEMPTS + 1
        && notBefore <= s.now + RETRY_DELAY
      else
        && Count(s.queue, t) == 1
        && forall a :: a in s.queue && a.transport == t ==> notBefore <= a.due && a.left + tries == MAX_ATTEMPTS
  }

  predicate InHand(s: State, t: Transport) {
    s.hand.Some? && s.hand.value.transport == t
  }

  ghost predicate Inv(s: State, t: Transport) {
    Sorted(s.queue) && Placed(s, t) && (s.exited ==> s.hand.None? && !s.running)
  }

  // Every step keeps it.

  function Reports(events: seq<Event>, t: Transport): nat {
    if events == [] then 0 else (if events[0] == Removed(t) then 1 else 0) + Reports(events[1..], t)
  }

  predicate AllRemoved(events: seq<Event>) {
    forall i :: 0 <= i < |events| ==> events[i].Removed?
  }

  lemma {:induction false} ReplayReports(log: seq<Event>, events: seq<Event>, t: Transport)
    requires AllRemoved(events) && Reports(events, t) <= 1
    requires Replay(log, t).Some? && (Reports(events, t) == 1 ==> Replay(log, t).value.Pending?)
    ensures Replay(log + events, t) == if Reports(events, t) == 1 then Some(Idle) else Replay(log, t)
    decreases events
  {
    if events == [] {
      assert log + events == log;
    } else {
      ReplayOne(log, events[0], t);
      assert log + events == (log + [events[0]]) + events[1..];
      ReplayReports(log + [events[0]], events[1..], t);
    }
  }

  lemma {:induction false} Scanned(queue: seq<Attempt>, kicked: set<Transport>, t: Transport)
    ensures AllRemoved(Removals(queue, kicked))
    ensures Reports(Removals(queue, kicked), t) == if t in kicked then Count(queue, t) else 0
    ensures Count(Unkicked(queue, kicked), t) == if t in kicked then 0 else Count(queue, t)
  {
    if queue == [] {
    } else {
      Scanned(queue[1..], kicked, t);
      var events, rest := Removals(queue[1..], kicked), Unkicked(queue[1..], kicked);
      assert ([Removed(queue[0].transport)] + events)[1..] == events;
      assert ([queue[0]] + rest)[1..] == rest;
    }
  }

  lemma {:induction false} UnkickedSorted(queue: seq<Attempt>, kicked: set<Transport>)
    requires Sorted(queue)
    ensures Sorted(Unkicked(queue, kicked))
  {
    if queue == [] {
    } else {
      var rest := Unkicked(queue[1..], kicked);
      UnkickedSorted(queue[1..], kicked);
      forall j | 0 <= j < |rest|
        ensures Less(queue[0], rest[j])
      {
        assert rest[j] in rest;
        var k :| 0 <= k < |queue[1..]| && queue[1..][k] == rest[j];
        assert Less(queue[0], queue[k + 1]);
      }
    }
  }

  lemma {:induction false} Drained(queue: seq<Attempt>, t: Transport)
    ensures AllRemoved(RemoveAll(queue)) && Reports(RemoveAll(queue), t) == Count(queue, t)
  {
    if queue == [] {
    } else {
      Drained(queue[1..], t);
      var events := RemoveAll(queue[1..]);
      assert ([Removed(queue[0].transport)] + events)[1..] == events;
    }
  }

  lemma TrackKeeps(s: State, u: Transport, t: Transport)
    requires Inv(s, t) && Enabled(s, Track(u))
    ensures Inv(Next(s, Track(u)), t)
  {
    EmplaceSorted(s.queue, Attempt(u, s.now + FIRST_DELAY, MAX_ATTEMPTS));
    if u == t {
      TrackKeepsOwn(s, t);
    } else {
      TrackKeepsOther(s, u, t);
    }
  }

  lemma TrackKeepsOwn(s: State, t: Transport)
    requires Inv(s, t) && Enabled(s, Track(t)) && Sorted(Next(s, Track(t)).queue)
    ensures Inv(Next(s, Track(t)), t)
  {
    var a := Attempt(t, s.now + FIRST_DELAY, MAX_ATTEMPTS);
    CountEmplace(s.queue, a, t);
    ReplayOne(s.log, Tracked(t, s.now), t);
    OnlyNew(s.queue, a);
  }

  lemma TrackKeepsOther(s: State, u: Transport, t: Transport)
    requires Inv(s, t) && Enabled(s, Track(u)) && u != t && Sorted(Next(s, Track(u)).queue)
    ensures Inv(Next(s, Track(u)), t)
  {
    CountEmplace(s.queue, Attempt(u, s.now + FIRST_DELAY, MAX_ATTEMPTS), t);
    ReplayOne(s.log, Tracked(u, s.now), t);
  }

  /** The new attempt is the only one of its transport. */
  lemma OnlyNew(queue: seq<Attempt>, a: Attempt)
    requires Count(queue, a.transport) == 0
    ensures forall x :: x in Emplace(queue, a) && x.transport == a.transport ==> x == a
  {
    forall x | x in Emplace(queue, a) && x.transport == a.transport
      ensures x == a
    {
      if x in queue {
        CountMember(queue, x);
      }
    }
  }

  lemma ScanKeeps(s: State, kicked: set<Transport>, t: Transport)
    requires Inv(s, t) && s.hand.None?
    ensures Inv(s.(queue := Unkicked(s.queue, kicked), log := s.log + Removals(s.queue, kicked)), t)
  {
    Scanned(s.queue, kicked, t);
    UnkickedSorted(s.queue, kicked);
    ReplayReports(s.log, Removals(s.queue, kicked), t);
  }

  lemma TakeKeeps(s: State, t: Transport)
    requires Inv(s, t) && s.hand.None? && !s.exited
    ensures Inv(Take(s), t)
  {
    if s.queue != [] && s.queue[0].due <= s.now {
      assert s.queue[0] in s.queue && s.queue == [s.queue[0]] + s.queue[1..];
      if s.queue[0].transport == t {
        TakenPlaced(s, t);
      } else {
        NotTakenPlaced(s, t);
      }
    }
  }

  lemma TakenPlaced(s: State, t: Transport)
    requires Placed(s, t) && s.hand.None? && s.queue != [] && s.queue[0].due <= s.now && s.queue[0].transport == t
    ensures Placed(Take(s), t)
  {
    ReplayOne(s.log, Tried(t, s.now), t);
    assert s.queue[0] in s.queue;
  }

  lemma NotTakenPlaced(s: State, t: Transport)
    requires Placed(s, t) && s.hand.None? && s.queue != [] && s.queue[0].due <= s.now && s.queue[0].transport != t
    ensures Placed(Take(s), t)
  {
    ReplayOne(s.log, Tried(s.queue[0].transport, s.now), t);
    assert s.queue == [s.queue[0]] + s.queue[1..];
  }

  lemma RetriedKeeps(s: State, t: Transport)
    requires Inv(s, t) && s.hand.Some? && s.hand.value.left > 0
    ensures Inv(AfterReconnect(s, Retry), t)
  {
    var a := s.hand.value;
    var b := Attempt(a.transport, s.now + RETRY_DELAY, a.left - 1);
    EmplaceSorted(s.queue, b);
    RetriedPlaced(s, b, t);
  }

  /** The attempt in hand goes back into the queue. */
  lemma RetriedPlaced(s: State, b: Attempt, t: Transport)
    requires Placed(s, t) && s.hand.Some? && b.transport == s.hand.value.transport
    requires b.due == s.now + RETRY_DELAY && b.left + 1 == s.hand.value.left
    ensures Placed(s.(hand := None, queue := Emplace(s.queue, b)), t)
  {
    CountEmplace(s.queue, b, t);
    if b.transport == t {
      OnlyNew(s.queue, b);
    }
  }

  lemma ReconnectedKeeps(s: State, outcome: Outcome, t: Transport)
    requires Inv(s, t) && s.hand.Some?
    ensures Inv(AfterReconnect(s, outcome), t)
  {
    var a := s.hand.value;
    if outcome.Retry? && a.left > 0 {
      RetriedKeeps(s, t);
    } else if outcome.Success? {
      ReplayOne(s.log, Registered(a.transport), t);
    } else {
      ReplayOne(s.log, Removed(a.transport), t);
    }
  }

  lemma NextKeeps(s: State, step: Step, t: Transport)
    requires Inv(s, t) && Enabled(s, step)
    ensures Inv(Next(s, step), t)
  {
    match step
    case Tick(_) =>
    case Track(u) => TrackKeeps(s, u, t);
    case Wake(kicked) =>
      if s.running {
        ScanKeeps(s, kicked, t);
        TakeKeeps(s.(queue := Unkicked(s.queue, kicked), log := s.log + Removals(s.queue, kicked)), t);
      }
    case Reconnected(outcome) => ReconnectedKeeps(s, outcome, t);
    case StopRunning =>
    case Drain =>
      Drained(s.queue, t);
      ReplayReports(s.log, RemoveAll(s.queue), t);
  }

  lemma {:induction false} RunKeeps(s: State, steps: seq<Step>, end: State, t: Transport)
    requires Inv(s, t) && Run(s, steps, end)
    ensures Inv(end, t)
    decreases steps
  {
    if steps == [] {
    } else {
      NextKeeps(s, steps[0], t);
      RunKeeps(Next(s, steps[0]), steps[1..], end, t);
    }
  }

  /** Under every interleaving: the log of each transport obeys the rules, and a transport that was
      tracked and not yet reported is in exactly one place, any other in none. */
  lemma Conservation(steps: seq<Step>, end: State, t: Transport)
    requires Run(START, steps, end)
    ensures Replay(end.log, t).Some?
    ensures Replay(end.log, t).value.Pending? <==> Count(end.queue, t) + (if InHand(end, t) then 1 else 0) == 1
    ensures Replay(end.log, t).value.Idle? <==> Count(end.queue, t) + (if InHand(end, t) then 1 else 0) == 0
  {
    RunKeeps(START, steps, end, t);
  }

  /** After Stop() every transport that was ever accepted has been reported. */
  lemma NothingLeft(steps: seq<Step>, s: State, t: Transport)
    requires Run(START, steps, s) && Enabled(s, Drain)
    ensures Replay(Next(s, Drain).log, t) == Some(Idle)
  {
    RunKeeps(START, steps, s, t);
    NextKeeps(s, Drain, t);
  }

  /** Once Stop() has begun, the thread returns at the next time it wakes up, without touching anything,
      and what Stop() does then reports all that is left. */
  lemma StopsThenDrains(steps: seq<Step>, s: State, kicked: set<Transport>, t: Transport)
    requires Run(START, steps, s) && !s.running && Enabled(s, Wake(kicked))
    ensures var next := Next(s, Wake(kicked));
            && next.queue == s.queue && next.log == s.log && next.hand.None?
            && Enabled(next, Drain) && Replay(Next(next, Drain).log, t) == Some(Idle)
  {
    RunKeeps(START, steps, s, t);
    NextKeeps(s, Wake(kicked), t);
    NextKeeps(Next(s, Wake(kicked)), Drain, t);
  }

  /** A transport that is handed over is accepted, if and only if Stop() has not begun; otherwise it
      is nowhere, and never reported. */
  lemma HandedOver(steps: seq<Step>, s: State, t: Transport)
    requires Run(START, steps, s) && Enabled(s, Track(t))
    ensures Replay(Next(s, Track(t)).log, t) == if s.running then Some(Pending(s.now + 250, 0)) else Some(Idle)
    ensures s.running ==> forall a :: a in Next(s, Track(t)).queue && a.transport == t ==> a.due == s.now + 250
  {
    RunKeeps(START, steps, s, t);
    ReplayOne(s.log, Tracked(t, s.now), t);
    if s.running {
      OnlyNew(s.queue, Attempt(t, s.now + FIRST_DELAY, MAX_ATTEMPTS));
    }
  }

  /** Stop() begins, then a transport is handed over: nobody has it, and nobody will report it. */
  lemma ForgottenTransport(t: Transport) returns (end: State)
    ensures Run(START, [StopRunning, Track(t)], end)
    ensures end.log == [] && Count(end.queue, t) == 0 && !InHand(end, t)
  {
    var steps := [StopRunning, Track(t)];
    var s := Next(START, StopRunning);
    end := Next(s, Track(t));
    assert steps[1..] == [Track(t)] && [Track(t)][1..] == [];
    assert Run(end, [], end);
    assert Run(s, [Track(t)], end);
  }

  /** What becomes of a transport in hand. Success registers it and Abort removes it; Retry removes it
      after the seventh try, and before that puts it back, to be tried 10 s from now. */
  lemma OutcomeDecides(steps: seq<Step>, s: State, outcome: Outcome)
    requires Run(START, steps, s) && Enabled(s, Reconnected(outcome))
    ensures var (t, next) := (s.hand.value.transport, Next(s, Reconnected(outcome)));
            && next.hand.None? && Replay(s.log, t).Some? && Replay(s.log, t).value.Pending?
            && var again := outcome.Retry? && Replay(s.log, t).value.tries < 7;
               if again then next.log == s.log && PutBack(s.queue, next.queue, t, s.now + 10000)
               else next.queue == s.queue && next.log == s.log + [if outcome.Success? then Registered(t) else Removed(t)]
  {
    var a := s.hand.value;
    RunKeeps(START, steps, s, a.transport);
    if outcome.Retry? && a.left > 0 {
      EmplacePutsBack(s.queue, Attempt(a.transport, s.now + RETRY_DELAY, a.left - 1));
    }
  }

  lemma EmplacePutsBack(queue: seq<Attempt>, b: Attempt)
    requires Count(queue, b.transport) == 0
    ensures PutBack(queue, Emplace(queue, b), b.transport, b.due)
  {
    CountEmplace(queue, b, b.transport);
    OnlyNew(queue, b);
  }

  /** The transport is in the queue now, once and due at that time; the others are as before. */
  ghost predicate PutBack(before: seq<Attempt>, after: seq<Attempt>, t: Transport, due: Time) {
    && Count(after, t) == 1 && (forall a :: a in after && a.transport == t ==> a.due == due)
    && forall a: Attempt :: a.transport != t ==> (a in after <==> a in before)
  }

  /** How often the log says that a transport was registered, or removed. */
  function Said(log: seq<Event>, e: Event): nat {
    if log == [] then 0 else Said(log[..|log| - 1], e) + if log[|log| - 1] == e then 1 else 0
  }

  lemma {:induction false} SaidConcat(a: seq<Event>, b: seq<Event>, e: Event)
    ensures Said(a + b, e) == Said(a, e) + Said(b, e)
  {
    if b == [] {
      assert a + b == a;
    } else {
      assert (a + b)[..|a + b| - 1] == a + b[..|b| - 1];
      SaidConcat(a, b[..|b| - 1], e);
    }
  }

  /** The steps at which a transport is reconnected for good, and those at which it is given up: its
      last try fails or is called off, it was kicked while it waited, or it waits when all ends. */
  function Registers(s: State, step: Step, t: Transport): nat {
    if step == Reconnected(Success) && InHand(s, t) then 1 else 0
  }

  function GivesUp(s: State, step: Step, t: Transport): nat {
    match step
    case Reconnected(outcome) =>
      if InHand(s, t) && (outcome.Abort? || (outcome.Retry? && s.hand.value.left == 0)) then 1 else 0
    case Wake(kicked) => if s.running && t in kicked then Count(s.queue, t) else 0
    case Drain => Count(s.queue, t)
    case _ => 0
  }

  function AllRegisters(s: State, steps: seq<Step>, t: Transport): nat
    decreases steps
  {
    if steps == [] || !Enabled(s, steps[0]) then 0
    else Registers(s, steps[0], t) + AllRegisters(Next(s, steps[0]), steps[1..], t)
  }

  function AllGivesUp(s: State, steps: seq<Step>, t: Transport): nat
    decreases steps
  {
    if steps == [] || !Enabled(s, steps[0]) then 0
    else GivesUp(s, steps[0], t) + AllGivesUp(Next(s, steps[0]), steps[1..], t)
  }

  lemma {:induction false} SaidReports(events: seq<Event>, t: Transport)
    requires AllRemoved(events)
    ensures Said(events, Registered(t)) == 0 && Said(events, Removed(t)) == Reports(events, t)
  {
    if events == [] {
    } else {
      SaidReports(events[1..], t);
      assert events == [events[0]] + events[1..];
      SaidConcat([events[0]], events[1..], Registered(t));
      SaidConcat([events[0]], events[1..], Removed(t));
      SaidOne(events[0], Removed(t));
      SaidOne(events[0], Registered(t));
    }
  }

  lemma SaidOne(x: Event, e: Event)
    ensures Said([x], e) == if x == e then 1 else 0
  {
    assert [x][..0] == [];
    assert Said([x], e) == Said([], e) + if x == e then 1 else 0;
  }

  lemma SaidAppend(log: seq<Event>, x: Event, e: Event)
    ensures Said(log + [x], e) == Said(log, e) + if x == e then 1 else 0
  {
    SaidConcat(log, [x], e);
    SaidOne(x, e);
  }

  lemma SaidStep(s: State, step: Step, t: Transport)
    requires Enabled(s, step)
    ensures Said(Next(s, step).log, Registered(t)) == Said(s.log, Registered(t)) + Registers(s, step, t)
    ensures Said(Next(s, step).log, Removed(t)) == Said(s.log, Removed(t)) + GivesUp(s, step, t)
  {
    match step
    case Tick(_) =>
    case StopRunning =>
    case Track(u) =>
      SaidAppend(s.log, Tracked(u, s.now), Registered(t));
      SaidAppend(s.log, Tracked(u, s.now), Removed(t));
    case Wake(kicked) =>
      if s.running {
        SaidScan(s, kicked, t);
      }
    case Reconnected(outcome) => SaidOutcome(s, outcome, t);
    case Drain =>
      Drained(s.queue, t);
      SaidReports(RemoveAll(s.queue), t);
      SaidConcat(s.log, RemoveAll(s.queue), Registered(t));
      SaidConcat(s.log, RemoveAll(s.queue), Removed(t));
  }

  lemma SaidOutcome(s: State, outcome: Outcome, t: Transport)
    requires s.hand.Some?
    ensures var (step, next) := (Reconnected(outcome), AfterReconnect(s, outcome));
            && Said(next.log, Registered(t)) == Said(s.log, Registered(t)) + Registers(s, step, t)
            && Said(next.log, Removed(t)) == Said(s.log, Removed(t)) + GivesUp(s, step, t)
  {
    var u := s.hand.value.transport;
    if outcome.Success? {
      SaidEither(s.log, Registered(u), t);
    } else if outcome.Abort? || s.hand.value.left == 0 {
      SaidEither(s.log, Removed(u), t);
    }
  }

  lemma SaidEither(log: seq<Event>, x: Event, t: Transport)
    ensures Said(log + [x], Registered(t)) == Said(log, Registered(t)) + if x == Registered(t) then 1 else 0
    ensures Said(log + [x], Removed(t)) == Said(log, Removed(t)) + if x == Removed(t) then 1 else 0
  {
    SaidAppend(log, x, Registered(t));
    SaidAppend(log, x, Removed(t));
  }

  lemma SaidScan(s: State, kicked: set<Transport>, t: Transport)
    requires s.running && Enabled(s, Wake(kicked))
    ensures Said(Next(s, Wake(kicked)).log, Registered(t)) == Said(s.log, Registered(t))
    ensures Said(Next(s, Wake(kicked)).log, Removed(t)) == Said(s.log, Removed(t)) + GivesUp(s, Wake(kicked), t)
  {
    var removals := Removals(s.queue, kicked);
    Scanned(s.queue, kicked, t);
    SaidReports(removals, t);
    SaidConcat(s.log, removals, Registered(t));
    SaidConcat(s.log, removals, Removed(t));
    var left := Unkicked(s.queue, kicked);
    if left != [] {
      SaidAppend(s.log + removals, Tried(left[0].transport, s.now), Registered(t));
      SaidAppend(s.log + removals, Tried(left[0].transport, s.now), Removed(t));
    }
  }

  lemma {:induction false} SaidRun(s: State, steps: seq<Step>, end: State, t: Transport)
    requires Run(s, steps, end)
    ensures Said(end.log, Registered(t)) == Said(s.log, Registered(t)) + AllRegisters(s, steps, t)
    ensures Said(end.log, Removed(t)) == Said(s.log, Removed(t)) + AllGivesUp(s, steps, t)
    decreases steps
  {
    if steps == [] {
    } else {
      SaidStep(s, steps[0], t);
      SaidRun(Next(s, steps[0]), steps[1..], end, t);
    }
  }

  /** In every run a transport is registered as often as a call of Reconnect() for it succeeds, and
      removed as often as it is given up. */
  lemma ReportsMatchOutcomes(steps: seq<Step>, end: State, t: Transport)
    requires Run(START, steps, end)
    ensures Said(end.log, Registered(t)) == AllRegisters(START, steps, t)
    ensures Said(end.log, Removed(t)) == AllGivesUp(START, steps, t)
  {
    SaidRun(START, steps, end, t);
  }

  /** An attempt is taken if and only if the handler runs and one is due that was not kicked. */
  lemma TakesIfDue(steps: seq<Step>, s: State, kicked: set<Transport>)
    requires Run(START, steps, s) && Enabled(s, Wake(kicked))
    ensures Next(s, Wake(kicked)).hand.Some?
            <==> s.running && exists a :: a in s.queue && a.transport !in kicked && a.due <= s.now
  {
    RunKeeps(START, steps, s, 0);
    UnkickedSorted(s.queue, kicked);
    NoneKicked(s.queue, kicked);
    var left := Unkicked(s.queue, kicked);
    if left != [] {
      assert left[0] in left;
      forall a | a in left
        ensures left[0].due <= a.due
      {
        var k :| 0 <= k < |left| && left[k] == a;
        assert k > 0 ==> Less(left[0], left[k]);
      }
    }
    forall a | a in s.queue && a.transport !in kicked
      ensures a in left
    {
      UnkickedKeeps(s.queue, kicked, a);
    }
  }

  lemma {:induction false} UnkickedKeeps(queue: seq<Attempt>, kicked: set<Transport>, a: Attempt)
    requires a in queue && a.transport !in kicked
    ensures a in Unkicked(queue, kicked)
  {
    assert queue == [queue[0]] + queue[1..];
    if queue[0] != a {
      UnkickedKeeps(queue[1..], kicked, a);
    }
  }

  /** The earliest attempt is taken, and only once it is due. */
  lemma TakesEarliest(steps: seq<Step>, s: State, kicked: set<Transport>)
    requires Run(START, steps, s) && Enabled(s, Wake(kicked)) && Next(s, Wake(kicked)).hand.Some?
    ensures var (a, next) := (Next(s, Wake(kicked)).hand.value, Next(s, Wake(kicked)));
            && a in s.queue && a.due <= s.now && a.transport !in kicked
            && forall b :: b in next.queue ==> Less(a, b)
  {
    RunKeeps(START, steps, s, 0);
    UnkickedSorted(s.queue, kicked);
    NoneKicked(s.queue, kicked);
  }

  lemma {:induction false} NoneKicked(queue: seq<Attempt>, kicked: set<Transport>)
    ensures forall a :: a in Unkicked(queue, kicked) ==> a.transport !in kicked
  {
    if queue == [] {
    } else {
      NoneKicked(queue[1..], kicked);
    }
  }

  function Tries(log: seq<Event>, t: Transport): nat {
    if log == [] then 0
    else Tries(log[..|log| - 1], t) + if log[|log| - 1].Tried? && log[|log| - 1].transport == t then 1 else 0
  }

  function Tracks(log: seq<Event>, t: Transport): nat {
    if log == [] then 0
    else Tracks(log[..|log| - 1], t) + if log[|log| - 1].Tracked? && log[|log| - 1].transport == t then 1 else 0
  }

  lemma {:induction false} TriesBounded(log: seq<Event>, t: Transport)
    requires Replay(log, t).Some?
    ensures Tries(log, t) <= (MAX_ATTEMPTS + 1) * Tracks(log, t)
    ensures Replay(log, t).value.Pending? ==>
              Tries(log, t) <= (MAX_ATTEMPTS + 1) * (Tracks(log, t) - 1) + Replay(log, t).value.tries
  {
    if log == [] {
    } else {
      TriesBounded(log[..|log| - 1], t);
      if Replay(log, t).value.Pending? {
        PendingTries(log, t);
      }
    }
  }

  lemma {:induction false} PendingTries(log: seq<Event>, t: Transport)
    requires Replay(log, t).Some? && Replay(log, t).value.Pending?
    ensures Replay(log, t).value.tries <= MAX_ATTEMPTS + 1
  {
    if log[|log| - 1].transport != t {
      PendingTries(log[..|log| - 1], t);
    }
  }

  /** At most seven calls of Reconnect() each time a transport is tracked. */
  lemma AtMostSeven(steps: seq<Step>, end: State, t: Transport)
    requires Run(START, steps, end)
    ensures Tries(end.log, t) <= 7 * Tracks(end.log, t)
  {
    RunKeeps(START, steps, end, t);
    TriesBounded(end.log, t);
  }

  /** The handler itself. The calls it makes are appended to `log`; the clock is a parameter. */
  class ReconnectHandler {
    var running: bool
    var queue: seq<Attempt>
    var log: seq<Event>

    constructor ()
      ensures View(None, false, 0) == START
    {
      running, queue, log := true, [], [];
    }

    ghost function View(hand: Option<Attempt>, exited: bool, now: Time): State
      reads this
    {
      State(running, queue, hand, exited, now, log)
    }

    /** `hand` and `exited` say where the thread is. */
    method TrackTransport(t: Transport, now: Time, ghost hand: Option<Attempt>, ghost exited: bool)
      requires Enabled(View(hand, exited, now), Track(t))
      modifies this
      ensures View(hand, exited, now) == Next(old(View(hand, exited, now)), Track(t))
    {
      if !running {
        return;
      }
      queue := Emplace(queue, Attempt(t, now + FIRST_DELAY, MAX_ATTEMPTS));
      log := log + [Tracked(t, now)];
    }

    method RemoveKicked(kicked: set<Transport>)
      modifies this
      ensures running == old(running)
      ensures queue == Unkicked(old(queue), kicked) && log == old(log) + Removals(old(queue), kicked)
    {
      var i := 0;
      ghost var was, before := queue, log;
      assert queue[..0] == [] && queue[0..] == queue;
      while i < |queue|
        invariant i <= |queue| && running == old(running)
        invariant queue[..i] + Unkicked(queue[i..], kicked) == Unkicked(was, kicked)
        invariant log + Removals(queue[i..], kicked) == before + Removals(was, kicked)
        decreases |queue| - i
      {
        ghost var rest := queue[i..];
        if queue[i].transport in kicked {
          log := log + [Removed(queue[i].transport)];
          queue := queue[..i] + queue[i + 1..];
          assert queue[i..] == rest[1..];
        } else {
          i := i + 1;
          assert queue[i..] == rest[1..] && queue[..i] == queue[..i - 1] + [rest[0]];
        }
      }
      assert queue[..i] == queue && queue[i..] == [];
    }

    /** What Run() does between waking up and letting go of the lock. */
    method WakeUp(kicked: set<Transport>, now: Time) returns (exited: bool, hand: Option<Attempt>)
      modifies this
      ensures View(hand, exited, now) == Next(old(View(None, false, now)), Wake(kicked))
    {
      exited, hand := false, None;
      if !running {
        exited := true;
        return;
      }
      RemoveKicked(kicked);
      if queue == [] || queue[0].due > now {
        return;
      }
      hand := Some(queue[0]);
      queue := queue[1..];
      log := log + [Tried(hand.value.transport, now)];
    }

    method Finish(a: Attempt, outcome: Outcome, now: Time)
      modifies this
      ensures View(None, false, now) == Next(old(View(Some(a), false, now)), Reconnected(outcome))
    {
      match outcome
      case Retry =>
        if a.left == 0 {
          log := log + [Removed(a.transport)];
          return;
        }
        queue := Emplace(queue, Attempt(a.transport, now + RETRY_DELAY, a.left - 1));
      case Success => log := log + [Registered(a.transport)];
      case Abort => log := log + [Removed(a.transport)];
    }

    /** The end of Stop(), after the thread is gone. */
    method DrainQueue(now: Time)
      modifies this
      ensures View(None, true, now) == Next(old(View(None, true, now)), Drain)
    {
      ghost var was, before := queue, log;
      while queue != []
        invariant running == old(running)
        invariant log + RemoveAll(queue) == before + RemoveAll(was)
        decreases |queue|
      {
        log := log + [Removed(queue[0].transport)];
        queue := queue[1..];
      }
    }
  }
}
