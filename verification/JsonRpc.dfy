/** The JSON-RPC session: every request is settled once, by the first event that concerns it. */
module JsonRpc {
  import opened Text

  // ----- Messages and outcomes

  type Value = string

  /** Section 5 of the JSON-RPC 2.0 specification: a response has an id and a result or an error. */
  datatype Message = Message(id: MessageId, result: Option<Value>, error: Option<Value>)

  /** What `Number` makes of a message's id: absent, an integer, or something no request can have. */
  datatype MessageId = Absent | Integer(number: int) | NotAnInteger

  datatype Outcome =
    | Answered(result: Value)
    | Rejected(error: Value)
    | TimedOut
    | NotSent
    | PeerGone
    | ClosedByCaller

  datatype Settlement = Settlement(id: nat, outcome: Outcome)

  predicate IsResponse(m: Message) {
    m.id != Absent && (m.result.Some? || m.error.Some?)
  }

  function AnswerOf(m: Message): Outcome
    requires IsResponse(m)
  {
    if m.error.Some? then Rejected(m.error.value) else Answered(m.result.value)
  }

  // ----- One step of the session

  datatype Event =
    | Request(method_: string)
    | Receive(message: Message)
    | TimerFires(id: nat)
    | WriteFails(id: nat)
    | PeerCloses
    | CallerCloses

  /**
   * `pending` maps the ids of open requests to their methods, `armed` are the requests whose timer
   * runs, `sent` the ids written, `settled` what callers have been told, `exits` the exits reported.
   */
  datatype Session = Session(
    pending: map<nat, string>,
    nextId: nat,
    closed: bool,
    closeReported: bool,
    armed: set<nat>,
    sent: seq<nat>,
    settled: seq<Settlement>,
    exits: nat)

  const FRESH := Session(map[], 1, false, false, {}, [], [], 0)

  /** A request leaves the pending ones and its caller is told. */
  function Settle(s: Session, id: nat, outcome: Outcome): Session {
    s.(pending := s.pending - {id}, armed := s.armed - {id}, settled := s.settled + [Settlement(id, outcome)])
  }

  /** Tells all requests below `end` that are pending, in the order of their ids. */
  function Drained(pending: map<nat, string>, end: nat, outcome: Outcome): seq<Settlement> {
    if end == 0 then []
    else Drained(pending, end - 1, outcome) + if end - 1 in pending then [Settlement(end - 1, outcome)] else []
  }

  function SettleAll(s: Session, outcome: Outcome): Session {
    s.(pending := map[], armed := {}, settled := s.settled + Drained(s.pending, s.nextId, outcome))
  }

  /** Timers only fire while they are armed; everything else may happen at any time. */
  predicate Enabled(s: Session, e: Event) {
    e.TimerFires? ==> e.id in s.armed
  }

  function Next(s: Session, e: Event): Session {
    match e
    case Request(method_) =>
      if s.closed then s
      else s.(nextId := s.nextId + 1, pending := s.pending[s.nextId := method_], armed := s.armed + {s.nextId},
          sent := s.sent + [s.nextId])
    case Receive(m) =>
      if IsResponse(m) && m.id.Integer? && m.id.number in s.pending then Settle(s, m.id.number, AnswerOf(m)) else s
    case TimerFires(id) => Settle(s, id, TimedOut)
    case WriteFails(id) => if id in s.pending then Settle(s, id, NotSent) else s
    case PeerCloses =>
      if s.closed then s
      else
        var r := SettleAll(s.(closed := true), PeerGone);
        if s.closeReported then r else r.(closeReported := true, exits := s.exits + 1)
    case CallerCloses =>
      if s.closed then s else SettleAll(s.(closed := true, closeReported := true), ClosedByCaller)
  }

  predicate AllEnabled(s: Session, events: seq<Event>, i: nat := 0)
    requires i <= |events|
    decreases |events| - i
  {
    i == |events| || (Enabled(s, events[i]) && AllEnabled(Next(s, events[i]), events, i + 1))
  }

  /** The session after the events from the i-th on. */
  function After(s: Session, events: seq<Event>, i: nat := 0): Session
    requires i <= |events|
    decreases |events| - i
  {
    if i == |events| then s else After(Next(s, events[i]), events, i + 1)
  }

  // ----- What holds throughout

  /** What the caller of a request has been told, in order. */
  function OutcomesOf(settled: seq<Settlement>, id: nat): seq<Outcome> {
    if settled == [] then []
    else
      var last := settled[|settled| - 1];
      OutcomesOf(settled[..|settled| - 1], id) + (if last.id == id then [last.outcome] else [])
  }

  /**
   * Ids count up and are never reused; every issued request either is pending, with its timer
   * armed, or has been told exactly one outcome; after closing nothing is pending.
   */
  ghost predicate Valid(s: Session) {
    && s.nextId == |s.sent| + 1
    && (forall k :: 0 <= k < |s.sent| ==> s.sent[k] == k + 1)
    && s.armed == s.pending.Keys
    && (forall id: nat :: Accounted(s, id))
    && (s.closed ==> s.pending == map[])
    && s.closeReported == s.closed && s.exits <= 1 && (!s.closed ==> s.exits == 0)
  }

  predicate Accounted(s: Session, id: nat) {
    && |OutcomesOf(s.settled, id)| == (if 1 <= id < s.nextId && id !in s.pending then 1 else 0)
    && (id in s.pending ==> 1 <= id < s.nextId)
  }

  lemma OutcomesSnoc(settled: seq<Settlement>, x: Settlement, id: nat)
    ensures OutcomesOf(settled + [x], id) == OutcomesOf(settled, id) + (if x.id == id then [x.outcome] else [])
  {
    assert (settled + [x])[..|settled|] == settled;
  }

  lemma {:induction false} OutcomesJoin(a: seq<Settlement>, b: seq<Settlement>, id: nat)
    ensures OutcomesOf(a + b, id) == OutcomesOf(a, id) + OutcomesOf(b, id)
    decreases |b|
  {
    if b == [] {
      assert a + b == a;
    } else {
      var front, last := b[..|b| - 1], b[|b| - 1];
      OutcomesJoin(a, front, id);
      OutcomesSnoc(a + front, last, id);
      assert a + front + [last] == a + b;
    }
  }

  lemma {:induction false} OutcomesDrained(pending: map<nat, string>, end: nat, outcome: Outcome, id: nat)
    ensures OutcomesOf(Drained(pending, end, outcome), id) == if id in pending && id < end then [outcome] else []
  {
    if end > 0 {
      var front := Drained(pending, end - 1, outcome);
      OutcomesDrained(pending, end - 1, outcome, id);
      if end - 1 in pending {
        OutcomesSnoc(front, Settlement(end - 1, outcome), id);
      } else {
        assert front + [] == front;
      }
    }
  }

  lemma SettleTells(s: Session, id: nat, outcome: Outcome, other: nat)
    ensures OutcomesOf(Settle(s, id, outcome).settled, other)
         == OutcomesOf(s.settled, other) + (if other == id then [outcome] else [])
  {
    OutcomesSnoc(s.settled, Settlement(id, outcome), other);
  }

  lemma SettleAllTells(s: Session, outcome: Outcome, other: nat)
    requires Accounted(s, other)
    ensures OutcomesOf(SettleAll(s, outcome).settled, other)
         == OutcomesOf(s.settled, other) + (if other in s.pending then [outcome] else [])
  {
    OutcomesDrained(s.pending, s.nextId, outcome, other);
    OutcomesJoin(s.settled, Drained(s.pending, s.nextId, outcome), other);
  }

  // ----- Which event settles a request

  /** The event ends the request, if it is still waiting. */
  predicate Concerns(e: Event, id: nat) {
    match e
    case Request(_) => false
    case Receive(m) => IsResponse(m) && m.id == Integer(id)
    case TimerFires(other) => other == id
    case WriteFails(other) => other == id
    case PeerCloses => true
    case CallerCloses => true
  }

  function OutcomeOf(e: Event, id: nat): Outcome
    requires Concerns(e, id)
  {
    match e
    case Receive(m) => AnswerOf(m)
    case TimerFires(_) => TimedOut
    case WriteFails(_) => NotSent
    case PeerCloses => PeerGone
    case CallerCloses => ClosedByCaller
  }

  /** The outcome the first concerning event from the i-th on has for the request, if there is one. */
  function Fate(events: seq<Event>, i: nat, id: nat): seq<Outcome>
    requires i <= |events|
    decreases |events| - i
  {
    if i == |events| then []
    else if Concerns(events[i], id) then [OutcomeOf(events[i], id)]
    else Fate(events, i + 1, id)
  }

  predicate Closing(e: Event) {
    e.PeerCloses? || e.CallerCloses?
  }

  predicate Issues(s: Session, e: Event, id: nat) {
    e.Request? && !s.closed && id == s.nextId
  }

  /** The event tells the request's caller its outcome if it concerns the request, and nothing otherwise. */
  predicate TellsExactly(s: Session, e: Event, id: nat) {
    var t := Next(s, e);
    && OutcomesOf(t.settled, id)
       == OutcomesOf(s.settled, id) + (if id in s.pending && Concerns(e, id) then [OutcomeOf(e, id)] else [])
    && (id in t.pending <==> (id in s.pending && !Concerns(e, id)) || Issues(s, e, id))
  }

  lemma QuietTells(s: Session, e: Event, id: nat)
    requires Next(s, e).settled == s.settled && !(id in s.pending && Concerns(e, id))
    requires id in Next(s, e).pending <==> (id in s.pending && !Concerns(e, id)) || Issues(s, e, id)
    ensures TellsExactly(s, e, id)
  {
    assert OutcomesOf(s.settled, id) + [] == OutcomesOf(s.settled, id);
  }

  lemma SettlingTells(s: Session, e: Event, other: nat, outcome: Outcome, id: nat)
    requires Next(s, e) == Settle(s, other, outcome) && other in s.pending && !e.Request?
    requires (id == other <==> Concerns(e, id)) && (id == other ==> OutcomeOf(e, id) == outcome)
    ensures TellsExactly(s, e, id)
  {
    SettleTells(s, other, outcome, id);
  }

  lemma ReceiveTells(s: Session, m: Message, id: nat)
    ensures TellsExactly(s, Receive(m), id)
  {
    if IsResponse(m) && m.id.Integer? && m.id.number in s.pending {
      SettlingTells(s, Receive(m), m.id.number, AnswerOf(m), id);
    } else {
      QuietTells(s, Receive(m), id);
    }
  }

  lemma TimerTells(s: Session, other: nat, id: nat)
    requires other in s.pending
    ensures TellsExactly(s, TimerFires(other), id)
  {
    SettlingTells(s, TimerFires(other), other, TimedOut, id);
  }

  lemma WriteTells(s: Session, other: nat, id: nat)
    ensures TellsExactly(s, WriteFails(other), id)
  {
    if other in s.pending {
      SettlingTells(s, WriteFails(other), other, NotSent, id);
    } else {
      QuietTells(s, WriteFails(other), id);
    }
  }

  lemma ClosingTells(s: Session, e: Event, id: nat)
    requires Accounted(s, id) && Closing(e) && (s.closed ==> s.pending == map[])
    ensures TellsExactly(s, e, id)
  {
    if s.closed {
      QuietTells(s, e, id);
    } else {
      SettleAllTells(s, OutcomeOf(e, id), id);
    }
  }

  /** One event tells a caller something exactly when it concerns the caller's pending request. */
  lemma StepTells(s: Session, e: Event, id: nat)
    requires Valid(s) && Enabled(s, e)
    ensures OutcomesOf(Next(s, e).settled, id)
         == OutcomesOf(s.settled, id) + (if id in s.pending && Concerns(e, id) then [OutcomeOf(e, id)] else [])
    ensures id in Next(s, e).pending <==> (id in s.pending && !Concerns(e, id)) || Issues(s, e, id)
    ensures TellsExactly(s, e, id)
  {
    assert Accounted(s, id);
    match e {
      case Request(_) => QuietTells(s, e, id);
      case Receive(m) => ReceiveTells(s, m, id);
      case TimerFires(other) => TimerTells(s, other, id);
      case WriteFails(other) => WriteTells(s, other, id);
      case PeerCloses => ClosingTells(s, e, id);
      case CallerCloses => ClosingTells(s, e, id);
    }
    assert TellsExactly(s, e, id);
  }

  lemma StepAccounts(s: Session, e: Event, id: nat)
    requires Accounted(s, id) && TellsExactly(s, e, id) && s.nextId >= 1
    ensures Accounted(Next(s, e), id)
  {
  }

  lemma StepValid(s: Session, e: Event)
    requires Valid(s) && Enabled(s, e)
    ensures Valid(Next(s, e))
  {
    forall id: nat ensures Accounted(Next(s, e), id) {
      StepTells(s, e, id);
      assert Accounted(s, id);
      StepAccounts(s, e, id);
    }
  }

  /** Every interleaving keeps the session valid, so no request is told twice and no id is reused. */
  lemma {:induction false} RunValid(s: Session, events: seq<Event>, i: nat)
    requires i <= |events| && Valid(s) && AllEnabled(s, events, i)
    ensures Valid(After(s, events, i))
    decreases |events| - i
  {
    if i < |events| {
      StepValid(s, events[i]);
      RunValid(Next(s, events[i]), events, i + 1);
    }
  }

  lemma JoinTold<T>(before: seq<T>, after: seq<T>, one: seq<T>, more: seq<T>, waits: bool, ends: bool)
    requires after == before + if waits && ends then one else []
    ensures after + (if waits && !ends then more else []) == before + if !waits then [] else if ends then one else more
  {
    assert before + [] == before && after + [] == after;
  }

  /** What a caller is told in the end, in terms of the first event and of what the others come to. */
  lemma FirstTells(s: Session, e: Event, id: nat, more: seq<Outcome>)
    requires TellsExactly(s, e, id) && id < s.nextId
    ensures OutcomesOf(Next(s, e).settled, id) + (if id in Next(s, e).pending then more else [])
         == OutcomesOf(s.settled, id)
            + (if id !in s.pending then [] else if Concerns(e, id) then [OutcomeOf(e, id)] else more)
  {
    JoinTold(OutcomesOf(s.settled, id), OutcomesOf(Next(s, e).settled, id),
             if Concerns(e, id) then [OutcomeOf(e, id)] else [], more, id in s.pending, Concerns(e, id));
  }

  lemma {:induction false} RunTells(s: Session, events: seq<Event>, i: nat, id: nat)
    requires i <= |events| && Valid(s) && AllEnabled(s, events, i) && id < s.nextId
    ensures OutcomesOf(After(s, events, i).settled, id)
         == OutcomesOf(s.settled, id) + (if id in s.pending then Fate(events, i, id) else [])
    decreases |events| - i
  {
    if i < |events| {
      StepValid(s, events[i]);
      StepTells(s, events[i], id);
      RunTells(Next(s, events[i]), events, i + 1, id);
      FirstTells(s, events[i], id, Fate(events, i + 1, id));
    }
  }

  function Requests(events: seq<Event>, n: nat): nat
    requires n <= |events|
  {
    if n == 0 then 0 else Requests(events, n - 1) + if events[n - 1].Request? then 1 else 0
  }

  predicate OpenUntil(events: seq<Event>, n: nat)
    requires n <= |events|
  {
    forall k :: 0 <= k < n ==> !Closing(events[k])
  }

  /** While nobody closes, every request is issued with the next id. */
  lemma {:induction false} OpenRun(s: Session, events: seq<Event>, i: nat, j: nat) returns (t: Session)
    requires i <= j <= |events| && OpenUntil(events, j) && AllEnabled(s, events, i) && Valid(s) && !s.closed
    ensures Valid(t) && !t.closed && AllEnabled(t, events, j) && After(s, events, i) == After(t, events, j)
    ensures t.nextId == s.nextId + Requests(events, j) - Requests(events, i)
    decreases j - i
  {
    if i == j {
      t := s;
    } else {
      StepValid(s, events[i]);
      RequestsStep(events, i);
      t := OpenRun(Next(s, events[i]), events, i + 1, j);
    }
  }

  lemma RequestsStep(events: seq<Event>, i: nat)
    requires i < |events|
    ensures Requests(events, i + 1) == Requests(events, i) + if events[i].Request? then 1 else 0
  {
  }

  lemma FreshValid()
    ensures Valid(FRESH)
  {
    forall id: nat ensures Accounted(FRESH, id) {
    }
  }

  lemma IssuedTells(s: Session, events: seq<Event>, j: nat)
    requires Valid(s) && !s.closed && j < |events| && events[j].Request? && AllEnabled(s, events, j)
    ensures OutcomesOf(After(s, events, j).settled, s.nextId) == Fate(events, j + 1, s.nextId)
  {
    var t := Next(s, events[j]);
    assert Accounted(s, s.nextId);
    StepValid(s, events[j]);
    RunTells(t, events, j + 1, s.nextId);
  }

  /**
   * Exactly once, and only with its own answer: in every interleaving the caller of a request that
   * was issued is told the outcome of the first event that concerns it, and nothing else, ever.
   */
  lemma SettledByFirstConcern(events: seq<Event>, j: nat)
    requires AllEnabled(FRESH, events) && j < |events| && events[j].Request? && OpenUntil(events, j)
    ensures var id := 1 + Requests(events, j);
            OutcomesOf(After(FRESH, events).settled, id) == Fate(events, j + 1, id)
  {
    FreshValid();
    var t := OpenRun(FRESH, events, 0, j);
    IssuedTells(t, events, j);
  }

  // ----- What callers are told

  /** The event ends the request with this outcome: an error rejects, whether or not there is a result too. */
  predicate Brings(e: Event, id: nat, outcome: Outcome) {
    || (e == TimerFires(id) && outcome == TimedOut)
    || (e == WriteFails(id) && outcome == NotSent)
    || (e == PeerCloses && outcome == PeerGone)
    || (e == CallerCloses && outcome == ClosedByCaller)
    || (e.Receive? && e.message.id == Integer(id) && e.message.error.Some?
        && outcome == Rejected(e.message.error.value))
    || (e.Receive? && e.message.id == Integer(id) && e.message.error.None? && e.message.result.Some?
        && outcome == Answered(e.message.result.value))
  }

  /** The event says nothing about the request: an unrelated one, or a message without result and error. */
  predicate LeavesAlone(e: Event, id: nat) {
    match e
    case Request(_) => true
    case Receive(m) => m.id != Integer(id) || (m.result.None? && m.error.None?)
    case TimerFires(other) => other != id
    case WriteFails(other) => other != id
    case PeerCloses => false
    case CallerCloses => false
  }

  /** Nothing from the i-th to before the k-th event is about the request. */
  predicate NoneConcerns(events: seq<Event>, i: nat, k: nat, id: nat) {
    forall l :: i <= l < k && l < |events| ==> LeavesAlone(events[l], id)
  }

  lemma {:induction false} FateBrought(events: seq<Event>, i: nat, k: nat, id: nat, outcome: Outcome)
    requires i <= k < |events| && Brings(events[k], id, outcome) && NoneConcerns(events, i, k, id)
    ensures Fate(events, i, id) == [outcome]
    decreases k - i
  {
    if i < k {
      FateBrought(events, i + 1, k, id, outcome);
    }
  }

  lemma {:induction false} FateOpen(events: seq<Event>, i: nat, id: nat)
    requires i <= |events| && NoneConcerns(events, i, |events|, id)
    ensures Fate(events, i, id) == []
    decreases |events| - i
  {
    if i < |events| {
      FateOpen(events, i + 1, id);
    }
  }

  lemma FateIsTold(events: seq<Event>, j: nat, outcomes: seq<Outcome>)
    requires AllEnabled(FRESH, events) && j < |events| && events[j].Request? && OpenUntil(events, j)
    requires Fate(events, j + 1, 1 + Requests(events, j)) == outcomes
    ensures OutcomesOf(After(FRESH, events).settled, 1 + Requests(events, j)) == outcomes
  {
    SettledByFirstConcern(events, j);
  }

  /**
   * In every interleaving: if nothing before the k-th event concerned the request, and that one brings an
   * error, a result, its timeout, a failed write or the end of the session, then that is what its caller is
   * told, once.
   */
  lemma ToldWhatItBrings(events: seq<Event>, j: nat, k: nat, outcome: Outcome)
    requires AllEnabled(FRESH, events) && j < k < |events| && events[j].Request? && OpenUntil(events, j)
    requires Brings(events[k], 1 + Requests(events, j), outcome)
    requires NoneConcerns(events, j + 1, k, 1 + Requests(events, j))
    ensures OutcomesOf(After(FRESH, events).settled, 1 + Requests(events, j)) == [outcome]
  {
    FateBrought(events, j + 1, k, 1 + Requests(events, j), outcome);
    FateIsTold(events, j, [outcome]);
  }

  /** And a request that no event concerns is told nothing. */
  lemma ToldNothingElse(events: seq<Event>, j: nat)
    requires AllEnabled(FRESH, events) && j < |events| && events[j].Request? && OpenUntil(events, j)
    requires NoneConcerns(events, j + 1, |events|, 1 + Requests(events, j))
    ensures OutcomesOf(After(FRESH, events).settled, 1 + Requests(events, j)) == []
  {
    FateOpen(events, j + 1, 1 + Requests(events, j));
    FateIsTold(events, j, []);
  }

  // ----- Closing

  /** A closed session never changes again: nothing is issued, told or reported. */
  lemma {:induction false} ClosedForGood(s: Session, events: seq<Event>, i: nat)
    requires i <= |events| && Valid(s) && s.closed && AllEnabled(s, events, i)
    ensures After(s, events, i) == s
    decreases |events| - i
  {
    if i < |events| {
      ClosedForGood(Next(s, events[i]), events, i + 1);
    }
  }

  /** Whether the first closing event from the i-th on is the peer's. */
  predicate PeerFirst(events: seq<Event>, i: nat)
    requires i <= |events|
    decreases |events| - i
  {
    i < |events| && (events[i].PeerCloses? || (!events[i].CallerCloses? && PeerFirst(events, i + 1)))
  }

  lemma {:induction false} ExitReportedFrom(s: Session, events: seq<Event>, i: nat)
    requires i <= |events| && Valid(s) && !s.closed && AllEnabled(s, events, i)
    ensures After(s, events, i).exits == if PeerFirst(events, i) then 1 else 0
    decreases |events| - i
  {
    if i < |events| {
      var t := Next(s, events[i]);
      StepValid(s, events[i]);
      if Closing(events[i]) {
        ClosedForGood(t, events, i + 1);
      } else {
        ExitReportedFrom(t, events, i + 1);
      }
    }
  }

  /** The exit is reported once if the peer closed first, and never if the caller did or nobody has. */
  lemma ExitReported(events: seq<Event>)
    requires AllEnabled(FRESH, events)
    ensures After(FRESH, events).exits == if PeerFirst(events, 0) then 1 else 0
  {
    FreshValid();
    ExitReportedFrom(FRESH, events, 0);
  }

  // ----- The session object

  /** The fields of the session, and what it has written, told its callers and reported. */
  class JsonRpcSession {
    var pending: map<nat, string>
    var nextId: nat
    var closed: bool
    var closeReported: bool
    var armed: set<nat>
    var sent: seq<nat>
    var settled: seq<Settlement>
    var exits: nat

    ghost function State(): Session
      reads this
    {
      Session(pending, nextId, closed, closeReported, armed, sent, settled, exits)
    }

    constructor ()
      ensures State() == FRESH
    {
      pending, nextId, closed, closeReported := map[], 1, false, false;
      armed, sent, settled, exits := {}, [], [], 0;
    }

    method Request(method_: string) returns (id: Option<nat>)
      modifies this
      ensures State() == Next(old(State()), Event.Request(method_))
      ensures id == if old(closed) then None else Some(old(nextId))
    {
      if closed {
        return None;
      }
      id := Some(nextId);
      nextId := nextId + 1;
      armed := armed + {id.value};
      pending := pending[id.value := method_];
      sent := sent + [id.value];
    }

    method Tell(id: nat, outcome: Outcome)
      modifies this`settled
      ensures settled == old(settled) + [Settlement(id, outcome)]
    {
      settled := settled + [Settlement(id, outcome)];
    }

    method Route(message: Message)
      modifies this
      ensures State() == Next(old(State()), Receive(message))
      ensures var waits := message.id.Integer? && message.id.number in old(pending);
              && (waits && message.error.Some? ==>
                    settled == old(settled) + [Settlement(message.id.number, Rejected(message.error.value))])
              && (waits && message.error.None? && message.result.Some? ==>
                    settled == old(settled) + [Settlement(message.id.number, Answered(message.result.value))])
              && (if waits && (message.error.Some? || message.result.Some?)
                  then pending == old(pending) - {message.id.number}
                  else State() == old(State()))
    {
      if message.id.Absent? || (message.result.None? && message.error.None?) {
        return;
      }
      if !message.id.Integer? || message.id.number !in pending {
        return;
      }
      var id: nat := message.id.number;
      pending := pending - {id};
      armed := armed - {id};
      if message.error.Some? {
        Tell(id, Rejected(message.error.value));
      } else {
        Tell(id, Answered(message.result.value));
      }
    }

    method OnTimer(id: nat)
      requires id in armed
      modifies this
      ensures State() == Next(old(State()), TimerFires(id))
      ensures settled == old(settled) + [Settlement(id, TimedOut)] && pending == old(pending) - {id}
    {
      armed := armed - {id};
      pending := pending - {id};
      Tell(id, TimedOut);
    }

    method OnWriteFailed(id: nat)
      modifies this
      ensures State() == Next(old(State()), WriteFails(id))
      ensures settled == old(settled) + if id in old(pending) then [Settlement(id, NotSent)] else []
    {
      if id !in pending {
        return;
      }
      pending := pending - {id};
      armed := armed - {id};
      Tell(id, NotSent);
    }

    /** Tells everybody who is waiting, in the order in which they started to. */
    method Drain(outcome: Outcome)
      requires armed == pending.Keys && forall id :: id in pending ==> id < nextId
      modifies this`pending, this`armed, this`settled
      ensures State() == SettleAll(old(State()), outcome)
    {
      var id := 0;
      while id < nextId
        invariant id <= nextId
        invariant pending == old(pending)
        invariant armed == old(armed) - (set x | x in pending && x < id)
        invariant settled == old(settled) + Drained(pending, id, outcome)
      {
        if id in pending {
          armed := armed - {id};
          Tell(id, outcome);
        }
        id := id + 1;
      }
      pending := map[];
    }

    method HandleClose()
      requires Valid(State())
      modifies this
      ensures State() == Next(old(State()), PeerCloses)
    {
      if closed {
        return;
      }
      assert forall id :: id in pending ==> Accounted(State(), id);
      closed := true;
      Drain(PeerGone);
      if !closeReported {
        closeReported := true;
        exits := exits + 1;
      }
    }

    method Close()
      requires Valid(State())
      modifies this
      ensures State() == Next(old(State()), CallerCloses)
    {
      if closed {
        return;
      }
      assert forall id :: id in pending ==> Accounted(State(), id);
      closed := true;
      closeReported := true;
      Drain(ClosedByCaller);
    }
  }
}
