/** The approval registry: a tracked request is decided once, and late answers never flip a decision. */
module Approval {
  import opened Text

  datatype Request = Request(sessionId: string, toolCallId: string, toolName: string, permissionLevel: string)

  datatype Outcome = Resolved(approved: bool) | AlreadySettled(approved: bool) | UnknownRequest

  function KeyFor(sessionId: string, toolCallId: string): string {
    sessionId + "::" + toolCallId
  }

  function Prefix(sessionId: string): string {
    sessionId + "::"
  }

  /** The registry as a value: open requests and decisions. */
  datatype State = State(pending: map<string, Request>, settled: map<string, bool>)

  const EMPTY := State(map[], map[])

  // ----- The operations on the state

  function Tracked(s: State, r: Request): State {
    var key := KeyFor(r.sessionId, r.toolCallId);
    if key in s.pending then s else State(s.pending[key := r], s.settled - {key})
  }

  function Answer(s: State, key: string, approved: bool): Outcome {
    if key in s.pending then Resolved(approved)
    else if key in s.settled then AlreadySettled(s.settled[key])
    else UnknownRequest
  }

  function Answered(s: State, key: string, approved: bool): State {
    if key in s.pending then State(s.pending - {key}, s.settled[key := approved]) else s
  }

  function Abandoned(s: State, sessionId: string): set<string> {
    set key | key in s.pending && StartsWith(key, Prefix(sessionId))
  }

  function Forgotten(s: State, sessionId: string): State {
    var keys := Abandoned(s, sessionId);
    State(s.pending - keys, Denied(s.settled, keys))
  }

  function Denied(settled: map<string, bool>, keys: set<string>): map<string, bool> {
    map key | key in settled.Keys + keys :: if key in keys then false else settled[key]
  }

  /** The session is forgotten except for what is at the keys still to be looked at. */
  ghost function ForgottenBut(s: State, sessionId: string, keys: set<string>): State {
    var gone := Abandoned(s, sessionId) - keys;
    State(s.pending - gone, Denied(s.settled, gone))
  }

  function DeniedAt(s: State, key: string): State {
    State(s.pending - {key}, s.settled[key := false])
  }

  lemma AllForgotten(s: State, sessionId: string)
    ensures ForgottenBut(s, sessionId, {}) == Forgotten(s, sessionId)
  {
    assert Abandoned(s, sessionId) - {} == Abandoned(s, sessionId);
  }

  lemma NothingForgotten(s: State, sessionId: string)
    ensures ForgottenBut(s, sessionId, s.pending.Keys) == s
  {
    var gone := Abandoned(s, sessionId) - s.pending.Keys;
    assert gone == {};
    assert s.pending - gone == s.pending;
    assert Denied(s.settled, gone) == s.settled;
  }

  lemma OneMoreForgotten(s: State, sessionId: string, keys: set<string>, key: string)
    requires key in keys && keys <= s.pending.Keys
    ensures var t := ForgottenBut(s, sessionId, keys);
            ForgottenBut(s, sessionId, keys - {key})
            == if StartsWith(key, Prefix(sessionId)) then DeniedAt(t, key) else t
  {
    var gone, gone1 := Abandoned(s, sessionId) - keys, Abandoned(s, sessionId) - (keys - {key});
    if StartsWith(key, Prefix(sessionId)) {
      assert gone1 == gone + {key};
      assert s.pending - gone1 == s.pending - gone - {key};
      assert Denied(s.settled, gone1) == Denied(s.settled, gone)[key := false];
    } else {
      assert gone1 == gone;
    }
  }

  // ----- The registry object

  class ApprovalRegistry {
    var pending: map<string, Request>
    var settled: map<string, bool>

    ghost function View(): State
      reads this
    {
      State(pending, settled)
    }

    constructor ()
      ensures View() == EMPTY
    {
      pending, settled := map[], map[];
    }

    method Track(r: Request) returns (tracked: bool)
      modifies this
      ensures View() == Tracked(old(View()), r)
      ensures tracked == (KeyFor(r.sessionId, r.toolCallId) !in old(pending))
    {
      var key := KeyFor(r.sessionId, r.toolCallId);
      if key in pending {
        return false;
      }
      pending := pending[key := r];
      settled := settled - {key};
      return true;
    }

    method Resolve(sessionId: string, toolCallId: string, approved: bool) returns (outcome: Outcome)
      modifies this
      ensures View() == Answered(old(View()), KeyFor(sessionId, toolCallId), approved)
      ensures outcome == Answer(old(View()), KeyFor(sessionId, toolCallId), approved)
      ensures var key := KeyFor(sessionId, toolCallId);
              if key in old(pending) then
                && pending == old(pending) - {key} && settled == old(settled)[key := approved]
                && outcome == Resolved(approved)
              else
                && pending == old(pending) && settled == old(settled)
                && outcome == if key in settled then AlreadySettled(settled[key]) else UnknownRequest
    {
      var key := KeyFor(sessionId, toolCallId);
      if key !in pending {
        if key in settled {
          return AlreadySettled(settled[key]);
        }
        return UnknownRequest;
      }
      pending := pending - {key};
      settled := settled[key := approved];
      return Resolved(approved);
    }

    /** An unanswered request is a denial. */
    method Deny(key: string)
      modifies this
      ensures View() == DeniedAt(old(View()), key)
    {
      pending := pending - {key};
      settled := settled[key := false];
    }

    /** Abandons everything that waits for the session. */
    method ForgetSession(sessionId: string)
      modifies this
      ensures View() == Forgotten(old(View()), sessionId)
    {
      var prefix := Prefix(sessionId);
      var keys := pending.Keys;
      ghost var s := View();
      NothingForgotten(s, sessionId);
      while keys != {}
        invariant keys <= s.pending.Keys
        invariant View() == ForgottenBut(s, sessionId, keys)
        decreases |keys|
      {
        var key :| key in keys;
        OneMoreForgotten(s, sessionId, keys, key);
        keys := keys - {key};
        if StartsWith(key, prefix) {
          Deny(key);
        }
      }
      AllForgotten(s, sessionId);
    }

    method Clear()
      modifies this
      ensures View() == EMPTY
    {
      pending, settled := map[], map[];
    }

    method IsPending(sessionId: string, toolCallId: string) returns (found: bool)
      ensures found == (KeyFor(sessionId, toolCallId) in pending)
    {
      return KeyFor(sessionId, toolCallId) in pending;
    }
  }

  // ----- Runs

  datatype Step =
    | Track(request: Request)
    | Resolve(sessionId: string, toolCallId: string, approved: bool)
    | ForgetSession(sessionId: string)
    | Clear

  function Next(s: State, step: Step): State {
    match step
    case Track(request) => Tracked(s, request)
    case Resolve(sessionId, toolCallId, approved) => Answered(s, KeyFor(sessionId, toolCallId), approved)
    case ForgetSession(sessionId) => Forgotten(s, sessionId)
    case Clear => EMPTY
  }

  function After(s: State, steps: seq<Step>, i: nat := 0): State
    requires i <= |steps|
    decreases |steps| - i
  {
    if i == |steps| then s else After(Next(s, steps[i]), steps, i + 1)
  }

  predicate Disjoint(s: State) {
    s.pending.Keys !! s.settled.Keys
  }

  /** In every run no request is both open and decided. */
  lemma {:induction false} RunsStayDisjoint(s: State, steps: seq<Step>, i: nat)
    requires i <= |steps| && Disjoint(s)
    ensures Disjoint(After(s, steps, i))
    decreases |steps| - i
  {
    if i < |steps| {
      RunsStayDisjoint(Next(s, steps[i]), steps, i + 1);
    }
  }

  // ----- Every tracking ends once

  /** The step opens the request. */
  predicate Opens(s: State, step: Step, key: string) {
    step.Track? && KeyFor(step.request.sessionId, step.request.toolCallId) == key && key !in s.pending
  }

  /** The step is an answer that is reported as the one that decided. */
  predicate Decides(s: State, step: Step, key: string) {
    step.Resolve? && KeyFor(step.sessionId, step.toolCallId) == key &&
        Answer(s, key, step.approved) == Resolved(step.approved)
  }

  predicate Abandons(s: State, step: Step, key: string) {
    key in s.pending && (step.Clear? || (step.ForgetSession? && StartsWith(key, Prefix(step.sessionId))))
  }

  function Count(b: bool): nat {
    if b then 1 else 0
  }

  function TimesOpened(s: State, steps: seq<Step>, i: nat, key: string): nat
    requires i <= |steps|
    decreases |steps| - i
  {
    if i == |steps| then 0 else Count(Opens(s, steps[i], key)) + TimesOpened(Next(s, steps[i]), steps, i + 1, key)
  }

  function TimesDecided(s: State, steps: seq<Step>, i: nat, key: string): nat
    requires i <= |steps|
    decreases |steps| - i
  {
    if i == |steps| then 0 else Count(Decides(s, steps[i], key)) + TimesDecided(Next(s, steps[i]), steps, i + 1, key)
  }

  function TimesAbandoned(s: State, steps: seq<Step>, i: nat, key: string): nat
    requires i <= |steps|
    decreases |steps| - i
  {
    if i == |steps| then 0 else Count(Abandons(s, steps[i], key)) + TimesAbandoned(Next(s, steps[i]), steps, i + 1, key)
  }

  lemma StepAccounts(s: State, step: Step, key: string)
    ensures Count(key in s.pending) + Count(Opens(s, step, key))
         == Count(Decides(s, step, key)) + Count(Abandons(s, step, key)) + Count(key in Next(s, step).pending)
  {
  }

  /** Each time a request is opened it is decided once, or abandoned once, or still open, and nothing more. */
  lemma {:induction false} EveryOpeningEndsOnce(s: State, steps: seq<Step>, i: nat, key: string)
    requires i <= |steps|
    ensures Count(key in s.pending) + TimesOpened(s, steps, i, key)
         == TimesDecided(s, steps, i, key) + TimesAbandoned(s, steps, i, key) + Count(key in After(s, steps, i).pending)
    decreases |steps| - i
  {
    if i < |steps| {
      StepAccounts(s, steps[i], key);
      EveryOpeningEndsOnce(Next(s, steps[i]), steps, i + 1, key);
    }
  }

  // ----- The first decision stands

  /** The step reopens the request or clears the registry. */
  predicate Resets(step: Step, key: string) {
    step.Clear? || (step.Track? && KeyFor(step.request.sessionId, step.request.toolCallId) == key)
  }

  predicate NeverReset(steps: seq<Step>, i: nat, key: string) {
    forall k :: i <= k < |steps| ==> !Resets(steps[k], key)
  }

  /** What the step would decide about the request if it is open. */
  function DecisionIn(step: Step, key: string): Option<bool> {
    match step
    case Resolve(sessionId, toolCallId, approved) =>
      if KeyFor(sessionId, toolCallId) == key then Some(approved) else None
    case ForgetSession(sessionId) => if StartsWith(key, Prefix(sessionId)) then Some(false) else None
    case _ => None
  }

  function FirstDecision(steps: seq<Step>, i: nat, key: string): Option<bool>
    requires i <= |steps|
    decreases |steps| - i
  {
    if i == |steps| then None
    else if DecisionIn(steps[i], key).Some? then DecisionIn(steps[i], key)
    else FirstDecision(steps, i + 1, key)
  }

  predicate Stands(s: State, key: string, decision: bool) {
    key !in s.pending && key in s.settled && s.settled[key] == decision
  }

  /** A decision does not change, and every later answer is told about it, until the request is tracked again. */
  lemma {:induction false} DecisionStands(s: State, steps: seq<Step>, i: nat, key: string, decision: bool)
    requires i <= |steps| && Stands(s, key, decision) && NeverReset(steps, i, key)
    ensures Stands(After(s, steps, i), key, decision)
    ensures forall approved :: Answer(After(s, steps, i), key, approved) == AlreadySettled(decision)
    decreases |steps| - i
  {
    if i < |steps| {
      DecisionStands(Next(s, steps[i]), steps, i + 1, key, decision);
    }
  }

  /** An open request gets the first answer there is, a denial if its session is forgotten first, and keeps it. */
  lemma {:induction false} FirstDecisionWins(s: State, steps: seq<Step>, i: nat, key: string)
    requires i <= |steps| && key in s.pending && NeverReset(steps, i, key)
    ensures match FirstDecision(steps, i, key)
            case None => key in After(s, steps, i).pending
            case Some(decision) => Stands(After(s, steps, i), key, decision)
    decreases |steps| - i
  {
    if i < |steps| {
      if DecisionIn(steps[i], key).Some? {
        DecisionStands(Next(s, steps[i]), steps, i + 1, key, DecisionIn(steps[i], key).value);
      } else {
        FirstDecisionWins(Next(s, steps[i]), steps, i + 1, key);
      }
    }
  }

  // ----- Unknown requests

  predicate TracksKey(step: Step, key: string) {
    step.Track? && KeyFor(step.request.sessionId, step.request.toolCallId) == key
  }

  predicate NeverCleared(steps: seq<Step>, i: nat) {
    forall k :: i <= k < |steps| ==> steps[k] != Clear
  }

  /** One of the steps from the i-th on tracks the request, and the registry is not cleared behind it. */
  predicate TrackedFrom(steps: seq<Step>, i: nat, key: string) {
    exists k :: i <= k < |steps| && TracksKey(steps[k], key) && NeverCleared(steps, k)
  }

  lemma {:induction false} KnownExactly(s: State, steps: seq<Step>, i: nat, key: string)
    requires i <= |steps|
    ensures var t := After(s, steps, i);
            key in t.pending || key in t.settled <==>
            TrackedFrom(steps, i, key) || ((key in s.pending || key in s.settled) && NeverCleared(steps, i))
    decreases |steps| - i
  {
    if i < |steps| {
      KnownExactly(Next(s, steps[i]), steps, i + 1, key);
      KnownStep(s, steps, i, key);
    }
  }

  lemma KnownStep(s: State, steps: seq<Step>, i: nat, key: string)
    requires i < |steps|
    ensures var n := Next(s, steps[i]);
            TrackedFrom(steps, i + 1, key) || ((key in n.pending || key in n.settled) && NeverCleared(steps, i + 1))
            <==>
            TrackedFrom(steps, i, key) || ((key in s.pending || key in s.settled) && NeverCleared(steps, i))
  {
    assert NeverCleared(steps, i) <==> steps[i] != Clear && NeverCleared(steps, i + 1);
    assert TrackedFrom(steps, i, key) <==>
           TrackedFrom(steps, i + 1, key) || (TracksKey(steps[i], key) && NeverCleared(steps, i));
  }

  /** After any run a request is unknown exactly if it was not tracked, or not since the registry was last cleared. */
  lemma UnknownExactly(steps: seq<Step>, sessionId: string, toolCallId: string, approved: bool)
    ensures var key := KeyFor(sessionId, toolCallId);
            Answer(After(EMPTY, steps), key, approved) == UnknownRequest <==> !TrackedFrom(steps, 0, key)
  {
    KnownExactly(EMPTY, steps, 0, KeyFor(sessionId, toolCallId));
  }

  // ----- Sessions do not interfere

  predicate NoColon(s: string) {
    ':' !in s
  }

  /** Without colons in the session ids, a key has a session's prefix only if it is the session's own. */
  lemma {:induction false} PrefixIsOwn(session: string, other: string, rest: string)
    requires NoColon(session) && NoColon(other)
    ensures StartsWith(session + "::" + rest, other + "::") <==> session == other
    decreases |session|
  {
    var key := session + "::" + rest;
    var prefix := other + "::";
    if session == "" || other == "" {
      StartsWithPrefix(key, prefix);
      if session != other {
        assert key[0] != prefix[0];
      }
    } else {
      PrefixIsOwn(session[1..], other[1..], rest);
      assert key[1..] == session[1..] + "::" + rest && prefix[1..] == other[1..] + "::";
      assert session == [session[0]] + session[1..] && other == [other[0]] + other[1..];
    }
  }

  /** Two session ids get in each other's way: joined with the separator, one is the beginning of the other. */
  predicate Clash(session: string, other: string) {
    session != other && (Prefix(session) <= Prefix(other) || Prefix(other) <= Prefix(session))
  }

  lemma KeyJoins(session: string, call: string)
    ensures KeyFor(session, call) == Prefix(session) + call
  {
    assert session + "::" + call == session + ("::" + call);
  }

  lemma PrefixesOfOne(a: string, b: string, whole: string)
    requires a <= whole && b <= whole
    ensures a <= b || b <= a
  {
    if |a| <= |b| {
      assert whole[..|a|] == a && whole[..|a|] == b[..|a|];
    } else {
      assert whole[..|b|] == b && whole[..|b|] == a[..|b|];
    }
  }

  /** Forgetting another session reaches some request of this one exactly when the two ids clash. */
  lemma ForgettingReaches(session: string, other: string)
    requires session != other
    ensures (exists call :: StartsWith(KeyFor(session, call), Prefix(other))) <==> Clash(session, other)
  {
    forall call ensures StartsWith(KeyFor(session, call), Prefix(other)) ==> Clash(session, other) {
      KeyJoins(session, call);
      StartsWithPrefix(KeyFor(session, call), Prefix(other));
      if StartsWith(KeyFor(session, call), Prefix(other)) {
        PrefixesOfOne(Prefix(session), Prefix(other), KeyFor(session, call));
      }
    }
    if Clash(session, other) {
      var call := if Prefix(other) <= Prefix(session) then "" else Prefix(other)[|Prefix(session)|..];
      KeyJoins(session, call);
      StartsWithPrefix(KeyFor(session, call), Prefix(other));
      assert StartsWith(KeyFor(session, call), Prefix(other));
    }
  }

  /** Some request of each has the same key exactly when the two ids clash. */
  lemma KeysCollide(session: string, other: string)
    requires session != other
    ensures (exists call, otherCall :: KeyFor(session, call) == KeyFor(other, otherCall)) <==> Clash(session, other)
  {
    forall call, otherCall ensures KeyFor(session, call) == KeyFor(other, otherCall) ==> Clash(session, other) {
      KeyJoins(session, call);
      KeyJoins(other, otherCall);
      if KeyFor(session, call) == KeyFor(other, otherCall) {
        PrefixesOfOne(Prefix(session), Prefix(other), KeyFor(session, call));
      }
    }
    if Clash(session, other) {
      var call := if Prefix(other) <= Prefix(session) then "" else Prefix(other)[|Prefix(session)|..];
      var otherCall := if Prefix(other) <= Prefix(session) then Prefix(session)[|Prefix(other)|..] else "";
      KeyJoins(session, call);
      KeyJoins(other, otherCall);
      assert KeyFor(session, call) == KeyFor(other, otherCall);
    }
  }

  /** Ids without colons never clash; single colons inside do no harm either, as "user:1" and "user:2" show. */
  lemma ColonFreeNeverClash(session: string, other: string)
    requires NoColon(session) && NoColon(other)
    ensures !Clash(session, other)
  {
    if Clash(session, other) {
      ForgettingReaches(session, other);
      var call :| StartsWith(KeyFor(session, call), Prefix(other));
      PrefixIsOwn(session, other, call);
    }
  }

  lemma SingleColonsHarmless()
    ensures !Clash("user:1", "user:2")
  {
    assert Prefix("user:1")[5] == '1' && Prefix("user:2")[5] == '2';
  }

  /** A key belongs to one request only, as long as session ids do not clash. */
  lemma KeysApart(session: string, call: string, other: string, otherCall: string)
    requires !Clash(session, other)
    ensures KeyFor(session, call) == KeyFor(other, otherCall) <==> session == other && call == otherCall
  {
    KeyJoins(session, call);
    KeyJoins(other, otherCall);
    if KeyFor(session, call) == KeyFor(other, otherCall) {
      PrefixesOfOne(Prefix(session), Prefix(other), KeyFor(session, call));
      assert KeyFor(session, call)[|Prefix(session)|..] == call;
      assert KeyFor(other, otherCall)[|Prefix(other)|..] == otherCall;
    }
  }

  // ----- Runs in which no two sessions clash

  /** None of the sessions that a run tracks clashes with the given one. */
  predicate NoneClashes(steps: seq<Step>, sessionId: string) {
    forall i :: 0 <= i < |steps| && steps[i].Track? ==> !Clash(steps[i].request.sessionId, sessionId)
  }

  /** Every open request is filed under its own key, and its session does not clash with the given one. */
  predicate WellKeyed(s: State, sessionId: string) {
    forall key :: key in s.pending ==>
      var r := s.pending[key];
      key == KeyFor(r.sessionId, r.toolCallId) && !Clash(r.sessionId, sessionId)
  }

  lemma {:induction false} RunsStayWellKeyed(s: State, steps: seq<Step>, i: nat, sessionId: string)
    requires i <= |steps| && NoneClashes(steps, sessionId) && WellKeyed(s, sessionId)
    ensures WellKeyed(After(s, steps, i), sessionId)
    decreases |steps| - i
  {
    if i < |steps| {
      RunsStayWellKeyed(Next(s, steps[i]), steps, i + 1, sessionId);
    }
  }

  /** After any run whose sessions do not clash with it, forgetting a session abandons exactly its own requests. */
  lemma ForgetsOwnRequests(steps: seq<Step>, sessionId: string)
    requires NoneClashes(steps, sessionId)
    ensures var s := After(EMPTY, steps);
            Abandoned(s, sessionId) == set key | key in s.pending && s.pending[key].sessionId == sessionId
  {
    var s := After(EMPTY, steps);
    RunsStayWellKeyed(EMPTY, steps, 0, sessionId);
    forall key | key in s.pending
      ensures StartsWith(key, Prefix(sessionId)) <==> s.pending[key].sessionId == sessionId
    {
      OwnPrefix(s.pending[key].sessionId, s.pending[key].toolCallId, sessionId);
    }
  }

  lemma OwnPrefix(session: string, call: string, other: string)
    requires !Clash(session, other)
    ensures StartsWith(KeyFor(session, call), Prefix(other)) <==> session == other
  {
    KeyJoins(session, call);
    StartsWithPrefix(KeyFor(session, call), Prefix(other));
    if session != other {
      ForgettingReaches(session, other);
    }
  }

  /**
   * After any run whose sessions do not clash with it, an answer decides the request it names, if that is
   * open, and leaves every other request of those sessions as it was, open or decided.
   */
  lemma AnswersOwnRequest(steps: seq<Step>, sessionId: string, call: string, approved: bool, other: string,
          otherCall: string)
    requires NoneClashes(steps, sessionId) && !Clash(sessionId, other) && (other != sessionId || otherCall != call)
    ensures var s := After(EMPTY, steps);
            var t := Answered(s, KeyFor(sessionId, call), approved);
            var key, otherKey := KeyFor(sessionId, call), KeyFor(other, otherCall);
            && (key in s.pending ==> s.pending[key].sessionId == sessionId && s.pending[key].toolCallId == call)
            && (otherKey in t.pending <==> otherKey in s.pending) && (otherKey in t.settled <==> otherKey in s.settled)
            && (otherKey in s.pending ==> t.pending[otherKey] == s.pending[otherKey]) &&
                (otherKey in s.settled ==> t.settled[otherKey] == s.settled[otherKey])
  {
    var s := After(EMPTY, steps);
    var key := KeyFor(sessionId, call);
    RunsStayWellKeyed(EMPTY, steps, 0, sessionId);
    KeysApart(sessionId, call, other, otherCall);
    if key in s.pending {
      KeysApart(s.pending[key].sessionId, s.pending[key].toolCallId, sessionId, call);
    }
  }

  /** With a double colon in an id, forgetting one session denies a request of another. */
  lemma ColonsConfuse()
    ensures var other := Request("a::b", "c", "shell", "execute");
            var s := Tracked(EMPTY, other);
            Forgotten(s, "a") == State(map[], map[KeyFor("a::b", "c") := false])
  {
    var key := KeyFor("a::b", "c");
    StartsWithPrefix(key, Prefix("a"));
    var s := Tracked(EMPTY, Request("a::b", "c", "shell", "execute"));
    assert key in s.pending;
    assert Abandoned(s, "a") == {key};
  }

  /** And an answer for one session approves the request of another. */
  lemma ColonsMisdirect()
    ensures var other := Request("a::b", "c", "shell", "execute");
            var s := Tracked(EMPTY, other);
            && Answer(s, KeyFor("a", "b::c"), true) == Resolved(true)
            && Answered(s, KeyFor("a", "b::c"), true) == State(map[], map[KeyFor("a::b", "c") := true])
  {
    assert KeyFor("a", "b::c") == KeyFor("a::b", "c");
  }
}
