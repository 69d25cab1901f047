/**
 What the throttle bounds when the check of a login request and the recording
 of its failure are separate steps, with requests of all logins interleaved.
 */
module Throttle {
  import opened Common
  import opened Attempts

  /** `whole` keeps every failure since the login was cleared; the code keeps only `attempts`. */
  datatype State = State(attempts: AttemptMap, whole: AttemptMap, inFlight: map<nat, string>, now: Time)

  /** A request is checked, and then records a failure, clears its login, or ends in neither way. */
  datatype Step =
    | CheckIn(request: nat, login: string, at: Time)
    | Fail(request: nat, at: Time)
    | Succeed(request: nat, at: Time)
    | Leave(request: nat, at: Time)

  predicate Enabled(s: State, step: Step) {
    s.now <= step.at && (step.CheckIn? <==> step.request !in s.inFlight)
  }

  function Next(s: State, step: Step): State
    requires Enabled(s, step)
  {
    match step
    case CheckIn(request, login, at) =>
      var checked := s.(attempts := Checked(s.attempts, login, at), now := at);
      if TooMany(Of(s.attempts, login), at) then checked else checked.(inFlight := s.inFlight[request := login])
    case Fail(request, at) =>
      var login := s.inFlight[request];
      State(Recorded(s.attempts, login, at), Recorded(s.whole, login, at), s.inFlight - {request}, at)
    case Succeed(request, at) =>
      var login := s.inFlight[request];
      State(Cleared(s.attempts, login), Cleared(s.whole, login), s.inFlight - {request}, at)
    case Leave(request, at) => s.(inFlight := s.inFlight - {request}, now := at)
  }

  function FlightsOf(inFlight: map<nat, string>, login: string): set<nat> {
    set r | r in inFlight && inFlight[r] == login
  }

  /** A run in which at most `n` requests for `login` are in flight at any time. */
  ghost predicate ValidRun(s: State, steps: seq<Step>, login: string, n: nat)
    decreases |steps|
  {
    |FlightsOf(s.inFlight, login)| <= n
    && (steps == [] || (Enabled(s, steps[0]) && ValidRun(Next(s, steps[0]), steps[1..], login, n)))
  }

  ghost function After(s: State, steps: seq<Step>, login: string, n: nat): State
    requires ValidRun(s, steps, login, n)
    decreases |steps|
  {
    if steps == [] then s else After(Next(s, steps[0]), steps[1..], login, n)
  }

  /**
   Any three minutes hold at most n + 2 failures; three that are still recent leave room
   for the requests in flight.
   */
  ghost predicate Bounded(h: seq<Time>, flights: nat, now: Time, n: nat) {
    && (forall i :: 0 <= i < |h| ==> h[i] <= now)
    && (forall p, q :: 0 <= p <= q < |h| && h[q] - h[p] <= WINDOW ==> q - p + 1 <= n + 2)
    && (forall p :: 0 <= p && p + LIMIT <= |h| && now - h[p] <= WINDOW ==> |h| - p + flights <= n + 2)
  }

  ghost predicate Inv(s: State, login: string, n: nat) {
    && KeepsEnough(Of(s.attempts, login), Of(s.whole, login))
    && Bounded(Of(s.whole, login), |FlightsOf(s.inFlight, login)|, s.now, n)
  }

  lemma BoundedLater(h: seq<Time>, flights: nat, now: Time, n: nat, flights': nat, now': Time)
    requires Bounded(h, flights, now, n) && flights' <= flights && now <= now'
    ensures Bounded(h, flights', now', n)
  {
  }

  /** A request gets in only when no three failures are recent, so nothing is left to bound. */
  lemma BoundedCheckIn(h: seq<Time>, flights: nat, now: Time, n: nat, at: Time)
    requires Bounded(h, flights, now, n) && Ordered(h) && now <= at && !TooMany(h, at)
    ensures Bounded(h, flights + 1, at, n)
  {
    RecentAreLast(h, at, LIMIT);
    forall p | 0 <= p && p + LIMIT <= |h| ensures at - h[p] > WINDOW {
      OrderedAt(h, p, |h| - LIMIT);
    }
  }

  /** A failure takes its request out of flight. */
  lemma BoundedFail(h: seq<Time>, flights: nat, now: Time, n: nat, at: Time)
    requires Bounded(h, flights, now, n) && 1 <= flights <= n && now <= at
    ensures Bounded(h + [at], flights - 1, at, n)
  {
    var h' := h + [at];
    forall p | 0 <= p && p + LIMIT <= |h'| && at - h'[p] <= WINDOW ensures |h'| - p + (flights - 1) <= n + 2 {
      if p + LIMIT <= |h| {
        assert h'[p] == h[p];
      }
    }
    forall p, q | 0 <= p <= q < |h'| && h'[q] - h'[p] <= WINDOW ensures q - p + 1 <= n + 2 {
      if q < |h| {
        assert h'[p] == h[p] && h'[q] == h[q];
      }
    }
  }

  lemma FlightLeaves(inFlight: map<nat, string>, request: nat, login: string)
    requires request in inFlight
    ensures |FlightsOf(inFlight - {request}, login)|
         == |FlightsOf(inFlight, login)| - if inFlight[request] == login then 1 else 0
  {
    assert FlightsOf(inFlight - {request}, login) == FlightsOf(inFlight, login) - {request};
  }

  lemma FlightEnters(inFlight: map<nat, string>, request: nat, login: string, other: string)
    requires request !in inFlight
    ensures |FlightsOf(inFlight[request := login], other)|
         == |FlightsOf(inFlight, other)| + if login == other then 1 else 0
  {
    assert FlightsOf(inFlight[request := login], other)
        == FlightsOf(inFlight, other) + if login == other then {request} else {};
  }

  lemma CheckInKeeps(s: State, step: Step, login: string, n: nat)
    requires Inv(s, login, n) && Enabled(s, step) && step.CheckIn?
    ensures Inv(Next(s, step), login, n)
  {
    var h, flights := Of(s.whole, login), |FlightsOf(s.inFlight, login)|;
    CheckKeepsEnough(s.attempts, h, step.login, step.at, login);
    FlightEnters(s.inFlight, step.request, step.login, login);
    BoundedLater(h, flights, s.now, n, flights, step.at);
    if step.login == login {
      SameAnswer(Of(s.attempts, login), h, step.at);
      if !TooMany(h, step.at) {
        BoundedCheckIn(h, flights, s.now, n, step.at);
      }
    }
  }

  lemma FailKeeps(s: State, step: Step, login: string, n: nat)
    requires Inv(s, login, n) && Enabled(s, step) && step.Fail? && |FlightsOf(s.inFlight, login)| <= n
    ensures Inv(Next(s, step), login, n)
  {
    var h, flights := Of(s.whole, login), |FlightsOf(s.inFlight, login)|;
    FlightLeaves(s.inFlight, step.request, login);
    if s.inFlight[step.request] == login {
      RecordKeepsEnough(Of(s.attempts, login), h, step.at);
      BoundedFail(h, flights, s.now, n, step.at);
    } else {
      BoundedLater(h, flights, s.now, n, flights, step.at);
    }
  }

  lemma StepKeepsInv(s: State, step: Step, login: string, n: nat)
    requires Inv(s, login, n) && Enabled(s, step) && |FlightsOf(s.inFlight, login)| <= n
    ensures Inv(Next(s, step), login, n)
  {
    match step
    case CheckIn(_, _, _) => CheckInKeeps(s, step, login, n);
    case Fail(_, _) => FailKeeps(s, step, login, n);
    case _ =>
      FlightLeaves(s.inFlight, step.request, login);
      BoundedLater(Of(s.whole, login), |FlightsOf(s.inFlight, login)|, s.now, n,
          |FlightsOf(Next(s, step).inFlight, login)|, step.at);
  }

  lemma {:induction false} RunKeepsInv(s: State, steps: seq<Step>, login: string, n: nat)
    requires Inv(s, login, n) && ValidRun(s, steps, login, n)
    ensures Inv(After(s, steps, login, n), login, n)
    decreases |steps|
  {
    if steps != [] {
      StepKeepsInv(s, steps[0], login, n);
      RunKeepsInv(Next(s, steps[0]), steps[1..], login, n);
    }
  }

  ghost function Start(now: Time): State { State(map[], map[], map[], now) }

  /**
   With at most `n` requests in flight for a login, any closed three minutes
   between two clearings of it hold at most n + 2 recorded failures.
   */
  lemma ThrottleBound(now: Time, steps: seq<Step>, login: string, n: nat, p: nat, q: nat)
    requires ValidRun(Start(now), steps, login, n)
    requires p <= q < |Of(After(Start(now), steps, login, n).whole, login)|
    requires var h := Of(After(Start(now), steps, login, n).whole, login); h[q] - h[p] <= WINDOW
    ensures q - p + 1 <= n + 2
  {
    RunKeepsInv(Start(now), steps, login, n);
  }

  /** When requests are handled one at a time, the failure three later is more than three minutes later. */
  lemma SequentialThrottle(now: Time, steps: seq<Step>, login: string, p: nat)
    requires ValidRun(Start(now), steps, login, 1)
    requires p + 3 < |Of(After(Start(now), steps, login, 1).whole, login)|
    ensures var h := Of(After(Start(now), steps, login, 1).whole, login); h[p + 3] - h[p] > WINDOW
  {
    RunKeepsInv(Start(now), steps, login, 1);
  }

  // The bound is reached.

  /** The first `j` requests are in flight, all for one login. */
  function Crowd(login: string, j: nat): (m: map<nat, string>)
    ensures forall i :: i in m ==> i < j
  {
    if j == 0 then map[] else Crowd(login, j - 1)[j - 1 := login]
  }

  lemma {:induction false} CrowdSize(login: string, j: nat)
    ensures |FlightsOf(Crowd(login, j), login)| == j
  {
    if j > 0 {
      CrowdSize(login, j - 1);
      FlightEnters(Crowd(login, j - 1), j - 1, login, login);
    } else {
      assert FlightsOf(Crowd(login, 0), login) == {};
    }
  }

  ghost predicate AllAt(h: seq<Time>, at: Time) {
    forall i :: 0 <= i < |h| ==> h[i] == at
  }

  /** All requests in flight fail, one after the other, at the same time. */
  lemma {:induction false} FailAll(s: State, login: string, j: nat, n: nat) returns (steps: seq<Step>)
    requires s.inFlight == Crowd(login, j) && j <= n && AllAt(Of(s.whole, login), s.now)
    ensures ValidRun(s, steps, login, n)
    ensures var h := Of(After(s, steps, login, n).whole, login);
      |h| == |Of(s.whole, login)| + j && AllAt(h, s.now)
    decreases j
  {
    CrowdSize(login, j);
    steps := [];
    if j > 0 {
      var step := Fail(j - 1, s.now);
      assert Next(s, step).inFlight == Crowd(login, j - 1);
      var rest := FailAll(Next(s, step), login, j - 1, n);
      steps := [step] + rest;
      assert steps[1..] == rest;
    }
  }

  /** While fewer than three failures are there, more requests are let in, until there are `n`; then all fail. */
  lemma {:induction false} CrowdIn(s: State, login: string, j: nat, n: nat) returns (steps: seq<Step>)
    requires s.inFlight == Crowd(login, j) && j <= n && AllAt(Of(s.whole, login), s.now)
    requires |Of(s.attempts, login)| < 3
    ensures ValidRun(s, steps, login, n)
    ensures var h := Of(After(s, steps, login, n).whole, login);
      |h| == |Of(s.whole, login)| + n && AllAt(h, s.now)
    decreases n - j
  {
    if j == n {
      steps := FailAll(s, login, j, n);
    } else {
      CrowdSize(login, j);
      RecentCounts(Of(s.attempts, login), s.now);
      var step := CheckIn(j, login, s.now);
      assert Next(s, step).inFlight == Crowd(login, j + 1);
      var rest := CrowdIn(Next(s, step), login, j + 1, n);
      steps := [step] + rest;
      assert steps[1..] == rest;
    }
  }

  /** One request is let in and fails, and then the run goes on. */
  lemma FailFirst(s: State, login: string, n: nat, rest: seq<Step>) returns (steps: seq<Step>)
    requires s.inFlight == map[] && n > 0 && |Of(s.attempts, login)| < 3
    requires ValidRun(OneFailure(s, login), rest, login, n)
    ensures ValidRun(s, steps, login, n)
    ensures After(s, steps, login, n) == After(OneFailure(s, login), rest, login, n)
  {
    RecentCounts(Of(s.attempts, login), s.now);
    var enter, fail := CheckIn(0, login, s.now), Fail(0, s.now);
    var s1 := Next(s, enter);
    assert s1 == s.(inFlight := map[0 := login]);
    assert Next(s1, fail) == OneFailure(s, login);
    assert FlightsOf(s.inFlight, login) == {} && FlightsOf(s1.inFlight, login) == {0};
    assert ([fail] + rest)[1..] == rest;
    steps := [enter] + ([fail] + rest);
    assert steps[1..] == [fail] + rest;
  }

  function OneFailure(s: State, login: string): State {
    s.(attempts := Recorded(s.attempts, login, s.now), whole := Recorded(s.whole, login, s.now), inFlight := map[])
  }

  lemma BoundIsReached(now: Time, login: string, n: nat) returns (steps: seq<Step>)
    requires n > 0
    ensures ValidRun(Start(now), steps, login, n)
    ensures var h := Of(After(Start(now), steps, login, n).whole, login);
      |h| == n + 2 && AllAt(h, now)
  {
    var s1 := OneFailure(Start(now), login);
    var s2 := OneFailure(s1, login);
    assert s2.inFlight == Crowd(login, 0);
    var rest := CrowdIn(s2, login, 0, n);
    rest := FailFirst(s1, login, n, rest);
    steps := FailFirst(Start(now), login, n, rest);
  }

  ghost predicate BoundedBy(login: string, n: nat, b: nat) {
    forall now, steps, p: nat, q: nat ::
      && ValidRun(Start(now), steps, login, n)
      && p <= q < |Of(After(Start(now), steps, login, n).whole, login)|
      && InWindow(Of(After(Start(now), steps, login, n).whole, login), p, q)
      ==> q - p + 1 <= b
  }

  predicate InWindow(h: seq<Time>, p: nat, q: nat)
    requires p < |h| && q < |h|
  {
    h[q] - h[p] <= 180_000_000_000
  }

  /** So n + 2 is the least number that bounds the failures in any closed three minutes of any run. */
  lemma ThrottleBoundIsTight(login: string, n: nat, b: nat)
    requires n > 0
    ensures BoundedBy(login, n, b) <==> b >= n + 2
  {
    if b >= n + 2 {
      forall now, steps, p: nat, q: nat |
        && ValidRun(Start(now), steps, login, n)
        && p <= q < |Of(After(Start(now), steps, login, n).whole, login)|
        && InWindow(Of(After(Start(now), steps, login, n).whole, login), p, q)
        ensures q - p + 1 <= b {
        ThrottleBound(now, steps, login, n, p, q);
      }
    } else {
      var steps := BoundIsReached(0, login, n);
      assert InWindow(Of(After(Start(0), steps, login, n).whole, login), 0, n + 1);
    }
  }
}
