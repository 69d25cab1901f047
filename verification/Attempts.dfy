/** The login throttle: a list of failure times per login, cut to the last three when a login is locked out. */
module Attempts {
  import opened Common

  const WINDOW: Time := 3 * MINUTE
  const LIMIT := 3

  type AttemptMap = map<string, seq<Time>>

  /** The failures at most three minutes old. */
  function Recent(ts: seq<Time>, now: Time): nat {
    if ts == [] then 0
    else Recent(ts[..|ts| - 1], now) + if now - ts[|ts| - 1] <= WINDOW then 1 else 0
  }

  predicate TooMany(ts: seq<Time>, now: Time) { Recent(ts, now) >= LIMIT }

  function Of(a: AttemptMap, login: string): seq<Time> {
    if login in a then a[login] else []
  }

  function Recorded(a: AttemptMap, login: string, now: Time): AttemptMap {
    a[login := Of(a, login) + [now]]
  }

  function Cleared(a: AttemptMap, login: string): AttemptMap {
    a[login := []]
  }

  function Checked(a: AttemptMap, login: string, now: Time): AttemptMap {
    var ts := Of(a, login);
    if TooMany(ts, now) && |ts| > LIMIT then a[login := ts[|ts| - LIMIT..]] else a
  }

  /** There are too many when three failures are at most three minutes old. */
  lemma {:induction false} RecentCounts(ts: seq<Time>, now: Time)
    ensures Recent(ts, now) >= 1 <==> exists i :: 0 <= i < |ts| && now - ts[i] <= 180_000_000_000
    ensures Recent(ts, now) >= 2
      <==> exists i, j :: 0 <= i < j < |ts| && now - ts[i] <= 180_000_000_000 && now - ts[j] <= 180_000_000_000
    ensures TooMany(ts, now)
      <==> exists i, j, k :: 0 <= i < j < k < |ts| && now - ts[i] <= 180_000_000_000
                             && now - ts[j] <= 180_000_000_000 && now - ts[k] <= 180_000_000_000
  {
    if ts != [] {
      RecentCounts(ts[..|ts| - 1], now);
    }
  }

  class LoginAttempts {
    var attempts: AttemptMap

    constructor ()
      ensures attempts == map[]
    {
      attempts := map[];
    }

    method ClearAttemptsForLogin(login: string)
      modifies this
      ensures attempts == Cleared(old(attempts), login)
      ensures Of(attempts, login) == []
      ensures forall other :: other != login ==> Of(attempts, other) == Of(old(attempts), other)
    {
      attempts := attempts[login := []];
    }

    method RecordAttempt(login: string, now: Time)
      modifies this
      ensures attempts == Recorded(old(attempts), login, now)
      ensures Of(attempts, login) == Of(old(attempts), login) + [now]
      ensures forall other :: other != login ==> Of(attempts, other) == Of(old(attempts), other)
    {
      if login !in attempts {
        attempts := attempts[login := []];
      }
      attempts := attempts[login := attempts[login] + [now]];
    }

    method CheckTooManyLogins(login: string, now: Time) returns (tooMany: bool)
      modifies this
      ensures tooMany == TooMany(Of(old(attempts), login), now)
      ensures attempts == Checked(old(attempts), login, now)
      ensures tooMany <==>
        && login in old(attempts)
        && var ts := old(attempts)[login];
        exists i, j, k ::
          && 0 <= i < j < k < |ts| && now - ts[i] <= 180_000_000_000
          && now - ts[j] <= 180_000_000_000 && now - ts[k] <= 180_000_000_000
      ensures tooMany ==> Of(attempts, login) == Of(old(attempts), login)[|Of(old(attempts), login)| - 3..]
      ensures !tooMany ==> attempts == old(attempts)
      ensures forall other :: other != login ==> Of(attempts, other) == Of(old(attempts), other)
    {
      RecentCounts(Of(attempts, login), now);
      if login in attempts {
        var loginAttempts := 0;
        var ts := attempts[login];
        for i := 0 to |ts|
          invariant loginAttempts == Recent(ts[..i], now)
        {
          assert ts[..i + 1][..i] == ts[..i];
          if now - ts[i] <= WINDOW {
            loginAttempts := loginAttempts + 1;
          }
        }
        assert ts[..|ts|] == ts;
        if loginAttempts >= LIMIT {
          if |ts| > LIMIT {
            attempts := attempts[login := ts[|ts| - LIMIT..]];
          }
          return true;
        }
      }
      return false;
    }
  }

  // Refinement: dropping all but the last three failures changes no answer.

  ghost predicate Ordered(ts: seq<Time>) {
    |ts| <= 1 || (ts[|ts| - 2] <= ts[|ts| - 1] && Ordered(ts[..|ts| - 1]))
  }

  lemma {:induction false} OrderedAt(ts: seq<Time>, p: nat, q: nat)
    requires Ordered(ts) && p <= q < |ts|
    ensures ts[p] <= ts[q]
  {
    if q < |ts| - 1 {
      OrderedAt(ts[..|ts| - 1], p, q);
    } else if p < q {
      OrderedAt(ts[..|ts| - 1], p, q - 1);
    }
  }

  /** In a list in order of time the recent failures come last. */
  lemma {:induction false} RecentAreLast(ts: seq<Time>, now: Time, n: nat)
    requires Ordered(ts)
    ensures Recent(ts, now) >= n <==> n == 0 || (n <= |ts| && now - ts[|ts| - n] <= WINDOW)
  {
    if ts != [] && n > 0 {
      var front, last := ts[..|ts| - 1], ts[|ts| - 1];
      RecentAreLast(front, now, n - 1);
      RecentAreLast(front, now, 1);
      if now - last > WINDOW && n <= |ts| {
        OrderedAt(ts, |ts| - n, |ts| - 1);
      }
    }
  }

  /** The list `kept` is the end of the list `whole`. */
  ghost predicate IsEndOf(kept: seq<Time>, whole: seq<Time>) {
    kept == []
    || (whole != [] && kept[|kept| - 1] == whole[|whole| - 1] && IsEndOf(kept[..|kept| - 1], whole[..|whole| - 1]))
  }

  lemma {:induction false} EndAt(kept: seq<Time>, whole: seq<Time>, n: nat)
    requires IsEndOf(kept, whole) && 0 < n <= |kept|
    ensures |kept| <= |whole| && kept[|kept| - n] == whole[|whole| - n]
  {
    if n > 1 {
      EndAt(kept[..|kept| - 1], whole[..|whole| - 1], n - 1);
    } else if |kept| > 1 {
      EndAt(kept[..|kept| - 1], whole[..|whole| - 1], 1);
    }
  }

  lemma {:induction false} EndOfEnd(kept: seq<Time>, whole: seq<Time>, k: nat)
    requires IsEndOf(kept, whole) && k <= |kept|
    ensures IsEndOf(kept[k..], whole)
  {
    if k < |kept| {
      EndOfEnd(kept[..|kept| - 1], whole[..|whole| - 1], k);
      assert kept[k..][..|kept| - k - 1] == kept[..|kept| - 1][k..];
    }
  }

  lemma {:induction false} EndIsOrdered(kept: seq<Time>, whole: seq<Time>)
    requires IsEndOf(kept, whole) && Ordered(whole)
    ensures Ordered(kept) && |kept| <= |whole|
  {
    if kept != [] {
      EndIsOrdered(kept[..|kept| - 1], whole[..|whole| - 1]);
      if |kept| > 1 {
        EndAt(kept, whole, 2);
      }
    }
  }

  /** The kept list is the end of the whole history, and at least three failures long if it is not all of it. */
  ghost predicate KeepsEnough(kept: seq<Time>, history: seq<Time>) {
    Ordered(history) && IsEndOf(kept, history) && (|kept| >= LIMIT || |kept| == |history|)
  }

  lemma SameAnswer(kept: seq<Time>, history: seq<Time>, now: Time)
    requires KeepsEnough(kept, history)
    ensures TooMany(kept, now) <==> TooMany(history, now)
  {
    EndIsOrdered(kept, history);
    RecentAreLast(kept, now, LIMIT);
    RecentAreLast(history, now, LIMIT);
    if |kept| >= LIMIT {
      EndAt(kept, history, LIMIT);
    }
  }

  lemma RecordKeepsEnough(kept: seq<Time>, history: seq<Time>, now: Time)
    requires KeepsEnough(kept, history) && (history == [] || history[|history| - 1] <= now)
    ensures KeepsEnough(kept + [now], history + [now])
  {
    assert (history + [now])[..|history|] == history && (kept + [now])[..|kept|] == kept;
  }

  lemma CheckKeepsEnough(a: AttemptMap, history: seq<Time>, login: string, now: Time, other: string)
    requires KeepsEnough(Of(a, other), history)
    ensures KeepsEnough(Of(Checked(a, login, now), other), history)
  {
    var kept := Of(a, other);
    if login == other && |kept| > LIMIT {
      EndOfEnd(kept, history, |kept| - LIMIT);
    }
  }

  datatype Event = Record(login: string, at: Time) | Check(login: string, at: Time) | Clear(login: string, at: Time)

  function AttemptsStep(a: AttemptMap, e: Event): AttemptMap {
    match e
    case Record(login, at) => Recorded(a, login, at)
    case Check(login, at) => Checked(a, login, at)
    case Clear(login, _) => Cleared(a, login)
  }

  function HistoryStep(h: seq<Time>, e: Event, login: string): seq<Time> {
    if e.login != login || e.Check? then h else if e.Record? then h + [e.at] else []
  }

  function AttemptsAfter(es: seq<Event>): AttemptMap {
    if es == [] then map[] else AttemptsStep(AttemptsAfter(es[..|es| - 1]), es[|es| - 1])
  }

  /** All failures of a login since it was last cleared. */
  function History(es: seq<Event>, login: string): seq<Time> {
    if es == [] then [] else HistoryStep(History(es[..|es| - 1], login), es[|es| - 1], login)
  }

  /** The clock never goes back, and stands at `now` after the run. */
  ghost predicate ClockedUpTo(es: seq<Event>, now: Time) {
    es == [] || (es[|es| - 1].at <= now && ClockedUpTo(es[..|es| - 1], es[|es| - 1].at))
  }

  ghost predicate EndsBy(ts: seq<Time>, now: Time) {
    ts == [] || ts[|ts| - 1] <= now
  }

  lemma StepKeepsEnough(a: AttemptMap, h: seq<Time>, e: Event, login: string)
    requires KeepsEnough(Of(a, login), h) && EndsBy(h, e.at)
    ensures KeepsEnough(Of(AttemptsStep(a, e), login), HistoryStep(h, e, login))
    ensures EndsBy(HistoryStep(h, e, login), e.at)
  {
    match e
    case Record(l, at) => RecordKeepsEnough(Of(a, login), h, at);
    case Check(l, at) => CheckKeepsEnough(a, h, l, at, login);
    case Clear(_, _) =>
  }

  lemma {:induction false} RunsKeepEnough(es: seq<Event>, login: string, now: Time)
    requires ClockedUpTo(es, now)
    ensures KeepsEnough(Of(AttemptsAfter(es), login), History(es, login)) && EndsBy(History(es, login), now)
  {
    if es != [] {
      var front, e := es[..|es| - 1], es[|es| - 1];
      RunsKeepEnough(front, login, e.at);
      StepKeepsEnough(AttemptsAfter(front), History(front, login), e, login);
    }
  }

  /** In every run of records, checks and clears, a check answers as if no failure had ever been dropped. */
  lemma ThrottleRefinesHistory(es: seq<Event>, login: string, now: Time)
    requires ClockedUpTo(es, now)
    ensures TooMany(Of(AttemptsAfter(es), login), now) <==> TooMany(History(es, login), now)
  {
    RunsKeepEnough(es, login, now);
    SameAnswer(Of(AttemptsAfter(es), login), History(es, login), now);
  }
}
