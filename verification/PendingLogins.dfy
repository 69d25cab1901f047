/** How long a redirect can still be answered by a callback. */
module PendingLogins {
  import opened OidcTypes
  import opened Cleanup
  import opened RenewalSpec
  import opened Handlers
  import opened LoginFlow
  import opened LoginRuns

  /** One of the cleanups of a pass drops the entry. */
  ghost predicate PassDrops(m: Entries, visits: seq<Visit>, k: string)
    requires k in m
    decreases |visits|
  {
    visits != []
    && ((visits[0].key in m && Dropped(m[visits[0].key], m[k], visits[0].now))
        || (k in AfterVisit(m, visits[0]) && PassDrops(AfterVisit(m, visits[0]), visits[1..], k)))
  }

  lemma {:induction false} PassDropsExactly(m: Entries, visits: seq<Visit>, k: string)
    requires k in m
    ensures k in PassResult(m, visits) <==> !PassDrops(m, visits, k)
    decreases |visits|
  {
    if visits != [] {
      PassOnlyRemoves(AfterVisit(m, visits[0]), visits[1..]);
      if k in AfterVisit(m, visits[0]) {
        PassDropsExactly(AfterVisit(m, visits[0]), visits[1..], k);
      }
    }
  }

  /** That takes a pass within ten minutes of the redirect, or an entry that supersedes it: a newer redirect will do. */
  lemma PassDropsOnly(m: Entries, visits: seq<Visit>, k: string)
    requires IsPass(m, {}, visits) && k in m && PassDrops(m, visits, k)
    ensures visits != [] && (IsSuperseded(m, k) || Unclaimed(m[k], visits[0].now))
  {
    PassDropsExactly(m, visits, k);
    PassRemovesOnlyObsolete(m, {}, visits, k);
  }

  predicate IsPending(e: OAuthData) {
    e.token.accessToken == "" && e.userInfo.email == ""
  }

  /** The event claims the entry under the key, or a cleanup in it drops that entry. */
  ghost predicate EndsLogin(w: World, e: Event, key: string)
    requires key in w.store
  {
    match e
    case Callback(providers, endpoint, c) =>
      var claimed := ClaimedEntry(w.store, w.ledger.users, providers, endpoint, c);
      claimed.Some? && (c.state == key || (c.entrySaved && Dropped(claimed.value, w.store[key], c.cleanupAt)))
    case CleansAll(cleanups, _) => PassDrops(w.store, cleanups, key)
    case _ => false
  }

  lemma ClaimsAreNotPending(w: World, e: Event)
    requires SoundUsers(w.ledger.users) && e.Callback?
    ensures var claimed := ClaimedEntry(w.store, w.ledger.users, e.providers, e.endpoint, e.c);
      claimed.Some? ==> claimed.value.userInfo.email != ""
  {
  }

  /** The entry stays as it is unless the event ends the login. */
  lemma StepEndsExactly(w: World, e: Event, key: string)
    requires IsSound(w) && Enabled(w, e) && !e.Restart? && key in w.store && IsPending(w.store[key])
    ensures var m' := Next(w, e).store;
      if EndsLogin(w, e, key) then key in m' ==> m'[key].userInfo.email != ""
      else key in m' && m'[key] == w.store[key]
  {
    match e
    case CleansAll(cleanups, _) =>
      PassOnlyRemoves(w.store, cleanups);
      PassDropsExactly(w.store, cleanups, key);
    case Renews(providers, visits, _) => PassIsPerEntry(w.store, providers, visits, w.store.Keys, key);
    case Callback(_, _, _) => ClaimsAreNotPending(w, e);
    case _ =>
  }

  /** Then no entry under its key will be pending again. */
  ghost predicate IsOver(w: World, key: string) {
    key in w.ledger.usedKeys && (key in w.store ==> w.store[key].userInfo.email != "")
  }

  lemma StepKeepsOver(w: World, e: Event, key: string)
    requires IsSound(w) && Enabled(w, e) && !e.Restart? && IsOver(w, key)
    ensures IsOver(Next(w, e), key)
  {
    match e
    case CleansAll(cleanups, _) => PassOnlyRemoves(w.store, cleanups);
    case Renews(providers, visits, _) =>
      PassKeepsKeys(w.store, providers, visits);
      if key in w.store {
        PassIsPerEntry(w.store, providers, visits, w.store.Keys, key);
      }
    case Callback(_, _, _) => ClaimsAreNotPending(w, e);
    case _ =>
  }

  ghost predicate NoRestart(es: seq<Event>) {
    forall i :: 0 <= i < |es| ==> !es[i].Restart?
  }

  /** Some event of the run ends the login. */
  ghost predicate RunEndsLogin(w: World, es: seq<Event>, key: string)
    requires key in w.store
    decreases |es|
  {
    es != []
    && (EndsLogin(w, es[0], key)
        || (key in Next(w, es[0]).store && RunEndsLogin(Next(w, es[0]), es[1..], key)))
  }

  lemma {:induction false} RunKeepsOver(w: World, es: seq<Event>, key: string)
    requires IsSound(w) && IsRun(w, es) && NoRestart(es) && IsOver(w, key)
    ensures IsOver(After(w, es), key)
    decreases |es|
  {
    if es != [] {
      StepKeepsSound(w, es[0]);
      StepKeepsOver(w, es[0], key);
      RunKeepsOver(Next(w, es[0]), es[1..], key);
    }
  }

  lemma {:induction false} StaysPendingExactlyWhen(w: World, es: seq<Event>, key: string)
    requires IsSound(w) && IsRun(w, es) && NoRestart(es) && key in w.store && IsPending(w.store[key])
    ensures key in After(w, es).store && After(w, es).store[key] == w.store[key] <==> !RunEndsLogin(w, es, key)
    decreases |es|
  {
    if es != [] {
      var w' := Next(w, es[0]);
      StepKeepsSound(w, es[0]);
      StepEndsExactly(w, es[0], key);
      if EndsLogin(w, es[0], key) {
        RunKeepsOver(w', es[1..], key);
      } else {
        StaysPendingExactlyWhen(w', es[1..], key);
      }
    }
  }

  /**
   While the server keeps running, the entry of a redirect waits for its callback
   as long as no event claims it and no cleanup drops it, and no longer.
   */
  lemma RedirectWaitsExactlyWhen(start: World, before: seq<Event>, redirect: Event, after: seq<Event>)
    requires IsStart(start) && IsRun(start, before) && redirect.Redirect? && Enabled(After(start, before), redirect)
    requires IsRun(Next(After(start, before), redirect), after) && NoRestart(after)
    ensures var w, key := Next(After(start, before), redirect), redirect.key;
      var pending := PendingEntry(redirect.id, redirect.providerID, redirect.at);
      key in w.store
      && (key in After(w, after).store && After(w, after).store[key] == pending <==> !RunEndsLogin(w, after, key))
  {
    RunKeepsSound(start, before);
    StepKeepsSound(After(start, before), redirect);
    StaysPendingExactlyWhen(Next(After(start, before), redirect), after, redirect.key);
  }

  /** Any login that is completed ends all the others that were begun less than ten minutes before. */
  lemma LoginEndsOthers(w: World, e: Event, key: string)
    requires e.Callback? && e.c.entrySaved && e.c.state != key && key in w.store && IsPending(w.store[key])
    requires ClaimedEntry(w.store, w.ledger.users, e.providers, e.endpoint, e.c).Some?
    requires e.c.cleanupAt < w.store[key].createdAt + TOKEN_GRACE
    ensures key !in Next(w, e).store
    ensures forall later: CallbackRequest, providers, endpoint, licenses :: later.state == key ==>
      ReplyTo(Next(w, e).store, Next(w, e).ledger.users, providers, licenses, endpoint, later) == Refused
  {
  }
}
