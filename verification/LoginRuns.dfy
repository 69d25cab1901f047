/**
 Sequential runs of the whole login system: redirects, callbacks, cleanups,
 renewals, requests on the user store, and restarts from the saved file. Every
 handler is one step.
 */
module LoginRuns {
  import opened Common
  import opened OidcTypes
  import opened Cleanup
  import opened RenewalSpec
  import opened LoginSpec
  import opened Users
  import opened UserRuns
  import opened Handlers
  import opened RequestEffects
  import opened LoginFlow

  /**
   The users in memory and in users.json, the states and entry IDs ever made up,
   and how often a refresh has failed under each key over the whole run.
   */
  datatype Ledger = Ledger(
    users: seq<User>,
    file: Option<seq<User>>,
    usedKeys: set<string>,
    usedIDs: set<string>,
    failures: map<string, nat>
  )

  /** The entries in memory and in the saved file; `synced` says that the last save succeeded. */
  datatype World = World(store: Entries, disk: Entries, synced: bool, ledger: Ledger)

  /** Each event carries what the outside world answers, and the provider list of that moment. */
  datatype Event =
    | Redirect(key: string, id: string, providerID: string, at: Time, saved: bool)
    | Callback(providers: seq<OIDCProvider>, endpoint: Option<string>, c: CallbackRequest)
    | CleansAll(cleanups: seq<Visit>, saved: bool)
    | Renews(providers: seq<OIDCProvider>, visits: seq<RenewalVisit>, saved: bool)
    | UserRequest(r: Request, recordSaved: SaveOutcome, passwordSaved: SaveOutcome)
    | Restart

  ghost predicate Enabled(w: World, e: Event) {
    match e
    case Redirect(key, id, _, _, _) => key !in w.ledger.usedKeys && id !in w.ledger.usedIDs && id != ""
    case Callback(_, _, c) => c.newUserID != "" && !Has(w.ledger.users, ByID(c.newUserID))
    case CleansAll(cleanups, _) => IsPass(w.store, {}, cleanups)
    case Renews(_, visits, _) => RangesOver(visits, w.store.Keys)
    case UserRequest(r, _, _) => FreshID(w.ledger.users, r) && !(r.External? && r.authType.Oidc?)
    case Restart => true
  }

  predicate FailsIn(m: Entries, providers: seq<OIDCProvider>, visits: seq<RenewalVisit>, k: string) {
    && k in m
    && VisitTo(visits, k).Some?
    && Refreshes(providers, m[k], VisitTo(visits, k).value)
    && OutcomeOf(VisitTo(visits, k).value).None?
  }

  /** The world after the entries became `store` and a save of them was tried. */
  function Saving(w: World, store: Entries, saved: bool): World {
    w.(store := store, disk := if saved then store else w.disk, synced := saved)
  }

  /** The failure counts after a renewal pass. */
  function Counted(failures: map<string, nat>, m: Entries, providers: seq<OIDCProvider>, visits: seq<RenewalVisit>)
    : map<string, nat>
  {
    map k | k in failures.Keys + m.Keys ::
      FailuresOf(failures, k) + if FailsIn(m, providers, visits, k) then 1 else 0
  }

  /** The users that a restart finds in users.json. */
  function Reloaded(file: Option<seq<User>>): seq<User> {
    if file.Some? then file.value else []
  }

  ghost function Next(w: World, e: Event): World {
    var x := w.ledger;
    match e
    case Redirect(key, id, providerID, at, saved) =>
      Saving(w.(ledger := x.(usedKeys := x.usedKeys + {key}, usedIDs := x.usedIDs + {id})),
             w.store[key := PendingEntry(id, providerID, at)], saved)
    case Callback(providers, endpoint, c) =>
      var w' := w.(ledger := x.(users := UsersAfter(w.store, x.users, providers, endpoint, c),
                                file := UsersFileAfter(x.file, w.store, x.users, providers, endpoint, c)));
      (match ClaimedEntry(w.store, x.users, providers, endpoint, c)
       case None => w'
       case Some(entry) => Saving(w', w.store[c.state := entry], c.entrySaved)
                             .(store := EntriesAfter(w.store, x.users, providers, endpoint, c)))
    case CleansAll(cleanups, saved) =>
      if PassCount(w.store, cleanups) > 0
      then Saving(w, PassResult(w.store, cleanups), saved)
      else w.(store := PassResult(w.store, cleanups))
    case Renews(providers, visits, saved) =>
      var w' := w.(ledger := x.(failures := Counted(x.failures, w.store, providers, visits)));
      if RefreshedKeys(w.store, providers, visits) == [] then w'
      else Saving(w', AfterVisits(w.store, providers, visits), saved)
    case UserRequest(r, recordSaved, passwordSaved) =>
      w.(ledger := x.(users := Handle(x.users, r),
                      file := FileHandled(x.file, x.users, r, true, recordSaved, passwordSaved)))
    case Restart => w.(store := w.disk, synced := true, ledger := x.(users := Reloaded(x.file)))
  }

  // What is assumed of the identity providers and of the user file.

  function Exchanged(w: World, e: Event): Option<OAuthData> {
    if e.Callback? then ExchangedEntry(w.store, e.providers, e.endpoint, e.c) else None
  }

  /** A restart reloads entries whose last save succeeded. */
  predicate ReloadsSaved(w: World, e: Event) {
    e.Restart? ==> w.synced
  }

  /** Moreover access tokens are non-empty, and the user list can be saved during a login. */
  predicate Assumed(w: World, e: Event) {
    var u := Exchanged(w, e);
    ReloadsSaved(w, e) && (u.Some? ==> u.value.TokenBearing() && e.c.userSaved.Saved?)
  }

  /** The identity that a login brings, if it brings one, obeys a rule of the identity providers. */
  ghost predicate Obeys(rule: Identity -> bool, w: World, e: Event) {
    var u := Exchanged(w, e);
    u.Some? ==> rule(IdentityOf(u.value))
  }

  // Runs.

  ghost function After(w: World, es: seq<Event>): World
    decreases |es|
  {
    if es == [] then w else After(Next(w, es[0]), es[1..])
  }

  /** Any run: saves may fail, and tokens may be empty. */
  ghost predicate IsRun(w: World, es: seq<Event>)
    decreases |es|
  {
    es == [] || (Enabled(w, es[0]) && IsRun(Next(w, es[0]), es[1..]))
  }

  ghost predicate RunReloadsSaved(w: World, es: seq<Event>)
    decreases |es|
  {
    es == [] || (ReloadsSaved(w, es[0]) && RunReloadsSaved(Next(w, es[0]), es[1..]))
  }

  ghost predicate ValidRun(w: World, es: seq<Event>)
    decreases |es|
  {
    es == [] || (Enabled(w, es[0]) && Assumed(w, es[0]) && ValidRun(Next(w, es[0]), es[1..]))
  }

  ghost predicate RunObeys(rule: Identity -> bool, w: World, es: seq<Event>)
    decreases |es|
  {
    es == [] || (Obeys(rule, w, es[0]) && RunObeys(rule, Next(w, es[0]), es[1..]))
  }

  /** A new installation: no entries, and users of which none is linked to an entry. */
  ghost predicate IsStart(w: World) {
    && w.store == w.disk == map[] && w.synced && w.ledger.failures == map[]
    && SoundUsers(w.ledger.users) && SoundUsers(Reloaded(w.ledger.file))
    && Unlinked(w.ledger.users) && Unlinked(Reloaded(w.ledger.file))
  }

  ghost predicate Unlinked(us: seq<User>) {
    forall i :: 0 <= i < |us| ==> us[i].oidcID == ""
  }

  // What every run keeps.

  /** Logins and IDs are distinct in memory and in users.json, and keys come from redirects. */
  ghost predicate IsSound(w: World) {
    && SoundUsers(w.ledger.users) && SoundUsers(Reloaded(w.ledger.file))
    && w.store.Keys <= w.ledger.usedKeys && w.disk.Keys <= w.ledger.usedKeys
  }

  lemma FirstOpKeepsSound(us: seq<User>, r: Request)
    requires SoundUsers(us) && FreshID(us, r) && Ops(us, r) != []
    ensures SoundUsers(Apply(us, Ops(us, r)[0]))
  {
    HandlerOpsAre(us, r);
    HandlerOpKeeps(us, Ops(us, r)[0]);
  }

  /** Whatever a request leaves in users.json is sound. */
  lemma RequestKeepsFileSound(file: Option<seq<User>>, us: seq<User>, r: Request, saved: SaveOutcome,
                              passwordSaved: SaveOutcome)
    requires SoundUsers(us) && FreshID(us, r) && SoundUsers(Reloaded(file))
    ensures SoundUsers(Handle(us, r)) && SoundUsers(Reloaded(FileHandled(file, us, r, true, saved, passwordSaved)))
  {
    FileIsReached(file, us, r, true, saved, passwordSaved);
    HandlersKeepUsersSound(us, r);
    if Ops(us, r) != [] {
      FirstOpKeepsSound(us, r);
    }
  }

  lemma CallbackKeepsSound(w: World, e: Event)
    requires IsSound(w) && Enabled(w, e) && e.Callback?
    ensures IsSound(Next(w, e))
  {
    var u := Exchanged(w, e);
    if u.Some? {
      RequestKeepsFileSound(w.ledger.file, w.ledger.users, UserLogin(e.c, u.value), e.c.userSaved, e.c.userSaved);
    }
  }

  lemma StepKeepsSound(w: World, e: Event)
    requires IsSound(w) && Enabled(w, e)
    ensures IsSound(Next(w, e))
  {
    match e
    case Redirect(_, _, _, _, _) =>
    case Callback(_, _, _) => CallbackKeepsSound(w, e);
    case CleansAll(cleanups, _) => PassOnlyRemoves(w.store, cleanups);
    case Renews(providers, visits, _) => PassKeepsKeys(w.store, providers, visits);
    case UserRequest(r, recordSaved, passwordSaved) =>
      RequestKeepsFileSound(w.ledger.file, w.ledger.users, r, recordSaved, passwordSaved);
    case Restart =>
  }

  /** In every run, whatever fails in it, the users stay sound. */
  lemma {:induction false} RunKeepsSound(w: World, es: seq<Event>)
    requires IsSound(w) && IsRun(w, es)
    ensures IsSound(After(w, es))
    decreases |es|
  {
    if es != [] {
      StepKeepsSound(w, es[0]);
      RunKeepsSound(Next(w, es[0]), es[1..]);
    }
  }

  // Retries over a run.

  ghost predicate AreCounted(failures: map<string, nat>, m: Entries) {
    forall k :: k in m ==> RetriesInBounds(m[k]) && m[k].renewalRetries == FailuresOf(failures, k)
  }

  /** Every entry has counted the failures under its key. */
  ghost predicate AllCounted(w: World) {
    && (forall k :: k in w.ledger.failures ==> k in w.ledger.usedKeys && w.ledger.failures[k] <= RENEWAL_RETRIES)
    && AreCounted(w.ledger.failures, w.store) && (w.synced ==> AreCounted(w.ledger.failures, w.disk))
  }

  lemma RenewalCounts(failures: map<string, nat>, m: Entries, providers: seq<OIDCProvider>, visits: seq<RenewalVisit>,
                      k: string)
    requires RangesOver(visits, m.Keys) && k in m && RetriesInBounds(m[k])
    requires m[k].renewalRetries == FailuresOf(failures, k)
    ensures var n := AfterVisits(m, providers, visits);
      k in n && RetriesInBounds(n[k]) && n[k].renewalRetries == FailuresOf(Counted(failures, m, providers, visits), k)
  {
    PassIsPerEntry(m, providers, visits, m.Keys, k);
    VisitToEach(visits, m.Keys, k);
    var v := VisitTo(visits, k).value;
    if Refreshes(providers, m[k], v) {
      RefreshKeeps(m[k], v.discovery.value, v.response);
    }
  }

  lemma PassCounts(w: World, failures': map<string, nat>, providers: seq<OIDCProvider>, visits: seq<RenewalVisit>)
    requires AllCounted(w) && IsSound(w) && RangesOver(visits, w.store.Keys)
    requires failures' == Counted(w.ledger.failures, w.store, providers, visits)
    ensures AreCounted(failures', AfterVisits(w.store, providers, visits))
    ensures forall k :: k in failures' ==> k in w.ledger.usedKeys && failures'[k] <= RENEWAL_RETRIES
  {
    PassKeepsKeys(w.store, providers, visits);
    forall k | k in w.store
      ensures var n := AfterVisits(w.store, providers, visits);
        RetriesInBounds(n[k]) && n[k].renewalRetries == FailuresOf(failures', k) {
      RenewalCounts(w.ledger.failures, w.store, providers, visits, k);
    }
  }

  lemma {:induction false} NoRefreshNoChange(m: Entries, providers: seq<OIDCProvider>, visits: seq<RenewalVisit>)
    requires RefreshedKeys(m, providers, visits) == []
    ensures AfterVisits(m, providers, visits) == m
  {
    if visits != [] {
      NoRefreshNoChange(m, providers, visits[..|visits| - 1]);
    }
  }

  /** A pass that refreshes nothing counts nothing. */
  lemma IdlePassCounts(failures: map<string, nat>, m: Entries, providers: seq<OIDCProvider>, visits: seq<RenewalVisit>,
                       disk: Entries)
    requires RangesOver(visits, m.Keys) && RefreshedKeys(m, providers, visits) == [] && AreCounted(failures, disk)
    ensures AfterVisits(m, providers, visits) == m && AreCounted(Counted(failures, m, providers, visits), disk)
  {
    NoRefreshNoChange(m, providers, visits);
    forall k ensures FailuresOf(Counted(failures, m, providers, visits), k) == FailuresOf(failures, k) {
      RefreshedWhenEligible(m, providers, visits, m.Keys, k);
    }
  }

  lemma RenewsCounts(w: World, e: Event)
    requires AllCounted(w) && IsSound(w) && Enabled(w, e) && e.Renews?
    ensures AllCounted(Next(w, e))
  {
    PassCounts(w, Next(w, e).ledger.failures, e.providers, e.visits);
    if RefreshedKeys(w.store, e.providers, e.visits) == [] {
      NoRefreshNoChange(w.store, e.providers, e.visits);
      if w.synced {
        IdlePassCounts(w.ledger.failures, w.store, e.providers, e.visits, w.disk);
      }
    }
  }

  lemma ClaimCounts(failures: map<string, nat>, m: Entries, key: string, entry: OAuthData, now: Time)
    requires AreCounted(failures, m) && key in m
    requires entry.renewalRetries == m[key].renewalRetries && entry.renewalFailed == m[key].renewalFailed
    ensures AreCounted(failures, m[key := entry]) && AreCounted(failures, Cleaned(m[key := entry], entry, now))
  {
  }

  lemma CallbackCounts(w: World, e: Event)
    requires AllCounted(w) && Enabled(w, e) && e.Callback?
    ensures AllCounted(Next(w, e))
  {
    var claimed := ClaimedEntry(w.store, w.ledger.users, e.providers, e.endpoint, e.c);
    ClaimIsExchanged(w, e);
    if claimed.Some? {
      WithTokenKeeps(e.c.verifier, e.endpoint.value, e.c.exchange, w.store[e.c.state]);
      ClaimCounts(w.ledger.failures, w.store, e.c.state, claimed.value, e.c.cleanupAt);
    }
  }

  lemma StepCounts(w: World, e: Event)
    requires AllCounted(w) && IsSound(w) && Enabled(w, e) && ReloadsSaved(w, e)
    ensures AllCounted(Next(w, e))
  {
    match e
    case CleansAll(cleanups, _) => PassOnlyRemoves(w.store, cleanups);
    case Renews(_, _, _) => RenewsCounts(w, e);
    case Callback(_, _, _) => CallbackCounts(w, e);
    case _ =>
  }

  lemma {:induction false} RunCounts(w: World, es: seq<Event>)
    requires AllCounted(w) && IsSound(w) && IsRun(w, es) && RunReloadsSaved(w, es)
    ensures AllCounted(After(w, es))
    decreases |es|
  {
    if es != [] {
      StepKeepsSound(w, es[0]);
      StepCounts(w, es[0]);
      RunCounts(Next(w, es[0]), es[1..]);
    }
  }

  /**
   In every run in which restarts reload what was saved last, each key has had at
   most three failed refreshes, and after the third no pass refreshes its entry again.
   */
  lemma AtMostThreeFailures(start: World, es: seq<Event>, key: string, providers: seq<OIDCProvider>,
                            visits: seq<RenewalVisit>)
    requires IsStart(start) && IsRun(start, es) && RunReloadsSaved(start, es)
    requires RangesOver(visits, After(start, es).store.Keys)
    ensures var w := After(start, es);
      FailuresOf(w.ledger.failures, key) <= 3
      && (FailuresOf(w.ledger.failures, key) == 3 ==> key !in RefreshedKeys(w.store, providers, visits))
      && (key in w.store ==> w.store[key].renewalRetries == FailuresOf(w.ledger.failures, key))
  {
    RunCounts(start, es);
    var w := After(start, es);
    RefreshedWhenEligible(w.store, providers, visits, w.store.Keys, key);
  }

  // The invariant of runs whose logins save the users.

  /** No user but the one with this login is linked to the entry with this ID. */
  ghost predicate LinkedOnlyBy(us: seq<User>, id: string, login: string) {
    forall i :: 0 <= i < |us| && us[i].oidcID == id ==> us[i].login == login
  }

  /** In memory, nor in users.json. */
  ghost predicate LinkedOnly(x: Ledger, id: string, login: string) {
    LinkedOnlyBy(x.users, id, login) && LinkedOnlyBy(Reloaded(x.file), id, login)
  }

  /** As no login is empty, a pending entry, whose email is, has no user linked to it. */
  ghost predicate EntryInv(x: Ledger, e: OAuthData) {
    && e.id in x.usedIDs && e.id != ""
    && LinkedOnly(x, e.id, e.userInfo.email)
    && (if e.TokenBearing() then e.userInfo.email != "" else e.subject == "" && e.userInfo.email == "")
  }

  ghost predicate DistinctIDs(m: Entries) {
    forall a, b :: a in m && b in m && a != b ==> m[a].id != m[b].id
  }

  ghost predicate EntriesInv(x: Ledger, m: Entries) {
    DistinctIDs(m) && forall k :: k in m ==> EntryInv(x, m[k])
  }

  ghost predicate LinksIn(us: seq<User>, ids: set<string>) {
    forall i :: 0 <= i < |us| ==> us[i].oidcID == "" || us[i].oidcID in ids
  }

  /** The file differs from memory only by entries that a cleanup has removed. */
  ghost predicate DiskAhead(mem: Entries, disk: Entries) {
    && Within(mem, disk)
    && forall k :: k in disk && k !in mem && disk[k].TokenBearing() ==>
      exists j :: j in mem && Supersedes(mem[j], disk[k])
  }

  ghost predicate Inv(w: World) {
    && IsSound(w)
    && LinksIn(w.ledger.users, w.ledger.usedIDs) && LinksIn(Reloaded(w.ledger.file), w.ledger.usedIDs)
    && EntriesInv(w.ledger, w.store)
    && (w.synced ==> EntriesInv(w.ledger, w.disk) && DiskAhead(w.store, w.disk))
  }

  /** Whoever may be linked to an entry before may be so afterwards, and nobody else. */
  ghost predicate LinksKept(x: Ledger, x': Ledger) {
    forall id, login :: id != "" && LinkedOnly(x, id, login) ==> LinkedOnly(x', id, login)
  }

  lemma SubsetKeepsEntriesInv(x: Ledger, m: Entries, n: Entries)
    requires EntriesInv(x, m) && Within(n, m)
    ensures EntriesInv(x, n)
  {
  }

  /** The invariant of the entries carries over to a ledger that is no worse for any of them. */
  lemma LedgerKeepsEntriesInv(x: Ledger, x': Ledger, m: Entries)
    requires EntriesInv(x, m) && x.usedIDs <= x'.usedIDs && LinksKept(x, x')
    ensures EntriesInv(x', m)
  {
    forall k | k in m ensures EntryInv(x', m[k]) {
      assert EntryInv(x, m[k]);
    }
  }

  lemma InsertKeepsEntriesInv(x: Ledger, m: Entries, key: string, entry: OAuthData)
    requires EntriesInv(x, m) && EntryInv(x, entry)
    requires forall k :: k in m && k != key ==> m[k].id != entry.id
    ensures EntriesInv(x, m[key := entry])
  {
  }

  lemma RedirectKeeps(w: World, e: Event)
    requires Inv(w) && e.Redirect? && Enabled(w, e)
    ensures Inv(Next(w, e))
  {
    var x, x' := w.ledger, Next(w, e).ledger;
    StepKeepsSound(w, e);
    LedgerKeepsEntriesInv(x, x', w.store);
    if w.synced {
      LedgerKeepsEntriesInv(x, x', w.disk);
    }
    forall k | k in w.store ensures w.store[k].id != e.id {
      assert EntryInv(x, w.store[k]);
    }
    InsertKeepsEntriesInv(x', w.store, e.key, PendingEntry(e.id, e.providerID, e.at));
  }

  lemma CleansKeeps(w: World, e: Event)
    requires Inv(w) && e.CleansAll? && Enabled(w, e)
    ensures Inv(Next(w, e))
  {
    PassOnlyRemoves(w.store, e.cleanups);
    PassCountDetectsChange(w.store, e.cleanups);
    SubsetKeepsEntriesInv(w.ledger, w.store, Next(w, e).store);
  }

  /** A user list whose links only shrank links nobody to an entry who was not linked to it before. */
  lemma LinksOnlyShrink(us: seq<User>, us': seq<User>, ids: set<string>)
    requires LinksShrink(us, us') && LinksIn(us, ids)
    ensures LinksIn(us', ids)
    ensures forall id, login :: id != "" && LinkedOnlyBy(us, id, login) ==> LinkedOnlyBy(us', id, login)
  {
    forall i | 0 <= i < |us'| && us'[i].oidcID != ""
      ensures Has(us, ByLogin(us'[i].login)) && us[First(us, ByLogin(us'[i].login))].oidcID == us'[i].oidcID {
      assert us'[i].oidcID == LinkOf(us, us'[i].login);
    }
  }

  lemma UserRequestKeeps(w: World, e: Event)
    requires Inv(w) && e.UserRequest? && Enabled(w, e)
    ensures Inv(Next(w, e))
  {
    var x, x' := w.ledger, Next(w, e).ledger;
    StepKeepsSound(w, e);
    OnlyOidcLoginsSetLinks(x.users, e.r);
    LinksOnlyShrink(x.users, x'.users, x.usedIDs);
    FileIsReached(x.file, x.users, e.r, true, e.recordSaved, e.passwordSaved);
    if Ops(x.users, e.r) != [] {
      FirstOpSetsNoLink(x.users, e.r);
      LinksOnlyShrink(x.users, Apply(x.users, Ops(x.users, e.r)[0]), x.usedIDs);
    }
    LedgerKeepsEntriesInv(x, x', w.store);
    if w.synced {
      LedgerKeepsEntriesInv(x, x', w.disk);
    }
  }

  lemma RenewalKeepsEntry(x: Ledger, x': Ledger, m: Entries, providers: seq<OIDCProvider>, visits: seq<RenewalVisit>,
                          k: string)
    requires RangesOver(visits, m.Keys) && k in m && EntryInv(x, m[k]) && x' == x.(failures := x'.failures)
    ensures k in AfterVisits(m, providers, visits) && EntryInv(x', AfterVisits(m, providers, visits)[k])
    ensures AfterVisits(m, providers, visits)[k].id == m[k].id
  {
    RenewalKeepsIdentities(m, providers, visits, k);
  }

  lemma RenewalKeepsEntries(x: Ledger, x': Ledger, m: Entries, providers: seq<OIDCProvider>, visits: seq<RenewalVisit>)
    requires EntriesInv(x, m) && RangesOver(visits, m.Keys) && x' == x.(failures := x'.failures)
    ensures EntriesInv(x', AfterVisits(m, providers, visits))
  {
    PassKeepsKeys(m, providers, visits);
    forall k | k in m
      ensures EntryInv(x', AfterVisits(m, providers, visits)[k]) && AfterVisits(m, providers, visits)[k].id == m[k].id
    {
      RenewalKeepsEntry(x, x', m, providers, visits, k);
    }
  }

  lemma RenewsKeeps(w: World, e: Event)
    requires Inv(w) && e.Renews? && Enabled(w, e)
    ensures Inv(Next(w, e))
  {
    StepKeepsSound(w, e);
    RenewalKeepsEntries(w.ledger, Next(w, e).ledger, w.store, e.providers, e.visits);
    if RefreshedKeys(w.store, e.providers, e.visits) == [] {
      NoRefreshNoChange(w.store, e.providers, e.visits);
      LedgerKeepsEntriesInv(w.ledger, Next(w, e).ledger, w.store);
      if w.synced {
        LedgerKeepsEntriesInv(w.ledger, Next(w, e).ledger, w.disk);
      }
    }
  }

  lemma RestartKeeps(w: World, e: Event)
    requires Inv(w) && e.Restart? && w.synced
    ensures Inv(Next(w, e))
  {
    LedgerKeepsEntriesInv(w.ledger, Next(w, e).ledger, w.disk);
  }

  lemma ClaimIsExchanged(w: World, e: Event)
    requires e.Callback?
    ensures var entry := ClaimedEntry(w.store, w.ledger.users, e.providers, e.endpoint, e.c);
      entry.Some? ==>
        && IsClaim(w.store, e.providers, e.c) && Exchanged(w, e).Some?
        && entry.value == Exchanged(w, e).value.(suspended := entry.value.suspended)
        && ExternalAccepted(w.ledger.users, Exchanged(w, e).value.userInfo.email, e.c.hookOk)
        && IdentityOf(entry.value) == IdentityOf(Exchanged(w, e).value) && entry.value.id == w.store[e.c.state].id
        && Next(w, e).ledger.users == Handle(w.ledger.users, UserLogin(e.c, Exchanged(w, e).value))
        && Next(w, e).ledger == w.ledger.(users := Next(w, e).ledger.users, file := Some(Next(w, e).ledger.users))
  {
    if Exchanged(w, e).Some? {
      WithTokenKeeps(e.c.verifier, e.endpoint.value, e.c.exchange, w.store[e.c.state]);
      ExternalSaves(w.ledger.file, w.ledger.users, UserLogin(e.c, Exchanged(w, e).value), true, e.c.userSaved);
    }
  }

  /** A callback that claims no entry changes nothing. */
  lemma NoClaimNoChange(w: World, e: Event)
    requires SoundUsers(w.ledger.users) && e.Callback? && Enabled(w, e) && Assumed(w, e)
    requires ClaimedEntry(w.store, w.ledger.users, e.providers, e.endpoint, e.c).None?
    ensures Next(w, e) == w
  {
    var u := Exchanged(w, e);
    if u.Some? {
      OidcLoginLinks(w.ledger.users, UserLogin(e.c, u.value));
      ExternalSaves(w.ledger.file, w.ledger.users, UserLogin(e.c, u.value), true, e.c.userSaved);
    }
  }

  /** Users that are as before, except for one login that is now linked to `id`. */
  lemma LinkedUsersAre(us: seq<User>, us': seq<User>, login: string, id: string, ids: set<string>)
    requires SoundUsers(us) && Distinct(us') && id in ids && LinksIn(us, ids)
    requires Has(us', ByLogin(login)) && us'[First(us', ByLogin(login))].oidcID == id
    requires forall i :: 0 <= i < |us'| && us'[i].login != login ==> i < |us| && us'[i] == us[i]
    ensures LinksIn(us', ids)
    ensures forall other, l :: other != id && LinkedOnlyBy(us, other, l) ==> LinkedOnlyBy(us', other, l)
    ensures LinkedOnlyBy(us, id, "") ==> LinkedOnlyBy(us', id, login)
  {
    var k := First(us', ByLogin(login));
    assert forall i :: 0 <= i < |us'| && us'[i].login == login ==> i == k;
  }

  /** What a callback that claims an entry does to the ledger. */
  lemma ClaimLedger(w: World, e: Event, entry: OAuthData)
    requires Inv(w) && e.Callback? && Enabled(w, e) && Assumed(w, e)
    requires ClaimedEntry(w.store, w.ledger.users, e.providers, e.endpoint, e.c) == Some(entry)
    ensures var x, x' := w.ledger, Next(w, e).ledger;
      && x'.usedIDs == x.usedIDs && LinksIn(x'.users, x.usedIDs) && x'.file == Some(x'.users)
      && IsClaim(w.store, e.providers, e.c)
      && EntryInv(x', entry) && entry.id == w.store[e.c.state].id && entry.TokenBearing()
      && forall id, login :: id != entry.id && LinkedOnly(x, id, login) ==> LinkedOnly(x', id, login)
  {
    ClaimIsExchanged(w, e);
    var u, pending := Exchanged(w, e).value, w.store[e.c.state];
    var r := UserLogin(e.c, u);
    assert EntryInv(w.ledger, pending);
    WithTokenKeeps(e.c.verifier, e.endpoint.value, e.c.exchange, pending);
    OidcLoginLinks(w.ledger.users, r);
    HandlersKeepUsersSound(w.ledger.users, r);
    LinkedUsersAre(w.ledger.users, Handle(w.ledger.users, r), r.login, r.authID, w.ledger.usedIDs);
  }

  lemma ClaimKeepsEntries(x: Ledger, x': Ledger, m: Entries, key: string, entry: OAuthData)
    requires EntriesInv(x, m) && key in m && entry.id == m[key].id
    requires x'.usedIDs == x.usedIDs && EntryInv(x', entry)
    requires forall id, login :: id != entry.id && LinkedOnly(x, id, login) ==> LinkedOnly(x', id, login)
    ensures EntriesInv(x', m[key := entry])
  {
    forall k | k in m && k != key ensures EntryInv(x', m[k]) && m[k].id != entry.id {
      assert EntryInv(x, m[k]);
    }
  }

  lemma CallbackKeeps(w: World, e: Event)
    requires Inv(w) && e.Callback? && Enabled(w, e) && Assumed(w, e)
    ensures Inv(Next(w, e))
  {
    var claimed := ClaimedEntry(w.store, w.ledger.users, e.providers, e.endpoint, e.c);
    if claimed.None? {
      NoClaimNoChange(w, e);
    } else {
      var entry, x' := claimed.value, Next(w, e).ledger;
      var stored := w.store[e.c.state := entry];
      StepKeepsSound(w, e);
      ClaimLedger(w, e, entry);
      ClaimKeepsEntries(w.ledger, x', w.store, e.c.state, entry);
      SubsetKeepsEntriesInv(x', stored, Cleaned(stored, entry, e.c.cleanupAt));
      ClaimCleansAhead(stored, e.c.state, e.c.cleanupAt);
    }
  }

  /** Saving before the cleanup leaves in the file only what the claimed entry supersedes, or pending entries. */
  lemma ClaimCleansAhead(m: Entries, key: string, now: Time)
    requires key in m && m[key].TokenBearing()
    ensures DiskAhead(Cleaned(m, m[key], now), m)
  {
    assert key in Cleaned(m, m[key], now);
  }

  lemma StepKeepsInv(w: World, e: Event)
    requires Inv(w) && Enabled(w, e) && Assumed(w, e)
    ensures Inv(Next(w, e))
  {
    match e
    case Redirect(_, _, _, _, _) => RedirectKeeps(w, e);
    case Callback(_, _, _) => CallbackKeeps(w, e);
    case CleansAll(_, _) => CleansKeeps(w, e);
    case Renews(_, _, _) => RenewsKeeps(w, e);
    case UserRequest(_, _, _) => UserRequestKeeps(w, e);
    case Restart => RestartKeeps(w, e);
  }

  lemma {:induction false} RunKeepsInv(w: World, es: seq<Event>)
    requires Inv(w) && ValidRun(w, es)
    ensures Inv(After(w, es))
    decreases |es|
  {
    if es != [] {
      StepKeepsInv(w, es[0]);
      RunKeepsInv(Next(w, es[0]), es[1..]);
    }
  }

  /** Every reachable world keeps the invariant. */
  lemma ReachableWorldsAreSound(start: World, es: seq<Event>)
    requires IsStart(start) && ValidRun(start, es)
    ensures Inv(After(start, es))
  {
    RunKeepsInv(start, es);
  }

  // What identity providers say of the logins of a run holds for the entries.

  ghost predicate AllObey(rule: Identity -> bool, m: Entries) {
    forall k :: k in m && m[k].TokenBearing() ==> rule(IdentityOf(m[k]))
  }

  lemma RenewalKeepsIdentities(m: Entries, providers: seq<OIDCProvider>, visits: seq<RenewalVisit>, k: string)
    requires RangesOver(visits, m.Keys) && k in m
    ensures var n := AfterVisits(m, providers, visits);
      n.Keys == m.Keys && IdentityOf(n[k]) == IdentityOf(m[k]) && (n[k].TokenBearing() <==> m[k].TokenBearing())
  {
    PassKeepsKeys(m, providers, visits);
    PassIsPerEntry(m, providers, visits, m.Keys, k);
  }

  lemma StepKeepsIdentities(rule: Identity -> bool, w: World, e: Event)
    requires Enabled(w, e) && Obeys(rule, w, e)
    requires AllObey(rule, w.store) && AllObey(rule, w.disk)
    ensures AllObey(rule, Next(w, e).store) && AllObey(rule, Next(w, e).disk)
  {
    match e
    case CleansAll(cleanups, _) => PassOnlyRemoves(w.store, cleanups);
    case Renews(providers, visits, _) =>
      forall k | k in w.store
        ensures var n := AfterVisits(w.store, providers, visits);
          n.Keys == w.store.Keys && (n[k].TokenBearing() ==> rule(IdentityOf(n[k]))) {
        RenewalKeepsIdentities(w.store, providers, visits, k);
      }
      PassKeepsKeys(w.store, providers, visits);
    case Callback(_, _, c) =>
      ClaimIsExchanged(w, e);
      var entry := ClaimedEntry(w.store, w.ledger.users, e.providers, e.endpoint, c);
      if entry.Some? {
        assert AllObey(rule, w.store[c.state := entry.value]);
      }
    case _ =>
  }

  lemma {:induction false} RunKeepsIdentities(rule: Identity -> bool, w: World, es: seq<Event>)
    requires ValidRun(w, es) && RunObeys(rule, w, es)
    requires AllObey(rule, w.store) && AllObey(rule, w.disk)
    ensures AllObey(rule, After(w, es).store) && AllObey(rule, After(w, es).disk)
    decreases |es|
  {
    if es != [] {
      StepKeepsIdentities(rule, w, es[0]);
      RunKeepsIdentities(rule, Next(w, es[0]), es[1..]);
    }
  }

  // Crash recovery.

  /** Subjects are non-empty, and provider and subject determine the email. */
  function MailByProvider(mailOf: (string, string) -> string): Identity -> bool {
    (d: Identity) => d.subject != "" && d.email == mailOf(d.providerID, d.subject)
  }

  /** The email determines provider and subject. */
  ghost predicate IsInjective(f: (string, string) -> string) {
    forall p, s, q, t :: f(p, s) == f(q, t) ==> p == q && s == t
  }

  lemma EntriesAreWellIdentified(x: Ledger, mailOf: (string, string) -> string, m: Entries)
    requires EntriesInv(x, m) && AllObey(MailByProvider(mailOf), m) && IsInjective(mailOf)
    ensures WellIdentified(m)
  {
    forall k | k in m ensures m[k].TokenBearing() ==>
        m[k].userInfo.email != "" && m[k].subject != ""
          && m[k].userInfo.email == mailOf(m[k].oidcProviderID, m[k].subject)
      ensures !m[k].TokenBearing() ==> m[k].userInfo.email == "" && m[k].subject == "" {
      assert EntryInv(x, m[k]);
      assert m[k].TokenBearing() ==> MailByProvider(mailOf)(IdentityOf(m[k]));
    }
  }

  /** What a cleanup removed was not the newest of its identity, so file and memory have the same newest entries. */
  lemma AheadHasSameNewest(mem: Entries, disk: Entries)
    requires DiskAhead(mem, disk) && WellIdentified(disk)
    ensures WellIdentified(mem) && NewestKeys(mem) == NewestKeys(disk)
  {
    forall k | IsNewest(disk, k) ensures IsNewest(mem, k) {
      NewestIsNotSuperseded(disk, k);
    }
    forall k | IsNewest(mem, k) ensures IsNewest(disk, k) {
      if !IsNewest(disk, k) {
        var top := NewestSupersedes(disk, k);
        NewestIsNotSuperseded(disk, top);
        assert top in mem;
        NewestIsNotSuperseded(mem, k);
      }
    }
  }

  /**
   Whenever the last save succeeded, memory differs from the file only by
   entries that a cleanup removed, and a full pass over the reloaded file
   leaves the same token-bearing entries as a full pass over memory.
   */
  lemma CrashRecovery(start: World, es: seq<Event>, mailOf: (string, string) -> string, onMemory: seq<Visit>,
                      onFile: seq<Visit>)
    requires IsStart(start) && ValidRun(start, es) && RunObeys(MailByProvider(mailOf), start, es) && IsInjective(mailOf)
    requires After(start, es).synced
    requires IsPass(After(start, es).store, {}, onMemory) && IsPass(After(start, es).disk, {}, onFile)
    ensures var w := After(start, es);
      DiskAhead(w.store, w.disk)
      && TokenBearingPart(PassResult(w.disk, onFile)) == TokenBearingPart(PassResult(w.store, onMemory))
  {
    RunKeepsInv(start, es);
    RunKeepsIdentities(MailByProvider(mailOf), start, es);
    var w := After(start, es);
    EntriesAreWellIdentified(w.ledger, mailOf, w.disk);
    AheadHasSameNewest(w.store, w.disk);
    SameNewestSamePart(w.disk, onFile, w.store, onMemory);
  }
}
