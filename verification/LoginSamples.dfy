/** Concrete runs: that the theorems of the round trip apply, and that what they assume is needed. */
module LoginSamples {
  import opened Common
  import opened OidcTypes
  import opened Cleanup
  import opened RenewalSpec
  import opened LoginSpec
  import opened Users
  import opened Handlers
  import opened LoginFlow
  import opened LoginRuns
  import opened PendingLogins
  import opened RoundTrip

  // Two providers that share an issuer; an ID token is spelled like the email in it.

  const PROVIDERS := [OIDCProvider("a", "", "", ""), OIDCProvider("b", "", "", "")]

  function SubjectIn(idToken: string): string {
    if idToken == "old" || idToken == "newer" then "subject" else idToken
  }

  function SampleClaims(idToken: string): Claims {
    Claims(Some(SubjectIn(idToken)), Some(idToken), None, Some("issuer"), "kid")
  }

  function SampleVerifier(): Verifier {
    Verifier((t: string) => if t == "" then None else Some(SampleClaims(t)), (a: string) => true)
  }

  const START := World(map[], map[], true, Ledger([], None, {}, {}, map[]))

  function Redirects(key: string, id: string, providerID: string, at: Time): Event {
    Redirect(key, id, providerID, at, true)
  }

  /** A login: on which provider it comes back, the state and ID of its entry, and what the entry was made with. */
  datatype Login = Login(providerID: string, state: string, id: string, madeFor: string, createdAt: Time,
      email: string, newUserID: string)

  function Pending(l: Login): OAuthData { PendingEntry(l.id, l.madeFor, l.createdAt) }

  /** Its callback brings a token that is spelled like the ID of the entry. */
  function Returns(l: Login, userSaved: SaveOutcome, cleanupAt: Time): Event {
    Callback(PROVIDERS, Some("endpoint"),
             CallbackRequest(l.providerID, "code", l.state, SampleVerifier(),
                             Some(Exchange(NO_TOKEN.(accessToken := l.id, idToken := l.email), 0)),
                             true, 0, l.newUserID, userSaved, true, cleanupAt, true))
  }

  /** And makes this of the entry. */
  function Claimed(l: Login): OAuthData {
    Pending(l).(token := NO_TOKEN.(accessToken := l.id, idToken := l.email),
                subject := SubjectIn(l.email), issuer := "issuer", userInfo := UserInfo(l.email))
  }

  function SampleUser(l: Login, userID: string): User {
    NO_USER.(id := userID, login := l.email, role := "user", oidcID := l.id)
  }

  predicate IsPending(m: Entries, l: Login) {
    && l.providerID in {"a", "b"} && l.state != "" && l.id != "" && l.email != "" && l.newUserID != ""
    && l.state in m && m[l.state] == Pending(l)
  }

  lemma ReturnExchanges(w: World, l: Login, userSaved: SaveOutcome, cleanupAt: Time)
    requires IsPending(w.store, l)
    ensures Exchanged(w, Returns(l, userSaved, cleanupAt)) == Some(Claimed(l))
  {
    var e := Returns(l, userSaved, cleanupAt);
    assert ProviderOf(PROVIDERS[1..], "b").Some?;
    assert IsClaim(w.store, e.providers, e.c);
  }

  /**
   The callback leads to these users and, if they can be saved, to the claimed entry and
   the entries its cleanup leaves.
   */
  ghost predicate Leads(w: World, e: Event, l: Login, us': seq<User>, cleanupAt: Time)
    requires e.Callback?
  {
    var claimed := ClaimedEntry(w.store, w.ledger.users, e.providers, e.endpoint, e.c);
    var file := if e.c.userSaved.WriteFailed? then w.ledger.file else Some(us');
    && Next(w, e).ledger == w.ledger.(users := us', file := file)
    && if e.c.userSaved.Saved?
       then claimed == Some(Claimed(l))
         && Next(w, e).store == Cleaned(w.store[l.state := Claimed(l)], Claimed(l), cleanupAt)
       else claimed.None? && Next(w, e).store == w.store
  }

  lemma ClaimedIs(w: World, l: Login, userSaved: SaveOutcome, cleanupAt: Time, us': seq<User>)
    requires IsPending(w.store, l)
    requires us' == Handle(w.ledger.users, UserLogin(Returns(l, userSaved, cleanupAt).c, Claimed(l)))
    requires ExternalAccepted(w.ledger.users, l.email, true)
    requires Has(us', ByLogin(l.email)) ==> !us'[First(us', ByLogin(l.email))].suspended
    ensures var e := Returns(l, userSaved, cleanupAt);
      Leads(w, e, l, us', cleanupAt)
  {
    ReturnExchanges(w, l, userSaved, cleanupAt);
    ExternalSaves(w.ledger.file, w.ledger.users, UserLogin(Returns(l, userSaved, cleanupAt).c, Claimed(l)), true,
        userSaved);
  }

  /** A user that logs in for the first time is appended. */
  lemma FirstReturn(w: World, l: Login, userSaved: SaveOutcome, cleanupAt: Time)
    requires IsPending(w.store, l) && !Has(w.ledger.users, ByLogin(l.email))
    ensures var e := Returns(l, userSaved, cleanupAt);
      Leads(w, e, l, w.ledger.users + [SampleUser(l, l.newUserID)], cleanupAt)
  {
    var r := UserLogin(Returns(l, userSaved, cleanupAt).c, Claimed(l));
    var us' := w.ledger.users + [SampleUser(l, l.newUserID)];
    ExternalMeans(w.ledger.users, r);
    FirstAfterAppend(w.ledger.users, SampleUser(l, l.newUserID));
    ClaimedIs(w, l, userSaved, cleanupAt, us');
  }

  /** The only user logs in again, and is linked to the new entry. */
  lemma NextReturn(w: World, l: Login, before: Login, userSaved: SaveOutcome, cleanupAt: Time)
    requires IsPending(w.store, l) && before.email == l.email
    requires w.ledger.users == [SampleUser(before, before.newUserID)]
    ensures var e := Returns(l, userSaved, cleanupAt);
      Leads(w, e, l, [SampleUser(l, before.newUserID)], cleanupAt)
  {
    var r, us' := UserLogin(Returns(l, userSaved, cleanupAt).c, Claimed(l)), [SampleUser(l, before.newUserID)];
    ExternalMeans(w.ledger.users, r);
    assert First(w.ledger.users, ByLogin(l.email)) == 0 && First(us', ByLogin(l.email)) == 0;
    ClaimedIs(w, l, userSaved, cleanupAt, us');
  }

  /** Every save that the event makes succeeds. */
  predicate Saves(e: Event) {
    match e
    case Redirect(_, _, _, _, saved) => saved
    case Callback(_, _, c) => c.userSaved.Saved? && c.entrySaved && c.configSaved
    case CleansAll(_, saved) => saved
    case Renews(_, _, saved) => saved
    case _ => true
  }

  predicate AllSave(es: seq<Event>) {
    es == [] || (Saves(es[|es| - 1]) && AllSave(es[..|es| - 1]))
  }

  lemma UpdatesOfTwo(a: OAuthData, b: OAuthData, c: OAuthData)
    ensures map["k1" := a, "k22" := b]["k1" := c] == map["k1" := c, "k22" := b]
    ensures map["k1" := a, "k22" := b]["k22" := c] == map["k1" := a, "k22" := c]
  {
  }

  lemma NotHas(u: User, q: Query)
    requires !Matches(q, u)
    ensures !Has([u], q)
  {
  }

  lemma NothingDropped(m: Entries, o: OAuthData, now: Time)
    requires forall k :: k in m ==> !Dropped(o, m[k], now)
    ensures Cleaned(m, o, now) == m
  {
  }

  lemma {:induction false} RunOn(w: World, rule: Identity -> bool, es: seq<Event>, e: Event)
    ensures IsRun(w, es + [e]) <==> IsRun(w, es) && Enabled(After(w, es), e)
    ensures ValidRun(w, es + [e]) <==> ValidRun(w, es) && Enabled(After(w, es), e) && Assumed(After(w, es), e)
    ensures RunObeys(rule, w, es + [e]) <==> RunObeys(rule, w, es) && Obeys(rule, After(w, es), e)
    ensures After(w, es + [e]) == Next(After(w, es), e)
    ensures AllSave(es + [e]) <==> AllSave(es) && Saves(e)
    decreases |es|
  {
    assert (es + [e])[..|es|] == es;
    if es == [] {
      assert ([e])[1..] == [];
      assert After(Next(w, e), []) == Next(w, e);
    } else {
      assert (es + [e])[1..] == es[1..] + [e];
      RunOn(Next(w, es[0]), rule, es[1..], e);
    }
  }

  // The samples. All names differ in length.

  const ALICE := Login("a", "k1", "id1", "a", 0, "alice", "u1")
  const BOB := ALICE.(email := "bob", newUserID := "u22")
  const ALICE_AGAIN := Login("a", "k22", "id22", "a", 1, "alice", "u22")
  const OLD := Login("b", "k1", "id1", "b", 0, "old", "u1")
  const NEW := Login("b", "k22", "id22", "a", 1, "newer", "u22")

  /** Later than ten minutes after all of them were made. */
  const LATER: Time := 11 * MINUTE

  function SampleRule(): Identity -> bool { MailByIssuer((issuer: string, subject: string) => subject) }

  lemma OneRedirect() returns (es: seq<Event>)
    ensures IsRun(START, es) && ValidRun(START, es) && RunObeys(SampleRule(), START, es)
    ensures After(START, es).store == map["k1" := Pending(ALICE)] && After(START, es).ledger.users == []
    ensures IsStart(START)
    ensures After(START, es).ledger.failures == map[]
  {
    var e := Redirects("k1", "id1", "a", 0);
    es := [] + [e];
    RunOn(START, SampleRule(), [], e);
    assert After(START, []) == START;
  }

  /**
   There are runs to which the round trip, and what follows on it, apply: a redirect, and
   its callback, which returns the token.
   */
  lemma RoundTripApplies(licenses: int) returns (es: seq<Event>, e: Event, entry: OAuthData)
    ensures var w := After(START, es);
      && IsStart(START) && ValidRun(START, es) && RunObeys(SampleRule(), START, es)
      && e.Callback? && Enabled(w, e) && Assumed(w, e) && Obeys(SampleRule(), w, e)
      && ClaimedEntry(w.store, w.ledger.users, e.providers, e.endpoint, e.c) == Some(entry)
      && IsUniqueToken(w.store, e.c.state, entry) && IsNewestLogin(w.store, e.c.state, entry)
      && SavesClaim(w, e, entry) && entry.subject != ""
        && (forall j :: j in w.store && j != e.c.state ==> !Supersedes(w.store[j], entry))
      && ReplyTo(w.store, w.ledger.users, e.providers, licenses, e.endpoint, e.c)
        == Reply(true, false, false, entry.token.accessToken)
  {
    es := OneRedirect();
    e, entry := Returns(ALICE, Saved, 0), Claimed(ALICE);
    FirstReturn(After(START, es), ALICE, Saved, 0);
    ReturnExchanges(After(START, es), ALICE, Saved, 0);
  }

  /**
   The round trip fails when a save of the user list has failed: after a redirect
   "alice" logs in, the save fails, and "bob" then claims the same pending entry.
   Both users are linked to it, and bob's token resolves to alice.
   */
  lemma FailedUserSaveBreaksRoundTrip() returns (es: seq<Event>, e: Event, entry: OAuthData)
    ensures var w := After(START, es);
      && IsStart(START) && IsRun(START, es) && SavesClaim(w, e, entry) && entry.userInfo.email == "bob"
      && IsUniqueToken(w.store, e.c.state, entry) && IsNewestLogin(w.store, e.c.state, entry)
        && HasNoRival(w.store, e.c.state, entry)
      && ReplyTo(w.store, w.ledger.users, e.providers, 0, e.endpoint, e.c)
        == Reply(true, false, false, entry.token.accessToken)
      && ResolvesTo(Next(w, e), entry.issuer, entry.subject, "alice")
        && !ResolvesTo(Next(w, e), entry.issuer, entry.subject, "bob")
  {
    var redirect := OneRedirect();
    var fails := Returns(ALICE, WriteFailed, 0);
    es, e, entry := redirect + [fails], Returns(BOB, Saved, 0), Claimed(BOB);
    RunOn(START, SampleRule(), redirect, fails);
    FirstReturn(After(START, redirect), ALICE, WriteFailed, 0);
    var w := After(START, es);
    Alone(w.store, "k1", entry);
    BobClaims(w);
    BobResolves(Next(w, e));
  }

  lemma Alone(m: Entries, k: string, entry: OAuthData)
    requires m.Keys == {k}
    ensures IsUniqueToken(m, k, entry) && IsNewestLogin(m, k, entry) && HasNoRival(m, k, entry)
  {
  }

  lemma BobDropsNothing()
    ensures Cleaned(map["k1" := Pending(ALICE)]["k1" := Claimed(BOB)], Claimed(BOB), 0) == map["k1" := Claimed(BOB)]
  {
    var m: Entries := map["k1" := Claimed(BOB)];
    assert map["k1" := Pending(ALICE)]["k1" := Claimed(BOB)] == m;
    NothingDropped(m, Claimed(BOB), 0);
  }

  lemma BobClaims(w: World)
    requires w.store == map["k1" := Pending(ALICE)] && w.ledger.users == [SampleUser(ALICE, "u1")]
    ensures var e, entry := Returns(BOB, Saved, 0), Claimed(BOB);
      && SavesClaim(w, e, entry)
      && Next(w, e).store == map["k1" := entry]
        && Next(w, e).ledger.users == [SampleUser(ALICE, "u1"), SampleUser(BOB, "u22")]
      && ReplyTo(w.store, w.ledger.users, e.providers, 0, e.endpoint, e.c) == Reply(true, false, false, "id1")
  {
    NotHas(SampleUser(ALICE, "u1"), ByLogin("bob"));
    NotHas(SampleUser(ALICE, "u1"), ByID("u22"));
    FirstReturn(w, BOB, Saved, 0);
    BobDropsNothing();
  }

  lemma BobResolves(w: World)
    requires w.store == map["k1" := Claimed(BOB)] && w.ledger.users == [SampleUser(ALICE, "u1"), SampleUser(BOB, "u22")]
    ensures ResolvesTo(w, "issuer", "bob", "alice") && !ResolvesTo(w, "issuer", "bob", "bob")
  {
    HasID(w.store, "k1");
    Resolution(w, "issuer", "bob", 0);
  }

  lemma HasID(m: Entries, k: string)
    requires k in m
    ensures m[k].id in EntryIDs(m, m[k].issuer, m[k].subject)
  {
  }

  lemma Resolution(w: World, issuer: string, subject: string, k: nat)
    requires k < |w.ledger.users| && w.ledger.users[k].oidcID in EntryIDs(w.store, issuer, subject)
    requires forall i :: 0 <= i < k ==> w.ledger.users[i].oidcID !in EntryIDs(w.store, issuer, subject)
    ensures forall login :: ResolvesTo(w, issuer, subject, login) <==> login == w.ledger.users[k].login
  {
    assert Matches(ByOIDCID(EntryIDs(w.store, issuer, subject)), w.ledger.users[k]);
  }

  // Two redirects, of which the second is for another provider, or not.

  lemma TwoRedirects(one: Login, two: Login) returns (es: seq<Event>)
    requires one in {ALICE, OLD} && two in {ALICE_AGAIN, NEW}
    ensures IsStart(START) && ValidRun(START, es) && RunObeys(SampleRule(), START, es) && AllSave(es)
    ensures var w := After(START, es);
      w.store == map["k1" := Pending(one), "k22" := Pending(two)] && w.ledger.users == []
  {
    var e, f := Redirects("k1", "id1", one.madeFor, 0), Redirects("k22", "id22", two.madeFor, 1);
    es := ([] + [e]) + [f];
    RunOn(START, SampleRule(), [], e);
    RunOn(START, SampleRule(), [] + [e], f);
    assert After(START, []) == START;
  }

  /** One login comes back, late enough for its cleanup to leave the other, pending entry. */
  lemma FirstOfTwo(w: World, l: Login, other: Login)
    requires IsPending(w.store, l) && IsPending(w.store, other) && w.store.Keys == {l.state, other.state}
    requires other.state != l.state && 0 <= other.createdAt <= 1 && SubjectIn(l.email) != "" && w.ledger.users == []
    ensures var e := Returns(l, Saved, LATER);
      && Enabled(w, e) && Assumed(w, e) && Exchanged(w, e) == Some(Claimed(l))
      && Next(w, e).ledger.users == [SampleUser(l, l.newUserID)]
      && Next(w, e).store == w.store[l.state := Claimed(l)]
  {
    FirstReturn(w, l, Saved, LATER);
    ReturnExchanges(w, l, Saved, LATER);
    NothingDropped(w.store[l.state := Claimed(l)], Claimed(l), LATER);
  }

  // A repeated callback.

  /** The newer of two entries has been claimed. */
  lemma NewerClaimed() returns (es: seq<Event>)
    ensures IsStart(START) && ValidRun(START, es) && RunObeys(SampleRule(), START, es) && AllSave(es)
    ensures var w := After(START, es);
      w.store == map["k1" := Pending(ALICE), "k22" := Claimed(ALICE_AGAIN)]
        && w.ledger.users == [SampleUser(ALICE_AGAIN, "u22")]
  {
    var redirects := TwoRedirects(ALICE, ALICE_AGAIN);
    FirstOfTwo(After(START, redirects), ALICE_AGAIN, ALICE);
    UpdatesOfTwo(Pending(ALICE), Pending(ALICE_AGAIN), Claimed(ALICE_AGAIN));
    es := redirects + [Returns(ALICE_AGAIN, Saved, LATER)];
    RunOn(START, SampleRule(), redirects, Returns(ALICE_AGAIN, Saved, LATER));
  }

  function BothClaimed(): Entries {
    map["k1" := Claimed(ALICE), "k22" := Claimed(ALICE_AGAIN)]
  }

  lemma OlderDropsNothing()
    ensures Cleaned(BothClaimed(), Claimed(ALICE), LATER) == BothClaimed()
  {
    NothingDropped(BothClaimed(), Claimed(ALICE), LATER);
  }

  /** The older entry is claimed after the newer one; its cleanup leaves both. */
  lemma OlderReturns(w: World)
    requires w.store == map["k1" := Pending(ALICE), "k22" := Claimed(ALICE_AGAIN)]
    requires w.ledger.users == [SampleUser(ALICE_AGAIN, "u22")]
    ensures var e := Returns(ALICE, Saved, LATER);
      && Enabled(w, e) && Exchanged(w, e) == Some(Claimed(ALICE))
      && Next(w, e).ledger.users == [SampleUser(ALICE, "u22")] && Next(w, e).store == BothClaimed()
  {
    NotHas(SampleUser(ALICE_AGAIN, "u22"), ByID("u1"));
    NextReturn(w, ALICE, ALICE_AGAIN, Saved, LATER);
    ReturnExchanges(w, ALICE, Saved, LATER);
    OlderDropsNothing();
    UpdatesOfTwo(Pending(ALICE), Claimed(ALICE_AGAIN), Claimed(ALICE));
  }

  lemma OlderClaimed() returns (es: seq<Event>)
    ensures IsStart(START) && ValidRun(START, es) && RunObeys(SampleRule(), START, es) && AllSave(es)
    ensures After(START, es).store == BothClaimed() && After(START, es).ledger.users == [SampleUser(ALICE, "u22")]
  {
    var newer := NewerClaimed();
    OlderReturns(After(START, newer));
    es := newer + [Returns(ALICE, Saved, LATER)];
    RunOn(START, SampleRule(), newer, Returns(ALICE, Saved, LATER));
  }

  /** A full pass removes the older entry, to which the user is linked. */
  lemma PassDropsOlder(visits: seq<Visit>)
    requires visits == [Visit("k22", LATER)]
    ensures IsPass(BothClaimed(), {}, visits) && PassResult(BothClaimed(), visits) == map["k22" := Claimed(ALICE_AGAIN)]
  {
    var m: Entries := map["k22" := Claimed(ALICE_AGAIN)];
    assert Supersedes(Claimed(ALICE_AGAIN), Claimed(ALICE));
    assert AfterVisit(BothClaimed(), visits[0]) == m;
    assert visits[1..] == [];
    assert IsPass(m, {} + {"k22"}, []) && PassResult(m, []) == m;
  }

  lemma OlderDropped() returns (es: seq<Event>)
    ensures IsStart(START) && ValidRun(START, es) && RunObeys(SampleRule(), START, es) && AllSave(es)
    ensures After(START, es).store == map["k22" := Claimed(ALICE_AGAIN)]
    ensures After(START, es).ledger.users == [SampleUser(ALICE, "u22")]
  {
    var older := OlderClaimed();
    var pass := CleansAll([Visit("k22", LATER)], true);
    PassDropsOlder(pass.cleanups);
    es := older + [pass];
    RunOn(START, SampleRule(), older, pass);
  }

  lemma NewerRepeated(w: World, e: Event)
    requires w.store == map["k22" := Claimed(ALICE_AGAIN)] && w.ledger.users == [SampleUser(ALICE, "u22")]
    requires e == Returns(ALICE_AGAIN.(newUserID := "u333"), Saved, LATER)
    ensures Enabled(w, e) && IsRepeated(w.store, e.providers, e.c) && Next(w, e) == w
    ensures ReplyTo(w.store, w.ledger.users, e.providers, 0, e.endpoint, e.c) == Reply(true, false, false, "id22")
    ensures forall login :: !ResolvesTo(w, "issuer", "alice", login)
  {
    NotHas(SampleUser(ALICE, "u22"), ByID("u333"));
    assert EntryIDs(w.store, "issuer", "alice") <= {"id22"};
    NotHas(SampleUser(ALICE, "u22"), ByOIDCID(EntryIDs(w.store, "issuer", "alice")));
  }

  /**
   A repeated callback can return a token that resolves to nobody, with every save
   made: two redirects, the callback of the second, then that of the first, and a
   cleanup that removes the older entry, to which the user was linked last.
   */
  lemma RepeatedCallbackCanFail() returns (es: seq<Event>, e: Event)
    ensures IsStart(START) && ValidRun(START, es) && RunObeys(SampleRule(), START, es) && AllSave(es)
    ensures var w := After(START, es);
      && e.Callback? && Enabled(w, e) && IsRepeated(w.store, e.providers, e.c)
      && var entry := w.store[e.c.state];
      && ReplyTo(w.store, w.ledger.users, e.providers, 0, e.endpoint, e.c)
        == Reply(true, false, false, entry.token.accessToken)
      && forall login :: !ResolvesTo(Next(w, e), entry.issuer, entry.subject, login)
  {
    es := OlderDropped();
    e := Returns(ALICE_AGAIN.(newUserID := "u333"), Saved, LATER);
    NewerRepeated(After(START, es), e);
  }

  // A callback on another provider than the one its entry was made for.

  lemma OldClaimed() returns (es: seq<Event>)
    ensures IsStart(START) && ValidRun(START, es) && AllSave(es)
    ensures var w := After(START, es);
      w.store == map["k1" := Claimed(OLD), "k22" := Pending(NEW)] && w.ledger.users == [SampleUser(OLD, "u1")]
  {
    var redirects := TwoRedirects(OLD, NEW);
    FirstOfTwo(After(START, redirects), OLD, NEW);
    UpdatesOfTwo(Pending(OLD), Pending(NEW), Claimed(OLD));
    es := redirects + [Returns(OLD, Saved, LATER)];
    RunOn(START, SampleRule(), redirects, Returns(OLD, Saved, LATER));
  }

  function OldAndNew(): Entries {
    map["k1" := Claimed(OLD), "k22" := Claimed(NEW)]
  }

  lemma NewDropsNothing()
    ensures Cleaned(OldAndNew(), Claimed(NEW), LATER) == OldAndNew()
  {
    NothingDropped(OldAndNew(), Claimed(NEW), LATER);
  }

  lemma NewReturns(w: World)
    requires w.store == map["k1" := Claimed(OLD), "k22" := Pending(NEW)] && w.ledger.users == [SampleUser(OLD, "u1")]
    ensures var e := Returns(NEW, Saved, LATER);
      && Assumed(w, e) && SavesClaim(w, e, Claimed(NEW))
      && Next(w, e).ledger.users == [SampleUser(OLD, "u1"), SampleUser(NEW, "u22")] && Next(w, e).store == OldAndNew()
  {
    NotHas(SampleUser(OLD, "u1"), ByLogin("newer"));
    NotHas(SampleUser(OLD, "u1"), ByID("u22"));
    FirstReturn(w, NEW, Saved, LATER);
    ReturnExchanges(w, NEW, Saved, LATER);
    NewDropsNothing();
    UpdatesOfTwo(Claimed(OLD), Pending(NEW), Claimed(NEW));
  }

  lemma OldResolves(w: World)
    requires w.store == OldAndNew() && w.ledger.users == [SampleUser(OLD, "u1"), SampleUser(NEW, "u22")]
    ensures ResolvesTo(w, "issuer", "subject", "old") && !ResolvesTo(w, "issuer", "subject", "newer")
  {
    HasID(w.store, "k1");
    Resolution(w, "issuer", "subject", 0);
  }

  lemma NewIsNewest(m: Entries)
    requires m == map["k1" := Claimed(OLD), "k22" := Pending(NEW)]
    ensures IsUniqueToken(m, "k22", Claimed(NEW)) && IsNewestLogin(m, "k22", Claimed(NEW))
  {
  }

  /**
   When an email changes, a callback on another provider than that of its entry
   can return a token that resolves to the user of an older login, because no
   cleanup relates the two entries. Every save is made, and the entry is the newest.
   */
  lemma MixedProvidersCanFail() returns (es: seq<Event>, e: Event, entry: OAuthData)
    ensures IsStart(START) && ValidRun(START, es) && AllSave(es)
    ensures var w := After(START, es);
      && Assumed(w, e) && SavesClaim(w, e, entry) && e.c.providerID != entry.oidcProviderID
        && entry.userInfo.email == "newer"
      && IsUniqueToken(w.store, e.c.state, entry) && IsNewestLogin(w.store, e.c.state, entry)
      && ReplyTo(w.store, w.ledger.users, e.providers, 0, e.endpoint, e.c)
        == Reply(true, false, false, entry.token.accessToken)
      && ResolvesTo(Next(w, e), entry.issuer, entry.subject, "old")
        && !ResolvesTo(Next(w, e), entry.issuer, entry.subject, "newer")
  {
    es := OldClaimed();
    e, entry := Returns(NEW, Saved, LATER), Claimed(NEW);
    NewReturns(After(START, es));
    NewIsNewest(After(START, es).store);
    OldResolves(Next(After(START, es), e));
  }

  // One login ends another.

  lemma AliceEndsTheOther(w: World)
    requires w.store == map["k1" := Pending(ALICE), "k22" := Pending(ALICE_AGAIN)] && w.ledger.users == []
    ensures var first, second := Returns(ALICE, Saved, 60 * SECOND), Returns(ALICE_AGAIN, Saved, LATER);
      && Enabled(w, first) && Assumed(w, first) && Exchanged(w, second) == Some(Claimed(ALICE_AGAIN))
      && var w' := Next(w, first);
      ReplyTo(w'.store, w'.ledger.users, PROVIDERS, 0, second.endpoint, second.c) == Refused
  {
    FirstReturn(w, ALICE, Saved, 60 * SECOND);
    ReturnExchanges(w, ALICE, Saved, 60 * SECOND);
    ReturnExchanges(w, ALICE_AGAIN, Saved, LATER);
    LoginEndsOthers(w, Returns(ALICE, Saved, 60 * SECOND), "k22");
  }

  /**
   Two logins are begun, and the first comes back a minute later. Its cleanup removes
   the entry of the second one, whose callback would have succeeded and is now refused.
   */
  lemma LoginEndsAnother() returns (before: seq<Event>, first: Event, second: Event)
    ensures IsStart(START) && ValidRun(START, before) && AllSave(before + [first])
    ensures var w := After(START, before);
      && first.Callback? && Enabled(w, first) && Assumed(w, first) && first.c.cleanupAt == 60 * SECOND
      && second.Callback? && Exchanged(w, second).Some?
      && var w' := Next(w, first);
      ReplyTo(w'.store, w'.ledger.users, second.providers, 0, second.endpoint, second.c) == Refused
  {
    before := TwoRedirects(ALICE, ALICE_AGAIN);
    first, second := Returns(ALICE, Saved, 60 * SECOND), Returns(ALICE_AGAIN, Saved, LATER);
    RunOn(START, SampleRule(), before, first);
    AliceEndsTheOther(After(START, before));
  }

  // Failures that are never saved.

  /** A refresh of the entry under "k1" that fails, and whose entry cannot be saved. */
  function UnsavedFailure(): Event {
    Renews(PROVIDERS, [RenewalVisit("k1", Some(Discovery("issuer", "endpoint", "jwks")), NoResponse)], false)
  }

  /** The only entry is saved, bears a token and has counted no failure. */
  ghost predicate IsSaved(w: World) {
    w.store == w.disk == map["k1" := Claimed(ALICE)]
  }

  lemma UnsavedFailureThenRestart(w: World)
    requires IsSaved(w)
    ensures Enabled(w, UnsavedFailure()) && Enabled(Next(w, UnsavedFailure()), Restart)
    ensures var w' := Next(Next(w, UnsavedFailure()), Restart);
      IsSaved(w') && FailuresOf(w'.ledger.failures, "k1") == FailuresOf(w.ledger.failures, "k1") + 1
  {
    var visits := UnsavedFailure().visits;
    assert visits[..|visits| - 1] == [] && w.store.Keys - {"k1"} == {};
    assert ProviderOf(PROVIDERS, "a").Some?;
    assert AfterVisits(w.store, PROVIDERS, []) == w.store && RefreshedKeys(w.store, PROVIDERS, []) == [];
    assert RefreshedKeys(w.store, PROVIDERS, visits) == ["k1"];
  }

  lemma {:induction false} UnsavedFailures(start: World, es: seq<Event>, m: nat) returns (all: seq<Event>)
    requires IsRun(start, es) && IsSaved(After(start, es))
    ensures IsRun(start, all)
    ensures FailuresOf(After(start, all).ledger.failures, "k1")
      == FailuresOf(After(start, es).ledger.failures, "k1") + m
    decreases m
  {
    all := es;
    if m > 0 {
      RunOn(start, SampleRule(), es, UnsavedFailure());
      RunOn(start, SampleRule(), es + [UnsavedFailure()], Restart);
      UnsavedFailureThenRestart(After(start, es));
      all := UnsavedFailures(start, es + [UnsavedFailure()] + [Restart], m - 1);
    }
  }

  lemma AliceDropsNothing()
    ensures var m: Entries := map["k1" := Pending(ALICE)]["k1" := Claimed(ALICE)];
      m == map["k1" := Claimed(ALICE)] == Cleaned(m, Claimed(ALICE), 0)
  {
    var m: Entries := map["k1" := Claimed(ALICE)];
    assert map["k1" := Pending(ALICE)]["k1" := Claimed(ALICE)] == m;
    NothingDropped(m, Claimed(ALICE), 0);
  }

  lemma AliceIsSaved(w: World)
    requires w.store == map["k1" := Pending(ALICE)] && w.ledger.users == []
    ensures var e := Returns(ALICE, Saved, 0);
      Enabled(w, e) && IsSaved(Next(w, e)) && Next(w, e).ledger.failures == w.ledger.failures
  {
    FirstReturn(w, ALICE, Saved, 0);
    AliceDropsNothing();
  }

  /**
   When restarts may follow failed saves, there is no bound on the failed refreshes of an
   entry: what is not saved is forgotten.
   */
  lemma UnsavedFailuresAreForgotten(m: nat) returns (es: seq<Event>)
    ensures IsStart(START) && IsRun(START, es) && FailuresOf(After(START, es).ledger.failures, "k1") == m
  {
    var redirect := OneRedirect();
    var first := Returns(ALICE, Saved, 0);
    AliceIsSaved(After(START, redirect));
    RunOn(START, SampleRule(), redirect, first);
    es := UnsavedFailures(START, redirect + [first], m);
  }
}
