/**
 Renewals, cleanups, redirects and callbacks in any interleaving. A renewal
 reads a copy of an entry, calls out, and writes the copy back; so does a
 callback, but callbacks exclude each other. Each read, write and cleanup is
 one atomic step.
 */
module Interleaving {
  import opened Common
  import opened OidcTypes
  import opened RenewalSpec
  import opened LoginSpec
  import Cleanup

  datatype Copy = Copy(key: string, entry: OAuthData)

  /** The entries, the keys ever made up, the copies in flight, and how often a refresh failed under each key. */
  datatype State = State(
    store: Entries,
    used: set<string>,
    renewals: map<nat, Copy>,
    callback: Option<Copy>,
    failures: map<string, nat>
  )

  const INITIAL := State(map[], {}, map[], None, map[])

  datatype Event =
    | Redirect(key: string, id: string, providerID: string, at: Time)
    | CallbackReads(key: string)
    | CallbackWrites(verifier: Verifier, tokenEndpoint: string, exchange: Option<Exchange>, suspended: bool)
    | RenewalReads(n: nat, key: string)
    | RenewalWrites(n: nat, discovery: Discovery, response: TokenResponse)
    | RenewalGivesUpWaiting(n: nat)
    | CleansUp(o: OAuthData, now: Time)

  /**
   The state of a redirect is fresh; a callback goes on only with a pending entry, a
   renewal only with a renewable one.
   */
  predicate Enabled(s: State, e: Event) {
    match e
    case Redirect(key, _, _, _) => key !in s.used
    case CallbackReads(key) => s.callback.None? && key in s.store && !s.store[key].TokenBearing()
    case CallbackWrites(_, _, _, _) => s.callback.Some?
    case RenewalReads(n, key) => n !in s.renewals && key in s.store && Renewable(s.store[key])
    case RenewalWrites(n, _, _) => n in s.renewals
    case RenewalGivesUpWaiting(n) => n in s.renewals
    case CleansUp(_, _) => true
  }

  function Next(s: State, e: Event): State
    requires Enabled(s, e)
  {
    match e
    case Redirect(key, id, providerID, at) =>
      s.(store := s.store[key := PendingEntry(id, providerID, at)], used := s.used + {key})
    case CallbackReads(key) => s.(callback := Some(Copy(key, s.store[key])))
    case CallbackWrites(verifier, tokenEndpoint, exchange, suspended) =>
      var c := s.callback.value;
      (match WithToken(verifier, tokenEndpoint, exchange, c.entry)
       case None => s.(callback := None)
       case Some(u) => s.(store := s.store[c.key := u.(suspended := suspended)], callback := None))
    case RenewalReads(n, key) => s.(renewals := s.renewals[n := Copy(key, s.store[key])])
    case RenewalWrites(n, discovery, response) =>
      var c := s.renewals[n];
      var outcome := RefreshToken(discovery, response);
      s.(store := s.store[c.key := Renewed(c.entry, outcome)], renewals := s.renewals - {n},
         failures := if outcome.None? then s.failures[c.key := FailuresOf(s.failures, c.key) + 1] else s.failures)
    case RenewalGivesUpWaiting(n) => s.(renewals := s.renewals - {n})
    case CleansUp(o, now) => s.(store := Cleanup.Cleaned(s.store, o, now))
  }

  predicate ValidRun(s: State, es: seq<Event>)
    decreases |es|
  {
    es == [] || (Enabled(s, es[0]) && ValidRun(Next(s, es[0]), es[1..]))
  }

  function After(s: State, es: seq<Event>): State
    requires ValidRun(s, es)
    decreases |es|
  {
    if es == [] then s else After(Next(s, es[0]), es[1..])
  }

  // The invariant.

  ghost predicate EntriesOk(s: State) {
    forall k :: k in s.store ==> k in s.used && RetriesInBounds(s.store[k])
  }

  ghost predicate CopiesOk(s: State) {
    && (forall n :: n in s.renewals ==> var c := s.renewals[n];
          c.key in s.used && Renewable(c.entry) && RetriesInBounds(c.entry)
          && (c.key in s.store ==> s.store[c.key].TokenBearing() && IdentityOf(s.store[c.key]) == IdentityOf(c.entry)))
    && (forall n, l :: n in s.renewals && l in s.renewals && s.renewals[n].key == s.renewals[l].key ==>
          IdentityOf(s.renewals[n].entry) == IdentityOf(s.renewals[l].entry))
  }

  ghost predicate CallbackOk(s: State) {
    s.callback.Some? ==> var c := s.callback.value;
      c.key in s.used && !c.entry.TokenBearing() && RetriesInBounds(c.entry)
      && (c.key in s.store ==> !s.store[c.key].TokenBearing())
      && forall n :: n in s.renewals ==> s.renewals[n].key != c.key
  }

  ghost predicate Inv(s: State) {
    EntriesOk(s) && CopiesOk(s) && CallbackOk(s)
  }

  lemma CallbackWritesKeeps(s: State, e: Event)
    requires Inv(s) && Enabled(s, e) && e.CallbackWrites?
    ensures Inv(Next(s, e))
  {
    WithTokenKeeps(e.verifier, e.tokenEndpoint, e.exchange, s.callback.value.entry);
  }

  lemma RenewalWritesKeeps(s: State, e: Event)
    requires Inv(s) && Enabled(s, e) && e.RenewalWrites?
    ensures Inv(Next(s, e))
  {
    RefreshKeeps(s.renewals[e.n].entry, e.discovery, e.response);
  }

  lemma ReadsKeep(s: State, e: Event)
    requires Inv(s) && Enabled(s, e) && (e.CallbackReads? || e.RenewalReads?)
    ensures Inv(Next(s, e))
  {
  }

  lemma StepKeepsInv(s: State, e: Event)
    requires Inv(s) && Enabled(s, e)
    ensures Inv(Next(s, e))
  {
    match e
    case CallbackReads(_) => ReadsKeep(s, e);
    case RenewalReads(_, _) => ReadsKeep(s, e);
    case CallbackWrites(_, _, _, _) => CallbackWritesKeeps(s, e);
    case RenewalWrites(_, _, _) => RenewalWritesKeeps(s, e);
    case _ =>
  }

  /** In every reachable state all entries and all copies in flight have their retries in bounds. */
  lemma {:induction false} RetriesInBoundsAlways(s: State, es: seq<Event>)
    requires Inv(s) && ValidRun(s, es)
    ensures Inv(After(s, es))
    ensures forall k :: k in After(s, es).store ==> RetriesInBounds(After(s, es).store[k])
    ensures forall n :: n in After(s, es).renewals ==> RetriesInBounds(After(s, es).renewals[n].entry)
    decreases |es|
  {
    if es != [] {
      StepKeepsInv(s, es[0]);
      RetriesInBoundsAlways(Next(s, es[0]), es[1..]);
    }
  }

  // Permanent identity.

  /** Whatever is or will be written under the key is a token-bearing version of identity `d`. */
  ghost predicate Locked(s: State, key: string, d: Identity) {
    && key in s.used
    && (key in s.store ==> s.store[key].TokenBearing() && IdentityOf(s.store[key]) == d)
    && (forall n :: n in s.renewals && s.renewals[n].key == key ==> IdentityOf(s.renewals[n].entry) == d)
    && (s.callback.Some? ==> s.callback.value.key != key)
  }

  lemma StepKeepsLocked(s: State, e: Event, key: string, d: Identity)
    requires Inv(s) && Enabled(s, e) && Locked(s, key, d)
    ensures Locked(Next(s, e), key, d)
  {
    if e.RenewalWrites? {
      RefreshKeeps(s.renewals[e.n].entry, e.discovery, e.response);
    }
  }

  lemma {:induction false} RunKeepsLocked(s: State, es: seq<Event>, key: string, d: Identity)
    requires Inv(s) && ValidRun(s, es) && Locked(s, key, d)
    ensures Locked(After(s, es), key, d)
    decreases |es|
  {
    if es != [] {
      StepKeepsInv(s, es[0]);
      StepKeepsLocked(s, es[0], key, d);
      RunKeepsLocked(Next(s, es[0]), es[1..], key, d);
    }
  }

  /** Once the entry under a key bears a token, every later entry under that key bears one, for the same identity. */
  lemma IdentityIsPermanent(before: seq<Event>, later: seq<Event>, key: string)
    requires ValidRun(INITIAL, before) && ValidRun(After(INITIAL, before), later)
    requires key in After(INITIAL, before).store && After(INITIAL, before).store[key].TokenBearing()
    ensures var s, s' := After(INITIAL, before), After(After(INITIAL, before), later);
      key in s'.store ==> s'.store[key].TokenBearing() && IdentityOf(s'.store[key]) == IdentityOf(s.store[key])
  {
    var s := After(INITIAL, before);
    RetriesInBoundsAlways(INITIAL, before);
    RunKeepsLocked(s, later, key, IdentityOf(s.store[key]));
  }

  // Failures.

  /** No renewal reads an entry of which another one still holds a copy. */
  ghost predicate NoOverlap(s: State, es: seq<Event>)
    requires ValidRun(s, es)
    decreases |es|
  {
    es != [] ==>
      (es[0].RenewalReads? ==> forall n :: n in s.renewals ==> s.renewals[n].key != es[0].key)
      && NoOverlap(Next(s, es[0]), es[1..])
  }

  /**
   Every entry and every copy has counted all failures under its key, and no two renewals
   hold copies of one entry.
   */
  ghost predicate AllCounted(s: State) {
    && (forall k :: k in s.failures ==> k in s.used && s.failures[k] <= RENEWAL_RETRIES)
    && (forall k :: k in s.store ==> s.store[k].renewalRetries == FailuresOf(s.failures, k))
    && (forall n :: n in s.renewals ==> s.renewals[n].entry.renewalRetries == FailuresOf(s.failures, s.renewals[n].key))
    && (forall n, l :: n in s.renewals && l in s.renewals && n != l ==> s.renewals[n].key != s.renewals[l].key)
    && (s.callback.Some? ==> s.callback.value.entry.renewalRetries == FailuresOf(s.failures, s.callback.value.key))
  }

  lemma CallbackWritesCounted(s: State, e: Event)
    requires Inv(s) && Enabled(s, e) && AllCounted(s) && e.CallbackWrites?
    ensures AllCounted(Next(s, e))
  {
    WithTokenKeeps(e.verifier, e.tokenEndpoint, e.exchange, s.callback.value.entry);
  }

  lemma RenewalWritesCounted(s: State, e: Event)
    requires AllCounted(s) && e.RenewalWrites? && e.n in s.renewals
    requires s.renewals[e.n].key in s.used && Renewable(s.renewals[e.n].entry) && RetriesInBounds(s.renewals[e.n].entry)
    requires s.callback.Some? ==> s.renewals[e.n].key != s.callback.value.key
    ensures AllCounted(Next(s, e))
  {
    RefreshKeeps(s.renewals[e.n].entry, e.discovery, e.response);
  }

  lemma RenewalReadsCounted(s: State, e: Event)
    requires Inv(s) && Enabled(s, e) && AllCounted(s) && e.RenewalReads?
    requires forall n :: n in s.renewals ==> s.renewals[n].key != e.key
    ensures AllCounted(Next(s, e))
  {
  }

  lemma StepKeepsCounted(s: State, e: Event)
    requires Inv(s) && Enabled(s, e) && AllCounted(s)
    requires e.RenewalReads? ==> forall n :: n in s.renewals ==> s.renewals[n].key != e.key
    ensures AllCounted(Next(s, e))
  {
    match e
    case CallbackWrites(_, _, _, _) => CallbackWritesCounted(s, e);
    case RenewalWrites(_, _, _) => RenewalWritesCounted(s, e);
    case RenewalReads(_, _) => RenewalReadsCounted(s, e);
    case _ =>
  }

  lemma {:induction false} RunKeepsCounted(s: State, es: seq<Event>)
    requires Inv(s) && AllCounted(s) && ValidRun(s, es) && NoOverlap(s, es)
    ensures AllCounted(After(s, es))
    decreases |es|
  {
    if es != [] {
      StepKeepsInv(s, es[0]);
      StepKeepsCounted(s, es[0]);
      RunKeepsCounted(Next(s, es[0]), es[1..]);
    }
  }

  /** Unless renewals of one entry overlap, no entry has more than three failed refreshes over its life. */
  lemma AtMostThreeFailures(es: seq<Event>, key: string)
    requires ValidRun(INITIAL, es) && NoOverlap(INITIAL, es)
    ensures FailuresOf(After(INITIAL, es).failures, key) <= 3
  {
    RunKeepsCounted(INITIAL, es);
  }

  // Exactly how much overlap the bound allows.

  /** The renewals that hold a copy of the entry under a key. */
  function Holders(s: State, key: string): set<nat> {
    set n | n in s.renewals && s.renewals[n].key == key
  }

  /** At every state of the run at most `n` renewals hold a copy of any one entry. */
  ghost predicate AtMost(s: State, es: seq<Event>, n: nat)
    requires ValidRun(s, es)
    decreases |es|
  {
    && (forall key :: |Holders(s, key)| <= n)
    && (es != [] ==> AtMost(Next(s, es[0]), es[1..], n))
  }

  lemma TwoHold(s: State, a: nat, b: nat, key: string)
    requires a != b && a in Holders(s, key) && b in Holders(s, key)
    ensures |Holders(s, key)| >= 2
  {
    SubsetCardinality({a, b}, Holders(s, key));
  }

  /** Copies that are single do not overlap. */
  lemma {:induction false} SingleCopiesDoNotOverlap(s: State, es: seq<Event>, n: nat)
    requires ValidRun(s, es) && AtMost(s, es, n) && n <= 1
    ensures NoOverlap(s, es)
    decreases |es|
  {
    if es != [] {
      var e, s' := es[0], Next(s, es[0]);
      SingleCopiesDoNotOverlap(s', es[1..], n);
      forall l | e.RenewalReads? && l in s.renewals ensures s.renewals[l].key != e.key {
        assert |Holders(s', e.key)| <= n;
        if s.renewals[l].key == e.key {
          TwoHold(s', l, e.n, e.key);
        }
      }
    }
  }

  function Login(): seq<Event> {
    var claims := Claims(Some("subject"), Some("email"), None, Some("issuer"), "kid");
    var verifier := Verifier((t: string) => Some(claims), (a: string) => true);
    [Redirect("k", "id", "idp", 0), CallbackReads("k"),
     CallbackWrites(verifier, "endpoint", Some(Exchange(NO_TOKEN.(accessToken := "access"), 0)), false)]
  }

  /** The entry under "k" has counted no failure, and no renewal holds a copy of it. */
  ghost predicate IsFresh(s: State) {
    "k" in s.store && Renewable(s.store["k"]) && s.store["k"].renewalRetries == 0 && s.renewals == map[]
  }

  /** Two renewals read the entry; the second fails, and the first then succeeds and writes its older copy back. */
  function Round(): seq<Event> {
    var d := Discovery("issuer", "endpoint", "jwks");
    [RenewalReads(0, "k"), RenewalReads(1, "k"), RenewalWrites(1, d, NoResponse),
     RenewalWrites(0, d, Decoded(NO_TOKEN.(accessToken := "access"), 0))]
  }

  lemma FewHold(s: State)
    requires s.renewals.Keys <= {0, 1}
    ensures forall key :: |Holders(s, key)| <= 2
  {
    forall key ensures |Holders(s, key)| <= 2 {
      SubsetCardinality(Holders(s, key), {0, 1});
    }
  }

  lemma Before(s: State, e: Event, es: seq<Event>)
    requires Enabled(s, e) && s.renewals.Keys <= {0, 1} && ValidRun(Next(s, e), es) && AtMost(Next(s, e), es, 2)
    ensures ValidRun(s, [e] + es) && AtMost(s, [e] + es, 2) && After(s, [e] + es) == After(Next(s, e), es)
  {
    assert ([e] + es)[1..] == es;
    FewHold(s);
  }

  /** Such a round has a failure, of which the entry keeps no count. */
  lemma {:induction false} Rounds(s: State, m: nat) returns (es: seq<Event>)
    requires IsFresh(s)
    ensures ValidRun(s, es) && AtMost(s, es, 2) && IsFresh(After(s, es))
    ensures FailuresOf(After(s, es).failures, "k") == FailuresOf(s.failures, "k") + m
    decreases m
  {
    if m == 0 {
      es := [];
      FewHold(s);
    } else {
      var r := Round();
      var s1 := Next(s, r[0]);
      var s2 := Next(s1, r[1]);
      var s3 := Next(s2, r[2]);
      es := Rounds(Next(s3, r[3]), m - 1);
      Before(s3, r[3], es);
      Before(s2, r[2], [r[3]] + es);
      Before(s1, r[1], [r[2]] + ([r[3]] + es));
      Before(s, r[0], [r[1]] + ([r[2]] + ([r[3]] + es)));
      es := [r[0]] + ([r[1]] + ([r[2]] + ([r[3]] + es)));
    }
  }

  /**
   Two overlapping renewals are enough for any number of failed refreshes of one
   entry: a renewal that read the entry before a failure was counted, and succeeds
   after it, takes the count back.
   */
  lemma TwoAreEnough(m: nat) returns (es: seq<Event>)
    ensures ValidRun(INITIAL, es) && AtMost(INITIAL, es, 2)
    ensures FailuresOf(After(INITIAL, es).failures, "k") == m
    ensures "k" in After(INITIAL, es).store && After(INITIAL, es).store["k"].renewalRetries == 0
  {
    var l := Login();
    var s1 := Next(INITIAL, l[0]);
    var s2 := Next(s1, l[1]);
    es := Rounds(Next(s2, l[2]), m);
    Before(s2, l[2], es);
    Before(s1, l[1], [l[2]] + es);
    Before(INITIAL, l[0], [l[1]] + ([l[2]] + es));
    es := [l[0]] + ([l[1]] + ([l[2]] + es));
  }

  lemma {:induction false} AtMostMore(s: State, es: seq<Event>, n: nat, more: nat)
    requires ValidRun(s, es) && AtMost(s, es, n) && n <= more
    ensures AtMost(s, es, more)
    decreases |es|
  {
    if es != [] {
      AtMostMore(Next(s, es[0]), es[1..], n, more);
    }
  }

  /**
   The bound of three failures holds in all interleavings with at most `n` copies of an
   entry in flight if and only if `n` is at most one.
   */
  lemma ThreeFailuresExactlyWhen(n: nat)
    ensures (forall es, key :: ValidRun(INITIAL, es) && AtMost(INITIAL, es, n) ==>
      FailuresOf(After(INITIAL, es).failures, key) <= 3)
      <==> n <= 1
  {
    if n <= 1 {
      forall es, key | ValidRun(INITIAL, es) && AtMost(INITIAL, es, n)
        ensures FailuresOf(After(INITIAL, es).failures, key) <= 3 {
        SingleCopiesDoNotOverlap(INITIAL, es, n);
        AtMostThreeFailures(es, key);
      }
    } else {
      var es := TwoAreEnough(4);
      AtMostMore(INITIAL, es, 2, n);
      assert FailuresOf(After(INITIAL, es).failures, "k") == 4;
    }
  }
}
