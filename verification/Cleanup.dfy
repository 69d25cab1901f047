/**
 What a cleanup removes from the entries of the OIDC store, and what a full
 pass of cleanups guarantees whatever order the map is ranged over in.
 */
module Cleanup {
  import opened Common
  import opened OidcTypes

  const TOKEN_GRACE: int := 10 * MINUTE

  predicate OlderSameSubject(o: OAuthData, e: OAuthData) {
    o.createdAt > e.createdAt && e.id != o.id && e.oidcProviderID == o.oidcProviderID && e.subject == o.subject
  }

  predicate OlderSameEmail(o: OAuthData, e: OAuthData) {
    o.createdAt > e.createdAt && e.id != o.id && e.userInfo.email == o.userInfo.email
  }

  /** Entry `o` makes entry `e` obsolete. The relation is not transitive. */
  predicate Supersedes(o: OAuthData, e: OAuthData) {
    OlderSameSubject(o, e) || OlderSameEmail(o, e)
  }

  /** A pending entry younger than ten minutes: the comparison is the one the code makes. */
  predicate Unclaimed(e: OAuthData, now: Time) {
    e.token.accessToken == "" && e.createdAt + TOKEN_GRACE > now
  }

  predicate Dropped(o: OAuthData, e: OAuthData, now: Time) {
    Supersedes(o, e) || Unclaimed(e, now)
  }

  function DroppedKeys(m: Entries, o: OAuthData, now: Time): set<string> {
    set k | k in m && Dropped(o, m[k], now)
  }

  /** The entries after one locked cleanup driven by `o` at time `now`. */
  function Cleaned(m: Entries, o: OAuthData, now: Time): Entries {
    map k | k in m && !Dropped(o, m[k], now) :: m[k]
  }

  function SameSubjectKeys(m: Entries, o: OAuthData): set<string> {
    set k | k in m && OlderSameSubject(o, m[k])
  }

  function UnclaimedKeys(m: Entries, now: Time): set<string> {
    set k | k in m && Unclaimed(m[k], now)
  }

  function SameEmailKeys(m: Entries, o: OAuthData): set<string> {
    set k | k in m && OlderSameEmail(o, m[k])
  }

  /** The number one cleanup returns: a key on several lists is counted once per list. */
  function CleanupCount(m: Entries, o: OAuthData, now: Time): nat {
    |SameSubjectKeys(m, o)| + |UnclaimedKeys(m, now)| + |SameEmailKeys(m, o)|
  }

  lemma ThreeLists<T>(a: set<T>, b: set<T>, c: set<T>, union: set<T>)
    requires union == a + b + c
    ensures |union| <= |a| + |b| + |c| <= 3 * |union|
  {
    SubsetCardinality(a, union);
    SubsetCardinality(b, union);
    SubsetCardinality(c, union);
    UnionCardinality(a, b);
    UnionCardinality(a + b, c);
  }

  lemma CleanupCountBounds(m: Entries, o: OAuthData, now: Time)
    ensures |m| - |Cleaned(m, o, now)| == |DroppedKeys(m, o, now)|
    ensures |DroppedKeys(m, o, now)| <= CleanupCount(m, o, now) <= 3 * |DroppedKeys(m, o, now)|
  {
    ThreeLists(SameSubjectKeys(m, o), UnclaimedKeys(m, now), SameEmailKeys(m, o), DroppedKeys(m, o, now));
    MapCardinality(m, Cleaned(m, o, now));
    assert m.Keys - Cleaned(m, o, now).Keys == DroppedKeys(m, o, now);
  }

  /** Some entry of the map supersedes the one under this key. */
  ghost predicate IsSuperseded(m: Entries, k: string)
    requires k in m
  {
    exists j :: j in m && Supersedes(m[j], m[k])
  }

  /** One iteration of the range loop of a full pass: the key it stands at, and the clock of its cleanup. */
  datatype Visit = Visit(key: string, now: Time)

  /**
   `visits` is a way to range over `m` while cleaning it up: every iteration
   stands at a key that is still present and was not visited before, and the
   loop stops when no such key is left.
   */
  ghost predicate IsPass(m: Entries, seen: set<string>, visits: seq<Visit>)
    decreases |visits|
  {
    if visits == [] then m.Keys <= seen
    else
      && visits[0].key in m
      && visits[0].key !in seen
      && (|visits| > 1 ==> visits[0].now <= visits[1].now)
      && IsPass(AfterVisit(m, visits[0]), seen + {visits[0].key}, visits[1..])
  }

  function AfterVisit(m: Entries, v: Visit): Entries {
    if v.key in m then Cleaned(m, m[v.key], v.now) else m
  }

  function PassResult(m: Entries, visits: seq<Visit>): Entries {
    if visits == [] then m else PassResult(AfterVisit(m, visits[0]), visits[1..])
  }

  function PassCount(m: Entries, visits: seq<Visit>): nat {
    if visits == [] then 0
    else
      (if visits[0].key in m then CleanupCount(m, m[visits[0].key], visits[0].now) else 0)
      + PassCount(AfterVisit(m, visits[0]), visits[1..])
  }

  ghost predicate Within(n: Entries, m: Entries) {
    n.Keys <= m.Keys && forall k :: k in n ==> n[k] == m[k]
  }

  lemma {:induction false} PassOnlyRemoves(m: Entries, visits: seq<Visit>)
    ensures Within(PassResult(m, visits), m)
    decreases |visits|
  {
    if visits != [] {
      PassOnlyRemoves(AfterVisit(m, visits[0]), visits[1..]);
    }
  }

  /** A pass makes at most one visit per entry, so it terminates. */
  lemma {:induction false} PassTerminates(m: Entries, seen: set<string>, visits: seq<Visit>)
    requires IsPass(m, seen, visits)
    ensures |visits| <= |m.Keys - seen|
    ensures m.Keys - seen != {} ==> visits != []
    decreases |visits|
  {
    if visits != [] {
      var m', seen' := AfterVisit(m, visits[0]), seen + {visits[0].key};
      PassTerminates(m', seen', visits[1..]);
      assert m'.Keys - seen' <= (m.Keys - seen) - {visits[0].key};
      SubsetCardinality(m'.Keys - seen', (m.Keys - seen) - {visits[0].key});
    }
  }

  /** Whatever a pass removed was superseded by an entry of the map, or was pending and young when the pass started. */
  lemma {:induction false} PassRemovesOnlyObsolete(m: Entries, seen: set<string>, visits: seq<Visit>, k: string)
    requires IsPass(m, seen, visits)
    requires k in m && k !in PassResult(m, visits)
    ensures visits != [] && (IsSuperseded(m, k) || Unclaimed(m[k], visits[0].now))
    decreases |visits|
  {
    if visits != [] {
      var m' := AfterVisit(m, visits[0]);
      if k in m' {
        PassRemovesOnlyObsolete(m', seen + {visits[0].key}, visits[1..], k);
      }
    }
  }

  /** No survivor of a pass supersedes another survivor. */
  lemma {:induction false} SurvivorsDoNotSupersede(m: Entries, seen: set<string>, visits: seq<Visit>, a: string,
                                                   b: string)
    requires IsPass(m, seen, visits)
    requires a in PassResult(m, visits) && b in PassResult(m, visits) && a !in seen
    ensures !Supersedes(PassResult(m, visits)[a], PassResult(m, visits)[b])
    decreases |visits|
  {
    PassOnlyRemoves(m, visits);
    if visits != [] {
      var m' := AfterVisit(m, visits[0]);
      PassOnlyRemoves(m', visits[1..]);
      if visits[0].key != a {
        SurvivorsDoNotSupersede(m', seen + {visits[0].key}, visits[1..], a, b);
      }
    }
  }

  lemma {:induction false} SurvivorsAreClaimed(m: Entries, seen: set<string>, visits: seq<Visit>, k: string, now: Time)
    requires IsPass(m, seen, visits) && visits != []
    requires visits[|visits| - 1].now <= now
    requires k in PassResult(m, visits)
    ensures k in m && !Unclaimed(m[k], now)
    decreases |visits|
  {
    PassOnlyRemoves(m, visits);
    var m' := AfterVisit(m, visits[0]);
    PassOnlyRemoves(m', visits[1..]);
    if |visits| > 1 {
      SurvivorsAreClaimed(m', seen + {visits[0].key}, visits[1..], k, now);
    }
  }

  /** A token-bearing entry that nothing in the map supersedes survives every pass. */
  lemma UnsupersededSurvive(m: Entries, visits: seq<Visit>, k: string)
    requires IsPass(m, {}, visits)
    requires k in m && m[k].TokenBearing()
    requires forall j :: j in m ==> !Supersedes(m[j], m[k])
    ensures k in PassResult(m, visits) && PassResult(m, visits)[k] == m[k]
  {
    PassOnlyRemoves(m, visits);
    if k !in PassResult(m, visits) {
      PassRemovesOnlyObsolete(m, {}, visits, k);
    }
  }

  /** With distinct IDs and creation times the survivors are one per email and one per provider and subject. */
  lemma SurvivorsArePairwiseDistinct(m: Entries, visits: seq<Visit>, a: string, b: string)
    requires IsPass(m, {}, visits)
    requires a in PassResult(m, visits) && b in PassResult(m, visits) && a != b
    requires a in m && b in m && m[a].id != m[b].id && m[a].createdAt != m[b].createdAt
    ensures m[a].userInfo.email != m[b].userInfo.email
    ensures (m[a].oidcProviderID, m[a].subject) != (m[b].oidcProviderID, m[b].subject)
  {
    PassOnlyRemoves(m, visits);
    SurvivorsDoNotSupersede(m, {}, visits, a, b);
    SurvivorsDoNotSupersede(m, {}, visits, b, a);
  }

  lemma {:induction false} PassCountBounds(m: Entries, visits: seq<Visit>)
    ensures |m| - |PassResult(m, visits)| <= PassCount(m, visits) <= 3 * (|m| - |PassResult(m, visits)|)
    decreases |visits|
  {
    if visits != [] {
      var m' := AfterVisit(m, visits[0]);
      if visits[0].key in m {
        CleanupCountBounds(m, m[visits[0].key], visits[0].now);
      }
      PassCountBounds(m', visits[1..]);
    }
  }

  /** The count of a pass is positive exactly when the pass changed the map. */
  lemma PassCountDetectsChange(m: Entries, visits: seq<Visit>)
    ensures PassCount(m, visits) > 0 <==> PassResult(m, visits) != m
  {
    PassCountBounds(m, visits);
    PassOnlyRemoves(m, visits);
    MapCardinality(m, PassResult(m, visits));
  }

  /** A map in which nothing is superseded and no pending entry is young does not change under a pass. */
  lemma {:induction false} StableUnderPass(m: Entries, seen: set<string>, visits: seq<Visit>, from: Time)
    requires IsPass(m, seen, visits)
    requires visits != [] ==> from <= visits[0].now
    requires forall a, b :: a in m && b in m ==> !Supersedes(m[a], m[b])
    requires forall k :: k in m ==> !Unclaimed(m[k], from)
    ensures PassResult(m, visits) == m && PassCount(m, visits) == 0
    decreases |visits|
  {
    if visits != [] {
      var v := visits[0];
      assert SameSubjectKeys(m, m[v.key]) == {} && UnclaimedKeys(m, v.now) == {} && SameEmailKeys(m, m[v.key]) == {};
      assert AfterVisit(m, v) == m;
      StableUnderPass(m, seen + {v.key}, visits[1..], v.now);
    }
  }

  /** A second pass right after a first deletes nothing and counts nothing, whatever their visit orders. */
  lemma PassIsIdempotent(m: Entries, first: seq<Visit>, second: seq<Visit>)
    requires IsPass(m, {}, first) && IsPass(PassResult(m, first), {}, second)
    requires first != [] && second != [] ==> first[|first| - 1].now <= second[0].now
    ensures PassResult(PassResult(m, first), second) == PassResult(m, first)
    ensures PassCount(PassResult(m, first), second) == 0
  {
    var n := PassResult(m, first);
    PassOnlyRemoves(m, first);
    PassTerminates(m, {}, first);
    if second != [] {
      forall a, b | a in n && b in n ensures !Supersedes(n[a], n[b]) {
        SurvivorsDoNotSupersede(m, {}, first, a, b);
      }
      forall k | k in n ensures !Unclaimed(n[k], second[0].now) {
        SurvivorsAreClaimed(m, {}, first, k, second[0].now);
      }
      StableUnderPass(n, {}, second, second[0].now);
    }
  }

  predicate SharesIdentity(o: OAuthData, e: OAuthData) {
    (e.oidcProviderID == o.oidcProviderID && e.subject == o.subject) || e.userInfo.email == o.userInfo.email
  }

  /** IDs are distinct, email and (provider, subject) determine each other, and pending entries have no identity. */
  ghost predicate WellIdentified(m: Entries) {
    && (forall a, b :: a in m && b in m && a != b ==> m[a].id != m[b].id)
    && (forall a, b :: a in m && b in m && m[a].TokenBearing() && m[b].TokenBearing() ==>
          (m[a].userInfo.email == m[b].userInfo.email
           <==> m[a].oidcProviderID == m[b].oidcProviderID && m[a].subject == m[b].subject))
    && (forall a, b :: a in m && b in m && !m[a].TokenBearing() && m[b].TokenBearing() ==> !SharesIdentity(m[a], m[b]))
  }

  ghost predicate IsNewest(m: Entries, k: string) {
    && k in m
    && m[k].TokenBearing()
    && forall j :: j in m && SharesIdentity(m[j], m[k]) ==> m[j].createdAt <= m[k].createdAt
  }

  lemma {:induction false} LatestExists(m: Entries, keys: set<string>) returns (latest: string)
    requires keys != {} && keys <= m.Keys
    ensures latest in keys && forall j :: j in keys ==> m[j].createdAt <= m[latest].createdAt
  {
    var some :| some in keys;
    var rest := keys - {some};
    latest := some;
    if rest != {} {
      var other := LatestExists(m, rest);
      if m[other].createdAt > m[some].createdAt {
        latest := other;
      }
    }
    forall j | j in keys ensures m[j].createdAt <= m[latest].createdAt {
      if j != some {
        assert j in rest;
      }
    }
  }

  /** Sharing an identity with a token-bearing entry is an equivalence. */
  lemma IdentityIsTransitive(m: Entries, a: string, b: string, c: string)
    requires WellIdentified(m) && a in m && b in m && c in m && m[c].TokenBearing()
    requires SharesIdentity(m[a], m[b]) && SharesIdentity(m[b], m[c])
    ensures m[a].TokenBearing() && m[b].TokenBearing() && SharesIdentity(m[a], m[c])
  {
  }

  /** An entry that is not the newest of its identity is superseded by the one that is. */
  lemma NewestSupersedes(m: Entries, k: string) returns (top: string)
    requires WellIdentified(m) && k in m && m[k].TokenBearing() && !IsNewest(m, k)
    ensures IsNewest(m, top) && Supersedes(m[top], m[k])
  {
    var rivals := set j | j in m && SharesIdentity(m[j], m[k]);
    assert k in rivals;
    top := LatestExists(m, rivals);
    forall j | j in m && SharesIdentity(m[j], m[top]) ensures j in rivals {
      IdentityIsTransitive(m, j, top, k);
    }
    IdentityIsTransitive(m, top, k, k);
  }

  lemma NewestIsNotSuperseded(m: Entries, k: string)
    requires IsNewest(m, k)
    ensures forall j :: j in m ==> !Supersedes(m[j], m[k])
  {
  }

  /** The token-bearing survivors of a pass are the newest entries of each identity. */
  lemma SurvivorsAreTheNewest(m: Entries, visits: seq<Visit>, k: string)
    requires IsPass(m, {}, visits) && WellIdentified(m)
    ensures k in TokenBearingPart(PassResult(m, visits)) <==> IsNewest(m, k)
  {
    PassOnlyRemoves(m, visits);
    if IsNewest(m, k) {
      NewestIsNotSuperseded(m, k);
      UnsupersededSurvive(m, visits, k);
    } else if k in PassResult(m, visits) && m[k].TokenBearing() {
      var top := NewestSupersedes(m, k);
      NewestIsNotSuperseded(m, top);
      UnsupersededSurvive(m, visits, top);
      SurvivorsDoNotSupersede(m, {}, visits, top, k);
    }
  }

  /** The token-bearing survivors do not depend on the visit order. */
  lemma PassIsConfluent(m: Entries, one: seq<Visit>, other: seq<Visit>)
    requires IsPass(m, {}, one) && IsPass(m, {}, other) && WellIdentified(m)
    ensures TokenBearingPart(PassResult(m, one)) == TokenBearingPart(PassResult(m, other))
  {
    SameNewestSamePart(m, one, m, other);
  }

  lemma SurvivorsAreTheNewestEverywhere(m: Entries, visits: seq<Visit>)
    requires IsPass(m, {}, visits) && WellIdentified(m)
    ensures TokenBearingPart(PassResult(m, visits)).Keys == NewestKeys(m)
    ensures Within(TokenBearingPart(PassResult(m, visits)), m)
  {
    PassOnlyRemoves(m, visits);
    forall k ensures k in TokenBearingPart(PassResult(m, visits)) <==> k in NewestKeys(m) {
      SurvivorsAreTheNewest(m, visits, k);
    }
  }

  ghost function NewestKeys(m: Entries): set<string> {
    set k | k in m && IsNewest(m, k)
  }

  /** Two passes leave the same token-bearing entries as soon as their starting maps have the same newest ones. */
  lemma SameNewestSamePart(m: Entries, one: seq<Visit>, n: Entries, other: seq<Visit>)
    requires IsPass(m, {}, one) && IsPass(n, {}, other) && WellIdentified(m) && WellIdentified(n)
    requires Within(n, m) && NewestKeys(m) == NewestKeys(n)
    ensures TokenBearingPart(PassResult(m, one)) == TokenBearingPart(PassResult(n, other))
  {
    SurvivorsAreTheNewestEverywhere(m, one);
    SurvivorsAreTheNewestEverywhere(n, other);
    SubmapsAgree(m, TokenBearingPart(PassResult(m, one)), n, TokenBearingPart(PassResult(n, other)));
  }

  lemma SubmapsAgree(m: Entries, a: Entries, n: Entries, b: Entries)
    requires Within(a, m) && Within(b, n) && Within(n, m) && a.Keys == b.Keys
    ensures a == b
  {
  }

  // Exactly when the visit order does not matter.

  /** The pass makes its first visit at this time. */
  ghost predicate IsPassFrom(m: Entries, from: Time, visits: seq<Visit>) {
    IsPass(m, {}, visits) && (visits != [] ==> visits[0].now == from)
  }

  /** The entry outlives the pending ones that the first cleanup at this time removes, and nothing supersedes it. */
  ghost predicate IsSafe(m: Entries, from: Time, k: string) {
    k in m && !Unclaimed(m[k], from) && !IsSuperseded(m, k)
  }

  /** The entry is superseded, but not by any entry that every pass keeps. */
  ghost predicate IsContested(m: Entries, from: Time, k: string) {
    && k in m && !Unclaimed(m[k], from) && IsSuperseded(m, k)
    && forall t :: IsSafe(m, from, t) ==> !Supersedes(m[t], m[k])
  }

  lemma SafeSurvive(m: Entries, from: Time, visits: seq<Visit>, k: string)
    requires IsPassFrom(m, from, visits) && IsSafe(m, from, k)
    ensures k in PassResult(m, visits)
  {
    if k !in PassResult(m, visits) {
      PassRemovesOnlyObsolete(m, {}, visits, k);
    }
  }

  /** What every pass leaves when no entry is contested. */
  lemma UncontestedSurvivors(m: Entries, from: Time, visits: seq<Visit>, k: string)
    requires IsPassFrom(m, from, visits)
    requires forall j :: !IsContested(m, from, j)
    ensures k in PassResult(m, visits) <==> IsSafe(m, from, k)
  {
    PassOnlyRemoves(m, visits);
    if IsSafe(m, from, k) {
      SafeSurvive(m, from, visits, k);
    } else if k in PassResult(m, visits) {
      PassTerminates(m, {}, visits);
      PassOnlyRemoves(AfterVisit(m, visits[0]), visits[1..]);
      assert !IsContested(m, from, k);
      var t :| IsSafe(m, from, t) && Supersedes(m[t], m[k]);
      SafeSurvive(m, from, visits, t);
      SurvivorsDoNotSupersede(m, {}, visits, t, k);
    }
  }

  /** Any point of a range loop can be completed to a pass. */
  lemma {:induction false} ExtendToPass(m: Entries, seen: set<string>, now: Time) returns (visits: seq<Visit>)
    ensures IsPass(m, seen, visits)
    ensures visits != [] ==> visits[0].now == now
    decreases |m.Keys - seen|
  {
    if m.Keys <= seen {
      visits := [];
    } else {
      var key :| key in m && key !in seen;
      var v := Visit(key, now);
      var m' := AfterVisit(m, v);
      assert m'.Keys - (seen + {key}) <= (m.Keys - seen) - {key};
      SubsetCardinality(m'.Keys - (seen + {key}), (m.Keys - seen) - {key});
      var rest := ExtendToPass(m', seen + {key}, now);
      visits := [v] + rest;
      assert visits[1..] == rest;
    }
  }

  /** A pass that first visits `guards` keeps an entry all of whose superseders the guards supersede. */
  lemma {:induction false} GuardsKeep(m: Entries, seen: set<string>, guards: set<string>, now: Time, k: string)
    returns (visits: seq<Visit>)
    requires k in m && guards !! seen
    requires forall j :: j in m ==> !Unclaimed(m[j], now)
    requires forall u :: u in guards ==> u in m && !IsSuperseded(m, u) && !Supersedes(m[u], m[k])
    requires forall j :: j in m && Supersedes(m[j], m[k]) ==> exists u :: u in guards && Supersedes(m[u], m[j])
    ensures IsPass(m, seen, visits) && k in PassResult(m, visits)
    ensures visits != [] ==> visits[0].now == now
    decreases |guards|
  {
    if guards == {} {
      visits := ExtendToPass(m, seen, now);
      if k !in PassResult(m, visits) {
        PassRemovesOnlyObsolete(m, seen, visits, k);
      }
    } else {
      var u :| u in guards;
      var v := Visit(u, now);
      var m' := AfterVisit(m, v);
      assert forall g :: g in guards && g != u ==> g in m' && !IsSuperseded(m', g);
      assert |guards - {u}| < |guards|;
      var rest := GuardsKeep(m', seen + {u}, guards - {u}, now, k);
      visits := [v] + rest;
      assert visits[1..] == rest;
    }
  }

  /** The newest contested entry survives a pass that stands at it first, and then at everything safe. */
  lemma ContestedCanSurvive(m: Entries, from: Time, k: string) returns (visits: seq<Visit>)
    requires IsContested(m, from, k)
    requires forall j :: IsContested(m, from, j) ==> m[j].createdAt <= m[k].createdAt
    ensures IsPassFrom(m, from, visits) && k in PassResult(m, visits)
  {
    var v := Visit(k, from);
    var m' := AfterVisit(m, v);
    var guards := set u | u in m && IsSafe(m, from, u);
    forall u | u in guards ensures u in m' && !IsSuperseded(m', u) && u != k {
      assert !Supersedes(m[k], m[u]);
    }
    forall j | j in m' && Supersedes(m'[j], m'[k]) ensures exists u :: u in guards && Supersedes(m'[u], m'[j]) {
      assert !IsSafe(m, from, j) && !IsContested(m, from, j);
      var t :| IsSafe(m, from, t) && Supersedes(m[t], m[j]);
      assert t in guards;
    }
    var rest := GuardsKeep(m', {k}, guards, from, k);
    visits := [v] + rest;
    assert visits[1..] == rest && {} + {k} == {k};
  }

  /** A superseded entry does not survive a pass that stands at one of its superseders first. */
  lemma SupersededCanBeDropped(m: Entries, from: Time, k: string) returns (visits: seq<Visit>)
    requires k in m && IsSuperseded(m, k)
    ensures IsPassFrom(m, from, visits) && k !in PassResult(m, visits)
  {
    var j :| j in m && Supersedes(m[j], m[k]);
    var v := Visit(j, from);
    var rest := ExtendToPass(AfterVisit(m, v), {j}, from);
    visits := [v] + rest;
    assert visits[1..] == rest && {} + {j} == {j};
    PassOnlyRemoves(AfterVisit(m, v), rest);
  }

  /**
   Exactly when all passes over a map agree: every entry that outlives the young
   pending ones and that something supersedes is superseded by such an entry
   that nothing supersedes. The condition is on the map alone, before any pass.
   */
  lemma VisitOrderDoesNotMatterExactlyWhen(m: Entries, from: Time)
    ensures (forall one, other :: IsPassFrom(m, from, one) && IsPassFrom(m, from, other) ==>
      PassResult(m, one) == PassResult(m, other))
      <==> (forall k :: !IsContested(m, from, k))
  {
    if forall k :: !IsContested(m, from, k) {
      forall one, other | IsPassFrom(m, from, one) && IsPassFrom(m, from, other)
        ensures PassResult(m, one) == PassResult(m, other)
      {
        UncontestedPassesAgree(m, from, one, other);
      }
    } else {
      var contested := set k | k in m && IsContested(m, from, k);
      var some :| IsContested(m, from, some);
      assert some in contested;
      var k := LatestExists(m, contested);
      assert forall j :: IsContested(m, from, j) ==> j in contested;
      var keeps := ContestedCanSurvive(m, from, k);
      var drops := SupersededCanBeDropped(m, from, k);
    }
  }

  lemma UncontestedPassesAgree(m: Entries, from: Time, one: seq<Visit>, other: seq<Visit>)
    requires IsPassFrom(m, from, one) && IsPassFrom(m, from, other)
    requires forall k :: !IsContested(m, from, k)
    ensures PassResult(m, one) == PassResult(m, other)
  {
    PassOnlyRemoves(m, one);
    PassOnlyRemoves(m, other);
    forall k ensures k in PassResult(m, one) <==> k in PassResult(m, other) {
      UncontestedSurvivors(m, from, one, k);
      UncontestedSurvivors(m, from, other, k);
    }
  }

  function LoginEntry(id: string, createdAt: Time, subject: string, email: string): OAuthData {
    PendingEntry(id, "idp", createdAt).(subject := subject, userInfo := UserInfo(email),
        token := NO_TOKEN.(accessToken := id))
  }

  /**
   Without those assumptions the visit order matters: "a" and "b" share an email, "b" and "c" a subject.
   Standing at "a" first removes "b", which then never gets to remove "c".
   */
  lemma VisitOrderMatters() returns (m: Entries, one: seq<Visit>, other: seq<Visit>)
    ensures IsPass(m, {}, one) && IsPass(m, {}, other)
    ensures TokenBearingPart(PassResult(m, one)) != TokenBearingPart(PassResult(m, other))
  {
    var a := LoginEntry("1", 3, "s", "x");
    var b := LoginEntry("2", 2, "t", "x");
    var c := LoginEntry("3", 1, "t", "y");
    m := map["a" := a, "b" := b, "c" := c];
    one := [Visit("a", 0), Visit("c", 0)];
    other := [Visit("b", 0), Visit("a", 0)];
    assert Supersedes(a, b) && Supersedes(b, c) && !Supersedes(a, c);
    var ac: Entries := map["a" := a, "c" := c];
    var ab: Entries := map["a" := a, "b" := b];
    assert AfterVisit(m, one[0]) == ac;
    assert AfterVisit(ac, one[1]) == ac;
    assert AfterVisit(m, other[0]) == ab;
    assert AfterVisit(ab, other[1]) == map["a" := a];
    PassOfTwo(m, one, ac, ac);
    PassOfTwo(m, other, ab, map["a" := a]);
    assert "c" in TokenBearingPart(ac) && "c" !in TokenBearingPart(map["a" := a]);
  }

  lemma PassOfTwo(m: Entries, visits: seq<Visit>, m1: Entries, m2: Entries)
    requires |visits| == 2 && visits[0].now <= visits[1].now && visits[0].key != visits[1].key
    requires visits[0].key in m && visits[1].key in m1
    requires AfterVisit(m, visits[0]) == m1 && AfterVisit(m1, visits[1]) == m2
    requires m2.Keys <= {visits[0].key, visits[1].key}
    ensures IsPass(m, {}, visits) && PassResult(m, visits) == m2
  {
    var rest := visits[1..];
    var seen := {} + {visits[0].key};
    assert rest == [visits[1]] && rest[1..] == [];
    assert IsPass(m2, seen + {visits[1].key}, []);
    assert IsPass(m1, seen, rest);
    assert PassResult(m2, []) == m2;
    assert PassResult(m1, rest) == m2;
  }
}
