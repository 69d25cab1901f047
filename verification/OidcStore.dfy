/** The OIDC store: login entries and the discovery and JWKS caches, with the file they are saved to. */
module OidcStore {
  import opened Common
  import opened OidcTypes
  import opened Caches
  import opened Cleanup
  import opened Storage
  import SortedKeys

  const DISCOVERY_TTL: Time := 12 * HOUR
  const JWKS_TTL: Time := 20 * MINUTE

  /** The decoded file; a map that the file leaves out is None. */
  datatype StoreImage = StoreImage(
    oauth2Data: Option<Entries>,
    discoveryCache: Option<Cache<Discovery>>,
    jwksCache: Option<Cache<Jwks>>
  )

  function OrEmpty<K, V>(m: Option<map<K, V>>): map<K, V> {
    if m.Some? then m.value else map[]
  }

  datatype StoreError = ReadFailed | WriteFailed | FetchFailed

  class Store {
    var oauth2Data: Entries
    var discoveryCache: Cache<Discovery>
    var jwksCache: Cache<Jwks>
    const file: StoredFile<StoreImage>

    constructor (file: StoredFile<StoreImage>, image: StoreImage)
      ensures this.file == file
      ensures oauth2Data == OrEmpty(image.oauth2Data)
      ensures discoveryCache == OrEmpty(image.discoveryCache)
      ensures jwksCache == OrEmpty(image.jwksCache)
    {
      this.file := file;
      discoveryCache := OrEmpty(image.discoveryCache);
      jwksCache := OrEmpty(image.jwksCache);
      oauth2Data := OrEmpty(image.oauth2Data);
    }

    /** The image of this store that a save writes. */
    function Image(): StoreImage
      reads this
    {
      StoreImage(Some(oauth2Data), Some(discoveryCache), Some(jwksCache))
    }

    /** Opens the store; a store opened on what SaveOIDCStore wrote has that store's maps again. */
    static method NewStore(file: StoredFile<StoreImage>, readable: bool) returns (r: Result<Store, StoreError>)
      ensures r.Err? <==> file.content.Some? && !readable
      ensures r.Ok? ==> fresh(r.value) && r.value.file == file
      ensures r.Ok? && file.content.None? ==> r.value.Image() == StoreImage(Some(map[]), Some(map[]), Some(map[]))
      ensures r.Ok? && file.content.Some? ==>
        var i := file.content.value;
        r.value.Image() == StoreImage(Some(OrEmpty(i.oauth2Data)), Some(OrEmpty(i.discoveryCache)),
            Some(OrEmpty(i.jwksCache)))
      ensures r.Ok? && file.content.Some? ==>
        var i := file.content.value;
        && (i.oauth2Data.Some? ==> r.value.oauth2Data == i.oauth2Data.value)
        && (i.discoveryCache.Some? ==> r.value.discoveryCache == i.discoveryCache.value)
        && (i.jwksCache.Some? ==> r.value.jwksCache == i.jwksCache.value)
    {
      if file.content.None? {
        var store := new Store(file, StoreImage(None, None, None));
        return Ok(store);
      }
      if !readable {
        return Err(ReadFailed);
      }
      var store := new Store(file, file.content.value);
      return Ok(store);
    }

    method StoreEntry(state: string, oauthData: OAuthData)
      modifies `oauth2Data
      ensures oauth2Data == old(oauth2Data)[state := oauthData]
    {
      oauth2Data := oauth2Data[state := oauthData];
    }

    method SaveOIDCStore(writable: bool) returns (ok: bool)
      modifies file
      ensures ok == writable
      ensures file.content == if writable then Some(Image()) else old(file.content)
    {
      ok := file.Write(Image(), writable);
    }

    method SaveOAuth2Data(oauthData: OAuthData, key: string, writable: bool) returns (ok: bool)
      modifies `oauth2Data, file
      ensures ok == writable
      ensures oauth2Data == old(oauth2Data)[key := oauthData]
      ensures file.content == if writable then Some(Image()) else old(file.content)
    {
      oauth2Data := oauth2Data[key := oauthData];
      ok := SaveOIDCStore(writable);
    }

    method GetDiscoveryURI(call: Call<Discovery>) returns (r: Result<Discovery, StoreError>)
      modifies `discoveryCache
      ensures discoveryCache == CacheAfter(old(discoveryCache), DISCOVERY_TTL, call)
      ensures r == match Answer(old(discoveryCache), call) case Some(d) => Ok(d) case None => Err(FetchFailed)
      ensures call.uri in old(discoveryCache) && old(discoveryCache)[call.uri].expiration > call.asked ==>
        r == Ok(old(discoveryCache)[call.uri].value) && discoveryCache == old(discoveryCache)
      ensures !(call.uri in old(discoveryCache) && old(discoveryCache)[call.uri].expiration > call.asked) ==>
        match call.response
        case None => r == Err(FetchFailed) && discoveryCache == old(discoveryCache)
        case Some(d) =>
          r == Ok(d) && discoveryCache == old(discoveryCache)[call.uri := Cached(call.stored + 43_200_000_000_000, d)]
    {
      if call.uri in discoveryCache {
        var cached := discoveryCache[call.uri];
        if cached.expiration > call.asked {
          return Ok(cached.value);
        }
      }
      match call.response {
        case None => r := Err(FetchFailed);
        case Some(discovery) =>
          discoveryCache := discoveryCache[call.uri := Cached(call.stored + DISCOVERY_TTL, discovery)];
          r := Ok(discovery);
      }
    }

    method GetJwks(call: Call<Jwks>) returns (r: Result<Jwks, StoreError>)
      modifies `jwksCache
      ensures jwksCache == CacheAfter(old(jwksCache), JWKS_TTL, call)
      ensures r == match Answer(old(jwksCache), call) case Some(j) => Ok(j) case None => Err(FetchFailed)
      ensures call.uri in old(jwksCache) && old(jwksCache)[call.uri].expiration > call.asked ==>
        r == Ok(old(jwksCache)[call.uri].value) && jwksCache == old(jwksCache)
      ensures !(call.uri in old(jwksCache) && old(jwksCache)[call.uri].expiration > call.asked) ==>
        match call.response
        case None => r == Err(FetchFailed) && jwksCache == old(jwksCache)
        case Some(j) =>
          r == Ok(j) && jwksCache == old(jwksCache)[call.uri := Cached(call.stored + 1_200_000_000_000, j)]
    {
      if call.uri in jwksCache {
        var cached := jwksCache[call.uri];
        if cached.expiration > call.asked {
          return Ok(cached.value);
        }
      }
      match call.response {
        case None => r := Err(FetchFailed);
        case Some(jwks) =>
          jwksCache := jwksCache[call.uri := Cached(call.stored + JWKS_TTL, jwks)];
          r := Ok(jwks);
      }
    }

    /**
     One lookup per provider. While the network answers `net`, and for any clock
     readings, the k-th result is what a lone GetJwks of that provider would have
     returned from the cache the call started with; it fails exactly when one of
     those would have failed.
     */
    method GetAllJwks(providers: seq<Discovery>, net: string -> Option<Jwks>, asked: nat -> Time, stored: nat -> Time)
      returns (r: Result<seq<Jwks>, StoreError>)
      requires forall k: nat :: asked(k) <= stored(k) <= asked(k + 1)
      modifies `jwksCache
      ensures r.Ok? ==> |r.value| == |providers|
      ensures r.Ok? ==> forall k :: 0 <= k < |providers| ==>
        Some(r.value[k]) == Answer(old(jwksCache), CallOf(providers, net, asked, stored, k))
      ensures r.Err? ==>
        exists k :: 0 <= k < |providers| && Answer(old(jwksCache), CallOf(providers, net, asked, stored, k)) == None
    {
      var allJwks := [];
      for k := 0 to |providers|
        invariant |allJwks| == k
        invariant Evolved(old(jwksCache), jwksCache, net, if k == 0 then asked(0) else stored(k - 1))
        invariant forall i :: 0 <= i < k ==>
          Some(allJwks[i]) == Answer(old(jwksCache), CallOf(providers, net, asked, stored, i))
      {
        var call := CallOf(providers, net, asked, stored, k);
        assert k > 0 ==> stored(k - 1) <= asked(k - 1 + 1);
        LoneAnswer(old(jwksCache), jwksCache, net, JWKS_TTL, call, if k == 0 then asked(0) else stored(k - 1));
        var jwks := GetJwks(call);
        if jwks.Err? {
          return Err(FetchFailed);
        }
        allJwks := allJwks + [jwks.value];
      }
      return Ok(allJwks);
    }

    static function CallOf(providers: seq<Discovery>, net: string -> Option<Jwks>, asked: nat -> Time,
                           stored: nat -> Time, k: nat)
      : Call<Jwks>
      requires k < |providers|
    {
      Call(providers[k].jwksURI, asked(k), net(providers[k].jwksURI), stored(k))
    }

    /** One cleanup, under the lock: the map is ranged over in any order, and three key lists are collected. */
    method CleanupOAuth2Data(oauthData: OAuthData, now: Time) returns (deleted: nat)
      modifies `oauth2Data
      ensures oauth2Data == Cleaned(old(oauth2Data), oauthData, now)
      ensures deleted == CleanupCount(old(oauth2Data), oauthData, now)
      ensures var m, o := old(oauth2Data), oauthData;
        deleted == |set k | k in m && m[k].createdAt < o.createdAt && m[k].id != o.id
                               && m[k].oidcProviderID == o.oidcProviderID && m[k].subject == o.subject|
                   + |set k | k in m && m[k].createdAt < o.createdAt && m[k].id != o.id
                                 && m[k].userInfo.email == o.userInfo.email|
                   + |set k | k in m && m[k].token.accessToken == "" && now - m[k].createdAt < 600_000_000_000|
      ensures forall k :: k in old(oauth2Data) ==>
        var e := old(oauth2Data)[k];
        (k !in oauth2Data <==>
           || (&& e.createdAt < oauthData.createdAt && e.id != oauthData.id
               && ((e.oidcProviderID == oauthData.oidcProviderID && e.subject == oauthData.subject)
                   || e.userInfo.email == oauthData.userInfo.email))
           || (e.token.accessToken == "" && now - e.createdAt < 600_000_000_000))
      ensures forall k :: k in oauth2Data ==> k in old(oauth2Data) && oauth2Data[k] == old(oauth2Data)[k]
    {
      ghost var m, o := oauth2Data, oauthData;
      assert SameSubjectKeys(m, o) == set k | k in m && m[k].createdAt < o.createdAt && m[k].id != o.id
                                              && m[k].oidcProviderID == o.oidcProviderID && m[k].subject == o.subject;
      assert SameEmailKeys(m, o) == set k | k in m && m[k].createdAt < o.createdAt && m[k].id != o.id
                                            && m[k].userInfo.email == o.userInfo.email;
      assert UnclaimedKeys(m, now) == set k | k in m && m[k].token.accessToken == ""
                                              && now - m[k].createdAt < 600_000_000_000;
      var keysToDelete1, keysToDelete2, keysToDelete3 := ListKeysToDelete(oauth2Data, oauthData, now);
      var keysToDelete := keysToDelete1 + keysToDelete2 + keysToDelete3;
      ListedKeys(oauth2Data, oauthData, now, keysToDelete1, keysToDelete2, keysToDelete3);
      deleted := |keysToDelete|;
      var compacted := SortedKeys.Compact(SortedKeys.Sort(keysToDelete));
      SortedKeys.SortCompactEnumerates(keysToDelete);
      assert Elems(compacted) == DroppedKeys(oauth2Data, oauthData, now);
      DeleteKeys(compacted);
    }

    /** The loop of a cleanup that collects the three lists. */
    static method ListKeysToDelete(m: Entries, oauthData: OAuthData, now: Time)
      returns (keysToDelete1: seq<string>, keysToDelete2: seq<string>, keysToDelete3: seq<string>)
      ensures Lists(keysToDelete1, SameSubjectKeys(m, oauthData))
      ensures Lists(keysToDelete2, UnclaimedKeys(m, now))
      ensures Lists(keysToDelete3, SameEmailKeys(m, oauthData))
    {
      keysToDelete1, keysToDelete2, keysToDelete3 := [], [], [];
      var unvisited := m.Keys;
      while unvisited != {}
        invariant unvisited <= m.Keys
        invariant Lists(keysToDelete1, SameSubjectKeys(m, oauthData) - unvisited)
        invariant Lists(keysToDelete2, UnclaimedKeys(m, now) - unvisited)
        invariant Lists(keysToDelete3, SameEmailKeys(m, oauthData) - unvisited)
      {
        var k :| k in unvisited;
        ListsNext(keysToDelete1, SameSubjectKeys(m, oauthData), unvisited, k);
        ListsNext(keysToDelete2, UnclaimedKeys(m, now), unvisited, k);
        ListsNext(keysToDelete3, SameEmailKeys(m, oauthData), unvisited, k);
        if oauthData.createdAt > m[k].createdAt {
          if m[k].id != oauthData.id && m[k].oidcProviderID == oauthData.oidcProviderID
            && m[k].subject == oauthData.subject {
            keysToDelete1 := keysToDelete1 + [k];
          }
          if m[k].id != oauthData.id && m[k].userInfo.email == oauthData.userInfo.email {
            keysToDelete3 := keysToDelete3 + [k];
          }
        }
        if m[k].token.accessToken == "" && m[k].createdAt + TOKEN_GRACE > now {
          keysToDelete2 := keysToDelete2 + [k];
        }
        unvisited := unvisited - {k};
      }
    }

    method DeleteKeys(keys: seq<string>)
      modifies `oauth2Data
      ensures oauth2Data == old(oauth2Data) - Elems(keys)
    {
      for i := 0 to |keys|
        invariant oauth2Data == old(oauth2Data) - Elems(keys[..i])
      {
        ElemsConcat(keys[..i], [keys[i]]);
        assert keys[..i + 1] == keys[..i] + [keys[i]];
        oauth2Data := oauth2Data - {keys[i]};
      }
      assert keys[..|keys|] == keys;
    }

    /**
     One cleanup per entry, while ranging over the entries in any order: an entry
     that an earlier iteration removed is not visited. `clock(i)` is the clock of
     the i-th iteration.
     */
    method CleanupOAuth2DataForAllEntries(clock: nat -> Time) returns (deleted: nat, ghost visits: seq<Visit>)
      requires forall i: nat :: clock(i) <= clock(i + 1)
      modifies `oauth2Data
      ensures IsPass(old(oauth2Data), {}, visits) && Clocked(visits, clock)
      ensures oauth2Data == PassResult(old(oauth2Data), visits)
      ensures deleted == PassCount(old(oauth2Data), visits)
    {
      deleted := 0;
      visits := [];
      ghost var start := oauth2Data;
      var i := 0;
      var visited: set<string> := {};
      while oauth2Data.Keys - visited != {}
        invariant i == |visits| && Clocked(visits, clock)
        invariant Ranged(start, {}, visits, oauth2Data, visited)
        invariant deleted == PassCount(start, visits)
        decreases oauth2Data.Keys - visited
      {
        var key :| key in oauth2Data.Keys - visited;
        VisitsGoOn(start, visits, oauth2Data, visited, key, clock);
        var count := CleanupOAuth2Data(oauth2Data[key], clock(i));
        deleted := deleted + count;
        visits := visits + [Visit(key, clock(i))];
        visited := visited + {key};
        i := i + 1;
      }
      assert oauth2Data.Keys <= (oauth2Data.Keys - visited) + visited;
      RangeEnds(start, {}, visits, oauth2Data, visited);
    }
  }

  /** The i-th visit is made at `clock(i)`. */
  ghost predicate Clocked(visits: seq<Visit>, clock: nat -> Time) {
    visits == [] || (visits[|visits| - 1].now == clock(|visits| - 1) && Clocked(visits[..|visits| - 1], clock))
  }

  lemma VisitsGoOn(m: Entries, visits: seq<Visit>, n: Entries, visited: set<string>, key: string, clock: nat -> Time)
    requires Ranged(m, {}, visits, n, visited) && Clocked(visits, clock)
    requires forall i: nat :: clock(i) <= clock(i + 1)
    requires key in n && key !in visited
    ensures var v := Visit(key, clock(|visits|));
      Clocked(visits + [v], clock)
      && Ranged(m, {}, visits + [v], AfterVisit(n, v), visited + {key})
      && PassCount(m, visits + [v]) == PassCount(m, visits) + CleanupCount(n, n[key], v.now)
  {
    var v := Visit(key, clock(|visits|));
    assert (visits + [v])[..|visits|] == visits;
    assert visits != [] ==> clock(|visits| - 1) <= clock(|visits| - 1 + 1);
    RangedFurther(m, {}, visits, n, visited, v);
  }

  /** `keys` lists the set once each. */
  ghost predicate Lists(keys: seq<string>, s: set<string>) {
    NoDuplicates(keys) && Elems(keys) == s
  }

  /** Visiting one more key keeps a list exact when the key is appended just if it belongs to the set. */
  lemma ListsNext(keys: seq<string>, s: set<string>, unvisited: set<string>, k: string)
    requires Lists(keys, s - unvisited) && k in unvisited
    ensures Lists(if k in s then keys + [k] else keys, s - (unvisited - {k}))
  {
    assert s - (unvisited - {k}) == if k in s then (s - unvisited) + {k} else s - unvisited;
    ElemsConcat(keys, [k]);
    assert forall i :: 0 <= i < |keys| ==> keys[i] in Elems(keys);
  }

  lemma ListedKeys(m: Entries, o: OAuthData, now: Time, l1: seq<string>, l2: seq<string>, l3: seq<string>)
    requires Lists(l1, SameSubjectKeys(m, o)) && Lists(l2, UnclaimedKeys(m, now)) && Lists(l3, SameEmailKeys(m, o))
    ensures |l1 + l2 + l3| == CleanupCount(m, o, now)
    ensures Elems(l1 + l2 + l3) == DroppedKeys(m, o, now)
    ensures m - DroppedKeys(m, o, now) == Cleaned(m, o, now)
  {
    NoDuplicatesCardinality(l1);
    NoDuplicatesCardinality(l2);
    NoDuplicatesCardinality(l3);
    ElemsConcat(l1, l2);
    ElemsConcat(l1 + l2, l3);
  }

  /** A range loop that has made `visits` from map `m` stands at map `n`, having visited `visited`. */
  ghost predicate Ranged(m: Entries, seen: set<string>, visits: seq<Visit>, n: Entries, visited: set<string>)
    decreases |visits|
  {
    if visits == [] then n == m && visited == seen
    else
      && visits[0].key in m
      && visits[0].key !in seen
      && (|visits| > 1 ==> visits[0].now <= visits[1].now)
      && Ranged(AfterVisit(m, visits[0]), seen + {visits[0].key}, visits[1..], n, visited)
  }

  lemma {:induction false} RangedFurther(m: Entries, seen: set<string>, visits: seq<Visit>, n: Entries,
                                         visited: set<string>, v: Visit)
    requires Ranged(m, seen, visits, n, visited)
    requires v.key in n && v.key !in visited
    requires visits != [] ==> visits[|visits| - 1].now <= v.now
    ensures Ranged(m, seen, visits + [v], AfterVisit(n, v), visited + {v.key})
    ensures PassCount(m, visits + [v]) == PassCount(m, visits) + CleanupCount(n, n[v.key], v.now)
    decreases |visits|
  {
    if visits == [] {
      assert Ranged(AfterVisit(m, v), seen + {v.key}, [], AfterVisit(n, v), visited + {v.key});
      assert ([v])[1..] == [];
      assert PassCount(AfterVisit(m, v), []) == 0;
    } else {
      assert (visits + [v])[1..] == visits[1..] + [v];
      RangedFurther(AfterVisit(m, visits[0]), seen + {visits[0].key}, visits[1..], n, visited, v);
    }
  }

  lemma {:induction false} RangeEnds(m: Entries, seen: set<string>, visits: seq<Visit>, n: Entries,
                                     visited: set<string>)
    requires Ranged(m, seen, visits, n, visited) && n.Keys <= visited
    ensures IsPass(m, seen, visits) && PassResult(m, visits) == n
    decreases |visits|
  {
    if visits != [] {
      RangeEnds(AfterVisit(m, visits[0]), seen + {visits[0].key}, visits[1..], n, visited);
    }
  }
}
