/** Time-to-live caches of fetched documents, and what their answers mean over a whole run. */
module Caches {
  import opened Common

  datatype Cached<+V> = Cached(expiration: Time, value: V)

  type Cache<V> = map<string, Cached<V>>

  /**
   A lookup: the clock when the cache is consulted, what the network would answer, and the
   clock when it is stored.
   */
  datatype Call<+V> = Call(uri: string, asked: Time, response: Option<V>, stored: Time)

  predicate IsHit<V>(cache: Cache<V>, call: Call<V>) {
    call.uri in cache && cache[call.uri].expiration > call.asked
  }

  function Answer<V>(cache: Cache<V>, call: Call<V>): Option<V> {
    if IsHit(cache, call) then Some(cache[call.uri].value) else call.response
  }

  function CacheAfter<V>(cache: Cache<V>, ttl: Time, call: Call<V>): Cache<V> {
    if IsHit(cache, call) || call.response.None? then cache
    else cache[call.uri := Cached(call.stored + ttl, call.response.value)]
  }

  /** A successful fetch that a run made. */
  datatype Fetch<V> = Fetch(uri: string, at: Time, value: V)

  function FetchesOf<V>(cache: Cache<V>, call: Call<V>): seq<Fetch<V>> {
    if IsHit(cache, call) || call.response.None? then []
    else [Fetch(call.uri, call.stored, call.response.value)]
  }

  /** The cache after a run of lookups from the empty cache. */
  function CacheOf<V>(ttl: Time, calls: seq<Call<V>>): Cache<V> {
    if calls == [] then map[]
    else CacheAfter(CacheOf(ttl, calls[..|calls| - 1]), ttl, calls[|calls| - 1])
  }

  /** All successful fetches of a run of lookups, oldest first. */
  function Log<V>(ttl: Time, calls: seq<Call<V>>): seq<Fetch<V>> {
    if calls == [] then []
    else
      var before := calls[..|calls| - 1];
      Log(ttl, before) + FetchesOf(CacheOf(ttl, before), calls[|calls| - 1])
  }

  /** The clock never goes back, within a lookup or between lookups. */
  ghost predicate Sequential<V>(calls: seq<Call<V>>) {
    && (forall i :: 0 <= i < |calls| ==> calls[i].asked <= calls[i].stored)
    && (forall i, j :: 0 <= i < j < |calls| ==> calls[i].stored <= calls[j].asked)
  }

  ghost predicate IsLatest<V>(log: seq<Fetch<V>>, i: int) {
    0 <= i < |log| && forall j :: i < j < |log| ==> log[j].uri != log[i].uri
  }

  /** The cache holds exactly the latest fetch of every URI, and fetches of one URI are a time-to-live apart. */
  ghost predicate Faithful<V>(cache: Cache<V>, ttl: Time, log: seq<Fetch<V>>) {
    && (forall i :: 0 <= i < |log| ==> log[i].uri in cache)
    && (forall i :: IsLatest(log, i) ==> cache[log[i].uri] == Cached(log[i].at + ttl, log[i].value))
    && (forall uri :: uri in cache ==> exists i :: IsLatest(log, i) && log[i].uri == uri)
    && (forall i, j :: 0 <= i < j < |log| && log[i].uri == log[j].uri ==> log[j].at >= log[i].at + ttl)
  }

  lemma {:induction false} LastFetch<V>(log: seq<Fetch<V>>, uri: string) returns (i: int)
    requires exists j :: 0 <= j < |log| && log[j].uri == uri
    ensures IsLatest(log, i) && log[i].uri == uri
  {
    i := |log| - 1;
    if log[i].uri != uri {
      i := LastFetch(log[..|log| - 1], uri);
    }
  }

  lemma MissKeepsFaithful<V>(cache: Cache<V>, ttl: Time, log: seq<Fetch<V>>, call: Call<V>)
    requires ttl >= 0 && Faithful(cache, ttl, log)
    requires !IsHit(cache, call) && call.response.Some? && call.asked <= call.stored
    ensures Faithful(CacheAfter(cache, ttl, call), ttl, log + [Fetch(call.uri, call.stored, call.response.value)])
  {
    var n := |log|;
    var log' := log + [Fetch(call.uri, call.stored, call.response.value)];
    var cache' := CacheAfter(cache, ttl, call);
    forall i | IsLatest(log', i) ensures cache'[log'[i].uri] == Cached(log'[i].at + ttl, log'[i].value) {
      if i < n {
        assert log'[n].uri != log'[i].uri;
        assert forall j :: i < j < n ==> log'[j] == log[j];
        assert IsLatest(log, i);
      }
    }
    assert IsLatest(log', n);
    forall uri | uri in cache' ensures exists i :: IsLatest(log', i) && log'[i].uri == uri {
      if uri != call.uri {
        var i :| IsLatest(log, i) && log[i].uri == uri;
        assert IsLatest(log', i);
      }
    }
    MissIsSpaced(cache, ttl, log, call);
  }

  /** A miss comes at least a time-to-live after every earlier fetch of its URI. */
  lemma MissIsSpaced<V>(cache: Cache<V>, ttl: Time, log: seq<Fetch<V>>, call: Call<V>)
    requires ttl >= 0 && Faithful(cache, ttl, log)
    requires !IsHit(cache, call) && call.asked <= call.stored
    ensures forall i :: 0 <= i < |log| && log[i].uri == call.uri ==> call.stored >= log[i].at + ttl
  {
    forall i | 0 <= i < |log| && log[i].uri == call.uri ensures call.stored >= log[i].at + ttl {
      var last := LastFetch(log, call.uri);
      assert log[last].at >= log[i].at;
    }
  }

  lemma {:induction false} RunsAreFaithful<V>(ttl: Time, calls: seq<Call<V>>)
    requires ttl >= 0 && Sequential(calls)
    ensures Faithful(CacheOf(ttl, calls), ttl, Log(ttl, calls))
  {
    if calls != [] {
      var before, call := calls[..|calls| - 1], calls[|calls| - 1];
      RunsAreFaithful(ttl, before);
      var cache := CacheOf(ttl, before);
      if !IsHit(cache, call) && call.response.Some? {
        MissKeepsFaithful(cache, ttl, Log(ttl, before), call);
      } else {
        assert Log(ttl, calls) == Log(ttl, before);
      }
    }
  }

  /** Every answer of a run was fetched from that very URI less than a time-to-live before it was asked for. */
  lemma AnswersAreFresh<V>(ttl: Time, calls: seq<Call<V>>, n: nat)
    requires ttl > 0 && Sequential(calls) && n < |calls|
    requires Answer(CacheOf(ttl, calls[..n]), calls[n]).Some?
    ensures exists f :: f in Log(ttl, calls[..n + 1]) && f.uri == calls[n].uri
                        && Some(f.value) == Answer(CacheOf(ttl, calls[..n]), calls[n])
                        && calls[n].asked < f.at + ttl
  {
    var before, call := calls[..n], calls[n];
    RunsAreFaithful(ttl, before);
    assert calls[..n + 1][..n] == before;
    var log := Log(ttl, before);
    assert Log(ttl, calls[..n + 1]) == log + FetchesOf(CacheOf(ttl, before), call);
    if IsHit(CacheOf(ttl, before), call) {
      var i :| IsLatest(log, i) && log[i].uri == call.uri;
      assert log[i] in Log(ttl, calls[..n + 1]);
    } else {
      var f := Fetch(call.uri, call.stored, call.response.value);
      assert FetchesOf(CacheOf(ttl, before), call) == [f];
      assert f in Log(ttl, calls[..n + 1]);
    }
  }

  /** Successful fetches of one URI are at least a time-to-live apart. */
  lemma FetchesAreSpaced<V>(ttl: Time, calls: seq<Call<V>>, i: nat, j: nat)
    requires ttl >= 0 && Sequential(calls)
    requires i < j < |Log(ttl, calls)| && Log(ttl, calls)[i].uri == Log(ttl, calls)[j].uri
    ensures Log(ttl, calls)[j].at - Log(ttl, calls)[i].at >= ttl
  {
    RunsAreFaithful(ttl, calls);
  }

  /**
   A loop of lookups that all face the same network `net` has reached time `now`:
   an entry of its cache is the one it started with, or what `net` answers in
   place of a starting entry that is no longer fresh.
   */
  ghost predicate Evolved<V(!new)>(start: Cache<V>, cache: Cache<V>, net: string -> Option<V>, now: Time) {
    && start.Keys <= cache.Keys
    && forall uri :: uri in cache ==>
      (uri in start && cache[uri] == start[uri])
      || (net(uri) == Some(cache[uri].value) && !(uri in start && start[uri].expiration > now))
  }

  /** In such a loop each lookup answers what it would have answered alone, from the starting cache. */
  lemma LoneAnswer<V(!new)>(start: Cache<V>, cache: Cache<V>, net: string -> Option<V>, ttl: Time, call: Call<V>,
                            now: Time)
    requires Evolved(start, cache, net, now) && now <= call.asked <= call.stored
    requires call.response == net(call.uri)
    ensures Answer(cache, call) == Answer(start, call)
    ensures Evolved(start, CacheAfter(cache, ttl, call), net, call.stored)
  {
  }
}
