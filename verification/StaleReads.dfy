/** The stale-read cache: what it answers when storage is unavailable. */
module StaleReads {
  import opened Base
  import opened Types
  import opened EffectiveConfigs
  import opened CacheKeys

  /** `Instant::elapsed`, which saturates at zero. */
  function Elapsed(since: nat, now: nat): nat {
    if now >= since then now - since else 0
  }

  datatype Entry<+T> = Entry(cachedAt: nat, value: T)

  /** The answer of `resolve`, given the entries before the call. */
  function Resolved<T>(entries: map<string, Entry<T>>, key: string, maxAge: nat, serveStale: bool, now: nat,
                       result: Result<T, DiscoveryError>): Result<T, DiscoveryError>
  {
    if result.Err? && serveStale && result.error.Unavailable? && key in entries
       && Elapsed(entries[key].cachedAt, now) <= maxAge
    then Ok(entries[key].value) else result
  }

  function Remembered<T>(entries: map<string, Entry<T>>, key: string, now: nat, result: Result<T, DiscoveryError>):
      map<string, Entry<T>>
  {
    if result.Ok? then entries[key := Entry(now, result.value)] else entries
  }

  class StaleReadCache<T> {
    var entries: map<string, Entry<T>>

    constructor ()
      ensures entries == map[]
    {
      entries := map[];
    }

    method Resolve(key: string, maxAge: nat, serveStale: bool, now: nat, result: Result<T, DiscoveryError>)
      returns (answer: Result<T, DiscoveryError>)
      modifies this
      ensures answer == Resolved(old(entries), key, maxAge, serveStale, now, result)
      ensures entries == Remembered(old(entries), key, now, result)
    {
      match result {
        case Ok(value) =>
          entries := entries[key := Entry(now, value)];
          return result;
        case Err(error) =>
          if serveStale && error.Unavailable? {
            if key in entries {
              var Entry(cachedAt, value) := entries[key];
              if Elapsed(cachedAt, now) <= maxAge {
                return Ok(value);
              }
            }
          }
          return result;
      }
    }
  }

  // ---------- runs ----------

  datatype Call<+Q, +T> = Call(query: Q, now: nat, serveStale: bool, result: Result<T, DiscoveryError>)

  ghost function After<Q, T>(calls: seq<Call<Q, T>>, keyOf: Q -> string): map<string, Entry<T>> {
    if calls == [] then map[] else
      var n := |calls| - 1;
      Remembered(After(calls[..n], keyOf), keyOf(calls[n].query), calls[n].now, calls[n].result)
  }

  /** What the j-th read of a run answered. */
  ghost function AnswerTo<Q, T>(calls: seq<Call<Q, T>>, keyOf: Q -> string, maxAge: nat, j: nat): Result<T, DiscoveryError>
    requires j < |calls|
  {
    Resolved(After(calls[..j], keyOf), keyOf(calls[j].query), maxAge, calls[j].serveStale, calls[j].now, calls[j].result)
  }

  /** Call `i` is the last one before `j` that read key `key` fresh, and it read the entry. */
  ghost predicate LastFresh<Q, T>(calls: seq<Call<Q, T>>, keyOf: Q -> string, key: string, e: Entry<T>, i: nat) {
    && i < |calls| && keyOf(calls[i].query) == key && calls[i].now == e.cachedAt && calls[i].result == Ok(e.value)
    && (forall k :: i < k < |calls| && calls[k].result.Ok? ==> keyOf(calls[k].query) != key)
  }

  lemma {:induction false} EntriesWereFresh<Q, T>(calls: seq<Call<Q, T>>, keyOf: Q -> string, key: string) returns (i: nat)
    requires key in After(calls, keyOf)
    ensures LastFresh(calls, keyOf, key, After(calls, keyOf)[key], i)
  {
    var n := |calls| - 1;
    if calls[n].result.Ok? && keyOf(calls[n].query) == key {
      i := n;
    } else {
      i := EntriesWereFresh(calls[..n], keyOf, key);
      var e := After(calls, keyOf)[key];
      assert calls[..n][i] == calls[i];
      forall k | i < k < |calls| && calls[k].result.Ok?
        ensures keyOf(calls[k].query) != key
      {
        if k < n { assert calls[..n][k] == calls[k]; }
      }
    }
  }

  /** A stale answer is the latest fresh answer some earlier read got, no older than the limit, to the very same
      query, provided keys are injective on the queries asked. */
  lemma StaleAnswersWereFresh<Q(!new), T>(calls: seq<Call<Q, T>>, keyOf: Q -> string, maxAge: nat, j: nat) returns (i: nat)
    requires j < |calls|
    requires forall a, b :: 0 <= a < |calls| && 0 <= b < |calls| && keyOf(calls[a].query) == keyOf(calls[b].query) ==>
               calls[a].query == calls[b].query
    requires calls[j].result.Err? && AnswerTo(calls, keyOf, maxAge, j).Ok?
    ensures i < j && calls[i].query == calls[j].query
    ensures calls[i].result == AnswerTo(calls, keyOf, maxAge, j) && Elapsed(calls[i].now, calls[j].now) <= maxAge
    ensures calls[j].serveStale && calls[j].result == Err(Unavailable)
    ensures forall k :: i < k < j && calls[k].query == calls[j].query ==> calls[k].result.Err?
  {
    var before, key := calls[..j], keyOf(calls[j].query);
    i := EntriesWereFresh(before, keyOf, key);
    assert before[i] == calls[i];
    forall k | i < k < j && calls[k].query == calls[j].query
      ensures calls[k].result.Err?
    {
      assert before[k] == calls[k];
    }
  }

  /** Instance reads over validated identities. */
  lemma StaleInstanceAnswersWereFresh<T>(calls: seq<Call<InstanceKey, T>>, maxAge: nat, j: nat) returns (i: nat)
    requires j < |calls| && forall n :: 0 <= n < |calls| ==> ValidRetrieve(calls[n].query)
    requires calls[j].result.Err? && AnswerTo(calls, RetrieveKey, maxAge, j).Ok?
    ensures i < j && calls[i].query == calls[j].query
    ensures calls[i].result == AnswerTo(calls, RetrieveKey, maxAge, j) && Elapsed(calls[i].now, calls[j].now) <= maxAge
  {
    forall a, b | 0 <= a < |calls| && 0 <= b < |calls| && RetrieveKey(calls[a].query) == RetrieveKey(calls[b].query)
      ensures calls[a].query == calls[b].query
    {
      RetrieveKeyIsInjective(calls[a].query, calls[b].query);
    }
    i := StaleAnswersWereFresh(calls, RetrieveKey, maxAge, j);
  }

  /** Effective-configuration reads over validated fields. */
  lemma StaleConfigAnswersWereFresh<T>(calls: seq<Call<ConfigQuery, T>>, maxAge: nat, j: nat) returns (i: nat)
    requires j < |calls| && forall n :: 0 <= n < |calls| ==> ValidConfigRead(calls[n].query)
    requires calls[j].result.Err? && AnswerTo(calls, ConfigKey, maxAge, j).Ok?
    ensures i < j && calls[i].query == calls[j].query
    ensures calls[i].result == AnswerTo(calls, ConfigKey, maxAge, j) && Elapsed(calls[i].now, calls[j].now) <= maxAge
  {
    forall a, b | 0 <= a < |calls| && 0 <= b < |calls| && ConfigKey(calls[a].query) == ConfigKey(calls[b].query)
      ensures calls[a].query == calls[b].query
    {
      ConfigKeyIsInjective(calls[a].query, calls[b].query);
    }
    i := StaleAnswersWereFresh(calls, ConfigKey, maxAge, j);
  }
}
