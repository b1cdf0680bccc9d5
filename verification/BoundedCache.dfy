/**
 * `rememberBounded` of apps/ios/boundedCache.ts. A JavaScript `Map` keeps its entries in the
 * order of their insertion (section 24.1 of ECMA-262), so it is the list of its entries.
 */
module BoundedCache {

  type Entries<K, V> = seq<(K, V)>

  ghost predicate DistinctKeys<K, V>(s: Entries<K, V>) {
    forall i, j :: 0 <= i < j < |s| ==> s[i].0 != s[j].0
  }

  predicate HasKey<K(==), V>(s: Entries<K, V>, key: K) {
    exists i :: 0 <= i < |s| && s[i].0 == key
  }

  /** `cache.delete(key)`. */
  function Without<K(==), V>(s: Entries<K, V>, key: K): Entries<K, V> {
    if s == [] then []
    else if s[0].0 == key then Without(s[1..], key)
    else [s[0]] + Without(s[1..], key)
  }

  function Newest<T>(s: seq<T>, limit: nat): seq<T> {
    if |s| <= limit then s else s[|s| - limit..]
  }

  /** The history of writes reduced to the last write of each key, in the order of those writes. */
  function LastWrites<K(==), V>(history: Entries<K, V>): Entries<K, V> {
    if history == [] then []
    else if HasKey(history[1..], history[0].0) then LastWrites(history[1..])
    else [history[0]] + LastWrites(history[1..])
  }

  class Cache<K(==), V> {
    var entries: Entries<K, V>

    constructor ()
      ensures entries == []
    {
      entries := [];
    }

    /** The key moves to the end with its new value, and the oldest entries go until the limit holds. */
    method RememberBounded(key: K, value: V, limit: int) returns (ok: bool)
      modifies this
      ensures ok <==> limit >= 1
      ensures !ok ==> entries == old(entries)
      ensures ok ==> entries == Newest(Without(old(entries), key) + [(key, value)], limit)
    {
      if limit < 1 {
        return false;
      }
      entries := Without(entries, key);
      entries := entries + [(key, value)];
      ghost var all := entries;
      while |entries| > limit
        invariant |entries| <= |all| && entries == all[|all| - |entries|..]
        invariant |all| > limit ==> |entries| >= limit
        invariant |all| <= limit ==> entries == all
        decreases |entries|
      {
        entries := entries[1..];
      }
      return true;
    }
  }

  // ----- the cache refines its history -----

  /** The cache after a history of writes under one limit. */
  function Remembered<K(==), V>(history: Entries<K, V>, limit: nat): Entries<K, V> {
    if history == [] then []
    else
      var last := history[|history| - 1];
      Newest(Without(Remembered(history[..|history| - 1], limit), last.0) + [last], limit)
  }

  lemma {:induction false} WithoutConcat<K, V>(a: Entries<K, V>, b: Entries<K, V>, key: K)
    ensures Without(a + b, key) == Without(a, key) + Without(b, key)
  {
    if a == [] {
      assert a + b == b;
    } else {
      assert (a + b)[1..] == a[1..] + b;
      WithoutConcat(a[1..], b, key);
    }
  }

  lemma {:induction false} WithoutAbsent<K, V>(s: Entries<K, V>, key: K)
    requires forall i :: 0 <= i < |s| ==> s[i].0 != key
    ensures Without(s, key) == s
  {
    if s != [] {
      WithoutAbsent(s[1..], key);
    }
  }

  lemma {:induction false} WithoutSize<K, V>(s: Entries<K, V>, key: K)
    requires DistinctKeys(s)
    ensures |s| - 1 <= |Without(s, key)| <= |s| && (HasKey(s, key) ==> |Without(s, key)| == |s| - 1)
  {
    if s != [] {
      assert DistinctKeys(s[1..]);
      if s[0].0 == key {
        WithoutAbsent(s[1..], key);
      } else {
        WithoutSize(s[1..], key);
        if HasKey(s, key) {
          var i :| 0 <= i < |s| && s[i].0 == key;
          assert s[1..][i - 1].0 == key;
        }
      }
    }
  }

  /** A new write drops the key's old place and takes the last one. */
  lemma {:induction false} LastWritesSnoc<K, V>(history: Entries<K, V>, x: (K, V))
    ensures LastWrites(history + [x]) == Without(LastWrites(history), x.0) + [x]
  {
    var h := history + [x];
    if history == [] {
      assert h[1..] == [];
    } else {
      LastWritesSnoc(history[1..], x);
      assert h[1..] == history[1..] + [x];
      KeyInSnoc(history[1..], x, history[0].0);
    }
  }

  lemma KeyInSnoc<K, V>(s: Entries<K, V>, x: (K, V), key: K)
    ensures HasKey(s + [x], key) <==> HasKey(s, key) || x.0 == key
  {
    var t := s + [x];
    if HasKey(s, key) {
      var i :| 0 <= i < |s| && s[i].0 == key;
      assert t[i].0 == key;
    }
    if x.0 == key {
      assert t[|s|].0 == key;
    }
  }

  lemma KeyInTail<K, V>(s: Entries<K, V>, key: K)
    requires s != []
    ensures HasKey(s, key) <==> s[0].0 == key || HasKey(s[1..], key)
  {
    if HasKey(s, key) && s[0].0 != key {
      var i :| 0 <= i < |s| && s[i].0 == key;
      assert s[1..][i - 1].0 == key;
    }
    if HasKey(s[1..], key) {
      var i :| 0 <= i < |s[1..]| && s[1..][i].0 == key;
      assert s[i + 1].0 == key;
    }
  }

  lemma {:induction false} LastWritesKeys<K, V>(history: Entries<K, V>, i: nat)
    requires i < |LastWrites(history)|
    ensures HasKey(history, LastWrites(history)[i].0)
  {
    hide HasKey;
    var tail := LastWrites(history[1..]);
    var inTail := HasKey(history[1..], history[0].0);
    if inTail || i > 0 {
      LastWritesKeys(history[1..], if inTail then i else i - 1);
    }
    KeyInTail(history, LastWrites(history)[i].0);
  }

  lemma {:induction false} LastWritesDistinct<K, V>(history: Entries<K, V>)
    ensures DistinctKeys(LastWrites(history))
  {
    hide HasKey;
    if history != [] {
      LastWritesDistinct(history[1..]);
      forall i: nat | i < |LastWrites(history[1..])| ensures HasKey(history[1..], LastWrites(history[1..])[i].0) {
        LastWritesKeys(history[1..], i);
      }
    }
  }

  lemma NewestOfTail<T>(a: seq<T>, t: seq<T>, limit: nat)
    requires limit <= |t|
    ensures Newest(a + t, limit) == Newest(t, limit)
  {
  }

  /** Forgetting what is beyond the limit before a write changes nothing after it. */
  lemma NewestForgets<K, V>(all: Entries<K, V>, x: (K, V), limit: nat)
    requires DistinctKeys(all) && limit >= 1
    ensures Newest(Without(Newest(all, limit), x.0) + [x], limit) == Newest(Without(all, x.0) + [x], limit)
  {
    if |all| > limit {
      var older, kept := all[..|all| - limit], all[|all| - limit..];
      assert all == older + kept;
      WithoutConcat(older, kept, x.0);
      WithoutSize(kept, x.0);
      assert Without(all, x.0) + [x] == Without(older, x.0) + (Without(kept, x.0) + [x]);
      NewestOfTail(Without(older, x.0), Without(kept, x.0) + [x], limit);
    }
  }

  /** After any history the cache is exactly the newest last writes, up to the limit, in the order of those writes. */
  lemma {:induction false} CacheIsNewestLastWrites<K, V>(history: Entries<K, V>, limit: nat)
    requires limit >= 1
    ensures Remembered(history, limit) == Newest(LastWrites(history), limit)
  {
    if history != [] {
      var k := |history| - 1;
      var before, x := history[..k], history[k];
      CacheIsNewestLastWrites(before, limit);
      LastWritesDistinct(before);
      NewestForgets(LastWrites(before), x, limit);
      LastWritesSnoc(before, x);
      assert history == before + [x];
    }
  }

  /** A key is remembered with the value of its latest write. */
  lemma {:induction false} LastWritesHoldLatest<K, V>(history: Entries<K, V>, i: nat)
    requires i < |history| && forall j :: i < j < |history| ==> history[j].0 != history[i].0
    ensures history[i] in LastWrites(history)
  {
    if i > 0 {
      LastWritesHoldLatest(history[1..], i - 1);
    }
  }
}
