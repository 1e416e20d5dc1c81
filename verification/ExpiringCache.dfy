/** The ExpiringCache of src/proof-worker.mjs: a map in insertion order, used as an LRU list with a
    time to live. */
module ExpiringCache {
  import opened Wrappers

  datatype Entry<K, V> = Entry(key: K, value: V, expiresAt: int)

  // ---- the ordered map ----

  function Without<K(==), V>(entries: seq<Entry<K, V>>, key: K): (r: seq<Entry<K, V>>)
    ensures |r| <= |entries|
  {
    if entries == [] then []
    else
      var last := entries[|entries| - 1];
      Without(entries[..|entries| - 1], key) + (if last.key == key then [] else [last])
  }

  function Lookup<K(==), V>(entries: seq<Entry<K, V>>, key: K): (r: Option<Entry<K, V>>)
    ensures r.Some? ==> r.value in entries && r.value.key == key
    ensures r.None? ==> forall i | 0 <= i < |entries| :: entries[i].key != key
  {
    if entries == [] then None
    else
      var last := entries[|entries| - 1];
      if last.key == key then Some(last) else Lookup(entries[..|entries| - 1], key)
  }

  /** The last `max` entries: what remains after the oldest are dropped one by one. */
  function Newest<K, V>(entries: seq<Entry<K, V>>, max: nat): seq<Entry<K, V>> {
    if |entries| <= max then entries else entries[|entries| - max..]
  }

  function GetStep<K(==), V>(entries: seq<Entry<K, V>>, key: K, now: int): (seq<Entry<K, V>>, Option<V>) {
    var entry := Lookup(entries, key);
    if entry.None? then (entries, None)
    else if entry.value.expiresAt <= now then (Without(entries, key), None)
    else (Without(entries, key) + [entry.value], Some(entry.value.value))
  }

  function SetStep<K(==), V>(entries: seq<Entry<K, V>>, key: K, value: V, now: int, ttl: int, max: nat)
    : seq<Entry<K, V>>
  {
    Newest(Without(entries, key) + [Entry(key, value, now + ttl)], max)
  }

  class ExpiringCache<K(==), V> {
    const ttlMs: int
    const maxEntries: nat
    var entries: seq<Entry<K, V>>  // the Map, oldest insertion first

    constructor (ttlMs: int, maxEntries: nat)
      ensures this.ttlMs == ttlMs && this.maxEntries == maxEntries && entries == []
    {
      this.ttlMs, this.maxEntries := ttlMs, maxEntries;
      entries := [];
    }

    method Get(key: K, now: int) returns (value: Option<V>)
      modifies this
      ensures (entries, value) == GetStep(old(entries), key, now)
    {
      var entry := Lookup(entries, key);
      if entry.None? {
        return None;
      }
      entries := Without(entries, key);
      if entry.value.expiresAt <= now {
        return None;
      }
      entries := entries + [entry.value];
      value := Some(entry.value.value);
    }

    method Set(key: K, value: V, now: int)
      modifies this
      ensures entries == SetStep(old(entries), key, value, now, ttlMs, maxEntries)
    {
      hide Without;
      entries := Without(entries, key) + [Entry(key, value, now + ttlMs)];
      ghost var full, dropped := entries, 0;
      while |entries| > maxEntries
        invariant 0 <= dropped <= |full| && entries == full[dropped..]
        invariant dropped > 0 ==> |entries| >= maxEntries
      {
        assert full[dropped..][1..] == full[dropped + 1..];
        entries := entries[1..];
        dropped := dropped + 1;
      }
    }
  }

  // ---- histories ----

  datatype Op<K, V> = Get(key: K, now: int) | Set(key: K, value: V, now: int)

  function Run<K(==), V>(ops: seq<Op<K, V>>, ttl: int, max: nat): seq<Entry<K, V>> {
    if ops == [] then []
    else
      var before := Run(ops[..|ops| - 1], ttl, max);
      match ops[|ops| - 1]
      case Get(k, now) => GetStep(before, k, now).0
      case Set(k, v, now) => SetStep(before, k, v, now, ttl, max)
  }

  /** The value and expiry of the key's latest set, unless a later get came at or after that expiry.
      Says nothing of the cache. */
  function LastSet<K(==), V>(ops: seq<Op<K, V>>, key: K, ttl: int): Option<(V, int)> {
    if ops == [] then None
    else
      var before := LastSet(ops[..|ops| - 1], key, ttl);
      match ops[|ops| - 1]
      case Get(k, now) => if k == key && before.Some? && before.value.1 <= now then None else before
      case Set(k, v, now) => if k == key then Some((v, now + ttl)) else before
  }

  /** The operation touches its key: a set, or a get that hits. */
  function Touched<K(==), V>(ops: seq<Op<K, V>>, ttl: int, max: nat): Option<K>
    requires ops != []
  {
    match ops[|ops| - 1]
    case Get(k, now) => if GetStep(Run(ops[..|ops| - 1], ttl, max), k, now).1.Some? then Some(k) else None
    case Set(k, _, _) => Some(k)
  }

  /** The distinct other keys touched since the key's own last touch. */
  function TouchedSince<K(==), V>(ops: seq<Op<K, V>>, key: K, ttl: int, max: nat): set<K> {
    if ops == [] then {}
    else
      var before := TouchedSince(ops[..|ops| - 1], key, ttl, max);
      var touched := Touched(ops, ttl, max);
      if touched == Some(key) then {} else if touched.Some? then before + {touched.value} else before
  }

  // ---- the invariant ----

  ghost function Keys<K, V>(entries: seq<Entry<K, V>>): set<K> {
    set i | 0 <= i < |entries| :: entries[i].key
  }

  ghost predicate DistinctKeys<K, V>(entries: seq<Entry<K, V>>) {
    forall i, j | 0 <= i < j < |entries| :: entries[i].key != entries[j].key
  }

  /** Each entry holds the key's latest set, and every later entry was touched after it. */
  ghost predicate Held<K, V>(ops: seq<Op<K, V>>, entries: seq<Entry<K, V>>, ttl: int, max: nat, p: nat)
    requires p < |entries|
  {
    var e := entries[p];
    && LastSet(ops, e.key, ttl) == Some((e.value, e.expiresAt))
    && Keys(entries[p + 1..]) <= TouchedSince(ops, e.key, ttl, max)
  }

  ghost predicate Missing<K, V>(ops: seq<Op<K, V>>, key: K, ttl: int, max: nat) {
    LastSet(ops, key, ttl).Some? ==> |TouchedSince(ops, key, ttl, max)| >= max
  }

  ghost predicate Inv<K(!new), V>(ops: seq<Op<K, V>>, entries: seq<Entry<K, V>>, ttl: int, max: nat) {
    && DistinctKeys(entries)
    && (forall p | 0 <= p < |entries| :: Held(ops, entries, ttl, max, p))
    && (forall key | key !in Keys(entries) :: Missing(ops, key, ttl, max))
  }

  // ---- removal and its order ----

  lemma {:induction false} WithoutFrom<K, V>(entries: seq<Entry<K, V>>, key: K, p: nat) returns (i: nat)
    requires p < |Without(entries, key)|
    ensures p <= i < |entries| && Without(entries, key)[p] == entries[i] && entries[i].key != key
    ensures Keys(Without(entries, key)[p + 1..]) <= Keys(entries[i + 1..])
  {
    var n := |entries| - 1;
    var r := Without(entries[..n], key);
    if p < |r| {
      i := WithoutFrom(entries[..n], key, p);
      assert entries[i + 1..] == entries[..n][i + 1..] + [entries[n]];
      AppendKeys(entries[..n][i + 1..], entries[n]);
      AppendKeys(r[p + 1..], entries[n]);
      if entries[n].key != key {
        assert (r + [entries[n]])[p + 1..] == r[p + 1..] + [entries[n]];
      }
    } else {
      i := n;
      assert Without(entries, key)[p + 1..] == [];
    }
  }

  lemma {:induction false} WithoutKeeps<K, V>(entries: seq<Entry<K, V>>, key: K)
    requires DistinctKeys(entries)
    ensures DistinctKeys(Without(entries, key))
    ensures Keys(Without(entries, key)) == Keys(entries) - {key}
    ensures key in Keys(entries) ==> |Without(entries, key)| == |entries| - 1
    ensures key !in Keys(entries) ==> Without(entries, key) == entries
  {
    if entries != [] {
      var n := |entries| - 1;
      WithoutKeeps(entries[..n], key);
      AppendKeys(entries[..n], entries[n]);
      assert entries == entries[..n] + [entries[n]];
      var r := Without(entries[..n], key);
      if entries[n].key != key {
        AppendKeys(r, entries[n]);
        assert entries[n].key !in Keys(entries[..n]);
      } else {
        assert Without(entries, key) == r;
        assert key !in Keys(entries[..n]);
      }
    }
  }

  lemma AppendKeys<K, V>(entries: seq<Entry<K, V>>, e: Entry<K, V>)
    ensures Keys(entries + [e]) == Keys(entries) + {e.key}
    ensures DistinctKeys(entries) && e.key !in Keys(entries) ==> DistinctKeys(entries + [e])
  {
    var all := entries + [e];
    forall k | k in Keys(entries) ensures k in Keys(all) {
      var i :| 0 <= i < |entries| && entries[i].key == k;
      assert all[i].key == k;
    }
    assert all[|entries|].key == e.key;
    assert forall i | 0 <= i < |entries| :: entries[i].key in Keys(entries);
  }

  lemma {:induction false} KeyCount<K, V>(entries: seq<Entry<K, V>>)
    requires DistinctKeys(entries)
    ensures |Keys(entries)| == |entries|
  {
    if entries == [] {
      assert Keys(entries) == {};
    } else {
      var n := |entries| - 1;
      KeyCount(entries[..n]);
      assert entries == entries[..n] + [entries[n]];
      AppendKeys(entries[..n], entries[n]);
      assert entries[n].key !in Keys(entries[..n]);
    }
  }

  lemma Bounded<K, V>(ops: seq<Op<K, V>>, ttl: int, max: nat)
    ensures |Run(ops, ttl, max)| <= max
  {
    if ops != [] {
      var n := |ops| - 1;
      Bounded(ops[..n], ttl, max);
      var before := Run(ops[..n], ttl, max);
      match ops[n]
      case Get(k, _) => if Lookup(before, k).Some? { RemovedOne(before, k); }
      case Set(_, _, _) =>
    }
  }

  lemma {:induction false} RemovedOne<K, V>(entries: seq<Entry<K, V>>, key: K)
    requires Lookup(entries, key).Some?
    ensures |Without(entries, key)| < |entries|
  {
    var n := |entries| - 1;
    if entries[n].key != key {
      RemovedOne(entries[..n], key);
    }
  }

  // ---- one operation ----

  /** After an operation on `key`, a key that was not touched keeps its history and its touched set grows. */
  lemma OtherKey<K, V>(ops: seq<Op<K, V>>, other: K, ttl: int, max: nat)
    requires ops != [] && ops[|ops| - 1].key != other
    ensures LastSet(ops, other, ttl) == LastSet(ops[..|ops| - 1], other, ttl)
    ensures TouchedSince(ops, other, ttl, max) ==
            TouchedSince(ops[..|ops| - 1], other, ttl, max)
            + (if Touched(ops, ttl, max).Some? then {ops[|ops| - 1].key} else {})
  {
  }

  /** Entries of the other keys stay held when the operation's own key is removed and maybe put last. */
  lemma OthersHeld<K(!new), V>(ops: seq<Op<K, V>>, entries: seq<Entry<K, V>>, last: seq<Entry<K, V>>, ttl: int,
                                  max: nat, p: nat)
    requires ops != [] && Inv(ops[..|ops| - 1], entries, ttl, max)
    requires var key := ops[|ops| - 1].key;
             last == [] || (|last| == 1 && last[0].key == key && Touched(ops, ttl, max).Some?)
    requires p < |Without(entries, ops[|ops| - 1].key)|
    ensures Held(ops, Without(entries, ops[|ops| - 1].key) + last, ttl, max, p)
  {
    var key := ops[|ops| - 1].key;
    var kept := Without(entries, key);
    var i := WithoutFrom(entries, key, p);
    assert Held(ops[..|ops| - 1], entries, ttl, max, i);
    OtherKey(ops, entries[i].key, ttl, max);
    if last == [] {
      assert kept + last == kept;
    } else {
      assert (kept + last)[p + 1..] == kept[p + 1..] + [last[0]];
      AppendKeys(kept[p + 1..], last[0]);
    }
  }

  lemma SubsetSize<K>(a: set<K>, b: set<K>)
    requires a <= b
    ensures |a| <= |b|
  {
    assert b == a + (b - a);
  }

  lemma StaysMissing<K, V>(ops: seq<Op<K, V>>, other: K, ttl: int, max: nat)
    requires ops != [] && ops[|ops| - 1].key != other && Missing(ops[..|ops| - 1], other, ttl, max)
    ensures Missing(ops, other, ttl, max)
  {
    OtherKey(ops, other, ttl, max);
    SubsetSize(TouchedSince(ops[..|ops| - 1], other, ttl, max), TouchedSince(ops, other, ttl, max));
  }

  /** The list with the operation's key removed and put last keeps the invariant for every key. */
  lemma MovedInv<K(!new), V>(ops: seq<Op<K, V>>, entries: seq<Entry<K, V>>, last: seq<Entry<K, V>>, ttl: int, max: nat)
    requires ops != [] && Inv(ops[..|ops| - 1], entries, ttl, max)
    requires var key := ops[|ops| - 1].key;
             if last == [] then LastSet(ops, key, ttl).None? || Missing(ops, key, ttl, max)
             else |last| == 1 && last[0].key == key && Touched(ops, ttl, max).Some?
                  && LastSet(ops, key, ttl) == Some((last[0].value, last[0].expiresAt))
    ensures Inv(ops, Without(entries, ops[|ops| - 1].key) + last, ttl, max)
  {
    var key := ops[|ops| - 1].key;
    var kept := Without(entries, key);
    var all := kept + last;
    WithoutKeeps(entries, key);
    if last == [] {
      assert all == kept;
    } else {
      assert last == [last[0]];
      AppendKeys(kept, last[0]);
    }
    forall p | 0 <= p < |all| ensures Held(ops, all, ttl, max, p) {
      if p < |kept| {
        OthersHeld(ops, entries, last, ttl, max, p);
      } else {
        assert all[p + 1..] == [];
      }
    }
    forall other | other !in Keys(all) ensures Missing(ops, other, ttl, max) {
      if other != key {
        assert Missing(ops[..|ops| - 1], other, ttl, max);
        StaysMissing(ops, other, ttl, max);
      }
    }
  }

  /** The key of an entry with at least the bound of entries behind it may go missing. */
  lemma DroppedMissing<K(!new), V>(ops: seq<Op<K, V>>, entries: seq<Entry<K, V>>, ttl: int, max: nat, q: nat)
    requires Inv(ops, entries, ttl, max) && q < |entries| - max
    ensures Missing(ops, entries[q].key, ttl, max)
  {
    hide TouchedSince, LastSet, Missing;
    assert Held(ops, entries, ttl, max, q);
    var rest := entries[q + 1..];
    assert forall i | 0 <= i < |rest| :: rest[i] == entries[q + 1 + i];
    KeyCount(rest);
    SubsetSize(Keys(rest), TouchedSince(ops, entries[q].key, ttl, max));
    MissingBySize(ops, entries[q].key, ttl, max);
  }

  lemma MissingBySize<K, V>(ops: seq<Op<K, V>>, key: K, ttl: int, max: nat)
    requires |TouchedSince(ops, key, ttl, max)| >= max
    ensures Missing(ops, key, ttl, max)
  {
  }

  lemma HeldInSuffix<K, V>(ops: seq<Op<K, V>>, entries: seq<Entry<K, V>>, ttl: int, max: nat, d: nat, p: nat)
    requires d + p < |entries| && Held(ops, entries, ttl, max, d + p)
    ensures Held(ops, entries[d..], ttl, max, p)
  {
    hide TouchedSince, LastSet;
    assert entries[d..][p + 1..] == entries[d + p + 1..];
  }

  /** Dropping the oldest entries down to the bound keeps the invariant: whoever is dropped has at
      least the bound of other keys touched since. */
  lemma NewestInv<K(!new), V>(ops: seq<Op<K, V>>, entries: seq<Entry<K, V>>, ttl: int, max: nat)
    requires Inv(ops, entries, ttl, max)
    ensures Inv(ops, Newest(entries, max), ttl, max)
  {
    hide TouchedSince, LastSet, Missing, Held;
    if |entries| > max {
      var d := |entries| - max;
      var r := entries[d..];
      forall p | 0 <= p < |r| ensures Held(ops, r, ttl, max, p) {
        HeldInSuffix(ops, entries, ttl, max, d, p);
      }
      forall i | d <= i < |entries| ensures entries[i].key in Keys(r) {
        assert r[i - d] == entries[i];
      }
      forall key | key !in Keys(r) ensures Missing(ops, key, ttl, max) {
        if key in Keys(entries) {
          var q :| 0 <= q < |entries| && entries[q].key == key;
          DroppedMissing(ops, entries, ttl, max, q);
        }
      }
    }
  }

  lemma LookupHeld<K(!new), V>(ops: seq<Op<K, V>>, entries: seq<Entry<K, V>>, key: K, ttl: int, max: nat)
    requires Inv(ops, entries, ttl, max)
    ensures var e := Lookup(entries, key);
            if e.Some? then LastSet(ops, key, ttl) == Some((e.value.value, e.value.expiresAt))
            else key !in Keys(entries) && Missing(ops, key, ttl, max)
  {
    var e := Lookup(entries, key);
    if e.Some? {
      var p :| 0 <= p < |entries| && entries[p] == e.value;
      assert Held(ops, entries, ttl, max, p);
    }
  }

  lemma GetKeepsInv<K(!new), V>(ops: seq<Op<K, V>>, ttl: int, max: nat)
    requires ops != [] && ops[|ops| - 1].Get? && Inv(ops[..|ops| - 1], Run(ops[..|ops| - 1], ttl, max), ttl, max)
    ensures Inv(ops, Run(ops, ttl, max), ttl, max)
  {
    hide Inv, Without, TouchedSince;
    var n := |ops| - 1;
    var before, k := Run(ops[..n], ttl, max), ops[n].key;
    LookupHeld(ops[..n], before, k, ttl, max);
    var e := Lookup(before, k);
    if e.None? {
      InvDistinct(ops[..n], before, ttl, max);
      WithoutKeeps(before, k);
      MissedGet(ops, ttl, max);
      MovedInv(ops, before, [], ttl, max);
      assert Without(before, k) + [] == before;
    } else if e.value.expiresAt <= ops[n].now {
      MovedInv(ops, before, [], ttl, max);
      assert Without(before, k) + [] == Without(before, k);
    } else {
      MovedInv(ops, before, [e.value], ttl, max);
    }
  }

  lemma SetKeepsInv<K(!new), V>(ops: seq<Op<K, V>>, ttl: int, max: nat)
    requires ops != [] && ops[|ops| - 1].Set? && Inv(ops[..|ops| - 1], Run(ops[..|ops| - 1], ttl, max), ttl, max)
    ensures Inv(ops, Run(ops, ttl, max), ttl, max)
  {
    hide Inv, Without, TouchedSince, Newest;
    var latest, before := ops[|ops| - 1], Run(ops[..|ops| - 1], ttl, max);
    var last := [Entry(latest.key, latest.value, latest.now + ttl)];
    MovedInv(ops, before, last, ttl, max);
    NewestInv(ops, Without(before, latest.key) + last, ttl, max);
  }

  /** The invariant holds after every history of gets and sets. */
  lemma {:induction false} Invariant<K(!new), V>(ops: seq<Op<K, V>>, ttl: int, max: nat)
    ensures Inv(ops, Run(ops, ttl, max), ttl, max)
  {
    hide Inv;
    if ops == [] {
      EmptyInv<K, V>(ttl, max);
    } else {
      Invariant(ops[..|ops| - 1], ttl, max);
      if ops[|ops| - 1].Get? { GetKeepsInv(ops, ttl, max); } else { SetKeepsInv(ops, ttl, max); }
    }
  }

  lemma EmptyInv<K(!new), V>(ttl: int, max: nat)
    ensures Inv<K, V>([], [], ttl, max)
  {
  }

  lemma InvDistinct<K(!new), V>(ops: seq<Op<K, V>>, entries: seq<Entry<K, V>>, ttl: int, max: nat)
    requires Inv(ops, entries, ttl, max)
    ensures DistinctKeys(entries)
  {
  }

  lemma MissedGet<K, V>(ops: seq<Op<K, V>>, ttl: int, max: nat)
    requires ops != [] && ops[|ops| - 1].Get? && Lookup(Run(ops[..|ops| - 1], ttl, max), ops[|ops| - 1].key).None?
    requires Missing(ops[..|ops| - 1], ops[|ops| - 1].key, ttl, max)
    ensures Missing(ops, ops[|ops| - 1].key, ttl, max)
  {
  }

  // ---- what a caller can rely on ----

  /** After any history: a hit returns the value of the key's latest set, before its expiry, and a miss of
      a value still alive means that at least the bound of other keys were touched since its own last touch. */
  lemma GetIsFaithful<K(!new), V>(ops: seq<Op<K, V>>, key: K, now: int, ttl: int, max: nat)
    ensures var got := GetStep(Run(ops, ttl, max), key, now).1;
            var latest := LastSet(ops, key, ttl);
            && (got.Some? ==> latest.Some? && latest.value.0 == got.value && now < latest.value.1)
            && (got.None? && latest.Some? && now < latest.value.1 ==> |TouchedSince(ops, key, ttl, max)| >= max)
  {
    Invariant(ops, ttl, max);
    LookupHeld(ops, Run(ops, ttl, max), key, ttl, max);
  }

  /** The list is in order of last touch: every entry after another belongs to a key touched since. */
  lemma OrderedByTouch<K(!new), V>(ops: seq<Op<K, V>>, ttl: int, max: nat, p: nat, q: nat)
    requires p < q < |Run(ops, ttl, max)|
    ensures Run(ops, ttl, max)[q].key in TouchedSince(ops, Run(ops, ttl, max)[p].key, ttl, max)
    ensures Run(ops, ttl, max)[p].key != Run(ops, ttl, max)[q].key
  {
    var entries := Run(ops, ttl, max);
    Invariant(ops, ttl, max);
    assert Held(ops, entries, ttl, max, p);
    assert entries[p + 1..][q - p - 1] == entries[q];
  }
}
