/**
 The in-memory cache: entries expire, and the one touched longest ago is evicted when there are too many.
 */
module Cache {
  import opened Options

  /** A cached entry, as the ordered dictionary keeps it; the sequence of entries is in order of recency,
      the one touched longest ago first. */
  datatype Item<K, V> = Item(key: K, expires: real, value: V)

  datatype Limits = Limits(ttl: int, max: int) {
    predicate Enabled() { ttl > 0 && max > 0 }
  }

  function Find<K(==), V>(items: seq<Item<K, V>>, key: K): (at: Option<nat>)
    ensures at.Some? ==> at.value < |items| && items[at.value].key == key
    ensures at.None? ==> forall i :: 0 <= i < |items| ==> items[i].key != key
  {
    if items == [] then None
    else if items[0].key == key then Some(0)
    else var rest := Find(items[1..], key);
         assert forall i :: 0 < i < |items| ==> items[i] == items[1..][i - 1];
         if rest.Some? then Some(rest.value + 1) else None
  }

  function Without<K(==), V>(items: seq<Item<K, V>>, key: K): seq<Item<K, V>> {
    var at := Find(items, key);
    if at.Some? then items[..at.value] + items[at.value + 1..] else items
  }

  function Trim<K, V>(items: seq<Item<K, V>>, max: nat): seq<Item<K, V>> {
    if |items| > max then items[|items| - max..] else items
  }

  // ---------------------------------------------------------------------------------------------
  // One call
  // ---------------------------------------------------------------------------------------------

  datatype Call<K, V> =
    | Get(key: K, now: real)
    | Set(key: K, value: V, ttl: Option<int>, now: real)
    | Clear

  predicate Hits<K(==), V>(limits: Limits, items: seq<Item<K, V>>, key: K, now: real) {
    limits.Enabled() && var at := Find(items, key); at.Some? && items[at.value].expires >= now
  }

  /** The time to live of a call to set: that of the call, or else that of the cache. */
  function Lifetime(limits: Limits, ttl: Option<int>): int { if ttl.Some? then ttl.value else limits.ttl }

  predicate Effective<K, V>(limits: Limits, call: Call<K, V>) {
    limits.Enabled() && call.Set? && Lifetime(limits, call.ttl) > 0
  }

  function Stored<K, V>(limits: Limits, call: Call<K, V>): Item<K, V>
    requires call.Set?
  {
    Item(call.key, call.now + Lifetime(limits, call.ttl) as real, call.value)
  }

  function After<K(==), V>(limits: Limits, items: seq<Item<K, V>>, call: Call<K, V>): seq<Item<K, V>> {
    match call
    case Get(key, now) =>
      if !limits.Enabled() || Find(items, key).None? then items
      else if Hits(limits, items, key, now) then Without(items, key) + [items[Find(items, key).value]]
      else Without(items, key)
    case Set(key, _, _, _) =>
      if !Effective(limits, call) then items
      else Trim(Without(items, key) + [Stored(limits, call)], limits.max)
    case Clear => []
  }

  class TtlCache<K(==), V> {
    const limits: Limits
    var items: seq<Item<K, V>>
    var hits: nat
    var misses: nat

    constructor (ttl: int, max: int)
      ensures limits == Limits(ttl, max) && items == [] && hits == 0 && misses == 0
    {
      limits := Limits(ttl, max);
      items, hits, misses := [], 0, 0;
    }

    method Get(key: K, now: real) returns (value: Option<V>)
      modifies this
      ensures items == After(limits, old(items), Call.Get(key, now))
      ensures value.Some? <==> Hits(limits, old(items), key, now)
      ensures value.Some? ==> value.value == old(items)[Find(old(items), key).value].value
      ensures hits == old(hits) + if value.Some? then 1 else 0
      ensures misses == old(misses) + if limits.Enabled() && value.None? then 1 else 0
    {
      if !limits.Enabled() { return None; }
      var at := Find(items, key);
      if at.None? {
        misses := misses + 1;
        return None;
      }
      var item := items[at.value];
      if item.expires < now {
        items := items[..at.value] + items[at.value + 1..];
        misses := misses + 1;
        return None;
      }
      items := items[..at.value] + items[at.value + 1..] + [item];
      hits := hits + 1;
      return Some(item.value);
    }

    method Set(key: K, value: V, ttl: Option<int>, now: real)
      modifies this`items
      ensures items == After(limits, old(items), Call.Set(key, value, ttl, now))
    {
      if !limits.Enabled() { return; }
      var lifetime := Lifetime(limits, ttl);
      if lifetime <= 0 { return; }
      items := Without(items, key) + [Item(key, now + lifetime as real, value)];
      ghost var full := items;
      while |items| > limits.max
        invariant |items| <= |full| && (|full| > |items| ==> |items| >= limits.max)
        invariant items == full[|full| - |items|..]
      {
        items := items[1..];
      }
    }

    method Clear()
      modifies this`items
      ensures items == After(limits, old(items), Call.Clear)
    {
      items := [];
    }
  }

  // ---------------------------------------------------------------------------------------------
  // Every history of calls
  // ---------------------------------------------------------------------------------------------

  function Run<K(==), V>(limits: Limits, calls: seq<Call<K, V>>): seq<Item<K, V>> {
    if calls == [] then [] else After(limits, Run(limits, calls[..|calls| - 1]), calls[|calls| - 1])
  }

  ghost predicate Distinct<K, V>(items: seq<Item<K, V>>) {
    forall i, j :: 0 <= i < j < |items| ==> items[i].key != items[j].key
  }

  /** The entry of the last effective call to set for a key, if no clear came after it. */
  function LastSet<K(==), V>(limits: Limits, calls: seq<Call<K, V>>, key: K): Option<Item<K, V>> {
    if calls == [] then None else
    var last := calls[|calls| - 1];
    if last.Clear? then None
    else if Effective(limits, last) && last.key == key then Some(Stored(limits, last))
    else LastSet(limits, calls[..|calls| - 1], key)
  }

  /** The key that a call moves to the end, if any. */
  function Touches<K(==), V>(limits: Limits, items: seq<Item<K, V>>, call: Call<K, V>): Option<K> {
    if (call.Get? && Hits(limits, items, call.key, call.now)) || Effective(limits, call) then Some(call.key) else None
  }

  /** The other keys touched since a key was last touched. */
  ghost function TouchedSince<K, V>(limits: Limits, calls: seq<Call<K, V>>, key: K): set<K> {
    if calls == [] then {} else
    var front := calls[..|calls| - 1];
    var touched := Touches(limits, Run(limits, front), calls[|calls| - 1]);
    if touched.None? then TouchedSince(limits, front, key)
    else if touched.value == key then {}
    else TouchedSince(limits, front, key) + {touched.value}
  }

  /** Taking an entry out keeps the order of the others. */
  lemma WithoutKeeps<K, V>(items: seq<Item<K, V>>, key: K)
    requires Distinct(items)
    ensures var rest := Without(items, key);
            && Distinct(rest) && Find(rest, key).None? && |rest| <= |items|
            && (forall k :: k != key && Find(items, k).Some? ==>
                  Find(rest, k).Some? && rest[Find(rest, k).value] == items[Find(items, k).value])
  {
    var rest := Without(items, key);
    var at := Find(items, key);
    forall k | k != key && Find(items, k).Some?
      ensures Find(rest, k).Some? && rest[Find(rest, k).value] == items[Find(items, k).value]
    {
      var i := Find(items, k).value;
      if at.Some? {
        assert rest[if i < at.value then i else i - 1] == items[i];
      }
    }
  }

  lemma WithoutOrder<K, V>(items: seq<Item<K, V>>, key: K, i: nat, j: nat) returns (p: nat, q: nat)
    requires i < j < |Without(items, key)|
    ensures p < q < |items| && Without(items, key)[i] == items[p] && Without(items, key)[j] == items[q]
  {
    var at := Find(items, key);
    p := if at.Some? && i >= at.value then i + 1 else i;
    q := if at.Some? && j >= at.value then j + 1 else j;
  }

  /** Keys are distinct, and there are never too many. */
  lemma {:induction false} CacheIsBounded<K, V>(limits: Limits, calls: seq<Call<K, V>>)
    ensures Distinct(Run(limits, calls))
    ensures Run(limits, calls) == [] || |Run(limits, calls)| <= limits.max
  {
    if calls != [] {
      var front, last := calls[..|calls| - 1], calls[|calls| - 1];
      CacheIsBounded(limits, front);
      if !last.Clear? { WithoutKeeps(Run(limits, front), last.key); }
    }
  }

  /** Whatever is found is the last entry set, never an older one. */
  lemma {:induction false} FoundIsLastSet<K, V>(limits: Limits, calls: seq<Call<K, V>>, i: nat)
    requires i < |Run(limits, calls)|
    ensures LastSet(limits, calls, Run(limits, calls)[i].key) == Some(Run(limits, calls)[i])
  {
    var front, last := calls[..|calls| - 1], calls[|calls| - 1];
    var before, after := Run(limits, front), Run(limits, calls);
    CacheIsBounded(limits, front);
    if !last.Clear? { WithoutKeeps(before, last.key); }
    if !(Effective(limits, last) && after[i].key == last.key) {
      var j := WasThere(limits, before, last, i);
      FoundIsLastSet(limits, front, j);
    }
  }

  /** An entry is either the one just stored or one that was there. */
  lemma WasThere<K, V>(limits: Limits, items: seq<Item<K, V>>, call: Call<K, V>, i: nat) returns (j: nat)
    requires i < |After(limits, items, call)|
    requires !(Effective(limits, call) && After(limits, items, call)[i].key == call.key)
    ensures j < |items| && items[j] == After(limits, items, call)[i]
  {
    var item := After(limits, items, call)[i];
    assert item in items;
    j :| j < |items| && items[j] == item;
  }

  // ---------------------------------------------------------------------------------------------
  // One key at a time
  // ---------------------------------------------------------------------------------------------

  function Lookup<K(==), V>(items: seq<Item<K, V>>, key: K): Option<Item<K, V>> {
    var at := Find(items, key);
    if at.Some? then Some(items[at.value]) else None
  }

  lemma LookupAt<K, V>(items: seq<Item<K, V>>, i: nat)
    requires Distinct(items) && i < |items|
    ensures Lookup(items, items[i].key) == Some(items[i])
  { }

  /** A call to get changes no entry, and drops only the one it finds expired. */
  lemma GetKeepsOthers<K, V>(limits: Limits, items: seq<Item<K, V>>, call: Call<K, V>, k: K)
    requires Distinct(items) && limits.Enabled() && call.Get?
    ensures var after := After(limits, items, call);
            && Distinct(after) && |after| <= |items|
            && Lookup(after, k) ==
                 if k == call.key && !Hits(limits, items, call.key, call.now) then None else Lookup(items, k)
  {
    WithoutKeeps(items, call.key);
    var after, rest := After(limits, items, call), Without(items, call.key);
    if Hits(limits, items, call.key, call.now) {
      LookupAt(after, |rest|);
      if Lookup(rest, k).Some? { LookupAt(after, Find(rest, k).value); }
    }
  }

  /** Moving an entry to the end changes no other. */
  lemma MovedLookup<K, V>(items: seq<Item<K, V>>, item: Item<K, V>, k: K)
    requires Distinct(items)
    ensures var moved := Without(items, item.key) + [item];
            Distinct(moved) && Lookup(moved, k) == if k == item.key then Some(item) else Lookup(items, k)
  {
    WithoutKeeps(items, item.key);
    var rest := Without(items, item.key);
    var moved := rest + [item];
    LookupAt(moved, |rest|);
    if Lookup(rest, k).Some? { LookupAt(moved, Find(rest, k).value); }
  }

  /** Dropping the first entry changes no other. */
  lemma TrimLookup<K, V>(moved: seq<Item<K, V>>, max: nat, k: K)
    requires Distinct(moved) && |moved| <= max + 1 && moved != [] && max > 0
    ensures Distinct(Trim(moved, max))
    ensures Lookup(Trim(moved, max), k) == if |moved| > max && moved[0].key == k then None else Lookup(moved, k)
  {
    if |moved| > max {
      assert Trim(moved, max) == moved[1..];
      if Find(moved[1..], k).Some? { assert moved[Find(moved[1..], k).value + 1].key == k; }
    }
  }

  /** A call to set changes no other entry, but may evict some, and only when there is no room. */
  lemma SetKeepsOthers<K, V>(limits: Limits, items: seq<Item<K, V>>, call: Call<K, V>, k: K)
    requires Distinct(items) && Effective(limits, call) && |items| <= limits.max
    ensures var after := After(limits, items, call);
            && Distinct(after) && |after| <= |items| + 1 && |after| <= limits.max
            && (k == call.key ==> Lookup(after, k) == Some(Stored(limits, call)))
            && (k != call.key ==>
                  || Lookup(after, k) == Lookup(items, k)
                  || (Lookup(after, k).None? && |items| == limits.max))
  {
    WithoutKeeps(items, call.key);
    MovedLookup(items, Stored(limits, call), k);
    var moved := Without(items, call.key) + [Stored(limits, call)];
    TrimLookup(moved, limits.max, k);
    assert |moved| > limits.max ==> moved[0].key != call.key;
  }

  // ---------------------------------------------------------------------------------------------
  // Eviction
  // ---------------------------------------------------------------------------------------------

  /** Entries are in order of recency: each was touched after those before it. */
  ghost predicate InOrder<K, V>(limits: Limits, calls: seq<Call<K, V>>, items: seq<Item<K, V>>) {
    forall i, j :: 0 <= i < j < |items| ==> items[j].key in TouchedSince(limits, calls, items[i].key)
  }

  lemma TouchedGrows<K, V>(limits: Limits, calls: seq<Call<K, V>>, call: Call<K, V>, key: K)
    ensures var touched := Touches(limits, Run(limits, calls), call);
            TouchedSince(limits, calls + [call], key) ==
              if touched.None? then TouchedSince(limits, calls, key)
              else if touched.value == key then {} else TouchedSince(limits, calls, key) + {touched.value}
  {
    assert (calls + [call])[..|calls|] == calls;
  }

  /** Moving an entry to the end keeps the order. */
  lemma MovedInOrder<K, V>(limits: Limits, calls: seq<Call<K, V>>, call: Call<K, V>, item: Item<K, V>)
    requires var items := Run(limits, calls); Distinct(items) && InOrder(limits, calls, items)
    requires Touches(limits, Run(limits, calls), call) == Some(item.key)
    ensures InOrder(limits, calls + [call], Without(Run(limits, calls), item.key) + [item])
  {
    var items := Run(limits, calls);
    var rest := Without(items, item.key);
    WithoutKeeps(items, item.key);
    var moved := rest + [item];
    forall i, j | 0 <= i < j < |moved| ensures moved[j].key in TouchedSince(limits, calls + [call], moved[i].key) {
      TouchedGrows(limits, calls, call, moved[i].key);
      if j < |rest| {
        var p, q := WithoutOrder(items, item.key, i, j);
      }
    }
  }

  lemma {:induction false} EntriesInOrder<K, V>(limits: Limits, calls: seq<Call<K, V>>)
    ensures InOrder(limits, calls, Run(limits, calls))
  {
    if calls != [] {
      var front, call := calls[..|calls| - 1], calls[|calls| - 1];
      assert calls == front + [call];
      EntriesInOrder(limits, front);
      CacheIsBounded(limits, front);
      StepInOrder(limits, front, call);
    }
  }

  lemma StepInOrder<K, V>(limits: Limits, calls: seq<Call<K, V>>, call: Call<K, V>)
    requires Distinct(Run(limits, calls)) && InOrder(limits, calls, Run(limits, calls))
    ensures InOrder(limits, calls + [call], After(limits, Run(limits, calls), call))
  {
    var items := Run(limits, calls);
    if call.Get? && Hits(limits, items, call.key, call.now) {
      MovedInOrder(limits, calls, call, items[Find(items, call.key).value]);
    } else if Effective(limits, call) {
      MovedInOrder(limits, calls, call, Stored(limits, call));
    } else if !call.Clear? {
      var after := After(limits, items, call);
      forall i, j | 0 <= i < j < |after| ensures after[j].key in TouchedSince(limits, calls + [call], after[i].key) {
        TouchedGrows(limits, calls, call, after[i].key);
        if call.Get? && after == Without(items, call.key) {
          var p, q := WithoutOrder(items, call.key, i, j);
        }
      }
    }
  }

  lemma {:induction false} DistinctKeys<K, V>(items: seq<Item<K, V>>, keys: set<K>)
    requires Distinct(items) && forall i :: 0 <= i < |items| ==> items[i].key in keys
    ensures |items| <= |keys|
  {
    if items != [] {
      var front, last := items[..|items| - 1], items[|items| - 1];
      DistinctKeys(front, keys - {last.key});
    }
  }

  lemma Finds<K, V>(items: seq<Item<K, V>>, i: nat)
    requires i < |items|
    ensures Find(items, items[i].key).Some?
  { }

  lemma TrimKeeps<K, V>(moved: seq<Item<K, V>>, max: nat, i: nat)
    requires |moved| <= max + 1 && i < |moved|
    ensures |moved| <= max || i > 0 ==> Find(Trim(moved, max), moved[i].key).Some?
  {
    if |moved| <= max {
      Finds(moved, i);
    } else if i > 0 {
      assert Trim(moved, max)[i - 1] == moved[i];
      Finds(Trim(moved, max), i - 1);
    }
  }

  /** A call to get loses at most the entry it asks for, and only when it has expired. */
  lemma GetLoses<K, V>(limits: Limits, items: seq<Item<K, V>>, call: Call<K, V>, key: K)
    requires Distinct(items) && call.Get? && Find(items, key).Some?
    ensures || Find(After(limits, items, call), key).Some?
            || (call.key == key && items[Find(items, key).value].expires < call.now)
  {
    WithoutKeeps(items, call.key);
    if Hits(limits, items, call.key, call.now) {
      var rest := Without(items, call.key);
      var moved := rest + [items[Find(items, call.key).value]];
      if key == call.key {
        Finds(moved, |rest|);
      } else {
        assert moved[Find(rest, key).value].key == key;
        Finds(moved, Find(rest, key).value);
      }
    }
  }

  /** A call to set loses at most the entry touched longest ago, and only when the cache is full. */
  lemma SetLoses<K, V>(limits: Limits, calls: seq<Call<K, V>>, call: Call<K, V>, key: K)
    requires Effective(limits, call) && Find(Run(limits, calls), key).Some?
    requires Find(After(limits, Run(limits, calls), call), key).None?
    ensures call.key != key && |TouchedSince(limits, calls + [call], key)| >= limits.max
  {
    var items := Run(limits, calls);
    var rest := Without(items, call.key);
    var moved := rest + [Stored(limits, call)];
    CacheIsBounded(limits, calls);
    WithoutKeeps(items, call.key);
    TrimKeeps(moved, limits.max, |rest|);
    assert call.key != key;
    var i := Find(rest, key).value;
    assert moved[i].key == key;
    TrimKeeps(moved, limits.max, i);
    assert i == 0 && |moved| == limits.max + 1;
    EntriesInOrder(limits, calls);
    MovedInOrder(limits, calls, call, Stored(limits, call));
    assert forall j :: 0 <= j < |moved| - 1 ==> moved[1..][j] == moved[j + 1];
    DistinctKeys(moved[1..], TouchedSince(limits, calls + [call], key));
  }

  /** When an entry goes: cleared, found expired, or evicted after enough others were touched. */
  lemma GoneBecause<K, V>(limits: Limits, calls: seq<Call<K, V>>, call: Call<K, V>, key: K)
    requires Find(Run(limits, calls), key).Some?
    requires Find(After(limits, Run(limits, calls), call), key).None?
    ensures var items := Run(limits, calls);
            || call.Clear?
            || (call.Get? && call.key == key && items[Find(items, key).value].expires < call.now)
            || (Effective(limits, call) && call.key != key && |TouchedSince(limits, calls + [call], key)| >= limits.max)
  {
    if call.Get? {
      CacheIsBounded(limits, calls);
      GetLoses(limits, Run(limits, calls), call, key);
    } else if Effective(limits, call) {
      SetLoses(limits, calls, call, key);
    }
  }

  // ---------------------------------------------------------------------------------------------
  // Hits
  // ---------------------------------------------------------------------------------------------

  /** Since the last effective call to set for a key: no call to get after it expired, and never as
      many other keys touched, since the key itself was, as the cache holds. */
  ghost predicate Undisturbed<K, V>(limits: Limits, calls: seq<Call<K, V>>, key: K) {
    calls == [] ||
    var front, last := calls[..|calls| - 1], calls[|calls| - 1];
    || (Effective(limits, last) && last.key == key)
    || (&& Undisturbed(limits, front, key)
        && |TouchedSince(limits, calls, key)| < limits.max
        && (last.Get? && last.key == key && LastSet(limits, front, key).Some? ==>
              last.now <= LastSet(limits, front, key).value.expires))
  }

  lemma {:induction false} UndisturbedStays<K, V>(limits: Limits, calls: seq<Call<K, V>>, key: K)
    requires Undisturbed(limits, calls, key) && LastSet(limits, calls, key).Some?
    ensures Find(Run(limits, calls), key).Some?
  {
    var front, last := calls[..|calls| - 1], calls[|calls| - 1];
    assert calls == front + [last];
    if Effective(limits, last) && last.key == key {
      var after := Run(limits, calls);
      assert after[|after| - 1].key == key;
    } else {
      UndisturbedStays(limits, front, key);
      var i := Find(Run(limits, front), key).value;
      FoundIsLastSet(limits, front, i);
      if Find(Run(limits, calls), key).None? {
        GoneBecause(limits, front, last, key);
      }
    }
  }

  /** A call to get answers with what the last effective call to set stored, if that has not expired;
      and while the entry is undisturbed it does answer, exactly until it expires. */
  lemma HitsExactly<K, V>(limits: Limits, calls: seq<Call<K, V>>, key: K, now: real)
    requires limits.Enabled()
    ensures var items, last := Run(limits, calls), LastSet(limits, calls, key);
            && (Hits(limits, items, key, now) ==>
                  last == Some(items[Find(items, key).value]) && now <= last.value.expires)
            && (Undisturbed(limits, calls, key) ==>
                  (Hits(limits, items, key, now) <==> last.Some? && now <= last.value.expires))
  {
    var items := Run(limits, calls);
    if Find(items, key).Some? {
      FoundIsLastSet(limits, calls, Find(items, key).value);
    }
    if Undisturbed(limits, calls, key) && LastSet(limits, calls, key).Some? {
      UndisturbedStays(limits, calls, key);
    }
  }

  // ---------------------------------------------------------------------------------------------
  // In terms of the calls
  // ---------------------------------------------------------------------------------------------

  /** The call stores something under the key: the lifetime it asks for, if any, is positive. */
  predicate Stores<K(==), V>(call: Call<K, V>, key: K) {
    call.Set? && call.key == key && (call.ttl.Some? ==> call.ttl.value > 0)
  }

  /** Call `i` is the last that stores something under the key, and nothing is cleared after it. */
  ghost predicate SetAt<K, V>(calls: seq<Call<K, V>>, key: K, i: nat) {
    i < |calls| && Stores(calls[i], key) && forall j :: i < j < |calls| ==> !Stores(calls[j], key) && !calls[j].Clear?
  }

  /** The end of the lifetime that a call to set asks for, or else the one of the cache. */
  function Until<K, V>(limits: Limits, call: Call<K, V>): real
    requires call.Set?
  {
    match call.ttl case None => call.now + limits.ttl as real case Some(seconds) => call.now + seconds as real
  }

  lemma {:induction false} LastSetAt<K, V>(limits: Limits, calls: seq<Call<K, V>>, key: K) returns (i: nat)
    requires limits.ttl > 0 && limits.max > 0 && LastSet(limits, calls, key).Some?
    ensures SetAt(calls, key, i)
    ensures LastSet(limits, calls, key) == Some(Item(key, Until(limits, calls[i]), calls[i].value))
  {
    i := |calls| - 1;
    if !Stores(calls[i], key) {
      i := LastSetAt(limits, calls[..i], key);
    }
  }

  lemma {:induction false} SetAtIsLast<K, V>(limits: Limits, calls: seq<Call<K, V>>, key: K, i: nat)
    requires limits.ttl > 0 && limits.max > 0 && SetAt(calls, key, i)
    ensures LastSet(limits, calls, key) == Some(Item(key, Until(limits, calls[i]), calls[i].value))
  {
    var n := |calls| - 1;
    if i < n { SetAtIsLast(limits, calls[..n], key, i); }
  }

  /** What a hit answers with was set by the last call that did, and its lifetime is not over. */
  lemma HitWasSet<K, V>(limits: Limits, calls: seq<Call<K, V>>, key: K, now: real) returns (i: nat)
    requires Hits(limits, Run(limits, calls), key, now)
    ensures SetAt(calls, key, i) && now <= Until(limits, calls[i])
    ensures var items := Run(limits, calls); items[Find(items, key).value].value == calls[i].value
  {
    HitsExactly(limits, calls, key, now);
    i := LastSetAt(limits, calls, key);
  }

  /** And while the entry is undisturbed, it is found for exactly its lifetime. */
  lemma SetIsHit<K, V>(limits: Limits, calls: seq<Call<K, V>>, key: K, i: nat, now: real)
    requires limits.ttl > 0 && limits.max > 0 && SetAt(calls, key, i) && Undisturbed(limits, calls, key)
    ensures Hits(limits, Run(limits, calls), key, now) <==> now <= Until(limits, calls[i])
  {
    HitsExactly(limits, calls, key, now);
    SetAtIsLast(limits, calls, key, i);
  }
}
