/**
 Limiting sign-in attempts. Attempts are counted in fixed windows, kept in the cache under the account
 and under the address; a rejected attempt must not prolong anything.
 */
module AttemptLimiter {
  import opened Options
  import opened Cache

  const WINDOW := 300
  const ACCOUNT_LIMIT := 10
  const IP_LIMIT := 30
  const MAX_ENTRIES := 20000
  const FAILURE_TTL := 86400
  const FREE_FAILURES := 5
  const LADDER := [60, 300, 900, 3600]

  function Ceil(x: real): (n: int)
    ensures x <= n as real < x + 1.0
  {
    -((-x).Floor)
  }

  // ---------------------------------------------------------------------------------------------
  // One counter
  // ---------------------------------------------------------------------------------------------

  /** Attempts so far, the end of their window, and when the cache forgets them. */
  datatype Bucket = Bucket(attempts: nat, until: real, expires: real)

  function Current(b: Option<Bucket>, now: real): Option<Bucket> {
    if b.Some? && b.value.expires >= now then b else None
  }

  /** The window an attempt falls in: the current one, or else a new one. */
  function Opened(b: Option<Bucket>, now: real): Bucket {
    if Current(b, now).Some? then b.value else Bucket(0, now + WINDOW as real, now + WINDOW as real)
  }

  function Lifespan(until: real, now: real): (seconds: int) {
    if Ceil(until - now) < 1 then 1 else Ceil(until - now)
  }

  function Recorded(b: Option<Bucket>, now: real): Bucket {
    var w := Opened(b, now);
    Bucket(w.attempts + 1, w.until, now + Lifespan(w.until, now) as real)
  }

  /** The times of the attempts admitted under a key since it was last cleared, if it ever was. */
  datatype History = History(cleared: Option<real>, times: seq<real>)

  function BucketOf(h: History): Option<Bucket>
    decreases |h.times|
  {
    if h.times != [] then
      Some(Recorded(BucketOf(h.(times := h.times[..|h.times| - 1])), h.times[|h.times| - 1]))
    else if h.cleared.Some? then
      Some(Bucket(0, h.cleared.value + WINDOW as real, h.cleared.value + WINDOW as real))
    else None
  }

  function Upto(h: History, n: nat): History
    requires n <= |h.times|
  {
    h.(times := h.times[..n])
  }

  predicate Admits(h: History, now: real, limit: nat) { Opened(BucketOf(h), now).attempts < limit }

  ghost predicate InTime(h: History) {
    && (forall i, j :: 0 <= i < j < |h.times| ==> h.times[i] <= h.times[j])
    && (h.cleared.Some? ==> forall i :: 0 <= i < |h.times| ==> h.cleared.value <= h.times[i])
  }

  /** Every attempt in the history came in order of time, and was admitted. */
  ghost predicate Admitted(h: History, limit: nat) {
    InTime(h) && forall i :: 0 <= i < |h.times| ==> Admits(Upto(h, i), h.times[i], limit)
  }

  /** The bucket right after an attempt. */
  function At(h: History, i: nat): Bucket
    requires i < |h.times|
  {
    Recorded(BucketOf(Upto(h, i)), h.times[i])
  }

  lemma AtIsBucket(h: History, i: nat)
    requires i < |h.times|
    ensures BucketOf(Upto(h, i + 1)) == Some(At(h, i))
  {
    assert h.times[..i + 1][..i] == h.times[..i];
  }

  lemma AdmittedUpto(h: History, n: nat, limit: nat)
    requires n <= |h.times| && Admitted(h, limit)
    ensures Admitted(Upto(h, n), limit)
  {
    forall i | 0 <= i < n ensures Admits(Upto(Upto(h, n), i), Upto(h, n).times[i], limit) {
      assert Upto(Upto(h, n), i) == Upto(h, i);
    }
  }

  /** A bucket counts at most the limit, and outlives its window by at most a second an attempt. */
  lemma {:induction false} BucketBounds(h: History, limit: nat)
    requires Admitted(h, limit) && BucketOf(h).Some?
    ensures Bounded(BucketOf(h).value, limit)
    decreases |h.times|
  {
    if h.times != [] {
      var n := |h.times| - 1;
      var before := Upto(h, n);
      AdmittedUpto(h, n, limit);
      assert Admits(before, h.times[n], limit);
      if BucketOf(before).Some? { BucketBounds(before, limit); }
      RecordedBounds(BucketOf(before), h.times[n], limit);
    }
  }

  ghost predicate Bounded(b: Bucket, limit: nat) {
    && b.attempts <= limit
    && b.until <= b.expires <= b.until + b.attempts as real
  }

  lemma RecordedBounds(b: Option<Bucket>, now: real, limit: nat)
    requires b.Some? ==> Bounded(b.value, limit)
    requires Opened(b, now).attempts < limit
    ensures Bounded(Recorded(b, now), limit)
  {
    var w := Opened(b, now);
    var seconds := Lifespan(w.until, now) as real;
    assert (w.attempts + 1) as real == w.attempts as real + 1.0 >= 1.0;
    assert w.until <= now + seconds;
    assert w.until - now > 0.0 ==> now + seconds < w.until + 1.0;
  }

  /** A full key is released: once as many seconds as the limit have passed since its window's end, an
      attempt is admitted, in a new window. */
  lemma Released(h: History, limit: nat, now: real)
    requires limit > 0 && Admitted(h, limit) && BucketOf(h).Some?
    requires now > BucketOf(h).value.until + limit as real
    ensures Current(BucketOf(h), now) == None && Admits(h, now, limit)
  {
    BucketBounds(h, limit);
  }

  lemma AtBounds(h: History, i: nat, limit: nat)
    requires i < |h.times| && Admitted(h, limit)
    ensures 1 <= At(h, i).attempts <= limit && At(h, i).until <= At(h, i).expires
  {
    AtIsBucket(h, i);
    AdmittedUpto(h, i + 1, limit);
    BucketBounds(Upto(h, i + 1), limit);
  }

  lemma {:induction false} NextWindowWithin(h: History, i: nat, limit: nat, room: nat) returns (m: nat)
    requires Admitted(h, limit) && i + room + 1 < |h.times| && room == limit - At(h, i).attempts
    ensures i < m <= i + room + 1
    ensures h.times[m] > At(h, i).until && At(h, m).until == h.times[m] + WINDOW as real
    decreases room
  {
    AtBounds(h, i, limit);
    AtIsBucket(h, i);
    var next := h.times[i + 1];
    assert Admits(Upto(h, i + 1), next, limit);
    m := i + 1;
    if At(h, i).expires >= next {
      m := NextWindowWithin(h, i + 1, limit, room - 1);
    }
  }

  /** From any attempt on, a new window opens within as many attempts as the limit: no window admits more. */
  lemma NextWindow(h: History, i: nat, limit: nat) returns (m: nat)
    requires Admitted(h, limit) && i + limit < |h.times|
    ensures i < m <= i + limit
    ensures h.times[m] > At(h, i).until && At(h, m).until == h.times[m] + WINDOW as real
  {
    AtBounds(h, i, limit);
    m := NextWindowWithin(h, i, limit, limit - At(h, i).attempts);
  }

  /** The attempts that a bucket counts are the last ones, and its window ends no later than one begun by the
      first of them. */
  ghost predicate CountsLast(h: History, b: Bucket) {
    && b.attempts <= |h.times|
    && (b.attempts > 0 ==> b.until <= h.times[|h.times| - b.attempts] + WINDOW as real)
    && (b.attempts == 0 ==> h.times == [] && h.cleared.Some? && b.until == h.cleared.value + WINDOW as real)
  }

  lemma RecordedCountsLast(h: History, b: Option<Bucket>)
    requires h.times != [] && InTime(h)
    requires b.Some? ==> CountsLast(Upto(h, |h.times| - 1), b.value)
    ensures CountsLast(h, Recorded(b, h.times[|h.times| - 1]))
  {
    var n := |h.times| - 1;
    var w := Opened(b, h.times[n]);
    if Current(b, h.times[n]).Some? && w.attempts > 0 {
      assert Upto(h, n).times[n - w.attempts] == h.times[n - w.attempts];
    }
  }

  lemma {:induction false} BucketCountsLast(h: History)
    requires InTime(h) && BucketOf(h).Some?
    ensures CountsLast(h, BucketOf(h).value)
    decreases |h.times|
  {
    if h.times != [] {
      var before := Upto(h, |h.times| - 1);
      if BucketOf(before).Some? { BucketCountsLast(before); }
      RecordedCountsLast(h, BucketOf(before));
    }
  }

  /** An attempt is turned down only when as many as the limit have been admitted, all since so many seconds
      before as the window and the limit together. */
  lemma RejectedWhenFull(h: History, limit: nat, now: real)
    requires limit > 0 && Admitted(h, limit) && !Admits(h, now, limit)
    ensures |h.times| >= limit && now <= h.times[|h.times| - limit] + 300.0 + limit as real
  {
    var b := BucketOf(h).value;
    BucketBounds(h, limit);
    BucketCountsLast(h);
    assert b.attempts == limit && now <= b.expires <= b.until + limit as real;
  }

  /** A key that starts over is neither full nor locked. */
  lemma ForgivenStartsOver(cleared: real, limit: nat, now: real)
    requires limit > 0
    ensures Admits(History(Some(cleared), []), now, limit)
    ensures now > 0.0 ==> !Locked(History(Some(cleared), []), now)
    ensures Admits(History(None, []), now, limit) && !Locked(History(None, []), now)
  { }

  lemma InOrder(h: History, i: nat, j: nat)
    requires InTime(h) && i <= j < |h.times|
    ensures h.times[i] <= h.times[j]
  { }

  /** Twice the limit and one more attempts take longer than a window: no half-open interval as long as
      a window admits more than twice the limit. */
  lemma TwiceTheLimit(h: History, i: nat, j: nat, limit: nat)
    requires limit > 0 && Admitted(h, limit) && j < |h.times| && i + 2 * limit <= j
    ensures h.times[j] > h.times[i] + WINDOW as real
  {
    var m := NextWindow(h, i, limit);
    var n := NextWindow(h, m, limit);
    InOrder(h, i, m);
    InOrder(h, n, j);
  }

  /** How many of the attempts fall in a half-open interval. */
  ghost function Within(times: seq<real>, from: real, to: real): set<nat> {
    set i: nat | i < |times| && from <= times[i] < to
  }

  lemma IndicesBetween(s: set<nat>, low: nat, high: nat)
    requires forall i :: i in s ==> low <= i < high
    ensures |s| <= if low <= high then high - low else 0
    decreases high
  {
    if low < high {
      IndicesBetween(s - {high - 1}, low, high - 1);
    } else {
      assert s == {};
    }
  }

  lemma AttemptsInAnyInterval(h: History, from: real, limit: nat)
    requires limit > 0 && Admitted(h, limit)
    ensures |Within(h.times, from, from + WINDOW as real)| <= 2 * limit
  {
    var s := Within(h.times, from, from + WINDOW as real);
    if s != {} {
      var low := Least(s);
      forall i | i in s ensures low <= i < low + 2 * limit {
        if i >= low + 2 * limit { TwiceTheLimit(h, low, i, limit); }
      }
      IndicesBetween(s, low, low + 2 * limit);
    }
  }

  lemma {:induction false} Least(s: set<nat>) returns (low: nat)
    requires s != {}
    ensures low in s && forall i :: i in s ==> low <= i
    decreases s
  {
    var first :| first in s;
    low := first;
    if s != {first} {
      var rest := Least(s - {first});
      assert forall i :: i in s ==> i == first || i in s - {first};
      low := if rest < first then rest else first;
    }
  }

  // ---------------------------------------------------------------------------------------------
  // The lock after failures
  // ---------------------------------------------------------------------------------------------

  /** Seconds that an e-mail stays locked after so many failures. */
  function Lock(failures: nat): (seconds: nat)
    ensures seconds <= 3600 && (seconds > 0 <==> failures > FREE_FAILURES)
  {
    var over := failures - FREE_FAILURES;
    if over > 0 then LADDER[(if over < |LADDER| then over else |LADDER|) - 1] else 0
  }

  function Failed(b: Option<Bucket>, now: real): Bucket {
    var failures := 1 + if Current(b, now).Some? then b.value.attempts else 0;
    Bucket(failures, now + Lock(failures) as real, now + FAILURE_TTL as real)
  }

  /** Failures so far, and the end of the lock they earned. */
  function FailureBucket(h: History): Option<Bucket>
    decreases |h.times|
  {
    if h.times != [] then
      Some(Failed(FailureBucket(h.(times := h.times[..|h.times| - 1])), h.times[|h.times| - 1]))
    else if h.cleared.Some? then Some(Bucket(0, 0.0, h.cleared.value + 1.0))
    else None
  }

  predicate Locked(h: History, now: real) {
    var b := Current(FailureBucket(h), now);
    b.Some? && b.value.until > now
  }

  /** No two failures are a day apart. */
  ghost predicate Close(h: History) {
    forall i :: 0 < i < |h.times| ==> h.times[i] <= h.times[i - 1] + FAILURE_TTL as real
  }

  lemma {:induction false} FailuresAreCounted(h: History)
    requires h.times != [] && Close(h)
    requires h.cleared.Some? ==> h.cleared.value <= h.times[0]
    ensures FailureBucket(h).value.attempts == |h.times|
    ensures FailureBucket(h).value.expires == h.times[|h.times| - 1] + FAILURE_TTL as real
    decreases |h.times|
  {
    var n := |h.times| - 1;
    if n > 0 {
      var before := h.(times := h.times[..n]);
      FailuresAreCounted(before);
      assert h.times[n] <= h.times[n - 1] + FAILURE_TTL as real;
    }
  }

  /** While failures keep coming, an e-mail is locked exactly for as long as the ladder says after the
      last: not at all for the first five, and an hour from the ninth on. */
  lemma LockedForTheLadder(h: History, now: real)
    requires h.times != [] && Close(h) && now >= h.times[|h.times| - 1]
    requires h.cleared.Some? ==> h.cleared.value <= h.times[0]
    ensures var last := h.times[|h.times| - 1];
            Locked(h, now) <==>
              match |h.times| case 6 => now < last + 60.0 case 7 => now < last + 300.0 case 8 => now < last + 900.0
              case n => n > 8 && now < last + 3600.0
  {
    FailuresAreCounted(h);
  }

  // ---------------------------------------------------------------------------------------------
  // The limiter
  // ---------------------------------------------------------------------------------------------

  datatype AuthKey = Account(email: string, ip: Option<string>) | Address(address: string) | Failures(email: string)

  datatype Counter = Counter(attempts: nat, until: real)

  function LimitOf(key: AuthKey): nat { if key.Address? then IP_LIMIT else ACCOUNT_LIMIT }

  type Histories = map<AuthKey, History>

  function Hist(hs: Histories, k: AuthKey): History { if k in hs then hs[k] else History(None, []) }

  function Noted(h: History, now: real): History { h.(times := h.times + [now]) }

  function Expected(k: AuthKey, h: History): Option<Bucket> {
    if k.Failures? then FailureBucket(h) else BucketOf(h)
  }

  function NextBucket(k: AuthKey, h: History, now: real): Bucket {
    if k.Failures? then Failed(FailureBucket(h), now) else Recorded(BucketOf(h), now)
  }

  /** The cache holds what the history says, or has rightly forgotten it. */
  ghost predicate Agrees(found: Option<Item<AuthKey, Counter>>, expected: Option<Bucket>, clock: real) {
    match found
    case None => Current(expected, clock) == None
    case Some(item) => expected == Some(Bucket(item.value.attempts, item.value.until, item.expires))
  }

  ghost predicate AgreesAt(items: seq<Item<AuthKey, Counter>>, hs: Histories, k: AuthKey, clock: real) {
    Agrees(Lookup(items, k), Expected(k, Hist(hs, k)), clock)
  }

  ghost predicate AllAgree(items: seq<Item<AuthKey, Counter>>, hs: Histories, clock: real) {
    forall k :: AgreesAt(items, hs, k, clock)
  }

  ghost predicate Past(h: History, clock: real) {
    && InTime(h) && (forall i :: 0 <= i < |h.times| ==> h.times[i] <= clock)
    && (h.cleared.Some? ==> h.cleared.value <= clock)
  }

  /** What holds of the history of a key: in particular, that every attempt in it was admitted. */
  ghost predicate Proper(k: AuthKey, h: History, clock: real) {
    Past(h, clock) && (!k.Failures? ==> Admitted(h, LimitOf(k)))
  }

  ghost predicate ProperAt(hs: Histories, k: AuthKey, clock: real) { Proper(k, Hist(hs, k), clock) }

  ghost predicate AllProper(hs: Histories, clock: real) { forall k :: ProperAt(hs, k, clock) }

  lemma NotedIsAdmitted(h: History, now: real, limit: nat)
    requires Admitted(h, limit) && InTime(Noted(h, now)) && Admits(h, now, limit)
    ensures Admitted(Noted(h, now), limit)
  {
    var more := Noted(h, now);
    forall i | 0 <= i < |more.times| ensures Admits(Upto(more, i), more.times[i], limit) {
      assert Upto(more, i) == if i < |h.times| then Upto(h, i) else h;
    }
  }

  lemma NotedIsExpected(k: AuthKey, h: History, now: real)
    ensures Expected(k, Noted(h, now)) == Some(NextBucket(k, h, now))
  {
    var more := Noted(h, now);
    assert more.(times := more.times[..|h.times|]) == h;
  }

  lemma NotedIsProper(k: AuthKey, h: History, now: real)
    requires Proper(k, h, now) && (!k.Failures? ==> Admits(h, now, LimitOf(k)))
    ensures Proper(k, Noted(h, now), now)
    ensures Expected(k, Noted(h, now)) == Some(NextBucket(k, h, now))
  {
    NotedIsExpected(k, h, now);
    assert Past(Noted(h, now), now);
    if !k.Failures? { NotedIsAdmitted(h, now, LimitOf(k)); }
  }

  class Limiter {
    const cache: TtlCache<AuthKey, Counter>
    /** The times admitted or failed under each key, since it was last cleared or evicted. */
    ghost var histories: Histories
    ghost var clock: real

    ghost predicate Valid()
      reads this, cache
    {
      && cache.limits == Limits(WINDOW, MAX_ENTRIES) && clock >= 0.0
      && Distinct(cache.items) && |cache.items| <= MAX_ENTRIES
      && AllAgree(cache.items, histories, clock)
      && AllProper(histories, clock)
    }

    constructor ()
      ensures Valid() && fresh(cache) && cache.items == [] && histories == map[]
    {
      cache := new TtlCache(WINDOW, MAX_ENTRIES);
      histories := map[];
      clock := 0.0;
    }

    method Peek(key: AuthKey, now: real) returns (c: Option<Counter>)
      requires Valid() && clock <= now
      modifies this`clock, cache
      ensures Valid() && clock == now && |cache.items| <= old(|cache.items|)
      ensures var b := Current(Expected(key, Hist(histories, key)), now);
              c == if b.Some? then Some(Counter(b.value.attempts, b.value.until)) else None
    {
      PeekAgrees(cache.limits, cache.items, Call.Get(key, now), histories, clock);
      ClockMoves(histories, clock, now);
      assert AgreesAt(cache.items, histories, key, clock);
      c := cache.Get(key, now);
      clock := now;
    }

    /** Writing a key may evict others, and then their history is forgotten. */
    method Write(key: AuthKey, c: Counter, ttl: Option<int>, now: real, ghost h: History)
      requires Valid() && clock == now && Lifetime(cache.limits, ttl) > 0 && Proper(key, h, now)
      requires Expected(key, h) == Some(Bucket(c.attempts, c.until, now + Lifetime(cache.limits, ttl) as real))
      modifies this`histories, cache`items
      ensures Valid() && |cache.items| <= old(|cache.items|) + 1
      ensures histories == Remaining(old(histories), old(cache.items), cache.items)[key := h]
      ensures old(|cache.items|) < MAX_ENTRIES ==> histories == old(histories)[key := h]
    {
      ghost var before := cache.items;
      WriteAgrees(cache.limits, before, Call.Set(key, c, ttl, now), histories, h);
      RemainingProper(histories, before, After(cache.limits, before, Call.Set(key, c, ttl, now)), now);
      cache.Set(key, c, ttl, now);
      histories := Remaining(histories, before, cache.items);
      WriteProper(histories, key, h, now);
      histories := histories[key := h];
    }

    /** Writes a key's next bucket. */
    method Note(key: AuthKey, c: Counter, ttl: int, now: real, ghost h: History)
      requires Valid() && clock == now && ttl > 0 && Proper(key, h, now)
      requires !key.Failures? ==> Admits(h, now, LimitOf(key))
      requires NextBucket(key, h, now) == Bucket(c.attempts, c.until, now + ttl as real)
      modifies this`histories, cache`items
      ensures Valid() && |cache.items| <= old(|cache.items|) + 1
      ensures histories == Remaining(old(histories), old(cache.items), cache.items)[key := Noted(h, now)]
      ensures old(|cache.items|) < MAX_ENTRIES ==> histories == old(histories)[key := Noted(h, now)]
    {
      NotedIsProper(key, h, now);
      Write(key, c, Some(ttl), now, Noted(h, now));
    }

    /** The window an attempt would fall in, and the attempts in it so far. */
    method PeekWindow(key: AuthKey, now: real) returns (c: Counter)
      requires Valid() && clock == now && !key.Failures?
      modifies this`clock, cache
      ensures Valid() && clock == now && |cache.items| <= old(|cache.items|)
      ensures var w := Opened(BucketOf(Hist(histories, key)), now); c == Counter(w.attempts, w.until)
    {
      var found := Peek(key, now);
      c := if found.Some? then found.value else Counter(0, now + WINDOW as real);
    }

    /** The counters as they would be after the attempt, or none if one of them is full. */
    method Count(keys: seq<AuthKey>, now: real) returns (ok: bool, entries: seq<Counter>)
      requires Valid() && clock == now && forall i :: 0 <= i < |keys| ==> !keys[i].Failures?
      modifies this`clock, cache
      ensures Valid() && clock == now && |cache.items| <= old(|cache.items|)
      ensures ok <==> AllAdmit(histories, keys, now)
      ensures ok ==> |entries| == |keys| && forall i :: 0 <= i < |keys| ==>
                entries[i] == Next(Hist(histories, keys[i]), now)
    {
      entries := [];
      for i := 0 to |keys|
        invariant Valid() && clock == now && |cache.items| <= old(|cache.items|)
        invariant |entries| == i
        invariant forall j :: 0 <= j < i ==> Admits(Hist(histories, keys[j]), now, LimitOf(keys[j]))
        invariant forall j :: 0 <= j < i ==> entries[j] == Next(Hist(histories, keys[j]), now)
      {
        var c := PeekWindow(keys[i], now);
        if c.attempts >= LimitOf(keys[i]) { return false, []; }
        entries := entries + [Counter(c.attempts + 1, c.until)];
      }
      ok := true;
    }

    /** An attempt is rejected exactly when the e-mail is locked or one of its counters is full. Admitted,
        it is noted under each of its keys; rejected, under none. Only a full cache forgets anything. */
    method Check(email: string, ip: Option<string>, now: real) returns (ok: bool)
      requires Valid() && clock <= now
      modifies this, cache
      ensures Valid() && clock == now && |cache.items| <= old(|cache.items|) + 2
      ensures ok <==>
                && !Locked(Hist(old(histories), Failures(email)), now)
                && Admits(Hist(old(histories), Account(email, ip)), now, 10)
                && (ip.Some? ==> Admits(Hist(old(histories), Address(ip.value)), now, 30))
      ensures !ok ==> histories == old(histories)
      ensures ok ==> Forgets(NotedUnder(old(histories), Keys(email, ip), now), histories)
      ensures ok && old(|cache.items|) + 2 <= MAX_ENTRIES ==>
                histories == NotedUnder(old(histories), Keys(email, ip), now)
    {
      var lock := Peek(Failures(email), now);
      var lockedUntil := if lock.Some? then lock.value.until else 0.0;
      if lockedUntil > now { return false; }
      var keys, entries := Keys(email, ip), [];
      ok, entries := Count(keys, now);
      if !ok { return; }
      NoteAll(email, ip, entries, now);
    }

    /** Notes an admitted attempt under each of its keys. */
    method NoteAll(email: string, ip: Option<string>, entries: seq<Counter>, now: real)
      requires Valid() && clock == now && AllAdmit(histories, Keys(email, ip), now) && |entries| == |Keys(email, ip)|
      requires forall i :: 0 <= i < |entries| ==> entries[i] == Next(Hist(histories, Keys(email, ip)[i]), now)
      modifies this`histories, cache`items
      ensures Valid() && |cache.items| <= old(|cache.items|) + 2
      ensures Forgets(NotedUnder(old(histories), Keys(email, ip), now), histories)
      ensures old(|cache.items|) + 2 <= MAX_ENTRIES ==> histories == NotedUnder(old(histories), Keys(email, ip), now)
    {
      var keys := Keys(email, ip);
      for i := 0 to |keys|
        invariant Valid() && |cache.items| <= old(|cache.items|) + i
        invariant Forgets(NotedUnder(old(histories), keys[..i], now), histories)
        invariant old(|cache.items|) + 2 <= MAX_ENTRIES ==> histories == NotedUnder(old(histories), keys[..i], now)
      {
        NotYetNoted(old(histories), email, ip, i, now);
        ghost var h := Hist(old(histories), keys[i]);
        assert ProperAt(old(histories), keys[i], now);
        Note(keys[i], entries[i], Lifespan(entries[i].until, now), now, h);
      }
      assert keys[..|keys|] == keys;
    }

    /** A wrong password. */
    method RecordFailure(email: string, now: real)
      requires Valid() && clock <= now
      modifies this, cache
      ensures Valid() && clock == now
      ensures var noted := old(histories)[Failures(email) := Noted(Hist(old(histories), Failures(email)), now)];
              && Forgets(noted, histories) && Hist(histories, Failures(email)) == Hist(noted, Failures(email))
              && (old(|cache.items|) < MAX_ENTRIES ==> histories == noted)
    {
      var found := Peek(Failures(email), now);
      var failures := 1 + if found.Some? then found.value.attempts else 0;
      ghost var h := Hist(histories, Failures(email));
      assert ProperAt(histories, Failures(email), now);
      Note(Failures(email), Counter(failures, now + Lock(failures) as real), FAILURE_TTL, now, h);
    }

    /** A successful sign-in forgives the account and the e-mail, but not the address. */
    method Forgive(email: string, ip: Option<string>, now: real)
      requires Valid() && clock <= now
      modifies this, cache
      ensures Valid() && clock == now
      ensures var forgiven := History(Some(now), []);
              var all := old(histories)[Account(email, ip) := forgiven][Failures(email) := forgiven];
              && Forgets(all, histories) && Hist(histories, Failures(email)) == forgiven
              && (old(|cache.items|) + 2 <= MAX_ENTRIES ==> histories == all)
    {
      MoveClock(now);
      Write(Account(email, ip), Counter(0, now + WINDOW as real), None, now, History(Some(now), []));
      Write(Failures(email), Counter(0, 0.0), Some(1), now, History(Some(now), []));
    }

    ghost method MoveClock(now: real)
      requires Valid() && clock <= now
      modifies this`clock
      ensures Valid() && clock == now
    {
      ClockMoves(histories, clock, now);
      forall k ensures AgreesAt(cache.items, histories, k, now) {
        assert AgreesAt(cache.items, histories, k, clock);
      }
      clock := now;
    }
  }

  /** The histories of the keys that were not evicted. */
  ghost function Remaining(hs: Histories, before: seq<Item<AuthKey, Counter>>,
                           after: seq<Item<AuthKey, Counter>>): Histories {
    map k | k in hs && !(Lookup(before, k).Some? && Lookup(after, k).None?) :: hs[k]
  }

  /** The same histories, but for some that are forgotten as a whole. */
  ghost predicate Forgets(before: Histories, after: Histories) {
    forall k :: k in after ==> k in before && after[k] == before[k]
  }

  /** The keys that an attempt counts under. */
  function Keys(email: string, ip: Option<string>): seq<AuthKey> {
    [Account(email, ip)] + if ip.Some? then [Address(ip.value)] else []
  }

  ghost predicate AllAdmit(hs: Histories, keys: seq<AuthKey>, now: real) {
    forall i :: 0 <= i < |keys| ==> Admits(Hist(hs, keys[i]), now, LimitOf(keys[i]))
  }

  function NotedUnder(hs: Histories, keys: seq<AuthKey>, now: real): Histories {
    if keys == [] then hs else
    var k := keys[|keys| - 1];
    NotedUnder(hs, keys[..|keys| - 1], now)[k := Noted(Hist(hs, k), now)]
  }

  /** An attempt is noted under the account, and under the address if that is known. */
  lemma NotedUnderKeys(hs: Histories, email: string, ip: Option<string>, now: real)
    ensures var account := hs[Account(email, ip) := Noted(Hist(hs, Account(email, ip)), now)];
            NotedUnder(hs, Keys(email, ip), now) ==
              if ip.None? then account
              else account[Address(ip.value) := Noted(Hist(hs, Address(ip.value)), now)]
  {
    var keys := Keys(email, ip);
    NotYetNoted(hs, email, ip, 0, now);
    assert keys[..1] == [keys[0]] && keys[..0] == [];
    if ip.Some? {
      NotYetNoted(hs, email, ip, 1, now);
      assert keys[..2] == keys;
    } else {
      assert keys[..1] == keys;
    }
  }

  function Next(h: History, now: real): Counter {
    var w := Opened(BucketOf(h), now);
    Counter(w.attempts + 1, w.until)
  }

  /** Noting one key leaves the other as it was. */
  lemma NotYetNoted(hs: Histories, email: string, ip: Option<string>, i: nat, now: real)
    requires i < |Keys(email, ip)|
    ensures var keys := Keys(email, ip);
            && Hist(NotedUnder(hs, keys[..i], now), keys[i]) == Hist(hs, keys[i])
            && NotedUnder(hs, keys[..i + 1], now) ==
                 NotedUnder(hs, keys[..i], now)[keys[i] := Noted(Hist(hs, keys[i]), now)]
  {
    var keys := Keys(email, ip);
    assert keys[..i + 1][..i] == keys[..i];
    if i == 1 { assert keys[..1] == [keys[0]] && [keys[0]][..0] == []; }
  }

  lemma PeekAgrees(limits: Limits, items: seq<Item<AuthKey, Counter>>, call: Call<AuthKey, Counter>, hs: Histories,
                   clock: real)
    requires Distinct(items) && limits.Enabled() && call.Get? && clock <= call.now && AllAgree(items, hs, clock)
    ensures var after := After(limits, items, call);
            Distinct(after) && |after| <= |items| && AllAgree(after, hs, call.now)
  {
    var after := After(limits, items, call);
    GetKeepsOthers(limits, items, call, call.key);
    forall k ensures AgreesAt(after, hs, k, call.now) {
      GetKeepsOthers(limits, items, call, k);
      assert AgreesAt(items, hs, k, clock);
    }
  }

  lemma ClockMoves(hs: Histories, clock: real, now: real)
    requires AllProper(hs, clock) && clock <= now
    ensures AllProper(hs, now)
  {
    forall k ensures ProperAt(hs, k, now) {
      assert ProperAt(hs, k, clock);
    }
  }

  lemma WriteAgrees(limits: Limits, items: seq<Item<AuthKey, Counter>>, call: Call<AuthKey, Counter>, hs: Histories,
                    h: History)
    requires Distinct(items) && Effective(limits, call) && |items| <= limits.max && AllAgree(items, hs, call.now)
    requires Expected(call.key, h) == Some(Bucket(call.value.attempts, call.value.until, Stored(limits, call).expires))
    ensures var after := After(limits, items, call);
            && Distinct(after) && |after| <= |items| + 1 && |after| <= limits.max
            && AllAgree(after, Remaining(hs, items, after)[call.key := h], call.now)
            && (|items| < limits.max ==> Remaining(hs, items, after)[call.key := h] == hs[call.key := h])
  {
    var after := After(limits, items, call);
    var more := Remaining(hs, items, after)[call.key := h];
    SetKeepsOthers(limits, items, call, call.key);
    forall k ensures AgreesAt(after, more, k, call.now) {
      SetKeepsOthers(limits, items, call, k);
      assert AgreesAt(items, hs, k, call.now);
    }
    if |items| < limits.max {
      forall k | k in hs && k != call.key ensures k in more && more[k] == hs[k] {
        SetKeepsOthers(limits, items, call, k);
      }
    }
  }

  lemma RemainingProper(hs: Histories, before: seq<Item<AuthKey, Counter>>, after: seq<Item<AuthKey, Counter>>,
                        clock: real)
    requires AllProper(hs, clock)
    ensures AllProper(Remaining(hs, before, after), clock)
  {
    var left := Remaining(hs, before, after);
    forall k ensures ProperAt(left, k, clock) {
      assert ProperAt(hs, k, clock);
    }
  }

  lemma WriteProper(hs: Histories, key: AuthKey, h: History, clock: real)
    requires AllProper(hs, clock) && Proper(key, h, clock)
    ensures AllProper(hs[key := h], clock)
  {
    var more := hs[key := h];
    forall k ensures ProperAt(more, k, clock) {
      assert ProperAt(hs, k, clock);
    }
  }

  /** Whatever was called so far, no key has seen more than twice its limit in any interval as long as a window. */
  lemma LimitsHold(limiter: Limiter, key: AuthKey, from: real)
    requires limiter.Valid() && !key.Failures?
    ensures |Within(Hist(limiter.histories, key).times, from, from + 300.0)| <= if key.Account? then 20 else 60
  {
    assert ProperAt(limiter.histories, key, limiter.clock);
    AttemptsInAnyInterval(Hist(limiter.histories, key), from, LimitOf(key));
  }
}
