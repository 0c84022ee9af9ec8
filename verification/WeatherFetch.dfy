/**
 Fetching weather readings: at most one request in flight for a city, shared by everyone who needs it,
 and what a caller is given when a source is slow, stale or down. A method runs from one suspension to
 the next; between methods, tasks finish and other callers run.
 */
module WeatherFetch {
  import opened Options

  type Code = string

  datatype Variant = Current | Forecast

  /** What the source says of a city. Times are in seconds. */
  datatype City = City(observedAt: int, weather: string)

  datatype Reading = Reading(fetchedAt: int, city: City)

  const MIN_FRESHNESS_AFTER_FETCH := 2 * 60
  const FORCE_MIN_AGE := 5 * 60
  const FUTURE_TOLERANCE := 15 * 60
  const MAX_DATA_AGE := 2 * 3600
  const MAX_FALLBACK_AGE := 12 * 3600

  predicate Within(city: City, now: int, maxAge: int) {
    -FUTURE_TOLERANCE <= now - city.observedAt <= maxAge
  }

  predicate IsFresh(r: Reading, now: int, freshness: int) {
    && (now < r.city.observedAt + freshness || now < r.fetchedAt + MIN_FRESHNESS_AFTER_FETCH)
    && Within(r.city, now, MAX_DATA_AGE)
  }

  // ---------------------------------------------------------------------------------------------
  // Tasks
  // ---------------------------------------------------------------------------------------------

  /** A task waits for the source, then saves what came, and then has its result. */
  datatype Outcome = Pending | Saving(readings: map<Code, Reading>) | Batch(readings: map<Code, Reading>) | Failed {
    predicate Fetched() { Saving? || Batch? }
    predicate Done() { Batch? || Failed? }
  }

  /** A task is released once its completion callback has run. */
  datatype Task = Task(variant: Variant, codes: seq<Code>, outcome: Outcome, released: bool)

  datatype Key = Key(variant: Variant, code: Code)

  ghost predicate Registered(inflight: map<Key, nat>, tasks: seq<Task>, t: nat)
    requires t < |tasks|
  {
    forall c :: c in tasks[t].codes ==> Key(tasks[t].variant, c) in inflight && inflight[Key(tasks[t].variant, c)] == t
  }

  /** What was fetched is a reading for every city, all recent when they were fetched. */
  ghost predicate Honest(task: Task, clock: int) {
    && (task.released ==> task.outcome.Done())
    && (task.outcome.Fetched() ==>
          && Covers(task.outcome.readings, task.codes)
          && AllFetched(task.outcome.readings, clock))
  }

  ghost predicate Covers(readings: map<Code, Reading>, codes: seq<Code>) {
    forall c :: c in readings <==> c in codes
  }

  ghost predicate AllFetched(readings: map<Code, Reading>, clock: int) {
    forall c :: c in readings ==> RecentlyFetched(readings[c]) && readings[c].fetchedAt <= clock
  }

  predicate RecentlyFetched(r: Reading) { Within(r.city, r.fetchedAt, MAX_DATA_AGE) }

  /** What may become of a task's outcome. */
  ghost predicate Becomes(before: Outcome, after: Outcome) {
    || before.Pending?
    || after == before
    || (before.Saving? && after == Batch(before.readings))
  }

  ghost predicate FetchedSince(outcome: Outcome, since: int) {
    outcome.Fetched() ==> forall c :: c in outcome.readings ==> outcome.readings[c].fetchedAt >= since
  }

  ghost predicate Unanswered(tasks: seq<Task>, t: nat) { t >= |tasks| || tasks[t].outcome.Pending? }

  /** What may happen from time `since` on: tasks are never forgotten, what has happened to them stays,
      and what was not fetched by then is fetched later. */
  ghost predicate Later(before: seq<Task>, since: int, after: seq<Task>) {
    && |before| <= |after|
    && (forall t :: 0 <= t < |before| ==>
          && after[t].variant == before[t].variant && after[t].codes == before[t].codes
          && Becomes(before[t].outcome, after[t].outcome)
          && (before[t].released ==> after[t].released))
    && (forall t: nat :: t < |after| && Unanswered(before, t) ==> FetchedSince(after[t].outcome, since))
  }

  lemma LaterStill(a: seq<Task>, since: int, b: seq<Task>, next: int, c: seq<Task>)
    requires since <= next && Later(a, since, b) && Later(b, next, c)
    ensures Later(a, since, c)
  {
    forall t: nat | t < |c| && Unanswered(a, t) ensures FetchedSince(c[t].outcome, since) {
      if !Unanswered(b, t) { assert FetchedSince(b[t].outcome, since); }
    }
  }

  /** The tasks that a caller waits for, with the cities it wants from each. */
  ghost predicate Awaits(tasks: seq<Task>, waiting: map<nat, seq<Code>>, codes: seq<Code>, variant: Variant) {
    && (forall c :: c in codes ==> Wanted(waiting, c))
    && (forall t :: t in waiting ==> HasAll(tasks, t, waiting[t], codes, variant))
  }

  ghost predicate HasAll(tasks: seq<Task>, t: nat, wanted: seq<Code>, codes: seq<Code>, variant: Variant) {
    t < |tasks| && tasks[t].variant == variant && forall c :: c in wanted ==> c in tasks[t].codes && c in codes
  }

  ghost predicate Wanted(waiting: map<nat, seq<Code>>, c: Code) {
    exists t :: t in waiting && c in waiting[t]
  }

  /** A city more to expect from a task. */
  function Joined(waiting: map<nat, seq<Code>>, t: nat, c: Code): map<nat, seq<Code>> {
    waiting[t := (if t in waiting then waiting[t] else []) + [c]]
  }

  class Fetcher {
    var tasks: seq<Task>
    var inflight: map<Key, nat>
    /** The time at which something last happened. */
    var clock: int

    /** Every task is registered under all its keys until its callback has run, and nothing else is. */
    ghost predicate Valid()
      reads this
    {
      && (forall t :: 0 <= t < |tasks| ==>
           Honest(tasks[t], clock) && (!tasks[t].released ==> Registered(inflight, tasks, t)))
      && (forall k :: k in inflight ==>
            inflight[k] < |tasks| && !tasks[inflight[k]].released
            && tasks[inflight[k]].variant == k.variant && k.code in tasks[inflight[k]].codes)
    }

    constructor ()
      ensures Valid() && tasks == []
    {
      tasks, inflight, clock := [], map[], 0;
    }

    method StartFetch(codes: seq<Code>, variant: Variant) returns (t: nat)
      requires Valid() && forall c :: c in codes ==> Key(variant, c) !in inflight
      modifies this`tasks, this`inflight
      ensures Valid() && Later(old(tasks), old(clock), tasks)
      ensures t == |old(tasks)| && tasks == old(tasks) + [Task(variant, codes, Pending, false)]
    {
      t := |tasks|;
      tasks := tasks + [Task(variant, codes, Pending, false)];
      for i := 0 to |codes|
        invariant tasks == old(tasks) + [Task(variant, codes, Pending, false)]
        invariant forall k :: k in inflight <==> k in old(inflight) || (k.variant == variant && k.code in codes[..i])
        invariant forall k :: k in inflight ==> inflight[k] == if k in old(inflight) then old(inflight)[k] else t
      {
        inflight := inflight[Key(variant, codes[i]) := t];
      }
      assert codes[..|codes|] == codes;
    }

    /** The source has answered for the cities in order; unless every one is recent, the whole task fails. */
    method Complete(t: nat, now: int, cities: seq<City>)
      requires Valid() && clock <= now
      requires t < |tasks| && tasks[t].outcome.Pending? && |cities| == |tasks[t].codes|
      modifies this`tasks, this`clock
      ensures Valid() && Later(old(tasks), old(clock), tasks) && clock == now
      ensures tasks == old(tasks)[t := old(tasks)[t].(outcome := tasks[t].outcome)]
      ensures if forall i :: 0 <= i < |cities| ==> Within(cities[i], now, MAX_DATA_AGE)
              then tasks[t].outcome.Saving? && AsAnswered(tasks[t].outcome.readings, tasks[t].codes, cities, now)
              else tasks[t].outcome.Failed?
    {
      clock := now;
      var readings := ReadAll(tasks[t].codes, cities, now);
      Settle(t, if readings.Some? then Saving(readings.value) else Failed);
    }

    /** The readings have been saved, and the task has its result. */
    method Store(t: nat)
      requires Valid() && t < |tasks| && tasks[t].outcome.Saving?
      modifies this`tasks
      ensures Valid() && Later(old(tasks), old(clock), tasks)
      ensures tasks == old(tasks)[t := old(tasks)[t].(outcome := Batch(old(tasks)[t].outcome.readings))]
    {
      Settle(t, Batch(tasks[t].outcome.readings));
    }

    /** The next outcome of a task; a failing source fails the whole task. */
    method Settle(t: nat, outcome: Outcome)
      requires Valid() && t < |tasks| && !tasks[t].outcome.Done() && Becomes(tasks[t].outcome, outcome)
      requires Honest(tasks[t].(outcome := outcome), clock)
      requires tasks[t].outcome.Pending? ==> FetchedSince(outcome, clock)
      modifies this`tasks
      ensures Valid() && Later(old(tasks), old(clock), tasks)
      ensures tasks == old(tasks)[t := old(tasks)[t].(outcome := outcome)]
    {
      tasks := tasks[t := tasks[t].(outcome := outcome)];
    }

    /** The completion callback. */
    method Release(t: nat)
      requires Valid() && t < |tasks| && tasks[t].outcome.Done() && !tasks[t].released
      modifies this`tasks, this`inflight
      ensures Valid() && Later(old(tasks), old(clock), tasks)
      ensures tasks == old(tasks)[t := old(tasks)[t].(released := true)]
      ensures forall k :: k in inflight <==> k in old(inflight) && old(inflight)[k] != t
    {
      Unregister(t);
      tasks := tasks[t := tasks[t].(released := true)];
      forall u | 0 <= u < |tasks| && !tasks[u].released ensures Registered(inflight, tasks, u) {
        assert Registered(old(inflight), old(tasks), u);
      }
    }

    method Unregister(t: nat)
      requires Valid() && t < |tasks|
      modifies this`inflight
      ensures forall k :: k in inflight <==> k in old(inflight) && old(inflight)[k] != t
      ensures forall k :: k in inflight ==> inflight[k] == old(inflight)[k]
    {
      var codes, variant := tasks[t].codes, tasks[t].variant;
      for i := 0 to |codes|
        invariant forall k :: k in inflight <==>
                    k in old(inflight) && !(old(inflight)[k] == t && k.variant == variant && k.code in codes[..i])
        invariant forall k :: k in inflight ==> inflight[k] == old(inflight)[k]
      {
        var k := Key(variant, codes[i]);
        if k in inflight && inflight[k] == t {
          inflight := map other | other in inflight && other != k :: inflight[other];
        }
        assert codes[..i + 1] == codes[..i] + [codes[i]];
      }
      assert codes[..|codes|] == codes;
    }

    /** Each city is either awaited from the task that has it, or absent. */
    ghost predicate Sorted(waiting: map<nat, seq<Code>>, absent: seq<Code>, seen: seq<Code>, variant: Variant)
      reads this
    {
      && (forall c :: c in seen && c !in absent ==>
            Key(variant, c) in inflight && inflight[Key(variant, c)] in waiting &&
                c in waiting[inflight[Key(variant, c)]])
      && (forall c :: c in absent ==> c in seen && Key(variant, c) !in inflight)
      && (forall t :: t in waiting ==> t < |tasks| && waiting[t] != [])
      && (forall t, c :: t in waiting && c in waiting[t] ==>
            c in seen && Key(variant, c) in inflight && inflight[Key(variant, c)] == t)
    }

    lemma SortedGrows(waiting: map<nat, seq<Code>>, absent: seq<Code>, seen: seq<Code>, variant: Variant, c: Code)
      requires Valid() && Sorted(waiting, absent, seen, variant)
      ensures Key(variant, c) in inflight ==>
                Sorted(Joined(waiting, inflight[Key(variant, c)], c), absent, seen + [c], variant)
      ensures Key(variant, c) !in inflight ==> Sorted(waiting, absent + [c], seen + [c], variant)
    { }

    method Sort(codes: seq<Code>, variant: Variant) returns (waiting: map<nat, seq<Code>>, absent: seq<Code>)
      requires Valid()
      ensures Sorted(waiting, absent, codes, variant)
    {
      waiting, absent := map[], [];
      for i := 0 to |codes|
        invariant Sorted(waiting, absent, codes[..i], variant)
      {
        assert codes[..i + 1] == codes[..i] + [codes[i]];
        SortedGrows(waiting, absent, codes[..i], variant, codes[i]);
        var key := Key(variant, codes[i]);
        if key in inflight {
          waiting := Joined(waiting, inflight[key], codes[i]);
        } else {
          absent := absent + [codes[i]];
        }
      }
      assert codes[..|codes|] == codes;
    }

    /** What a caller does before it first waits: join the tasks in flight, and start one for the rest. */
    method Join(codes: seq<Code>, variant: Variant) returns (waiting: map<nat, seq<Code>>)
      requires Valid()
      modifies this`tasks, this`inflight
      ensures Valid() && Later(old(tasks), old(clock), tasks)
      ensures Awaits(tasks, waiting, codes, variant)
      ensures forall t :: t in waiting ==> t < |tasks| && !tasks[t].released
      ensures |tasks| == |old(tasks)| + if forall c :: c in codes ==> Key(variant, c) in old(inflight) then 0 else 1
      ensures forall t: nat :: t < |old(tasks)| ==> tasks[t] == old(tasks)[t]
    {
      var absent;
      waiting, absent := Sort(codes, variant);
      ghost var joined := waiting;
      SortedAwaits(this, joined, absent, codes, variant);
      if absent != [] {
        assert absent[0] in absent;
        var t := StartFetch(absent, variant);
        waiting := waiting[t := absent];
        StillWanted(joined, t, absent);
        forall u | u in waiting ensures HasAll(tasks, u, waiting[u], codes, variant) && !tasks[u].released {
          assert u in joined ==> HasAll(old(tasks), u, joined[u], codes, variant) && !old(tasks)[u].released;
        }
      }
    }

    /** What the awaited tasks brought, once they have all finished: their readings, and no others. */
    method Gather(waiting: map<nat, seq<Code>>, ghost codes: seq<Code>,
                  variant: Variant) returns (fetched: map<Code, Reading>, failed: bool)
      requires Valid() && Awaits(tasks, waiting, codes, variant) && Finished(tasks, waiting)
      ensures failed <==> exists t :: t in waiting && tasks[t].outcome.Failed?
      ensures AreBrought(fetched, tasks, waiting) && forall c :: c in fetched ==> c in codes
      ensures !failed ==> forall c :: c in codes ==> c in fetched
    {
      fetched, failed := map[], false;
      var left := waiting.Keys;
      ghost var seen: map<nat, seq<Code>> := map[];
      while left != {}
        invariant left <= waiting.Keys && seen == map t | t in waiting && t !in left :: waiting[t]
        invariant failed <==> exists t :: t in seen && tasks[t].outcome.Failed?
        invariant AreBrought(fetched, tasks, seen)
        decreases left
      {
        var t :| t in left;
        assert t in waiting && t !in seen;
        assert Honest(tasks[t], clock) && HasAll(tasks, t, waiting[t], codes, variant);
        BroughtGrows(fetched, tasks, seen, t, waiting[t]);
        left, seen := left - {t}, seen[t := waiting[t]];
        if tasks[t].outcome.Failed? {
          failed := true;
        } else {
          fetched := Collect(fetched, waiting[t], tasks[t].outcome.readings);
        }
      }
      assert seen == waiting;
      GatheredAll(this, waiting, codes, variant, failed);
    }

    /** The end of a resolution, once every awaited task has finished: what to give, and what to renew
        in the background. */
    method Finish(plan: Plan, waiting: map<nat, seq<Code>>, variant: Variant, sourceFailing: bool, ghost r: Request)
        returns (answer: Answer)
      requires Valid() && IsPlan(plan, r) && Awaits(tasks, waiting, plan.missing + plan.forceNow, variant)
      requires Finished(tasks, waiting)
      modifies this`tasks, this`inflight
      ensures Valid() && Later(old(tasks), old(clock), tasks) && old(tasks) <= tasks
      ensures Honoured(answer, r, old(tasks), waiting)
      ensures answer.Answered? && !answer.outdated ==>
                AllFit(answer.readings, r, old(tasks), waiting, inflight, variant)
      ensures var failed := exists t :: t in waiting && old(tasks)[t].outcome.Failed?;
              var lapsing := exists c :: c in plan.renew && Key(variant, c) !in old(inflight);
              && (answer.Raised? ==> failed)
              && (answer.Answered? ==> (answer.outdated <==> failed || (lapsing && sourceFailing)))
              && |tasks| == |old(tasks)| + if answer.Answered? && lapsing && !sourceFailing then 1 else 0
    {
      var fetched, failed := Gather(waiting, plan.missing + plan.forceNow, variant);
      var usable := plan.usable + fetched;
      if failed {
        usable := plan.fallback + usable;
        if usable == map[] {
          NothingToGive(plan, fetched, r, tasks, waiting);
          return Raised;
        }
      }
      GivenIsHonoured(plan, fetched, failed, usable, r, tasks, waiting);
      var renew := Lapsing(plan.renew, variant);
      assert renew != [] ==> renew[0] in renew;
      if renew != [] && !sourceFailing {
        var t := StartFetch(renew, variant);
        assert Registered(inflight, tasks, t);
        GivenIsFit(plan, fetched, usable, failed, r, old(tasks), waiting, old(inflight), inflight, variant);
        return Answered(usable, failed);
      }
      if renew == [] { GivenIsFit(plan, fetched, usable, failed, r, tasks, waiting, inflight, inflight, variant); }
      return Answered(usable, failed || renew != []);
    }

    /** Something that happens while a caller waits, if it can. */
    method Happen(event: Event)
      requires Valid()
      modifies this
      ensures Valid() && Later(old(tasks), old(clock), tasks) && old(clock) <= clock
    {
      match event
      case Reply(t, elapsed, cities) =>
        if t < |tasks| && tasks[t].outcome.Pending? && |cities| == |tasks[t].codes| {
          Complete(t, clock + elapsed, cities);
        }
      case Fault(t) =>
        if t < |tasks| && tasks[t].outcome.Pending? { Settle(t, Failed); }
      case Saved(t) =>
        if t < |tasks| && tasks[t].outcome.Saving? { Store(t); }
      case Callback(t) =>
        if t < |tasks| && tasks[t].outcome.Done() && !tasks[t].released { Release(t); }
      case Caller(codes, variant) =>
        var waiting := Join(codes, variant);
      case Renewal(codes, variant) =>
        var absent := Lapsing(codes, variant);
        var t := StartFetch(absent, variant);
    }

    /** Anything that happens between two suspensions. */
    method Wait(events: seq<Event>)
      requires Valid()
      modifies this
      ensures Valid() && Later(old(tasks), old(clock), tasks) && old(clock) <= clock
    {
      for i := 0 to |events|
        invariant Valid() && Later(old(tasks), old(clock), tasks) && old(clock) <= clock
      {
        ghost var before, since := tasks, clock;
        Happen(events[i]);
        LaterStill(old(tasks), old(clock), before, since, tasks);
      }
    }

    /** A whole resolution, whatever happens while it waits. There is no answer only if some awaited
        task has not finished by then. */
    method Resolve(r: Request, variant: Variant, sourceFailing: bool, events: seq<Event>)
        returns (answer: Option<Answer>, waiting: map<nat, seq<Code>>)
      requires Valid() && r.now <= clock
      modifies this
      ensures Valid() && Later(old(tasks), old(clock), tasks)
      ensures answer.None? ==> exists t :: t in waiting && t < |tasks| && !tasks[t].outcome.Done()
      ensures answer.Some? ==> Honoured(answer.value, r, tasks, waiting)
      ensures answer.Some? && answer.value.Answered? && !answer.value.outdated ==>
                AllTimely(answer.value.readings, r, old(tasks), old(clock), tasks, waiting)
      ensures answer.Some? && answer.value.Answered? && !answer.value.outdated ==>
                AllFit(answer.value.readings, r, tasks, waiting, inflight, variant)
      ensures forall c :: Wanted(waiting, c) <==> c in r.codes && !Serves(r, c)
    {
      var plan := Classify(r);
      waiting := Join(plan.missing + plan.forceNow, variant);
      WaitsForTheRest(plan, r, tasks, waiting, variant);
      ghost var joined := tasks;
      Wait(events);
      LaterStill(old(tasks), old(clock), joined, old(clock), tasks);
      AwaitsLater(joined, old(clock), tasks, waiting, plan.missing + plan.forceNow, variant);
      if t :| t in waiting && !tasks[t].outcome.Done() {
        assert HasAll(tasks, t, waiting[t], plan.missing + plan.forceNow, variant);
        return None, waiting;
      }
      forall t | t in waiting ensures t < |tasks| && tasks[t].outcome.Done() {
        assert HasAll(tasks, t, waiting[t], plan.missing + plan.forceNow, variant);
      }
      ghost var finished, since := tasks, clock;
      var given := Finish(plan, waiting, variant, sourceFailing, r);
      LaterStill(old(tasks), old(clock), finished, since, tasks);
      HonouredAfter(given, r, finished, tasks, waiting);
      if given.Answered? && !given.outdated {
        FitAfter(given.readings, r, finished, tasks, waiting, inflight, variant);
      }
      AnswerIsTimely(this, given, r, old(tasks), old(clock), joined, waiting);
      return Some(given), waiting;
    }

    method Lapsing(codes: seq<Code>, variant: Variant) returns (lapsing: seq<Code>)
      ensures forall c :: c in lapsing <==> c in codes && Key(variant, c) !in inflight
    {
      lapsing := [];
      for i := 0 to |codes|
        invariant forall c :: c in lapsing <==> c in codes[..i] && Key(variant, c) !in inflight
      {
        assert codes[..i + 1] == codes[..i] + [codes[i]];
        if Key(variant, codes[i]) !in inflight { lapsing := lapsing + [codes[i]]; }
      }
      assert codes[..|codes|] == codes;
    }
  }

  /** What may happen between two suspensions of a caller: the source answers or fails, what came has been
      saved, a callback runs, another caller joins or renews. */
  datatype Event =
    | Reply(t: nat, elapsed: nat, cities: seq<City>)
    | Fault(t: nat)
    | Saved(t: nat)
    | Callback(t: nat)
    | Caller(codes: seq<Code>, variant: Variant)
    | Renewal(codes: seq<Code>, variant: Variant)

  /** Two unfinished tasks never have a city in common. */
  lemma OneTaskPerCity(f: Fetcher, s: nat, t: nat, c: Code)
    requires f.Valid() && s < |f.tasks| && t < |f.tasks| && f.tasks[s].variant == f.tasks[t].variant
    requires !f.tasks[s].outcome.Done() && !f.tasks[t].outcome.Done() && c in f.tasks[s].codes && c in f.tasks[t].codes
    ensures s == t
  {
    assert Honest(f.tasks[s], f.clock) && Honest(f.tasks[t], f.clock);
    assert Registered(f.inflight, f.tasks, s) && Registered(f.inflight, f.tasks, t);
  }

  /** Whatever happens to the tasks meanwhile, a caller goes on waiting for the right ones. */
  lemma AwaitsLater(before: seq<Task>, since: int, after: seq<Task>, waiting: map<nat, seq<Code>>, codes: seq<Code>,
                    variant: Variant)
    requires Later(before, since, after) && Awaits(before, waiting, codes, variant)
    ensures Awaits(after, waiting, codes, variant)
  {
    forall t | t in waiting ensures HasAll(after, t, waiting[t], codes, variant) {
      assert HasAll(before, t, waiting[t], codes, variant);
    }
  }

  /** The readings of an answer: each city has what came for it, the last if it was asked for twice. */
  ghost predicate AsAnswered(readings: map<Code, Reading>, codes: seq<Code>, cities: seq<City>, now: int)
    requires |cities| == |codes|
  {
    && Covers(readings, codes)
    && forall i :: 0 <= i < |codes| && LastAt(codes, i) ==> readings[codes[i]] == Reading(now, cities[i])
  }

  ghost predicate LastAt(codes: seq<Code>, i: int)
    requires 0 <= i < |codes|
  {
    codes[i] !in codes[i + 1..]
  }

  method ReadAll(codes: seq<Code>, cities: seq<City>, now: int) returns (all: Option<map<Code, Reading>>)
    requires |cities| == |codes|
    ensures all.Some? <==> forall i :: 0 <= i < |cities| ==> Within(cities[i], now, MAX_DATA_AGE)
    ensures all.Some? ==> AsAnswered(all.value, codes, cities, now) && AllFetched(all.value, now)
    ensures all.Some? ==> FetchedSince(Saving(all.value), now)
  {
    var readings: map<Code, Reading> := map[];
    for i := 0 to |codes|
      invariant AsAnswered(readings, codes[..i], cities[..i], now)
      invariant forall j :: 0 <= j < i ==> Within(cities[j], now, MAX_DATA_AGE)
      invariant AllFetched(readings, now) && FetchedSince(Saving(readings), now)
    {
      if !Within(cities[i], now, MAX_DATA_AGE) { return None; }
      assert codes[..i + 1] == codes[..i] + [codes[i]] && cities[..i + 1] == cities[..i] + [cities[i]];
      AnsweredGrows(readings, codes[..i], cities[..i], now, codes[i], cities[i]);
      readings := readings[codes[i] := Reading(now, cities[i])];
    }
    assert codes[..|codes|] == codes && cities[..|cities|] == cities;
    return Some(readings);
  }

  lemma AnsweredGrows(readings: map<Code, Reading>, codes: seq<Code>, cities: seq<City>, now: int, c: Code, city: City)
    requires |cities| == |codes| && AsAnswered(readings, codes, cities, now)
    ensures AsAnswered(readings[c := Reading(now, city)], codes + [c], cities + [city], now)
  {
    var more, longer := readings[c := Reading(now, city)], codes + [c];
    forall i | 0 <= i < |longer| && LastAt(longer, i) ensures more[longer[i]] == Reading(now, (cities + [city])[i]) {
      if i < |codes| {
        assert longer[i + 1..] == codes[i + 1..] + [c];
      }
    }
  }

  ghost predicate Finished(tasks: seq<Task>, waiting: map<nat, seq<Code>>) {
    forall t :: t in waiting ==> t < |tasks| && tasks[t].outcome.Done()
  }

  /** An awaited task has this reading of a city wanted from it. */
  ghost predicate Brings(tasks: seq<Task>, waiting: map<nat, seq<Code>>, t: nat, c: Code, reading: Reading) {
    && t in waiting && c in waiting[t]
    && t < |tasks| && tasks[t].outcome.Batch?
    && c in tasks[t].outcome.readings && tasks[t].outcome.readings[c] == reading
  }

  ghost predicate FromTask(tasks: seq<Task>, waiting: map<nat, seq<Code>>, c: Code, reading: Reading) {
    exists t :: Brings(tasks, waiting, t, c, reading)
  }

  ghost predicate Brought(tasks: seq<Task>, waiting: map<nat, seq<Code>>, c: Code) {
    exists reading :: FromTask(tasks, waiting, c, reading)
  }

  /** Exactly what the tasks brought. */
  ghost predicate AreBrought(fetched: map<Code, Reading>, tasks: seq<Task>, waiting: map<nat, seq<Code>>) {
    && (forall c :: c in fetched ==> FromTask(tasks, waiting, c, fetched[c]))
    && (forall c, reading :: FromTask(tasks, waiting, c, reading) ==> c in fetched)
  }

  lemma BroughtGrows(fetched: map<Code, Reading>, tasks: seq<Task>, seen: map<nat, seq<Code>>, t: nat,
                     wanted: seq<Code>)
    requires AreBrought(fetched, tasks, seen) && t !in seen && t < |tasks| && tasks[t].outcome.Done()
    ensures tasks[t].outcome.Failed? ==> AreBrought(fetched, tasks, seen[t := wanted])
    ensures tasks[t].outcome.Batch? ==> forall more :: Adds(more, fetched, wanted, tasks[t].outcome.readings) ==>
              AreBrought(more, tasks, seen[t := wanted])
  {
    var after := seen[t := wanted];
    forall c, reading | FromTask(tasks, seen, c, reading) ensures FromTask(tasks, after, c, reading) {
      var u :| Brings(tasks, seen, u, c, reading);
      assert Brings(tasks, after, u, c, reading);
    }
    forall c, reading | FromTask(tasks, after, c, reading)
      ensures FromTask(tasks, seen, c, reading) ||
              (tasks[t].outcome.Batch? && c in wanted && c in tasks[t].outcome.readings)
    {
      var u :| Brings(tasks, after, u, c, reading);
      if u != t { assert Brings(tasks, seen, u, c, reading); }
    }
    if tasks[t].outcome.Batch? {
      var batch := tasks[t].outcome.readings;
      forall c | c in wanted && c in batch ensures FromTask(tasks, after, c, batch[c]) {
        assert Brings(tasks, after, t, c, batch[c]);
      }
    }
  }

  /** What is there, and, over it, what is wanted of a batch. */
  ghost predicate Adds(more: map<Code, Reading>, fetched: map<Code, Reading>, wanted: seq<Code>,
                       batch: map<Code, Reading>) {
    && (forall c :: c in more <==> c in fetched || (c in wanted && c in batch))
    && (forall c :: c in more ==> more[c] == if c in wanted && c in batch then batch[c] else fetched[c])
  }

  /** Unless a task failed, everything awaited has been brought. */
  lemma GatheredAll(f: Fetcher, waiting: map<nat, seq<Code>>, codes: seq<Code>, variant: Variant, failed: bool)
    requires f.Valid() && Awaits(f.tasks, waiting, codes, variant) && Finished(f.tasks, waiting)
    requires failed <==> exists t :: t in waiting && f.tasks[t].outcome.Failed?
    ensures !failed ==> forall c :: c in codes ==> Brought(f.tasks, waiting, c)
    ensures forall c :: Brought(f.tasks, waiting, c) ==> c in codes
  {
    forall c | c in codes && !failed ensures Brought(f.tasks, waiting, c) {
      assert Wanted(waiting, c);
      var t :| t in waiting && c in waiting[t];
      assert HasAll(f.tasks, t, waiting[t], codes, variant) && Honest(f.tasks[t], f.clock);
      assert Brings(f.tasks, waiting, t, c, f.tasks[t].outcome.readings[c]);
      assert FromTask(f.tasks, waiting, c, f.tasks[t].outcome.readings[c]);
    }
    forall c | Brought(f.tasks, waiting, c) ensures c in codes {
      var reading :| FromTask(f.tasks, waiting, c, reading);
      var t :| Brings(f.tasks, waiting, t, c, reading);
      assert HasAll(f.tasks, t, waiting[t], codes, variant);
    }
  }

  // ---------------------------------------------------------------------------------------------
  // Resolving
  // ---------------------------------------------------------------------------------------------

  /** What a caller asks: cities, with the readings known when it asked. */
  datatype Request = Request(codes: seq<Code>, known: map<Code, Reading>, now: int, freshness: int, force: bool)

  datatype Plan = Plan(
    usable: map<Code, Reading>, fallback: map<Code, Reading>,
    missing: seq<Code>, renew: seq<Code>, forceNow: seq<Code>)

  datatype Answer = Answered(readings: map<Code, Reading>, outdated: bool) | Raised

  predicate Usable(r: Request, c: Code) {
    c in r.codes && c in r.known && Within(r.known[c].city, r.now, MAX_DATA_AGE)
  }

  predicate Fallback(r: Request, c: Code) {
    c in r.codes && c in r.known && Within(r.known[c].city, r.now, MAX_FALLBACK_AGE)
  }

  predicate Forced(r: Request, c: Code)
    requires Usable(r, c)
  {
    r.force && r.now - r.known[c].fetchedAt >= FORCE_MIN_AGE
  }

  /** The readings at hand: recent ones, and those that may do if nothing else does. */
  ghost predicate HasReadings(plan: Plan, r: Request) {
    && (forall c :: c in plan.usable <==> Usable(r, c))
    && (forall c :: c in plan.usable ==> plan.usable[c] == r.known[c])
    && (forall c :: c in plan.fallback <==> Fallback(r, c) && !Usable(r, c))
    && (forall c :: c in plan.fallback ==> plan.fallback[c] == r.known[c])
  }

  /** The cities to fetch now, and those to renew in the background. */
  ghost predicate HasCities(plan: Plan, r: Request) {
    && (forall c :: c in plan.missing <==> c in r.codes && !Usable(r, c))
    && (forall c :: c in plan.forceNow <==> Usable(r, c) && Forced(r, c))
    && (forall c :: c in plan.renew <==> Usable(r, c) && !Forced(r, c) && !IsFresh(r.known[c], r.now, r.freshness))
  }

  ghost predicate IsPlan(plan: Plan, r: Request) { HasReadings(plan, r) && HasCities(plan, r) }

  method Classify(r: Request) returns (plan: Plan)
    ensures IsPlan(plan, r)
  {
    plan := Plan(map[], map[], [], [], []);
    for i := 0 to |r.codes|
      invariant IsPlan(plan, r.(codes := r.codes[..i]))
    {
      assert r.codes[..i + 1] == r.codes[..i] + [r.codes[i]];
      ReadingsGrow(plan, r, r.codes[..i], r.codes[i]);
      CitiesGrow(plan, r, r.codes[..i], r.codes[i]);
      plan := Classified(plan, r, r.codes[i]);
    }
    assert r.codes[..|r.codes|] == r.codes;
  }

  /** The plan with one city more. */
  function Classified(plan: Plan, r: Request, c: Code): Plan {
    if c in r.known && Within(r.known[c].city, r.now, MAX_DATA_AGE) then
      var reading := r.known[c];
      var more := plan.(usable := plan.usable[c := reading]);
      if r.force && r.now - reading.fetchedAt >= FORCE_MIN_AGE then more.(forceNow := more.forceNow + [c])
      else if !IsFresh(reading, r.now, r.freshness) then more.(renew := more.renew + [c])
      else more
    else
      var more := plan.(missing := plan.missing + [c]);
      if c in r.known && Within(r.known[c].city, r.now, MAX_FALLBACK_AGE)
      then more.(fallback := more.fallback[c := r.known[c]])
      else more
  }

  lemma ReadingsGrow(plan: Plan, r: Request, seen: seq<Code>, c: Code)
    requires HasReadings(plan, r.(codes := seen))
    ensures HasReadings(Classified(plan, r, c), r.(codes := seen + [c]))
  { }

  lemma CitiesGrow(plan: Plan, r: Request, seen: seq<Code>, c: Code)
    requires HasCities(plan, r.(codes := seen))
    ensures HasCities(Classified(plan, r, c), r.(codes := seen + [c]))
  { }

  /** What an answer promises, for the tasks awaited. Each city has what was fetched for it, or else
      what was known, if that is at most two hours old, or, when outdated, twelve. Nothing of the kind
      is withheld, not even when the source fails; not outdated, no city is missing. */
  ghost predicate Honoured(answer: Answer, r: Request, tasks: seq<Task>, waiting: map<nat, seq<Code>>) {
    match answer
    case Raised => forall c :: !Fallback(r, c) && !Brought(tasks, waiting, c)
    case Answered(readings, outdated) =>
      && (forall c :: c in readings ==> c in r.codes && Given(c, readings[c], outdated, r, tasks, waiting))
      && (forall c :: Fallback(r, c) || Brought(tasks, waiting, c) ==> c in readings)
      && (!outdated ==> forall c :: c in r.codes ==> c in readings)
  }

  ghost predicate Given(c: Code, reading: Reading, outdated: bool, r: Request, tasks: seq<Task>,
                        waiting: map<nat, seq<Code>>) {
    || FromTask(tasks, waiting, c, reading)
    || (&& !Brought(tasks, waiting, c) && (Usable(r, c) || (outdated && Fallback(r, c)))
        && reading == r.known[c])
  }

  /** A reading fit to be given as not outdated: known and at most two hours old at the request; or of an
      awaited task, at most two hours old when the source answered. That was no earlier than the caller
      joined, at `since`, unless the source had answered already and the task was about to finish. */
  ghost predicate Timely(c: Code, reading: Reading, r: Request, before: seq<Task>, since: int,
                         after: seq<Task>, waiting: map<nat, seq<Code>>) {
    || (Usable(r, c) && reading == r.known[c])
    || (RecentlyFetched(reading) &&
        exists t :: Brings(after, waiting, t, c, reading) && InTime(t, reading, before, since))
  }

  ghost predicate AllTimely(readings: map<Code, Reading>, r: Request, before: seq<Task>, since: int,
                            after: seq<Task>, waiting: map<nat, seq<Code>>) {
    forall c :: c in r.codes ==> c in readings && Timely(c, readings[c], r, before, since, after, waiting)
  }

  ghost predicate InTime(t: nat, reading: Reading, before: seq<Task>, since: int) {
    if Unanswered(before, t) then reading.fetchedAt >= since else !before[t].released
  }

  /** What is known of the city serves, as long as nothing better is at hand: it is at most two hours old, and no
      more than a quarter of an hour ahead; and, when forced, it was fetched less than five minutes before. */
  predicate Serves(r: Request, c: Code) {
    && c in r.known && -900 <= r.now - r.known[c].city.observedAt <= 7200
    && (r.force ==> r.now - r.known[c].fetchedAt < 300)
  }

  /** What was known and serves was observed within the time asked for, or fetched within two minutes, unless
      the city is being fetched again. */
  ghost predicate FitOfKnown(c: Code, reading: Reading, r: Request, inflight: map<Key, nat>, variant: Variant) {
    && Serves(r, c) && reading == r.known[c]
    && (r.now < reading.city.observedAt + r.freshness || r.now < reading.fetchedAt + 120 || Key(variant, c) in inflight)
  }

  /** Every city has what an awaited task brought, or what was known and is fit. */
  ghost predicate AllFit(readings: map<Code, Reading>, r: Request, tasks: seq<Task>, waiting: map<nat, seq<Code>>,
                         inflight: map<Key, nat>, variant: Variant) {
    forall c :: c in r.codes ==>
      c in readings && (FromTask(tasks, waiting, c, readings[c]) || FitOfKnown(c, readings[c], r, inflight, variant))
  }

  /** In seconds: two hours, twelve hours, five minutes. */
  lemma LimitsInSeconds(r: Request, c: Code)
    ensures Usable(r, c) <==> c in r.codes && c in r.known && -900 <= r.now - r.known[c].city.observedAt <= 7200
    ensures Fallback(r, c) <==> c in r.codes && c in r.known && -900 <= r.now - r.known[c].city.observedAt <= 43200
    ensures c in r.codes ==> (Serves(r, c) <==> Usable(r, c) && !Forced(r, c))
  { }

  lemma FitAfter(readings: map<Code, Reading>, r: Request, finished: seq<Task>, after: seq<Task>,
                 waiting: map<nat, seq<Code>>, inflight: map<Key, nat>, variant: Variant)
    requires AllFit(readings, r, finished, waiting, inflight, variant) && finished <= after
    ensures AllFit(readings, r, after, waiting, inflight, variant)
  {
    forall c, reading | FromTask(finished, waiting, c, reading) ensures FromTask(after, waiting, c, reading) {
      var t :| Brings(finished, waiting, t, c, reading);
      assert Brings(after, waiting, t, c, reading);
    }
  }

  /** A caller waits for exactly the cities for which what is known does not serve. */
  lemma WaitsForTheRest(plan: Plan, r: Request, tasks: seq<Task>, waiting: map<nat, seq<Code>>, variant: Variant)
    requires IsPlan(plan, r) && Awaits(tasks, waiting, plan.missing + plan.forceNow, variant)
    ensures forall c :: Wanted(waiting, c) <==> c in r.codes && !Serves(r, c)
  {
    forall c ensures c in plan.missing + plan.forceNow <==> c in r.codes && !Serves(r, c) { LimitsInSeconds(r, c); }
    forall c | Wanted(waiting, c) ensures c in plan.missing + plan.forceNow {
      var t :| t in waiting && c in waiting[t];
      assert HasAll(tasks, t, waiting[t], plan.missing + plan.forceNow, variant);
    }
  }

  lemma GivenIsFit(plan: Plan, fetched: map<Code, Reading>, usable: map<Code, Reading>, failed: bool, r: Request,
                   tasks: seq<Task>, waiting: map<nat, seq<Code>>, before: map<Key, nat>, inflight: map<Key, nat>,
                   variant: Variant)
    requires IsPlan(plan, r) && AreBrought(fetched, tasks, waiting)
    requires !failed ==> usable == plan.usable + fetched
    requires !failed ==> forall c :: c in plan.missing + plan.forceNow ==> c in fetched
    requires forall k :: k in before ==> k in inflight
    requires forall c :: c in plan.renew && Key(variant, c) !in before ==> Key(variant, c) in inflight
    ensures !failed ==> AllFit(usable, r, tasks, waiting, inflight, variant)
  {
    forall c | c in r.codes && !failed
      ensures c in usable &&
              (FromTask(tasks, waiting, c, usable[c]) || FitOfKnown(c, usable[c], r, inflight, variant))
    {
      LimitsInSeconds(r, c);
      if c in fetched { assert usable[c] == fetched[c]; }
    }
  }

  /** A task more, which nobody awaits, makes no difference to what an answer promises. */
  lemma HonouredAfter(answer: Answer, r: Request, finished: seq<Task>, after: seq<Task>, waiting: map<nat, seq<Code>>)
    requires Honoured(answer, r, finished, waiting) && finished <= after && Finished(finished, waiting)
    ensures Honoured(answer, r, after, waiting)
  {
    assert forall t, c, reading :: Brings(after, waiting, t, c, reading) <==> Brings(finished, waiting, t, c, reading);
    forall c, reading ensures FromTask(after, waiting, c, reading) <==> FromTask(finished, waiting, c, reading) {
      if FromTask(after, waiting, c, reading) {
        var t :| Brings(after, waiting, t, c, reading);
        assert Brings(finished, waiting, t, c, reading);
      }
      if FromTask(finished, waiting, c, reading) {
        var t :| Brings(finished, waiting, t, c, reading);
        assert Brings(after, waiting, t, c, reading);
      }
    }
    assert forall c :: Brought(after, waiting, c) <==> Brought(finished, waiting, c);
  }

  lemma AnswerIsTimely(f: Fetcher, answer: Answer, r: Request, before: seq<Task>, since: int, joined: seq<Task>,
                       waiting: map<nat, seq<Code>>)
    requires f.Valid() && Honoured(answer, r, f.tasks, waiting) && Later(before, since, f.tasks)
    requires forall t :: t in waiting ==> t < |joined| && !joined[t].released
    requires |before| <= |joined| && forall t: nat :: t < |before| ==> joined[t] == before[t]
    ensures answer.Answered? && !answer.outdated ==> AllTimely(answer.readings, r, before, since, f.tasks, waiting)
  {
    if answer.Answered? && !answer.outdated {
      forall c | c in r.codes ensures Timely(c, answer.readings[c], r, before, since, f.tasks, waiting) {
        var reading := answer.readings[c];
        if FromTask(f.tasks, waiting, c, reading) {
          var t: nat :| Brings(f.tasks, waiting, t, c, reading);
          BroughtInTime(f, before, since, joined, waiting, t, c, reading);
        }
      }
    }
  }

  lemma NothingToGive(plan: Plan, fetched: map<Code, Reading>, r: Request, tasks: seq<Task>,
                      waiting: map<nat, seq<Code>>)
    requires IsPlan(plan, r) && plan.fallback + (plan.usable + fetched) == map[]
    requires AreBrought(fetched, tasks, waiting)
    ensures Honoured(Raised, r, tasks, waiting)
  {
    forall c ensures !Fallback(r, c) && !Brought(tasks, waiting, c) {
      assert c !in plan.fallback + (plan.usable + fetched);
    }
  }

  lemma GivenIsHonoured(plan: Plan, fetched: map<Code, Reading>, failed: bool, usable: map<Code, Reading>,
                        r: Request, tasks: seq<Task>, waiting: map<nat, seq<Code>>)
    requires IsPlan(plan, r)
    requires AreBrought(fetched, tasks, waiting) && forall c :: c in fetched ==> c in plan.missing + plan.forceNow
    requires !failed ==> forall c :: c in plan.missing + plan.forceNow ==> c in fetched
    requires usable == if failed then plan.fallback + (plan.usable + fetched) else plan.usable + fetched
    ensures Honoured(Answered(usable, failed), r, tasks, waiting)
    ensures Honoured(Answered(usable, true), r, tasks, waiting)
  {
    forall c | c in usable ensures c in r.codes && Given(c, usable[c], failed, r, tasks, waiting) {
      if c in fetched { assert usable[c] == fetched[c]; }
    }
  }

  lemma BroughtInTime(f: Fetcher, before: seq<Task>, since: int, joined: seq<Task>, waiting: map<nat, seq<Code>>,
                      t: nat, c: Code, reading: Reading)
    requires f.Valid() && Later(before, since, f.tasks) && Brings(f.tasks, waiting, t, c, reading)
    requires t < |joined| && !joined[t].released && (t < |before| ==> joined[t] == before[t])
    ensures RecentlyFetched(reading) && InTime(t, reading, before, since)
  {
    assert Honest(f.tasks[t], f.clock);
    assert Unanswered(before, t) ==> FetchedSince(f.tasks[t].outcome, since);
  }

  method Collect(fetched: map<Code, Reading>, wanted: seq<Code>,
                 batch: map<Code, Reading>) returns (more: map<Code, Reading>)
    ensures Adds(more, fetched, wanted, batch)
  {
    more := fetched;
    for i := 0 to |wanted|
      invariant Adds(more, fetched, wanted[..i], batch)
    {
      assert wanted[..i + 1] == wanted[..i] + [wanted[i]];
      if wanted[i] in batch {
        more := more[wanted[i] := batch[wanted[i]]];
      }
    }
    assert wanted[..|wanted|] == wanted;
  }

  lemma SortedAwaits(f: Fetcher, waiting: map<nat, seq<Code>>, absent: seq<Code>, codes: seq<Code>, variant: Variant)
    requires f.Valid() && f.Sorted(waiting, absent, codes, variant)
    ensures forall c :: c in codes ==> Wanted(waiting, c) || c in absent
    ensures forall c :: c in absent ==> c in codes
    ensures forall t :: t in waiting ==> HasAll(f.tasks, t, waiting[t], codes, variant) && !f.tasks[t].released
    ensures absent == [] <==> forall c :: c in codes ==> Key(variant, c) in f.inflight
  {
    forall c | c in codes && c !in absent ensures Wanted(waiting, c) {
      assert c in waiting[f.inflight[Key(variant, c)]];
    }
    forall t | t in waiting ensures HasAll(f.tasks, t, waiting[t], codes, variant) && !f.tasks[t].released {
      forall c | c in waiting[t] ensures c in f.tasks[t].codes && c in codes && f.tasks[t].variant == variant {
        assert f.inflight[Key(variant, c)] == t;
      }
      assert waiting[t][0] in waiting[t];
    }
    assert absent != [] ==> absent[0] in absent;
  }

  lemma StillWanted(joined: map<nat, seq<Code>>, t: nat, absent: seq<Code>)
    requires t !in joined
    ensures forall c :: Wanted(joined, c) || c in absent ==> Wanted(joined[t := absent], c)
  {
    var waiting := joined[t := absent];
    forall c | Wanted(joined, c) || c in absent ensures Wanted(waiting, c) {
      if c in absent {
        assert c in waiting[t];
      } else {
        var u :| u in joined && c in joined[u];
        assert c in waiting[u];
      }
    }
  }
}
