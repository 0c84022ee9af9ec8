/**
 Where an accepted push comes from: the steps of its run that made it due, and what the database held
 at each of them.
 */
module DispatchProvenance {
  import opened Options
  import opened PushDelivery
  import opened NotificationDispatch

  // ---------------------------------------------------------------------------------------------
  // From one step to the next
  // ---------------------------------------------------------------------------------------------

  ghost predicate SameRun(a: Run, b: Run) { a.id == b.id && a.eligible == b.eligible }

  predicate Starts(step: Step, d: nat) { step.Start? && step.d == d }

  predicate PicksBy(step: Step, d: nat) { step.Pick? && step.d == d }

  /** A step keeps the run of a dispatcher, unless it starts one. */
  lemma RunCarriedOver(s: System, step: Step, d: nat)
    requires Enabled(s, step) && HasRun(PhaseOf(After(s, step), d)) && !Starts(step, d)
    ensures HasRun(PhaseOf(s, d)) && SameRun(PhaseOf(s, d).run, PhaseOf(After(s, step), d).run)
  { }

  /** A step keeps the work of a dispatcher, unless it picks some. */
  lemma WorkCarriedOver(s: System, step: Step, d: nat)
    requires Enabled(s, step) && HasWork(PhaseOf(After(s, step), d)) && !PicksBy(step, d)
    ensures HasWork(PhaseOf(s, d)) && PhaseOf(s, d).work == PhaseOf(After(s, step), d).work
    ensures !Starts(step, d)
  { }

  lemma SendingCarriedOver(s: System, step: Step, d: nat)
    requires Enabled(s, step) && PhaseOf(After(s, step), d).Sending? && step != Decide(d)
    ensures PhaseOf(s, d) == PhaseOf(After(s, step), d)
  { }

  /** Ending an iteration, a session keeps the alert it worked with. */
  lemma LastIsWork(s: System, step: Step, d: nat)
    requires Enabled(s, step) && (step == Decide(d) || step == Commit(d))
    requires HasRun(PhaseOf(After(s, step), d)) && !HasWork(PhaseOf(After(s, step), d))
    ensures HasWork(PhaseOf(s, d)) && PhaseOf(After(s, step), d).run.last.Some?
    ensures var last, work := PhaseOf(After(s, step), d).run.last.value, PhaseOf(s, d).work;
            last.alertId == work.event.alert && last.alert == work.alert
  { }

  /** Only an accepted answer adds to the accepted pushes. */
  lemma AcceptedGrows(s: System, step: Step)
    requires Enabled(s, step)
    ensures if step.Answer? && step.outcome.Accepted?
            then PhaseOf(s, step.d).Sending? &&
                 After(s, step).history.accepted ==
                   s.history.accepted + [Send(PhaseOf(s, step.d).run, PhaseOf(s, step.d).work, PhaseOf(s, step.d).now)]
            else After(s, step).history.accepted == s.history.accepted
  { }

  // ---------------------------------------------------------------------------------------------
  // Back to the steps
  // ---------------------------------------------------------------------------------------------

  /** The step at `p` began this run: it is for the candidates of that moment. */
  ghost predicate Begins(states: seq<System>, steps: seq<Step>, p: nat, d: nat, run: Run) {
    && p < |steps| && p < |states| && Starts(steps[p], d)
    && run.id == states[p].nextRun && run.eligible == Triples(Candidates(states[p].db, states[p].clock))
  }

  /** The step at `q` picked this work. */
  ghost predicate Picks(states: seq<System>, steps: seq<Step>, q: nat, d: nat, work: Work) {
    q < |steps| && q < |states| && PickedWork(states[q], steps[q], d, work)
  }

  ghost predicate NoStart(steps: seq<Step>, d: nat, from: nat, to: nat)
    requires to <= |steps|
  {
    forall j :: from < j < to ==> !Starts(steps[j], d)
  }

  ghost predicate NoPick(steps: seq<Step>, d: nat, from: nat, to: nat)
    requires to <= |steps|
  {
    forall j :: from < j < to ==> !PicksBy(steps[j], d)
  }

  lemma StepAt(states: seq<System>, steps: seq<Step>, i: nat)
    requires Execution(states, steps) && i < |steps|
    ensures Enabled(states[i], steps[i]) && states[i + 1] == After(states[i], steps[i])
  { }

  /** One step back, a dispatcher with work either picks it or had it, in the same run. */
  lemma WorkBefore(s: System, step: Step, d: nat)
    requires Enabled(s, step) && HasWork(PhaseOf(After(s, step), d))
    ensures !Starts(step, d)
    ensures !PicksBy(step, d) ==> HasWork(PhaseOf(s, d)) && PhaseOf(s, d).work == PhaseOf(After(s, step), d).work
    ensures HasRun(PhaseOf(s, d)) && SameRun(PhaseOf(s, d).run, PhaseOf(After(s, step), d).run)
  {
    if !PicksBy(step, d) { WorkCarriedOver(s, step, d); }
    RunCarriedOver(s, step, d);
  }

  lemma PickMakesWork(s: System, step: Step, d: nat)
    requires Enabled(s, step) && PicksBy(step, d) && HasWork(PhaseOf(After(s, step), d))
    ensures PickedWork(s, step, d, PhaseOf(After(s, step), d).work)
  { }

  /** A picked row: apart from what the session kept, it is what the database held. */
  ghost predicate PickedWork(s: System, step: Step, d: nat, work: Work) {
    && step == Pick(d, work.key) && Enabled(s, step)
    && PhaseOf(s, d).Locked? && work.startedAt == PhaseOf(s, d).startedAt
    && work.row == s.db.deliveries[work.key] && work.event == s.db.events[work.key.0] && work.follows == s.db.follows
    && work.alert == AlertSeen(PhaseOf(s, d).run.last, work.event.alert, s.db.alerts[work.event.alert])
  }

  lemma {:induction false} RunBegan(states: seq<System>, steps: seq<Step>, n: nat, d: nat) returns (p: nat)
    requires Execution(states, steps) && n < |states| && HasRun(PhaseOf(states[n], d))
    ensures p < n && Begins(states, steps, p, d, PhaseOf(states[n], d).run) && NoStart(steps, d, p, n)
  {
    p := n - 1;
    if !Starts(steps[p], d) {
      RunCarriedOver(states[p], steps[p], d);
      p := RunBegan(states, steps, n - 1, d);
    }
  }

  /** The work that `d` has before step `n` was picked at `q`, in the same run. */
  ghost predicate WorkFrom(states: seq<System>, steps: seq<Step>, q: nat, n: nat, d: nat)
    requires n < |states| && n <= |steps| && HasWork(PhaseOf(states[n], d))
  {
    && q < n && Picks(states, steps, q, d, PhaseOf(states[n], d).work)
    && NoPick(steps, d, q, n) && NoStart(steps, d, q, n)
    && HasRun(PhaseOf(states[q], d)) && SameRun(PhaseOf(states[q], d).run, PhaseOf(states[n], d).run)
  }

  lemma WorkJustPicked(states: seq<System>, steps: seq<Step>, n: nat, d: nat)
    requires 0 < n < |states| && n <= |steps| && PicksBy(steps[n - 1], d)
    requires Enabled(states[n - 1], steps[n - 1]) && states[n] == After(states[n - 1], steps[n - 1])
    requires HasWork(PhaseOf(states[n], d))
    ensures WorkFrom(states, steps, n - 1, n, d)
  {
    WorkBefore(states[n - 1], steps[n - 1], d);
    PickMakesWork(states[n - 1], steps[n - 1], d);
  }

  lemma WorkStays(states: seq<System>, steps: seq<Step>, q: nat, n: nat, d: nat)
    requires 0 < n < |states| && n <= |steps| && !PicksBy(steps[n - 1], d) && !Starts(steps[n - 1], d)
    requires HasWork(PhaseOf(states[n - 1], d)) && HasWork(PhaseOf(states[n], d))
    requires PhaseOf(states[n - 1], d).work == PhaseOf(states[n], d).work
    requires SameRun(PhaseOf(states[n - 1], d).run, PhaseOf(states[n], d).run)
    requires WorkFrom(states, steps, q, n - 1, d)
    ensures WorkFrom(states, steps, q, n, d)
  { }

  lemma {:induction false} WorkBegan(states: seq<System>, steps: seq<Step>, n: nat, d: nat) returns (q: nat)
    requires Execution(states, steps) && n < |states| && HasWork(PhaseOf(states[n], d))
    ensures WorkFrom(states, steps, q, n, d)
  {
    if n == 0 {
      assert false;
    }
    StepAt(states, steps, n - 1);
    q := n - 1;
    if PicksBy(steps[q], d) {
      WorkJustPicked(states, steps, n, d);
    } else {
      WorkBefore(states[q], steps[q], d);
      q := WorkBegan(states, steps, n - 1, d);
      WorkStays(states, steps, q, n, d);
    }
  }

  /** A dispatcher that is sending decided to at the time it noted. */
  lemma {:induction false} SendingBegan(states: seq<System>, steps: seq<Step>, n: nat, d: nat) returns (m: nat)
    requires Execution(states, steps) && n < |states| && PhaseOf(states[n], d).Sending?
    ensures m < n && steps[m] == Decide(d) && states[m].clock == PhaseOf(states[n], d).now
    ensures PhaseOf(states[m], d).Picked? && PhaseOf(states[m], d).work == PhaseOf(states[n], d).work
    ensures PhaseOf(states[m], d).run == PhaseOf(states[n], d).run
    ensures Sendable(PhaseOf(states[n], d).run, PhaseOf(states[n], d).work, PhaseOf(states[n], d).now)
  {
    m := n - 1;
    if steps[m] != Decide(d) {
      SendingCarriedOver(states[m], steps[m], d);
      m := SendingBegan(states, steps, n - 1, d);
    }
  }

  /** Every accepted push was answered to a dispatcher that was sending it. */
  lemma {:induction false} SendAnswered(states: seq<System>, steps: seq<Step>, n: nat, i: nat) returns (a: nat)
    requires Execution(states, steps) && n < |states| && i < |states[n].history.accepted|
    ensures a < n && steps[a].Answer? && steps[a].outcome.Accepted? && PhaseOf(states[a], steps[a].d).Sending?
    ensures var phase := PhaseOf(states[a], steps[a].d);
            states[n].history.accepted[i] == Send(phase.run, phase.work, phase.now)
  {
    if n == 0 {
      assert false;
    }
    a := n - 1;
    AcceptedGrows(states[a], steps[a]);
    if i < |states[a].history.accepted| {
      a := SendAnswered(states, steps, n - 1, i);
    }
  }

  // ---------------------------------------------------------------------------------------------
  // Which alert a pick sees
  // ---------------------------------------------------------------------------------------------

  /** The step at `j` is a pick, by `d`, of a row about alert `a`. */
  ghost predicate PicksFor(states: seq<System>, steps: seq<Step>, j: nat, d: nat, a: nat) {
    && j < |steps| && j < |states| && PicksBy(steps[j], d)
    && steps[j].key.0 in states[j].db.events && states[j].db.events[steps[j].key.0].alert == a
  }

  /** The session keeps the alert of the work picked at `q`. */
  ghost predicate KeepsFrom(states: seq<System>, steps: seq<Step>, q: nat, d: nat, last: Option<Kept>) {
    last.Some? && exists work ::
      && Picks(states, steps, q, d, work)
      && last.value.alertId == work.event.alert && last.value.alert == work.alert
  }

  /** The pick at `q` is the last before step `n`, of the run begun at `p`, and what the session keeps is
      from there; `q` is `p` when there is none. */
  ghost predicate Previous(states: seq<System>, steps: seq<Step>, q: nat, n: nat, d: nat, p: nat)
    requires n < |states| && n <= |steps| && HasRun(PhaseOf(states[n], d))
  {
    && p <= q < n && NoPick(steps, d, q, n)
    && var last := PhaseOf(states[n], d).run.last;
    if q == p then last == None else KeepsFrom(states, steps, q, d, last)
  }

  lemma PreviousStays(states: seq<System>, steps: seq<Step>, q: nat, n: nat, d: nat, p: nat)
    requires 0 < n < |states| && n <= |steps| && !PicksBy(steps[n - 1], d)
    requires HasRun(PhaseOf(states[n - 1], d)) && HasRun(PhaseOf(states[n], d))
    requires PhaseOf(states[n - 1], d).run.last == PhaseOf(states[n], d).run.last
    requires Previous(states, steps, q, n - 1, d, p)
    ensures Previous(states, steps, q, n, d, p)
  { }

  lemma PreviousNone(states: seq<System>, steps: seq<Step>, p: nat, d: nat)
    requires Execution(states, steps) && p < |steps| && Starts(steps[p], d)
    ensures HasRun(PhaseOf(states[p + 1], d)) && Previous(states, steps, p, p + 1, d, p)
  {
    StepAt(states, steps, p);
  }

  ghost predicate IsBetween(states: seq<System>, k: nat, d: nat) {
    k < |states| && HasRun(PhaseOf(states[k], d)) && !HasWork(PhaseOf(states[k], d))
  }

  /** The step before `k` either ends an iteration, whose pick is then the previous one, or changes nothing
      of what the session keeps. */
  ghost predicate LinkedAt(states: seq<System>, steps: seq<Step>, k: nat, d: nat, p: nat)
    requires 0 < k <= |steps|
  {
    IsBetween(states, k, d) ==>
      if EndsIteration(steps[k - 1], d) then exists q: nat :: Previous(states, steps, q, k, d, p)
      else && IsBetween(states, k - 1, d) && !PicksBy(steps[k - 1], d)
           && PhaseOf(states[k - 1], d).run.last == PhaseOf(states[k], d).run.last
  }

  lemma {:induction false} PreviousLinked(states: seq<System>, steps: seq<Step>, n: nat, d: nat, p: nat)
      returns (q: nat)
    requires p < n <= |steps| && IsBetween(states, n, d)
    requires HasRun(PhaseOf(states[p + 1], d)) && Previous(states, steps, p, p + 1, d, p)
    requires forall k: nat :: p + 1 < k <= n ==> LinkedAt(states, steps, k, d, p)
    ensures Previous(states, steps, q, n, d, p)
  {
    if n - 1 == p {
      return p;
    }
    assert LinkedAt(states, steps, n, d, p);
    if EndsIteration(steps[n - 1], d) {
      q :| Previous(states, steps, q, n, d, p);
    } else {
      q := PreviousLinked(states, steps, n - 1, d, p);
      PreviousStays(states, steps, q, n, d, p);
    }
  }

  /** Between picks, the session keeps what the previous pick of its run, if any, worked with. */
  lemma PreviousPick(states: seq<System>, steps: seq<Step>, n: nat, d: nat, p: nat) returns (q: nat)
    requires Execution(states, steps) && p < n < |states| && Starts(steps[p], d) && NoStart(steps, d, p, n)
    requires HasRun(PhaseOf(states[n], d)) && !HasWork(PhaseOf(states[n], d))
    ensures Previous(states, steps, q, n, d, p)
  {
    PreviousNone(states, steps, p, d);
    forall k: nat | p + 1 < k <= n ensures LinkedAt(states, steps, k, d, p) {
      LinkAt(states, steps, k, d, p);
    }
    q := PreviousLinked(states, steps, n, d, p);
  }

  lemma LinkAt(states: seq<System>, steps: seq<Step>, k: nat, d: nat, p: nat)
    requires Execution(states, steps) && p + 1 < k < |states| && Starts(steps[p], d) && !Starts(steps[k - 1], d)
    ensures LinkedAt(states, steps, k, d, p)
  {
    if IsBetween(states, k, d) {
      if EndsIteration(steps[k - 1], d) {
        var q := IterationBegan(states, steps, k, d, p);
      } else {
        BetweenBefore(states, steps, k, d);
      }
    }
  }

  predicate EndsIteration(step: Step, d: nat) { step == Decide(d) || step == Commit(d) }

  lemma IterationBegan(states: seq<System>, steps: seq<Step>, n: nat, d: nat, p: nat) returns (q: nat)
    requires Execution(states, steps) && p + 1 < n < |states| && Starts(steps[p], d)
    requires HasRun(PhaseOf(states[n], d)) && !HasWork(PhaseOf(states[n], d))
    requires EndsIteration(steps[n - 1], d)
    ensures Previous(states, steps, q, n, d, p)
  {
    StepAt(states, steps, n - 1);
    LastIsWork(states[n - 1], steps[n - 1], d);
    q := WorkBegan(states, steps, n - 1, d);
    SinceStart(steps, d, q, n - 1, p);
  }

  lemma SinceStart(steps: seq<Step>, d: nat, q: nat, n: nat, p: nat)
    requires q < n <= |steps| && p < n && NoStart(steps, d, q, n) && Starts(steps[p], d) && PicksBy(steps[q], d)
    ensures p < q
  { }

  lemma SincePick(steps: seq<Step>, d: nat, j: nat, n: nat, before: nat)
    requires before < n <= |steps| && NoPick(steps, d, j, n) && PicksBy(steps[before], d)
    ensures before <= j
  { }

  /** Between iterations, a step changes neither what the session keeps nor, unless it ends one, the phase. */
  lemma BetweenBefore(states: seq<System>, steps: seq<Step>, n: nat, d: nat)
    requires Execution(states, steps) && 0 < n < |states| && !Starts(steps[n - 1], d)
    requires HasRun(PhaseOf(states[n], d)) && !HasWork(PhaseOf(states[n], d))
    requires !EndsIteration(steps[n - 1], d)
    ensures HasRun(PhaseOf(states[n - 1], d)) && !HasWork(PhaseOf(states[n - 1], d)) && !PicksBy(steps[n - 1], d)
    ensures PhaseOf(states[n - 1], d).run.last == PhaseOf(states[n], d).run.last
  {
    StepAt(states, steps, n - 1);
    StepLast(states[n - 1], steps[n - 1], d);
    StaysBetween(states[n - 1], steps[n - 1], d);
  }

  lemma StaysBetween(s: System, step: Step, d: nat)
    requires Enabled(s, step) && HasRun(PhaseOf(After(s, step), d)) && !HasWork(PhaseOf(After(s, step), d))
    requires step != Decide(d) && step != Commit(d)
    ensures !PicksBy(step, d) && !HasWork(PhaseOf(s, d))
  { }

  /** The last pick before `q`, if there is one in the run that began at `p`, is not for alert `a`. */
  ghost predicate AfterAnother(states: seq<System>, steps: seq<Step>, p: nat, q: nat, d: nat, a: nat)
    requires q <= |steps|
  {
    forall j: nat :: p < j < q && NoPick(steps, d, j, q) ==> !PicksFor(states, steps, j, d, a)
  }

  /** From `first` to `q`, every pick of the run is for alert `a`; the pick before is not. */
  ghost predicate Streak(states: seq<System>, steps: seq<Step>, p: nat, first: nat, q: nat, d: nat, a: nat) {
    && p < first <= q && PicksFor(states, steps, first, d, a) && PicksFor(states, steps, q, d, a)
    && (forall j: nat :: first <= j <= q && j < |steps| && PicksBy(steps[j], d) ==> PicksFor(states, steps, j, d, a))
    && AfterAnother(states, steps, p, first, d, a)
  }

  /** The alert a pick sees is the one that the database held at the first pick of the streak. */
  lemma {:induction false} AlertOfStreak(states: seq<System>, steps: seq<Step>, q: nat, d: nat, p: nat, work: Work)
      returns (first: nat)
    requires Execution(states, steps) && Picks(states, steps, q, d, work) && p < q && Starts(steps[p], d)
    requires NoStart(steps, d, p, q)
    ensures Streak(states, steps, p, first, q, d, work.event.alert)
    ensures work.event.alert in states[first].db.alerts && states[first].db.alerts[work.event.alert] == work.alert
    decreases q
  {
    var a := work.event.alert;
    var before := PreviousPick(states, steps, q, d, p);
    var last := PhaseOf(states[q], d).run.last;
    if last.Some? && last.value.alertId == a {
      var previous :|
        && Picks(states, steps, before, d, previous)
        && last.value.alertId == previous.event.alert && last.value.alert == previous.alert;
      first := AlertOfStreak(states, steps, before, d, p, previous);
      StreakGoesOn(states, steps, p, first, before, q, d, a);
    } else {
      first := q;
      StreakBegins(states, steps, p, before, q, d, a);
    }
  }

  lemma StreakGoesOn(states: seq<System>, steps: seq<Step>, p: nat, first: nat, before: nat, q: nat, d: nat, a: nat)
    requires Streak(states, steps, p, first, before, d, a) && before < q < |steps|
    requires NoPick(steps, d, before, q) && PicksFor(states, steps, q, d, a)
    ensures Streak(states, steps, p, first, q, d, a)
  { }

  lemma StreakBegins(states: seq<System>, steps: seq<Step>, p: nat, before: nat, q: nat, d: nat, a: nat)
    requires p <= before < q < |steps| && NoPick(steps, d, before, q) && PicksFor(states, steps, q, d, a)
    requires !PicksFor(states, steps, before, d, a) && (before == p || PicksBy(steps[before], d))
    ensures Streak(states, steps, p, q, q, d, a)
  {
    forall j: nat | p < j < q && NoPick(steps, d, j, q) ensures !PicksFor(states, steps, j, d, a) {
      if PicksBy(steps[before], d) { SincePick(steps, d, j, q, before); }
    }
  }

  // ---------------------------------------------------------------------------------------------
  // What made a push due
  // ---------------------------------------------------------------------------------------------

  /** In terms of the database: when the row was picked, in state `picked` and in a transaction begun at
      `at`, it was neither sent nor cancelled, had attempts left and had waited, its alert was still valid,
      and its user was opted in; the alert as it was in state `seen` said what the event says and had at
      least a second left at `now`; when the run began, in state `begun`, the user was opted in to a
      municipality that the alert, still valid, affected. */
  ghost predicate Due(begun: System, seen: System, picked: System, key: Key, at: real, now: real) {
    && key in picked.db.deliveries
    && var row := picked.db.deliveries[key];
    && row.sentAt == None && row.cancelledAt == None && row.attempts < 5 && row.nextAttemptAt <= at
    && key.0 in picked.db.events && key.1 in picked.db.subscriptions
    && var event := picked.db.events[key.0];
    && picked.db.subscriptions[key.1] == event.user
    && (event.user, event.municipality) in picked.db.follows
    && event.alert in picked.db.alerts && picked.db.alerts[event.alert].expires > at
    && event.alert in seen.db.alerts && seen.db.alerts[event.alert].content == event.content
    && now + 1.0 <= seen.db.alerts[event.alert].expires
    && (event.user, event.municipality) in begun.db.follows && (event.alert, event.municipality) in begun.db.affects
    && event.alert in begun.db.alerts && begun.db.alerts[event.alert].expires > begun.clock
  }

  ghost predicate Current(s: System, event: Event) {
    event.alert in s.db.alerts && s.db.alerts[event.alert].content == event.content
  }

  /** Every accepted push goes back to steps of one dispatcher: it began the run at `p`, picked the row
      at `q` and decided to send it at `m`, and by what the database held then, the push was due. The
      alert, though, is the one seen at `first`, where the run's unbroken series of picks for that alert
      began; so the text is still current at the pick exactly when the alert says the same then. */
  lemma SendsAreDue(states: seq<System>, steps: seq<Step>, n: nat, i: nat)
      returns (d: nat, p: nat, first: nat, q: nat, m: nat)
    requires Execution(states, steps) && n < |states| && i < |states[n].history.accepted|
    ensures p < first <= q < m < n && Starts(steps[p], d) && steps[m] == Decide(d)
    ensures var send := states[n].history.accepted[i];
            && steps[q] == Pick(d, send.work.key) && send.run.id == states[p].nextRun && send.now == states[m].clock
            && Streak(states, steps, p, first, q, d, send.work.event.alert)
            && Due(states[p], states[first], states[q], send.work.key, send.work.startedAt, send.now)
            && send.work.event == states[q].db.events[send.work.key.0]
    ensures var event := states[n].history.accepted[i].work.event;
            Current(states[q], event) <==>
              states[q].db.alerts[event.alert].content == states[first].db.alerts[event.alert].content
  {
    var a := SendAnswered(states, steps, n, i);
    d := steps[a].d;
    var send := states[n].history.accepted[i];
    m := SendingBegan(states, steps, a, d);
    q := WorkBegan(states, steps, m, d);
    p := RunBegan(states, steps, q, d);
    first := AlertOfStreak(states, steps, q, d, p, send.work);
    PickIsDue(states, steps, p, first, q, d, send);
  }

  lemma PickIsDue(states: seq<System>, steps: seq<Step>, p: nat, first: nat, q: nat, d: nat, send: Send)
    requires Picks(states, steps, q, d, send.work) && p < |states| && first < |states|
    requires send.run.eligible == Triples(Candidates(states[p].db, states[p].clock))
    requires Sendable(send.run, send.work, send.now)
    requires var a := send.work.event.alert;
             a in states[first].db.alerts && states[first].db.alerts[a] == send.work.alert
    ensures Due(states[p], states[first], states[q], send.work.key, send.work.startedAt, send.now)
  { }

  /** In particular, a row picked right after one about another alert, or first in its run, is sent only
      with the text that the alert has at that moment, and at least a second before it expires. */
  lemma FirstOfStreakIsCurrent(states: seq<System>, steps: seq<Step>, n: nat, i: nat)
      returns (d: nat, p: nat, q: nat, m: nat)
    requires Execution(states, steps) && n < |states| && i < |states[n].history.accepted|
    ensures p < q < m < n && Starts(steps[p], d) && steps[m] == Decide(d)
    ensures var send := states[n].history.accepted[i];
            && steps[q] == Pick(d, send.work.key)
            && (AfterAnother(states, steps, p, q, d, send.work.event.alert) ==>
                  Due(states[p], states[q], states[q], send.work.key, send.work.startedAt, send.now))
  {
    var first;
    d, p, first, q, m := SendsAreDue(states, steps, n, i);
    var a := states[n].history.accepted[i].work.event.alert;
    if first < q {
      var j := LastPickBefore(steps, d, first, q);
      assert PicksFor(states, steps, j, d, a);
    }
  }

  lemma {:induction false} LastPickBefore(steps: seq<Step>, d: nat, first: nat, q: nat) returns (j: nat)
    requires first < q <= |steps| && PicksBy(steps[first], d)
    ensures first <= j < q && PicksBy(steps[j], d) && NoPick(steps, d, j, q)
  {
    j := q - 1;
    if !PicksBy(steps[j], d) {
      j := LastPickBefore(steps, d, first, q - 1);
    }
  }

  // ---------------------------------------------------------------------------------------------
  // How a run ends
  // ---------------------------------------------------------------------------------------------

  /** What makes a dispatcher return: no iterations left, somebody else's lock, a failure of its own, or
      nothing pending but what others had locked. */
  ghost predicate Ends(s: System, step: Step, d: nat) {
    || (step == Lock(d) && PhaseOf(s, d).Between? && (PhaseOf(s, d).run.left == 0 || s.holder.Some?))
    || (step == Commit(d) && PhaseOf(s, d).Answered? && StopsBatch(PhaseOf(s, d).outcome))
    || (&& step.NonePending? && step.d == d && PhaseOf(s, d).Locked?
        && forall key :: Pending(s.db, key, PhaseOf(s, d).startedAt) ==> key in step.locked)
  }

  lemma ReturnsNow(s: System, step: Step, d: nat)
    requires Enabled(s, step) && PhaseOf(After(s, step), d).Returned? && !PhaseOf(s, d).Returned?
    ensures Ends(s, step, d)
  { }

  /** A run that has returned did so for one of those reasons. With iterations left, the lock its own and
      no failure that stopped it, it leaves no row that was pending and free when its last transaction began. */
  lemma {:induction false} RunEnded(states: seq<System>, steps: seq<Step>, n: nat, d: nat) returns (r: nat)
    requires Execution(states, steps) && n < |states| && PhaseOf(states[n], d).Returned?
    ensures r < n && Ends(states[r], steps[r], d)
    ensures forall j :: r < j <= n ==> PhaseOf(states[j], d).Returned?
  {
    r := n - 1;
    StepAt(states, steps, r);
    if PhaseOf(states[r], d).Returned? {
      r := RunEnded(states, steps, n - 1, d);
    } else {
      ReturnsNow(states[r], steps[r], d);
    }
  }
}
