/**
 What the steps of a dispatch amount to, in terms of the database, the clock and the answer received.
 */
module DispatchMeaning {
  import opened Options
  import opened PushDelivery
  import opened NotificationDispatch
  import opened DispatchProvenance

  // ---------------------------------------------------------------------------------------------
  // Enqueueing
  // ---------------------------------------------------------------------------------------------

  /** The opted-in followers of the municipalities that a valid alert affects, with what it says. */
  lemma CandidatesMean(db: Db, now: real, r: Event)
    ensures r in Candidates(db, now) <==>
              && (r.user, r.municipality) in db.follows && (r.alert, r.municipality) in db.affects
              && r.alert in db.alerts && db.alerts[r.alert].expires > now && db.alerts[r.alert].content == r.content
  {
    var f, a := (r.user, r.municipality), (r.alert, r.municipality);
    assert f in db.follows && a in db.affects ==> a.1 == f.1;
  }

  /** The alert of an event expired more than thirty days ago. */
  ghost predicate Stale(db: Db, event: Event, now: real) {
    event.alert in db.alerts && db.alerts[event.alert].expires + 2592000.0 < now
  }

  /** Enqueueing keeps the events that are not stale and adds the missing ones: every candidate has one. */
  lemma EnqueuedEvents(db: Db, rows: set<Event>, added: map<nat, Event>, now: real)
    requires InsertsMissing(db, rows, added) && added.Keys !! db.events.Keys
    ensures var after := Enqueued(db, added, now).events;
            && (forall e :: e in db.events ==> if Stale(db, db.events[e], now) then e !in after
                                               else e in after && after[e] == db.events[e])
            && (forall e :: e in after ==> e in db.events || after[e] in rows)
            && (forall r :: r in rows && !Stale(db, r, now) ==> exists e :: e in after && after[e] == r)
  {
    var after := Enqueued(db, added, now).events;
    forall r | r in rows && !Stale(db, r, now) ensures exists e :: e in after && after[e] == r {
      if r in added.Values {
        var e :| e in added && added[e] == r;
        assert e in after && after[e] == r;
      } else {
        var e :| e in db.events && db.events[e] == r;
        assert e in after && after[e] == r;
      }
    }
  }

  /** The event is for this device of an opted-in user, and its alert is still valid. */
  ghost predicate Reaches(db: Db, event: Event, device: nat, now: real) {
    && device in db.subscriptions && db.subscriptions[device] == event.user
    && (event.user, event.municipality) in db.follows
    && event.alert in db.alerts && db.alerts[event.alert].expires > now
  }

  /** Afterwards there is a row for every event and device it reaches: the row that was there, or a new one
      due at once. No other row is new, and none is lost but with a stale event. */
  lemma EnqueuedRows(db: Db, added: map<nat, Event>, now: real, k: Key)
    requires RowsSound(db) && added.Keys !! db.events.Keys
    ensures var after := Enqueued(db, added, now);
            && (k in after.deliveries <==>
                  k.0 in after.events && (k in db.deliveries || Reaches(db, after.events[k.0], k.1, now)))
            && (k in after.deliveries ==>
                  after.deliveries[k] == if k in db.deliveries then db.deliveries[k] else Delivery(0, now, None, None))
  { }

  // ---------------------------------------------------------------------------------------------
  // Deciding and committing
  // ---------------------------------------------------------------------------------------------

  /** A picked row is sent exactly when the alert still says the same, the target was eligible when the run
      began and the alert has a second left; otherwise the stored row is cancelled at that moment. */
  lemma Decided(s: System, d: nat)
    requires Inv(s) && Enabled(s, Decide(d))
    ensures var t, Picked(run, work) := After(s, Decide(d)), PhaseOf(s, d);
            if && work.event.content == work.alert.content
               && (work.event.user, work.event.alert, work.event.municipality) in run.eligible
               && s.clock + 1.0 <= work.alert.expires
            then PhaseOf(t, d) == Sending(run, work, s.clock) && t.db == s.db
            else && PhaseOf(t, d).Between? && t.holder == None
                 && t.db == s.db.(deliveries := t.db.deliveries)
                 && t.db.deliveries == s.db.deliveries[work.key := work.row.(cancelledAt := Some(s.clock))]
  {
    assert s.holder == Some(d);
    TtlMeans(PhaseOf(s, d).work.alert.expires, s.clock);
  }

  /** The answers that say something about the sender end the run and leave the stored count. */
  lemma CommitOfOwnFailure(s: System, d: nat)
    requires Inv(s) && Enabled(s, Commit(d))
    requires PhaseOf(s, d).outcome in {Refused(Some(401)), Refused(Some(403)), Refused(Some(429)), Misconfigured}
    ensures var t, Answered(run, work, now, _) := After(s, Commit(d)), PhaseOf(s, d);
            && PhaseOf(t, d).Returned? && PhaseOf(t, d).run.sent == run.sent && t.holder == None
            && t.db.deliveries.Keys == s.db.deliveries.Keys && work.key in s.db.deliveries
            && t.db.deliveries[work.key].attempts == s.db.deliveries[work.key].attempts
            && t.db.deliveries[work.key].nextAttemptAt >= now + 600.0
            && t.db.deliveries[work.key].sentAt == t.db.deliveries[work.key].cancelledAt == None
  {
    assert s.holder == Some(d);
    BackoffNumbers(PhaseOf(s, d).work.loaded.attempts + 1);
  }

  /** Any other answer lets the run go on: an accepted push marks the row sent and is counted; a device
      that is gone goes with all its rows; a malformed push uses up the attempts, and any other failure one. */
  lemma CommitOfAnswer(s: System, d: nat)
    requires Inv(s) && Enabled(s, Commit(d))
    requires PhaseOf(s, d).outcome !in {Refused(Some(401)), Refused(Some(403)), Refused(Some(429)), Misconfigured}
    ensures var t, Answered(run, work, now, outcome) := After(s, Commit(d)), PhaseOf(s, d);
            && PhaseOf(t, d).Between? && t.holder == None && PhaseOf(t, d).run.left == run.left
            && PhaseOf(t, d).run.sent == run.sent + (if outcome == Accepted then 1 else 0)
            && (if outcome == Refused(Some(404)) || outcome == Refused(Some(410))
                then t.db.subscriptions == s.db.subscriptions - {work.key.1} &&
                     forall k :: k in t.db.deliveries <==> k in s.db.deliveries && k.1 != work.key.1
                else && t.db.deliveries.Keys == s.db.deliveries.Keys && work.key in s.db.deliveries
                     && var row := t.db.deliveries[work.key];
                     && row.attempts == (if outcome == Refused(Some(400)) then 5 else work.loaded.attempts + 1)
                     && row.cancelledAt == None && row.sentAt == (if outcome == Accepted then Some(now) else None)
                     && (outcome != Accepted ==> row.nextAttemptAt >= now + 600.0))
  {
    assert s.holder == Some(d);
    BackoffNumbers(PhaseOf(s, d).work.loaded.attempts + 1);
  }

  // ---------------------------------------------------------------------------------------------
  // The limit of a run
  // ---------------------------------------------------------------------------------------------

  /** Iterations a run has left or in hand, with those that sent something. */
  function Spent(phase: Phase): nat
    requires HasRun(phase)
  {
    phase.run.sent + phase.run.left + if Critical(phase) then 1 else 0
  }

  lemma SpendsNoMore(s: System, step: Step, d: nat)
    requires Enabled(s, step) && HasRun(PhaseOf(After(s, step), d)) && !Starts(step, d)
    ensures HasRun(PhaseOf(s, d)) && Spent(PhaseOf(After(s, step), d)) <= Spent(PhaseOf(s, d))
  { }

  /** A run sends no more than the limit it began with. */
  lemma {:induction false} RunWithinLimit(states: seq<System>, steps: seq<Step>, n: nat, d: nat) returns (p: nat)
    requires Execution(states, steps) && n < |states| && HasRun(PhaseOf(states[n], d))
    ensures p < n && Starts(steps[p], d) && NoStart(steps, d, p, n) && Spent(PhaseOf(states[n], d)) <= steps[p].limit
    ensures PhaseOf(states[n], d).run.sent <= steps[p].limit
  {
    StepAt(states, steps, n - 1);
    p := n - 1;
    if !Starts(steps[p], d) {
      SpendsNoMore(states[p], steps[p], d);
      p := RunWithinLimit(states, steps, n - 1, d);
    }
  }
}
