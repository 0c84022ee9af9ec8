/**
 Runs of the dispatch protocol that one might not expect.
 */
module DispatchExamples {
  import opened Options
  import opened PushDelivery
  import opened NotificationDispatch
  import opened DispatchProvenance

  // ---------------------------------------------------------------------------------------------
  // A run that pushes twice
  // ---------------------------------------------------------------------------------------------

  ghost predicate Reachable(s: System) {
    exists states, steps :: Execution(states, steps) && states[|steps|] == s
  }

  lemma ReachNext(s: System, step: Step) returns (t: System)
    requires Reachable(s) && Enabled(s, step)
    ensures Reachable(t) && t == After(s, step)
  {
    var states, steps :| Execution(states, steps) && states[|steps|] == s;
    t := After(s, step);
    assert Execution(states + [t], steps + [step]);
  }

  /** Dispatcher 0 can begin a run that goes on to push `key`, adding these events. */
  ghost predicate CanPush(s: System, added: map<nat, Event>, key: Key) {
    && PhaseOf(s, 0).Idle? && s.holder == None
    && added.Keys !! s.usedEvents && InsertsMissing(s.db, Candidates(s.db, s.clock), added)
    && var db := Enqueued(s.db, added, s.clock);
    && Pending(db, key, s.clock)
    && var event := db.events[key.0];
    && db.alerts[event.alert].content == event.content && Ttl(db.alerts[event.alert].expires, s.clock) != 0
    && (event.user, event.alert, event.municipality) in Triples(Candidates(s.db, s.clock))
  }

  /** A dispatcher that has picked a row to send. */
  ghost predicate AboutToPush(s: System, key: Key) {
    && PhaseOf(s, 0).Picked? && PhaseOf(s, 0).work.key == key
    && Sendable(PhaseOf(s, 0).run, PhaseOf(s, 0).work, s.clock)
  }

  /** A dispatcher that is about to lock, and will find `key` to send. */
  ghost predicate AboutToPick(s: System, key: Key) {
    && PhaseOf(s, 0).Between? && PhaseOf(s, 0).run.left == 1 && PhaseOf(s, 0).run.last == None && s.holder == None
    && Pending(s.db, key, s.clock)
    && var event := s.db.events[key.0];
    && s.db.alerts[event.alert].content == event.content && Ttl(s.db.alerts[event.alert].expires, s.clock) != 0
    && (event.user, event.alert, event.municipality) in PhaseOf(s, 0).run.eligible
  }

  lemma BeginRun(s: System, added: map<nat, Event>, key: Key) returns (t: System)
    requires Reachable(s) && CanPush(s, added, key)
    ensures Reachable(t) && AboutToPick(t, key)
    ensures t.db == Enqueued(s.db, added, s.clock) && t.clock == s.clock
    ensures t.usedEvents == s.usedEvents + added.Keys && t.history == s.history
  {
    t := ReachNext(s, Start(0, 1));
    t := ReachNext(t, Enqueue(0, added));
  }

  lemma LockAndPick(s: System, key: Key) returns (t: System)
    requires Reachable(s) && AboutToPick(s, key)
    ensures Reachable(t) && AboutToPush(t, key)
    ensures t.db == s.db && t.clock == s.clock && t.usedEvents == s.usedEvents && t.history == s.history
  {
    t := ReachNext(s, Lock(0));
    t := ReachNext(t, Pick(0, key));
  }

  lemma AnswerAndCrash(s: System, key: Key) returns (t: System)
    requires Reachable(s) && AboutToPush(s, key)
    ensures Reachable(t) && PhaseOf(t, 0).Idle? && t.holder == None
    ensures t.db == s.db && t.clock == s.clock && t.usedEvents == s.usedEvents
    ensures CountSends(t.history.accepted, key) == CountSends(s.history.accepted, key) + 1
  {
    t := ReachNext(s, Decide(0));
    var sending := PhaseOf(t, 0);
    t := ReachNext(t, Answer(0, Accepted));
    t := ReachNext(t, Crash(0));
    CountSendsGrows(s.history.accepted, Send(sending.run, sending.work, sending.now), key);
  }

  /** A run up to an accepted push, whose process then dies before it commits. */
  lemma PushAndCrash(s: System, added: map<nat, Event>, key: Key) returns (t: System)
    requires Reachable(s) && CanPush(s, added, key)
    ensures Reachable(t) && PhaseOf(t, 0).Idle? && t.holder == None
    ensures t.db == Enqueued(s.db, added, s.clock) && t.clock == s.clock && t.usedEvents == s.usedEvents + added.Keys
    ensures CountSends(t.history.accepted, key) == CountSends(s.history.accepted, key) + 1
  {
    t := BeginRun(s, added, key);
    t := LockAndPick(t, key);
    t := AnswerAndCrash(t, key);
  }

  function Opening(): System {
    System(0.0, Db(map[], map[1 := 1], map[1 := Alert(7, 100.0)], {(1, 1)}, {(1, 1)}, map[]),
           map[], None, {}, {1}, 0, History([], [], map[], []))
  }

  /** One row is pushed twice when the commit of the first push is lost. */
  lemma PushedTwice() returns (s: System)
    ensures Reachable(s) && CountSends(s.history.accepted, (1, 1)) == 2
  {
    s := Opening();
    assert Execution([s], []);
    FirstTime(s);
    s := PushAndCrash(s, map[1 := Event(1, 1, 1, 7)], (1, 1));
    EnqueuedOnce();
    SecondTime(s);
    s := PushAndCrash(s, map[], (1, 1));
  }

  ghost function OpeningEnqueued(): Db {
    Opening().db.(events := map[1 := Event(1, 1, 1, 7)], deliveries := map[(1, 1) := Delivery(0, 0.0, None, None)])
  }

  lemma OneCandidate(db: Db)
    requires db.alerts == Opening().db.alerts && db.follows == {(1, 1)} && db.affects == {(1, 1)}
    ensures Candidates(db, 0.0) == {Event(1, 1, 1, 7)}
    ensures (1, 1, 1) in Triples(Candidates(db, 0.0))
  {
    var f: (nat, nat) := (1, 1);
    assert f in db.follows && f in db.affects;
    var event := Event(f.0, f.0, f.1, db.alerts[f.0].content);
    assert event in Candidates(db, 0.0);
  }

  lemma EnqueuedOnce()
    ensures Enqueued(Opening().db, map[1 := Event(1, 1, 1, 7)], 0.0) == OpeningEnqueued()
  {
    var inserted := Opening().db.(events := map[1 := Event(1, 1, 1, 7)]);
    assert Opening().db.events + map[1 := Event(1, 1, 1, 7)] == map[1 := Event(1, 1, 1, 7)];
    OpeningMisses(inserted);
    var none := OldEvents(OpeningEnqueued(), 0.0);
    assert none == {};
  }

  lemma OpeningMisses(db: Db)
    requires db == Opening().db.(events := map[1 := Event(1, 1, 1, 7)])
    ensures MissingDeliveries(db, 0.0) == {(1, 1)}
  { }

  lemma EnqueuedAgain()
    ensures Enqueued(OpeningEnqueued(), map[], 0.0) == OpeningEnqueued()
  {
    var db := OpeningEnqueued();
    assert db.events + map[] == db.events;
    assert MissingDeliveries(db, 0.0) == {};
    assert OldEvents(db, 0.0) == {};
  }

  lemma FirstTime(s: System)
    requires s == Opening()
    ensures CanPush(s, map[1 := Event(1, 1, 1, 7)], (1, 1))
  {
    OneCandidate(s.db);
    EnqueuedOnce();
  }

  lemma SecondTime(s: System)
    requires PhaseOf(s, 0).Idle? && s.holder == None && s.clock == 0.0 && s.db == OpeningEnqueued()
    ensures CanPush(s, map[], (1, 1)) && Enqueued(s.db, map[], s.clock) == s.db
  {
    OneCandidate(s.db);
    EnqueuedAgain();
    assert s.db.events[1] in s.db.events.Values;
  }

  // ---------------------------------------------------------------------------------------------
  // A run that pushes a text that has changed
  // ---------------------------------------------------------------------------------------------

  const FIRST: Key := (1, 1)
  const SECOND: Key := (1, 2)
  const EVENT := Event(1, 1, 1, 7)
  const OLD_ALERT := Alert(7, 100.0)
  const NEW_ALERT := Alert(8, 100.0)

  /** One user with two devices. */
  function TwoDevices(): System {
    System(0.0, Db(map[], map[1 := 1, 2 := 1], map[1 := OLD_ALERT], {(1, 1)}, {(1, 1)}, map[]),
           map[], None, {}, {1, 2}, 0, History([], [], map[], []))
  }

  ghost function BothQueued(): Db {
    TwoDevices().db.(
      events := map[1 := EVENT],
      deliveries := map[FIRST := Delivery(0, 0.0, None, None), SECOND := Delivery(0, 0.0, None, None)])
  }

  lemma BothMissing(db: Db)
    requires db == TwoDevices().db.(events := map[1 := EVENT])
    ensures MissingDeliveries(db, 0.0) == {FIRST, SECOND}
  { }

  lemma BothEnqueued()
    ensures Enqueued(TwoDevices().db, map[1 := EVENT], 0.0) == BothQueued()
  {
    var inserted := TwoDevices().db.(events := map[1 := EVENT]);
    assert TwoDevices().db.events + map[1 := EVENT] == map[1 := EVENT];
    BothMissing(inserted);
    var missing := map k | k in MissingDeliveries(inserted, 0.0) :: Delivery(0, 0.0, None, None);
    assert missing == BothQueued().deliveries;
    var none := OldEvents(BothQueued(), 0.0);
    assert none == {};
  }

  /** Between iterations of a run that may go on to a row about alert 1. */
  ghost predicate Running(s: System, left: nat, last: Option<Kept>) {
    && PhaseOf(s, 0).Between? && PhaseOf(s, 0).run.left == left && PhaseOf(s, 0).run.last == last
    && (1, 1, 1) in PhaseOf(s, 0).run.eligible && s.holder == None && s.clock == 0.0
    && s.usedSubscriptions == {1, 2}
  }

  lemma Reached(s: System)
    requires Init(s)
    ensures Reachable(s)
  {
    assert Execution([s], []);
  }

  lemma Started(s: System) returns (t: System)
    requires s == TwoDevices() && Reachable(s)
    ensures Reachable(t) && t.db == s.db && t.clock == 0.0 && t.holder == None
    ensures t.usedEvents == {} && t.usedSubscriptions == {1, 2}
    ensures var run := Run(0, Triples({EVENT}), 2, 0, None); PhaseOf(t, 0) == Collected(run, {EVENT}, 0.0)
  {
    OneCandidate(s.db);
    t := ReachNext(s, Start(0, 2));
  }

  lemma RunBegins() returns (s: System)
    ensures Reachable(s) && Running(s, 2, None) && s.db == BothQueued()
  {
    Reached(TwoDevices());
    s := Started(TwoDevices());
    BothEnqueued();
    EventIsMissing(s.db);
    s := ReachNext(s, Enqueue(0, map[1 := EVENT]));
  }

  lemma EventIsMissing(db: Db)
    requires db.events == map[]
    ensures InsertsMissing(db, {EVENT}, map[1 := EVENT]) && (1, 1, 1) in Triples({EVENT})
  {
    assert EVENT in {EVENT};
    var added := map[1 := EVENT];
    assert added[1] in added.Values;
  }

  lemma FirstPicked(s: System) returns (t: System)
    requires Reachable(s) && Running(s, 2, None) && s.db == BothQueued()
    ensures Reachable(t) && t.db == s.db && t.clock == 0.0 && t.usedSubscriptions == {1, 2} && t.holder == Some(0)
    ensures PhaseOf(t, 0).Picked? && PhaseOf(t, 0).run.left == 1 && (1, 1, 1) in PhaseOf(t, 0).run.eligible
    ensures var row := Delivery(0, 0.0, None, None);
            PhaseOf(t, 0).work == Work(FIRST, row, row, EVENT, OLD_ALERT, {(1, 1)}, 0.0)
  {
    t := ReachNext(s, Lock(0));
    t := ReachNext(t, Pick(0, FIRST));
  }

  lemma FirstSent(s: System) returns (t: System, row: Delivery)
    requires Reachable(s) && Running(s, 2, None) && s.db == BothQueued()
    ensures Reachable(t) && Running(t, 1, Some(Kept(FIRST, row, 1, OLD_ALERT)))
    ensures t.db == BothQueued().(deliveries := BothQueued().deliveries[FIRST := row])
  {
    t := FirstPicked(s);
    t := ReachNext(t, Decide(0));
    t := ReachNext(t, Answer(0, Accepted));
    t := ReachNext(t, Commit(0));
    row := Delivery(1, 0.0, Some(0.0), None);
  }

  lemma AlertChanged(s: System, row: Delivery) returns (t: System)
    requires Reachable(s) && Running(s, 1, Some(Kept(FIRST, row, 1, OLD_ALERT)))
    requires s.db == BothQueued().(deliveries := BothQueued().deliveries[FIRST := row])
    ensures Reachable(t) && Running(t, 1, Some(Kept(FIRST, row, 1, OLD_ALERT)))
    ensures t.db == s.db.(alerts := map[1 := NEW_ALERT])
  {
    var db := s.db.(alerts := map[1 := NEW_ALERT]);
    assert db.deliveries ==
      map k | k in s.db.deliveries && k.0 in db.events && k.1 in db.subscriptions :: s.db.deliveries[k];
    t := ReachNext(s, Others(db));
    assert s.usedSubscriptions + db.subscriptions.Keys == {1, 2};
  }

  /** `t` comes after `s` by these steps. */
  ghost predicate Follows(s: System, steps: seq<Step>, t: System)
    decreases |steps|
  {
    if steps == [] then s == t else Enabled(s, steps[0]) && Follows(After(s, steps[0]), steps[1..], t)
  }

  /** The second device of a user is sent the text that the first one was sent, after the database has
      come to hold another: the session still keeps the alert of the pick before. */
  lemma StalePush() returns (s: System, t: System)
    ensures Reachable(s) && Reachable(t) && Follows(s, [Pick(0, SECOND), Decide(0), Answer(0, Accepted)], t)
    ensures 1 in s.db.events && s.db.events[1] == EVENT && !Current(s, EVENT)
    ensures t.history.accepted != []
    ensures var send := t.history.accepted[|t.history.accepted| - 1];
            send.work.key == SECOND && send.work.event == EVENT
  {
    var row;
    s := RunBegins();
    s, row := FirstSent(s);
    s := AlertChanged(s, row);
    s := LockedAgain(s, row);
    t := SecondPushed(s, row);
  }

  /** Locked for the second row, which the alert no longer matches. */
  ghost predicate BeforeStalePick(s: System, row: Delivery) {
    && PhaseOf(s, 0).Locked? && PhaseOf(s, 0).startedAt == 0.0 && s.clock == 0.0
    && PhaseOf(s, 0).run.last == Some(Kept(FIRST, row, 1, OLD_ALERT)) && (1, 1, 1) in PhaseOf(s, 0).run.eligible
    && s.db == BothQueued().(deliveries := BothQueued().deliveries[FIRST := row], alerts := map[1 := NEW_ALERT])
  }

  lemma LockedAgain(s: System, row: Delivery) returns (t: System)
    requires Reachable(s) && Running(s, 1, Some(Kept(FIRST, row, 1, OLD_ALERT)))
    requires s.db == BothQueued().(deliveries := BothQueued().deliveries[FIRST := row], alerts := map[1 := NEW_ALERT])
    ensures Reachable(t) && BeforeStalePick(t, row)
  {
    t := ReachNext(s, Lock(0));
  }

  lemma SecondPushed(s: System, row: Delivery) returns (t: System)
    requires Reachable(s) && BeforeStalePick(s, row)
    ensures Reachable(t) && Follows(s, [Pick(0, SECOND), Decide(0), Answer(0, Accepted)], t)
    ensures t.history.accepted != []
    ensures var send := t.history.accepted[|t.history.accepted| - 1];
            send.work.key == SECOND && send.work.event == EVENT
  {
    var picked := ReachNext(s, Pick(0, SECOND));
    var sending := ReachNext(picked, Decide(0));
    t := ReachNext(sending, Answer(0, Accepted));
    FollowsThree(s, picked, sending, t, Pick(0, SECOND), Decide(0), Answer(0, Accepted));
  }

  lemma FollowsThree(s: System, a: System, b: System, t: System, x: Step, y: Step, z: Step)
    requires Enabled(s, x) && a == After(s, x) && Enabled(a, y) && b == After(a, y) && Enabled(b, z) && t == After(b, z)
    ensures Follows(s, [x, y, z], t)
  {
    assert [x, y, z][1..] == [y, z] && [y, z][1..] == [z] && [z][1..] == [];
    assert Follows(t, [], t);
    assert Follows(b, [z], t);
    assert Follows(a, [y, z], t);
  }
}
