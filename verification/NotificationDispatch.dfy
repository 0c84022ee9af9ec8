/**
 The push-delivery protocol: several dispatchers, each a loop of transactions under one advisory
 lock, running against a database that other requests change at any time.
 */
module NotificationDispatch {
  import opened Options
  import opened PushDelivery

  /** A notification event. `content` stands for the alert text whose hash is the version. */
  datatype Event = Event(user: nat, alert: nat, municipality: nat, content: nat)

  datatype Alert = Alert(content: nat, expires: real)

  /** A delivery row is identified by its event and its subscription. */
  type Key = (nat, nat)

  datatype Db = Db(
    events: map<nat, Event>,
    subscriptions: map<nat, nat>,      // subscription to user
    alerts: map<nat, Alert>,
    follows: set<(nat, nat)>,          // user and municipality, with notifications opted in
    affects: set<(nat, nat)>,          // alert and municipality
    deliveries: map<Key, Delivery>)

  /** The objects of the previous iteration, which the session keeps as long as the loop refers to them. */
  datatype Kept = Kept(key: Key, row: Delivery, alertId: nat, alert: Alert)

  datatype Run = Run(id: nat, eligible: set<(nat, nat, nat)>, left: nat, sent: nat, last: Option<Kept>)

  /** What the next-pending query found, and the opt-ins it saw. `row` is what is stored; `loaded` and
      `alert` are the objects it returned, which are those of the previous iteration when it was for the
      same row or alert. */
  datatype Work = Work(
    key: Key, row: Delivery, loaded: Delivery, event: Event, alert: Alert, follows: set<(nat, nat)>, startedAt: real)

  datatype Phase =
    | Idle
    | Collected(run: Run, rows: set<Event>, startedAt: real)
    | Between(run: Run)
    | Locked(run: Run, startedAt: real)
    | Picked(run: Run, work: Work)
    | Sending(run: Run, work: Work, now: real)
    | Answered(run: Run, work: Work, now: real, outcome: Outcome)
    | Returned(run: Run)

  datatype Send = Send(run: Run, work: Work, now: real)

  datatype Attempt = Attempt(key: Key, at: real, count: nat, committed: bool)

  /** What happened so far: pushes accepted, accepted pushes whose commit was lost, rows committed
      as sent and by which run, and all attempts. */
  datatype History = History(accepted: seq<Send>, lost: seq<Key>, committed: map<Key, nat>, attempts: seq<Attempt>)

  datatype System = System(
    clock: real,
    db: Db,
    phases: map<nat, Phase>,
    holder: Option<nat>,
    usedEvents: set<nat>,
    usedSubscriptions: set<nat>,
    nextRun: nat,
    history: History)

  const RETENTION: real := 2592000.0

  function PhaseOf(s: System, d: nat): Phase {
    if d in s.phases then s.phases[d] else Idle
  }

  predicate HasWork(phase: Phase) { phase.Picked? || phase.Sending? || phase.Answered? }

  predicate Critical(phase: Phase) { phase.Locked? || HasWork(phase) }

  /** The row lock held right now, if any. */
  predicate Holding(s: System) { s.holder.Some? && HasWork(PhaseOf(s, s.holder.value)) }

  function Held(s: System): Work
    requires Holding(s)
  {
    PhaseOf(s, s.holder.value).work
  }

  // ---------------------------------------------------------------------------------------------
  // Atomic database actions
  // ---------------------------------------------------------------------------------------------

  /** The candidates query: opted-in followers of municipalities that an unexpired alert affects. */
  ghost function Candidates(db: Db, now: real): set<Event> {
    set f, a | f in db.follows && a in db.affects && a.1 == f.1 && a.0 in db.alerts && db.alerts[a.0].expires > now
      :: Event(f.0, a.0, f.1, db.alerts[a.0].content)
  }

  ghost function Triples(rows: set<Event>): set<(nat, nat, nat)> {
    set r | r in rows :: (r.user, r.alert, r.municipality)
  }

  /** Rows to insert are new events, each once; every candidate ends up with an event. */
  ghost predicate InsertsMissing(db: Db, rows: set<Event>, added: map<nat, Event>) {
    && (forall e :: e in added ==> added[e] in rows && forall e' :: e' in db.events ==> db.events[e'] != added[e])
    && (forall e, e' :: e in added && e' in added && added[e] == added[e'] ==> e == e')
    && (forall r :: r in rows ==> r in db.events.Values || r in added.Values)
  }

  predicate Wanted(db: Db, event: Event, user: nat, now: real) {
    && user == event.user
    && event.alert in db.alerts && db.alerts[event.alert].expires > now
    && (event.user, event.municipality) in db.follows
  }

  ghost function MissingDeliveries(db: Db, now: real): set<Key> {
    set e, u | && e in db.events && u in db.subscriptions && (e, u) !in db.deliveries
               && Wanted(db, db.events[e], db.subscriptions[u], now)
      :: (e, u)
  }

  ghost function OldEvents(db: Db, now: real): set<nat> {
    set e | e in db.events && db.events[e].alert in db.alerts && db.alerts[db.events[e].alert].expires < now - RETENTION
  }

  /** Deleting events or subscriptions deletes their delivery rows. */
  ghost function Cascade(db: Db, events: set<nat>, subscriptions: set<nat>): Db {
    db.(events := db.events - events,
        subscriptions := db.subscriptions - subscriptions,
        deliveries := map k | k in db.deliveries && k.0 !in events && k.1 !in subscriptions :: db.deliveries[k])
  }

  ghost function Enqueued(db: Db, added: map<nat, Event>, now: real): Db {
    var inserted := db.(events := db.events + added);
    var missing := map k | k in MissingDeliveries(inserted, now) :: Delivery(0, now, None, None);
    var queued := inserted.(deliveries := inserted.deliveries + missing);
    Cascade(queued, OldEvents(queued, now), {})
  }

  /** The next-pending query, for a transaction begun at `now`. */
  predicate Pending(db: Db, key: Key, now: real) {
    && key in db.deliveries && Open(db.deliveries[key]) && db.deliveries[key].nextAttemptAt <= now
    && key.0 in db.events && key.1 in db.subscriptions
    && Wanted(db, db.events[key.0], db.subscriptions[key.1], now)
  }

  /** Neither a changed alert, nor a target that was not eligible when the run began, nor an alert
      in its last second is sent. */
  predicate Sendable(run: Run, work: Work, now: real) {
    && work.event.content == work.alert.content
    && (work.event.user, work.event.alert, work.event.municipality) in run.eligible
    && Ttl(work.alert.expires, now) != 0
  }

  /** Anything other requests may do to the database: events only go away, a subscription keeps its
      user, ids are never reused, rows disappear only with their event or subscription, and a locked
      row cannot disappear. */
  ghost predicate OthersMay(s: System, db: Db) {
    && (forall e :: e in db.events ==> e in s.db.events && db.events[e] == s.db.events[e])
    && (forall u :: u in db.subscriptions ==>
          if u in s.db.subscriptions then db.subscriptions[u] == s.db.subscriptions[u] else u !in s.usedSubscriptions)
    && db.deliveries == (map k | k in s.db.deliveries && k.0 in db.events && k.1 in db.subscriptions ::
         s.db.deliveries[k])
    && (Holding(s) ==> Held(s).key.0 in db.events && Held(s).key.1 in db.subscriptions)
  }

  // ---------------------------------------------------------------------------------------------
  // Steps
  // ---------------------------------------------------------------------------------------------

  datatype Step =
    | Start(d: nat, limit: nat)
    | Enqueue(d: nat, added: map<nat, Event>)
    | Lock(d: nat)
    | Pick(d: nat, key: Key)
    | NonePending(d: nat, locked: set<Key>)
    | Decide(d: nat)
    | Answer(d: nat, outcome: Outcome)
    | Commit(d: nat)
    | Crash(d: nat)
    | Others(db: Db)
    | Tick(now: real)

  ghost predicate Enabled(s: System, step: Step) {
    match step
    case Start(d, limit) => PhaseOf(s, d).Idle? || PhaseOf(s, d).Returned?
    case Enqueue(d, added) =>
      && PhaseOf(s, d).Collected? && added.Keys !! s.usedEvents
      && InsertsMissing(s.db, PhaseOf(s, d).rows, added)
      && (Holding(s) ==> Held(s).key.0 in Enqueued(s.db, added, PhaseOf(s, d).startedAt).events)
    case Lock(d) => PhaseOf(s, d).Between?
    case Pick(d, key) => PhaseOf(s, d).Locked? && Pending(s.db, key, PhaseOf(s, d).startedAt)
    case NonePending(d, locked) =>
      PhaseOf(s, d).Locked? && forall key :: Pending(s.db, key, PhaseOf(s, d).startedAt) ==> key in locked
    case Decide(d) => PhaseOf(s, d).Picked?
    case Answer(d, outcome) => PhaseOf(s, d).Sending?
    case Commit(d) => PhaseOf(s, d).Answered?
    case Crash(d) => true
    case Others(db) => OthersMay(s, db)
    case Tick(now) => now >= s.clock
  }

  function Move(s: System, d: nat, phase: Phase): System {
    s.(phases := s.phases[d := phase])
  }

  ghost function AfterLock(s: System, d: nat): System
    requires PhaseOf(s, d).Between?
  {
    var run := PhaseOf(s, d).run;
    if run.left == 0 || s.holder.Some? then Move(s, d, Returned(run))
    else Move(s, d, Locked(run.(left := run.left - 1), s.clock)).(holder := Some(d))
  }

  /** The alert as the session sees it: an object still in use is not read again. */
  function AlertSeen(last: Option<Kept>, id: nat, stored: Alert): Alert {
    if last.Some? && last.value.alertId == id then last.value.alert else stored
  }

  function RowSeen(last: Option<Kept>, key: Key, stored: Delivery): Delivery {
    if last.Some? && last.value.key == key then last.value.row else stored
  }

  ghost function AfterPick(s: System, d: nat, key: Key): System
    requires PhaseOf(s, d).Locked? && Pending(s.db, key, PhaseOf(s, d).startedAt)
  {
    var run, startedAt := PhaseOf(s, d).run, PhaseOf(s, d).startedAt;
    var row, event := s.db.deliveries[key], s.db.events[key.0];
    var work := Work(key, row, RowSeen(run.last, key, row), event,
                     AlertSeen(run.last, event.alert, s.db.alerts[event.alert]), s.db.follows, startedAt);
    Move(s, d, Picked(run, work))
  }

  function KeptOf(work: Work, row: Delivery): Kept { Kept(work.key, row, work.event.alert, work.alert) }

  ghost function AfterDecide(s: System, d: nat): System
    requires PhaseOf(s, d).Picked?
  {
    var Picked(run, work) := PhaseOf(s, d);
    if Sendable(run, work, s.clock) then Move(s, d, Sending(run, work, s.clock))
    else
      var cancelled := work.loaded.(cancelledAt := Some(s.clock));
      Move(s, d, Between(run.(last := Some(KeptOf(work, cancelled))))).(
        holder := None,
        db := s.db.(deliveries := s.db.deliveries[work.key := Flushed(work.row, work.loaded, cancelled)]))
  }

  ghost function AfterAnswer(s: System, d: nat, outcome: Outcome): System
    requires PhaseOf(s, d).Sending?
  {
    var Sending(run, work, now) := PhaseOf(s, d);
    var accepted := if outcome.Accepted? then s.history.accepted + [Send(run, work, now)] else s.history.accepted;
    var attempts := s.history.attempts + [Attempt(work.key, now, work.loaded.attempts + 1, false)];
    Move(s, d, Answered(run, work, now, outcome)).(
      history := s.history.(accepted := accepted, attempts := attempts))
  }

  /** The last attempt, once its transaction has committed. */
  function Confirmed(attempts: seq<Attempt>): seq<Attempt> {
    if attempts == [] then [] else
    attempts[..|attempts| - 1] + [attempts[|attempts| - 1].(committed := true)]
  }

  ghost function AfterCommit(s: System, d: nat): System
    requires PhaseOf(s, d).Answered?
  {
    var Answered(run, work, now, outcome) := PhaseOf(s, d);
    var settled := Settled(work.loaded, now, outcome);
    var mapped := if settled.Some? then settled.value else work.loaded.(attempts := work.loaded.attempts + 1);
    var kept := run.(last := Some(KeptOf(work, mapped)));
    var next :=
      if outcome.Accepted? then Between(kept.(sent := run.sent + 1))
      else if StopsBatch(outcome) then Returned(kept)
      else Between(kept);
    var committed := if outcome.Accepted? then s.history.committed[work.key := run.id] else s.history.committed;
    Move(s, d, next).(
      holder := None,
      db := if settled.None? then Cascade(s.db, {}, {work.key.1})
            else s.db.(deliveries := s.db.deliveries[work.key := Flushed(work.row, work.loaded, mapped)]),
      history := s.history.(attempts := Confirmed(s.history.attempts), committed := committed))
  }

  /** The process dies: its transaction is rolled back and its locks are released. */
  ghost function AfterCrash(s: System, d: nat): System {
    var phase := PhaseOf(s, d);
    var lost := if phase.Answered? && phase.outcome.Accepted? then s.history.lost + [phase.work.key]
        else s.history.lost;
    Move(s, d, Idle).(
      holder := if Critical(phase) then None else s.holder,
      history := s.history.(lost := lost))
  }

  ghost function After(s: System, step: Step): System
    requires Enabled(s, step)
  {
    match step
    case Start(d, limit) =>
      var rows := Candidates(s.db, s.clock);
      Move(s, d, Collected(Run(s.nextRun, Triples(rows), limit, 0, None), rows, s.clock)).(nextRun := s.nextRun + 1)
    case Enqueue(d, added) =>
      Move(s, d, Between(PhaseOf(s, d).run)).(
        db := Enqueued(s.db, added, PhaseOf(s, d).startedAt),
        usedEvents := s.usedEvents + added.Keys)
    case Lock(d) => AfterLock(s, d)
    case Pick(d, key) => AfterPick(s, d, key)
    case NonePending(d, locked) => Move(s, d, Returned(PhaseOf(s, d).run)).(holder := None)
    case Decide(d) => AfterDecide(s, d)
    case Answer(d, outcome) => AfterAnswer(s, d, outcome)
    case Commit(d) => AfterCommit(s, d)
    case Crash(d) => AfterCrash(s, d)
    case Others(db) => s.(db := db, usedSubscriptions := s.usedSubscriptions + db.subscriptions.Keys)
    case Tick(now) => s.(clock := now)
  }

  // ---------------------------------------------------------------------------------------------
  // Invariant: the dispatchers
  // ---------------------------------------------------------------------------------------------

  /** Only the holder of the advisory lock is inside a transaction of the loop. */
  ghost predicate Mutex(s: System) {
    forall d: nat :: Critical(PhaseOf(s, d)) ==> s.holder == Some(d)
  }

  ghost predicate WorkPicked(work: Work) {
    && Open(work.row) && Open(work.loaded)
    && work.loaded.nextAttemptAt <= work.row.nextAttemptAt <= work.startedAt
    && (work.event.user, work.event.municipality) in work.follows
  }

  /** The row being worked on is still exactly what the query returned. */
  ghost predicate WorkSound(db: Db, work: Work) {
    var key := work.key;
    && key in db.deliveries && db.deliveries[key] == work.row
    && key.0 in db.events && db.events[key.0] == work.event
    && key.1 in db.subscriptions && db.subscriptions[key.1] == work.event.user
    && WorkPicked(work)
  }

  ghost predicate SendSound(run: Run, work: Work, now: real) {
    Sendable(run, work, now) && WorkPicked(work) && work.startedAt <= now
  }

  ghost predicate PhaseSound(db: Db, clock: real, phase: Phase)
    requires HasWork(phase)
  {
    && WorkSound(db, phase.work) && phase.work.startedAt <= clock
    && (!phase.Picked? ==> SendSound(phase.run, phase.work, phase.now) && phase.now <= clock)
  }

  /** The attempt being committed is the last one made. */
  ghost predicate Logged(attempts: seq<Attempt>, phase: Phase) {
    phase.Answered? ==>
      && attempts != []
      && attempts[|attempts| - 1] == Attempt(phase.work.key, phase.now, phase.work.loaded.attempts + 1, false)
  }

  ghost predicate HeldSound(s: System) {
    && (Holding(s) ==>
          && PhaseSound(s.db, s.clock, PhaseOf(s, s.holder.value))
          && Logged(s.history.attempts, PhaseOf(s, s.holder.value)))
    && (forall d: nat :: PhaseOf(s, d).Locked? ==> PhaseOf(s, d).startedAt <= s.clock)
  }

  predicate HasRun(phase: Phase) { !phase.Idle? }

  ghost function CommittedBy(committed: map<Key, nat>, id: nat): set<Key> {
    set k | k in committed && committed[k] == id
  }

  /** A run has counted exactly the rows it committed as sent. */
  ghost predicate RunCounted(committed: map<Key, nat>, nextRun: nat, run: Run) {
    run.id < nextRun && run.sent == |CommittedBy(committed, run.id)|
  }

  ghost predicate RunsCounted(s: System) {
    && (forall d: nat :: HasRun(PhaseOf(s, d)) ==> RunCounted(s.history.committed, s.nextRun, PhaseOf(s, d).run))
    && (forall d: nat, d': nat :: d != d' && HasRun(PhaseOf(s, d)) && HasRun(PhaseOf(s, d')) ==>
          PhaseOf(s, d).run.id != PhaseOf(s, d').run.id)
    && (forall k :: k in s.history.committed ==> s.history.committed[k] < s.nextRun)
  }

  // ---------------------------------------------------------------------------------------------
  // Invariant: the database and what has happened
  // ---------------------------------------------------------------------------------------------

  ghost predicate RowsSound(db: Db) {
    forall k :: k in db.deliveries ==> RowOk(db.deliveries[k]) && k.0 in db.events && k.1 in db.subscriptions
  }

  /** At most one event row per user, alert, municipality and content. */
  ghost predicate EventsUnique(events: map<nat, Event>) {
    forall e, e' :: e in events && e' in events && events[e] == events[e'] ==> e == e'
  }

  /** Ids ever used. */
  datatype Ids = Ids(events: set<nat>, subscriptions: set<nat>)

  function IdsOf(s: System): Ids { Ids(s.usedEvents, s.usedSubscriptions) }

  ghost predicate IdsUsed(db: Db, ids: Ids) {
    db.events.Keys <= ids.events && db.subscriptions.Keys <= ids.subscriptions
  }

  /** A row once seen exists as long as its event and its subscription do. */
  ghost predicate Known(db: Db, ids: Ids, k: Key) {
    && k.0 in ids.events && k.1 in ids.subscriptions
    && (k.0 in db.events && k.1 in db.subscriptions ==> k in db.deliveries)
  }

  ghost predicate SentRecorded(db: Db, ids: Ids, committed: map<Key, nat>) {
    && (forall k :: k in committed ==> Known(db, ids, k))
    && (forall k :: k in db.deliveries ==> (db.deliveries[k].sentAt.Some? <==> k in committed))
  }

  /** The row may not be attempted again before the back-off of `attempt` has passed. */
  ghost predicate BacksOff(db: Db, ids: Ids, attempt: Attempt) {
    && attempt.count > 0 && Known(db, ids, attempt.key)
    && (attempt.key in db.deliveries ==>
          var row := db.deliveries[attempt.key];
          row.sentAt.Some? || row.nextAttemptAt >= attempt.at + Backoff(attempt.count))
  }

  ghost predicate AllBackOff(db: Db, ids: Ids, attempts: seq<Attempt>) {
    forall i :: 0 <= i < |attempts| && attempts[i].committed ==> BacksOff(db, ids, attempts[i])
  }

  ghost predicate Spaced(attempts: seq<Attempt>) {
    forall i, j :: 0 <= i < j < |attempts| && attempts[i].key == attempts[j].key && attempts[i].committed ==>
      attempts[i].count > 0 && attempts[j].at >= attempts[i].at + Backoff(attempts[i].count)
  }

  ghost predicate SendsSound(sends: seq<Send>) {
    forall i :: 0 <= i < |sends| ==> SendSound(sends[i].run, sends[i].work, sends[i].now)
  }

  /** The event of an accepted push is still the same event, if it is there at all. */
  ghost predicate SendKept(db: Db, ids: Ids, send: Send) {
    var e := send.work.key.0;
    e in ids.events && (e in db.events ==> db.events[e] == send.work.event)
  }

  ghost predicate SendsKept(db: Db, ids: Ids, sends: seq<Send>) {
    forall i :: 0 <= i < |sends| ==> SendKept(db, ids, sends[i])
  }

  ghost predicate StoreSound(db: Db, ids: Ids, history: History) {
    && SendsKept(db, ids, history.accepted)
    && RowsSound(db) && IdsUsed(db, ids) && EventsUnique(db.events)
    && SentRecorded(db, ids, history.committed)
    && AllBackOff(db, ids, history.attempts)
  }

  ghost predicate PastSound(history: History) {
    SendsSound(history.accepted) && Spaced(history.attempts)
  }

  // ---------------------------------------------------------------------------------------------
  // Invariant: accepted pushes are accounted for
  // ---------------------------------------------------------------------------------------------

  function CountSends(sends: seq<Send>, k: Key): nat {
    if sends == [] then 0 else
    CountSends(sends[..|sends| - 1], k) + if sends[|sends| - 1].work.key == k then 1 else 0
  }

  function CountKeys(keys: seq<Key>, k: Key): nat {
    if keys == [] then 0 else
    CountKeys(keys[..|keys| - 1], k) + if keys[|keys| - 1] == k then 1 else 0
  }

  /** The row whose accepted push is not committed yet. */
  function InFlight(s: System): Option<Key> {
    if Holding(s) && PhaseOf(s, s.holder.value).Answered? && PhaseOf(s, s.holder.value).outcome.Accepted?
    then Some(Held(s).key) else None
  }

  /** Accepted pushes of a row: those lost before their commit, the one committed, the one in flight. */
  ghost predicate Balanced(history: History, inFlight: Option<Key>, k: Key) {
    CountSends(history.accepted, k) ==
      CountKeys(history.lost, k) + (if k in history.committed then 1 else 0) + (if inFlight == Some(k) then 1 else 0)
  }

  ghost predicate AllBalanced(history: History, inFlight: Option<Key>) {
    forall k :: Balanced(history, inFlight, k)
  }

  ghost predicate DispatchersSound(s: System) {
    Mutex(s) && HeldSound(s) && RunsCounted(s)
  }

  /** What the session keeps of a row is no newer than the row, and final only if the row is. */
  ghost predicate KeptSound(db: Db, ids: Ids, kept: Kept) {
    && Known(db, ids, kept.key)
    && (kept.key in db.deliveries ==>
          var row := db.deliveries[kept.key];
          row.nextAttemptAt >= kept.row.nextAttemptAt && (Open(row) ==> Open(kept.row)))
  }

  ghost predicate KeptOk(db: Db, ids: Ids, phase: Phase) {
    HasRun(phase) && phase.run.last.Some? ==> KeptSound(db, ids, phase.run.last.value)
  }

  ghost predicate AllKept(s: System) {
    forall d: nat :: KeptOk(s.db, IdsOf(s), PhaseOf(s, d))
  }

  ghost predicate Inv(s: System) {
    && DispatchersSound(s)
    && StoreSound(s.db, IdsOf(s), s.history)
    && PastSound(s.history)
    && AllBalanced(s.history, InFlight(s))
  }

  // ---------------------------------------------------------------------------------------------
  // Each step keeps the invariant
  // ---------------------------------------------------------------------------------------------

  lemma TickKeeps(s: System, now: real)
    requires Inv(s) && now >= s.clock
    ensures Inv(s.(clock := now))
  {
    var t := s.(clock := now);
    assert forall d: nat :: PhaseOf(t, d) == PhaseOf(s, d);
  }

  /** Moving a dispatcher that is outside a transaction, and stays outside, with the same run. */
  lemma MoveOutside(s: System, d: nat, phase: Phase)
    requires Inv(s) && !Critical(PhaseOf(s, d)) && !Critical(phase)
    requires HasRun(phase) ==> HasRun(PhaseOf(s, d)) && phase.run == PhaseOf(s, d).run
    ensures Inv(Move(s, d, phase))
  {
    var t := Move(s, d, phase);
    assert forall d': nat :: PhaseOf(t, d') == if d' == d then phase else PhaseOf(s, d');
    assert InFlight(t) == InFlight(s);
  }

  lemma StartKeeps(s: System, d: nat, limit: nat)
    requires Inv(s) && Enabled(s, Start(d, limit))
    ensures Inv(After(s, Start(d, limit)))
  {
    var t := After(s, Start(d, limit));
    var phase := PhaseOf(t, d);
    assert forall d': nat :: PhaseOf(t, d') == if d' == d then phase else PhaseOf(s, d');
    assert CommittedBy(s.history.committed, s.nextRun) == {};
    assert InFlight(t) == InFlight(s);
  }

  lemma LockKeeps(s: System, d: nat)
    requires Inv(s) && Enabled(s, Lock(d))
    ensures Inv(After(s, Lock(d)))
  {
    var run := PhaseOf(s, d).run;
    if run.left == 0 || s.holder.Some? {
      MoveOutside(s, d, Returned(run));
    } else {
      var t := After(s, Lock(d));
      assert forall d': nat :: PhaseOf(t, d') == if d' == d then Locked(run.(left := run.left - 1), s.clock)
          else PhaseOf(s, d');
      assert InFlight(t) == InFlight(s) == None;
    }
  }

  lemma PickKeeps(s: System, d: nat, key: Key)
    requires Inv(s) && AllKept(s) && Enabled(s, Pick(d, key))
    ensures Inv(After(s, Pick(d, key)))
  {
    assert KeptOk(s.db, IdsOf(s), PhaseOf(s, d));
    var t := After(s, Pick(d, key));
    assert forall d': nat :: PhaseOf(t, d') == if d' == d then PhaseOf(t, d) else PhaseOf(s, d');
    assert InFlight(t) == InFlight(s) == None;
  }

  lemma NonePendingKeeps(s: System, d: nat, locked: set<Key>)
    requires Inv(s) && Enabled(s, NonePending(d, locked))
    ensures Inv(After(s, NonePending(d, locked)))
  {
    var t := After(s, NonePending(d, locked));
    assert forall d': nat :: PhaseOf(t, d') == if d' == d then Returned(PhaseOf(s, d).run) else PhaseOf(s, d');
    assert InFlight(t) == InFlight(s) == None;
  }

  /** A row that is not sent may be rewritten, as long as its next attempt does not come earlier. */
  lemma RowRewritten(db: Db, ids: Ids, history: History, key: Key, row: Delivery)
    requires StoreSound(db, ids, history) && key in db.deliveries && key !in history.committed
    requires RowOk(row) && row.sentAt.None? && row.nextAttemptAt >= db.deliveries[key].nextAttemptAt
    ensures StoreSound(db.(deliveries := db.deliveries[key := row]), ids, history)
  {
    var after := db.(deliveries := db.deliveries[key := row]);
    assert forall k :: Known(db, ids, k) ==> Known(after, ids, k);
  }

  lemma RowSent(db: Db, ids: Ids, history: History, key: Key, row: Delivery, run: nat)
    requires StoreSound(db, ids, history) && key in db.deliveries
    requires RowOk(row) && row.sentAt.Some?
    ensures StoreSound(db.(deliveries := db.deliveries[key := row]), ids,
              history.(committed := history.committed[key := run]))
  {
    var after := db.(deliveries := db.deliveries[key := row]);
    assert forall k :: Known(db, ids, k) ==> Known(after, ids, k);
    assert Known(after, ids, key);
  }

  lemma AttemptConfirmed(db: Db, ids: Ids, history: History)
    requires StoreSound(db, ids, history) && history.attempts != []
    requires BacksOff(db, ids, history.attempts[|history.attempts| - 1])
    ensures StoreSound(db, ids, history.(attempts := Confirmed(history.attempts)))
  {
    var last := |history.attempts| - 1;
    assert BacksOff(db, ids, history.attempts[last].(committed := true));
  }

  lemma ConfirmedSpaced(attempts: seq<Attempt>)
    requires Spaced(attempts)
    ensures Spaced(Confirmed(attempts))
  { }

  lemma CascadeKeeps(db: Db, ids: Ids, history: History, events: set<nat>, subscriptions: set<nat>)
    requires StoreSound(db, ids, history)
    ensures StoreSound(Cascade(db, events, subscriptions), ids, history)
  {
    var after := Cascade(db, events, subscriptions);
    assert forall k :: Known(db, ids, k) ==> Known(after, ids, k);
  }

  /** A new attempt on a row comes after the back-off of every earlier attempt on it. */
  lemma SpacedGrows(db: Db, ids: Ids, attempts: seq<Attempt>, work: Work, now: real)
    requires AllBackOff(db, ids, attempts) && Spaced(attempts) && WorkSound(db, work) && work.startedAt <= now
    ensures Spaced(attempts + [Attempt(work.key, now, work.loaded.attempts + 1, false)])
  {
    var next := attempts + [Attempt(work.key, now, work.loaded.attempts + 1, false)];
    forall i, j | 0 <= i < j < |next| && next[i].key == next[j].key && next[i].committed
      ensures next[i].count > 0 && next[j].at >= next[i].at + Backoff(next[i].count)
    {
      assert BacksOff(db, ids, attempts[i]);
      if j == |attempts| {
        assert next[i] == attempts[i];
      }
    }
  }

  lemma CountSendsGrows(sends: seq<Send>, send: Send, k: Key)
    ensures CountSends(sends + [send], k) == CountSends(sends, k) + if send.work.key == k then 1 else 0
  {
    assert (sends + [send])[..|sends|] == sends;
  }

  lemma CountKeysGrows(keys: seq<Key>, key: Key, k: Key)
    ensures CountKeys(keys + [key], k) == CountKeys(keys, k) + if key == k then 1 else 0
  {
    assert (keys + [key])[..|keys|] == keys;
  }

  lemma SendLogged(db: Db, ids: Ids, history: History, send: Send)
    requires StoreSound(db, ids, history) && WorkSound(db, send.work)
    ensures StoreSound(db, ids, history.(accepted := history.accepted + [send]))
  { }

  lemma AttemptLogged(db: Db, ids: Ids, history: History, attempt: Attempt)
    requires StoreSound(db, ids, history) && !attempt.committed
    ensures StoreSound(db, ids, history.(attempts := history.attempts + [attempt]))
  { }

  lemma AnswerStore(s: System, d: nat, outcome: Outcome)
    requires Inv(s) && Enabled(s, Answer(d, outcome)) && s.holder == Some(d)
    ensures var history := AfterAnswer(s, d, outcome).history;
            StoreSound(s.db, IdsOf(s), history) && PastSound(history)
  {
    var Sending(run, work, now) := PhaseOf(s, d);
    var attempt := Attempt(work.key, now, work.loaded.attempts + 1, false);
    SpacedGrows(s.db, IdsOf(s), s.history.attempts, work, now);
    AttemptLogged(s.db, IdsOf(s), s.history, attempt);
    if outcome.Accepted? {
      SendLogged(s.db, IdsOf(s), s.history.(attempts := s.history.attempts + [attempt]), Send(run, work, now));
    }
  }

  lemma AnswerBalanced(s: System, d: nat, outcome: Outcome)
    requires Inv(s) && Enabled(s, Answer(d, outcome)) && s.holder == Some(d)
    ensures var t := AfterAnswer(s, d, outcome); AllBalanced(t.history, InFlight(t))
  {
    var t := AfterAnswer(s, d, outcome);
    var Sending(run, work, now) := PhaseOf(s, d);
    assert InFlight(s) == None && InFlight(t) == if outcome.Accepted? then Some(work.key) else None;
    forall k ensures Balanced(t.history, InFlight(t), k) {
      assert Balanced(s.history, InFlight(s), k);
      CountSendsGrows(s.history.accepted, Send(run, work, now), k);
    }
  }

  lemma AnswerKeeps(s: System, d: nat, outcome: Outcome)
    requires Inv(s) && Enabled(s, Answer(d, outcome))
    ensures Inv(After(s, Answer(d, outcome)))
  {
    var t := After(s, Answer(d, outcome));
    var Sending(run, work, now) := PhaseOf(s, d);
    assert s.holder == Some(d);
    assert forall d': nat :: PhaseOf(t, d') == if d' == d then Answered(run, work, now, outcome) else PhaseOf(s, d');
    AnswerStore(s, d, outcome);
    AnswerBalanced(s, d, outcome);
  }

  /** Leaving the transaction, committed or rolled back. */
  lemma LeavesTransaction(s: System, t: System, d: nat)
    requires DispatchersSound(s) && s.holder == Some(d) && t.holder == None
    requires t.clock == s.clock && t.nextRun == s.nextRun
    requires forall d': nat :: d' != d ==> PhaseOf(t, d') == PhaseOf(s, d')
    requires !Critical(PhaseOf(t, d))
    ensures Mutex(t) && HeldSound(t) && InFlight(t) == None
  {
    forall d': nat ensures !Critical(PhaseOf(t, d')) {
      assert Critical(PhaseOf(s, d')) ==> d' == d;
    }
  }

  lemma DecideKeeps(s: System, d: nat)
    requires Inv(s) && Enabled(s, Decide(d))
    ensures Inv(After(s, Decide(d)))
  {
    var t := After(s, Decide(d));
    var Picked(run, work) := PhaseOf(s, d);
    assert s.holder == Some(d);
    assert forall d': nat :: d' != d ==> PhaseOf(t, d') == PhaseOf(s, d');
    assert InFlight(s) == None;
    if Sendable(run, work, s.clock) {
      assert PhaseOf(t, d) == Sending(run, work, s.clock);
      assert InFlight(t) == None;
    } else {
      var cancelled := work.loaded.(cancelledAt := Some(s.clock));
      assert PhaseOf(t, d) == Between(run.(last := Some(KeptOf(work, cancelled))));
      LeavesTransaction(s, t, d);
      assert Flushed(work.row, work.loaded, cancelled) == work.row.(cancelledAt := Some(s.clock));
      RowRewritten(s.db, IdsOf(s), s.history, work.key, Flushed(work.row, work.loaded, cancelled));
    }
  }

  lemma CrashKeeps(s: System, d: nat)
    requires Inv(s)
    ensures Inv(AfterCrash(s, d))
  {
    var t := AfterCrash(s, d);
    var phase := PhaseOf(s, d);
    assert forall d': nat :: PhaseOf(t, d') == if d' == d then Idle else PhaseOf(s, d');
    if Critical(phase) {
      LeavesTransaction(s, t, d);
      if phase.Answered? && phase.outcome.Accepted? {
        forall k ensures Balanced(t.history, None, k) {
          assert Balanced(s.history, InFlight(s), k);
          CountKeysGrows(s.history.lost, phase.work.key, k);
        }
      } else {
        assert InFlight(s) == None;
      }
    } else {
      assert InFlight(t) == InFlight(s);
    }
  }

  /** The store after a commit: the attempt confirmed, and the row settled or removed. */
  lemma CommitStore(db: Db, ids: Ids, history: History, work: Work, now: real, outcome: Outcome, run: nat)
    requires StoreSound(db, ids, history) && WorkSound(db, work) && work.startedAt <= now
    requires history.attempts != []
    requires history.attempts[|history.attempts| - 1] == Attempt(work.key, now, work.loaded.attempts + 1, false)
    ensures var logged := history.(attempts := Confirmed(history.attempts));
            var settled := Settled(work.loaded, now, outcome);
            && (settled.None? ==> StoreSound(Cascade(db, {}, {work.key.1}), ids, logged))
            && (settled.Some? ==>
                  var row := Flushed(work.row, work.loaded, settled.value);
                  StoreSound(db.(deliveries := db.deliveries[work.key := row]), ids,
                             if outcome.Accepted? then logged.(committed := history.committed[work.key := run])
                             else logged))
  {
    var settled := Settled(work.loaded, now, outcome);
    SettledFacts(work.loaded, now, outcome);
    if settled.None? {
      CascadeKeeps(db, ids, history, {}, {work.key.1});
      AttemptConfirmed(Cascade(db, {}, {work.key.1}), ids, history);
    } else {
      FlushedFacts(work.row, work.loaded, now, outcome);
      var row := Flushed(work.row, work.loaded, settled.value);
      var after := db.(deliveries := db.deliveries[work.key := row]);
      if outcome.Accepted? {
        RowSent(db, ids, history, work.key, row, run);
        AttemptConfirmed(after, ids, history.(committed := history.committed[work.key := run]));
      } else {
        RowRewritten(db, ids, history, work.key, row);
        AttemptConfirmed(after, ids, history);
      }
    }
  }

  /** Committing one more row as sent adds it to its run's count and to no other's. */
  lemma CommitCounts(committed: map<Key, nat>, key: Key, id: nat, other: nat)
    requires key !in committed
    ensures CommittedBy(committed[key := id], other) ==
            CommittedBy(committed, other) + (if other == id then {key} else {})
    ensures |CommittedBy(committed[key := id], other)| == |CommittedBy(committed, other)| + if other == id then 1 else 0
  {
    assert CommittedBy(committed[key := id], other) ==
        CommittedBy(committed, other) + (if other == id then {key} else {});
  }

  lemma CommitRuns(s: System, t: System, d: nat)
    requires Inv(s) && Enabled(s, Commit(d)) && t == AfterCommit(s, d)
    requires PhaseOf(s, d).work.key !in s.history.committed
    ensures RunsCounted(t)
  {
    assert forall d': nat :: d' != d ==> PhaseOf(t, d') == PhaseOf(s, d');
    assert PhaseOf(t, d).run.id == PhaseOf(s, d).run.id;
    forall d': nat | HasRun(PhaseOf(t, d')) ensures RunCounted(t.history.committed, t.nextRun, PhaseOf(t, d').run) {
      CommitRun(s, t, d, d');
    }
  }

  lemma CommitRun(s: System, t: System, d: nat, d': nat)
    requires RunsCounted(s) && Enabled(s, Commit(d)) && t == AfterCommit(s, d)
    requires PhaseOf(s, d).work.key !in s.history.committed && HasRun(PhaseOf(s, d'))
    ensures HasRun(PhaseOf(t, d')) && RunCounted(t.history.committed, t.nextRun, PhaseOf(t, d').run)
  {
    var Answered(run, work, now, outcome) := PhaseOf(s, d);
    assert RunCounted(s.history.committed, s.nextRun, PhaseOf(s, d').run);
    CommitCounts(s.history.committed, work.key, run.id, PhaseOf(s, d').run.id);
  }

  lemma CommitKeeps(s: System, d: nat)
    requires Inv(s) && Enabled(s, Commit(d))
    ensures Inv(After(s, Commit(d)))
  {
    var t := AfterCommit(s, d);
    var work := PhaseOf(s, d).work;
    assert s.holder == Some(d);
    assert work.key in s.db.deliveries && work.key !in s.history.committed;
    LeavesTransaction(s, t, d);
    CommitRuns(s, t, d);
    CommitInFlight(s, d);
    CommitPast(s, d);
  }

  lemma CommitPast(s: System, d: nat)
    requires Inv(s) && Enabled(s, Commit(d)) && s.holder == Some(d)
    ensures var t := AfterCommit(s, d);
            StoreSound(t.db, IdsOf(s), t.history) && PastSound(t.history)
  {
    var Answered(run, work, now, outcome) := PhaseOf(s, d);
    CommitStore(s.db, IdsOf(s), s.history, work, now, outcome, run.id);
    ConfirmedSpaced(s.history.attempts);
  }

  lemma CommitInFlight(s: System, d: nat)
    requires Inv(s) && Enabled(s, Commit(d)) && s.holder == Some(d)
    requires PhaseOf(s, d).work.key !in s.history.committed
    ensures AllBalanced(AfterCommit(s, d).history, None)
  {
    var Answered(run, work, now, outcome) := PhaseOf(s, d);
    var history := AfterCommit(s, d).history;
    if outcome.Accepted? {
      assert InFlight(s) == Some(work.key);
      forall k ensures Balanced(history, None, k) {
        assert Balanced(s.history, Some(work.key), k);
      }
    } else {
      assert InFlight(s) == None;
      forall k ensures Balanced(history, None, k) {
        assert Balanced(s.history, None, k);
      }
    }
  }

  /** New events and subscriptions take fresh ids, so nothing known is revived. */
  lemma FreshIdsKeep(db: Db, ids: Ids, history: History, added: map<nat, Event>)
    requires StoreSound(db, ids, history) && added.Keys !! ids.events
    requires EventsUnique(db.events + added)
    ensures StoreSound(db.(events := db.events + added), ids.(events := ids.events + added.Keys), history)
  {
    var after := db.(events := db.events + added);
    var more := ids.(events := ids.events + added.Keys);
    assert forall k :: Known(db, ids, k) ==> Known(after, more, k);
  }

  /** New rows are put where no row is known. */
  lemma NewRowsKeep(db: Db, ids: Ids, history: History, keys: set<Key>, now: real)
    requires StoreSound(db, ids, history)
    requires forall k :: k in keys ==> k.0 in db.events && k.1 in db.subscriptions && k !in db.deliveries
    ensures StoreSound(
              db.(deliveries := db.deliveries + map k | k in keys :: Delivery(0, now, None, None)), ids, history)
  {
    var after := db.(deliveries := db.deliveries + map k | k in keys :: Delivery(0, now, None, None));
    assert forall k :: Known(db, ids, k) ==> Known(after, ids, k);
    forall k | k in keys ensures k !in history.committed {
      assert k in history.committed ==> Known(db, ids, k);
    }
    forall i | 0 <= i < |history.attempts| && history.attempts[i].committed
      ensures BacksOff(after, ids, history.attempts[i])
    {
      assert BacksOff(db, ids, history.attempts[i]);
    }
  }

  lemma InsertedUnique(db: Db, rows: set<Event>, added: map<nat, Event>)
    requires EventsUnique(db.events) && InsertsMissing(db, rows, added)
    ensures EventsUnique(db.events + added)
  { }

  lemma EnqueueStore(db: Db, ids: Ids, history: History, rows: set<Event>, added: map<nat, Event>, now: real)
    requires StoreSound(db, ids, history) && added.Keys !! ids.events && InsertsMissing(db, rows, added)
    ensures StoreSound(Enqueued(db, added, now), ids.(events := ids.events + added.Keys), history)
  {
    var inserted := db.(events := db.events + added);
    var more := ids.(events := ids.events + added.Keys);
    InsertedUnique(db, rows, added);
    FreshIdsKeep(db, ids, history, added);
    var keys := MissingDeliveries(inserted, now);
    NewRowsKeep(inserted, more, history, keys, now);
    var queued := inserted.(deliveries := inserted.deliveries + map k | k in keys :: Delivery(0, now, None, None));
    CascadeKeeps(queued, more, history, OldEvents(queued, now), {});
  }

  /** A held row outlives anything that cannot remove its event and subscription. */
  lemma EnqueueWork(db: Db, rows: set<Event>, added: map<nat, Event>, now: real, work: Work)
    requires WorkSound(db, work) && added.Keys !! db.events.Keys
    requires work.key.0 in Enqueued(db, added, now).events
    ensures WorkSound(Enqueued(db, added, now), work)
  { }

  lemma EnqueueKeeps(s: System, d: nat, added: map<nat, Event>)
    requires Inv(s) && Enabled(s, Enqueue(d, added))
    ensures Inv(After(s, Enqueue(d, added)))
  {
    var t := After(s, Enqueue(d, added));
    var Collected(run, rows, startedAt) := PhaseOf(s, d);
    EnqueueStore(s.db, IdsOf(s), s.history, rows, added, startedAt);
    if Holding(s) {
      EnqueueWork(s.db, rows, added, startedAt, Held(s));
    }
    SameDispatchers(s, t, d, Between(run));
  }

  /** A dispatcher outside its transactions moves on while the database changes around the others. */
  lemma SameDispatchers(s: System, t: System, d: nat, phase: Phase)
    requires DispatchersSound(s) && !Critical(PhaseOf(s, d)) && !Critical(phase)
    requires t.phases == s.phases[d := phase] && t.holder == s.holder && t.clock == s.clock
    requires t.nextRun == s.nextRun && t.history == s.history
    requires HasRun(phase) && HasRun(PhaseOf(s, d)) && phase.run == PhaseOf(s, d).run
    requires Holding(s) ==> WorkSound(t.db, Held(s))
    ensures DispatchersSound(t) && InFlight(t) == InFlight(s)
  {
    assert forall d': nat :: PhaseOf(t, d') == if d' == d then phase else PhaseOf(s, d');
  }

  lemma OthersStore(s: System, db: Db)
    requires StoreSound(s.db, IdsOf(s), s.history) && OthersMay(s, db)
    ensures StoreSound(db, IdsOf(s.(usedSubscriptions := s.usedSubscriptions + db.subscriptions.Keys)), s.history)
  {
    var more := IdsOf(s.(usedSubscriptions := s.usedSubscriptions + db.subscriptions.Keys));
    assert forall k :: Known(s.db, IdsOf(s), k) ==> Known(db, more, k);
  }

  lemma OthersKeep(s: System, db: Db)
    requires Inv(s) && OthersMay(s, db)
    ensures Inv(After(s, Others(db)))
  {
    var t := After(s, Others(db));
    OthersStore(s, db);
    assert forall d: nat :: PhaseOf(t, d) == PhaseOf(s, d);
    assert InFlight(t) == InFlight(s);
  }

  lemma StepKeeps(s: System, step: Step)
    requires Inv(s) && AllKept(s) && Enabled(s, step)
    ensures Inv(After(s, step)) && AllKept(After(s, step))
  {
    StepInv(s, step);
    StepKept(s, step);
  }

  lemma StepInv(s: System, step: Step)
    requires Inv(s) && AllKept(s) && Enabled(s, step)
    ensures Inv(After(s, step))
  {
    match step
    case Start(d, limit) => StartKeeps(s, d, limit);
    case Enqueue(d, added) => EnqueueKeeps(s, d, added);
    case Lock(d) => LockKeeps(s, d);
    case Pick(d, key) => PickKeeps(s, d, key);
    case NonePending(d, locked) => NonePendingKeeps(s, d, locked);
    case Decide(d) => DecideKeeps(s, d);
    case Answer(d, outcome) => AnswerKeeps(s, d, outcome);
    case Commit(d) => CommitKeeps(s, d);
    case Crash(d) => CrashKeeps(s, d);
    case Others(db) => OthersKeep(s, db);
    case Tick(now) => TickKeeps(s, now);
  }

  // ---------------------------------------------------------------------------------------------
  // What the session keeps
  // ---------------------------------------------------------------------------------------------

  /** A known row is never put back, and neither its next attempt nor its final state is undone. */
  ghost predicate Evolves(db: Db, ids: Ids, after: Db, more: Ids) {
    forall k :: Known(db, ids, k) ==>
      && Known(after, more, k)
      && (k in after.deliveries ==>
            && k in db.deliveries
            && after.deliveries[k].nextAttemptAt >= db.deliveries[k].nextAttemptAt
            && (Open(after.deliveries[k]) ==> Open(db.deliveries[k])))
  }

  lemma KeptEvolves(db: Db, ids: Ids, after: Db, more: Ids, phase: Phase)
    requires Evolves(db, ids, after, more) && KeptOk(db, ids, phase)
    ensures KeptOk(after, more, phase)
  { }

  lemma EnqueueEvolves(db: Db, ids: Ids, added: map<nat, Event>, now: real)
    requires RowsSound(db) && added.Keys !! ids.events
    ensures Evolves(db, ids, Enqueued(db, added, now), ids.(events := ids.events + added.Keys))
  { }

  lemma RowEvolves(db: Db, ids: Ids, key: Key, row: Delivery)
    requires key in db.deliveries && row.nextAttemptAt >= db.deliveries[key].nextAttemptAt
    requires Open(db.deliveries[key])
    ensures Evolves(db, ids, db.(deliveries := db.deliveries[key := row]), ids)
  { }

  lemma CascadeEvolves(db: Db, ids: Ids, subscriptions: set<nat>)
    ensures Evolves(db, ids, Cascade(db, {}, subscriptions), ids)
  { }

  lemma OthersEvolve(s: System, db: Db)
    requires OthersMay(s, db) && IdsUsed(s.db, IdsOf(s))
    ensures Evolves(s.db, IdsOf(s), db, Ids(s.usedEvents, s.usedSubscriptions + db.subscriptions.Keys))
  { }

  lemma CommitEvolves(s: System, d: nat)
    requires Inv(s) && Enabled(s, Commit(d)) && s.holder == Some(d)
    ensures Evolves(s.db, IdsOf(s), AfterCommit(s, d).db, IdsOf(s))
    ensures KeptOk(AfterCommit(s, d).db, IdsOf(s), PhaseOf(AfterCommit(s, d), d))
  {
    var Answered(run, work, now, outcome) := PhaseOf(s, d);
    assert Known(s.db, IdsOf(s), work.key);
    SettledFacts(work.loaded, now, outcome);
    if Gone(outcome) {
      CascadeEvolves(s.db, IdsOf(s), {work.key.1});
    } else {
      FlushedFacts(work.row, work.loaded, now, outcome);
      RowEvolves(s.db, IdsOf(s), work.key, Flushed(work.row, work.loaded, Settled(work.loaded, now, outcome).value));
    }
  }

  lemma DecideEvolves(s: System, d: nat)
    requires Inv(s) && Enabled(s, Decide(d)) && s.holder == Some(d) && KeptOk(s.db, IdsOf(s), PhaseOf(s, d))
    ensures Evolves(s.db, IdsOf(s), AfterDecide(s, d).db, IdsOf(s))
    ensures KeptOk(AfterDecide(s, d).db, IdsOf(s), PhaseOf(AfterDecide(s, d), d))
  {
    var Picked(run, work) := PhaseOf(s, d);
    assert Known(s.db, IdsOf(s), work.key);
    if !Sendable(run, work, s.clock) {
      var cancelled := work.loaded.(cancelledAt := Some(s.clock));
      RowEvolves(s.db, IdsOf(s), work.key, Flushed(work.row, work.loaded, cancelled));
    }
  }

  lemma StepEvolves(s: System, step: Step)
    requires Inv(s) && AllKept(s) && Enabled(s, step)
    ensures var t := After(s, step); Evolves(s.db, IdsOf(s), t.db, IdsOf(t))
  {
    match step {
      case Enqueue(d, added) => EnqueueEvolves(s.db, IdsOf(s), added, PhaseOf(s, d).startedAt);
      case Decide(d) =>
        assert KeptOk(s.db, IdsOf(s), PhaseOf(s, d));
        DecideEvolves(s, d);
      case Commit(d) => CommitEvolves(s, d);
      case Others(db) => OthersEvolve(s, db);
      case _ =>
    }
  }

  /** A step changes what one session keeps only when it ends an iteration, or begins a run. */
  lemma StepLast(s: System, step: Step, d: nat)
    requires Enabled(s, step) && HasRun(PhaseOf(After(s, step), d))
    requires !(step.Start? && step.d == d) && !(step.Decide? && step.d == d) && !(step.Commit? && step.d == d)
    ensures HasRun(PhaseOf(s, d)) && PhaseOf(After(s, step), d).run.last == PhaseOf(s, d).run.last
  { }

  lemma StepKept(s: System, step: Step)
    requires Inv(s) && AllKept(s) && Enabled(s, step)
    ensures AllKept(After(s, step))
  {
    var t := After(s, step);
    StepEvolves(s, step);
    forall d: nat ensures KeptOk(t.db, IdsOf(t), PhaseOf(t, d)) {
      assert KeptOk(s.db, IdsOf(s), PhaseOf(s, d));
      if step == Decide(d) {
        DecideEvolves(s, d);
      } else if step == Commit(d) {
        CommitEvolves(s, d);
      } else if HasRun(PhaseOf(t, d)) && !(step.Start? && step.d == d) {
        StepLast(s, step, d);
        KeptEvolves(s.db, IdsOf(s), t.db, IdsOf(t), PhaseOf(s, d));
      }
    }
  }

  // ---------------------------------------------------------------------------------------------
  // Every run
  // ---------------------------------------------------------------------------------------------

  /** No delivery rows yet, no dispatcher running. */
  ghost predicate Init(s: System) {
    && s.db.deliveries == map[] && EventsUnique(s.db.events)
    && s.phases == map[] && s.holder == None
    && IdsUsed(s.db, IdsOf(s))
    && s.history == History([], [], map[], [])
  }

  ghost predicate Execution(states: seq<System>, steps: seq<Step>) {
    && |states| == |steps| + 1
    && Init(states[0])
    && forall i :: 0 <= i < |steps| ==> Enabled(states[i], steps[i]) && states[i + 1] == After(states[i], steps[i])
  }

  lemma {:induction false} ExecutionKeeps(states: seq<System>, steps: seq<Step>, i: nat)
    requires Execution(states, steps) && i < |states|
    ensures Inv(states[i]) && AllKept(states[i])
  {
    if i == 0 {
      var s := states[0];
      assert forall d: nat :: PhaseOf(s, d) == Idle;
      assert forall k :: Balanced(s.history, None, k);
    } else {
      ExecutionKeeps(states, steps, i - 1);
      StepKeeps(states[i - 1], steps[i - 1]);
    }
  }

  /** Pushes accepted for a row are the one its row records as sent, at most one still in flight,
      and one per commit that was lost after its push was accepted. So a row is sent at most once
      unless a process dies between the push and its commit. */
  lemma AcceptedAtMostOnce(states: seq<System>, steps: seq<Step>, i: nat, k: Key)
    requires Execution(states, steps) && i < |states|
    ensures var s := states[i];
            && CountSends(s.history.accepted, k) ==
                 CountKeys(s.history.lost, k) + (if k in s.history.committed then 1 else 0) +
                     (if InFlight(s) == Some(k) then 1 else 0)
            && CountSends(s.history.accepted, k) <= 1 + CountKeys(s.history.lost, k)
            && (k in s.db.deliveries && InFlight(s) != Some(k) ==>
                  CountSends(s.history.accepted, k) ==
                      CountKeys(s.history.lost, k) + if s.db.deliveries[k].sentAt.Some? then 1 else 0)
  {
    ExecutionKeeps(states, steps, i);
    var s := states[i];
    assert Balanced(s.history, InFlight(s), k);
    assert InFlight(s) == Some(k) ==> k in s.db.deliveries;
  }

  lemma {:induction false} CountTwo(sends: seq<Send>, i: nat, j: nat, k: Key)
    requires i < j < |sends| && sends[i].work.key == sends[j].work.key == k
    ensures CountSends(sends, k) >= 2
  {
    if j == |sends| - 1 {
      CountOne(sends[..j], i, k);
    } else {
      CountTwo(sends[..|sends| - 1], i, j, k);
    }
  }

  lemma {:induction false} CountOne(sends: seq<Send>, i: nat, k: Key)
    requires i < |sends| && sends[i].work.key == k
    ensures CountSends(sends, k) >= 1
  {
    if i < |sends| - 1 { CountOne(sends[..|sends| - 1], i, k); }
  }

  /** The same alert text is not accepted twice for the same user, municipality and subscription
      while the event rows exist and no commit was lost. */
  lemma NoRepeatedNotification(states: seq<System>, steps: seq<Step>, n: nat, i: nat, j: nat)
    requires Execution(states, steps) && n < |states|
    requires var h := states[n].history; i < j < |h.accepted| && h.lost == []
    requires var h := states[n].history;
             h.accepted[i].work.event == h.accepted[j].work.event &&
                 h.accepted[i].work.key.1 == h.accepted[j].work.key.1
    ensures var a, b := states[n].history.accepted[i].work.key.0, states[n].history.accepted[j].work.key.0;
            a != b && !(a in states[n].db.events && b in states[n].db.events)
  {
    ExecutionKeeps(states, steps, n);
    var s := states[n];
    var h := s.history;
    var k, k' := h.accepted[i].work.key, h.accepted[j].work.key;
    assert SendKept(s.db, IdsOf(s), h.accepted[i]) && SendKept(s.db, IdsOf(s), h.accepted[j]);
    assert Balanced(h, InFlight(s), k);
    AcceptedAtMostOnce(states, steps, n, k);
    if k == k' {
      CountTwo(h.accepted, i, j, k);
    }
  }

  /** Two attempts on a row are at least the back-off of the earlier one apart, if that was committed. */
  lemma AttemptsSpaced(states: seq<System>, steps: seq<Step>, n: nat, i: nat, j: nat)
    requires Execution(states, steps) && n < |states|
    requires var attempts := states[n].history.attempts;
             i < j < |attempts| && attempts[i].key == attempts[j].key && attempts[i].committed
    ensures var attempts := states[n].history.attempts;
            && attempts[i].count > 0 && attempts[j].at >= attempts[i].at + Backoff(attempts[i].count)
            && attempts[j].at >= attempts[i].at + 600.0
  {
    ExecutionKeeps(states, steps, n);
    BackoffNumbers(states[n].history.attempts[i].count);
  }

  /** Counts stay within the limit, and a row is never both sent and cancelled. */
  lemma RowsStaySound(states: seq<System>, steps: seq<Step>, n: nat, k: Key)
    requires Execution(states, steps) && n < |states| && k in states[n].db.deliveries
    ensures RowOk(states[n].db.deliveries[k])
  {
    ExecutionKeeps(states, steps, n);
  }

  /** A sent or cancelled row never changes again. */
  lemma FinalRowsStay(s: System, step: Step, k: Key)
    requires Inv(s) && Enabled(s, step)
    requires k in s.db.deliveries && k in After(s, step).db.deliveries
    requires s.db.deliveries[k].sentAt.Some? || s.db.deliveries[k].cancelledAt.Some?
    ensures After(s, step).db.deliveries[k] == s.db.deliveries[k]
  {
    match step
    case Decide(d) => DecideLeavesFinal(s, d, k);
    case Commit(d) => CommitLeavesFinal(s, d, k);
    case Enqueue(d, added) => EnqueueLeavesRows(s.db, added, PhaseOf(s, d).startedAt, k);
    case _ =>
  }

  lemma DecideLeavesFinal(s: System, d: nat, k: Key)
    requires DispatchersSound(s) && PhaseOf(s, d).Picked? && k in s.db.deliveries && !Open(s.db.deliveries[k])
    ensures AfterDecide(s, d).db.deliveries[k] == s.db.deliveries[k]
  {
    assert s.holder == Some(d);
  }

  lemma CommitLeavesFinal(s: System, d: nat, k: Key)
    requires DispatchersSound(s) && PhaseOf(s, d).Answered? && k in s.db.deliveries && !Open(s.db.deliveries[k])
    ensures k in AfterCommit(s, d).db.deliveries ==> AfterCommit(s, d).db.deliveries[k] == s.db.deliveries[k]
  {
    assert s.holder == Some(d);
  }

  lemma EnqueueLeavesRows(db: Db, added: map<nat, Event>, now: real, k: Key)
    requires k in db.deliveries
    ensures k in Enqueued(db, added, now).deliveries ==> Enqueued(db, added, now).deliveries[k] == db.deliveries[k]
  { }

  /** What a run returns is the number of rows it committed as sent. */
  lemma ReturnedCount(states: seq<System>, steps: seq<Step>, n: nat, d: nat)
    requires Execution(states, steps) && n < |states| && PhaseOf(states[n], d).Returned?
    ensures var run := PhaseOf(states[n], d).run;
            run.sent == |CommittedBy(states[n].history.committed, run.id)|
  {
    ExecutionKeeps(states, steps, n);
  }
}
