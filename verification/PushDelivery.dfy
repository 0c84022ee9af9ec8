/** One push delivery: what an attempt does to its row. */
module PushDelivery {
  import opened Options

  const MAX_ATTEMPTS: nat := 5
  const MAX_DELAY: real := 3600.0

  datatype Delivery = Delivery(
    attempts: nat,
    nextAttemptAt: real,
    sentAt: Option<real>,
    cancelledAt: Option<real>)

  /** Answers of the push service. */
  datatype Outcome =
    | Accepted
    | Refused(status: Option<int>)
    | Unreachable
    | Misconfigured

  /** Whole seconds the alert is still valid, at most an hour; 0 when less than one is left. */
  function Ttl(expires: real, now: real): int {
    var left := expires - now;
    if left < 1.0 then 0 else if left >= MAX_DELAY then 3600 else left.Floor
  }

  function PowerOfTwo(n: nat): nat { if n == 0 then 1 else 2 * PowerOfTwo(n - 1) }

  /** Seconds to wait after the attempt that brought the count to `attempts`. */
  function Backoff(attempts: nat): real
    requires attempts > 0
  {
    var delay := (600 * PowerOfTwo(attempts - 1)) as real;
    if delay < MAX_DELAY then delay else MAX_DELAY
  }

  function Status(outcome: Outcome): Option<int> {
    if outcome.Refused? then outcome.status else None
  }

  predicate Gone(outcome: Outcome) {
    Status(outcome) == Some(404) || Status(outcome) == Some(410)
  }

  /** Failures that say nothing about the device: they end the batch and cost no attempt. */
  predicate StopsBatch(outcome: Outcome) {
    || outcome.Misconfigured?
    || Status(outcome) == Some(401) || Status(outcome) == Some(403) || Status(outcome) == Some(429)
  }

  /** The row after an attempt at `now`; `None` when the subscription and its rows are removed. */
  function Settled(row: Delivery, now: real, outcome: Outcome): (after: Option<Delivery>)
  {
    var attempts := row.attempts + 1;
    if outcome.Accepted? then Some(row.(attempts := attempts, sentAt := Some(now)))
    else if Gone(outcome) then None
    else
      var counted :=
        if Status(outcome) == Some(400) then MAX_ATTEMPTS
        else if StopsBatch(outcome) then row.attempts
        else attempts;
      Some(row.(attempts := counted, nextAttemptAt := now + Backoff(attempts)))
  }

  /** The stored row after a flush: of the mapped object, only what has changed since it was loaded is
      written. The object may have been loaded before the row was last changed. */
  function Flushed(stored: Delivery, loaded: Delivery, mapped: Delivery): Delivery {
    Delivery(
      if mapped.attempts != loaded.attempts then mapped.attempts else stored.attempts,
      if mapped.nextAttemptAt != loaded.nextAttemptAt then mapped.nextAttemptAt else stored.nextAttemptAt,
      if mapped.sentAt != loaded.sentAt then mapped.sentAt else stored.sentAt,
      if mapped.cancelledAt != loaded.cancelledAt then mapped.cancelledAt else stored.cancelledAt)
  }

  /** The mapped row, with the fields the dispatch loop writes. */
  class DeliveryRow {
    var attempts: nat
    var nextAttemptAt: real
    var sentAt: Option<real>
    var cancelledAt: Option<real>

    ghost function Value(): Delivery
      reads this
    {
      Delivery(attempts, nextAttemptAt, sentAt, cancelledAt)
    }

    constructor (now: real)
      ensures Value() == Delivery(0, now, None, None)
    {
      attempts, nextAttemptAt := 0, now;
      sentAt, cancelledAt := None, None;
    }

    method Cancel(now: real)
      modifies this
      ensures Value() == old(Value()).(cancelledAt := Some(now))
    {
      cancelledAt := Some(now);
    }

    /** The attempt itself: counted before the send, corrected after the answer. */
    method Attempt(now: real, outcome: Outcome) returns (removed: bool, stop: bool, sent: bool)
      modifies this
      ensures removed == Settled(old(Value()), now, outcome).None?
      ensures !removed ==> Value() == Settled(old(Value()), now, outcome).value
      ensures stop == StopsBatch(outcome) && sent == outcome.Accepted?
      ensures removed <==> outcome == Refused(Some(404)) || outcome == Refused(Some(410))
      ensures outcome == Accepted ==>
                Value() == old(Value()).(attempts := old(attempts) + 1, sentAt := Some(now)) && sent && !stop
      ensures outcome == Refused(Some(400)) ==> attempts == 5 && !stop
      ensures outcome in {Refused(Some(401)), Refused(Some(403)), Refused(Some(429)), Misconfigured} ==>
                attempts == old(attempts) && stop
      ensures !removed && outcome != Refused(Some(400)) &&
              outcome !in {Refused(Some(401)), Refused(Some(403)), Refused(Some(429)), Misconfigured} ==>
                attempts == old(attempts) + 1 && !stop
      ensures !removed && outcome != Accepted ==>
                && sentAt == old(sentAt) && cancelledAt == old(cancelledAt) && !sent
                && nextAttemptAt == now + (match old(attempts)
                                           case 0 => 600.0 case 1 => 1200.0 case 2 => 2400.0 case _ => 3600.0)
    {
      BackoffNumbers(attempts + 1);
      removed, stop, sent := false, false, false;
      attempts := attempts + 1;
      if outcome.Accepted? {
        sentAt := Some(now);
        sent := true;
      } else {
        var status := Status(outcome);
        if status == Some(404) || status == Some(410) {
          removed := true;
        } else {
          nextAttemptAt := now + Backoff(attempts);
          if status == Some(400) {
            attempts := MAX_ATTEMPTS;
          }
          if status == Some(401) || status == Some(403) || status == Some(429) || outcome.Misconfigured? {
            attempts := attempts - 1;
            stop := true;
          }
        }
      }
    }

    /** One pass of the loop over a pending row. `due` tells that the alert is unchanged and its target
        eligible; a row not due, or with less than a second to live, is cancelled instead of sent. */
    method Handle(due: bool, expires: real, now: real, outcome: Outcome) returns (removed: bool, stop: bool, sent: bool)
      modifies this
      ensures if due && now + 1.0 <= expires
              then && (removed <==> outcome in {Refused(Some(404)), Refused(Some(410))})
                   && (stop <==> outcome in {Refused(Some(401)), Refused(Some(403)), Refused(Some(429)), Misconfigured})
                   && sent == outcome.Accepted?
                   && (!removed ==> Some(Value()) == Settled(old(Value()), now, outcome))
              else !removed && !stop && !sent && Value() == old(Value()).(cancelledAt := Some(now))
    {
      if !due || Ttl(expires, now) == 0 {
        Cancel(now);
        return false, false, false;
      }
      removed, stop, sent := Attempt(now, outcome);
    }
  }

  // ---------------------------------------------------------------------------------------------
  // One row over its life
  // ---------------------------------------------------------------------------------------------

  ghost predicate RowOk(row: Delivery) {
    row.attempts <= MAX_ATTEMPTS && (row.sentAt.None? || row.cancelledAt.None?)
  }

  /** Rows that the next-pending query may return. */
  predicate Open(row: Delivery) {
    row.sentAt.None? && row.cancelledAt.None? && row.attempts < MAX_ATTEMPTS
  }

  /** Ten minutes, doubled by every attempt, and at most an hour. */
  lemma BackoffNumbers(attempts: nat)
    requires attempts > 0
    ensures Backoff(attempts) == match attempts case 1 => 600.0 case 2 => 1200.0 case 3 => 2400.0 case _ => 3600.0
  {
    if attempts >= 4 { PowerFromEight(attempts - 1); }
  }

  lemma {:induction false} PowerFromEight(n: nat)
    requires n >= 3
    ensures PowerOfTwo(n) >= 8
  {
    if n > 3 { PowerFromEight(n - 1); }
  }

  /** The time to live is zero exactly in the last second, else as many whole seconds as are left, up to an hour. */
  lemma TtlMeans(expires: real, now: real)
    ensures Ttl(expires, now) == 0 <==> now + 1.0 > expires
    ensures now + 1.0 <= expires ==> 1 <= Ttl(expires, now) <= 3600 && now + Ttl(expires, now) as real <= expires
    ensures Ttl(expires, now) < 3600 ==> expires < now + Ttl(expires, now) as real + 1.0
  { }

  lemma BackoffPositive(attempts: nat)
    requires attempts > 0
    ensures Backoff(attempts) > 0.0
  {
    PowerPositive(attempts - 1);
  }

  lemma PowerPositive(n: nat)
    ensures PowerOfTwo(n) >= 1
  { }

  /** An attempt on an open row keeps the count in range, never marks a row both sent and
      cancelled, costs an attempt exactly when the failure is the device's, and delays the next
      attempt by the back-off unless the row was sent. */
  lemma SettledFacts(row: Delivery, now: real, outcome: Outcome)
    requires Open(row)
    ensures var after := Settled(row, now, outcome);
            && (after.None? <==> outcome in {Refused(Some(404)), Refused(Some(410))})
            && (after.Some? ==>
                  && RowOk(after.value)
                  && (after.value.sentAt.Some? <==> outcome.Accepted?)
                  && after.value.cancelledAt.None?
                  && (after.value.attempts == row.attempts <==>
                         outcome in {Refused(Some(401)), Refused(Some(403)), Refused(Some(429)), Misconfigured})
                  && (outcome.Accepted? || after.value.nextAttemptAt == now + Backoff(row.attempts + 1) > now))
  {
    BackoffPositive(row.attempts + 1);
  }

  /** What is stored after an attempt on an open row, made with an object that may be older than the row:
      the row stays in range and is never both sent and cancelled; the sender's own failures leave the
      stored count; and the next attempt is put off by the back-off that the object counted. */
  lemma FlushedFacts(stored: Delivery, loaded: Delivery, now: real, outcome: Outcome)
    requires Open(stored) && Open(loaded) && loaded.nextAttemptAt <= stored.nextAttemptAt <= now && !Gone(outcome)
    ensures var after := Flushed(stored, loaded, Settled(loaded, now, outcome).value);
            && RowOk(after)
            && (after.sentAt.Some? <==> outcome.Accepted?)
            && after.cancelledAt.None?
            && (if outcome in {Refused(Some(401)), Refused(Some(403)), Refused(Some(429)), Misconfigured}
                then after.attempts == stored.attempts else after.attempts > loaded.attempts)
            && (outcome.Accepted? ==> after.nextAttemptAt == stored.nextAttemptAt)
            && (!outcome.Accepted? ==> after.nextAttemptAt == now + Backoff(loaded.attempts + 1))
            && after.nextAttemptAt >= stored.nextAttemptAt
  {
    SettledFacts(loaded, now, outcome);
    BackoffPositive(loaded.attempts + 1);
  }
}
