/** What whole runs can and cannot do to one appointment. */
module Lifecycle {
  import opened Wrappers
  import opened Appointments
  import opened Scheduling
  import opened Runs

  predicate IsOpen(s: Status) { s.Pending? || s.Confirmed? }

  /** Once an appointment has left PENDING and CONFIRMED it never returns to either; once closed it never changes. */
  predicate Evolves(before: Row, after: Row) {
    && after.id == before.id && after.business == before.business && after.service == before.service
    && after.client == before.client && after.professional == before.professional
    && after.durationMinutes == before.durationMinutes
    && after.reminderSentAt == before.reminderSentAt
    && (before.IsClosed() ==> after == before)
    && (IsOpen(after.status) ==> IsOpen(before.status) && after.scheduledAt == before.scheduledAt)
    && (after.scheduledAt != before.scheduledAt ==> !after.status.Pending? && !after.status.Confirmed?)
  }

  lemma StepEvolves(db: Db, a: Action, i: nat)
    requires i < |db.rows|
    ensures |Step(db, a).rows| >= |db.rows|
    ensures Evolves(db.rows[i], Step(db, a).rows[i])
    ensures Step(db, a).rows[i].status == db.rows[i].status
         || Follows(db.rows[i].status, Step(db, a).rows[i].status)
    ensures Step(db, a).rows[i] != db.rows[i] ==> (a.Move? || a.Close?) && i == IndexOf(db.rows, a.id)
  {
    match a
    case Book(_, _, _, _, _) => BookEvolves(db, a, i);
    case Move(_, _, _, _, _) =>
    case Close(id, closing, now) =>
      var k := IndexOf(db.rows, id);
      if Step(db, a).rows != db.rows && i == k {
        CloseEvolves(db.rows[k], closing, now);
      }
    case EditService(_, _, _, _) =>
  }

  lemma BookEvolves(db: Db, a: Action, i: nat)
    requires i < |db.rows| && a.Book?
    ensures |Step(db, a).rows| >= |db.rows| && Step(db, a).rows[i] == db.rows[i]
  {
  }

  lemma CloseEvolves(r: Row, closing: Closing, now: int)
    requires CloseRow(r, closing, now).Some?
    ensures var after := CloseRow(r, closing, now).value;
            Evolves(r, after) && Follows(r.status, after.status)
  {
  }

  /**
    COMPLETED and CANCELLED are absorbing with all their fields, the amount
    included; identity, client, service and length of an appointment never change;
    and one that was moved is never pending or confirmed again.
   */
  lemma {:induction false} RunEvolves(db: Db, actions: seq<Action>, i: nat)
    requires i < |db.rows|
    ensures |Run(db, actions).rows| >= |db.rows|
    ensures Evolves(db.rows[i], Run(db, actions).rows[i])
    decreases |actions|
  {
    if actions != [] {
      StepEvolves(db, actions[0], i);
      RunEvolves(Step(db, actions[0]), actions[1..], i);
    }
  }

  /** An appointment that was not live can only come back by being moved. */
  lemma RevivedOnlyByMove(db: Db, a: Action, i: nat)
    requires i < |db.rows| && !db.rows[i].IsLive() && i < |Step(db, a).rows| && Step(db, a).rows[i].IsLive()
    ensures db.rows[i].status.NoShow? && a.Move? && Step(db, a).rows[i].status.Rescheduled?
  {
    StepEvolves(db, a, i);
  }
}
