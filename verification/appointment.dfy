/**
  The appointment aggregate: the row that is stored, the lifecycle rules as
  functions on rows, and the entity whose methods change its fields in place.
  Times are UTC seconds. A rule that raises yields None.
 */
module Appointments {
  import opened Wrappers

  type Id = int

  datatype Status = Pending | Confirmed | Completed | Cancelled | NoShow | Rescheduled

  datatype Row = Row(
    id: Id,
    business: Id,
    service: Id,
    client: Id,
    professional: Option<Id>,
    scheduledAt: int,
    durationMinutes: int,
    status: Status,
    cancelledAt: Option<int>,
    reminderSentAt: Option<int>,
    amountCharged: Option<int>,
    completedAt: Option<int>
  ) {
    function EndsAt(): int { scheduledAt + 60 * durationMinutes }

    /** Active as the occupancy queries define it. */
    predicate IsLive() { status.Pending? || status.Confirmed? || status.Rescheduled? }

    predicate IsClosed() { status.Completed? || status.Cancelled? }

    /** An amount is recorded exactly on completed rows. */
    predicate Valid() {
      && durationMinutes >= 1
      && (amountCharged.Some? <==> status.Completed?)
      && (amountCharged.Some? ==> amountCharged.value >= 0)
    }

    /** The part of a row that only a reschedule may change. */
    function Place(): (Id, Id, Id, Id, Option<Id>, int, int) {
      (id, business, service, client, professional, scheduledAt, durationMinutes)
    }
  }

  function NewRow(id: Id, business: Id, service: Id, client: Id, professional: Option<Id>,
                  scheduledAt: int, durationMinutes: int, now: int): Option<Row>
  {
    if durationMinutes < 1 || scheduledAt <= now then None
    else Some(Row(id, business, service, client, professional, scheduledAt, durationMinutes,
                  Pending, None, None, None, None))
  }

  function ConfirmRow(r: Row): Option<Row> {
    if r.status.Pending? then Some(r.(status := Confirmed)) else None
  }

  function CancelRow(r: Row, now: int): Option<Row> {
    if r.IsClosed() then None else Some(r.(status := Cancelled, cancelledAt := Some(now)))
  }

  function MoveRow(r: Row, at: int, now: int): Option<Row> {
    if r.IsClosed() || at <= now then None else Some(r.(scheduledAt := at, status := Rescheduled))
  }

  function CompleteRow(r: Row, amount: int, now: int): Option<Row> {
    if !r.IsLive() || amount < 0 then None
    else Some(r.(status := Completed, amountCharged := Some(amount), completedAt := Some(now)))
  }

  function NoShowRow(r: Row): Option<Row> {
    if r.IsLive() then Some(r.(status := NoShow)) else None
  }

  /** Statuses a row can pass through in one lifecycle call. */
  predicate Follows(before: Status, after: Status) {
    match after
    case Pending => false
    case Confirmed => before.Pending?
    case Cancelled => !before.Completed? && !before.Cancelled?
    case Rescheduled => !before.Completed? && !before.Cancelled?
    case Completed => before.Pending? || before.Confirmed? || before.Rescheduled?
    case NoShow => before.Pending? || before.Confirmed? || before.Rescheduled?
  }

  /** The entity that the use cases load, mutate and write back. */
  class Appointment {
    const id: Id
    const business: Id
    const service: Id
    const client: Id
    const professional: Option<Id>
    var scheduledAt: int
    var durationMinutes: int
    var status: Status
    var cancelledAt: Option<int>
    var reminderSentAt: Option<int>
    var amountCharged: Option<int>
    var completedAt: Option<int>

    function View(): Row
      reads this
    {
      Row(id, business, service, client, professional, scheduledAt, durationMinutes, status,
          cancelledAt, reminderSentAt, amountCharged, completedAt)
    }

    constructor (r: Row)
      ensures View() == r
    {
      id, business, service, client, professional := r.id, r.business, r.service, r.client, r.professional;
      scheduledAt, durationMinutes, status := r.scheduledAt, r.durationMinutes, r.status;
      cancelledAt, reminderSentAt := r.cancelledAt, r.reminderSentAt;
      amountCharged, completedAt := r.amountCharged, r.completedAt;
    }

    method Confirm() returns (ok: bool)
      modifies this
      ensures ok <==> ConfirmRow(old(View())).Some?
      ensures View() == if ok then ConfirmRow(old(View())).value else old(View())
    {
      if status != Pending {
        return false;
      }
      status := Confirmed;
      return true;
    }

    method Cancel(now: int) returns (ok: bool)
      modifies this
      ensures ok <==> CancelRow(old(View()), now).Some?
      ensures View() == if ok then CancelRow(old(View()), now).value else old(View())
    {
      if status == Completed || status == Cancelled {
        return false;
      }
      status := Cancelled;
      cancelledAt := Some(now);
      return true;
    }

    /**
      The new start is written before the new duration is checked, so a call that
      raises on the duration leaves the entity moved but not marked rescheduled.
     */
    method Reschedule(at: int, newDuration: Option<int>, now: int) returns (ok: bool)
      modifies this
      ensures ok <==> MoveRow(old(View()), at, now).Some? && (newDuration.Some? ==> newDuration.value >= 1)
      ensures ok ==> View() == MoveRow(old(View()), at, now).value
                               .(durationMinutes := if newDuration.Some? then newDuration.value
                                                    else old(durationMinutes))
      ensures !ok ==> View() == if MoveRow(old(View()), at, now).Some? then old(View()).(scheduledAt := at)
                                else old(View())
    {
      if status == Completed || status == Cancelled {
        return false;
      }
      if at <= now {
        return false;
      }
      scheduledAt := at;
      if newDuration.Some? {
        if newDuration.value < 1 {
          return false;
        }
        durationMinutes := newDuration.value;
      }
      status := Rescheduled;
      return true;
    }

    method Complete(amount: int, now: int) returns (ok: bool)
      modifies this
      ensures ok <==> CompleteRow(old(View()), amount, now).Some?
      ensures View() == if ok then CompleteRow(old(View()), amount, now).value else old(View())
    {
      if status != Pending && status != Confirmed && status != Rescheduled {
        return false;
      }
      if amount < 0 {
        return false;
      }
      status := Completed;
      amountCharged := Some(amount);
      completedAt := Some(now);
      return true;
    }

    method MarkNoShow() returns (ok: bool)
      modifies this
      ensures ok <==> NoShowRow(old(View())).Some?
      ensures View() == if ok then NoShowRow(old(View())).value else old(View())
    {
      if status != Pending && status != Confirmed && status != Rescheduled {
        return false;
      }
      status := NoShow;
      return true;
    }
  }
}
