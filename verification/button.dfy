/** Replies to the buttons of a reminder: the button id is taken apart and the status updated. */
module ReminderButtons {
  import opened Wrappers
  import opened Appointments
  import opened Scheduling

  // ---------- button ids ----------

  predicate Free(s: string, c: char) { forall i :: 0 <= i < |s| ==> s[i] != c }

  /** Position of the first c in s, or |s|. */
  function Find(s: string, c: char): (k: nat)
    ensures k <= |s|
    ensures k < |s| ==> s[k] == c
    ensures forall i :: 0 <= i < k ==> s[i] != c
  {
    if s == "" || s[0] == c then 0 else 1 + Find(s[1..], c)
  }

  datatype Parts = Parts(first: string, action: string, rest: string)

  /** The three parts of a split on at most two underscores, or None if there are fewer. */
  function SplitTwice(s: string): Option<Parts> {
    var i := Find(s, '_');
    if i == |s| then None
    else
      var tail := s[i + 1..];
      var j := Find(tail, '_');
      if j == |tail| then None else Some(Parts(s[..i], tail[..j], tail[j + 1..]))
  }

  function Joined(p: Parts): string { p.first + (['_'] + (p.action + (['_'] + p.rest))) }

  lemma FindFirst(a: string, b: string, c: char)
    requires Free(a, c)
    ensures Find(a + ([c] + b), c) == |a|
    ensures (a + ([c] + b))[..|a|] == a && (a + ([c] + b))[|a| + 1..] == b
  {
    var s := a + ([c] + b);
    assert s[|a|] == c;
    assert forall i :: 0 <= i < |a| ==> s[i] == a[i];
  }

  lemma JoinThenSplit(p: Parts)
    requires Free(p.first, '_') && Free(p.action, '_')
    ensures SplitTwice(Joined(p)) == Some(p)
  {
    FindFirst(p.first, p.action + (['_'] + p.rest), '_');
    FindFirst(p.action, p.rest, '_');
  }

  lemma AroundFirst(s: string, c: char)
    requires Find(s, c) < |s|
    ensures var k := Find(s, c);
            Free(s[..k], c) && s == s[..k] + ([c] + s[k + 1..])
  {
  }

  lemma SplitThenJoin(s: string)
    requires SplitTwice(s).Some?
    ensures var p := SplitTwice(s).value;
            s == Joined(p) && Free(p.first, '_') && Free(p.action, '_')
  {
    var i := Find(s, '_');
    var tail := s[i + 1..];
    var j := Find(tail, '_');
    AroundFirst(s, '_');
    AroundFirst(tail, '_');
    var p := Parts(s[..i], tail[..j], tail[j + 1..]);
    assert SplitTwice(s) == Some(p);
    assert tail == p.action + (['_'] + p.rest);
    assert s == p.first + (['_'] + tail);
  }

  /** Splitting inverts joining, and only what was joined from underscore-free parts splits. */
  lemma SplitInvertsJoin(s: string, p: Parts)
    ensures SplitTwice(s) == Some(p) <==> s == Joined(p) && Free(p.first, '_') && Free(p.action, '_')
  {
    if Free(p.first, '_') && Free(p.action, '_') {
      JoinThenSplit(p);
    }
    if SplitTwice(s) == Some(p) {
      SplitThenJoin(s);
    }
  }

  // ---------- handling ----------

  /** What a button does to the tables: the closing it asks for, if any. */
  function Asked(action: string): Option<Closing> {
    if action == "confirm" then Some(Confirm)
    else if action == "cancel" then Some(ButtonCancel)
    else None
  }

  /** The UUIDs that can be read, by their text. */
  type UuidReader = map<string, Id>

  /** The appointment and closing a button id names, when the reply is dealt with here. */
  function Target(rows: seq<Row>, buttonId: string, uuids: UuidReader): Option<(Id, Closing)> {
    match SplitTwice(buttonId)
    case None => None
    case Some(p) =>
      if p.rest in uuids && IndexOf(rows, uuids[p.rest]) < |rows| && Asked(p.action).Some?
      then Some((uuids[p.rest], Asked(p.action).value))
      else None
  }

  /** The branches of the handler in the order it takes them; an update that is not allowed is skipped in silence. */
  method HandleReminderButton(session: Database, buttonId: string, uuids: UuidReader, now: int) returns (handled: bool)
    modifies session`rows
    ensures handled <==> Target(old(session.rows), buttonId, uuids).Some?
    ensures !handled ==> session.rows == old(session.rows)
    ensures handled ==>
              var (id, closing) := Target(old(session.rows), buttonId, uuids).value;
              session.View() == CloseStep(old(session.View()), id, closing, now).0
  {
    var parts := SplitTwice(buttonId);
    if parts.None? {
      return false;
    }
    var action, idText := parts.value.action, parts.value.rest;
    if action == "reschedule" {
      return false;
    }
    if idText !in uuids {
      return false;
    }
    var k := IndexOf(session.rows, uuids[idText]);
    if k == |session.rows| {
      return false;
    }
    var r := session.rows[k];
    if action == "confirm" {
      if r.status == Pending {
        session.rows := session.rows[k := r.(status := Confirmed)];
      }
    } else if action == "cancel" {
      if r.status == Pending || r.status == Confirmed {
        session.rows := session.rows[k := r.(status := Cancelled, cancelledAt := Some(now))];
      }
    } else {
      return false;
    }
    return true;
  }

  /**
    The buttons of a reminder reach their own appointment: a reply to a button made
    for an action names that appointment and the closing of the action, if there is
    one; a reschedule button, like any other text, is left to the agent. The text in
    front, "rem" in a reminder, is not looked at.
   */
  lemma ButtonsRoundTrip(rows: seq<Row>, p: Parts, uuids: UuidReader)
    requires Free(p.first, '_') && Free(p.action, '_')
    requires p.rest in uuids && IndexOf(rows, uuids[p.rest]) < |rows|
    ensures Target(rows, Joined(p), uuids)
         == match Asked(p.action) case None => None case Some(closing) => Some((uuids[p.rest], closing))
  {
    JoinThenSplit(p);
  }

  /** A reply is dealt with exactly if it is a confirm or cancel button of an appointment there is. */
  lemma HandledIff(rows: seq<Row>, buttonId: string, uuids: UuidReader)
    ensures Target(rows, buttonId, uuids).Some? <==>
            exists first, action, idText ::
              && buttonId == Joined(Parts(first, action, idText)) && Free(first, '_')
              && (action == "confirm" || action == "cancel")
              && idText in uuids && IndexOf(rows, uuids[idText]) < |rows|
  {
    assert Free("confirm", '_') && Free("cancel", '_');
    if Target(rows, buttonId, uuids).Some? {
      SplitThenJoin(buttonId);
    }
    if first, action, idText :|
        && buttonId == Joined(Parts(first, action, idText)) && Free(first, '_')
        && (action == "confirm" || action == "cancel")
        && idText in uuids && IndexOf(rows, uuids[idText]) < |rows| {
      ButtonsRoundTrip(rows, Parts(first, action, idText), uuids);
    }
  }

  lemma ConfirmId(idText: string)
    ensures Joined(Parts("rem", "confirm", idText)) == "rem_confirm_" + idText
  {
    assert "rem_confirm_" == "rem" + (['_'] + ("confirm" + ['_']));
  }

  lemma CancelId(idText: string)
    ensures Joined(Parts("rem", "cancel", idText)) == "rem_cancel_" + idText
  {
    assert "rem_cancel_" == "rem" + (['_'] + ("cancel" + ['_']));
  }

  lemma RescheduleId(idText: string)
    ensures Joined(Parts("rem", "reschedule", idText)) == "rem_reschedule_" + idText
  {
    assert "rem_reschedule_" == "rem" + (['_'] + ("reschedule" + ['_']));
  }

  /** The confirm button names its appointment, and confirms it if it is pending. */
  lemma ConfirmButtonConfirms(db: Db, idText: string, uuids: UuidReader, now: int)
    requires idText in uuids && IndexOf(db.rows, uuids[idText]) < |db.rows|
    ensures var target := Target(db.rows, "rem_confirm_" + idText, uuids);
            var k := IndexOf(db.rows, uuids[idText]);
            target.Some? && CloseStep(db, target.value.0, target.value.1, now).0
                            == if db.rows[k].status == Pending
                               then db.(rows := db.rows[k := db.rows[k].(status := Confirmed)]) else db
  {
    ConfirmId(idText);
    assert Free("rem", '_') && Free("confirm", '_');
    ButtonsRoundTrip(db.rows, Parts("rem", "confirm", idText), uuids);
  }

  /** The cancel button names its appointment, and cancels it if it is pending or confirmed. */
  lemma CancelButtonCancels(db: Db, idText: string, uuids: UuidReader, now: int)
    requires idText in uuids && IndexOf(db.rows, uuids[idText]) < |db.rows|
    ensures var target := Target(db.rows, "rem_cancel_" + idText, uuids);
            var k := IndexOf(db.rows, uuids[idText]);
            target.Some? && CloseStep(db, target.value.0, target.value.1, now).0
                            == if db.rows[k].status == Pending || db.rows[k].status == Confirmed
                               then db.(rows := db.rows[k := db.rows[k].(status := Cancelled,
                                                                          cancelledAt := Some(now))])
                               else db
  {
    CancelId(idText);
    assert Free("rem", '_') && Free("cancel", '_');
    ButtonsRoundTrip(db.rows, Parts("rem", "cancel", idText), uuids);
  }

  /** The reschedule button is left to the agent. */
  lemma RescheduleButtonIsLeft(rows: seq<Row>, idText: string, uuids: UuidReader)
    ensures Target(rows, "rem_reschedule_" + idText, uuids) == None
  {
    RescheduleId(idText);
    assert Free("rem", '_') && Free("reschedule", '_');
    JoinThenSplit(Parts("rem", "reschedule", idText));
    assert "reschedule"[0] == 'r';
  }

  /**
    A reply handled in one go changes a row only from PENDING or CONFIRMED, so one
    to an appointment that was moved or closed before is harmless.
   */
  lemma LateReplyChangesNothing(db: Db, buttonId: string, uuids: UuidReader, now: int)
    requires Target(db.rows, buttonId, uuids).Some?
    ensures var (id, closing) := Target(db.rows, buttonId, uuids).value;
            var r := db.rows[IndexOf(db.rows, id)];
            CloseStep(db, id, closing, now).0 != db
            <==> r.status.Pending? || (r.status.Confirmed? && closing.ButtonCancel?)
  {
    var (id, closing) := Target(db.rows, buttonId, uuids).value;
    var k := IndexOf(db.rows, id);
    var after := CloseStep(db, id, closing, now).0;
    if CloseRow(db.rows[k], closing, now).Some? {
      assert after.rows[k].status != db.rows[k].status;
    }
  }
}
