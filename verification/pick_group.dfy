/** `pick_group`, the callback handler behind the group keyboard: it reads
    the key out of the callback data, stores it as the user's group, and
    answers with the group's name, the exam instant and the time left. */
module GroupPick {
  import opened Wrappers
  import Users
  import Exams
  import Countdown

  /** The text the handler edits in: group name, exam instant, time left. */
  datatype PickReply = PickReply(groupName: string, target: Countdown.Instant, left: string)

  /** The table after the handler, and its reply; `None` where a lookup
      raised `KeyError` after the table was already written. */
  datatype Picked = Picked(table: Users.Table, reply: Option<PickReply>)

  /** The dispatcher only routes callback data starting with `group:`. */
  predicate IsGroupCallback(data: string) {
    |data| >= 6 && data[..6] == "group:"
  }

  /** The key `data.split(":")[1]` extracts from routed callback data. */
  function CallbackKey(data: string): (k: string)
    requires IsGroupCallback(data)
    ensures ':' !in k
  {
    assert data[5] == ':';
    Exams.ParseGroupCallback(data).value
  }

  /** The tail both versions share: `get_user`, `target_dt_for`, then the
      reply naming `GROUPS[grp]`. */
  function Answer(t: Users.Table, uid: Users.UserId, grp: string,
                  toInstant: Exams.Converter, now: Countdown.Instant): (p: Picked)
    ensures p.table == Users.GetUser(t, uid).table
    ensures p.reply.Some? <==>
      grp in Exams.Groups && Exams.Scheduled(Users.GetUser(t, uid).row)
    ensures p.reply.Some? ==>
      var row := Users.GetUser(t, uid).row;
      var s := Exams.Schedule[row.round][row.grp];
      && p.reply.value.groupName == Exams.Groups[grp]
      && p.reply.value.target == toInstant(s.jdate, s.hour, s.minute)
      && p.reply.value.left == Countdown.HumanLeftText(p.reply.value.target, now)
  {
    var f := Users.GetUser(t, uid);
    var tgt := Exams.TargetFor(f.row, toInstant);
    if tgt.None? || grp !in Exams.Groups then Picked(f.table, None)
    else Picked(f.table, Some(PickReply(Exams.Groups[grp], tgt.value,
                                        Countdown.HumanLeftText(tgt.value, now))))
  }

  /** `pick_group` as written: `set_group` first, then `get_user`. The
      `UPDATE` finds no row for a user the table does not know, so
      `get_user` then inserts the default group and the choice is lost. */
  function PickGroupAsWritten(t: Users.Table, uid: Users.UserId, data: string,
                              toInstant: Exams.Converter, now: Countdown.Instant): (p: Picked)
    requires IsGroupCallback(data)
    ensures uid in p.table && p.table.Keys == t.Keys + {uid}
    ensures forall u :: u in t && u != uid ==> p.table[u] == t[u]
    ensures uid in t ==> p.table[uid].grp == CallbackKey(data)
    ensures uid in t ==> Users.SameButGroup(p.table[uid], t[uid])
    ensures uid !in t ==> p.table[uid] == Users.DefaultRow
  {
    var grp := CallbackKey(data);
    Answer(Users.SetGroup(t, uid, grp), uid, grp, toInstant, now)
  }

  /** The discrepancy: a user without a row taps "math", is told that math
      was registered, but is stored with, and shown the exam date of, the
      default group `exp`. */
  lemma AsWrittenLosesNewUsersChoice(toInstant: Exams.Converter, now: Countdown.Instant)
    ensures var p := PickGroupAsWritten(map[], 7, Exams.GroupCallback("math"), toInstant, now);
      var exp := Exams.Schedule["r1"]["exp"];
      && p.table[7].grp == "exp"
      && p.reply.Some?
      && p.reply.value.groupName == Exams.Groups["math"]
      && p.reply.value.target == toInstant(exp.jdate, exp.hour, exp.minute)
  {
    var data := Exams.GroupCallback("math");
    Exams.GroupCallbackRoundTrip("math");
    Exams.DefaultRowScheduled();
    assert "math" in Exams.Groups;
    assert CallbackKey(data) == "math";
    assert PickGroupAsWritten(map[], 7, data, toInstant, now) == Answer(map[], 7, "math", toInstant, now);
  }

  /** `pick_group` as evidently intended: make sure the row exists, then
      store the chosen group, so the choice is kept for every user. */
  function PickGroup(t: Users.Table, uid: Users.UserId, data: string,
                     toInstant: Exams.Converter, now: Countdown.Instant): (p: Picked)
    requires IsGroupCallback(data)
    ensures uid in p.table && p.table.Keys == t.Keys + {uid}
    ensures forall u :: u in t && u != uid ==> p.table[u] == t[u]
    ensures p.table[uid].grp == CallbackKey(data)
    ensures uid in t ==> Users.SameButGroup(p.table[uid], t[uid])
    ensures uid !in t ==> Users.SameButGroup(p.table[uid], Users.DefaultRow)
  {
    var grp := CallbackKey(data);
    var f := Users.GetUser(t, uid);
    Answer(Users.SetGroup(f.table, uid, grp), uid, grp, toInstant, now)
  }

  /** For any button of the group keyboard, and any table whose rows are
      all schedulable, the intended handler stores the pressed group,
      keeps the table schedulable, and answers with that group's name and
      that group's exam instant. */
  lemma PickGroupAnswersPressedGroup(t: Users.Table, uid: Users.UserId, key: string,
                                     toInstant: Exams.Converter, now: Countdown.Instant)
    requires Exams.WellFormed(t)
    requires key in Exams.OfferedKeys()
    ensures IsGroupCallback(Exams.GroupCallback(key))
    ensures var p := PickGroup(t, uid, Exams.GroupCallback(key), toInstant, now);
      var s := Exams.Schedule["r1"][key];
      && p.table[uid].grp == key
      && Exams.WellFormed(p.table)
      && p.reply.Some?
      && p.reply.value.groupName == Exams.Groups[key]
      && p.reply.value.target == toInstant(s.jdate, s.hour, s.minute)
  {
    Exams.KeyboardIsComplete();
    var data := Exams.GroupCallback(key);
    assert data[..6] == "group:";
    assert CallbackKey(data) == key;
    var f := Users.GetUser(t, uid);
    Exams.TableOperationsKeepWellFormed(t, uid, key, false, 0, toInstant);
    Exams.TableOperationsKeepWellFormed(f.table, uid, key, false, 0, toInstant);
    assert Exams.Schedule.Keys == {"r1"};
  }
}
