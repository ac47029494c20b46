/** The `users` table of bot.py as an in-memory map from user id to row:
    `get_user` is get-or-insert-default and `set_group`, `set_reminder`
    and `set_hour` are `UPDATE ... WHERE user_id = ?` statements, each
    touching one column of at most one row. */
module Users {

  type UserId = int

  /** One row: the exam round, the exam group key, whether the daily
      reminder is on, and the reminder hour (Iran time). */
  datatype UserRow = UserRow(round: string, grp: string, remindEnabled: bool, hour: int)

  /** The column defaults of the `CREATE TABLE` statement. */
  const DefaultRow: UserRow := UserRow("r1", "exp", false, 8)

  type Table = map<UserId, UserRow>

  /** The table after a call, and the row the call returned. */
  datatype Fetched = Fetched(table: Table, row: UserRow)

  /** `get_user`: the stored row of a known user, leaving the table alone;
      for an unknown user, a new row with the column defaults is inserted
      and returned. */
  function GetUser(t: Table, uid: UserId): (f: Fetched)
    ensures uid in f.table && f.row == f.table[uid]
    ensures f.table.Keys == t.Keys + {uid}
    ensures forall u :: u in t ==> f.table[u] == t[u]
    ensures uid !in t ==> f.row == DefaultRow
  {
    if uid in t then Fetched(t, t[uid])
    else Fetched(t[uid := DefaultRow], DefaultRow)
  }

  /** Two rows that agree on every column except possibly the group. */
  predicate SameButGroup(a: UserRow, b: UserRow) {
    a.round == b.round && a.remindEnabled == b.remindEnabled && a.hour == b.hour
  }

  /** `set_group`: changes the `grp` column of the row of `uid`, and
      nothing at all when there is no such row. */
  function SetGroup(t: Table, uid: UserId, grp: string): (t': Table)
    ensures t'.Keys == t.Keys
    ensures forall u :: u in t && u != uid ==> t'[u] == t[u]
    ensures uid in t ==> t'[uid].grp == grp && SameButGroup(t'[uid], t[uid])
    ensures uid !in t ==> t' == t
  {
    if uid in t then t[uid := t[uid].(grp := grp)] else t
  }

  /** `set_reminder`: changes the `remind_enabled` column of the row of
      `uid`, and nothing at all when there is no such row. */
  function SetReminder(t: Table, uid: UserId, enabled: bool): (t': Table)
    ensures t'.Keys == t.Keys
    ensures forall u :: u in t && u != uid ==> t'[u] == t[u]
    ensures uid in t ==>
      && t'[uid].remindEnabled == enabled
      && t'[uid].round == t[uid].round && t'[uid].grp == t[uid].grp
      && t'[uid].hour == t[uid].hour
    ensures uid !in t ==> t' == t
  {
    if uid in t then t[uid := t[uid].(remindEnabled := enabled)] else t
  }

  /** `set_hour`: changes the `reminder_hour_irt` column of the row of
      `uid`, and nothing at all when there is no such row. */
  function SetHour(t: Table, uid: UserId, hour: int): (t': Table)
    ensures t'.Keys == t.Keys
    ensures forall u :: u in t && u != uid ==> t'[u] == t[u]
    ensures uid in t ==>
      && t'[uid].hour == hour
      && t'[uid].round == t[uid].round && t'[uid].grp == t[uid].grp
      && t'[uid].remindEnabled == t[uid].remindEnabled
    ensures uid !in t ==> t' == t
  {
    if uid in t then t[uid := t[uid].(hour := hour)] else t
  }

  /** A second `get_user` for the same id writes nothing and returns the
      same row as the first. */
  lemma GetUserIdempotent(t: Table, uid: UserId)
    ensures var f := GetUser(t, uid);
      GetUser(f.table, uid) == f
  {
  }

  /** What a setter writes is what the next `get_user` reads back, for a
      user that has a row. */
  lemma SettersReadBack(t: Table, uid: UserId, grp: string, enabled: bool, hour: int)
    requires uid in t
    ensures GetUser(SetGroup(t, uid, grp), uid).row.grp == grp
    ensures GetUser(SetReminder(t, uid, enabled), uid).row.remindEnabled == enabled
    ensures GetUser(SetHour(t, uid, hour), uid).row.hour == hour
  {
  }

  /** The setters write disjoint columns, so their order does not matter. */
  lemma SettersCommute(t: Table, uid: UserId, grp: string, enabled: bool, hour: int)
    ensures SetGroup(SetHour(t, uid, hour), uid, grp) == SetHour(SetGroup(t, uid, grp), uid, hour)
    ensures SetGroup(SetReminder(t, uid, enabled), uid, grp)
         == SetReminder(SetGroup(t, uid, grp), uid, enabled)
    ensures SetHour(SetReminder(t, uid, enabled), uid, hour)
         == SetReminder(SetHour(t, uid, hour), uid, enabled)
  {
  }
}
