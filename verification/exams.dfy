/** The static tables of bot.py (`GROUPS`, `ROUNDS`, `SCHEDULE`), the
    group keyboard with its `group:<key>` callback data, and
    `target_dt_for`, which looks a user's exam up in the schedule. */
module Exams {
  import opened Wrappers
  import Text
  import Users
  import Countdown

  /** A Jalali (Persian calendar) date. */
  datatype JDate = JDate(year: int, month: int, day: int)

  /** One scheduled exam: its Jalali date and its start time, Iran time. */
  datatype Slot = Slot(jdate: JDate, hour: int, minute: int)

  /** `GROUPS`: exam-group key to its Persian display name. */
  const Groups: map<string, string> := map[
    "math" := "ریاضی",
    "human" := "انسانی",
    "exp" := "تجربی",
    "art" := "هنر",
    "lang" := "زبان"
  ]

  /** `ROUNDS`: exam-round key to its display name. */
  const Rounds: map<string, string> := map["r1" := "کنکور ۱۴۰۵ (تیر)"]

  /** `SCHEDULE`: round, then group, to the official exam slot. */
  const Schedule: map<string, map<string, Slot>> := map[
    "r1" := map[
      "math" := Slot(JDate(1405, 4, 11), 8, 0),
      "human" := Slot(JDate(1405, 4, 11), 8, 0),
      "art" := Slot(JDate(1405, 4, 11), 14, 30),
      "exp" := Slot(JDate(1405, 4, 12), 8, 0),
      "lang" := Slot(JDate(1405, 4, 12), 14, 30)
    ]
  ]

  /** A slot that names a real clock time on a possible Jalali date: the
      first six months have 31 days, the rest at most 30. */
  predicate ValidSlot(s: Slot) {
    && 0 <= s.hour < 24
    && 0 <= s.minute < 60
    && 1 <= s.jdate.month <= 12
    && 1 <= s.jdate.day <= (if s.jdate.month <= 6 then 31 else 30)
  }

  /** Every entry of the schedule is a valid slot, and every round of the
      schedule is a known round. */
  lemma ScheduleValid()
    ensures forall r :: r in Schedule ==> r in Rounds
    ensures forall r, g :: r in Schedule && g in Schedule[r] ==> ValidSlot(Schedule[r][g])
  {
    assert Schedule.Keys == {"r1"};
    var m := Schedule["r1"];
    assert m.Keys == {"math", "human", "art", "exp", "lang"};
  }

  /** The Jalali-to-absolute conversion (`jdate_to_local_dt`): a Jalali
      date and an Iran-time hour and minute to an absolute instant. */
  type Converter = (JDate, int, int) -> Countdown.Instant

  /** `target_dt_for`: the exam instant of a user's round and group, or
      `None` where the dictionary lookup raises `KeyError`. */
  function TargetFor(user: Users.UserRow, toInstant: Converter): (t: Option<Countdown.Instant>)
    ensures t.Some? <==> user.round in Schedule && user.grp in Schedule[user.round]
    ensures t.Some? ==>
      var s := Schedule[user.round][user.grp];
      t.value == toInstant(s.jdate, s.hour, s.minute)
  {
    if user.round in Schedule && user.grp in Schedule[user.round] then
      var s := Schedule[user.round][user.grp];
      Some(toInstant(s.jdate, s.hour, s.minute))
    else None
  }

  // ---------------------------------------------------------------------
  // The group keyboard and its callback data
  // ---------------------------------------------------------------------

  /** An inline button: the label shown and the callback data sent back. */
  datatype Button = Button(text: string, data: string)

  /** The group keys in the layout `choose_group_inline` lays them out. */
  const KeyboardLayout: seq<seq<string>> := [["math", "human"], ["exp"], ["art", "lang"]]

  /** The callback data of the button for group `key`. */
  function GroupCallback(key: string): string {
    "group:" + key
  }

  /** `choose_group_inline`: one button per key of the layout, labelled
      with the group's name and carrying its callback data. */
  function GroupKeyboard(): (kb: seq<seq<Button>>)
    ensures |kb| == |KeyboardLayout|
    ensures forall i :: 0 <= i < |kb| ==> |kb[i]| == |KeyboardLayout[i]|
    ensures forall i, j :: 0 <= i < |kb| && 0 <= j < |kb[i]| ==>
      var k := KeyboardLayout[i][j];
      k in Groups && kb[i][j] == Button(Groups[k], GroupCallback(k))
  {
    seq(|KeyboardLayout|, i requires 0 <= i < |KeyboardLayout| =>
      seq(|KeyboardLayout[i]|, j requires 0 <= j < |KeyboardLayout[i]| =>
        var k := KeyboardLayout[i][j];
        Button(Groups[k], GroupCallback(k))))
  }

  /** The keys the keyboard offers. */
  function OfferedKeys(): set<string> {
    set i, j | 0 <= i < |KeyboardLayout| && 0 <= j < |KeyboardLayout[i]| :: KeyboardLayout[i][j]
  }

  /** `data.split(":")[1]` in `pick_group`: the group key a callback
      carries, or `None` where the index raises `IndexError`. */
  function ParseGroupCallback(data: string): (k: Option<string>)
    ensures k.Some? <==> ':' in data
    ensures k.Some? ==> ':' !in k.value
  {
    var parts := Text.Split(data, ':');
    Text.JoinSplit(data, ':');
    if |parts| >= 2 then
      assert data[|parts[0]|] == ':';
      Some(parts[1])
    else
      assert Text.Join(parts, ':') == parts[0];
      None
  }

  /** Round trip: the key of any group callback is read back unchanged,
      as long as the key itself has no colon. */
  lemma {:induction false} GroupCallbackRoundTrip(key: string)
    requires ':' !in key
    ensures ParseGroupCallback(GroupCallback(key)) == Some(key)
  {
    var parts := ["group", key];
    assert Text.Join(parts, ':') == GroupCallback(key);
    Text.SplitJoin(parts, ':');
  }

  /** The keyboard offers exactly the groups of `GROUPS`, every offered key
      is scheduled in round `r1`, and pressing any button hands
      `pick_group` back the key the button was made for. */
  lemma KeyboardIsComplete()
    ensures OfferedKeys() == Groups.Keys
    ensures forall k :: k in OfferedKeys() ==> k in Schedule["r1"]
    ensures forall k :: k in OfferedKeys() ==> ParseGroupCallback(GroupCallback(k)) == Some(k)
  {
    assert KeyboardLayout[0][0] == "math" && KeyboardLayout[0][1] == "human";
    assert KeyboardLayout[1][0] == "exp";
    assert KeyboardLayout[2][0] == "art" && KeyboardLayout[2][1] == "lang";
    assert OfferedKeys() == {"math", "human", "exp", "art", "lang"};
    assert Groups.Keys == {"math", "human", "exp", "art", "lang"};
    forall k | k in OfferedKeys() ensures ParseGroupCallback(GroupCallback(k)) == Some(k) {
      GroupCallbackRoundTrip(k);
    }
  }

  // ---------------------------------------------------------------------
  // Rows the lookup can always serve
  // ---------------------------------------------------------------------

  /** A row whose round and group are both in the schedule. */
  predicate Scheduled(row: Users.UserRow) {
    row.round in Schedule && row.grp in Schedule[row.round]
  }

  /** A new user's default round and group have an exam in the schedule. */
  lemma DefaultRowScheduled()
    ensures Scheduled(Users.DefaultRow)
  {
    assert "exp" in Schedule["r1"];
  }

  /** Every row of the table can be looked up in the schedule. */
  predicate WellFormed(t: Users.Table) {
    forall u :: u in t ==> Scheduled(t[u])
  }

  /** `get_user`, the setters of the reminder columns, and `set_group`
      with a key the keyboard offers all keep every row schedulable, so
      `target_dt_for` never raises for a user of such a table. */
  lemma TableOperationsKeepWellFormed(t: Users.Table, uid: Users.UserId, key: string,
                                      enabled: bool, hour: int, toInstant: Converter)
    requires WellFormed(t)
    requires key in OfferedKeys()
    ensures WellFormed(Users.GetUser(t, uid).table)
    ensures TargetFor(Users.GetUser(t, uid).row, toInstant).Some?
    ensures WellFormed(Users.SetReminder(t, uid, enabled))
    ensures WellFormed(Users.SetHour(t, uid, hour))
    ensures WellFormed(Users.SetGroup(t, uid, key))
  {
    KeyboardIsComplete();
    assert Schedule.Keys == {"r1"};
  }
}
