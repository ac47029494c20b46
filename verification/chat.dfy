/** `handle_message` of main.py: the per-chat dispatcher of the planner
    bot. Each chat has a reminder record (its reminders, the setup step,
    and the exam waiting for a time) and a study log; one incoming text
    moves the state and produces the replies sent back to that chat. */
module Chat {
  import opened Wrappers
  import Text

  type ChatId = int

  /** The reminder-setup step: `None`, `"choose_exam"` or `"set_time"`. */
  datatype Step = Idle | ChooseExam | SetTime

  /** One scheduled reminder as the listing shows it. */
  datatype Reminder = Reminder(exam: string, time: string)

  /** A chat's entry of `user_reminders`. */
  datatype ReminderState = ReminderState(reminders: seq<Reminder>, step: Step, pendingExam: Option<string>)

  /** The record `user_reminders` starts a chat with. */
  const FreshReminders: ReminderState := ReminderState([], Idle, None)

  /** One entry of a chat's study log; the duration is whatever the number
      parser made of the fourth field. */
  datatype StudyEntry = StudyEntry(subject: string, start: string, end: string, duration: real)

  /** The two process-wide dictionaries, keyed by chat id. */
  datatype State = State(reminders: map<ChatId, ReminderState>, study: map<ChatId, seq<StudyEntry>>)

  /** The keyboard attached to a reply. */
  datatype Markup = Plain | MainMenu | ExamMenu(includeReminderManage: bool) | StudyMenu

  /** What a reply says; the Persian wording is left abstract. */
  datatype Msg =
    | BackToMenu
    | ReminderSet(exam: Option<string>, time: string)
    | BadTimeFormat
    | Greeting
    | PickExam
    | StudySection
    | AskReminderExam
    | NoReminders
    | ReminderLine(reminder: Reminder)
    | AskReminderTime(examName: string)
    | CountdownText(text: string)
    | StudyFormatHelp
    | NoStudyYet
    | Progress(logs: seq<StudyEntry>)
    | NothingToDelete
    | StudyLine(entry: StudyEntry)
    | StudySaved(entry: StudyEntry)
    | WrongFormat
    | SaveFailed

  /** `send_message` with a keyboard, or `send_message_inline` with one
      inline button carrying callback data. */
  datatype Reply = Send(msg: Msg, markup: Markup) | SendInline(msg: Msg, callback: string)

  /** The collaborators `handle_message` calls and that are not part of
      this model: `schedule_reminder` (given the chat's current reminders,
      it yields the new list, or `None` where it raises), `get_countdown`,
      and `float` on the duration field (`None` where it raises). */
  datatype Env = Env(
    scheduleReminder: (ChatId, Option<string>, string, seq<Reminder>) -> Option<seq<Reminder>>,
    countdown: string -> string,
    parseDuration: string -> Option<real>)

  /** The state after one message and the replies sent, in order. */
  datatype Transition = Transition(next: State, replies: seq<Reply>)

  // ---------------------------------------------------------------------
  // The texts the dispatcher matches
  // ---------------------------------------------------------------------

  /** The label of the back button. */
  const BackLabel: string := "⬅️ بازگشت"
  /** The two spellings of the start command. */
  const StartLabels: seq<string> := ["شروع", "/start"]
  /** The label of the "how many days to the exam" menu button. */
  const CountdownMenuLabel: string := "🔎 چند روز تا کنکور؟"
  /** The label of the study-planning menu button. */
  const PlanningLabel: string := "📖 برنامه‌ریزی"
  /** The label of the "remind me" button. */
  const RemindMeLabel: string := "🔔 بهم یادآوری کن!"
  /** The label of the "manage reminders" button. */
  const ManageRemindersLabel: string := "❌ مدیریت یادآوری‌ها"
  /** The label of the "log a study session" button. */
  const AddStudyLabel: string := "➕ ثبت مطالعه"
  /** The label of the "show progress" button. */
  const ProgressLabel: string := "📊 مشاهده پیشرفت"
  /** The label of the "delete a study session" button. */
  const DeleteStudyLabel: string := "🗑️ حذف مطالعه"
  /** An exam button's label: an icon, the word "کنکور" and the exam. */
  function ExamLabel(icon: string, exam: string): string {
    icon + " کنکور" + " " + exam
  }
  /** The five exam buttons, from "🧪 کنکور تجربی" to "🏫 کنکور فرهنگیان";
      the exam is the last word of the label. */
  const ExamButtons: seq<string> := [
    ExamLabel("🧪", "تجربی"),
    ExamLabel("📐", "ریاضی"),
    ExamLabel("📚", "انسانی"),
    ExamLabel("🎨", "هنر"),
    ExamLabel("🏫", "فرهنگیان")
  ]
  /** The Arabic comma that separates the fields of a study line. */
  const StudySeparator: char := '،'

  /** What an incoming text asks for, in the order the dispatcher tests
      the labels; `FreeText` is anything else, tried as a study line. */
  datatype Command =
    | Start
    | CountdownMenu
    | Planning
    | RemindMe
    | ManageReminders
    | ExamPick(button: string)
    | AddStudy
    | ShowProgress
    | DeleteStudy
    | Back
    | FreeText

  /** The `if`/`elif` chain of `handle_message` as a classification: the
      first label the text equals decides. */
  function Classify(text: string): (c: Command)
    ensures c.ExamPick? ==> c.button == text && text in ExamButtons
    ensures c.FreeText? <==>
      && text !in StartLabels && text != CountdownMenuLabel && text != PlanningLabel
      && text != RemindMeLabel && text != ManageRemindersLabel && text !in ExamButtons
      && text != AddStudyLabel && text != ProgressLabel && text != DeleteStudyLabel
      && text != BackLabel
  {
    if text in StartLabels then Start
    else if text == CountdownMenuLabel then CountdownMenu
    else if text == PlanningLabel then Planning
    else if text == RemindMeLabel then RemindMe
    else if text == ManageRemindersLabel then ManageReminders
    else if text in ExamButtons then ExamPick(text)
    else if text == AddStudyLabel then AddStudy
    else if text == ProgressLabel then ShowProgress
    else if text == DeleteStudyLabel then DeleteStudy
    else if text == BackLabel then Back
    else FreeText
  }

  /** The first character of every label. */
  lemma LabelHeads()
    ensures StartLabels[0][0] == 'ش' && StartLabels[1][0] == '/'
    ensures CountdownMenuLabel[0] == '🔎' && PlanningLabel[0] == '📖'
    ensures RemindMeLabel[0] == '🔔' && ManageRemindersLabel[0] == '❌'
    ensures ExamButtons[0][0] == '🧪' && ExamButtons[1][0] == '📐' && ExamButtons[2][0] == '📚'
    ensures ExamButtons[3][0] == '🎨' && ExamButtons[4][0] == '🏫'
    ensures AddStudyLabel[0] == '➕' && ProgressLabel[0] == '📊'
    ensures DeleteStudyLabel[0] == '🗑' && BackLabel[0] == '⬅'
  {
  }

  /** Each label starts with its own character, so no label shadows
      another in the chain: every menu label is classified as itself. */
  lemma ClassifyLabels()
    ensures forall s :: s in StartLabels ==> Classify(s) == Start
    ensures Classify(CountdownMenuLabel) == CountdownMenu
    ensures Classify(PlanningLabel) == Planning
    ensures Classify(RemindMeLabel) == RemindMe
    ensures Classify(ManageRemindersLabel) == ManageReminders
    ensures Classify(AddStudyLabel) == AddStudy
    ensures Classify(ProgressLabel) == ShowProgress
    ensures Classify(DeleteStudyLabel) == DeleteStudy
    ensures Classify(BackLabel) == Back
  {
    LabelHeads();
  }

  /** No menu label matched before the exam buttons starts like an exam
      button, so every exam button reaches the exam branch. */
  lemma ClassifyExamButtons()
    ensures forall b :: b in ExamButtons ==> Classify(b) == ExamPick(b)
  {
    LabelHeads();
  }

  /** The chat is waiting for a reminder time. */
  predicate InSetTime(st: State, chat: ChatId) {
    chat in st.reminders && st.reminders[chat].step == SetTime
  }

  /** `d.get(chat_id, default)` on the two dictionaries. */
  function RemindersOf(st: State, chat: ChatId): seq<Reminder> {
    if chat in st.reminders then st.reminders[chat].reminders else []
  }

  function LogOf(st: State, chat: ChatId): seq<StudyEntry> {
    if chat in st.study then st.study[chat] else []
  }

  /** Nothing about any chat other than `chat` differs between the states. */
  predicate OthersUnchanged(st: State, st': State, chat: ChatId) {
    && st'.reminders.Keys - {chat} == st.reminders.Keys - {chat}
    && (forall c :: c != chat && c in st.reminders ==> c in st'.reminders && st'.reminders[c] == st.reminders[c])
    && st'.study.Keys - {chat} == st.study.Keys - {chat}
    && (forall c :: c != chat && c in st.study ==> c in st'.study && st'.study[c] == st.study[c])
  }

  // ---------------------------------------------------------------------
  // Branches of the dispatcher
  // ---------------------------------------------------------------------

  /** The time-entry branch: the back button abandons the setup; any other
      text, stripped, is handed to `schedule_reminder`, whose success
      ends the setup and whose failure leaves the chat waiting for a time. */
  function TimeEntry(env: Env, st: State, chat: ChatId, text: string): (t: Transition)
    requires InSetTime(st, chat)
    ensures t.next.study == st.study
    ensures t.next.reminders.Keys == st.reminders.Keys
    ensures forall c :: c in st.reminders && c != chat ==> t.next.reminders[c] == st.reminders[c]
    ensures text == BackLabel ==>
      && t.next.reminders[chat] == st.reminders[chat].(step := Idle, pendingExam := None)
      && t.replies == [Send(BackToMenu, MainMenu)]
    ensures text != BackLabel ==>
      var rs := st.reminders[chat];
      var time := Text.Strip(text);
      var r := env.scheduleReminder(chat, rs.pendingExam, time, rs.reminders);
      && (r.Some? ==> t.next.reminders[chat] == ReminderState(r.value, Idle, None))
      && (r.Some? ==> t.replies == [Send(ReminderSet(rs.pendingExam, time), Plain)])
      && (r.None? ==> t.next == st && t.replies == [Send(BadTimeFormat, Plain)])
  {
    var rs := st.reminders[chat];
    if text == BackLabel then
      Transition(st.(reminders := st.reminders[chat := rs.(step := Idle, pendingExam := None)]),
                 [Send(BackToMenu, MainMenu)])
    else
      var time := Text.Strip(text);
      var r := env.scheduleReminder(chat, rs.pendingExam, time, rs.reminders);
      if r.Some? then
        Transition(st.(reminders := st.reminders[chat := ReminderState(r.value, Idle, None)]),
                   [Send(ReminderSet(rs.pendingExam, time), Plain)])
      else
        Transition(st, [Send(BadTimeFormat, Plain)])
  }

  /** The "remind me" branch: a chat without a record gets a fresh one,
      and the setup (re)starts at choosing an exam, keeping the chat's
      reminders. */
  function RemindMeBranch(st: State, chat: ChatId): (t: Transition)
    ensures t.next.study == st.study
    ensures t.next.reminders.Keys == st.reminders.Keys + {chat}
    ensures forall c :: c in st.reminders && c != chat ==> t.next.reminders[c] == st.reminders[c]
    ensures t.next.reminders[chat] == ReminderState(RemindersOf(st, chat), ChooseExam, None)
    ensures t.replies == [Send(AskReminderExam, ExamMenu(true))]
  {
    var rs := if chat in st.reminders then st.reminders[chat] else FreshReminders;
    Transition(st.(reminders := st.reminders[chat := rs.(step := ChooseExam, pendingExam := None)]),
               [Send(AskReminderExam, ExamMenu(true))])
  }

  /** The callback data of the inline button that removes reminder `r`. */
  function RemoveReminderCallback(r: Reminder): string {
    "remdel|" + r.exam
  }

  /** The "manage reminders" listing: one line with a remove button per
      reminder, in order, or a single "no reminders" reply. */
  function ReminderListing(rs: seq<Reminder>): (out: seq<Reply>)
    ensures rs == [] ==> out == [Send(NoReminders, Plain)]
    ensures rs != [] ==> |out| == |rs|
    ensures rs != [] ==> forall i :: 0 <= i < |rs| ==>
      out[i] == SendInline(ReminderLine(rs[i]), RemoveReminderCallback(rs[i]))
  {
    if rs == [] then [Send(NoReminders, Plain)]
    else seq(|rs|, i requires 0 <= i < |rs| => SendInline(ReminderLine(rs[i]), RemoveReminderCallback(rs[i])))
  }

  /** Every exam button ends in a non-space character, so
      `text.split()[-1]` does not raise on it. */
  lemma ExamButtonsEndInWord()
    ensures forall k :: 0 <= k < |ExamButtons| ==>
      |ExamButtons[k]| > 0 && !Text.IsSpace(ExamButtons[k][|ExamButtons[k]| - 1])
  {
    ExamLabelEndsInWord("🧪", "تجربی");
    ExamLabelEndsInWord("📐", "ریاضی");
    ExamLabelEndsInWord("📚", "انسانی");
    ExamLabelEndsInWord("🎨", "هنر");
    ExamLabelEndsInWord("🏫", "فرهنگیان");
  }

  /** A label ends with the last character of its exam. */
  lemma ExamLabelEndsInWord(icon: string, exam: string)
    requires |exam| > 0 && Text.NoSpace(exam)
    ensures var b := ExamLabel(icon, exam); |b| > 0 && !Text.IsSpace(b[|b| - 1])
  {
    var b := ExamLabel(icon, exam);
    assert b[|b| - 1] == exam[|exam| - 1];
  }

  /** `text.split()[-1]` on an exam button: the exam's name, the whole
      last word of the label. */
  function ExamName(button: string): (name: string)
    requires button in ExamButtons
    ensures |name| > 0 && Text.NoSpace(name)
    ensures |name| <= |button| && button[|button| - |name|..] == name
    ensures |name| < |button| ==> Text.IsSpace(button[|button| - |name| - 1])
  {
    ExamButtonsEndInWord();
    Text.LastWordOfTrimmed(button);
    Text.LastWord(button).value
  }

  /** The exam of button `k` is the word after its last space. */
  lemma ExamNameIs(k: nat, icon: string, word: string)
    requires k < |ExamButtons| && ExamButtons[k] == ExamLabel(icon, word)
    requires |word| > 0 && Text.NoSpace(word)
    ensures ExamName(ExamButtons[k]) == word
  {
    Text.LastWordAfterSpace(icon + " کنکور", word);
  }

  /** The exam words are single words. */
  lemma ExamWordsHaveNoSpace()
    ensures Text.NoSpace("تجربی") && Text.NoSpace("ریاضی") && Text.NoSpace("انسانی")
    ensures Text.NoSpace("هنر") && Text.NoSpace("فرهنگیان")
  {
  }

  /** The exams the five buttons name. */
  lemma ExamNames()
    ensures ExamName(ExamButtons[0]) == "تجربی"
    ensures ExamName(ExamButtons[1]) == "ریاضی"
    ensures ExamName(ExamButtons[2]) == "انسانی"
    ensures ExamName(ExamButtons[3]) == "هنر"
    ensures ExamName(ExamButtons[4]) == "فرهنگیان"
  {
    ExamWordsHaveNoSpace();
    ExamNameIs(0, "🧪", "تجربی");
    ExamNameIs(1, "📐", "ریاضی");
    ExamNameIs(2, "📚", "انسانی");
    ExamNameIs(3, "🎨", "هنر");
    ExamNameIs(4, "🏫", "فرهنگیان");
  }

  /** The exam-button branch, given the button's exam name: while
      choosing an exam, it becomes the pending exam and the chat waits for
      a time; otherwise the state is untouched and only the exam's
      countdown is sent. */
  function ExamButton(env: Env, st: State, chat: ChatId, name: string): (t: Transition)
    ensures t.next.study == st.study
    ensures t.next.reminders.Keys == st.reminders.Keys
    ensures forall c :: c in st.reminders && c != chat ==> t.next.reminders[c] == st.reminders[c]
    ensures chat in st.reminders && st.reminders[chat].step == ChooseExam ==>
      && t.next.reminders[chat] == st.reminders[chat].(step := SetTime, pendingExam := Some(name))
      && t.replies == [Send(AskReminderTime(name), Plain)]
    ensures !(chat in st.reminders && st.reminders[chat].step == ChooseExam) ==>
      && t.next == st
      && t.replies == [Send(CountdownText(env.countdown(name)), Plain)]
  {
    if chat in st.reminders && st.reminders[chat].step == ChooseExam then
      var rs := st.reminders[chat];
      Transition(st.(reminders := st.reminders[chat := rs.(step := SetTime, pendingExam := Some(name))]),
                 [Send(AskReminderTime(name), Plain)])
    else
      Transition(st, [Send(CountdownText(env.countdown(name)), Plain)])
  }

  /** The progress view: the whole log, or a single "nothing yet" reply. */
  function ProgressReply(logs: seq<StudyEntry>): (r: Reply)
    ensures logs == [] <==> r.msg == NoStudyYet
    ensures logs != [] ==> r == Send(Progress(logs), Plain)
  {
    if logs == [] then Send(NoStudyYet, Plain) else Send(Progress(logs), Plain)
  }

  /** The callback data of the inline button that deletes log entry `i`. */
  function DeleteCallback(i: nat): string {
    "delete_" + Text.NatToString(i)
  }

  /** The delete listing of a non-empty log: one line per entry, in order,
      the `i`-th carrying the callback `delete_<i>`. */
  function DeleteButtons(logs: seq<StudyEntry>): (out: seq<Reply>)
    ensures |out| == |logs|
    ensures forall i :: 0 <= i < |logs| ==> out[i] == SendInline(StudyLine(logs[i]), DeleteCallback(i))
    decreases |logs|
  {
    if |logs| == 0 then []
    else
      var n := |logs| - 1;
      DeleteButtons(logs[..n]) + [SendInline(StudyLine(logs[n]), DeleteCallback(n))]
  }

  /** The delete branch: the listing, or a single "nothing to delete" reply. */
  function DeleteListing(logs: seq<StudyEntry>): (out: seq<Reply>)
    ensures logs == [] ==> out == [Send(NothingToDelete, Plain)]
    ensures logs != [] ==> out == DeleteButtons(logs)
  {
    if logs == [] then [Send(NothingToDelete, Plain)] else DeleteButtons(logs)
  }

  /** Every delete button names its own entry: the number after
      `delete_` is the entry's index, so no two buttons share a callback. */
  lemma DeleteCallbacksIdentifyEntries(i: nat, j: nat)
    ensures |DeleteCallback(i)| > 7 && DeleteCallback(i)[..7] == "delete_"
    ensures forall k :: 7 <= k < |DeleteCallback(i)| ==> Text.IsDigit(DeleteCallback(i)[k])
    ensures Text.DigitsValue(DeleteCallback(i)[7..]) == i
    ensures DeleteCallback(i) == DeleteCallback(j) ==> i == j
  {
    assert DeleteCallback(i)[7..] == Text.NatToString(i);
    assert DeleteCallback(j)[7..] == Text.NatToString(j);
    Text.NatToStringRoundTrip(i);
    Text.NatToStringRoundTrip(j);
  }

  // ---------------------------------------------------------------------
  // Study lines
  // ---------------------------------------------------------------------

  /** `[p.strip() for p in text.split("،")]`. */
  function StudyParts(text: string): (parts: seq<string>)
    ensures |parts| == |Text.Split(text, StudySeparator)|
    ensures forall i :: 0 <= i < |parts| ==> StudySeparator !in parts[i]
    ensures forall i :: 0 <= i < |parts| ==> parts[i] == Text.Strip(Text.Split(text, StudySeparator)[i])
  {
    var pieces := Text.Split(text, StudySeparator);
    seq(|pieces|, i requires 0 <= i < |pieces| =>
      Text.StripOmits(pieces[i], StudySeparator);
      Text.Strip(pieces[i]))
  }

  /** How a free-text line fares as a study entry. */
  datatype StudyParse = Parsed(entry: StudyEntry) | WrongPartCount | BadDuration

  /** A free-text line as a study entry: exactly four comma-separated
      fields, trimmed, the last one a number. */
  function ParseStudyLine(env: Env, text: string): (p: StudyParse)
    ensures var parts := StudyParts(text);
      && (p.WrongPartCount? <==> |parts| != 4)
      && (p.BadDuration? <==> |parts| == 4 && env.parseDuration(parts[3]).None?)
      && (p.Parsed? ==>
            && |parts| == 4 && env.parseDuration(parts[3]).Some?
            && p.entry == StudyEntry(parts[0], parts[1], parts[2], env.parseDuration(parts[3]).value))
  {
    var parts := StudyParts(text);
    if |parts| != 4 then WrongPartCount
    else match env.parseDuration(parts[3])
      case Some(d) => Parsed(StudyEntry(parts[0], parts[1], parts[2], d))
      case None => BadDuration
  }

  /** Splitting separator-free fields joined with the Arabic comma, and
      stripping the pieces, gives back the fields with their surrounding
      whitespace removed. */
  lemma {:induction false} StudyPartsOfJoin(fields: seq<string>)
    requires |fields| > 0
    requires forall i :: 0 <= i < |fields| ==> StudySeparator !in fields[i]
    ensures var parts := StudyParts(Text.Join(fields, StudySeparator));
      && |parts| == |fields|
      && forall i :: 0 <= i < |fields| ==> parts[i] == Text.Strip(fields[i])
  {
    var text := Text.Join(fields, StudySeparator);
    Text.SplitJoin(fields, StudySeparator);
  }

  /** Round trip: four separator-free fields joined with the Arabic comma,
      however they are padded with whitespace, are read back as the
      stripped fields. */
  lemma StudyLineRoundTrip(env: Env, subject: string, start: string, end: string, duration: string)
    requires StudySeparator !in subject && StudySeparator !in start
    requires StudySeparator !in end && StudySeparator !in duration
    requires env.parseDuration(Text.Strip(duration)).Some?
    ensures ParseStudyLine(env, Text.Join([subject, start, end, duration], StudySeparator))
         == Parsed(StudyEntry(Text.Strip(subject), Text.Strip(start), Text.Strip(end),
                              env.parseDuration(Text.Strip(duration)).value))
  {
    StudyPartsOfJoin([subject, start, end, duration]);
  }

  /** A field as the user types it: non-empty, no separator, and no
      whitespace at either end. */
  predicate TypedField(f: string) {
    |f| > 0 && StudySeparator !in f && !Text.IsSpace(f[0]) && !Text.IsSpace(f[|f| - 1])
  }

  /** A four-field join spelled out. */
  lemma JoinFour(a: string, b: string, c: string, d: string)
    ensures Text.Join([a, b, c, d], StudySeparator)
         == a + [StudySeparator] + b + [StudySeparator] + c + [StudySeparator] + d
  {
    var sep := StudySeparator;
    assert [c, d][1..] == [d];
    assert Text.Join([c, d], sep) == c + [sep] + d;
    assert [b, c, d][1..] == [c, d];
    assert Text.Join([b, c, d], sep) == b + [sep] + (c + [sep] + d);
    assert [a, b, c, d][1..] == [b, c, d];
    assert Text.Join([a, b, c, d], sep) == a + [sep] + (b + [sep] + (c + [sep] + d));
  }

  /** A typed field with one space before it strips back to the field. */
  lemma StripSpacedField(f: string)
    requires TypedField(f)
    ensures StudySeparator !in " " + f
    ensures Text.Strip(" " + f) == f
  {
    assert Text.AllSpace(" ") && Text.AllSpace("");
    Text.StripPadded(" ", f, "");
    assert " " + f + "" == " " + f;
  }

  /** The typed line is the join of the fields, each after the first with
      the space that follows the comma. */
  lemma TypedLineIsJoin(subject: string, start: string, end: string, duration: string)
    ensures subject + "، " + start + "، " + end + "، " + duration
         == Text.Join([subject, " " + start, " " + end, " " + duration], StudySeparator)
  {
    JoinFour(subject, " " + start, " " + end, " " + duration);
    assert "، " == [StudySeparator] + " ";
  }

  /** The line format the study help asks for, a space after each comma
      (`subject، HH:MM، HH:MM، hours`), reads back as the four values typed. */
  lemma TypedStudyLine(env: Env, subject: string, start: string, end: string, duration: string)
    requires TypedField(subject) && TypedField(start) && TypedField(end) && TypedField(duration)
    requires env.parseDuration(duration).Some?
    ensures ParseStudyLine(env, subject + "، " + start + "، " + end + "، " + duration)
         == Parsed(StudyEntry(subject, start, end, env.parseDuration(duration).value))
  {
    StripSpacedField(start);
    StripSpacedField(end);
    StripSpacedField(duration);
    TypedLineIsJoin(subject, start, end, duration);
    StudyLineRoundTrip(env, subject, " " + start, " " + end, " " + duration);
  }

  /** The study-line branch, given how the line parsed: a parsed entry is
      appended to the chat's log, which is created if absent; a rejected
      line leaves the state alone. */
  function StudyEntryBranch(st: State, chat: ChatId, p: StudyParse): (t: Transition)
    ensures t.next.reminders == st.reminders
    ensures t.next.study.Keys - {chat} == st.study.Keys - {chat}
    ensures forall c :: c in st.study && c != chat ==> c in t.next.study && t.next.study[c] == st.study[c]
    ensures p.Parsed? ==>
      && chat in t.next.study && t.next.study[chat] == LogOf(st, chat) + [p.entry]
      && t.replies == [Send(StudySaved(p.entry), Plain)]
    ensures p.WrongPartCount? ==> t.next == st && t.replies == [Send(WrongFormat, Plain)]
    ensures p.BadDuration? ==> t.next == st && t.replies == [Send(SaveFailed, Plain)]
  {
    match p
    case Parsed(e) =>
      Transition(st.(study := st.study[chat := LogOf(st, chat) + [e]]), [Send(StudySaved(e), Plain)])
    case WrongPartCount => Transition(st, [Send(WrongFormat, Plain)])
    case BadDuration => Transition(st, [Send(SaveFailed, Plain)])
  }

  // ---------------------------------------------------------------------
  // The dispatcher
  // ---------------------------------------------------------------------

  /** `handle_message`: a chat waiting for a reminder time sends every text
      to the time entry before any command is looked at; otherwise the
      text is matched against the commands in order, and whatever is not
      a command is tried as a study line. Only the sender's chat changes,
      its records are never dropped, and every message gets a reply. */
  function HandleMessage(env: Env, st: State, chat: ChatId, text: string): (t: Transition)
    ensures OthersUnchanged(st, t.next, chat)
    ensures chat in st.reminders ==> chat in t.next.reminders
    ensures chat in st.study ==> chat in t.next.study
    ensures |t.replies| >= 1
    ensures InSetTime(st, chat) && text != BackLabel ==>
      && t.next.study == st.study
      && (t.replies == [Send(BadTimeFormat, Plain)] || t.replies[0].msg.ReminderSet?)
  {
    if InSetTime(st, chat) then TimeEntry(env, st, chat, text)
    else Dispatch(env, st, chat, Classify(text), text)
  }

  /** The command branches of `handle_message`, in the order the source
      tests them, once the text has been classified. */
  function Dispatch(env: Env, st: State, chat: ChatId, cmd: Command, text: string): (t: Transition)
    requires cmd.ExamPick? ==> cmd.button in ExamButtons
    ensures OthersUnchanged(st, t.next, chat)
    ensures chat in st.reminders ==> chat in t.next.reminders
    ensures chat in st.study ==> chat in t.next.study
    ensures |t.replies| >= 1
  {
    match cmd
      case Start => Transition(st, [Send(Greeting, MainMenu)])
      case CountdownMenu => Transition(st, [Send(PickExam, ExamMenu(false))])
      case Planning => Transition(st, [Send(StudySection, StudyMenu)])
      case RemindMe => RemindMeBranch(st, chat)
      case ManageReminders => Transition(st, ReminderListing(RemindersOf(st, chat)))
      case ExamPick(button) => ExamButton(env, st, chat, ExamName(button))
      case AddStudy => Transition(st, [Send(StudyFormatHelp, Plain)])
      case ShowProgress => Transition(st, [ProgressReply(LogOf(st, chat))])
      case DeleteStudy => Transition(st, DeleteListing(LogOf(st, chat)))
      case Back => Transition(st, [Send(BackToMenu, MainMenu)])
      case FreeText => StudyEntryBranch(st, chat, ParseStudyLine(env, text))
  }

  // ---------------------------------------------------------------------
  // Properties of the dispatcher
  // ---------------------------------------------------------------------

  /** While a chat waits for a reminder time, even a menu command is taken
      as the time: it is handed to `schedule_reminder`, and no menu reply
      is sent. */
  lemma TimeEntryComesFirst(env: Env, st: State, chat: ChatId, text: string)
    requires InSetTime(st, chat)
    requires !Classify(text).FreeText? && text != BackLabel
    ensures var t := HandleMessage(env, st, chat, text);
      var rs := st.reminders[chat];
      var time := Text.Strip(text);
      && t.next.study == st.study
      && (env.scheduleReminder(chat, rs.pendingExam, time, rs.reminders).Some? ==>
            t.replies == [Send(ReminderSet(rs.pendingExam, time), Plain)])
      && (env.scheduleReminder(chat, rs.pendingExam, time, rs.reminders).None? ==>
            t.replies == [Send(BadTimeFormat, Plain)])
  {
  }

  /** The back button during time entry abandons the setup: step and
      pending exam are cleared, the reminders and the study log stay. */
  lemma BackCancelsTimeEntry(env: Env, st: State, chat: ChatId)
    requires InSetTime(st, chat)
    ensures var t := HandleMessage(env, st, chat, BackLabel);
      && t.next.study == st.study
      && chat in t.next.reminders
      && t.next.reminders[chat].reminders == st.reminders[chat].reminders
      && t.next.reminders[chat].step == Idle
      && t.next.reminders[chat].pendingExam == None
  {
  }

  /** A reminder time that `schedule_reminder` accepts ends the setup; one
      it rejects changes nothing, so the chat is asked again. */
  lemma TimeEntryResetsOnlyOnSuccess(env: Env, st: State, chat: ChatId, text: string)
    requires InSetTime(st, chat) && text != BackLabel
    ensures var t := HandleMessage(env, st, chat, text);
      var rs := st.reminders[chat];
      var r := env.scheduleReminder(chat, rs.pendingExam, Text.Strip(text), rs.reminders);
      && (r.Some? ==> chat in t.next.reminders && t.next.reminders[chat] == ReminderState(r.value, Idle, None))
      && (r.None? ==> t.next == st && InSetTime(t.next, chat)
                      && t.next.reminders[chat].pendingExam == rs.pendingExam)
  {
  }

  /** "Remind me" (outside time entry) creates the chat's record if
      needed, keeps its reminders, and starts the setup afresh. */
  lemma RemindMeStartsSetup(env: Env, st: State, chat: ChatId)
    requires !InSetTime(st, chat)
    ensures var t := HandleMessage(env, st, chat, RemindMeLabel);
      && t.next.study == st.study
      && chat in t.next.reminders
      && t.next.reminders[chat] == ReminderState(RemindersOf(st, chat), ChooseExam, None)
  {
    ClassifyLabels();
    assert HandleMessage(env, st, chat, RemindMeLabel) == RemindMeBranch(st, chat);
  }

  /** An exam button while choosing an exam records the button's exam and
      asks for a time; in any other step it only sends the countdown. */
  lemma ExamButtonByStep(env: Env, st: State, chat: ChatId, button: string)
    requires !InSetTime(st, chat)
    requires button in ExamButtons
    ensures var t := HandleMessage(env, st, chat, button);
      && (chat in st.reminders && st.reminders[chat].step == ChooseExam ==>
            && t.next.study == st.study
            && chat in t.next.reminders
            && t.next.reminders[chat].reminders == st.reminders[chat].reminders
            && t.next.reminders[chat].step == SetTime
            && t.next.reminders[chat].pendingExam == Some(ExamName(button)))
      && (!(chat in st.reminders && st.reminders[chat].step == ChooseExam) ==>
            t == Transition(st, [Send(CountdownText(env.countdown(ExamName(button))), Plain)]))
  {
    ClassifyExamButtons();
    assert HandleMessage(env, st, chat, button) == Dispatch(env, st, chat, Classify(button), button);
    assert Classify(button) == ExamPick(button);
    var t := ExamButton(env, st, chat, ExamName(button));
    assert HandleMessage(env, st, chat, button) == t;
    if chat in st.reminders && st.reminders[chat].step == ChooseExam {
      assert t.next.reminders[chat] == st.reminders[chat].(step := SetTime, pendingExam := Some(ExamName(button)));
    }
  }

  /** A free-text line with four fields and a readable duration appends
      exactly that entry to the chat's log, after the earlier ones; any
      other line leaves the state as it was. */
  lemma StudyLineAppendsOne(env: Env, st: State, chat: ChatId, text: string)
    requires !InSetTime(st, chat) && Classify(text).FreeText?
    ensures var t := HandleMessage(env, st, chat, text);
      var parts := StudyParts(text);
      && t.next.reminders == st.reminders
      && (|parts| == 4 && env.parseDuration(parts[3]).Some? ==>
            LogOf(t.next, chat) == LogOf(st, chat)
              + [StudyEntry(parts[0], parts[1], parts[2], env.parseDuration(parts[3]).value)])
      && (|parts| != 4 || env.parseDuration(parts[3]).None? ==> t.next == st)
  {
    FreeTextIsStudyEntry(env, st, chat, text);
  }

  /** Outside time entry, text that is no command goes to the study-line
      branch. */
  lemma FreeTextIsStudyEntry(env: Env, st: State, chat: ChatId, text: string)
    requires !InSetTime(st, chat) && Classify(text).FreeText?
    ensures HandleMessage(env, st, chat, text) == StudyEntryBranch(st, chat, ParseStudyLine(env, text))
  {
    assert HandleMessage(env, st, chat, text) == Dispatch(env, st, chat, Classify(text), text);
    assert Classify(text) == FreeText;
  }

  /** The delete command lists the log in order, entry `i` with the
      callback `delete_<i>`, or says there is nothing to delete. */
  lemma DeleteListsEveryEntry(env: Env, st: State, chat: ChatId)
    requires !InSetTime(st, chat)
    ensures var t := HandleMessage(env, st, chat, DeleteStudyLabel);
      var logs := LogOf(st, chat);
      && t.next == st
      && (logs == [] ==> t.replies == [Send(NothingToDelete, Plain)])
      && (logs != [] ==>
            && |t.replies| == |logs|
            && forall i :: 0 <= i < |logs| ==>
                 t.replies[i] == SendInline(StudyLine(logs[i]), DeleteCallback(i)))
  {
    ClassifyLabels();
    assert HandleMessage(env, st, chat, DeleteStudyLabel) == Transition(st, DeleteListing(LogOf(st, chat)));
  }

  /** The menus, start, the reminder listing, the progress view and the
      back button (outside time entry) change no state at all. */
  lemma ViewCommandsChangeNothing(env: Env, st: State, chat: ChatId, text: string)
    requires !InSetTime(st, chat)
    requires || text in StartLabels
             || text == CountdownMenuLabel
             || text == PlanningLabel
             || text == ManageRemindersLabel
             || text == AddStudyLabel
             || text == ProgressLabel
             || text == DeleteStudyLabel
             || text == BackLabel
    ensures HandleMessage(env, st, chat, text).next == st
  {
    ClassifyLabels();
  }

  /** The whole setup in three messages: "remind me", an exam button, and
      a time. The exam handed to `schedule_reminder` is the button's exam;
      if it accepts the time the chat ends idle with the reminders it
      returned, and if it rejects it the chat still waits for a time for
      that exam. The study log is never touched. */
  lemma ReminderSetupFlow(env: Env, st: State, chat: ChatId, button: string, time: string)
    requires !InSetTime(st, chat)
    requires button in ExamButtons
    requires time != BackLabel
    ensures var t1 := HandleMessage(env, st, chat, RemindMeLabel);
      var t2 := HandleMessage(env, t1.next, chat, button);
      var t3 := HandleMessage(env, t2.next, chat, time);
      var exam := Some(ExamName(button));
      var r := env.scheduleReminder(chat, exam, Text.Strip(time), RemindersOf(st, chat));
      && t3.next.study == st.study
      && (r.Some? ==>
            && chat in t3.next.reminders
            && t3.next.reminders[chat] == ReminderState(r.value, Idle, None)
            && t3.replies == [Send(ReminderSet(exam, Text.Strip(time)), Plain)])
      && (r.None? ==>
            && InSetTime(t3.next, chat)
            && t3.next.reminders[chat] == ReminderState(RemindersOf(st, chat), SetTime, exam)
            && t3.replies == [Send(BadTimeFormat, Plain)])
  {
    var t1 := HandleMessage(env, st, chat, RemindMeLabel);
    RemindMeStartsSetup(env, st, chat);
    var t2 := HandleMessage(env, t1.next, chat, button);
    ExamButtonByStep(env, t1.next, chat, button);
    assert t2.next.reminders[chat] == ReminderState(RemindersOf(st, chat), SetTime, Some(ExamName(button)));
    assert HandleMessage(env, t2.next, chat, time) == TimeEntry(env, t2.next, chat, time);
  }
}
