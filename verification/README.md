# Konkur countdown and planner bot — a Dafny model

This project models the logic of a Telegram bot for the Iranian university
entrance exam (Konkur). The logic comes in two parts:

- **bot.py: countdown and settings.**
  - `human_left` breaks the time left before the exam into whole days,
    hours and minutes, or reports that the exam time has come.
  - The `users` table maps a user id to a row (round, group, reminder
    flag, reminder hour). `get_user` is get-or-insert-default, and
    `set_group`/`set_reminder`/`set_hour` each update one column of one
    row.
  - The static `GROUPS`, `ROUNDS` and `SCHEDULE` tables. `target_dt_for`
    looks a user's exam up in `SCHEDULE`.
  - The group keyboard (`choose_group_inline`). It has `group:<key>`
    callback data, which `pick_group` parses back.
- **main.py: `handle_message`.** A per-chat state machine. Each chat has
  a reminder record (its reminders, the setup step, and the exam waiting
  for a time) and a study log. One incoming text yields the next state
  and the replies. The machine covers reminder setup, the exam buttons,
  parsing and appending study lines, and the delete listing.

Everything is pure functions over immutable datatypes and maps:

| file | contents |
|---|---|
| `wrappers.dfy` | `Option` |
| `text.dfy` | The Python string operations the source relies on: `str.split(sep)`, `str.strip()`, `str.split()[-1]`, `str(i)` for naturals, and Python's whitespace set. |
| `countdown.dfy` | `timedelta` normal form and `human_left`. Instants are integers in microseconds, the resolution of Python's `datetime`. |
| `users.dfy` | The `users` table as a `map`. |
| `exams.dfy` | The tables, `target_dt_for`, the keyboard and the callback encoding. |
| `pick_group.dfy` | The `pick_group` handler, as written and as evidently intended (see Findings). |
| `chat.dfy` | `handle_message` and its branches. |

The collaborators appear as parameters:

- the Jalali-to-instant conversion (`Exams.Converter`);
- the clock reading (`now`);
- `schedule_reminder`, which returns the chat's new reminder list or
  `None` where it raises;
- `get_countdown`;
- `float` on the duration field, which returns `None` where it raises.

## Model

| member | source | states |
|---|---|---|
| Countdown.Between | bot.py:121 | `to - from` as a `timedelta`: normalised (`0 <= seconds < 86400`, `0 <= microseconds < 10**6`) and exactly as long as the difference. |
| Countdown.NormalFormUnique | bot.py:121 | Two normalised deltas of the same length are equal, so the breakdown `human_left` reads is determined by the time left. |
| Countdown.HumanLeft | bot.py:119-124 | "Reached" exactly when `total_seconds() <= 0`. Otherwise hours < 24 and minutes < 60, and the days/hours/minutes shown are at most the time left and less than one minute short of it (truncation, never rounding). |
| Countdown.PendingIsUnique | bot.py:124 | Any days/hours/minutes triple with hours < 24, minutes < 60 that is within one minute below the time left is exactly what `human_left` reports. |
| Countdown.HumanLeftText | bot.py:122-124 | The returned text is the "exam reached" message if and only if target − now ≤ 0. Otherwise it is the written-out days, hours and minutes of `human_left`. |
| Countdown.RenderInjective | bot.py:123-124 | The text determines what it reports. Two breakdowns with the same text have the same days, hours and minutes, since each number is a digit run ended by a non-digit. No breakdown reads as the "exam reached" message. |
| Users.GetUser | bot.py:85-93 | A known uid: the stored row is returned and the table is unchanged. An unknown uid: a row with the column defaults (`r1`, `exp`, off, 8) is inserted and returned. No other row changes. |
| Users.SetGroup | bot.py:95-98 | Only the `grp` column of uid's row changes; same keys, other users untouched, and a no-op for a uid without a row. |
| Users.SetReminder | bot.py:100-103 | Only `remind_enabled` of uid's row changes; same keys, other users untouched, and a no-op for a uid without a row. |
| Users.SetHour | bot.py:105-108 | Only `reminder_hour_irt` of uid's row changes; same keys, other users untouched, and a no-op for a uid without a row. |
| Users.GetUserIdempotent | bot.py:85-93 | A second `get_user` writes nothing and returns the same row. |
| Users.SettersReadBack | bot.py:87-90 | For a user with a row, `get_user` reads back what each setter wrote. |
| Users.SettersCommute | bot.py:95-108 | The setters touch disjoint columns, so any two of them commute. |
| Exams.ScheduleValid | bot.py:28-41 | Every scheduled round is a known round. Every `SCHEDULE` entry has hour 0..23, minute 0..59 and a possible Jalali month and day. |
| Exams.TargetFor | bot.py:115-117 | Defined exactly when the user's round and group are in `SCHEDULE`, and then equal to the conversion of that entry's date, hour and minute. |
| Exams.GroupKeyboard | bot.py:53-60 | The keyboard has the 2/1/2 layout. Each button is labelled with its group's `GROUPS` name and carries `group:<key>`. |
| Exams.ParseGroupCallback | bot.py:164 | `data.split(":")[1]` exists exactly when the data contains a colon, and the key has no colon. |
| Exams.GroupCallbackRoundTrip | bot.py:164 | `"group:" + k` split on `:` gives back `k` at index 1, for every colon-free key. |
| Exams.KeyboardIsComplete | bot.py:20-60 | The keyboard offers exactly the `GROUPS` keys, each is scheduled in round `r1`, and each button's callback parses back to its key. |
| Exams.DefaultRowScheduled | bot.py:33-41 | The default round `r1` and group `exp` have an exam in `SCHEDULE`. |
| Exams.TableOperationsKeepWellFormed | bot.py:85-117 | Starting from a table whose rows are all schedulable, `get_user`, `set_reminder`, `set_hour` and `set_group` with an offered key keep it so, and `target_dt_for` on the fetched row is defined. |
| GroupPick.CallbackKey | bot.py:162-164 | For data routed by the `group:` prefix, the extracted key has no colon. |
| GroupPick.Answer | bot.py:166-168 | `get_user`, then `target_dt_for`, then a reply naming `GROUPS[grp]`. A reply exists exactly when both lookups succeed, and it carries the fetched row's exam instant and the `human_left` text. |
| GroupPick.PickGroupAsWritten | bot.py:162-169 | As written: a known user's row gets the pressed key and keeps its other columns. A user without a row ends up with the default row (group `exp`). Other users are untouched. |
| GroupPick.AsWrittenLosesNewUsersChoice | bot.py:165-168 | Counterexample: on an empty table, user 7 taps "math". The user is stored with `exp` and told "math" was registered, but gets the `exp` exam instant. |
| GroupPick.PickGroup | bot.py:162-169 | Corrected order (get-or-insert, then update): the stored group is the pressed key for every user, the other columns are kept, and other users are untouched. |
| GroupPick.PickGroupAnswersPressedGroup | bot.py:162-169 | For every keyboard button, the corrected handler stores that group, keeps the table schedulable, and answers with that group's name and exam instant. |
| Text.Split | main.py:111 | `str.split(sep)`: never empty, and no piece contains the separator. |
| Text.JoinSplit | main.py:111 | Joining the pieces of a split with the separator gives back the original text. |
| Text.SplitJoin | main.py:111 | Splitting a join of separator-free pieces gives back the pieces. |
| Text.Strip | main.py:111 | `str.strip()`: it is the slice of the input that starts at the first non-space character, with only whitespace before and after it. Its ends are non-space. It is empty exactly when the input is all whitespace, and it is the identity when both ends are non-space. |
| Text.StripPadded | main.py:111 | Stripping whitespace padding from a word with non-space ends gives back exactly the word. |
| Text.StripIdempotent | main.py:11 | Stripping twice is stripping once. |
| Text.LastWord | main.py:56 | `str.split()[-1]`: absent exactly when the text is all whitespace. Otherwise it is a non-empty space-free word that ends at the last non-space character and is preceded by a space or the start. |
| Text.LastWordAfterSpace | main.py:56 | `split()[-1]` of a text ending in a space and a space-free word is that whole word. |
| Text.NatToString | main.py:100 | `str(i)` for a natural: non-empty decimal digits without a leading zero. |
| Text.NatToStringRoundTrip | main.py:100 | Reading the digits of `str(i)` gives back `i`. |
| Text.NatToStringInjective | main.py:100 | Different indices give different strings. |
| Chat.Classify | main.py:24-108 | The `if`/`elif` chain. An exam button classifies as itself. Text is free text exactly when it is none of the labels. |
| Chat.ClassifyLabels | main.py:24-106 | No label shadows another in the chain: every menu label reaches its own branch. |
| Chat.ClassifyExamButtons | main.py:55 | Every exam button reaches the exam branch. |
| Chat.TimeEntry | main.py:4-21 | Back clears step and pending exam and keeps the reminders. Otherwise the stripped text goes to `schedule_reminder`: success stores its list and ends the setup, and failure sends the format error. The source promises only that step and pending exam stay put on failure. That the rest of the state is also unchanged follows from the all-or-nothing assumption on `schedule_reminder` (see Left out). |
| Chat.RemindMeBranch | main.py:36-42 | Creates a fresh record if absent, keeps the chat's reminders, sets step `choose_exam` and clears the pending exam. No other chat is touched. |
| Chat.ReminderListing | main.py:44-53 | One line per reminder with a remove button whose callback is `remdel` followed by the exam, in order, or a single "no reminders" reply. |
| Chat.ExamName | main.py:56 | The exam is the whole last word of the button text: a non-empty, space-free suffix that is either the whole text or preceded by a space. |
| Chat.ExamNames | main.py:55-56 | The five buttons name the exams تجربی, ریاضی, انسانی, هنر and فرهنگیان. |
| Chat.ExamButton | main.py:57-68 | Given the button's exam: in `choose_exam`, that exam becomes pending and the step becomes `set_time`, with the time prompt sent. In any other step the state is untouched and only that exam's countdown is sent. Other chats and the study log are never touched. |
| Chat.ProgressReply | main.py:80-91 | The "nothing logged yet" reply is sent exactly when the log is empty. Otherwise the reply carries the whole log, in order. |
| Chat.DeleteButtons | main.py:98-101 | One reply per entry, in order, the i-th carrying `delete_<i>`. |
| Chat.DeleteListing | main.py:93-102 | An empty log gets a single "nothing to delete" reply, and a non-empty one gets the full listing. |
| Chat.DeleteCallbacksIdentifyEntries | main.py:100 | `delete_<i>` is the prefix and the digits of `i`, the digits read back as `i`, and distinct entries get distinct callbacks. |
| Chat.StudyParts | main.py:111 | One part per piece of the split on the Arabic comma. Each part is that piece stripped, and no part contains the comma. |
| Chat.ParseStudyLine | main.py:110-125 | Wrong part count exactly when there are not 4 parts. A failed duration exactly when there are 4 parts and `float` raises. Otherwise the entry is made of the 4 parts and the parsed duration. |
| Chat.StudyPartsOfJoin | main.py:111 | Splitting comma-free fields joined with the Arabic comma and stripping the pieces gives back as many parts as fields. Each part is its field with the surrounding whitespace removed. |
| Chat.StudyLineRoundTrip | main.py:111-118 | Four comma-free fields, padded with any whitespace and joined with the Arabic comma, parse to the entry of the stripped fields when the stripped duration is a number. |
| Chat.TypedStudyLine | main.py:111-118 | A line in the format the study help asks for (main.py:75-76: a space after each Arabic comma) parses to exactly the four values typed. |
| Chat.StudyEntryBranch | main.py:110-125 | A parsed entry is appended to the chat's log, after the earlier entries, and the log is created if absent. A rejected line changes nothing. The reminders and other chats are untouched. |
| Chat.HandleMessage | main.py:2-126 | Only the sender's chat changes (in time entry, under the assumption on `schedule_reminder` in Left out), its records are never dropped, and every message gets a reply. While waiting for a time, any text except Back leaves the study log alone and gets the format error or the confirmation. |
| Chat.Dispatch | main.py:24-126 | The command branches outside time entry: only the sender's chat changes, no record is dropped, and there is at least one reply. |
| Chat.TimeEntryComesFirst | main.py:4-21 | While waiting for a time, even a menu label is taken as the time and handed to `schedule_reminder`. No menu reply is sent. |
| Chat.BackCancelsTimeEntry | main.py:5-9 | Back during time entry clears step and pending exam, and keeps the reminders and the study log. |
| Chat.TimeEntryResetsOnlyOnSuccess | main.py:14-20 | A successful `schedule_reminder` makes the chat idle with the returned reminders. A failure keeps `set_time` and the same pending exam. The model also leaves the reminders and other chats unchanged, which rests on the all-or-nothing assumption on `schedule_reminder` (see Left out). |
| Chat.RemindMeStartsSetup | main.py:36-42 | "Remind me" outside time entry gives record (own reminders, `choose_exam`, no pending exam), and the study log is untouched. |
| Chat.ExamButtonByStep | main.py:55-69 | An exam button in `choose_exam` moves to `set_time` with the button's exam pending, keeping the reminders. In any other step the state is unchanged and only the countdown is sent. |
| Chat.StudyLineAppendsOne | main.py:108-125 | Free text with 4 parts and a parseable duration appends exactly that entry after the earlier ones. Any other line leaves the state unchanged. |
| Chat.FreeTextIsStudyEntry | main.py:108-126 | Outside time entry, text that matches no label goes to the study-line branch. |
| Chat.DeleteListsEveryEntry | main.py:93-102 | The delete command changes nothing and lists every entry in order with `delete_<i>`, or says there is nothing to delete. |
| Chat.ViewCommandsChangeNothing | main.py:24-106 | Start, the menus, the reminder listing, the study help, the progress view, the delete listing and Back outside time entry leave the state unchanged. |
| Chat.ReminderSetupFlow | main.py:4-69 | "Remind me", then an exam button, then a time: `schedule_reminder` gets the button's exam and the chat's reminders. If it accepts, the chat ends idle with the returned reminders and the confirmation is sent. If it rejects, the chat still waits for a time for that exam. The study log is never touched. |

## Left out

- Telegram plumbing: aiogram handlers, `Bot`/`Dispatcher`, keyboards as
  markup objects, `send_message` and `send_message_inline`. Replies are
  the abstract `Chat.Reply`, and the Persian reply texts are left
  abstract (only the labels matched on input are spelled out).
- Exceptions raised by `send_message` itself. The model assumes that
  sending always succeeds.
- SQLite and `aiosqlite`: the `users` table is an in-memory map. Concurrent
  handlers racing on the same row are not modelled.
- APScheduler and the body of `schedule_reminder`, which is not part of
  this model. It is a parameter that returns the new reminder list or
  fails.
- Chat.TimeEntry: `schedule_reminder` is assumed to be all-or-nothing and
  to write only this chat's reminder list. When it raises, the model
  leaves the chat's reminders and every other chat as they were. The
  source only guarantees that step and `pending_exam` stay put
  (main.py:14-20), because the body of that call is not part of this model.
- Chat.TimeEntryResetsOnlyOnSuccess: rests on the same assumption. On
  failure, "reminders and other chats unchanged" is a property of the
  abstraction, not of the source.
- Chat.HandleMessage: "only the sender's chat changes" in time entry also
  rests on that assumption about `schedule_reminder`.
- `jdatetime`/`pytz` Jalali-to-Gregorian conversion and localisation
  (`jdate_to_local_dt`). It is the `Exams.Converter` parameter.
- `fmt_local`, which formats the exam date. The `pick_group` reply
  carries the instant itself.
- `datetime.now`: `now` is a parameter.
- `float` parsing of the study duration. It is a parameter from text to
  an optional real.
- The float `sum` of the progress view (main.py:85). The progress reply
  carries the log, not a total.
- The handlers after bot.py:185, which the source shows only truncated.
  Environment variables, `HELP_TEXT` and logging are left out too.
- `start_cmd`, `help_cmd`, `left_cmd` and the reminder-toggle handlers
  (bot.py:135-183). They only combine `get_user`, `set_reminder`,
  `target_dt_for` and `human_left`, which are modelled.
- Text encoding: strings are sequences of code points. `Text.IsSpace`
  lists the code points Python's `str.isspace` accepts. Unicode
  normalisation is not modelled, as the source does none.
- GroupPick.PickGroupAsWritten: a callback forged by a client with an
  unknown group key is stored as-is. The handler's reply is then `None`,
  where the source raises `KeyError` after the write.

## Findings

| source | as written | input that shows it | evidently intended | confidence | as-written member | corrected member |
|---|---|---|---|---|---|---|
| bot.py:165-166 | `set_group` (an `UPDATE … WHERE user_id=?`) runs before `get_user`, so for a user with no row it updates nothing. `get_user` then inserts the default group `exp`. | An empty `users` table (e.g. a user who never sent /start, or after `data.db` was reset) and user 7 tapping the "math" button. The user is stored with group `exp`, and the reply says math was registered but shows the `exp` exam date. | Get-or-insert the row first, then store the chosen group, so the pressed group is kept and reported for every user. | not executed | GroupPick.AsWrittenLosesNewUsersChoice | GroupPick.PickGroupAnswersPressedGroup |
