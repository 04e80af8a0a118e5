# git-cola: commit message editor and icon resolution rules

This project is a Dafny model of two parts of git-cola, a Git GUI. It covers
the deterministic rules that sit under the Qt widgets:

- **The icon resolver** (`cola/icons.py`). It builds bundled icon names. It
  looks icons up in the desktop theme and falls back to bundled ones. It
  classifies a file by its mime-type guess and then by its extension. It
  chooses a file's status icon, and it has `mkicon`.
- **The commit message editor** (`cola/widgets/commitmsg.py`). It has a
  summary field and a description field. The commit message is their
  composition. Loading a message parses it back into the two fields. A
  multi-line paste into the summary is repaired. The editor keeps the
  amend-mode date backup and the commit-date picker's slider arithmetic. Its
  commit action is a decision procedure that ends in a commit task or an
  abort and resets two one-shot toggles. The description field handles the
  Up and Down keys itself, the cursor-position label warns about long lines,
  and the "previous commit" menus are built from a log excerpt.

Files and modules:

- `wrappers.dfy` (`Wrappers`): `Option`, which stands for Python's `None`.
- `pytext.dfy` (`PyText`): models of the Python primitives the core uses.
  These are `str.splitlines` (with all of Python's line boundaries, `"\r\n"`
  counting as one), `str.join`, the first-index search behind
  `split('\n', 1)`, `lstrip`, `lower`, `count`, the substring test, `rfind`
  and POSIX `os.path.splitext`.
- `icons.dfy` (`Icons`): `cola/icons.py`, as pure functions.
- `commitmsg_text.dfy` (`CommitText`): composing, parsing and paste repair.
- `commitmsg_date.dfy` (`CommitDate`): the slider and seconds mappings,
  `tick_time`, and the date dialog as a class (`CommitDateDialog`). In that
  class the slider and the time field agree to within one step.
- `commitmsg_editor.dfy` (`CommitEditor`): the editor. `EditorState` is the
  editor's state as a value. The `...Step` functions are the operations on
  that value, and lemmas state their properties. The class
  `CommitMessageEditor` holds the same fields and updates them in place.
  Each method's postcondition ties its new `State()` to the step function
  applied to the old one. The module also holds `BuildCommitsMenu`, a loop
  that builds the menu.
- `commitmsg_keys.dfy` (`EditorKeys`): Up/Down key handling and the
  cursor-position label.

Inputs from outside the code become parameters:

- The mime-type guess is an `Option<string>`.
- The desktop theme is a function from names to icons that answers
  `NullIcon` for a name it does not have. Whether the toolkit offers theme
  lookup at all is a `bool`.
- The text wrapper is a function `(text, tabwidth, textwidth) -> text`.
- The latest commit's date is a `DateTime` value.
- The repository flags are booleans: staged, merging, modified, published,
  and the check-published preference.
- The user's answers to the two confirmations are booleans.
- The date dialog's result is a `DialogResult`: accepted with a formatted
  date and the chosen moment, or cancelled.

Four points of the code that the model follows closely:

- **Commit date reset.** `commit` only unchecks the "Set Commit Date"
  toggle (cola/widgets/commitmsg.py:507-509). The toggle's handler
  `set_commit_date` is connected to `triggered` (line 142), which
  `setChecked` does not emit, so `_git_commit_date` keeps its value. The
  date is still used only once: `commit` reads it only while the toggle is
  checked, and checking the toggle again goes through the dialog
  (lines 640-654, `CommitDateIsSingleUse`).
- **Mime order.** The mime table is tried in order, "text" first
  (cola/icons.py:15-19, 98-103). A mime type that contains both "text" and
  "image" gives the code icon; one that contains "image" and not "text"
  gives the media icon (`TextMimeGivesCodeIcon`, `ImageMimeGivesMediaIcon`).
- **Slider truncation.** The slider mappings truncate a float with `int(...)`
  (cola/widgets/commitmsg.py:811-812, 840-841). For values in range the
  truncated result equals the integer quotient: 86399 and 500 are coprime,
  so the exact quotient is never an integer within floating-point error of
  the product. The model uses integer division.
- **Commit menus.** `build_commits_menu` asks the log for 6 commits and shows
  every commit it gets, oldest first (cola/widgets/commitmsg.py:552-569).
  The `idx > 5` guard comes after the insertion, so it skips nothing.
  "More..." is offered when exactly 6 commits came back.

## Model

| member | source | states |
|---|---|---|
| PyText.FirstLineBreak | cola/widgets/commitmsg.py:351 | the index of the first line boundary, or the length when there is none; nothing before it is a boundary |
| PyText.SplitLines | cola/widgets/commitmsg.py:351 | no line holds a line boundary; there are no lines exactly when the message is empty |
| PyText.SplitLinesOfLine | cola/widgets/commitmsg.py:351 | a text without boundaries is one line, or none when empty |
| PyText.SplitLinesAfterBreak | cola/widgets/commitmsg.py:351 | any one boundary after a line without boundaries ends exactly that line, except `'\r'` followed by `'\n'` |
| PyText.SplitLinesAfterCRLF | cola/widgets/commitmsg.py:351 | `"\r\n"` after a line without boundaries is one boundary: it ends that line and starts no empty one |
| PyText.SplitLinesDropsFinalNewline | cola/widgets/commitmsg.py:351 | a final `'\n'` after a character that is no boundary starts no further line |
| PyText.Join | cola/widgets/commitmsg.py:378 | the length is the parts' total plus one separator between each two; the first part leads the result |
| PyText.JoinSplitLines | cola/widgets/commitmsg.py:351-378 | joining the lines with `'\n'` rebuilds a text whose only boundary is `'\n'` and that does not end with one |
| PyText.SplitLinesAfterLine | cola/widgets/commitmsg.py:351 | a `'\n'` after a line without boundaries ends exactly that line |
| PyText.IndexOf | cola/widgets/commitmsg.py:309-310 | the index of the first `'\n'`, or none exactly when there is no `'\n'` |
| PyText.LStrip | cola/widgets/commitmsg.py:311 | the result does not start with `'\n'` |
| PyText.LStripSplit | cola/widgets/commitmsg.py:311 | the input is a run of the stripped character followed by the result |
| PyText.LStripRun | cola/widgets/commitmsg.py:311 | stripping a run of newlines in front of a rest that does not start with one leaves exactly the rest |
| PyText.LeadingCount | cola/widgets/commitmsg.py:311 | the leading run ends at the first character that is not the stripped one |
| PyText.Lower | cola/icons.py:100-105 | same length; no ASCII capital remains; each capital is moved by 32 to its small letter and every other character is kept |
| PyText.Contains | cola/icons.py:102 | the substring test holds exactly when the substring occurs at some index |
| PyText.RFind | cola/icons.py:104 | the last index of the character, or -1; no later index holds it |
| PyText.Splitext | cola/icons.py:104 | root plus extension is the path; the extension is empty or one dot followed by no dot and no slash |
| PyText.ExtensionFromLastDot | cola/icons.py:104 | a last path component with a non-dot character before its last dot splits at that dot |
| PyText.LeadingDotsAreNotExtension | cola/icons.py:104 | a path whose last component has dots only at its start, such as `.bash` or `dir/.bash`, has no extension |
| PyText.DirDotfileHasNoExtension | cola/icons.py:104 | `dir/.bash` splits into itself and an empty extension |
| PyText.SplitextLower | cola/icons.py:104-105 | lower-casing a path lower-cases its root and its extension without moving the split point |
| PyText.Count | cola/widgets/commitmsg.py:920-938 | the count is the character's multiplicity in the text, at most its length |
| PyText.CountZeroIff | cola/widgets/commitmsg.py:920-938 | a newline count is zero exactly when no newline occurs |
| Icons.NameFromBasename | cola/icons.py:59-65 | the resource name is `icons:` followed by the basename |
| Icons.NameFromBasenameInjective | cola/icons.py:59-65 | different basenames give different resource names |
| Icons.FromName | cola/icons.py:68-71 | the icon is loaded from exactly the given name |
| Icons.FromNameInjective | cola/icons.py:68-71 | equal icons come from equal names |
| Icons.Icon | cola/icons.py:74-76 | the bundled icon is never null (every bundled icon is taken to load) |
| Icons.IconInjective | cola/icons.py:74-76 | different basenames give different bundled icons |
| Icons.IconResolvesPrefixedName | cola/icons.py:68-76 | `icon(b)` is the icon loaded from `icons:` + b and is never null |
| Icons.FromTheme | cola/icons.py:79-93 | never null, given that bundled icons load; a non-null theme icon for the name without its extension is returned; otherwise the bundled icon of the fallback, or of the name when the fallback is empty |
| Icons.FirstMimeMatch | cola/icons.py:98-103 | the icon of the first table entry whose substring occurs in the mime type; none exactly when no entry occurs |
| Icons.ExtensionIcon | cola/icons.py:104-105 | one of the four file icons |
| Icons.MimeIcon | cola/icons.py:98-103 | a mime match, when there is one, is one of the four file icons |
| Icons.BasenameFromFilename | cola/icons.py:96-105 | every filename and mime guess gives one of the four file icons |
| Icons.FromFilename | cola/icons.py:108-111 | the bundled icon whose basename is one of the four file icons |
| Icons.MimeOverridesExtension | cola/icons.py:98-103 | a matching mime guess gives the same icon for any two filenames |
| Icons.ImageMimeGivesMediaIcon | cola/icons.py:15-19 | a mime type containing "image" but not "text" gives `file-media.svg` for any filename |
| Icons.TextMimeGivesCodeIcon | cola/icons.py:15-19 | a mime type containing "text" gives `file-code.svg`, even if it also contains "image" |
| Icons.ExtensionFallback | cola/icons.py:104-105 | without a mime match the lower-cased extension is looked up in the table, unknown ones giving `file-text.svg` |
| Icons.ClassificationIgnoresCase | cola/icons.py:104-105 | filenames equal up to letter case get the same icon |
| Icons.ExtensionExamples | cola/icons.py:21-42 | `main.PY` and `main.py` both give `file-code.svg`; `.bash` gives `file-text.svg` |
| Icons.Status | cola/icons.py:129-139 | the status icon is one of the three status icons or one of the four file icons |
| Icons.StatusPrecedence | cola/icons.py:129-139 | each status icon appears exactly when its flag holds and no earlier one does; otherwise the filename classification decides |
| Icons.MkIcon | cola/icons.py:114-120 | None with a default becomes the default's result; a non-empty string becomes the icon loaded from it; anything else is returned unchanged |
| Icons.MkIconIdempotent | cola/icons.py:114-120 | without a default, applying `mkicon` twice is applying it once |
| CommitText.Compose | cola/widgets/commitmsg.py:278-291 | empty exactly when both fields are; starts with the summary; with a description, the summary, a blank line and the description |
| CommitText.FormattedDescription | cola/widgets/commitmsg.py:293-297 | without line breaking the description is unchanged |
| CommitText.ParseMessage | cola/widgets/commitmsg.py:348-378 | the summary holds no line boundary and the description no boundary other than `'\n'`; an empty message gives two empty fields |
| CommitText.NewlineMessageIsEmpty | cola/widgets/commitmsg.py:351-356 | a message that is only `'\n'` also gives two empty fields |
| CommitText.ParseWithoutBlankSeparator | cola/widgets/commitmsg.py:365-378 | when the line after the summary is not blank, the description is everything after the summary's line |
| CommitText.ParseDependsOnLines | cola/widgets/commitmsg.py:351-378 | two messages with the same lines parse alike |
| CommitText.ParsedSummaryIsFirstLine | cola/widgets/commitmsg.py:351-372 | the summary is the message up to its first line boundary |
| CommitText.ComposeParseRoundTrip | cola/widgets/commitmsg.py:285-378 | parsing the composed message gives back the summary and the description |
| CommitText.TrailingNewlineIsDropped | cola/widgets/commitmsg.py:285-378 | exactly one trailing `'\n'` of the description is lost: a description without one, given one, comes back without it |
| CommitText.PasteSplit | cola/widgets/commitmsg.py:308-318 | the new summary has no newline and is the text before the first one; without a newline both fields are unchanged |
| CommitText.PasteSplitKeepsText | cola/widgets/commitmsg.py:308-318 | a pasted value holding a newline is a line without newlines, one or more newlines and a rest not starting with one; the line becomes the summary and the rest leads the description, joined to a non-empty old description by one newline |
| CommitText.PasteSplitOfPaste | cola/widgets/commitmsg.py:308-318 | pasting a line, one or more newlines and a rest gives back that line as the summary and the rest in front of the current description |
| CommitText.PasteSplitIdempotent | cola/widgets/commitmsg.py:308-318 | repairing the repaired fields changes nothing |
| CommitDate.SliderToSeconds | cola/widgets/commitmsg.py:804-817 | the seconds lie in 0..86399 and are the largest whole number at most value/500 of 86399 |
| CommitDate.SecondsToSlider | cola/widgets/commitmsg.py:833-843 | the slider value lies in 0..500 and is the largest whole number at most seconds/86399 of 500 |
| CommitDate.TimeToSeconds | cola/widgets/commitmsg.py:835-837 | a clock time is 0..86399 seconds after midnight, and hour, minute and second read back from it |
| CommitDate.SliderEnds | cola/widgets/commitmsg.py:697 | slider 0 is midnight and slider 500 is 23:59:59, both ways |
| CommitDate.SliderToSecondsMonotone | cola/widgets/commitmsg.py:804-817 | a larger slider value never gives an earlier time |
| CommitDate.SecondsToSliderMonotone | cola/widgets/commitmsg.py:833-843 | a later time never gives a smaller slider value |
| CommitDate.SliderRoundTrip | cola/widgets/commitmsg.py:804-843 | slider to time and back gives v or v-1 |
| CommitDate.SecondsRoundTrip | cola/widgets/commitmsg.py:804-843 | time to slider and back loses at most one step (173 seconds) and never moves forward |
| CommitDate.TickTime | cola/widgets/commitmsg.py:777-783 | the result is a valid date and time exactly 172 seconds later |
| CommitDate.OneTickValue | cola/widgets/commitmsg.py:780-782 | one step is 86399 div 500 = 172 seconds |
| CommitDate.CommitDateDialog.constructor | cola/widgets/commitmsg.py:757-761 | opens on the given date, or one step after the latest commit, with the slider matching the time |
| CommitDate.CommitDateDialog.SliderChanged | cola/widgets/commitmsg.py:804-817 | the time follows the slider, the date is unchanged, and slider and time agree within one step |
| CommitDate.CommitDateDialog.TimeChanged | cola/widgets/commitmsg.py:824-843 | the time becomes the edited clock time's seconds since midnight, the slider follows it, and the date is unchanged |
| CommitDate.CommitDateDialog.ResetCommitTime | cola/widgets/commitmsg.py:845-852 | date, time and slider move to the latest commit's time |
| CommitDate.CommitDateDialog.Chosen | cola/widgets/commitmsg.py:785-798 | the moment chosen is the calendar's date with the time field's time, and it is valid |
| CommitEditor.MessageOf | cola/widgets/commitmsg.py:278-291 | the raw message is the composition of the fields; every message starts with the summary |
| CommitEditor.MessageWrapsOnlyWithLinebreak | cola/widgets/commitmsg.py:278-297 | the message committed equals the raw message unless line breaking is on; then its description is wrapped |
| CommitEditor.MessageChangedStep | cola/widgets/commitmsg.py:321-326 | the model gets the raw message; only the model's message and the commit action change; the result is consistent exactly when the date toggle is checked only with a date |
| CommitEditor.PublishedMessageReadsBack | cola/widgets/commitmsg.py:321-326 | the published message parses back into the editor's fields |
| CommitEditor.SummaryChangedStep | cola/widgets/commitmsg.py:299-326 | the summary ends without a newline, the model gets the raw message, commit is enabled exactly when the summary is non-empty; consistent whenever the date toggle was checked only with a date |
| CommitEditor.SummaryChangedIdempotent | cola/widgets/commitmsg.py:299-319 | a second summary change right after the first changes nothing |
| CommitEditor.SetCommitMessageStep | cola/widgets/commitmsg.py:348-400 | the summary gets no line boundary; focus goes to the empty summary, else to the empty description; consistency is kept |
| CommitEditor.SetCommitMessageRestoresFields | cola/widgets/commitmsg.py:348-387 | loading a composed message restores the fields it came from |
| CommitEditor.SetModeStep | cola/widgets/commitmsg.py:424-436 | entering amend mode backs up the chosen date and loads the latest commit's; other modes restore the backup and clear it; the fields and the date toggle are unchanged |
| CommitEditor.ClearStep | cola/widgets/commitmsg.py:328-338 | on a confirmed clear only the model's message changes, to empty; on a declined one nothing changes |
| CommitEditor.ClearThenReloadEmpties | cola/widgets/commitmsg.py:328-338 | loading the cleared message empties both fields, disables commit and focuses the summary |
| CommitEditor.SetModeToggles | cola/widgets/commitmsg.py:424-429 | the amend toggle is enabled exactly when no merge is in progress and checked exactly in amend mode |
| CommitEditor.AmendEnterLeaveRestores | cola/widgets/commitmsg.py:430-436 | entering then leaving amend mode restores the previous commit date and clears the backup |
| CommitEditor.AmendReenterLosesBackup | cola/widgets/commitmsg.py:430-433 | entering amend mode twice stores the first amend-time date over the earlier one |
| CommitEditor.SetCommitDateStep | cola/widgets/commitmsg.py:640-654 | unchecking forgets the date; an accepted date is stored with the next date one step later; the toggle stays checked exactly when a date was accepted |
| CommitEditor.CommitStep | cola/widgets/commitmsg.py:438-528 | an abort changes nothing; a submitted task has the formatted message and ends with both one-shot toggles off; the fields are never changed |
| CommitEditor.CommitSubmitsIff | cola/widgets/commitmsg.py:441-502 | a task is created exactly when there is a summary, something staged or a merge or accepted staging, and no declined amend-published confirmation |
| CommitEditor.CommitAbortReasons | cola/widgets/commitmsg.py:441-502 | empty summary, nothing to commit and declined staging each abort exactly in their case; a declined amend needs amend, check-published and published |
| CommitEditor.CommitStagesOnlyWhenAccepted | cola/widgets/commitmsg.py:459-480 | modified files are staged exactly when nothing is staged, no merge runs, files are modified and the user accepts |
| CommitEditor.CommitTaskAndResets | cola/widgets/commitmsg.py:454-522 | the task carries amend, sign and no-verify as read before the resets, the formatted message, and the date exactly when the date toggle was checked; both one-shot toggles end off; an abort changes nothing |
| CommitEditor.CommitKeepsConsistent | cola/widgets/commitmsg.py:504-511 | a commit attempt keeps the editor consistent |
| CommitEditor.CommitDateIsSingleUse | cola/widgets/commitmsg.py:504-511 | the next commit after a submitted one carries no date and does not bypass hooks |
| CommitEditor.CommitMessageEditor.constructor | cola/widgets/commitmsg.py:48-231 | empty fields, commit disabled, toggles off except signing as configured |
| CommitEditor.CommitMessageEditor.SetTabwidth | cola/widgets/commitmsg.py:405-407 | only the tab width changes |
| CommitEditor.CommitMessageEditor.SetTextwidth | cola/widgets/commitmsg.py:409-411 | only the text width changes |
| CommitEditor.CommitMessageEditor.SetLinebreak | cola/widgets/commitmsg.py:413-417 | only the line-break flag changes |
| CommitEditor.CommitMessageEditor.UpdateActions | cola/widgets/commitmsg.py:340-342 | commit is enabled exactly when the summary is non-empty, nothing else changes |
| CommitEditor.CommitMessageEditor.MessageChanged | cola/widgets/commitmsg.py:321-326 | the state after is the message-changed step of the state before |
| CommitEditor.CommitMessageEditor.DescriptionChanged | cola/widgets/commitmsg.py:321-326 | the description edit (connected at line 220) gives the message-changed step of the state with the new description, and consistency is kept |
| CommitEditor.CommitMessageEditor.SetSign | cola/widgets/commitmsg.py:151-155 | only the sign toggle changes |
| CommitEditor.CommitMessageEditor.SetBypassHooks | cola/widgets/commitmsg.py:144-149 | only the bypass-hooks toggle changes |
| CommitEditor.CommitMessageEditor.SummaryChanged | cola/widgets/commitmsg.py:299-326 | the state after is the summary-changed step of the state with the new summary text, taken while the commit action still reflects the old text, and consistency is restored |
| CommitEditor.CommitMessageEditor.Clear | cola/widgets/commitmsg.py:328-338 | the state after is the clear step for the user's answer, and consistency is kept |
| CommitEditor.CommitMessageEditor.SetCommitMessage | cola/widgets/commitmsg.py:348-400 | state and focus are those of the parse step |
| CommitEditor.CommitMessageEditor.SetMode | cola/widgets/commitmsg.py:424-436 | the state after is the set-mode step |
| CommitEditor.CommitMessageEditor.SetCommitDate | cola/widgets/commitmsg.py:640-654 | the state after is the set-commit-date step, and consistency is kept |
| CommitEditor.CommitMessageEditor.Commit | cola/widgets/commitmsg.py:438-528 | the state and the result are those of the commit decision step |
| CommitEditor.BuildCommitsMenu | cola/widgets/commitmsg.py:552-569 | one entry per commit, oldest first, titled prefix + summary; "More..." exactly when 6 commits came back |
| EditorKeys.KeyPress | cola/widgets/commitmsg.py:904-946 | a cursor move stays within the text and extends the selection exactly when Shift is held |
| EditorKeys.UpOnFirstLine | cola/widgets/commitmsg.py:905-932 | Up passes through exactly when a newline precedes the cursor; it leaves the field exactly at position 0 without a selection, and resets the cursor exactly at position 0 with one; past position 0 on the first line it moves to the start |
| EditorKeys.DownOnLastLine | cola/widgets/commitmsg.py:933-945 | Down moves to the end exactly when no newline follows the cursor, and passes through otherwise |
| EditorKeys.OtherKeysPassThrough | cola/widgets/commitmsg.py:946 | other keys get the default handling |
| EditorKeys.CursorColor | cola/widgets/commitmsg.py:620-627 | there is no colour exactly up to column 64 |
| EditorKeys.CursorColorMonotone | cola/widgets/commitmsg.py:620-627 | severity never decreases to the right: yellow past 64, orange past 72, red past 78 |
| EditorKeys.Pad2Value | cola/widgets/commitmsg.py:619 | the two-digit padded text denotes the number |
| EditorKeys.DigitsAreDigits | cola/widgets/commitmsg.py:619 | the decimal text of a number is all digits |
| EditorKeys.PositionText | cola/widgets/commitmsg.py:619 | the label text is at least five characters long |
| EditorKeys.PositionTextReadsBack | cola/widgets/commitmsg.py:619 | the label is one `':'` between two runs of at least two digits that denote the row and the column |

## Left out

- Qt plumbing: layouts, fonts, the label's stylesheet (its radius comes from a value defined elsewhere), focus calls, signal blocking, timers, menus, tool buttons and `showEvent`.
- `_adjust_slider`: it relies on the slider's own clamping to 0..500, which is the toolkit's behaviour and not part of this code.
- The background commit task (`runtask.start`, `SimpleTask`) and `_commit_finished`: these are concurrency and result reporting. `Commit` returns the task record instead.
- `_get_latest_commit_datetime`: it runs `git log`, reads the clock and parses ISO dates. The latest commit's date is a parameter.
- `CommitDateDialog.commit_date` and `datetime`: `strftime` formatting and `astimezone`. The formatted date is an input, and `DateTime` has no time zone and no microseconds.
- `textwrap.word_wrap` is not part of this model. It is the `wrap` parameter.
- Spell checking (`toggle_check_spelling`, `config_changed`, the spell checker): its word registration calls a dictionary that is not part of this model.
- `choose_commit`, `choose_commit_message` and `choose_fixup_commit`: each runs a dialog and then a command in the `cmds` layer, which is not part of this model.
- `clear`'s confirmation dialog becomes the `confirmed` parameter. `set_commitmsg` belongs to the main model, which is not part of this model. Its notification back to the editor is stated by `ClearThenReloadEmpties` as a call of the load step.
- `CommitSummaryLineEdit._update_summary_text`: `_comment_char` starts as None and `_refresh_config` never sets it, so the stripping branch never runs.
- The `cmds.StageModified` command itself. `CommitRun.stagedModified` records that it ran.
- Icons: `install`, `icon_themes`, `from_style` and the named icon helpers (`three_bars`, `add`, ...) are resource and theme setup or fixed calls of `from_theme`/`icon`. The mime guess (`core.guess_mimetype`) is an input.
- PyText.Splitext: only POSIX `os.path.splitext` is modelled. On Windows `ntpath` also treats the backslash as a separator, which the model does not.
- Icons.Icon: a `QIcon` from a resource that is missing or does not load is null in Qt. The model takes every bundled icon to load, so `Icon` and `FromTheme`'s fallback are never null.
- Icons.FromName: the memoize cache is not modelled, so the rule that the same name gives the same handle instance is not modelled. Equal names give equal values.
- PyText.Lower: only ASCII letters are lower-cased. Python also lower-cases other letters, a few of which become ASCII (the Kelvin sign becomes `k`).
- EditorKeys.KeyPress: `anchor_mode` and `set_cursor_position` live in another file. They are taken to keep the anchor exactly when Shift is held, and to reset the cursor to 0.
- CommitEditor.BuildCommitsMenu: the log reader and its length are not part of this model. Its length is taken to be the number of commits it returned.
- The editor reads both fields through `get`/`value`. The model takes these to be the fields' text. Any trimming those helpers do elsewhere is not modelled.
