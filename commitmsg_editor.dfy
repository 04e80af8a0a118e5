/**
 The commit message editor's state and the operations that change it:
 the summary-changed repair, loading a message, the amend mode switch,
 choosing a commit date, and the commit decision procedure with its
 one-shot resets.
 */
module CommitEditor {
  import opened Wrappers
  import opened PyText
  import opened CommitText
  import opened CommitDate

  /** The editor's fields and the check states of its toggle actions. */
  datatype EditorState = EditorState(
    summary: string,
    description: string,
    /** The shared model's copy of the commit message. */
    modelMessage: string,
    /** Whether the commit action and button are enabled. */
    commitEnabled: bool,
    linebreak: bool,
    tabwidth: int,
    textwidth: int,
    amendEnabled: bool,
    amendChecked: bool,
    signChecked: bool,
    bypassHooksChecked: bool,
    commitDateChecked: bool,
    lastCommitDatetime: Option<DateTime>,
    lastCommitDatetimeBackup: Option<DateTime>,
    gitCommitDate: Option<string>)

  /**
   What every operation keeps: the commit action is enabled exactly when
   there is a summary, and the commit-date toggle is only ever checked
   while a chosen date is stored.
   */
  predicate Consistent(st: EditorState)
  {
    && st.commitEnabled == (st.summary != "")
    && (st.commitDateChecked ==> st.gitCommitDate.Some?)
  }

  /** `commit_message(raw)` on the editor's fields; `wrap` is the text wrapper. */
  function MessageOf(st: EditorState, raw: bool, wrap: (string, int, int) -> string): (msg: string)
    ensures raw ==> msg == Compose(st.summary, st.description)
    ensures |msg| >= |st.summary| && msg[..|st.summary|] == st.summary
  {
    var description :=
      if raw then st.description
      else FormattedDescription(st.description, st.linebreak, st.tabwidth, st.textwidth, wrap);
    Compose(st.summary, description)
  }

  /** The raw message and the message committed agree whenever line breaking is off. */
  lemma MessageWrapsOnlyWithLinebreak(st: EditorState, wrap: (string, int, int) -> string)
    ensures !st.linebreak ==> MessageOf(st, false, wrap) == MessageOf(st, true, wrap)
    ensures st.linebreak ==>
      MessageOf(st, false, wrap) == Compose(st.summary, wrap(st.description, st.tabwidth, st.textwidth))
  {
  }

  /** `_commit_message_changed`: publish the raw message to the model, then `update_actions`. */
  function MessageChangedStep(st: EditorState): (st': EditorState)
    ensures st'.modelMessage == MessageOf(st, true, (t, _, _) => t)
    ensures Consistent(st') <==> (st.commitDateChecked ==> st.gitCommitDate.Some?)
    ensures st'.(modelMessage := st.modelMessage, commitEnabled := st.commitEnabled) == st
  {
    st.(modelMessage := Compose(st.summary, st.description), commitEnabled := st.summary != "")
  }

  /** The message published to the model parses back into the editor's fields. */
  lemma PublishedMessageReadsBack(st: EditorState)
    requires NoLineBreak(st.summary) && OnlyNewlineBreaks(st.description)
    requires st.description == "" || st.description[|st.description| - 1] != '\n'
    ensures ParseMessage(MessageChangedStep(st).modelMessage) == Message(st.summary, st.description)
  {
    ComposeParseRoundTrip(st.summary, st.description);
  }

  /** `commit_summary_changed`: repair a multi-line summary, then publish the message. */
  function SummaryChangedStep(st: EditorState): (st': EditorState)
    ensures '\n' !in st'.summary
    ensures st'.commitEnabled == (st'.summary != "") && st'.modelMessage == Compose(st'.summary, st'.description)
    ensures (st.commitDateChecked ==> st.gitCommitDate.Some?) ==> Consistent(st')
    ensures '\n' !in st.summary ==> st' == MessageChangedStep(st)
  {
    var st1 :=
      if '\n' in st.summary then
        var m := PasteSplit(st.summary, st.description);
        st.(summary := m.summary, description := m.description)
      else st;
    MessageChangedStep(st1)
  }

  lemma SummaryChangedFields(st: EditorState, summary: string, description: string)
    requires '\n' in st.summary ==> Message(summary, description) == PasteSplit(st.summary, st.description)
    requires '\n' !in st.summary ==> summary == st.summary && description == st.description
    ensures SummaryChangedStep(st) == MessageChangedStep(st.(summary := summary, description := description))
  {
    if '\n' !in st.summary {
      assert st.(summary := summary, description := description) == st;
    }
  }

  /** A second summary change right after the first changes nothing. */
  lemma SummaryChangedIdempotent(st: EditorState)
    ensures SummaryChangedStep(SummaryChangedStep(st)) == SummaryChangedStep(st)
  {
  }

  /** Which field `set_commit_message` focuses: the summary if empty, else the description if empty. */
  datatype Focus = FocusSummary | FocusDescription | KeepFocus

  /** `set_commit_message`: the model's message changed to `message`; fill both fields from it. */
  function SetCommitMessageStep(st: EditorState, message: string): (r: (EditorState, Focus))
    ensures Consistent(st) ==> Consistent(r.0)
    ensures NoLineBreak(r.0.summary) && r.0.modelMessage == message
    ensures r.1 == FocusSummary <==> r.0.summary == ""
    ensures r.1 == FocusDescription <==> r.0.summary != "" && r.0.description == ""
  {
    var m := ParseMessage(message);
    var focus :=
      if m.summary == "" then FocusSummary
      else if m.description == "" then FocusDescription
      else KeepFocus;
    (st.(summary := m.summary, description := m.description, modelMessage := message,
         commitEnabled := m.summary != ""), focus)
  }

  lemma SetCommitMessageUnfold(st: EditorState, message: string, m: Message, focus: Focus)
    requires m == ParseMessage(message)
    requires focus == if m.summary == "" then FocusSummary else if m.description == "" then FocusDescription else KeepFocus
    ensures SetCommitMessageStep(st, message)
         == (st.(summary := m.summary, description := m.description, modelMessage := message,
                 commitEnabled := m.summary != ""), focus)
  {
  }

  /** Loading a composed message restores the fields it was composed from. */
  lemma SetCommitMessageRestoresFields(st: EditorState, summary: string, description: string)
    requires NoLineBreak(summary) && OnlyNewlineBreaks(description)
    requires description == "" || description[|description| - 1] != '\n'
    ensures var st' := SetCommitMessageStep(st, Compose(summary, description)).0;
      st'.summary == summary && st'.description == description
  {
    ComposeParseRoundTrip(summary, description);
  }

  /**
   `set_mode`: `isAmend` says whether the new mode is the amend mode.
   Entering amend mode stores the last chosen commit date and loads
   `latest`, the latest commit's date; any other mode restores the stored
   date and clears the store. Amending is offered unless a merge is in progress.
   */
  function SetModeStep(st: EditorState, isAmend: bool, merging: bool, latest: DateTime): (st': EditorState)
    ensures isAmend ==> st'.lastCommitDatetime == Some(latest) && st'.lastCommitDatetimeBackup == st.lastCommitDatetime
    ensures !isAmend ==> st'.lastCommitDatetime == st.lastCommitDatetimeBackup && st'.lastCommitDatetimeBackup == None
    ensures st'.summary == st.summary && st'.description == st.description && st'.modelMessage == st.modelMessage
    ensures st'.commitDateChecked == st.commitDateChecked && st'.gitCommitDate == st.gitCommitDate
  {
    st.(amendEnabled := !merging,
        amendChecked := isAmend,
        lastCommitDatetimeBackup := if isAmend then st.lastCommitDatetime else None,
        lastCommitDatetime := if isAmend then Some(latest) else st.lastCommitDatetimeBackup)
  }

  /**
   `clear`: `confirmed` is the answer to "Clear commit message?". On yes
   the model's message becomes empty; on no nothing changes.
   */
  function ClearStep(st: EditorState, confirmed: bool): (st': EditorState)
    ensures !confirmed ==> st' == st
    ensures confirmed ==> st'.modelMessage == "" && st'.(modelMessage := st.modelMessage) == st
    ensures Consistent(st') == Consistent(st)
  {
    if confirmed then st.(modelMessage := "") else st
  }

  /**
   The model announces the cleared message back to the editor, which
   loads it: both fields end empty, commit is disabled and the summary
   gets the focus.
   */
  lemma ClearThenReloadEmpties(st: EditorState)
    ensures var (st', focus) := SetCommitMessageStep(ClearStep(st, true), "");
      st'.summary == "" && st'.description == "" && st'.modelMessage == "" && !st'.commitEnabled && focus == FocusSummary
  {
  }

  /** The amend toggle is enabled exactly when no merge is in progress, and checked exactly in amend mode. */
  lemma SetModeToggles(st: EditorState, isAmend: bool, merging: bool, latest: DateTime)
    ensures var st' := SetModeStep(st, isAmend, merging, latest);
      (st'.amendEnabled <==> !merging) && (st'.amendChecked <==> isAmend) && Consistent(st') == Consistent(st)
  {
  }

  /** Entering amend mode and leaving it again gives back the commit date chosen before, and clears the store. */
  lemma AmendEnterLeaveRestores(st: EditorState, m1: bool, m2: bool, latest1: DateTime, latest2: DateTime)
    ensures var st' := SetModeStep(SetModeStep(st, true, m1, latest1), false, m2, latest2);
      st'.lastCommitDatetime == st.lastCommitDatetime && st'.lastCommitDatetimeBackup == None
  {
  }

  /** Entering amend mode twice in a row stores the amend-time date over the one chosen before. */
  lemma AmendReenterLosesBackup(st: EditorState, latest1: DateTime, latest2: DateTime)
    ensures SetModeStep(SetModeStep(st, true, false, latest1), true, false, latest2).lastCommitDatetimeBackup == Some(latest1)
  {
  }

  /** What the date dialog ended with: the chosen date, formatted for git and as a date, or a cancel. */
  datatype DialogResult = Accepted(commitDate: string, chosen: DateTime) | Rejected

  /**
   `set_commit_date`: the user toggled "Set Commit Date" to `enabled`.
   Unchecking forgets the chosen date; checking opens the dialog, whose
   accepted date is stored (and the date after it remembered for next
   time), and whose cancel unchecks the toggle again.
   */
  function SetCommitDateStep(st: EditorState, enabled: bool, dialog: DialogResult): (st': EditorState)
    requires dialog.Accepted? ==> ValidDateTime(dialog.chosen)
    ensures Consistent(st) ==> Consistent(st')
    ensures st'.commitDateChecked <==> enabled && dialog.Accepted?
    ensures !enabled ==> st'.gitCommitDate == None
    ensures enabled && dialog.Accepted? ==>
      st'.gitCommitDate == Some(dialog.commitDate) && st'.lastCommitDatetime.Some? &&
      Instant(st'.lastCommitDatetime.value) == Instant(dialog.chosen) + OneTick
  {
    if !enabled then st.(commitDateChecked := false, gitCommitDate := None)
    else
      match dialog
      case Accepted(date, chosen) =>
        st.(commitDateChecked := true, gitCommitDate := Some(date), lastCommitDatetime := Some(TickTime(chosen)))
      case Rejected => st.(commitDateChecked := false)
  }

  /** The repository state and the user's answers a commit attempt depends on. */
  datatype CommitEnv = CommitEnv(
    staged: bool,
    merging: bool,
    modified: bool,
    checkPublished: bool,
    published: bool,
    /** The answer to "Stage and commit?" if asked. */
    confirmStage: bool,
    /** The answer to "Rewrite Published Commit?" if asked. */
    confirmAmend: bool)

  /** The request handed to the background commit. */
  datatype CommitTask = CommitTask(amend: bool, msg: string, sign: bool, noVerify: bool, date: Option<string>)

  datatype AbortReason = MissingMessage | NothingToCommit | StageDeclined | AmendDeclined

  datatype CommitOutcome = Aborted(reason: AbortReason) | Submitted(task: CommitTask)

  /** The outcome of a commit attempt and whether it staged the modified files first. */
  datatype CommitRun = CommitRun(stagedModified: bool, outcome: CommitOutcome)

  /** `commit`: decide whether to commit, build the task, and reset the one-shot toggles. */
  function CommitStep(st: EditorState, env: CommitEnv, wrap: (string, int, int) -> string): (r: (EditorState, CommitRun))
    ensures r.1.outcome.Aborted? ==> r.0 == st
    ensures r.1.outcome.Submitted? ==> !r.0.bypassHooksChecked && !r.0.commitDateChecked
    ensures r.0.summary == st.summary && r.0.description == st.description && r.0.modelMessage == st.modelMessage
    ensures r.1.outcome.Submitted? ==> r.1.outcome.task.msg == MessageOf(st, false, wrap)
  {
    if st.summary == "" then (st, CommitRun(false, Aborted(MissingMessage)))
    else
      var msg := MessageOf(st, false, wrap);
      var needStage := !(env.staged || env.merging);
      if needStage && !env.modified then (st, CommitRun(false, Aborted(NothingToCommit)))
      else if needStage && !env.confirmStage then (st, CommitRun(false, Aborted(StageDeclined)))
      else
        var amend := st.amendChecked;
        if amend && env.checkPublished && env.published && !env.confirmAmend then
          (st, CommitRun(needStage, Aborted(AmendDeclined)))
        else
          var date := if st.commitDateChecked then st.gitCommitDate else None;
          var task := CommitTask(amend, msg, st.signChecked, st.bypassHooksChecked, date);
          (st.(bypassHooksChecked := false, commitDateChecked := false), CommitRun(needStage, Submitted(task)))
  }

  /** A task is created exactly when there is a summary, something to commit, and no confirmation is declined. */
  lemma CommitSubmitsIff(st: EditorState, env: CommitEnv, wrap: (string, int, int) -> string)
    ensures CommitStep(st, env, wrap).1.outcome.Submitted? <==>
      && st.summary != ""
      && (env.staged || env.merging || (env.modified && env.confirmStage))
      && !(st.amendChecked && env.checkPublished && env.published && !env.confirmAmend)
  {
  }

  /** Each abort reason, in the order the checks are made. */
  lemma CommitAbortReasons(st: EditorState, env: CommitEnv, wrap: (string, int, int) -> string)
    ensures var run := CommitStep(st, env, wrap).1;
      && (run.outcome == Aborted(MissingMessage) <==> st.summary == "")
      && (run.outcome == Aborted(NothingToCommit) <==>
            st.summary != "" && !env.staged && !env.merging && !env.modified)
      && (run.outcome == Aborted(StageDeclined) <==>
            st.summary != "" && !env.staged && !env.merging && env.modified && !env.confirmStage)
      && (run.outcome == Aborted(AmendDeclined) ==> st.amendChecked && env.checkPublished && env.published)
  {
  }

  /** Modified files are staged exactly when there is a summary, nothing staged, no merge, and the user accepts. */
  lemma CommitStagesOnlyWhenAccepted(st: EditorState, env: CommitEnv, wrap: (string, int, int) -> string)
    ensures CommitStep(st, env, wrap).1.stagedModified <==>
      st.summary != "" && !env.staged && !env.merging && env.modified && env.confirmStage
  {
  }

  /**
   The task carries the toggles as they were before the one-shot resets,
   the formatted message, and the chosen date exactly when the date toggle
   was checked; afterwards both one-shot toggles are off and nothing else
   changed. An abort changes nothing.
   */
  lemma CommitTaskAndResets(st: EditorState, env: CommitEnv, wrap: (string, int, int) -> string)
    ensures var (st', run) := CommitStep(st, env, wrap);
      match run.outcome
      case Submitted(task) =>
        && task.amend == st.amendChecked && task.sign == st.signChecked
        && task.noVerify == st.bypassHooksChecked
        && task.msg == MessageOf(st, false, wrap)
        && task.date == (if st.commitDateChecked then st.gitCommitDate else None)
        && st' == st.(bypassHooksChecked := false, commitDateChecked := false)
      case Aborted(_) => st' == st
  {
  }

  /** Every commit attempt keeps the editor consistent. */
  lemma CommitKeepsConsistent(st: EditorState, env: CommitEnv, wrap: (string, int, int) -> string)
    requires Consistent(st)
    ensures Consistent(CommitStep(st, env, wrap).0)
  {
  }

  /** A chosen commit date is used once: the next commit, without choosing again, carries no date and keeps the hooks. */
  lemma CommitDateIsSingleUse(st: EditorState, env1: CommitEnv, env2: CommitEnv, wrap: (string, int, int) -> string)
    requires CommitStep(st, env1, wrap).1.outcome.Submitted?
    ensures var next := CommitStep(CommitStep(st, env1, wrap).0, env2, wrap).1.outcome;
      next.Submitted? ==> next.task.date == None && !next.task.noVerify
  {
  }

  /** The editor widget: its fields, its toggles, and the text wrapper it uses. */
  class CommitMessageEditor {
    var summary: string
    var description: string
    var modelMessage: string
    var commitEnabled: bool
    var linebreak: bool
    var tabwidth: int
    var textwidth: int
    var amendEnabled: bool
    var amendChecked: bool
    var signChecked: bool
    var bypassHooksChecked: bool
    var commitDateChecked: bool
    var lastCommitDatetime: Option<DateTime>
    var lastCommitDatetimeBackup: Option<DateTime>
    var gitCommitDate: Option<string>
    const wrap: (string, int, int) -> string

    /** The editor's state as a value. */
    function State(): EditorState
      reads this
    {
      EditorState(summary, description, modelMessage, commitEnabled, linebreak, tabwidth, textwidth,
                  amendEnabled, amendChecked, signChecked, bypassHooksChecked, commitDateChecked,
                  lastCommitDatetime, lastCommitDatetimeBackup, gitCommitDate)
    }

    ghost predicate Valid()
      reads this
    {
      Consistent(State())
    }

    /** A fresh editor: empty fields, commit disabled, signing and line breaking as configured. */
    constructor (signDefault: bool, linebreakDefault: bool, tabwidthDefault: int, textwidthDefault: int,
                 initialMessage: string, wrapper: (string, int, int) -> string)
      ensures Valid() && wrap == wrapper
      ensures State() == EditorState("", "", initialMessage, false, linebreakDefault, tabwidthDefault,
                                     textwidthDefault, true, false, signDefault, false, false, None, None, None)
    {
      summary, description, modelMessage, commitEnabled := "", "", initialMessage, false;
      linebreak, tabwidth, textwidth := linebreakDefault, tabwidthDefault, textwidthDefault;
      amendEnabled, amendChecked, signChecked := true, false, signDefault;
      bypassHooksChecked, commitDateChecked := false, false;
      lastCommitDatetime, lastCommitDatetimeBackup, gitCommitDate := None, None, None;
      wrap := wrapper;
    }

    /** `set_tabwidth`. */
    method SetTabwidth(width: int)
      modifies this
      ensures State() == old(State()).(tabwidth := width)
    {
      tabwidth := width;
    }

    /** `set_textwidth`. */
    method SetTextwidth(width: int)
      modifies this
      ensures State() == old(State()).(textwidth := width)
    {
      textwidth := width;
    }

    /** `set_linebreak`: the auto-wrap toggle and the flag follow `brk`. */
    method SetLinebreak(brk: bool)
      modifies this
      ensures State() == old(State()).(linebreak := brk)
    {
      linebreak := brk;
    }

    /** `update_actions`. */
    method UpdateActions()
      modifies this
      ensures State() == old(State()).(commitEnabled := old(summary) != "")
    {
      commitEnabled := summary != "";
    }

    /** `_commit_message_changed`: publish the fields as they are. */
    method MessageChanged()
      modifies this
      ensures State() == MessageChangedStep(old(State()))
    {
      modelMessage := Compose(summary, description);
      UpdateActions();
    }

    /** The description field's text became `text`, which fires `_commit_message_changed`. */
    method DescriptionChanged(text: string)
      requires Valid()
      modifies this
      ensures Valid()
      ensures State() == MessageChangedStep(old(State()).(description := text))
    {
      description := text;
      MessageChanged();
    }

    /** The user toggled "Create Signed Commit". */
    method SetSign(checked: bool)
      requires Valid()
      modifies this
      ensures Valid()
      ensures State() == old(State()).(signChecked := checked)
    {
      signChecked := checked;
    }

    /** The user toggled "Bypass Commit Hooks". */
    method SetBypassHooks(checked: bool)
      requires Valid()
      modifies this
      ensures Valid()
      ensures State() == old(State()).(bypassHooksChecked := checked)
    {
      bypassHooksChecked := checked;
    }

    /**
     The summary field's text became `value`, which fires
     `commit_summary_changed` while the commit action still reflects the
     text before the edit.
     */
    method SummaryChanged(value: string)
      requires Valid()
      modifies this
      ensures Valid()
      ensures State() == SummaryChangedStep(old(State()).(summary := value))
    {
      var newSummary, newDescription := value, description;
      if '\n' in value {
        var m := PasteSplit(value, description);
        newSummary, newDescription := m.summary, m.description;
      }
      SummaryChangedFields(State().(summary := value), newSummary, newDescription);
      summary, description := newSummary, newDescription;
      MessageChanged();
    }

    /** `clear`, after the user answered the confirmation with `confirmed`. */
    method Clear(confirmed: bool)
      requires Valid()
      modifies this
      ensures Valid()
      ensures State() == ClearStep(old(State()), confirmed)
    {
      if !confirmed {
        return;
      }
      modelMessage := "";
    }

    /** `set_commit_message`. */
    method SetCommitMessage(message: string) returns (focus: Focus)
      requires Valid()
      modifies this
      ensures Valid()
      ensures State() == SetCommitMessageStep(old(State()), message).0
      ensures focus == SetCommitMessageStep(old(State()), message).1
    {
      var m := ParseMessage(message);
      var focusSummary := m.summary == "";
      var focusDescription := m.description == "";
      summary := m.summary;
      description := m.description;
      modelMessage := message;
      if focusSummary {
        focus := FocusSummary;
      } else if focusDescription {
        focus := FocusDescription;
      } else {
        focus := KeepFocus;
      }
      UpdateActions();
    }

    /** `set_mode`. */
    method SetMode(isAmend: bool, merging: bool, latest: DateTime)
      requires Valid()
      modifies this
      ensures Valid()
      ensures State() == SetModeStep(old(State()), isAmend, merging, latest)
    {
      amendEnabled := !merging;
      amendChecked := isAmend;
      if isAmend {
        lastCommitDatetimeBackup := lastCommitDatetime;
        lastCommitDatetime := Some(latest);
      } else {
        lastCommitDatetime := lastCommitDatetimeBackup;
        lastCommitDatetimeBackup := None;
      }
    }

    /** `set_commit_date`, after the user toggled the action to `enabled`. */
    method SetCommitDate(enabled: bool, dialog: DialogResult)
      requires Valid()
      requires dialog.Accepted? ==> ValidDateTime(dialog.chosen)
      modifies this
      ensures Valid()
      ensures State() == SetCommitDateStep(old(State()), enabled, dialog)
    {
      commitDateChecked := enabled;
      if !enabled {
        gitCommitDate := None;
        return;
      }
      match dialog
      case Accepted(date, chosen) =>
        gitCommitDate := Some(date);
        lastCommitDatetime := Some(TickTime(chosen));
      case Rejected =>
        commitDateChecked := false;
    }

    /** `commit`. */
    method Commit(env: CommitEnv) returns (run: CommitRun)
      requires Valid()
      modifies this
      ensures Valid()
      ensures (State(), run) == CommitStep(old(State()), env, wrap)
    {
      if summary == "" {
        run := CommitRun(false, Aborted(MissingMessage));
        return;
      }
      var msg := MessageOf(State(), false, wrap);
      var stagedModified := false;
      if !(env.staged || env.merging) {
        if env.modified {
          if !env.confirmStage {
            run := CommitRun(false, Aborted(StageDeclined));
            return;
          }
        } else {
          run := CommitRun(false, Aborted(NothingToCommit));
          return;
        }
        stagedModified := true;
      }
      var amend := amendChecked;
      if amend && env.checkPublished && env.published && !env.confirmAmend {
        run := CommitRun(stagedModified, Aborted(AmendDeclined));
        return;
      }
      var sign := signChecked;
      var noVerify := bypassHooksChecked;
      bypassHooksChecked := false;
      var date: Option<string>;
      if commitDateChecked {
        commitDateChecked := false;
        date := gitCommitDate;
      } else {
        date := None;
      }
      run := CommitRun(stagedModified, Submitted(CommitTask(amend, msg, sign, noVerify, date)));
    }
  }

  /** A commit the menus can offer: its object id and its summary line. */
  datatype LogEntry = LogEntry(oid: string, summary: string)

  /** A menu entry: its title and the commit it loads. */
  datatype MenuEntry = MenuEntry(title: string, oid: string)

  /** How many commits the menus ask the log for. */
  const MenuCommitCount := 6

  /**
   `build_commits_menu`: `commits` is what the log returned, newest first.
   The menu lists every one of them oldest first with `prefix` before its
   summary (the index guard in the loop comes after the insertion and so
   skips nothing), then offers "More..." when the log returned the full count.
   */
  method BuildCommitsMenu(commits: seq<LogEntry>, prefix: string) returns (entries: seq<MenuEntry>, more: bool)
    ensures |entries| == |commits|
    ensures forall k :: 0 <= k < |entries| ==>
      entries[k] == MenuEntry(prefix + commits[|commits| - 1 - k].summary, commits[|commits| - 1 - k].oid)
    ensures more <==> |commits| == MenuCommitCount
  {
    var menuCommits: seq<LogEntry> := [];
    var idx := 0;
    while idx < |commits|
      invariant 0 <= idx <= |commits|
      invariant |menuCommits| == idx
      invariant forall k :: 0 <= k < idx ==> menuCommits[k] == commits[idx - 1 - k]
    {
      menuCommits := [commits[idx]] + menuCommits;
      idx := idx + 1;
    }
    entries := [];
    for i := 0 to |menuCommits|
      invariant |entries| == i
      invariant forall k :: 0 <= k < i ==> entries[k] == MenuEntry(prefix + menuCommits[k].summary, menuCommits[k].oid)
    {
      entries := entries + [MenuEntry(prefix + menuCommits[i].summary, menuCommits[i].oid)];
    }
    more := |commits| == MenuCommitCount;
  }
}
