/**
 The text rules of the commit message editor: joining the summary and the
 description into one message, splitting a loaded message back into the
 two fields, and repairing a multi-line paste into the summary field.
 */
module CommitText {
  import opened Wrappers
  import opened PyText

  /** The two fields of the editor. */
  datatype Message = Message(summary: string, description: string)

  /** `commit_message`: the summary and the description separated by a blank line, or whichever of them is there. */
  function Compose(summary: string, description: string): (msg: string)
    ensures msg == "" <==> summary == "" && description == ""
    ensures |msg| >= |summary| && msg[..|summary|] == summary
    ensures description != "" ==>
      |msg| == |summary| + 2 + |description| &&
      msg[|summary|..|summary| + 2] == "\n\n" && msg[|summary| + 2..] == description
    ensures description == "" ==> msg == summary
  {
    if summary != "" && description != "" then summary + "\n\n" + description
    else if summary != "" then summary
    else if description != "" then "\n\n" + description
    else ""
  }

  /**
   `formatted_description`: the description, word-wrapped by `wrap` (the
   text wrapper, not modelled) only when line breaking is on.
   */
  function FormattedDescription(text: string, linebreak: bool, tabwidth: int, textwidth: int,
                                wrap: (string, int, int) -> string): (r: string)
    ensures !linebreak ==> r == text
  {
    if !linebreak then text else wrap(text, tabwidth, textwidth)
  }

  /** `set_commit_message`'s parse: the first line is the summary; one blank separator line is skipped before the description. */
  function ParseMessage(message: string): (m: Message)
    ensures NoLineBreak(m.summary) && OnlyNewlineBreaks(m.description)
    ensures message == "" ==> m == Message("", "")
  {
    var lines := SplitLines(message);
    if |lines| == 0 then Message("", "")
    else if |lines| == 1 then Message(lines[0], "")
    else if |lines| == 2 then Message(lines[0], lines[1])
    else
      var descriptionLines := if lines[1] != "" then lines[1..] else lines[2..];
      JoinOfLines(descriptionLines);
      Message(lines[0], Join("\n", descriptionLines))
  }

  /** Joining lines that hold no line boundary with `'\n'` leaves `'\n'` as the only boundary. */
  lemma {:induction false} JoinOfLines(lines: seq<string>)
    requires forall k :: 0 <= k < |lines| ==> NoLineBreak(lines[k])
    ensures OnlyNewlineBreaks(Join("\n", lines))
  {
    if |lines| > 1 {
      JoinOfLines(lines[1..]);
      var rest := Join("\n", lines[1..]);
      var r := lines[0] + "\n" + rest;
      forall k | 0 <= k < |r| ensures IsLineBreak(r[k]) ==> r[k] == '\n' {
        if k < |lines[0]| {
          assert r[k] == lines[0][k];
        } else if k > |lines[0]| {
          assert r[k] == rest[k - |lines[0]| - 1];
        }
      }
    }
  }

  /** The summary of a non-empty message is its text up to the first line boundary. */
  lemma ParsedSummaryIsFirstLine(message: string)
    requires message != ""
    ensures ParseMessage(message).summary == message[..FirstLineBreak(message)]
  {
  }

  /**
   Parsing a composed message gives the two fields back, for a summary
   without line boundaries and a description whose only boundary is `'\n'`
   and that does not end with one.
   */
  lemma ComposeParseRoundTrip(summary: string, description: string)
    requires NoLineBreak(summary)
    requires OnlyNewlineBreaks(description)
    requires description == "" || description[|description| - 1] != '\n'
    ensures ParseMessage(Compose(summary, description)) == Message(summary, description)
  {
    if description == "" {
      SplitLinesOfLine(summary);
    } else {
      ComposedLines(summary, description);
      var lines := SplitLines(Compose(summary, description));
      assert lines[2..] == SplitLines(description);
      JoinSplitLines(description);
    }
  }

  /** The lines of a composed message: the summary, the blank separator, then the description's lines. */
  lemma ComposedLines(summary: string, description: string)
    requires NoLineBreak(summary) && description != ""
    ensures SplitLines(Compose(summary, description)) == [summary, ""] + SplitLines(description)
  {
    var rest := "\n" + description;
    var tail := SplitLines(description);
    calc {
      SplitLines(Compose(summary, description));
      { ComposeSplit(summary, description); }
      SplitLines(summary + "\n" + rest);
      { SplitLinesAfterLine(summary, rest); }
      [summary] + SplitLines(rest);
      { NewlineThen(description); SplitLinesAfterLine("", description); }
      [summary] + ([""] + tail);
      { ConsPair(summary, "", tail); }
      [summary, ""] + tail;
    }
  }

  lemma ConsPair<T>(a: T, b: T, t: seq<T>)
    ensures [a] + ([b] + t) == [a, b] + t
  {
  }

  lemma ComposeSplit(summary: string, description: string)
    requires description != ""
    ensures Compose(summary, description) == summary + "\n" + ("\n" + description)
  {
  }

  lemma NewlineThen(s: string)
    ensures "\n" + s == "" + "\n" + s
  {
  }

  /**
   Exactly one trailing newline of the description is lost on the round
   trip: `("s", "d\n")` comes back as `("s", "d")`.
   */
  lemma TrailingNewlineIsDropped(summary: string, description: string)
    requires NoLineBreak(summary) && OnlyNewlineBreaks(description)
    requires description != "" && description[|description| - 1] != '\n'
    ensures ParseMessage(Compose(summary, description + "\n")) == Message(summary, description)
  {
    assert !IsLineBreak(description[|description| - 1]);
    SplitLinesDropsFinalNewline(description);
    ComposedLines(summary, description + "\n");
    ComposedLines(summary, description);
    ParseDependsOnLines(Compose(summary, description + "\n"), Compose(summary, description));
    ComposeParseRoundTrip(summary, description);
  }

  /**
   Without a blank separator line the description starts right after the
   summary's line: `"s\nb"` gives `("s", "b")` and `"s\nb\nc"` gives
   `("s", "b\nc")`.
   */
  lemma ParseWithoutBlankSeparator(summary: string, description: string)
    requires NoLineBreak(summary) && OnlyNewlineBreaks(description)
    requires description != "" && description[0] != '\n' && description[|description| - 1] != '\n'
    ensures ParseMessage(summary + "\n" + description) == Message(summary, description)
  {
    SplitLinesAfterLine(summary, description);
    var i := FirstLineBreak(description);
    assert i > 0;
    if i < |description| {
      SplitLinesUnfold(description, i, BreakWidth(description, i));
    } else {
      SplitLinesOfLine(description);
    }
    assert SplitLines(description)[0] != "";
    JoinSplitLines(description);
    var lines := SplitLines(summary + "\n" + description);
    assert lines[1..] == SplitLines(description);
  }

  /** Two messages with the same lines parse alike. */
  lemma ParseDependsOnLines(a: string, b: string)
    requires SplitLines(a) == SplitLines(b)
    ensures ParseMessage(a) == ParseMessage(b)
  {
  }

  /** A message that is only a newline has no summary and no description. */
  lemma NewlineMessageIsEmpty()
    ensures ParseMessage("\n") == Message("", "")
  {
    SplitLinesAfterLine("", "");
    assert "" + "\n" + "" == "\n";
  }

  /**
   `commit_summary_changed`'s repair: a summary holding `'\n'` keeps the text
   before the first `'\n'`; the rest, without its leading newlines, goes in
   front of the current description, separated from it by one `'\n'`.
   */
  function PasteSplit(value: string, current: string): (m: Message)
    ensures '\n' !in m.summary
    ensures '\n' !in value ==> m == Message(value, current)
    ensures '\n' in value ==> |m.summary| < |value| && value[..|m.summary|] == m.summary && value[|m.summary|] == '\n'
  {
    match IndexOf(value, '\n')
    case None => Message(value, current)
    case Some(i) =>
      var pasted := LStrip(value[i + 1..], '\n');
      Message(value[..i], if current != "" then pasted + "\n" + current else pasted)
  }

  /**
   No pasted text is lost: a value holding `'\n'` is a line without `'\n'`,
   a run of one or more newlines and a rest that does not start with one,
   and `PasteSplit` keeps exactly that line as the summary and puts that
   rest in front of the current description.
   */
  lemma PasteSplitKeepsText(value: string, current: string) returns (summary: string, newlines: nat, pasted: string)
    requires '\n' in value
    ensures value == summary + Repeat('\n', newlines) + pasted
    ensures newlines >= 1 && '\n' !in summary && (pasted == "" || pasted[0] != '\n')
    ensures PasteSplit(value, current) == Message(summary, if current == "" then pasted else pasted + "\n" + current)
  {
    summary, newlines, pasted := PasteDecomposes(value);
    PasteSplitOfPaste(summary, newlines, pasted, current);
  }

  /** A value holding `'\n'` splits into a line, a run of newlines and a rest. */
  lemma PasteDecomposes(value: string) returns (summary: string, newlines: nat, pasted: string)
    requires '\n' in value
    ensures value == summary + Repeat('\n', newlines) + pasted
    ensures newlines >= 1 && '\n' !in summary && (pasted == "" || pasted[0] != '\n')
  {
    var i := IndexOf(value, '\n').value;
    var tail := value[i + 1..];
    summary := value[..i];
    pasted := LStrip(tail, '\n');
    newlines := |tail| - |pasted| + 1;
    LStripSplit(tail, '\n');
    NewlineRunSplit(value, i, newlines - 1, pasted);
  }

  /** Pasting a line, a run of newlines and a rest: the line becomes the summary. */
  lemma PasteSplitOfPaste(summary: string, newlines: nat, pasted: string, current: string)
    requires newlines >= 1 && '\n' !in summary && (pasted == "" || pasted[0] != '\n')
    ensures PasteSplit(summary + Repeat('\n', newlines) + pasted, current)
         == Message(summary, if current == "" then pasted else pasted + "\n" + current)
  {
    var value := summary + Repeat('\n', newlines) + pasted;
    var i := |summary|;
    var tail := Repeat('\n', newlines - 1) + pasted;
    assert Repeat('\n', newlines) == "\n" + Repeat('\n', newlines - 1);
    RegroupNewlines(summary, Repeat('\n', newlines - 1), pasted);
    SlicesAroundNewline(summary, tail);
    IndexOfAfterLine(value, summary);
    LStripRun('\n', newlines - 1, pasted);
    PasteSplitAt(value, current, i, pasted);
  }

  lemma SlicesAroundNewline(head: string, rest: string)
    ensures var s := head + "\n" + rest;
      |head| < |s| && s[..|head|] == head && s[|head|] == '\n' && s[|head| + 1..] == rest
  {
  }

  lemma IndexOfAfterLine(value: string, summary: string)
    requires |summary| < |value| && value[..|summary|] == summary && value[|summary|] == '\n' && '\n' !in summary
    ensures IndexOf(value, '\n') == Some(|summary|)
  {
    var r := IndexOf(value, '\n');
    assert r.Some?;
    assert forall k :: 0 <= k < |summary| ==> value[k] == summary[k] && summary[k] != '\n';
    assert forall k :: 0 <= k < r.value ==> value[..r.value][k] == value[k];
  }

  /** `PasteSplit` cuts at the first `'\n'`. */
  lemma PasteSplitAt(value: string, current: string, i: nat, pasted: string)
    requires IndexOf(value, '\n') == Some(i) && pasted == LStrip(value[i + 1..], '\n')
    ensures PasteSplit(value, current) == Message(value[..i], if current != "" then pasted + "\n" + current else pasted)
  {
  }

  /** A `'\n'` at `i` followed by a run of `blank` newlines and `rest` is a run of `blank + 1` newlines. */
  lemma NewlineRunSplit(value: string, i: nat, blank: nat, rest: string)
    requires i < |value| && value[i] == '\n' && value[i + 1..] == Repeat('\n', blank) + rest
    ensures value == value[..i] + Repeat('\n', blank + 1) + rest
  {
    SplitAround(value, i);
    RegroupNewlines(value[..i], Repeat('\n', blank), rest);
  }

  lemma RegroupNewlines(head: string, run: string, rest: string)
    ensures head + "\n" + (run + rest) == head + ("\n" + run) + rest
  {
  }

  /** Repairing twice is repairing once. */
  lemma PasteSplitIdempotent(value: string, current: string)
    ensures var m := PasteSplit(value, current);
      PasteSplit(m.summary, m.description) == m
  {
  }
}
