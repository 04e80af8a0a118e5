/**
 Cursor handling of the commit message editor: the Up/Down handling of the
 description field and the cursor-position label with its warning colours.
 */
module EditorKeys {
  import opened PyText

  datatype Key = KeyUp | KeyDown | OtherKey

  /** What the description field does with a key press. */
  datatype KeyAction =
    /** Hand focus back to the summary field. */
    | LeaveField
    /** Drop the selection, leaving the cursor at the start. */
    | ResetCursor
    /** Move the cursor to `position`, extending the selection when `keepAnchor`. */
    | MoveCursor(position: nat, keepAnchor: bool)
    /** Leave the key to the text field's default handling. */
    | PassThrough

  function Min(a: nat, b: nat): nat { if a <= b then a else b }

  /**
   `CommitMessageTextEdit.keyPressEvent`: Up at the very start leaves the
   field (or only drops a selection), Up elsewhere on the first line goes
   to the start, Down on the last line goes to the end; everything else
   is the default handling. `shift` is whether Shift is held.
   */
  function KeyPress(text: string, position: nat, hasSelection: bool, key: Key, shift: bool): (a: KeyAction)
    ensures a.MoveCursor? ==> a.position <= |text| && a.keepAnchor == shift
  {
    var cut := Min(position, |text|);
    match key
    case KeyUp =>
      if position == 0 then (if hasSelection then ResetCursor else LeaveField)
      else if Count(text[..cut], '\n') == 0 then MoveCursor(0, shift)
      else PassThrough
    case KeyDown =>
      if Count(text[cut..], '\n') == 0 then MoveCursor(|text|, shift)
      else PassThrough
    case OtherKey => PassThrough
  }

  /** Up is handled by the field itself exactly when the cursor is on the first line. */
  lemma UpOnFirstLine(text: string, position: nat, hasSelection: bool, shift: bool)
    requires position <= |text|
    ensures var a := KeyPress(text, position, hasSelection, KeyUp, shift);
      && (a == PassThrough <==> '\n' in text[..position])
      && (a == LeaveField <==> position == 0 && !hasSelection)
      && (a == ResetCursor <==> position == 0 && hasSelection)
      && (0 < position && '\n' !in text[..position] ==> a == MoveCursor(0, shift))
  {
    CountZeroIff(text[..position], '\n');
  }

  /** Down moves to the end exactly when no newline follows the cursor. */
  lemma DownOnLastLine(text: string, position: nat, hasSelection: bool, shift: bool)
    requires position <= |text|
    ensures var a := KeyPress(text, position, hasSelection, KeyDown, shift);
      && (a == MoveCursor(|text|, shift) <==> '\n' !in text[position..])
      && (a != MoveCursor(|text|, shift) ==> a == PassThrough)
  {
    CountZeroIff(text[position..], '\n');
  }

  /** Keys other than Up and Down always get the default handling. */
  lemma OtherKeysPassThrough(text: string, position: nat, hasSelection: bool, shift: bool)
    ensures KeyPress(text, position, hasSelection, OtherKey, shift) == PassThrough
  {
  }

  /** The warning colour of the cursor-position label for a cursor in column `cols`. */
  function CursorColor(cols: int): (color: string)
    ensures color == "" <==> cols <= 64
  {
    if cols > 78 then "red"
    else if cols > 72 then "#ff8833"
    else if cols > 64 then "yellow"
    else ""
  }

  /** How severe a colour is: none, yellow, orange, red. */
  function Severity(color: string): nat
  {
    if color == "red" then 3 else if color == "#ff8833" then 2 else if color == "yellow" then 1 else 0
  }

  /** The colour gets more severe, never less, as the cursor moves right; each band starts at its threshold. */
  lemma CursorColorMonotone(c1: int, c2: int)
    requires c1 <= c2
    ensures Severity(CursorColor(c1)) <= Severity(CursorColor(c2))
    ensures Severity(CursorColor(c1)) == (if c1 > 78 then 3 else if c1 > 72 then 2 else if c1 > 64 then 1 else 0)
  {
  }

  function DigitChar(d: nat): char
    requires d < 10
  {
    ('0' as int + d) as char
  }

  /** The decimal digits of `n`. */
  function Digits(n: nat): (s: string)
    ensures |s| >= 1
    decreases n
  {
    if n < 10 then [DigitChar(n)] else Digits(n / 10) + [DigitChar(n % 10)]
  }

  /** `%02d`: at least two digits, padded with a zero. */
  function Pad2(n: nat): (s: string)
    ensures |s| >= 2
  {
    if n < 10 then ['0', DigitChar(n)] else Digits(n)
  }

  /** The number a string of decimal digits denotes. */
  function DecimalValue(s: string): int
  {
    if s == [] then 0 else DecimalValue(s[..|s| - 1]) * 10 + (s[|s| - 1] as int - '0' as int)
  }

  /** `%02d` loses nothing: the digits denote the number. */
  lemma {:induction false} Pad2Value(n: nat)
    ensures DecimalValue(Pad2(n)) == n
  {
    if n < 10 {
      assert ['0', DigitChar(n)][..1] == ['0'];
      assert ['0'][..0] == [];
    } else {
      DigitsValue(n);
    }
  }

  lemma {:induction false} DigitsValue(n: nat)
    ensures DecimalValue(Digits(n)) == n
    decreases n
  {
    if n < 10 {
      assert [DigitChar(n)][..0] == [];
    } else {
      DigitsValue(n / 10);
      var s := Digits(n);
      assert s[..|s| - 1] == Digits(n / 10);
    }
  }

  predicate IsDigit(c: char)
  {
    '0' <= c <= '9'
  }

  lemma {:induction false} DigitsAreDigits(n: nat)
    ensures forall k :: 0 <= k < |Digits(n)| ==> IsDigit(Digits(n)[k])
    decreases n
  {
    if n >= 10 {
      DigitsAreDigits(n / 10);
    }
  }

  lemma Pad2Digits(n: nat)
    ensures forall k :: 0 <= k < |Pad2(n)| ==> IsDigit(Pad2(n)[k])
  {
    if n >= 10 {
      DigitsAreDigits(n);
    }
  }

  /** `show_cursor_position`'s label text, `rows:cols` with each part at least two digits. */
  function PositionText(rows: nat, cols: nat): (s: string)
    ensures |s| >= 5
  {
    Pad2(rows) + ":" + Pad2(cols)
  }

  /**
   The label reads back: a single `':'`, at index `i`, splits it into
   two runs of at least two digits that denote the row and the column.
   */
  lemma PositionTextReadsBack(rows: nat, cols: nat) returns (i: nat)
    ensures var s := PositionText(rows, cols);
      && 2 <= i && i + 3 <= |s| && s[i] == ':'
      && (forall k :: 0 <= k < |s| && k != i ==> IsDigit(s[k]))
      && DecimalValue(s[..i]) == rows && DecimalValue(s[i + 1..]) == cols
  {
    var s := PositionText(rows, cols);
    var a, b := Pad2(rows), Pad2(cols);
    i := |a|;
    assert s[..i] == a && s[i + 1..] == b;
    Pad2Digits(rows);
    Pad2Digits(cols);
    assert forall k :: 0 <= k < i ==> s[k] == a[k];
    assert forall k :: i < k < |s| ==> s[k] == b[k - i - 1];
    Pad2Value(rows);
    Pad2Value(cols);
  }
}
