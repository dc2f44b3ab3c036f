/**
 * The modal multi-line input: vertical cursor moves that keep the column
 * where the target line allows, and the key table that routes each keystroke
 * to an edit, a move, a submission or a mode change.
 */
module MultiLineInput {
  import opened JsString
  import opened Types
  import opened TextBuffer

  /**
   * Down arrow: to the same column of the next line, or to that line's end
   * if it is shorter; nothing happens on the last line.
   */
  function DownArrow(b: Buffer): (r: Buffer)
    ensures r.content == b.content
  {
    var content := b.content;
    var currentLineEnd := IndexOf(content, '\n', b.cursor);
    if currentLineEnd == -1 then b
    else
      var nextLineEnd := IndexOf(content, '\n', currentLineEnd + 1);
      var targetCol := CursorLocation(content, b.cursor).col;
      var nextLineStart := currentLineEnd + 1;
      var nextLineLength := if nextLineEnd != -1 then nextLineEnd - nextLineStart else |content| - nextLineStart;
      MoveCursor(b, nextLineStart + Min(targetCol, nextLineLength))
  }

  /**
   * Up arrow: looks for the line break that opens the current line and the
   * one before it. The first line has no break before it, so from the second
   * line the search comes up empty and the cursor stays where it is.
   */
  function UpArrow(b: Buffer): (r: Buffer)
    ensures r.content == b.content
  {
    var content := b.content;
    var currentLineStart := LastIndexOf(content, '\n', b.cursor - 1);
    var prevLineStart := if currentLineStart > 0 then LastIndexOf(content, '\n', currentLineStart - 1) else -1;
    if prevLineStart == -1 then b
    else
      var targetCol := CursorLocation(content, b.cursor).col;
      var prevLineEnd := currentLineStart;
      var prevLineLength := prevLineEnd - prevLineStart - 1;
      MoveCursor(b, prevLineStart + 1 + Min(targetCol, prevLineLength))
  }

  /** The location of a position whose line opens right after `e` (a line break, or -1). */
  lemma LocationAfterBreak(c: string, e: int, q: nat)
    requires -1 <= e < q <= |c|
    requires e == -1 || c[e] == '\n'
    requires forall k :: e < k < q ==> c[k] != '\n'
    ensures CursorLocation(c, q).col == q - e - 1
    ensures CursorLocation(c, q).row == Count(c[..e + 1], '\n')
  {
    var loc := CursorLocation(c, q);
    var start := q - loc.col;
    ColumnFacts(c, q);
    assert e >= 0 ==> c[e] == '\n';
    assert start >= e + 1;
    assert start == e + 1;
    assert Prefix(c, q) == c[..q];
    CountRange(c, '\n', e + 1, q);
    CountAbsent(c[e + 1..q], '\n');
  }

  /** One line break at `e` and none in `[p, e)`: the count before `e + 1` is one more. */
  lemma CountThroughBreak(c: string, p: nat, e: nat)
    requires p <= e < |c| && c[e] == '\n'
    requires forall k :: p <= k < e ==> c[k] != '\n'
    ensures Count(c[..e + 1], '\n') == Count(c[..p], '\n') + 1
    ensures Count(c[..e], '\n') == Count(c[..p], '\n')
  {
    CountRange(c, '\n', p, e);
    CountAbsent(c[p..e], '\n');
    CountRange(c, '\n', e, e + 1);
    assert c[e..e + 1] == ['\n'];
  }

  /** The line that runs from just after `a` up to `z` is line number `Count(c[..a + 1])`. */
  lemma LineBetweenBreaks(c: string, a: int, z: nat)
    requires -1 <= a < z <= |c| || (-1 <= a && a + 1 == z <= |c|)
    requires a == -1 || c[a] == '\n'
    requires z == |c| || c[z] == '\n'
    requires forall k :: a < k < z ==> c[k] != '\n'
    ensures Count(c[..a + 1], '\n') < |Lines(c)|
    ensures Lines(c)[Count(c[..a + 1], '\n')] == c[a + 1..z]
  {
    var t := c[a + 1..];
    assert t[..z - (a + 1)] == c[a + 1..z];
    SplitHead(t, '\n', z - (a + 1));
    if a == -1 {
      assert t == c;
    } else {
      assert c == c[..a] + ['\n'] + t;
      SplitConcat(c[..a], t, '\n');
      CountThroughBreak(c, a, a);
    }
  }

  /** The row of `p` plus the breaks after it is the last row. */
  lemma RowsAfter(c: string, p: nat)
    requires p <= |c|
    ensures CursorLocation(c, p).row + Count(c[p..], '\n') == |Lines(c)| - 1
  {
    assert Prefix(c, p) == c[..p];
    CountRange(c, '\n', p, |c|);
    assert c[..|c|] == c;
  }

  /**
   * The down arrow from position `p` of `c`: on the last line nothing moves;
   * otherwise the cursor lands on the next line, in the same column or at
   * the end of that line if it is shorter.
   */
  lemma DownArrowMovesToNextLine(c: string, p: nat)
    requires p <= |c|
    ensures DownArrow(Buffer(c, p)).content == c && DownArrow(Buffer(c, p)).cursor <= |c|
    ensures CursorLocation(c, p).row < |Lines(c)|
    ensures CursorLocation(c, p).row == |Lines(c)| - 1 ==> DownArrow(Buffer(c, p)).cursor == p
    ensures var loc := CursorLocation(c, p);
      loc.row < |Lines(c)| - 1 ==>
        CursorLocation(c, DownArrow(Buffer(c, p)).cursor) == Location(loc.row + 1, Min(loc.col, |Lines(c)[loc.row + 1]|))
  {
    LowerRows(c, p);
    var e := IndexOf(c, '\n', p);
    if e != -1 {
      var f := IndexOf(c, '\n', e + 1);
      var lineEnd := if f != -1 then f else |c|;
      DownArrowTarget(c, p, e, lineEnd);
      NextLineFrom(c, p, e, lineEnd);
    }
  }

  /** Without a line break after the position, it is on the last line. */
  lemma LowerRows(c: string, p: nat)
    requires p <= |c|
    ensures var row := CursorLocation(c, p).row;
      && row < |Lines(c)|
      && (IndexOf(c, '\n', p) == -1 <==> row == |Lines(c)| - 1)
  {
    RowsAfter(c, p);
    var e := IndexOf(c, '\n', p);
    IndexOfSkips(c, '\n', p);
    if e == -1 {
      CountAbsent(c[p..], '\n');
    } else {
      CountPresent(c[p..], '\n', e - p);
    }
  }

  /** From the line ending at break `e`, the target column of the next line. */
  lemma NextLineFrom(c: string, p: nat, e: nat, lineEnd: nat)
    requires p <= |c| && e == IndexOf(c, '\n', p)
    requires var f := IndexOf(c, '\n', e + 1); lineEnd == if f != -1 then f else |c|
    ensures var loc := CursorLocation(c, p);
      var q := e + 1 + Min(loc.col, lineEnd - (e + 1));
      && q <= |c|
      && loc.row + 1 < |Lines(c)|
      && CursorLocation(c, q) == Location(loc.row + 1, Min(loc.col, |Lines(c)[loc.row + 1]|))
  {
    IndexOfSkips(c, '\n', p);
    IndexOfSkips(c, '\n', e + 1);
    NextLineGeometry(c, p, e, lineEnd, e + 1 + Min(CursorLocation(c, p).col, lineEnd - (e + 1)));
  }

  lemma NextLineGeometry(c: string, p: nat, e: nat, lineEnd: nat, q: nat)
    requires p <= e < lineEnd <= |c| && c[e] == '\n'
    requires forall k :: p <= k < e ==> c[k] != '\n'
    requires forall k :: e < k < lineEnd ==> c[k] != '\n'
    requires lineEnd == |c| || c[lineEnd] == '\n'
    requires q == e + 1 + Min(CursorLocation(c, p).col, lineEnd - (e + 1))
    ensures var row := CursorLocation(c, p).row;
      && row + 1 < |Lines(c)|
      && CursorLocation(c, q) == Location(row + 1, Min(CursorLocation(c, p).col, |Lines(c)[row + 1]|))
  {
    NextLineRow(c, p, e);
    LocationAfterBreak(c, e, q);
    LineBetweenBreaks(c, e, lineEnd);
  }

  /** The line after the break `e` that ends the line of `p` is the next row. */
  lemma NextLineRow(c: string, p: nat, e: nat)
    requires p <= e < |c| && c[e] == '\n'
    requires forall k :: p <= k < e ==> c[k] != '\n'
    ensures Count(c[..e + 1], '\n') == CursorLocation(c, p).row + 1
  {
    assert Prefix(c, p) == c[..p];
    CountThroughBreak(c, p, e);
  }

  /** Where the down arrow puts the cursor when the current line ends at `e`. */
  lemma DownArrowTarget(c: string, p: nat, e: nat, lineEnd: nat)
    requires p <= |c| && e == IndexOf(c, '\n', p)
    requires var f := IndexOf(c, '\n', e + 1); lineEnd == if f != -1 then f else |c|
    ensures DownArrow(Buffer(c, p)) == Buffer(c, e + 1 + Min(CursorLocation(c, p).col, lineEnd - (e + 1)))
  {
  }

  /**
   * The up arrow from position `p` of `c`: on the first two lines nothing
   * moves (see UpArrowStuckOnSecondLine); below them the cursor lands on the
   * line above, in the same column or at the end of that line if it is
   * shorter.
   */
  lemma UpArrowMovesToPreviousLine(c: string, p: nat)
    requires p <= |c|
    ensures UpArrow(Buffer(c, p)).content == c && UpArrow(Buffer(c, p)).cursor <= |c|
    ensures CursorLocation(c, p).row < |Lines(c)|
    ensures CursorLocation(c, p).row <= 1 ==> UpArrow(Buffer(c, p)).cursor == p
    ensures var loc := CursorLocation(c, p);
      loc.row >= 2 ==>
        CursorLocation(c, UpArrow(Buffer(c, p)).cursor) == Location(loc.row - 1, Min(loc.col, |Lines(c)[loc.row - 1]|))
  {
    RowsAfter(c, p);
    if p > 0 && LastIndexAtOrBefore(c, '\n', p - 1) > 0 {
      var cl := LastIndexAtOrBefore(c, '\n', p - 1);
      var pl := LastIndexAtOrBefore(c, '\n', cl - 1);
      if pl != -1 {
        UpArrowTarget(c, p, pl, cl);
        PreviousLineFrom(c, p, pl, cl);
        return;
      }
    }
    UpArrowNearTop(c, p);
  }

  /** On the first two lines the up arrow does nothing. */
  lemma UpArrowNearTop(c: string, p: nat)
    requires p <= |c|
    requires p > 0 && LastIndexAtOrBefore(c, '\n', p - 1) > 0 ==>
      LastIndexAtOrBefore(c, '\n', LastIndexAtOrBefore(c, '\n', p - 1) - 1) == -1
    ensures UpArrow(Buffer(c, p)) == Buffer(c, p) && CursorLocation(c, p).row <= 1
  {
    if p == 0 {
      assert Prefix(c, 0) == [];
    } else {
      UpperRows(c, p);
    }
  }

  /** Without a break before the position, it is on the first line; with only one, on the second. */
  lemma UpperRows(c: string, p: nat)
    requires 0 < p <= |c|
    ensures var cl := LastIndexAtOrBefore(c, '\n', p - 1);
      && (cl == -1 ==> CursorLocation(c, p).row == 0)
      && (cl == 0 ==> CursorLocation(c, p).row == 1)
      && (cl > 0 && LastIndexAtOrBefore(c, '\n', cl - 1) == -1 ==> CursorLocation(c, p).row == 1)
  {
    assert Prefix(c, p) == c[..p];
    var cl := LastIndexAtOrBefore(c, '\n', p - 1);
    LastIndexSkips(c, '\n', p - 1);
    if cl == -1 {
      CountAbsent(c[..p], '\n');
    } else {
      CountThroughLastBreak(c, cl, p);
      if cl > 0 && LastIndexAtOrBefore(c, '\n', cl - 1) == -1 {
        LastIndexSkips(c, '\n', cl - 1);
        CountAbsent(c[..cl], '\n');
      }
    }
  }

  /** The count through the last break `cl` before `p` is the count through `p`. */
  lemma CountThroughLastBreak(c: string, cl: nat, p: nat)
    requires cl < p <= |c| && c[cl] == '\n'
    requires forall k :: cl < k < p ==> c[k] != '\n'
    ensures Count(c[..p], '\n') == Count(c[..cl], '\n') + 1
  {
    CountThroughBreak(c, cl, cl);
    CountRange(c, '\n', cl + 1, p);
    CountAbsent(c[cl + 1..p], '\n');
  }

  /** `cl` is the last line break before `p`, and `pl` the last one before `cl`. */
  predicate BreaksBefore(c: string, p: nat, pl: nat, cl: nat) {
    && pl < cl < p <= |c| && c[pl] == '\n' && c[cl] == '\n'
    && (forall k :: pl < k < cl ==> c[k] != '\n')
    && (forall k :: cl < k < p ==> c[k] != '\n')
  }

  /** From the line opened by break `cl`, with the line before opened by `pl`: the target of the up arrow. */
  lemma PreviousLineFrom(c: string, p: nat, pl: nat, cl: nat)
    requires 0 < p <= |c| && cl == LastIndexAtOrBefore(c, '\n', p - 1)
    requires 0 < cl && pl == LastIndexAtOrBefore(c, '\n', cl - 1)
    ensures var loc := CursorLocation(c, p);
      var q := pl + 1 + Min(loc.col, cl - pl - 1);
      && q <= |c|
      && 2 <= loc.row < |Lines(c)|
      && CursorLocation(c, q) == Location(loc.row - 1, Min(loc.col, |Lines(c)[loc.row - 1]|))
  {
    LastIndexSkips(c, '\n', p - 1);
    LastIndexSkips(c, '\n', cl - 1);
    PreviousLineGeometry(c, p, pl, cl, pl + 1 + Min(CursorLocation(c, p).col, cl - pl - 1));
  }

  /** With breaks at `pl` and `cl` before `p`, the line of `p` is the one after `pl`'s line, and the third or later. */
  lemma PreviousLineRows(c: string, p: nat, pl: nat, cl: nat)
    requires BreaksBefore(c, p, pl, cl)
    ensures var row := CursorLocation(c, p).row;
      && row == Count(c[..pl + 1], '\n') + 1
      && 2 <= row < |Lines(c)|
  {
    assert Prefix(c, p) == c[..p];
    CountThroughLastBreak(c, cl, p);
    CountThroughLastBreak(c, pl, cl);
    CountThroughBreak(c, pl, pl);
    RowsAfter(c, p);
  }

  lemma PreviousLineGeometry(c: string, p: nat, pl: nat, cl: nat, q: nat)
    requires BreaksBefore(c, p, pl, cl)
    requires q == pl + 1 + Min(CursorLocation(c, p).col, cl - pl - 1)
    ensures var loc := CursorLocation(c, p);
      && 2 <= loc.row < |Lines(c)|
      && CursorLocation(c, q) == Location(loc.row - 1, Min(loc.col, |Lines(c)[loc.row - 1]|))
  {
    PreviousLineRows(c, p, pl, cl);
    LocationAfterBreak(c, pl, q);
    LineBetweenBreaks(c, pl, cl);
  }

  /** Where the up arrow puts the cursor when the breaks before it are at `pl` and `cl`. */
  lemma UpArrowTarget(c: string, p: nat, pl: nat, cl: nat)
    requires 0 < p <= |c| && cl == LastIndexAtOrBefore(c, '\n', p - 1)
    requires 0 < cl && pl == LastIndexAtOrBefore(c, '\n', cl - 1)
    ensures UpArrow(Buffer(c, p)) == Buffer(c, pl + 1 + Min(CursorLocation(c, p).col, cl - pl - 1))
  {
  }

  /** The example of a shorter next line: column 5 of `abcdef` lands at the end of `xy`. */
  lemma DownArrowClampsToShorterLine()
    ensures DownArrow(Buffer("abcdef\nxy", 5)) == Buffer("abcdef\nxy", 9)
  {
    var c := "abcdef\nxy";
    assert IndexOf(c, '\n', 5) == 6;
    assert IndexOf(c, '\n', 7) == -1;
    var before := c[..5];
    assert Prefix(c, 5) == before;
    assert LastIndexOf(before, '\n', 5) == -1;
  }

  /** From the second line the up arrow does not move, although a line lies above. */
  lemma UpArrowStuckOnSecondLine()
    ensures CursorLocation("ab\ncd", 4).row == 1
    ensures UpArrow(Buffer("ab\ncd", 4)) == Buffer("ab\ncd", 4)
  {
    var c := "ab\ncd";
    assert Prefix(c, 4) == "ab\nc";
    assert Count("ab\nc", '\n') == 1;
    assert LastIndexOf(c, '\n', 3) == 2;
    assert LastIndexOf(c, '\n', 1) == -1;
  }

  /** The widget state: buffer and modal editing state. */
  datatype Widget = Widget(buffer: Buffer, mode: EditMode)

  const Initial := Widget(Empty, Insert)

  /** What a keystroke leaves behind, and the text it submitted, if any. */
  datatype Reaction = Reaction(widget: Widget, submitted: Option<string>)

  predicate Printable(ev: KeyEvent) {
    ev.input != "" && !ev.key.ctrl && !ev.key.meta
  }

  /** A key that reaches the navigation and deletion keys: enabled, insert mode, no Escape, Return or printable input. */
  predicate Navigates(w: Widget, disabled: bool, ev: KeyEvent) {
    !disabled && w.mode == Insert && !ev.key.escape && !ev.key.returnKey && !Printable(ev)
  }

  function Edit(w: Widget, b: Buffer): Reaction {
    Reaction(w.(buffer := b), None)
  }

  function SubmitFrom(w: Widget): Reaction {
    var s := Submit(w.buffer);
    Reaction(w.(buffer := s.buffer), s.emitted)
  }

  /**
   * The key table. Escape is the only mode change; Return submits in
   * command mode and with Ctrl in insert mode, otherwise it inserts a line
   * break; printable input inserts in either mode; arrows and deletion act in
   * insert mode only, and both Backspace and Delete delete backwards.
   */
  function HandleKey(w: Widget, disabled: bool, ev: KeyEvent): (r: Reaction)
    ensures disabled ==> r == Reaction(w, None)
    ensures !disabled && ev.key.escape ==> r == Reaction(w.(mode := Command), None)
    ensures r.widget.mode == Insert ==> w.mode == Insert
    ensures r.widget.mode != w.mode ==> !disabled && ev.key.escape
    ensures r.submitted.Some? <==>
      && !disabled && !ev.key.escape && ev.key.returnKey
      && (w.mode == Command || ev.key.ctrl)
      && !AllWhitespace(w.buffer.content)
    ensures r.submitted.Some? ==> r.submitted.value == Trim(w.buffer.content) && r.widget.buffer == Empty
    ensures !disabled && !ev.key.escape && ev.key.returnKey && (w.mode == Command || ev.key.ctrl) && AllWhitespace(w.buffer.content) ==>
      r == Reaction(w, None)
    ensures !disabled && !ev.key.escape && ev.key.returnKey && w.mode == Insert && !ev.key.ctrl ==>
      r.widget.buffer == InsertText(w.buffer, "\n")
    ensures !disabled && !ev.key.escape && !ev.key.returnKey && Printable(ev) ==>
      r.widget.buffer == InsertText(w.buffer, ev.input)
    ensures w.mode == Command && !ev.key.escape && !ev.key.returnKey && !Printable(ev) ==>
      r == Reaction(w, None)
    ensures Navigates(w, disabled, ev) && ev.key.leftArrow ==>
      r == Reaction(w.(buffer := MoveCursor(w.buffer, w.buffer.cursor - 1)), None)
    ensures Navigates(w, disabled, ev) && !ev.key.leftArrow && ev.key.rightArrow ==>
      r == Reaction(w.(buffer := MoveCursor(w.buffer, w.buffer.cursor + 1)), None)
    ensures Navigates(w, disabled, ev) && !ev.key.leftArrow && !ev.key.rightArrow && ev.key.upArrow ==>
      r == Reaction(w.(buffer := UpArrow(w.buffer)), None)
    ensures Navigates(w, disabled, ev) && !ev.key.leftArrow && !ev.key.rightArrow && !ev.key.upArrow && ev.key.downArrow ==>
      r == Reaction(w.(buffer := DownArrow(w.buffer)), None)
    ensures Navigates(w, disabled, ev) && !ev.key.leftArrow && !ev.key.rightArrow && !ev.key.upArrow && !ev.key.downArrow ==>
      r == Reaction(w.(buffer := if ev.key.backspace || ev.key.deleteKey then DeleteBackward(w.buffer) else w.buffer), None)
    ensures Valid(w.buffer) ==> Valid(r.widget.buffer)
  {
    var key := ev.key;
    if disabled then Reaction(w, None)
    else if key.escape then Reaction(w.(mode := Command), None)
    else if key.returnKey then
      (match w.mode
       case Command => SubmitFrom(w)
       case Insert => if key.ctrl then SubmitFrom(w) else Edit(w, InsertText(w.buffer, "\n")))
    else if Printable(ev) then Edit(w, InsertText(w.buffer, ev.input))
    else if w.mode != Insert then Reaction(w, None)
    else if key.leftArrow then Edit(w, MoveLeft(w.buffer))
    else if key.rightArrow then Edit(w, MoveRight(w.buffer))
    else if key.upArrow then (UpArrowMovesToPreviousLineIfValid(w.buffer); Edit(w, UpArrow(w.buffer)))
    else if key.downArrow then (DownArrowMovesToNextLineIfValid(w.buffer); Edit(w, DownArrow(w.buffer)))
    else if key.backspace || key.deleteKey then Edit(w, DeleteBackward(w.buffer))
    else Reaction(w, None)
  }

  lemma UpArrowMovesToPreviousLineIfValid(b: Buffer)
    ensures Valid(b) ==> Valid(UpArrow(b))
  {
    if Valid(b) {
      assert b == Buffer(b.content, b.cursor);
      UpArrowMovesToPreviousLine(b.content, b.cursor);
    }
  }

  lemma DownArrowMovesToNextLineIfValid(b: Buffer)
    ensures Valid(b) ==> Valid(DownArrow(b))
  {
    if Valid(b) {
      assert b == Buffer(b.content, b.cursor);
      DownArrowMovesToNextLine(b.content, b.cursor);
    }
  }

  /** Backspace and Delete do the same thing: delete backwards, in insert mode only. */
  lemma BackspaceAndDeleteBothDeleteBackward(b: Buffer, mode: EditMode)
    ensures var w := Widget(b, mode);
      var backspace := KeyEvent("", NoKeys.(backspace := true));
      var delete := KeyEvent("", NoKeys.(deleteKey := true));
      && HandleKey(w, false, backspace) == HandleKey(w, false, delete)
      && HandleKey(w, false, delete).widget.buffer == (if mode == Insert then DeleteBackward(b) else b)
  {
  }

  /** A run of keystrokes: the final widget and the last submission made, if any. */
  function HandleKeys(w: Widget, disabled: bool, evs: seq<KeyEvent>): (r: Reaction)
    decreases |evs|
  {
    if |evs| == 0 then Reaction(w, None)
    else
      var first := HandleKey(w, disabled, evs[0]);
      var rest := HandleKeys(first.widget, disabled, evs[1..]);
      Reaction(rest.widget, if rest.submitted.Some? then rest.submitted else first.submitted)
  }

  /** No sequence of keystrokes brings the widget back from command mode. */
  lemma {:induction false} CommandModeIsFinal(w: Widget, disabled: bool, evs: seq<KeyEvent>)
    requires w.mode == Command
    ensures HandleKeys(w, disabled, evs).widget.mode == Command
    decreases |evs|
  {
    if |evs| > 0 {
      CommandModeIsFinal(HandleKey(w, disabled, evs[0]).widget, disabled, evs[1..]);
    }
  }

  /** The cursor stays inside the content over any run of keystrokes. */
  lemma {:induction false} KeysKeepCursorValid(w: Widget, disabled: bool, evs: seq<KeyEvent>)
    requires Valid(w.buffer)
    ensures Valid(HandleKeys(w, disabled, evs).widget.buffer)
    decreases |evs|
  {
    if |evs| > 0 {
      KeysKeepCursorValid(HandleKey(w, disabled, evs[0]).widget, disabled, evs[1..]);
    }
  }
}
