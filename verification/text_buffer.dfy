/**
 * The editable buffer behind the multi-line input: content plus a cursor
 * offset, the splice/delete/move/submit operations and the clipped display.
 * The cursor is whatever the owner last stored; it never goes negative, but
 * it can exceed the content length (a single-line edit in the smart input
 * shortens the content without moving it), so every operation follows the
 * clamping of JavaScript's `slice` rather than assuming `cursor <= |content|`.
 */
module TextBuffer {
  import opened JsString
  import opened Types

  datatype Buffer = Buffer(content: string, cursor: nat)

  /** The cursor addresses a position inside the content (or its end). */
  predicate Valid(b: Buffer) {
    b.cursor <= |b.content|
  }

  const Empty := Buffer("", 0)

  /** The lines of the content, split at every line break. */
  function Lines(content: string): (lines: seq<string>)
    ensures |lines| == Count(content, '\n') + 1
  {
    Split(content, '\n')
  }

  datatype Location = Location(row: nat, col: nat)

  /**
   * Row and column of position `pos`: the row is the number of line breaks
   * before it, the column the distance back to the last of them (or to the
   * start of the content).
   */
  function CursorLocation(content: string, pos: nat): (loc: Location)
    ensures loc.col <= pos
  {
    var before := Prefix(content, pos);
    // the component takes one less than the number of pieces `split` yields;
    // SplitCountsRows shows that is this count
    var row := Count(before, '\n');
    var lastNewline := LastIndexOf(before, '\n', |before|);
    var col := if lastNewline == -1 then pos else pos - lastNewline - 1;
    Location(row, col)
  }

  /** The row is one less than the number of pieces the text before the position splits into. */
  lemma SplitCountsRows(content: string, pos: nat)
    ensures CursorLocation(content, pos).row == |Split(Prefix(content, pos), '\n')| - 1
  {
  }

  /**
   * The column counts back from the position to just after the last line
   * break before it, or to the start: no break lies in between.
   */
  lemma ColumnFacts(content: string, pos: nat)
    ensures var loc := CursorLocation(content, pos);
      && (forall k :: pos - loc.col <= k < Min(pos, |content|) ==> content[k] != '\n')
      && (pos - loc.col == 0 || (pos - loc.col - 1 < |content| && content[pos - loc.col - 1] == '\n'))
  {
    var before := Prefix(content, pos);
    if |before| > 0 {
      LastIndexSkips(before, '\n', |before| - 1);
    }
  }

  /** Splices `text` in at the cursor and moves the cursor past it. */
  function InsertText(b: Buffer, text: string): (r: Buffer)
    ensures r.cursor == b.cursor + |text|
    ensures |r.content| == |b.content| + |text|
    ensures Valid(b) ==> Valid(r)
    ensures Valid(b) ==>
      && r.content[..b.cursor] == b.content[..b.cursor]
      && r.content[b.cursor..r.cursor] == text
      && r.content[r.cursor..] == b.content[b.cursor..]
    ensures !Valid(b) ==> r.content == b.content + text
  {
    var before := Prefix(b.content, b.cursor);
    var after := Suffix(b.content, b.cursor);
    Buffer(before + text + after, b.cursor + |text|)
  }

  /** Removes the character before the cursor; nothing happens at position 0. */
  function DeleteBackward(b: Buffer): (r: Buffer)
    ensures b.cursor == 0 ==> r == b
    ensures b.cursor > 0 ==> r.cursor == b.cursor - 1
    ensures Valid(b) ==> Valid(r)
    ensures Valid(b) && b.cursor > 0 ==>
      && |r.content| == |b.content| - 1
      && r.content[..r.cursor] == b.content[..r.cursor]
      && r.content[r.cursor..] == b.content[b.cursor..]
  {
    if b.cursor > 0 then
      Buffer(Prefix(b.content, b.cursor - 1) + Suffix(b.content, b.cursor), b.cursor - 1)
    else
      b
  }

  /** Removes the character at the cursor; nothing happens at the end. */
  function DeleteForward(b: Buffer): (r: Buffer)
    ensures r.cursor == b.cursor
    ensures b.cursor >= |b.content| ==> r == b
    ensures b.cursor < |b.content| ==>
      && |r.content| == |b.content| - 1
      && r.content[..b.cursor] == b.content[..b.cursor]
      && r.content[b.cursor..] == b.content[b.cursor + 1..]
  {
    if b.cursor < |b.content| then
      Buffer(Prefix(b.content, b.cursor) + Suffix(b.content, b.cursor + 1), b.cursor)
    else
      b
  }

  /** Moves the cursor to `target`, clamped into `[0, |content|]`. */
  function MoveCursor(b: Buffer, target: int): (r: Buffer)
    ensures r.content == b.content && Valid(r)
    ensures 0 <= target <= |b.content| ==> r.cursor == target
    ensures target < 0 ==> r.cursor == 0
    ensures target > |b.content| ==> r.cursor == |b.content|
  {
    Buffer(b.content, Max(0, Min(|b.content|, target)))
  }

  /** One position back, staying at the start. */
  function MoveLeft(b: Buffer): (r: Buffer)
    ensures r.content == b.content && Valid(r)
    ensures Valid(b) && b.cursor > 0 ==> r.cursor == b.cursor - 1
    ensures b.cursor == 0 ==> r == b
  {
    MoveCursor(b, b.cursor - 1)
  }

  /** One position forward, staying at the end. */
  function MoveRight(b: Buffer): (r: Buffer)
    ensures r.content == b.content && Valid(r)
    ensures b.cursor < |b.content| ==> r.cursor == b.cursor + 1
    ensures b.cursor >= |b.content| ==> r.cursor == |b.content|
  {
    MoveCursor(b, b.cursor + 1)
  }

  datatype Submission = Submission(buffer: Buffer, emitted: Option<string>)

  /**
   * Emits the trimmed content and empties the buffer, unless the content is
   * all whitespace, in which case nothing is emitted and nothing changes.
   */
  function Submit(b: Buffer): (r: Submission)
    ensures r.emitted.Some? <==> !AllWhitespace(b.content)
    ensures r.emitted.Some? ==> r.emitted.value == Trim(b.content) && r.buffer == Empty
    ensures r.emitted.None? ==> r.buffer == b
  {
    var trimmed := Trim(b.content);
    if trimmed != "" then Submission(Empty, Some(trimmed)) else Submission(b, None)
  }

  /** What the input box shows: the first lines, and how many more there are. */
  datatype Display = Display(shown: seq<string>, elided: Option<nat>)

  function Clip(content: string, maxHeight: nat): (d: Display)
    ensures d.elided.Some? <==> |Lines(content)| > maxHeight
    ensures |d.shown| <= |Lines(content)| && d.shown == Lines(content)[..|d.shown|]
    ensures d.elided.None? ==> d.shown == Lines(content)
    ensures d.elided.Some? ==>
      && |d.shown| == maxHeight
      && d.elided.value == Count(content, '\n') + 1 - maxHeight
      && |d.shown| + d.elided.value == |Lines(content)|
  {
    var lines := Lines(content);
    var shown := lines[..Min(maxHeight, |lines|)];
    if |lines| > maxHeight then Display(shown, Some(|lines| - maxHeight)) else Display(shown, None)
  }

  /** The shown lines followed by the elided ones give back the whole content. */
  lemma ClipLosesNothing(content: string, maxHeight: nat)
    ensures var d := Clip(content, maxHeight);
      Join(d.shown + Lines(content)[|d.shown|..], '\n') == content
  {
    var d := Clip(content, maxHeight);
    var lines := Lines(content);
    assert d.shown + lines[|d.shown|..] == lines;
    JoinSplit(content, '\n');
  }

  /** Deleting backwards `n` times. */
  function DeleteBackwardTimes(b: Buffer, n: nat): Buffer
    decreases n
  {
    if n == 0 then b else DeleteBackwardTimes(DeleteBackward(b), n - 1)
  }

  lemma InsertLastChar(b: Buffer, text: string, c: char)
    requires Valid(b)
    ensures DeleteBackward(InsertText(b, text + [c])) == InsertText(b, text)
  {
    var r := InsertText(b, text + [c]);
    var d := DeleteBackward(r);
    var e := InsertText(b, text);
    assert d.content == e.content by {
      assert d.content == r.content[..r.cursor - 1] + r.content[r.cursor..];
      assert r.content[..r.cursor - 1] == b.content[..b.cursor] + text;
    }
  }

  /** Backspacing over inserted text restores the buffer exactly. */
  lemma {:induction false} InsertThenBackspace(b: Buffer, text: string)
    requires Valid(b)
    ensures DeleteBackwardTimes(InsertText(b, text), |text|) == b
    decreases |text|
  {
    if |text| == 0 {
      assert InsertText(b, text).content == b.content[..b.cursor] + b.content[b.cursor..];
    } else {
      var t := text[..|text| - 1];
      var c := text[|text| - 1];
      assert text == t + [c];
      InsertLastChar(b, t, c);
      calc {
        DeleteBackwardTimes(InsertText(b, text), |text|);
        DeleteBackwardTimes(DeleteBackward(InsertText(b, t + [c])), |t|);
        DeleteBackwardTimes(InsertText(b, t), |t|);
        { InsertThenBackspace(b, t); }
        b;
      }
    }
  }

  /** Inserting a character and deleting forward from the old cursor restores the buffer. */
  lemma InsertThenDeleteForward(b: Buffer, c: char)
    requires Valid(b)
    ensures DeleteForward(Buffer(InsertText(b, [c]).content, b.cursor)) == b
  {
    var r := InsertText(b, [c]);
    var d := DeleteForward(Buffer(r.content, b.cursor));
    assert d.content == b.content[..b.cursor] + b.content[b.cursor..];
  }

  /** Submitting text padded with whitespace emits the bare text and empties the buffer. */
  lemma SubmitTrimsAndClears(pre: string, t: string, post: string, cursor: nat)
    requires AllWhitespace(pre) && AllWhitespace(post)
    requires t != [] && !IsWhitespace(t[0]) && !IsWhitespace(t[|t| - 1])
    ensures Submit(Buffer(pre + t + post, cursor)) == Submission(Empty, Some(t))
  {
    TrimPadded(pre, t, post);
  }
}
