/**
 * The input that picks its surface from the content: one shared content,
 * cursor and edit mode, shown through the single-line input while the
 * content is short and has no line break (or when told to), and through the
 * multi-line input otherwise. The chosen surface is derived from the current
 * content rather than stored, so the one-render delay of the component's
 * effect is not modelled.
 */
module SmartInput {
  import opened JsString
  import opened Types
  import opened TextBuffer
  import SimpleInput
  import MultiLineInput

  const DefaultThreshold := 50

  /** The two surfaces. */
  datatype Surface = SimpleSurface | MultilineSurface

  /** The owner's settings: the requested mode, the auto threshold and `disabled`. */
  datatype Config = Config(mode: InputMode, threshold: int, disabled: bool)

  const DefaultConfig := Config(Auto, DefaultThreshold, false)

  /** The shared state both surfaces read and write. */
  datatype State = State(content: string, cursor: nat, inputMode: EditMode)

  const Initial := State("", 0, Insert)

  /** The surface for the given mode and content. */
  function SurfaceFor(mode: InputMode, content: string, threshold: int): (s: Surface)
    ensures mode == Simple ==> s == SimpleSurface
    ensures mode == Multiline ==> s == MultilineSurface
    ensures mode == Auto ==>
      (s == MultilineSurface <==> |content| > threshold || Count(content, '\n') > 0)
  {
    match mode
    case Simple => SimpleSurface
    case Multiline => MultilineSurface
    case Auto =>
      CountPresentIff(content, '\n');
      if |content| > threshold || '\n' in content then MultilineSurface else SimpleSurface
  }

  /** A character occurs in `s` exactly when it is counted at least once. */
  lemma {:induction false} CountPresentIff(s: string, c: char)
    ensures c in s <==> Count(s, c) > 0
    decreases |s|
  {
    if |s| > 0 {
      CountPresentIff(s[1..], c);
      assert s == [s[0]] + s[1..];
    }
  }

  /** What a keystroke leaves behind, and the text it submitted, if any. */
  datatype Outcome = Outcome(state: State, submitted: Option<string>)

  /** After a submission both content and cursor start over. */
  function AfterSubmit(s: State, value: string): (o: Outcome)
    ensures o.state == State("", 0, s.inputMode) && o.submitted == Some(value)
  {
    Outcome(s.(content := "", cursor := 0), Some(value))
  }

  /**
   * A keystroke through the single-line surface: it is controlled by the
   * shared content with the content setter as its change callback, so an edit
   * replaces the content and leaves the cursor alone.
   */
  function SimpleKey(c: Config, s: State, ev: KeyEvent): (o: Outcome)
    ensures o.state.cursor == s.cursor || o.state.cursor == 0
    ensures o.state.inputMode == s.inputMode
    ensures o.submitted.Some? <==> !c.disabled && ev.key.returnKey && !AllWhitespace(s.content)
    ensures o.submitted.Some? ==> o == AfterSubmit(s, Trim(s.content))
    ensures o.submitted.None? ==> o.state.cursor == s.cursor
    ensures c.disabled ==> o == Outcome(s, None)
    ensures ev.key.returnKey && AllWhitespace(s.content) ==> o == Outcome(s, None)
    ensures !c.disabled && !ev.key.returnKey && (ev.key.backspace || ev.key.deleteKey) ==>
      o == Outcome(s.(content := DropLast(s.content)), None)
    ensures !c.disabled && !ev.key.returnKey && !ev.key.backspace && !ev.key.deleteKey && SimpleInput.Printable(ev) ==>
      o == Outcome(s.(content := s.content + ev.input), None)
    ensures !ev.key.returnKey && !ev.key.backspace && !ev.key.deleteKey && !SimpleInput.Printable(ev) ==>
      o == Outcome(s, None)
  {
    var props := SimpleInput.Props(c.disabled, Some(s.content), true);
    var step := SimpleInput.HandleKey(props, "", ev);
    if step.submitted.Some? then AfterSubmit(s, step.submitted.value)
    else if step.changed.Some? then Outcome(s.(content := step.changed.value), None)
    else Outcome(s, None)
  }

  /**
   * A keystroke through the multi-line surface: it edits the shared content
   * and cursor and is the only way to change the edit mode.
   */
  function MultilineKey(c: Config, s: State, ev: KeyEvent): (o: Outcome)
    ensures o.submitted.Some? ==> o == AfterSubmit(s.(inputMode := o.state.inputMode), Trim(s.content))
    ensures o.state.inputMode != s.inputMode ==> o.state.inputMode == Command
    ensures s.cursor <= |s.content| ==> o.state.cursor <= |o.state.content|
  {
    var w := MultiLineInput.Widget(Buffer(s.content, s.cursor), s.inputMode);
    var r := MultiLineInput.HandleKey(w, c.disabled, ev);
    if r.submitted.Some? then AfterSubmit(s.(inputMode := r.widget.mode), r.submitted.value)
    else Outcome(State(r.widget.buffer.content, r.widget.buffer.cursor, r.widget.mode), None)
  }

  /** One keystroke, routed to the surface the current content selects. */
  function HandleKey(c: Config, s: State, ev: KeyEvent): (o: Outcome)
    ensures o.submitted.Some? ==> o.state.content == "" && o.state.cursor == 0
    ensures o.submitted.Some? ==> o.submitted.value == Trim(s.content) && !AllWhitespace(s.content)
    ensures SurfaceFor(c.mode, s.content, c.threshold) == SimpleSurface ==> o.state.inputMode == s.inputMode
    ensures o.state.inputMode == Insert ==> s.inputMode == Insert
    ensures c.disabled ==> o == Outcome(s, None)
  {
    match SurfaceFor(c.mode, s.content, c.threshold)
    case SimpleSurface => SimpleKey(c, s, ev)
    case MultilineSurface => MultilineKey(c, s, ev)
  }

  /** A run of keystrokes: the final state and the last submission made, if any. */
  function HandleKeys(c: Config, s: State, evs: seq<KeyEvent>): (o: Outcome)
    decreases |evs|
  {
    if |evs| == 0 then Outcome(s, None)
    else
      var first := HandleKey(c, s, evs[0]);
      var rest := HandleKeys(c, first.state, evs[1..]);
      Outcome(rest.state, if rest.submitted.Some? then rest.submitted else first.submitted)
  }

  /** No sequence of keystrokes returns the edit mode to insert once it has left it. */
  lemma {:induction false} CommandModePersists(c: Config, s: State, evs: seq<KeyEvent>)
    requires s.inputMode == Command
    ensures HandleKeys(c, s, evs).state.inputMode == Command
    decreases |evs|
  {
    if |evs| > 0 {
      CommandModePersists(c, HandleKey(c, s, evs[0]).state, evs[1..]);
    }
  }

  /**
   * In a fixed single-line mode the edit mode never changes: it can only be
   * changed through the multi-line surface.
   */
  lemma {:induction false} SimpleModeKeepsEditMode(c: Config, s: State, evs: seq<KeyEvent>)
    requires c.mode == Simple
    ensures HandleKeys(c, s, evs).state.inputMode == s.inputMode
    decreases |evs|
  {
    if |evs| > 0 {
      SimpleModeKeepsEditMode(c, HandleKey(c, s, evs[0]).state, evs[1..]);
    }
  }

  /**
   * The cursor can be left past the end of the content: in single-line
   * presentation Backspace shortens the content but keeps the cursor.
   */
  lemma SimpleBackspaceStrandsCursor()
    ensures var s := State("ab", 2, Insert);
      var o := HandleKey(DefaultConfig, s, KeyEvent("", NoKeys.(backspace := true)));
      o.state == State("a", 2, Insert) && o.state.cursor > |o.state.content|
  {
    var s := State("ab", 2, Insert);
    assert SurfaceFor(Auto, "ab", DefaultThreshold) == SimpleSurface;
    assert DropLast("ab") == "a";
  }

  /**
   * A keystroke with no input and no key pressed leaves the whole shared
   * state as it was, whichever surface the content selects.
   */
  lemma IgnoredKeyKeepsState(c: Config, s: State)
    ensures HandleKey(c, s, KeyEvent("", NoKeys)) == Outcome(s, None)
  {
    var ev := KeyEvent("", NoKeys);
    match SurfaceFor(c.mode, s.content, c.threshold)
    case SimpleSurface =>
    case MultilineSurface =>
      var w := MultiLineInput.Widget(Buffer(s.content, s.cursor), s.inputMode);
      assert MultiLineInput.HandleKey(w, c.disabled, ev) == MultiLineInput.Reaction(w, None);
  }

  /** Typing a line break in auto mode switches to the multi-line surface. */
  lemma LineBreakSelectsMultiline(content: string, threshold: int)
    ensures SurfaceFor(Auto, content + "\n", threshold) == MultilineSurface
  {
    CountConcat(content, "\n", '\n');
  }

  /** Long content selects the multi-line surface in auto mode, short single-line content the simple one. */
  lemma AutoSurfaceByLength(content: string)
    requires Count(content, '\n') == 0
    ensures SurfaceFor(Auto, content, DefaultThreshold) == SimpleSurface <==> |content| <= 50
  {
  }
}
