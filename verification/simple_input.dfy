/**
 * The single-line input: Return submits the trimmed value, Backspace or
 * Delete drops the last character, printable input is appended. The value is
 * either the component's own (uncontrolled) or the one its owner passes in
 * (controlled); in the controlled case edits go to the owner's change
 * callback, and are lost when there is none.
 */
module SimpleInput {
  import opened JsString
  import opened Types

  /**
   * What the owner passes: whether input is disabled, the controlled value
   * (`None` for an uncontrolled input) and whether a change callback exists.
   */
  datatype Props = Props(disabled: bool, controlled: Option<string>, hasOnChange: bool)

  /**
   * What a keystroke does: the component's own value afterwards, the value
   * handed to the change callback (if it was called) and the text handed to
   * the submit callback (if it was called).
   */
  datatype Step = Step(internal: string, changed: Option<string>, submitted: Option<string>)

  predicate IsControlled(p: Props) {
    p.controlled.Some?
  }

  /** The value shown and edited: the controlled value if there is one. */
  function Value(p: Props, internal: string): (v: string)
    ensures IsControlled(p) ==> v == p.controlled.value
    ensures !IsControlled(p) ==> v == internal
  {
    p.controlled.GetOr(internal)
  }

  /** The setter chosen at render time: own state, the change callback, or nothing. */
  function SetValue(p: Props, internal: string, v: string): (s: Step)
    ensures s.submitted.None?
    ensures !IsControlled(p) ==> s == Step(v, None, None)
    ensures IsControlled(p) && p.hasOnChange ==> s == Step(internal, Some(v), None)
    ensures IsControlled(p) && !p.hasOnChange ==> s == Step(internal, None, None)
  {
    if !IsControlled(p) then Step(v, None, None)
    else if p.hasOnChange then Step(internal, Some(v), None)
    else Step(internal, None, None)
  }

  predicate Printable(ev: KeyEvent) {
    ev.input != "" && !ev.key.ctrl && !ev.key.meta
  }

  /** The keystroke reducer. */
  function HandleKey(p: Props, internal: string, ev: KeyEvent): (s: Step)
    ensures p.disabled ==> s == Step(internal, None, None)
    ensures s.submitted.Some? <==> !p.disabled && ev.key.returnKey && !AllWhitespace(Value(p, internal))
    ensures s.submitted.Some? ==> s.submitted.value == Trim(Value(p, internal))
    ensures s.submitted.Some? ==> s.changed.None? && s.internal == (if IsControlled(p) then internal else "")
    ensures ev.key.returnKey ==> s.changed.None?
    ensures ev.key.returnKey && s.submitted.None? ==> s == Step(internal, None, None)
    ensures !p.disabled && !ev.key.returnKey && (ev.key.backspace || ev.key.deleteKey) ==>
      s == SetValue(p, internal, DropLast(Value(p, internal)))
    ensures !p.disabled && !ev.key.returnKey && !ev.key.backspace && !ev.key.deleteKey && Printable(ev) ==>
      s == SetValue(p, internal, Value(p, internal) + ev.input)
    ensures !ev.key.returnKey && !ev.key.backspace && !ev.key.deleteKey && !Printable(ev) ==>
      s == Step(internal, None, None)
    ensures IsControlled(p) ==> s.internal == internal
  {
    var value := Value(p, internal);
    var key := ev.key;
    if p.disabled then Step(internal, None, None)
    else if key.returnKey then
      var trimmed := Trim(value);
      if trimmed != "" then Step(if IsControlled(p) then internal else "", None, Some(trimmed))
      else Step(internal, None, None)
    else if key.backspace || key.deleteKey then SetValue(p, internal, DropLast(value))
    else if Printable(ev) then SetValue(p, internal, value + ev.input)
    else Step(internal, None, None)
  }

  /** The value the input holds after a keystroke, as its owner sees it. */
  function Next(p: Props, internal: string, ev: KeyEvent): string {
    var s := HandleKey(p, internal, ev);
    if IsControlled(p) then s.changed.GetOr(p.controlled.value) else s.internal
  }

  /** Typing `text` one character per keystroke into an uncontrolled input. */
  function TypeText(p: Props, internal: string, text: string): string
    requires !IsControlled(p)
    decreases |text|
  {
    if |text| == 0 then internal
    else TypeText(p, Next(p, internal, KeyEvent([text[0]], NoKeys)), text[1..])
  }

  /** Typing into an enabled uncontrolled input appends the typed text. */
  lemma {:induction false} TypeTextAppends(p: Props, internal: string, text: string)
    requires !IsControlled(p) && !p.disabled
    ensures TypeText(p, internal, text) == internal + text
    decreases |text|
  {
    if |text| > 0 {
      TypeTextAppends(p, internal + [text[0]], text[1..]);
      assert internal + [text[0]] + text[1..] == internal + text;
    }
  }

  /** Backspace undoes the last typed character, whatever the mode. */
  lemma TypeThenBackspace(p: Props, internal: string, c: char)
    requires !p.disabled
    ensures var typed := Next(p, internal, KeyEvent([c], NoKeys));
      var q := if IsControlled(p) then p.(controlled := Some(typed)) else p;
      !IsControlled(p) || p.hasOnChange ==>
        Next(q, typed, KeyEvent("", NoKeys.(backspace := true))) == Value(p, internal)
  {
    var v := Value(p, internal);
    assert DropLast(v + [c]) == v;
  }

  /** Backspace on an empty value leaves it empty. */
  lemma BackspaceOnEmpty(p: Props, internal: string)
    requires Value(p, internal) == ""
    ensures Next(p, internal, KeyEvent("", NoKeys.(backspace := true))) == ""
  {
  }

  /** Without a change callback a controlled input never changes: only submissions get out. */
  lemma ControlledWithoutCallbackDiscardsEdits(p: Props, internal: string, ev: KeyEvent)
    requires IsControlled(p) && !p.hasOnChange
    ensures var s := HandleKey(p, internal, ev);
      s.internal == internal && s.changed.None?
  {
  }

  /** A blank value is never submitted, and an uncontrolled one is not cleared by Return. */
  lemma BlankReturnDoesNothing(p: Props, internal: string)
    requires AllWhitespace(Value(p, internal))
    ensures HandleKey(p, internal, KeyEvent("", NoKeys.(returnKey := true))) == Step(internal, None, None)
  {
  }

  /** Return wins over every other flag and over the typed text. */
  lemma ReturnTakesPrecedence(p: Props, internal: string, ev: KeyEvent)
    requires ev.key.returnKey
    ensures HandleKey(p, internal, ev) == HandleKey(p, internal, KeyEvent("", NoKeys.(returnKey := true)))
  {
  }
}
