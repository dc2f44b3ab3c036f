/**
 * Keyboard shortcuts: on every key event the first shortcut in the list
 * whose key equals the input ignoring case, and whose Ctrl and Meta
 * requirements agree exactly with the pressed modifiers, fires its action.
 * Actions are labels here; what they do belongs to the application.
 */
module KeyboardShortcuts {
  import opened JsString
  import opened Types

  /** What a shortcut does. */
  datatype Action = Exit | ClearHistory | ToggleTools | ToggleHelp | AppAction(name: string)

  /** A shortcut; an absent `ctrl` or `meta` requirement is `false`. */
  datatype Shortcut = Shortcut(key: string, ctrl: bool, meta: bool, description: string, action: Action)

  datatype Config = Config(shortcuts: seq<Shortcut>, disabled: bool)

  /** A required modifier must be pressed, and one not required must not be. */
  predicate Matches(s: Shortcut, ev: KeyEvent) {
    var keyMatches := ToLower(s.key) == ToLower(ev.input);
    var ctrlMatches := if s.ctrl then ev.key.ctrl else !ev.key.ctrl;
    var metaMatches := if s.meta then ev.key.meta else !ev.key.meta;
    keyMatches && ctrlMatches && metaMatches
  }

  /** Position of the first matching shortcut (`find`). */
  function FirstMatch(shortcuts: seq<Shortcut>, ev: KeyEvent): (r: Option<nat>)
    ensures r.Some? ==> r.value < |shortcuts| && Matches(shortcuts[r.value], ev)
    ensures r.Some? ==> forall j :: 0 <= j < r.value ==> !Matches(shortcuts[j], ev)
    ensures r.None? <==> forall j :: 0 <= j < |shortcuts| ==> !Matches(shortcuts[j], ev)
  {
    if |shortcuts| == 0 then None
    else if Matches(shortcuts[0], ev) then Some(0)
    else
      match FirstMatch(shortcuts[1..], ev)
      case None => None
      case Some(k) => Some(k + 1)
  }

  /** The action an event fires, if any: at most one per event. */
  function Fire(c: Config, ev: KeyEvent): (a: Option<Action>)
    ensures c.disabled ==> a.None?
    ensures a.Some? <==> !c.disabled && exists j :: 0 <= j < |c.shortcuts| && Matches(c.shortcuts[j], ev)
    ensures a.Some? ==> exists j :: 0 <= j < |c.shortcuts| && Matches(c.shortcuts[j], ev) && a.value == c.shortcuts[j].action
  {
    if c.disabled then None
    else
      match FirstMatch(c.shortcuts, ev)
      case None => None
      case Some(k) => Some(c.shortcuts[k].action)
  }

  /** The actions of all matching shortcuts, in list order. */
  function MatchingActions(shortcuts: seq<Shortcut>, ev: KeyEvent): (r: seq<Action>)
    ensures |r| <= |shortcuts|
  {
    if |shortcuts| == 0 then []
    else (if Matches(shortcuts[0], ev) then [shortcuts[0].action] else []) + MatchingActions(shortcuts[1..], ev)
  }

  /** What fires is the first of all matching actions. */
  lemma {:induction false} FireIsFirstMatching(c: Config, ev: KeyEvent)
    requires !c.disabled
    ensures var m := MatchingActions(c.shortcuts, ev);
      Fire(c, ev) == if |m| == 0 then None else Some(m[0])
    decreases |c.shortcuts|
  {
    if |c.shortcuts| > 0 && !Matches(c.shortcuts[0], ev) {
      FireIsFirstMatching(c.(shortcuts := c.shortcuts[1..]), ev);
    }
  }

  /** The modifier test is equality of the required and the pressed flags. */
  lemma ModifiersMustAgree(s: Shortcut, ev: KeyEvent)
    ensures Matches(s, ev) <==>
      ToLower(s.key) == ToLower(ev.input) && s.ctrl == ev.key.ctrl && s.meta == ev.key.meta
  {
  }

  /** Only the case of the typed input is ignored. */
  lemma MatchIgnoresCase(s: Shortcut, ev: KeyEvent)
    ensures Matches(s, ev) <==> Matches(s, ev.(input := ToLower(ev.input)))
  {
    ToLowerIdempotent(ev.input);
  }

  const ExitShortcut := Shortcut("c", true, false, "Exit application", Exit)
  const ClearShortcut := Shortcut("l", true, false, "Clear message history", ClearHistory)
  const ToggleToolsShortcut := Shortcut("t", true, false, "Toggle tool display", ToggleTools)
  const ToggleHelpShortcut := Shortcut("h", true, false, "Toggle help", ToggleHelp)

  const CommonShortcuts := [ExitShortcut, ClearShortcut, ToggleToolsShortcut, ToggleHelpShortcut]

  function CtrlKey(input: string): KeyEvent {
    KeyEvent(input, NoKeys.(ctrl := true))
  }

  /** The first shortcut that matches is the one that fires. */
  lemma FiresAt(c: Config, ev: KeyEvent, k: nat)
    requires !c.disabled && k < |c.shortcuts| && Matches(c.shortcuts[k], ev)
    requires forall j :: 0 <= j < k ==> !Matches(c.shortcuts[j], ev)
    ensures Fire(c, ev) == Some(c.shortcuts[k].action)
  {
  }

  /** Ctrl with c, l, t or h (in either case) fires exit, clear, toggle tools and toggle help. */
  lemma CommonShortcutBindings(letter: char)
    requires letter in "cltCLT" || letter == 'h' || letter == 'H'
    ensures var c := Config(CommonShortcuts, false);
      var a := Fire(c, CtrlKey([letter]));
      && (LowerChar(letter) == 'c' ==> a == Some(Exit))
      && (LowerChar(letter) == 'l' ==> a == Some(ClearHistory))
      && (LowerChar(letter) == 't' ==> a == Some(ToggleTools))
      && (LowerChar(letter) == 'h' ==> a == Some(ToggleHelp))
  {
    var c := Config(CommonShortcuts, false);
    var ev := CtrlKey([letter]);
    var lower := LowerChar(letter);
    assert ToLower([letter]) == [lower];
    var k := if lower == 'c' then 0 else if lower == 'l' then 1 else if lower == 't' then 2 else 3;
    assert ToLower(CommonShortcuts[k].key) == CommonShortcuts[k].key;
    forall j | 0 <= j < 4
      ensures Matches(CommonShortcuts[j], ev) <==> j == k
    {
      assert ToLower(CommonShortcuts[j].key) == CommonShortcuts[j].key;
    }
    FiresAt(c, ev, k);
  }

  /** Without Ctrl, or with Meta as well, the common shortcuts do not fire. */
  lemma CommonShortcutsNeedExactlyCtrl()
    ensures var c := Config(CommonShortcuts, false);
      && Fire(c, KeyEvent("c", NoKeys)).None?
      && Fire(c, KeyEvent("c", NoKeys.(ctrl := true, meta := true))).None?
  {
  }
}
