/**
 * The shared records of the chat UI: key events and input handler state
 * (src/types/input.ts) and messages, setup phases and UI variants
 * (src/types/common.ts).
 */
module Types {

  datatype Option<T> = None | Some(value: T) {
    function GetOr(default: T): T {
      match this
      case Some(v) => v
      case None => default
    }
  }

  /**
   * The key flags Ink reports with each keystroke; an absent flag is `false`.
   * `returnKey` and `deleteKey` are the `return` and `delete` flags.
   */
  datatype Key = Key(
    returnKey: bool,
    escape: bool,
    backspace: bool,
    deleteKey: bool,
    leftArrow: bool,
    rightArrow: bool,
    upArrow: bool,
    downArrow: bool,
    ctrl: bool,
    meta: bool)

  const NoKeys := Key(false, false, false, false, false, false, false, false, false, false)

  /** One keystroke: the text it produced (possibly empty) and its flags. */
  datatype KeyEvent = KeyEvent(input: string, key: Key)

  /** The modal editing state of the multi-line input. */
  datatype EditMode = Insert | Command

  datatype FocusTarget = InputFocus | HelpFocus | MessagesFocus | GlobalFocus

  /** The central input state the input manager keeps. */
  datatype InputState = InputState(
    focusTarget: FocusTarget,
    inputContent: string,
    inputCursorPosition: int,
    inputMode: EditMode)

  datatype Role = User | Assistant | System | Tool

  datatype Status = Pending | Complete

  /** A creation time; the model never inspects it. */
  type Timestamp = int

  datatype Message = Message(
    role: Role,
    content: string,
    timestamp: Timestamp,
    status: Status,
    toolName: Option<string>,
    toolArgs: Option<seq<string>>)

  datatype SetupStatus = Connecting | OpeningChannel | LoadingActor | Ready | Error

  datatype UIVariant = DefaultVariant | Git | Chat | Custom

  /** Which editing surface a smart input uses; `Auto` decides from the content. */
  datatype InputMode = Simple | Multiline | Auto
}
