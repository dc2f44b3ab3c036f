# terminal-chat-ui core in Dafny

A model of the logic inside the terminal chat UI library: the React hooks and
Ink components reduced to immutable state and pure transition functions, with
the properties the code promises proved about them.

- **JsString** (`js_string.dfy`): the JavaScript string operations the code
  relies on. It covers `trim` over a declared whitespace set, `slice` with its
  clamping, `indexOf`/`lastIndexOf` with their start-position rules,
  one-character `split`/`join`, ASCII `toLowerCase` and `endsWith`, with their
  round-trip lemmas.
- **Types** (`types.dfy`): key events, messages, roles, setup phases, UI
  variants and the shared input state.
- **TextBuffer** (`text_buffer.dfy`): the multi-line input's buffer.
  - Splice insert, backward and forward delete, clamped moves and
    trim-and-submit.
  - The cursor's row and column.
  - Clipping the lines for display, with the count of elided lines.
- **MultiLineInput** (`multi_line_input.dfy`): the up and down arrows, which
  keep the column where they can, and the modal (insert/command) key table.
- **SimpleInput** (`simple_input.dfy`): the single-line reducer, in controlled
  and uncontrolled form.
- **SmartInput** (`smart_input.dfy`): picks the single-line or multi-line
  surface from the content, over one shared content, cursor and edit mode.
- **InputManager** (`input_manager.dfy`): the handler registry, an
  insertion-ordered map.
  - Dispatch in descending priority with stable ties, stopping at the first
    handler that accepts.
  - The input-state update helpers.
- **KeyboardShortcuts** (`keyboard_shortcuts.dfy`): the first shortcut whose
  key matches case-insensitively and whose Ctrl/Meta flags agree exactly
  fires. Also the table of common shortcuts.
- **MessageState** (`message_state.dfy`): append, append pending, complete the
  last pending message, insert a tool message before the last assistant
  message, remove by index, clear.
- **MessageFormatting** (`message_formatting.dfy`): prefix and colour tables,
  greedy word wrapping and message filtering.
- **TheaterHelpers** (`theater_helpers.dfy`): configuration validation and
  defaults, the setup-phase display table, and extraction of text and
  tool-use blocks from a parsed backend message.
- **TheaterSession** (`theater_session.dfy`): the session setup effect.
  - The effect is the log of state updates and client calls it makes, given
    what each client method does and when the hook unmounts.
  - The log also marks each await settling (`Resumed(k)` for the k-th), so
    it shows how far a run goes once the hook is unmounted.
  - Also the state that log leaves, `sendMessage` and `cleanup`.

The quirks of the code are modelled as written:
- The up arrow does nothing on the second line.
- Escape is the only mode change, so nothing returns to insert mode.
- Backspace and Delete both delete backwards.
- `opening_channel` is announced before `createSession` is called.
- Reaching `ready` leaves the message at `Starting chat automation...`.
- `cleanup` has no guard against a second call.

Two consequences of the code worth knowing:
- `cleanup` keeps no record that it ran, so a second call closes the same
  channel again and, when the first call stopped the actor, stops the same
  actor again (`TheaterSession.CleanupTwiceRepeats`).
- `error` is never set before `opening_channel`, because only the awaited
  client calls can throw (`TheaterSession.SetupTrailValid`).

## Model

| member | source | states |
|---|---|---|
| JsString.Trim | src/components/MultiLineInput.tsx:81-82 | the result is the input with whitespace, and only whitespace, removed at both ends; it is empty exactly when the input is all whitespace, and otherwise starts and ends with a non-whitespace character |
| JsString.TrimIdempotent | src/components/MultiLineInput.tsx:81 | trimming a trimmed string changes nothing |
| JsString.TrimPadded | src/components/SimpleInput.tsx:31-32 | text padded with whitespace on both sides trims to the bare text |
| JsString.Prefix | src/components/MultiLineInput.tsx:43 | `slice(0, n)` is the first `min(n, length)` characters |
| JsString.Suffix | src/components/MultiLineInput.tsx:44 | `slice(n)` is everything from position `min(n, length)` on |
| JsString.DropLast | src/components/SimpleInput.tsx:38 | `slice(0, -1)` drops the last character, and leaves the empty string empty |
| JsString.IndexOf | src/components/MultiLineInput.tsx:150-152 | `indexOf` returns -1 or a position at or after the start that holds the character |
| JsString.IndexOfSkips | src/components/MultiLineInput.tsx:150-152 | no position between the start and the one `indexOf` returns holds the character; after -1, none from the start on does |
| JsString.LastIndexOf | src/components/MultiLineInput.tsx:138-139 | `lastIndexOf` searches backwards from the start position clamped into the string, and gives -1 on an empty string |
| JsString.LastIndexSkips | src/components/MultiLineInput.tsx:138-139 | no position after the one the backward search returns, up to its start, holds the character |
| JsString.Split | src/utils/messageFormatting.ts:49 | `split` yields one more piece than there are separators |
| JsString.SplitPiecesLackSeparator | src/utils/messageFormatting.ts:54 | no piece of a split contains the separator |
| JsString.JoinSplit | src/utils/messageFormatting.ts:48-70 | joining the pieces of a split with the same separator gives back the string |
| JsString.SplitJoin | src/utils/messageFormatting.ts:68-70 | splitting a join of separator-free pieces gives back the pieces |
| JsString.ToLower | src/hooks/useKeyboardShortcuts.tsx:19 | `toLowerCase` keeps the length and lowers each ASCII capital, leaving every other character alone |
| JsString.ToLowerIdempotent | src/hooks/useKeyboardShortcuts.tsx:19 | lowering twice is lowering once |
| TextBuffer.Lines | src/components/MultiLineInput.tsx:26 | the content has one more line than it has line breaks |
| TextBuffer.CursorLocation | src/components/MultiLineInput.tsx:30-36 | the column never exceeds the position |
| TextBuffer.SplitCountsRows | src/components/MultiLineInput.tsx:31-32 | the row is one less than the number of pieces the text before the cursor splits into at line breaks, the formula the code uses |
| TextBuffer.ColumnFacts | src/components/MultiLineInput.tsx:33-34 | the column is the distance back to just after the last line break before the cursor, or to the start, with no break in between |
| TextBuffer.InsertText | src/components/MultiLineInput.tsx:41-50 | the text is spliced in at the cursor with the text before and after it kept, and the cursor advances by the text's length; a cursor inside the content stays inside |
| TextBuffer.DeleteBackward | src/components/MultiLineInput.tsx:52-62 | at a cursor above 0 the character before it is removed and the cursor moves back one; at 0 nothing changes |
| TextBuffer.DeleteForward | src/components/MultiLineInput.tsx:63-70 | the character at the cursor is removed and the cursor stays; at or past the end nothing changes |
| TextBuffer.MoveCursor | src/components/MultiLineInput.tsx:73-77 | any target is clamped into `[0, length]` and the content is untouched |
| TextBuffer.MoveLeft | src/components/MultiLineInput.tsx:127-130 | the left arrow moves a valid cursor one place back, and leaves it at the start |
| TextBuffer.MoveRight | src/components/MultiLineInput.tsx:131-134 | the right arrow moves the cursor one place forward, and leaves it at the end |
| TextBuffer.Submit | src/components/MultiLineInput.tsx:79-88 | the trimmed content is emitted and the buffer emptied exactly when the content is not all whitespace; otherwise nothing changes |
| TextBuffer.Clip | src/components/MultiLineInput.tsx:170-171 | the first `maxHeight` lines are shown; lines are elided exactly when there are more, and then the elided count is the number of lines minus `maxHeight` |
| TextBuffer.ClipLosesNothing | src/components/MultiLineInput.tsx:170-171 | the shown lines followed by the elided ones join back into the content |
| TextBuffer.InsertThenBackspace | src/components/MultiLineInput.tsx:41-62 | backspacing once per inserted character restores the buffer exactly |
| TextBuffer.InsertThenDeleteForward | src/components/MultiLineInput.tsx:41-70 | inserting a character and deleting forward from the old cursor restores the buffer |
| TextBuffer.SubmitTrimsAndClears | src/components/MultiLineInput.tsx:79-88 | submitting text padded with whitespace emits the bare text and empties the buffer |
| MultiLineInput.DownArrow | src/components/MultiLineInput.tsx:149-160 | the down arrow moves only the cursor |
| MultiLineInput.UpArrow | src/components/MultiLineInput.tsx:137-148 | the up arrow moves only the cursor |
| MultiLineInput.DownArrowMovesToNextLine | src/components/MultiLineInput.tsx:149-160 | on the last line the cursor stays; on any other line it lands on the next line, in the same column or at the end of that line if it is shorter |
| MultiLineInput.UpArrowMovesToPreviousLine | src/components/MultiLineInput.tsx:137-148 | on the first two lines the cursor stays; from the third line down it lands on the line above, in the same column or at the end of that line if it is shorter |
| MultiLineInput.UpArrowNearTop | src/components/MultiLineInput.tsx:138-140 | when the backward search finds no second line break, the cursor is on row 0 or 1 and the up arrow leaves it alone |
| MultiLineInput.DownArrowClampsToShorterLine | src/components/MultiLineInput.tsx:149-160 | column 5 of `abcdef` moves down to the end of the shorter line `xy`, position 9 |
| MultiLineInput.UpArrowStuckOnSecondLine | src/components/MultiLineInput.tsx:138-140 | from the second line the up arrow does not move, although a line lies above |
| MultiLineInput.HandleKey | src/components/MultiLineInput.tsx:91-167 | disabled ignores every key; Escape always gives command mode and nothing else changes the mode; Return submits in command mode and with Ctrl in insert mode, and otherwise inserts a line break; printable input inserts in both modes; command mode ignores every other key; in insert mode the left and right arrows move the cursor by one (clamped), the up and down arrows move it a line, Backspace or Delete deletes backwards, and any other key does nothing, in that order of precedence; a valid cursor stays valid |
| MultiLineInput.BackspaceAndDeleteBothDeleteBackward | src/components/MultiLineInput.tsx:163-166 | Backspace and Delete have the same effect, a backward delete in insert mode and nothing in command mode |
| MultiLineInput.CommandModeIsFinal | src/components/MultiLineInput.tsx:94-97 | once in command mode, no run of keystrokes returns to insert mode |
| MultiLineInput.KeysKeepCursorValid | src/components/MultiLineInput.tsx:91-167 | over any run of keystrokes the cursor stays within the content |
| SimpleInput.Value | src/components/SimpleInput.tsx:22-23 | the value is the controlled one when given, else the component's own |
| SimpleInput.SetValue | src/components/SimpleInput.tsx:24 | an uncontrolled input stores the value; a controlled one hands it to the change callback, or drops it without one |
| SimpleInput.HandleKey | src/components/SimpleInput.tsx:26-42 | disabled ignores every key; Return submits the trimmed value exactly when it is not blank, clearing only an uncontrolled value; Backspace/Delete drop the last character; printable input without Ctrl/Meta is appended |
| SimpleInput.TypeTextAppends | src/components/SimpleInput.tsx:39-40 | typing into an enabled uncontrolled input appends the typed text |
| SimpleInput.TypeThenBackspace | src/components/SimpleInput.tsx:37-40 | Backspace undoes the last typed character, in an uncontrolled input or a controlled one with a change callback |
| SimpleInput.BackspaceOnEmpty | src/components/SimpleInput.tsx:37-38 | Backspace on an empty value leaves it empty |
| SimpleInput.ControlledWithoutCallbackDiscardsEdits | src/components/SimpleInput.tsx:22-24 | a controlled input without a change callback never reports or stores an edit |
| SimpleInput.BlankReturnDoesNothing | src/components/SimpleInput.tsx:29-36 | Return on a blank value submits nothing and changes nothing |
| SimpleInput.ReturnTakesPrecedence | src/components/SimpleInput.tsx:29-41 | with Return pressed, the other flags and the typed text make no difference |
| SmartInput.SurfaceFor | src/components/SmartInput.tsx:28-39 | in auto mode the multi-line surface is chosen exactly when the content is longer than the threshold or has a line break; a fixed mode is used as given |
| SmartInput.AfterSubmit | src/components/SmartInput.tsx:42-46 | a submission forwards the value and resets content and cursor, keeping the edit mode |
| SmartInput.SimpleKey | src/components/SmartInput.tsx:49-58 | through the single-line surface an edit never moves the cursor or the edit mode; disabled or blank Return changes nothing; Backspace/Delete drop the last character of the shared content, printable input is appended to it, and other keys change nothing; a submission forwards the trimmed content and starts over |
| SmartInput.MultilineKey | src/components/SmartInput.tsx:62-75 | through the multi-line surface the mode can only move to command, a valid cursor stays valid, and a submission starts over |
| SmartInput.HandleKey | src/components/SmartInput.tsx:49-75 | a submission forwards the trimmed, non-blank content and leaves an empty buffer at 0; disabled changes nothing; edit mode never returns to insert |
| SmartInput.CommandModePersists | src/components/SmartInput.tsx:68-69 | no run of keystrokes returns the edit mode from command to insert |
| SmartInput.SimpleModeKeepsEditMode | src/components/SmartInput.tsx:49-58 | in fixed single-line mode the edit mode never changes |
| SmartInput.SimpleBackspaceStrandsCursor | src/components/SmartInput.tsx:49-58 | Backspace in the single-line surface leaves the cursor past the end of the content |
| SmartInput.IgnoredKeyKeepsState | src/components/SmartInput.tsx:49-75 | a keystroke both surfaces ignore leaves content, cursor and mode as they were, whichever surface is showing |
| SmartInput.LineBreakSelectsMultiline | src/components/SmartInput.tsx:31-33 | content with a line break selects the multi-line surface in auto mode |
| SmartInput.AutoSurfaceByLength | src/components/SmartInput.tsx:19-35 | with the default threshold, single-line content of at most 50 characters selects the simple surface, and longer content the multi-line one |
| InputManager.Lookup | src/hooks/useInputManager.ts:16 | a lookup finds a handler exactly when the id is registered, and then it is that id's entry |
| InputManager.LookupFindsEntry | src/hooks/useInputManager.ts:16 | with distinct ids, every entry is what its id looks up |
| InputManager.Register | src/hooks/useInputManager.ts:19-21 | registering makes the id look up the new handler and no other id changes; an existing id keeps its position, a new one goes last; ids stay distinct |
| InputManager.Unregister | src/hooks/useInputManager.ts:24-26 | the entries left are exactly those with other ids; the registry never grows, and an unknown id changes nothing |
| InputManager.UnregisterKeepsOthers | src/hooks/useInputManager.ts:24-26 | unregistering changes no other id's lookup |
| InputManager.UnregisterRemovesId | src/hooks/useInputManager.ts:24-26 | after unregistering, the id looks nothing up |
| InputManager.UnregisterKeepsUnique | src/hooks/useInputManager.ts:24-26 | unregistering keeps the ids distinct |
| InputManager.UnregisterShrinksByOne | src/hooks/useInputManager.ts:24-26 | with distinct ids, unregistering a registered id removes exactly one entry |
| InputManager.RegisterThenUnregister | src/hooks/useInputManager.ts:19-26 | registering a new id and unregistering it gives back the registry |
| InputManager.ServiceOrder | src/hooks/useInputManager.ts:31-33 | the handlers are tried in an order holding exactly the active ones, by descending priority with ties in registration order |
| InputManager.OrderIsUnique | src/hooks/useInputManager.ts:31-33 | that order is the only arrangement of the active handlers that is by descending priority with ties in registration order, which is what any stable sort yields |
| InputManager.ServiceOrderExample | src/hooks/useInputManager.ts:31-33 | with priorities 1 and 5 active and 10 inactive, the 5 goes first, then the 1, and the inactive one is never tried |
| InputManager.Dispatch | src/hooks/useInputManager.ts:29-44 | only active handlers are called, in service order; calling stops at the first that accepts; the result is true exactly when some active handler accepts |
| InputManager.UpdateInputContent | src/hooks/useInputManager.ts:47-49 | sets the content and nothing else |
| InputManager.UpdateInputCursor | src/hooks/useInputManager.ts:51-53 | sets the cursor and nothing else |
| InputManager.UpdateInputMode | src/hooks/useInputManager.ts:55-57 | sets the mode and nothing else |
| InputManager.SetFocus | src/hooks/useInputManager.ts:59-61 | sets the focus target and nothing else |
| InputManager.ClearInput | src/hooks/useInputManager.ts:63-70 | keeps the focus target and resets everything else to the initial state |
| InputManager.ClearInputForgetsEdits | src/hooks/useInputManager.ts:63-70 | clearing forgets any edits made before it, clearing twice is clearing once, and the initial state is already clear |
| KeyboardShortcuts.FirstMatch | src/hooks/useKeyboardShortcuts.tsx:18-24 | the position found matches, and no earlier shortcut does; nothing is found exactly when no shortcut matches |
| KeyboardShortcuts.Fire | src/hooks/useKeyboardShortcuts.tsx:14-28 | disabled fires nothing; an action fires exactly when some shortcut matches, and it is a matching shortcut's action |
| KeyboardShortcuts.FireIsFirstMatching | src/hooks/useKeyboardShortcuts.tsx:18-28 | what fires is the first of all matching shortcuts' actions, in list order |
| KeyboardShortcuts.FiresAt | src/hooks/useKeyboardShortcuts.tsx:18-28 | a matching shortcut with no matching shortcut before it is the one that fires |
| KeyboardShortcuts.ModifiersMustAgree | src/hooks/useKeyboardShortcuts.tsx:19-23 | a shortcut matches exactly when the keys agree ignoring case and the Ctrl and Meta flags equal the pressed ones |
| KeyboardShortcuts.MatchIgnoresCase | src/hooks/useKeyboardShortcuts.tsx:19 | lowering the typed input does not change whether a shortcut matches |
| KeyboardShortcuts.CommonShortcutBindings | src/hooks/useKeyboardShortcuts.tsx:35-63 | Ctrl with c, l, t or h, in either case, fires exit, clear, toggle tools and toggle help |
| KeyboardShortcuts.CommonShortcutsNeedExactlyCtrl | src/hooks/useKeyboardShortcuts.tsx:35-41 | without Ctrl, or with Meta as well, the exit shortcut does not fire |
| MessageState.NewMessage | src/hooks/useMessageState.tsx:22-29 | the message carries the given role, content, status and time; a tool name is kept only when non-empty; tool arguments are kept as given |
| MessageState.AddMessage | src/hooks/useMessageState.tsx:15-31 | exactly one message is appended and the earlier ones are unchanged; the status defaults to complete and the tool fields to none |
| MessageState.AddPendingMessage | src/hooks/useMessageState.tsx:34-36 | a pending message without tool fields is appended and becomes the last pending one |
| MessageState.LastPending | src/hooks/useMessageState.tsx:43-52 | the position found is pending and no later message is; -1 means none is |
| MessageState.UpdateLastPending | src/hooks/useMessageState.tsx:39-56 | only the content and status, complete by default, of the last pending message change and the length stays; with no pending message nothing changes |
| MessageState.UpdateLastPendingMessage | src/hooks/useMessageState.tsx:39-56 | the backward search with early exit computes that update, with the same default status |
| MessageState.PendingThenUpdate | src/hooks/useMessageState.tsx:34-56 | completing a just-added pending message is the same as adding the completed message |
| MessageState.CompletingRemovesOnePending | src/hooks/useMessageState.tsx:39-56 | completing the last pending message leaves one pending message fewer |
| MessageState.LastAssistant | src/hooks/useMessageState.tsx:72 | the position found holds an assistant message and no later one does; -1 means none does |
| MessageState.AddToolMessage | src/hooks/useMessageState.tsx:59-80 | the list grows by one; the tool message, with arguments defaulting to an empty list, sits immediately before the last assistant message, with the rest kept in order, or at the end when there is none |
| MessageState.RemoveMessage | src/hooks/useMessageState.tsx:88-90 | an index in range removes exactly that message, keeping the others in order; an index out of range changes nothing |
| MessageState.RemoveAddedToolMessage | src/hooks/useMessageState.tsx:59-90 | removing the tool message just added gives back the list |
| MessageState.Defaults | src/hooks/useMessageState.tsx:15-59 | a message added or updated without a status is complete, one added without tool fields has none, and a tool message added without arguments has an empty argument list |
| MessageState.ClearMessages | src/hooks/useMessageState.tsx:83-85 | clearing leaves no messages |
| MessageFormatting.MessagePrefixes | src/utils/messageFormatting.ts:10-26 | `git` relabels system and assistant, `chat` only assistant; user and tool labels are the same for every variant |
| MessageFormatting.MessageColor | src/utils/messageFormatting.ts:31-40 | user and system are gray, assistant white, tool magenta |
| MessageFormatting.ColorIgnoresVariant | src/utils/messageFormatting.ts:31-40 | the colour does not depend on the variant |
| MessageFormatting.FormatMessageContent | src/utils/messageFormatting.ts:45-46 | no limit, or a zero limit, returns the content as it is |
| MessageFormatting.WrapLine | src/utils/messageFormatting.ts:51 | a line no longer than the limit is kept |
| MessageFormatting.ShortLinesUnchanged | src/utils/messageFormatting.ts:48-51 | content whose lines all fit is returned unchanged |
| MessageFormatting.WrapWordsSettled | src/utils/messageFormatting.ts:58-65 | packing words without spaces or breaks only ever closes non-empty pieces that fit or are single words |
| MessageFormatting.WrapPiecesSettled | src/utils/messageFormatting.ts:53-68 | every wrapped piece is non-empty and has no line break, and a piece longer than the limit has no space: words are never broken |
| MessageFormatting.WrapLineSettled | src/utils/messageFormatting.ts:51-68 | a piece that fits, or is a single word, wraps to itself |
| MessageFormatting.FormatIdempotent | src/utils/messageFormatting.ts:45-71 | formatting formatted content again with the same limit changes nothing |
| MessageFormatting.WrapStepVisible | src/utils/messageFormatting.ts:59-64 | one packing step moves a word into the pieces without adding or losing visible characters |
| MessageFormatting.WrapWordsVisible | src/utils/messageFormatting.ts:58-65 | packing keeps the visible characters of the words, in order |
| MessageFormatting.WrapLineVisible | src/utils/messageFormatting.ts:53-68 | wrapping a line keeps its characters other than spaces and line breaks, in order |
| MessageFormatting.FormatKeepsVisibleText | src/utils/messageFormatting.ts:45-71 | formatting only moves spaces and line breaks; the other characters stay, in order |
| MessageFormatting.WrapExample | src/utils/messageFormatting.ts:53-68 | `aa bb cc` at limit 5 wraps to `aa bb` and `cc` |
| MessageFormatting.FilterMessages | src/utils/messageFormatting.ts:102-108 | the result keeps exactly the messages meeting every criterion, and no others |
| MessageFormatting.FilterConcat | src/utils/messageFormatting.ts:102-108 | filtering a concatenation filters each part, so the order is kept |
| MessageFormatting.FilterNoCriteria | src/utils/messageFormatting.ts:102-108 | no criteria keep every message |
| MessageFormatting.FilterIdempotent | src/utils/messageFormatting.ts:102-108 | filtering twice with the same criteria is filtering once |
| TheaterHelpers.ValidateTheaterConfig | src/utils/theaterHelpers.ts:10-25 | valid exactly when there is no error; the missing-address error exactly when neither server nor manifest is given; the extension error exactly when a manifest does not end in `.toml`; at most one error |
| TheaterHelpers.BadManifestReported | src/utils/theaterHelpers.ts:17-19 | a manifest path not ending in `.toml` is reported even when a server is given |
| TheaterHelpers.SetupStatusInfo | src/utils/theaterHelpers.ts:30-60 | the spinner shows, in yellow, exactly for connecting, opening_channel and loading_actor; ready is green and error red, neither with a spinner |
| TheaterHelpers.StatusMessagesDistinct | src/utils/theaterHelpers.ts:30-60 | different phases show different messages |
| TheaterHelpers.CreateDefaultTheaterConfig | src/utils/theaterHelpers.ts:125-130 | the server is `127.0.0.1:9000` unless the overrides set it; every field the overrides set wins |
| TheaterHelpers.DefaultConfigIsValid | src/utils/theaterHelpers.ts:125-130 | the default configuration passes validation |
| TheaterHelpers.ToolBlockOf | src/utils/theaterHelpers.ts:105-108 | a tool block's name defaults to `unknown` and its input to `{}` when missing or falsy |
| TheaterHelpers.ToolDefaults | src/utils/theaterHelpers.ts:104-108 | a bare `tool_use` block becomes `unknown` with input `{}` |
| TheaterHelpers.MessageContent | src/utils/theaterHelpers.ts:94 | the `Message` content is used when truthy, else the `Completion` content |
| TheaterHelpers.ExtractMessageContent | src/utils/theaterHelpers.ts:87-120 | the user flag holds exactly when the message role is `user`; array content gives the trimmed text of its text blocks and its tool blocks in order; string content gives its trim and no tools; anything else gives nothing |
| TheaterHelpers.TextOfConcat | src/utils/theaterHelpers.ts:101-103 | the text of the blocks is the concatenation of the parts' texts, in order |
| TheaterHelpers.ToolUseAddsNoText | src/utils/theaterHelpers.ts:101-109 | a tool-use block adds one tool and no text |
| TheaterSession.SetupSession | src/hooks/useTheaterSession.tsx:26-84 | setup does nothing without a client, and with one it starts by announcing `connecting` |
| TheaterSession.OpeningAnnouncedBeforeCreate | src/hooks/useTheaterSession.tsx:39-44 | `opening_channel` is set before `createSession` is called |
| TheaterSession.SetupTrailValid | src/hooks/useTheaterSession.tsx:29-75 | the statuses set follow connecting, opening_channel, loading_actor, ready in order, except that the last may be `error`, and never before `opening_channel` |
| TheaterSession.TrailErrorIsLast | src/hooks/useTheaterSession.tsx:69-73 | an error ends the trail and excludes ready; without one the trail is a prefix of the success path |
| TheaterSession.FinalStatusEndsTrail | src/hooks/useTheaterSession.tsx:29-75 | the final status is the last one set, or `connecting` when none was |
| TheaterSession.FailureIsReported | src/hooks/useTheaterSession.tsx:69-73 | setup ends in `error` exactly when some step set it, and then the message starts with `Error: ` |
| TheaterSession.ReadyKeepsLoadingMessage | src/hooks/useTheaterSession.tsx:55-67 | `isReady` holds exactly when some step set `ready`, and then the message is still `Starting chat automation...` |
| TheaterSession.CallsNeedTheSessionFields | src/hooks/useTheaterSession.tsx:44-64 | `openChannelStream` is called only with the created session's chat actor id and `startChat` only with its domain actor; `createSession` is called exactly when the client has it and the hook is still mounted after the first delay |
| TheaterSession.NoChatActorNoChannel | src/hooks/useTheaterSession.tsx:49-53 | a session without a chat actor id opens no channel and leaves the channel null |
| TheaterSession.OpeningRun | src/hooks/useTheaterSession.tsx:33-40 | past the first delay, the run has set `connecting` then `opening_channel`, with its message, before anything else |
| TheaterSession.SessionThrowsRun | src/hooks/useTheaterSession.tsx:44-73 | a `createSession` that throws while mounted sets `error` with `Error: ` and the thrown text |
| TheaterSession.LoadActorReady | src/hooks/useTheaterSession.tsx:55-67 | a loading step for a session with a domain actor ends at `ready` with the loading message |
| TheaterSession.LoadActorThrows | src/hooks/useTheaterSession.tsx:55-73 | a `startChat` that throws ends the loading step with its error |
| TheaterSession.CreateSessionFailure | src/hooks/useTheaterSession.tsx:44-73 | a failing `createSession` ends setup in `error` after connecting and opening_channel, with no session or channel stored |
| TheaterSession.StartChatFailure | src/hooks/useTheaterSession.tsx:55-73 | a failing `startChat` reports its error after `loading_actor`, with the session kept |
| TheaterSession.SuccessPath | src/hooks/useTheaterSession.tsx:33-67 | on success every step runs in order, the session and channel are stored, and the message at `ready` differs from the status table's |
| TheaterSession.UnmountOnlyTruncates | src/hooks/useTheaterSession.tsx:27-83 | unmounting only cuts the run short, and unmounting during the first delay leaves only the first announcement and the delay settling |
| TheaterSession.UnmountStopsSetup | src/hooks/useTheaterSession.tsx:27-83 | a hook unmounted while its (n+1)-th await is pending sees no later await settle and does nothing after that one settles; a run that never reaches it is the mounted run |
| TheaterSession.UnmountDuringCreate | src/hooks/useTheaterSession.tsx:33-47 | unmounting while `createSession` is pending sets no session, no channel and no status after `opening_channel` |
| TheaterSession.SendMessage | src/hooks/useTheaterSession.tsx:87-93 | sending fails with `Session not ready` unless the session has a domain actor and the client can send; otherwise it is the client's result unchanged |
| TheaterSession.SendBeforeSetupFails | src/hooks/useTheaterSession.tsx:87-90 | before setup stores a session, sending always fails |
| TheaterSession.SendAfterSuccess | src/hooks/useTheaterSession.tsx:87-93 | after a successful setup, sending goes to the client with the domain actor |
| TheaterSession.Cleanup | src/hooks/useTheaterSession.tsx:96-107 | the channel, if any, is closed first; the actor is stopped last, only when the session has a domain actor, the client can stop it and closing did not throw |
| TheaterSession.CleanupTwiceRepeats | src/hooks/useTheaterSession.tsx:96-107 | a second cleanup closes the same channel again, and when the first one stopped the actor it stops the same actor again: nothing guards against repetition |

## Left out

- Rendering is not modelled: the JSX and Ink markup of the input components, the message, header and help components, placeholders and colours on screen. The clipped line list and the elided count are modelled.
- `parseTheaterMessage` is left out: it is `JSON.parse`, `TextDecoder` and `Buffer` decoding, foreign code with console output.
- `generateActorId` is left out: it depends on the clock and `Math.random`.
- `extractToolInfo` is left out: it depends on JavaScript regular-expression semantics.
- React scheduling is not modelled.
  - `setTimeout` delays become abstract awaits.
  - `new Date()` timestamps are a parameter the caller supplies.
  - Effects run to completion and setters apply in order.
- The re-export barrels (`src/index.ts`, `src/*/index.ts`) and `build.js` are not part of this model.
- JsString.Trim: removes a declared set of whitespace characters (the ASCII ones, no-break space, line and paragraph separators, byte-order mark and the Unicode space separators), not Unicode's full property tables.
- JsString.ToLower: lowers ASCII capitals only; other Unicode case mappings are not modelled.
- SmartInput.HandleKey: the surface follows the current content immediately. The component stores it in state from an effect, so it switches one render after the content changes.
- MultiLineInput.HandleKey: assumes the owner passes the content and cursor callbacks. Without them the component reports nothing, and the widget would show stale state.
- MultiLineInput.HandleKey: Escape always switches the model to command mode. The component only calls an optional `onModeChange` callback (`src/components/MultiLineInput.tsx:94-97`), so without one Escape changes nothing.
- Strings are sequences of characters, where JavaScript counts UTF-16 code units. For text outside the Basic Multilingual Plane this changes lengths and positions. It affects the cursor advance after an insert (`src/components/MultiLineInput.tsx:46`), the character `slice(0, -1)` drops (`src/components/SimpleInput.tsx:38`) and the length compared with the auto threshold (`src/components/SmartInput.tsx:32`).
- The cursor position and the `maxHeight` limit are assumed non-negative (`nat`). The component accepts any number from its owner, and a negative cursor would make `slice(0, cursor)` count from the end; SmartInput, the only owner in the library, never passes one.
- TheaterSession.SendMessage: the client is required. The hook would throw a `TypeError` on a null client, which the model does not represent.
- TheaterSession.Cleanup: the client is required. A close that throws is a parameter; a throwing `stopActor` is not modelled, since it is the last call and its error is swallowed anyway.
- TheaterSession.SetupSession: what each client method does is fixed per run, and the unmount point `n` says the hook is unmounted after the n-th await settles and before the next one does. Client calls that never settle are not modelled.
- TheaterHelpers.ExtractMessageContent: JSON numbers are integers. Block text that is not a string is converted by a simplified `String()`: arrays become `[array]` rather than their comma-joined elements, and no fractional or exponent forms exist.
- InputManager.Dispatch: handler exceptions are not modelled. A handler's acceptance is a pure function of the event.
- The InputManager handler records are the `handleInput`, `isActive` and `priority` fields only. A handler's id lives in the registry entry.
