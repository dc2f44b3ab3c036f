/**
 * The message list of a chat: append, append pending, complete the last
 * pending message, insert a tool message before the last assistant message,
 * remove by index and clear. Creation times come from the caller's clock.
 */
module MessageState {
  import opened Types

  type Messages = seq<Message>

  const NoMessages: Messages := []

  /**
   * A new message. A tool name is kept only when non-empty (the hook
   * spreads it in only when truthy); tool arguments are kept whenever given.
   */
  function NewMessage(role: Role, content: string, status: Status, toolName: Option<string>,
                      toolArgs: Option<seq<string>>, now: Timestamp): (m: Message)
    ensures m.role == role && m.content == content && m.status == status && m.timestamp == now
    ensures m.toolName.Some? <==> toolName.Some? && toolName.value != ""
    ensures m.toolName.Some? ==> m.toolName == toolName
    ensures m.toolArgs == toolArgs
  {
    var name := if toolName.Some? && toolName.value != "" then toolName else None;
    Message(role, content, now, status, name, toolArgs)
  }

  /** `addMessage`: one message more, at the end; complete and without tool fields unless told otherwise. */
  function AddMessage(msgs: Messages, now: Timestamp, role: Role, content: string, status: Status := Complete,
                      toolName: Option<string> := None, toolArgs: Option<seq<string>> := None): (r: Messages)
    ensures |r| == |msgs| + 1 && r[..|msgs|] == msgs
    ensures r[|msgs|] == NewMessage(role, content, status, toolName, toolArgs, now)
  {
    msgs + [NewMessage(role, content, status, toolName, toolArgs, now)]
  }

  /** `addPendingMessage`: a pending message with no tool fields. */
  function AddPendingMessage(msgs: Messages, now: Timestamp, role: Role, content: string): (r: Messages)
    ensures |r| == |msgs| + 1 && r[..|msgs|] == msgs
    ensures r[|msgs|] == Message(role, content, now, Pending, None, None)
    ensures LastPending(r) == |msgs|
  {
    AddMessage(msgs, now, role, content, Pending)
  }

  /** Position of the last pending message, or -1. */
  function LastPending(msgs: Messages): (k: int)
    ensures -1 <= k < |msgs|
    ensures k >= 0 ==> msgs[k].status == Pending
    ensures forall i :: k < i < |msgs| ==> msgs[i].status != Pending
    decreases |msgs|
  {
    if |msgs| == 0 then -1
    else if msgs[|msgs| - 1].status == Pending then |msgs| - 1
    else LastPending(msgs[..|msgs| - 1])
  }

  /** `updateLastPendingMessage`: new content and status, by default complete, for the last pending message only. */
  function UpdateLastPending(msgs: Messages, content: string, status: Status := Complete): (r: Messages)
    ensures |r| == |msgs|
    ensures LastPending(msgs) == -1 ==> r == msgs
    ensures var k := LastPending(msgs);
      k >= 0 ==>
        && r[k] == msgs[k].(content := content, status := status)
        && forall i :: 0 <= i < |msgs| && i != k ==> r[i] == msgs[i]
  {
    var k := LastPending(msgs);
    if k == -1 then msgs else msgs[k := msgs[k].(content := content, status := status)]
  }

  /** The backwards search with early exit, as the hook writes it. */
  method UpdateLastPendingMessage(msgs: Messages, content: string, status: Status := Complete) returns (r: Messages)
    ensures r == UpdateLastPending(msgs, content, status)
  {
    r := msgs;
    var i := |msgs| - 1;
    while i >= 0
      invariant -1 <= i < |msgs|
      invariant r == msgs
      invariant forall j :: i < j < |msgs| ==> msgs[j].status != Pending
    {
      if msgs[i].status == Pending {
        LastPendingIs(msgs, i);
        r := msgs[i := msgs[i].(content := content, status := status)];
        return;
      }
      i := i - 1;
    }
    LastPendingIs(msgs, -1);
  }

  /** The last pending position is the one with no pending message after it. */
  lemma {:induction false} LastPendingIs(msgs: Messages, k: int)
    requires -1 <= k < |msgs| && (k >= 0 ==> msgs[k].status == Pending)
    requires forall j :: k < j < |msgs| ==> msgs[j].status != Pending
    ensures LastPending(msgs) == k
    decreases |msgs|
  {
    if |msgs| > 0 && k < |msgs| - 1 {
      var init := msgs[..|msgs| - 1];
      LastPendingIs(init, k);
    }
  }

  /** Streaming: completing a just-added pending message is adding the completed message. */
  lemma PendingThenUpdate(msgs: Messages, now: Timestamp, role: Role, draft: string, content: string)
    ensures UpdateLastPending(AddPendingMessage(msgs, now, role, draft), content) == AddMessage(msgs, now, role, content)
  {
  }

  /** The number of pending messages. */
  function PendingCount(msgs: Messages): nat
    decreases |msgs|
  {
    if |msgs| == 0 then 0
    else PendingCount(msgs[..|msgs| - 1]) + (if msgs[|msgs| - 1].status == Pending then 1 else 0)
  }

  /** Completing the last pending message leaves one pending message fewer. */
  lemma {:induction false} CompletingRemovesOnePending(msgs: Messages, content: string)
    requires LastPending(msgs) >= 0
    ensures PendingCount(UpdateLastPending(msgs, content, Complete)) == PendingCount(msgs) - 1
    decreases |msgs|
  {
    var k := LastPending(msgs);
    var r := UpdateLastPending(msgs, content, Complete);
    var n := |msgs| - 1;
    if k == n {
      assert r[..n] == msgs[..n];
    } else {
      var init := msgs[..n];
      assert LastPending(init) == k;
      CompletingRemovesOnePending(init, content);
      assert r[..n] == UpdateLastPending(init, content, Complete);
    }
  }

  /** Position of the last assistant message, or -1. */
  function LastAssistant(msgs: Messages): (k: int)
    ensures -1 <= k < |msgs|
    ensures k >= 0 ==> msgs[k].role == Assistant
    ensures forall i :: k < i < |msgs| ==> msgs[i].role != Assistant
    decreases |msgs|
  {
    if |msgs| == 0 then -1
    else if msgs[|msgs| - 1].role == Assistant then |msgs| - 1
    else LastAssistant(msgs[..|msgs| - 1])
  }

  /** A completed tool message with empty content. */
  function ToolMessage(toolName: string, toolArgs: seq<string>, now: Timestamp): Message {
    Message(Tool, "", now, Complete, Some(toolName), Some(toolArgs))
  }

  /** Where `addToolMessage` puts the tool message. */
  function ToolSlot(msgs: Messages): (k: nat)
    ensures k <= |msgs|
  {
    var a := LastAssistant(msgs);
    if a == -1 then |msgs| else a
  }

  /**
   * `addToolMessage`: the tool message goes immediately before the last
   * assistant message, or at the end when there is none; the tool name is
   * kept even when empty, and the arguments default to none.
   */
  function AddToolMessage(msgs: Messages, now: Timestamp, toolName: string, toolArgs: seq<string> := []): (r: Messages)
    ensures |r| == |msgs| + 1
    ensures var k := ToolSlot(msgs);
      && r[k] == ToolMessage(toolName, toolArgs, now)
      && r[..k] == msgs[..k]
      && r[k + 1..] == msgs[k..]
    ensures LastAssistant(msgs) >= 0 ==>
      LastAssistant(r) == LastAssistant(msgs) + 1 && r[LastAssistant(r) - 1] == ToolMessage(toolName, toolArgs, now)
    ensures LastAssistant(msgs) == -1 ==> r == msgs + [ToolMessage(toolName, toolArgs, now)]
  {
    var a := LastAssistant(msgs);
    var m := ToolMessage(toolName, toolArgs, now);
    if a != -1 then
      var r := msgs[..a] + [m] + msgs[a..];
      assert r[a + 1..] == msgs[a..];
      LastAssistantIs(r, a + 1);
      r
    else msgs + [m]
  }

  /** The last assistant position is the assistant with no assistant after it. */
  lemma {:induction false} LastAssistantIs(msgs: Messages, k: int)
    requires -1 <= k < |msgs| && (k >= 0 ==> msgs[k].role == Assistant)
    requires forall j :: k < j < |msgs| ==> msgs[j].role != Assistant
    ensures LastAssistant(msgs) == k
    decreases |msgs|
  {
    if |msgs| > 0 && k < |msgs| - 1 {
      LastAssistantIs(msgs[..|msgs| - 1], k);
    }
  }

  /** `removeMessage`: keeps every message whose index differs from `index`. */
  function RemoveMessage(msgs: Messages, index: int): (r: Messages)
    ensures 0 <= index < |msgs| ==> |r| == |msgs| - 1 && r == msgs[..index] + msgs[index + 1..]
    ensures !(0 <= index < |msgs|) ==> r == msgs
    decreases |msgs|
  {
    if |msgs| == 0 then []
    else (if index == 0 then [] else [msgs[0]]) + RemoveMessage(msgs[1..], index - 1)
  }

  /** Removing the tool message just added gives back the list before it. */
  lemma RemoveAddedToolMessage(msgs: Messages, now: Timestamp, toolName: string, toolArgs: seq<string>)
    ensures RemoveMessage(AddToolMessage(msgs, now, toolName, toolArgs), ToolSlot(msgs)) == msgs
  {
    var k := ToolSlot(msgs);
    var r := AddToolMessage(msgs, now, toolName, toolArgs);
    assert r[..k] + r[k + 1..] == msgs[..k] + msgs[k..];
    assert msgs[..k] + msgs[k..] == msgs;
  }

  /**
   * The defaults: a message added or updated without a status is complete,
   * one added without tool fields has none, and a tool message added
   * without arguments has an empty argument list.
   */
  lemma Defaults(msgs: Messages, now: Timestamp, role: Role, content: string, toolName: string)
    ensures AddMessage(msgs, now, role, content)[|msgs|] == Message(role, content, now, Complete, None, None)
    ensures LastPending(msgs) >= 0 ==> UpdateLastPending(msgs, content)[LastPending(msgs)].status == Complete
    ensures AddToolMessage(msgs, now, toolName)[ToolSlot(msgs)].toolArgs == Some([])
  {
  }

  /** `clearMessages`. */
  function ClearMessages(msgs: Messages): (r: Messages)
    ensures |r| == 0
  {
    []
  }
}
