/**
 * The central input manager: a registry of input handlers keyed by id, a
 * dispatcher that offers each key event to the active handlers in priority
 * order until one accepts it, and the shared input state with its update
 * helpers.
 *
 * The registry is a JavaScript `Map`, which iterates in insertion order and
 * keeps an entry's position when its id is set again; it is modelled as a
 * sequence of entries with distinct ids.
 */
module InputManager {
  import opened Types

  /**
   * A handler: whether it accepts an event (a pure function of the event),
   * whether it is active, and its priority (higher goes first).
   */
  datatype Handler = Handler(handleInput: KeyEvent -> bool, isActive: bool, priority: int)

  datatype Entry = Entry(id: string, handler: Handler)

  type Registry = seq<Entry>

  const EmptyRegistry: Registry := []

  predicate UniqueIds(reg: Registry) {
    forall i, j :: 0 <= i < j < |reg| ==> reg[i].id != reg[j].id
  }

  /** The ids in iteration order. */
  function Ids(reg: Registry): (ids: seq<string>)
    ensures |ids| == |reg|
    ensures forall i :: 0 <= i < |reg| ==> ids[i] == reg[i].id
  {
    if |reg| == 0 then [] else [reg[0].id] + Ids(reg[1..])
  }

  /** Position of the first occurrence of `x`, or -1. */
  function Position(xs: seq<string>, x: string): (k: int)
    ensures -1 <= k < |xs|
    ensures k == -1 <==> x !in xs
    ensures k >= 0 ==> xs[k] == x && forall i :: 0 <= i < k ==> xs[i] != x
  {
    if |xs| == 0 then -1
    else if xs[0] == x then 0
    else
      var k := Position(xs[1..], x);
      if k == -1 then -1 else k + 1
  }

  /** The first occurrence is unique, so anything with its properties is it. */
  lemma PositionIsFirst(xs: seq<string>, x: string, k: nat)
    requires k < |xs| && xs[k] == x && forall i :: 0 <= i < k ==> xs[i] != x
    ensures Position(xs, x) == k
  {
  }

  /** Appending an id leaves the positions of the earlier ones alone. */
  lemma PositionAppend(xs: seq<string>, y: string, x: string)
    ensures Position(xs + [y], x) == if x in xs then Position(xs, x) else if x == y then |xs| else -1
  {
    var ys := xs + [y];
    if x in xs {
      PositionIsFirst(ys, x, Position(xs, x));
    } else if x == y {
      PositionIsFirst(ys, x, |xs|);
    }
  }

  /** `get(id)`. */
  function Lookup(reg: Registry, id: string): (h: Option<Handler>)
    ensures h.Some? <==> id in Ids(reg)
    ensures h.Some? ==> exists i :: 0 <= i < |reg| && reg[i] == Entry(id, h.value)
  {
    var k := Position(Ids(reg), id);
    if k == -1 then None else Some(reg[k].handler)
  }

  /** In a registry with distinct ids, every entry is what its id looks up. */
  lemma LookupFindsEntry(reg: Registry, i: nat)
    requires UniqueIds(reg) && i < |reg|
    ensures Lookup(reg, reg[i].id) == Some(reg[i].handler)
  {
    PositionIsFirst(Ids(reg), reg[i].id, i);
  }

  /** `set(id, handler)`: overwrite in place if the id is registered, else append. */
  function Register(reg: Registry, id: string, h: Handler): (r: Registry)
    ensures UniqueIds(reg) ==> UniqueIds(r)
    ensures Lookup(r, id) == Some(h)
    ensures forall other :: other != id ==> Lookup(r, other) == Lookup(reg, other)
    ensures id in Ids(reg) ==> Ids(r) == Ids(reg)
    ensures id !in Ids(reg) ==> Ids(r) == Ids(reg) + [id]
  {
    var k := Position(Ids(reg), id);
    var r := if k == -1 then reg + [Entry(id, h)] else reg[k := Entry(id, h)];
    RegisterLookups(reg, id, h, r);
    r
  }

  lemma RegisterLookups(reg: Registry, id: string, h: Handler, r: Registry)
    requires var k := Position(Ids(reg), id);
      r == if k == -1 then reg + [Entry(id, h)] else reg[k := Entry(id, h)]
    ensures UniqueIds(reg) ==> UniqueIds(r)
    ensures Ids(r) == if id in Ids(reg) then Ids(reg) else Ids(reg) + [id]
    ensures Lookup(r, id) == Some(h)
    ensures forall other :: other != id ==> Lookup(r, other) == Lookup(reg, other)
  {
    var k := Position(Ids(reg), id);
    if k == -1 {
      RegisterNew(reg, id, h);
    } else {
      RegisterExisting(reg, id, h, k);
    }
  }

  lemma RegisterNew(reg: Registry, id: string, h: Handler)
    requires id !in Ids(reg)
    ensures var r := reg + [Entry(id, h)];
      && (UniqueIds(reg) ==> UniqueIds(r))
      && Ids(r) == Ids(reg) + [id]
      && Lookup(r, id) == Some(h)
      && forall other :: other != id ==> Lookup(r, other) == Lookup(reg, other)
  {
    var r := reg + [Entry(id, h)];
    assert Ids(r) == Ids(reg) + [id];
    PositionAppend(Ids(reg), id, id);
    forall other | other != id
      ensures Lookup(r, other) == Lookup(reg, other)
    {
      PositionAppend(Ids(reg), id, other);
    }
    if UniqueIds(reg) {
      forall i, j | 0 <= i < j < |r|
        ensures r[i].id != r[j].id
      {
        if j == |reg| {
          assert Ids(reg)[i] == r[i].id;
        }
      }
    }
  }

  lemma RegisterExisting(reg: Registry, id: string, h: Handler, k: nat)
    requires k == Position(Ids(reg), id)
    ensures var r := reg[k := Entry(id, h)];
      && (UniqueIds(reg) ==> UniqueIds(r))
      && Ids(r) == Ids(reg)
      && Lookup(r, id) == Some(h)
      && forall other :: other != id ==> Lookup(r, other) == Lookup(reg, other)
  {
    var r := reg[k := Entry(id, h)];
    forall i | 0 <= i < |r|
      ensures r[i].id == reg[i].id
    {
    }
    assert Ids(r) == Ids(reg);
    forall other | other != id
      ensures Lookup(r, other) == Lookup(reg, other)
    {
      var p := Position(Ids(reg), other);
      assert p != k;
    }
  }

  /** `delete(id)`: drops the entry with this id, keeping the others in order. */
  function Unregister(reg: Registry, id: string): (r: Registry)
    ensures forall e :: e in r <==> e in reg && e.id != id
    ensures |r| <= |reg|
    ensures id !in Ids(reg) ==> r == reg
  {
    if |reg| == 0 then []
    else
      var rest := Unregister(reg[1..], id);
      if reg[0].id == id then rest else [reg[0]] + rest
  }

  /** The first position of `x` in a sequence that starts with `y`. */
  lemma PositionCons(y: string, xs: seq<string>, x: string)
    ensures Position([y] + xs, x) == if y == x then 0 else if x in xs then Position(xs, x) + 1 else -1
  {
    assert ([y] + xs)[1..] == xs;
  }

  /** Looking up in a registry that starts with `e`. */
  lemma LookupCons(e: Entry, rest: Registry, id: string)
    ensures Lookup([e] + rest, id) == if e.id == id then Some(e.handler) else Lookup(rest, id)
  {
    var reg := [e] + rest;
    assert reg[0] == e && reg[1..] == rest;
    IdsCons(reg);
    PositionCons(e.id, Ids(rest), id);
    if e.id != id && id in Ids(rest) {
      var k := Position(Ids(rest), id);
      assert reg[k + 1] == rest[k];
    }
  }

  /** Unregistering an id changes no other id's lookup. */
  lemma {:induction false} UnregisterKeepsOthers(reg: Registry, id: string, other: string)
    requires other != id
    ensures Lookup(Unregister(reg, id), other) == Lookup(reg, other)
    decreases |reg|
  {
    if |reg| > 0 {
      var rest := Unregister(reg[1..], id);
      UnregisterKeepsOthers(reg[1..], id, other);
      assert reg == [reg[0]] + reg[1..];
      LookupCons(reg[0], reg[1..], other);
      if reg[0].id != id {
        LookupCons(reg[0], rest, other);
      }
    }
  }

  /** After unregistering, the id no longer looks anything up. */
  lemma {:induction false} UnregisterRemovesId(reg: Registry, id: string)
    ensures Lookup(Unregister(reg, id), id).None?
    decreases |reg|
  {
    if |reg| > 0 {
      UnregisterRemovesId(reg[1..], id);
      if reg[0].id != id {
        LookupCons(reg[0], Unregister(reg[1..], id), id);
      }
    }
  }

  /** Unregistering keeps the ids distinct. */
  lemma {:induction false} UnregisterKeepsUnique(reg: Registry, id: string)
    requires UniqueIds(reg)
    ensures UniqueIds(Unregister(reg, id))
    decreases |reg|
  {
    if |reg| > 0 {
      var rest := Unregister(reg[1..], id);
      UnregisterKeepsUnique(reg[1..], id);
      if reg[0].id != id {
        var r := [reg[0]] + rest;
        forall i, j | 0 <= i < j < |r|
          ensures r[i].id != r[j].id
        {
          if i == 0 {
            assert r[j] in rest;
          }
        }
      }
    }
  }

  /** The ids of a non-empty registry: the first entry's, then the rest's. */
  lemma IdsCons(reg: Registry)
    requires |reg| > 0
    ensures Ids(reg) == [reg[0].id] + Ids(reg[1..])
    ensures forall x :: x in Ids(reg) <==> x == reg[0].id || x in Ids(reg[1..])
  {
  }

  /** Distinct ids stay distinct without the first entry, and the first id is not among the rest. */
  lemma UniqueTail(reg: Registry)
    requires |reg| > 0 && UniqueIds(reg)
    ensures UniqueIds(reg[1..])
    ensures reg[0].id !in Ids(reg[1..])
  {
    var rest := reg[1..];
    forall i, j | 0 <= i < j < |rest|
      ensures rest[i].id != rest[j].id
    {
      assert rest[i] == reg[i + 1] && rest[j] == reg[j + 1];
    }
  }

  /** With distinct ids, unregistering a registered id removes exactly one entry. */
  lemma {:induction false} UnregisterShrinksByOne(reg: Registry, id: string)
    requires UniqueIds(reg) && id in Ids(reg)
    ensures |Unregister(reg, id)| == |reg| - 1
    decreases |reg|
  {
    IdsCons(reg);
    UniqueTail(reg);
    if reg[0].id != id {
      UnregisterShrinksByOne(reg[1..], id);
    }
  }

  /** Registering a new id and unregistering it again gives back the registry. */
  lemma RegisterThenUnregister(reg: Registry, id: string, h: Handler)
    requires id !in Ids(reg)
    ensures Unregister(Register(reg, id, h), id) == reg
  {
    UnregisterAppend(reg, Entry(id, h));
  }

  lemma {:induction false} UnregisterAppend(reg: Registry, e: Entry)
    requires e.id !in Ids(reg)
    ensures Unregister(reg + [e], e.id) == reg
    decreases |reg|
  {
    if |reg| == 0 {
      assert [e][1..] == [];
    } else {
      IdsCons(reg);
      var whole := reg + [e];
      assert whole[0] == reg[0] && whole[1..] == reg[1..] + [e];
      UnregisterAppend(reg[1..], e);
      assert reg == [reg[0]] + reg[1..];
    }
  }

  /*
   * Dispatch order. The hook filters the active handlers out of the map
   * (in iteration order) and sorts them with a stable sort on descending
   * priority. The order is described by positions in the registry: `i`
   * comes before `j` when its priority is higher, or equal and `i` was
   * registered first. Any stable sort yields the unique sequence of the
   * active positions that is strictly increasing in this order.
   */

  predicate InRange(reg: Registry, s: seq<nat>) {
    forall k :: 0 <= k < |s| ==> s[k] < |reg|
  }

  predicate Active(reg: Registry, i: nat)
    requires i < |reg|
  {
    reg[i].handler.isActive
  }

  /** `i` is served before `j`. */
  predicate Before(reg: Registry, i: nat, j: nat)
    requires i < |reg| && j < |reg|
  {
    var p, q := reg[i].handler.priority, reg[j].handler.priority;
    p > q || (p == q && i < j)
  }

  predicate Ordered(reg: Registry, s: seq<nat>)
    requires InRange(reg, s)
  {
    forall a, b :: 0 <= a < b < |s| ==> Before(reg, s[a], s[b])
  }

  /** Inserts position `x` into an ordered sequence, in front of the first entry it goes before. */
  function InsertInOrder(reg: Registry, x: nat, s: seq<nat>): (r: seq<nat>)
    requires x < |reg| && InRange(reg, s) && Ordered(reg, s) && x !in s
    ensures InRange(reg, r) && Ordered(reg, r)
    ensures forall y :: y in r <==> y == x || y in s
    decreases |s|
  {
    if |s| == 0 then [x]
    else if Before(reg, x, s[0]) then [x] + s
    else
      var rest := InsertInOrder(reg, x, s[1..]);
      assert forall y :: y in rest ==> Before(reg, s[0], y);
      [s[0]] + rest
  }

  /** The active positions below `n`, in service order. */
  function ActiveInOrder(reg: Registry, n: nat): (r: seq<nat>)
    requires n <= |reg|
    ensures InRange(reg, r) && Ordered(reg, r)
    ensures forall i: nat :: i in r <==> i < n && Active(reg, i)
    decreases n
  {
    if n == 0 then []
    else
      var s := ActiveInOrder(reg, n - 1);
      if Active(reg, n - 1) then InsertInOrder(reg, n - 1, s) else s
  }

  /** The order in which dispatch offers an event to the handlers. */
  function ServiceOrder(reg: Registry): (order: seq<nat>)
    ensures InRange(reg, order) && Ordered(reg, order)
    ensures forall i: nat :: i in order <==> i < |reg| && reg[i].handler.isActive
  {
    ActiveInOrder(reg, |reg|)
  }

  /**
   * The service order is the only ordering of the active handlers with
   * priorities non-increasing and ties in registration order.
   */
  lemma {:induction false} OrderIsUnique(reg: Registry, s: seq<nat>, t: seq<nat>)
    requires InRange(reg, s) && Ordered(reg, s)
    requires InRange(reg, t) && Ordered(reg, t)
    requires forall i :: i in s <==> i in t
    ensures s == t
    decreases |s|
  {
    if |s| > 0 {
      assert |t| > 0 by { assert s[0] in t; }
      HeadGoesFirst(reg, t, s[0]);
      HeadGoesFirst(reg, s, t[0]);
      assert s[0] == t[0];
      forall i
        ensures i in s[1..] <==> i in t[1..]
      {
        if i in s[1..] {
          var a :| 1 <= a < |s| && s[a] == i;
          assert Before(reg, s[0], i) && i in s && i in t;
          var c :| 0 <= c < |t| && t[c] == i;
          assert c != 0 && t[1..][c - 1] == i;
        }
        if i in t[1..] {
          var a :| 1 <= a < |t| && t[a] == i;
          assert Before(reg, t[0], i) && i in t && i in s;
          var c :| 0 <= c < |s| && s[c] == i;
          assert c != 0 && s[1..][c - 1] == i;
        }
      }
      OrderIsUnique(reg, s[1..], t[1..]);
      assert s == [s[0]] + s[1..] && t == [t[0]] + t[1..];
    } else {
      HeadIsMember(t);
    }
  }

  /** The first entry of an ordered sequence goes before every other one. */
  lemma HeadGoesFirst(reg: Registry, t: seq<nat>, x: nat)
    requires InRange(reg, t) && Ordered(reg, t) && x in t
    ensures x == t[0] || (x < |reg| && Before(reg, t[0], x))
  {
    var a :| 0 <= a < |t| && t[a] == x;
    if a > 0 {
      assert Before(reg, t[0], t[a]);
    }
  }

  lemma HeadIsMember(t: seq<nat>)
    ensures |t| > 0 ==> t[0] in t
  {
  }

  /**
   * `dispatchInput`: offers the event to the active handlers in service
   * order and stops at the first that accepts it. `tried` lists the
   * positions of the handlers called, in order.
   */
  method Dispatch(reg: Registry, ev: KeyEvent) returns (handled: bool, tried: seq<nat>)
    ensures tried <= ServiceOrder(reg)
    ensures InRange(reg, tried)
    ensures forall i :: i in tried ==> reg[i].handler.isActive
    ensures handled <==> exists i :: i in ServiceOrder(reg) && reg[i].handler.handleInput(ev)
    ensures forall k :: 0 <= k < |tried| - 1 ==> !reg[tried[k]].handler.handleInput(ev)
    ensures handled ==> |tried| > 0 && reg[tried[|tried| - 1]].handler.handleInput(ev)
    ensures !handled ==> tried == ServiceOrder(reg)
  {
    var order := ServiceOrder(reg);
    tried := [];
    var k := 0;
    while k < |order|
      invariant k <= |order|
      invariant tried == order[..k]
      invariant forall m :: 0 <= m < k ==> !reg[order[m]].handler.handleInput(ev)
    {
      tried := tried + [order[k]];
      if reg[order[k]].handler.handleInput(ev) {
        return true, tried;
      }
      k := k + 1;
    }
    assert order[..k] == order;
    return false, tried;
  }

  /** Three handlers: A (priority 1), B (priority 5), and C (priority 10, inactive). */
  lemma ServiceOrderExample(a: KeyEvent -> bool, b: KeyEvent -> bool, c: KeyEvent -> bool)
    ensures var reg := [Entry("A", Handler(a, true, 1)), Entry("B", Handler(b, true, 5)), Entry("C", Handler(c, false, 10))];
      ServiceOrder(reg) == [1, 0]
  {
    var reg := [Entry("A", Handler(a, true, 1)), Entry("B", Handler(b, true, 5)), Entry("C", Handler(c, false, 10))];
    OrderIsUnique(reg, ServiceOrder(reg), [1, 0]);
  }

  /** The state when the manager starts: focus on the input, nothing typed, insert mode. */
  const InitialInputState := InputState(InputFocus, "", 0, Insert)

  function UpdateInputContent(s: InputState, content: string): (r: InputState)
    ensures r.inputContent == content
    ensures r.(inputContent := s.inputContent) == s
  {
    s.(inputContent := content)
  }

  function UpdateInputCursor(s: InputState, position: int): (r: InputState)
    ensures r.inputCursorPosition == position
    ensures r.(inputCursorPosition := s.inputCursorPosition) == s
  {
    s.(inputCursorPosition := position)
  }

  function UpdateInputMode(s: InputState, mode: EditMode): (r: InputState)
    ensures r.inputMode == mode
    ensures r.(inputMode := s.inputMode) == s
  {
    s.(inputMode := mode)
  }

  function SetFocus(s: InputState, target: FocusTarget): (r: InputState)
    ensures r.focusTarget == target
    ensures r.(focusTarget := s.focusTarget) == s
  {
    s.(focusTarget := target)
  }

  /** Resets the edit to an empty line in insert mode, keeping the focus. */
  function ClearInput(s: InputState): (r: InputState)
    ensures r.focusTarget == s.focusTarget
    ensures r.(focusTarget := InitialInputState.focusTarget) == InitialInputState
  {
    s.(inputContent := "", inputCursorPosition := 0, inputMode := Insert)
  }

  /** Clearing forgets every edit made since, and keeps only the focus. */
  lemma ClearInputForgetsEdits(s: InputState, content: string, position: int, mode: EditMode)
    ensures ClearInput(UpdateInputMode(UpdateInputCursor(UpdateInputContent(s, content), position), mode)) == ClearInput(s)
    ensures ClearInput(ClearInput(s)) == ClearInput(s)
    ensures ClearInput(InitialInputState) == InitialInputState
  {
  }
}
