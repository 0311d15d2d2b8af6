/** Drag-and-drop reordering of a list. `handleDragStart(index)` remembers the dragged index;
    `handleDrop(index)` copies the list, removes the dragged item with `splice` and inserts it
    at the drop index with a second `splice`, then stores the copy and forgets the dragged
    index. */
module DragAndDrop {
  import opened Js
  import opened JsArrays

  /** `newItems[dragabbleIndex]`: an index that is null, negative or past the end reads
      undefined. */
  function At(items: seq<Value>, index: Option<int>): Value {
    if index.Some? && 0 <= index.value < |items| then items[index.value] else Undefined
  }

  /** The start `splice` takes from `dragabbleIndex`: null converts to the number 0. */
  function SpliceIndex(index: Option<int>): int {
    if index.None? then 0 else index.value
  }

  /** `handleDrop(index)` as written, on the list's contents. */
  function DropAsWritten(items: seq<Value>, dragIndex: Option<int>, index: int): seq<Value> {
    var dragged := At(items, dragIndex);
    Spliced(Spliced(items, SpliceIndex(dragIndex), 1, []), index, 0, [dragged])
  }

  /** `handleDrop(index)` with the drop ignored when no drag of a list item is in progress. */
  function Drop(items: seq<Value>, dragIndex: Option<int>, index: int): seq<Value> {
    if dragIndex.None? then items else DropAsWritten(items, dragIndex, index)
  }

  /** The list without position `i`. */
  function RemoveAt<T>(s: seq<T>, i: nat): (r: seq<T>)
    requires i < |s|
    ensures |r| == |s| - 1
  {
    s[..i] + s[i + 1..]
  }

  /** The list with `x` inserted so that it ends up at position `i`. */
  function InsertAt<T>(s: seq<T>, i: nat, x: T): (r: seq<T>)
    requires i <= |s|
    ensures |r| == |s| + 1
  {
    s[..i] + [x] + s[i..]
  }

  /** Moving the item at `from` to position `to`. */
  function Move<T>(s: seq<T>, from: nat, to: nat): seq<T>
    requires from < |s| && to < |s|
  {
    InsertAt(RemoveAt(s, from), to, s[from])
  }

  /** For a drag started on a list item and a drop on a list item, the two splices are the
      move from the dragged position to the drop position. */
  lemma DropIsMove(items: seq<Value>, from: nat, to: nat)
    requires from < |items| && to < |items|
    ensures Drop(items, Some(from), to) == Move(items, from, to)
  {
    var removed := Spliced(items, from, 1, []);
    assert removed == RemoveAt(items, from);
    assert Spliced(removed, to, 0, [items[from]]) == InsertAt(removed, to, items[from]);
  }

  /** A move keeps the length and the multiset of items, puts the moved item at `to`, keeps
      the other items in their relative order, and changes nothing when `from == to`. */
  lemma MoveProperties<T>(s: seq<T>, from: nat, to: nat)
    requires from < |s| && to < |s|
    ensures |Move(s, from, to)| == |s|
    ensures multiset(Move(s, from, to)) == multiset(s)
    ensures Move(s, from, to)[to] == s[from]
    ensures RemoveAt(Move(s, from, to), to) == RemoveAt(s, from)
    ensures from == to ==> Move(s, from, to) == s
  {
    var rest := RemoveAt(s, from);
    var m := Move(s, from, to);
    assert s == s[..from] + [s[from]] + s[from + 1..];
    assert multiset(s) == multiset(rest) + multiset{s[from]};
    assert rest == rest[..to] + rest[to..];
    assert multiset(m) == multiset(rest) + multiset{s[from]};
    assert m[..to] == rest[..to] && m[to + 1..] == rest[to..];
    assert RemoveAt(m, to) == rest;
    if from == to {
      assert m == s[..from] + [s[from]] + s[from + 1..];
    }
  }

  /** The list the component starts with. */
  function InitialItems(): seq<Value> {
    [Str("Item 1"), Str("Item 2"), Str("Item 3"), Str("Item 4")]
  }

  /** As written, a drop that follows no drag start (something dragged in from outside the
      list, or a second drop) removes the first item and inserts undefined at the drop
      position. */
  lemma DropWithoutDragCorruptsList()
    ensures DropAsWritten(InitialItems(), None, 2)
            == [Str("Item 2"), Str("Item 3"), Undefined, Str("Item 4")]
  {
    var items := InitialItems();
    assert At(items, None) == Undefined && SpliceIndex(None) == 0;
    assert SpliceStart(4, 0) == 0 && SpliceCount(4, 0, 1) == 1;
    var afterRemove := Spliced(items, 0, 1, []);
    assert afterRemove == items[1..];
    assert SpliceStart(3, 2) == 2 && SpliceCount(3, 2, 0) == 0;
    var r := Spliced(afterRemove, 2, 0, [Undefined]);
    assert r == afterRemove[..2] + [Undefined] + afterRemove[2..];
  }

  /** With the guard, a drop that follows no drag start leaves the list as it was. */
  lemma DropWithoutDragIsNoOp(items: seq<Value>, index: int)
    ensures Drop(items, None, index) == items
  {
  }

  /** The component's state: the list and the index being dragged (`null` when none). */
  class Board {
    var items: JsArray<Value>
    var dragIndex: Option<int>

    constructor ()
      ensures items.elems == InitialItems() && dragIndex == None
    {
      items := new JsArray(InitialItems());
      dragIndex := None;
    }

    /** `handleDragStart(index)`. */
    method HandleDragStart(index: int)
      modifies this
      ensures items == old(items) && dragIndex == Some(index)
    {
      dragIndex := Some(index);
    }

    /** `handleDrop(index)` with the missing guard added: when no drag of a list item is in
        progress the drop is ignored and the same list object is kept (the unguarded drop is
        `DropAsWritten`, see `DropWithoutDragCorruptsList`). Otherwise the old list object is
        never written; the component switches to a new one. The dragged index is reset. */
    method HandleDrop(index: int)
      modifies this
      ensures items.elems == Drop(old(items.elems), old(dragIndex), index)
      ensures dragIndex == None
      ensures old(items).elems == old(items.elems)
      ensures old(dragIndex).None? ==> items == old(items)
      ensures old(dragIndex).Some? ==> fresh(items)
    {
      if dragIndex.None? {
        return;
      }
      var newItems := new JsArray(items.elems);
      var draggedItem := At(newItems.elems, dragIndex);
      var _ := newItems.Splice(SpliceIndex(dragIndex), 1, []);
      var _ := newItems.Splice(index, 0, [draggedItem]);
      items := newItems;
      dragIndex := None;
    }
  }
}
