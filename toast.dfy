/** The toast container: the list of visible toasts, and the record of pending auto-close timers
    keyed by toast id (`timeRef.current`). The clock reading that becomes a toast's id and the
    handle `setTimeout` returns are parameters; the timer firing is a call of `HandleClose`. */
module Toasts {
  import Seqs
  import opened Js

  /** What `setTimeout` returns, as an opaque value. */
  type Handle = nat

  /** `{ toastId, message, type }`. */
  datatype Toast = Toast(toastId: int, message: string, kind: string)

  /** The container's state as values: the toast list and the timer record. */
  datatype Shelf = Shelf(toasts: seq<Toast>, timers: map<int, Handle>)

  /** `handleAdd(message, type)` at clock reading `now`, with `handle` the new timer. */
  function Add(s: Shelf, now: int, handle: Handle, message: string, kind: string): Shelf {
    Shelf(s.toasts + [Toast(now, message, kind)], s.timers[now := handle])
  }

  /** The test `item.toastId !== toastId`. */
  function KeepsToast(toastId: int): Toast -> bool {
    (item: Toast) => item.toastId != toastId
  }

  /** `handleClose(toastId)`: the timer entry is deleted and the toasts with the id dropped. */
  function Close(s: Shelf, toastId: int): Shelf {
    Shelf(Seqs.Filter(s.toasts, KeepsToast(toastId)), s.timers - {toastId})
  }

  /** The handle `clearTimeout(timeRef.current[toastId])` cancels; none when no timer is
      recorded under the id. */
  function Cleared(s: Shelf, toastId: int): Option<Handle> {
    if toastId in s.timers then Some(s.timers[toastId]) else None
  }

  /** Add appends exactly one toast and keeps the earlier ones; it records the handle under the
      new id and keeps every other timer entry. */
  lemma AddAppends(s: Shelf, now: int, handle: Handle, message: string, kind: string)
    ensures var r := Add(s, now, handle, message, kind);
            && |r.toasts| == |s.toasts| + 1
            && r.toasts[..|s.toasts|] == s.toasts
            && r.toasts[|s.toasts|] == Toast(now, message, kind)
            && r.timers.Keys == s.timers.Keys + {now} && r.timers[now] == handle
            && (forall id :: id in s.timers && id != now ==> r.timers[id] == s.timers[id])
  {
    var r := Add(s, now, handle, message, kind);
    assert r.toasts[..|s.toasts|] == s.toasts;
  }

  /** Close drops every toast with the id, keeps every other toast with its multiplicity and in
      its order, deletes the id's timer entry and keeps the other entries. */
  lemma CloseRemoves(s: Shelf, toastId: int)
    ensures var r := Close(s, toastId);
            && (forall i :: 0 <= i < |r.toasts| ==> r.toasts[i].toastId != toastId)
            && (forall t: Toast :: t.toastId != toastId ==> multiset(r.toasts)[t] == multiset(s.toasts)[t])
            && Seqs.IsSubsequence(r.toasts, s.toasts)
            && r.timers.Keys == s.timers.Keys - {toastId}
            && (forall id :: id in r.timers ==> r.timers[id] == s.timers[id])
  {
    var keep := KeepsToast(toastId);
    Seqs.FilterSatisfies(s.toasts, keep);
    Seqs.FilterIsSubsequence(s.toasts, keep);
    forall t: Toast | t.toastId != toastId
      ensures multiset(Seqs.Filter(s.toasts, keep))[t] == multiset(s.toasts)[t]
    {
      Seqs.FilterCount(s.toasts, keep, t);
    }
  }

  /** Closing an id that no toast has leaves the list equal, and only then. */
  lemma CloseUnknownKeepsList(s: Shelf, toastId: int)
    ensures Close(s, toastId).toasts == s.toasts
            <==> forall i :: 0 <= i < |s.toasts| ==> s.toasts[i].toastId != toastId
  {
    Seqs.FilterKeepsAll(s.toasts, KeepsToast(toastId));
  }

  /** Adding a toast under an id that is in use neither by a toast nor by a timer, then closing
      it, restores both the list and the timer record; the close cancels the timer the add
      started. */
  lemma AddThenCloseRestores(s: Shelf, now: int, handle: Handle, message: string, kind: string)
    requires now !in s.timers
    requires forall i :: 0 <= i < |s.toasts| ==> s.toasts[i].toastId != now
    ensures Cleared(Add(s, now, handle, message, kind), now) == Some(handle)
    ensures Close(Add(s, now, handle, message, kind), now) == s
  {
    var keep := KeepsToast(now);
    Seqs.FilterSnoc(s.toasts, Toast(now, message, kind), keep);
    Seqs.FilterKeepsAll(s.toasts, keep);
    assert s.timers[now := handle] - {now} == s.timers;
  }

  /** Two toasts added at the same clock reading share an id: the second handle replaces the
      first in the timer record, and one close removes both toasts. */
  lemma SameInstantSharesId(s: Shelf, now: int, h1: Handle, h2: Handle, m1: string, m2: string, k1: string, k2: string)
    requires forall i :: 0 <= i < |s.toasts| ==> s.toasts[i].toastId != now
    ensures var twice := Add(Add(s, now, h1, m1, k1), now, h2, m2, k2);
            && Cleared(twice, now) == Some(h2)
            && Close(twice, now).toasts == s.toasts
  {
    var keep := KeepsToast(now);
    var once := Add(s, now, h1, m1, k1);
    Seqs.FilterSnoc(s.toasts, Toast(now, m1, k1), keep);
    Seqs.FilterSnoc(once.toasts, Toast(now, m2, k2), keep);
    Seqs.FilterKeepsAll(s.toasts, keep);
  }

  /** The component: `toast` state and `timeRef.current`, both updated in place. */
  class ToastContainer {
    var toasts: seq<Toast>
    var timers: map<int, Handle>

    function Value(): Shelf
      reads this
    {
      Shelf(toasts, timers)
    }

    constructor ()
      ensures Value() == Shelf([], map[])
    {
      toasts := [];
      timers := map[];
    }

    /** `handleAdd(message, type)`. */
    method HandleAdd(now: int, handle: Handle, message: string, kind: string)
      modifies this
      ensures Value() == Add(old(Value()), now, handle, message, kind)
    {
      var toastId := now;
      var newToast := toasts + [Toast(toastId, message, kind)];
      toasts := newToast;
      timers := timers[toastId := handle];
    }

    /** `handleClose(toastId)`; `cleared` is the handle passed to `clearTimeout`. */
    method HandleClose(toastId: int) returns (cleared: Option<Handle>)
      modifies this
      ensures cleared == Cleared(old(Value()), toastId)
      ensures Value() == Close(old(Value()), toastId)
    {
      cleared := if toastId in timers then Some(timers[toastId]) else None;
      timers := timers - {toastId};
      toasts := Seqs.Filter(toasts, KeepsToast(toastId));
    }
  }
}
