/**
 * The toast list behind `showToast` and `removeToast`: appending a toast with
 * defaulted type and duration, and removing every toast with a given id. Ids
 * come from the clock and a random number in the source; here the caller
 * supplies the new id.
 */
module Toasts {
  import opened Wrappers
  import opened JsValues

  datatype ToastType = Info | Success | Warning | Failure

  const DefaultDuration: int := 3000

  /** A toast; `onClick` is the callback value handed in, `undefined` when there is none. */
  datatype Toast = Toast(id: string, message: JsValue, kind: ToastType, duration: int, onClick: JsValue)

  /** The toast `showToast` builds: `type` defaults to info and `duration` to 3000 when left out. */
  function NewToast(id: string, message: JsValue, kind: Option<ToastType>, duration: Option<int>, onClick: JsValue): Toast {
    Toast(id, message, kind.GetOr(Info), duration.GetOr(DefaultDuration), onClick)
  }

  /** `toasts.filter(toast => toast.id !== id)`. */
  function Without(toasts: seq<Toast>, id: string): (r: seq<Toast>)
    ensures |r| <= |toasts|
    ensures forall t :: t in r <==> t in toasts && t.id != id
  {
    if |toasts| == 0 then []
    else (if toasts[0].id != id then [toasts[0]] else []) + Without(toasts[1..], id)
  }

  /** Filtering distributes over concatenation, so the kept toasts stay in their original order. */
  lemma {:induction false} WithoutAppend(a: seq<Toast>, b: seq<Toast>, id: string)
    ensures Without(a + b, id) == Without(a, id) + Without(b, id)
    decreases |a|
  {
    if |a| == 0 {
      assert a + b == b;
    } else {
      assert (a + b)[0] == a[0];
      assert (a + b)[1..] == a[1..] + b;
      WithoutAppend(a[1..], b, id);
    }
  }

  /** Removing an id no toast carries leaves the list as it is. */
  lemma {:induction false} WithoutAbsent(toasts: seq<Toast>, id: string)
    requires forall k :: 0 <= k < |toasts| ==> toasts[k].id != id
    ensures Without(toasts, id) == toasts
    decreases |toasts|
  {
    if |toasts| > 0 {
      WithoutAbsent(toasts[1..], id);
      assert [toasts[0]] + toasts[1..] == toasts;
    }
  }

  /** Removing twice is removing once. */
  lemma WithoutIdempotent(toasts: seq<Toast>, id: string)
    ensures Without(Without(toasts, id), id) == Without(toasts, id)
  {
    var once := Without(toasts, id);
    assert forall k :: 0 <= k < |once| ==> once[k] in once;
    WithoutAbsent(once, id);
  }

  /** Removing one id keeps every toast carrying another. */
  lemma WithoutKeepsOthers(toasts: seq<Toast>, id: string, t: Toast)
    requires t in toasts && t.id != id
    ensures t in Without(toasts, id)
  {
  }

  /** The toast list, replaced as a whole by each update. */
  class ToastList {
    var items: seq<Toast>

    constructor()
      ensures items == []
    {
      items := [];
    }

    /** Appends exactly one toast; the earlier ones keep their order and contents. */
    method ShowToast(message: JsValue, kind: Option<ToastType>, duration: Option<int>, onClick: JsValue, freshId: string)
      modifies this
      ensures items == old(items) + [NewToast(freshId, message, kind, duration, onClick)]
    {
      items := items + [NewToast(freshId, message, kind, duration, onClick)];
    }

    method RemoveToast(id: string)
      modifies this
      ensures items == Without(old(items), id)
    {
      items := Without(items, id);
    }
  }

  /** Left-out options fall back to an info toast shown for 3000 ms. */
  lemma NewToastDefaults(id: string, message: JsValue, onClick: JsValue)
    ensures NewToast(id, message, None, None, onClick) == Toast(id, message, Info, 3000, onClick)
  {
  }

  /** Given options are kept as they are. */
  lemma NewToastKeepsOptions(id: string, message: JsValue, kind: ToastType, duration: int, onClick: JsValue)
    ensures NewToast(id, message, Some(kind), Some(duration), onClick) == Toast(id, message, kind, duration, onClick)
  {
  }

  /** Showing a toast with a fresh id and then removing that id gives back the list from before. */
  lemma ShowThenRemove(toasts: seq<Toast>, t: Toast)
    requires forall k :: 0 <= k < |toasts| ==> toasts[k].id != t.id
    ensures Without(toasts + [t], t.id) == toasts
  {
    WithoutAppend(toasts, [t], t.id);
    WithoutAbsent(toasts, t.id);
    assert Without([t], t.id) == [];
  }

  /** A client sequence: two toasts shown, the first dismissed, leaves only the second. */
  method DismissFirst() returns (remaining: seq<Toast>)
    ensures remaining == [Toast("b", Str("saved"), Success, 3000, Undefined)]
  {
    var list := new ToastList();
    list.ShowToast(Str("hello"), None, None, Undefined, "a");
    list.ShowToast(Str("saved"), Some(Success), None, Undefined, "b");
    list.RemoveToast("a");
    remaining := list.items;
  }
}
