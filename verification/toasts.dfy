/** The shared toast list of the front end: adding with a running id counter,
    removing by id, and the four typed shortcuts. */
module Toasts {
  import opened Common
  import Decimal

  datatype ToastType = Success | Error | Warning | Info

  /** `ToastOptions`; every field but the title is optional. */
  datatype ToastOptions = ToastOptions(
    kind: Option<ToastType>,
    title: string,
    message: Option<string>,
    duration: Option<int>,
    autoClose: Option<bool>)

  /** A toast: its id and the options it was added with. The component and the
      close callback (which removes this id) are left out. */
  datatype Toast = Toast(id: string, options: ToastOptions)

  /** The list and the counter the next id is taken from. */
  datatype ToastState = ToastState(toasts: seq<Toast>, nextId: nat)

  const Initial: ToastState := ToastState([], 1)

  const IdPrefix: string := "toast-"

  function ToastId(n: nat): string {
    IdPrefix + Decimal.NatToString(n)
  }

  /** The number a toast id was made from. */
  function IdNumber(id: string): Option<nat> {
    if |id| >= |IdPrefix| && id[..|IdPrefix|] == IdPrefix then Decimal.ParseNat(id[|IdPrefix|..]) else None
  }

  lemma IdNumberOfToastId(n: nat)
    ensures IdNumber(ToastId(n)) == Some(n)
  {
    var id := ToastId(n);
    assert id[..|IdPrefix|] == IdPrefix && id[|IdPrefix|..] == Decimal.NatToString(n);
    Decimal.ParseNatRoundTrip(n);
  }

  /** `addToast`: one toast at the end, with the next id, which is returned. */
  function AddToast(st: ToastState, options: ToastOptions): (r: (ToastState, string))
    ensures r.0.toasts == st.toasts + [Toast(r.1, options)]
    ensures r.0.nextId == st.nextId + 1
    ensures IdNumber(r.1) == Some(st.nextId)
  {
    IdNumberOfToastId(st.nextId);
    var id := ToastId(st.nextId);
    (ToastState(st.toasts + [Toast(id, options)], st.nextId + 1), id)
  }

  /** The first position holding the id, as `findIndex` gives it. */
  function FindToast(ts: seq<Toast>, id: string): (r: Option<nat>)
    ensures r.Some? ==> r.value < |ts| && ts[r.value].id == id
    ensures r.Some? ==> forall j | 0 <= j < r.value :: ts[j].id != id
    ensures r.None? ==> forall j | 0 <= j < |ts| :: ts[j].id != id
  {
    if |ts| == 0 then None
    else if ts[0].id == id then Some(0)
    else
      match FindToast(ts[1..], id)
      case None => None
      case Some(k) => Some(k + 1)
  }

  /** `removeToast`: drops the first toast with the id; an absent id changes
      nothing. The counter is never touched. */
  function RemoveToast(st: ToastState, id: string): (r: ToastState)
    ensures r.nextId == st.nextId
    ensures (forall j | 0 <= j < |st.toasts| :: st.toasts[j].id != id) ==> r == st
    ensures forall t | t in r.toasts :: t in st.toasts
    ensures (exists j | 0 <= j < |st.toasts| :: st.toasts[j].id == id) ==> |r.toasts| == |st.toasts| - 1
  {
    match FindToast(st.toasts, id)
    case None => st
    case Some(i) => ToastState(st.toasts[..i] + st.toasts[i + 1..], st.nextId)
  }

  function Notify(st: ToastState, kind: ToastType, title: string, message: Option<string>): (r: (ToastState, string))
    ensures r.0.toasts == st.toasts + [Toast(r.1, ToastOptions(Some(kind), title, message, None, None))]
  {
    AddToast(st, ToastOptions(Some(kind), title, message, None, None))
  }

  function SuccessToast(st: ToastState, title: string, message: Option<string>): (ToastState, string) {
    Notify(st, Success, title, message)
  }

  function ErrorToast(st: ToastState, title: string, message: Option<string>): (ToastState, string) {
    Notify(st, Error, title, message)
  }

  function WarningToast(st: ToastState, title: string, message: Option<string>): (ToastState, string) {
    Notify(st, Warning, title, message)
  }

  function InfoToast(st: ToastState, title: string, message: Option<string>): (ToastState, string) {
    Notify(st, Info, title, message)
  }

  // ---- Ids ----

  /** Every toast's id was issued before the counter's current value, and ids
      increase along the list. */
  predicate Wf(st: ToastState) {
    && st.nextId >= 1
    && (forall i | 0 <= i < |st.toasts| ::
          IdNumber(st.toasts[i].id).Some? && 1 <= IdNumber(st.toasts[i].id).value < st.nextId)
    && (forall i, j | 0 <= i < j < |st.toasts| ::
          IdNumber(st.toasts[i].id).value < IdNumber(st.toasts[j].id).value)
  }

  /** No two toasts of a well-formed list share an id. */
  lemma WfIdsDistinct(st: ToastState)
    requires Wf(st)
    ensures forall i, j | 0 <= i < j < |st.toasts| :: st.toasts[i].id != st.toasts[j].id
  {
  }

  lemma InitialWf()
    ensures Wf(Initial)
  {
  }

  /** Adding keeps the list well formed, and the new id is not on it. */
  lemma AddKeepsWf(st: ToastState, options: ToastOptions)
    requires Wf(st)
    ensures Wf(AddToast(st, options).0)
    ensures forall t | t in st.toasts :: t.id != AddToast(st, options).1
  {
    var r := AddToast(st, options);
    var ts := r.0.toasts;
    assert forall i | 0 <= i < |st.toasts| :: ts[i] == st.toasts[i];
  }

  /** The positions of a list with position `i` removed. */
  lemma RemoveAtIndices(ts: seq<Toast>, i: nat)
    requires i < |ts|
    ensures var rs := ts[..i] + ts[i + 1..];
            && |rs| == |ts| - 1
            && (forall k | 0 <= k < i :: rs[k] == ts[k])
            && (forall k | i <= k < |rs| :: rs[k] == ts[k + 1])
  {
  }

  lemma RemoveAtKeepsWf(st: ToastState, i: nat)
    requires Wf(st) && i < |st.toasts|
    ensures Wf(ToastState(st.toasts[..i] + st.toasts[i + 1..], st.nextId))
  {
    var ts := st.toasts;
    var rs := ts[..i] + ts[i + 1..];
    RemoveAtIndices(ts, i);
    forall k, l | 0 <= k < l < |rs|
      ensures IdNumber(rs[k].id).value < IdNumber(rs[l].id).value
    {
      var k' := if k < i then k else k + 1;
      var l' := if l < i then l else l + 1;
      assert rs[k] == ts[k'] && rs[l] == ts[l'] && k' < l';
    }
  }

  /** Removing keeps the list well formed and deletes exactly the toast with the
      id: the others stay, in their order. */
  lemma RemoveKeepsWf(st: ToastState, id: string)
    requires Wf(st)
    ensures Wf(RemoveToast(st, id))
    ensures forall t | t in RemoveToast(st, id).toasts :: t.id != id
    ensures forall t | t in st.toasts && t.id != id :: t in RemoveToast(st, id).toasts
  {
    match FindToast(st.toasts, id)
    case None =>
    case Some(i) =>
      RemoveAtKeepsWf(st, i);
      RemoveAtDropsId(st, id, i);
      RemoveAtKeepsOthers(st.toasts, id, i);
  }

  /** With distinct ids, cutting out the toast at `i` leaves no toast with its id. */
  lemma RemoveAtDropsId(st: ToastState, id: string, i: nat)
    requires Wf(st) && i < |st.toasts| && st.toasts[i].id == id
    ensures forall t | t in st.toasts[..i] + st.toasts[i + 1..] :: t.id != id
  {
    var ts := st.toasts;
    var rs := ts[..i] + ts[i + 1..];
    RemoveAtIndices(ts, i);
    WfIdsDistinct(st);
    forall t | t in rs
      ensures t.id != id
    {
      var k :| 0 <= k < |rs| && rs[k] == t;
      if k < i {
        assert rs[k] == ts[k];
      } else {
        assert rs[k] == ts[k + 1];
      }
    }
  }

  /** Cutting out the toast at `i` keeps every toast with another id. */
  lemma RemoveAtKeepsOthers(ts: seq<Toast>, id: string, i: nat)
    requires i < |ts| && ts[i].id == id
    ensures forall t | t in ts && t.id != id :: t in ts[..i] + ts[i + 1..]
  {
    var rs := ts[..i] + ts[i + 1..];
    RemoveAtIndices(ts, i);
    forall t | t in ts && t.id != id
      ensures t in rs
    {
      var k :| 0 <= k < |ts| && ts[k] == t;
      if k < i {
        assert rs[k] == t;
      } else {
        assert rs[k - 1] == t;
      }
    }
  }
}
