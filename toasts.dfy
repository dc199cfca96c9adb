/**
 * The client's toast queue: a counter that numbers toasts and the list of
 * toasts on screen. Showing appends, dismissing filters by id, clearing
 * empties the list; the counter only ever grows, so an id is never reused.
 */
module Toasts {
  import opened Wrappers

  /** The four kinds; `Failure` is the client's "error". */
  datatype ToastType = Success | Failure | Info | Warning

  /** `duration` is in milliseconds; zero or less means the toast stays until dismissed. */
  datatype Toast = Toast(id: nat, message: string, title: Option<string>, kind: ToastType, duration: int)

  /** The optional settings of `show`. */
  datatype ShowOptions = ShowOptions(title: Option<string>, kind: Option<ToastType>, duration: Option<int>)

  const DefaultDuration: int := 4000

  /** Ids strictly increase along the list. */
  ghost predicate IdsIncreasing(toasts: seq<Toast>) {
    forall i, j :: 0 <= i < j < |toasts| ==> toasts[i].id < toasts[j].id
  }

  /** The list without the toasts numbered `id`. */
  function Without(toasts: seq<Toast>, id: nat): (r: seq<Toast>)
    ensures forall t :: t in r <==> t in toasts && t.id != id
    ensures |r| <= |toasts|
  {
    if toasts == [] then []
    else if toasts[0].id == id then Without(toasts[1..], id)
    else [toasts[0]] + Without(toasts[1..], id)
  }

  /** Filtering distributes over concatenation, so the survivors keep their order. */
  lemma {:induction false} WithoutConcat(a: seq<Toast>, b: seq<Toast>, id: nat)
    ensures Without(a + b, id) == Without(a, id) + Without(b, id)
  {
    if a == [] {
      assert a + b == b;
    } else {
      assert (a + b)[0] == a[0] && (a + b)[1..] == a[1..] + b;
      WithoutConcat(a[1..], b, id);
    }
  }

  /** Dismissing an id that is not on screen changes nothing. */
  lemma {:induction false} WithoutAbsent(toasts: seq<Toast>, id: nat)
    requires forall t :: t in toasts ==> t.id != id
    ensures Without(toasts, id) == toasts
  {
    if toasts != [] {
      assert toasts[0] in toasts;
      assert forall t :: t in toasts[1..] ==> t in toasts;
      WithoutAbsent(toasts[1..], id);
    }
  }

  /** Filtering keeps the ids increasing. */
  lemma {:induction false} WithoutIncreasing(toasts: seq<Toast>, id: nat)
    requires IdsIncreasing(toasts)
    ensures IdsIncreasing(Without(toasts, id))
  {
    if toasts != [] {
      WithoutIncreasing(toasts[1..], id);
      var rest := Without(toasts[1..], id);
      if toasts[0].id != id {
        forall t | t in rest ensures toasts[0].id < t.id {
          var k :| 0 <= k < |toasts[1..]| && toasts[1..][k] == t;
          assert toasts[k + 1] == t;
        }
        assert forall j :: 0 <= j < |rest| ==> rest[j] in rest;
      }
    }
  }

  class ToastService {
    var toasts: seq<Toast>
    var counter: nat
    /** Every id handed out so far, in order, including toasts already gone. */
    ghost var issued: seq<nat>

    ghost predicate Valid()
      reads this
    {
      && IdsIncreasing(toasts)
      && (forall t :: t in toasts ==> t.id in issued)
      && (forall i, j :: 0 <= i < j < |issued| ==> issued[i] < issued[j])
      && (forall k :: k in issued ==> 1 <= k <= counter)
    }

    constructor ()
      ensures Valid() && toasts == [] && counter == 0 && issued == []
    {
      toasts, counter, issued := [], 0, [];
    }

    /**
     * Shows a toast numbered one past the counter, at the end of the list.
     * `timer` is the delay of the scheduled self-dismissal, if any.
     */
    method Show(message: string, options: ShowOptions) returns (id: nat, timer: Option<int>)
      requires Valid()
      modifies this
      ensures Valid()
      ensures id == old(counter) + 1 && counter == id && id !in old(issued) && issued == old(issued) + [id]
      ensures toasts == old(toasts) + [Toast(id, message, options.title, options.kind.GetOr(Info),
                                             options.duration.GetOr(DefaultDuration))]
      ensures forall t :: t in old(toasts) ==> t.id < id
      ensures var duration := toasts[|toasts| - 1].duration; timer == if duration > 0 then Some(duration) else None
    {
      counter := counter + 1;
      id := counter;
      var toast := Toast(id, message, options.title, options.kind.GetOr(Info), options.duration.GetOr(DefaultDuration));
      assert forall i :: 0 <= i < |issued| ==> issued[i] in issued;
      assert forall i :: 0 <= i < |toasts| ==> toasts[i] in toasts;
      toasts := toasts + [toast];
      issued := issued + [id];
      timer := if toast.duration > 0 then Some(toast.duration) else None;
    }

    /** Removes the toasts numbered `id`; the rest stay in order. */
    method Dismiss(id: nat)
      requires Valid()
      modifies this
      ensures Valid()
      ensures toasts == Without(old(toasts), id) && counter == old(counter) && issued == old(issued)
    {
      WithoutIncreasing(toasts, id);
      toasts := Without(toasts, id);
    }

    /** Empties the list; the counter is kept. */
    method Clear()
      requires Valid()
      modifies this
      ensures Valid()
      ensures toasts == [] && counter == old(counter) && issued == old(issued)
    {
      toasts := [];
    }
  }
}
