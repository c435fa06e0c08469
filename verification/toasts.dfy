/**
 * The notification queue of `src/components/global/ToastProvider.tsx`: the
 * visible toasts, newest first and at most five, and the pending removal
 * timer per toast id. The random id `show` draws is a parameter.
 */
module Toasts {
  import opened Wrappers

  datatype Variant = Info | Success | Failure | Warning

  datatype Toast = Toast(id: string, title: string, description: Option<string>,
                         variant: Option<Variant>, durationMs: Option<int>)

  /**
   * An optional property of the object handed to `show`: left out, present
   * but `undefined`, or given. Spreading an object copies a present
   * `undefined` too, so only a left-out property keeps its default.
   */
  datatype Field<T> = Absent | Undefined | Given(value: T)

  datatype ToastInput = ToastInput(title: string, description: Option<string>,
                                   variant: Field<Variant>, durationMs: Field<int>)

  datatype State = State(toasts: seq<Toast>, timers: map<string, int>)

  const MaxToasts: nat := 5
  const DefaultDurationMs: int := 4000

  /** `{ ...defaults, ...toast }` for one property. */
  function Spread<T>(default: T, f: Field<T>): (r: Option<T>)
    ensures f.Absent? ==> r == Some(default)
    ensures f.Undefined? ==> r.None?
    ensures f.Given? ==> r == Some(f.value)
  {
    match f
    case Absent => Some(default)
    case Undefined => None
    case Given(v) => Some(v)
  }

  /** `{ id, durationMs: 4000, variant: "info", ...toast }` */
  function Build(input: ToastInput, id: string): (t: Toast)
    ensures t.id == id && t.title == input.title && t.description == input.description
    ensures t.variant == Spread(Info, input.variant)
    ensures t.durationMs == Spread(DefaultDurationMs, input.durationMs)
  {
    Toast(id, input.title, input.description, Spread(Info, input.variant), Spread(DefaultDurationMs, input.durationMs))
  }

  /** `setTimeout(f, undefined)` waits 0 ms. */
  function Delay(durationMs: Option<int>): int {
    durationMs.GetOr(0)
  }

  /**
   * `show(toast)`: the new toast goes in front, the list is cut to five, and
   * a removal timer is started for its id.
   */
  function Show(s: State, input: ToastInput, id: string): (r: State)
    ensures |r.toasts| == if |s.toasts| + 1 < MaxToasts then |s.toasts| + 1 else MaxToasts
    ensures r.toasts[0] == Build(input, id)
    ensures r.toasts[1..] == s.toasts[..|r.toasts| - 1]
    ensures r.timers == s.timers[id := Delay(Build(input, id).durationMs)]
  {
    var t := Build(input, id);
    var all := [t] + s.toasts;
    var kept := if |all| < MaxToasts then all else all[..MaxToasts];
    assert kept[1..] == s.toasts[..|kept| - 1];
    State(kept, s.timers[id := Delay(t.durationMs)])
  }

  /** `prev.filter(t => t.id !== id)` */
  function Without(ts: seq<Toast>, id: string): (r: seq<Toast>)
    ensures forall t :: t in r <==> t in ts && t.id != id
    ensures |r| <= |ts|
  {
    if |ts| == 0 then []
    else if ts[0].id == id then Without(ts[1..], id)
    else [ts[0]] + Without(ts[1..], id)
  }

  /** Filtering works piecewise, so the toasts that stay keep their order. */
  lemma {:induction false} WithoutAppend(a: seq<Toast>, b: seq<Toast>, id: string)
    ensures Without(a + b, id) == Without(a, id) + Without(b, id)
    decreases |a|
  {
    if |a| > 0 {
      var ab := a + b;
      assert ab[0] == a[0] && ab[1..] == a[1..] + b;
      WithoutAppend(a[1..], b, id);
      if a[0].id == id {
        assert Without(ab, id) == Without(ab[1..], id);
      } else {
        assert Without(ab, id) == [a[0]] + Without(ab[1..], id);
      }
    } else {
      assert a + b == b;
    }
  }

  /** A list without the id is left as it is. */
  lemma {:induction false} WithoutAbsent(ts: seq<Toast>, id: string)
    requires forall t :: t in ts ==> t.id != id
    ensures Without(ts, id) == ts
    decreases |ts|
  {
    if |ts| > 0 {
      assert ts[0] in ts;
      assert forall t :: t in ts[1..] ==> t in ts;
      WithoutAbsent(ts[1..], id);
    }
  }

  /** `remove(id)`: every toast with the id goes, and its timer is dropped if one is pending. */
  function Remove(s: State, id: string): (r: State)
    ensures forall t :: t in r.toasts <==> t in s.toasts && t.id != id
    ensures id !in r.timers
    ensures forall k :: k != id ==> (k in r.timers <==> k in s.timers) && (k in s.timers ==> r.timers[k] == s.timers[k])
  {
    State(Without(s.toasts, id), s.timers - {id})
  }

  /** The queue invariant: never more than five toasts. */
  predicate Bounded(s: State) {
    |s.toasts| <= MaxToasts
  }

  lemma ShowKeepsBounded(s: State, input: ToastInput, id: string)
    ensures Bounded(Show(s, input, id))
  {
  }

  lemma RemoveKeepsBounded(s: State, id: string)
    requires Bounded(s)
    ensures Bounded(Remove(s, id))
  {
  }

  /**
   * Showing a toast under a fresh id and then removing it gives back the
   * list as it was, cut to four when it was full: the toast it pushed out
   * does not come back.
   */
  lemma ShowThenRemove(s: State, input: ToastInput, id: string)
    requires forall t :: t in s.toasts ==> t.id != id
    requires id !in s.timers
    ensures var r := Remove(Show(s, input, id), id);
            r.timers == s.timers
            && r.toasts == s.toasts[..if |s.toasts| < MaxToasts - 1 then |s.toasts| else MaxToasts - 1]
  {
    var sh := Show(s, input, id);
    ShowThenRemoveToasts(sh.toasts, s.toasts, id);
    assert sh.timers - {id} == s.timers;
  }

  lemma ShowThenRemoveToasts(shown: seq<Toast>, before: seq<Toast>, id: string)
    requires 1 <= |shown| <= |before| + 1 && shown[0].id == id
    requires shown[1..] == before[..|shown| - 1]
    requires forall t :: t in before ==> t.id != id
    ensures Without(shown, id) == before[..|shown| - 1]
  {
    var rest := shown[1..];
    assert forall u :: u in rest ==> u in before;
    WithoutAbsent(rest, id);
  }
}
