/** A variable holds what was last written to it: the form in which several modules say where a value came from. */
module LastWrite {
  import opened Prelude

  /** `writes[l]` is what step l writes, if anything; v is the last value written by the first n steps, or the initial
      one when they write nothing. */
  ghost predicate LastWritten<T(!new)>(writes: seq<Option<T>>, n: nat, init: T, v: T)
    requires n <= |writes|
  {
    || (exists j | 0 <= j < n :: writes[j] == Some(v) && forall l | j < l < n :: writes[l].None?)
    || (v == init && forall l | 0 <= l < n :: writes[l].None?)
  }

  /** The successive values follow from the writes. */
  ghost predicate Follow<T(!new)>(values: seq<T>, writes: seq<Option<T>>) {
    && |values| == |writes| + 1
    && forall l | 0 <= l < |writes| :: FollowsAt(values, writes, l)
  }

  ghost predicate FollowsAt<T(!new)>(values: seq<T>, writes: seq<Option<T>>, l: nat)
    requires |values| == |writes| + 1 && l < |writes|
  {
    values[l + 1] == if writes[l].Some? then writes[l].value else values[l]
  }

  lemma {:induction false} HoldsLastWritten<T(!new)>(values: seq<T>, writes: seq<Option<T>>, n: nat, v: T)
    requires Follow(values, writes) && n <= |writes|
    ensures values[n] == v <==> LastWritten(writes, n, values[0], v)
  {
    if n > 0 {
      HoldsLastWritten(values, writes, n - 1, v);
      assert FollowsAt(values, writes, n - 1);
    }
  }
}
