/** A selector that goes through its sources once and offers at most one thing for each, in their order:
    what is offered, from which source each offer comes, and that no source which fits is passed over.
    Both backfills select this way. */
module Offers {

  ghost predicate Increasing(from: seq<nat>) { forall k, l :: 0 <= k < l < |from| ==> from[k] < from[l] }

  ghost predicate EachFits<S, T>(sources: seq<S>, fits: (S, T) -> bool, offer: seq<T>, from: seq<nat>) {
    |from| == |offer| && forall k :: 0 <= k < |from| ==> from[k] < |sources| && fits(sources[from[k]], offer[k])
  }

  ghost predicate NoneLeft<S, T(!new)>(sources: seq<S>, fits: (S, T) -> bool, from: seq<nat>) {
    forall i, t :: 0 <= i < |sources| && fits(sources[i], t) ==> i in from
  }

  /** `from[k]` is the source of the k-th thing offered: the offers come in the order of their sources, each
      fits its source, and no source that something fits is left out. */
  ghost predicate Offered<S, T(!new)>(sources: seq<S>, fits: (S, T) -> bool, offer: seq<T>, from: seq<nat>) {
    Increasing(from) && EachFits(sources, fits, offer, from) && NoneLeft(sources, fits, from)
  }

  lemma OfferedLast<S, T(!new)>(front: seq<S>, s: S, fits: (S, T) -> bool, offer: seq<T>, from: seq<nat>, t: T)
    requires Offered(front, fits, offer, from) && fits(s, t)
    ensures Offered(front + [s], fits, offer + [t], from + [|front|])
  {
    forall i, u | 0 <= i < |front + [s]| && fits((front + [s])[i], u) ensures i in from + [|front|] {
      if i < |front| {
        assert i in from;
      } else {
        assert (from + [|front|])[|from|] == i;
      }
    }
  }

  lemma SkippedLast<S, T(!new)>(front: seq<S>, s: S, fits: (S, T) -> bool, offer: seq<T>, from: seq<nat>)
    requires Offered(front, fits, offer, from) && forall t :: !fits(s, t)
    ensures Offered(front + [s], fits, offer, from)
  {
    forall i, u | 0 <= i < |front + [s]| && fits((front + [s])[i], u) ensures i in from {
      assert i < |front|;
    }
  }

  function Shift(from: seq<nat>): (r: seq<nat>)
    ensures |r| == |from| && forall k :: 0 <= k < |from| ==> r[k] == from[k] + 1
  {
    if from == [] then [] else [from[0] + 1] + Shift(from[1..])
  }

  lemma ShiftedMember(from: seq<nat>, i: nat)
    requires i in from
    ensures i + 1 in Shift(from)
  {
    var k :| 0 <= k < |from| && from[k] == i;
    assert Shift(from)[k] == i + 1;
  }

  lemma IncreasingFirst(from: seq<nat>)
    requires Increasing(from)
    ensures Increasing([0] + Shift(from))
  {
    var now := [0] + Shift(from);
    forall k, l | 0 <= k < l < |now| ensures now[k] < now[l] {
      assert now[l] == from[l - 1] + 1 && (k > 0 ==> now[k] == from[k - 1] + 1);
    }
  }

  lemma FitsLater<S, T>(s: S, rest: seq<S>, fits: (S, T) -> bool, offer: seq<T>, from: seq<nat>)
    requires EachFits(rest, fits, offer, from)
    ensures EachFits([s] + rest, fits, offer, Shift(from))
  {
    forall k | 0 <= k < |from| ensures Shift(from)[k] < |[s] + rest| && fits(([s] + rest)[Shift(from)[k]], offer[k]) {
      assert ([s] + rest)[from[k] + 1] == rest[from[k]];
    }
  }

  lemma LeftLater<S, T(!new)>(s: S, rest: seq<S>, fits: (S, T) -> bool, from: seq<nat>, i: int, t: T)
    requires NoneLeft(rest, fits, from) && 0 < i < |[s] + rest| && fits(([s] + rest)[i], t)
    ensures i in Shift(from)
  {
    assert ([s] + rest)[i] == rest[i - 1];
    ShiftedMember(from, i - 1);
  }

  lemma OfferedFirst<S, T(!new)>(s: S, rest: seq<S>, fits: (S, T) -> bool, offer: seq<T>, from: seq<nat>, t: T)
    requires Offered(rest, fits, offer, from) && fits(s, t)
    ensures Offered([s] + rest, fits, [t] + offer, [0] + Shift(from))
  {
    var sources, now, all := [s] + rest, [0] + Shift(from), [t] + offer;
    IncreasingFirst(from);
    FitsLater(s, rest, fits, offer, from);
    forall k | 0 <= k < |now| ensures now[k] < |sources| && fits(sources[now[k]], all[k]) {
      if k > 0 {
        assert now[k] == Shift(from)[k - 1] && all[k] == offer[k - 1];
      }
    }
    forall i, u | 0 <= i < |sources| && fits(sources[i], u) ensures i in now {
      if i == 0 {
        assert now[0] == 0;
      } else {
        LeftLater(s, rest, fits, from, i, u);
      }
    }
  }

  lemma SkippedFirst<S, T(!new)>(s: S, rest: seq<S>, fits: (S, T) -> bool, offer: seq<T>, from: seq<nat>)
    requires Offered(rest, fits, offer, from) && forall t :: !fits(s, t)
    ensures Offered([s] + rest, fits, offer, Shift(from))
  {
    FitsLater(s, rest, fits, offer, from);
    forall i, u | 0 <= i < |[s] + rest| && fits(([s] + rest)[i], u) ensures i in Shift(from) {
      LeftLater(s, rest, fits, from, i, u);
    }
  }
}
