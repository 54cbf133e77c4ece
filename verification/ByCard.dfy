/** Planned rows keyed by their card, as both backfills write them: at most one to a card. Which cards a
    plan names, whether it names one twice, and what is left of a plan after the rows of some cards have
    been taken out. */
module ByCard {

  datatype OnCard<T> = OnCard(card: int, it: T)

  function CardsOf<T>(s: seq<OnCard<T>>): set<int> {
    if s == [] then {} else CardsOf(s[..|s| - 1]) + {s[|s| - 1].card}
  }

  predicate DistinctCards<T>(s: seq<OnCard<T>>) {
    s == [] || (s[|s| - 1].card !in CardsOf(s[..|s| - 1]) && DistinctCards(s[..|s| - 1]))
  }

  /** The rows of `s` whose card is not in `gone`. */
  function Keep<T>(s: seq<OnCard<T>>, gone: set<int>): seq<OnCard<T>> {
    if s == [] then [] else Keep(s[..|s| - 1], gone) + if s[|s| - 1].card in gone then [] else [s[|s| - 1]]
  }

  lemma {:induction false} DistinctAppend<T>(a: seq<OnCard<T>>, b: seq<OnCard<T>>)
    ensures CardsOf(a + b) == CardsOf(a) + CardsOf(b)
    ensures DistinctCards(a + b) <==> DistinctCards(a) && DistinctCards(b) && CardsOf(a) !! CardsOf(b)
    decreases |b|
  {
    if b == [] {
      assert a + b == a;
    } else {
      DistinctAppend(a, b[..|b| - 1]);
      assert (a + b)[..|a + b| - 1] == a + b[..|b| - 1];
    }
  }

  lemma AppendOne<T>(s: seq<OnCard<T>>, v: OnCard<T>)
    ensures CardsOf(s + [v]) == CardsOf(s) + {v.card}
    ensures DistinctCards(s + [v]) <==> DistinctCards(s) && v.card !in CardsOf(s)
  {
    assert (s + [v])[..|s|] == s;
  }

  lemma PrefixCards<T>(a: seq<OnCard<T>>, b: seq<OnCard<T>>)
    requires a <= b
    ensures CardsOf(a) <= CardsOf(b) && (DistinctCards(b) ==> DistinctCards(a))
  {
    assert b == a + b[|a|..];
    DistinctAppend(a, b[|a|..]);
  }

  lemma {:induction false} CardsMembers<T>(s: seq<OnCard<T>>)
    ensures forall c :: c in CardsOf(s) <==> exists v :: v in s && v.card == c
  {
    if s != [] {
      CardsMembers(s[..|s| - 1]);
      assert s == s[..|s| - 1] + [s[|s| - 1]];
    }
  }

  lemma {:induction false} SameCardSameRow<T>(s: seq<OnCard<T>>, u: OnCard<T>, v: OnCard<T>)
    requires DistinctCards(s) && u in s && v in s && u.card == v.card
    ensures u == v
  {
    var front, last := s[..|s| - 1], s[|s| - 1];
    CardsMembers(front);
    if u != v && u != last && v != last {
      SameCardSameRow(front, u, v);
    }
  }

  lemma {:induction false} KeepAppend<T>(a: seq<OnCard<T>>, b: seq<OnCard<T>>, gone: set<int>)
    ensures Keep(a + b, gone) == Keep(a, gone) + Keep(b, gone)
    decreases |b|
  {
    if b == [] {
      assert a + b == a;
    } else {
      KeepAppend(a, b[..|b| - 1], gone);
      assert (a + b)[..|a + b| - 1] == a + b[..|b| - 1] && (a + b)[|a + b| - 1] == b[|b| - 1];
    }
  }

  lemma {:induction false} KeepNoneOrAll<T>(s: seq<OnCard<T>>, gone: set<int>)
    ensures CardsOf(s) <= gone ==> Keep(s, gone) == []
    ensures CardsOf(s) !! gone ==> Keep(s, gone) == s
  {
    if s != [] {
      KeepNoneOrAll(s[..|s| - 1], gone);
      assert s == s[..|s| - 1] + [s[|s| - 1]];
    }
  }

  lemma KeepAfterPrefix<T>(p: seq<OnCard<T>>, rest: seq<OnCard<T>>, gone: set<int>)
    requires CardsOf(p) <= gone && CardsOf(rest) !! gone
    ensures Keep(p + rest, gone) == rest
  {
    KeepAppend(p, rest, gone);
    KeepNoneOrAll(p, gone);
    KeepNoneOrAll(rest, gone);
  }

  lemma {:induction false} KeepDistinct<T>(s: seq<OnCard<T>>, gone: set<int>)
    requires DistinctCards(s)
    ensures DistinctCards(Keep(s, gone)) && CardsOf(Keep(s, gone)) == CardsOf(s) - gone
  {
    if s != [] {
      var front, last := s[..|s| - 1], s[|s| - 1];
      KeepDistinct(front, gone);
      Without(CardsOf(front), last.card, gone);
      if last.card in gone {
        assert Keep(s, gone) == Keep(front, gone);
      } else {
        AppendOne(Keep(front, gone), last);
      }
    }
  }

  lemma Without(a: set<int>, x: int, gone: set<int>)
    ensures (a + {x}) - gone == if x in gone then a - gone else (a - gone) + {x}
  {
  }

  lemma {:induction false} KeepMember<T>(s: seq<OnCard<T>>, gone: set<int>, v: OnCard<T>)
    ensures v in Keep(s, gone) <==> v in s && v.card !in gone
  {
    if s != [] {
      KeepMember(s[..|s| - 1], gone, v);
      assert s == s[..|s| - 1] + [s[|s| - 1]];
    }
  }
}
