/** channel_roster._extractor_field_groups: which extractor a field write belongs to, decided by where
    it stands among the manifest stores. */
module FieldGroups {
  import opened Sorting

  datatype Kind = Field | Version
  datatype Event = Event(line: nat, kind: Kind, name: string)

  /** Tuple order: the line, then "field" before "version", then the name. */
  predicate EventLeq(a: Event, b: Event) {
    a.line < b.line || (a.line == b.line && (
      (a.kind == Field && b.kind == Version) || (a.kind == b.kind && StringLeq(a.name, b.name))))
  }

  lemma EventOrder()
    ensures TotalOrder(EventLeq)
  {
    StringOrder();
  }

  // ----- the positional rule -----

  /** The field write at `i` belongs to the manifest store at `j`: it comes before, and the scan does
      not turn from manifest stores back to fields in between. */
  ghost predicate Belongs(events: seq<Event>, i: int, j: int) {
    && 0 <= i < j < |events| && events[i].kind == Field && events[j].kind == Version
    && forall p, q :: i < p < q < j ==> !(events[p].kind == Version && events[q].kind == Field)
  }

  /** Two manifest stores with nothing but manifest stores between them. */
  ghost predicate SameRun(events: seq<Event>, a: int, b: int) {
    && 0 <= a < |events| && 0 <= b < |events|
    && forall p :: a <= p <= b || b <= p <= a ==> events[p].kind == Version
  }

  ghost predicate InGroup(events: seq<Event>, limit: int, key: string, f: string) {
    exists i, j :: j < limit && Belongs(events, i, j) && events[i].name == f && events[j].name == key
  }

  ghost predicate InMembers(events: seq<Event>, limit: int, key: string, other: string) {
    exists a, b :: a < limit && b < limit && SameRun(events, a, b) && events[a].name == key && events[b].name == other
  }

  ghost predicate IsKey(events: seq<Event>, limit: int, key: string) {
    exists j :: 0 <= j < limit <= |events| && events[j].kind == Version && events[j].name == key
  }

  /** `m.get(key, ())` */
  function Get(m: map<string, set<string>>, key: string): set<string> {
    if key in m then m[key] else {}
  }

  /** `m.setdefault(key, set()).update(more)` */
  function Update(m: map<string, set<string>>, key: string, more: set<string>): map<string, set<string>> {
    m[key := Get(m, key) + more]
  }

  /** The `for key in run` loop on one of the two maps. */
  function UpdateAll(m: map<string, set<string>>, keys: seq<string>, more: set<string>): map<string, set<string>> {
    if keys == [] then m else Update(UpdateAll(m, keys[..|keys| - 1], more), keys[|keys| - 1], more)
  }

  lemma {:induction false} UpdateAllGet(m: map<string, set<string>>, keys: seq<string>, more: set<string>, k: string)
    ensures Get(UpdateAll(m, keys, more), k) == Get(m, k) + if k in keys then more else {}
    ensures k in UpdateAll(m, keys, more) <==> k in m || k in keys
    decreases |keys|
  {
    if keys != [] {
      var front, last := keys[..|keys| - 1], keys[|keys| - 1];
      UpdateAllGet(m, front, more, k);
      assert keys == front + [last];
    }
  }

  /** Both maps describe exactly the manifest stores before `limit`. */
  ghost predicate Describes(groups: map<string, set<string>>, members: map<string, set<string>>, events: seq<Event>, limit: int) {
    && (forall k :: k in groups <==> IsKey(events, limit, k)) && members.Keys == groups.Keys
    && (forall k, f :: f in Get(groups, k) <==> InGroup(events, limit, k, f))
    && (forall k, m :: m in Get(members, k) <==> InMembers(events, limit, k, m))
  }

  function AsSet(s: seq<string>): set<string> { set n | n in s }

  ghost predicate NamedIn(events: seq<Event>, from: int, to: int, n: string) {
    exists p :: 0 <= from <= p < to <= |events| && events[p].name == n
  }

  ghost predicate Names(s: set<string>, events: seq<Event>, from: int, to: int) {
    forall n :: n in s <==> NamedIn(events, from, to, n)
  }

  lemma OneMoreName(events: seq<Event>, from: int, to: int, n: string)
    requires 0 <= from <= to < |events|
    ensures NamedIn(events, from, to + 1, n) <==> NamedIn(events, from, to, n) || n == events[to].name
  {
    if NamedIn(events, from, to + 1, n) {
      var p :| from <= p < to + 1 && events[p].name == n;
    }
  }

  method ExtractorFieldGroups(stores: seq<Event>) returns (groups: map<string, set<string>>, members: map<string, set<string>>)
    ensures var events := Sort(stores, EventLeq); Describes(groups, members, events, |events|)
  {
    groups, members := Scan(Sort(stores, EventLeq));
  }

  /** Everything up to `index` is accounted for: closed runs before `block`, pending fields after it. */
  ghost predicate Pending(pending: set<string>, events: seq<Event>, block: int, index: int) {
    && 0 <= block <= index <= |events|
    && (forall p :: block <= p < index ==> events[p].kind == Field)
    && (block > 0 ==> events[block - 1].kind == Version)
    && (block > 0 && index == block < |events| ==> events[index].kind == Field)
    && Names(pending, events, block, index)
  }

  method Scan(events: seq<Event>) returns (groups: map<string, set<string>>, members: map<string, set<string>>)
    ensures Describes(groups, members, events, |events|)
  {
    groups, members := map[], map[];
    var pending: set<string> := {};
    var index := 0;
    ghost var block := 0;
    while index < |events|
      invariant Pending(pending, events, block, index)
      invariant Describes(groups, members, events, block)
      decreases |events| - index
    {
      if events[index].kind == Field {
        OneMorePending(pending, events, block, index);
        pending := pending + {events[index].name};
        index := index + 1;
        continue;
      }
      var run, end := TakeRun(events, index);
      RunDescribed(groups, members, events, block, index, end, run, pending);
      groups, members := CloseRun(groups, members, run, pending);
      index := end;
      block := index;
      pending := {};
    }
    NothingAfter(groups, members, events, block);
  }

  /** The `for key in run` loop. */
  method CloseRun(groups0: map<string, set<string>>, members0: map<string, set<string>>, run: seq<string>, pending: set<string>)
    returns (groups: map<string, set<string>>, members: map<string, set<string>>)
    ensures groups == UpdateAll(groups0, run, pending) && members == UpdateAll(members0, run, AsSet(run))
  {
    groups, members := groups0, members0;
    for n := 0 to |run|
      invariant groups == UpdateAll(groups0, run[..n], pending)
      invariant members == UpdateAll(members0, run[..n], AsSet(run))
    {
      assert run[..n + 1][..n] == run[..n];
      groups := Update(groups, run[n], pending);
      members := Update(members, run[n], AsSet(run));
    }
    assert run[..|run|] == run;
  }

  /** The inner `while`: the longest stretch of manifest stores. */
  method TakeRun(events: seq<Event>, start: nat) returns (run: seq<string>, index: nat)
    requires start < |events| && events[start].kind == Version
    ensures start < index <= |events| && forall p :: start <= p < index ==> events[p].kind == Version
    ensures index < |events| ==> events[index].kind == Field
    ensures Names(AsSet(run), events, start, index)
  {
    index := start;
    run := [];
    while index < |events| && events[index].kind == Version
      invariant start <= index <= |events| && (index == start ==> events[index].kind == Version)
      invariant forall p :: start <= p < index ==> events[p].kind == Version
      invariant Names(AsSet(run), events, start, index)
    {
      forall n ensures NamedIn(events, start, index + 1, n) <==> n in AsSet(run) || n == events[index].name {
        OneMoreName(events, start, index, n);
      }
      assert AsSet(run + [events[index].name]) == AsSet(run) + {events[index].name};
      run := run + [events[index].name];
      index := index + 1;
    }
  }

  lemma OneMorePending(pending: set<string>, events: seq<Event>, block: int, index: int)
    requires Pending(pending, events, block, index) && index < |events| && events[index].kind == Field
    ensures Pending(pending + {events[index].name}, events, block, index + 1)
  {
    forall n ensures NamedIn(events, block, index + 1, n) <==> n in pending || n == events[index].name {
      OneMoreName(events, block, index, n);
    }
  }

  /** Fields after the last manifest store change nothing. */
  lemma NothingAfter(groups: map<string, set<string>>, members: map<string, set<string>>, events: seq<Event>, block: int)
    requires Describes(groups, members, events, block) && 0 <= block <= |events|
    requires forall p :: block <= p < |events| ==> events[p].kind == Field
    ensures Describes(groups, members, events, |events|)
  {
    forall i, j | Belongs(events, i, j) ensures j < block {}
    forall a, b | SameRun(events, a, b) ensures a < block && b < block {
      assert events[a].kind == Version && events[b].kind == Version;
    }
    forall k, f | InGroup(events, |events|, k, f) ensures InGroup(events, block, k, f) {
      var i, j :| j < |events| && Belongs(events, i, j) && events[i].name == f && events[j].name == k;
      assert j < block;
    }
    forall k, m | InMembers(events, |events|, k, m) ensures InMembers(events, block, k, m) {
      var a, b :| a < |events| && b < |events| && SameRun(events, a, b) && events[a].name == k && events[b].name == m;
      assert a < block && b < block;
    }
  }

  lemma RunDescribed(groups: map<string, set<string>>, members: map<string, set<string>>, events: seq<Event>,
                     block: int, start: int, end: int, run: seq<string>, pending: set<string>)
    requires RunAt(events, block, start, end) && Describes(groups, members, events, block)
    requires Names(AsSet(run), events, start, end) && Names(pending, events, block, start)
    ensures Describes(UpdateAll(groups, run, pending), UpdateAll(members, run, AsSet(run)), events, end)
  {
    var runSet := AsSet(run);
    var groups', members' := UpdateAll(groups, run, pending), UpdateAll(members, run, runSet);
    forall k ensures k in run <==> NamedIn(events, start, end, k) { assert k in run <==> k in runSet; }
    forall k ensures (k in groups' <==> IsKey(events, end, k)) && (k in members' <==> k in groups') {
      UpdateAllGet(groups, run, pending, k);
      UpdateAllGet(members, run, runSet, k);
      NewKeys(events, block, start, end, k);
    }
    forall k, f ensures f in Get(groups', k) <==> InGroup(events, end, k, f) {
      UpdateAllGet(groups, run, pending, k);
      NewGroup(events, block, start, end, k, f);
    }
    forall k, m ensures m in Get(members', k) <==> InMembers(events, end, k, m) {
      UpdateAllGet(members, run, runSet, k);
      NewMembers(events, block, start, end, k, m);
    }
  }

  /** What the scan knows between two runs: fields from `block` to `start`, manifest stores from there
      to `end`, and a boundary at each side. */
  ghost predicate RunAt(events: seq<Event>, block: int, start: int, end: int) {
    && 0 <= block <= start < end <= |events|
    && (forall p :: block <= p < start ==> events[p].kind == Field)
    && (forall p :: start <= p < end ==> events[p].kind == Version)
    && (block > 0 ==> events[block - 1].kind == Version && block < start)
    && (end < |events| ==> events[end].kind == Field)
  }

  lemma NewKeys(events: seq<Event>, block: int, start: int, end: int, k: string)
    requires RunAt(events, block, start, end)
    ensures IsKey(events, end, k) <==> IsKey(events, block, k) || NamedIn(events, start, end, k)
  {
    if NamedIn(events, start, end, k) {
      var p :| start <= p < end && events[p].name == k;
      assert events[p].kind == Version;
    }
  }

  lemma NewGroup(events: seq<Event>, block: int, start: int, end: int, k: string, f: string)
    requires RunAt(events, block, start, end)
    ensures InGroup(events, end, k, f) <==>
              InGroup(events, block, k, f) || (NamedIn(events, start, end, k) && NamedIn(events, block, start, f))
  {
    forall i, j | start <= j < end ensures Belongs(events, i, j) <==> block <= i < start {
      if 0 <= i < block && events[i].kind == Field {
        assert i < block - 1 < block < j && events[block - 1].kind == Version && events[block].kind == Field;
      }
    }
    if InGroup(events, end, k, f) {
      var i, j :| j < end && Belongs(events, i, j) && events[i].name == f && events[j].name == k;
      assert j < block || start <= j;
    }
    if NamedIn(events, start, end, k) && NamedIn(events, block, start, f) {
      var j :| start <= j < end && events[j].name == k;
      var i :| block <= i < start && events[i].name == f;
      assert Belongs(events, i, j);
    }
  }

  lemma NewMembers(events: seq<Event>, block: int, start: int, end: int, k: string, m: string)
    requires RunAt(events, block, start, end)
    ensures InMembers(events, end, k, m) <==>
              InMembers(events, block, k, m) || (NamedIn(events, start, end, k) && NamedIn(events, start, end, m))
  {
    if InMembers(events, end, k, m) {
      var a, b :| a < end && b < end && SameRun(events, a, b) && events[a].name == k && events[b].name == m;
      assert events[a].kind == Version && events[b].kind == Version;
      assert block < start ==> events[block].kind == Field;
      assert block == start ==> block == 0;
    }
    if NamedIn(events, start, end, k) && NamedIn(events, start, end, m) {
      var a :| start <= a < end && events[a].name == k;
      var b :| start <= b < end && events[b].name == m;
      assert SameRun(events, a, b);
    }
  }

  // ----- what the rule means -----

  /** Manifest stores of one run share their block, whichever one is asked. */
  lemma RunSharesBlock(events: seq<Event>, a: int, b: int, i: int)
    requires SameRun(events, a, b)
    ensures Belongs(events, i, a) <==> Belongs(events, i, b)
  {
    assert events[a].kind == Version && events[b].kind == Version;
  }

  /** A field write is attributed to something exactly when some manifest store follows it. */
  lemma NoFieldLost(events: seq<Event>, i: int)
    requires 0 <= i < |events| && events[i].kind == Field
    ensures (exists j :: Belongs(events, i, j)) <==> exists j :: i < j < |events| && events[j].kind == Version
  {
    if exists j :: i < j < |events| && events[j].kind == Version {
      var j := FirstVersion(events, i + 1);
      assert Belongs(events, i, j);
    }
  }

  lemma {:induction false} FirstVersion(events: seq<Event>, from: int) returns (j: int)
    requires 0 <= from && exists j :: from <= j < |events| && events[j].kind == Version
    ensures from <= j < |events| && events[j].kind == Version && forall p :: from <= p < j ==> events[p].kind == Field
    decreases |events| - from
  {
    if events[from].kind == Version {
      j := from;
    } else {
      j := FirstVersion(events, from + 1);
    }
  }

  /** The same attribution by line numbers alone, on the unordered stores: the field is written no
      later than the manifest store, and no other manifest store from its line on is followed by a
      later field write up to the store's own line. */
  ghost predicate BelongsByLine(stores: seq<Event>, x: Event, y: Event) {
    && x in stores && y in stores && x.kind == Field && y.kind == Version && x.line <= y.line
    && forall v, w :: v in stores && w in stores && v.kind == Version && w.kind == Field
                      ==> !(x.line <= v.line < w.line <= y.line)
  }

  lemma GroupsByLine(stores: seq<Event>, key: string, f: string)
    ensures var events := Sort(stores, EventLeq);
            InGroup(events, |events|, key, f)
            <==> exists x, y :: BelongsByLine(stores, x, y) && x.name == f && y.name == key
  {
    var events := Sort(stores, EventLeq);
    EventOrder();
    SortSorted(stores, EventLeq);
    SortContents(stores, EventLeq);
    if InGroup(events, |events|, key, f) {
      var i, j :| j < |events| && Belongs(events, i, j) && events[i].name == f && events[j].name == key;
      PositionsGiveLines(stores, events, i, j);
    }
    if exists x, y :: BelongsByLine(stores, x, y) && x.name == f && y.name == key {
      var x, y :| BelongsByLine(stores, x, y) && x.name == f && y.name == key;
      var i, j := LinesGivePositions(stores, events, x, y);
    }
  }

  lemma PositionsGiveLines(stores: seq<Event>, events: seq<Event>, i: int, j: int)
    requires Sorted(events, EventLeq) && forall e :: e in events <==> e in stores
    requires Belongs(events, i, j)
    ensures BelongsByLine(stores, events[i], events[j])
  {
    forall v, w | v in stores && w in stores && v.kind == Version && w.kind == Field
      ensures !(events[i].line <= v.line < w.line <= events[j].line) {
      var p :| 0 <= p < |events| && events[p] == v;
      var q :| 0 <= q < |events| && events[q] == w;
      assert p < i ==> EventLeq(v, events[i]);
      assert q < p ==> EventLeq(w, v);
      assert j < q ==> EventLeq(events[j], w);
    }
    assert EventLeq(events[i], events[j]);
  }

  lemma LinesGivePositions(stores: seq<Event>, events: seq<Event>, x: Event, y: Event) returns (i: int, j: int)
    requires Sorted(events, EventLeq) && forall e :: e in events <==> e in stores
    requires BelongsByLine(stores, x, y)
    ensures Belongs(events, i, j) && events[i] == x && events[j] == y
  {
    i :| 0 <= i < |events| && events[i] == x;
    j :| 0 <= j < |events| && events[j] == y;
    assert j < i ==> EventLeq(y, x);
    forall p, q | i < p < q < j ensures !(events[p].kind == Version && events[q].kind == Field) {
      assert events[p] in stores && events[q] in stores;
      assert EventLeq(x, events[p]) && EventLeq(events[p], events[q]) && EventLeq(events[q], y);
    }
  }
}
