/** The worklist at the end of channel_roster.build_reachability: which entry-point modules lead to
    which functions over the static call graph. */
module CallReachability {

  type CallGraph = map<string, set<string>>

  function Callees(calls: CallGraph, f: string): set<string> {
    if f in calls then calls[f] else {}
  }

  ghost predicate IsPath(calls: CallGraph, p: seq<string>) {
    p != [] && forall i :: 0 <= i < |p| - 1 ==> p[i + 1] in Callees(calls, p[i])
  }

  ghost predicate Reaches(calls: CallGraph, from: string, to: string) {
    exists p :: IsPath(calls, p) && p[0] == from && p[|p| - 1] == to
  }

  /** `m in entrypoints.get(f, ())` */
  predicate Listed(entrypoints: map<string, set<string>>, f: string, m: string) {
    f in entrypoints && m in entrypoints[f]
  }

  ghost predicate Distinct(s: seq<string>) {
    forall i, j :: 0 <= i < j < |s| ==> s[i] != s[j]
  }

  method EntrypointsByFunction(calls: CallGraph, entryOwner: map<string, string>) returns (entrypoints: map<string, set<string>>)
    ensures forall f, m :: Listed(entrypoints, f, m)
              <==> exists entry :: entry in entryOwner && entryOwner[entry] == m && Reaches(calls, entry, f)
    ensures forall f :: f in entrypoints ==> entrypoints[f] != {}
  {
    entrypoints := map[];
    var todo := entryOwner.Keys;
    while todo != {}
      invariant todo <= entryOwner.Keys
      invariant forall f, m :: Listed(entrypoints, f, m)
                  <==> exists entry :: entry in entryOwner.Keys - todo && entryOwner[entry] == m && Reaches(calls, entry, f)
      invariant forall f :: f in entrypoints ==> entrypoints[f] != {}
    {
      var entry :| entry in todo;
      entrypoints := Mark(calls, entry, entryOwner[entry], entrypoints);
      todo := todo - {entry};
    }
  }

  /** One entry point: adds `owner` to everything `entry` reaches and nothing else. */
  method Mark(calls: CallGraph, entry: string, owner: string, before: map<string, set<string>>)
    returns (entrypoints: map<string, set<string>>)
    requires forall f :: f in before ==> before[f] != {}
    ensures forall f, m :: Listed(entrypoints, f, m) <==> Listed(before, f, m) || (m == owner && Reaches(calls, entry, f))
    ensures forall f :: f in entrypoints ==> entrypoints[f] != {}
  {
    entrypoints := before;
    var stack, seen := [entry], {entry};
    ghost var universe := {entry} + set f, c | f in calls && c in calls[f] :: c;
    ReachesItself(calls, entry);
    while stack != []
      invariant entry in seen && seen <= universe && Distinct(stack)
      invariant forall f :: f in stack ==> f in seen
      invariant forall f :: f in seen ==> Reaches(calls, entry, f)
      invariant forall f :: f in seen && f !in stack ==> Callees(calls, f) <= seen
      invariant forall f, m :: Listed(entrypoints, f, m) <==> Listed(before, f, m) || (m == owner && f in seen && f !in stack)
      invariant forall f :: f in entrypoints ==> entrypoints[f] != {}
      decreases universe - seen, |stack|
    {
      var current := stack[|stack| - 1];
      assert stack == stack[..|stack| - 1] + [current];
      stack := stack[..|stack| - 1];
      assert current !in stack;
      ghost var listedBefore, seenBefore, stackBefore := entrypoints, seen, stack;
      var owners := if current in entrypoints then entrypoints[current] else {};
      entrypoints := entrypoints[current := owners + {owner}];
      forall callee | callee in Callees(calls, current) ensures Reaches(calls, entry, callee) {
        ReachesNext(calls, entry, current, callee);
      }
      seen, stack := PushUnseen(Callees(calls, current), seen, stack);
      forall f ensures f in seen && f !in stack <==> (f in seenBefore && f !in stackBefore + [current]) || f == current {}
      forall f, m ensures Listed(entrypoints, f, m) <==> Listed(listedBefore, f, m) || (f == current && m == owner) {}
    }
    forall f ensures f in seen <==> Reaches(calls, entry, f) {
      if Reaches(calls, entry, f) {
        var p :| IsPath(calls, p) && p[0] == entry && p[|p| - 1] == f;
        ClosedUnderCalls(calls, seen, p);
      }
    }
  }

  /** The inner `for callee in ...` loop. */
  method PushUnseen(callees: set<string>, seen0: set<string>, stack0: seq<string>) returns (seen: set<string>, stack: seq<string>)
    requires Distinct(stack0) && forall f :: f in stack0 ==> f in seen0
    ensures seen == seen0 + callees && Distinct(stack)
    ensures forall f :: f in stack <==> f in stack0 || f in callees - seen0
    ensures callees <= seen0 ==> stack == stack0
  {
    seen, stack := seen0, stack0;
    var rest := callees;
    while rest != {}
      invariant rest <= callees && seen == seen0 + (callees - rest) && Distinct(stack)
      invariant forall f :: f in stack <==> f in stack0 || f in callees - rest - seen0
      invariant callees <= seen0 ==> stack == stack0
    {
      var callee :| callee in rest;
      if callee !in seen {
        seen := seen + {callee};
        stack := stack + [callee];
      }
      rest := rest - {callee};
    }
  }

  lemma ReachesItself(calls: CallGraph, f: string)
    ensures Reaches(calls, f, f)
  {
    assert IsPath(calls, [f]);
  }

  lemma ReachesNext(calls: CallGraph, from: string, f: string, callee: string)
    requires Reaches(calls, from, f) && callee in Callees(calls, f)
    ensures Reaches(calls, from, callee)
  {
    var p :| IsPath(calls, p) && p[0] == from && p[|p| - 1] == f;
    assert IsPath(calls, p + [callee]);
  }

  lemma {:induction false} ClosedUnderCalls(calls: CallGraph, seen: set<string>, p: seq<string>)
    requires IsPath(calls, p) && p[0] in seen && forall f :: f in seen ==> Callees(calls, f) <= seen
    ensures p[|p| - 1] in seen
    decreases |p|
  {
    if |p| > 1 {
      assert p[1] in Callees(calls, p[0]);
      ClosedUnderCalls(calls, seen, p[1..]);
    }
  }
}
