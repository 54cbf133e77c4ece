/** channel_roster._enclosing_functions: the walk that attributes every node inside a def to a def, the
    outermost one around it, though the source's own description says that a nested def is attributed to
    itself. */
module EnclosingFunctions {
  // Its `setdefault` has been filled by the outer def first, and that is what is modelled.

  import opened Wrappers

  datatype Kind = Def(name: string) | Class(name: string) | Other
  datatype Node = Node(id: nat, kind: Kind, children: seq<Node>)

  /** A function's qualified name and the id of its node. */
  datatype Function = Function(qual: string, id: nat)

  function Qualified(prefix: string, name: string): string {
    if prefix == "" then name else prefix + "." + name
  }

  /** The ids `ast.walk(node)` visits. */
  function Ids(node: Node): seq<nat>
    decreases node, 1
  {
    [node.id] + AllIds(node.children)
  }

  function AllIds(nodes: seq<Node>): seq<nat>
    decreases nodes, 0
  {
    if nodes == [] then [] else Ids(nodes[0]) + AllIds(nodes[1..])
  }

  /** `out.setdefault(id, f)` for each id. */
  function SetDefaults(out: map<nat, Function>, ids: seq<nat>, f: Function): map<nat, Function>
    decreases |ids|
  {
    if ids == [] then out
    else SetDefaults(if ids[0] in out then out else out[ids[0] := f], ids[1..], f)
  }

  /** The defs under `nodes` that have no def above them, in document order. */
  function OutermostDefs(nodes: seq<Node>, prefix: string): seq<(string, Node)>
    decreases nodes
  {
    if nodes == [] then []
    else
      (match nodes[0].kind
       case Def(name) => [(Qualified(prefix, name), nodes[0])]
       case Class(name) => OutermostDefs(nodes[0].children, Qualified(prefix, name))
       case Other => OutermostDefs(nodes[0].children, prefix))
      + OutermostDefs(nodes[1..], prefix)
  }

  /** Each def in turn claims what is not claimed yet. */
  function Claims(out: map<nat, Function>, defs: seq<(string, Node)>): map<nat, Function>
    decreases |defs|
  {
    if defs == [] then out
    else Claims(SetDefaults(out, Ids(defs[0].1), Function(defs[0].0, defs[0].1.id)), defs[1..])
  }

  class EnclosingMap {
    var out: map<nat, Function>

    constructor (root: Node)
      ensures out == Claims(map[], OutermostDefs(root.children, ""))
    {
      out := map[];
      new;
      VisitChildren(root.children, "");
    }

    /** The body of the nested `visit`: the loop over one node's children. */
    method VisitChildren(children: seq<Node>, prefix: string)
      modifies this
      ensures out == Claims(old(out), OutermostDefs(children, prefix))
      decreases children, 1
    {
      for i := 0 to |children|
        invariant Claims(old(out), OutermostDefs(children, prefix)) == Claims(out, OutermostDefs(children[i..], prefix))
      {
        var child := children[i];
        ghost var rest := OutermostDefs(children[i + 1..], prefix);
        assert children[i..][1..] == children[i + 1..];
        ghost var before := out;
        if child.kind.Other? {
          VisitChildren(child.children, prefix);
          ClaimsAppend(before, OutermostDefs(child.children, prefix), rest);
        } else {
          var qual := Qualified(prefix, child.kind.name);
          if child.kind.Def? {
            SetDefaultsEach(Ids(child), Function(qual, child.id));
            SetDefaultsExact(before, Ids(child), Function(qual, child.id));
            ClaimsAppend(before, [(qual, child)], rest);
            NestedDefsClaimNothing(out, child, qual);
          } else {
            ClaimsAppend(before, OutermostDefs(child.children, qual), rest);
          }
          VisitChildren(child.children, qual);
        }
      }
    }

    method SetDefaultsEach(ids: seq<nat>, f: Function)
      modifies this
      ensures out == SetDefaults(old(out), ids, f)
    {
      for i := 0 to |ids|
        invariant SetDefaults(old(out), ids, f) == SetDefaults(out, ids[i..], f)
      {
        assert ids[i..][1..] == ids[i + 1..];
        if ids[i] !in out {
          out := out[ids[i] := f];
        }
      }
    }
  }

  lemma {:induction false} ClaimsAppend(out: map<nat, Function>, a: seq<(string, Node)>, b: seq<(string, Node)>)
    ensures Claims(out, a + b) == Claims(Claims(out, a), b)
    decreases |a|
  {
    if a == [] {
      assert a + b == b;
    } else {
      assert (a + b)[1..] == a[1..] + b;
      ClaimsAppend(SetDefaults(out, Ids(a[0].1), Function(a[0].0, a[0].1.id)), a[1..], b);
    }
  }

  lemma {:induction false} SetDefaultsExact(out: map<nat, Function>, ids: seq<nat>, f: Function)
    ensures forall n :: n in SetDefaults(out, ids, f) <==> n in out || n in ids
    ensures forall n :: n in SetDefaults(out, ids, f) ==> SetDefaults(out, ids, f)[n] == if n in out then out[n] else f
    decreases |ids|
  {
    if ids != [] {
      SetDefaultsExact(if ids[0] in out then out else out[ids[0] := f], ids[1..], f);
      assert ids == [ids[0]] + ids[1..];
    }
  }

  lemma {:induction false} ClaimsNothing(out: map<nat, Function>, defs: seq<(string, Node)>)
    requires forall d, n :: d in defs && n in Ids(d.1) ==> n in out
    ensures Claims(out, defs) == out
    decreases |defs|
  {
    if defs != [] {
      var f := Function(defs[0].0, defs[0].1.id);
      SetDefaultsExact(out, Ids(defs[0].1), f);
      assert defs[0] in defs;
      assert SetDefaults(out, Ids(defs[0].1), f) == out;
      ClaimsNothing(out, defs[1..]);
    }
  }

  lemma {:induction false} DefsInside(nodes: seq<Node>, prefix: string)
    ensures forall d, n :: d in OutermostDefs(nodes, prefix) && n in Ids(d.1) ==> n in AllIds(nodes)
    decreases nodes
  {
    if nodes != [] {
      DefsInside(nodes[1..], prefix);
      assert AllIds(nodes) == [nodes[0].id] + AllIds(nodes[0].children) + AllIds(nodes[1..]);
      match nodes[0].kind {
        case Def(name) =>
        case Class(name) => DefsInside(nodes[0].children, Qualified(prefix, name));
        case Other => DefsInside(nodes[0].children, prefix);
      }
    }
  }

  /** Why a nested def never gets its own entry: the def around it has claimed everything below it. */
  lemma NestedDefsClaimNothing(out: map<nat, Function>, node: Node, prefix: string)
    requires forall n :: n in Ids(node) ==> n in out
    ensures Claims(out, OutermostDefs(node.children, prefix)) == out
  {
    DefsInside(node.children, prefix);
    assert forall n :: n in AllIds(node.children) ==> n in Ids(node);
    ClaimsNothing(out, OutermostDefs(node.children, prefix));
  }

  // ----- the map, node by node -----

  /** Child positions leading from a list of nodes to one node below them. */
  predicate PathIn(nodes: seq<Node>, p: seq<nat>) {
    p != [] && p[0] < |nodes| && (|p| == 1 || PathIn(nodes[p[0]].children, p[1..]))
  }

  function Target(nodes: seq<Node>, p: seq<nat>): Node
    requires PathIn(nodes, p)
  {
    if |p| == 1 then nodes[p[0]] else Target(nodes[p[0]].children, p[1..])
  }

  /** The first def met on the way down, named after the classes passed before it. */
  function Owner(nodes: seq<Node>, p: seq<nat>, prefix: string): Option<Function>
    requires PathIn(nodes, p)
  {
    var node := nodes[p[0]];
    match node.kind
    case Def(name) => Some(Function(Qualified(prefix, name), node.id))
    case Class(name) => if |p| == 1 then None else Owner(node.children, p[1..], Qualified(prefix, name))
    case Other => if |p| == 1 then None else Owner(node.children, p[1..], prefix)
  }

  predicate Occurs(nodes: seq<Node>, p: seq<nat>, n: nat) { PathIn(nodes, p) && Target(nodes, p).id == n }

  /** The node object has one place in the tree, as all have but the few that the parser shares. */
  ghost predicate OccursOnce(nodes: seq<Node>, n: nat) {
    forall p, q :: Occurs(nodes, p, n) && Occurs(nodes, q, n) ==> p == q
  }

  lemma {:induction false} IdHasPath(nodes: seq<Node>, id: nat) returns (p: seq<nat>)
    requires id in AllIds(nodes)
    ensures PathIn(nodes, p) && Target(nodes, p).id == id
    decreases nodes
  {
    if id == nodes[0].id {
      p := [0];
    } else if id in AllIds(nodes[0].children) {
      var q := IdHasPath(nodes[0].children, id);
      p := [0] + q;
      assert p[1..] == q;
    } else {
      var q := IdHasPath(nodes[1..], id);
      p := [q[0] + 1] + q[1..];
      assert p[1..] == q[1..];
    }
  }

  lemma {:induction false} PathHasId(nodes: seq<Node>, p: seq<nat>)
    requires PathIn(nodes, p)
    ensures Target(nodes, p).id in AllIds(nodes)
    decreases nodes, |nodes|
  {
    if p[0] == 0 {
      if |p| > 1 {
        PathHasId(nodes[0].children, p[1..]);
      }
    } else {
      var q := [p[0] - 1] + p[1..];
      assert q[1..] == p[1..] && nodes[1..][p[0] - 1] == nodes[p[0]];
      PathHasId(nodes[1..], q);
      assert Target(nodes, p) == Target(nodes[1..], q);
    }
  }

  /** Every node below an outermost def has that def as its owner. */
  lemma {:induction false} ClaimedHasOwner(nodes: seq<Node>, prefix: string, d: (string, Node), id: nat) returns (p: seq<nat>)
    requires d in OutermostDefs(nodes, prefix) && id in Ids(d.1)
    ensures PathIn(nodes, p) && Target(nodes, p).id == id && Owner(nodes, p, prefix) == Some(Function(d.0, d.1.id))
    decreases nodes
  {
    var first := nodes[0];
    if d in OutermostDefs(nodes[1..], prefix) {
      var q := ClaimedHasOwner(nodes[1..], prefix, d, id);
      p := [q[0] + 1] + q[1..];
      assert p[1..] == q[1..];
    } else {
      match first.kind {
        case Def(name) =>
          if id == first.id {
            p := [0];
          } else {
            var q := IdHasPath(first.children, id);
            p := [0] + q;
            assert p[1..] == q;
          }
        case Class(name) =>
          var q := ClaimedHasOwner(first.children, Qualified(prefix, name), d, id);
          p := [0] + q;
          assert p[1..] == q;
        case Other =>
          var q := ClaimedHasOwner(first.children, prefix, d, id);
          p := [0] + q;
          assert p[1..] == q;
      }
    }
  }

  /** And every node with an owner is below that outermost def. */
  lemma {:induction false} OwnedIsClaimed(nodes: seq<Node>, prefix: string, p: seq<nat>) returns (d: (string, Node))
    requires PathIn(nodes, p) && Owner(nodes, p, prefix).Some?
    ensures d in OutermostDefs(nodes, prefix) && Target(nodes, p).id in Ids(d.1)
    decreases nodes
  {
    var first := nodes[0];
    if p[0] > 0 {
      var q := [p[0] - 1] + p[1..];
      assert q[1..] == p[1..] && nodes[1..][p[0] - 1] == nodes[p[0]];
      d := OwnedIsClaimed(nodes[1..], prefix, q);
      assert Target(nodes, p) == Target(nodes[1..], q);
    } else {
      match first.kind {
        case Def(name) =>
          d := (Qualified(prefix, name), first);
          if |p| > 1 {
            PathHasId(first.children, p[1..]);
          }
        case Class(name) =>
          d := OwnedIsClaimed(first.children, Qualified(prefix, name), p[1..]);
        case Other =>
          d := OwnedIsClaimed(first.children, prefix, p[1..]);
      }
    }
  }

  lemma {:induction false} ClaimsExact(out: map<nat, Function>, defs: seq<(string, Node)>, n: nat)
    ensures n in Claims(out, defs) <==> n in out || exists d :: d in defs && n in Ids(d.1)
    ensures n in Claims(out, defs) && n !in out ==>
              exists d :: d in defs && n in Ids(d.1) && Claims(out, defs)[n] == Function(d.0, d.1.id)
    ensures n in out ==> Claims(out, defs)[n] == out[n]
    decreases |defs|
  {
    if defs != [] {
      var f := Function(defs[0].0, defs[0].1.id);
      var next := SetDefaults(out, Ids(defs[0].1), f);
      SetDefaultsExact(out, Ids(defs[0].1), f);
      ClaimsExact(next, defs[1..], n);
      assert defs == [defs[0]] + defs[1..];
      assert n in next && n !in out ==> defs[0] in defs && n in Ids(defs[0].1) && Claims(out, defs)[n] == f;
    }
  }

  /** Of several defs that hold a shared node, the first in document order has it. */
  lemma {:induction false} FirstClaimWins(out: map<nat, Function>, defs: seq<(string, Node)>, n: nat) returns (i: nat)
    requires n !in out && n in Claims(out, defs)
    ensures i < |defs| && n in Ids(defs[i].1) && Claims(out, defs)[n] == Function(defs[i].0, defs[i].1.id)
    ensures forall j :: 0 <= j < i ==> n !in Ids(defs[j].1)
    decreases |defs|
  {
    var f := Function(defs[0].0, defs[0].1.id);
    var next := SetDefaults(out, Ids(defs[0].1), f);
    SetDefaultsExact(out, Ids(defs[0].1), f);
    ClaimsExact(next, defs[1..], n);
    if n in next {
      i := 0;
    } else {
      var k := FirstClaimWins(next, defs[1..], n);
      i := k + 1;
    }
  }

  /** The map a tree produces, for nodes in one place and in several: a node is in it exactly when a def
      lies on some way down to it (itself included), and then under the first def of one of those ways,
      whose name lists the classes above it. */
  lemma EnclosingIsOutermost(root: Node, n: nat)
    ensures var out := Claims(map[], OutermostDefs(root.children, ""));
            && (n in out <==> exists p :: Occurs(root.children, p, n) && Owner(root.children, p, "").Some?)
            && (n in out ==> exists p :: Occurs(root.children, p, n) && Owner(root.children, p, "") == Some(out[n]))
  {
    var nodes := root.children;
    var defs := OutermostDefs(nodes, "");
    var out := Claims(map[], defs);
    ClaimsExact(map[], defs, n);
    if n in out {
      var d :| d in defs && n in Ids(d.1) && out[n] == Function(d.0, d.1.id);
      var p := ClaimedHasOwner(nodes, "", d, n);
      assert Occurs(nodes, p, n);
    }
    forall p | Occurs(nodes, p, n) && Owner(nodes, p, "").Some? ensures n in out {
      var d := OwnedIsClaimed(nodes, "", p);
    }
  }

  /** So a node with one place belongs to the outermost def around that place, or to none. */
  lemma EnclosingOfOnePlace(root: Node, p: seq<nat>, n: nat)
    requires Occurs(root.children, p, n) && OccursOnce(root.children, n)
    ensures var out := Claims(map[], OutermostDefs(root.children, ""));
            Owner(root.children, p, "") == if n in out then Some(out[n]) else None
  {
    EnclosingIsOutermost(root, n);
    var out := Claims(map[], OutermostDefs(root.children, ""));
    if n in out {
      var q :| Occurs(root.children, q, n) && Owner(root.children, q, "") == Some(out[n]);
    }
  }

  // ----- the name of an owner -----

  /** The nodes passed on the way down, the target last. */
  function Line(nodes: seq<Node>, p: seq<nat>): (line: seq<Node>)
    requires PathIn(nodes, p)
    ensures |line| == |p|
  {
    [nodes[p[0]]] + if |p| == 1 then [] else Line(nodes[p[0]].children, p[1..])
  }

  function ClassNames(line: seq<Node>): seq<string> {
    if line == [] then [] else (if line[0].kind.Class? then [line[0].kind.name] else []) + ClassNames(line[1..])
  }

  /** `".".join(names)` */
  function Dotted(names: seq<string>): string {
    if names == [] then "" else if |names| == 1 then names[0] else names[0] + "." + Dotted(names[1..])
  }

  /** The first def on the line is at `k`. */
  predicate FirstDef(line: seq<Node>, k: nat) {
    k < |line| && line[k].kind.Def? && forall j :: 0 <= j < k ==> !line[j].kind.Def?
  }

  ghost predicate HasDef(line: seq<Node>) { exists k: nat :: FirstDef(line, k) }

  predicate Named(line: seq<Node>) { forall n :: n in line && n.kind.Class? ==> n.kind.name != "" }

  function DefAt(line: seq<Node>, k: nat, prefix: string): Function
    requires FirstDef(line, k)
  {
    Function(Qualified(prefix, Dotted(ClassNames(line[..k]) + [line[k].kind.name])), line[k].id)
  }

  lemma FirstDefBelow(line: seq<Node>, k: nat)
    requires line != [] && !line[0].kind.Def?
    ensures FirstDef(line, k) <==> k > 0 && FirstDef(line[1..], k - 1)
  {
    if k > 0 && FirstDef(line[1..], k - 1) {
      forall j | 0 <= j < k ensures !line[j].kind.Def? {
        if j > 0 { assert line[j] == line[1..][j - 1]; }
      }
    }
  }

  lemma PrefixedName(line: seq<Node>, k: nat, prefix: string)
    requires line != [] && !line[0].kind.Def? && FirstDef(line, k) && k > 0 && Named(line)
    ensures FirstDef(line[1..], k - 1)
    ensures DefAt(line, k, prefix)
            == DefAt(line[1..], k - 1, if line[0].kind.Class? then Qualified(prefix, line[0].kind.name) else prefix)
  {
    FirstDefBelow(line, k);
    var above, name := ClassNames(line[1..][..k - 1]), line[k].kind.name;
    assert line[..k][1..] == line[1..][..k - 1] && line[..k][0] == line[0];
    if line[0].kind.Class? {
      var c := line[0].kind.name;
      assert ([c] + above) + [name] == [c] + (above + [name]);
      assert ([c] + (above + [name]))[1..] == above + [name];
      assert Dotted([c] + (above + [name])) == c + "." + Dotted(above + [name]);
      Regrouped(prefix, c, Dotted(above + [name]));
    } else {
      assert [] + above == above;
    }
  }

  lemma Regrouped(prefix: string, c: string, rest: string)
    requires c != ""
    ensures Qualified(Qualified(prefix, c), rest) == Qualified(prefix, c + "." + rest)
  {
    assert (prefix + "." + c) + "." + rest == prefix + "." + (c + "." + rest);
  }

  lemma TopDef(line: seq<Node>, k: nat, prefix: string)
    requires FirstDef(line, k) && line[0].kind.Def?
    ensures DefAt(line, k, prefix) == Function(Qualified(prefix, line[0].kind.name), line[0].id)
  {
    assert k == 0 && line[..k] == [] && [] + [line[0].kind.name] == [line[0].kind.name];
  }

  lemma {:induction false} OwnerFrom(nodes: seq<Node>, p: seq<nat>, prefix: string)
    requires PathIn(nodes, p) && Named(Line(nodes, p))
    ensures Owner(nodes, p, prefix).Some? <==> HasDef(Line(nodes, p))
    ensures forall k: nat :: FirstDef(Line(nodes, p), k) ==> Owner(nodes, p, prefix) == Some(DefAt(Line(nodes, p), k, prefix))
    decreases |p|
  {
    var line, node := Line(nodes, p), nodes[p[0]];
    if node.kind.Def? {
      assert FirstDef(line, 0);
      forall k: nat | FirstDef(line, k) ensures Owner(nodes, p, prefix) == Some(DefAt(line, k, prefix)) {
        TopDef(line, k, prefix);
      }
    } else if |p| > 1 {
      var down := if node.kind.Class? then Qualified(prefix, node.kind.name) else prefix;
      assert line[1..] == Line(node.children, p[1..]);
      OwnerFrom(node.children, p[1..], down);
      if j: nat :| FirstDef(line[1..], j) {
        FirstDefBelow(line, j + 1);
      }
      forall k: nat | FirstDef(line, k) ensures Owner(nodes, p, prefix) == Some(DefAt(line, k, prefix)) {
        FirstDefBelow(line, k);
        PrefixedName(line, k, prefix);
      }
    }
  }

  /** The owner of a place is the first def on the way down to it, under the names of the classes passed
      before it and its own, joined by dots. */
  lemma OwnerExact(nodes: seq<Node>, p: seq<nat>, f: Function)
    requires PathIn(nodes, p) && Named(Line(nodes, p))
    ensures var line := Line(nodes, p);
            Owner(nodes, p, "") == Some(f)
            <==> exists k: nat :: FirstDef(line, k) && f == Function(Dotted(ClassNames(line[..k]) + [line[k].kind.name]), line[k].id)
  {
    OwnerFrom(nodes, p, "");
  }

  /** The line holds the node reached after one step, after two, and so on. */
  lemma {:induction false} LineExact(nodes: seq<Node>, p: seq<nat>, k: nat)
    requires PathIn(nodes, p) && k < |p|
    ensures PathIn(nodes, p[..k + 1]) && Line(nodes, p)[k] == Target(nodes, p[..k + 1])
    decreases |p|
  {
    if k > 0 {
      assert p[..k + 1][1..] == p[1..][..k];
      LineExact(nodes[p[0]].children, p[1..], k - 1);
    }
  }

  /** Against the source's own description: the body of a def nested in a def is attributed to the
      outer one, whatever their names. */
  lemma NestedDefGoesToOuter(outer: string, inner: string, module0: nat, a: nat, b: nat, c: nat)
    requires a != b && b != c && a != c
    ensures var tree := Node(module0, Other, [Node(a, Def(outer), [Node(b, Def(inner), [Node(c, Other, [])])])]);
            var out := Claims(map[], OutermostDefs(tree.children, ""));
            b in out && c in out && out[b] == out[c] == Function(outer, a)
  {
    var leaf := Node(c, Other, []);
    var nested := Node(b, Def(inner), [leaf]);
    var top := Node(a, Def(outer), [nested]);
    assert AllIds([]) == [];
    assert Ids(leaf) == [c] && AllIds([leaf]) == [c];
    assert Ids(nested) == [b, c] && AllIds([nested]) == [b, c];
    assert Ids(top) == [a, b, c];
    assert [top][1..] == [] && OutermostDefs([], "") == [];
    assert OutermostDefs([top], "") == [(outer, top)];
    var defs := [(outer, top)];
    assert defs[1..] == [];
    SetDefaultsExact(map[], Ids(top), Function(outer, a));
    assert Claims(map[], defs) == SetDefaults(map[], Ids(top), Function(outer, a));
  }
}
