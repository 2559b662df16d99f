/** Writing the concept tree of an article as an outline (internal/exporting/renderer.go). */
module ConceptMap {
  import opened Text
  import opened Wrappers

  datatype Node = Node(id: string, parentId: Option<string>, caption: string, sectionId: Option<string>)
  datatype Tree = Tree(rootId: string, nodes: seq<Node>)

  /** One line of the outline; `target` is the number of the linked chapter. */
  datatype Line = Line(id: string, depth: nat, caption: string, target: Option<nat>)

  datatype Outcome = Written(seen: set<string>, out: seq<Line>) | Cycle | MissingTarget
  datatype Export = Outline(lines: seq<Line>) | WrongSize | MissingId | DuplicateId | InvalidRoot | CycleFound | TargetMissing | Disconnected

  const MAX_NODES := 256

  function NodeIds(nodes: seq<Node>, n: nat): set<string>
    requires n <= |nodes|
  {
    if n == 0 then {} else NodeIds(nodes, n - 1) + {nodes[n - 1].id}
  }

  function Ids(t: Tree): set<string> {
    NodeIds(t.nodes, |t.nodes|)
  }

  lemma {:induction false} NodeIdsAre(nodes: seq<Node>, n: nat, id: string)
    requires n <= |nodes|
    ensures id in NodeIds(nodes, n) <==> exists k :: 0 <= k < n && nodes[k].id == id
  {
    if n > 0 {
      NodeIdsAre(nodes, n - 1, id);
    }
  }

  /** The node with an identity. */
  function Lookup(nodes: seq<Node>, id: string): (r: Option<Node>)
    ensures r.Some? ==> r.value in nodes && r.value.id == id
    ensures r.None? ==> forall node | node in nodes :: node.id != id
  {
    if nodes == [] then None
    else if nodes[|nodes| - 1].id == id then Some(nodes[|nodes| - 1])
    else Lookup(nodes[..|nodes| - 1], id)
  }

  /** The nodes under a parent, in their order. */
  function Children(nodes: seq<Node>, parent: string, n: nat): (ids: seq<string>)
    requires n <= |nodes|
    ensures forall k | 0 <= k < |ids| :: ids[k] in NodeIds(nodes, n)
  {
    if n == 0 then []
    else if nodes[n - 1].parentId == Some(parent) then Children(nodes, parent, n - 1) + [nodes[n - 1].id]
    else Children(nodes, parent, n - 1)
  }

  function ChildIds(t: Tree, parent: string): (ids: seq<string>)
    ensures forall k | 0 <= k < |ids| :: ids[k] in Ids(t)
  {
    Children(t.nodes, parent, |t.nodes|)
  }

  /** The number of the last section with an identity. */
  function Target(sections: seq<string>, id: string, n: nat): Option<nat>
    requires n <= |sections|
  {
    if n == 0 then None else if sections[n - 1] == id then Some(n) else Target(sections, id, n - 1)
  }

  /** A node of the tree links to no section or to one of the article. */
  predicate Linked(sections: seq<string>, node: Node) {
    node.sectionId.None? || Target(sections, node.sectionId.value, |sections|).Some?
  }

  function LineOf(sections: seq<string>, node: Node, depth: nat): Line {
    Line(node.id, depth, Normalize(node.caption),
         if node.sectionId.None? then None else Target(sections, node.sectionId.value, |sections|))
  }

  lemma HasNode(t: Tree, id: string)
    requires id in Ids(t)
    ensures Lookup(t.nodes, id).Some?
  {
    NodeIdsAre(t.nodes, |t.nodes|, id);
  }

  // ----- the walk

  function Visit(t: Tree, sections: seq<string>, seen: set<string>, out: seq<Line>, id: string, depth: nat): (r: Outcome)
    requires id in Ids(t)
    ensures r.Written? ==> seen <= r.seen
    decreases |Ids(t) - seen|, 0
  {
    if id in seen then Cycle
    else
      HasNode(t, id);
      var node := Lookup(t.nodes, id).value;
      if !Linked(sections, node) then MissingTarget
      else
        assert Ids(t) - seen == (Ids(t) - (seen + {id})) + {id};
        VisitChildren(t, sections, seen + {id}, out + [LineOf(sections, node, depth)], ChildIds(t, id), 0, depth + 1)
  }

  function VisitChildren(t: Tree, sections: seq<string>, seen: set<string>, out: seq<Line>, ids: seq<string>, k: nat, depth: nat): (r: Outcome)
    requires k <= |ids| && forall k | 0 <= k < |ids| :: ids[k] in Ids(t)
    ensures r.Written? ==> seen <= r.seen
    decreases |Ids(t) - seen|, |ids| - k + 1
  {
    if k == |ids| then Written(seen, out)
    else
      var first := Visit(t, sections, seen, out, ids[k], depth);
      if !first.Written? then first
      else
        SeenGrows(Ids(t), seen, first.seen);
        VisitChildren(t, sections, first.seen, first.out, ids, k + 1, depth)
  }

  lemma SeenGrows(all: set<string>, seen: set<string>, seen': set<string>)
    requires seen <= seen'
    ensures |all - seen'| <= |all - seen|
  {
    var less, more := all - seen', all - seen;
    assert more == less + (more - less);
    assert |more| == |less| + |more - less|;
  }

  ghost predicate Distinct(nodes: seq<Node>) {
    forall i, j | 0 <= i < j < |nodes| :: nodes[i].id != nodes[j].id
  }

  /** The first node that cannot be registered. */
  function Register(nodes: seq<Node>, n: nat): Option<Export>
    requires n <= |nodes|
  {
    if n == 0 then None
    else
      var front := Register(nodes, n - 1);
      if front.Some? then front
      else if nodes[n - 1].id == "" then Some(MissingId)
      else if nodes[n - 1].id in NodeIds(nodes, n - 1) then Some(DuplicateId)
      else None
  }

  /** `writeConceptMap`. */
  function Write(t: Tree, sections: seq<string>): Export {
    if t.nodes == [] || |t.nodes| > MAX_NODES then WrongSize
    else if Register(t.nodes, |t.nodes|).Some? then Register(t.nodes, |t.nodes|).value
    else
      var root := Lookup(t.nodes, t.rootId);
      if root.None? || root.value.parentId.Some? then InvalidRoot
      else
        RootIsNode(t);
        match Visit(t, sections, {}, [], t.rootId, 0)
        case Cycle => CycleFound
        case MissingTarget => TargetMissing
        case Written(seen, out) => if |seen| != |Ids(t)| then Disconnected else Outline(out)
  }

  lemma RootIsNode(t: Tree)
    requires Lookup(t.nodes, t.rootId).Some?
    ensures t.rootId in Ids(t)
  {
    var k :| 0 <= k < |t.nodes| && t.nodes[k] == Lookup(t.nodes, t.rootId).value;
    NodeIdsAre(t.nodes, |t.nodes|, t.rootId);
  }

  // ----- the walk as it is performed

  method Walk(t: Tree, sections: seq<string>, seen: set<string>, out: seq<Line>, id: string, depth: nat) returns (r: Outcome)
    requires id in Ids(t)
    ensures r == Visit(t, sections, seen, out, id, depth)
    decreases |Ids(t) - seen|
  {
    hide Lookup, Target, Normalize, Ids, ChildIds, LineOf;
    if id in seen {
      return Cycle;
    }
    HasNode(t, id);
    var node := Lookup(t.nodes, id).value;
    if node.sectionId.Some? && Target(sections, node.sectionId.value, |sections|).None? {
      return MissingTarget;
    }
    assert Ids(t) - seen == (Ids(t) - (seen + {id})) + {id};
    var ids := ChildIds(t, id);
    var seen', out' := seen + {id}, out + [LineOf(sections, node, depth)];
    ghost var start := VisitChildren(t, sections, seen', out', ids, 0, depth + 1);
    var k := 0;
    while k < |ids|
      invariant 0 <= k <= |ids| && seen + {id} <= seen' && |Ids(t) - seen'| < |Ids(t) - seen|
      invariant start == VisitChildren(t, sections, seen', out', ids, k, depth + 1)
    {
      var child := Walk(t, sections, seen', out', ids[k], depth + 1);
      if !child.Written? {
        return child;
      }
      SeenGrows(Ids(t), seen', child.seen);
      seen', out' := child.seen, child.out;
      k := k + 1;
    }
    r := Written(seen', out');
  }

  lemma {:induction false} RegisterStops(nodes: seq<Node>, n: nat, end: nat)
    requires n <= end <= |nodes| && Register(nodes, n).Some?
    ensures Register(nodes, end) == Register(nodes, n)
  {
    if n < end {
      RegisterStops(nodes, n, end - 1);
    }
  }

  method WriteConceptMap(t: Tree, sections: seq<string>) returns (r: Export)
    ensures r == Write(t, sections)
  {
    hide Visit, VisitChildren;
    if t.nodes == [] || |t.nodes| > MAX_NODES {
      return WrongSize;
    }
    var ids: set<string> := {};
    var i := 0;
    while i < |t.nodes|
      invariant 0 <= i <= |t.nodes| && ids == NodeIds(t.nodes, i) && Register(t.nodes, i).None?
    {
      var node := t.nodes[i];
      if node.id == "" {
        RegisterStops(t.nodes, i + 1, |t.nodes|);
        return MissingId;
      }
      if node.id in ids {
        RegisterStops(t.nodes, i + 1, |t.nodes|);
        return DuplicateId;
      }
      ids := ids + {node.id};
      i := i + 1;
    }
    var root := Lookup(t.nodes, t.rootId);
    if root.None? || root.value.parentId.Some? {
      return InvalidRoot;
    }
    RootIsNode(t);
    var walked := Walk(t, sections, {}, [], t.rootId, 0);
    match walked {
      case Cycle => r := CycleFound;
      case MissingTarget => r := TargetMissing;
      case Written(seen, out) => r := if |seen| != |ids| then Disconnected else Outline(out);
    }
  }

  // ----- the tree

  function ParentOf(t: Tree, id: string): Option<string> {
    var node := Lookup(t.nodes, id);
    if node.None? then None else node.value.parentId
  }

  /** The ancestor `k` steps above. */
  function Up(t: Tree, id: string, k: nat): Option<string>
    decreases k
  {
    if k == 0 then Some(id)
    else
      var p := ParentOf(t, id);
      if p.None? then None else Up(t, p.value, k - 1)
  }

  /** The node hangs `depth` steps below the root. */
  predicate At(t: Tree, id: string, depth: nat) {
    id in Ids(t) && Up(t, id, depth) == Some(t.rootId)
  }

  /** The nodes with distinct identities, and a root without a parent. */
  ghost predicate Rooted(t: Tree) {
    Distinct(t.nodes) && t.rootId in Ids(t) && ParentOf(t, t.rootId).None?
  }

  ghost predicate Below(t: Tree, id: string, top: string) {
    id in Ids(t) && exists k: nat :: Up(t, id, k) == Some(top)
  }

  lemma {:induction false} UpAdds(t: Tree, id: string, j: nat, k: nat)
    requires Up(t, id, j).Some?
    ensures Up(t, id, j + k) == Up(t, Up(t, id, j).value, k)
    decreases j
  {
    hide ParentOf;
    if j > 0 {
      UpAdds(t, ParentOf(t, id).value, j - 1, k);
    }
  }

  lemma RootHasNoAncestor(t: Tree, k: nat)
    requires Rooted(t) && k > 0
    ensures Up(t, t.rootId, k).None?
  {
  }

  lemma NothingAboveRoot(t: Tree, id: string, j: nat, k: nat)
    requires Rooted(t) && Up(t, id, j) == Some(t.rootId) && j < k
    ensures Up(t, id, k).None?
  {
    hide Rooted, Up;
    UpAdds(t, id, j, k - j);
    RootHasNoAncestor(t, k - j);
  }

  /** There is one way up to the root. */
  lemma DepthIsUnique(t: Tree, id: string, j: nat, k: nat)
    requires Rooted(t) && Up(t, id, j) == Some(t.rootId) && Up(t, id, k) == Some(t.rootId)
    ensures j == k
  {
    hide Rooted, Up;
    if j < k {
      NothingAboveRoot(t, id, j, k);
    } else if k < j {
      NothingAboveRoot(t, id, k, j);
    }
  }

  /** Two ancestors at the same depth are one. */
  lemma SameAncestor(t: Tree, id: string, a: string, b: string, j: nat, k: nat, depth: nat)
    requires Rooted(t) && At(t, a, depth) && At(t, b, depth) && Up(t, id, j) == Some(a) && Up(t, id, k) == Some(b)
    ensures a == b
  {
    hide Rooted, Up;
    UpAdds(t, id, j, depth);
    UpAdds(t, id, k, depth);
    DepthIsUnique(t, id, j + depth, k + depth);
  }

  lemma {:induction false} LookupIs(nodes: seq<Node>, k: nat)
    requires k < |nodes| && Distinct(nodes)
    ensures Lookup(nodes, nodes[k].id) == Some(nodes[k])
  {
    if k < |nodes| - 1 {
      LookupIs(nodes[..|nodes| - 1], k);
    }
  }

  lemma {:induction false} ChildrenHave(nodes: seq<Node>, parent: string, n: nat, k: nat)
    requires k < n <= |nodes| && nodes[k].parentId == Some(parent)
    ensures nodes[k].id in Children(nodes, parent, n)
  {
    if k < n - 1 {
      ChildrenHave(nodes, parent, n - 1, k);
    }
  }

  lemma {:induction false} ChildrenFrom(nodes: seq<Node>, parent: string, n: nat, id: string)
    requires n <= |nodes| && id in Children(nodes, parent, n)
    ensures exists k :: 0 <= k < n && nodes[k].id == id && nodes[k].parentId == Some(parent)
  {
    if !(nodes[n - 1].id == id && nodes[n - 1].parentId == Some(parent)) {
      ChildrenFrom(nodes, parent, n - 1, id);
    }
  }

  /** The children of a node are the nodes that name it as their parent. */
  lemma ChildrenAre(t: Tree, parent: string, id: string)
    requires Distinct(t.nodes)
    ensures id in ChildIds(t, parent) <==> id in Ids(t) && ParentOf(t, id) == Some(parent)
  {
    hide Children, Lookup, Distinct;
    NodeIdsAre(t.nodes, |t.nodes|, id);
    if id in ChildIds(t, parent) {
      ChildrenFrom(t.nodes, parent, |t.nodes|, id);
      var k :| 0 <= k < |t.nodes| && t.nodes[k].id == id && t.nodes[k].parentId == Some(parent);
      LookupIs(t.nodes, k);
    }
    if id in Ids(t) && ParentOf(t, id) == Some(parent) {
      var k :| 0 <= k < |t.nodes| && t.nodes[k].id == id;
      LookupIs(t.nodes, k);
      ChildrenHave(t.nodes, parent, |t.nodes|, k);
    }
  }

  lemma {:induction false} NoEarlierChild(nodes: seq<Node>, parent: string, m: nat, n: nat)
    requires m <= n < |nodes| && Distinct(nodes)
    ensures nodes[n].id !in Children(nodes, parent, m)
  {
    if m > 0 {
      NoEarlierChild(nodes, parent, m - 1, n);
      assert nodes[m - 1].id != nodes[n].id;
    }
  }

  lemma {:induction false} ChildrenDistinct(nodes: seq<Node>, parent: string, n: nat)
    requires n <= |nodes| && Distinct(nodes)
    ensures var ids := Children(nodes, parent, n); forall i, j | 0 <= i < j < |ids| :: ids[i] != ids[j]
  {
    if n > 0 {
      ChildrenDistinct(nodes, parent, n - 1);
      NoEarlierChild(nodes, parent, n - 1, n - 1);
    }
  }

  // ----- what the walk writes

  /** The lines written so far: each node once, with its depth and its target, after its parent. */
  ghost predicate WellWritten(t: Tree, sections: seq<string>, seen: set<string>, out: seq<Line>) {
    && (forall i, j | 0 <= i < j < |out| :: out[i].id != out[j].id)
    && (forall id :: id in seen <==> exists k :: 0 <= k < |out| && out[k].id == id)
    && (forall k | 0 <= k < |out| :: LineFits(t, sections, out, k))
  }

  ghost predicate LineFits(t: Tree, sections: seq<string>, out: seq<Line>, k: nat)
    requires k < |out|
  {
    && At(t, out[k].id, out[k].depth)
    && Lookup(t.nodes, out[k].id).Some? && Linked(sections, Lookup(t.nodes, out[k].id).value)
    && out[k] == LineOf(sections, Lookup(t.nodes, out[k].id).value, out[k].depth)
    && (out[k].id == t.rootId || exists j :: 0 <= j < k && ParentOf(t, out[k].id) == Some(out[j].id))
  }

  lemma WriteOne(t: Tree, sections: seq<string>, seen: set<string>, out: seq<Line>, id: string, depth: nat)
    requires WellWritten(t, sections, seen, out) && id !in seen && At(t, id, depth) && Lookup(t.nodes, id).Some?
    requires Linked(sections, Lookup(t.nodes, id).value) && (id == t.rootId || (ParentOf(t, id).Some? && ParentOf(t, id).value in seen))
    ensures WellWritten(t, sections, seen + {id}, out + [LineOf(sections, Lookup(t.nodes, id).value, depth)])
  {
    hide At, Linked, ParentOf, Lookup, Normalize;
    var line := LineOf(sections, Lookup(t.nodes, id).value, depth);
    assert line.id == id && line.depth == depth by { LookupHasId(t.nodes, id); }
    var out' := out + [line];
    forall k | 0 <= k < |out'| ensures LineFits(t, sections, out', k) {
      if k < |out| {
        assert LineFits(t, sections, out, k);
        if out[k].id != t.rootId {
          var j :| 0 <= j < k && ParentOf(t, out[k].id) == Some(out[j].id);
          assert out'[j] == out[j];
        }
      } else if id != t.rootId {
        var j :| 0 <= j < |out| && out[j].id == ParentOf(t, id).value;
        assert out'[j] == out[j];
      }
    }
    forall x ensures x in seen + {id} <==> exists k :: 0 <= k < |out'| && out'[k].id == x {
      if x in seen {
        var k :| 0 <= k < |out| && out[k].id == x;
        assert out'[k].id == x;
      } else if x == id {
        assert out'[|out|].id == x;
      }
    }
  }

  lemma LookupHasId(nodes: seq<Node>, id: string)
    requires Lookup(nodes, id).Some?
    ensures Lookup(nodes, id).value.id == id
  {
  }

  /** A subtree of which nothing has been seen. */
  ghost predicate Unseen(t: Tree, seen: set<string>, top: string) {
    forall id | id in seen :: !Below(t, id, top)
  }

  /** Exactly the nodes below `top` are new. */
  ghost predicate AddsBelow(t: Tree, seen: set<string>, seen': set<string>, top: string) {
    forall id :: id in seen' <==> id in seen || Below(t, id, top)
  }

  /** Every node below `top` links to nothing or to a chapter. */
  ghost predicate AllLinked(t: Tree, sections: seq<string>, top: string) {
    forall k | 0 <= k < |t.nodes| && Below(t, t.nodes[k].id, top) :: Linked(sections, t.nodes[k])
  }

  lemma BelowChild(t: Tree, x: string, c: string, id: string)
    requires Below(t, x, c) && ParentOf(t, c) == Some(id)
    ensures Below(t, x, id)
  {
    hide ParentOf;
    var k: nat :| Up(t, x, k) == Some(c);
    UpAdds(t, x, k, 1);
    assert Up(t, c, 1) == Some(id) by { assert Up(t, id, 0) == Some(id); }
  }

  lemma ParentIsKnown(t: Tree, c: string)
    requires ParentOf(t, c).Some?
    ensures c in Ids(t)
  {
    var node := Lookup(t.nodes, c).value;
    var k :| 0 <= k < |t.nodes| && t.nodes[k] == node;
    NodeIdsAre(t.nodes, |t.nodes|, c);
  }

  lemma {:induction false} LastStep(t: Tree, x: string, k: nat, id: string)
    requires k > 0 && Up(t, x, k) == Some(id)
    ensures Up(t, x, k - 1).Some? && ParentOf(t, Up(t, x, k - 1).value) == Some(id)
    decreases k
  {
    hide ParentOf;
    if k > 1 {
      LastStep(t, ParentOf(t, x).value, k - 1, id);
    } else {
      assert Up(t, ParentOf(t, x).value, 0) == ParentOf(t, x);
    }
  }

  /** Below a node are the node itself and what is below its children. */
  lemma BelowSplits(t: Tree, x: string, id: string)
    requires Distinct(t.nodes) && Below(t, x, id)
    ensures x == id || exists k :: 0 <= k < |ChildIds(t, id)| && Below(t, x, ChildIds(t, id)[k])
  {
    hide ParentOf, ChildIds, Up, Ids, Distinct;
    var k: nat :| Up(t, x, k) == Some(id);
    if k > 0 {
      LastStep(t, x, k, id);
      var c := Up(t, x, k - 1).value;
      ParentIsKnown(t, c);
      ChildrenAre(t, id, c);
      var m :| 0 <= m < |ChildIds(t, id)| && ChildIds(t, id)[m] == c;
    } else {
      assert x == id by { NoStep(t, x); }
    }
  }

  lemma NoStep(t: Tree, x: string)
    ensures Up(t, x, 0) == Some(x)
  {
  }

  lemma ChildIsDeeper(t: Tree, id: string, c: string, depth: nat)
    requires At(t, id, depth) && c in Ids(t) && ParentOf(t, c) == Some(id)
    ensures At(t, c, depth + 1)
  {
    hide ParentOf, Ids;
  }

  lemma NotBelowChild(t: Tree, id: string, c: string, depth: nat)
    requires Rooted(t) && At(t, id, depth) && ParentOf(t, c) == Some(id)
    ensures !Below(t, id, c)
  {
    hide Rooted, ParentOf, Ids;
    forall j: nat ensures Up(t, id, j) != Some(c) {
      if Up(t, id, j) == Some(c) {
        NotAbove(t, id, c, depth, j);
      }
    }
  }

  lemma NotAbove(t: Tree, id: string, c: string, depth: nat, j: nat)
    requires Rooted(t) && At(t, id, depth) && ParentOf(t, c) == Some(id)
    ensures Up(t, id, j) != Some(c)
  {
    hide Rooted, ParentOf, Ids;
    if Up(t, id, j) == Some(c) {
      UpAdds(t, id, j, 1 + depth);
      NothingAboveRoot(t, id, depth, j + 1 + depth);
    }
  }

  ghost predicate ChildrenUnseen(t: Tree, seen: set<string>, ids: seq<string>, k: nat) {
    forall m | k <= m < |ids| :: Unseen(t, seen, ids[m])
  }

  ghost predicate ChildrenLinked(t: Tree, sections: seq<string>, ids: seq<string>, k: nat) {
    forall m | k <= m < |ids| :: AllLinked(t, sections, ids[m])
  }

  ghost predicate AddsChildren(t: Tree, seen: set<string>, seen': set<string>, ids: seq<string>, k: nat) {
    forall id :: id in seen' <==> id in seen || exists m :: k <= m < |ids| && Below(t, id, ids[m])
  }

  /** What a walk achieves: it never meets a node again, it fails exactly when a link has no target, and
      it writes everything below where it started. */
  ghost predicate Walked(t: Tree, sections: seq<string>, seen: set<string>, top: string, r: Outcome) {
    && r != Cycle && (r.Written? <==> AllLinked(t, sections, top))
    && (r.Written? ==> AddsBelow(t, seen, r.seen, top) && WellWritten(t, sections, r.seen, r.out))
  }

  ghost predicate ChildrenWalked(t: Tree, sections: seq<string>, seen: set<string>, ids: seq<string>, k: nat, r: Outcome) {
    && r != Cycle && (r.Written? <==> ChildrenLinked(t, sections, ids, k))
    && (r.Written? ==> AddsChildren(t, seen, r.seen, ids, k) && WellWritten(t, sections, r.seen, r.out))
  }

  /** A sibling's subtree stays unseen. */
  lemma SiblingsUnseen(t: Tree, seen: set<string>, seen': set<string>, top: string, k: nat, depth: nat)
    requires Rooted(t) && At(t, top, depth) && k < |ChildIds(t, top)|
    requires ChildrenUnseen(t, seen, ChildIds(t, top), k) && AddsBelow(t, seen, seen', ChildIds(t, top)[k])
    ensures ChildrenUnseen(t, seen', ChildIds(t, top), k + 1)
  {
    hide Rooted, Ids, ChildIds, At;
    var ids := ChildIds(t, top);
    forall m | k + 1 <= m < |ids| ensures Unseen(t, seen', ids[m]) {
      SiblingsApart(t, top, k, m, depth);
      assert Unseen(t, seen, ids[m]);
    }
  }

  lemma SiblingsApart(t: Tree, top: string, k: nat, m: nat, depth: nat)
    requires Rooted(t) && At(t, top, depth) && k < m < |ChildIds(t, top)|
    ensures forall id | Below(t, id, ChildIds(t, top)[k]) :: !Below(t, id, ChildIds(t, top)[m])
  {
    hide Ids, At, ParentOf, Up;
    var a, b := ChildIds(t, top)[k], ChildIds(t, top)[m];
    ChildrenDistinct(t.nodes, top, |t.nodes|);
    assert ChildIds(t, top) == Children(t.nodes, top, |t.nodes|);
    assert a != b;
    ChildrenAre(t, top, a);
    ChildrenAre(t, top, b);
    ChildIsDeeper(t, top, a, depth);
    ChildIsDeeper(t, top, b, depth);
    forall id | Below(t, id, a) ensures !Below(t, id, b) {
      var i: nat :| Up(t, id, i) == Some(a);
      forall j: nat ensures Up(t, id, j) != Some(b) {
        if Up(t, id, j) == Some(b) {
          SameAncestor(t, id, a, b, i, j, depth + 1);
        }
      }
    }
  }

  lemma NodeUnseenBelow(t: Tree, seen: set<string>, id: string, depth: nat)
    requires Rooted(t) && At(t, id, depth) && Unseen(t, seen, id)
    ensures id !in seen && ChildrenUnseen(t, seen + {id}, ChildIds(t, id), 0)
  {
    hide ParentOf, Ids;
    assert Below(t, id, id) by { NoStep(t, id); }
    var ids := ChildIds(t, id);
    forall m | 0 <= m < |ids| ensures Unseen(t, seen + {id}, ids[m]) {
      ChildrenAre(t, id, ids[m]);
      NotBelowChild(t, id, ids[m], depth);
      forall x | x in seen ensures !Below(t, x, ids[m]) {
        if Below(t, x, ids[m]) {
          BelowChild(t, x, ids[m], id);
        }
      }
    }
  }

  lemma NodeAdds(t: Tree, seen: set<string>, seen': set<string>, id: string)
    requires Rooted(t) && id in Ids(t) && AddsChildren(t, seen + {id}, seen', ChildIds(t, id), 0)
    ensures AddsBelow(t, seen, seen', id)
  {
    hide ParentOf, Ids;
    var ids := ChildIds(t, id);
    assert Below(t, id, id) by { NoStep(t, id); }
    forall x ensures x in seen' <==> x in seen || Below(t, x, id) {
      if m :| 0 <= m < |ids| && Below(t, x, ids[m]) {
        ChildrenAre(t, id, ids[m]);
        BelowChild(t, x, ids[m], id);
      }
      if Below(t, x, id) {
        BelowSplits(t, x, id);
      }
    }
  }

  lemma NodeLinks(t: Tree, sections: seq<string>, id: string)
    requires Rooted(t) && id in Ids(t) && Lookup(t.nodes, id).Some?
    ensures AllLinked(t, sections, id) <==> Linked(sections, Lookup(t.nodes, id).value) && ChildrenLinked(t, sections, ChildIds(t, id), 0)
  {
    hide ParentOf, Ids, Linked, Lookup, Up;
    var ids := ChildIds(t, id);
    assert Below(t, id, id) by { NoStep(t, id); }
    NodeIdsAre(t.nodes, |t.nodes|, id);
    var own :| 0 <= own < |t.nodes| && t.nodes[own].id == id;
    LookupIs(t.nodes, own);
    if AllLinked(t, sections, id) {
      forall m | 0 <= m < |ids| ensures AllLinked(t, sections, ids[m]) {
        ChildrenAre(t, id, ids[m]);
        forall k | 0 <= k < |t.nodes| && Below(t, t.nodes[k].id, ids[m]) ensures Linked(sections, t.nodes[k]) {
          BelowChild(t, t.nodes[k].id, ids[m], id);
        }
      }
    }
    if Linked(sections, Lookup(t.nodes, id).value) && ChildrenLinked(t, sections, ids, 0) {
      forall k | 0 <= k < |t.nodes| && Below(t, t.nodes[k].id, id) ensures Linked(sections, t.nodes[k]) {
        BelowSplits(t, t.nodes[k].id, id);
        if t.nodes[k].id == id {
          LookupIs(t.nodes, k);
        } else {
          var m :| 0 <= m < |ids| && Below(t, t.nodes[k].id, ids[m]);
          assert AllLinked(t, sections, ids[m]);
        }
      }
    }
  }

  lemma {:induction false} VisitWalks(t: Tree, sections: seq<string>, seen: set<string>, out: seq<Line>, id: string, depth: nat)
    requires Rooted(t) && At(t, id, depth) && WellWritten(t, sections, seen, out) && Unseen(t, seen, id)
    requires id == t.rootId || (ParentOf(t, id).Some? && ParentOf(t, id).value in seen)
    ensures Walked(t, sections, seen, id, Visit(t, sections, seen, out, id, depth))
    decreases |Ids(t) - seen|, 0
  {
    hide Rooted, Ids, ChildIds, ParentOf, Linked, Lookup, WellWritten, AllLinked, AddsBelow, Unseen, Up, AddsChildren, ChildrenLinked, ChildrenUnseen;
    NodeUnseenBelow(t, seen, id, depth);
    HasNode(t, id);
    NodeLinks(t, sections, id);
    var node := Lookup(t.nodes, id).value;
    if Linked(sections, node) {
      var seen', out' := seen + {id}, out + [LineOf(sections, node, depth)];
      WriteOne(t, sections, seen, out, id, depth);
      assert Ids(t) - seen == (Ids(t) - seen') + {id};
      ChildrenWalk(t, sections, seen', out', id, 0, depth + 1);
      var r := VisitChildren(t, sections, seen', out', ChildIds(t, id), 0, depth + 1);
      if r.Written? {
        NodeAdds(t, seen, r.seen, id);
      }
    }
  }

  lemma {:induction false} ChildrenWalk(t: Tree, sections: seq<string>, seen: set<string>, out: seq<Line>, top: string, k: nat, depth: nat)
    requires Rooted(t) && depth > 0 && At(t, top, depth - 1) && top in seen && WellWritten(t, sections, seen, out)
    requires k <= |ChildIds(t, top)| && ChildrenUnseen(t, seen, ChildIds(t, top), k)
    ensures ChildrenWalked(t, sections, seen, ChildIds(t, top), k, VisitChildren(t, sections, seen, out, ChildIds(t, top), k, depth))
    decreases |Ids(t) - seen|, |ChildIds(t, top)| - k + 1
  {
    hide Rooted, Ids, ChildIds, ParentOf, Linked, Lookup, WellWritten, AllLinked, Up, Visit, Unseen, Below, At;
    var ids := ChildIds(t, top);
    if k < |ids| {
      var c := ids[k];
      IsChild(t, top, k, depth - 1);
      assert Unseen(t, seen, c);
      VisitWalks(t, sections, seen, out, c, depth);
      var first := Visit(t, sections, seen, out, c, depth);
      if first.Written? {
        SeenGrows(Ids(t), seen, first.seen);
        SiblingsUnseen(t, seen, first.seen, top, k, depth - 1);
        ChildrenWalk(t, sections, first.seen, first.out, top, k + 1, depth);
        var rest := VisitChildren(t, sections, first.seen, first.out, ids, k + 1, depth);
        if rest.Written? {
          AddsOneMore(t, seen, first.seen, rest.seen, ids, k);
        }
      }
      assert ChildrenLinked(t, sections, ids, k) <==> AllLinked(t, sections, c) && ChildrenLinked(t, sections, ids, k + 1);
    }
  }

  lemma IsChild(t: Tree, top: string, k: nat, depth: nat)
    requires Rooted(t) && At(t, top, depth) && k < |ChildIds(t, top)|
    ensures At(t, ChildIds(t, top)[k], depth + 1) && ParentOf(t, ChildIds(t, top)[k]) == Some(top)
  {
    hide ParentOf, Up, At, Ids;
    ChildrenAre(t, top, ChildIds(t, top)[k]);
    ChildIsDeeper(t, top, ChildIds(t, top)[k], depth);
  }

  lemma AddsOneMore(t: Tree, seen: set<string>, first: set<string>, rest: set<string>, ids: seq<string>, k: nat)
    requires k < |ids| && AddsBelow(t, seen, first, ids[k]) && AddsChildren(t, first, rest, ids, k + 1)
    ensures AddsChildren(t, seen, rest, ids, k)
  {
    hide Below;
    forall id ensures id in rest <==> id in seen || exists m :: k <= m < |ids| && Below(t, id, ids[m]) {
      if id in rest && id !in first {
        var m :| k + 1 <= m < |ids| && Below(t, id, ids[m]);
      }
      if m :| k <= m < |ids| && Below(t, id, ids[m]) {
        if m > k {
          assert id in rest;
        }
      }
    }
  }

  // ----- the export

  lemma {:induction false} RegisterAccepts(nodes: seq<Node>, n: nat)
    requires n <= |nodes|
    ensures Register(nodes, n).None? <==> (forall k | 0 <= k < n :: nodes[k].id != "") && forall i, j | 0 <= i < j < n :: nodes[i].id != nodes[j].id
  {
    if n > 0 {
      RegisterAccepts(nodes, n - 1);
      NodeIdsAre(nodes, n - 1, nodes[n - 1].id);
    }
  }

  /** What an exportable tree is. */
  ghost predicate Exportable(t: Tree, sections: seq<string>) {
    && 1 <= |t.nodes| <= MAX_NODES
    && (forall k | 0 <= k < |t.nodes| :: t.nodes[k].id != "" && Linked(sections, t.nodes[k]) && Below(t, t.nodes[k].id, t.rootId))
    && Distinct(t.nodes)
    && Lookup(t.nodes, t.rootId).Some? && Lookup(t.nodes, t.rootId).value.parentId.None?
  }

  lemma FullSet(a: set<string>, b: set<string>)
    requires a <= b && |a| == |b|
    ensures a == b
  {
    var rest := b - a;
    assert b == a + rest;
    assert rest == {};
  }

  lemma NothingWritten(t: Tree, sections: seq<string>, top: string)
    ensures WellWritten(t, sections, {}, []) && Unseen(t, {}, top)
  {
  }

  /** From a good root, the walk covers what hangs below it. */
  lemma RootWalk(t: Tree, sections: seq<string>)
    requires Distinct(t.nodes) && Lookup(t.nodes, t.rootId).Some? && Lookup(t.nodes, t.rootId).value.parentId.None?
    ensures t.rootId in Ids(t) && Walked(t, sections, {}, t.rootId, Visit(t, sections, {}, [], t.rootId, 0))
  {
    hide Visit, Walked, WellWritten, Unseen, Ids;
    RootIsNode(t);
    NoStep(t, t.rootId);
    NothingWritten(t, sections, t.rootId);
    VisitWalks(t, sections, {}, [], t.rootId, 0);
  }

  lemma AllBelow(t: Tree, seen: set<string>)
    requires AddsBelow(t, {}, seen, t.rootId)
    ensures seen <= Ids(t) && (|seen| == |Ids(t)| <==> forall k | 0 <= k < |t.nodes| :: Below(t, t.nodes[k].id, t.rootId))
    ensures |seen| == |Ids(t)| ==> seen == Ids(t)
  {
    hide Up;
    if |seen| == |Ids(t)| {
      FullSet(seen, Ids(t));
      forall k | 0 <= k < |t.nodes| ensures Below(t, t.nodes[k].id, t.rootId) {
        NodeIdsAre(t.nodes, |t.nodes|, t.nodes[k].id);
      }
    }
    if forall k | 0 <= k < |t.nodes| :: Below(t, t.nodes[k].id, t.rootId) {
      forall id | id in Ids(t) ensures id in seen {
        NodeIdsAre(t.nodes, |t.nodes|, id);
        var k :| 0 <= k < |t.nodes| && t.nodes[k].id == id;
        assert Below(t, t.nodes[k].id, t.rootId);
      }
      assert seen == Ids(t);
    }
  }

  /** The export succeeds exactly for an exportable tree; then it writes every node once, after its
      parent, at its depth in the tree. The walk never finds a cycle. */
  lemma ExportsExactly(t: Tree, sections: seq<string>)
    ensures Write(t, sections) != CycleFound
    ensures Write(t, sections).Outline? <==> Exportable(t, sections)
    ensures Write(t, sections).Outline? ==> WellWritten(t, sections, Ids(t), Write(t, sections).lines)
  {
    hide Visit, Linked, Below, WellWritten, Ids, AddsBelow;
    RegisterAccepts(t.nodes, |t.nodes|);
    RegisterIsNoOutline(t.nodes, |t.nodes|);
    var root := Lookup(t.nodes, t.rootId);
    if Distinct(t.nodes) && root.Some? && root.value.parentId.None? {
      RootWalk(t, sections);
      var r := Visit(t, sections, {}, [], t.rootId, 0);
      if r.Written? {
        AllBelow(t, r.seen);
      }
      if Exportable(t, sections) {
        assert AllLinked(t, sections, t.rootId);
      }
    }
  }

  lemma {:induction false} RegisterIsNoOutline(nodes: seq<Node>, n: nat)
    requires n <= |nodes|
    ensures Register(nodes, n).Some? ==> Register(nodes, n).value == MissingId || Register(nodes, n).value == DuplicateId
  {
    if n > 0 {
      RegisterIsNoOutline(nodes, n - 1);
    }
  }
}
