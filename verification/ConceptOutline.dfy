/** How the written outline shows the concept tree: what a line says, under which line it hangs, and in
    which order siblings stand (internal/exporting/renderer.go). */
module ConceptOutline {
  import opened Text
  import opened Wrappers
  import opened ConceptMap

  // ----- a line

  /** The number of the last chapter with an identity. */
  ghost predicate IsChapter(sections: seq<string>, id: string, n: nat) {
    1 <= n <= |sections| && sections[n - 1] == id && forall j | n <= j < |sections| :: sections[j] != id
  }

  /** The line shows the caption on one line, and links to the chapter of its node. */
  ghost predicate Shows(sections: seq<string>, node: Node, line: Line) {
    && line.id == node.id && line.caption == Normalize(node.caption)
    && match node.sectionId
       case None => line.target == None
       case Some(id) => line.target.Some? && IsChapter(sections, id, line.target.value)
  }

  lemma {:induction false} TargetIs(sections: seq<string>, id: string, n: nat)
    requires n <= |sections|
    ensures Target(sections, id, n).Some? <==> exists j :: 0 <= j < n && sections[j] == id
    ensures match Target(sections, id, n) case None => true case Some(m) => 1 <= m <= n && sections[m - 1] == id && forall j | m <= j < n :: sections[j] != id
  {
    if n > 0 {
      TargetIs(sections, id, n - 1);
    }
  }

  /** A node can be written exactly when its chapter exists. */
  lemma LineShows(sections: seq<string>, node: Node, depth: nat)
    ensures Linked(sections, node) <==> (node.sectionId.None? || node.sectionId.value in sections)
    ensures Linked(sections, node) ==> Shows(sections, node, LineOf(sections, node, depth))
  {
    if node.sectionId.Some? {
      TargetIs(sections, node.sectionId.value, |sections|);
    }
  }

  // ----- the shape of the outline

  /** The next line above that is less deep is the parent's, one step less deep. */
  ghost predicate HangsUnder(t: Tree, out: seq<Line>, k: nat)
    requires k < |out|
  {
    exists j: nat :: j < k && ParentOf(t, out[k].id) == Some(out[j].id) && out[j].depth + 1 == out[k].depth && forall m | j < m < k :: out[m].depth >= out[k].depth
  }

  ghost predicate Precedes(nodes: seq<Node>, a: string, b: string) {
    exists i, j :: 0 <= i < j < |nodes| && nodes[i].id == a && nodes[j].id == b
  }

  ghost predicate AreSiblings(t: Tree, a: string, b: string) {
    ParentOf(t, a).Some? && ParentOf(t, a) == ParentOf(t, b)
  }

  /** The root comes first, every other line hangs under its parent, and siblings stand in the order of
      the nodes. */
  ghost predicate IsOutline(t: Tree, out: seq<Line>) {
    && (out != [] ==> out[0].id == t.rootId && out[0].depth == 0) && (forall k: nat | 0 < k < |out| :: HangsUnder(t, out, k))
    && (forall j: nat, k: nat | j < k < |out| && AreSiblings(t, out[j].id, out[k].id) :: Precedes(t.nodes, out[j].id, out[k].id))
  }

  /** What is known of the lines written so far. */
  ghost predicate SoFar(t: Tree, seen: set<string>, out: seq<Line>) {
    && IsOutline(t, out) && (forall k | 0 <= k < |out| :: At(t, out[k].id, out[k].depth))
    && forall id :: id in seen <==> exists k :: 0 <= k < |out| && out[k].id == id
  }

  /** The next line can be a child of `p`. */
  ghost predicate IsOpen(out: seq<Line>, p: string, depth: nat) {
    exists j :: 0 <= j < |out| && out[j].id == p && out[j].depth + 1 == depth && forall m | j < m < |out| :: out[m].depth >= depth
  }

  ghost predicate GrowsAt(out: seq<Line>, out': seq<Line>, depth: nat) {
    out <= out' && forall m | |out| <= m < |out'| :: out'[m].depth >= depth
  }

  /** Of the children of `p`, only the first `k` are written. */
  ghost predicate HasFirst(t: Tree, out: seq<Line>, p: string, k: nat) {
    forall m | 0 <= m < |out| && ParentOf(t, out[m].id) == Some(p) :: out[m].id in ChildIds(t, p)[..if k <= |ChildIds(t, p)| then k else |ChildIds(t, p)|]
  }

  lemma OpenStays(out: seq<Line>, out': seq<Line>, p: string, depth: nat)
    requires IsOpen(out, p, depth) && GrowsAt(out, out', depth)
    ensures IsOpen(out', p, depth)
  {
    var j :| 0 <= j < |out| && out[j].id == p && out[j].depth + 1 == depth && forall m | j < m < |out| :: out[m].depth >= depth;
    assert out'[j] == out[j];
    forall m | j < m < |out'| ensures out'[m].depth >= depth {
      if m < |out| {
        assert out'[m] == out[m];
      }
    }
  }

  /** The place of a new line. */
  ghost predicate IsNext(t: Tree, out: seq<Line>, id: string, depth: nat) {
    if out == [] then id == t.rootId && depth == 0
    else
      && ParentOf(t, id).Some? && IsOpen(out, ParentOf(t, id).value, depth)
      && forall m | 0 <= m < |out| && AreSiblings(t, out[m].id, id) :: Precedes(t.nodes, out[m].id, id)
  }

  lemma LineFollows(t: Tree, out: seq<Line>, line: Line)
    requires IsOutline(t, out) && IsNext(t, out, line.id, line.depth)
    ensures IsOutline(t, out + [line])
  {
    hide ParentOf, Precedes;
    var out' := out + [line];
    forall k: nat | 0 < k < |out'| ensures HangsUnder(t, out', k) {
      if k < |out| {
        assert HangsUnder(t, out, k);
        var j: nat :| j < k && ParentOf(t, out[k].id) == Some(out[j].id) && out[j].depth + 1 == out[k].depth && forall m | j < m < k :: out[m].depth >= out[k].depth;
        HangsThere(t, out', k, j);
      } else {
        var j :| 0 <= j < |out| && out[j].id == ParentOf(t, line.id).value && out[j].depth + 1 == line.depth && forall m | j < m < |out| :: out[m].depth >= line.depth;
        HangsThere(t, out', k, j);
      }
    }
    forall j: nat, k: nat | j < k < |out'| && AreSiblings(t, out'[j].id, out'[k].id) ensures Precedes(t.nodes, out'[j].id, out'[k].id) {
      if k < |out| {
        assert out'[j] == out[j] && out'[k] == out[k];
      }
    }
  }

  lemma HangsThere(t: Tree, out: seq<Line>, k: nat, j: nat)
    requires j < k < |out| && ParentOf(t, out[k].id) == Some(out[j].id) && out[j].depth + 1 == out[k].depth
    requires forall m | j < m < k :: out[m].depth >= out[k].depth
    ensures HangsUnder(t, out, k)
  {
  }

  lemma WrittenSoFar(t: Tree, seen: set<string>, out: seq<Line>, line: Line)
    requires SoFar(t, seen, out) && IsNext(t, out, line.id, line.depth) && At(t, line.id, line.depth)
    ensures SoFar(t, seen + {line.id}, out + [line])
  {
    hide ParentOf, IsOutline, At, IsNext;
    LineFollows(t, out, line);
    forall id ensures id in seen + {line.id} <==> exists k :: 0 <= k < |out + [line]| && (out + [line])[k].id == id {
      if id == line.id {
        assert (out + [line])[|out|].id == id;
      } else if id in seen {
        var k :| 0 <= k < |out| && out[k].id == id;
        assert (out + [line])[k].id == id;
      }
    }
  }

  /** Nothing hangs under a node that is not written yet. */
  lemma UnseenHasNone(t: Tree, seen: set<string>, out: seq<Line>, id: string)
    requires Rooted(t) && SoFar(t, seen, out) && id !in seen
    ensures forall m | 0 <= m < |out| :: ParentOf(t, out[m].id) != Some(id)
  {
    hide At, Precedes, ParentOf;
    forall m | 0 <= m < |out| ensures ParentOf(t, out[m].id) != Some(id) {
      if m > 0 {
        assert HangsUnder(t, out, m);
        var j: nat :| j < m && ParentOf(t, out[m].id) == Some(out[j].id);
        assert out[j].id in seen;
      }
    }
  }

  lemma {:induction false} ChildrenPrecede(nodes: seq<Node>, parent: string, n: nat, i: nat, j: nat)
    requires n <= |nodes| && i < j < |Children(nodes, parent, n)|
    ensures Precedes(nodes[..n], Children(nodes, parent, n)[i], Children(nodes, parent, n)[j])
  {
    var ids, front := Children(nodes, parent, n), Children(nodes, parent, n - 1);
    if j < |front| {
      ChildrenPrecede(nodes, parent, n - 1, i, j);
      var a, b :| 0 <= a < b < n - 1 && nodes[..n - 1][a].id == front[i] && nodes[..n - 1][b].id == front[j];
      assert nodes[..n][a].id == ids[i] && nodes[..n][b].id == ids[j];
    } else {
      ChildrenFrom(nodes, parent, n - 1, front[i]);
      var a :| 0 <= a < n - 1 && nodes[a].id == front[i];
      assert nodes[..n][a].id == ids[i] && nodes[..n][n - 1].id == ids[j];
    }
  }

  lemma NextChild(t: Tree, out: seq<Line>, p: string, k: nat, depth: nat)
    requires Rooted(t) && depth > 0 && At(t, p, depth - 1) && k < |ChildIds(t, p)| && out != [] && IsOpen(out, p, depth) && HasFirst(t, out, p, k)
    ensures IsNext(t, out, ChildIds(t, p)[k], depth)
  {
    hide Rooted, At, ParentOf, Ids, ChildIds, Precedes;
    var ids := ChildIds(t, p);
    IsChild(t, p, k, depth - 1);
    forall m | 0 <= m < |out| && AreSiblings(t, out[m].id, ids[k]) ensures Precedes(t.nodes, out[m].id, ids[k]) {
      assert out[m].id in ids[..k];
      var q :| 0 <= q < k && ids[..k][q] == out[m].id;
      InNodeOrder(t, p, q, k);
    }
  }

  lemma InNodeOrder(t: Tree, p: string, q: nat, k: nat)
    requires q < k < |ChildIds(t, p)|
    ensures Precedes(t.nodes, ChildIds(t, p)[q], ChildIds(t, p)[k])
  {
    ChildrenPrecede(t.nodes, p, |t.nodes|, q, k);
    assert t.nodes[..|t.nodes|] == t.nodes;
  }

  /** The lines of a subtree bring no further child of the node above it. */
  lemma OneMoreChild(t: Tree, out: seq<Line>, out': seq<Line>, p: string, k: nat, depth: nat)
    requires Rooted(t) && depth > 0 && At(t, p, depth - 1) && k < |ChildIds(t, p)| && HasFirst(t, out, p, k)
    requires out <= out' && |out| < |out'| && out'[|out|].id == ChildIds(t, p)[k] && GrowsAt(out'[..|out| + 1], out', depth + 1)
    requires forall m | 0 <= m < |out'| :: At(t, out'[m].id, out'[m].depth)
    ensures HasFirst(t, out', p, k + 1)
  {
    hide Rooted, At, ParentOf, Ids, ChildIds, Up;
    var ids := ChildIds(t, p);
    forall m | 0 <= m < |out'| && ParentOf(t, out'[m].id) == Some(p) ensures out'[m].id in ids[..k + 1] {
      if m < |out| {
        assert out'[m] == out[m];
        assert out[m].id in ids[..k];
        assert forall x | x in ids[..k] :: x in ids[..k + 1];
      } else if m == |out| {
        assert ids[..k + 1][k] == out'[m].id;
      } else {
        assert out'[m].depth >= depth + 1;
        ChildDepth(t, p, out'[m].id, depth, out'[m].depth);
      }
    }
  }

  lemma ChildDepth(t: Tree, p: string, id: string, depth: nat, d: nat)
    requires Rooted(t) && depth > 0 && At(t, p, depth - 1) && At(t, id, d) && ParentOf(t, id) == Some(p)
    ensures d == depth
  {
    hide Rooted, ParentOf, Ids, Up;
    ChildIsDeeper(t, p, id, depth - 1);
    DepthIsUnique(t, id, d, depth);
  }

  /** What the visit of a node adds. */
  ghost predicate Outlines(t: Tree, out: seq<Line>, id: string, depth: nat, r: Outcome) {
    r.Written? ==>
      && SoFar(t, r.seen, r.out) && out <= r.out && |out| < |r.out| && r.out[|out|].id == id && r.out[|out|].depth == depth
      && GrowsAt(r.out[..|out| + 1], r.out, depth + 1)
  }

  lemma {:induction false} VisitOutlines(t: Tree, sections: seq<string>, seen: set<string>, out: seq<Line>, id: string, depth: nat)
    requires Rooted(t) && At(t, id, depth) && SoFar(t, seen, out) && IsNext(t, out, id, depth)
    ensures Outlines(t, out, id, depth, Visit(t, sections, seen, out, id, depth))
    decreases |Ids(t) - seen|, 0
  {
    hide Rooted, Ids, ChildIds, ParentOf, Linked, Lookup, SoFar, At, IsNext, Normalize, Target, IsOpen, HasFirst;
    HasNode(t, id) by { AtIsNode(t, id, depth); }
    var node := Lookup(t.nodes, id).value;
    if id !in seen && Linked(sections, node) {
      var line := LineOf(sections, node, depth);
      LookupHasId(t.nodes, id);
      var seen', out' := seen + {id}, out + [line];
      WrittenSoFar(t, seen, out, line);
      assert Ids(t) - seen == (Ids(t) - seen') + {id} by { AtIsNode(t, id, depth); }
      JustOpened(t, seen, out, line);
      ChildrenOutline(t, sections, seen', out', id, 0, depth + 1);
      var r := VisitChildren(t, sections, seen', out', ChildIds(t, id), 0, depth + 1);
      if r.Written? {
        assert r.out[..|out| + 1] == out';
        assert out <= out' <= r.out;
      }
    }
  }

  lemma AtIsNode(t: Tree, id: string, depth: nat)
    requires At(t, id, depth)
    ensures id in Ids(t)
  {
  }

  lemma JustOpened(t: Tree, seen: set<string>, out: seq<Line>, line: Line)
    requires Rooted(t) && SoFar(t, seen, out) && line.id !in seen && At(t, line.id, line.depth)
    ensures IsOpen(out + [line], line.id, line.depth + 1) && HasFirst(t, out + [line], line.id, 0)
  {
    hide Rooted, Ids, ChildIds, ParentOf, SoFar, At;
    UnseenHasNone(t, seen, out, line.id);
    assert (out + [line])[|out|] == line;
    NotOwnParent(t, line.id, line.depth);
  }

  lemma NotOwnParent(t: Tree, id: string, depth: nat)
    requires Rooted(t) && At(t, id, depth)
    ensures ParentOf(t, id) != Some(id)
  {
    hide Rooted, ParentOf, Ids, Up;
    if ParentOf(t, id) == Some(id) {
      ChildIsDeeper(t, id, id, depth);
      DepthIsUnique(t, id, depth, depth + 1);
    }
  }

  lemma {:induction false} ChildrenOutline(t: Tree, sections: seq<string>, seen: set<string>, out: seq<Line>, top: string, k: nat, depth: nat)
    requires Rooted(t) && depth > 0 && At(t, top, depth - 1) && SoFar(t, seen, out) && k <= |ChildIds(t, top)| && out != []
    requires IsOpen(out, top, depth) && HasFirst(t, out, top, k)
    ensures var r := VisitChildren(t, sections, seen, out, ChildIds(t, top), k, depth); r.Written? ==> SoFar(t, r.seen, r.out) && GrowsAt(out, r.out, depth)
    decreases |Ids(t) - seen|, |ChildIds(t, top)| - k + 1
  {
    hide Rooted, Ids, ChildIds, ParentOf, Linked, Lookup, SoFar, At, IsNext, Visit, IsOpen, HasFirst;
    var ids := ChildIds(t, top);
    if k < |ids| {
      IsChild(t, top, k, depth - 1);
      NextChild(t, out, top, k, depth);
      VisitOutlines(t, sections, seen, out, ids[k], depth);
      var first := Visit(t, sections, seen, out, ids[k], depth);
      if first.Written? {
        SeenGrows(Ids(t), seen, first.seen);
        AllAt(t, first.seen, first.out);
        OneMoreChild(t, out, first.out, top, k, depth);
        GrowsOver(out, first.out, depth);
        OpenStays(out, first.out, top, depth);
        ChildrenOutline(t, sections, first.seen, first.out, top, k + 1, depth);
      }
    }
  }

  lemma AllAt(t: Tree, seen: set<string>, out: seq<Line>)
    requires SoFar(t, seen, out)
    ensures forall m | 0 <= m < |out| :: At(t, out[m].id, out[m].depth)
  {
    hide At;
  }

  lemma GrowsOver(out: seq<Line>, out': seq<Line>, depth: nat)
    requires out <= out' && |out| < |out'| && out'[|out|].depth == depth && GrowsAt(out'[..|out| + 1], out', depth + 1)
    ensures GrowsAt(out, out', depth)
  {
  }

  lemma RootIsNext(t: Tree)
    requires Rooted(t)
    ensures At(t, t.rootId, 0) && SoFar(t, {}, []) && IsNext(t, [], t.rootId, 0)
  {
  }

  /** MAIN RESULT: the lines show the nodes, indented under their parents, siblings in their order. */
  lemma OutlineShowsTree(t: Tree, sections: seq<string>)
    requires Write(t, sections).Outline?
    ensures IsOutline(t, Write(t, sections).lines)
    ensures forall k | 0 <= k < |Write(t, sections).lines| :: exists node :: node in t.nodes && Shows(sections, node, Write(t, sections).lines[k])
  {
    hide Visit, Linked, Below, Ids, At, Lookup, LineOf, HangsUnder, Shows, ParentOf;
    ExportsExactly(t, sections);
    ExportableIsRooted(t, sections);
    var lines := Write(t, sections).lines;
    RegisterIsNoOutline(t.nodes, |t.nodes|);
    RootIsNext(t);
    VisitOutlines(t, sections, {}, [], t.rootId, 0);
    forall k | 0 <= k < |lines| ensures exists node :: node in t.nodes && Shows(sections, node, lines[k]) {
      assert LineFits(t, sections, lines, k);
      LineShows(sections, Lookup(t.nodes, lines[k].id).value, lines[k].depth);
    }
  }

  lemma ExportableIsRooted(t: Tree, sections: seq<string>)
    requires Exportable(t, sections)
    ensures Rooted(t)
  {
    hide Linked, Below;
    var k :| 0 <= k < |t.nodes| && t.nodes[k] == Lookup(t.nodes, t.rootId).value;
    NodeIdsAre(t.nodes, |t.nodes|, t.rootId);
  }
}
