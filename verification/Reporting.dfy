/**
 What a render reports is true of the template (runtimes/js/src/fragment.ts): each report's origin names a
 node and, through the copies around it, a scope, and the report tells how that node fares in that scope.
 */
module Reporting {
  import opened Prelude
  import opened Templates

  /** A place in the template: the node, the scope around it, and what of `within` is left for the node itself. */
  datatype Site = Site(node: Node, scope: Scope, own: seq<nat>)

  /** Follows the template's indices, and at each repeat on the way the scope of the copy that `within` names. */
  ghost function SiteOf(world: World, nodes: seq<Node>, scope: Scope, source: seq<nat>, within: seq<nat>): Option<Site>
    decreases |source|
  {
    if source == [] || source[0] >= |nodes| then None
    else
      var node := nodes[source[0]];
      if |source| == 1 then Some(Site(node, scope, within))
      else if node.TextNode? then None
      else if node.each.None? then SiteOf(world, node.children, scope, source[1..], within)
      else
        var scopes := world.scopes(node.each.value, scope);
        if within == [] || within[0] >= |scopes| then None
        else SiteOf(world, node.children, scopes[within[0]], source[1..], within[1..])
  }

  /** The scope of the node itself: its copy's, if it repeats. */
  ghost function OwnScope(world: World, site: Site): Option<Scope> {
    if !Repeats(site.node) then if site.own == [] then Some(site.scope) else None
    else
      var scopes := world.scopes(site.node.each.value, site.scope);
      if |site.own| == 1 && site.own[0] < |scopes| then Some(scopes[site.own[0]]) else None
  }

  /** A condition is as its expression holds in the node's own scope; a repeat has at most its items as copies. */
  ghost predicate TrueAt(world: World, site: Site, r: Report) {
    && site.node.ElementNode?
    && match r
       case ConditionReport(expression, _, visible) =>
         && site.node.condition == Some(expression) && OwnScope(world, site).Some?
         && visible == world.visible(expression, OwnScope(world, site).value)
       case RepeatReport(expression, _, count) =>
         && site.node.each == Some(expression) && site.own == []
         && count <= |world.scopes(expression, site.scope)|
  }

  ghost predicate Prefixed(base: seq<nat>, path: seq<nat>) { |base| <= |path| && path[..|base|] == base }

  /** The report is true of a place among the nodes, whose parent's origin is `parent`. */
  ghost predicate Tells(world: World, nodes: seq<Node>, scope: Scope, parent: Origin, r: Report) {
    && Prefixed(parent.source, r.origin.source) && Prefixed(parent.within, r.origin.within)
    && var site := SiteOf(world, nodes, scope, r.origin.source[|parent.source|..], r.origin.within[|parent.within|..]);
       site.Some? && TrueAt(world, site.value, r)
  }

  // ----- From a node to the nodes around it -----

  lemma TellsOfMore(world: World, nodes: seq<Node>, n: nat, scope: Scope, parent: Origin, r: Report)
    requires n <= |nodes| && Tells(world, nodes[..n], scope, parent, r)
    ensures Tells(world, nodes, scope, parent, r)
  {
  }

  lemma Deeper(a: seq<nat>, x: nat, path: seq<nat>)
    requires Prefixed(a + [x], path)
    ensures Prefixed(a, path) && path[|a|..] != [] && path[|a|..][0] == x && path[|a|..][1..] == path[|a| + 1..]
  {
    assert path[..|a|] == path[..|a| + 1][..|a|] == a;
    assert path[|a|] == path[..|a| + 1][|a|];
  }

  /** What is true inside a node that does not repeat is true among the nodes. */
  lemma TellsOfChild(world: World, nodes: seq<Node>, i: nat, scope: Scope, parent: Origin, r: Report)
    requires i < |nodes| && nodes[i].ElementNode? && !Repeats(nodes[i])
    requires Tells(world, nodes[i].children, scope, ChildOrigin(parent, i), r)
    ensures Tells(world, nodes, scope, parent, r)
  {
    hide TrueAt;
    Deeper(parent.source, i, r.origin.source);
    assert |r.origin.source[|parent.source| + 1..]| > 0;
  }

  /** ... and what is true inside a copy. */
  lemma TellsOfCopy(world: World, nodes: seq<Node>, i: nat, scope: Scope, parent: Origin, j: nat, r: Report)
    requires i < |nodes| && Repeats(nodes[i]) && j < |world.scopes(nodes[i].each.value, scope)|
    requires Tells(world, nodes[i].children, world.scopes(nodes[i].each.value, scope)[j],
                   CopyOrigin(ChildOrigin(parent, i), j), r)
    ensures Tells(world, nodes, scope, parent, r)
  {
    hide TrueAt;
    Deeper(parent.source, i, r.origin.source);
    Deeper(parent.within, j, r.origin.within);
    assert |r.origin.source[|parent.source| + 1..]| > 0;
  }

  /** What a node says for itself. */
  lemma TellsOfOwn(world: World, nodes: seq<Node>, i: nat, scope: Scope, parent: Origin, own: seq<nat>, r: Report)
    requires i < |nodes| && r.origin == Origin(parent.source + [i], parent.within + own)
    requires TrueAt(world, Site(nodes[i], scope, own), r)
    ensures Tells(world, nodes, scope, parent, r)
  {
    hide TrueAt;
    assert r.origin.source[|parent.source|..] == [i];
    assert r.origin.within[|parent.within|..] == own;
  }

  // ----- The reports, place by place -----

  /** A report of a node in a scope is its own condition, or true inside it. */
  lemma {:induction false} NodeTells(world: World, node: Node, scope: Scope, origin: Origin, budget: nat, r: Report)
    requires r in Reports(world, node, scope, origin, budget)
    ensures node.ElementNode?
    ensures || Tells(world, node.children, scope, origin, r)
            || (node.condition.Some?
                && r == ConditionReport(node.condition.value, origin, world.visible(node.condition.value, scope)))
    decreases Size(node), 0
  {
    hide Tells, ReportsAll;
    if r in ReportsAll(world, node.children, scope, origin, budget) {
      AllTell(world, node.children, scope, origin, budget, r);
    }
  }

  lemma {:induction false} AllTell(world: World, nodes: seq<Node>, scope: Scope, parent: Origin, budget: nat, r: Report)
    requires r in ReportsAll(world, nodes, scope, parent, budget)
    ensures Tells(world, nodes, scope, parent, r)
    decreases NodesSize(nodes), 3, |nodes|
  {
    hide Tells, ReportsPlace, LeftByAll;
    var front, i := nodes[..|nodes| - 1], |nodes| - 1;
    OneOfNodes(nodes, i);
    if r in ReportsAll(world, front, scope, parent, budget) {
      AllTell(world, front, scope, parent, budget, r);
      TellsOfMore(world, nodes, i, scope, parent, r);
    } else {
      PlaceTells(world, nodes, i, scope, parent, LeftByAll(world, front, scope, budget), r);
    }
  }

  lemma {:induction false} PlaceTells(
    world: World, nodes: seq<Node>, i: nat, scope: Scope, parent: Origin, budget: nat, r: Report)
    requires i < |nodes| && r in ReportsPlace(world, nodes[i], scope, ChildOrigin(parent, i), budget)
    ensures Tells(world, nodes, scope, parent, r)
    decreases Size(nodes[i]), 2
  {
    hide Tells, Reports, ReportsCopies;
    var node, origin := nodes[i], ChildOrigin(parent, i);
    if !Repeats(node) {
      NodeTells(world, node, scope, origin, budget, r);
      if Tells(world, node.children, scope, origin, r) {
        TellsOfChild(world, nodes, i, scope, parent, r);
      } else {
        assert parent.within + [] == parent.within;
        TellsOfOwn(world, nodes, i, scope, parent, [], r);
      }
    } else {
      var scopes := CopyScopes(world, node, scope, budget);
      if r == RepeatReport(node.each.value, origin, |scopes|) {
        assert parent.within + [] == parent.within;
        TellsOfOwn(world, nodes, i, scope, parent, [], r);
      } else {
        assert scopes[..|scopes|] == scopes;
        CopiesTell(world, nodes, i, scope, parent, |scopes|, budget, budget - |scopes|, r);
      }
    }
  }

  /** The first `n` copies of the `i`-th node. */
  lemma {:induction false} CopiesTell(
    world: World, nodes: seq<Node>, i: nat, scope: Scope, parent: Origin, n: nat, limit: nat, budget: nat, r: Report)
    requires i < |nodes| && Repeats(nodes[i]) && n <= |CopyScopes(world, nodes[i], scope, limit)|
    requires r in ReportsCopies(world, nodes[i], CopyScopes(world, nodes[i], scope, limit)[..n],
                                ChildOrigin(parent, i), budget)
    ensures Tells(world, nodes, scope, parent, r)
    decreases Size(nodes[i]), 1, n
  {
    hide Tells, Reports, LeftByCopies;
    var node, origin := nodes[i], ChildOrigin(parent, i);
    var scopes := CopyScopes(world, node, scope, limit)[..n];
    var front, j := scopes[..n - 1], n - 1;
    assert front == CopyScopes(world, node, scope, limit)[..j];
    if r in ReportsCopies(world, node, front, origin, budget) {
      CopiesTell(world, nodes, i, scope, parent, j, limit, budget, r);
    } else {
      CopyTells(world, nodes, i, scope, parent, j, LeftByCopies(world, node, front, budget), r);
    }
  }

  lemma {:induction false} CopyTells(
    world: World, nodes: seq<Node>, i: nat, scope: Scope, parent: Origin, j: nat, budget: nat, r: Report)
    requires i < |nodes| && Repeats(nodes[i]) && j < |world.scopes(nodes[i].each.value, scope)|
    requires r in Reports(world, nodes[i], world.scopes(nodes[i].each.value, scope)[j],
                          CopyOrigin(ChildOrigin(parent, i), j), budget)
    ensures Tells(world, nodes, scope, parent, r)
    decreases Size(nodes[i]), 1, 0
  {
    hide Tells, Reports;
    var node, origin := nodes[i], CopyOrigin(ChildOrigin(parent, i), j);
    var own := world.scopes(node.each.value, scope)[j];
    NodeTells(world, node, own, origin, budget, r);
    if Tells(world, node.children, own, origin, r) {
      TellsOfCopy(world, nodes, i, scope, parent, j, r);
    } else {
      TellsOfOwn(world, nodes, i, scope, parent, [j], r);
    }
  }

  /** Every report of a whole render is true of the place its origin names. */
  lemma ReportsAreTrue(world: World, tree: seq<Node>, scope: Scope, budget: nat, k: nat)
    requires k < |ReportsAll(world, tree, scope, Origin([], []), budget)|
    ensures var r := ReportsAll(world, tree, scope, Origin([], []), budget)[k];
      var site := SiteOf(world, tree, scope, r.origin.source, r.origin.within);
      site.Some? && TrueAt(world, site.value, r)
  {
    hide SiteOf, TrueAt;
    var r := ReportsAll(world, tree, scope, Origin([], []), budget)[k];
    AllTell(world, tree, scope, Origin([], []), budget, r);
    assert r.origin.source[0..] == r.origin.source && r.origin.within[0..] == r.origin.within;
  }

  /** A repeat is cut short only when the render has no copy left to make. */
  lemma CutLeavesNothing(world: World, node: Node, scope: Scope, budget: nat)
    requires Repeats(node)
    ensures var n := |CopyScopes(world, node, scope, budget)|;
      && CopyScopes(world, node, scope, budget) == world.scopes(node.each.value, scope)[..n]
      && (n < |world.scopes(node.each.value, scope)| ==> LeftByPlace(world, node, scope, budget) == 0)
  {
    hide LeftByCopies;
    var scopes := world.scopes(node.each.value, scope);
    assert scopes[..|scopes|] == scopes;
  }
}
