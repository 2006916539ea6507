/**
 Fragments as they are written and as they are rendered (runtimes/js/src/fragment.ts), and what a render
 is to show and to report, told from the template and the scopes alone.
 */
module Templates {
  import opened Prelude

  const MAX_REPEAT_COPIES: nat := 10000

  /** A sanitized node; the attributes hold expression sources. */
  datatype Node =
    | TextNode(segments: string)
    | ElementNode(name: string, each: Option<string>, condition: Option<string>, bind: Option<string>,
      children: seq<Node>)

  /** What a bound element was made from: the template's place, and which copy of each repeat around it. */
  datatype Origin = Origin(source: seq<nat>, within: seq<nat>)

  /** A bound node; `replaced` says that `data-bind` wrote a text in place of its children. */
  datatype Bound =
    | BoundText(value: string)
    | BoundElement(name: string, origin: Origin, children: seq<Bound>, replaced: bool)

  datatype Record =
    | Condition(path: seq<nat>, expression: string, origin: Origin, visible: bool)
    | Repeat(path: seq<nat>, start: nat, count: nat, expression: string, source: seq<nat>, within: seq<nat>)

  /** The bindings in scope, whatever they are. */
  type Scope = nat

  /** Expressions, and what the vocabulary says a bound value is written to. */
  datatype World = World(
    scopes: (string, Scope) -> seq<Scope>,
    visible: (string, Scope) -> bool,
    bound: (string, Scope) -> Option<string>,
    text: (string, Scope) -> string,
    writesChildren: string -> bool)

  // ----- Sizes -----

  function Size(node: Node): (n: nat)
    ensures n >= 1
    decreases node
  {
    match node
    case TextNode(_) => 1
    case ElementNode(_, _, _, _, children) => 1 + NodesSize(children)
  }

  function NodesSize(nodes: seq<Node>): nat
    decreases nodes
  {
    if nodes == [] then 0 else NodesSize(nodes[..|nodes| - 1]) + Size(nodes[|nodes| - 1])
  }

  lemma NodesGrow(nodes: seq<Node>, i: nat)
    requires i < |nodes|
    ensures NodesSize(nodes[..i + 1]) == NodesSize(nodes[..i]) + Size(nodes[i])
  {
    assert nodes[..i + 1][..i] == nodes[..i];
  }

  lemma {:induction false} OneOfNodes(nodes: seq<Node>, i: nat)
    requires i < |nodes|
    ensures Size(nodes[i]) <= NodesSize(nodes)
  {
    if i < |nodes| - 1 {
      OneOfNodes(nodes[..|nodes| - 1], i);
    }
  }

  // ----- How many copies -----

  ghost predicate Repeats(node: Node) { node.ElementNode? && node.each.Some? }

  /** The scopes a repeat makes copies for: its items, as far as the budget goes. */
  ghost function CopyScopes(world: World, node: Node, scope: Scope, budget: nat): (r: seq<Scope>)
    requires Repeats(node)
    ensures |r| <= budget
  {
    var scopes := world.scopes(node.each.value, scope);
    if |scopes| <= budget then scopes else scopes[..budget]
  }

  /** The budget that is left once a node, a list of nodes or a repeat's copies are bound. */
  ghost function LeftBy(world: World, node: Node, scope: Scope, budget: nat): (left: nat)
    ensures left <= budget
    decreases Size(node), 0
  {
    match node
    case TextNode(_) => budget
    case ElementNode(_, _, _, _, children) => LeftByAll(world, children, scope, budget)
  }

  ghost function LeftByAll(world: World, nodes: seq<Node>, scope: Scope, budget: nat): (left: nat)
    ensures left <= budget
    decreases NodesSize(nodes), 3, |nodes|
  {
    if nodes == [] then budget
    else
      OneOfNodes(nodes, |nodes| - 1);
      LeftByPlace(world, nodes[|nodes| - 1], scope, LeftByAll(world, nodes[..|nodes| - 1], scope, budget))
  }

  /** A node in its place: itself, or its copies. */
  ghost function LeftByPlace(world: World, node: Node, scope: Scope, budget: nat): (left: nat)
    ensures left <= budget
    decreases Size(node), 2
  {
    if Repeats(node) then
      var scopes := CopyScopes(world, node, scope, budget);
      LeftByCopies(world, node, scopes, budget - |scopes|)
    else LeftBy(world, node, scope, budget)
  }

  ghost function LeftByCopies(world: World, node: Node, scopes: seq<Scope>, budget: nat): (left: nat)
    ensures left <= budget
    decreases Size(node), 1, |scopes|
  {
    if scopes == [] then budget
    else LeftBy(world, node, scopes[|scopes| - 1], LeftByCopies(world, node, scopes[..|scopes| - 1], budget))
  }

  // ----- What is shown -----

  /** What `data-bind` writes in place of an element's children. */
  ghost function WrittenText(world: World, node: Node, scope: Scope): Option<string>
    requires node.ElementNode?
  {
    if node.bind.Some? && world.writesChildren(node.name) then world.bound(node.bind.value, scope) else None
  }

  /** The bound node shows the template's node in the scope. */
  ghost predicate Shows(world: World, node: Node, scope: Scope, budget: nat, b: Bound)
    decreases Size(node), 0
  {
    match node
    case TextNode(segments) => b == BoundText(world.text(segments, scope))
    case ElementNode(name, _, _, _, children) =>
      && b.BoundElement? && b.name == name
      && (match WrittenText(world, node, scope)
          case Some(text) => b.replaced && b.children == [BoundText(text)]
          case None => !b.replaced && ShowsAll(world, children, scope, budget, b.children))
  }

  /** How many bound nodes stand for a node in its place. */
  ghost function Width(world: World, node: Node, scope: Scope, budget: nat): nat {
    if Repeats(node) then |CopyScopes(world, node, scope, budget)| else 1
  }

  /** The bound nodes show the template's nodes one behind the other. */
  ghost predicate ShowsAll(world: World, nodes: seq<Node>, scope: Scope, budget: nat, bs: seq<Bound>)
    decreases NodesSize(nodes), 3, |nodes|
  {
    if nodes == [] then bs == []
    else
      OneOfNodes(nodes, |nodes| - 1);
      var front, last := nodes[..|nodes| - 1], nodes[|nodes| - 1];
      var left := LeftByAll(world, front, scope, budget);
      var cut := |bs| - Width(world, last, scope, left);
      cut >= 0 && ShowsAll(world, front, scope, budget, bs[..cut]) && ShowsPlace(world, last, scope, left, bs[cut..])
  }

  /** A repeat's copies show it each in its own scope, in the order of the items. */
  ghost predicate ShowsPlace(world: World, node: Node, scope: Scope, budget: nat, bs: seq<Bound>)
    decreases Size(node), 2
  {
    if Repeats(node) then
      var scopes := CopyScopes(world, node, scope, budget);
      ShowsCopies(world, node, scopes, budget - |scopes|, bs)
    else |bs| == 1 && Shows(world, node, scope, budget, bs[0])
  }

  ghost predicate ShowsCopies(world: World, node: Node, scopes: seq<Scope>, budget: nat, bs: seq<Bound>)
    decreases Size(node), 1, |scopes|
  {
    && |bs| == |scopes|
    && forall j :: 0 <= j < |bs| ==>
         Shows(world, node, scopes[j], LeftByCopies(world, node, scopes[..j], budget), bs[j])
  }

  // ----- What is reported -----

  /** What a record says besides its path. */
  datatype Report =
    | ConditionReport(expression: string, origin: Origin, visible: bool)
    | RepeatReport(expression: string, origin: Origin, count: nat)

  function ReportOf(rec: Record): Report {
    match rec
    case Condition(_, expression, origin, visible) => ConditionReport(expression, origin, visible)
    case Repeat(_, _, count, expression, source, within) => RepeatReport(expression, Origin(source, within), count)
  }

  function ReportsOf(records: seq<Record>): (r: seq<Report>)
    ensures |r| == |records|
  {
    seq(|records|, i requires 0 <= i < |records| => ReportOf(records[i]))
  }

  /** Children first, then the element's own condition, as it holds in its scope. */
  ghost function Reports(world: World, node: Node, scope: Scope, origin: Origin, budget: nat): seq<Report>
    decreases Size(node), 0
  {
    match node
    case TextNode(_) => []
    case ElementNode(_, _, condition, _, children) =>
      ReportsAll(world, children, scope, origin, budget)
      + if condition.None? then []
        else [ConditionReport(condition.value, origin, world.visible(condition.value, scope))]
  }

  ghost function ReportsAll(world: World, nodes: seq<Node>, scope: Scope, parent: Origin, budget: nat): seq<Report>
    decreases NodesSize(nodes), 3, |nodes|
  {
    if nodes == [] then []
    else
      OneOfNodes(nodes, |nodes| - 1);
      var front, i := nodes[..|nodes| - 1], |nodes| - 1;
      ReportsAll(world, front, scope, parent, budget)
      + ReportsPlace(world, nodes[i], scope, ChildOrigin(parent, i), LeftByAll(world, front, scope, budget))
  }

  function ChildOrigin(parent: Origin, i: nat): Origin { Origin(parent.source + [i], parent.within) }

  function CopyOrigin(template: Origin, j: nat): Origin { Origin(template.source, template.within + [j]) }

  /** A repeat says how many copies it has before they say anything. */
  ghost function ReportsPlace(world: World, node: Node, scope: Scope, origin: Origin, budget: nat): seq<Report>
    decreases Size(node), 2
  {
    if Repeats(node) then
      var scopes := CopyScopes(world, node, scope, budget);
      [RepeatReport(node.each.value, origin, |scopes|)]
      + ReportsCopies(world, node, scopes, origin, budget - |scopes|)
    else Reports(world, node, scope, origin, budget)
  }

  ghost function ReportsCopies(world: World, node: Node, scopes: seq<Scope>, origin: Origin, budget: nat): seq<Report>
    decreases Size(node), 1, |scopes|
  {
    if scopes == [] then []
    else
      var front, j := scopes[..|scopes| - 1], |scopes| - 1;
      ReportsCopies(world, node, front, origin, budget)
      + Reports(world, node, scopes[j], CopyOrigin(origin, j), LeftByCopies(world, node, front, budget))
  }

  // ----- One more -----

  lemma OneMoreReport(records: seq<Record>, rec: Record)
    ensures ReportsOf(records + [rec]) == ReportsOf(records) + [ReportOf(rec)]
  {
    hide ReportOf;
  }

  /** One more copy, bound in its own scope. */
  lemma ShowsNextCopy(
    world: World, node: Node, scopes: seq<Scope>, j: nat, origin: Origin, budget: nat, bs: seq<Bound>, b: Bound)
    requires j < |scopes| && ShowsCopies(world, node, scopes[..j], budget, bs)
    requires Shows(world, node, scopes[j], LeftByCopies(world, node, scopes[..j], budget), b)
    ensures ShowsCopies(world, node, scopes[..j + 1], budget, bs + [b])
    ensures LeftByCopies(world, node, scopes[..j + 1], budget)
         == LeftBy(world, node, scopes[j], LeftByCopies(world, node, scopes[..j], budget))
    ensures ReportsCopies(world, node, scopes[..j + 1], origin, budget)
         == ReportsCopies(world, node, scopes[..j], origin, budget)
            + Reports(world, node, scopes[j], CopyOrigin(origin, j), LeftByCopies(world, node, scopes[..j], budget))
  {
    hide Shows, LeftBy, Reports;
    var done := scopes[..j + 1];
    assert done[..j] == scopes[..j] && done[j] == scopes[j] && |done| == j + 1;
    forall k | 0 <= k < |done|
      ensures Shows(world, node, done[k], LeftByCopies(world, node, done[..k], budget), (bs + [b])[k])
    {
      assert done[..k] == scopes[..k] == scopes[..j][..k];
    }
  }

  /** One more node, bound in its place. */
  lemma ShowsNextNode(world: World, nodes: seq<Node>, i: nat, scope: Scope, parent: Origin, budget: nat,
      bs: seq<Bound>, added: seq<Bound>)
    requires i < |nodes| && ShowsAll(world, nodes[..i], scope, budget, bs)
    requires ShowsPlace(world, nodes[i], scope, LeftByAll(world, nodes[..i], scope, budget), added)
    ensures ShowsAll(world, nodes[..i + 1], scope, budget, bs + added)
    ensures LeftByAll(world, nodes[..i + 1], scope, budget)
         == LeftByPlace(world, nodes[i], scope, LeftByAll(world, nodes[..i], scope, budget))
    ensures ReportsAll(world, nodes[..i + 1], scope, parent, budget)
         == ReportsAll(world, nodes[..i], scope, parent, budget)
            + ReportsPlace(world, nodes[i], scope, ChildOrigin(parent, i), LeftByAll(world, nodes[..i], scope, budget))
  {
    hide Shows, LeftByPlace, LeftByCopies, ReportsPlace, CopyScopes;
    var done := nodes[..i + 1];
    assert done[..i] == nodes[..i] && done[i] == nodes[i] && |done| == i + 1;
    PlaceHasWidth(world, nodes[i], scope, LeftByAll(world, nodes[..i], scope, budget), added);
    assert (bs + added)[..|bs|] == bs && (bs + added)[|bs|..] == added;
  }

  lemma PlaceHasWidth(world: World, node: Node, scope: Scope, budget: nat, bs: seq<Bound>)
    requires ShowsPlace(world, node, scope, budget, bs)
    ensures |bs| == Width(world, node, scope, budget)
  {
    hide Shows, LeftByCopies;
  }
}
