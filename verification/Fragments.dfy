/**
 Fragment binding, after runtimes/js/src/fragment.ts: `data-each` templates are replaced by their
 copies under one copy budget, `data-if` and `data-each` are reported with the paths of what they
 concern, and `data-bind` may replace a node's children.
 */
module Fragments {
  import opened Prelude
  import opened Templates

  function BoundSize(b: Bound): nat
    decreases b
  {
    match b
    case BoundText(_) => 1
    case BoundElement(_, _, children, _) => 1 + AllSize(children)
  }

  function AllSize(bs: seq<Bound>): nat
    decreases bs
  {
    if bs == [] then 0 else AllSize(bs[..|bs| - 1]) + BoundSize(bs[|bs| - 1])
  }

  lemma AllGrow(bs: seq<Bound>, b: Bound)
    ensures AllSize(bs + [b]) == AllSize(bs) + BoundSize(b)
  {
    assert (bs + [b])[..|bs|] == bs;
  }

  lemma OneSize(b: Bound)
    ensures AllSize([b]) == BoundSize(b)
  {
    assert [b][..0] == [];
  }

  /** The bound on what a part of a template may grow to. */
  function Limit(copies: nat, size: nat): nat { 2 * ((1 + copies) * size) }

  lemma LimitsAdd(c1: nat, s1: nat, c2: nat, s2: nat)
    ensures Limit(c1, s1) + Limit(c2, s2) <= Limit(c1 + c2, s1 + s2)
  {
    assert (1 + c1 + c2) * (s1 + s2) == (1 + c1) * s1 + (1 + c2) * s2 + c2 * s1 + c1 * s2;
  }

  lemma LimitOfElement(copies: nat, size: nat)
    ensures 1 + Limit(copies, size) <= Limit(copies, 1 + size) && 2 <= Limit(copies, 1 + size)
  {
    assert (1 + copies) * (1 + size) == (1 + copies) * size + 1 + copies;
  }

  // ----- What the records address -----

  /** The copies of the repeat are exactly the children in its range, in order. */
  ghost predicate RangeOk(children: seq<Bound>, rec: Record)
    requires rec.Repeat?
  {
    && rec.start + rec.count <= |children|
    && forall j :: 0 <= j < |children| ==> InRange(children[j], j, rec)
  }

  ghost predicate InRange(b: Bound, j: nat, rec: Record)
    requires rec.Repeat?
  {
    && (rec.start <= j < rec.start + rec.count <==> b.BoundElement? && b.origin.source == rec.source)
    && (rec.start <= j < rec.start + rec.count ==> b.origin.within == rec.within + [j - rec.start])
  }

  /** The node is the one the record is about. */
  ghost predicate Concerns(b: Bound, rec: Record) {
    && b.BoundElement?
    && match rec
       case Condition(_, _, origin, _) => b.origin == origin
       case Repeat(_, _, _, _, _, _) => RangeOk(b.children, rec)
  }

  /** Going down the path leads to what the record is about, unless `data-bind` replaced it on the way. */
  ghost predicate Settled(b: Bound, rel: seq<nat>, rec: Record)
    decreases |rel|
  {
    && b.BoundElement?
    && (if rel == [] then (rec.Repeat? && b.replaced) || Concerns(b, rec)
        else b.replaced || (rel[0] < |b.children| && Settled(b.children[rel[0]], rel[1..], rec)))
  }

  ghost predicate Leads(path: seq<nat>, base: seq<nat>) { |base| <= |path| && path[..|base|] == base }

  /** The record is settled in the node bound at `base`. */
  ghost predicate Good(rec: Record, base: seq<nat>, b: Bound) {
    Leads(rec.path, base) && Settled(b, rec.path[|base|..], rec)
  }

  /** The source is the `k`-th child of `parent`, for some `k` below `i`. */
  ghost predicate Earlier(source: seq<nat>, parent: seq<nat>, i: nat) {
    |source| == |parent| + 1 && source[..|parent|] == parent && source[|parent|] < i
  }

  /** The record is settled in the children bound so far, from the first `i` nodes of `source`. */
  ghost predicate GoodIn(rec: Record, base: seq<nat>, out: seq<Bound>, source: seq<nat>, i: nat) {
    && Leads(rec.path, base)
    && var rel := rec.path[|base|..];
    if rel == [] then rec.Repeat? && Earlier(rec.source, source, i) && RangeOk(out, rec)
    else rel[0] < |out| && Settled(out[rel[0]], rel[1..], rec)
  }

  ghost predicate AllGood(records: seq<Record>, from: nat, base: seq<nat>, b: Bound) {
    forall k :: from <= k < |records| ==> Good(records[k], base, b)
  }

  ghost predicate AllGoodIn(records: seq<Record>, from: nat, base: seq<nat>, out: seq<Bound>, source: seq<nat>,
      i: nat) {
    forall k :: from <= k < |records| ==> GoodIn(records[k], base, out, source, i)
  }

  /** Every child so far was made from one of the first `i` nodes. */
  ghost predicate FromEarlier(out: seq<Bound>, source: seq<nat>, i: nat) {
    forall j :: 0 <= j < |out| && out[j].BoundElement? ==> Earlier(out[j].origin.source, source, i)
  }

  /** One more child, from a later node, unsettles nothing. */
  lemma GoodInGrows(rec: Record, base: seq<nat>, out: seq<Bound>, source: seq<nat>, i: nat, b: Bound)
    requires GoodIn(rec, base, out, source, i)
    requires b.BoundElement? ==> b.origin.source == source + [i]
    ensures GoodIn(rec, base, out + [b], source, i) && GoodIn(rec, base, out + [b], source, i + 1)
  {
    hide Settled;
    var rel := rec.path[|base|..];
    if rel == [] {
      assert rec.source != source + [i];
      assert InRange(b, |out|, rec);
    }
  }

  /** A record settled in a child is settled in the children. */
  lemma GoodInChild(rec: Record, base: seq<nat>, out: seq<Bound>, source: seq<nat>, i: nat, b: Bound)
    requires Good(rec, base + [|out|], b)
    ensures GoodIn(rec, base, out + [b], source, i)
  {
    hide Settled;
    var rel := rec.path[|base|..];
    assert rec.path[..|base| + 1] == base + [|out|];
    assert rel[0] == |out| && rel[1..] == rec.path[|base| + 1..];
    assert rec.path[..|base|] == base;
  }

  /** What is settled in the children is settled in their element. */
  lemma GoodInElement(rec: Record, base: seq<nat>, out: seq<Bound>, source: seq<nat>, i: nat, b: Bound)
    requires GoodIn(rec, base, out, source, i) && b.BoundElement? && (b.replaced || b.children == out)
    ensures Good(rec, base, b)
  {
  }

  ghost function Copies(records: seq<Record>): nat {
    if records == [] then 0
    else
      var last := records[|records| - 1];
      Copies(records[..|records| - 1]) + if last.Repeat? then last.count else 0
  }

  lemma OneMoreRecord(records: seq<Record>, rec: Record)
    ensures Copies(records + [rec]) == Copies(records) + if rec.Repeat? then rec.count else 0
  {
    assert (records + [rec])[..|records|] == records;
  }

  // ----- The bind pass -----

  class BindContext {
    const world: World
    var remaining: nat
    var records: seq<Record>

    constructor (world: World)
      ensures this.world == world && remaining == MAX_REPEAT_COPIES && records == []
    {
      this.world := world;
      remaining, records := MAX_REPEAT_COPIES, [];
    }

    /** Records are only added, and every copy comes out of the budget. */
    ghost predicate Progress(before: nat, was: seq<Record>)
      reads this
    {
      && remaining <= before && |was| <= |records| && records[..|was|] == was
      && Copies(records) + remaining == Copies(was) + before
    }

    method BindNode(node: Node, scope: Scope, path: seq<nat>, origin: Origin) returns (b: Bound)
      modifies this
      ensures Progress(old(remaining), old(records)) && AllGood(records, |old(records)|, path, b)
      ensures BoundSize(b) <= Limit(old(remaining) - remaining, Size(node))
      ensures node.ElementNode? <==> b.BoundElement?
      ensures b.BoundElement? ==> b.origin == origin
      ensures Shows(world, node, scope, old(remaining), b) && remaining == LeftBy(world, node, scope, old(remaining))
      ensures ReportsOf(records)
           == ReportsOf(old(records)) + Reports(world, node, scope, origin, old(remaining))
      decreases Size(node), 0
    {
      hide GoodIn, Good, Limit, AllGood, AllGoodIn, BoundSize, Copies, ShowsAll, LeftByAll, ReportsAll, ReportsOf,
        WrittenText;
      if node.TextNode? {
        OneText(world.text(node.segments, scope));
        NothingNew(records, path, BoundText(world.text(node.segments, scope)));
        return BoundText(world.text(node.segments, scope));
      }
      var children := BindChildren(node.children, scope, path, origin);
      ghost var settled := records;
      if node.condition.Some? {
        var rec := Condition(path, node.condition.value, origin, world.visible(node.condition.value, scope));
        OneMoreReport(records, rec);
        records := records + [rec];
        OneMoreRecord(settled, rec);
      }
      b := BindValue(node, scope, children, origin);
      ElementFits(old(remaining) - remaining, node, children, b);
      ElementSettles(settled, records, |old(records)|, path, children, origin, |node.children|, b);
    }

    /** The bound element: with its children, or with the text `data-bind` writes in their place. */
    method BindValue(node: Node, scope: Scope, children: seq<Bound>, origin: Origin) returns (b: Bound)
      requires node.ElementNode?
      ensures b.BoundElement? && b.origin == origin && b.name == node.name
      ensures b.replaced <==> WrittenText(world, node, scope).Some?
      ensures b.children
           == if b.replaced then [BoundText(WrittenText(world, node, scope).value)] else children
    {
      if node.bind.Some? {
        var written := world.bound(node.bind.value, scope);
        if written.Some? && world.writesChildren(node.name) {
          return BoundElement(node.name, origin, [BoundText(written.value)], true);
        }
      }
      return BoundElement(node.name, origin, children, false);
    }

    method BindChildren(nodes: seq<Node>, scope: Scope, path: seq<nat>, origin: Origin) returns (out: seq<Bound>)
      modifies this
      ensures Progress(old(remaining), old(records))
      ensures AllGoodIn(records, |old(records)|, path, out, origin.source, |nodes|)
      ensures AllSize(out) <= Limit(old(remaining) - remaining, NodesSize(nodes))
      ensures ShowsAll(world, nodes, scope, old(remaining), out)
      ensures remaining == LeftByAll(world, nodes, scope, old(remaining))
      ensures ReportsOf(records)
           == ReportsOf(old(records)) + ReportsAll(world, nodes, scope, origin, old(remaining))
      decreases NodesSize(nodes), 2
    {
      hide GoodIn, Good, Limit, BoundSize, Earlier, Copies, NodesSize, AllSize, Size, ShowsPlace, LeftByPlace,
        ReportsPlace, ReportsOf, ShowsAll, LeftByAll, ReportsAll, FromEarlier, AllGoodIn, AllGood;
      out := [];
      ghost var n := |records|;
      NothingBound(records, path, origin.source, nodes);
      NothingShown(world, scope, origin, remaining);
      for i := 0 to |nodes|
        invariant Progress(old(remaining), old(records)) && FromEarlier(out, origin.source, i)
        invariant AllGoodIn(records, n, path, out, origin.source, i)
        invariant AllSize(out) <= Limit(old(remaining) - remaining, NodesSize(nodes[..i]))
        invariant ShowsAll(world, nodes[..i], scope, old(remaining), out)
        invariant remaining == LeftByAll(world, nodes[..i], scope, old(remaining))
        invariant ReportsOf(records)
               == ReportsOf(old(records)) + ReportsAll(world, nodes[..i], scope, origin, old(remaining))
      {
        ghost var was, before := records, remaining;
        var node, source := nodes[i], origin.source + [i];
        OneOfNodes(nodes, i);
        NodesGrow(nodes, i);
        var added: seq<Bound>;
        if node.ElementNode? && node.each.Some? {
          added := ExpandRepeat(node, scope, path, Origin(source, origin.within), out, origin.source, i);
        } else {
          var b := BindNode(node, scope, path + [|out|], Origin(source, origin.within));
          added := [b];
          PlaceOfOne(world, node, scope, Origin(source, origin.within), before, b);
          OneAdded(records, |was|, path, out, origin.source, i, b);
          OneSize(b);
        }
        AddedSettles(was, records, n, path, out, origin.source, i, added);
        ShowsNextNode(world, nodes, i, scope, origin, old(remaining), out, added);
        AllJoin(out, added);
        LimitsAdd(old(remaining) - before, NodesSize(nodes[..i]), before - remaining, Size(node));
        out := out + added;
      }
      assert nodes[..|nodes|] == nodes;
    }

    /** Replaces a template by its copies, as many as the budget allows. */
    method ExpandRepeat(template: Node, scope: Scope, path: seq<nat>, origin: Origin, out: seq<Bound>,
        ghost parent: seq<nat>, ghost i: nat)
        returns (copies: seq<Bound>)
      requires template.ElementNode? && template.each.Some? && origin.source == parent + [i]
      requires FromEarlier(out, parent, i)
      modifies this
      ensures Progress(old(remaining), old(records))
      ensures forall k :: |old(records)| <= k < |records| ==> GoodIn(records[k], path, out + copies, parent, i + 1)
      ensures forall j :: 0 <= j < |copies| && copies[j].BoundElement? ==> copies[j].origin.source == parent + [i]
      ensures AllSize(copies) <= Limit(old(remaining) - remaining, Size(template))
      ensures ShowsPlace(world, template, scope, old(remaining), copies)
      ensures remaining == LeftByPlace(world, template, scope, old(remaining))
      ensures ReportsOf(records)
           == ReportsOf(old(records)) + ReportsPlace(world, template, scope, origin, old(remaining))
      decreases Size(template), 1
    {
      hide GoodIn, Good, BoundSize, Earlier, Size, Concerns, RangeOk, Limit, Grown, Copies, IsCopy, AllSize, Shows,
        LeftBy, Reports, ShowsCopies, LeftByCopies, ReportsCopies, ReportsOf, FromEarlier, AllGood;
      var scopes := world.scopes(template.each.value, scope);
      if |scopes| > remaining {
        scopes := scopes[..remaining];
      }
      remaining := remaining - |scopes|;
      ghost var n, budget, size := |records|, remaining, Size(template);
      var rec := Repeat(path, |out|, |scopes|, template.each.value, origin.source, origin.within);
      OneMoreRecord(records, rec);
      OneMoreReport(records, rec);
      NoCopies(world, template, scopes, origin, budget);
      ghost var said := ReportsOf(records) + [ReportOf(rec)];
      records := records + [rec];
      copies := [];
      for j := 0 to |scopes|
        invariant remaining <= budget && n < |records| && records[..n] == old(records) && records[n] == rec
        invariant Copies(records) + remaining == Copies(old(records)) + old(remaining)
        invariant |copies| == j && forall k :: 0 <= k < j ==> IsCopy(copies[k], origin, k)
        invariant forall k :: n < k < |records| ==> GoodIn(records[k], path, out + copies, parent, i)
        invariant AllSize(copies) <= Grown(j + (budget - remaining), size)
        invariant ShowsCopies(world, template, scopes[..j], budget, copies)
        invariant remaining == LeftByCopies(world, template, scopes[..j], budget)
        invariant ReportsOf(records) == said + ReportsCopies(world, template, scopes[..j], origin, budget)
      {
        ghost var was, before := records, remaining;
        var b := BindNode(template, scopes[j], path + [|out| + |copies|], Origin(origin.source, origin.within + [j]));
        CopySettles(was, records, n + 1, path, out, copies, parent, i, b);
        CopyMade(copies, origin, b);
        ShowsNextCopy(world, template, scopes, j, origin, budget, copies, b);
        Regrouped(said, ReportsCopies(world, template, scopes[..j], origin, budget),
                  Reports(world, template, scopes[j], CopyOrigin(origin, j), before));
        AllGrow(copies, b);
        OneMoreCopy(j, budget - before, before - remaining, size);
        copies := copies + [b];
      }
      CopiesAreFrom(copies, origin);
      RepeatSettles(records, n, path, out, copies, parent, i, origin);
      CopiesWithin(|scopes|, budget - remaining, size);
      assert scopes[..|scopes|] == scopes;
      Regrouped(ReportsOf(old(records)), [ReportOf(rec)],
                ReportsCopies(world, template, scopes, origin, budget));
    }
  }

  ghost predicate IsCopy(b: Bound, origin: Origin, k: nat) {
    b.BoundElement? && b.origin == Origin(origin.source, origin.within + [k])
  }

  lemma PlaceOfOne(world: World, node: Node, scope: Scope, origin: Origin, budget: nat, b: Bound)
    requires !Repeats(node) && Shows(world, node, scope, budget, b)
    ensures ShowsPlace(world, node, scope, budget, [b])
    ensures LeftByPlace(world, node, scope, budget) == LeftBy(world, node, scope, budget)
    ensures ReportsPlace(world, node, scope, origin, budget) == Reports(world, node, scope, origin, budget)
  {
    hide Shows, LeftBy, Reports;
  }

  lemma NoCopies(world: World, node: Node, scopes: seq<Scope>, origin: Origin, budget: nat)
    ensures ShowsCopies(world, node, scopes[..0], budget, [])
    ensures LeftByCopies(world, node, scopes[..0], budget) == budget
    ensures ReportsCopies(world, node, scopes[..0], origin, budget) == []
    ensures AllSize([]) == 0
  {
  }

  lemma CopiesAreFrom(copies: seq<Bound>, origin: Origin)
    requires forall k :: 0 <= k < |copies| ==> IsCopy(copies[k], origin, k)
    ensures forall k :: 0 <= k < |copies| ==> copies[k].BoundElement? && copies[k].origin.source == origin.source
  {
  }

  lemma CopyMade(copies: seq<Bound>, origin: Origin, b: Bound)
    requires b.BoundElement? && b.origin == Origin(origin.source, origin.within + [|copies|])
    requires forall k :: 0 <= k < |copies| ==> IsCopy(copies[k], origin, k)
    ensures forall k :: 0 <= k <= |copies| ==> IsCopy((copies + [b])[k], origin, k)
  {
  }

  /** What copies alone may grow to. */
  function Grown(copies: nat, size: nat): nat { 2 * (copies * size) }

  lemma OneMoreCopy(j: nat, used: nat, more: nat, size: nat)
    ensures Grown(j + used, size) + Limit(more, size) == Grown(j + 1 + (used + more), size)
  {
    assert (j + 1 + (used + more)) * size == (j + used) * size + (1 + more) * size;
  }

  lemma CopiesWithin(count: nat, used: nat, size: nat)
    ensures Grown(count + used, size) <= Limit(count + used, size)
  {
    assert (1 + (count + used)) * size == (count + used) * size + size;
  }

  lemma NothingBound(records: seq<Record>, path: seq<nat>, source: seq<nat>, nodes: seq<Node>)
    ensures AllGoodIn(records, |records|, path, [], source, 0)
    ensures FromEarlier([], source, 0) && nodes[..0] == [] && NodesSize([]) == 0 && AllSize([]) <= Limit(0, 0)
  {
  }

  lemma NothingShown(world: World, scope: Scope, origin: Origin, budget: nat)
    ensures ShowsAll(world, [], scope, budget, []) && LeftByAll(world, [], scope, budget) == budget
    ensures ReportsAll(world, [], scope, origin, budget) == []
  {
  }

  lemma OneText(value: string)
    ensures BoundSize(BoundText(value)) == 1 <= Limit(0, 1)
  {
  }

  lemma NothingNew(records: seq<Record>, path: seq<nat>, b: Bound)
    ensures AllGood(records, |records|, path, b)
  {
  }

  lemma ElementFits(copies: nat, node: Node, children: seq<Bound>, b: Bound)
    requires node.ElementNode? && b.BoundElement? && AllSize(children) <= Limit(copies, NodesSize(node.children))
    requires if b.replaced then |b.children| == 1 && b.children[0].BoundText? else b.children == children
    ensures BoundSize(b) <= Limit(copies, Size(node))
  {
    hide Limit;
    LimitOfElement(copies, NodesSize(node.children));
    if b.replaced {
      AllGrow([], b.children[0]);
      assert b.children == [] + [b.children[0]];
    }
  }

  lemma ElementSettles(settled: seq<Record>, records: seq<Record>, from: nat, path: seq<nat>, children: seq<Bound>,
      origin: Origin, i: nat, b: Bound)
    requires AllGoodIn(settled, from, path, children, origin.source, i) && |settled| <= |records| <= |settled| + 1
    requires records[..|settled|] == settled && b.BoundElement? && b.origin == origin
    requires b.replaced || b.children == children
    requires |records| > |settled| ==>
      var last := records[|settled|];
      last.Condition? && last.path == path && last.origin == origin
    ensures AllGood(records, from, path, b)
  {
    hide GoodIn;
    forall k | from <= k < |records| ensures Good(records[k], path, b) {
      if k < |settled| {
        assert records[k] == settled[k];
        GoodInElement(settled[k], path, children, origin.source, i, b);
      }
    }
  }

  lemma OneAdded(records: seq<Record>, from: nat, path: seq<nat>, out: seq<Bound>, source: seq<nat>, i: nat, b: Bound)
    requires AllGood(records, from, path + [|out|], b)
    ensures forall k :: from <= k < |records| ==> GoodIn(records[k], path, out + [b], source, i + 1)
  {
    hide GoodIn, Good;
    forall k | from <= k < |records| ensures GoodIn(records[k], path, out + [b], source, i + 1) {
      GoodInChild(records[k], path, out, source, i + 1, b);
    }
  }

  /** New children from the `i`-th node unsettle none of the earlier records. */
  lemma AddedSettles(was: seq<Record>, records: seq<Record>, from: nat, path: seq<nat>, out: seq<Bound>,
      source: seq<nat>, i: nat, added: seq<Bound>)
    requires from <= |was| <= |records| && records[..|was|] == was && AllGoodIn(was, from, path, out, source, i)
    requires FromEarlier(out, source, i)
    requires forall j :: 0 <= j < |added| && added[j].BoundElement? ==> added[j].origin.source == source + [i]
    requires forall k :: |was| <= k < |records| ==> GoodIn(records[k], path, out + added, source, i + 1)
    ensures AllGoodIn(records, from, path, out + added, source, i + 1) && FromEarlier(out + added, source, i + 1)
  {
    hide GoodIn;
    forall k | from <= k < |records| ensures GoodIn(records[k], path, out + added, source, i + 1) {
      if k < |was| {
        assert records[k] == was[k];
        GoodInGrowsMany(was[k], path, out, source, i, added);
      }
    }
  }

  lemma {:induction false} GoodInGrowsMany(rec: Record, base: seq<nat>, out: seq<Bound>, source: seq<nat>, i: nat,
      added: seq<Bound>)
    requires GoodIn(rec, base, out, source, i)
    requires forall j :: 0 <= j < |added| && added[j].BoundElement? ==> added[j].origin.source == source + [i]
    ensures GoodIn(rec, base, out + added, source, i) && GoodIn(rec, base, out + added, source, i + 1)
    decreases |added|
  {
    hide Settled, RangeOk;
    if added == [] {
      assert out + added == out;
    } else {
      var front, last := added[..|added| - 1], added[|added| - 1];
      GoodInGrowsMany(rec, base, out, source, i, front);
      GoodInGrows(rec, base, out + front, source, i, last);
      assert out + front + [last] == out + added;
    }
  }

  lemma {:induction false} AllJoin(a: seq<Bound>, b: seq<Bound>)
    ensures AllSize(a + b) == AllSize(a) + AllSize(b)
    decreases |b|
  {
    if b == [] {
      assert a + b == a;
    } else {
      assert (a + b)[..|a + b| - 1] == a + b[..|b| - 1];
      AllJoin(a, b[..|b| - 1]);
    }
  }

  lemma CopySettles(was: seq<Record>, records: seq<Record>, from: nat, path: seq<nat>, out: seq<Bound>,
      copies: seq<Bound>, parent: seq<nat>, i: nat, b: Bound)
    requires from <= |was| <= |records| && records[..|was|] == was
    requires forall k :: from <= k < |was| ==> GoodIn(was[k], path, out + copies, parent, i)
    requires AllGood(records, |was|, path + [|out| + |copies|], b) && b.BoundElement? && b.origin.source == parent + [i]
    ensures forall k :: from <= k < |records| ==> GoodIn(records[k], path, out + (copies + [b]), parent, i)
  {
    hide GoodIn, Good;
    assert out + copies + [b] == out + (copies + [b]);
    forall k | from <= k < |records| ensures GoodIn(records[k], path, out + (copies + [b]), parent, i) {
      if k < |was| {
        assert records[k] == was[k];
        GoodInGrows(was[k], path, out + copies, parent, i, b);
      } else {
        GoodInChild(records[k], path, out + copies, parent, i, b);
      }
    }
  }

  /** With all copies made, the repeat's own record is settled too. */
  lemma RepeatSettles(records: seq<Record>, n: nat, path: seq<nat>, out: seq<Bound>, copies: seq<Bound>,
      parent: seq<nat>, i: nat, origin: Origin)
    requires n < |records| && origin.source == parent + [i] && FromEarlier(out, parent, i)
    requires records[n].Repeat? && records[n].path == path && records[n].start == |out|
    requires records[n].count == |copies| && Origin(records[n].source, records[n].within) == origin
    requires forall k :: 0 <= k < |copies| ==> IsCopy(copies[k], origin, k)
    requires forall k :: n < k < |records| ==> GoodIn(records[k], path, out + copies, parent, i)
    ensures forall k :: n <= k < |records| ==> GoodIn(records[k], path, out + copies, parent, i + 1)
  {
    hide Settled;
    var all := out + copies;
    forall j | 0 <= j < |all| ensures InRange(all[j], j, records[n]) {
      if j >= |out| {
        assert IsCopy(copies[j - |out|], origin, j - |out|);
      }
    }
    assert records[n].path[|path|..] == [];
  }

  // ----- A whole render -----

  /** The element that holds a fragment's nodes. */
  function Root(out: seq<Bound>): Bound { BoundElement("", Origin([], []), out, false) }

  /** No element above the end of the path had its children replaced, nor the last one for a repeat. */
  ghost predicate Intact(b: Bound, rel: seq<nat>, rec: Record)
    decreases |rel|
  {
    b.BoundElement? ==>
      && (rel != [] || rec.Repeat? ==> !b.replaced)
      && (rel != [] && rel[0] < |b.children| ==> Intact(b.children[rel[0]], rel[1..], rec))
  }

  function Find(b: Bound, rel: seq<nat>): Option<Bound>
    decreases |rel|
  {
    if rel == [] then Some(b)
    else if b.BoundElement? && rel[0] < |b.children| then Find(b.children[rel[0]], rel[1..])
    else None
  }

  /** A settled record's path leads to what it is about, where nothing on the way was replaced. */
  lemma {:induction false} SettledFinds(b: Bound, rel: seq<nat>, rec: Record)
    requires Settled(b, rel, rec) && Intact(b, rel, rec)
    ensures Find(b, rel).Some? && Concerns(Find(b, rel).value, rec)
    decreases |rel|
  {
    hide Concerns;
    if rel != [] {
      SettledFinds(b.children[rel[0]], rel[1..], rec);
    }
  }

  /**
   Binds a fragment: the copies of all repeats together stay within the ceiling, the tree within twice
   the template for each copy and once more, and each reported path leads to what it reports, unless
   `data-bind` replaced an ancestor's children. The tree shows the template, and the records report it,
   as the template and the scopes alone tell.
   */
  method ProcessTree(world: World, tree: seq<Node>, scope: Scope) returns (out: seq<Bound>, records: seq<Record>)
    ensures Copies(records) <= MAX_REPEAT_COPIES
    ensures AllSize(out) <= 2 * ((1 + Copies(records)) * NodesSize(tree))
    ensures forall k :: 0 <= k < |records| && Intact(Root(out), records[k].path, records[k]) ==>
      && Find(Root(out), records[k].path).Some?
      && Concerns(Find(Root(out), records[k].path).value, records[k])
    ensures ShowsAll(world, tree, scope, MAX_REPEAT_COPIES, out)
    ensures ReportsOf(records) == ReportsAll(world, tree, scope, Origin([], []), MAX_REPEAT_COPIES)
  {
    hide GoodIn, Good, Settled, Intact, Concerns, Find, ShowsAll, ReportsAll;
    var ctx := new BindContext(world);
    out := ctx.BindChildren(tree, scope, [], Origin([], []));
    records := ctx.records;
    forall k | 0 <= k < |records| && Intact(Root(out), records[k].path, records[k])
      ensures Find(Root(out), records[k].path).Some? && Concerns(Find(Root(out), records[k].path).value, records[k])
    {
      GoodInElement(records[k], [], out, [], |tree|, Root(out));
      GoodAtRoot(records[k], Root(out));
      SettledFinds(Root(out), records[k].path, records[k]);
    }
  }

  lemma GoodAtRoot(rec: Record, b: Bound)
    requires Good(rec, [], b)
    ensures Settled(b, rec.path, rec)
  {
    assert rec.path[0..] == rec.path;
  }
}
