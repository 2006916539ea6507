/**
 The patience method of crates/xript-tree/src/repeat.rs: binary search over the tails of the
 piles, predecessor links, and a walk back from the last tail.
 */
module IncreasingSubsequence {
  import opened Prelude

  /** `pick` lists indices of `s`, ascending, at which the values of `s` ascend too. */
  ghost predicate IncreasingPick(s: seq<nat>, pick: seq<nat>) {
    && (forall k :: 0 <= k < |pick| ==> pick[k] < |s|)
    && (forall j, k :: 0 <= j < k < |pick| ==> pick[j] < pick[k] && s[pick[j]] < s[pick[k]])
  }

  /** `j` comes before `i` and holds a smaller value. */
  ghost predicate Below(s: seq<nat>, j: int, i: int) {
    0 <= j < i < |s| && s[j] < s[i]
  }

  /**
   `rank[i]` is the length of the longest increasing pick ending at `i`: more than the rank of
   everything below `i`, and only one more than the rank of something below it.
   */
  ghost predicate IsRanking(s: seq<nat>, rank: seq<nat>) {
    && |rank| <= |s|
    && (forall i :: 0 <= i < |rank| ==> rank[i] >= 1)
    && (forall j, i :: i < |rank| && Below(s, j, i) ==> rank[j] < rank[i])
    && (forall i :: 0 <= i < |rank| ==> Reached(s, rank, i))
  }

  ghost predicate Reached(s: seq<nat>, rank: seq<nat>, i: nat)
    requires i < |rank| <= |s|
  {
    rank[i] > 1 ==> exists j :: Below(s, j, i) && rank[j] == rank[i] - 1
  }

  lemma RankWithin(s: seq<nat>, a: seq<nat>, b: seq<nat>, n: nat)
    requires IsRanking(s, a) && IsRanking(s, b) && |a| == |b| && n < |a| && a[..n] == b[..n]
    ensures a[n] <= b[n]
  {
    assert Reached(s, a, n);
    if a[n] > 1 {
      var j :| Below(s, j, n) && a[j] == a[n] - 1;
      assert a[j] == a[..n][j] == b[j];
    }
  }

  lemma {:induction false} RankingIsUnique(s: seq<nat>, a: seq<nat>, b: seq<nat>, n: nat)
    requires IsRanking(s, a) && IsRanking(s, b) && |a| == |b| && n <= |a|
    ensures a[..n] == b[..n]
    decreases n
  {
    if n > 0 {
      RankingIsUnique(s, a, b, n - 1);
      RankWithin(s, a, b, n - 1);
      RankWithin(s, b, a, n - 1);
      assert a[..n] == a[..n - 1] + [a[n - 1]];
      assert b[..n] == b[..n - 1] + [b[n - 1]];
    }
  }

  /** No increasing pick is longer than the rank of the index it ends at. */
  lemma {:induction false} PickWithinRank(s: seq<nat>, rank: seq<nat>, pick: seq<nat>)
    requires IsRanking(s, rank) && |rank| == |s| && IncreasingPick(s, pick) && |pick| > 0
    ensures |pick| <= rank[pick[|pick| - 1]]
    decreases |pick|
  {
    if |pick| > 1 {
      PickWithinRank(s, rank, pick[..|pick| - 1]);
      assert Below(s, pick[|pick| - 2], pick[|pick| - 1]);
    }
  }

  /** `at` is the last of the first `n` indices whose rank is `r`. */
  ghost predicate LatestOfRank(rank: seq<nat>, n: nat, r: nat, at: nat) {
    && at < n <= |rank|
    && rank[at] == r
    && forall j :: at < j < n ==> rank[j] != r
  }

  lemma LatestIsUnique(rank: seq<nat>, n: nat, r: nat, a: nat, b: nat)
    requires LatestOfRank(rank, n, r, a) && LatestOfRank(rank, n, r, b)
    ensures a == b
  {
  }

  /** One tail for every rank seen, each the latest of its rank. */
  ghost predicate TailsOf(rank: seq<nat>, tails: seq<nat>) {
    && (forall k :: 0 <= k < |tails| ==> LatestOfRank(rank, |rank|, k + 1, tails[k]))
    && (forall j :: 0 <= j < |rank| ==> rank[j] <= |tails|)
  }

  /** The latest index of a rank holds the least value of that rank. */
  lemma LatestIsLeast(s: seq<nat>, rank: seq<nat>, j: nat, at: nat)
    requires IsRanking(s, rank) && j < |rank| && LatestOfRank(rank, |rank|, rank[j], at)
    ensures j <= at && s[at] <= s[j]
  {
    assert s[j] < s[at] ==> Below(s, j, at);
  }

  /** The values at the tails strictly ascend, which is what the binary search relies on. */
  lemma {:induction false} TailsAscend(s: seq<nat>, rank: seq<nat>, tails: seq<nat>, j: nat, k: nat)
    requires IsRanking(s, rank) && TailsOf(rank, tails) && j < k < |tails|
    ensures s[tails[j]] < s[tails[k]]
    decreases k - j
  {
    assert LatestOfRank(rank, |rank|, k + 1, tails[k]);
    assert Reached(s, rank, tails[k]);
    var below :| Below(s, below, tails[k]) && rank[below] == k;
    assert LatestOfRank(rank, |rank|, k, tails[k - 1]);
    LatestIsLeast(s, rank, below, tails[k - 1]);
    if j < k - 1 {
      TailsAscend(s, rank, tails, j, k - 1);
    }
  }

  /** A pile position that separates smaller tails from the others ranks the next value. */
  lemma PilePositionRanks(s: seq<nat>, rank: seq<nat>, tails: seq<nat>, lo: nat)
    requires IsRanking(s, rank) && TailsOf(rank, tails) && |rank| < |s| && lo <= |tails|
    requires forall k :: 0 <= k < lo ==> s[tails[k]] < s[|rank|]
    requires forall k :: lo <= k < |tails| ==> s[tails[k]] >= s[|rank|]
    ensures IsRanking(s, rank + [lo + 1])
  {
    var after := rank + [lo + 1];
    if lo > 0 {
      assert LatestOfRank(rank, |rank|, lo, tails[lo - 1]);
      assert Below(s, tails[lo - 1], |rank|) && after[tails[lo - 1]] == lo;
    }
    forall j | Below(s, j, |rank|) ensures rank[j] <= lo {
      assert LatestOfRank(rank, |rank|, rank[j], tails[rank[j] - 1]);
      LatestIsLeast(s, rank, j, tails[rank[j] - 1]);
    }
    forall i | 0 <= i < |after| ensures Reached(s, after, i) {
      if i < |rank| && rank[i] > 1 {
        assert Reached(s, rank, i);
        var j :| Below(s, j, i) && rank[j] == rank[i] - 1;
        assert after[j] == after[i] - 1;
      }
    }
  }

  /** Putting the next value on its pile keeps the tails right. */
  lemma TailsAdvance(rank: seq<nat>, tails: seq<nat>, lo: nat, after: seq<nat>)
    requires TailsOf(rank, tails) && lo <= |tails|
    requires after == if lo == |tails| then tails + [|rank|] else tails[lo := |rank|]
    ensures TailsOf(rank + [lo + 1], after)
  {
    forall k | 0 <= k < |after| ensures LatestOfRank(rank + [lo + 1], |rank| + 1, k + 1, after[k]) {
      if k != lo {
        assert LatestOfRank(rank, |rank|, k + 1, tails[k]);
      }
    }
  }

  /** Each link points at the latest earlier index one rank below, which also holds a smaller value. */
  ghost predicate LinksOf(s: seq<nat>, rank: seq<nat>, links: seq<Option<nat>>) {
    && |rank| <= |links| == |s|
    && forall j :: 0 <= j < |rank| ==>
         match links[j]
         case None => rank[j] == 1
         case Some(p) => rank[j] > 1 && LatestOfRank(rank, j, rank[j] - 1, p) && s[p] < s[j]
  }

  lemma LinksAdvance(s: seq<nat>, rank: seq<nat>, links: seq<Option<nat>>, r: nat, after: seq<Option<nat>>)
    requires LinksOf(s, rank, links) && |after| == |links| && |rank| < |s|
    requires forall j :: 0 <= j < |rank| ==> after[j] == links[j]
    requires match after[|rank|]
             case None => r == 1
             case Some(p) => r > 1 && LatestOfRank(rank, |rank|, r - 1, p) && s[p] < s[|rank|]
    ensures LinksOf(s, rank + [r], after)
  {
    var longer := rank + [r];
    forall j | 0 <= j < |rank| && after[j].Some?
      ensures LatestOfRank(longer, j, longer[j] - 1, after[j].value)
    {
      assert links[j].Some?;
    }
  }

  /** The pick at position `k`, or the end of the sequence past the last pick. */
  ghost function Bound(s: seq<nat>, pick: seq<nat>, k: nat): nat {
    if k < |pick| then pick[k] else |s|
  }

  /** The pick at `k` is the latest index of its rank before the next pick, and holds less than it. */
  ghost predicate SettledAt(s: seq<nat>, rank: seq<nat>, pick: seq<nat>, k: nat)
    requires k < |pick|
  {
    && LatestOfRank(rank, Bound(s, pick, k + 1), k + 1, pick[k])
    && (k + 1 < |pick| && pick[k + 1] < |s| ==> pick[k] < |s| && s[pick[k]] < s[pick[k + 1]])
  }

  /**
   Which of the longest increasing subsequences the procedure settles on: it ends at the latest
   index of the highest rank, and each earlier pick is the latest index, before the pick that
   follows it, of the rank one lower.
   */
  ghost predicate SettledPick(s: seq<nat>, rank: seq<nat>, pick: seq<nat>) {
    && IsRanking(s, rank) && |rank| == |s|
    && IncreasingPick(s, pick)
    && (forall j :: 0 <= j < |s| ==> rank[j] <= |pick|)
    && forall k :: 0 <= k < |pick| ==> SettledAt(s, rank, pick, k)
  }

  /** Every runtime that settles as above picks the same indices, whatever ties there are. */
  lemma SettledPickIsUnique(s: seq<nat>, rankA: seq<nat>, a: seq<nat>, rankB: seq<nat>, b: seq<nat>)
    requires SettledPick(s, rankA, a) && SettledPick(s, rankB, b)
    ensures a == b
  {
    RankingIsUnique(s, rankA, rankB, |s|);
    assert rankA == rankA[..|s|] == rankB[..|s|] == rankB;
    SettledPickIsLongest(s, rankA, a, b);
    SettledPickIsLongest(s, rankB, b, a);
    SettledTailsAgree(s, rankA, a, b, 0);
  }

  lemma {:induction false} SettledTailsAgree(s: seq<nat>, rank: seq<nat>, a: seq<nat>, b: seq<nat>, k: nat)
    requires SettledPick(s, rank, a) && SettledPick(s, rank, b) && |a| == |b| && k <= |a|
    ensures a[k..] == b[k..]
    decreases |a| - k
  {
    if k < |a| {
      SettledTailsAgree(s, rank, a, b, k + 1);
      assert Bound(s, a, k + 1) == Bound(s, b, k + 1) by {
        assert k + 1 < |a| ==> a[k + 1] == a[k + 1..][0] && b[k + 1] == b[k + 1..][0];
      }
      assert SettledAt(s, rank, a, k) && SettledAt(s, rank, b, k);
      LatestIsUnique(rank, Bound(s, a, k + 1), k + 1, a[k], b[k]);
      assert a[k..] == [a[k]] + a[k + 1..];
      assert b[k..] == [b[k]] + b[k + 1..];
    }
  }

  /** A settled pick is as long as any increasing pick. */
  lemma SettledPickIsLongest(s: seq<nat>, rank: seq<nat>, pick: seq<nat>, other: seq<nat>)
    requires SettledPick(s, rank, pick) && IncreasingPick(s, other)
    ensures |other| <= |pick|
  {
    if |other| > 0 {
      PickWithinRank(s, rank, other);
    }
  }

  /** The leftmost tail not less than the value at `i`. */
  method LeftmostTail(s: seq<nat>, ghost rank: seq<nat>, i: nat, tails: seq<nat>) returns (lo: nat)
    requires i < |s| && IsRanking(s, rank) && TailsOf(rank, tails)
    ensures lo <= |tails|
    ensures forall k :: 0 <= k < lo ==> s[tails[k]] < s[i]
    ensures forall k :: lo <= k < |tails| ==> s[tails[k]] >= s[i]
  {
    forall j, k | 0 <= j < k < |tails| ensures s[tails[j]] < s[tails[k]] {
      TailsAscend(s, rank, tails, j, k);
    }
    lo := 0;
    var hi := |tails|;
    while lo < hi
      invariant lo <= hi <= |tails|
      invariant forall k :: 0 <= k < lo ==> s[tails[k]] < s[i]
      invariant forall k :: hi <= k < |tails| ==> s[tails[k]] >= s[i]
    {
      var mid := (lo + hi) / 2;
      if s[tails[mid]] < s[i] {
        lo := mid + 1;
      } else {
        hi := mid;
      }
    }
  }

  /** What the loop over the sequence keeps. */
  ghost predicate Patience(s: seq<nat>, rank: seq<nat>, tails: seq<nat>, links: seq<Option<nat>>) {
    && IsRanking(s, rank)
    && TailsOf(rank, tails)
    && LinksOf(s, rank, links)
  }

  lemma PatienceAdvances(s: seq<nat>, rank: seq<nat>, tails: seq<nat>, links: seq<Option<nat>>, lo: nat)
    requires Patience(s, rank, tails, links) && |rank| < |s| && lo <= |tails|
    requires forall k :: 0 <= k < lo ==> s[tails[k]] < s[|rank|]
    requires forall k :: lo <= k < |tails| ==> s[tails[k]] >= s[|rank|]
    ensures Patience(s, rank + [lo + 1],
                     if lo == |tails| then tails + [|rank|] else tails[lo := |rank|],
                     links[|rank| := if lo > 0 then Some(tails[lo - 1]) else None])
  {
    hide IsRanking, TailsOf, LinksOf;
    PilePositionRanks(s, rank, tails, lo);
    TailsAdvance(rank, tails, lo, if lo == |tails| then tails + [|rank|] else tails[lo := |rank|]);
    LinkAdvances(s, rank, tails, links, lo);
  }

  /** The next value's link is the tail its pile stands on. */
  lemma LinkAdvances(s: seq<nat>, rank: seq<nat>, tails: seq<nat>, links: seq<Option<nat>>, lo: nat)
    requires TailsOf(rank, tails) && LinksOf(s, rank, links) && |rank| < |s| && lo <= |tails|
    requires forall k :: 0 <= k < lo ==> s[tails[k]] < s[|rank|]
    ensures LinksOf(s, rank + [lo + 1], links[|rank| := if lo > 0 then Some(tails[lo - 1]) else None])
  {
    hide LatestOfRank;
    if lo > 0 {
      assert LatestOfRank(rank, |rank|, lo, tails[lo - 1]);
    }
    LinksAdvance(s, rank, links, lo + 1, links[|rank| := if lo > 0 then Some(tails[lo - 1]) else None]);
  }

  method LongestIncreasingSubsequence(s: seq<nat>) returns (result: seq<nat>)
    ensures exists rank :: SettledPick(s, rank, result)
    ensures forall other :: IncreasingPick(s, other) ==> |other| <= |result|
  {
    var tails: seq<nat> := [];
    var links: seq<Option<nat>> := seq(|s|, _ => None);
    ghost var rank: seq<nat> := [];
    for i := 0 to |s|
      invariant |rank| == i && |links| == |s|
      invariant Patience(s, rank, tails, links)
    {
      var lo := LeftmostTail(s, rank, i, tails);
      PatienceAdvances(s, rank, tails, links, lo);
      links := links[i := if lo > 0 then Some(tails[lo - 1]) else None];
      if lo == |tails| {
        tails := tails + [i];
      } else {
        tails := tails[lo := i];
      }
      rank := rank + [lo + 1];
    }
    result := WalkBack(s, rank, tails, links);
    forall other | IncreasingPick(s, other) ensures |other| <= |result| {
      SettledPickIsLongest(s, rank, result, other);
    }
  }

  /** What the walk back keeps: everything from `k` up is settled, and the cursor settles next. */
  ghost predicate WalkedTo(s: seq<nat>, rank: seq<nat>, result: seq<nat>, k: nat, cursor: Option<nat>) {
    && k <= |result|
    && (k > 0 ==> cursor.Some? && SettledAt(s, rank, result[k - 1 := cursor.value], k - 1))
    && forall m :: k <= m < |result| ==> SettledAt(s, rank, result, m)
  }

  lemma WalkAdvances(s: seq<nat>, rank: seq<nat>, links: seq<Option<nat>>, result: seq<nat>, k: nat, at: nat)
    requires LinksOf(s, rank, links) && |rank| == |s| && 0 < k && WalkedTo(s, rank, result, k, Some(at))
    ensures at < |s| && WalkedTo(s, rank, result[k - 1 := at], k - 1, links[at])
  {
    var after := result[k - 1 := at];
    forall m | k <= m < |after| ensures SettledAt(s, rank, after, m) {
      assert SettledAt(s, rank, result, m);
    }
    if k > 1 {
      var p := links[at].value;
      assert SettledAt(s, rank, after[k - 2 := p], k - 2);
    }
  }

  /** Follows the links back from the last tail, filling the result from its end. */
  method WalkBack(s: seq<nat>, ghost rank: seq<nat>, tails: seq<nat>, links: seq<Option<nat>>)
    returns (result: seq<nat>)
    requires Patience(s, rank, tails, links) && |rank| == |s|
    ensures SettledPick(s, rank, result)
  {
    result := seq(|tails|, _ => 0);
    var cursor: Option<nat> := if |tails| > 0 then Some(tails[|tails| - 1]) else None;
    var k := |tails|;
    while k > 0
      invariant 0 <= k <= |tails| == |result|
      invariant WalkedTo(s, rank, result, k, cursor)
    {
      var at := cursor.value;
      WalkAdvances(s, rank, links, result, k, at);
      k := k - 1;
      result := result[k := at];
      cursor := links[at];
    }
    SettledIsIncreasing(s, rank, result);
  }

  lemma SettledIsIncreasing(s: seq<nat>, rank: seq<nat>, pick: seq<nat>)
    requires |rank| == |s| && forall m :: 0 <= m < |pick| ==> SettledAt(s, rank, pick, m)
    ensures IncreasingPick(s, pick)
  {
    forall m | 0 <= m < |pick| ensures pick[m] < |s| {
      assert SettledAt(s, rank, pick, m);
    }
    forall j, m | 0 <= j < m < |pick| ensures pick[j] < pick[m] && s[pick[j]] < s[pick[m]] {
      SettledAscends(s, rank, pick, j, m);
    }
  }

  lemma {:induction false} SettledAscends(s: seq<nat>, rank: seq<nat>, pick: seq<nat>, j: nat, k: nat)
    requires |rank| == |s| && j < k < |pick|
    requires forall m :: 0 <= m < |pick| ==> SettledAt(s, rank, pick, m)
    ensures pick[j] < pick[k] < |s| && s[pick[j]] < s[pick[k]]
    decreases k - j
  {
    assert SettledAt(s, rank, pick, j) && SettledAt(s, rank, pick, j + 1);
    if j + 1 < k {
      SettledAscends(s, rank, pick, j + 1, k);
    }
  }
}
