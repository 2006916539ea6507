/**
 The nesting measure in front of JSON.parse, after runtimes/js/src/stack-guard.ts: strings and
 everything that is not a bracket are erased, a few passes erase innermost pairs, and only what
 is left is walked bracket by bracket.
 */
module NestingGuard {
  import opened Prelude

  const LIMIT: nat := 1000
  const NATIVE_PASSES: nat := 8

  predicate IsOpen(c: char) { c == '[' || c == '{' }
  predicate IsClose(c: char) { c == ']' || c == '}' }
  predicate IsPair(open: char, close: char) { (open == '[' && close == ']') || (open == '{' && close == '}') }

  // ----- The plain bracket scan -----

  /** The depth after `c`: an opening bracket adds one, a closing bracket takes one unless nothing is open. */
  function Stepped(depth: nat, c: char): nat {
    if IsOpen(c) then depth + 1 else if IsClose(c) && depth > 0 then depth - 1 else depth
  }

  /** The deepest a scan of `s` gets, starting at `depth`. */
  function Deepest(s: seq<char>, depth: nat): (d: nat)
    ensures depth <= d <= depth + |s|
    decreases |s|
  {
    if s == [] then depth else Max(depth, Deepest(s[1..], Stepped(depth, s[0])))
  }

  datatype Mode = Outside | InString | Escaped

  /** One character of the scan that skips string literals. */
  function NextMode(mode: Mode, c: char): Mode {
    match mode
    case Outside => if c == '"' then InString else Outside
    case InString => if c == '"' then Outside else if c == '\\' then Escaped else InString
    case Escaped => InString
  }

  /** The bracket depth of a text outside its string literals, read left to right. */
  function PlainDepth(text: seq<char>, mode: Mode, depth: nat): nat
    decreases |text|
  {
    if text == [] then depth
    else
      var after := if mode == Outside then Stepped(depth, text[0]) else depth;
      Max(depth, PlainDepth(text[1..], NextMode(mode, text[0]), after))
  }

  function ModeAfter(text: seq<char>, mode: Mode): Mode
    decreases |text|
  {
    if text == [] then mode else ModeAfter(text[1..], NextMode(mode, text[0]))
  }

  // ----- The two erasing patterns -----

  /** Where a literal whose opening quote was just read ends, past its closing quote; None if it never closes. */
  function LiteralEnd(text: seq<char>): (end: int)
    ensures end == -1 || 1 <= end <= |text|
    decreases |text|
  {
    if text == [] then -1
    else if text[0] == '"' then 1
    else
      var skip := if text[0] == '\\' then 2 else 1;
      if |text| < skip then -1
      else
        var rest := LiteralEnd(text[skip..]);
        if rest == -1 then -1 else skip + rest
  }

  /** What is left of a text once closed string literals and all but brackets and quotes are dropped. */
  function EraseNotStructure(text: seq<char>): (left: seq<char>)
    ensures |left| <= |text|
    decreases |text|
  {
    if text == [] then []
    else if text[0] == '"' then
      var end := LiteralEnd(text[1..]);
      if end == -1 then ['"'] + EraseNotStructure(text[1..])
      else EraseNotStructure(text[1 + end..])
    else if IsOpen(text[0]) || IsClose(text[0]) then [text[0]] + EraseNotStructure(text[1..])
    else EraseNotStructure(text[1..])
  }

  /** One pass that drops adjacent matching pairs, left to right. */
  function EraseInnermostPairs(s: seq<char>): (left: seq<char>)
    ensures |left| <= |s|
    decreases |s|
  {
    if |s| < 2 then s
    else if IsPair(s[0], s[1]) then EraseInnermostPairs(s[2..])
    else [s[0]] + EraseInnermostPairs(s[1..])
  }

  // ----- One pass lowers the depth by at most one -----

  lemma {:induction false} PassLowersAtMostOne(s: seq<char>, depth: nat)
    ensures Deepest(s, depth) <= Deepest(EraseInnermostPairs(s), depth) + 1
    decreases |s|
  {
    if |s| >= 2 {
      var left := EraseInnermostPairs(s);
      if IsPair(s[0], s[1]) {
        PassLowersAtMostOne(s[2..], depth);
        assert s[1..][1..] == s[2..];
      } else {
        PassLowersAtMostOne(s[1..], Stepped(depth, s[0]));
        assert left[1..] == EraseInnermostPairs(s[1..]);
      }
    }
  }

  /** ... and never raises it. */
  lemma {:induction false} PassNeverDeepens(s: seq<char>, depth: nat)
    ensures Deepest(EraseInnermostPairs(s), depth) <= Deepest(s, depth)
    decreases |s|
  {
    if |s| >= 2 {
      var left := EraseInnermostPairs(s);
      if IsPair(s[0], s[1]) {
        PassNeverDeepens(s[2..], depth);
        assert s[1..][1..] == s[2..];
      } else {
        PassNeverDeepens(s[1..], Stepped(depth, s[0]));
        assert left[1..] == EraseInnermostPairs(s[1..]);
      }
    }
  }

  /** `s` closes the brackets in `open`, last first, and everything it opens itself, each with its own kind. */
  predicate Closes(open: seq<char>, s: seq<char>)
    decreases |s|
  {
    if s == [] then open == []
    else if IsOpen(s[0]) then Closes(open + [s[0]], s[1..])
    else |open| > 0 && IsPair(open[|open| - 1], s[0]) && Closes(open[..|open| - 1], s[1..])
  }

  lemma {:induction false} PassKeepsMatching(open: seq<char>, s: seq<char>)
    requires Closes(open, s)
    ensures Closes(open, EraseInnermostPairs(s))
    decreases |s|
  {
    if |s| >= 2 {
      if IsPair(s[0], s[1]) {
        assert (open + [s[0]])[..|open|] == open && s[1..][1..] == s[2..];
        PassKeepsMatching(open, s[2..]);
      } else {
        var left := EraseInnermostPairs(s);
        assert left[1..] == EraseInnermostPairs(s[1..]);
        if IsOpen(s[0]) {
          PassKeepsMatching(open + [s[0]], s[1..]);
        } else {
          PassKeepsMatching(open[..|open| - 1], s[1..]);
        }
      }
    }
  }

  /** Every deepest bracket of a matched text is followed by its own closing one, so the pass drops that level. */
  lemma {:induction false} PassLowersMatched(open: seq<char>, s: seq<char>, most: nat)
    requires Closes(open, s) && |open| < most && Deepest(s, |open|) <= most
    ensures Deepest(EraseInnermostPairs(s), |open|) < most
    decreases |s|
  {
    if |s| >= 2 {
      var left := EraseInnermostPairs(s);
      if IsPair(s[0], s[1]) {
        assert (open + [s[0]])[..|open|] == open && s[1..][1..] == s[2..];
        PassLowersMatched(open, s[2..], most);
      } else {
        assert left[1..] == EraseInnermostPairs(s[1..]);
        if IsOpen(s[0]) {
          assert IsOpen(s[1]);
          PassLowersMatched(open + [s[0]], s[1..], most);
        } else {
          PassLowersMatched(open[..|open| - 1], s[1..], most);
        }
      }
    }
  }

  /** On a matched text a pass lowers the depth by exactly one, down to nothing. */
  lemma PassLowersMatchedByOne(s: seq<char>)
    requires Closes([], s) && s != []
    ensures Deepest(EraseInnermostPairs(s), 0) == Deepest(s, 0) - 1
    ensures |EraseInnermostPairs(s)| < |s|
  {
    assert IsOpen(s[0]) && Deepest(s, 0) >= 1;
    PassLowersMatched([], s, Deepest(s, 0));
    PassLowersAtMostOne(s, 0);
    PassErasesOrKeeps(s);
  }

  lemma {:induction false} PassErasesOrKeeps(s: seq<char>)
    ensures EraseInnermostPairs(s) == s || |EraseInnermostPairs(s)| < |s|
    decreases |s|
  {
    if |s| >= 2 && !IsPair(s[0], s[1]) {
      PassErasesOrKeeps(s[1..]);
      assert s == [s[0]] + s[1..];
    }
  }

  // ----- What erasing everything but brackets keeps -----

  /** A closed literal leaves the scan outside again, without a bracket counted. */
  lemma {:induction false} LiteralSkipped(text: seq<char>, depth: nat)
    ensures var end := LiteralEnd(text);
      if end == -1 then PlainDepth(text, InString, depth) == depth && ModeAfter(text, InString) != Outside
      else && PlainDepth(text, InString, depth) == PlainDepth(text[end..], Outside, depth)
           && ModeAfter(text, InString) == ModeAfter(text[end..], Outside)
    decreases |text|
  {
    if text != [] && text[0] != '"' {
      if text[0] == '\\' {
        if |text| >= 2 {
          LiteralSkipped(text[2..], depth);
          assert text[1..][1..] == text[2..];
          var rest := LiteralEnd(text[2..]);
          if rest != -1 {
            assert text[2..][rest..] == text[2 + rest..];
          }
        }
      } else {
        LiteralSkipped(text[1..], depth);
        var rest := LiteralEnd(text[1..]);
        if rest != -1 {
          assert text[1..][rest..] == text[1 + rest..];
        }
      }
    }
  }

  /** Erasing never hides depth: what is left nests at least as deep as the text does outside its literals. */
  lemma {:induction false} ErasureCoversDepth(text: seq<char>, depth: nat)
    ensures PlainDepth(text, Outside, depth) <= Deepest(EraseNotStructure(text), depth)
    decreases |text|
  {
    if text != [] {
      var left := EraseNotStructure(text);
      if text[0] == '"' {
        LiteralSkipped(text[1..], depth);
        var end := LiteralEnd(text[1..]);
        if end != -1 {
          assert text[1..][end..] == text[1 + end..];
          ErasureCoversDepth(text[1 + end..], depth);
        }
      } else if IsOpen(text[0]) || IsClose(text[0]) {
        ErasureCoversDepth(text[1..], Stepped(depth, text[0]));
        assert left[1..] == EraseNotStructure(text[1..]);
      } else {
        ErasureCoversDepth(text[1..], depth);
      }
    }
  }

  /** With every literal closed, what is left nests exactly as deep, and holds brackets only. */
  lemma {:induction false} ErasureKeepsDepth(text: seq<char>, depth: nat)
    requires ModeAfter(text, Outside) == Outside
    ensures PlainDepth(text, Outside, depth) == Deepest(EraseNotStructure(text), depth)
    decreases |text|
  {
    if text != [] {
      var left := EraseNotStructure(text);
      if text[0] == '"' {
        LiteralSkipped(text[1..], depth);
        var end := LiteralEnd(text[1..]);
        assert text[1..][end..] == text[1 + end..];
        ErasureKeepsDepth(text[1 + end..], depth);
      } else if IsOpen(text[0]) || IsClose(text[0]) {
        ErasureKeepsDepth(text[1..], Stepped(depth, text[0]));
        assert left[1..] == EraseNotStructure(text[1..]);
      } else {
        ErasureKeepsDepth(text[1..], depth);
      }
    }
  }

  // ----- The guard -----

  /** The brackets of a text, outside its string literals, pair up properly. */
  predicate Matched(text: seq<char>) {
    ModeAfter(text, Outside) == Outside && Closes([], EraseNotStructure(text))
  }

  /** What the passes leave of some brackets, and the depth still allowed in it. */
  function Squeezed(brackets: seq<char>, allowed: nat): (left: (seq<char>, nat))
    requires allowed <= LIMIT
    ensures left.1 <= allowed
    decreases allowed
  {
    if |brackets| <= allowed || LIMIT - allowed >= NATIVE_PASSES then (brackets, allowed)
    else
      var inner := EraseInnermostPairs(brackets);
      if |inner| == |brackets| then (brackets, allowed) else Squeezed(inner, allowed - 1)
  }

  /** What the guard answers. */
  predicate TooDeep(text: seq<char>) {
    var (left, allowed) := Squeezed(EraseNotStructure(text), LIMIT);
    |text| > LIMIT && Deepest(left, 0) > allowed
  }

  lemma {:induction false} SqueezingCovers(brackets: seq<char>, allowed: nat)
    requires allowed <= LIMIT
    ensures var (left, still) := Squeezed(brackets, allowed);
      Deepest(brackets, 0) - allowed <= Deepest(left, 0) - still
    decreases allowed
  {
    if |brackets| > allowed && LIMIT - allowed < NATIVE_PASSES {
      var inner := EraseInnermostPairs(brackets);
      if |inner| != |brackets| {
        PassLowersAtMostOne(brackets, 0);
        SqueezingCovers(inner, allowed - 1);
      }
    }
  }

  lemma {:induction false} SqueezingIsExact(brackets: seq<char>, allowed: nat)
    requires allowed <= LIMIT && Closes([], brackets)
    ensures var (left, still) := Squeezed(brackets, allowed);
      Deepest(brackets, 0) - allowed == Deepest(left, 0) - still
    decreases allowed
  {
    if |brackets| > allowed && LIMIT - allowed < NATIVE_PASSES {
      PassLowersMatchedByOne(brackets);
      PassKeepsMatching([], brackets);
      SqueezingIsExact(EraseInnermostPairs(brackets), allowed - 1);
    }
  }

  /** How many of the passes erase something and still leave the depth as it was. */
  function Stalls(brackets: seq<char>, allowed: nat): (n: nat)
    requires allowed <= LIMIT
    ensures LIMIT - allowed <= NATIVE_PASSES ==> n <= NATIVE_PASSES - (LIMIT - allowed)
    decreases allowed
  {
    if |brackets| <= allowed || LIMIT - allowed >= NATIVE_PASSES then 0
    else
      var inner := EraseInnermostPairs(brackets);
      if |inner| == |brackets| then 0
      else Stalls(inner, allowed - 1) + if Deepest(inner, 0) == Deepest(brackets, 0) then 1 else 0
  }

  /** Each pass takes one off what is allowed, and one off the depth unless it stalls. */
  lemma {:induction false} SqueezingStalls(brackets: seq<char>, allowed: nat)
    requires allowed <= LIMIT
    ensures var (left, still) := Squeezed(brackets, allowed);
      Deepest(left, 0) - still == Deepest(brackets, 0) + Stalls(brackets, allowed) - allowed
    decreases allowed
  {
    if |brackets| > allowed && LIMIT - allowed < NATIVE_PASSES {
      var inner := EraseInnermostPairs(brackets);
      if |inner| != |brackets| {
        PassLowersAtMostOne(brackets, 0);
        PassNeverDeepens(brackets, 0);
        SqueezingStalls(inner, allowed - 1);
      }
    }
  }

  /** On every text the guard refuses exactly when depth and stalled passes together get past the limit. */
  lemma GuardIsExact(text: seq<char>)
    ensures var brackets := EraseNotStructure(text);
      TooDeep(text) <==> |text| > LIMIT && Deepest(brackets, 0) + Stalls(brackets, LIMIT) > LIMIT
  {
    SqueezingStalls(EraseNotStructure(text), LIMIT);
  }

  /** So it differs from the plain scan exactly on texts that nest no deeper than the limit and get past it so. */
  lemma GuardDiffersExactly(text: seq<char>)
    ensures var brackets := EraseNotStructure(text);
      (TooDeep(text) <==> PlainDepth(text, Outside, 0) > LIMIT) <==>
      !(PlainDepth(text, Outside, 0) <= LIMIT < |text| && Deepest(brackets, 0) + Stalls(brackets, LIMIT) > LIMIT)
  {
    hide TooDeep, Stalls;
    GuardIsExact(text);
    if PlainDepth(text, Outside, 0) > LIMIT {
      GuardMissesNothing(text);
    }
  }

  /** Only depths from 993 on can be refused too soon. */
  lemma ShallowPasses(text: seq<char>)
    requires Deepest(EraseNotStructure(text), 0) <= LIMIT - NATIVE_PASSES
    ensures !TooDeep(text)
  {
    hide TooDeep;
    GuardIsExact(text);
  }

  lemma {:induction false} PlainDepthWithinLength(text: seq<char>, mode: Mode, depth: nat)
    ensures PlainDepth(text, mode, depth) <= depth + |text|
    decreases |text|
  {
    if text != [] {
      PlainDepthWithinLength(text[1..], NextMode(mode, text[0]),
                             if mode == Outside then Stepped(depth, text[0]) else depth);
    }
  }

  /** A text that nests past the limit outside its literals is never let through. */
  lemma GuardMissesNothing(text: seq<char>)
    requires PlainDepth(text, Outside, 0) > LIMIT
    ensures TooDeep(text)
  {
    PlainDepthWithinLength(text, Outside, 0);
    ErasureCoversDepth(text, 0);
    SqueezingCovers(EraseNotStructure(text), LIMIT);
  }

  /** On properly matched brackets the guard agrees with the plain scan. */
  lemma GuardIsExactWhenMatched(text: seq<char>)
    requires Matched(text)
    ensures TooDeep(text) <==> PlainDepth(text, Outside, 0) > LIMIT
  {
    PlainDepthWithinLength(text, Outside, 0);
    ErasureKeepsDepth(text, 0);
    SqueezingIsExact(EraseNotStructure(text), LIMIT);
  }

  method NestsTooDeep(text: seq<char>) returns (tooDeep: bool)
    ensures tooDeep <==> TooDeep(text)
  {
    if |text| <= LIMIT {
      return false;
    }
    var brackets := EraseNotStructure(text);
    var allowed := LIMIT;
    while |brackets| > allowed && LIMIT - allowed < NATIVE_PASSES
      invariant 0 <= allowed <= LIMIT
      invariant Squeezed(brackets, allowed) == Squeezed(EraseNotStructure(text), LIMIT)
      decreases allowed
    {
      var inner := EraseInnermostPairs(brackets);
      if |inner| == |brackets| {
        break;
      }
      brackets := inner;
      allowed := allowed - 1;
    }
    if |brackets| <= allowed {
      return false;
    }
    tooDeep := WalksPast(brackets, allowed);
  }

  /** Whether a bracket-by-bracket walk gets past `allowed`. */
  method WalksPast(brackets: seq<char>, allowed: nat) returns (past: bool)
    ensures past <==> Deepest(brackets, 0) > allowed
  {
    var depth := 0;
    for i := 0 to |brackets|
      invariant 0 <= depth <= allowed
      invariant Deepest(brackets, 0) == Max(Deepest(brackets[i..], depth), Deepest(brackets, 0))
      invariant Deepest(brackets, 0) > allowed <==> Deepest(brackets[i..], depth) > allowed
    {
      var c := brackets[i];
      assert brackets[i..][0] == c && brackets[i..][1..] == brackets[i + 1..];
      if IsOpen(c) {
        depth := depth + 1;
        if depth > allowed {
          return true;
        }
      } else if IsClose(c) && depth > 0 {
        depth := depth - 1;
      }
    }
    return false;
  }

  // ----- Matching is needed for exactness -----

  function Run(c: char, n: nat): (r: seq<char>)
    ensures |r| == n
  {
    if n == 0 then [] else [c] + Run(c, n - 1)
  }

  /** `n` square brackets closed as braces nest `n` deep; the trailing pair is all a pass can erase. */
  function Mismatched(n: nat): seq<char> {
    Run('[', n) + (Run('}', n) + "[]")
  }

  lemma OpenerFirst(s: seq<char>, n: nat, rest: seq<char>)
    requires s == Run('[', n) + rest && |rest| > 0 && !IsPair('[', rest[0])
    ensures EraseInnermostPairs(['['] + s) == ['['] + EraseInnermostPairs(s)
  {
    assert (['['] + s)[1..] == s;
    assert s[0] == if n == 0 then rest[0] else '[';
  }

  lemma {:induction false} RunStays(n: nat, rest: seq<char>)
    requires |rest| > 0 && !IsPair('[', rest[0])
    ensures EraseInnermostPairs(Run('[', n) + rest) == Run('[', n) + EraseInnermostPairs(rest)
    decreases n
  {
    var s := Run('[', n) + rest;
    if n == 0 {
      assert s == rest && Run('[', 0) + EraseInnermostPairs(rest) == EraseInnermostPairs(rest);
    } else {
      var openers := Run('[', n - 1);
      Regrouped(['['], openers, rest);
      Regrouped(['['], openers, EraseInnermostPairs(rest));
      RunStays(n - 1, rest);
      OpenerFirst(openers + rest, n - 1, rest);
    }
  }

  lemma CloserFirst(rest: seq<char>)
    ensures EraseInnermostPairs(['}'] + rest) == ['}'] + EraseInnermostPairs(rest)
  {
    assert (['}'] + rest)[1..] == rest;
  }

  lemma {:induction false} ClosersStay(n: nat, tail: seq<char>)
    ensures EraseInnermostPairs(Run('}', n) + tail) == Run('}', n) + EraseInnermostPairs(tail)
    decreases n
  {
    var s := Run('}', n) + tail;
    if n == 0 {
      assert s == tail && Run('}', 0) + EraseInnermostPairs(tail) == EraseInnermostPairs(tail);
    } else {
      var rest, erased := Run('}', n - 1), EraseInnermostPairs(tail);
      Regrouped(['}'], rest, tail);
      Regrouped(['}'], rest, erased);
      ClosersStay(n - 1, tail);
      CloserFirst(rest + tail);
    }
  }

  lemma {:induction false} OpenersDeepen(n: nat, rest: seq<char>, depth: nat)
    ensures Deepest(Run('[', n) + rest, depth) == Deepest(rest, depth + n)
    decreases n
  {
    var s := Run('[', n) + rest;
    if n == 0 {
      assert s == rest;
    } else {
      assert s[1..] == Run('[', n - 1) + rest;
      OpenersDeepen(n - 1, rest, depth + 1);
    }
  }

  lemma {:induction false} ClosersOnlyRise(n: nat, tail: seq<char>, depth: nat)
    requires n <= depth
    ensures Deepest(Run('}', n) + tail, depth) == Max(depth, Deepest(tail, depth - n))
    decreases n
  {
    var s := Run('}', n) + tail;
    if n == 0 {
      assert s == tail;
    } else {
      assert s[1..] == Run('}', n - 1) + tail;
      ClosersOnlyRise(n - 1, tail, depth - 1);
    }
  }

  lemma {:induction false} BracketsStay(s: seq<char>, depth: nat)
    requires forall i :: 0 <= i < |s| ==> IsOpen(s[i]) || IsClose(s[i])
    ensures EraseNotStructure(s) == s && ModeAfter(s, Outside) == Outside
    ensures PlainDepth(s, Outside, depth) == Deepest(s, depth)
    decreases |s|
  {
    if s != [] {
      BracketsStay(s[1..], Stepped(depth, s[0]));
      assert s == [s[0]] + s[1..];
    }
  }

  lemma {:induction false} RunHolds(c: char, n: nat)
    ensures forall i :: 0 <= i < n ==> Run(c, n)[i] == c
  {
    if n > 0 {
      RunHolds(c, n - 1);
    }
  }

  lemma MismatchedIsBrackets(n: nat)
    ensures EraseNotStructure(Mismatched(n)) == Mismatched(n) && |Mismatched(n)| == n + n + 2
    ensures PlainDepth(Mismatched(n), Outside, 0) == Deepest(Mismatched(n), 0)
  {
    RunHolds('[', n);
    RunHolds('}', n);
    BracketsStay(Mismatched(n), 0);
  }

  lemma MismatchedDepth(n: nat)
    requires n >= 1
    ensures Deepest(Mismatched(n), 0) == n && Deepest(Run('[', n) + Run('}', n), 0) == n
  {
    var closers := Run('}', n);
    OpenersDeepen(n, closers + "[]", 0);
    ClosersOnlyRise(n, "[]", n);
    assert "[]"[1..] == "]" && "]"[1..] == "";
    OpenersDeepen(n, closers, 0);
    ClosersOnlyRise(n, "", n);
    assert closers + "" == closers;
  }

  lemma MismatchedErases(n: nat)
    requires n >= 1
    ensures var left := Run('[', n) + Run('}', n);
      EraseInnermostPairs(Mismatched(n)) == left && EraseInnermostPairs(left) == left
  {
    var closers := Run('}', n);
    RunHolds('}', n);
    RunStays(n, closers + "[]");
    ClosersStay(n, "[]");
    assert "[]"[2..] == "" && closers + "" == closers;
    RunStays(n, closers);
    ClosersStay(n, "");
  }

  /** The guard refuses a mismatched text that nests no deeper than the limit. */
  lemma GuardRefusesMismatched(n: nat)
    requires n == LIMIT
    ensures TooDeep(Mismatched(n)) && PlainDepth(Mismatched(n), Outside, 0) == n
  {
    var text, left := Mismatched(n), Run('[', n) + Run('}', n);
    MismatchedIsBrackets(n);
    MismatchedDepth(n);
    MismatchedErases(n);
    assert Squeezed(left, LIMIT - 1) == (left, LIMIT - 1);
  }

  // ----- Nor is it only brackets of different kinds -----

  lemma {:induction false} OpenersStay(n: nat)
    ensures EraseInnermostPairs(Run('[', n)) == Run('[', n)
  {
    if n >= 2 {
      assert Run('[', n)[1] == Run('[', n - 1)[0] == '[';
      assert Run('[', n)[1..] == Run('[', n - 1);
      OpenersStay(n - 1);
    }
  }

  lemma OpenersDepth(n: nat)
    ensures Deepest(Run('[', n), 0) == n
  {
    OpenersDeepen(n, [], 0);
    assert Run('[', n) + [] == Run('[', n);
  }

  /** A pair in front of the openers: the first pass erases it and lowers nothing. */
  lemma GuardRefusesLeadingPair(n: nat)
    requires n == LIMIT
    ensures var text := "[]" + Run('[', n); TooDeep(text) && PlainDepth(text, Outside, 0) == n
  {
    var text, openers := "[]" + Run('[', n), Run('[', n);
    RunHolds('[', n);
    BracketsStay(text, 0);
    OpenersDepth(n);
    OpenersStay(n);
    assert text[2..] == openers && text[1..] == [']'] + openers && ([']'] + openers)[1..] == openers;
    assert EraseInnermostPairs(text) == openers;
    assert Squeezed(openers, LIMIT - 1) == (openers, LIMIT - 1);
  }

  lemma {:induction false} NoQuoteNoEnd(n: nat)
    ensures LiteralEnd(Run('[', n)) == -1
  {
    if n > 0 {
      assert Run('[', n)[1..] == Run('[', n - 1);
      NoQuoteNoEnd(n - 1);
    }
  }

  /** A literal that never closes: the scan is inside it, the guard counts what it holds. */
  lemma GuardRefusesOpenLiteral(n: nat)
    requires n == LIMIT + 1
    ensures var text := ['"'] + Run('[', n); TooDeep(text) && PlainDepth(text, Outside, 0) == 0
  {
    var text, openers := ['"'] + Run('[', n), Run('[', n);
    assert text[1..] == openers;
    NoQuoteNoEnd(n);
    LiteralSkipped(openers, 0);
    RunHolds('[', n);
    BracketsStay(openers, 0);
    assert EraseNotStructure(text) == text;
    OpenersDepth(n);
    OpenersStay(n);
    assert EraseInnermostPairs(text) == ['"'] + openers;
    assert Squeezed(text, LIMIT) == (text, LIMIT);
  }
}
