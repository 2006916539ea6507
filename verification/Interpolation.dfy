/**
 Text nodes with `{{ expression }}` sites, after crates/xript-expr/src/interpolate.rs: splitting a
 text into literal and expression segments, and spelling segments back as text.
 */
module Interpolation {
  import opened Prelude

  datatype Segment = Literal(text: string) | Expr(source: string)

  const OPEN: string := "{{"

  /** `text` starts with `{{`. */
  predicate Opens(text: string) { |text| >= 2 && text[0] == '{' && text[1] == '{' }

  /** `text` starts with `}}`. */
  predicate Closes(text: string) { |text| >= 2 && text[0] == '}' && text[1] == '}' }

  /** `text` starts with an escape, a backslash before `{{`. */
  predicate Escapes(text: string) { |text| >= 3 && text[0] == '\\' && text[1] == '{' && text[2] == '{' }

  /** WhiteSpace plus LineTerminator, sections 12.2 and 12.3 of ECMA-262. */
  predicate IsJsWhitespace(c: char) {
    var u := c as int;
    || u in {0x9, 0xA, 0xB, 0xC, 0xD, 0x20, 0xA0, 0xFEFF, 0x2028, 0x2029, 0x1680, 0x202F, 0x205F, 0x3000}
    || 0x2000 <= u <= 0x200A
  }

  function TrimStart(s: string): string {
    if s != "" && IsJsWhitespace(s[0]) then TrimStart(s[1..]) else s
  }

  function TrimEnd(s: string): string {
    if s != "" && IsJsWhitespace(s[|s| - 1]) then TrimEnd(s[..|s| - 1]) else s
  }

  function Trim(s: string): string {
    TrimEnd(TrimStart(s))
  }

  /** Where the first `}}` starts, or -1. */
  function FindClose(s: string): (at: int)
    ensures at == -1 || (0 <= at <= |s| - 2 && Closes(s[at..]))
  {
    if Closes(s) then 0
    else if |s| < 2 then -1
    else
      var rest := FindClose(s[1..]);
      if rest == -1 then -1 else rest + 1
  }

  /** The literal gathered so far, as a segment if it holds anything. */
  function Flushed(literal: string): seq<Segment> {
    if literal == "" then [] else [Literal(literal)]
  }

  /** The segments of `text` when `literal` has been gathered before it. */
  function Split(text: string, literal: string): seq<Segment>
    decreases |text|
  {
    if text == "" then Flushed(literal)
    else if Escapes(text) then Split(text[3..], literal + OPEN)
    else if !Opens(text) then Split(text[1..], literal + [text[0]])
    else
      var close := FindClose(text[2..]);
      if close == -1 then Split(text[2..], literal + OPEN)
      else Flushed(literal) + [Expr(Trim(text[2..2 + close]))] + Split(text[2 + close + 2..], "")
  }

  /** Whether the scan of `text` meets an escape or a closed site. */
  predicate Changes(text: string)
    decreases |text|
  {
    if text == "" then false
    else if Escapes(text) then true
    else if !Opens(text) then Changes(text[1..])
    else if FindClose(text[2..]) == -1 then Changes(text[2..])
    else true
  }

  /** The segments of a text node, or None when the scan changes nothing. */
  function Segments(text: string): Option<seq<Segment>> {
    if Changes(text) then Some(Split(text, "")) else None
  }

  /** What the scan has done so far agrees with splitting the whole text. */
  predicate Scanned(text: string, i: nat, segments: seq<Segment>, literal: string, changed: bool) {
    && i <= |text|
    && segments + Split(text[i..], literal) == Split(text, "")
    && (Changes(text) <==> changed || Changes(text[i..]))
  }

  /** A site found ends the gathered literal and starts the next one empty. */
  lemma SiteScanned(text: string, i: nat, segments: seq<Segment>, literal: string, changed: bool, close: nat)
    requires Scanned(text, i, segments, literal, changed)
    requires Opens(text[i..]) && FindClose(text[i..][2..]) == close
    ensures i + close + 4 <= |text|
    ensures Scanned(text, i + close + 4,
                    segments + Flushed(literal) + [Expr(Trim(text[i + 2..i + 2 + close]))], "", true)
  {
    hide FindClose, Trim, Flushed;
    var here := text[i..];
    assert here[2..][..close] == text[i + 2..i + 2 + close] == here[2..2 + close];
    assert here[2 + close + 2..] == text[i + close + 4..];
    var tail := Split(text[i + close + 4..], "");
    assert segments + (Flushed(literal) + [Expr(Trim(here[2..2 + close]))] + tail)
        == segments + Flushed(literal) + [Expr(Trim(here[2..2 + close]))] + tail;
  }

  /** Without a closed site, a step gathers what it reads, an escape losing its backslash. */
  lemma PieceScanned(text: string, i: nat, segments: seq<Segment>, literal: string, changed: bool)
    requires Scanned(text, i, segments, literal, changed) && i < |text|
    ensures Escapes(text[i..]) ==> i + 3 <= |text| && Scanned(text, i + 3, segments, literal + OPEN, true)
    ensures !Escapes(text[i..]) && !Opens(text[i..]) ==>
              Scanned(text, i + 1, segments, literal + [text[i]], changed)
    ensures Opens(text[i..]) && FindClose(text[i..][2..]) == -1 ==>
              i + 2 <= |text| && Scanned(text, i + 2, segments, literal + OPEN, changed)
  {
    var here := text[i..];
    assert |here| >= 3 ==> here[3..] == text[i + 3..];
    assert here[1..] == text[i + 1..];
    assert |here| >= 2 ==> here[2..] == text[i + 2..];
  }

  lemma ScanStarts(text: string)
    ensures Scanned(text, 0, [], "", false)
  {
    assert text[0..] == text;
    assert [] + Split(text, "") == Split(text, "");
  }

  lemma ScanEnds(text: string, segments: seq<Segment>, literal: string, changed: bool)
    requires Scanned(text, |text|, segments, literal, changed)
    ensures Segments(text) == if changed then Some(segments + Flushed(literal)) else None
  {
  }

  method SegmentText(text: string) returns (r: Option<seq<Segment>>)
    ensures r == Segments(text)
  {
    hide Split, Changes, FindClose, Trim, Scanned, Segments;
    var segments: seq<Segment> := [];
    var literal := "";
    var changed := false;
    var i := 0;
    ScanStarts(text);
    while i < |text|
      invariant 0 <= i <= |text|
      invariant Scanned(text, i, segments, literal, changed)
    {
      PieceScanned(text, i, segments, literal, changed);
      if Escapes(text[i..]) {
        literal := literal + OPEN;
        changed := true;
        i := i + 3;
      } else if !Opens(text[i..]) {
        literal := literal + [text[i]];
        i := i + 1;
      } else {
        var close := FindClose(text[i..][2..]);
        if close == -1 {
          literal := literal + OPEN;
          i := i + 2;
        } else {
          SiteScanned(text, i, segments, literal, changed, close);
          var body := text[i + 2..i + 2 + close];
          changed := true;
          segments := segments + Flushed(literal) + [Expr(Trim(body))];
          literal := "";
          i := i + close + 4;
        }
      }
    }
    ScanEnds(text, segments, literal, changed);
    r := if changed then Some(segments + Flushed(literal)) else None;
  }

  /** A literal spelled so that none of its `{{` opens a site. */
  function Escaped(literal: string): string {
    if literal == "" then ""
    else if Opens(literal) then "\\{{" + Escaped(literal[2..])
    else [literal[0]] + Escaped(literal[1..])
  }

  function Spelled(segment: Segment): string {
    match segment
    case Literal(text) => Escaped(text)
    case Expr(source) => "{{ " + source + " }}"
  }

  function SegmentsToSource(segments: seq<Segment>): string {
    if segments == [] then "" else Spelled(segments[0]) + SegmentsToSource(segments[1..])
  }

  /** How many `{` a text ends in. */
  function TrailingBraces(s: string): nat {
    if s != "" && s[|s| - 1] == '{' then 1 + TrailingBraces(s[..|s| - 1]) else 0
  }

  // ----- What splitting produces -----

  /** How a literal that stands before a site ends: never in a backslash, and never in a lone brace. */
  predicate SafeEnd(literal: string) {
    literal != "" ==>
      && literal[|literal| - 1] != '\\'
      && (literal[|literal| - 1] == '{' ==> |literal| >= 2 && literal[|literal| - 2] == '{')
  }

  predicate WellFormed(segments: seq<Segment>) {
    segments == [] ||
    match segments[0]
    case Literal(text) =>
      text != "" && (|segments| > 1 ==> segments[1].Expr? && SafeEnd(text)) && WellFormed(segments[1..])
    case Expr(source) => Trim(source) == source && FindClose(source) == -1 && WellFormed(segments[1..])
  }

  lemma {:induction false} FirstClose(s: string, at: nat)
    requires FindClose(s) == at
    ensures at + 2 <= |s| && FindClose(s[..at]) == -1
    decreases |s|
  {
    if at > 0 {
      FirstClose(s[1..], at - 1);
      assert s[..at][1..] == s[1..][..at - 1];
    }
  }

  lemma {:induction false} TrimKeepsClosed(s: string)
    requires FindClose(s) == -1
    ensures FindClose(TrimStart(s)) == -1 && FindClose(TrimEnd(s)) == -1
    decreases |s|
  {
    if s != "" {
      assert FindClose(s[1..]) == -1;
      FindCloseInFront(s, |s| - 1);
      TrimKeepsClosed(s[1..]);
      TrimKeepsClosed(s[..|s| - 1]);
    }
  }

  lemma {:induction false} FindCloseInFront(s: string, n: nat)
    requires FindClose(s) == -1 && n <= |s|
    ensures FindClose(s[..n]) == -1
    decreases |s|
  {
    if n > 0 {
      FindCloseInFront(s[1..], n - 1);
      assert s[..n][1..] == s[1..][..n - 1];
    }
  }

  lemma {:induction false} TrimStartTrims(s: string)
    ensures TrimStart(s) == "" || !IsJsWhitespace(TrimStart(s)[0])
  {
    if s != "" {
      TrimStartTrims(s[1..]);
    }
  }

  lemma {:induction false} TrimEndTrims(s: string)
    ensures TrimEnd(s) <= s
    ensures TrimEnd(s) == "" || !IsJsWhitespace(TrimEnd(s)[|TrimEnd(s)| - 1])
    decreases |s|
  {
    if s != "" {
      TrimEndTrims(s[..|s| - 1]);
    }
  }

  lemma TrimTwice(s: string)
    ensures Trim(Trim(s)) == Trim(s)
  {
    TrimStartTrims(s);
    TrimEndTrims(TrimStart(s));
  }

  lemma SiteIsWellFormed(literal: string, source: string, rest: seq<Segment>)
    requires SafeEnd(literal) && Trim(source) == source && FindClose(source) == -1 && WellFormed(rest)
    ensures WellFormed(Flushed(literal) + [Expr(source)] + rest)
  {
    var site := [Expr(source)] + rest;
    assert site[1..] == rest;
    if literal == "" {
      assert Flushed(literal) + [Expr(source)] + rest == site;
    } else {
      assert ([Literal(literal)] + site)[1..] == site;
      assert Flushed(literal) + [Expr(source)] + rest == [Literal(literal)] + site;
    }
  }

  lemma {:induction false} SplitIsWellFormed(text: string, literal: string)
    requires Opens(text) ==> SafeEnd(literal)
    ensures WellFormed(Split(text, literal))
    decreases |text|
  {
    if text == "" {
    } else if Escapes(text) {
      SplitIsWellFormed(text[3..], literal + OPEN);
    } else if !Opens(text) {
      SplitIsWellFormed(text[1..], literal + [text[0]]);
    } else {
      var close := FindClose(text[2..]);
      if close == -1 {
        SplitIsWellFormed(text[2..], literal + OPEN);
      } else {
        var body := text[2..2 + close];
        FirstClose(text[2..], close);
        assert body == text[2..][..close];
        SplitIsWellFormed(text[2 + close + 2..], "");
        TrimKeepsClosed(body);
        TrimKeepsClosed(TrimStart(body));
        TrimTwice(body);
        SiteIsWellFormed(literal, Trim(body), Split(text[2 + close + 2..], ""));
      }
    }
  }

  // ----- Splitting what was spelled -----

  lemma {:induction false} TrailingOfTail(literal: string)
    requires |literal| >= 2
    ensures Opens(literal) ==> TrailingBraces(literal) % 2 == TrailingBraces(literal[2..]) % 2
    ensures !Opens(literal) ==> TrailingBraces(literal) == TrailingBraces(literal[1..])
    decreases |literal|
  {
    var front := literal[..|literal| - 1];
    if literal[|literal| - 1] == '{' && |literal| > 2 {
      TrailingOfTail(front);
      assert front[2..] == literal[2..][..|literal| - 3];
      assert front[1..] == literal[1..][..|literal| - 2];
    } else if |literal| == 2 {
      assert literal[2..] == "" && front == [literal[0]] && front[..0] == "" && literal[1..][..0] == "";
    }
  }

  /** What follows cannot combine with the end of the literal into a site or an escape. */
  predicate Apart(literal: string, rest: string) {
    rest != "" && rest[0] == '{' ==>
      TrailingBraces(literal) % 2 == 0 && (literal == "" || literal[|literal| - 1] != '\\')
  }

  lemma EscapeTaken(literal: string, rest: string, gathered: string)
    requires Opens(literal)
    ensures Split(Escaped(literal) + rest, gathered) == Split(Escaped(literal[2..]) + rest, gathered + OPEN)
  {
    var text := Escaped(literal) + rest;
    assert Escapes(text) && text[3..] == Escaped(literal[2..]) + rest;
  }

  lemma DropFirst(a: string, b: string)
    requires a != ""
    ensures (a + b)[0] == a[0] && (a + b)[1..] == a[1..] + b
  {
  }

  lemma CharacterTaken(literal: string, rest: string, gathered: string)
    requires literal != "" && !Opens(literal) && Apart(literal, rest)
    ensures Split(Escaped(literal) + rest, gathered) == Split(Escaped(literal[1..]) + rest, gathered + [literal[0]])
  {
    EscapedStarts(literal, rest);
    assert Escaped(literal) != "" && Escaped(literal)[0] == literal[0];
    assert Escaped(literal)[1..] == Escaped(literal[1..]);
    DropFirst(Escaped(literal), rest);
    hide FindClose, Trim, TrailingBraces, Escaped;
  }

  /** How much of the literal the scan takes in one step. */
  function TakenLength(literal: string): nat {
    if Opens(literal) then 2 else 1
  }

  lemma StaysApart(literal: string, rest: string)
    requires literal != "" && Apart(literal, rest)
    ensures Apart(literal[TakenLength(literal)..], rest)
  {
    if |literal| >= 2 {
      TrailingOfTail(literal);
    }
  }

  lemma StepTaken(literal: string, rest: string, gathered: string)
    requires literal != "" && Apart(literal, rest)
    ensures var n := TakenLength(literal);
      Split(Escaped(literal) + rest, gathered) == Split(Escaped(literal[n..]) + rest, gathered + literal[..n])
  {
    if Opens(literal) {
      assert literal[..2] == OPEN;
      EscapeTaken(literal, rest, gathered);
    } else {
      assert literal[..1] == [literal[0]];
      CharacterTaken(literal, rest, gathered);
    }
  }

  /** A spelled literal is gathered again, whole, and the scan stands at what follows it. */
  lemma {:induction false} LiteralComesBack(literal: string, rest: string, gathered: string)
    requires Apart(literal, rest)
    ensures Split(Escaped(literal) + rest, gathered) == Split(rest, gathered + literal)
    decreases |literal|
  {
    if literal == "" {
      assert Escaped(literal) + rest == rest && gathered + literal == gathered;
    } else {
      hide Split, Escaped, TrailingBraces, Apart;
      var n := TakenLength(literal);
      StepTaken(literal, rest, gathered);
      StaysApart(literal, rest);
      LiteralComesBack(literal[n..], rest, gathered + literal[..n]);
      Regrouped(gathered, literal[..n], literal[n..]);
      assert literal[..n] + literal[n..] == literal;
    }
  }

  /** A literal that does not start with `{{` is spelled so that the scan takes its first character alone. */
  lemma EscapedStarts(literal: string, rest: string)
    requires literal != "" && !Opens(literal) && Apart(literal, rest)
    ensures var text := Escaped(literal) + rest; !Opens(text) && !Escapes(text)
  {
    var text, tail := Escaped(literal) + rest, literal[1..];
    assert Escaped(literal) == [literal[0]] + Escaped(tail);
    if tail == "" {
      assert literal[..0] == "" && TrailingBraces("") == 0;
    } else if !Opens(tail) {
      assert Escaped(tail) == [tail[0]] + Escaped(tail[1..]);
      if tail[1..] == "" {
        assert literal[..1] == [literal[0]] && literal[..1][..0] == "";
        assert tail[0] == '{' && literal[0] != '{' ==> TrailingBraces(literal) == 1;
      }
    }
  }

  /** With no `}}` in a source, the first one after it is the one that closes its site. */
  lemma {:induction false} CloseAfter(source: string, tail: string)
    requires FindClose(source) == -1 && |tail| >= 3 && tail[0] == ' ' && Closes(tail[1..])
    ensures FindClose(source + tail) == |source| + 1
    decreases |source|
  {
    if source == "" {
      assert source + tail == tail;
      assert FindClose(tail[1..]) == 0;
    } else {
      assert FindClose(source[1..]) == -1;
      CloseAfter(source[1..], tail);
      DropFirst(source, tail);
      assert !Closes(source + tail);
    }
  }

  lemma TrimPadded(source: string)
    requires Trim(source) == source
    ensures Trim(" " + source + " ") == source
  {
    var padded := " " + source + " ";
    assert padded[1..] == source + " ";
    if source == "" {
      assert source + " " == " " && " "[1..] == "";
      assert TrimStart(padded) == TrimStart(" ") == TrimStart("") == "";
    } else {
      TrimStartTrims(source);
      TrimStartShortens(source);
      TrimEndTrims(TrimStart(source));
      TrimEndTrims(source);
      assert TrimStart(padded) == source + " ";
      assert (source + " ")[..|source|] == source;
    }
  }

  lemma {:induction false} TrimStartShortens(s: string)
    ensures |TrimStart(s)| <= |s|
  {
    if s != "" {
      TrimStartShortens(s[1..]);
    }
  }

  /** A spelled site closes at its own `}}` and gives its source back. */
  lemma SiteSlices(source: string, rest: string)
    ensures var text := "{{ " + source + " }}" + rest;
      && text[2..] == " " + source + (" }}" + rest)
      && text[2..4 + |source|] == " " + source + " "
      && text[6 + |source|..] == rest
  {
  }

  lemma PaddedStaysOpen(source: string)
    requires FindClose(source) == -1
    ensures FindClose(" " + source) == -1
  {
    assert (" " + source)[1..] == source && !Closes(" " + source);
  }

  lemma SiteComesBack(source: string, rest: string, gathered: string)
    requires Trim(source) == source && FindClose(source) == -1
    ensures Split("{{ " + source + " }}" + rest, gathered) == Flushed(gathered) + [Expr(source)] + Split(rest, "")
  {
    PaddedStaysOpen(source);
    assert FindClose((" }}" + rest)[1..]) == 0;
    CloseAfter(" " + source, " }}" + rest);
    TrimPadded(source);
    SiteSlices(source, rest);
    hide FindClose, Trim;
  }

  /** No literal that stands directly before a site ends in an odd run of braces. */
  predicate EvenBeforeSites(segments: seq<Segment>) {
    forall k :: 0 <= k < |segments| - 1 && segments[k].Literal? && segments[k + 1].Expr? ==>
      TrailingBraces(segments[k].text) % 2 == 0
  }

  /** The scan of spelled segments that start with a site. */
  lemma SiteFirst(segments: seq<Segment>, gathered: string)
    requires segments != [] && segments[0].Expr? && WellFormed(segments)
    ensures Split(SegmentsToSource(segments), gathered)
         == Flushed(gathered) + [segments[0]] + Split(SegmentsToSource(segments[1..]), "")
    ensures SegmentsToSource(segments) != "" && SegmentsToSource(segments)[0] == '{'
  {
    SiteComesBack(segments[0].source, SegmentsToSource(segments[1..]), gathered);
  }

  /** The scan of spelled segments that start with a literal whose end cannot be misread. */
  lemma LiteralFirst(segments: seq<Segment>)
    requires segments != [] && segments[0].Literal? && WellFormed(segments)
    requires |segments| > 1 ==> TrailingBraces(segments[0].text) % 2 == 0
    ensures Split(SegmentsToSource(segments), "") == Split(SegmentsToSource(segments[1..]), segments[0].text)
  {
    var text := segments[0].text;
    LiteralComesBack(text, SegmentsToSource(segments[1..]), "");
    assert "" + text == text;
  }

  lemma {:induction false} SpelledSegmentsComeBack(segments: seq<Segment>)
    requires WellFormed(segments) && EvenBeforeSites(segments)
    ensures Split(SegmentsToSource(segments), "") == segments
    decreases |segments|
  {
    if segments != [] {
      var rest := segments[1..];
      if segments[0].Expr? {
        SpelledSegmentsComeBack(rest);
        SiteFirst(segments, "");
      } else {
        LiteralFirst(segments);
        if rest != [] {
          SpelledSegmentsComeBack(rest[1..]);
          SiteFirst(rest, segments[0].text);
          assert segments == [segments[0]] + [rest[0]] + rest[1..];
        }
      }
    }
  }

  lemma {:induction false} EscapedOfOdd(literal: string)
    requires TrailingBraces(literal) % 2 == 1
    ensures Escaped(literal) == Escaped(literal[..|literal| - 1]) + "{"
    ensures TrailingBraces(literal[..|literal| - 1]) % 2 == 0
    decreases |literal|
  {
    var front := literal[..|literal| - 1];
    if |literal| == 1 {
      assert literal == "{" && literal[1..] == "" && Escaped("") == "";
    } else if Opens(literal) {
      TrailingOfTail(literal);
      assert TrailingBraces(literal[2..]) % 2 == 1;
      EscapedOfOdd(literal[2..]);
      assert front[2..] == literal[2..][..|literal| - 3];
    } else {
      TrailingOfTail(literal);
      EscapedOfOdd(literal[1..]);
      assert front[1..] == literal[1..][..|literal| - 2];
      assert !Opens(front);
    }
  }

  /** A brace right before a spelled site opens the site one brace early. */
  lemma SiteOpensEarly(source: string, rest: string, gathered: string)
    requires FindClose(source) == -1 && gathered != ""
    ensures var back := Split("{" + ("{{ " + source + " }}" + rest), gathered);
      back != [] && back[0] == Literal(gathered)
  {
    var text, body := "{" + ("{{ " + source + " }}" + rest), "{ " + source;
    assert text[2..] == body + (" }}" + rest);
    assert body[1..] == " " + source && (" " + source)[1..] == source;
    CloseAfter(body, " }}" + rest);
  }

  predicate StartsWith(segments: seq<Segment>, text: string) {
    segments != [] && segments[0] == Literal(text)
  }

  /** A literal ending in an odd run lends its last brace to the site after it. */
  lemma OddLiteralLosesBrace(text: string, site: string)
    requires text != "" && SafeEnd(text) && TrailingBraces(text) % 2 == 1
    requires StartsWith(Split("{" + site, text[..|text| - 1]), text[..|text| - 1])
    ensures StartsWith(Split(Escaped(text) + site, ""), text[..|text| - 1])
  {
    var front := text[..|text| - 1];
    EscapedOfOdd(text);
    Regrouped(Escaped(front), "{", site);
    LiteralComesBack(front, "{" + site, "");
    assert "" + front == front;
  }

  lemma OddFirst(segments: seq<Segment>)
    requires |segments| > 1 && segments[0].Literal? && WellFormed(segments)
    requires TrailingBraces(segments[0].text) % 2 == 1
    ensures !StartsWith(Split(SegmentsToSource(segments), ""), segments[0].text)
  {
    var text, rest := segments[0].text, segments[1..];
    SiteOpensEarly(rest[0].source, SegmentsToSource(rest[1..]), text[..|text| - 1]);
    OddLiteralLosesBrace(text, SegmentsToSource(rest));
  }

  /** The odd literal is past the first segment, or past the first two. */
  lemma OddLater(segments: seq<Segment>, n: nat)
    requires !EvenBeforeSites(segments) && n <= |segments|
    requires forall k :: 0 <= k < n && k < |segments| - 1 && segments[k].Literal? && segments[k + 1].Expr? ==>
               TrailingBraces(segments[k].text) % 2 == 0
    ensures !EvenBeforeSites(segments[n..])
  {
    var k :| 0 <= k < |segments| - 1 && segments[k].Literal? && segments[k + 1].Expr?
             && TrailingBraces(segments[k].text) % 2 != 0;
    assert segments[n..][k - n] == segments[k] && segments[n..][k - n + 1] == segments[k + 1];
  }

  lemma {:induction false} OddSegmentsDoNotComeBack(segments: seq<Segment>)
    requires WellFormed(segments) && !EvenBeforeSites(segments)
    ensures Split(SegmentsToSource(segments), "") != segments
    decreases |segments|
  {
    if segments[0].Expr? {
      OddLater(segments, 1);
      OddSegmentsDoNotComeBack(segments[1..]);
      SiteFirst(segments, "");
    } else if TrailingBraces(segments[0].text) % 2 == 1 {
      OddFirst(segments);
    } else {
      OddLater(segments, 2);
      assert segments[1..][1..] == segments[2..];
      OddSegmentsDoNotComeBack(segments[2..]);
      LiteralFirst(segments);
      SiteFirst(segments[1..], segments[0].text);
      assert segments == [segments[0]] + [segments[1]] + segments[2..];
    }
  }

  // ----- When the scan of spelled segments changes something -----

  predicate HasSite(segments: seq<Segment>) {
    exists k :: 0 <= k < |segments| && segments[k].Expr?
  }

  lemma {:induction false} UnchangedIsLiteral(text: string, literal: string)
    requires !Changes(text)
    ensures Split(text, literal) == Flushed(literal + text)
    decreases |text|
  {
    if text == "" {
      assert literal + text == literal;
    } else if !Opens(text) {
      UnchangedIsLiteral(text[1..], literal + [text[0]]);
      assert literal + [text[0]] + text[1..] == literal + text;
    } else {
      UnchangedIsLiteral(text[2..], literal + OPEN);
      assert literal + OPEN + text[2..] == literal + text;
    }
  }

  ghost predicate HasOpen(s: string) {
    exists i :: OpensAt(s, i)
  }

  predicate OpensAt(s: string, i: int) {
    0 <= i && i + 2 <= |s| && s[i] == '{' && s[i + 1] == '{'
  }

  lemma SiteBetween(before: seq<Segment>, source: string, after: seq<Segment>)
    ensures HasSite(before + [Expr(source)] + after)
  {
    assert (before + [Expr(source)] + after)[|before|] == Expr(source);
  }

  /** With no site found, everything gathered ends up in one literal. */
  lemma {:induction false} OneLiteral(text: string, literal: string)
    requires !HasSite(Split(text, literal))
    ensures exists whole ::
      Split(text, literal) == Flushed(whole) && literal <= whole && (Changes(text) ==> HasOpen(whole))
    decreases |text|
  {
    if text == "" {
      assert Split(text, literal) == Flushed(literal);
    } else if Escapes(text) {
      OneLiteral(text[3..], literal + OPEN);
      var whole :| Split(text[3..], literal + OPEN) == Flushed(whole) && literal + OPEN <= whole;
      assert OpensAt(whole, |literal|);
      assert Split(text, literal) == Flushed(whole) && literal <= whole;
    } else if !Opens(text) {
      OneLiteral(text[1..], literal + [text[0]]);
    } else {
      var close := FindClose(text[2..]);
      if close == -1 {
        OneLiteral(text[2..], literal + OPEN);
      } else {
        SiteBetween(Flushed(literal), Trim(text[2..2 + close]), Split(text[2 + close + 2..], ""));
      }
    }
  }

  lemma {:induction false} EscapingLengthens(s: string)
    ensures |Escaped(s)| >= |s|
    ensures HasOpen(s) ==> |Escaped(s)| > |s|
    decreases |s|
  {
    if s != "" {
      if Opens(s) {
        EscapingLengthens(s[2..]);
      } else {
        EscapingLengthens(s[1..]);
        if HasOpen(s) {
          var i :| OpensAt(s, i);
          assert OpensAt(s[1..], i - 1);
        }
      }
    }
  }

  lemma SourceOfLiteral(text: string)
    ensures SegmentsToSource([Literal(text)]) == Escaped(text)
  {
    assert [Literal(text)][1..] == [] && Escaped(text) + "" == Escaped(text);
  }

  lemma SpelledSegmentsChange(text: string)
    requires Changes(text) && Split(SegmentsToSource(Split(text, "")), "") == Split(text, "")
    ensures Changes(SegmentsToSource(Split(text, "")))
  {
    var segments := Split(text, "");
    var source := SegmentsToSource(segments);
    if !Changes(source) {
      UnchangedIsLiteral(source, "");
      assert "" + source == source;
      OneLiteral(text, "");
      var whole :| Split(text, "") == Flushed(whole) && HasOpen(whole);
      SourceOfLiteral(whole);
      EscapingLengthens(whole);
    }
  }

  /**
   Spelling the segments of a text and splitting the result gives the same segments exactly when
   no literal directly before a site ends in an odd run of braces.
   */
  lemma RoundTripsExactlyWhenEven(text: string)
    requires Changes(text)
    ensures Segments(SegmentsToSource(Split(text, ""))) == Segments(text) <==> EvenBeforeSites(Split(text, ""))
  {
    SplitIsWellFormed(text, "");
    if EvenBeforeSites(Split(text, "")) {
      SpelledSegmentsComeBack(Split(text, ""));
      SpelledSegmentsChange(text);
    } else {
      OddSegmentsDoNotComeBack(Split(text, ""));
    }
  }

  lemma LetterStays(c: char)
    requires !IsJsWhitespace(c)
    ensures Trim([c]) == [c] && FindClose([c]) == -1
  {
  }

  /** Such a text exists: a lone brace, an escape, and a site that starts right behind it. */
  lemma OddRunText(text: string, site: string)
    requires text == "{\\{{" + site && site == SegmentsToSource([Expr("a")])
    ensures Changes(text) && !EvenBeforeSites(Split(text, ""))
    ensures Segments(SegmentsToSource(Split(text, ""))) != Segments(text)
  {
    OddRunIsOdd(text, site);
    RoundTripsExactlyWhenEven(text);
  }

  lemma OddRunIsOdd(text: string, site: string)
    requires text == "{\\{{" + site && site == SegmentsToSource([Expr("a")])
    ensures Changes(text) && !EvenBeforeSites(Split(text, ""))
  {
    LetterStays('a');
    assert ['a'] == "a";
    assert text[1..] == "\\{{" + site && text[1..][3..] == site;
    assert "" + [text[0]] == "{";
    assert Split(text, "") == Split(text[1..], "{") == Split(site, "{" + OPEN);
    SiteFirst([Expr("a")], "{" + OPEN);
    ThreeBraces("{" + OPEN);
    var segments := Split(text, "");
    assert segments[0] == Literal("{" + OPEN) && segments[1] == Expr("a");
  }

  lemma ThreeBraces(s: string)
    requires |s| == 3 && s[0] == '{' && s[1] == '{' && s[2] == '{'
    ensures TrailingBraces(s) == 3
  {
    assert s[..2][..1] == s[..1] && s[..1][..0] == "";
    assert TrailingBraces(s[..1]) == 1;
    assert TrailingBraces(s[..2]) == 2;
  }
}
