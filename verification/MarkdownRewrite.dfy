/** The walk over the tokens of a sanitized fragment that adds the links (apps/web/lib/thread-markdown.ts): a stack of
    the open elements decides which text runs and which code spans may be linked. */
module MarkdownRewrite {

  // What may be linked is said without the stack, by counting how many elements of a name are open after some
  // tokens.

  import opened Wrappers
  import opened HtmlTokens
  import opened Weaving
  import opened MarkdownLinks
  import C = Citations

  // ---------------------------------------------------------------------------------------------
  // What a tag says
  // ---------------------------------------------------------------------------------------------

  datatype Tag = Tag(name: string, closing: bool, selfClosing: bool)

  function SkipSpace(s: string, i: nat): (j: nat)
    ensures i <= j
    decreases |s| - i
  {
    if i < |s| && C.IsSpace(s[i]) then SkipSpace(s, i + 1) else i
  }

  function NameEnd(s: string, i: nat): (j: nat)
    ensures i <= j && (i <= |s| ==> j <= |s|)
    decreases |s| - i
  {
    if i < |s| && IsNameChar(s[i]) then NameEnd(s, i + 1) else i
  }

  function Lower(s: string): string {
    if s == "" then "" else [if 'A' <= s[0] <= 'Z' then s[0] + 32 as char else s[0]] + Lower(s[1..])
  }

  /** The tag a token starts with; white space is let through before and after the `/`. */
  function TagOf(token: string): Option<Tag> {
    if token == "" || token[0] != '<' then None
    else
      var slash := SkipSpace(token, 1);
      var closing := slash < |token| && token[slash] == '/';
      var name := if closing then SkipSpace(token, slash + 1) else slash;
      if name < |token| && IsLetter(token[name]) then
        Some(Tag(Lower(token[name..NameEnd(token, name)]), closing, |token| >= 2 && token[|token|-2..] == "/>"))
      else None
  }

  predicate IsVoid(name: string) {
    name in {"br", "col", "hr", "img", "input", "link", "meta", "source", "wbr"}
  }

  predicate StartsTag(token: string) { token != "" && token[0] == '<' }

  predicate ClosesTag(token: string, name: string) {
    var info := TagOf(token);
    info.Some? && info.value.closing && info.value.name == name
  }

  predicate OpensTag(token: string, name: string) {
    var info := TagOf(token);
    info.Some? && !info.value.closing && !info.value.selfClosing && !IsVoid(info.value.name) && info.value.name == name
  }

  /** How many elements of a name are open after the tokens; a closing tag with nothing to close changes nothing. */
  ghost function Depth(tokens: seq<string>, name: string): nat {
    if tokens == [] then 0
    else
      var before, last := Depth(tokens[..|tokens|-1], name), tokens[|tokens|-1];
      if OpensTag(last, name) then before + 1 else if ClosesTag(last, name) && before > 0 then before - 1 else before
  }

  lemma DepthPush(tokens: seq<string>, i: nat, name: string)
    requires i < |tokens|
    ensures Depth(tokens[..i+1], name)
      == var before := Depth(tokens[..i], name);
         if OpensTag(tokens[i], name) then before + 1 else if ClosesTag(tokens[i], name) && before > 0 then before - 1 else before
  {
    assert tokens[..i+1][..i] == tokens[..i];
  }

  // ---------------------------------------------------------------------------------------------
  // Which anchors belong there
  // ---------------------------------------------------------------------------------------------

  /** A text run outside every link, fenced block and code span. */
  ghost predicate MayLink(tokens: seq<string>, i: nat) {
    && i < |tokens| && !StartsTag(tokens[i])
    && Depth(tokens[..i], "a") == 0 && Depth(tokens[..i], "pre") == 0 && Depth(tokens[..i], "code") == 0
  }

  /** The opening of the first occurrence that is the whole text. */
  function WholeOf(all: seq<Anchor>, length: nat): Option<string> {
    if all == [] then None
    else if all[0].start == 0 && all[0].end == length then Some(all[0].opening)
    else WholeOf(all[1..], length)
  }

  /** The k-th occurrence, with this opening, is the whole text, and none before it is. */
  predicate IsFirstWhole(all: seq<Anchor>, length: nat, opening: string, k: int) {
    && 0 <= k < |all| && all[k] == Anchor(0, length, opening)
    && forall j :: 0 <= j < k ==> !(all[j].start == 0 && all[j].end == length)
  }

  lemma {:induction false} WholeExactly(all: seq<Anchor>, length: nat, opening: string)
    ensures WholeOf(all, length) == Some(opening) <==> exists k :: IsFirstWhole(all, length, opening, k)
    decreases |all|
  {
    if all != [] {
      var rest := all[1..];
      WholeExactly(rest, length, opening);
      assert forall j :: 0 <= j < |rest| ==> rest[j] == all[j+1];
      if all[0].start == 0 && all[0].end == length {
        assert all[0].opening == opening ==> IsFirstWhole(all, length, opening, 0);
      } else {
        if k :| IsFirstWhole(rest, length, opening, k) { assert IsFirstWhole(all, length, opening, k + 1); }
        if k :| IsFirstWhole(all, length, opening, k) { WholeLater(all, length, opening, k); }
      }
    }
  }

  lemma WholeLater(all: seq<Anchor>, length: nat, opening: string, k: int)
    requires IsFirstWhole(all, length, opening, k) && k > 0
    ensures IsFirstWhole(all[1..], length, opening, k - 1)
  {
    assert forall j :: 0 <= j < |all| - 1 ==> all[1..][j] == all[j+1];
  }

  /** a is one of the links of the text run i. */
  ghost predicate LinksText(tokens: seq<string>, cuts: seq<nat>, finder: Finder, i: nat, a: Anchor) {
    MayLink(tokens, i) && i < |cuts| && exists all, b :: IsAll(tokens[i], finder, all) && b in Linked(tokens[i], all) && a == Shift(b, cuts[i])
  }

  /** A code span outside every link and fenced block, closed right after its one text run. */
  ghost predicate IsCodeSpan(tokens: seq<string>, i: nat) {
    && i + 2 < |tokens| && OpensTag(tokens[i], "code") && !StartsTag(tokens[i+1]) && ClosesTag(tokens[i+2], "code")
    && Depth(tokens[..i], "a") == 0 && Depth(tokens[..i], "pre") == 0
  }

  /** a is put around the whole code span that starts at token i, whose text is one occurrence. */
  ghost predicate LinksCode(tokens: seq<string>, cuts: seq<nat>, finder: Finder, i: nat, a: Anchor) {
    && IsCodeSpan(tokens, i) && i + 3 < |cuts| && a.start == cuts[i] && a.end == cuts[i+3]
    && OccursWhole(tokens[i+1], finder, a.opening)
  }

  /** The whole text is an occurrence, linked with this opening. */
  ghost predicate OccursWhole(text: string, finder: Finder, opening: string) {
    exists all :: IsAll(text, finder, all) && WholeOf(all, |text|) == Some(opening)
  }

  ghost predicate Links(tokens: seq<string>, cuts: seq<nat>, finder: Finder, i: nat, a: Anchor) {
    LinksText(tokens, cuts, finder, i, a) || LinksCode(tokens, cuts, finder, i, a)
  }

  /** The anchors are those of the first n tokens. */
  ghost predicate AreLinks(tokens: seq<string>, cuts: seq<nat>, finder: Finder, n: nat, anchors: seq<Anchor>) {
    forall a :: a in anchors <==> LinksBelow(tokens, cuts, finder, n, a)
  }

  ghost predicate LinksBelow(tokens: seq<string>, cuts: seq<nat>, finder: Finder, n: nat, a: Anchor) {
    exists i: nat :: i < n && Links(tokens, cuts, finder, i, a)
  }

  // ---------------------------------------------------------------------------------------------
  // The walk
  // ---------------------------------------------------------------------------------------------

  /** The first n tokens are written, with their links. */
  ghost predicate Written(html: string, tokens: seq<string>, cuts: seq<nat>, finder: Finder, n: nat, anchors: seq<Anchor>, out: seq<string>) {
    && IsCutAt(html, tokens, cuts) && n <= |tokens| && cuts[n] <= |html|
    && Fits(anchors, cuts[n]) && Concat(out) == Spelled(html, anchors, cuts[n])
    && AreLinks(tokens, cuts, finder, n, anchors)
  }

  /** The stack holds each open element as often as it is open. */
  ghost predicate Stacked(tokens: seq<string>, n: nat, stack: seq<string>) {
    n <= |tokens| && forall name :: multiset(stack)[name] == Depth(tokens[..n], name)
  }

  ghost function CountWithout(stack: seq<string>, name: string, other: string): int {
    if other == name && name in stack then multiset(stack)[other] - 1 else multiset(stack)[other]
  }

  /** A closing tag takes the innermost element of its name off the stack. */
  method TakeOff(stack: seq<string>, name: string) returns (after: seq<string>)
    ensures forall other :: multiset(after)[other] == CountWithout(stack, name, other)
  {
    var open := |stack|;
    while open > 0 && stack[open-1] != name
      invariant 0 <= open <= |stack| && forall k :: open <= k < |stack| ==> stack[k] != name
    {
      open := open - 1;
    }
    if open == 0 { return stack; }
    after := stack[..open-1] + stack[open..];
    assert stack == stack[..open-1] + [stack[open-1]] + stack[open..];
  }

  lemma StackedClose(tokens: seq<string>, n: nat, stack: seq<string>, name: string, after: seq<string>)
    requires Stacked(tokens, n, stack) && n < |tokens| && TagOf(tokens[n]).Some? && ClosesTag(tokens[n], name)
    requires forall other :: multiset(after)[other] == CountWithout(stack, name, other)
    ensures Stacked(tokens, n + 1, after)
  {
    forall other ensures multiset(after)[other] == Depth(tokens[..n+1], other) {
      DepthPush(tokens, n, other);
      hide Depth, TagOf;
      assert multiset(after)[other] == CountWithout(stack, name, other);
    }
  }

  lemma StackedOpen(tokens: seq<string>, n: nat, stack: seq<string>, name: string)
    requires Stacked(tokens, n, stack) && n < |tokens| && OpensTag(tokens[n], name)
    ensures Stacked(tokens, n + 1, stack + [name])
  {
    forall other ensures multiset(stack + [name])[other] == Depth(tokens[..n+1], other) {
      DepthPush(tokens, n, other);
      hide Depth, TagOf;
      assert multiset(stack + [name])[other] == multiset(stack)[other] + multiset([name])[other];
    }
  }

  /** A token that opens and closes nothing. */
  ghost predicate IsNeutral(token: string) {
    forall name :: !OpensTag(token, name) && !ClosesTag(token, name)
  }

  lemma StackedKeep(tokens: seq<string>, n: nat, stack: seq<string>)
    requires Stacked(tokens, n, stack) && n < |tokens| && IsNeutral(tokens[n])
    ensures Stacked(tokens, n + 1, stack)
  {
    forall other ensures multiset(stack)[other] == Depth(tokens[..n+1], other) {
      DepthPush(tokens, n, other);
      hide Depth, TagOf, OpensTag, ClosesTag;
      assert !OpensTag(tokens[n], other);
    }
  }

  /** A whole code span leaves the stack as it was. */
  lemma StackedSpan(tokens: seq<string>, n: nat, stack: seq<string>)
    requires Stacked(tokens, n, stack) && IsCodeSpan(tokens, n)
    ensures Stacked(tokens, n + 3, stack)
  {
    TextIsNeutral(tokens[n+1]);
    forall other ensures multiset(stack)[other] == Depth(tokens[..n+3], other) {
      DepthPush(tokens, n, other);
      DepthPush(tokens, n + 1, other);
      DepthPush(tokens, n + 2, other);
      hide Depth, TagOf, OpensTag, ClosesTag;
      assert !OpensTag(tokens[n+1], other);
    }
  }

  lemma TextIsNeutral(token: string)
    requires !StartsTag(token)
    ensures IsNeutral(token)
  { }

  lemma InsideIsDepth(tokens: seq<string>, n: nat, stack: seq<string>, name: string)
    requires Stacked(tokens, n, stack)
    ensures name in stack <==> Depth(tokens[..n], name) > 0
  {
    assert name in stack <==> multiset(stack)[name] > 0;
  }

  // ---------------------------------------------------------------------------------------------
  // One token
  // ---------------------------------------------------------------------------------------------

  lemma CutSlice(html: string, tokens: seq<string>, cuts: seq<nat>, i: nat)
    requires IsCutAt(html, tokens, cuts) && i < |tokens|
    ensures cuts[i] < cuts[i+1] <= |html| && cuts[i] + |tokens[i]| == cuts[i+1] && tokens[i] == html[cuts[i]..cuts[i]+|tokens[i]|]
  { }

  lemma BelowNext(tokens: seq<string>, cuts: seq<nat>, finder: Finder, n: nat, a: Anchor)
    ensures LinksBelow(tokens, cuts, finder, n + 1, a) <==> LinksBelow(tokens, cuts, finder, n, a) || Links(tokens, cuts, finder, n, a)
  {
    hide Links;
  }

  /** A token without links is written as it is. */
  lemma KeepMoves(html: string, tokens: seq<string>, cuts: seq<nat>, finder: Finder, n: nat, anchors: seq<Anchor>, out: seq<string>)
    requires Written(html, tokens, cuts, finder, n, anchors, out) && n < |tokens|
    requires forall a :: !Links(tokens, cuts, finder, n, a)
    ensures Written(html, tokens, cuts, finder, n + 1, anchors, out + [tokens[n]])
  {
    WrittenNext(html, tokens, cuts, finder, n, n + 1, anchors, out);
    NoLinksMore(tokens, cuts, finder, n, anchors);
    hide IsCutAt, AreLinks, Fits, Spelled, Concat, Links;
    KeepSpelled(html, tokens, cuts, n, anchors, out);
  }

  lemma KeepSpelled(html: string, tokens: seq<string>, cuts: seq<nat>, n: nat, anchors: seq<Anchor>, out: seq<string>)
    requires IsCutAt(html, tokens, cuts) && n < |tokens| && |cuts| == |tokens| + 1 && cuts[n] <= |html|
    requires Fits(anchors, cuts[n]) && Concat(out) == Spelled(html, anchors, cuts[n])
    ensures cuts[n+1] <= |html| && Fits(anchors, cuts[n+1])
    ensures Concat(out + [tokens[n]]) == Spelled(html, anchors, cuts[n+1])
  {
    hide Spelled, Concat;
    CutSlice(html, tokens, cuts, n);
    SpelledOn(html, anchors, cuts[n], cuts[n+1]);
    ConcatPush(out, tokens[n]);
  }

  lemma NoLinksMore(tokens: seq<string>, cuts: seq<nat>, finder: Finder, n: nat, anchors: seq<Anchor>)
    requires AreLinks(tokens, cuts, finder, n, anchors) && forall a :: !Links(tokens, cuts, finder, n, a)
    ensures AreLinks(tokens, cuts, finder, n + 1, anchors)
  {
    forall a ensures a in anchors <==> LinksBelow(tokens, cuts, finder, n + 1, a) { BelowNext(tokens, cuts, finder, n, a); hide LinksBelow, Links; }
  }

  /** A text run is written with its links. */
  lemma TextMoves(html: string, tokens: seq<string>, cuts: seq<nat>, finder: Finder, n: nat, anchors: seq<Anchor>, out: seq<string>, all: seq<Anchor>, linked: string)
    requires Written(html, tokens, cuts, finder, n, anchors, out) && MayLink(tokens, n) && IsAll(tokens[n], finder, all)
    requires Fits(Linked(tokens[n], all), |tokens[n]|) && linked == Spelled(tokens[n], Linked(tokens[n], all), |tokens[n]|)
    ensures Written(html, tokens, cuts, finder, n + 1, anchors + ShiftAll(Linked(tokens[n], all), cuts[n]), out + [linked])
  {
    CutSlice(html, tokens, cuts, n);
    TextLinks(html, tokens, cuts, finder, n, anchors, all);
    WrittenNext(html, tokens, cuts, finder, n, n + 1, anchors, out);
    var inner := Linked(tokens[n], all);
    hide IsCutAt, AreLinks, Fits, Spelled, Concat, Linked, MayLink, IsAll;
    TextSpelled(html, tokens, cuts, n, anchors, out, inner, linked);
  }

  lemma TextSpelled(html: string, tokens: seq<string>, cuts: seq<nat>, n: nat, anchors: seq<Anchor>, out: seq<string>, inner: seq<Anchor>, linked: string)
    requires IsCutAt(html, tokens, cuts) && n < |tokens| && |cuts| == |tokens| + 1 && cuts[n] <= |html|
    requires Fits(anchors, cuts[n]) && Concat(out) == Spelled(html, anchors, cuts[n])
    requires Fits(inner, |tokens[n]|) && linked == Spelled(tokens[n], inner, |tokens[n]|)
    ensures cuts[n+1] <= |html| && Fits(anchors + ShiftAll(inner, cuts[n]), cuts[n+1])
    ensures Concat(out + [linked]) == Spelled(html, anchors + ShiftAll(inner, cuts[n]), cuts[n+1])
  {
    hide *;
    CutSlice(html, tokens, cuts, n);
    SpelledPart(html, anchors, cuts[n], tokens[n], inner, |tokens[n]|);
    ConcatPush(out, linked);
  }

  lemma WrittenNext(html: string, tokens: seq<string>, cuts: seq<nat>, finder: Finder, n: nat, m: nat, anchors: seq<Anchor>, out: seq<string>)
    requires Written(html, tokens, cuts, finder, n, anchors, out) && n < m <= |tokens|
    ensures IsCutAt(html, tokens, cuts) && |cuts| == |tokens| + 1 && cuts[m] <= |html|
  {
    CutSlice(html, tokens, cuts, m - 1);
  }

  lemma TextLinks(html: string, tokens: seq<string>, cuts: seq<nat>, finder: Finder, n: nat, anchors: seq<Anchor>, all: seq<Anchor>)
    requires AreLinks(tokens, cuts, finder, n, anchors) && MayLink(tokens, n) && n < |cuts| && IsAll(tokens[n], finder, all)
    ensures AreLinks(tokens, cuts, finder, n + 1, anchors + ShiftAll(Linked(tokens[n], all), cuts[n]))
  {
    var inner := Linked(tokens[n], all);
    forall a ensures a in anchors + ShiftAll(inner, cuts[n]) <==> LinksBelow(tokens, cuts, finder, n + 1, a) {
      BelowNext(tokens, cuts, finder, n, a);
      LinksHere(tokens, cuts, finder, n, all, a);
      InShift(inner, cuts[n], a);
      hide LinksBelow, Links, ShiftAll, Linked;
    }
  }

  lemma InShift(inner: seq<Anchor>, at: nat, a: Anchor)
    ensures a in ShiftAll(inner, at) <==> InShifted(inner, at, a)
  {
    var all := ShiftAll(inner, at);
    if a in all {
      var k :| 0 <= k < |all| && all[k] == a;
      assert inner[k] in inner && a == Shift(inner[k], at);
    }
    if InShifted(inner, at, a) {
      var b :| b in inner && a == Shift(b, at);
      var k :| 0 <= k < |inner| && inner[k] == b;
      assert all[k] == a;
    }
  }

  ghost predicate InShifted(inner: seq<Anchor>, at: nat, a: Anchor) {
    exists b :: b in inner && a == Shift(b, at)
  }

  lemma LinksHere(tokens: seq<string>, cuts: seq<nat>, finder: Finder, n: nat, all: seq<Anchor>, a: Anchor)
    requires MayLink(tokens, n) && n < |cuts| && IsAll(tokens[n], finder, all)
    ensures Links(tokens, cuts, finder, n, a) <==> InShifted(Linked(tokens[n], all), cuts[n], a)
  {
    TextIsNeutral(tokens[n]);
    assert !OpensTag(tokens[n], "code");
    hide Linked, IsAll, Depth, OpensTag, ClosesTag;
    assert !LinksCode(tokens, cuts, finder, n, a);
    if LinksText(tokens, cuts, finder, n, a) {
      var other, b :| IsAll(tokens[n], finder, other) && b in Linked(tokens[n], other) && a == Shift(b, cuts[n]);
      AllUnique(tokens[n], finder, all, other);
    }
    if InShifted(Linked(tokens[n], all), cuts[n], a) {
      var b :| b in Linked(tokens[n], all) && a == Shift(b, cuts[n]);
      assert LinksText(tokens, cuts, finder, n, a);
    }
  }

  // ---------------------------------------------------------------------------------------------
  // Code spans
  // ---------------------------------------------------------------------------------------------

  function SpanAnchor(cuts: seq<nat>, n: nat, opening: string): Anchor
    requires n + 3 < |cuts|
  {
    Anchor(cuts[n], cuts[n+3], opening)
  }

  lemma WholeUnique(text: string, finder: Finder, x: string, y: string)
    requires OccursWhole(text, finder, x) && OccursWhole(text, finder, y)
    ensures x == y
  {
    hide IsAll;
    var all :| IsAll(text, finder, all) && WholeOf(all, |text|) == Some(x);
    var other :| IsAll(text, finder, other) && WholeOf(other, |text|) == Some(y);
    AllUnique(text, finder, all, other);
  }

  /** The three tokens of a linked code span have that one link. */
  lemma SpanLinks(tokens: seq<string>, cuts: seq<nat>, finder: Finder, n: nat, opening: string, a: Anchor)
    requires IsCodeSpan(tokens, n) && n + 3 < |cuts| && OccursWhole(tokens[n+1], finder, opening)
    ensures Links(tokens, cuts, finder, n, a) <==> a == SpanAnchor(cuts, n, opening)
    ensures !Links(tokens, cuts, finder, n + 1, a) && !Links(tokens, cuts, finder, n + 2, a)
  {
    assert StartsTag(tokens[n]) && StartsTag(tokens[n+2]);
    DepthPush(tokens, n, "code");
    TextIsNeutral(tokens[n+1]);
    assert !OpensTag(tokens[n+1], "code");
    hide Depth, OpensTag, ClosesTag, OccursWhole, IsAll, Linked;
    if LinksCode(tokens, cuts, finder, n, a) { WholeUnique(tokens[n+1], finder, opening, a.opening); }
  }

  lemma CodeLinks(tokens: seq<string>, cuts: seq<nat>, finder: Finder, n: nat, anchors: seq<Anchor>, opening: string)
    requires AreLinks(tokens, cuts, finder, n, anchors)
    requires IsCodeSpan(tokens, n) && n + 3 < |cuts| && OccursWhole(tokens[n+1], finder, opening)
    ensures AreLinks(tokens, cuts, finder, n + 3, anchors + [SpanAnchor(cuts, n, opening)])
  {
    forall a ensures a in anchors + [SpanAnchor(cuts, n, opening)] <==> LinksBelow(tokens, cuts, finder, n + 3, a) {
      BelowNext(tokens, cuts, finder, n, a);
      BelowNext(tokens, cuts, finder, n + 1, a);
      BelowNext(tokens, cuts, finder, n + 2, a);
      SpanLinks(tokens, cuts, finder, n, opening, a);
      hide LinksBelow, Links, IsCodeSpan, OccursWhole, SpanAnchor;
    }
  }

  /** What is written for a linked code span. */
  function SpanOut(tokens: seq<string>, n: nat, opening: string): seq<string>
    requires n + 2 < |tokens|
  {
    [opening, tokens[n], tokens[n+1], tokens[n+2], "</a>"]
  }

  lemma SpanConcat(html: string, tokens: seq<string>, cuts: seq<nat>, n: nat, opening: string, out: seq<string>)
    requires IsCutAt(html, tokens, cuts) && n + 3 <= |tokens|
    ensures cuts[n] < cuts[n+3] <= |html|
    ensures Concat(out + SpanOut(tokens, n, opening)) == Concat(out) + opening + html[cuts[n]..cuts[n+3]] + "</a>"
  {
    CutSlice(html, tokens, cuts, n);
    CutSlice(html, tokens, cuts, n + 1);
    CutSlice(html, tokens, cuts, n + 2);
    var t, u, v := tokens[n], tokens[n+1], tokens[n+2];
    assert t + u + v == html[cuts[n]..cuts[n+3]];
    assert out + SpanOut(tokens, n, opening) == out + [opening] + [t] + [u] + [v] + ["</a>"];
    hide *;
    ConcatFive(out, opening, t, u, v, "</a>");
    Assoc(Concat(out) + opening, t, u);
    Assoc(Concat(out) + opening, t + u, v);
  }

  lemma ConcatFive(out: seq<string>, a: string, b: string, c: string, d: string, e: string)
    ensures Concat(out + [a] + [b] + [c] + [d] + [e]) == Concat(out) + a + b + c + d + e
  {
    hide Concat;
    ConcatPush(out, a);
    ConcatPush(out + [a], b);
    ConcatPush(out + [a] + [b], c);
    ConcatPush(out + [a] + [b] + [c], d);
    ConcatPush(out + [a] + [b] + [c] + [d], e);
  }

  /** A code span is written with a link around it. */
  lemma CodeMoves(html: string, tokens: seq<string>, cuts: seq<nat>, finder: Finder, n: nat, anchors: seq<Anchor>, out: seq<string>, opening: string)
    requires Written(html, tokens, cuts, finder, n, anchors, out) && IsCodeSpan(tokens, n) && OccursWhole(tokens[n+1], finder, opening)
    ensures n + 3 < |cuts|
    ensures Written(html, tokens, cuts, finder, n + 3, anchors + [SpanAnchor(cuts, n, opening)], out + SpanOut(tokens, n, opening))
  {
    WrittenNext(html, tokens, cuts, finder, n, n + 3, anchors, out);
    CodeLinks(tokens, cuts, finder, n, anchors, opening);
    SpanConcat(html, tokens, cuts, n, opening, out);
    assert cuts[n] <= |html| && Fits(anchors, cuts[n]) && Concat(out) == Spelled(html, anchors, cuts[n]);
    var a := SpanAnchor(cuts, n, opening);
    assert a == Anchor(cuts[n], cuts[n+3], opening);
    hide *;
    SpelledPush(html, anchors, cuts[n], a);
    assert html[cuts[n]..cuts[n]] == [];
    NothingMore(Spelled(html, anchors, cuts[n]), html[cuts[n]..cuts[n]]);
  }

  // ---------------------------------------------------------------------------------------------
  // The rewrite
  // ---------------------------------------------------------------------------------------------

  ghost predicate FindsInText(finder: Finder) {
    forall text: string :: InText(finder(text), |text|)
  }

  ghost predicate NeverWhole(text: string, finder: Finder) {
    forall o :: !OccursWhole(text, finder, o)
  }

  /** The opening of the link the whole text would get, if any. */
  method WholeLink(text: string, finder: Finder) returns (opening: Option<string>)
    requires FindsInText(finder)
    ensures opening.Some? ==> OccursWhole(text, finder, opening.value)
    ensures opening.None? ==> NeverWhole(text, finder)
  {
    var all := AllCitations(text, finder);
    opening := WholeOf(all, |text|);
    forall o | OccursWhole(text, finder, o) ensures opening == Some(o) {
      var other :| IsAll(text, finder, other) && WholeOf(other, |text|) == Some(o);
      AllUnique(text, finder, all, other);
    }
  }

  /** A text run with its links, when it may have any. */
  method TextOut(tokens: seq<string>, finder: Finder, n: nat, stack: seq<string>, ghost html: string, ghost cuts: seq<nat>,
                 ghost anchors: seq<Anchor>, ghost out: seq<string>)
    returns (written: string, ghost after: seq<Anchor>)
    requires FindsInText(finder) && Written(html, tokens, cuts, finder, n, anchors, out) && Stacked(tokens, n, stack)
    requires n < |tokens| && !StartsTag(tokens[n])
    ensures Written(html, tokens, cuts, finder, n + 1, after, out + [written]) && Stacked(tokens, n + 1, stack)
  {
    var token := tokens[n];
    TextIsNeutral(token);
    StackedKeep(tokens, n, stack);
    InsideIsDepth(tokens, n, stack, "a");
    InsideIsDepth(tokens, n, stack, "pre");
    InsideIsDepth(tokens, n, stack, "code");
    hide Stacked, Depth, IsNeutral, IsCutAt, Written, Links, Linked, Spelled, Fits;
    if "a" in stack || "pre" in stack || "code" in stack {
      KeepMoves(html, tokens, cuts, finder, n, anchors, out);
      return token, anchors;
    }
    assert MayLink(tokens, n);
    var all := AllCitations(token, finder);
    written := LinkifyText(token, all);
    TextMoves(html, tokens, cuts, finder, n, anchors, out, all, written);
    after := anchors + ShiftAll(Linked(token, all), cuts[n]);
  }

  lemma PlainTagHasNone(tokens: seq<string>, cuts: seq<nat>, finder: Finder, n: nat)
    requires n < |tokens| && StartsTag(tokens[n])
    requires IsCodeSpan(tokens, n) ==> NeverWhole(tokens[n+1], finder)
    ensures forall a :: !Links(tokens, cuts, finder, n, a)
  {
    forall a ensures !Links(tokens, cuts, finder, n, a) {
      hide OccursWhole;
    }
  }

  /** The opening of the link around the code span that starts here, if there is one. */
  method CodeOpening(tokens: seq<string>, finder: Finder, n: nat, stack: seq<string>) returns (opening: Option<string>)
    requires FindsInText(finder) && Stacked(tokens, n, stack) && n < |tokens| && OpensTag(tokens[n], "code")
    ensures opening.Some? ==> IsCodeSpan(tokens, n) && OccursWhole(tokens[n+1], finder, opening.value)
    ensures opening.None? && IsCodeSpan(tokens, n) ==> NeverWhole(tokens[n+1], finder)
  {
    InsideIsDepth(tokens, n, stack, "a");
    InsideIsDepth(tokens, n, stack, "pre");
    hide Depth, OccursWhole, Stacked;
    opening := None;
    if "a" !in stack && "pre" !in stack && n + 1 < |tokens| && !StartsTag(tokens[n+1]) {
      opening := WholeLink(tokens[n+1], finder);
      if !(n + 2 < |tokens| && ClosesTag(tokens[n+2], "code")) { opening := None; }
    }
  }

  /** A tag that opens no linked code span: written as it is, and the stack follows it. */
  method TagOut(tokens: seq<string>, n: nat, stack: seq<string>) returns (after: seq<string>)
    requires Stacked(tokens, n, stack) && n < |tokens|
    ensures Stacked(tokens, n + 1, after)
  {
    var info := TagOf(tokens[n]);
    if info.None? {
      StackedKeep(tokens, n, stack);
      return stack;
    }
    if info.value.closing {
      after := TakeOff(stack, info.value.name);
      StackedClose(tokens, n, stack, info.value.name, after);
      return;
    }
    if !info.value.selfClosing && !IsVoid(info.value.name) {
      StackedOpen(tokens, n, stack, info.value.name);
      return stack + [info.value.name];
    }
    StackedKeep(tokens, n, stack);
    after := stack;
  }

  /**
   The result is the fragment with these anchors put in: exactly those of the text runs and the code spans that may be
   linked, in order and apart from each other.
   */
  ghost predicate IsRewriteBy(html: string, finder: Finder, result: string, tokens: seq<string>, cuts: seq<nat>, anchors: seq<Anchor>) {
    && IsCutAt(html, tokens, cuts) && AreCuts(html, cuts, |html|)
    && Fits(anchors, |html|) && AreLinks(tokens, cuts, finder, |tokens|, anchors)
    && result == Spell(Weave(html, anchors, |html|))
  }

  ghost predicate IsRewrite(html: string, finder: Finder, result: string) {
    exists tokens, cuts, anchors :: IsRewriteBy(html, finder, result, tokens, cuts, anchors)
  }

  method LinkifyPaths(html: string, finder: Finder) returns (result: string)
    requires FindsInText(finder)
    ensures IsRewrite(html, finder, result)
  {
    var list, cuts := Tokenize(html);
    var out: seq<string> := [];
    var stack: seq<string> := [];
    ghost var anchors := [];
    var index := 0;
    hide *;
    NoneWritten(html, list, cuts, finder);
    while index < |list|
      invariant index <= |list|
      invariant Written(html, list, cuts, finder, index, anchors, out) && Stacked(list, index, stack)
    {
      var token := list[index];
      if !StartsTag(token) {
        var written;
        written, anchors := TextOut(list, finder, index, stack, html, cuts, anchors, out);
        out := out + [written];
        index := index + 1;
      } else {
        var opening := None;
        if OpensTag(token, "code") { opening := CodeOpening(list, finder, index, stack); }
        if opening.Some? {
          SpanFits(list, index);
          CodeMoves(html, list, cuts, finder, index, anchors, out, opening.value);
          StackedSpan(list, index, stack);
          anchors := anchors + [SpanAnchor(cuts, index, opening.value)];
          out := out + SpanOut(list, index, opening.value);
          index := index + 3;
        } else {
          NotOpened(list, index);
          PlainTagHasNone(list, cuts, finder, index);
          KeepMoves(html, list, cuts, finder, index, anchors, out);
          stack := TagOut(list, index, stack);
          out := out + [token];
          index := index + 1;
        }
      }
    }
    AllWritten(html, list, cuts, finder, anchors, out);
    result := Concat(out);
  }

  lemma NoneWritten(html: string, tokens: seq<string>, cuts: seq<nat>, finder: Finder)
    requires IsCutAt(html, tokens, cuts) && AreCuts(html, cuts, |html|)
    ensures Written(html, tokens, cuts, finder, 0, [], []) && Stacked(tokens, 0, [])
  {
    SpelledNone(html, 0);
    assert AreLinks(tokens, cuts, finder, 0, []);
    assert tokens[..0] == [];
    hide AreLinks, Spelled, IsCutAt;
  }

  lemma SpanFits(tokens: seq<string>, n: nat)
    requires IsCodeSpan(tokens, n)
    ensures n + 3 <= |tokens|
  { }

  lemma NotOpened(tokens: seq<string>, n: nat)
    ensures n < |tokens| && !OpensTag(tokens[n], "code") ==> !IsCodeSpan(tokens, n)
  { }

  lemma AllWritten(html: string, tokens: seq<string>, cuts: seq<nat>, finder: Finder, anchors: seq<Anchor>, out: seq<string>)
    requires AreCuts(html, cuts, |html|) && Written(html, tokens, cuts, finder, |tokens|, anchors, out)
    ensures IsRewrite(html, finder, Concat(out))
  {
    assert cuts[|tokens|] == |html|;
    hide AreCuts, AreLinks, Weave, Fits, Concat, IsCutAt;
    assert IsRewriteBy(html, finder, Concat(out), tokens, cuts, anchors);
  }

  /** The rewrite only inserts anchors: taking them out gives the fragment back, and none opens inside another. */
  lemma OnlyInserts(html: string, finder: Finder, result: string) returns (pieces: seq<Piece>)
    requires IsRewrite(html, finder, result)
    ensures result == Spell(pieces) && html == Erased(pieces)
    ensures forall k :: 0 <= k <= |pieces| ==> OpenAfter(pieces[..k], 0) || OpenAfter(pieces[..k], 1)
    ensures OpenAfter(pieces, 0)
  {
    hide IsCutAt, AreCuts, AreLinks, Spell, Erased, OpenAfter, Weave, Fits;
    var tokens, cuts, anchors :| IsRewriteBy(html, finder, result, tokens, cuts, anchors);
    pieces := Weave(html, anchors, |html|);
    EraseGivesBack(html, anchors);
    forall k | 0 <= k <= |pieces| ensures OpenAfter(pieces[..k], 0) || OpenAfter(pieces[..k], 1) {
      NeverNest(html, anchors, k);
    }
    NeverNest(html, anchors, 0);
  }

  /** Two lists of anchors that fit and hold the same anchors are the same. */
  lemma {:induction false} FitsUnique(x: seq<Anchor>, y: seq<Anchor>, to: nat)
    requires Fits(x, to) && Fits(y, to) && forall a :: a in x <==> a in y
    ensures x == y
    decreases |x|
  {
    assert y != [] ==> y[0] in y;
    if x != [] {
      assert x[0] in y && y != [] && y[0] in x;
      assert x[0] == y[0];
      RestFits(x, to);
      RestFits(y, to);
      FitsUnique(x[1..], y[1..], to);
    }
  }

  lemma RestFits(x: seq<Anchor>, to: nat)
    requires Fits(x, to) && x != []
    ensures Fits(x[1..], to) && forall a :: a in x[1..] <==> a in x && a != x[0]
  {
    assert x == [x[0]] + x[1..];
    forall a | a in x[1..] ensures a != x[0] {
      var k :| 0 <= k < |x[1..]| && x[1..][k] == a;
      assert x[k+1] == a;
    }
  }

  lemma TokensOfCuts(html: string, x: seq<string>, y: seq<string>, cuts: seq<nat>)
    requires IsCutAt(html, x, cuts) && IsCutAt(html, y, cuts)
    ensures x == y
  {
    forall k | 0 <= k < |x| ensures x[k] == y[k] {
      CutSlice(html, x, cuts, k);
      CutSlice(html, y, cuts, k);
    }
  }

  /** There is one rewrite of a fragment. */
  lemma RewriteIsDetermined(html: string, finder: Finder, x: string, y: string)
    requires IsRewrite(html, finder, x) && IsRewrite(html, finder, y)
    ensures x == y
  {
    hide IsCutAt, AreCuts, Spell, Weave, Fits, LinksBelow;
    var tokens, cuts, anchors :| IsRewriteBy(html, finder, x, tokens, cuts, anchors);
    var others, pieces, same :| IsRewriteBy(html, finder, y, others, pieces, same);
    CutsAreUnique(html, cuts, pieces);
    TokensOfCuts(html, tokens, others, cuts);
    FitsUnique(anchors, same, |html|);
  }

  /** No anchor is added inside a link or a fenced block, and each lies in one text run or around one code span. */
  lemma NoneInsideLink(html: string, tokens: seq<string>, cuts: seq<nat>, finder: Finder, anchors: seq<Anchor>, a: Anchor) returns (i: nat)
    requires FindsInText(finder) && IsCutAt(html, tokens, cuts)
    requires AreLinks(tokens, cuts, finder, |tokens|, anchors) && a in anchors
    ensures i < |tokens| && Depth(tokens[..i], "a") == 0 && Depth(tokens[..i], "pre") == 0
    ensures if StartsTag(tokens[i]) then IsCodeSpan(tokens, i) && a.start == cuts[i] && a.end == cuts[i+3]
      else cuts[i] <= a.start < a.end <= cuts[i+1] && Depth(tokens[..i], "code") == 0
  {
    assert LinksBelow(tokens, cuts, finder, |tokens|, a);
    i :| i < |tokens| && Links(tokens, cuts, finder, i, a);
    hide Depth, OpensTag, ClosesTag;
    if LinksText(tokens, cuts, finder, i, a) {
      CutSlice(html, tokens, cuts, i);
      hide IsCutAt, IsAll, Linked;
      var all, b :| IsAll(tokens[i], finder, all) && b in Linked(tokens[i], all) && a == Shift(b, cuts[i]);
      LinkedIsIn(tokens[i], finder, all, b);
    }
  }

  lemma LinkedIsIn(text: string, finder: Finder, all: seq<Anchor>, b: Anchor)
    requires FindsInText(finder) && IsAll(text, finder, all) && b in Linked(text, all)
    ensures b in all && Standalone(text, b) && b.start < b.end <= |text|
  {
    AllInText(text, finder, all);
    hide IsAll, FindsInText, Standalone, InText, Linked;
    LinkedExactly(text, all, b);
  }

  lemma AllInText(text: string, finder: Finder, all: seq<Anchor>)
    requires FindsInText(finder) && IsAll(text, finder, all)
    ensures InText(all, |text|) && Ascending(all)
  {
    FindsThere(finder, text);
    hide C.Found, DocAnchors, SortByStart, Ascending, FindsInText, InText;
    var docs :| C.Found(text, docs, |text|) && all == SortByStart(finder(text) + DocAnchors(docs));
    FoundInText(text, docs);
    SortedInText(finder(text), DocAnchors(docs), |text|);
  }

  lemma FindsThere(finder: Finder, text: string)
    requires FindsInText(finder)
    ensures InText(finder(text), |text|)
  { }

  lemma SortedInText(x: seq<Anchor>, y: seq<Anchor>, length: nat)
    requires InText(x, length) && InText(y, length)
    ensures InText(SortByStart(x + y), length) && Ascending(SortByStart(x + y))
  {
    SortKeeps(x + y);
    hide SortByStart, Ascending;
  }
}
