/** What is really open at a piece of a fragment (apps/web/lib/thread-markdown.ts), read off its whole tags alone. */
module TagDepth {

  // And how far the stack of the link rewrite, which reads some text runs as tags too, agrees with it.

  import opened Wrappers
  import opened HtmlTokens
  import opened Weaving
  import opened MarkdownLinks
  import opened MarkdownRewrite
  import C = Citations

  // ---------------------------------------------------------------------------------------------
  // The tags of the fragment
  // ---------------------------------------------------------------------------------------------

  /** What a whole tag says: the name right after `<` or `</`; a comment or a declaration says nothing. */
  function TagAt(html: string, from: nat, to: nat): Option<Tag>
    requires from + 1 < to <= |html|
  {
    var name := NameAt(html, from);
    if name < to && IsLetter(html[name]) then
      Some(Tag(Lower(html[name..NameEnd(html, name)]), html[from+1] == '/', html[to-2] == '/' && html[to-1] == '>'))
    else None
  }

  ghost predicate TagOpens(html: string, from: nat, to: nat, name: string) {
    && IsTag(html, from, to) && from + 1 < to && TagAt(html, from, to).Some?
    && var tag := TagAt(html, from, to).value;
       !tag.closing && !tag.selfClosing && !IsVoid(tag.name) && tag.name == name
  }

  ghost predicate TagCloses(html: string, from: nat, to: nat, name: string) {
    && IsTag(html, from, to) && from + 1 < to && TagAt(html, from, to).Some?
    && var tag := TagAt(html, from, to).value;
       tag.closing && tag.name == name
  }

  /** How many elements of a name are open before piece i of a cut, its text runs changing nothing. */
  ghost function OpenBefore(html: string, cuts: seq<nat>, i: nat, name: string): nat
    requires i < |cuts|
  {
    if i == 0 then 0
    else
      var before := OpenBefore(html, cuts, i - 1, name);
      if TagOpens(html, cuts[i-1], cuts[i], name) then before + 1
      else if TagCloses(html, cuts[i-1], cuts[i], name) && before > 0 then before - 1
      else before
  }

  // ---------------------------------------------------------------------------------------------
  // On a whole tag the rewrite reads the same
  // ---------------------------------------------------------------------------------------------

  lemma {:induction false} NameEndIn(html: string, from: nat, to: nat, i: nat)
    requires from <= i < to <= |html| && !IsNameChar(html[to-1])
    ensures NameEnd(html[from..to], i - from) + from == NameEnd(html, i) < to
    decreases |html| - i
  {
    if IsNameChar(html[i]) { NameEndIn(html, from, to, i + 1); }
  }

  lemma TagStarts(html: string, from: nat, to: nat)
    requires IsTag(html, from, to)
    ensures from + 1 < to && html[from] == '<' && html[to-1] == '>'
    ensures html[from+1] == '!' || html[from+1] == '?' || (NameAt(html, from) < to - 1 && IsLetter(html[NameAt(html, from)]))
  {
    ClosesAfterStart(html, from, to - 1);
    assert Closes(html, from, to - 1);
  }

  lemma TagReads(html: string, from: nat, to: nat)
    requires IsTag(html, from, to)
    ensures from + 1 < to && TagOf(html[from..to]) == TagAt(html, from, to)
  {
    TagStarts(html, from, to);
    var token := html[from..to];
    assert !IsNameChar('>') && !IsLetter('/') && !IsLetter('!') && !IsLetter('?');
    assert !C.IsSpace(token[1]);
    hide IsTag, Lower;
    var name := NameAt(html, from);
    if IsLetter(html[name]) {
      assert !C.IsSpace(html[name]);
      NameEndIn(html, from, to, name);
      PartOfPart(html, from, to, name - from, NameEnd(token, name - from));
      SlashEnd(token);
    }
  }

  lemma PartOfPart(s: string, from: nat, to: nat, i: nat, j: nat)
    requires from <= to <= |s| && i <= j <= to - from
    ensures s[from..to][i..j] == s[from+i..from+j]
  {
    var t := s[from..to];
    forall k | 0 <= k < j - i ensures t[i..j][k] == s[from+i..from+j][k] {
      assert t[i..j][k] == t[i+k] == s[from+(i+k)];
    }
  }

  lemma SlashEnd(s: string)
    requires |s| >= 2
    ensures s[|s|-2..] == "/>" <==> s[|s|-2] == '/' && s[|s|-1] == '>'
  {
    assert s[|s|-2..] == [s[|s|-2], s[|s|-1]];
  }

  lemma TokenReads(html: string, tokens: seq<string>, cuts: seq<nat>, i: nat, name: string)
    requires IsCutAt(html, tokens, cuts) && i < |tokens| && IsTag(html, cuts[i], cuts[i+1])
    ensures OpensTag(tokens[i], name) <==> TagOpens(html, cuts[i], cuts[i+1], name)
    ensures ClosesTag(tokens[i], name) <==> TagCloses(html, cuts[i], cuts[i+1], name)
    ensures StartsTag(tokens[i])
  {
    CutSlice(html, tokens, cuts, i);
    TagReads(html, cuts[i], cuts[i+1]);
    TagStarts(html, cuts[i], cuts[i+1]);
    hide TagOf, TagAt, IsTag;
  }

  // ---------------------------------------------------------------------------------------------
  // Text runs read as tags
  // ---------------------------------------------------------------------------------------------

  /** A text run the rewrite reads as a tag that opens an element, or closes one that is open. */
  ghost predicate IsStray(html: string, tokens: seq<string>, cuts: seq<nat>, i: nat, name: string)
    requires |cuts| == |tokens| + 1 && i < |tokens|
  {
    && IsText(html, cuts[i], cuts[i+1])
    && (OpensTag(tokens[i], name) || ClosesOpen(html, tokens, cuts, i, name))
  }

  /** A text run the rewrite reads as the closing tag of an element that is open. */
  ghost predicate ClosesOpen(html: string, tokens: seq<string>, cuts: seq<nat>, i: nat, name: string)
    requires |cuts| == |tokens| + 1 && i < |tokens|
  {
    IsText(html, cuts[i], cuts[i+1]) && ClosesTag(tokens[i], name) && OpenBefore(html, cuts, i, name) > 0
  }

  ghost predicate Agrees(html: string, tokens: seq<string>, cuts: seq<nat>, i: nat, name: string)
    requires |cuts| == |tokens| + 1 && i <= |tokens|
  {
    Depth(tokens[..i], name) == OpenBefore(html, cuts, i, name)
  }

  /** One piece: agreement goes on exactly when the piece is no stray one. */
  lemma AgreeNext(html: string, tokens: seq<string>, cuts: seq<nat>, i: nat, name: string)
    requires IsCutAt(html, tokens, cuts) && AreCuts(html, cuts, |html|) && i < |tokens| && Agrees(html, tokens, cuts, i, name)
    ensures Agrees(html, tokens, cuts, i + 1, name) <==> !IsStray(html, tokens, cuts, i, name)
  {
    DepthPush(tokens, i, name);
    if IsTag(html, cuts[i], cuts[i+1]) {
      TokenReads(html, tokens, cuts, i, name);
      TagIsNoText(html, cuts[i], cuts[i+1]);
    }
    hide Depth, IsCutAt, AreCuts, IsText;
    hide OpensTag, ClosesTag;
    assert !IsTag(html, cuts[i], cuts[i+1]) ==> !TagOpens(html, cuts[i], cuts[i+1], name) && !TagCloses(html, cuts[i], cuts[i+1], name);
    hide IsTag, TagOpens, TagCloses;
  }

  ghost predicate NoStray(html: string, tokens: seq<string>, cuts: seq<nat>, n: nat, name: string)
    requires |cuts| == |tokens| + 1 && n <= |tokens|
  {
    forall i :: 0 <= i < n ==> !IsStray(html, tokens, cuts, i, name)
  }

  /** The stack counts what is really open before each of the first pieces. */
  ghost predicate AllAgree(html: string, tokens: seq<string>, cuts: seq<nat>, n: nat, name: string)
    requires |cuts| == |tokens| + 1 && n <= |tokens|
  {
    forall i :: 0 <= i <= n ==> Agrees(html, tokens, cuts, i, name)
  }

  /** It does so exactly when no text run among them is read as a tag that takes effect. */
  lemma {:induction false} AgreeExactlyWhen(html: string, tokens: seq<string>, cuts: seq<nat>, n: nat, name: string)
    requires IsCutAt(html, tokens, cuts) && AreCuts(html, cuts, |html|) && n <= |tokens|
    ensures |cuts| == |tokens| + 1
    ensures AllAgree(html, tokens, cuts, n, name) <==> NoStray(html, tokens, cuts, n, name)
    decreases n
  {
    if n == 0 {
      NoneAgrees(html, tokens, cuts, name);
    } else {
      AgreeExactlyWhen(html, tokens, cuts, n - 1, name);
      AgreeLast(html, tokens, cuts, n, name);
      hide *;
    }
  }

  lemma NoneAgrees(html: string, tokens: seq<string>, cuts: seq<nat>, name: string)
    requires |cuts| == |tokens| + 1
    ensures AllAgree(html, tokens, cuts, 0, name) && NoStray(html, tokens, cuts, 0, name)
  {
    assert tokens[..0] == [];
  }

  lemma AgreeLast(html: string, tokens: seq<string>, cuts: seq<nat>, n: nat, name: string)
    requires IsCutAt(html, tokens, cuts) && AreCuts(html, cuts, |html|) && |cuts| == |tokens| + 1 && 0 < n <= |tokens|
    ensures AllAgree(html, tokens, cuts, n, name) <==>
      AllAgree(html, tokens, cuts, n - 1, name) && !IsStray(html, tokens, cuts, n - 1, name)
  {
    hide Agrees, IsStray, IsCutAt, AreCuts;
    if Agrees(html, tokens, cuts, n - 1, name) { AgreeNext(html, tokens, cuts, n - 1, name); }
  }

  /** The stack never counts less than what is open while no text run is read as the closing tag of something open. */
  lemma {:induction false} NeverLess(html: string, tokens: seq<string>, cuts: seq<nat>, i: nat, name: string)
    requires IsCutAt(html, tokens, cuts) && AreCuts(html, cuts, |html|) && i <= |tokens|
    requires forall j :: 0 <= j < i ==> !ClosesOpen(html, tokens, cuts, j, name)
    ensures OpenBefore(html, cuts, i, name) <= Depth(tokens[..i], name)
    decreases i
  {
    if i > 0 {
      NeverLess(html, tokens, cuts, i - 1, name);
      DepthPush(tokens, i - 1, name);
      if IsTag(html, cuts[i-1], cuts[i]) { TokenReads(html, tokens, cuts, i - 1, name); }
      hide Depth, IsCutAt, AreCuts, IsText;
      assert !ClosesOpen(html, tokens, cuts, i - 1, name);
      hide OpensTag, ClosesTag;
      assert !IsTag(html, cuts[i-1], cuts[i]) ==> !TagOpens(html, cuts[i-1], cuts[i], name) && !TagCloses(html, cuts[i-1], cuts[i], name);
      hide IsTag, TagOpens, TagCloses;
    }
  }

  /** No text run is read as the closing tag of a link or a fenced block that is open. */
  ghost predicate ClosesNoShelter(html: string, tokens: seq<string>, cuts: seq<nat>)
    requires |cuts| == |tokens| + 1
  {
    forall i :: 0 <= i < |tokens| ==> !ClosesOpen(html, tokens, cuts, i, "a") && !ClosesOpen(html, tokens, cuts, i, "pre")
  }

  /** Then no anchor is added inside a link or a fenced block that is really open. */
  lemma NoneInsideOpenLink(html: string, finder: Finder, result: string, tokens: seq<string>, cuts: seq<nat>, anchors: seq<Anchor>, a: Anchor)
    returns (i: nat)
    requires FindsInText(finder) && IsRewriteBy(html, finder, result, tokens, cuts, anchors) && a in anchors
    requires ClosesNoShelter(html, tokens, cuts)
    ensures i < |tokens| && cuts[i] <= a.start < cuts[i+1]
    ensures OpenBefore(html, cuts, i, "a") == 0 && OpenBefore(html, cuts, i, "pre") == 0
  {
    hide Weave, Spell, Fits, IsCutAt, AreCuts, AreLinks, FindsInText, ClosesNoShelter;
    i := PieceOfAnchor(html, tokens, cuts, finder, anchors, a);
    ShelterCounted(html, tokens, cuts, i);
  }

  lemma PieceOfAnchor(html: string, tokens: seq<string>, cuts: seq<nat>, finder: Finder, anchors: seq<Anchor>, a: Anchor) returns (i: nat)
    requires FindsInText(finder) && IsCutAt(html, tokens, cuts) && AreLinks(tokens, cuts, finder, |tokens|, anchors) && a in anchors
    ensures i < |tokens| && |cuts| == |tokens| + 1 && cuts[i] <= a.start < cuts[i+1]
    ensures Depth(tokens[..i], "a") == 0 && Depth(tokens[..i], "pre") == 0
  {
    i := NoneInsideLink(html, tokens, cuts, finder, anchors, a);
    CutSlice(html, tokens, cuts, i);
    hide IsCodeSpan, AreLinks, Depth, StartsTag, FindsInText;
  }

  lemma ShelterCounted(html: string, tokens: seq<string>, cuts: seq<nat>, i: nat)
    requires IsCutAt(html, tokens, cuts) && AreCuts(html, cuts, |html|) && i <= |tokens|
    requires ClosesNoShelter(html, tokens, cuts)
    requires Depth(tokens[..i], "a") == 0 && Depth(tokens[..i], "pre") == 0
    ensures OpenBefore(html, cuts, i, "a") == 0 && OpenBefore(html, cuts, i, "pre") == 0
  {
    assert forall j :: 0 <= j < i ==> !ClosesOpen(html, tokens, cuts, j, "a") && !ClosesOpen(html, tokens, cuts, j, "pre");
    hide AreCuts, IsCutAt, Depth, ClosesOpen;
    NeverLess(html, tokens, cuts, i, "a");
    NeverLess(html, tokens, cuts, i, "pre");
  }

  // ---------------------------------------------------------------------------------------------
  // Which anchors should be there
  // ---------------------------------------------------------------------------------------------

  /** A text run that is really outside every link, fenced block and code span. */
  ghost predicate ShouldLinkText(html: string, cuts: seq<nat>, i: nat) {
    && i + 1 < |cuts| && IsText(html, cuts[i], cuts[i+1])
    && OpenBefore(html, cuts, i, "a") == 0 && OpenBefore(html, cuts, i, "pre") == 0 && OpenBefore(html, cuts, i, "code") == 0
  }

  /** A code element that is really outside every link and fenced block, and holds one text run. */
  ghost predicate ShouldLinkCode(html: string, cuts: seq<nat>, i: nat) {
    && i + 3 < |cuts| && TagOpens(html, cuts[i], cuts[i+1], "code") && IsText(html, cuts[i+1], cuts[i+2])
    && TagCloses(html, cuts[i+2], cuts[i+3], "code")
    && OpenBefore(html, cuts, i, "a") == 0 && OpenBefore(html, cuts, i, "pre") == 0
  }

  /** a is an anchor that belongs to piece i by the fragment's own tags. */
  ghost predicate ShouldLink(html: string, tokens: seq<string>, cuts: seq<nat>, finder: Finder, i: nat, a: Anchor)
    requires |cuts| == |tokens| + 1
  {
    || (ShouldLinkText(html, cuts, i) && IsLinkOf(tokens[i], cuts[i], finder, a))
    || (ShouldLinkCode(html, cuts, i) && a.start == cuts[i] && a.end == cuts[i+3] && OccursWhole(tokens[i+1], finder, a.opening))
  }

  ghost predicate IsLinkOf(token: string, at: nat, finder: Finder, a: Anchor) {
    exists all, b :: IsAll(token, finder, all) && b in Linked(token, all) && a == Shift(b, at)
  }

  lemma LinksParts(tokens: seq<string>, cuts: seq<nat>, finder: Finder, i: nat, a: Anchor)
    requires |cuts| == |tokens| + 1
    ensures Links(tokens, cuts, finder, i, a) <==>
      (|| (MayLink(tokens, i) && IsLinkOf(tokens[i], cuts[i], finder, a))
       || (IsCodeSpan(tokens, i) && a.start == cuts[i] && a.end == cuts[i+3] && OccursWhole(tokens[i+1], finder, a.opening)))
  {
    hide Depth, OpensTag, ClosesTag, IsAll, Linked, OccursWhole;
  }

  /** The rewrite and the fragment's own tags let the same pieces through. */
  ghost predicate SamePieces(html: string, tokens: seq<string>, cuts: seq<nat>) {
    forall i: nat :: (MayLink(tokens, i) <==> ShouldLinkText(html, cuts, i)) && (IsCodeSpan(tokens, i) <==> ShouldLinkCode(html, cuts, i))
  }

  // ---------------------------------------------------------------------------------------------
  // Exactly when
  // ---------------------------------------------------------------------------------------------

  /** A finder that takes every text run as one occurrence. */
  function WholeFinder(text: string): seq<Anchor> {
    if text == "" then [] else [Anchor(0, |text|, "<a>")]
  }

  lemma WholeFinds()
    ensures FindsInText(WholeFinder)
  { }

  lemma WholeFirst(text: string) returns (all: seq<Anchor>)
    requires text != ""
    ensures IsAll(text, WholeFinder, all) && all != [] && all[0] == Anchor(0, |text|, "<a>")
  {
    var docs := C.FoundExists(text, |text|);
    hide C.Found;
    var rest := DocAnchors(docs);
    all := SortByStart(WholeFinder(text) + rest);
    assert ([Anchor(0, |text|, "<a>")] + rest)[1..] == rest;
  }

  lemma WholeIsLinked(text: string, at: nat)
    requires text != ""
    ensures IsLinkOf(text, at, WholeFinder, Anchor(at, at + |text|, "<a>")) && OccursWhole(text, WholeFinder, "<a>")
  {
    var all := WholeFirst(text);
    var w := all[0];
    hide IsAll;
    assert Taken(all, 0)[0] == w;
    assert w in Linked(text, all) by { StandingExactly(text, Taken(all, 0), w); }
    assert Anchor(at, at + |text|, "<a>") == Shift(w, at);
    assert WholeOf(all, |text|) == Some("<a>");
  }

  lemma LinkEnds(token: string, at: nat, finder: Finder, a: Anchor)
    requires FindsInText(finder) && IsLinkOf(token, at, finder, a)
    ensures at <= a.start < a.end <= at + |token|
  {
    hide FindsInText, IsAll, Linked;
    var all, b :| IsAll(token, finder, all) && b in Linked(token, all) && a == Shift(b, at);
    LinkedIsIn(token, finder, all, b);
  }

  lemma PieceIsToken(html: string, tokens: seq<string>, cuts: seq<nat>, i: nat)
    requires IsCutAt(html, tokens, cuts) && AreCuts(html, cuts, |html|) && i < |tokens|
    ensures |cuts| == |tokens| + 1 && cuts[i] < cuts[i+1] <= |html| && cuts[i] + |tokens[i]| == cuts[i+1] && tokens[i] != ""
    ensures IsTag(html, cuts[i], cuts[i+1]) != IsText(html, cuts[i], cuts[i+1])
    ensures IsTag(html, cuts[i], cuts[i+1]) ==> StartsTag(tokens[i])
    ensures i + 2 < |tokens| ==> cuts[i+1] < cuts[i+3] <= |html|
  {
    CutSlice(html, tokens, cuts, i);
    if IsTag(html, cuts[i], cuts[i+1]) {
      TagIsNoText(html, cuts[i], cuts[i+1]);
      TokenReads(html, tokens, cuts, i, "a");
    }
    if i + 2 < |tokens| {
      CutSlice(html, tokens, cuts, i + 1);
      CutSlice(html, tokens, cuts, i + 2);
    }
  }

  /** A text run that may be linked gets an anchor from some finder, and so does a code span. */
  lemma SomeFinderLinks(html: string, tokens: seq<string>, cuts: seq<nat>, i: nat) returns (a: Anchor)
    requires IsCutAt(html, tokens, cuts) && AreCuts(html, cuts, |html|) && i < |tokens|
    requires MayLink(tokens, i) || IsCodeSpan(tokens, i)
    ensures Links(tokens, cuts, WholeFinder, i, a) && FindsInText(WholeFinder)
  {
    WholeFinds();
    SpanEnds(tokens, i);
    hide *;
    PieceIsToken(html, tokens, cuts, i);
    if MayLink(tokens, i) {
      a := Anchor(cuts[i], cuts[i] + |tokens[i]|, "<a>");
      WholeIsLinked(tokens[i], cuts[i]);
    } else {
      a := Anchor(cuts[i], cuts[i+3], "<a>");
      PieceIsToken(html, tokens, cuts, i + 1);
      WholeIsLinked(tokens[i+1], cuts[i+1]);
    }
    LinksParts(tokens, cuts, WholeFinder, i, a);
  }

  /** Whatever the finder finds, no anchor is added inside a link or a fenced block that is really open. */
  ghost predicate NeverInside(html: string, tokens: seq<string>, cuts: seq<nat>)
    requires |cuts| == |tokens| + 1
  {
    forall finder: Finder, i: nat, a :: FindsInText(finder) && i < |tokens| && Links(tokens, cuts, finder, i, a) ==>
      IsOutside(html, cuts, i)
  }

  /** The pieces that the stack lets through are really outside every link and fenced block. */
  ghost predicate LetsOnlyOutside(html: string, tokens: seq<string>, cuts: seq<nat>)
    requires |cuts| == |tokens| + 1
  {
    forall i: nat :: i < |tokens| && (MayLink(tokens, i) || IsCodeSpan(tokens, i)) ==> IsOutside(html, cuts, i)
  }

  ghost predicate IsOutside(html: string, cuts: seq<nat>, i: nat)
    requires i < |cuts|
  {
    OpenBefore(html, cuts, i, "a") == 0 && OpenBefore(html, cuts, i, "pre") == 0
  }

  /** That holds exactly for the fragments in which the stack lets through only pieces that are really outside. */
  lemma NeverInsideExactlyWhen(html: string, tokens: seq<string>, cuts: seq<nat>)
    requires IsCutAt(html, tokens, cuts) && AreCuts(html, cuts, |html|)
    ensures |cuts| == |tokens| + 1
    ensures NeverInside(html, tokens, cuts) <==> LetsOnlyOutside(html, tokens, cuts)
  {
    if NeverInside(html, tokens, cuts) {
      forall i: nat | i < |tokens| && (MayLink(tokens, i) || IsCodeSpan(tokens, i)) ensures IsOutside(html, cuts, i) {
        LetThroughIsOutside(html, tokens, cuts, i);
      }
    }
    forall finder: Finder, i: nat, a | FindsInText(finder) && i < |tokens| && Links(tokens, cuts, finder, i, a)
      ensures MayLink(tokens, i) || IsCodeSpan(tokens, i)
    {
      LinksParts(tokens, cuts, finder, i, a);
    }
    hide FindsInText, Links, IsOutside, MayLink, IsCodeSpan, IsCutAt, AreCuts;
  }

  lemma LetThroughIsOutside(html: string, tokens: seq<string>, cuts: seq<nat>, i: nat)
    requires IsCutAt(html, tokens, cuts) && AreCuts(html, cuts, |html|) && |cuts| == |tokens| + 1
    requires NeverInside(html, tokens, cuts) && i < |tokens| && (MayLink(tokens, i) || IsCodeSpan(tokens, i))
    ensures IsOutside(html, cuts, i)
  {
    hide FindsInText, Links, IsOutside, MayLink, IsCodeSpan, IsCutAt, AreCuts;
    var a := SomeFinderLinks(html, tokens, cuts, i);
  }

  /** Whatever the finder finds, the anchors are those the fragment's own tags call for. */
  ghost predicate AlwaysRight(html: string, tokens: seq<string>, cuts: seq<nat>)
    requires |cuts| == |tokens| + 1
  {
    forall finder: Finder, i: nat, a :: FindsInText(finder) ==>
      (Links(tokens, cuts, finder, i, a) <==> i < |tokens| && ShouldLink(html, tokens, cuts, finder, i, a))
  }

  /** That holds exactly when the rewrite and the fragment's own tags let the same pieces through. */
  lemma AlwaysRightExactlyWhen(html: string, tokens: seq<string>, cuts: seq<nat>)
    requires IsCutAt(html, tokens, cuts) && AreCuts(html, cuts, |html|)
    ensures |cuts| == |tokens| + 1
    ensures AlwaysRight(html, tokens, cuts) <==> SamePieces(html, tokens, cuts)
  {
    if AlwaysRight(html, tokens, cuts) {
      forall i: nat ensures (MayLink(tokens, i) <==> ShouldLinkText(html, cuts, i)) && (IsCodeSpan(tokens, i) <==> ShouldLinkCode(html, cuts, i)) {
        if i < |tokens| {
          SameTexts(html, tokens, cuts, i);
          SameSpans(html, tokens, cuts, i);
        }
      }
    }
    if SamePieces(html, tokens, cuts) {
      forall finder: Finder, i: nat, a | FindsInText(finder)
        ensures Links(tokens, cuts, finder, i, a) <==> i < |tokens| && ShouldLink(html, tokens, cuts, finder, i, a)
      {
        LinksParts(tokens, cuts, finder, i, a);
      }
    }
  }

  lemma RightHere(html: string, tokens: seq<string>, cuts: seq<nat>, i: nat, a: Anchor)
    requires |cuts| == |tokens| + 1 && AlwaysRight(html, tokens, cuts) && i < |tokens|
    ensures Links(tokens, cuts, WholeFinder, i, a) <==> ShouldLink(html, tokens, cuts, WholeFinder, i, a)
  {
    WholeFinds();
    hide FindsInText, Links, ShouldLink;
  }

  /** An anchor around the one piece tells whether its text is linked. */
  lemma SameTexts(html: string, tokens: seq<string>, cuts: seq<nat>, i: nat)
    requires IsCutAt(html, tokens, cuts) && AreCuts(html, cuts, |html|) && |cuts| == |tokens| + 1
    requires AlwaysRight(html, tokens, cuts) && i < |tokens|
    ensures MayLink(tokens, i) <==> ShouldLinkText(html, cuts, i)
  {
    hide AlwaysRight, Links, FindsInText, IsLinkOf, OccursWhole, IsCutAt, AreCuts, MayLink, ShouldLinkText, ShouldLinkCode, OpensTag, ClosesTag;
    PieceIsToken(html, tokens, cuts, i);
    var a := Anchor(cuts[i], cuts[i+1], "<a>");
    WholeIsLinked(tokens[i], cuts[i]);
    LinksParts(tokens, cuts, WholeFinder, i, a);
    RightHere(html, tokens, cuts, i, a);
    CodeEnds(html, cuts, i);
    hide IsCodeSpan;
  }

  /** An anchor around three pieces tells whether they are a linked code span. */
  lemma SameSpans(html: string, tokens: seq<string>, cuts: seq<nat>, i: nat)
    requires IsCutAt(html, tokens, cuts) && AreCuts(html, cuts, |html|) && |cuts| == |tokens| + 1
    requires AlwaysRight(html, tokens, cuts) && i < |tokens|
    ensures IsCodeSpan(tokens, i) <==> ShouldLinkCode(html, cuts, i)
  {
    CodeEnds(html, cuts, i);
    SpanEnds(tokens, i);
    if i + 2 < |tokens| {
      hide AlwaysRight, Links, FindsInText, IsLinkOf, OccursWhole, IsCutAt, AreCuts, MayLink, ShouldLinkText, ShouldLinkCode, IsCodeSpan;
      PieceIsToken(html, tokens, cuts, i);
      PieceIsToken(html, tokens, cuts, i + 1);
      var a := Anchor(cuts[i], cuts[i+3], "<a>");
      WholeIsLinked(tokens[i+1], cuts[i+1]);
      LinksParts(tokens, cuts, WholeFinder, i, a);
      RightHere(html, tokens, cuts, i, a);
      WholeFinds();
      if IsLinkOf(tokens[i], cuts[i], WholeFinder, a) { LinkEnds(tokens[i], cuts[i], WholeFinder, a); }
    }
  }

  lemma CodeEnds(html: string, cuts: seq<nat>, i: nat)
    ensures ShouldLinkCode(html, cuts, i) ==> i + 3 < |cuts|
  {
    hide TagOpens, TagCloses, IsText;
  }

  lemma SpanEnds(tokens: seq<string>, i: nat)
    ensures IsCodeSpan(tokens, i) ==> i + 2 < |tokens|
  {
    hide OpensTag, ClosesTag, Depth;
  }

  /** No text run starts with `<`. */
  ghost predicate NoLooseStart(html: string, tokens: seq<string>, cuts: seq<nat>)
    requires |cuts| == |tokens| + 1
  {
    forall i :: 0 <= i < |tokens| && IsText(html, cuts[i], cuts[i+1]) ==> !StartsTag(tokens[i])
  }

  /** Such fragments are always linked right. */
  lemma NoLooseStartIsRight(html: string, tokens: seq<string>, cuts: seq<nat>)
    requires IsCutAt(html, tokens, cuts) && AreCuts(html, cuts, |html|) && |cuts| == |tokens| + 1 && NoLooseStart(html, tokens, cuts)
    ensures AlwaysRight(html, tokens, cuts)
  {
    forall i: nat ensures (MayLink(tokens, i) <==> ShouldLinkText(html, cuts, i)) && (IsCodeSpan(tokens, i) <==> ShouldLinkCode(html, cuts, i)) {
      if i < |tokens| { SamePiece(html, tokens, cuts, i); }
    }
    hide MayLink, IsCodeSpan, ShouldLinkText, ShouldLinkCode, IsCutAt, AreCuts, AlwaysRight;
    assert SamePieces(html, tokens, cuts);
    AlwaysRightExactlyWhen(html, tokens, cuts);
  }

  /** On such a fragment the rewrite adds exactly the anchors that the fragment's own tags call for. */
  lemma RewriteIsRight(html: string, finder: Finder, result: string, tokens: seq<string>, cuts: seq<nat>, anchors: seq<Anchor>, a: Anchor)
    requires FindsInText(finder) && IsRewriteBy(html, finder, result, tokens, cuts, anchors)
    requires |cuts| == |tokens| + 1 && NoLooseStart(html, tokens, cuts)
    ensures a in anchors <==> exists i: nat :: i < |tokens| && ShouldLink(html, tokens, cuts, finder, i, a)
  {
    hide IsCutAt, AreCuts, Weave, Spell, Fits, NoLooseStart, FindsInText, Links, ShouldLink;
    NoLooseStartIsRight(html, tokens, cuts);
    assert a in anchors <==> LinksBelow(tokens, cuts, finder, |tokens|, a);
    assert forall i: nat :: Links(tokens, cuts, finder, i, a) <==> i < |tokens| && ShouldLink(html, tokens, cuts, finder, i, a);
    hide AlwaysRight;
  }

  lemma SamePiece(html: string, tokens: seq<string>, cuts: seq<nat>, i: nat)
    requires IsCutAt(html, tokens, cuts) && AreCuts(html, cuts, |html|) && |cuts| == |tokens| + 1 && NoLooseStart(html, tokens, cuts)
    requires i < |tokens|
    ensures MayLink(tokens, i) <==> ShouldLinkText(html, cuts, i)
    ensures IsCodeSpan(tokens, i) <==> ShouldLinkCode(html, cuts, i)
  {
    PieceIsToken(html, tokens, cuts, i);
    AgreesThere(html, tokens, cuts, i, "a");
    AgreesThere(html, tokens, cuts, i, "pre");
    AgreesThere(html, tokens, cuts, i, "code");
    if i + 2 < |tokens| {
      PieceIsToken(html, tokens, cuts, i + 1);
      PieceIsToken(html, tokens, cuts, i + 2);
      SameReading(html, tokens, cuts, i, "code");
      SameReading(html, tokens, cuts, i + 2, "code");
    }
    hide IsCutAt, AreCuts, Depth, OpenBefore, OpensTag, ClosesTag, TagOpens, TagCloses, IsTag, IsText;
  }

  lemma SameReading(html: string, tokens: seq<string>, cuts: seq<nat>, i: nat, name: string)
    requires IsCutAt(html, tokens, cuts) && AreCuts(html, cuts, |html|) && |cuts| == |tokens| + 1 && NoLooseStart(html, tokens, cuts)
    requires i < |tokens|
    ensures OpensTag(tokens[i], name) <==> TagOpens(html, cuts[i], cuts[i+1], name)
    ensures ClosesTag(tokens[i], name) <==> TagCloses(html, cuts[i], cuts[i+1], name)
  {
    PieceIsToken(html, tokens, cuts, i);
    if IsTag(html, cuts[i], cuts[i+1]) {
      TokenReads(html, tokens, cuts, i, name);
    } else {
      TextIsNeutral(tokens[i]);
      hide OpensTag, ClosesTag;
    }
  }

  lemma AgreesThere(html: string, tokens: seq<string>, cuts: seq<nat>, i: nat, name: string)
    requires IsCutAt(html, tokens, cuts) && AreCuts(html, cuts, |html|) && |cuts| == |tokens| + 1 && NoLooseStart(html, tokens, cuts)
    requires i <= |tokens|
    ensures Depth(tokens[..i], name) == OpenBefore(html, cuts, i, name)
  {
    forall j | 0 <= j < i ensures !IsStray(html, tokens, cuts, j, name) {
      if IsText(html, cuts[j], cuts[j+1]) { TextIsNeutral(tokens[j]); }
      hide OpensTag, ClosesTag, IsText;
    }
    hide IsStray, IsCutAt, AreCuts, Depth, OpenBefore;
    AgreeExactlyWhen(html, tokens, cuts, i, name);
    assert AllAgree(html, tokens, cuts, i, name) && Agrees(html, tokens, cuts, i, name);
  }

  // ---------------------------------------------------------------------------------------------
  // A link added inside a link
  // ---------------------------------------------------------------------------------------------

  function LooseHtml(): string { "<a>< /a <b>X</b></a>" }

  function LooseTokens(): seq<string> { ["<a>", "< /a ", "<b>", "X", "</b>", "</a>"] }

  function LooseCuts(): seq<nat> { [0, 3, 8, 11, 12, 16, 20] }

  lemma LooseTag(from: nat, to: nat)
    requires (from, to) in {(0, 3), (8, 11), (12, 16), (16, 20)}
    ensures IsTag(LooseHtml(), from, to)
  {
    var html := LooseHtml();
    assert Closes(html, from, to - 1);
  }

  lemma LooseText(from: nat, to: nat)
    requires (from, to) in {(3, 8), (11, 12)}
    ensures IsText(LooseHtml(), from, to)
  {
    var html := LooseHtml();
    assert html[4] == ' ';
  }

  lemma LooseSlices()
    ensures IsCutAt(LooseHtml(), LooseTokens(), LooseCuts())
  {
    var html, tokens := LooseHtml(), LooseTokens();
    assert html[0..3] == tokens[0] && html[3..8] == tokens[1] && html[8..11] == tokens[2];
    assert html[11..12] == tokens[3] && html[12..16] == tokens[4] && html[16..20] == tokens[5];
  }

  lemma LooseRuns()
    ensures AreCuts(LooseHtml(), LooseCuts(), |LooseHtml()|)
  {
    var html := LooseHtml();
    LooseTag(0, 3);
    LooseText(3, 8);
    LooseTag(8, 11);
    LooseText(11, 12);
    LooseTag(12, 16);
    LooseTag(16, 20);
    LooseEnds();
    hide *;
    var one := Two(html, [0], 0, 3, 8);
    var two := Two(html, one, 8, 11, 12);
    PushTag(html, two, 12, 16);
    PushTag(html, two + [16], 16, 20);
  }

  /** A tag and the text run after it. */
  lemma Two(html: string, cuts: seq<nat>, from: nat, mid: nat, to: nat) returns (after: seq<nat>)
    requires AreCuts(html, cuts, from) && IsTag(html, from, mid) && IsText(html, mid, to)
    ensures after == cuts + [mid] + [to] && AreCuts(html, after, to)
  {
    after := cuts + [mid] + [to];
    assert cuts[|cuts|-1] == from;
    hide AreCuts, IsTag, IsText;
    PushTag(html, cuts, from, mid);
    PushText(html, cuts + [mid], mid, to);
  }

  lemma LooseEnds()
    ensures [0] + [3] + [8] + [11] + [12] + [16] + [20] == LooseCuts() && |LooseHtml()| == 20
  { }

  /** Of two pieces side by side one is a tag and the other a run of text. */
  ghost predicate Alternates(html: string, cuts: seq<nat>) {
    forall i, j, k :: 0 <= i < j < k < |cuts| && j == i + 1 && k == j + 1 ==>
      (IsTag(html, cuts[i], cuts[j]) <==> IsText(html, cuts[j], cuts[k]))
  }

  predicate IsLess(html: string, at: nat) { at < |html| && html[at] == '<' }

  /** No `<` right after a tag opens a tag. */
  ghost predicate TagsStandApart(html: string, cuts: seq<nat>) {
    forall i, j :: 0 <= i < j < |cuts| && j == i + 1 && IsTag(html, cuts[i], cuts[j]) && IsLess(html, cuts[j]) ==> OpensNoTag(html, cuts[j])
  }

  /** The pieces of a fragment alternate exactly when no `<` that directly follows a tag opens another. */
  lemma AlternateExactlyWhen(html: string, cuts: seq<nat>)
    requires AreCuts(html, cuts, |html|)
    ensures Alternates(html, cuts) <==> TagsStandApart(html, cuts)
  {
    hide IsTag, IsText, OpensNoTag, IsRun;
    if Alternates(html, cuts) {
      forall i, j | 0 <= i < j < |cuts| && j == i + 1 && IsTag(html, cuts[i], cuts[j]) && IsLess(html, cuts[j])
        ensures OpensNoTag(html, cuts[j])
      {
        ApartAt(html, cuts, i);
        assert IsText(html, cuts[j], cuts[j+1]);
      }
    }
    if TagsStandApart(html, cuts) {
      forall i, j, k | 0 <= i < j < k < |cuts| && j == i + 1 && k == j + 1
        ensures IsTag(html, cuts[i], cuts[j]) <==> IsText(html, cuts[j], cuts[k])
      {
        ApartAt(html, cuts, i);
      }
    }
  }

  lemma ApartAt(html: string, cuts: seq<nat>, i: nat)
    requires AreCuts(html, cuts, |html|) && i + 2 < |cuts|
    ensures (IsTag(html, cuts[i], cuts[i+1]) <==> IsText(html, cuts[i+1], cuts[i+2]))
      <==> (IsTag(html, cuts[i], cuts[i+1]) && IsLess(html, cuts[i+1]) ==> OpensNoTag(html, cuts[i+1]))
  {
    hide IsTag, IsText, OpensNoTag, IsLess, IsRun;
    assert IsText(html, cuts[i], cuts[i+1]) ==> IsTag(html, cuts[i+1], cuts[i+2]);
    assert IsRun(html, cuts[i], cuts[i+1]) && IsRun(html, cuts[i+1], cuts[i+2]);
    hide AreCuts;
    TagOrText(html, cuts[i], cuts[i+1]);
    TagOrText(html, cuts[i+1], cuts[i+2]);
  }

  /** What stands at the front of a piece decides which of the two it is. */
  lemma TagOrText(html: string, from: nat, to: nat)
    requires IsRun(html, from, to)
    ensures IsText(html, from, to) <==> !IsTag(html, from, to)
    ensures IsText(html, from, to) <==> (IsLess(html, from) ==> OpensNoTag(html, from))
  {
    if IsTag(html, from, to) {
      TagIsNoText(html, from, to);
      assert Closes(html, from, to - 1);
    }
  }

  /** Tokens need not alternate: two tags stand side by side in that cut. */
  lemma TagsSideBySide()
    ensures var html, cuts := LooseHtml(), LooseCuts();
      AreCuts(html, cuts, |html|) && IsTag(html, cuts[4], cuts[5]) && IsTag(html, cuts[5], cuts[6])
  {
    LooseRuns();
    LooseTag(12, 16);
    LooseTag(16, 20);
    hide LooseHtml, IsTag, AreCuts;
  }

  lemma LooseReadings()
    ensures TagOf("<a>") == Some(Tag("a", false, false)) && TagOf("<b>") == Some(Tag("b", false, false))
    ensures TagOf("< /a ") == Some(Tag("a", true, false))
  {
    assert "<a>"[1..2] == "a" && "<b>"[1..2] == "b" && "< /a "[3..4] == "a";
    assert Lower("a") == "a" && Lower("b") == "b" by { assert "a"[1..] == "" && "b"[1..] == ""; }
    assert SkipSpace("< /a ", 1) == 2;
    assert SkipSpace("< /a ", 3) == 3;
    assert NameEnd("< /a ", 3) == 4 && NameEnd("<a>", 1) == 2 && NameEnd("<b>", 1) == 2;
    assert "<a>"[1..] == "a>" && "<b>"[1..] == "b>" && "< /a "[3..] == "a ";
  }

  lemma LooseDepth(name: string)
    ensures Depth(LooseTokens()[..3], name) == if name == "b" then 1 else 0
  {
    var tokens := LooseTokens();
    LooseReadings();
    assert tokens[..0] == [];
    DepthPush(tokens, 0, name);
    DepthPush(tokens, 1, name);
    DepthPush(tokens, 2, name);
    hide Depth, TagOf;
  }

  lemma LooseOpen()
    ensures OpenBefore(LooseHtml(), LooseCuts(), 1, "a") == 1 && OpenBefore(LooseHtml(), LooseCuts(), 3, "a") == 1
  {
    var html, cuts := LooseHtml(), LooseCuts();
    LooseMarks();
    LooseText(3, 8);
    assert OpenBefore(html, cuts, 0, "a") == 0;
    assert |cuts| == 7 && cuts[0] == 0 && cuts[1] == 3 && cuts[2] == 8 && cuts[3] == 11;
    hide *;
  }

  lemma LooseMarks()
    ensures TagOpens(LooseHtml(), 0, 3, "a") && !TagOpens(LooseHtml(), 8, 11, "a") && !TagCloses(LooseHtml(), 8, 11, "a")
  {
    LooseSlices();
    LooseSays();
    LooseTag(0, 3);
    LooseTag(8, 11);
    hide LooseHtml, IsTag, IsCutAt, TagOpens, TagCloses, OpensTag, ClosesTag;
    TokenReads(LooseHtml(), LooseTokens(), LooseCuts(), 0, "a");
    TokenReads(LooseHtml(), LooseTokens(), LooseCuts(), 2, "a");
  }

  lemma LooseSays()
    ensures OpensTag(LooseTokens()[0], "a") && !OpensTag(LooseTokens()[2], "a") && !ClosesTag(LooseTokens()[2], "a")
  {
    LooseReadings();
    hide TagOf;
  }

  /**
   A text run that reads as the closing tag of an open link takes the link off the stack, and the text after it gets an
   anchor inside that link.
   */
  lemma LooseEndTag()
    ensures var html, tokens, cuts := LooseHtml(), LooseTokens(), LooseCuts();
      && IsCutAt(html, tokens, cuts) && AreCuts(html, cuts, |html|)
      && ClosesOpen(html, tokens, cuts, 1, "a")
      && MayLink(tokens, 3) && OpenBefore(html, cuts, 3, "a") == 1
      && !NeverInside(html, tokens, cuts)
  {
    var html, tokens, cuts := LooseHtml(), LooseTokens(), LooseCuts();
    LooseSlices();
    LooseRuns();
    LooseText(3, 8);
    LooseOpen();
    LooseRests();
    hide LooseHtml, IsText, OpenBefore, IsCutAt, AreCuts, MayLink, ClosesTag;
    NeverInsideExactlyWhen(html, tokens, cuts);
    hide NeverInside, IsCodeSpan;
    assert !IsOutside(html, cuts, 3);
  }

  lemma LooseRests()
    ensures MayLink(LooseTokens(), 3) && ClosesTag(LooseTokens()[1], "a")
  {
    LooseReadings();
    LooseDepth("a");
    LooseDepth("pre");
    LooseDepth("code");
    hide TagOf, Depth;
  }
}
