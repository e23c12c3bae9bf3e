/**
 The links of one text run of the thread markdown (apps/web/lib/thread-markdown.ts): of the occurrences found in it, by
 where they start, the standalone ones are linked, save those that start inside an earlier one.

 The fixed-prefix occurrences that one regular expression finds (ticket and job paths, outcome citations) are given by a
 function of the text run; the document citations are those of module Citations.
 */
module MarkdownLinks {
  import opened Wrappers
  import opened HtmlTokens
  import opened Weaving
  import C = Citations

  // ---------------------------------------------------------------------------------------------
  // The occurrences of one text run
  // ---------------------------------------------------------------------------------------------

  type Finder = string -> seq<Anchor>

  ghost predicate InText(all: seq<Anchor>, length: nat) {
    forall a :: a in all ==> a.start < a.end <= length
  }

  ghost predicate Ascending(all: seq<Anchor>) {
    forall i, j :: 0 <= i < j < |all| ==> all[i].start <= all[j].start
  }

  function EscapeChar(c: char): string {
    if c == '&' then "&amp;" else if c == '"' then "&quot;" else if c == '<' then "&lt;" else if c == '>' then "&gt;" else [c]
  }

  function EscapeAttribute(value: string): string {
    if value == "" then "" else EscapeChar(value[0]) + EscapeAttribute(value[1..])
  }

  /** The address of a document citation is the attribute's value as it stands. */
  lemma {:induction false} SafeStays(value: string)
    requires C.Safe(value)
    ensures EscapeAttribute(value) == value
  {
    if value != "" {
      assert C.IsSafe(value[0]);
      SafeStays(value[1..]);
      assert value == [value[0]] + value[1..];
    }
  }

  /** The character an escape stands for, and how long the escape is. */
  function EscapeAt(s: string): Option<(char, nat)> {
    if "&amp;" <= s then Some(('&', 5))
    else if "&quot;" <= s then Some(('"', 6))
    else if "&lt;" <= s then Some(('<', 4))
    else if "&gt;" <= s then Some(('>', 4))
    else None
  }

  /** What a quoted attribute's text says: the four escapes read as the characters they stand for. */
  function ReadAttribute(s: string): string
    decreases |s|
  {
    if s == "" then ""
    else match EscapeAt(s)
      case Some((c, n)) => [c] + ReadAttribute(s[n..])
      case None => [s[0]] + ReadAttribute(s[1..])
  }

  lemma EscapeIsRead(c: char, rest: string)
    ensures EscapeAt(EscapeChar(c) + rest) == if c in {'&', '"', '<', '>'} then Some((c, |EscapeChar(c)|)) else None
  {
    var s := EscapeChar(c) + rest;
    if c == '&' {
      assert s[..5] == "&amp;";
    } else if c == '"' {
      assert s[..6] == "&quot;" && s[1] == 'q';
    } else if c == '<' {
      assert s[..4] == "&lt;" && s[1] == 'l';
    } else if c == '>' {
      assert s[..4] == "&gt;" && s[1] == 'g';
    } else {
      assert s[0] == c;
    }
  }

  lemma ReadsChar(c: char, rest: string)
    ensures ReadAttribute(EscapeChar(c) + rest) == [c] + ReadAttribute(rest)
    ensures '"' !in EscapeChar(c) && '<' !in EscapeChar(c) && '>' !in EscapeChar(c)
  {
    EscapeIsRead(c, rest);
    assert (EscapeChar(c) + rest)[|EscapeChar(c)|..] == rest;
    hide EscapeAt;
  }

  /** An escaped value ends no attribute and no tag, and reads back as the value. */
  lemma {:induction false} EscapeReadsBack(value: string)
    ensures ReadAttribute(EscapeAttribute(value)) == value
    ensures '"' !in EscapeAttribute(value) && '<' !in EscapeAttribute(value) && '>' !in EscapeAttribute(value)
    decreases |value|
  {
    if value != "" {
      EscapeReadsBack(value[1..]);
      ReadsChar(value[0], EscapeAttribute(value[1..]));
      assert value == [value[0]] + value[1..];
      hide EscapeChar;
    }
  }

  function DocAnchor(c: C.Citation): Anchor {
    Anchor(c.start, c.end, "<a href=\"" + EscapeAttribute(c.href) + "\" target=\"_blank\" rel=\"noopener noreferrer\">")
  }

  function DocAnchors(docs: seq<C.Citation>): seq<Anchor> {
    if docs == [] then [] else [DocAnchor(docs[0])] + DocAnchors(docs[1..])
  }

  function Insert(a: Anchor, all: seq<Anchor>): seq<Anchor> {
    if all == [] || a.start <= all[0].start then [a] + all else [all[0]] + Insert(a, all[1..])
  }

  /** A stable sort by start. */
  function SortByStart(all: seq<Anchor>): seq<Anchor> {
    if all == [] then [] else Insert(all[0], SortByStart(all[1..]))
  }

  lemma {:induction false} InsertKeeps(a: Anchor, all: seq<Anchor>)
    ensures forall b :: b in Insert(a, all) <==> b == a || b in all
    ensures Ascending(all) ==> Ascending(Insert(a, all))
  {
    if all != [] && all[0].start < a.start {
      InsertKeeps(a, all[1..]);
      var rest := Insert(a, all[1..]);
      assert forall k :: 0 <= k < |rest| ==> rest[k] in rest;
    }
  }

  lemma {:induction false} SortKeeps(all: seq<Anchor>)
    ensures forall b :: b in SortByStart(all) <==> b in all
    ensures Ascending(SortByStart(all))
  {
    if all != [] {
      SortKeeps(all[1..]);
      InsertKeeps(all[0], SortByStart(all[1..]));
    }
  }

  /** Every occurrence of a text run, by where it starts. */
  ghost predicate IsAll(text: string, finder: Finder, all: seq<Anchor>) {
    exists docs :: C.Found(text, docs, |text|) && all == SortByStart(finder(text) + DocAnchors(docs))
  }

  lemma AllUnique(text: string, finder: Finder, x: seq<Anchor>, y: seq<Anchor>)
    requires IsAll(text, finder, x) && IsAll(text, finder, y)
    ensures x == y
  {
    hide SortByStart, C.Found;
    var d :| C.Found(text, d, |text|) && x == SortByStart(finder(text) + DocAnchors(d));
    var e :| C.Found(text, e, |text|) && y == SortByStart(finder(text) + DocAnchors(e));
    C.FoundUnique(text, d, e, |text|);
  }

  lemma {:induction false} DocsInText(text: string, docs: seq<C.Citation>)
    requires forall k :: 0 <= k < |docs| ==> docs[k].start < docs[k].end <= |text|
    ensures InText(DocAnchors(docs), |text|)
  {
    if docs != [] { DocsInText(text, docs[1..]); }
  }

  lemma FoundInText(text: string, docs: seq<C.Citation>)
    requires C.Found(text, docs, |text|)
    ensures InText(DocAnchors(docs), |text|)
  {
    forall k | 0 <= k < |docs| ensures docs[k].start < docs[k].end <= |text| {
      assert C.IsFound(text, docs[k], |text|);
      C.CitationSpan(text, docs[k].at, docs[k]);
    }
    DocsInText(text, docs);
  }

  method AllCitations(text: string, finder: Finder) returns (all: seq<Anchor>)
    requires InText(finder(text), |text|)
    ensures IsAll(text, finder, all) && InText(all, |text|) && Ascending(all)
  {
    var docs, _ := C.DocCitations(text);
    all := SortByStart(finder(text) + DocAnchors(docs));
    FoundInText(text, docs);
    SortKeeps(finder(text) + DocAnchors(docs));
    hide C.Found, SortByStart, DocAnchors;
  }

  // ---------------------------------------------------------------------------------------------
  // One text run
  // ---------------------------------------------------------------------------------------------

  predicate ContinuesPath(c: char) { C.IsAlphaNumeric(c) || c == '_' || c == '/' || c == '-' }

  predicate Standalone(text: string, a: Anchor) {
    && (0 < a.start <= |text| ==> !ContinuesPath(text[a.start-1]))
    && (a.end < |text| ==> !ContinuesPath(text[a.end]))
  }

  /** The occurrences that do not start inside an earlier one taken. */
  function Taken(all: seq<Anchor>, cursor: nat): seq<Anchor> {
    if all == [] then []
    else if all[0].start < cursor then Taken(all[1..], cursor)
    else [all[0]] + Taken(all[1..], all[0].end)
  }

  function Standing(text: string, taken: seq<Anchor>): seq<Anchor> {
    if taken == [] then []
    else
      var last := taken[|taken|-1];
      Standing(text, taken[..|taken|-1]) + (if Standalone(text, last) then [last] else [])
  }

  /** The occurrences that become links. */
  function Linked(text: string, all: seq<Anchor>): seq<Anchor> { Standing(text, Taken(all, 0)) }

  lemma {:induction false} StandingExactly(text: string, taken: seq<Anchor>, a: Anchor)
    ensures a in Standing(text, taken) <==> a in taken && Standalone(text, a)
  {
    if taken != [] {
      StandingExactly(text, taken[..|taken|-1], a);
      assert taken == taken[..|taken|-1] + [taken[|taken|-1]];
    }
  }

  /** Taken occurrences do not overlap. */
  lemma {:induction false} TakenFits(all: seq<Anchor>, cursor: nat, length: nat)
    requires InText(all, length)
    ensures Fits(Taken(all, cursor), length)
    ensures forall a :: a in Taken(all, cursor) ==> a in all && cursor <= a.start
  {
    if all != [] {
      assert InText(all[1..], length);
      if all[0].start < cursor {
        TakenFits(all[1..], cursor, length);
      } else {
        assert all[0] in all;
        TakenFits(all[1..], all[0].end, length);
      }
    }
  }

  ghost predicate Overlapped(taken: seq<Anchor>, c: Anchor) {
    exists t :: t in taken && t.start <= c.start < t.end
  }

  /** An occurrence is left out of the taken ones only if it starts inside one of them. */
  lemma {:induction false} TakenCovers(all: seq<Anchor>, cursor: nat, c: Anchor)
    requires Ascending(all) && c in all
    ensures c in Taken(all, cursor) || c.start < cursor || Overlapped(Taken(all, cursor), c)
  {
    var rest := all[1..];
    if all[0].start < cursor {
      if c != all[0] { TakenCovers(rest, cursor, c); }
    } else if c != all[0] {
      TakenCovers(rest, all[0].end, c);
      assert all[0].start <= c.start;
    }
  }

  /** Of the occurrences of a run exactly the standalone ones become links, save those that start inside an earlier one taken. */
  lemma LinkedExactly(text: string, all: seq<Anchor>, a: Anchor)
    requires Ascending(all) && InText(all, |text|)
    ensures a in Linked(text, all) ==> a in all && Standalone(text, a)
    ensures a in all && Standalone(text, a) ==> a in Linked(text, all) || Overlapped(Taken(all, 0), a)
  {
    StandingExactly(text, Taken(all, 0), a);
    TakenFits(all, 0, |text|);
    if a in all { TakenCovers(all, 0, a); }
  }

  lemma TakenStep(all: seq<Anchor>, k: nat, cursor: nat)
    requires k < |all|
    ensures Taken(all[k..], cursor)
      == if all[k].start < cursor then Taken(all[k+1..], cursor) else [all[k]] + Taken(all[k+1..], all[k].end)
  {
    assert all[k..][0] == all[k] && all[k..][1..] == all[k+1..];
  }

  /** The output holds text[..copied] with the links so far, and `taken` are the occurrences taken among all[..k]. */
  ghost predicate Copied(text: string, all: seq<Anchor>, k: nat, taken: seq<Anchor>, copied: nat, cursor: nat, out: string) {
    && copied <= cursor <= |text| && k <= |all|
    && taken + Taken(all[k..], cursor) == Taken(all, 0)
    && Fits(Standing(text, taken), copied) && out == Spelled(text, Standing(text, taken), copied)
  }

  method LinkifyText(text: string, all: seq<Anchor>) returns (out: string)
    requires InText(all, |text|)
    ensures Fits(Linked(text, all), |text|) && out == Spelled(text, Linked(text, all), |text|)
  {
    out := "";
    var copied: nat, cursor: nat := 0, 0;
    ghost var taken: seq<Anchor> := [];
    hide *;
    NoneCopied(text, all);
    for k := 0 to |all|
      invariant copied <= cursor <= |text|
      invariant Copied(text, all, k, taken, copied, cursor, out)
    {
      var a := all[k];
      if a.start < cursor { continue; }
      if !Standalone(text, a) {
        CopiedReject(text, all, k, taken, copied, cursor, out);
        cursor, taken := a.end, taken + [a];
      } else {
        CopiedLink(text, all, k, taken, copied, cursor, out);
        out := out + text[copied..a.start] + a.opening + text[a.start..a.end] + "</a>";
        copied, cursor, taken := a.end, a.end, taken + [a];
      }
    }
    CopiedAll(text, all, taken, copied, cursor, out);
    return out + text[copied..];
  }

  lemma NoneCopied(text: string, all: seq<Anchor>)
    ensures Copied(text, all, 0, [], 0, 0, "")
  {
    SpelledNone(text, 0);
    assert all[0..] == all && [] + Taken(all, 0) == Taken(all, 0);
    hide Spelled, Taken;
  }

  lemma TakeNext(all: seq<Anchor>, k: nat, taken: seq<Anchor>, cursor: nat)
    requires k < |all| && cursor <= all[k].start && taken + Taken(all[k..], cursor) == Taken(all, 0)
    ensures taken + [all[k]] + Taken(all[k+1..], all[k].end) == Taken(all, 0)
  {
    TakenStep(all, k, cursor);
    hide Taken;
    assert taken + ([all[k]] + Taken(all[k+1..], all[k].end)) == taken + [all[k]] + Taken(all[k+1..], all[k].end);
  }

  lemma CopiedReject(text: string, all: seq<Anchor>, k: nat, taken: seq<Anchor>, copied: nat, cursor: nat, out: string)
    requires Copied(text, all, k, taken, copied, cursor, out) && k < |all| && cursor <= all[k].start < all[k].end <= |text|
    requires !Standalone(text, all[k])
    ensures Copied(text, all, k + 1, taken + [all[k]], copied, all[k].end, out)
  {
    TakeNext(all, k, taken, cursor);
    assert Standing(text, taken) + [] == Standing(text, taken);
    hide Spelled, Taken, Standing, Fits, Standalone;
  }

  lemma CopiedLink(text: string, all: seq<Anchor>, k: nat, taken: seq<Anchor>, copied: nat, cursor: nat, out: string)
    requires Copied(text, all, k, taken, copied, cursor, out) && k < |all| && cursor <= all[k].start < all[k].end <= |text|
    requires Standalone(text, all[k])
    ensures copied <= all[k].start
    ensures Copied(text, all, k + 1, taken + [all[k]], all[k].end, all[k].end,
                   out + text[copied..all[k].start] + all[k].opening + text[all[k].start..all[k].end] + "</a>")
  {
    TakeNext(all, k, taken, cursor);
    hide Spelled, Taken, Standing, Fits, Standalone;
    SpelledPush(text, Standing(text, taken), copied, all[k]);
  }

  lemma CopiedAll(text: string, all: seq<Anchor>, taken: seq<Anchor>, copied: nat, cursor: nat, out: string)
    requires Copied(text, all, |all|, taken, copied, cursor, out)
    ensures Fits(Linked(text, all), |text|) && out + text[copied..] == Spelled(text, Linked(text, all), |text|)
  {
    assert all[|all|..] == [] && taken + [] == taken;
    assert Linked(text, all) == Standing(text, taken);
    hide Spelled, Taken, Standing, Fits, Linked;
    assert text[copied..] == text[copied..|text|];
    SpelledOn(text, Standing(text, taken), copied, |text|);
  }
}
