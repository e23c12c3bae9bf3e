/**
 The tag scanner of the thread markdown (apps/web/lib/thread-markdown.ts): where a tag ends when a `>` inside a quoted
 attribute value is data, and the cut of a fragment into tags and text runs.

 What closes a tag is said character by character, inside or outside a quoted value; the scanner jumps from quote to
 quote. A cut is given by its positions, and there is only one: no two text runs touch, and a `<` in a text run opens
 no tag.
 */
module HtmlTokens {
  import opened Wrappers

  predicate IsLetter(c: char) { 'a' <= c <= 'z' || 'A' <= c <= 'Z' }

  predicate IsNameChar(c: char) { IsLetter(c) || '0' <= c <= '9' || c == '-' }

  predicate IsQuote(c: char) { c == '"' || c == '\'' }

  // ---------------------------------------------------------------------------------------------
  // What closes a tag
  // ---------------------------------------------------------------------------------------------

  datatype Quoting = Outside | Within(mark: char)

  /** Whether position i is inside a quoted value, reading character by character from `from`. */
  function QuotingAt(html: string, from: nat, i: nat): Quoting
    requires from <= i <= |html|
    decreases i
  {
    if i == from then Outside
    else
      var c := html[i-1];
      match QuotingAt(html, from, i - 1)
      case Outside => if IsQuote(c) then Within(c) else Outside
      case Within(mark) => if c == mark then Outside else Within(mark)
  }

  predicate Reads(html: string, at: nat, word: string) {
    at + |word| <= |html| && html[at..at+|word|] == word
  }

  /** The position e of a `>` outside every quoted value of the element tag whose name starts at `from`. */
  ghost predicate ClosesElement(html: string, from: nat, e: nat) {
    from <= e < |html| && html[e] == '>' && QuotingAt(html, from, e) == Outside
  }

  /** The place of a tag's name: after `<` or `</`. */
  function NameAt(html: string, start: nat): nat
    requires start + 1 < |html|
  {
    if html[start+1] == '/' then start + 2 else start + 1
  }

  /** The `>` at e could close the tag that the `<` at start opens; the first one that could does. */
  ghost predicate Closes(html: string, start: nat, e: nat) {
    && start + 1 < |html| && e < |html|
    && if html[start+1] == '!' then
         if Reads(html, start, "<!--") then e >= start + 6 && Reads(html, e - 2, "-->")
         else start < e && html[e] == '>'
       else if html[start+1] == '?' then start < e && html[e] == '>'
       else
         var name := NameAt(html, start);
         name < |html| && IsLetter(html[name]) && ClosesElement(html, name, e)
  }

  ghost predicate IsTagEnd(html: string, start: nat, e: nat) {
    Closes(html, start, e) && forall k: nat :: k < e ==> !Closes(html, start, k)
  }

  ghost predicate OpensNoTag(html: string, start: nat) {
    forall e: nat :: !Closes(html, start, e)
  }

  lemma ClosesAfterStart(html: string, start: nat, e: nat)
    requires Closes(html, start, e)
    ensures start < e < |html| && html[e] == '>'
  {
  }

  // ---------------------------------------------------------------------------------------------
  // Finding it
  // ---------------------------------------------------------------------------------------------

  /** The first place of a word at or after `from`. */
  method IndexOf(html: string, word: string, from: nat) returns (r: Option<nat>)
    requires |word| > 0
    ensures r.Some? ==> from <= r.value && Reads(html, r.value, word) && forall k: nat :: from <= k < r.value ==> !Reads(html, k, word)
    ensures r.None? ==> forall k: nat :: from <= k ==> !Reads(html, k, word)
  {
    var i := from;
    while i + |word| <= |html|
      invariant forall k: nat :: from <= k < i ==> !Reads(html, k, word)
    {
      if html[i..i+|word|] == word { return Some(i); }
      i := i + 1;
    }
    return None;
  }

  /** Between two quotes nothing changes; at the closing one the value ends. */
  lemma {:induction false} QuotedRun(html: string, from: nat, open: nat, i: nat)
    requires from <= open < i <= |html| && QuotingAt(html, from, open) == Outside && IsQuote(html[open])
    requires forall k :: open < k < i ==> html[k] != html[open]
    ensures QuotingAt(html, from, i) == Within(html[open])
    decreases i
  {
    if i > open + 1 { QuotedRun(html, from, open, i - 1); }
  }

  lemma {:induction false} PlainRun(html: string, from: nat, i: nat, j: nat)
    requires from <= i <= j <= |html| && QuotingAt(html, from, i) == Outside
    requires forall k :: i <= k < j ==> !IsQuote(html[k])
    ensures QuotingAt(html, from, j) == Outside
    decreases j
  {
    if i < j { PlainRun(html, from, i, j - 1); }
  }

  /** The name of an element tag, then its attributes: the first `>` outside every quoted value. */
  method ElementEnd(html: string, from: nat) returns (r: Option<nat>)
    requires from <= |html|
    ensures r.Some? ==> ClosesElement(html, from, r.value) && forall k: nat :: k < r.value ==> !ClosesElement(html, from, k)
    ensures r.None? ==> forall k: nat :: !ClosesElement(html, from, k)
  {
    var index := from;
    while index < |html| && IsNameChar(html[index])
      invariant from <= index <= |html| && forall k :: from <= k < index ==> IsNameChar(html[k])
    {
      index := index + 1;
    }
    NameRun(html, from, index);
    while index < |html|
      invariant from <= index <= |html| && Searched(html, from, index)
    {
      hide Searched, ClosesElement, QuotingAt, IsQuote, IsNameChar, Reads;
      var c := html[index];
      if IsQuote(c) {
        var end := IndexOf(html, [c], index + 1);
        QuotedMoves(html, from, index, end);
        if end.None? { return None; }
        index := end.value + 1;
      } else {
        PlainMoves(html, from, index);
        if c == '>' { return Some(index); }
        index := index + 1;
      }
    }
    return None;
  }

  /** No `>` before index closes the tag, and index is outside the quoted values. */
  ghost predicate Searched(html: string, from: nat, index: nat) {
    && from <= index <= |html| && QuotingAt(html, from, index) == Outside
    && forall k: nat :: k < index ==> !ClosesElement(html, from, k)
  }

  lemma NameRun(html: string, from: nat, index: nat)
    requires from <= index <= |html| && forall k :: from <= k < index ==> IsNameChar(html[k])
    ensures Searched(html, from, index)
  {
    PlainRun(html, from, from, index);
  }

  lemma PlainMoves(html: string, from: nat, index: nat)
    requires Searched(html, from, index) && index < |html| && !IsQuote(html[index])
    ensures if html[index] == '>' then ClosesElement(html, from, index) else Searched(html, from, index + 1)
  { }

  /** A quoted value is passed over at once; without its closing quote nothing closes the tag. */
  lemma QuotedMoves(html: string, from: nat, open: nat, end: Option<nat>)
    requires Searched(html, from, open) && open < |html| && IsQuote(html[open])
    requires end.Some? ==> open < end.value && Reads(html, end.value, [html[open]])
    requires end.Some? ==> forall k: nat :: open + 1 <= k < end.value ==> !Reads(html, k, [html[open]])
    requires end.None? ==> forall k: nat :: open + 1 <= k ==> !Reads(html, k, [html[open]])
    ensures end.Some? ==> end.value < |html| && Searched(html, from, end.value + 1)
    ensures end.None? ==> forall k: nat :: !ClosesElement(html, from, k)
  {
    forall k: nat ensures Reads(html, k, [html[open]]) <==> k < |html| && html[k] == html[open] { }
    var past := if end.Some? then end.value else |html|;
    hide Reads, ClosesElement;
    NoneQuoted(html, from, open, past);
    QuotedRun(html, from, open, past);
  }

  /** No `>` up to the closing quote closes the tag. */
  lemma NoneQuoted(html: string, from: nat, open: nat, past: nat)
    requires from <= open < past <= |html| && QuotingAt(html, from, open) == Outside && IsQuote(html[open])
    requires forall k :: open < k < past ==> html[k] != html[open]
    requires past < |html| ==> html[past] == html[open]
    ensures forall k: nat :: open <= k <= past ==> !ClosesElement(html, from, k)
  {
    forall k: nat | open < k <= past ensures !ClosesElement(html, from, k) { QuotedRun(html, from, open, k); }
  }

  method TagEnd(html: string, start: nat) returns (r: Option<nat>)
    requires start < |html| && html[start] == '<'
    ensures r.Some? ==> IsTagEnd(html, start, r.value)
    ensures r.None? ==> OpensNoTag(html, start)
  {
    var index := start + 1;
    if index == |html| { return None; }
    var next := html[index];
    if next == '!' {
      if Reads(html, start, "<!--") {
        var end := IndexOf(html, "-->", start + 4);
        return if end.None? then None else Some(end.value + 2);
      }
      r := IndexOf(html, ">", index);
      DeclarationEnd(html, start, r);
      return;
    }
    if next == '?' {
      r := IndexOf(html, ">", index);
      DeclarationEnd(html, start, r);
      return;
    }
    if next == '/' { index := index + 1; }
    if index == |html| || !IsLetter(html[index]) { return None; }
    r := ElementEnd(html, index);
  }

  lemma DeclarationEnd(html: string, start: nat, end: Option<nat>)
    requires start + 1 < |html| && (html[start+1] == '!' || html[start+1] == '?') && !Reads(html, start, "<!--")
    requires end.Some? ==> start + 1 <= end.value && Reads(html, end.value, ">")
    requires end.Some? ==> forall k: nat :: start + 1 <= k < end.value ==> !Reads(html, k, ">")
    requires end.None? ==> forall k: nat :: start + 1 <= k ==> !Reads(html, k, ">")
    ensures if end.Some? then IsTagEnd(html, start, end.value) else OpensNoTag(html, start)
  {
    forall k: nat ensures Reads(html, k, ">") <==> k < |html| && html[k] == '>' { }
  }

  // ---------------------------------------------------------------------------------------------
  // Tokens
  // ---------------------------------------------------------------------------------------------

  ghost predicate IsTag(html: string, from: nat, to: nat) {
    from < to <= |html| && html[from] == '<' && IsTagEnd(html, from, to - 1)
  }

  /** A run of text: each `<` in it opens no tag. */
  ghost predicate IsText(html: string, from: nat, to: nat) {
    from < to <= |html| && forall p :: from <= p < to && html[p] == '<' ==> OpensNoTag(html, p)
  }

  ghost predicate IsRun(html: string, from: nat, to: nat) { IsTag(html, from, to) || IsText(html, from, to) }

  /** The cuts of html[..to]: each piece is a whole tag or a run of text, and no two runs of text touch. */
  ghost predicate AreCuts(html: string, cuts: seq<nat>, to: nat) {
    && |cuts| > 0 && cuts[0] == 0 && cuts[|cuts|-1] == to <= |html|
    && (forall i, j :: 0 <= i < j < |cuts| && j == i + 1 ==> IsRun(html, cuts[i], cuts[j]))
    && (forall i, j, k :: 0 <= i < j < k < |cuts| && j == i + 1 && k == j + 1 && IsText(html, cuts[i], cuts[j]) ==> IsTag(html, cuts[j], cuts[k]))
  }

  ghost predicate IsCutAt(html: string, tokens: seq<string>, cuts: seq<nat>) {
    && |cuts| == |tokens| + 1
    && (forall i, j :: 0 <= i < j < |cuts| && j == i + 1 ==> cuts[i] < cuts[j] <= |html| && tokens[i] == html[cuts[i]..cuts[j]])
  }

  function Concat(tokens: seq<string>): string {
    if tokens == [] then "" else Concat(tokens[..|tokens|-1]) + tokens[|tokens|-1]
  }

  lemma ConcatPush(tokens: seq<string>, token: string)
    ensures Concat(tokens + [token]) == Concat(tokens) + token
  {
    assert (tokens + [token])[..|tokens|] == tokens;
  }

  lemma TagIsNoText(html: string, from: nat, to: nat)
    requires IsTag(html, from, to)
    ensures forall other: nat :: !IsText(html, from, other)
  {
    assert Closes(html, from, to - 1);
  }

  /** One tag more. */
  lemma PushTag(html: string, cuts: seq<nat>, from: nat, to: nat)
    requires AreCuts(html, cuts, from) && IsTag(html, from, to)
    ensures AreCuts(html, cuts + [to], to)
  {
    assert IsRun(html, from, to) && to <= |html|;
    hide IsTag, IsText;
  }

  /** One run of text more, after nothing or after a tag. */
  lemma PushText(html: string, cuts: seq<nat>, from: nat, to: nat)
    requires AreCuts(html, cuts, from) && IsText(html, from, to) && (|cuts| > 1 ==> IsTag(html, cuts[|cuts|-2], from))
    ensures AreCuts(html, cuts + [to], to)
  {
    if |cuts| > 1 { TagIsNoText(html, cuts[|cuts|-2], from); }
    hide IsTag, IsText;
    assert IsRun(html, from, to);
  }

  /** The text run goes on up to the next `<`, or to the end. */
  method TextRun(html: string, text: string, ghost from: nat, index: nat) returns (to: nat, run: string)
    requires IsRunOf(html, from, index, text)
    ensures index <= to <= |html| && IsRunOf(html, from, to, run) && (to < |html| ==> html[to] == '<')
  {
    var open := IndexOf(html, "<", index);
    to := if open.Some? then open.value else |html|;
    TextGrows(html, from, index, to, open);
    run := text + html[index..to];
  }

  /** text is html[from..to], a run of text or nothing. */
  ghost predicate IsRunOf(html: string, from: nat, to: nat, text: string) {
    from <= to <= |html| && text == html[from..to] && (from < to ==> IsText(html, from, to))
  }

  /** A run of text that is not empty becomes a token. */
  method Flush(html: string, tokens: seq<string>, ghost cuts: seq<nat>, text: string, ghost from: nat, ghost to: nat)
    returns (after: seq<string>, ghost cutsAfter: seq<nat>)
    requires Kept(html, tokens, cuts, from) && IsRunOf(html, from, to, text)
    ensures CutTo(html, after, cutsAfter, to)
    ensures if text == "" then after == tokens && cutsAfter == cuts else after == tokens + [text] && cutsAfter == cuts + [to]
  {
    KeptText(html, tokens, cuts, from, to, text);
    after, cutsAfter := tokens, cuts;
    if text != "" { after, cutsAfter := tokens + [text], cuts + [to]; }
  }

  /** The tag becomes a token. */
  method PushTagToken(html: string, tokens: seq<string>, ghost cuts: seq<nat>, from: nat, end: nat)
    returns (after: seq<string>, ghost cutsAfter: seq<nat>, past: nat)
    requires CutTo(html, tokens, cuts, from) && from < |html| && html[from] == '<' && IsTagEnd(html, from, end)
    ensures from < past <= |html| && Kept(html, after, cutsAfter, past) && IsRunOf(html, past, past, "")
    ensures past == end + 1 && after == tokens + [html[from..past]]
  {
    past := end + 1;
    KeptTag(html, tokens, cuts, from, end, past);
    after, cutsAfter := tokens + [html[from..past]], cuts + [past];
  }

  /** The cut of a fragment into tags and text runs; put together again they are the fragment. */
  method Tokenize(html: string) returns (tokens: seq<string>, ghost cuts: seq<nat>)
    ensures Concat(tokens) == html
    ensures IsCutAt(html, tokens, cuts) && AreCuts(html, cuts, |html|)
  {
    tokens, cuts := [], [0];
    var text := "";
    var index := 0;
    ghost var from: nat := 0;
    hide *;
    NothingKept(html);
    while index < |html|
      invariant index <= |html| && IsRunOf(html, from, index, text) && Kept(html, tokens, cuts, from)
      decreases |html| - index
    {
      index, text := TextRun(html, text, from, index);
      if index == |html| { break; }
      var end := TagEnd(html, index);
      if end.None? {
        LessThanIsText(html, from, index, text);
        text := text + "<";
        index := index + 1;
      } else {
        tokens, cuts := Flush(html, tokens, cuts, text, from, index);
        text := "";
        tokens, cuts, index := PushTagToken(html, tokens, cuts, index, end.value);
        from := index;
      }
    }
    tokens, cuts := Flush(html, tokens, cuts, text, from, index);
    AllCut(html, tokens, cuts);
  }

  lemma NothingKept(html: string)
    ensures Kept(html, [], [0], 0) && IsRunOf(html, 0, 0, "")
  {
  }

  lemma AllCut(html: string, tokens: seq<string>, cuts: seq<nat>)
    requires CutTo(html, tokens, cuts, |html|)
    ensures Concat(tokens) == html && IsCutAt(html, tokens, cuts) && AreCuts(html, cuts, |html|)
  {
    assert html[..|html|] == html;
  }

  /** The tokens so far are html[..to], and the last of them is a tag. */
  ghost predicate Kept(html: string, tokens: seq<string>, cuts: seq<nat>, to: nat) {
    && CutTo(html, tokens, cuts, to)
    && (|cuts| > 1 ==> IsTag(html, cuts[|cuts|-2], to))
  }

  ghost predicate CutTo(html: string, tokens: seq<string>, cuts: seq<nat>, to: nat) {
    && AreCuts(html, cuts, to) && IsCutAt(html, tokens, cuts)
    && Concat(tokens) == html[..to]
  }

  /** The run of text before `to` is kept too, when there is one. */
  lemma KeptText(html: string, tokens: seq<string>, cuts: seq<nat>, from: nat, to: nat, text: string)
    requires Kept(html, tokens, cuts, from) && IsRunOf(html, from, to, text)
    ensures if text == "" then CutTo(html, tokens, cuts, to) else CutTo(html, tokens + [text], cuts + [to], to)
  {
    if text != "" {
      PushText(html, cuts, from, to);
      CutPush(html, tokens, cuts, from, to);
    }
  }

  /** A tag after them. */
  lemma KeptTag(html: string, tokens: seq<string>, cuts: seq<nat>, from: nat, end: nat, past: nat)
    requires CutTo(html, tokens, cuts, from) && from < |html| && html[from] == '<' && IsTagEnd(html, from, end) && past == end + 1
    ensures from < past <= |html| && IsRunOf(html, past, past, "")
    ensures Kept(html, tokens + [html[from..past]], cuts + [past], past)
  {
    ClosesAfterStart(html, from, end);
    assert IsTag(html, from, end + 1);
    PushTag(html, cuts, from, end + 1);
    CutPush(html, tokens, cuts, from, end + 1);
  }

  lemma CutPush(html: string, tokens: seq<string>, cuts: seq<nat>, from: nat, to: nat)
    requires CutTo(html, tokens, cuts, from) && from < to <= |html|
    ensures IsCutAt(html, tokens + [html[from..to]], cuts + [to])
    ensures Concat(tokens + [html[from..to]]) == html[..to]
  {
    assert cuts[|cuts|-1] == from && Concat(tokens) == html[..from] && IsCutAt(html, tokens, cuts);
    hide AreCuts, Concat, CutTo;
    ConcatPush(tokens, html[from..to]);
    assert html[..from] + html[from..to] == html[..to];
    CutAtPush(html, tokens, cuts, from, to);
  }

  lemma CutAtPush(html: string, tokens: seq<string>, cuts: seq<nat>, from: nat, to: nat)
    requires IsCutAt(html, tokens, cuts) && cuts[|cuts|-1] == from < to <= |html|
    ensures IsCutAt(html, tokens + [html[from..to]], cuts + [to])
  {
    var all, last := tokens + [html[from..to]], cuts + [to];
    forall i, j | 0 <= i < j < |last| && j == i + 1 ensures last[i] < last[j] <= |html| && all[i] == html[last[i]..last[j]] {
      if j < |cuts| { assert last[i] == cuts[i] < cuts[j] == last[j]; }
    }
  }

  /** Up to the next `<` there is nothing but text. */
  lemma TextGrows(html: string, from: nat, index: nat, to: nat, open: Option<nat>)
    requires from <= index <= |html| && (from < index ==> IsText(html, from, index))
    requires to == if open.Some? then open.value else |html|
    requires open.Some? ==> index <= to && Reads(html, to, "<") && forall k: nat :: index <= k < to ==> !Reads(html, k, "<")
    requires open.None? ==> forall k: nat :: index <= k ==> !Reads(html, k, "<")
    ensures index <= to <= |html| && (open.Some? ==> to < |html| && html[to] == '<')
    ensures from < to ==> IsText(html, from, to)
    ensures html[from..index] + html[index..to] == html[from..to]
  {
    forall k: nat ensures Reads(html, k, "<") <==> k < |html| && html[k] == '<' { }
    assert forall p :: index <= p < to ==> html[p] != '<';
  }

  lemma LessThanIsText(html: string, from: nat, index: nat, text: string)
    requires IsRunOf(html, from, index, text) && index < |html| && html[index] == '<' && OpensNoTag(html, index)
    ensures IsRunOf(html, from, index + 1, text + "<")
  {
    hide OpensNoTag;
  }

  // ---------------------------------------------------------------------------------------------
  // There is one such cut
  // ---------------------------------------------------------------------------------------------

  /** Two cuts of one fragment agree as far as both go. */
  lemma {:induction false} CutsAgree(html: string, x: seq<nat>, y: seq<nat>, i: nat)
    requires AreCuts(html, x, |html|) && AreCuts(html, y, |html|) && i < |x| && i < |y|
    ensures x[i] == y[i]
    decreases i
  {
    if i > 0 {
      CutsAgree(html, x, y, i - 1);
      NoFurther(html, x, y, i - 1);
      NoFurther(html, y, x, i - 1);
    }
  }

  /** From one place on, a piece of one cut is no longer than the piece of the other. */
  lemma NoFurther(html: string, x: seq<nat>, y: seq<nat>, i: nat)
    requires AreCuts(html, x, |html|) && AreCuts(html, y, |html|) && i + 1 < |x| && i + 1 < |y| && x[i] == y[i]
    ensures x[i+1] <= y[i+1]
  {
    var from, p, q := x[i], x[i+1], y[i+1];
    assert IsRun(html, from, p) && IsRun(html, from, q);
    if IsTag(html, from, p) {
      TagIsNoText(html, from, p);
    } else if IsTag(html, from, q) {
      TagIsNoText(html, from, q);
    } else if q < |html| {
      TagIsNoText(html, q, y[i+2]);
    }
  }

  /** There is one way to cut a fragment into whole tags and separate runs of text. */
  lemma CutsAreUnique(html: string, x: seq<nat>, y: seq<nat>)
    requires AreCuts(html, x, |html|) && AreCuts(html, y, |html|)
    ensures x == y
  {
    forall i | 0 <= i < |x| && i < |y| ensures x[i] == y[i] { CutsAgree(html, x, y, i); }
    NotLonger(html, x, y);
    NotLonger(html, y, x);
  }

  lemma NotLonger(html: string, x: seq<nat>, y: seq<nat>)
    requires AreCuts(html, x, |html|) && AreCuts(html, y, |html|)
    ensures |x| <= |y|
  {
    var n := |y| - 1;
    if n < |x| { CutsAgree(html, x, y, n); }
    CutsWithin(html, x);
  }

  lemma CutsWithin(html: string, x: seq<nat>)
    requires AreCuts(html, x, |html|)
    ensures forall i :: 0 <= i < |x| - 1 ==> x[i] < |html|
  {
    forall i | 0 <= i < |x| - 1 ensures x[i] < |html| { assert IsRun(html, x[i], x[i+1]); }
  }
}
