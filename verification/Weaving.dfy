/**
 What the link rewrite of the thread markdown (apps/web/lib/thread-markdown.ts) puts into a fragment: anchors around parts
 of it, each closed before the next one opens, and taking them out gives the fragment back.

 The fragment's own tags are kept text here: only what is added is an anchor. An anchor is given by the stretch of the
 fragment it stands around, so the anchors of a part of a fragment are those of the part, shifted, and putting them in
 the part or in the whole spells the same.
 */
module Weaving {

  /** An anchor around [start, end), and the tag that opens it. */
  datatype Anchor = Anchor(start: nat, end: nat, opening: string)

  // ---------------------------------------------------------------------------------------------
  // A fragment with anchors put in
  // ---------------------------------------------------------------------------------------------

  datatype Piece = Kept(text: string) | Opened(opening: string) | Closed

  function PieceText(p: Piece): string {
    match p
    case Kept(text) => text
    case Opened(opening) => opening
    case Closed => "</a>"
  }

  function Spell(pieces: seq<Piece>): string {
    if pieces == [] then "" else Spell(pieces[..|pieces|-1]) + PieceText(pieces[|pieces|-1])
  }

  /** What is left when the anchors are taken out again. */
  function Erased(pieces: seq<Piece>): string {
    if pieces == [] then ""
    else
      var last := pieces[|pieces|-1];
      Erased(pieces[..|pieces|-1]) + Left(last)
  }

  function Left(p: Piece): string { if p.Kept? then p.text else "" }

  /** How many anchors are open after the pieces; none is closed that is not open. */
  ghost predicate OpenAfter(pieces: seq<Piece>, depth: nat) {
    if pieces == [] then depth == 0
    else match pieces[|pieces|-1]
      case Kept(_) => OpenAfter(pieces[..|pieces|-1], depth)
      case Opened(_) => depth > 0 && OpenAfter(pieces[..|pieces|-1], depth - 1)
      case Closed => OpenAfter(pieces[..|pieces|-1], depth + 1)
  }

  /** Anchors in order, inside [0, to), none of them empty and no two of them overlapping. */
  ghost predicate Fits(anchors: seq<Anchor>, to: nat) {
    && (forall k :: 0 <= k < |anchors| ==> anchors[k].start < anchors[k].end <= to)
    && (forall j, k :: 0 <= j < k < |anchors| ==> anchors[j].end <= anchors[k].start)
  }

  function End(anchors: seq<Anchor>): nat {
    if anchors == [] then 0 else anchors[|anchors|-1].end
  }

  lemma FitsBefore(anchors: seq<Anchor>, to: nat)
    requires Fits(anchors, to)
    ensures End(anchors) <= to
    ensures anchors != [] ==> Fits(anchors[..|anchors|-1], anchors[|anchors|-1].start)
    ensures anchors != [] ==> anchors[|anchors|-1].start < anchors[|anchors|-1].end
  { }

  /** html[..End(anchors)] with the anchors put in. */
  ghost function Woven(html: string, anchors: seq<Anchor>): seq<Piece>
    requires Fits(anchors, |html|)
  {
    if anchors == [] then []
    else
      FitsBefore(anchors, |html|);
      var before, a := anchors[..|anchors|-1], anchors[|anchors|-1];
      FitsBefore(before, a.start);
      Around(Woven(html, before), html[End(before)..a.start], a.opening, html[a.start..a.end])
  }

  /** One anchor more: the text before it, and the text inside it. */
  function Around(pieces: seq<Piece>, outside: string, opening: string, inside: string): seq<Piece> {
    pieces + [Kept(outside)] + [Opened(opening)] + [Kept(inside)] + [Closed]
  }

  /** html[..to] with the anchors put in. */
  ghost function Weave(html: string, anchors: seq<Anchor>, to: nat): seq<Piece>
    requires to <= |html| && Fits(anchors, to)
  {
    FitsBefore(anchors, to);
    Woven(html, anchors) + [Kept(html[End(anchors)..to])]
  }

  lemma SpellPush(pieces: seq<Piece>, p: Piece)
    ensures Spell(pieces + [p]) == Spell(pieces) + PieceText(p)
    ensures Erased(pieces + [p]) == Erased(pieces) + Left(p)
  {
    assert (pieces + [p])[..|pieces|] == pieces;
  }

  lemma SpellAround(pieces: seq<Piece>, outside: string, opening: string, inside: string)
    ensures Spell(Around(pieces, outside, opening, inside)) == Spell(pieces) + outside + opening + inside + "</a>"
    ensures Erased(Around(pieces, outside, opening, inside)) == Erased(pieces) + outside + inside
  {
    var p1 := pieces + [Kept(outside)];
    var p2 := p1 + [Opened(opening)];
    var p3 := p2 + [Kept(inside)];
    SpellPush(pieces, Kept(outside));
    SpellPush(p1, Opened(opening));
    SpellPush(p2, Kept(inside));
    SpellPush(p3, Closed);
    hide Spell, Erased;
  }

  lemma {:induction false} WovenErases(html: string, anchors: seq<Anchor>)
    requires Fits(anchors, |html|)
    ensures End(anchors) <= |html| && Erased(Woven(html, anchors)) == html[..End(anchors)]
  {
    FitsBefore(anchors, |html|);
    if anchors != [] {
      var before, a := anchors[..|anchors|-1], anchors[|anchors|-1];
      FitsBefore(before, a.start);
      WovenErases(html, before);
      SpellAround(Woven(html, before), html[End(before)..a.start], a.opening, html[a.start..a.end]);
      hide Fits, Around, Erased, Spell;
      Join(html, End(before), a.start, a.end);
    }
  }

  lemma Join(html: string, i: nat, j: nat, k: nat)
    requires i <= j <= k <= |html|
    ensures html[..i] + html[i..j] + html[j..k] == html[..k]
  { }

  /** Taking the anchors out gives the fragment back. */
  lemma EraseGivesBack(html: string, anchors: seq<Anchor>)
    requires Fits(anchors, |html|)
    ensures Erased(Weave(html, anchors, |html|)) == html
  {
    WovenErases(html, anchors);
    SpellPush(Woven(html, anchors), Kept(html[End(anchors)..|html|]));
    FitsBefore(anchors, |html|);
    hide Woven, Fits, Erased, Spell;
    Join(html, End(anchors), End(anchors), |html|);
    assert html[..|html|] == html && html[..End(anchors)] + [] == html[..End(anchors)];
    assert html[End(anchors)..End(anchors)] == [];
  }

  lemma {:induction false} WovenCloses(html: string, anchors: seq<Anchor>)
    requires Fits(anchors, |html|)
    ensures OpenAfter(Woven(html, anchors), 0)
    ensures forall k :: 0 <= k <= |Woven(html, anchors)| ==> OpenAfter(Woven(html, anchors)[..k], 0) || OpenAfter(Woven(html, anchors)[..k], 1)
  {
    FitsBefore(anchors, |html|);
    if anchors != [] {
      var before, a := anchors[..|anchors|-1], anchors[|anchors|-1];
      FitsBefore(before, a.start);
      WovenCloses(html, before);
      var w := Woven(html, before);
      assert Woven(html, anchors) == Around(w, html[End(before)..a.start], a.opening, html[a.start..a.end]);
      hide Woven, Fits, Around;
      OneAnchor(w, html[End(before)..a.start], a.opening, html[a.start..a.end]);
    }
  }

  lemma OneAnchor(w: seq<Piece>, outside: string, opening: string, inside: string)
    requires OpenAfter(w, 0) && forall k :: 0 <= k <= |w| ==> OpenAfter(w[..k], 0) || OpenAfter(w[..k], 1)
    ensures var v := Around(w, outside, opening, inside);
      OpenAfter(v, 0) && forall k :: 0 <= k <= |v| ==> OpenAfter(v[..k], 0) || OpenAfter(v[..k], 1)
  {
    var p1 := w + [Kept(outside)];
    var p2 := p1 + [Opened(opening)];
    var p3 := p2 + [Kept(inside)];
    var v := p3 + [Closed];
    assert p1[..|w|] == w && p2[..|p1|] == p1 && p3[..|p2|] == p2 && v[..|p3|] == p3;
    assert OpenAfter(p1, 0) && OpenAfter(p2, 1) && OpenAfter(p3, 1) && OpenAfter(v, 0);
    hide OpenAfter;
    forall k | 0 <= k <= |v| ensures OpenAfter(v[..k], 0) || OpenAfter(v[..k], 1) {
      if k <= |w| { assert v[..k] == w[..k]; }
      assert v[..|w|+1] == p1 && v[..|w|+2] == p2 && v[..|w|+3] == p3 && v[..|w|+4] == v;
    }
  }

  /** Added anchors never nest, and each is closed before the next one opens. */
  lemma NeverNest(html: string, anchors: seq<Anchor>, k: nat)
    requires Fits(anchors, |html|) && k <= |Weave(html, anchors, |html|)|
    ensures var pieces := Weave(html, anchors, |html|);
      (OpenAfter(pieces[..k], 0) || OpenAfter(pieces[..k], 1)) && OpenAfter(pieces, 0)
  {
    WovenCloses(html, anchors);
    FitsBefore(anchors, |html|);
    var w, last := Woven(html, anchors), Kept(html[End(anchors)..|html|]);
    hide Woven, Fits;
    assert (w + [last])[..|w|] == w && (w + [last])[..|w|+1] == w + [last];
    assert OpenAfter(w + [last], 0);
    if k <= |w| { assert (w + [last])[..k] == w[..k]; }
  }

  // ---------------------------------------------------------------------------------------------
  // Building it
  // ---------------------------------------------------------------------------------------------

  /** html[..to] with the anchors put in, spelled out. */
  ghost function Spelled(html: string, anchors: seq<Anchor>, to: nat): string
    requires to <= |html| && Fits(anchors, to)
  {
    Spell(Weave(html, anchors, to))
  }

  lemma SpelledAt(html: string, anchors: seq<Anchor>, to: nat)
    requires to <= |html| && Fits(anchors, to)
    ensures End(anchors) <= to
    ensures Spelled(html, anchors, to) == Spell(Woven(html, anchors)) + html[End(anchors)..to]
  {
    FitsBefore(anchors, to);
    hide Fits, Woven;
    SpellPush(Woven(html, anchors), Kept(html[End(anchors)..to]));
  }

  /** More text after the last anchor. */
  lemma SpelledOn(html: string, anchors: seq<Anchor>, to: nat, past: nat)
    requires to <= past <= |html| && Fits(anchors, to)
    ensures Fits(anchors, past)
    ensures Spelled(html, anchors, past) == Spelled(html, anchors, to) + html[to..past]
  {
    FitsLonger(anchors, to, past);
    FitsLonger(anchors, to, |html|);
    hide *;
    SpelledAt(html, anchors, to);
    SpelledAt(html, anchors, past);
    var end := End(anchors);
    Slices(html, end, to, past);
    Assoc(Spell(Woven(html, anchors)), html[end..to], html[to..past]);
  }

  lemma FitsLonger(anchors: seq<Anchor>, to: nat, past: nat)
    requires Fits(anchors, to) && to <= past
    ensures Fits(anchors, past)
  { }

  lemma Slices(s: string, i: nat, j: nat, k: nat)
    requires i <= j <= k <= |s|
    ensures s[i..j] + s[j..k] == s[i..k]
  { }

  lemma Assoc(s: string, t: string, u: string)
    ensures s + (t + u) == s + t + u
  { }

  /** One anchor more. */
  lemma SpelledPush(html: string, anchors: seq<Anchor>, to: nat, a: Anchor)
    requires to <= |html| && Fits(anchors, to) && to <= a.start < a.end <= |html|
    ensures Fits(anchors + [a], a.end)
    ensures Spelled(html, anchors + [a], a.end)
      == Spelled(html, anchors, to) + html[to..a.start] + a.opening + html[a.start..a.end] + "</a>"
  {
    FitsLonger(anchors, to, a.start);
    FitsLonger(anchors, to, |html|);
    FitsLonger(anchors + [a], a.end, |html|);
    hide *;
    SpelledAt(html, anchors, to);
    SpelledAt(html, anchors + [a], a.end);
    var end, w := End(anchors), Woven(html, anchors);
    SpellAround(w, html[end..a.start], a.opening, html[a.start..a.end]);
    Slices(html, end, to, a.start);
    Assoc(Spell(w), html[end..to], html[to..a.start]);
    assert html[a.end..a.end] == [];
    NothingMore(Spell(Woven(html, anchors + [a])), html[a.end..a.end]);
  }

  lemma NothingMore(s: string, t: string)
    requires t == []
    ensures s + t == s
  { }

  function Shift(a: Anchor, shift: nat): Anchor { Anchor(a.start + shift, a.end + shift, a.opening) }

  function ShiftAll(anchors: seq<Anchor>, shift: nat): seq<Anchor> {
    seq(|anchors|, k requires 0 <= k < |anchors| => Shift(anchors[k], shift))
  }

  /** The anchors of a part of the fragment, put in there, give what they give in the part by itself. */
  lemma {:induction false} SpelledPart(html: string, anchors: seq<Anchor>, at: nat, part: string, inner: seq<Anchor>, to: nat)
    requires at + |part| <= |html| && html[at..at+|part|] == part && Fits(anchors, at)
    requires to <= |part| && Fits(inner, to)
    ensures Fits(anchors + ShiftAll(inner, at), at + to)
    ensures Spelled(html, anchors + ShiftAll(inner, at), at + to) == Spelled(html, anchors, at) + Spelled(part, inner, to)
    decreases |inner|
  {
    hide *;
    if inner == [] {
      NoInner(html, anchors, at, part, to);
    } else {
      var before, a := inner[..|inner|-1], inner[|inner|-1];
      InnerParts(anchors, inner, at, to);
      SpelledPart(html, anchors, at, part, before, a.start);
      PartPush(html, anchors + ShiftAll(before, at), at, part, before, a, to, Spelled(html, anchors, at));
    }
  }

  lemma NoInner(html: string, anchors: seq<Anchor>, at: nat, part: string, to: nat)
    requires at + |part| <= |html| && html[at..at+|part|] == part && Fits(anchors, at) && to <= |part|
    ensures Fits(anchors + ShiftAll([], at), at + to) && Fits([], to)
    ensures Spelled(html, anchors + ShiftAll([], at), at + to) == Spelled(html, anchors, at) + Spelled(part, [], to)
  {
    assert ShiftAll([], at) == [];
    hide *;
    assert anchors + ShiftAll([], at) == anchors;
    SpelledNone(part, to);
    SpelledOn(html, anchors, at, at + to);
    PartSlice(html, at, part, 0, to);
  }

  lemma InnerParts(anchors: seq<Anchor>, inner: seq<Anchor>, at: nat, to: nat)
    requires Fits(inner, to) && inner != []
    ensures var before, a := inner[..|inner|-1], inner[|inner|-1];
      && before + [a] == inner && a.start < a.end <= to && Fits(before, a.start)
      && anchors + ShiftAll(inner, at) == anchors + ShiftAll(before, at) + [Anchor(at + a.start, at + a.end, a.opening)]
  {
    FitsBefore(inner, to);
    hide Fits;
    var before, a := inner[..|inner|-1], inner[|inner|-1];
    assert ShiftAll(inner, at) == ShiftAll(before, at) + [Anchor(at + a.start, at + a.end, a.opening)];
  }

  lemma SpelledNone(part: string, to: nat)
    requires to <= |part|
    ensures Fits([], to) && Spelled(part, [], to) == part[0..to]
  {
    SpelledAt(part, [], to);
  }

  /** One anchor and the text after it, in the part and in the whole. */
  lemma PartPush(html: string, outer: seq<Anchor>, at: nat, part: string, before: seq<Anchor>, a: Anchor, to: nat, s: string)
    requires at + |part| <= |html| && html[at..at+|part|] == part && Fits(outer, at + a.start)
    requires a.start < a.end <= to <= |part| && Fits(before, a.start)
    requires Spelled(html, outer, at + a.start) == s + Spelled(part, before, a.start)
    ensures Fits(before + [a], to) && Fits(outer + [Anchor(at + a.start, at + a.end, a.opening)], at + to)
    ensures Spelled(html, outer + [Anchor(at + a.start, at + a.end, a.opening)], at + to) == s + Spelled(part, before + [a], to)
  {
    hide *;
    SpelledAnchor(html, outer, Anchor(at + a.start, at + a.end, a.opening), at + to);
    SpelledAnchor(part, before, a, to);
    PartSlice(html, at, part, a.start, a.end);
    PartSlice(html, at, part, a.end, to);
    Assoc(s, Spelled(part, before, a.start), AnchorText(a.opening, part[a.start..a.end], part[a.end..to]));
  }

  function AnchorText(opening: string, inside: string, rest: string): string { opening + inside + "</a>" + rest }

  /** One anchor right away, and the text after it. */
  lemma SpelledAnchor(html: string, anchors: seq<Anchor>, a: Anchor, to: nat)
    requires a.start < a.end <= to <= |html| && Fits(anchors, a.start)
    ensures Fits(anchors + [a], to)
    ensures Spelled(html, anchors + [a], to) == Spelled(html, anchors, a.start) + AnchorText(a.opening, html[a.start..a.end], html[a.end..to])
  {
    hide Fits, Spelled;
    SpelledPush(html, anchors, a.start, a);
    SpelledOn(html, anchors + [a], a.end, to);
    var s := Spelled(html, anchors, a.start);
    assert html[a.start..a.start] == [];
    NothingMore(s, html[a.start..a.start]);
  }

  lemma PartSlice(html: string, at: nat, part: string, i: nat, j: nat)
    requires at + |part| <= |html| && html[at..at+|part|] == part && i <= j <= |part|
    ensures html[at+i..at+j] == part[i..j]
  {
    forall k | 0 <= k < j - i ensures html[at+i..at+j][k] == part[i..j][k] {
      assert html[at..at+|part|][i+k] == html[at+i+k];
    }
  }
}
