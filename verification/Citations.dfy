/** The document citation scanner of the thread markdown (apps/web/lib/thread-markdown.ts): for every `@` before a commit
    hash, the leftmost `owner/name:path` it can close, in a number of character steps linear in the text. */
module Citations {

  // A step is one character looked at by a test, a search or a pattern, or copied by a slice.

  import opened Wrappers

  datatype Split = Split(ownerStart: nat, slash: nat, colon: nat)

  datatype Citation = Citation(at: nat, start: nat, end: nat, href: string)

  const SHA_MIN := 7
  const SHA_MAX := 40

  predicate IsLowerHex(c: char) { '0' <= c <= '9' || 'a' <= c <= 'f' }

  predicate IsAlphaNumeric(c: char) { '0' <= c <= '9' || 'a' <= c <= 'z' || 'A' <= c <= 'Z' }

  predicate IsFragmentChar(c: char) { IsAlphaNumeric(c) || c == '_' || c == '-' }

  predicate IsWord(c: char) { IsAlphaNumeric(c) || c == '_' || c == '.' || c == '-' }

  /** The white space of the pattern language. */
  predicate IsSpace(c: char) {
    var n := c as int;
    9 <= n <= 13 || n == 32 || n == 160 || n == 0x1680 || 0x2000 <= n <= 0x200a || n == 0x2028 || n == 0x2029
    || n == 0x202f || n == 0x205f || n == 0x3000 || n == 0xfeff
  }

  /** The characters a citation's path may not hold. */
  predicate IsStop(c: char) {
    c == '@' || c == '#' || IsSpace(c) || c == '"' || c == '\'' || c == '<' || c == '>' || c == '&' || c == '`'
  }

  ghost predicate Words(text: string, from: nat, to: nat) {
    to <= |text| && forall i :: from <= i < to ==> IsWord(text[i])
  }

  ghost predicate NoStops(text: string, from: nat, to: nat) {
    to <= |text| && forall i :: from <= i < to ==> !IsStop(text[i])
  }

  /** `owner/name:path` filling [owner, at), cut at the slash and the colon given. */
  ghost predicate IsSplit(text: string, at: nat, s: Split) {
    && s.ownerStart < s.slash && s.slash + 1 < s.colon && s.colon + 1 < at <= |text|
    && Words(text, s.ownerStart, s.slash) && text[s.slash] == '/'
    && Words(text, s.slash + 1, s.colon) && text[s.colon] == ':'
    && NoStops(text, s.colon + 1, at)
  }

  /** Where a citation starts decides where it is cut. */
  lemma StartDecidesSplit(text: string, at: nat, s: Split, t: Split)
    requires IsSplit(text, at, s) && IsSplit(text, at, t) && s.ownerStart == t.ownerStart
    ensures s == t
  {
    assert !IsWord('/') && !IsWord(':');
    assert !(s.slash < t.slash) && !(t.slash < s.slash);
  }

  /** The run of ordinary characters that ends before `at`. */
  ghost predicate IsRegion(text: string, regionStart: nat, at: nat) {
    regionStart <= at && NoStops(text, regionStart, at) && (regionStart > 0 ==> IsStop(text[regionStart - 1]))
  }

  // ---------------------------------------------------------------------------------------------
  // Searches and patterns
  // ---------------------------------------------------------------------------------------------

  /** The first place of c at or after `from`, or the end of the text. */
  method IndexOf(text: string, c: char, from: nat) returns (i: nat, ghost steps: nat)
    requires from <= |text|
    ensures from <= i <= |text| && (i < |text| ==> text[i] == c)
    ensures forall k :: from <= k < i ==> text[k] != c
    ensures steps == i - from + 1
  {
    i, steps := from, 1;
    while i < |text| && text[i] != c
      invariant from <= i <= |text| && steps == i - from + 1
      invariant forall k :: from <= k < i ==> text[k] != c
    {
      i, steps := i + 1, steps + 1;
    }
  }

  /** n characters from `from` on are lower-case hex digits; the run ends there or the limit does. */
  ghost predicate HexRun(text: string, from: nat, n: nat) {
    && from + n <= |text| && n <= SHA_MAX
    && (forall k :: from <= k < from + n ==> IsLowerHex(text[k]))
    && (n == SHA_MAX || from + n == |text| || !IsLowerHex(text[from + n]))
  }

  method MatchSha(text: string, from: nat) returns (n: nat, ghost steps: nat)
    requires from <= |text|
    ensures HexRun(text, from, n) && from + n <= |text| && steps == n + 1
    ensures forall k :: from <= k < from + n ==> text[k] != '@'
  {
    n, steps := 0, 1;
    assert !IsLowerHex('@');
    while n < SHA_MAX && from + n < |text| && IsLowerHex(text[from + n])
      invariant from + n <= |text| && n <= SHA_MAX && steps == n + 1
      invariant forall k :: from <= k < from + n ==> IsLowerHex(text[k])
    {
      n, steps := n + 1, steps + 1;
    }
  }

  ghost predicate FragmentRun(text: string, from: nat, n: nat) {
    && from + n <= |text|
    && (forall k :: from <= k < from + n ==> IsFragmentChar(text[k]))
    && (from + n == |text| || !IsFragmentChar(text[from + n]))
  }

  method MatchFragment(text: string, from: nat) returns (n: nat, ghost steps: nat)
    requires from <= |text|
    ensures FragmentRun(text, from, n) && steps == n + 1
  {
    n, steps := 0, 1;
    while from + n < |text| && IsFragmentChar(text[from + n])
      invariant from + n <= |text| && steps == n + 1
      invariant forall k :: from <= k < from + n ==> IsFragmentChar(text[k])
    {
      n, steps := n + 1, steps + 1;
    }
  }

  // ---------------------------------------------------------------------------------------------
  // The split
  // ---------------------------------------------------------------------------------------------

  /** owner/name closed by this colon. */
  ghost predicate IsOwner(text: string, colon: nat, ownerStart: nat, slash: nat) {
    && ownerStart < slash && slash + 1 < colon <= |text|
    && Words(text, ownerStart, slash) && text[slash] == '/' && Words(text, slash + 1, colon)
  }

  /** The longest owner and the name a colon closes; `last` is a character the walk cannot pass. */
  method OwnerBefore(text: string, colon: nat, regionStart: nat, ghost last: nat)
    returns (r: Option<Split>, ghost steps: nat)
    requires regionStart <= last <= colon < |text|
    requires last > regionStart ==> !IsWord(text[last - 1]) && text[last - 1] != '/'
    ensures r.Some? ==> r.value.colon == colon && regionStart <= r.value.ownerStart
    ensures r.Some? ==> IsOwner(text, colon, r.value.ownerStart, r.value.slash)
    ensures forall o: nat, s: nat :: regionStart <= o && IsOwner(text, colon, o, s) ==> r.Some? && r.value.ownerStart <= o
    ensures steps <= colon - last + 3
  {
    var nameStart := colon;
    steps := 1;
    while nameStart > regionStart && IsWord(text[nameStart - 1])
      invariant last <= nameStart <= colon && Words(text, nameStart, colon)
      invariant steps == colon - nameStart + 1
    {
      nameStart, steps := nameStart - 1, steps + 1;
    }
    assert !IsWord('/');
    forall o: nat, s: nat | regionStart <= o && IsOwner(text, colon, o, s) ensures s + 1 == nameStart < colon {
    }
    if nameStart == colon { return None, steps; }
    steps := steps + 1;
    if nameStart - 1 < regionStart || text[nameStart - 1] != '/' { return None, steps; }
    var slash := nameStart - 1;
    var ownerStart := slash;
    steps := steps + 1;
    while ownerStart > regionStart && IsWord(text[ownerStart - 1])
      invariant last <= ownerStart <= slash && Words(text, ownerStart, slash)
      invariant steps <= colon - ownerStart + 2
    {
      ownerStart, steps := ownerStart - 1, steps + 1;
    }
    forall o: nat, s: nat | regionStart <= o && IsOwner(text, colon, o, s) ensures ownerStart <= o && ownerStart < slash { }
    if ownerStart == slash { return None, steps; }
    return Some(Split(ownerStart, slash, colon)), steps;
  }

  /** The best split with the colon at `here` looked at too. */
  method BetterSplit(text: string, regionStart: nat, at: nat, ghost from: nat, here: nat, was: Option<Split>)
    returns (best: Option<Split>, ghost steps: nat)
    requires at < |text| && IsRegion(text, regionStart, at) && BestBelow(text, at, from, was)
    requires regionStart <= from <= here < at && text[here] == ':' && NoColon(text, from, here)
    requires from > regionStart ==> text[from - 1] == ':'
    requires was.Some? ==> regionStart <= was.value.ownerStart
    ensures BestBelow(text, at, here + 1, best) && (best.Some? ==> regionStart <= best.value.ownerStart)
    ensures steps <= here - from + 3
  {
    hide IsSplit, IsRegion, BestBelow, Words, NoStops, IsOwner, NoColon, IsStop;
    best, steps := was, 0;
    var owner := None;
    if here + 1 < at {
      assert !IsWord(':');
      owner, steps := OwnerBefore(text, here, regionStart, from);
      if owner.Some? && (best.None? || owner.value.ownerStart < best.value.ownerStart) { best := owner; }
    }
    BestMoves(text, regionStart, at, from, here, was, owner, best);
  }

  /** The leftmost split of the region, or none only when there is none. */
  method CitationSplit(text: string, regionStart: nat, at: nat) returns (best: Option<Split>, ghost steps: nat)
    requires at < |text| && IsRegion(text, regionStart, at)
    ensures best.Some? ==> IsLeftmost(text, at, best.value)
    ensures best.None? ==> forall s :: !IsSplit(text, at, s)
    ensures best.Some? ==> regionStart <= best.value.ownerStart
    ensures steps <= 6 * (at - regionStart) + 2
  {
    var region := text[regionStart..at];
    best, steps := None, at - regionStart + 1;
    var colon, searched := IndexOf(region, ':', 0);
    steps := steps + searched;
    ghost var last := regionStart;
    BestStarts(text, regionStart, at);
    NoColonBetween(text, regionStart, at, 0, colon);
    hide NoColon, IsSplit, IsRegion, BestBelow, Words, NoStops, IsOwner, IsLeftmost, IsStop;
    while colon < |region|
      invariant colon <= |region| && (colon < |region| ==> region[colon] == ':')
      invariant regionStart <= last <= regionStart + colon
      invariant last > regionStart ==> text[last - 1] == ':'
      invariant NoColon(text, last, regionStart + colon)
      invariant BestBelow(text, at, last, best) && (best.Some? ==> regionStart <= best.value.ownerStart)
      invariant steps <= at - regionStart + 2 + (colon + 4 * (last - regionStart))
      decreases |region| - colon
    {
      SliceAt(text, regionStart, at, colon);
      ghost var walked;
      best, walked := BetterSplit(text, regionStart, at, last, regionStart + colon, best);
      steps := steps + walked;
      last := regionStart + colon + 1;
      var next, searchedOn := IndexOf(region, ':', colon + 1);
      steps := steps + searchedOn;
      NoColonBetween(text, regionStart, at, colon + 1, next);
      colon := next;
    }
    SplitsBelow(text, regionStart, at, last, best);
  }

  lemma SliceAt(text: string, from: nat, to: nat, k: nat)
    requires from + k < to <= |text|
    ensures text[from..to][k] == text[from + k]
  { }

  ghost predicate NoColon(text: string, from: nat, to: nat) {
    to <= |text| && forall k :: from <= k < to ==> text[k] != ':'
  }

  /** The best of the splits whose colon is below `last`. */
  ghost predicate BestBelow(text: string, at: nat, last: nat, best: Option<Split>) {
    && (best.Some? ==> IsSplit(text, at, best.value))
    && forall s :: IsSplit(text, at, s) && s.colon < last ==> best.Some? && best.value.ownerStart <= s.ownerStart
  }

  lemma BestStarts(text: string, regionStart: nat, at: nat)
    requires IsRegion(text, regionStart, at)
    ensures BestBelow(text, at, regionStart, None)
  {
    forall s | IsSplit(text, at, s) ensures s.colon >= regionStart { }
  }

  lemma NoColonBetween(text: string, regionStart: nat, at: nat, from: nat, to: nat)
    requires from <= to && regionStart + to <= at <= |text|
    requires forall k :: from <= k < to ==> text[regionStart..at][k] != ':'
    ensures NoColon(text, regionStart + from, regionStart + to)
  {
    forall k | regionStart + from <= k < regionStart + to ensures text[k] != ':' {
      assert text[k] == text[regionStart..at][k - regionStart];
    }
  }

  /** One colon further: the owner found before it is a split, and the better one is kept. */
  lemma BestMoves(text: string, regionStart: nat, at: nat, from: nat, here: nat,
                  was: Option<Split>, owner: Option<Split>, best: Option<Split>)
    requires IsRegion(text, regionStart, at) && BestBelow(text, at, from, was)
    requires regionStart <= from <= here < at && text[here] == ':' && NoColon(text, from, here)
    requires owner.Some? ==> here + 1 < at && owner.value.colon == here && regionStart <= owner.value.ownerStart
    requires owner.Some? ==> IsOwner(text, here, owner.value.ownerStart, owner.value.slash)
    requires here + 1 < at ==> forall o: nat, s: nat ::
      regionStart <= o && IsOwner(text, here, o, s) ==> owner.Some? && owner.value.ownerStart <= o
    requires best == if owner.Some? && (was.None? || owner.value.ownerStart < was.value.ownerStart) then owner else was
    ensures BestBelow(text, at, here + 1, best)
  {
    if owner.Some? { assert IsSplit(text, at, owner.value); }
    forall s | IsSplit(text, at, s) && s.colon < here + 1 ensures best.Some? && best.value.ownerStart <= s.ownerStart {
      if s.colon >= from {
        assert s.colon == here;
        assert IsOwner(text, here, s.ownerStart, s.slash);
      }
    }
  }

  /** No colon is left, so the best so far is the best of all. */
  lemma SplitsBelow(text: string, regionStart: nat, at: nat, last: nat, best: Option<Split>)
    requires IsRegion(text, regionStart, at) && BestBelow(text, at, last, best)
    requires regionStart <= last && NoColon(text, last, at)
    ensures best.Some? ==> IsLeftmost(text, at, best.value)
    ensures best.None? ==> forall s :: !IsSplit(text, at, s)
  {
    forall s | IsSplit(text, at, s) ensures s.colon < last { }
  }

  // ---------------------------------------------------------------------------------------------
  // Citations
  // ---------------------------------------------------------------------------------------------

  function Href(text: string, s: Split, at: nat, sha: string, fragment: string): string
    requires s.ownerStart <= s.slash < s.colon < at <= |text|
  {
    Link(text[s.ownerStart..s.slash], text[s.slash+1..s.colon], sha, text[s.colon+1..at], fragment)
  }

  function Link(owner: string, name: string, sha: string, path: string, fragment: string): string {
    "https://github.com/" + owner + "/" + name + "/blob/" + sha + "/" + path + (if fragment == "" then "" else "#" + fragment)
  }

  /** c is the citation the `@` at `at` ends the prefix of: the leftmost split, the hash, and a fragment if there is one. */
  ghost predicate IsCitation(text: string, at: nat, c: Citation) {
    exists s, sha: nat, fragment: nat :: IsCitationOf(text, at, c, s, sha, fragment)
  }

  ghost predicate IsLeftmost(text: string, at: nat, s: Split) {
    IsSplit(text, at, s) && forall t :: IsSplit(text, at, t) ==> s.ownerStart <= t.ownerStart
  }

  ghost predicate IsCitationOf(text: string, at: nat, c: Citation, s: Split, sha: nat, fragment: nat) {
    && IsLeftmost(text, at, s) && IsHash(text, at, sha) && IsTail(text, at + 1 + sha, fragment)
    && c.at == at && c.start == s.ownerStart
    && c.end == at + 1 + sha + (if fragment == 0 then 0 else fragment + 1)
    && c.href == Href(text, s, at, text[at+1..at+1+sha], FragmentOf(text, at + 1 + sha, fragment))
  }

  /** The fragment of n characters after the `#` at `end`. */
  function FragmentOf(text: string, end: nat, n: nat): string
    requires n > 0 ==> end + 1 + n <= |text|
  {
    if n == 0 then "" else text[end+1..end+1+n]
  }

  /** The hash after the `@`: the longest run of hex digits, up to the limit, and long enough. */
  ghost predicate IsHash(text: string, at: nat, sha: nat) {
    HexRun(text, at + 1, sha) && sha >= SHA_MIN
  }

  /** After the hash a `#` takes the longest fragment that follows it, if any. */
  ghost predicate IsTail(text: string, end: nat, fragment: nat) {
    if end < |text| && text[end] == '#' then FragmentRun(text, end + 1, fragment) else fragment == 0 && end <= |text|
  }

  ghost predicate StartsHash(text: string, at: nat) {
    exists sha: nat :: IsHash(text, at, sha)
  }

  /** The fragment after the hash that ends at `end`, and where the citation ends with it. */
  method MatchTail(text: string, end: nat) returns (fragment: string, past: nat, ghost n: nat, ghost steps: nat, ghost reach: nat)
    requires end <= |text|
    ensures IsTail(text, end, n) && past == end + (if n == 0 then 0 else n + 1) <= reach <= |text|
    ensures fragment == FragmentOf(text, end, n)
    ensures forall k :: end <= k < reach ==> text[k] != '@'
    ensures steps <= reach - end + 2
  {
    fragment, past, n, reach, steps := "", end, 0, end, 1;
    if end < |text| && text[end] == '#' {
      assert !IsFragmentChar('@');
      var m, run := MatchFragment(text, end + 1);
      n, reach, steps := m, end + 1 + m, steps + run;
      if m > 0 { fragment, past := text[end+1..end+1+m], end + m + 1; }
    }
  }

  /** Where the run of ordinary characters before `at` begins. */
  method RegionBefore(text: string, at: nat, ghost previous: nat) returns (regionStart: nat, ghost steps: nat)
    requires previous <= at <= |text| && (previous > 0 ==> text[previous - 1] == '@')
    ensures previous <= regionStart && IsRegion(text, regionStart, at)
    ensures steps == at - regionStart + 1
  {
    regionStart, steps := at, 1;
    while regionStart > 0 && !IsStop(text[regionStart - 1])
      invariant previous <= regionStart <= at && NoStops(text, regionStart, at)
      invariant steps == at - regionStart + 1
    {
      regionStart, steps := regionStart - 1, steps + 1;
    }
  }

  method DocCitationAt(text: string, at: nat, ghost previous: nat) returns (citation: Option<Citation>, ghost steps: nat, ghost reach: nat)
    requires at < |text| && text[at] == '@' && previous <= at
    requires previous > 0 ==> text[previous - 1] == '@'
    ensures citation.Some? ==> IsCitation(text, at, citation.value)
    ensures citation.None? ==> !IsCited(text, at)
    // Nothing past the next `@` is looked at, nor anything before the previous one.
    ensures at < reach <= |text| && forall k :: at < k < reach ==> text[k] != '@'
    ensures steps <= 8 * (at - previous) + 2 * (reach - at) + 8
  {
    hide *;
    var sha, matched := MatchSha(text, at + 1);
    steps, reach := matched, at + 1 + sha;
    HashOrNone(text, at, sha);
    if sha < SHA_MIN { return None, steps, reach; }
    var fragment, end, f, matchedTail, reached := MatchTail(text, at + 1 + sha);
    steps, reach := steps + matchedTail, reached;
    var regionStart, walked := RegionBefore(text, at, previous);
    var split, searched := CitationSplit(text, regionStart, at);
    steps := steps + walked + searched;
    if split.None? {
      NotCited(text, at);
      return None, steps, reach;
    }
    var s := split.value;
    SplitParts(text, at, s);
    citation := Some(Citation(at, s.ownerStart, end, Href(text, s, at, text[at+1..at+1+sha], fragment)));
    steps := steps + (end - s.ownerStart);
    CitationParts(text, at, citation.value, s, sha, f);
  }

  lemma HashOrNone(text: string, at: nat, sha: nat)
    requires HexRun(text, at + 1, sha)
    ensures if sha < SHA_MIN then !IsCited(text, at) else IsHash(text, at, sha)
  {
    if sha < SHA_MIN {
      forall n: nat ensures !IsHash(text, at, n) {
        if HexRun(text, at + 1, n) { HexRunUnique(text, at + 1, n, sha); }
      }
    }
  }

  lemma NotCited(text: string, at: nat)
    requires forall s :: !IsSplit(text, at, s)
    ensures !IsCited(text, at)
  { }

  lemma SplitParts(text: string, at: nat, s: Split)
    requires IsLeftmost(text, at, s)
    ensures s.ownerStart < s.slash < s.colon < at <= |text|
  { }

  lemma CitationParts(text: string, at: nat, c: Citation, s: Split, sha: nat, fragment: nat)
    requires IsLeftmost(text, at, s) && IsHash(text, at, sha) && IsTail(text, at + 1 + sha, fragment)
    requires c.at == at && c.start == s.ownerStart
    requires c.end == at + 1 + sha + (if fragment == 0 then 0 else fragment + 1)
    requires c.href == Href(text, s, at, text[at+1..at+1+sha], FragmentOf(text, at + 1 + sha, fragment))
    ensures IsCitation(text, at, c)
  {
    assert IsCitationOf(text, at, c, s, sha, fragment);
  }

  lemma HexRunUnique(text: string, from: nat, n: nat, m: nat)
    requires HexRun(text, from, n) && HexRun(text, from, m)
    ensures n == m
  {
  }

  /** The `@` at `at` ends a prefix and starts a hash. */
  ghost predicate IsCited(text: string, at: nat) {
    at < |text| && text[at] == '@' && StartsHash(text, at) && exists s :: IsSplit(text, at, s)
  }

  ghost predicate At(citations: seq<Citation>, at: nat) {
    exists k :: 0 <= k < |citations| && citations[k].at == at
  }

  /** The citations of the `@`s before `previous`, in order. */
  ghost predicate Found(text: string, citations: seq<Citation>, previous: nat) {
    && previous <= |text|
    && (forall k :: 0 <= k < |citations| ==> IsFound(text, citations[k], previous))
    && (forall j, k :: 0 <= j < k < |citations| ==> citations[j].at < citations[k].at)
    && (forall p :: 0 <= p < previous && IsCited(text, p) ==> At(citations, p))
  }

  ghost predicate IsFound(text: string, c: Citation, previous: nat) {
    c.at < previous <= |text| && text[c.at] == '@' && IsCitation(text, c.at, c)
  }

  ghost predicate Adds(text: string, citations: seq<Citation>, previous: nat, at: nat, citation: Option<Citation>, after: seq<Citation>) {
    && previous <= at < |text| && text[at] == '@' && (forall k :: previous <= k < at ==> text[k] != '@')
    && (citation.Some? ==> citation.value.at == at && IsCitation(text, at, citation.value))
    && (citation.None? ==> !IsCited(text, at))
    && after == if citation.Some? then citations + [citation.value] else citations
  }

  lemma NoneMissed(text: string, citations: seq<Citation>, previous: nat, at: nat, citation: Option<Citation>, after: seq<Citation>, p: nat)
    requires Found(text, citations, previous) && Adds(text, citations, previous, at, citation, after)
    requires p < at + 1 && IsCited(text, p)
    ensures At(after, p)
  {
    assert text[p] == '@';
    hide IsCited, IsCitation;
    if p < previous {
      assert At(citations, p);
      hide Found;
      if citation.Some? { AtPush(citations, citation.value, p); }
    } else {
      hide Found;
      AtPush(citations, citation.value, p);
    }
  }

  lemma AtPush(citations: seq<Citation>, c: Citation, p: nat)
    ensures At(citations + [c], p) <==> At(citations, p) || c.at == p
  {
    var after := citations + [c];
    assert after[|citations|] == c;
    if At(citations, p) {
      var k :| 0 <= k < |citations| && citations[k].at == p;
      assert after[k].at == p;
    }
  }

  lemma FoundMoves(text: string, citations: seq<Citation>, previous: nat, at: nat, citation: Option<Citation>, after: seq<Citation>)
    requires Found(text, citations, previous) && previous <= at < |text| && text[at] == '@'
    requires forall k :: previous <= k < at ==> text[k] != '@'
    requires citation.Some? ==> IsCitation(text, at, citation.value)
    requires citation.None? ==> !IsCited(text, at)
    requires after == if citation.Some? then citations + [citation.value] else citations
    ensures Found(text, after, at + 1)
  {
    assert Adds(text, citations, previous, at, citation, after);
    forall p: nat | p < at + 1 && IsCited(text, p) ensures At(after, p) {
      NoneMissed(text, citations, previous, at, citation, after, p);
    }
    hide IsCited, IsCitation, At, Adds, IsFound;
  }

  /** Every document citation of the text, one for each `@` that has one, in a linear number of steps. */
  method DocCitations(text: string) returns (citations: seq<Citation>, ghost steps: nat)
    ensures Found(text, citations, |text|)
    ensures steps <= 20 * |text| + 1
  {
    citations := [];
    var at, searched := IndexOf(text, '@', 0);
    steps := searched;
    ghost var previous := 0;
    assert Found(text, citations, previous);
    hide *;
    while at < |text|
      invariant at <= |text| && previous <= at && (at < |text| ==> text[at] == '@')
      invariant previous > 0 ==> text[previous - 1] == '@'
      invariant forall k :: previous <= k < at ==> text[k] != '@'
      invariant Found(text, citations, previous)
      invariant steps <= 17 * previous + 3 * at + 1
      decreases |text| - at
    {
      var citation, scanned, reach := DocCitationAt(text, at, previous);
      ghost var before := citations;
      if citation.Some? { citations := citations + [citation.value]; }
      FoundMoves(text, before, previous, at, citation, citations);
      var next, searchedOn := IndexOf(text, '@', at + 1);
      steps := steps + scanned + searchedOn;
      assert reach <= next + 1;
      previous, at := at + 1, next;
    }
  }

  /** An `@` has at most one citation. */
  lemma CitationUnique(text: string, at: nat, c: Citation, d: Citation)
    requires IsCitation(text, at, c) && IsCitation(text, at, d)
    ensures c == d
  {
    hide Href, IsSplit, HexRun, IsTail, FragmentOf;
    var s, m: nat, f: nat :| IsCitationOf(text, at, c, s, m, f);
    var t, n: nat, g: nat :| IsCitationOf(text, at, d, t, n, g);
    StartDecidesSplit(text, at, s, t);
    HexRunUnique(text, at + 1, m, n);
    FragmentUnique(text, at + 1 + m, f, g);
  }

  lemma FragmentUnique(text: string, end: nat, n: nat, m: nat)
    requires IsTail(text, end, n) && IsTail(text, end, m)
    ensures n == m
  { }

  predicate IsSafe(c: char) { c != '&' && c != '"' && c != '<' && c != '>' }

  /** A citation is a part of the text, and its `@` is inside it. */
  lemma CitationSpan(text: string, at: nat, c: Citation)
    requires IsCitation(text, at, c)
    ensures c.start < at < c.end <= |text|
  {
    hide Href;
    var s, sha: nat, f: nat :| IsCitationOf(text, at, c, s, sha, f);
  }

  /** The citations of a text are determined: there is one list of them. */
  lemma {:induction false} FoundUnique(text: string, x: seq<Citation>, y: seq<Citation>, to: nat)
    requires Found(text, x, to) && Found(text, y, to)
    ensures x == y
    decreases |x|
  {
    hide *;
    LastAgrees(text, x, y, to);
    LastAgrees(text, y, x, to);
    if x != [] {
      FoundBefore(text, x, to);
      FoundBefore(text, y, to);
      FoundUnique(text, x[..|x|-1], y[..|y|-1], x[|x|-1].at);
      assert x == x[..|x|-1] + [x[|x|-1]] && y == y[..|y|-1] + [y[|y|-1]];
    }
  }

  lemma LastAgrees(text: string, x: seq<Citation>, y: seq<Citation>, to: nat)
    requires Found(text, x, to) && Found(text, y, to)
    ensures x != [] ==> y != [] && x[|x|-1].at <= y[|y|-1].at
    ensures x != [] && y[|y|-1].at == x[|x|-1].at ==> y[|y|-1] == x[|x|-1]
  {
    if x != [] {
      var c := x[|x|-1];
      assert IsFound(text, c, to);
      assert At(y, c.at);
      hide IsCitation, IsCited;
      var k :| 0 <= k < |y| && y[k].at == c.at;
      assert IsFound(text, y[|y|-1], to);
      LastIsLatest(text, y, to, k);
      if y[|y|-1].at == c.at { CitationUnique(text, c.at, c, y[|y|-1]); }
    }
  }

  lemma LastIsLatest(text: string, y: seq<Citation>, to: nat, k: nat)
    requires Found(text, y, to) && k < |y|
    ensures y[k].at <= y[|y|-1].at
  {
    hide IsCitation, IsCited;
  }

  lemma FoundBefore(text: string, x: seq<Citation>, to: nat)
    requires Found(text, x, to) && x != []
    ensures Found(text, x[..|x|-1], x[|x|-1].at)
  {
    var at := x[|x|-1].at;
    forall p: nat | p < at && IsCited(text, p) ensures At(x[..|x|-1], p) { StillAt(text, x, to, p); }
    hide *;
  }

  lemma StillAt(text: string, x: seq<Citation>, to: nat, p: nat)
    requires Found(text, x, to) && x != [] && p < x[|x|-1].at && IsCited(text, p)
    ensures At(x[..|x|-1], p)
  {
    hide IsCitation, IsCited, At;
    assert IsFound(text, x[|x|-1], to);
    assert At(x, p);
    hide Found, IsFound;
    assert x == x[..|x|-1] + [x[|x|-1]];
    AtPush(x[..|x|-1], x[|x|-1], p);
  }

  // ---------------------------------------------------------------------------------------------
  // Every text has its citations
  // ---------------------------------------------------------------------------------------------

  lemma {:induction false} LeftmostExists(text: string, at: nat, s: Split) returns (best: Split)
    requires IsSplit(text, at, s)
    ensures IsLeftmost(text, at, best)
    decreases s.ownerStart
  {
    hide IsSplit;
    if t :| IsSplit(text, at, t) && t.ownerStart < s.ownerStart {
      best := LeftmostExists(text, at, t);
    } else {
      best := s;
    }
  }

  lemma {:induction false} FragmentExists(text: string, from: nat, n: nat) returns (m: nat)
    requires from + n <= |text| && forall k :: from <= k < from + n ==> IsFragmentChar(text[k])
    ensures FragmentRun(text, from, m)
    decreases |text| - n
  {
    m := n;
    if from + n < |text| && IsFragmentChar(text[from + n]) { m := FragmentExists(text, from, n + 1); }
  }

  lemma TailExists(text: string, end: nat) returns (f: nat)
    requires end <= |text|
    ensures IsTail(text, end, f)
  {
    hide FragmentRun;
    f := 0;
    if end < |text| && text[end] == '#' { f := FragmentExists(text, end + 1, 0); }
  }

  lemma HashInside(text: string, at: nat, sha: nat)
    requires IsHash(text, at, sha)
    ensures at + 1 + sha <= |text|
  { }

  lemma TailInside(text: string, end: nat, f: nat)
    requires IsTail(text, end, f)
    ensures f > 0 ==> end + 1 + f <= |text|
  { }

  lemma CitationExists(text: string, at: nat) returns (c: Citation)
    requires IsCited(text, at)
    ensures IsCitation(text, at, c)
  {
    hide IsSplit, IsLeftmost, IsHash, IsTail, Href, IsCitation, FragmentOf;
    var s :| IsSplit(text, at, s);
    var sha: nat :| IsHash(text, at, sha);
    hide IsCited, StartsHash;
    HashInside(text, at, sha);
    var best := LeftmostExists(text, at, s);
    var f := TailExists(text, at + 1 + sha);
    TailInside(text, at + 1 + sha, f);
    SplitParts(text, at, best);
    c := Citation(at, best.ownerStart, at + 1 + sha + (if f == 0 then 0 else f + 1),
                  Href(text, best, at, text[at+1..at+1+sha], FragmentOf(text, at + 1 + sha, f)));
    CitationParts(text, at, c, best, sha, f);
  }

  /** Every text has a list of its citations. */
  lemma {:induction false} FoundExists(text: string, past: nat) returns (docs: seq<Citation>)
    requires past <= |text|
    ensures Found(text, docs, past)
    decreases past
  {
    docs := [];
    if past > 0 {
      var at := past - 1;
      var before := FoundExists(text, at);
      docs := before;
      if IsCited(text, at) {
        var c := CitationExists(text, at);
        docs := before + [c];
        hide IsCitation, Found;
        FoundMoves(text, before, at, at, Some(c), docs);
      } else {
        FoundOn(text, before, at);
      }
    }
  }

  lemma FoundOn(text: string, docs: seq<Citation>, at: nat)
    requires Found(text, docs, at) && at < |text| && !IsCited(text, at)
    ensures Found(text, docs, at + 1)
  {
    hide IsCited, IsCitation, At;
    forall k | 0 <= k < |docs| ensures IsFound(text, docs[k], at + 1) { assert IsFound(text, docs[k], at); }
    hide IsFound;
  }

  // ---------------------------------------------------------------------------------------------
  // What an address says
  // ---------------------------------------------------------------------------------------------

  datatype Address = Address(owner: string, name: string, sha: string, path: string, fragment: string)

  /** The first place of c in s, or its end. */
  function UpTo(s: string, c: char): (n: nat)
    ensures n <= |s|
  {
    if s == "" || s[0] == c then 0 else 1 + UpTo(s[1..], c)
  }

  function After(s: string, n: nat): string { if n < |s| then s[n+1..] else "" }

  /** A file at a version, as the site's addresses name it: owner, name, version, path, and the part after the `#`. */
  function ReadAddress(href: string): Option<Address> {
    var site := "https://github.com/";
    if !(site <= href) then None else
      var s := href[|site|..];
      var t := After(s, UpTo(s, '/'));
      ReadVersion(s[..UpTo(s, '/')], t[..UpTo(t, '/')], After(t, UpTo(t, '/')))
  }

  function ReadVersion(owner: string, name: string, u: string): Option<Address> {
    if !("blob/" <= u) then None else
      var v := u[5..];
      var w := After(v, UpTo(v, '/'));
      Some(Address(owner, name, v[..UpTo(v, '/')], w[..UpTo(w, '#')], After(w, UpTo(w, '#'))))
  }

  lemma {:induction false} UpToFirst(x: string, c: char, y: string)
    requires c !in x && (y == "" || y[0] == c)
    ensures UpTo(x + y, c) == |x| && (x + y)[..|x|] == x && After(x + y, |x|) == if y == "" then "" else y[1..]
    decreases |x|
  {
    if x == "" {
      assert x + y == y;
    } else {
      assert (x + y)[1..] == x[1..] + y;
      UpToFirst(x[1..], c, y);
    }
  }

  lemma LinkReadsBack(owner: string, name: string, sha: string, path: string, fragment: string)
    requires '/' !in owner && '/' !in name && '/' !in sha && '#' !in path
    ensures ReadAddress(Link(owner, name, sha, path, fragment)) == Some(Address(owner, name, sha, path, fragment))
  {
    var w := path + (if fragment == "" then "" else "#" + fragment);
    var u := "blob/" + (sha + ("/" + w));
    LinkParts(owner, name, sha, path, fragment);
    VersionReadsBack(owner, name, sha, path, fragment);
    UpToFirst(owner, '/', "/" + (name + ("/" + u)));
    UpToFirst(name, '/', "/" + u);
    assert ("/" + (name + ("/" + u)))[1..] == name + ("/" + u) && ("/" + u)[1..] == u;
    hide Link, UpTo, After, ReadVersion;
    var site, s := "https://github.com/", owner + ("/" + (name + ("/" + u)));
    assert (site + s)[|site|..] == s;
  }

  lemma LinkParts(owner: string, name: string, sha: string, path: string, fragment: string)
    ensures var w := path + (if fragment == "" then "" else "#" + fragment);
      Link(owner, name, sha, path, fragment)
        == "https://github.com/" + (owner + ("/" + (name + ("/" + ("blob/" + (sha + ("/" + w)))))))
  {
    var w := path + (if fragment == "" then "" else "#" + fragment);
    assert "/blob/" == "/" + "blob/";
  }

  lemma VersionReadsBack(owner: string, name: string, sha: string, path: string, fragment: string)
    requires '/' !in sha && '#' !in path
    ensures var w := path + (if fragment == "" then "" else "#" + fragment);
      ReadVersion(owner, name, "blob/" + (sha + ("/" + w))) == Some(Address(owner, name, sha, path, fragment))
  {
    var tail := if fragment == "" then "" else "#" + fragment;
    var w := path + tail;
    UpToFirst(sha, '/', "/" + w);
    UpToFirst(path, '#', tail);
    hide UpTo, After;
    assert ("/" + w)[1..] == w && (fragment != "" ==> tail[1..] == fragment);
    assert ("blob/" + (sha + ("/" + w)))[5..] == sha + ("/" + w);
  }

  /** The citation's address, read back, is the owner, the name, the hash, the path and the fragment as they stand in the text. */
  ghost predicate SaysWhatItCites(text: string, at: nat, c: Citation, s: Split, sha: nat, f: nat) {
    && IsCitationOf(text, at, c, s, sha, f)
    && ReadAddress(c.href) == Some(Address(text[s.ownerStart..s.slash], text[s.slash+1..s.colon], text[at+1..at+1+sha],
                                           text[s.colon+1..at], FragmentOf(text, at + 1 + sha, f)))
  }

  lemma HrefReadsBack(text: string, at: nat, c: Citation)
    requires IsCitation(text, at, c)
    ensures exists s, sha: nat, f: nat :: SaysWhatItCites(text, at, c, s, sha, f)
  {
    hide IsLeftmost, IsHash, IsTail, ReadAddress, Link, FragmentOf;
    var s, sha: nat, f: nat :| IsCitationOf(text, at, c, s, sha, f);
    SplitParts(text, at, s);
    HashInside(text, at, sha);
    TailInside(text, at + 1 + sha, f);
    NoSlashes(text, at, s, sha);
    LinkReadsBack(text[s.ownerStart..s.slash], text[s.slash+1..s.colon], text[at+1..at+1+sha], text[s.colon+1..at],
                  FragmentOf(text, at + 1 + sha, f));
    assert SaysWhatItCites(text, at, c, s, sha, f);
  }

  lemma NoSlashes(text: string, at: nat, s: Split, sha: nat)
    requires IsLeftmost(text, at, s) && IsHash(text, at, sha)
    ensures s.ownerStart <= s.slash < s.colon < at && at + 1 + sha <= |text|
    ensures '/' !in text[s.ownerStart..s.slash] && '/' !in text[s.slash+1..s.colon] && '/' !in text[at+1..at+1+sha]
    ensures '#' !in text[s.colon+1..at]
  {
    assert !IsWord('/') && !IsLowerHex('/') && IsStop('#');
  }

  /** No character of the link of a citation needs an escape inside a quoted attribute. */
  lemma HrefIsSafe(text: string, at: nat, c: Citation)
    requires IsCitation(text, at, c)
    ensures Safe(c.href)
  {
    hide Safe, Href, IsLeftmost, IsHash, IsTail, FragmentOf;
    var s, sha: nat, f: nat :| IsCitationOf(text, at, c, s, sha, f);
    HrefOfIsSafe(text, at, s, sha, f);
  }

  ghost predicate Safe(s: string) { forall k :: 0 <= k < |s| ==> IsSafe(s[k]) }

  lemma HrefOfIsSafe(text: string, at: nat, s: Split, sha: nat, f: nat)
    requires IsLeftmost(text, at, s) && IsHash(text, at, sha) && IsTail(text, at + 1 + sha, f)
    ensures Safe(Href(text, s, at, text[at+1..at+1+sha], FragmentOf(text, at + 1 + sha, f)))
  {
    hide Safe, Link, FragmentOf, IsLeftmost, IsHash, IsTail;
    SplitParts(text, at, s);
    HashInside(text, at, sha);
    TailInside(text, at + 1 + sha, f);
    PrefixIsSafe(text, at, s);
    HashIsSafe(text, at, sha);
    FragmentIsSafe(text, at + 1 + sha, f);
    SafeParts(text[s.ownerStart..s.slash], text[s.slash+1..s.colon], text[at+1..at+1+sha], text[s.colon+1..at],
              FragmentOf(text, at + 1 + sha, f));
  }

  lemma PrefixIsSafe(text: string, at: nat, s: Split)
    requires IsLeftmost(text, at, s)
    ensures Safe(text[s.ownerStart..s.slash]) && Safe(text[s.slash+1..s.colon]) && Safe(text[s.colon+1..at])
  { }

  lemma HashIsSafe(text: string, at: nat, sha: nat)
    requires IsHash(text, at, sha)
    ensures Safe(text[at+1..at+1+sha])
  { }

  lemma FragmentIsSafe(text: string, end: nat, n: nat)
    requires IsTail(text, end, n)
    ensures Safe(FragmentOf(text, end, n))
  { }

  lemma SafeParts(owner: string, name: string, sha: string, path: string, fragment: string)
    requires Safe(owner) && Safe(name) && Safe(sha) && Safe(path) && Safe(fragment)
    ensures Safe(Link(owner, name, sha, path, fragment))
  {
    SafeJoin("https://github.com/", owner);
    SafeJoin("https://github.com/" + owner, "/");
    SafeJoin("https://github.com/" + owner + "/", name);
    SafeJoin("https://github.com/" + owner + "/" + name, "/blob/");
    SafeJoin("https://github.com/" + owner + "/" + name + "/blob/", sha);
    SafeJoin("https://github.com/" + owner + "/" + name + "/blob/" + sha, "/");
    SafeJoin("https://github.com/" + owner + "/" + name + "/blob/" + sha + "/", path);
    SafeJoin("https://github.com/" + owner + "/" + name + "/blob/" + sha + "/" + path,
             if fragment == "" then "" else "#" + fragment);
  }

  lemma SafeJoin(s: string, t: string)
    requires Safe(s) && Safe(t)
    ensures Safe(s + t)
  { }

}
