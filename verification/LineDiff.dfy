/** The line diff of a draft file (apps/web/lib/nax-config-diff.ts): a longest-common-subsequence table filled
    backwards, a greedy walk over it, and the trimming of the common prefix and suffix around both. */
module LineDiff {

  type Line = string

  datatype DiffLine = Same(text: Line) | Del(text: Line) | Add(text: Line)

  datatype Diff = Diff(lines: seq<DiffLine>, approximate: bool)

  const MAX_CELLS := 2_000_000

  newtype uint32 = x: int | 0 <= x < 0x1_0000_0000

  // ---------------------------------------------------------------------------------------------
  // Text and lines
  // ---------------------------------------------------------------------------------------------

  function Split(text: string): (r: seq<Line>)
    ensures |r| > 0 && forall i :: 0 <= i < |r| ==> '\n' !in r[i]
  {
    if text == "" then [""]
    else
      var rest := Split(text[1..]);
      if text[0] == '\n' then [""] + rest else [[text[0]] + rest[0]] + rest[1..]
  }

  function ToLines(text: string): seq<Line> {
    if text == "" then [] else Split(text)
  }

  function Join(lines: seq<Line>): string {
    if lines == [] then "" else if |lines| == 1 then lines[0] else lines[0] + "\n" + Join(lines[1..])
  }

  lemma {:induction false} JoinSplit(text: string)
    ensures Join(Split(text)) == text
    decreases |text|
  {
    if text != "" {
      var rest := Split(text[1..]);
      JoinSplit(text[1..]);
      if text[0] != '\n' && |rest| > 1 {
        assert Split(text)[1..] == rest[1..];
        assert Join(Split(text)) == [text[0]] + (rest[0] + "\n" + Join(rest[1..]));
      } else if text[0] == '\n' {
        assert Split(text)[1..] == rest;
      }
    }
  }

  /** The lines of a text spell it. */
  lemma LinesSpellText(text: string)
    ensures Join(ToLines(text)) == text
  {
    JoinSplit(text);
  }

  function LineFeeds(text: string): nat {
    if text == "" then 0 else (if text[0] == '\n' then 1 else 0) + LineFeeds(text[1..])
  }

  lemma {:induction false} SplitCounts(text: string)
    ensures |Split(text)| == LineFeeds(text) + 1
    decreases |text|
  {
    if text != "" { SplitCounts(text[1..]); }
  }

  /** No line holds a line feed, and there is one line more than line feeds; only the empty text has no line. */
  lemma LinesAreCut(text: string)
    ensures forall i :: 0 <= i < |ToLines(text)| ==> '\n' !in ToLines(text)[i]
    ensures |ToLines(text)| == if text == "" then 0 else LineFeeds(text) + 1
  {
    SplitCounts(text);
  }

  // ---------------------------------------------------------------------------------------------
  // Common subsequences
  // ---------------------------------------------------------------------------------------------

  /** c is what t holds at the increasing places `at`. */
  ghost predicate Picks<T>(c: seq<T>, t: seq<T>, at: seq<nat>) {
    && |at| == |c|
    && (forall i, j :: 0 <= i < j < |at| ==> at[i] < at[j])
    && (forall i :: 0 <= i < |at| ==> at[i] < |t| && c[i] == t[at[i]])
  }

  ghost predicate Subsequence<T>(c: seq<T>, t: seq<T>) {
    exists at :: Picks(c, t, at)
  }

  ghost predicate Common<T>(c: seq<T>, a: seq<T>, b: seq<T>) {
    Subsequence(c, a) && Subsequence(c, b)
  }

  /** k is the length of a longest common subsequence of a and b. */
  ghost predicate LongestCommon<T(!new)>(a: seq<T>, b: seq<T>, k: nat) {
    && (exists c :: Common(c, a, b) && |c| == k)
    && (forall c :: Common(c, a, b) ==> |c| <= k)
  }

  lemma DropFirst<T>(c: seq<T>, t: seq<T>)
    requires Subsequence(c, t) && c != []
    ensures t != [] && Subsequence(c[1..], t[1..])
    ensures c[0] != t[0] ==> Subsequence(c, t[1..])
  {
    var at :| Picks(c, t, at);
    assert forall i :: 0 < i < |at| ==> at[0] < at[i];
    var rest := seq(|at| - 1, i requires 0 <= i < |at| - 1 => at[i + 1] - 1);
    assert Picks(c[1..], t[1..], rest);
    if c[0] != t[0] {
      var all := seq(|at|, i requires 0 <= i < |at| => if at[i] == 0 then 0 else at[i] - 1);
      assert at[0] > 0;
      assert Picks(c, t[1..], all);
    }
  }

  lemma DropLast<T>(c: seq<T>, t: seq<T>)
    requires Subsequence(c, t) && c != []
    ensures t != [] && Subsequence(c[..|c|-1], t[..|t|-1])
  {
    var at :| Picks(c, t, at);
    assert at[|at|-1] < |t|;
    assert forall i :: 0 <= i < |at| - 1 ==> at[i] < at[|at|-1];
    assert Picks(c[..|c|-1], t[..|t|-1], at[..|at|-1]);
  }

  lemma Extend<T>(c: seq<T>, t: seq<T>, x: T)
    requires Subsequence(c, t)
    ensures Subsequence([x] + c, [x] + t) && Subsequence(c, [x] + t)
  {
    var at :| Picks(c, t, at);
    var moved := seq(|at|, i requires 0 <= i < |at| => at[i] + 1);
    assert Picks(c, [x] + t, moved);
    assert Picks([x] + c, [x] + t, [0] + moved);
  }

  /** The suffix recursion the table holds. */
  function Lcs(a: seq<Line>, b: seq<Line>): (k: nat)
    ensures k <= |a| && k <= |b|
    decreases |a| + |b|
  {
    if a == [] || b == [] then 0
    else if a[0] == b[0] then Lcs(a[1..], b[1..]) + 1
    else Max(Lcs(a[1..], b), Lcs(a, b[1..]))
  }

  function Max(x: nat, y: nat): nat {
    if x >= y then x else y
  }

  lemma {:induction false} LcsBounds(a: seq<Line>, b: seq<Line>, c: seq<Line>)
    requires Common(c, a, b)
    ensures |c| <= Lcs(a, b)
    decreases |a| + |b|
  {
    if c != [] {
      DropFirst(c, a);
      DropFirst(c, b);
      if a[0] == b[0] {
        LcsBounds(a[1..], b[1..], c[1..]);
      } else if c[0] != a[0] {
        LcsBounds(a[1..], b, c);
      } else {
        LcsBounds(a, b[1..], c);
      }
    }
  }

  // ---------------------------------------------------------------------------------------------
  // What a list of diff lines says
  // ---------------------------------------------------------------------------------------------

  datatype Side = Old | New | Both

  predicate Shows(side: Side, line: DiffLine) {
    match side
    case Old => !line.Add?
    case New => !line.Del?
    case Both => line.Same?
  }

  function Texts(side: Side, lines: seq<DiffLine>): seq<Line> {
    if lines == [] then []
    else if Shows(side, lines[0]) then [lines[0].text] + Texts(side, lines[1..])
    else Texts(side, lines[1..])
  }

  /** The lines of the old text, of the new text, and those both keep. */
  function Before(lines: seq<DiffLine>): seq<Line> { Texts(Old, lines) }
  function After(lines: seq<DiffLine>): seq<Line> { Texts(New, lines) }
  function Kept(lines: seq<DiffLine>): seq<Line> { Texts(Both, lines) }

  lemma Assoc<T>(x: seq<T>, y: seq<T>, z: seq<T>)
    ensures (x + y) + z == x + (y + z)
  {
  }

  lemma {:induction false} TextsAppend(side: Side, s: seq<DiffLine>, t: seq<DiffLine>)
    ensures Texts(side, s + t) == Texts(side, s) + Texts(side, t)
    decreases |s|
  {
    if s == [] {
      assert s + t == t;
    } else {
      assert (s + t)[1..] == s[1..] + t;
      TextsAppend(side, s[1..], t);
      if Shows(side, s[0]) { Assoc([s[0].text], Texts(side, s[1..]), Texts(side, t)); }
    }
  }

  lemma {:induction false} KeptIsCommon(lines: seq<DiffLine>)
    ensures Common(Kept(lines), Before(lines), After(lines))
    decreases |lines|
  {
    if lines == [] {
      assert Picks(Kept(lines), Before(lines), []) && Picks(Kept(lines), After(lines), []);
    } else {
      KeptIsCommon(lines[1..]);
      Extend(Kept(lines[1..]), Before(lines[1..]), lines[0].text);
      Extend(Kept(lines[1..]), After(lines[1..]), lines[0].text);
    }
  }

  function Sames(s: seq<Line>): (r: seq<DiffLine>)
    ensures |r| == |s| && forall i :: 0 <= i < |r| ==> r[i] == Same(s[i])
  {
    seq(|s|, i requires 0 <= i < |s| => Same(s[i]))
  }

  function Dels(s: seq<Line>): (r: seq<DiffLine>)
    ensures |r| == |s| && forall i :: 0 <= i < |r| ==> r[i] == Del(s[i])
  {
    seq(|s|, i requires 0 <= i < |s| => Del(s[i]))
  }

  function Adds(s: seq<Line>): (r: seq<DiffLine>)
    ensures |r| == |s| && forall i :: 0 <= i < |r| ==> r[i] == Add(s[i])
  {
    seq(|s|, i requires 0 <= i < |s| => Add(s[i]))
  }

  lemma {:induction false} PlainSides(s: seq<Line>)
    ensures Before(Sames(s)) == s && After(Sames(s)) == s && Kept(Sames(s)) == s
    ensures Before(Dels(s)) == s && After(Dels(s)) == [] && Kept(Dels(s)) == []
    ensures Before(Adds(s)) == [] && After(Adds(s)) == s && Kept(Adds(s)) == []
    decreases |s|
  {
    if s != [] {
      PlainSides(s[1..]);
      assert Sames(s)[1..] == Sames(s[1..]) && Dels(s)[1..] == Dels(s[1..]) && Adds(s)[1..] == Adds(s[1..]);
      assert s == [s[0]] + s[1..];
    }
  }

  // ---------------------------------------------------------------------------------------------
  // The greedy walk
  // ---------------------------------------------------------------------------------------------

  /** Equal heads are kept; otherwise the side whose removal loses nothing goes, a deletion first on a tie. */
  function Walk(a: seq<Line>, b: seq<Line>): seq<DiffLine>
    decreases |a| + |b|
  {
    if a == [] || b == [] then Dels(a) + Adds(b)
    else if a[0] == b[0] then [Same(a[0])] + Walk(a[1..], b[1..])
    else if Lcs(a[1..], b) >= Lcs(a, b[1..]) then [Del(a[0])] + Walk(a[1..], b)
    else [Add(b[0])] + Walk(a, b[1..])
  }

  lemma {:induction false} WalkSpells(a: seq<Line>, b: seq<Line>)
    ensures Before(Walk(a, b)) == a && After(Walk(a, b)) == b && |Kept(Walk(a, b))| == Lcs(a, b)
    decreases |a| + |b|
  {
    if a == [] || b == [] {
      PlainSides(a);
      PlainSides(b);
      forall side { TextsAppend(side, Dels(a), Adds(b)); }
    } else {
      assert a == [a[0]] + a[1..] && b == [b[0]] + b[1..];
      var first, rest := Walk(a, b)[0], Walk(a, b)[1..];
      if a[0] == b[0] {
        WalkSpells(a[1..], b[1..]);
        assert rest == Walk(a[1..], b[1..]);
      } else if Lcs(a[1..], b) >= Lcs(a, b[1..]) {
        WalkSpells(a[1..], b);
        assert rest == Walk(a[1..], b);
      } else {
        WalkSpells(a, b[1..]);
        assert rest == Walk(a, b[1..]);
      }
    }
  }

  /** Between two kept lines the deletions come before the additions. */
  ghost predicate DelsFirst(lines: seq<DiffLine>) {
    forall i, j :: 0 <= i < j < |lines| && j == i + 1 && lines[i].Add? ==> !lines[j].Del?
  }

  /** A line more on one side never shortens the longest common subsequence. */
  lemma LcsGrows(a: seq<Line>, b: seq<Line>)
    requires b != []
    ensures Lcs(a, b[1..]) <= Lcs(a, b)
  {
    WalkSpells(a, b[1..]);
    KeptIsCommon(Walk(a, b[1..]));
    var c := Kept(Walk(a, b[1..]));
    hide Texts, Walk, Lcs;
    Extend(c, b[1..], b[0]);
    assert [b[0]] + b[1..] == b;
    LcsBounds(a, b, c);
  }

  /** An addition is only taken where the deletion would lose a line, and then no deletion follows it. */
  lemma {:induction false} WalkDelsFirst(a: seq<Line>, b: seq<Line>)
    ensures DelsFirst(Walk(a, b))
    decreases |a| + |b|
  {
    if a != [] && b != [] {
      var rest := Walk(a, b)[1..];
      if a[0] == b[0] {
        WalkDelsFirst(a[1..], b[1..]);
        assert rest == Walk(a[1..], b[1..]);
      } else if Lcs(a[1..], b) >= Lcs(a, b[1..]) {
        WalkDelsFirst(a[1..], b);
        assert rest == Walk(a[1..], b);
      } else {
        WalkDelsFirst(a, b[1..]);
        assert rest == Walk(a, b[1..]);
        LcsGrows(a[1..], b);
        assert rest != [] ==> !rest[0].Del?;
      }
      assert Walk(a, b) == [Walk(a, b)[0]] + rest;
    }
  }

  lemma DelsFirstAround(head: seq<Line>, lines: seq<DiffLine>, tail: seq<Line>)
    requires DelsFirst(lines)
    ensures DelsFirst(Sames(head) + lines + Sames(tail))
  {
  }

  // ---------------------------------------------------------------------------------------------
  // The table
  // ---------------------------------------------------------------------------------------------

  function Cell(i: nat, j: nat, w: nat): nat {
    i * w + j
  }

  lemma CellInside(i: nat, j: nat, w: nat, n: nat)
    requires i <= n && j < w
    ensures Cell(i, j, w) < (n + 1) * w
  {
    assert i * w <= n * w;
    assert (n + 1) * w == n * w + w;
  }

  lemma CellsApart(i: nat, j: nat, p: nat, q: nat, w: nat)
    requires j < w && q < w && (i != p || j != q)
    ensures Cell(i, j, w) != Cell(p, q, w)
  {
    if i < p {
      assert (i + 1) * w <= p * w;
      assert (i + 1) * w == i * w + w;
    } else if p < i {
      assert (p + 1) * w <= i * w;
      assert (p + 1) * w == p * w + w;
    }
  }

  /** No cell of a table within the limit overflows its 32 bits. */
  lemma LcsFits(a: seq<Line>, b: seq<Line>, n: nat, m: nat)
    requires n * m <= MAX_CELLS && |a| <= n && |b| <= m
    ensures Lcs(a, b) < 0x1_0000_0000
  {
    if |a| > 0 && |b| > 0 {
      assert |a| * 1 <= n * m;
    }
  }

  /** A flat table with a row for each suffix of a and a column for each suffix of b. */
  ghost predicate Sized(dp: array<uint32>, a: seq<Line>, b: seq<Line>) {
    dp.Length == (|a| + 1) * (|b| + 1)
  }

  function At(dp: array<uint32>, a: seq<Line>, b: seq<Line>, i: nat, j: nat): uint32
    requires i <= |a| && j <= |b| && Sized(dp, a, b)
    reads dp
  {
    CellInside(i, j, |b| + 1, |a|);
    dp[Cell(i, j, |b| + 1)]
  }

  /** The table's cell for the suffixes from i and j holds the length of their longest common subsequence. */
  ghost predicate Filled(dp: array<uint32>, a: seq<Line>, b: seq<Line>, i: nat, j: nat)
    requires i <= |a| && j <= |b| && Sized(dp, a, b)
    reads dp
  {
    At(dp, a, b, i, j) as int == Lcs(a[i..], b[j..])
  }

  method NewTable(a: seq<Line>, b: seq<Line>) returns (dp: array<uint32>)
    ensures fresh(dp) && Sized(dp, a, b)
    ensures forall i, j :: 0 <= i <= |a| && 0 <= j <= |b| && (i == |a| || j == |b|) ==> Filled(dp, a, b, i, j)
  {
    var w := |b| + 1;
    dp := new uint32[(|a| + 1) * w](_ => 0);
    forall i, j | 0 <= i <= |a| && 0 <= j <= |b| && (i == |a| || j == |b|) ensures Filled(dp, a, b, i, j) {
      CellInside(i, j, w, |a|);
    }
  }

  method FillTable(a: seq<Line>, b: seq<Line>) returns (dp: array<uint32>)
    requires |a| * |b| <= MAX_CELLS
    ensures fresh(dp) && Sized(dp, a, b)
    ensures forall i, j :: 0 <= i <= |a| && 0 <= j <= |b| ==> Filled(dp, a, b, i, j)
  {
    hide *;
    var n, m := |a|, |b|;
    dp := NewTable(a, b);
    var i := n;
    while i > 0
      invariant i <= n
      invariant forall p, q :: 0 <= p <= n && 0 <= q <= m && (p >= i || q == m) ==> Filled(dp, a, b, p, q)
    {
      i := i - 1;
      var j := m;
      while j > 0
        invariant j <= m
        invariant forall p, q :: 0 <= p <= n && 0 <= q <= m && (p > i || (p == i && q >= j) || q == m) ==>
          Filled(dp, a, b, p, q)
      {
        j := j - 1;
        FillCell(dp, a, b, i, j);
      }
    }
  }

  /** One cell from its right, lower and diagonal neighbours; no other cell changes. */
  method FillCell(dp: array<uint32>, a: seq<Line>, b: seq<Line>, i: nat, j: nat)
    requires |a| * |b| <= MAX_CELLS && i < |a| && j < |b| && Sized(dp, a, b)
    requires Filled(dp, a, b, i + 1, j + 1) && Filled(dp, a, b, i + 1, j) && Filled(dp, a, b, i, j + 1)
    modifies dp
    ensures Filled(dp, a, b, i, j)
    ensures forall p, q :: 0 <= p <= |a| && 0 <= q <= |b| && (p != i || q != j) && old(Filled(dp, a, b, p, q)) ==>
      Filled(dp, a, b, p, q)
  {
    var w := |b| + 1;
    CellInside(i, j, w, |a|);
    CellInside(i + 1, j + 1, w, |a|);
    CellInside(i + 1, j, w, |a|);
    CellInside(i, j + 1, w, |a|);
    LcsFits(a[i..], b[j..], |a|, |b|);
    dp[Cell(i, j, w)] :=
      if a[i] == b[j] then dp[Cell(i + 1, j + 1, w)] + 1
      else if dp[Cell(i + 1, j, w)] >= dp[Cell(i, j + 1, w)] then dp[Cell(i + 1, j, w)]
      else dp[Cell(i, j + 1, w)];
    forall p, q | 0 <= p <= |a| && 0 <= q <= |b| && (p != i || q != j) && old(Filled(dp, a, b, p, q))
      ensures Filled(dp, a, b, p, q)
    {
      CellInside(p, q, w, |a|);
      CellsApart(i, j, p, q, w);
    }
  }

  method LcsDiff(a: seq<Line>, b: seq<Line>) returns (out: seq<DiffLine>)
    requires |a| * |b| <= MAX_CELLS
    ensures out == Walk(a, b)
  {
    var n, m := |a|, |b|;
    hide *;
    var dp := FillTable(a, b);
    out := [];
    var i, j := 0, 0;
    assert a[0..] == a && b[0..] == b && [] + Walk(a, b) == Walk(a, b);
    while i < n && j < m
      invariant i <= n && j <= m
      invariant forall p, q :: 0 <= p <= n && 0 <= q <= m ==> Filled(dp, a, b, p, q)
      invariant out + Walk(a[i..], b[j..]) == Walk(a, b)
    {
      WalkStep(a, b, i, j);
      FilledMeans(dp, a, b, i + 1, j);
      FilledMeans(dp, a, b, i, j + 1);
      if a[i] == b[j] {
        Assoc(out, [Same(a[i])], Walk(a[i+1..], b[j+1..]));
        out := out + [Same(a[i])];
        i, j := i + 1, j + 1;
      } else if At(dp, a, b, i + 1, j) >= At(dp, a, b, i, j + 1) {
        Assoc(out, [Del(a[i])], Walk(a[i+1..], b[j..]));
        out := out + [Del(a[i])];
        i := i + 1;
      } else {
        Assoc(out, [Add(b[j])], Walk(a[i..], b[j+1..]));
        out := out + [Add(b[j])];
        j := j + 1;
      }
    }
    WalkEnds(a[i..], b[j..]);
    Assoc(out, Dels(a[i..]), Adds(b[j..]));
    out := out + Dels(a[i..]) + Adds(b[j..]);
  }

  lemma FilledMeans(dp: array<uint32>, a: seq<Line>, b: seq<Line>, i: nat, j: nat)
    requires i <= |a| && j <= |b| && Sized(dp, a, b) && Filled(dp, a, b, i, j)
    ensures At(dp, a, b, i, j) as int == Lcs(a[i..], b[j..])
  {
  }

  lemma WalkEnds(a: seq<Line>, b: seq<Line>)
    requires a == [] || b == []
    ensures Walk(a, b) == Dels(a) + Adds(b)
  {
  }

  lemma WalkStep(a: seq<Line>, b: seq<Line>, i: nat, j: nat)
    requires i < |a| && j < |b|
    ensures Walk(a[i..], b[j..]) ==
      if a[i] == b[j] then [Same(a[i])] + Walk(a[i+1..], b[j+1..])
      else if Lcs(a[i+1..], b[j..]) >= Lcs(a[i..], b[j+1..]) then [Del(a[i])] + Walk(a[i+1..], b[j..])
      else [Add(b[j])] + Walk(a[i..], b[j+1..])
  {
    assert a[i..][1..] == a[i+1..] && b[j..][1..] == b[j+1..];
  }

  // ---------------------------------------------------------------------------------------------
  // Trimming
  // ---------------------------------------------------------------------------------------------

  /** A common subsequence of two sequences with the same first k elements loses at most k of its own. */
  lemma {:induction false} PrefixTakes(p: seq<Line>, x: seq<Line>, y: seq<Line>, c: seq<Line>) returns (d: seq<Line>)
    requires Common(c, p + x, p + y)
    ensures Common(d, x, y) && |c| <= |d| + |p|
    decreases |p|
  {
    if p == [] {
      assert p + x == x && p + y == y;
      d := c;
    } else if c == [] {
      assert Picks(c, x, []) && Picks(c, y, []);
      d := c;
    } else {
      DropFirst(c, p + x);
      DropFirst(c, p + y);
      assert (p + x)[1..] == p[1..] + x && (p + y)[1..] == p[1..] + y;
      d := PrefixTakes(p[1..], x, y, c[1..]);
    }
  }

  /** The same at the other end, which the suffix recursion says nothing about. */
  lemma {:induction false} SuffixTakes(x: seq<Line>, y: seq<Line>, s: seq<Line>, c: seq<Line>) returns (d: seq<Line>)
    requires Common(c, x + s, y + s)
    ensures Common(d, x, y) && |c| <= |d| + |s|
    decreases |s|
  {
    if s == [] {
      assert x + s == x && y + s == y;
      d := c;
    } else if c == [] {
      assert Picks(c, x, []) && Picks(c, y, []);
      d := c;
    } else {
      DropLast(c, x + s);
      DropLast(c, y + s);
      assert (x + s)[..|x + s|-1] == x + s[..|s|-1] && (y + s)[..|y + s|-1] == y + s[..|s|-1];
      d := SuffixTakes(x, y, s[..|s|-1], c[..|c|-1]);
    }
  }

  /** Keeping the common ends and walking the middle keeps as many lines as any common subsequence of the whole. */
  lemma TrimmedIsLongest(head: seq<Line>, a: seq<Line>, b: seq<Line>, tail: seq<Line>)
    ensures LongestCommon(head + a + tail, head + b + tail, |head| + Lcs(a, b) + |tail|)
  {
    hide Texts, Walk, Lcs, Common;
    var lines := Sames(head) + Walk(a, b) + Sames(tail);
    forall side { TrimmedSides(side, head, Walk(a, b), tail); }
    WalkSpells(a, b);
    KeptIsCommon(lines);
    forall c | Common(c, head + a + tail, head + b + tail) ensures |c| <= |head| + Lcs(a, b) + |tail| {
      Assoc(head, a, tail);
      Assoc(head, b, tail);
      var d := PrefixTakes(head, a + tail, b + tail, c);
      var e := SuffixTakes(a, b, tail, d);
      LcsBounds(a, b, e);
    }
  }

  lemma TrimmedSides(side: Side, head: seq<Line>, middle: seq<DiffLine>, tail: seq<Line>)
    ensures Texts(side, Sames(head) + middle + Sames(tail)) == head + Texts(side, middle) + tail
  {
    PlainSides(head);
    PlainSides(tail);
    hide Texts;
    TextsAppend(side, Sames(head), middle);
    TextsAppend(side, Sames(head) + middle, Sames(tail));
  }

  /** The lines the two texts share at the front, and after those at the back; neither can be longer. */
  ghost predicate Trimmed(a: seq<Line>, b: seq<Line>, start: nat, endA: nat, endB: nat) {
    && start <= endA <= |a| && start <= endB <= |b|
    && a[..start] == b[..start]
    && a[endA..] == b[endB..]
    && (start < |a| && start < |b| ==> a[start] != b[start])
    && (endA > start && endB > start ==> a[endA-1] != b[endB-1])
  }

  /** The common ends kept around the walk of the middles, or around a whole replacement where the table would be too large. */
  ghost predicate IsDiff(a: seq<Line>, b: seq<Line>, start: nat, endA: nat, endB: nat, diff: Diff) {
    && Trimmed(a, b, start, endA, endB)
    && var midA, midB := a[start..endA], b[start..endB];
       && diff.approximate == (|midA| * |midB| > MAX_CELLS)
       && diff.lines == Sames(a[..start]) + (if diff.approximate then Dels(midA) + Adds(midB) else Walk(midA, midB)) + Sames(a[endA..])
  }

  method LineDiff(before: string, after: string) returns (diff: Diff)
    // Both sides are spelled, exactly.
    ensures Before(diff.lines) == ToLines(before) && After(diff.lines) == ToLines(after)
    ensures Join(Before(diff.lines)) == before && Join(After(diff.lines)) == after
    // An exact diff keeps as many lines as any common subsequence of the two texts.
    ensures !diff.approximate ==> LongestCommon(ToLines(before), ToLines(after), |Kept(diff.lines)|)
    // Replaced lines show the old ones first.
    ensures DelsFirst(diff.lines)
    // Which diff it is.
    ensures exists start, endA, endB :: IsDiff(ToLines(before), ToLines(after), start, endA, endB, diff)
  {
    hide ToLines, Texts, Walk, LongestCommon, Join;
    var a := ToLines(before);
    var b := ToLines(after);
    var start := 0;
    while start < |a| && start < |b| && a[start] == b[start]
      invariant start <= |a| && start <= |b| && a[..start] == b[..start]
    {
      start := start + 1;
    }
    var endA, endB := |a|, |b|;
    while endA > start && endB > start && a[endA-1] == b[endB-1]
      invariant start <= endA <= |a| && start <= endB <= |b| && a[endA..] == b[endB..]
    {
      endA, endB := endA - 1, endB - 1;
    }
    var head := Sames(a[..start]);
    var tail := Sames(a[endA..]);
    var midA := a[start..endA];
    var midB := b[start..endB];
    if |midA| * |midB| > MAX_CELLS {
      diff := Diff(head + (Dels(midA) + Adds(midB)) + tail, true);
    } else {
      var middle := LcsDiff(midA, midB);
      diff := Diff(head + middle + tail, false);
    }
    assert IsDiff(a, b, start, endA, endB, diff);
    hide *;
    DiffHolds(a, b, start, endA, endB, diff);
    LinesSpellText(before);
    LinesSpellText(after);
  }

  lemma Replaced(head: seq<Line>, a: seq<Line>, b: seq<Line>, tail: seq<Line>)
    ensures Before(Sames(head) + (Dels(a) + Adds(b)) + Sames(tail)) == head + a + tail
    ensures After(Sames(head) + (Dels(a) + Adds(b)) + Sames(tail)) == head + b + tail
  {
    PlainSides(a);
    PlainSides(b);
    hide Texts;
    TextsAppend(Old, Dels(a), Adds(b));
    TextsAppend(New, Dels(a), Adds(b));
    TrimmedSides(Old, head, Dels(a) + Adds(b), tail);
    TrimmedSides(New, head, Dels(a) + Adds(b), tail);
  }

  lemma DiffHolds(a: seq<Line>, b: seq<Line>, start: nat, endA: nat, endB: nat, diff: Diff)
    requires IsDiff(a, b, start, endA, endB, diff)
    ensures Before(diff.lines) == a && After(diff.lines) == b
    ensures !diff.approximate ==> LongestCommon(a, b, |Kept(diff.lines)|)
    ensures DelsFirst(diff.lines)
  {
    hide Texts, Walk, Lcs, LongestCommon;
    var head, midA, midB, tail := a[..start], a[start..endA], b[start..endB], a[endA..];
    if !diff.approximate { WalkDelsFirst(midA, midB); }
    DelsFirstAround(head, if diff.approximate then Dels(midA) + Adds(midB) else Walk(midA, midB), tail);
    hide DelsFirst;
    assert a == head + midA + tail && b == head + midB + tail;
    if diff.approximate {
      Replaced(head, midA, midB, tail);
    } else {
      WalkSpells(midA, midB);
      forall side { TrimmedSides(side, head, Walk(midA, midB), tail); }
      TrimmedIsLongest(head, midA, midB, tail);
    }
  }
}
