/** Day 19: towels are stripe patterns; a design is possible when it can be
    cut into consecutive pieces each equal to a towel, and the second star
    counts the ways to cut it. */
module Day19 {
  import opened Utils

  type Stripes = seq<char>

  /** The needle occurs in hay starting at s. */
  predicate OccursAt(hay: Stripes, needle: Stripes, s: nat)
  {
    s + |needle| <= |hay| && hay[s..s + |needle|] == needle
  }

  /** The search behind `str::find`, from position from on. */
  function FindFrom(hay: Stripes, needle: Stripes, from: nat): (r: Option<nat>)
    ensures r.Some? ==> from <= r.value && OccursAt(hay, needle, r.value)
    ensures r.Some? ==> forall s: nat :: from <= s < r.value ==> !OccursAt(hay, needle, s)
    ensures r.None? ==> forall s: nat :: from <= s ==> !OccursAt(hay, needle, s)
    decreases |hay| - from
  {
    if from + |needle| > |hay| then None
    else if OccursAt(hay, needle, from) then Some(from)
    else FindFrom(hay, needle, from + 1)
  }

  /** `str::find`: the first position where needle occurs in hay. */
  function Find(hay: Stripes, needle: Stripes): (r: Option<nat>)
    ensures r.Some? ==> OccursAt(hay, needle, r.value) && forall s: nat :: s < r.value ==> !OccursAt(hay, needle, s)
    ensures r.None? ==> forall s: nat :: !OccursAt(hay, needle, s)
  {
    FindFrom(hay, needle, 0)
  }

  /** An occurrence in a suffix is an occurrence in the whole, shifted. */
  lemma OccursInSuffix(hay: Stripes, needle: Stripes, idx: nat, s: nat)
    requires idx <= |hay|
    ensures OccursAt(hay[idx..], needle, s) <==> OccursAt(hay, needle, idx + s)
  {
    if idx + s + |needle| <= |hay| {
      assert hay[idx..][s..s + |needle|] == hay[idx + s..idx + s + |needle|];
    }
  }

  /** No occurrence in the suffix from idx: none in the whole from idx on. */
  lemma FindNoneFrom(hay: Stripes, needle: Stripes, idx: nat)
    requires idx <= |hay| && Find(hay[idx..], needle).None?
    ensures forall s: nat :: idx <= s ==> !OccursAt(hay, needle, s)
  {
    forall s: nat | idx <= s
      ensures !OccursAt(hay, needle, s)
    {
      OccursInSuffix(hay, needle, idx, s - idx);
    }
  }

  /** The first occurrence in the suffix from idx, read in the whole; an empty
      needle is found at once. */
  lemma FindSomeFrom(hay: Stripes, needle: Stripes, idx: nat, f: nat)
    requires idx <= |hay| && Find(hay[idx..], needle) == Some(f)
    ensures OccursAt(hay, needle, idx + f)
    ensures forall s: nat :: idx <= s < idx + f ==> !OccursAt(hay, needle, s)
    ensures idx + f < |hay| || (|needle| == 0 && f == 0)
  {
    OccursInSuffix(hay, needle, idx, f);
    forall s: nat | idx <= s < idx + f
      ensures !OccursAt(hay, needle, s)
    {
      OccursInSuffix(hay, needle, idx, s - idx);
    }
    if |needle| == 0 {
      assert OccursAt(hay[idx..], needle, 0);
    }
  }

  type Match = (Stripes, (nat, nat))

  /** A reported match: a towel, and the span of pattern it covers. The
      search stops before position |pattern|, so a match starts inside the
      pattern unless the pattern is empty. */
  ghost predicate SoundMatch(m: Match, towels: seq<Stripes>, pattern: Stripes)
  {
    m.0 in towels && m.1.1 == m.1.0 + |m.0| && OccursAt(pattern, m.0, m.1.0)
    && (m.1.0 < |pattern| || m.1.0 == 0)
  }

  /** m is an occurrence of towel in pattern. */
  ghost predicate TowelMatch(m: Match, towel: Stripes, pattern: Stripes)
  {
    m.0 == towel && m.1.1 == m.1.0 + |towel| && OccursAt(pattern, towel, m.1.0)
  }

  /** The inner loop of `match_towels_in_pattern` for one towel: every
      occurrence, overlapping ones included, found by searching again one
      position after each hit, until the search start leaves the pattern. */
  method MatchTowel(towel: Stripes, pattern: Stripes) returns (found: seq<Match>)
    ensures forall m <- found :: TowelMatch(m, towel, pattern)
    ensures forall m <- found :: m.1.0 < |pattern| || m.1.0 == 0
    ensures forall s: nat :: OccursAt(pattern, towel, s) && (s < |pattern| || s == 0) ==>
      (towel, (s, s + |towel|)) in found
  {
    found := [];
    var idx := 0;
    while true
      invariant idx < |pattern| || idx == 0
      invariant forall m <- found :: TowelMatch(m, towel, pattern)
      invariant forall m <- found :: m.1.0 < idx && (m.1.0 < |pattern| || m.1.0 == 0)
      invariant forall s: nat :: s < idx && OccursAt(pattern, towel, s) ==> (towel, (s, s + |towel|)) in found
      decreases |pattern| - idx
    {
      var first := Find(pattern[idx..], towel);
      if first.None? {
        FindNoneFrom(pattern, towel, idx);
        break;
      }
      var f := first.value;
      FindSomeFrom(pattern, towel, idx, f);
      var m: Match := (towel, (idx + f, idx + f + |towel|));
      found := found + [m];
      idx := idx + f + 1;
      if idx >= |pattern| {
        break;
      }
    }
  }

  /** `match_towels_in_pattern`: the matches of every towel, towel by towel. */
  method MatchTowelsInPattern(towels: seq<Stripes>, pattern: Stripes) returns (matches: seq<Match>)
    ensures forall m <- matches :: SoundMatch(m, towels, pattern)
    ensures forall t, s: nat :: t in towels && OccursAt(pattern, t, s) && (s < |pattern| || s == 0) ==>
      (t, (s, s + |t|)) in matches
  {
    matches := [];
    for ti := 0 to |towels|
      invariant forall m <- matches :: SoundMatch(m, towels, pattern)
      invariant forall t, s: nat :: t in towels[..ti] && OccursAt(pattern, t, s) && (s < |pattern| || s == 0) ==>
        (t, (s, s + |t|)) in matches
    {
      var found := MatchTowel(towels[ti], pattern);
      assert towels[ti] in towels;
      matches := matches + found;
      assert towels[..ti + 1] == towels[..ti] + [towels[ti]];
    }
    assert towels[..|towels|] == towels;
  }

  /** The pieces put back together, in order. */
  function Concat(pieces: seq<Stripes>): (r: Stripes)
  {
    if |pieces| == 0 then [] else Concat(pieces[..|pieces| - 1]) + pieces[|pieces| - 1]
  }

  /** pieces cut design into consecutive nonempty towels. */
  ghost predicate IsSplit(pieces: seq<Stripes>, design: Stripes, towels: seq<Stripes>)
  {
    Concat(pieces) == design && forall q <- pieces :: q != [] && q in towels
  }

  function AppendPiece(splits: seq<seq<Stripes>>, q: Stripes): (r: seq<seq<Stripes>>)
    ensures |r| == |splits| && forall k :: 0 <= k < |r| ==> r[k] == splits[k] + [q]
  {
    seq(|splits|, k requires 0 <= k < |splits| => splits[k] + [q])
  }

  /** Every way to cut design into towels, grouped by where the last piece
      starts: the reference the matrix count is measured against. */
  function Splits(design: Stripes, towels: seq<Stripes>): seq<seq<Stripes>>
    decreases |design|, 1, 0
  {
    if |design| == 0 then [[]] else SplitsFrom(design, towels, 0)
  }

  /** The cuts of design whose last piece starts at col or later. */
  function SplitsFrom(design: Stripes, towels: seq<Stripes>, col: nat): seq<seq<Stripes>>
    requires col <= |design|
    decreases |design|, 0, |design| - col
  {
    if col == |design| then []
    else
      (if design[col..] in towels then AppendPiece(Splits(design[..col], towels), design[col..]) else [])
      + SplitsFrom(design, towels, col + 1)
  }

  lemma ConcatSnoc(pieces: seq<Stripes>, q: Stripes)
    ensures Concat(pieces + [q]) == Concat(pieces) + q
  {
    assert (pieces + [q])[..|pieces|] == pieces;
  }

  /** Every listed cut is a cut. */
  lemma {:induction false} SplitsAreSplits(design: Stripes, towels: seq<Stripes>)
    ensures forall pieces <- Splits(design, towels) :: IsSplit(pieces, design, towels)
    decreases |design|, 1, 0
  {
    if |design| > 0 {
      SplitsFromAreSplits(design, towels, 0);
    }
  }

  lemma {:induction false} SplitsFromAreSplits(design: Stripes, towels: seq<Stripes>, col: nat)
    requires col <= |design|
    ensures forall pieces <- SplitsFrom(design, towels, col) :: IsSplit(pieces, design, towels)
    decreases |design|, 0, |design| - col
  {
    if col < |design| {
      SplitsFromAreSplits(design, towels, col + 1);
      if design[col..] in towels {
        var q := design[col..];
        SplitsAreSplits(design[..col], towels);
        var group := AppendPiece(Splits(design[..col], towels), q);
        forall pieces <- group
          ensures IsSplit(pieces, design, towels)
        {
          var k :| 0 <= k < |group| && group[k] == pieces;
          var init := Splits(design[..col], towels)[k];
          assert init in Splits(design[..col], towels);
          ConcatSnoc(init, q);
          assert design[..col] + design[col..] == design;
          assert forall p <- pieces :: p in init || p == q;
        }
      }
    }
  }

  /** The cuts of the group starting at col are among those from any c <= col. */
  lemma {:induction false} GroupInSplitsFrom(design: Stripes, towels: seq<Stripes>, c: nat, col: nat, pieces: seq<Stripes>)
    requires c <= col < |design| && design[col..] in towels
    requires pieces in AppendPiece(Splits(design[..col], towels), design[col..])
    ensures pieces in SplitsFrom(design, towels, c)
    decreases col - c
  {
    if c < col {
      GroupInSplitsFrom(design, towels, c + 1, col, pieces);
    }
  }

  /** Every cut is listed. */
  lemma {:induction false} SplitsComplete(pieces: seq<Stripes>, design: Stripes, towels: seq<Stripes>)
    requires IsSplit(pieces, design, towels)
    ensures pieces in Splits(design, towels)
    decreases |pieces|
  {
    if |pieces| > 0 {
      var init, q := pieces[..|pieces| - 1], pieces[|pieces| - 1];
      assert pieces == init + [q];
      ConcatSnoc(init, q);
      assert q in pieces;
      var col := |design| - |q|;
      assert design[..col] == Concat(init) && design[col..] == q;
      assert forall p <- init :: p in pieces;
      SplitsComplete(init, design[..col], towels);
      var splits := Splits(design[..col], towels);
      var k :| 0 <= k < |splits| && splits[k] == init;
      assert AppendPiece(splits, q)[k] == pieces;
      GroupInSplitsFrom(design, towels, 0, col, pieces);
    }
  }

  ghost predicate Distinct<T>(s: seq<T>)
  {
    forall j, k :: 0 <= j < k < |s| ==> s[j] != s[k]
  }

  /** Every cut from col on ends in the suffix of some c >= col. */
  lemma {:induction false} SplitsFromLast(design: Stripes, towels: seq<Stripes>, col: nat)
    requires col <= |design|
    ensures forall pieces <- SplitsFrom(design, towels, col) ::
      |pieces| > 0 && |pieces[|pieces| - 1]| <= |design| - col
    decreases |design| - col
  {
    if col < |design| {
      SplitsFromLast(design, towels, col + 1);
    }
  }

  lemma DistinctAppend<T>(a: seq<T>, b: seq<T>)
    requires Distinct(a) && Distinct(b) && forall x <- a :: x !in b
    ensures Distinct(a + b)
  {
    forall j, k | 0 <= j < k < |a + b|
      ensures (a + b)[j] != (a + b)[k]
    {
      if j < |a| && k >= |a| {
        assert (a + b)[j] in a && (a + b)[k] == b[k - |a|];
      }
    }
  }

  /** No cut is listed twice, so the count is the number of cuts. */
  lemma {:induction false} SplitsDistinct(design: Stripes, towels: seq<Stripes>)
    ensures Distinct(Splits(design, towels))
    decreases |design|, 1, 0
  {
    if |design| > 0 {
      SplitsFromDistinct(design, towels, 0);
    }
  }

  lemma {:induction false} SplitsFromDistinct(design: Stripes, towels: seq<Stripes>, col: nat)
    requires col <= |design|
    ensures Distinct(SplitsFrom(design, towels, col))
    decreases |design|, 0, |design| - col
  {
    if col < |design| {
      SplitsFromDistinct(design, towels, col + 1);
      if design[col..] in towels {
        var q := design[col..];
        var inner := Splits(design[..col], towels);
        SplitsDistinct(design[..col], towels);
        var group := AppendPiece(inner, q);
        forall j, k | 0 <= j < k < |group|
          ensures group[j] != group[k]
        {
          assert group[j][..|inner[j]|] == inner[j] && group[k][..|inner[k]|] == inner[k];
        }
        var rest := SplitsFrom(design, towels, col + 1);
        SplitsFromLast(design, towels, col + 1);
        forall x <- group
          ensures x !in rest
        {
          assert x[|x| - 1] == q;
        }
        DistinctAppend(group, rest);
      }
    }
  }

  /** The matrix count recurrence: the cuts of design[..i] are those whose
      last piece starts at some col < i and is a towel. */
  lemma PrefixDecomposes(pattern: Stripes, towels: seq<Stripes>, i: nat, col: nat)
    requires col < i <= |pattern|
    ensures pattern[..i][..col] == pattern[..col] && pattern[..i][col..] == pattern[col..i]
    ensures |SplitsFrom(pattern[..i], towels, col)|
      == (if pattern[col..i] in towels then |Splits(pattern[..col], towels)| else 0)
         + |SplitsFrom(pattern[..i], towels, col + 1)|
  {
    assert pattern[..i][..col] == pattern[..col] && pattern[..i][col..] == pattern[col..i];
  }

  /** The (start, end) spans of the matches. */
  ghost function Spans(matches: seq<Match>): set<(nat, nat)>
  {
    set m <- matches :: m.1
  }

  /** The adjacency matrix holds 1 exactly at the spans. */
  ghost predicate AdjHolds(data: seq<nat>, n: nat, spans: set<(nat, nat)>)
  {
    n > 0 && |data| == n * n
    && forall p :: 0 <= p < |data| ==> data[p] == if CoordAt(p, n) in spans then 1 else 0
  }

  /** The same, restricted to the cells above the diagonal. */
  ghost predicate UpperHolds(data: seq<nat>, n: nat, spans: set<(nat, nat)>)
  {
    n > 0 && |data| == n * n
    && forall p :: 0 <= p < |data| && CoordAt(p, n).0 < CoordAt(p, n).1 ==>
      data[p] == if CoordAt(p, n) in spans then 1 else 0
  }

  lemma AdjSet(data: seq<nat>, n: nat, spans: set<(nat, nat)>, coord: (nat, nat))
    requires AdjHolds(data, n, spans) && coord.0 < n && coord.1 < n
    ensures Linear(coord, n) < |data| && AdjHolds(data[Linear(coord, n) := 1], n, spans + {coord})
  {
    LinearInBounds(coord, n, n);
    forall p | 0 <= p < |data|
      ensures data[Linear(coord, n) := 1][p] == if CoordAt(p, n) in spans + {coord} then 1 else 0
    {
      CoordAtInBounds(p, n, n);
    }
  }

  /** Reading the matrix above the diagonal. */
  lemma UpperAt(data: seq<nat>, n: nat, spans: set<(nat, nat)>, coord: (nat, nat))
    requires UpperHolds(data, n, spans) && coord.0 < coord.1 < n
    ensures Linear(coord, n) < |data| && data[Linear(coord, n)] == if coord in spans then 1 else 0
  {
    LinearInBounds(coord, n, n);
  }

  /** Between two positions the matches give a span exactly when the piece
      between them is a towel. */
  lemma SpanIsTowel(matches: seq<Match>, towels: seq<Stripes>, pattern: Stripes, c: nat, i: nat)
    requires c < i <= |pattern|
    requires forall m <- matches :: SoundMatch(m, towels, pattern)
    requires forall t, s: nat :: t in towels && OccursAt(pattern, t, s) && (s < |pattern| || s == 0) ==>
      (t, (s, s + |t|)) in matches
    ensures (c, i) in Spans(matches) <==> pattern[c..i] in towels
  {
    if (c, i) in Spans(matches) {
      var m :| m in matches && m.1 == (c, i);
      assert SoundMatch(m, towels, pattern);
    }
    if pattern[c..i] in towels {
      assert OccursAt(pattern, pattern[c..i], c);
      assert (pattern[c..i], (c, i)) in matches;
    }
  }

  /** The spans of pattern that are towels. */
  ghost function TowelSpans(pattern: Stripes, towels: seq<Stripes>): set<(nat, nat)>
  {
    set c: nat, j: nat | c < j <= |pattern| && pattern[c..j] in towels :: (c, j)
  }

  lemma TowelSpansMember(pattern: Stripes, towels: seq<Stripes>, c: nat, j: nat)
    ensures (c, j) in TowelSpans(pattern, towels) <==> c < j <= |pattern| && pattern[c..j] in towels
  {
  }

  /** Above the diagonal a coordinate is a match span exactly when it is a
      towel span (an empty towel also matches at (0, 0), on the diagonal,
      which the count never reads). */
  lemma SpansAgree(matches: seq<Match>, towels: seq<Stripes>, pattern: Stripes, c: nat, j: nat)
    requires forall m <- matches :: SoundMatch(m, towels, pattern)
    requires forall t, s: nat :: t in towels && OccursAt(pattern, t, s) && (s < |pattern| || s == 0) ==>
      (t, (s, s + |t|)) in matches
    requires c < j <= |pattern|
    ensures (c, j) in Spans(matches) <==> (c, j) in TowelSpans(pattern, towels)
  {
    TowelSpansMember(pattern, towels, c, j);
    SpanIsTowel(matches, towels, pattern, c, j);
  }

  /** Above the diagonal the matrix built from the matches is the matrix of
      towel spans. */
  lemma AdjIsTowels(data: seq<nat>, matches: seq<Match>, towels: seq<Stripes>, pattern: Stripes)
    requires AdjHolds(data, |pattern| + 1, Spans(matches))
    requires forall m <- matches :: SoundMatch(m, towels, pattern)
    requires forall t, s: nat :: t in towels && OccursAt(pattern, t, s) && (s < |pattern| || s == 0) ==>
      (t, (s, s + |t|)) in matches
    ensures UpperHolds(data, |pattern| + 1, TowelSpans(pattern, towels))
  {
    var n := |pattern| + 1;
    forall p | 0 <= p < |data| && CoordAt(p, n).0 < CoordAt(p, n).1
      ensures data[p] == if CoordAt(p, n) in TowelSpans(pattern, towels) then 1 else 0
    {
      CoordAtInBounds(p, n, n);
      SpansAgree(matches, towels, pattern, CoordAt(p, n).0, CoordAt(p, n).1);
    }
  }

  /** Writes a 1 at every match span into a zero matrix. */
  method FillAdjacency(adj: Grid<nat>, matches: seq<Match>)
    requires adj.Valid() && 0 < adj.rows == adj.cols && forall p :: 0 <= p < |adj.data| ==> adj.data[p] == 0
    requires forall m <- matches :: m.1.0 < adj.rows && m.1.1 < adj.rows
    modifies adj
    ensures adj.Valid() && AdjHolds(adj.data, adj.rows, Spans(matches))
  {
    ghost var n := adj.rows;
    assert Spans(matches[..0]) == {};
    for k := 0 to |matches|
      invariant adj.Valid() && AdjHolds(adj.data, n, Spans(matches[..k]))
    {
      var span := matches[k].1;
      assert matches[k] in matches;
      AdjSet(adj.data, n, Spans(matches[..k]), span);
      adj.Set(span, 1);
      assert matches[..k + 1] == matches[..k] + [matches[k]];
      assert Spans(matches[..k + 1]) == Spans(matches[..k]) + {span};
    }
    assert matches[..|matches|] == matches;
  }

  /** The inner loop of the count: the arrangements reaching position i,
      summed over the position col where the last towel starts. */
  method PathsToRow(adj: Grid<nat>, paths: array<nat>, pattern: Stripes, towels: seq<Stripes>, i: nat)
    returns (pathsToRow: nat)
    requires 0 < i < paths.Length == adj.rows == adj.cols == |pattern| + 1
    requires UpperHolds(adj.data, adj.rows, TowelSpans(pattern, towels))
    requires forall c :: 0 <= c < i ==> paths[c] == |Splits(pattern[..c], towels)|
    ensures pathsToRow == |Splits(pattern[..i], towels)|
  {
    pathsToRow := 0;
    for col := 0 to i
      invariant pathsToRow + |SplitsFrom(pattern[..i], towels, col)| == |Splits(pattern[..i], towels)|
    {
      PrefixDecomposes(pattern, towels, i, col);
      UpperAt(adj.data, adj.rows, TowelSpans(pattern, towels), (col, i));
      TowelSpansMember(pattern, towels, col, i);
      var a := adj.Get((col, i));
      assert a == if pattern[col..i] in towels then 1 else 0;
      pathsToRow := pathsToRow + a * paths[col];
    }
  }

  /** `count_all_towel_arrangements_matrix`: the number of ways to cut the
      pattern into towels, counted position by position over the matrix of
      matched spans. */
  method CountAllTowelArrangements(towels: seq<Stripes>, pattern: Stripes) returns (count: nat)
    ensures count == |Splits(pattern, towels)|
  {
    var matches := MatchTowelsInPattern(towels, pattern);
    var n := |pattern| + 1;
    var adj := new Grid<nat>.Zeros(n, n, 0);
    forall m <- matches
      ensures m.1.0 < n && m.1.1 < n
    {
      assert SoundMatch(m, towels, pattern);
    }
    FillAdjacency(adj, matches);
    AdjIsTowels(adj.data, matches, towels, pattern);
    var paths := new nat[n](_ => 0);
    paths[0] := 1;
    assert pattern[..0] == [];
    for i := 1 to n
      invariant paths.Length == adj.rows == adj.cols == n
      invariant UpperHolds(adj.data, adj.rows, TowelSpans(pattern, towels))
      invariant forall c :: 0 <= c < i ==> paths[c] == |Splits(pattern[..c], towels)|
    {
      var pathsToRow := PathsToRow(adj, paths, pattern, towels, i);
      paths[i] := pathsToRow;
    }
    count := paths[|pattern|];
    assert pattern[..|pattern|] == pattern;
  }

  /** The listed cuts are exactly the cuts, each once: the count of the
      matrix method is the number of ways to arrange the towels. */
  lemma ArrangementsAreCuts(design: Stripes, towels: seq<Stripes>)
    ensures Distinct(Splits(design, towels))
    ensures forall pieces :: pieces in Splits(design, towels) <==> IsSplit(pieces, design, towels)
  {
    SplitsDistinct(design, towels);
    SplitsAreSplits(design, towels);
    forall pieces | IsSplit(pieces, design, towels)
      ensures pieces in Splits(design, towels)
    {
      SplitsComplete(pieces, design, towels);
    }
  }

  /** `is_pattern_possible`: some arrangement of towels makes the pattern. */
  method IsPatternPossible(towels: seq<Stripes>, pattern: Stripes) returns (possible: bool)
    ensures possible <==> Possible(pattern, towels)
  {
    var count := CountAllTowelArrangements(towels, pattern);
    possible := count > 0;
    ArrangementsAreCuts(pattern, towels);
    if possible {
      assert IsSplit(Splits(pattern, towels)[0], pattern, towels);
    }
  }

  /** Some arrangement of towels makes the pattern. */
  ghost predicate Possible(pattern: Stripes, towels: seq<Stripes>)
  {
    exists pieces :: IsSplit(pieces, pattern, towels)
  }

  /** The number of patterns that can be made. */
  ghost function PossibleCount(towels: seq<Stripes>, patterns: seq<Stripes>): nat
  {
    if |patterns| == 0 then 0
    else
      PossibleCount(towels, patterns[..|patterns| - 1])
      + if Possible(patterns[|patterns| - 1], towels) then 1 else 0
  }

  /** The number of arrangements summed over the patterns. */
  function ArrangementTotal(towels: seq<Stripes>, patterns: seq<Stripes>): nat
  {
    if |patterns| == 0 then 0
    else ArrangementTotal(towels, patterns[..|patterns| - 1]) + |Splits(patterns[|patterns| - 1], towels)|
  }

  /** The two answers of the puzzle: how many patterns are possible, and how
      many arrangements there are in all. */
  method Answers(towels: seq<Stripes>, patterns: seq<Stripes>) returns (possible: nat, arrangements: nat)
    ensures possible == PossibleCount(towels, patterns)
    ensures arrangements == ArrangementTotal(towels, patterns)
  {
    possible, arrangements := 0, 0;
    for k := 0 to |patterns|
      invariant possible == PossibleCount(towels, patterns[..k])
      invariant arrangements == ArrangementTotal(towels, patterns[..k])
    {
      assert patterns[..k + 1][..k] == patterns[..k];
      var ok := IsPatternPossible(towels, patterns[k]);
      if ok {
        possible := possible + 1;
      }
      var count := CountAllTowelArrangements(towels, patterns[k]);
      arrangements := arrangements + count;
    }
    assert patterns[..|patterns|] == patterns;
  }

  /** A pattern counts as possible exactly when it has an arrangement, so
      the first answer never exceeds the second. */
  lemma {:induction false} PossibleAtMostArrangements(towels: seq<Stripes>, patterns: seq<Stripes>)
    ensures PossibleCount(towels, patterns) <= ArrangementTotal(towels, patterns)
  {
    if |patterns| > 0 {
      var last := patterns[|patterns| - 1];
      PossibleAtMostArrangements(towels, patterns[..|patterns| - 1]);
      ArrangementsAreCuts(last, towels);
      if Possible(last, towels) {
        var pieces :| IsSplit(pieces, last, towels);
        assert pieces in Splits(last, towels);
      }
    }
  }
}
