/** Needleman-Wunsch alignment of two sequences of bases. */
module SeqAlign {
  datatype Arrow = PtrNone | PtrGap1 | PtrGap2 | PtrBase

  /** A substitution matrix over the bases, and the gap penalty that is subtracted. */
  datatype Scoring = Scoring(subst: seq<seq<int>>, gapPen: int) {
    predicate Valid() {
      |subst| == 4 && forall i :: 0 <= i < 4 ==> |subst[i]| == 4
    }

    function Sub(x: char, y: char): int
      requires Valid() && IsBase(x) && IsBase(y)
    {
      subst[BaseIdx(x)][BaseIdx(y)]
    }
  }

  predicate IsBase(c: char) {
    c == 'A' || c == 'G' || c == 'C' || c == 'T'
  }

  predicate Bases(s: string) {
    forall k :: 0 <= k < |s| ==> IsBase(s[k])
  }

  function BaseIdx(c: char): (i: nat)
    requires IsBase(c)
    ensures i < 4
  {
    match c
    case 'A' => 0
    case 'G' => 1
    case 'C' => 2
    case _ => 3
  }

  // ---- What an alignment is and what it is worth ----

  function Ungap(s: string): string {
    if s == "" then "" else (if s[0] == '-' then "" else [s[0]]) + Ungap(s[1..])
  }

  predicate Column(x: char, y: char) {
    (IsBase(x) || x == '-') && (IsBase(y) || y == '-') && !(x == '-' && y == '-')
  }

  /** Two rows of equal length over bases and gaps, without a column of two gaps. */
  predicate Rows(s: string, t: string) {
    |s| == |t| && forall k :: 0 <= k < |s| ==> Column(s[k], t[k])
  }

  predicate IsAlignment(s: string, t: string, a: string, b: string) {
    Rows(s, t) && Ungap(s) == a && Ungap(t) == b
  }

  function ColumnScore(p: Scoring, x: char, y: char): int
    requires p.Valid() && Column(x, y)
  {
    if x == '-' || y == '-' then -p.gapPen else p.Sub(x, y)
  }

  function Score(p: Scoring, s: string, t: string): int
    requires p.Valid() && Rows(s, t)
  {
    if s == "" then 0 else ColumnScore(p, s[0], t[0]) + Score(p, s[1..], t[1..])
  }

  /** How the matrix is read: rows by the first sequence and columns by the second, in the order
      A, G, C, T. */
  lemma MatrixOrder(p: Scoring)
    requires p.Valid()
    ensures Rows("A", "G") && Score(p, "A", "G") == p.subst[0][1]
    ensures Rows("C", "T") && Score(p, "C", "T") == p.subst[2][3]
    ensures Rows("T", "A") && Score(p, "T", "A") == p.subst[3][0]
    ensures Rows("G", "-") && Score(p, "G", "-") == -p.gapPen
    ensures Rows("-", "G") && Score(p, "-", "G") == -p.gapPen
  {
  }

  // ---- The recurrence ----

  function BothExtended(p: Scoring, a: string, b: string, i: nat, j: nat): int
    requires p.Valid() && Bases(a) && Bases(b) && 0 < i <= |a| && 0 < j <= |b|
    decreases i + j, 0
  {
    Best(p, a, b, i - 1, j - 1) + p.Sub(a[i - 1], b[j - 1])
  }

  function GapInSecond(p: Scoring, a: string, b: string, i: nat, j: nat): int
    requires p.Valid() && Bases(a) && Bases(b) && 0 < i <= |a| && j <= |b|
    decreases i + j, 0
  {
    Best(p, a, b, i - 1, j) - p.gapPen
  }

  function GapInFirst(p: Scoring, a: string, b: string, i: nat, j: nat): int
    requires p.Valid() && Bases(a) && Bases(b) && i <= |a| && 0 < j <= |b|
    decreases i + j, 0
  {
    Best(p, a, b, i, j - 1) - p.gapPen
  }

  /** The entry F[i][j]. */
  function Best(p: Scoring, a: string, b: string, i: nat, j: nat): int
    requires p.Valid() && Bases(a) && Bases(b) && i <= |a| && j <= |b|
    decreases i + j, 1
  {
    if i == 0 then 0 - j * p.gapPen
    else if j == 0 then 0 - i * p.gapPen
    else ThirdOfSorted(BothExtended(p, a, b, i, j), GapInSecond(p, a, b, i, j), GapInFirst(p, a, b, i, j)).0
  }

  /** The last of three scored pointers after a stable sort by score. */
  function ThirdOfSorted(both: int, gap2: int, gap1: int): (r: (int, Arrow))
    ensures r.0 >= both && r.0 >= gap2 && r.0 >= gap1
    ensures match r.1
            case PtrGap1 => r.0 == gap1
            case PtrGap2 => r.0 == gap2
            case PtrBase => r.0 == both
            case PtrNone => false
    ensures r.1 == PtrGap2 ==> r.0 > gap1
    ensures r.1 == PtrBase ==> r.0 > gap1 && r.0 > gap2
  {
    if gap1 >= gap2 && gap1 >= both then (gap1, PtrGap1)
    else if gap2 >= both then (gap2, PtrGap2)
    else (both, PtrBase)
  }

  /** The place of an entry in the list before sorting. */
  function Rank(t: Arrow): nat {
    match t
    case PtrBase => 0
    case PtrGap2 => 1
    case _ => 2
  }

  /** e goes before f in a stable sort by score. */
  predicate SortsBefore(e: (int, Arrow), f: (int, Arrow)) {
    e.0 < f.0 || (e.0 == f.0 && Rank(e.1) < Rank(f.1))
  }

  /** Of the list that the loop builds, this is the entry that a stable sort by score puts last. */
  lemma LastInStableSort(both: int, gap2: int, gap1: int, last: (int, Arrow))
    ensures last == ThirdOfSorted(both, gap2, gap1) <==>
      var list := [(both, PtrBase), (gap2, PtrGap2), (gap1, PtrGap1)];
      last in list && forall k :: 0 <= k < 3 && list[k] != last ==> SortsBefore(list[k], last)
  {
    var list := [(both, PtrBase), (gap2, PtrGap2), (gap1, PtrGap1)];
    assert list[0] == (both, PtrBase) && list[1] == (gap2, PtrGap2) && list[2] == (gap1, PtrGap1);
  }

  /** The entry TB[i][j]. */
  function BestArrow(p: Scoring, a: string, b: string, i: nat, j: nat): Arrow
    requires p.Valid() && Bases(a) && Bases(b) && i <= |a| && j <= |b|
  {
    if i == 0 && j == 0 then PtrNone
    else if i == 0 then PtrGap1
    else if j == 0 then PtrGap2
    else ThirdOfSorted(BothExtended(p, a, b, i, j), GapInSecond(p, a, b, i, j), GapInFirst(p, a, b, i, j)).1
  }

  /** The first column, the rows before i, and row i before column j are filled. */
  ghost predicate Filled(p: Scoring, a: string, b: string, F: array2<int>, TB: array2<Arrow>, i: nat, j: nat)
    requires p.Valid() && Bases(a) && Bases(b)
    reads F, TB
  {
    && F.Length0 == TB.Length0 == |a| + 1 && F.Length1 == TB.Length1 == |b| + 1
    && forall x: nat, y: nat :: x <= |a| && y <= |b| && (x < i || y == 0 || (x == i && y < j)) ==>
      F[x, y] == Best(p, a, b, x, y) && TB[x, y] == BestArrow(p, a, b, x, y)
  }

  /** The inner loop. */
  method FillRow(a: string, b: string, p: Scoring, F: array2<int>, TB: array2<Arrow>, i: nat)
    requires p.Valid() && Bases(a) && Bases(b) && 0 < i <= |a| && Filled(p, a, b, F, TB, i, 0)
    modifies F, TB
    ensures Filled(p, a, b, F, TB, i + 1, 0)
  {
    hide Best, BestArrow, ThirdOfSorted;
    for j: nat := 1 to |b| + 1
      invariant Filled(p, a, b, F, TB, i, j)
    {
      Inner(p, a, b, i, j);
      var bothExtended := F[i - 1, j - 1] + p.Sub(a[i - 1], b[j - 1]);
      var gapSeq2 := F[i - 1, j] - p.gapPen;
      var gapSeq1 := F[i, j - 1] - p.gapPen;
      var result := ThirdOfSorted(bothExtended, gapSeq2, gapSeq1);
      F[i, j] := result.0;
      TB[i, j] := result.1;
    }
  }

  method SeqalignDP(a: string, b: string, p: Scoring) returns (score: int, F: array2<int>, TB: array2<Arrow>)
    requires p.Valid() && Bases(a) && Bases(b)
    ensures F.Length0 == TB.Length0 == |a| + 1 && F.Length1 == TB.Length1 == |b| + 1
    ensures forall i: nat, j: nat :: i <= |a| && j <= |b| ==>
      F[i, j] == Best(p, a, b, i, j) && TB[i, j] == BestArrow(p, a, b, i, j)
    ensures score == Best(p, a, b, |a|, |b|)
  {
    hide Best, BestArrow, ThirdOfSorted;
    F := new int[|a| + 1, |b| + 1]((i, j) => 0);
    TB := new Arrow[|a| + 1, |b| + 1]((i, j) => PtrNone);
    Corner(p, a, b);
    for i: nat := 1 to |a| + 1
      invariant forall x: nat :: x < i ==> F[x, 0] == Best(p, a, b, x, 0) && TB[x, 0] == BestArrow(p, a, b, x, 0)
    {
      FirstColumn(p, a, b, i);
      F[i, 0] := 0 - i * p.gapPen;
      TB[i, 0] := PtrGap2;
    }
    for j: nat := 1 to |b| + 1
      invariant forall x: nat :: x <= |a| ==> F[x, 0] == Best(p, a, b, x, 0) && TB[x, 0] == BestArrow(p, a, b, x, 0)
      invariant forall y: nat :: y < j ==> F[0, y] == Best(p, a, b, 0, y) && TB[0, y] == BestArrow(p, a, b, 0, y)
    {
      FirstRow(p, a, b, j);
      F[0, j] := 0 - j * p.gapPen;
      TB[0, j] := PtrGap1;
    }
    for i: nat := 1 to |a| + 1
      invariant Filled(p, a, b, F, TB, i, 0)
    {
      FillRow(a, b, p, F, TB, i);
    }
    score := F[|a|, |b|];
  }

  lemma Corner(p: Scoring, a: string, b: string)
    requires p.Valid() && Bases(a) && Bases(b)
    ensures Best(p, a, b, 0, 0) == 0 && BestArrow(p, a, b, 0, 0) == PtrNone
  {
  }

  lemma FirstColumn(p: Scoring, a: string, b: string, i: nat)
    requires p.Valid() && Bases(a) && Bases(b) && 0 < i <= |a|
    ensures Best(p, a, b, i, 0) == 0 - i * p.gapPen && BestArrow(p, a, b, i, 0) == PtrGap2
  {
  }

  lemma FirstRow(p: Scoring, a: string, b: string, j: nat)
    requires p.Valid() && Bases(a) && Bases(b) && 0 < j <= |b|
    ensures Best(p, a, b, 0, j) == 0 - j * p.gapPen && BestArrow(p, a, b, 0, j) == PtrGap1
  {
  }

  lemma Inner(p: Scoring, a: string, b: string, i: nat, j: nat)
    requires p.Valid() && Bases(a) && Bases(b) && 0 < i <= |a| && 0 < j <= |b|
    ensures var r := ThirdOfSorted(Best(p, a, b, i - 1, j - 1) + p.Sub(a[i - 1], b[j - 1]),
                                   Best(p, a, b, i - 1, j) - p.gapPen, Best(p, a, b, i, j - 1) - p.gapPen);
            Best(p, a, b, i, j) == r.0 && BestArrow(p, a, b, i, j) == r.1
  {
  }

  // ---- No alignment scores more ----

  lemma UngapCons(c: char, s: string)
    ensures Ungap([c] + s) == (if c == '-' then "" else [c]) + Ungap(s)
  {
    assert ([c] + s)[1..] == s;
  }

  lemma {:induction false} UngapSnoc(s: string, c: char)
    ensures Ungap(s + [c]) == Ungap(s) + if c == '-' then "" else [c]
  {
    if s == "" {
      UngapCons(c, "");
      assert s + [c] == [c] + "";
    } else {
      UngapCons(s[0], s[1..]);
      UngapCons(s[0], s[1..] + [c]);
      assert s + [c] == [s[0]] + (s[1..] + [c]) && s == [s[0]] + s[1..];
      UngapSnoc(s[1..], c);
    }
  }

  lemma {:induction false} ScoreSnoc(p: Scoring, s: string, t: string, x: char, y: char)
    requires p.Valid() && Rows(s, t) && Column(x, y)
    ensures Rows(s + [x], t + [y]) && Score(p, s + [x], t + [y]) == Score(p, s, t) + ColumnScore(p, x, y)
  {
    if s == "" {
      assert s + [x] == [x] && t + [y] == [y];
    } else {
      assert (s + [x])[1..] == s[1..] + [x] && (t + [y])[1..] == t[1..] + [y];
      ScoreSnoc(p, s[1..], t[1..], x, y);
    }
  }

  /** F[i][j] bounds the score of every alignment of the two prefixes. */
  lemma {:induction false} NoneBetter(p: Scoring, a: string, b: string, i: nat, j: nat, s: string, t: string)
    requires p.Valid() && Bases(a) && Bases(b) && i <= |a| && j <= |b| && IsAlignment(s, t, a[..i], b[..j])
    ensures Score(p, s, t) <= Best(p, a, b, i, j)
    decreases |s|
  {
    if s != "" {
      var n := |s| - 1;
      var x, y := s[n], t[n];
      assert s == s[..n] + [x] && t == t[..n] + [y];
      ScoreSnoc(p, s[..n], t[..n], x, y);
      UngapSnoc(s[..n], x);
      UngapSnoc(t[..n], y);
      LastUngapped(a, i, Ungap(s[..n]), x);
      LastUngapped(b, j, Ungap(t[..n]), y);
      NoneBetter(p, a, b, if x == '-' then i else i - 1, if y == '-' then j else j - 1, s[..n], t[..n]);
      LastStep(p, a, b, i, j, x, y);
    }
  }

  lemma LastUngapped(a: string, i: nat, front: string, x: char)
    requires i <= |a| && a[..i] == front + if x == '-' then "" else [x]
    ensures if x == '-' then front == a[..i] else i > 0 && front == a[..i - 1] && x == a[i - 1]
  {
    if x != '-' {
      assert a[..i][|front|] == x;
      assert front == a[..i][..i - 1];
    }
  }

  /** Every way to extend an alignment by a column is considered. */
  lemma LastStep(p: Scoring, a: string, b: string, i: nat, j: nat, x: char, y: char)
    requires p.Valid() && Bases(a) && Bases(b) && i <= |a| && j <= |b| && Column(x, y)
    requires x != '-' ==> i > 0 && x == a[i - 1]
    requires y != '-' ==> j > 0 && y == b[j - 1]
    ensures Best(p, a, b, if x == '-' then i else i - 1, if y == '-' then j else j - 1) + ColumnScore(p, x, y) <=
      Best(p, a, b, i, j)
  {
  }

  // ---- The traceback ----

  lemma Prepend(p: Scoring, s: string, t: string, x: char, y: char)
    requires p.Valid() && Rows(s, t) && Column(x, y)
    ensures Rows([x] + s, [y] + t) && Score(p, [x] + s, [y] + t) == ColumnScore(p, x, y) + Score(p, s, t)
    ensures Ungap([x] + s) == (if x == '-' then "" else [x]) + Ungap(s)
    ensures Ungap([y] + t) == (if y == '-' then "" else [y]) + Ungap(t)
  {
    assert ([x] + s)[1..] == s && ([y] + t)[1..] == t;
  }

  /** The arrow names a way to reach the entry. */
  lemma FollowArrow(p: Scoring, a: string, b: string, i: nat, j: nat)
    requires p.Valid() && Bases(a) && Bases(b) && i <= |a| && j <= |b|
    ensures match BestArrow(p, a, b, i, j)
            case PtrNone => i == 0 && j == 0 && Best(p, a, b, i, j) == 0
            case PtrGap1 => j > 0 && Best(p, a, b, i, j) == Best(p, a, b, i, j - 1) - p.gapPen
            case PtrGap2 => i > 0 && Best(p, a, b, i, j) == Best(p, a, b, i - 1, j) - p.gapPen
            case PtrBase =>
              i > 0 && j > 0 && Best(p, a, b, i, j) == Best(p, a, b, i - 1, j - 1) + p.Sub(a[i - 1], b[j - 1])
  {
  }

  /** Some alignment of the two prefixes scores F[i][j]. */
  lemma {:induction false} Attained(p: Scoring, a: string, b: string, i: nat, j: nat) returns (s: string, t: string)
    requires p.Valid() && Bases(a) && Bases(b) && i <= |a| && j <= |b|
    ensures IsAlignment(s, t, a[..i], b[..j]) && Score(p, s, t) == Best(p, a, b, i, j)
    decreases i + j
  {
    hide Best, BestArrow, Ungap, Score, Rows;
    FollowArrow(p, a, b, i, j);
    match BestArrow(p, a, b, i, j)
    case PtrNone =>
      EmptyRows(p);
      s, t := "", "";
      assert a[..i] == "" && b[..j] == "";
    case PtrGap1 =>
      s, t := Attained(p, a, b, i, j - 1);
      s, t := Extend(p, s, t, '-', b[j - 1]);
      assert b[..j] == b[..j - 1] + [b[j - 1]];
    case PtrGap2 =>
      s, t := Attained(p, a, b, i - 1, j);
      s, t := Extend(p, s, t, a[i - 1], '-');
      assert a[..i] == a[..i - 1] + [a[i - 1]];
    case PtrBase =>
      s, t := Attained(p, a, b, i - 1, j - 1);
      s, t := Extend(p, s, t, a[i - 1], b[j - 1]);
      assert a[..i] == a[..i - 1] + [a[i - 1]] && b[..j] == b[..j - 1] + [b[j - 1]];
  }

  lemma Extend(p: Scoring, s: string, t: string, x: char, y: char) returns (u: string, v: string)
    requires p.Valid() && Rows(s, t) && Column(x, y)
    ensures Rows(u, v) && Score(p, u, v) == Score(p, s, t) + ColumnScore(p, x, y)
    ensures Ungap(u) == Ungap(s) + (if x == '-' then "" else [x])
    ensures Ungap(v) == Ungap(t) + (if y == '-' then "" else [y])
  {
    u, v := s + [x], t + [y];
    ScoreSnoc(p, s, t, x, y);
    UngapSnoc(s, x);
    UngapSnoc(t, y);
  }

  /** F[i][j] is the maximum score over all alignments of the two prefixes. */
  lemma BestIsMaximum(p: Scoring, a: string, b: string, i: nat, j: nat)
    requires p.Valid() && Bases(a) && Bases(b) && i <= |a| && j <= |b|
    ensures exists s, t :: IsAlignment(s, t, a[..i], b[..j]) && Score(p, s, t) == Best(p, a, b, i, j)
    ensures forall s, t :: IsAlignment(s, t, a[..i], b[..j]) ==> Score(p, s, t) <= Best(p, a, b, i, j)
  {
    hide Best, Ungap, Score, Rows;
    var u, v := Attained(p, a, b, i, j);
    forall s, t | IsAlignment(s, t, a[..i], b[..j]) ensures Score(p, s, t) <= Best(p, a, b, i, j) {
      NoneBetter(p, a, b, i, j, s, t);
    }
  }

  method Traceback(a: string, b: string, TB: array2<Arrow>, ghost p: Scoring) returns (s1: string, s2: string)
    requires p.Valid() && Bases(a) && Bases(b)
    requires TB.Length0 == |a| + 1 && TB.Length1 == |b| + 1
    requires forall i: nat, j: nat :: i <= |a| && j <= |b| ==> TB[i, j] == BestArrow(p, a, b, i, j)
    ensures IsAlignment(s1, s2, a, b) && Score(p, s1, s2) == Best(p, a, b, |a|, |b|)
    ensures forall s, t :: IsAlignment(s, t, a, b) ==> Score(p, s, t) <= Score(p, s1, s2)
  {
    hide Best, BestArrow, Ungap, Score, Rows;
    s1, s2 := "", "";
    var i: nat, j: nat := |a|, |b|;
    EmptyRows(p);
    while TB[i, j] != PtrNone
      invariant i <= |a| && j <= |b| && Rows(s1, s2)
      invariant Ungap(s1) == a[i..] && Ungap(s2) == b[j..]
      invariant Best(p, a, b, |a|, |b|) == Best(p, a, b, i, j) + Score(p, s1, s2)
      decreases i + j
    {
      FollowArrow(p, a, b, i, j);
      if TB[i, j] == PtrBase {
        Prepend(p, s1, s2, a[i - 1], b[j - 1]);
        s1, s2 := [a[i - 1]] + s1, [b[j - 1]] + s2;
        i, j := i - 1, j - 1;
      } else if TB[i, j] == PtrGap1 {
        Prepend(p, s1, s2, '-', b[j - 1]);
        s1, s2 := "-" + s1, [b[j - 1]] + s2;
        j := j - 1;
      } else {
        Prepend(p, s1, s2, a[i - 1], '-');
        s1, s2 := [a[i - 1]] + s1, "-" + s2;
        i := i - 1;
      }
    }
    FollowArrow(p, a, b, i, j);
    assert a[0..] == a && b[0..] == b && a[..|a|] == a && b[..|b|] == b;
    forall s, t | IsAlignment(s, t, a, b) ensures Score(p, s, t) <= Score(p, s1, s2) {
      NoneBetter(p, a, b, |a|, |b|, s, t);
    }
  }

  lemma EmptyRows(p: Scoring)
    requires p.Valid()
    ensures Rows("", "") && Score(p, "", "") == 0 && Ungap("") == ""
  {
  }
}
