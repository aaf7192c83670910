/**
 The text `ConfusionMatrix.display` prints, stated as values: a header line
 naming the visible columns and one line per visible row. The functions
 below follow the order in which the source appends to its line buffer;
 `Join` and `Visible` give independent reference definitions, and the lemmas
 tie the two together.
 */
module Render {
  import opened Matrix

  /** Python's `' ' * n`: empty when n is not positive. */
  function Spaces(n: int): string
  {
    if n <= 0 then "" else seq(n, _ => ' ')
  }

  /** `' ' * n` is max(n, 0) blanks. */
  lemma SpacesSpec(n: int)
    ensures |Spaces(n)| == if n <= 0 then 0 else n
    ensures forall i :: 0 <= i < |Spaces(n)| ==> Spaces(n)[i] == ' '
  {
  }

  function Digit(d: nat): (c: char)
    requires d < 10
  {
    ('0' as int + d) as char
  }

  /** Decimal text of a natural number, as `str(n)` gives it. */
  function NatStr(n: nat): string
  {
    if n < 10 then [Digit(n)] else NatStr(n / 10) + [Digit(n % 10)]
  }

  /** Decimal text of an integer, with a leading '-' when negative (`{:d}`). */
  function IntStr(x: int): string
  {
    if x < 0 then "-" + NatStr(-x) else NatStr(x)
  }

  predicate IsDigits(s: string)
  {
    |s| > 0 && forall i :: 0 <= i < |s| ==> '0' <= s[i] <= '9'
  }

  /** The number a string of decimal digits denotes. */
  function DigitsValue(s: string): nat
    requires forall i :: 0 <= i < |s| ==> '0' <= s[i] <= '9'
  {
    if s == [] then 0
    else DigitsValue(s[..|s| - 1]) * 10 + (s[|s| - 1] as int - '0' as int)
  }

  /** The decimal text of n is made of digits only and reads back as n. */
  lemma {:induction false} NatStrRoundTrip(n: nat)
    ensures IsDigits(NatStr(n))
    ensures DigitsValue(NatStr(n)) == n
  {
    if n >= 10 {
      NatStrRoundTrip(n / 10);
      var s := NatStr(n);
      assert s[..|s| - 1] == NatStr(n / 10);
    }
  }

  /** Python's `f"{text:^width}"`: the padding is split with the smaller half
      on the left, and text at least as wide as the field is left alone. */
  function Center(s: string, width: nat): string
  {
    if |s| >= width then s
    else
      var pad := width - |s|;
      Spaces(pad / 2) + s + Spaces(pad - pad / 2)
  }

  /** The centred text is as wide as the field (or the text, if wider), holds
      the text at offset floor(padding / 2) and blanks on both sides. */
  lemma CenterSpec(s: string, width: nat)
    ensures var r := Center(s, width);
      |r| == (if |s| < width then width else |s|) &&
      (|r| - |s|) / 2 + |s| <= |r| &&
      r[(|r| - |s|) / 2..(|r| - |s|) / 2 + |s|] == s &&
      (forall i :: 0 <= i < (|r| - |s|) / 2 ==> r[i] == ' ') &&
      (forall i :: (|r| - |s|) / 2 + |s| <= i < |r| ==> r[i] == ' ')
  {
    if |s| < width {
      var pad := width - |s|;
      SpacesSpec(pad / 2);
      SpacesSpec(pad - pad / 2);
      var r := Center(s, width);
      assert r == Spaces(pad / 2) + s + Spaces(pad - pad / 2);
      assert r[pad / 2..pad / 2 + |s|] == s;
    }
  }

  /** The header entry of column j: `f" y={j} "`. */
  function ColumnLabel(j: nat): string
  {
    " y=" + NatStr(j) + " "
  }

  /** The label that opens the line of row i: `f" l={i} "`. */
  function RowLabel(i: nat): string
  {
    " l=" + NatStr(i) + " "
  }

  /** The indices 0..n-1 that are printed: index 0 only when showZero. */
  function Visible(n: nat, showZero: bool): (v: seq<nat>)
    ensures forall t :: 0 <= t < |v| ==> v[t] < n
  {
    if showZero then seq(n, t => t)
    else if n == 0 then []
    else seq(n - 1, t => t + 1)
  }

  lemma VisibleSnoc(n: nat, showZero: bool)
    ensures Visible(n + 1, showZero) ==
      Visible(n, showZero) + (if n == 0 && !showZero then [] else [n])
  {
  }

  /** Row 0 (or column 0) is left out unless it is to be shown. */
  lemma VisibleCount(n: nat, showZero: bool)
    ensures |Visible(n, showZero)| == if showZero || n == 0 then n else n - 1
    ensures forall t :: 0 <= t < |Visible(n, showZero)| ==>
      Visible(n, showZero)[t] == if showZero then t else t + 1
  {
  }

  /** Concatenation of f over xs, in order. */
  function Join(xs: seq<nat>, f: nat -> string): string
  {
    if xs == [] then "" else Join(xs[..|xs| - 1], f) + f(xs[|xs| - 1])
  }

  lemma JoinSnoc(xs: seq<nat>, x: nat, f: nat -> string)
    ensures Join(xs + [x], f) == Join(xs, f) + f(x)
  {
    assert (xs + [x])[..|xs|] == xs;
  }

  /** `s[:-1] + '*'`: the last character is replaced by the diagonal mark. */
  function Mark(s: string): string
  {
    (if s == [] then s else s[..|s| - 1]) + "*"
  }

  /** The loop shape shared by the header and the rows of `display`: starting
      from `start`, for each column c < j (column 0 only when showZero), first
      replace the last character by the mark when c is the diagonal column i
      and marking is on, then append the text of c. */
  function Marked(start: string, cell: nat -> string, i: nat, j: nat, showZero: bool, mark: bool): string
  {
    if j == 0 then start
    else
      var s := Marked(start, cell, i, j - 1, showZero, mark);
      var c := j - 1;
      if c == 0 && !showZero then s
      else (if i == c && mark then Mark(s) else s) + cell(c)
  }

  /** One step of the loop: skip column 0, or mark the diagonal and append. */
  lemma MarkedNext(start: string, cell: nat -> string, i: nat, j: nat, showZero: bool, mark: bool)
    ensures Marked(start, cell, i, j + 1, showZero, mark) ==
      if j == 0 && !showZero then Marked(start, cell, i, j, showZero, mark)
      else (if i == j && mark then Mark(Marked(start, cell, i, j, showZero, mark))
            else Marked(start, cell, i, j, showZero, mark)) + cell(j)
  {
  }

  /** Without marking the loop appends the text of every visible column, in
      increasing order, and nothing else. */
  lemma {:induction false} UnmarkedIsJoin(start: string, cell: nat -> string, i: nat, j: nat, showZero: bool)
    ensures Marked(start, cell, i, j, showZero, false) == start + Join(Visible(j, showZero), cell)
  {
    if j > 0 {
      var k := j - 1;
      UnmarkedIsJoin(start, cell, i, k, showZero);
      VisibleSnoc(k, showZero);
      if !(k == 0 && !showZero) {
        JoinSnoc(Visible(k, showZero), k, cell);
        assert (start + Join(Visible(k, showZero), cell)) + cell(k) ==
               start + (Join(Visible(k, showZero), cell) + cell(k));
      }
    }
  }

  lemma StarInConcat(a: string, b: string)
    ensures '*' in a + b <==> '*' in a || '*' in b
  {
    assert forall t :: 0 <= t < |b| ==> (a + b)[|a| + t] == b[t];
  }

  lemma StarInMark(s: string)
    ensures '*' in Mark(s)
  {
    assert Mark(s)[|Mark(s)| - 1] == '*';
  }

  /** When neither the start nor any appended text holds a '*', the line holds
      one exactly when marking is on and the diagonal column i was visited:
      i < j, and i is not the skipped column 0. */
  lemma {:induction false} StarsOfMarked(start: string, cell: nat -> string, i: nat, j: nat, showZero: bool, mark: bool)
    requires '*' !in start
    requires forall c :: '*' !in cell(c)
    ensures '*' in Marked(start, cell, i, j, showZero, mark) <==> mark && i < j && (i != 0 || showZero)
  {
    if j > 0 {
      var c := j - 1;
      var s := Marked(start, cell, i, c, showZero, mark);
      StarsOfMarked(start, cell, i, c, showZero, mark);
      if !(c == 0 && !showZero) {
        if i == c && mark {
          StarInMark(s);
          StarInConcat(Mark(s), cell(c));
        } else {
          StarInConcat(s, cell(c));
        }
      }
    }
  }

  /** How the lines are laid out: the parameters of `display`. The rate text of
      a cell (a float division formatted `:>5.3f`) is not modelled: the caller
      supplies it as a function of the cell and its row's denominator. */
  datatype Style = Style(counts: bool, indent: int, spacing: int, markDiag: bool,
                         rateText: (int, int) -> string)

  /** The header entry of column j followed by the gap: `f" y={j} " + tab`. */
  function HeaderEntry(spacing: int): nat -> string
  {
    (j: nat) => ColumnLabel(j) + Spaces(spacing)
  }

  /** The header line of an n-column matrix: the margin, a blank corner as wide
      as a cell, then an entry per visible column (the header is never
      marked). */
  function Header(n: nat, nullGold: bool, st: Style): string
  {
    Marked(Spaces(st.indent) + Spaces(5 + st.spacing), HeaderEntry(st.spacing), 0, n, nullGold, false)
  }

  /** The header holds one " y=j " entry plus the gap for every visible column
      j, in increasing order, and nothing else. */
  lemma HeaderIsJoin(n: nat, nullGold: bool, st: Style)
    ensures Header(n, nullGold, st) ==
      Spaces(st.indent) + Spaces(5 + st.spacing) + Join(Visible(n, nullGold), HeaderEntry(st.spacing))
  {
    UnmarkedIsJoin(Spaces(st.indent) + Spaces(5 + st.spacing), HeaderEntry(st.spacing), 0, n, nullGold);
  }

  /** The rate denominator of a row, `sum(mat[i, 1:])`: column 0 is left out
      whether or not it is shown. */
  function RateDenominator(row: seq<int>): int
  {
    if row == [] then 0 else Sum(row[1..])
  }

  /** The text appended for cell j of a row: the count centred in five
      characters, or the supplied rate text; each followed by the gap. */
  function CellText(row: seq<int>, j: nat, st: Style): string
    requires j < |row|
  {
    if st.counts then Center(IntStr(row[j]), 5) + Spaces(st.spacing)
    else st.rateText(row[j], RateDenominator(row)) + Spaces(st.spacing)
  }

  /** The cell texts of a row, as a function of the column. */
  function RowCells(row: seq<int>, st: Style): nat -> string
  {
    (c: nat) => if c < |row| then CellText(row, c, st) else ""
  }

  /** The opening of the line of row i: margin, `f" l={i} "`, gap. */
  function RowStart(i: nat, st: Style): string
  {
    Spaces(st.indent) + RowLabel(i) + Spaces(st.spacing)
  }

  /** The whole line of row i; the diagonal is marked only in rate mode. */
  function RowLine(row: seq<int>, i: nat, nullGold: bool, st: Style): string
  {
    Marked(RowStart(i, st), RowCells(row, st), i, |row|, nullGold, st.markDiag && !st.counts)
  }

  /** In counts mode a row line is the row label followed by one centred
      count (and the gap) for every visible column, in increasing order. */
  lemma CountRowIsJoin(row: seq<int>, i: nat, nullGold: bool, st: Style)
    requires st.counts
    ensures RowLine(row, i, nullGold, st) ==
      RowStart(i, st) + Join(Visible(|row|, nullGold), RowCells(row, st))
  {
    UnmarkedIsJoin(RowStart(i, st), RowCells(row, st), i, |row|, nullGold);
  }

  /** The line of each row, as a function of the row and its index. */
  function LineOfRow(nullGold: bool, st: Style): (seq<int>, nat) -> string
  {
    (row: seq<int>, i: nat) => RowLine(row, i, nullGold, st)
  }

  /** The lines of rows 0..upTo-1, as the row loop emits them (row 0 only when
      showZero). */
  function RowLines(m: seq<seq<int>>, upTo: nat, showZero: bool, line: (seq<int>, nat) -> string): seq<string>
    requires upTo <= |m|
  {
    if upTo == 0 then []
    else
      RowLines(m, upTo - 1, showZero, line) +
      (if upTo - 1 == 0 && !showZero then [] else [line(m[upTo - 1], upTo - 1)])
  }

  /** Everything `display` prints for the untrimmed matrix m of n columns. */
  function Lines(m: seq<seq<int>>, n: nat, nullPred: bool, nullGold: bool, st: Style): seq<string>
  {
    [Header(n, nullGold, st)] + RowLines(m, |m|, nullPred, LineOfRow(nullGold, st))
  }

  lemma {:induction false} RowLinesAtUpTo(m: seq<seq<int>>, upTo: nat, showZero: bool, line: (seq<int>, nat) -> string)
    requires upTo <= |m|
    ensures |RowLines(m, upTo, showZero, line)| == |Visible(upTo, showZero)|
    ensures forall t :: 0 <= t < |Visible(upTo, showZero)| ==>
      RowLines(m, upTo, showZero, line)[t] == line(m[Visible(upTo, showZero)[t]], Visible(upTo, showZero)[t])
  {
    if upTo > 0 {
      var n := upTo - 1;
      RowLinesAtUpTo(m, n, showZero, line);
      VisibleSnoc(n, showZero);
      var before, after := RowLines(m, n, showZero, line), RowLines(m, upTo, showZero, line);
      var vb, va := Visible(n, showZero), Visible(upTo, showZero);
      if n == 0 && !showZero {
        assert after == before && va == vb;
      } else {
        assert after == before + [line(m[n], n)];
        assert va == vb + [n];
        forall t | 0 <= t < |va|
          ensures after[t] == line(m[va[t]], va[t])
        {
          if t < |vb| {
            assert after[t] == before[t] && va[t] == vb[t];
          }
        }
      }
    }
  }

  /** `display` prints one header line and then, for each visible row i in
      increasing order (row 0 only when nullPred), the line of row i. */
  lemma LinesShape(m: seq<seq<int>>, n: nat, nullPred: bool, nullGold: bool, st: Style)
    ensures |Lines(m, n, nullPred, nullGold, st)| == 1 + |Visible(|m|, nullPred)|
    ensures Lines(m, n, nullPred, nullGold, st)[0] == Header(n, nullGold, st)
    ensures forall t :: 0 <= t < |Visible(|m|, nullPred)| ==>
      Lines(m, n, nullPred, nullGold, st)[t + 1] ==
        LineOfRow(nullGold, st)(m[Visible(|m|, nullPred)[t]], Visible(|m|, nullPred)[t])
  {
    var rows := RowLines(m, |m|, nullPred, LineOfRow(nullGold, st));
    RowLinesAtUpTo(m, |m|, nullPred, LineOfRow(nullGold, st));
    assert Lines(m, n, nullPred, nullGold, st) == [Header(n, nullGold, st)] + rows;
  }

  lemma NoStarInNumbers(n: nat, x: int)
    ensures '*' !in NatStr(n) && '*' !in IntStr(x)
  {
    NatStrRoundTrip(n);
    if x < 0 { NatStrRoundTrip(-x); } else { NatStrRoundTrip(x); }
  }

  lemma NoStarInLabels(j: nat, spacing: int)
    ensures '*' !in ColumnLabel(j) && '*' !in RowLabel(j) && '*' !in Spaces(spacing)
  {
    NoStarInNumbers(j, 0);
    SpacesSpec(spacing);
  }

  lemma NoStarInCentre(text: string, width: nat)
    requires '*' !in text
    ensures '*' !in Center(text, width)
  {
    if |text| < width {
      var pad := width - |text|;
      NoStarInLabels(0, pad / 2);
      NoStarInLabels(0, pad - pad / 2);
      StarInConcat(Spaces(pad / 2), text);
      StarInConcat(Spaces(pad / 2) + text, Spaces(pad - pad / 2));
    }
  }

  lemma NoStarInRowStart(i: nat, st: Style)
    ensures '*' !in RowStart(i, st)
  {
    NoStarInLabels(i, st.spacing);
    NoStarInLabels(i, st.indent);
    StarInConcat(Spaces(st.indent), RowLabel(i));
    StarInConcat(Spaces(st.indent) + RowLabel(i), Spaces(st.spacing));
  }

  lemma NoStarInHeaderEntries(spacing: int)
    ensures forall j :: '*' !in HeaderEntry(spacing)(j)
  {
    forall j: nat ensures '*' !in HeaderEntry(spacing)(j) {
      NoStarInLabels(j, spacing);
      StarInConcat(ColumnLabel(j), Spaces(spacing));
    }
  }

  lemma NoStarInCountCells(row: seq<int>, st: Style)
    requires st.counts
    ensures forall c :: '*' !in RowCells(row, st)(c)
  {
    forall c: nat | c < |row| ensures '*' !in RowCells(row, st)(c) {
      NoStarInNumbers(0, row[c]);
      NoStarInCentre(IntStr(row[c]), 5);
      NoStarInLabels(0, st.spacing);
      StarInConcat(Center(IntStr(row[c]), 5), Spaces(st.spacing));
    }
  }

  lemma NoStarInRateCells(row: seq<int>, st: Style)
    requires !st.counts
    requires forall a, b :: '*' !in st.rateText(a, b)
    ensures forall c :: '*' !in RowCells(row, st)(c)
  {
    forall c: nat | c < |row| ensures '*' !in RowCells(row, st)(c) {
      NoStarInLabels(0, st.spacing);
      var x, d := row[c], RateDenominator(row);
      assert '*' !in st.rateText(x, d);
      StarInConcat(st.rateText(x, d), Spaces(st.spacing));
    }
  }

  /** The header never holds a '*'. */
  lemma NoStarInHeader(n: nat, nullGold: bool, st: Style)
    ensures '*' !in Header(n, nullGold, st)
  {
    var corner := Spaces(st.indent) + Spaces(5 + st.spacing);
    NoStarInLabels(0, st.indent);
    NoStarInLabels(0, 5 + st.spacing);
    StarInConcat(Spaces(st.indent), Spaces(5 + st.spacing));
    NoStarInHeaderEntries(st.spacing);
    StarsOfMarked(corner, HeaderEntry(st.spacing), 0, n, nullGold, false);
  }

  /** In counts mode no row line holds a '*'. */
  lemma NoStarInCountLine(row: seq<int>, i: nat, nullGold: bool, st: Style)
    requires st.counts
    ensures '*' !in LineOfRow(nullGold, st)(row, i)
  {
    NoStarInRowStart(i, st);
    NoStarInCountCells(row, st);
    StarsOfMarked(RowStart(i, st), RowCells(row, st), i, |row|, nullGold, false);
  }

  /** In counts mode the diagonal mark is never written: no printed line
      holds a '*'. */
  lemma NoMarkInCounts(m: seq<seq<int>>, n: nat, nullPred: bool, nullGold: bool, st: Style)
    requires st.counts
    ensures forall line :: line in Lines(m, n, nullPred, nullGold, st) ==> '*' !in line
  {
    LinesShape(m, n, nullPred, nullGold, st);
    var lines := Lines(m, n, nullPred, nullGold, st);
    var visible := Visible(|m|, nullPred);
    forall line | line in lines ensures '*' !in line {
      var t :| 0 <= t < |lines| && lines[t] == line;
      if t == 0 {
        NoStarInHeader(n, nullGold, st);
      } else {
        var i := visible[t - 1];
        NoStarInCountLine(m[i], i, nullGold, st);
      }
    }
  }

  /** In rate mode (with rate texts free of '*'), the line of row i carries the
      diagonal mark exactly when marking is on and column i is printed: i is a
      column of the row, and i is not the hidden column 0. */
  lemma DiagonalMark(row: seq<int>, i: nat, nullGold: bool, st: Style)
    requires !st.counts
    requires forall a, b :: '*' !in st.rateText(a, b)
    ensures '*' in RowLine(row, i, nullGold, st) <==> st.markDiag && i < |row| && (i != 0 || nullGold)
  {
    NoStarInRowStart(i, st);
    NoStarInRateCells(row, st);
    StarsOfMarked(RowStart(i, st), RowCells(row, st), i, |row|, nullGold, st.markDiag);
  }
}
