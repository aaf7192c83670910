/**
 `ConfusionMatrix` of metal/analysis.py and the one-shot `confusion_matrix`.

 The object keeps a counter of (gold, pred) keys that `Add` grows in place,
 a cached matrix `mat` that only `Compile` (and, through it, `Display` and
 `Repr`) assigns, and the two visibility flags fixed at construction.
 Because the key is (gold, pred) and `Compile` writes the count of key (p, y)
 to cell [p, y], row r of the matrix belongs to GOLD label r and column c to
 PREDICTED label c; `nullPred` therefore governs the gold-0 row and `nullGold`
 the predicted-0 column.
 */
module Analysis {
  import opened Counting
  import opened Buckets
  import opened Matrix
  import opened Render

  class ConfusionMatrix {
    /** `self.counter`: how often each (gold, pred) key was added. */
    var counter: multiset<Pair>
    /** `self.mat`: the last compiled matrix, null before the first compile. */
    var mat: array2?<int>
    /** Show row 0 (and keep it when trimming). */
    const nullPred: bool
    /** Show column 0 (and keep it when trimming). */
    const nullGold: bool
    /** Every key passed to Add so far, in order. */
    ghost var added: seq<Pair>

    ghost predicate Valid()
      reads this
    {
      counter == multiset(added)
    }

    constructor (nullPred: bool, nullGold: bool)
      ensures Valid()
      ensures counter == multiset{} && added == [] && mat == null
      ensures this.nullPred == nullPred && this.nullGold == nullGold
    {
      counter := multiset{};
      mat := null;
      this.nullPred := nullPred;
      this.nullGold := nullGold;
      added := [];
    }

    /** `add(gold, pred)`: counts every zipped key once more. The cached matrix
        is left as it was, so it can go stale. */
    method Add(gold: seq<Label>, pred: seq<Label>)
      requires Valid()
      modifies this
      ensures Valid()
      ensures counter == old(counter) + multiset(Zip(gold, pred))
      ensures forall key :: counter[key] == old(counter)[key] + |Positions(Zip(gold, pred), key)|
      ensures forall key :: key !in Zip(gold, pred) ==> counter[key] == old(counter)[key]
      ensures added == old(added) + Zip(gold, pred)
      ensures mat == old(mat)
    {
      ghost var ps := Zip(gold, pred);
      assert ps[..0] == [];
      for i := 0 to Min(|gold|, |pred|)
        invariant counter == old(counter) + multiset(ps[..i])
        invariant added == old(added) + ps[..i]
        invariant mat == old(mat)
      {
        var key := (gold[i], pred[i]);
        assert ps[..i + 1] == ps[..i] + [key];
        counter := counter[key := counter[key] + 1];
        added := added + [key];
      }
      assert ps[..|ps|] == ps;
      PositionsCount(ps);
    }

    /** `compile(trim)`: the k-by-k matrix of counts, k one more than the largest
        label of any key, with row 0 and column 0 trimmed as the flags say; the
        result also becomes the cached matrix. The counter must not be empty
        (the source takes the max of an empty list and fails). */
    method Compile(trim: bool) returns (m: array2<int>)
      requires Valid() && counter != multiset{}
      modifies this`mat
      ensures Valid()
      ensures fresh(m) && mat == m
      ensures Rows(m) == Compiled(counter, trim, nullPred, nullGold)
      ensures m.Length0 == Width(counter) - RowOffset(trim, nullPred)
      ensures m.Length1 == Width(counter) - ColumnOffset(trim, nullGold)
      ensures !trim ==> m.Length0 == m.Length1 == Width(counter)
      ensures !trim ==> Rows(m) == Dense(counter) && Total(Rows(m)) == |added|
    {
      var keys := Keys(counter);
      KeysNonEmpty(counter);
      var top := LargestLabel(keys);
      var k := top + 1;
      assert k == Width(counter);
      var a := CountGrid(counter, k);
      ghost var full := Rows(a);
      assert full == Dense(counter);
      if trim && !nullPred {
        a := DropRow(a);
      }
      ghost var rows := if trim && !nullPred then DropFirstRow(full) else full;
      assert Rows(a) == rows;
      if trim && !nullGold {
        a := DropColumn(a);
      }
      assert a.Length0 == k - RowOffset(trim, nullPred) && a.Length1 == k - ColumnOffset(trim, nullGold);
      ghost var result := Rows(a);
      assert result == if trim && !nullGold then DropFirstColumn(rows) else rows;
      CompiledSteps(counter, trim, nullPred, nullGold);
      assert result == Compiled(counter, trim, nullPred, nullGold);
      mat := a;
      assert Rows(a) == result;
      m := a;
      if !trim {
        DenseTotal(counter);
      }
    }

    /** `repr(self)`: the cached matrix, compiled (trimmed) first only when
        there is none; after an Add it may no longer match the counter. */
    method Repr() returns (r: seq<seq<int>>)
      requires Valid() && (mat != null || counter != multiset{})
      modifies this`mat
      ensures Valid() && mat != null
      ensures old(mat) != null ==> mat == old(mat)
      ensures old(mat) == null ==> fresh(mat) && Rows(mat) == Compiled(counter, true, nullPred, nullGold)
      ensures r == Rows(mat)
    {
      if mat == null {
        var _ := Compile(true);
      }
      r := Rows(mat);
    }

    /** `display(counts, indent, spacing, mark_diag)`: recompiles untrimmed
        (leaving that matrix cached) and returns the printed lines: a header
        with the visible column labels and a line per visible row. */
    method Display(counts: bool, indent: int, spacing: int, markDiag: bool,
                   rateText: (int, int) -> string) returns (lines: seq<string>)
      requires Valid() && counter != multiset{}
      modifies this`mat
      ensures Valid() && mat != null && fresh(mat)
      ensures Rows(mat) == Dense(counter)
      ensures lines == Lines(Dense(counter), Width(counter), nullPred, nullGold,
                             Style(counts, indent, spacing, markDiag, rateText))
    {
      var a := Compile(false);
      ghost var m, n := Rows(a), a.Length1;
      assert m == Dense(counter) && n == Width(counter);
      var st := Style(counts, indent, spacing, markDiag, rateText);
      var header := HeaderLine(a.Length1, nullGold, indent, spacing);
      assert header == Header(n, nullGold, st);
      var body := RowTexts(a, nullPred, nullGold, st);
      assert body == RowLines(m, |m|, nullPred, LineOfRow(nullGold, st));
      lines := [header] + body;
      assert lines == Lines(m, n, nullPred, nullGold, st);
    }
  }

  /** The rate text `display()` would format; `confusion_matrix` displays in
      counts mode, where no rate text is ever formatted. */
  function NoRateText(count: int, total: int): string
  {
    ""
  }

  /** `ConfusionMatrix(null_pred, null_gold)` followed by `add(gold, pred)`. */
  method CountedPairs(gold: seq<Label>, pred: seq<Label>, nullPred: bool, nullGold: bool)
    returns (conf: ConfusionMatrix)
    ensures fresh(conf) && conf.Valid() && conf.mat == null
    ensures conf.counter == multiset(Zip(gold, pred))
    ensures conf.nullPred == nullPred && conf.nullGold == nullGold
  {
    conf := new ConfusionMatrix(nullPred, nullGold);
    conf.Add(gold, pred);
  }

  /** `confusion_matrix(gold, pred, null_pred, null_gold, pretty=pretty)`
      without `normalize`: a fresh ConfusionMatrix, one add, a trimmed compile;
      when pretty, also the lines of a default `display()`. The zipped input
      must not be empty, or the compile fails. */
  method ConfusionMatrixOf(gold: seq<Label>, pred: seq<Label>, nullPred: bool, nullGold: bool, pretty: bool)
    returns (m: array2<int>, printed: seq<string>)
    requires Min(|gold|, |pred|) > 0
    ensures multiset(Zip(gold, pred)) != multiset{}
    ensures Rows(m) == Compiled(multiset(Zip(gold, pred)), true, nullPred, nullGold)
    ensures m.Length0 == Width(multiset(Zip(gold, pred))) - RowOffset(true, nullPred)
    ensures m.Length1 == Width(multiset(Zip(gold, pred))) - ColumnOffset(true, nullGold)
    ensures pretty ==> printed == Lines(Dense(multiset(Zip(gold, pred))), Width(multiset(Zip(gold, pred))),
                                        nullPred, nullGold, Style(true, 0, 2, true, NoRateText))
    ensures !pretty ==> printed == []
  {
    var conf := CountedPairs(gold, pred, nullPred, nullGold);
    ghost var c := multiset(Zip(gold, pred));
    assert Zip(gold, pred)[0] in c;
    m := conf.Compile(true);
    ghost var compiled := Rows(m);
    printed := PrettyLines(conf, pretty);
    assert Rows(m) == compiled;
  }

  /** What the `pretty` flag of `confusion_matrix` prints: the lines of a
      default `display()`, or nothing. */
  method PrettyLines(conf: ConfusionMatrix, pretty: bool) returns (printed: seq<string>)
    requires conf.Valid() && conf.counter != multiset{}
    modifies conf`mat
    ensures pretty ==> printed == Lines(Dense(conf.counter), Width(conf.counter),
                                        conf.nullPred, conf.nullGold, Style(true, 0, 2, true, NoRateText))
    ensures !pretty ==> printed == [] && conf.mat == old(conf.mat)
  {
    if pretty {
      printed := conf.Display(true, 0, 2, true, NoRateText);
    } else {
      printed := [];
    }
  }

  /** Two adds count the same keys in either order, and, when the first
      gold and pred have equal lengths, the same keys as one add of the
      concatenated inputs. */
  lemma AddTwice(c: multiset<Pair>, g1: seq<Label>, p1: seq<Label>, g2: seq<Label>, p2: seq<Label>)
    ensures c + multiset(Zip(g1, p1)) + multiset(Zip(g2, p2)) == c + multiset(Zip(g2, p2)) + multiset(Zip(g1, p1))
    ensures |g1| == |p1| ==>
      c + multiset(Zip(g1, p1)) + multiset(Zip(g2, p2)) == c + multiset(Zip(g1 + g2, p1 + p2))
  {
    if |g1| == |p1| {
      ZipAppend(g1, p1, g2, p2);
    }
  }

  /** The bucket of positions of a key is as long as the untrimmed compiled
      cell of that key after a single add of the same labels. */
  lemma BucketsMatchCounts(gold: seq<Label>, pred: seq<Label>, a: Label, b: Label)
    requires multiset(Zip(gold, pred)) != multiset{}
    requires a < Width(multiset(Zip(gold, pred))) && b < Width(multiset(Zip(gold, pred)))
    ensures |Lookup(BucketsOf(Zip(gold, pred)), (a, b))| == Dense(multiset(Zip(gold, pred)))[a][b]
  {
    var ps := Zip(gold, pred);
    PositionsSpec(ps, (a, b));
    if (a, b) !in ps {
      assert multiset(ps)[(a, b)] == 0;
    }
  }

  /** The untrimmed matrix of one add holds min(|gold|, |pred|) items in all:
      the labels past the shorter input are not counted. */
  lemma DenseTotalOfZip(gold: seq<Label>, pred: seq<Label>)
    requires multiset(Zip(gold, pred)) != multiset{}
    ensures Total(Dense(multiset(Zip(gold, pred)))) == Min(|gold|, |pred|)
  {
    DenseTotal(multiset(Zip(gold, pred)));
  }

  /** The lines `display` prints for the rows of the untrimmed matrix. */
  method RowTexts(a: array2<int>, nullPred: bool, nullGold: bool, st: Style) returns (lines: seq<string>)
    ensures lines == RowLines(Rows(a), a.Length0, nullPred, LineOfRow(nullGold, st))
  {
    lines := [];
    for i := 0 to a.Length0
      invariant lines == RowLines(Rows(a), i, nullPred, LineOfRow(nullGold, st))
    {
      // Skip the gold-0 row unless it is to be shown
      if i == 0 && !nullPred {
        continue;
      }
      var s := RowText(a, i, nullGold, st);
      lines := lines + [s];
    }
  }

  /** The header line `display` prints: a label per visible column. */
  method HeaderLine(n: nat, nullGold: bool, indent: int, spacing: int) returns (s: string)
    ensures s == Marked(Spaces(indent) + Spaces(5 + spacing), HeaderEntry(spacing), 0, n, nullGold, false)
  {
    var tab := Spaces(spacing);
    var margin := Spaces(indent);
    ghost var start := margin + Spaces(5 + spacing);
    s := margin + Spaces(5 + spacing);
    for j := 0 to n
      invariant s == Marked(start, HeaderEntry(spacing), 0, j, nullGold, false)
    {
      MarkedNext(start, HeaderEntry(spacing), 0, j, nullGold, false);
      // Skip the predicted-0 column unless it is to be shown
      if j == 0 && !nullGold {
        continue;
      }
      s := s + (" y=" + NatStr(j) + " " + tab);
    }
  }

  /** The line `display` prints for row i of the untrimmed matrix. */
  method RowText(a: array2<int>, i: nat, nullGold: bool, st: Style) returns (s: string)
    requires i < a.Length0
    ensures s == RowLine(Rows(a)[i], i, nullGold, st)
  {
    ghost var row := Rows(a)[i];
    ghost var start := RowStart(i, st);
    ghost var mark := st.markDiag && !st.counts;
    s := Spaces(st.indent) + " l=" + NatStr(i) + " " + Spaces(st.spacing);
    for j := 0 to a.Length1
      invariant s == Marked(start, RowCells(row, st), i, j, nullGold, mark)
    {
      MarkedNext(start, RowCells(row, st), i, j, nullGold, mark);
      // Skip the predicted-0 column unless it is to be shown
      if j == 0 && !nullGold {
        continue;
      }
      if i == j && st.markDiag && !st.counts {
        s := Mark(s);
      }
      var cell := CellLine(a, i, j, st);
      s := s + cell;
    }
  }

  /** The text appended for cell [i, j]: the count centred in five characters
      (`f"{mat[i,j]:^5d}"`), or the rate text of the cell and `sum(mat[i, 1:])`;
      then the gap. */
  method CellLine(a: array2<int>, i: nat, j: nat, st: Style) returns (cell: string)
    requires i < a.Length0 && j < a.Length1
    ensures cell == RowCells(Rows(a)[i], st)(j)
  {
    var tab := Spaces(st.spacing);
    if st.counts {
      cell := Center(IntStr(a[i, j]), 5) + tab;
    } else {
      var total := RowSum(a, i);
      cell := st.rateText(a[i, j], total) + tab;
    }
  }

  /** `max(max(tup) for tup in keys)`: the largest label of any key. */
  method LargestLabel(keys: set<Pair>) returns (top: Label)
    requires keys != {}
    ensures top == MaxLabel(keys)
  {
    var first :| first in keys;
    top := if first.0 < first.1 then first.1 else first.0;
    ghost var attained := first;
    var rest := keys - {first};
    while rest != {}
      invariant rest <= keys && attained in keys && attained !in rest
      invariant attained.0 == top || attained.1 == top
      invariant forall p :: p in keys && p !in rest ==> p.0 <= top && p.1 <= top
      decreases rest
    {
      var p :| p in rest;
      var here := if p.0 < p.1 then p.1 else p.0;
      if top < here {
        top := here;
        attained := p;
      }
      rest := rest - {p};
    }
    assert attained in keys;
    ghost var q :| q in keys && (q.0 == MaxLabel(keys) || q.1 == MaxLabel(keys));
  }

  /** The k-by-k array of `np.zeros((k, k))` with the count of every key
      (p, y) written to cell [p, y]. */
  method CountGrid(c: multiset<Pair>, k: nat) returns (a: array2<int>)
    requires forall p :: p in c ==> p.0 < k && p.1 < k
    ensures fresh(a) && a.Length0 == k && a.Length1 == k
    ensures Rows(a) == Grid(c, k)
  {
    a := new int[k, k]((_, _) => 0);
    var rest := Keys(c);
    while rest != {}
      invariant rest <= Keys(c)
      invariant a.Length0 == k && a.Length1 == k
      invariant forall i, j :: 0 <= i < k && 0 <= j < k ==>
        a[i, j] == if (i, j) in rest then 0 else c[(i, j)]
      decreases rest
    {
      var p :| p in rest;
      a[p.0, p.1] := c[p];
      rest := rest - {p};
    }
    forall i | 0 <= i < k ensures Rows(a)[i] == Grid(c, k)[i] {
      assert forall j :: 0 <= j < k ==> Rows(a)[i][j] == c[(i, j)];
    }
  }

  /** `sum(mat[i, 1:])`: the cells of row i after column 0. */
  method RowSum(a: array2<int>, i: nat) returns (total: int)
    requires i < a.Length0
    ensures total == RateDenominator(Rows(a)[i])
  {
    ghost var row := Rows(a)[i];
    total := 0;
    var j := a.Length1;
    while j > 1
      invariant 1 <= j <= a.Length1 || j == a.Length1 == 0
      invariant total == Sum(row[j..])
    {
      j := j - 1;
      assert row[j..] == [row[j]] + row[j + 1..];
      total := a[i, j] + total;
    }
    if j == 1 {
      assert row[1..] == row[j..];
    }
  }

  /** numpy's `mat[1:, :]`, as a new array. */
  method DropRow(a: array2<int>) returns (b: array2<int>)
    requires a.Length0 > 0
    ensures fresh(b) && b.Length0 == a.Length0 - 1 && b.Length1 == a.Length1
    ensures Rows(b) == DropFirstRow(Rows(a))
  {
    b := new int[a.Length0 - 1, a.Length1]((i, j) reads a =>
      if 0 <= i < a.Length0 - 1 && 0 <= j < a.Length1 then a[i + 1, j] else 0);
    forall r | 0 <= r < b.Length0 ensures Rows(b)[r] == DropFirstRow(Rows(a))[r] {
      assert forall c :: 0 <= c < b.Length1 ==> Rows(b)[r][c] == Rows(a)[r + 1][c];
    }
  }

  /** numpy's `mat[:, 1:]`, as a new array. */
  method DropColumn(a: array2<int>) returns (b: array2<int>)
    requires a.Length1 > 0
    ensures fresh(b) && b.Length0 == a.Length0 && b.Length1 == a.Length1 - 1
    ensures Rows(b) == DropFirstColumn(Rows(a))
  {
    b := new int[a.Length0, a.Length1 - 1]((i, j) reads a =>
      if 0 <= i < a.Length0 && 0 <= j < a.Length1 - 1 then a[i, j + 1] else 0);
    forall r | 0 <= r < b.Length0 ensures Rows(b)[r] == DropFirstColumn(Rows(a))[r] {
      assert forall c :: 0 <= c < b.Length1 ==> Rows(b)[r][c] == Rows(a)[r][c + 1];
    }
  }
}
