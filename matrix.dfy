/**
 The matrix `ConfusionMatrix.compile` builds from its counter, stated as
 values: the k-by-k grid of counts (rows indexed by the FIRST component of a
 key, the gold label; columns by the second, the prediction) and the
 trimming of row 0 and column 0.
 */
module Matrix {
  import opened Counting

  /** The k-by-k grid whose cell [a, b] is the count of key (a, b), 0 when the
      key was never counted. */
  function Grid(c: multiset<Pair>, k: nat): seq<seq<int>>
  {
    seq(k, a => seq(k, b => c[(a, b)]))
  }

  /** The untrimmed compiled matrix: the grid of side 1 + the largest label. */
  ghost function Dense(c: multiset<Pair>): seq<seq<int>>
    requires c != multiset{}
  {
    Grid(c, Width(c))
  }

  /** 1 when the trimmed matrix drops row 0, 0 otherwise. */
  function RowOffset(trim: bool, nullPred: bool): nat
  {
    if trim && !nullPred then 1 else 0
  }

  /** 1 when the trimmed matrix drops column 0, 0 otherwise. */
  function ColumnOffset(trim: bool, nullGold: bool): nat
  {
    if trim && !nullGold then 1 else 0
  }

  /** numpy's `mat[1:, :]`. */
  function DropFirstRow(m: seq<seq<int>>): seq<seq<int>>
    requires |m| > 0
  {
    m[1..]
  }

  /** numpy's `mat[:, 1:]`. */
  function DropFirstColumn(m: seq<seq<int>>): seq<seq<int>>
    requires forall r :: 0 <= r < |m| ==> |m[r]| > 0
  {
    seq(|m|, r requires 0 <= r < |m| => m[r][1..])
  }

  /** The result of `compile(trim)`: the dense grid with row 0 dropped when
      trim is set and nullPred is not, and column 0 dropped when trim is set
      and nullGold is not. */
  ghost function Compiled(c: multiset<Pair>, trim: bool, nullPred: bool, nullGold: bool): seq<seq<int>>
    requires c != multiset{}
  {
    var full := Dense(c);
    var rows := if trim && !nullPred then DropFirstRow(full) else full;
    if trim && !nullGold then DropFirstColumn(rows) else rows
  }

  /** m has the given number of rows and columns, and cell [r, col] is the
      count of the key (r + dr, col + dc). */
  ghost predicate Shifted(m: seq<seq<int>>, c: multiset<Pair>, rows: nat, cols: nat, dr: nat, dc: nat)
  {
    |m| == rows &&
    forall r :: 0 <= r < |m| ==>
      |m[r]| == cols && forall col :: 0 <= col < cols ==> m[r][col] == c[(r + dr, col + dc)]
  }

  lemma GridShifted(c: multiset<Pair>, k: nat)
    ensures Shifted(Grid(c, k), c, k, k, 0, 0)
  {
  }

  /** Dropping the first row shifts the row offset by one. */
  lemma DropRowShifted(m: seq<seq<int>>, c: multiset<Pair>, rows: nat, cols: nat, dr: nat, dc: nat)
    requires Shifted(m, c, rows, cols, dr, dc) && rows > 0
    ensures Shifted(DropFirstRow(m), c, rows - 1, cols, dr + 1, dc)
  {
    var d := DropFirstRow(m);
    forall r | 0 <= r < |d|
      ensures |d[r]| == cols && forall col :: 0 <= col < cols ==> d[r][col] == c[(r + dr + 1, col + dc)]
    {
      assert d[r] == m[r + 1];
    }
  }

  /** Dropping the first column shifts the column offset by one. */
  lemma DropColumnShifted(m: seq<seq<int>>, c: multiset<Pair>, rows: nat, cols: nat, dr: nat, dc: nat)
    requires Shifted(m, c, rows, cols, dr, dc) && cols > 0
    ensures forall r :: 0 <= r < |m| ==> |m[r]| > 0
    ensures Shifted(DropFirstColumn(m), c, rows, cols - 1, dr, dc + 1)
  {
    var d := DropFirstColumn(m);
    forall r | 0 <= r < |d|
      ensures |d[r]| == cols - 1 && forall col :: 0 <= col < cols - 1 ==> d[r][col] == c[(r + dr, col + dc + 1)]
    {
      assert d[r] == m[r][1..];
    }
  }

  /** The compiled matrix is the count grid shifted by the dropped row and
      column. */
  lemma CompiledShifted(c: multiset<Pair>, trim: bool, nullPred: bool, nullGold: bool)
    requires c != multiset{}
    ensures var dr, dc := RowOffset(trim, nullPred), ColumnOffset(trim, nullGold);
      Shifted(Compiled(c, trim, nullPred, nullGold), c, Width(c) - dr, Width(c) - dc, dr, dc)
  {
    var k := Width(c);
    var full := Dense(c);
    GridShifted(c, k);
    CompiledSteps(c, trim, nullPred, nullGold);
    if trim && !nullPred {
      DropRowShifted(full, c, k, k, 0, 0);
      if !nullGold {
        DropColumnShifted(DropFirstRow(full), c, k - 1, k, 1, 0);
      }
    } else if trim && !nullGold {
      DropColumnShifted(full, c, k, k, 0, 0);
    }
  }

  /** Row 0 is gone exactly when trim is set and nullPred is not, column 0
      exactly when trim is set and nullGold is not; every remaining cell is the
      count of the key its absolute indices name. */
  lemma CompiledCells(c: multiset<Pair>, trim: bool, nullPred: bool, nullGold: bool)
    requires c != multiset{}
    ensures |Compiled(c, trim, nullPred, nullGold)| == Width(c) - RowOffset(trim, nullPred)
    ensures forall r :: 0 <= r < |Compiled(c, trim, nullPred, nullGold)| ==>
      |Compiled(c, trim, nullPred, nullGold)[r]| == Width(c) - ColumnOffset(trim, nullGold)
    ensures forall r, col :: 0 <= r < |Compiled(c, trim, nullPred, nullGold)| &&
                             0 <= col < |Compiled(c, trim, nullPred, nullGold)[r]| ==>
      Compiled(c, trim, nullPred, nullGold)[r][col] ==
        c[(r + RowOffset(trim, nullPred), col + ColumnOffset(trim, nullGold))]
  {
    CompiledShifted(c, trim, nullPred, nullGold);
  }

  /** The steps `compile` takes: the dense grid, then row 0, then column 0. */
  lemma CompiledSteps(c: multiset<Pair>, trim: bool, nullPred: bool, nullGold: bool)
    requires c != multiset{}
    ensures var rows := if trim && !nullPred then DropFirstRow(Dense(c)) else Dense(c);
      Compiled(c, trim, nullPred, nullGold) == if trim && !nullGold then DropFirstColumn(rows) else rows
  {
  }

  /** Sum of a row. */
  function Sum(s: seq<int>): int
  {
    if s == [] then 0 else s[0] + Sum(s[1..])
  }

  /** Sum of all cells. */
  function Total(m: seq<seq<int>>): int
  {
    if m == [] then 0 else Sum(m[0]) + Total(m[1..])
  }

  lemma {:induction false} SumUpdate(s: seq<int>, i: nat, v: int)
    requires i < |s|
    ensures Sum(s[i := v]) == Sum(s) - s[i] + v
  {
    if i == 0 {
      assert s[i := v][1..] == s[1..];
    } else {
      assert s[i := v][1..] == s[1..][i - 1 := v];
      SumUpdate(s[1..], i - 1, v);
    }
  }

  lemma {:induction false} TotalUpdate(m: seq<seq<int>>, i: nat, row: seq<int>)
    requires i < |m|
    ensures Total(m[i := row]) == Total(m) - Sum(m[i]) + Sum(row)
  {
    if i == 0 {
      assert m[i := row][1..] == m[1..];
    } else {
      assert m[i := row][1..] == m[1..][i - 1 := row];
      TotalUpdate(m[1..], i - 1, row);
    }
  }

  lemma {:induction false} SumZero(s: seq<int>)
    requires forall j :: 0 <= j < |s| ==> s[j] == 0
    ensures Sum(s) == 0
  {
    if s != [] {
      SumZero(s[1..]);
    }
  }

  lemma {:induction false} TotalZero(m: seq<seq<int>>)
    requires forall i, j :: 0 <= i < |m| && 0 <= j < |m[i]| ==> m[i][j] == 0
    ensures Total(m) == 0
  {
    if m != [] {
      SumZero(m[0]);
      TotalZero(m[1..]);
    }
  }

  /** Counting one more key (a, b) inside the grid adds one to cell [a, b]. */
  lemma GridAddOne(c: multiset<Pair>, x: Pair, k: nat)
    requires x.0 < k && x.1 < k
    ensures Total(Grid(c + multiset{x}, k)) == Total(Grid(c, k)) + 1
  {
    var g, g' := Grid(c, k), Grid(c + multiset{x}, k);
    var row := g[x.0][x.1 := c[x] + 1];
    forall a | 0 <= a < k ensures g'[a] == g[x.0 := row][a] {
      if a == x.0 {
        forall b | 0 <= b < k ensures g'[a][b] == row[b] {
          if b == x.1 {
            assert g'[a][b] == (c + multiset{x})[x];
          }
        }
      } else {
        forall b | 0 <= b < k ensures g'[a][b] == g[a][b] {
          assert (a, b) != x;
        }
      }
    }
    assert g' == g[x.0 := row];
    SumUpdate(g[x.0], x.1, c[x] + 1);
    TotalUpdate(g, x.0, row);
  }

  /** The cells of a grid that holds every key add up to the number of items
      counted. */
  lemma {:induction false} GridTotal(c: multiset<Pair>, k: nat)
    requires forall p :: p in c ==> p.0 < k && p.1 < k
    ensures Total(Grid(c, k)) == |c|
    decreases |c|
  {
    if c == multiset{} {
      TotalZero(Grid(c, k));
    } else {
      var x :| x in c;
      var c0 := c - multiset{x};
      assert c == c0 + multiset{x};
      GridTotal(c0, k);
      GridAddOne(c0, x, k);
    }
  }

  /** The cell total of the untrimmed matrix equals the counter total: the
      number of items counted, `sum(counter.values())`. */
  lemma DenseTotal(c: multiset<Pair>)
    requires c != multiset{}
    ensures Total(Dense(c)) == |c|
    ensures Total(Dense(c)) == MapSum(CountMap(c))
  {
    GridTotal(c, Width(c));
    CountMapTotal(c);
  }

  /** The cells of a 2-D array, row by row. */
  function Rows(a: array2<int>): (m: seq<seq<int>>)
    reads a
    ensures |m| == a.Length0
    ensures forall i :: 0 <= i < |m| ==> |m[i]| == a.Length1
    ensures forall i, j :: 0 <= i < a.Length0 && 0 <= j < a.Length1 ==> m[i][j] == a[i, j]
  {
    seq(a.Length0, i reads a requires 0 <= i < a.Length0 =>
      seq(a.Length1, j reads a requires 0 <= j < a.Length1 => a[i, j]))
  }
}
