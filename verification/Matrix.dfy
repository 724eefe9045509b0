module Matrix {
  // Matrices in flat storage: row-major or column-major, with the loops that multiply, transpose and fill them.
  // Elements are integers of a fixed width, so sums and products are taken modulo m.

  datatype Layout = Layout(rows: nat, cols: nat, rowMajor: bool)

  function Size(l: Layout): nat { l.rows * l.cols }

  /** The linear offset of an element. */
  function Offset(l: Layout, row: nat, col: nat): nat {
    if l.rowMajor then col + row * l.cols else row + col * l.rows
  }

  /** The same offset from type information found at run time: both forms are computed and one is selected. */
  function SelectedOffset(rows: nat, cols: nat, layout: nat, row: nat, col: nat, w: nat): nat
    requires w > 0
  {
    var rm := (row * cols % w + col) % w;
    var cm := (col * rows % w + row) % w;
    if layout == 1 then rm else cm
  }

  function RowOf(l: Layout, k: nat): nat
    requires k < Size(l)
  {
    Positive(l, k);
    if l.rowMajor then k / l.cols else k % l.rows
  }

  function ColOf(l: Layout, k: nat): nat
    requires k < Size(l)
  {
    Positive(l, k);
    if l.rowMajor then k % l.cols else k / l.rows
  }

  lemma Positive(l: Layout, k: nat)
    requires k < Size(l)
    ensures l.rows > 0 && l.cols > 0
  {
  }

  lemma Monotone(a: nat, b: nat, n: nat)
    requires a <= b
    ensures a * n <= b * n
  {
  }

  lemma Succ(q: nat, a: nat)
    ensures (q + 1) * a == q * a + a
  {
  }

  lemma InRange(x: nat, y: nat, a: nat, b: nat)
    requires x < a && y < b
    ensures x + y * a < a * b
  {
    Monotone(y + 1, b, a);
    assert (y + 1) * a == y * a + a;
    assert b * a == a * b;
  }

  lemma DivMod(x: nat, y: nat, a: nat)
    requires x < a
    ensures (x + y * a) / a == y && (x + y * a) % a == x
  {
    var k := x + y * a;
    var q := k / a;
    assert k == q * a + k % a;
    Succ(q, a);
    Succ(y, a);
    if q < y { Monotone(q + 1, y, a); } else if q > y { Monotone(y + 1, q, a); }
  }

  lemma QuotientBelow(k: nat, a: nat, b: nat)
    requires a > 0 && k < a * b
    ensures k / a < b && k % a < a && k == k % a + (k / a) * a
  {
    assert b * a == a * b;
    if k / a >= b { Monotone(b, k / a, a); }
  }

  /** Offset maps the cells one to one onto the storage. */
  lemma OffsetOf(l: Layout, row: nat, col: nat)
    requires row < l.rows && col < l.cols
    ensures Offset(l, row, col) < Size(l)
    ensures RowOf(l, Offset(l, row, col)) == row && ColOf(l, Offset(l, row, col)) == col
  {
    if l.rowMajor {
      InRange(col, row, l.cols, l.rows);
      assert l.cols * l.rows == Size(l);
      DivMod(col, row, l.cols);
    } else {
      InRange(row, col, l.rows, l.cols);
      DivMod(row, col, l.rows);
    }
  }

  lemma CellOf(l: Layout, k: nat)
    requires k < Size(l)
    ensures RowOf(l, k) < l.rows && ColOf(l, k) < l.cols && Offset(l, RowOf(l, k), ColOf(l, k)) == k
  {
    Positive(l, k);
    if l.rowMajor {
      assert l.cols * l.rows == Size(l);
      QuotientBelow(k, l.cols, l.rows);
    } else {
      QuotientBelow(k, l.rows, l.cols);
    }
  }

  lemma OffsetsApart(l: Layout, row: nat, col: nat, row': nat, col': nat)
    requires row < l.rows && col < l.cols && row' < l.rows && col' < l.cols && (row != row' || col != col')
    ensures Offset(l, row, col) != Offset(l, row', col')
  {
    OffsetOf(l, row, col);
    OffsetOf(l, row', col');
  }

  /** The compile-time and the run-time form agree for a matrix whose size fits the word. */
  lemma FormsAgree(l: Layout, row: nat, col: nat, w: nat)
    requires row < l.rows && col < l.cols && Size(l) <= w
    ensures w > 0 && SelectedOffset(l.rows, l.cols, if l.rowMajor then 1 else 0, row, col, w) == Offset(l, row, col)
  {
    OffsetOf(l, row, col);
    if l.rowMajor { Mod(row * l.cols, w); Mod(row * l.cols + col, w); } else { Mod(col * l.rows, w); Mod(col * l.rows + row, w); }
  }

  lemma Mod(x: nat, w: nat)
    requires x < w
    ensures x % w == x
  {
  }

  function Cell(m: seq<int>, l: Layout, row: nat, col: nat): int
    requires |m| == Size(l) && row < l.rows && col < l.cols
  {
    OffsetOf(l, row, col);
    m[Offset(l, row, col)]
  }

  /** Storage whose cells agree is the same storage. */
  lemma SameCells(m: seq<int>, m': seq<int>, l: Layout)
    requires |m| == |m'| == Size(l)
    requires forall i, j | 0 <= i < l.rows && 0 <= j < l.cols :: Cell(m, l, i, j) == Cell(m', l, i, j)
    ensures m == m'
  {
    forall k | 0 <= k < Size(l) ensures m[k] == m'[k] {
      CellOf(l, k);
      assert Cell(m, l, RowOf(l, k), ColOf(l, k)) == m[k];
    }
  }

  // ---- what the operations compute ----

  ghost predicate Fits(m: seq<int>, l: Layout) { |m| == Size(l) }

  ghost predicate IsTranspose(r: seq<int>, lr: Layout, m: seq<int>, l: Layout) {
    && |m| == Size(l) && |r| == Size(lr) && lr.rows == l.cols && lr.cols == l.rows
    && forall i, j | 0 <= i < l.rows && 0 <= j < l.cols :: Cell(r, lr, j, i) == Cell(m, l, i, j)
  }

  /** The sum of the first n products of row i with column k. */
  function Dot(a: seq<int>, la: Layout, b: seq<int>, lb: Layout, i: nat, k: nat, n: nat): int
    requires |a| == Size(la) && |b| == Size(lb) && i < la.rows && k < lb.cols && n <= la.cols && n <= lb.rows
  {
    if n == 0 then 0 else Dot(a, la, b, lb, i, k, n - 1) + Cell(a, la, i, n - 1) * Cell(b, lb, n - 1, k)
  }

  ghost predicate IsProduct(r: seq<int>, lr: Layout, a: seq<int>, la: Layout, b: seq<int>, lb: Layout, m: nat) {
    && m > 0 && |a| == Size(la) && |b| == Size(lb) && |r| == Size(lr)
    && la.cols == lb.rows && lr.rows == la.rows && lr.cols == lb.cols
    && forall i, k | 0 <= i < lr.rows && 0 <= k < lr.cols :: Cell(r, lr, i, k) == Dot(a, la, b, lb, i, k, la.cols) % m
  }

  ghost predicate IsIdentity(b: seq<int>, lb: Layout) {
    |b| == Size(lb) && lb.rows == lb.cols && forall i, j | 0 <= i < lb.rows && 0 <= j < lb.cols :: Cell(b, lb, i, j) == if i == j then 1 else 0
  }

  lemma {:induction false} DotIdentity(a: seq<int>, la: Layout, b: seq<int>, lb: Layout, i: nat, k: nat, n: nat)
    requires |a| == Size(la) && |b| == Size(lb) && i < la.rows && k < lb.cols && n <= la.cols && n <= lb.rows
    ensures IsIdentity(b, lb) && k < la.cols ==> Dot(a, la, b, lb, i, k, n) == if k < n then Cell(a, la, i, k) else 0
    ensures IsIdentity(a, la) && i < lb.rows ==> Dot(a, la, b, lb, i, k, n) == if i < n then Cell(b, lb, i, k) else 0
    decreases n
  {
    hide Cell;
    if n > 0 { DotIdentity(a, la, b, lb, i, k, n - 1); }
  }

  /** Multiplying with the identity, on either side and in any layouts, gives the matrix modulo m. */
  lemma ProductIdentity(r: seq<int>, lr: Layout, a: seq<int>, la: Layout, b: seq<int>, lb: Layout, m: nat)
    requires IsProduct(r, lr, a, la, b, lb, m)
    ensures IsIdentity(b, lb) ==> forall i, k | 0 <= i < lr.rows && 0 <= k < lr.cols :: Cell(r, lr, i, k) == Cell(a, la, i, k) % m
    ensures IsIdentity(a, la) ==> forall i, k | 0 <= i < lr.rows && 0 <= k < lr.cols :: Cell(r, lr, i, k) == Cell(b, lb, i, k) % m
  {
    hide Cell, Dot, IsIdentity;
    assert IsIdentity(b, lb) ==> lb.rows == lb.cols by { Square(b, lb); }
    assert IsIdentity(a, la) ==> la.rows == la.cols by { Square(a, la); }
    forall i, k | 0 <= i < lr.rows && 0 <= k < lr.cols
      ensures IsIdentity(b, lb) ==> Cell(r, lr, i, k) == Cell(a, la, i, k) % m
      ensures IsIdentity(a, la) ==> Cell(r, lr, i, k) == Cell(b, lb, i, k) % m
    {
      DotIdentity(a, la, b, lb, i, k, la.cols);
    }
  }

  lemma Square(b: seq<int>, lb: Layout)
    ensures IsIdentity(b, lb) ==> lb.rows == lb.cols
  {
  }

  /** In a row-major matrix the neighbours in a row lie next to one another, in a column-major one those in a column. */
  lemma Neighbours(l: Layout, row: nat, col: nat)
    requires row < l.rows && col < l.cols
    ensures l.rowMajor ==> Offset(l, row, col + 1) == Offset(l, row, col) + 1 && Offset(l, row + 1, 0) == Offset(l, row, 0) + l.cols
    ensures !l.rowMajor ==> Offset(l, row + 1, col) == Offset(l, row, col) + 1 && Offset(l, 0, col + 1) == Offset(l, 0, col) + l.rows
    ensures Offset(l, 0, 0) == 0
  {
  }

  // ---- the loops ----

  /** A store to one cell leaves every other cell. */
  method StoreCell(r: array<int>, l: Layout, row: nat, col: nat, v: int)
    requires r.Length == Size(l) && row < l.rows && col < l.cols
    modifies r
    ensures forall i, j | 0 <= i < l.rows && 0 <= j < l.cols ::
      Cell(r[..], l, i, j) == if i == row && j == col then v else old(Cell(r[..], l, i, j))
  {
    OffsetOf(l, row, col);
    ghost var was := r[..];
    r[Offset(l, row, col)] := v;
    forall i, j | 0 <= i < l.rows && 0 <= j < l.cols
      ensures Cell(r[..], l, i, j) == if i == row && j == col then v else Cell(was, l, i, j)
    {
      OffsetOf(l, i, j);
      if i != row || j != col { OffsetsApart(l, i, j, row, col); }
    }
  }

  method LoadCell(a: array<int>, l: Layout, row: nat, col: nat) returns (v: int)
    requires a.Length == Size(l) && row < l.rows && col < l.cols
    ensures v == Cell(a[..], l, row, col)
  {
    OffsetOf(l, row, col);
    v := a[Offset(l, row, col)];
  }

  method Multiply(a: array<int>, la: Layout, b: array<int>, lb: Layout, lr: Layout, m: nat) returns (r: array<int>)
    requires m > 0 && a.Length == Size(la) && b.Length == Size(lb)
    requires la.cols == lb.rows && lr.rows == la.rows && lr.cols == lb.cols
    ensures fresh(r) && IsProduct(r[..], lr, a[..], la, b[..], lb, m)
  {
    hide Cell, Dot;
    r := new int[Size(lr)](_ => 0);
    for i := 0 to lr.rows
      invariant forall x, y | 0 <= x < i && 0 <= y < lr.cols :: Cell(r[..], lr, x, y) == Dot(a[..], la, b[..], lb, x, y, la.cols) % m
    {
      for k := 0 to lr.cols
        invariant forall x, y | 0 <= x < i && 0 <= y < lr.cols :: Cell(r[..], lr, x, y) == Dot(a[..], la, b[..], lb, x, y, la.cols) % m
        invariant forall y | 0 <= y < k :: Cell(r[..], lr, i, y) == Dot(a[..], la, b[..], lb, i, y, la.cols) % m
      {
        var sum := RowTimesColumn(a, la, b, lb, i, k, m);
        StoreCell(r, lr, i, k, sum);
      }
    }
  }

  /** The accumulator wraps at every step, and still is the sum modulo m. */
  method RowTimesColumn(a: array<int>, la: Layout, b: array<int>, lb: Layout, i: nat, k: nat, m: nat) returns (sum: int)
    requires m > 0 && a.Length == Size(la) && b.Length == Size(lb) && la.cols == lb.rows && i < la.rows && k < lb.cols
    ensures sum == Dot(a[..], la, b[..], lb, i, k, la.cols) % m
  {
    sum := 0;
    for j := 0 to la.cols
      invariant sum == Dot(a[..], la, b[..], lb, i, k, j) % m
    {
      var x := LoadCell(a, la, i, j);
      var y := LoadCell(b, lb, j, k);
      SumMod(Dot(a[..], la, b[..], lb, i, k, j), x * y, m);
      sum := (sum + x * y % m) % m;
    }
  }

  method Transpose(a: array<int>, l: Layout, lr: Layout) returns (r: array<int>)
    requires a.Length == Size(l) && lr.rows == l.cols && lr.cols == l.rows
    ensures fresh(r) && IsTranspose(r[..], lr, a[..], l)
  {
    hide Cell;
    r := new int[Size(lr)](_ => 0);
    for i := 0 to l.rows
      invariant forall x, y | 0 <= x < i && 0 <= y < l.cols :: Cell(r[..], lr, y, x) == Cell(a[..], l, x, y)
    {
      for j := 0 to l.cols
        invariant forall x, y | 0 <= x < i && 0 <= y < l.cols :: Cell(r[..], lr, y, x) == Cell(a[..], l, x, y)
        invariant forall y | 0 <= y < j :: Cell(r[..], lr, y, i) == Cell(a[..], l, i, y)
      {
        var v := LoadCell(a, l, i, j);
        StoreCell(r, lr, j, i, v);
      }
    }
  }

  /** Walking the elements in reading order touches each cell once. */
  method Hadamard(a: array<int>, b: array<int>, l: Layout, m: nat) returns (r: array<int>)
    requires m > 0 && a.Length == b.Length == Size(l)
    ensures fresh(r) && r.Length == Size(l)
    ensures forall i, j | 0 <= i < l.rows && 0 <= j < l.cols :: Cell(r[..], l, i, j) == Cell(a[..], l, i, j) * Cell(b[..], l, i, j) % m
  {
    hide Cell;
    r := new int[Size(l)](_ => 0);
    for k := 0 to Size(l)
      invariant forall i, j | 0 <= i < l.rows && 0 <= j < l.cols && Reading(l, i, j) < k ::
        Cell(r[..], l, i, j) == Cell(a[..], l, i, j) * Cell(b[..], l, i, j) % m
    {
      ReadingCell(l, k);
      var row, col := k / l.cols, k % l.cols;
      var x := LoadCell(a, l, row, col);
      var y := LoadCell(b, l, row, col);
      StoreCell(r, l, row, col, x * y % m);
      forall i, j | 0 <= i < l.rows && 0 <= j < l.cols && Reading(l, i, j) == k ensures i == row && j == col { ReadingOf(l, i, j); }
    }
    forall i, j | 0 <= i < l.rows && 0 <= j < l.cols ensures Reading(l, i, j) < Size(l) { ReadingOf(l, i, j); }
  }

  /** The values of a matrix literal are given in reading order; surplus ones are dropped, and a cell without a value
      holds whatever the undefined matrix it started from held. */
  method Literal(values: seq<int>, l: Layout) returns (r: array<int>)
    ensures fresh(r) && r.Length == Size(l)
    ensures forall i, j | 0 <= i < l.rows && 0 <= j < l.cols && Reading(l, i, j) < |values| ::
      Cell(r[..], l, i, j) == values[Reading(l, i, j)]
  {
    hide Cell;
    r := new int[Size(l)];
    var idx: nat := 0;
    while idx < |values| && idx < Size(l)
      invariant idx <= |values| && idx <= Size(l)
      invariant forall i, j | 0 <= i < l.rows && 0 <= j < l.cols && Reading(l, i, j) < idx :: Cell(r[..], l, i, j) == values[Reading(l, i, j)]
    {
      ReadingCell(l, idx);
      StoreCell(r, l, idx / l.cols, idx % l.cols, values[idx]);
      forall i, j | 0 <= i < l.rows && 0 <= j < l.cols && Reading(l, i, j) == idx ensures i == idx / l.cols && j == idx % l.cols { ReadingOf(l, i, j); }
      idx := idx + 1;
    }
    forall i, j | 0 <= i < l.rows && 0 <= j < l.cols ensures Reading(l, i, j) < Size(l) { ReadingOf(l, i, j); }
  }

  /** Flattening copies the storage in its own order, whatever the layout. */
  method Flatten(a: array<int>, l: Layout) returns (r: array<int>)
    requires a.Length == Size(l)
    ensures fresh(r) && r[..] == a[..]
  {
    hide Cell;
    r := new int[Size(l)](_ => 0);
    for i := 0 to l.rows
      invariant forall x, y | 0 <= x < i && 0 <= y < l.cols :: Cell(r[..], l, x, y) == Cell(a[..], l, x, y)
    {
      for j := 0 to l.cols
        invariant forall x, y | 0 <= x < i && 0 <= y < l.cols :: Cell(r[..], l, x, y) == Cell(a[..], l, x, y)
        invariant forall y | 0 <= y < j :: Cell(r[..], l, i, y) == Cell(a[..], l, i, y)
      {
        var v := LoadCell(a, l, i, j);
        StoreCell(r, l, i, j, v);
      }
    }
    SameCells(r[..], a[..], l);
  }

  /** The position of a cell in reading order: row after row. */
  function Reading(l: Layout, row: nat, col: nat): nat { col + row * l.cols }

  lemma ReadingOf(l: Layout, row: nat, col: nat)
    requires row < l.rows && col < l.cols
    ensures Reading(l, row, col) < Size(l)
    ensures Reading(l, row, col) / l.cols == row && Reading(l, row, col) % l.cols == col
  {
    InRange(col, row, l.cols, l.rows);
    assert l.cols * l.rows == Size(l);
    DivMod(col, row, l.cols);
  }

  lemma ReadingCell(l: Layout, k: nat)
    requires k < Size(l)
    ensures l.cols > 0 && k / l.cols < l.rows && k % l.cols < l.cols && Reading(l, k / l.cols, k % l.cols) == k
  {
    Positive(l, k);
    assert l.cols * l.rows == Size(l);
    QuotientBelow(k, l.cols, l.rows);
  }

  lemma SumMod(x: int, y: int, m: nat)
    requires m > 0
    ensures (x % m + y % m) % m == (x + y) % m
  {
    var q := x / m + y / m;
    var r := x % m + y % m;
    assert x + y == q * m + r by { calc { x + y; (x / m) * m + x % m + (y / m) * m + y % m; (x / m + y / m) * m + r; } }
    ModShift(r, q, m);
  }

  lemma ModShift(r: int, q: int, m: nat)
    requires m > 0
    ensures (q * m + r) % m == r % m
  {
    var z := q * m + r;
    var k := r / m;
    assert z == (q + k) * m + r % m by { calc { z; q * m + (k * m + r % m); (q + k) * m + r % m; } }
    ModUnique(z, q + k, r % m, m);
  }

  lemma ModUnique(z: int, q: int, r: int, m: nat)
    requires m > 0 && z == q * m + r && 0 <= r < m
    ensures z % m == r
  {
    var q', r' := z / m, z % m;
    assert z == q' * m + r';
    if q' != q { Between(q, q', r, r', m); }
  }

  lemma Between(q: int, q': int, r: int, r': int, m: nat)
    requires m > 0 && q * m + r == q' * m + r' && 0 <= r < m && 0 <= r' < m
    ensures q == q'
  {
    var d := q' - q;
    assert d * m == r - r' by { calc { d * m; q' * m - q * m; } }
    assert (-d) * m == -(d * m);
    if d >= 1 { Times(d, m); } else if d <= -1 { Times(-d, m); }
  }

  lemma Times(d: int, m: nat)
    requires d >= 1
    ensures d * m >= m
  {
  }

  // ---- the mathematics ----

  /** Transposing twice, through any layouts, gives the matrix back. */
  lemma TransposeTwice(m: seq<int>, l: Layout, t: seq<int>, lt: Layout, r: seq<int>)
    requires IsTranspose(t, lt, m, l) && IsTranspose(r, l, t, lt)
    ensures r == m
  {
    hide Cell;
    SameCells(r, m, l);
  }

  /** There is only one transpose in a given layout. */
  lemma TransposeUnique(r: seq<int>, r': seq<int>, lr: Layout, m: seq<int>, l: Layout)
    requires IsTranspose(r, lr, m, l) && IsTranspose(r', lr, m, l)
    ensures r == r'
  {
    hide Cell;
    SameCells(r, r', lr);
  }

  /** And only one product. */
  lemma ProductUnique(r: seq<int>, r': seq<int>, lr: Layout, a: seq<int>, la: Layout, b: seq<int>, lb: Layout, m: nat)
    requires IsProduct(r, lr, a, la, b, lb, m) && IsProduct(r', lr, a, la, b, lb, m)
    ensures r == r'
  {
    hide Cell, Dot;
    SameCells(r, r', lr);
  }

  lemma {:induction false} DotTransposed(a: seq<int>, la: Layout, b: seq<int>, lb: Layout, at: seq<int>, lat: Layout, bt: seq<int>, lbt: Layout, i: nat, k: nat, n: nat)
    requires IsTranspose(at, lat, a, la) && IsTranspose(bt, lbt, b, lb)
    requires i < la.rows && k < lb.cols && n <= la.cols && n <= lb.rows
    ensures Dot(a, la, b, lb, i, k, n) == Dot(bt, lbt, at, lat, k, i, n)
  {
    hide Cell;
    if n > 0 {
      DotTransposed(a, la, b, lb, at, lat, bt, lbt, i, k, n - 1);
      assert Cell(at, lat, n - 1, i) == Cell(a, la, i, n - 1) && Cell(bt, lbt, k, n - 1) == Cell(b, lb, n - 1, k);
    }
  }

  /** The transpose of a product is the product of the transposes in the other order, whatever the five layouts. */
  lemma TransposeOfProduct(a: seq<int>, la: Layout, b: seq<int>, lb: Layout, p: seq<int>, lp: Layout, pt: seq<int>, lpt: Layout,
                           at: seq<int>, lat: Layout, bt: seq<int>, lbt: Layout, q: seq<int>, m: nat)
    requires IsProduct(p, lp, a, la, b, lb, m) && IsTranspose(pt, lpt, p, lp)
    requires IsTranspose(at, lat, a, la) && IsTranspose(bt, lbt, b, lb) && IsProduct(q, lpt, bt, lbt, at, lat, m)
    ensures pt == q
  {
    hide Cell, Dot;
    forall k, i | 0 <= k < lpt.rows && 0 <= i < lpt.cols ensures Cell(pt, lpt, k, i) == Cell(q, lpt, k, i) {
      DotTransposed(a, la, b, lb, at, lat, bt, lbt, i, k, la.cols);
      assert Cell(pt, lpt, k, i) == Cell(p, lp, i, k);
    }
    SameCells(pt, q, lpt);
  }

  // ---- products of three matrices ----

  /** Sum over k below n of (sum over j below p of a(i,j) b(j,k)) c(k,t). */
  function Outer(a: seq<int>, la: Layout, b: seq<int>, lb: Layout, c: seq<int>, lc: Layout, i: nat, t: nat, p: nat, n: nat): int
    requires |a| == Size(la) && |b| == Size(lb) && |c| == Size(lc) && i < la.rows && t < lc.cols
    requires p <= la.cols == lb.rows && n <= lb.cols == lc.rows
  {
    if n == 0 then 0 else Outer(a, la, b, lb, c, lc, i, t, p, n - 1) + Dot(a, la, b, lb, i, n - 1, p) * Cell(c, lc, n - 1, t)
  }

  /** Sum over j below p of a(i,j) (sum over k below n of b(j,k) c(k,t)). */
  function Inner(a: seq<int>, la: Layout, b: seq<int>, lb: Layout, c: seq<int>, lc: Layout, i: nat, t: nat, p: nat, n: nat): int
    requires |a| == Size(la) && |b| == Size(lb) && |c| == Size(lc) && i < la.rows && t < lc.cols
    requires p <= la.cols == lb.rows && n <= lb.cols == lc.rows
  {
    if p == 0 then 0 else Inner(a, la, b, lb, c, lc, i, t, p - 1, n) + Cell(a, la, i, p - 1) * Dot(b, lb, c, lc, p - 1, t, n)
  }

  lemma {:induction false} Exchange(a: seq<int>, la: Layout, b: seq<int>, lb: Layout, c: seq<int>, lc: Layout, i: nat, t: nat, p: nat, n: nat)
    requires |a| == Size(la) && |b| == Size(lb) && |c| == Size(lc) && i < la.rows && t < lc.cols
    requires p <= la.cols == lb.rows && n <= lb.cols == lc.rows
    ensures Outer(a, la, b, lb, c, lc, i, t, p, n) == Inner(a, la, b, lb, c, lc, i, t, p, n)
    decreases p
  {
    if p == 0 {
      OuterNone(a, la, b, lb, c, lc, i, t, n);
    } else {
      Exchange(a, la, b, lb, c, lc, i, t, p - 1, n);
      OuterStep(a, la, b, lb, c, lc, i, t, p, n);
    }
  }

  lemma {:induction false} OuterNone(a: seq<int>, la: Layout, b: seq<int>, lb: Layout, c: seq<int>, lc: Layout, i: nat, t: nat, n: nat)
    requires |a| == Size(la) && |b| == Size(lb) && |c| == Size(lc) && i < la.rows && t < lc.cols
    requires la.cols == lb.rows && n <= lb.cols == lc.rows
    ensures Outer(a, la, b, lb, c, lc, i, t, 0, n) == 0
  {
    if n > 0 { OuterNone(a, la, b, lb, c, lc, i, t, n - 1); }
  }

  lemma {:induction false} OuterStep(a: seq<int>, la: Layout, b: seq<int>, lb: Layout, c: seq<int>, lc: Layout, i: nat, t: nat, p: nat, n: nat)
    requires |a| == Size(la) && |b| == Size(lb) && |c| == Size(lc) && i < la.rows && t < lc.cols
    requires 0 < p <= la.cols == lb.rows && n <= lb.cols == lc.rows
    ensures Outer(a, la, b, lb, c, lc, i, t, p, n) ==
      Outer(a, la, b, lb, c, lc, i, t, p - 1, n) + Cell(a, la, i, p - 1) * Dot(b, lb, c, lc, p - 1, t, n)
  {
    hide Cell;
    if n > 0 {
      OuterStep(a, la, b, lb, c, lc, i, t, p, n - 1);
      var x, d := Cell(a, la, i, p - 1), Dot(a, la, b, lb, i, n - 1, p - 1);
      var y, z := Cell(b, lb, p - 1, n - 1), Cell(c, lc, n - 1, t);
      var e := Dot(b, lb, c, lc, p - 1, t, n - 1);
      Distribute(d, x, y, z, e);
    }
  }

  lemma Distribute(d: int, x: int, y: int, z: int, e: int)
    ensures (d + x * y) * z == d * z + x * (y * z)
    ensures x * (e + y * z) == x * e + x * (y * z)
  {
  }

  lemma MulMod(x: int, y: int, m: nat)
    requires m > 0
    ensures (x % m) * y % m == x * y % m && x * (y % m) % m == x * y % m
  {
    MulModLeft(x, y, m);
    MulModLeft(y, x, m);
  }

  lemma MulModLeft(x: int, y: int, m: nat)
    requires m > 0
    ensures (x % m) * y % m == x * y % m
  {
    var q, r := x / m, x % m;
    assert x == q * m + r;
    Regroup(q, m, r, y);
    ModShift(r * y, q * y, m);
  }

  lemma Regroup(q: int, m: int, r: int, y: int)
    ensures (q * m + r) * y == (q * y) * m + r * y
  {
  }

  lemma AddMod(x: int, x': int, y: int, y': int, m: nat)
    requires m > 0 && x % m == x' % m && y % m == y' % m
    ensures (x + y) % m == (x' + y') % m
  {
    SumMod(x, y, m);
    SumMod(x', y', m);
  }

  lemma {:induction false} LeftProduct(a: seq<int>, la: Layout, b: seq<int>, lb: Layout, c: seq<int>, lc: Layout, p: seq<int>, lp: Layout, i: nat, t: nat, n: nat, m: nat)
    requires IsProduct(p, lp, a, la, b, lb, m) && |c| == Size(lc) && i < la.rows && t < lc.cols && n <= lb.cols == lc.rows
    ensures Dot(p, lp, c, lc, i, t, n) % m == Outer(a, la, b, lb, c, lc, i, t, la.cols, n) % m
  {
    hide Cell;
    if n > 0 {
      LeftProduct(a, la, b, lb, c, lc, p, lp, i, t, n - 1, m);
      var d, z := Dot(a, la, b, lb, i, n - 1, la.cols), Cell(c, lc, n - 1, t);
      assert Cell(p, lp, i, n - 1) == d % m;
      MulMod(d, z, m);
      AddMod(Dot(p, lp, c, lc, i, t, n - 1), Outer(a, la, b, lb, c, lc, i, t, la.cols, n - 1), (d % m) * z, d * z, m);
    }
  }

  lemma {:induction false} RightProduct(a: seq<int>, la: Layout, b: seq<int>, lb: Layout, c: seq<int>, lc: Layout, q: seq<int>, lq: Layout, i: nat, t: nat, p: nat, m: nat)
    requires IsProduct(q, lq, b, lb, c, lc, m) && |a| == Size(la) && i < la.rows && t < lc.cols && p <= la.cols == lb.rows
    ensures Dot(a, la, q, lq, i, t, p) % m == Inner(a, la, b, lb, c, lc, i, t, p, lb.cols) % m
  {
    hide Cell;
    if p > 0 {
      RightProduct(a, la, b, lb, c, lc, q, lq, i, t, p - 1, m);
      var x, d := Cell(a, la, i, p - 1), Dot(b, lb, c, lc, p - 1, t, lb.cols);
      assert Cell(q, lq, p - 1, t) == d % m;
      MulMod(x, d, m);
      AddMod(Dot(a, la, q, lq, i, t, p - 1), Inner(a, la, b, lb, c, lc, i, t, p - 1, lb.cols), x * (d % m), x * d, m);
    }
  }

  /** Multiplication is associative, wrapping included, whatever the layouts in between. */
  lemma ProductAssociative(a: seq<int>, la: Layout, b: seq<int>, lb: Layout, c: seq<int>, lc: Layout,
                           p: seq<int>, lp: Layout, q: seq<int>, lq: Layout, left: seq<int>, right: seq<int>, lr: Layout, m: nat)
    requires IsProduct(p, lp, a, la, b, lb, m) && IsProduct(left, lr, p, lp, c, lc, m)
    requires IsProduct(q, lq, b, lb, c, lc, m) && IsProduct(right, lr, a, la, q, lq, m)
    ensures left == right
  {
    hide Cell, Dot, Outer, Inner;
    forall i, t | 0 <= i < lr.rows && 0 <= t < lr.cols ensures Cell(left, lr, i, t) == Cell(right, lr, i, t) {
      LeftProduct(a, la, b, lb, c, lc, p, lp, i, t, lb.cols, m);
      RightProduct(a, la, b, lb, c, lc, q, lq, i, t, la.cols, m);
      Exchange(a, la, b, lb, c, lc, i, t, la.cols, lb.cols);
    }
    SameCells(left, right, lr);
  }
}
