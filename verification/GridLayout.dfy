/** Widgets placed on the cells of a paged grid. */
module GridLayout {
  import opened Sizes

  datatype Placement = Placement(
    instanceId: string, widgetId: string,
    col: int, row: int, colSpan: int, rowSpan: int,
    page: int, visible: bool)

  datatype Descriptor = Descriptor(singleton: bool, minCols: int, minRows: int, maxCols: int, maxRows: int)

  /** The widget registry; no registry is a registry that knows no widget. */
  type Registry = map<string, Descriptor>

  ghost predicate ValidRegistry(reg: Registry) {
    forall w :: w in reg ==> reg[w].minCols >= 1 && reg[w].minRows >= 1
  }

  predicate IsSingleton(reg: Registry, widgetId: string) {
    widgetId in reg && reg[widgetId].singleton
  }

  /** Spans of at least one cell, from a non-negative corner, on a non-negative page. */
  predicate WellFormed(p: Placement) {
    p.col >= 0 && p.row >= 0 && p.colSpan >= 1 && p.rowSpan >= 1 && p.page >= 0 && p.instanceId != ""
  }

  predicate Covers(p: Placement, c: int, r: int) {
    p.col <= c < p.col + p.colSpan && p.row <= r < p.row + p.rowSpan
  }

  predicate Overlap(col: int, row: int, colSpan: int, rowSpan: int, p: Placement) {
    col < p.col + p.colSpan && col + colSpan > p.col && row < p.row + p.rowSpan && row + rowSpan > p.row
  }

  /** Rectangles overlap exactly when they share a cell. */
  lemma OverlapIsSharedCell(col: int, row: int, colSpan: int, rowSpan: int, p: Placement)
    requires colSpan >= 1 && rowSpan >= 1 && p.colSpan >= 1 && p.rowSpan >= 1
    ensures Overlap(col, row, colSpan, rowSpan, p) <==>
            exists c, r :: col <= c < col + colSpan && row <= r < row + rowSpan && Covers(p, c, r)
  {
    if Overlap(col, row, colSpan, rowSpan, p) {
      var c := if col > p.col then col else p.col;
      var r := if row > p.row then row else p.row;
      assert Covers(p, c, r);
    }
  }

  /** Two placements never cover the same cell of the same page. */
  predicate Apart(p: Placement, q: Placement) {
    p.visible && q.visible && p.page == q.page ==> !Overlap(p.col, p.row, p.colSpan, p.rowSpan, q)
  }

  predicate InGrid(p: Placement, cols: int, rows: int) {
    p.visible ==> 0 <= p.col && 0 <= p.row && p.col + p.colSpan <= cols && p.row + p.rowSpan <= rows
  }

  ghost predicate AllWellFormed(ps: seq<Placement>) {
    forall i :: 0 <= i < |ps| ==> WellFormed(ps[i])
  }

  ghost predicate UniqueIds(ps: seq<Placement>) {
    forall i, j :: 0 <= i < j < |ps| ==> ps[i].instanceId != ps[j].instanceId
  }

  /** Every visible placement is inside the grid, and on each page they are disjoint. */
  ghost predicate SoundLayout(ps: seq<Placement>, cols: int, rows: int) {
    && (forall i :: 0 <= i < |ps| ==> InGrid(ps[i], cols, rows))
    && (forall i, j :: 0 <= i < |ps| && 0 <= j < |ps| && i != j ==> Apart(ps[i], ps[j]))
  }

  ghost predicate PagesBelow(ps: seq<Placement>, count: int) {
    forall i :: 0 <= i < |ps| ==> ps[i].page < count
  }

  // ---- Flat cell arrays ----

  function Index(cols: int, c: int, r: int): int {
    r * cols + c
  }

  lemma IndexInside(cols: int, rows: int, c: int, r: int)
    requires 0 <= c < cols && 0 <= r < rows
    ensures 0 <= Index(cols, c, r) < cols * rows
  {
    ProductSign(r, cols);
    ProductSign(rows - 1 - r, cols);
    assert (rows - 1 - r) * cols == cols * rows - cols - r * cols;
  }

  lemma IndexInjective(cols: int, c: int, r: int, c': int, r': int)
    requires 0 <= c < cols && 0 <= c' < cols && Index(cols, c, r) == Index(cols, c', r')
    ensures c == c' && r == r'
  {
    var d := r - r';
    assert d * cols == r * cols - r' * cols;
    Multiple(d, cols, c' - c);
  }

  lemma Multiple(d: int, cols: int, e: int)
    requires cols > 0 && d * cols == e && -cols < e < cols
    ensures d == 0
  {
    ProductSign(d - 1, cols);
    ProductSign(-d - 1, cols);
    assert (d - 1) * cols == d * cols - cols;
    assert (-d - 1) * cols == -(d * cols) - cols;
  }
}
