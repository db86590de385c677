/** Flat cell arrays: who owns each cell of one page. */
module GridCells {
  import opened GridLayout

  /** The owner of a cell, "" for none and for anything outside the array. */
  function CellAt(cells: seq<string>, cols: int, c: int, r: int): string {
    if 0 <= Index(cols, c, r) < |cells| then cells[Index(cols, c, r)] else ""
  }

  function Blank(n: nat): (cells: seq<string>)
    ensures |cells| == n && forall k :: 0 <= k < n ==> cells[k] == ""
  {
    seq(n, _ => "")
  }

  /** Writing one cell changes no other cell of the grid. */
  lemma WriteCell(cells: seq<string>, cols: int, rows: int, c: int, r: int, id: string, c': int, r': int)
    requires |cells| == cols * rows && 0 <= c < cols && 0 <= r < rows && 0 <= c' < cols && 0 <= r' < rows
    requires 0 <= Index(cols, c, r) < |cells|
    ensures CellAt(cells[Index(cols, c, r) := id], cols, c', r')
            == if c == c' && r == r' then id else CellAt(cells, cols, c', r')
  {
    hide Index;
    IndexInside(cols, rows, c', r');
    if Index(cols, c, r) == Index(cols, c', r') { IndexInjective(cols, c, r, c', r'); }
  }

  /** The cells `p` covers are marked with its id; a cell beyond the grid is skipped. */
  method MarkCells(cells: seq<string>, cols: int, rows: int, p: Placement) returns (marked: seq<string>)
    requires cols >= 0 && rows >= 0 && |cells| == cols * rows && p.col >= 0 && p.row >= 0
    ensures |marked| == |cells|
    ensures forall c, r :: 0 <= c < cols && 0 <= r < rows ==>
              CellAt(marked, cols, c, r) == if Covers(p, c, r) then p.instanceId else CellAt(cells, cols, c, r)
  {
    hide CellAt, Index;
    marked := cells;
    var c := p.col;
    while c < p.col + p.colSpan
      invariant c >= p.col && |marked| == |cells|
      invariant forall x, y :: 0 <= x < cols && 0 <= y < rows ==>
                  CellAt(marked, cols, x, y) == if x < c && Covers(p, x, y) then p.instanceId else CellAt(cells, cols, x, y)
    {
      var r := p.row;
      while r < p.row + p.rowSpan
        invariant r >= p.row && |marked| == |cells|
        invariant forall x, y :: 0 <= x < cols && 0 <= y < rows ==>
                    CellAt(marked, cols, x, y)
                    == if (x < c || (x == c && y < r)) && Covers(p, x, y) then p.instanceId else CellAt(cells, cols, x, y)
      {
        if c < cols && r < rows {
          IndexInside(cols, rows, c, r);
          forall x, y | 0 <= x < cols && 0 <= y < rows
            ensures CellAt(marked[Index(cols, c, r) := p.instanceId], cols, x, y)
                    == if x == c && y == r then p.instanceId else CellAt(marked, cols, x, y)
          {
            WriteCell(marked, cols, rows, c, r, p.instanceId, x, y);
          }
          marked := marked[Index(cols, c, r) := p.instanceId];
        }
        r := r + 1;
      }
      c := c + 1;
    }
  }

  /** No cell of the rectangle inside the grid has an owner. */
  ghost predicate AllFree(cells: seq<string>, cols: int, rows: int, col: int, row: int, w: int, h: int) {
    forall c, r :: col <= c < col + w && row <= r < row + h && c < cols && r < rows ==> CellAt(cells, cols, c, r) == ""
  }

  method CellsFree(cells: seq<string>, cols: int, rows: int, col: int, row: int, w: int, h: int) returns (free: bool)
    requires cols >= 0 && rows >= 0 && |cells| == cols * rows && col >= 0 && row >= 0
    ensures free <==> AllFree(cells, cols, rows, col, row, w, h)
  {
    free := true;
    var c := col;
    while c < col + w && free
      invariant c >= col
      invariant free ==> forall x, y :: col <= x < c && x < col + w && row <= y < row + h && x < cols && y < rows ==>
                           CellAt(cells, cols, x, y) == ""
      invariant !free ==> !AllFree(cells, cols, rows, col, row, w, h)
    {
      var r := row;
      while r < row + h && free
        invariant r >= row
        invariant free ==> forall y :: row <= y < r && y < row + h && c < cols && y < rows ==> CellAt(cells, cols, c, y) == ""
        invariant !free ==> !AllFree(cells, cols, rows, col, row, w, h)
      {
        if c < cols && r < rows {
          IndexInside(cols, rows, c, r);
          if cells[Index(cols, c, r)] != "" {
            assert CellAt(cells, cols, c, r) != "";
            free := false;
          }
        }
        r := r + 1;
      }
      c := c + 1;
    }
  }
}
