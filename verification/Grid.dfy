/** Square grids of modules, and cells as (column, row) pairs. */
module Grid {

  type Modules = seq<seq<bool>>

  datatype Cell = Cell(x: nat, y: nat)

  ghost predicate Square(g: Modules, size: nat) {
    |g| == size && forall y :: 0 <= y < size ==> |g[y]| == size
  }

  predicate Inside(c: Cell, size: nat) {
    c.x < size && c.y < size
  }

  function At(g: Modules, c: Cell): bool
    requires c.y < |g| && c.x < |g[c.y]|
  {
    g[c.y][c.x]
  }

  function Put(g: Modules, c: Cell, dark: bool): (g': Modules)
    requires c.y < |g| && c.x < |g[c.y]|
    ensures |g'| == |g| && forall y :: 0 <= y < |g| ==> |g'[y]| == |g[y]|
    ensures forall d: Cell :: d.y < |g| && d.x < |g[d.y]| ==>
              At(g', d) == if d == c then dark else At(g, d)
  {
    g[c.y := g[c.y][c.x := dark]]
  }

  lemma SameModules(g: Modules, h: Modules, size: nat)
    requires Square(g, size) && Square(h, size)
    requires forall c: Cell :: Inside(c, size) ==> At(g, c) == At(h, c)
    ensures g == h
  {
    forall y | 0 <= y < size
      ensures g[y] == h[y]
    {
      forall x | 0 <= x < size
        ensures g[y][x] == h[y][x]
      {
        assert At(g, Cell(x, y)) == At(h, Cell(x, y));
      }
    }
  }
}
