/** How many placements a remap can always keep apart: the bound is sharp. */
module RemapBound {
  import opened GridLayout
  import opened GridRemap
  import opened InstanceIds
  import opened Results

  /** `n` widgets of one cell side by side on one page: sound, with distinct ids. */
  function Crowd(n: nat): seq<Placement> {
    seq(n, i requires 0 <= i < n => Placement(InstanceId("w", i), "w", i, 0, 1, 1, 0, true))
  }

  /** From a row of `n` cells to a single cell. */
  function Squeeze(n: nat): Frame {
    Frame(1, 1, n, 1)
  }

  lemma CrowdIsSound(n: nat)
    ensures AllWellFormed(Crowd(n)) && UniqueIds(Crowd(n)) && SoundLayout(Crowd(n), n, 1)
  {
    hide InstanceId;
    forall i | 0 <= i < n
      ensures WellFormed(Crowd(n)[i])
    {
      InstanceIdLength("w", i);
    }
    forall i, j | 0 <= i < j < n
      ensures Crowd(n)[i].instanceId != Crowd(n)[j].instanceId
    {
      if InstanceId("w", i) == InstanceId("w", j) { InstanceIdInjective("w", i, "w", j); }
    }
  }

  lemma InstanceIdLength(w: string, n: nat)
    ensures InstanceId(w, n) != ""
  {
    assert |InstanceId(w, n)| > 0;
  }

  /** Page `page` has its only cell taken. */
  ghost predicate Full(b: Board, page: int)
    requires ValidBoard(b)
  {
    exists i :: i in b.done && b.result[i].visible && b.result[i].page == page && b.result[i].col == 0
                && b.result[i].row == 0 && b.result[i].colSpan == 1 && b.result[i].rowSpan == 1
  }

  /** In a grid of one cell the spiral from a full page finds nothing. */
  lemma NoAnchor(b: Board, p: Placement, f: Frame)
    requires ValidBoard(b) && f.cols == 1 && f.rows == 1 && p.colSpan == 1 && p.rowSpan == 1 && Full(b, p.page)
    ensures !FreeAt(b, p.page, 0, 0, 1, 1) && SpiralFrom(b, p, f).None?
  {
    hide Spiral;
    SpiralOk(b, p, f, 1, -1, -1);
  }

  /** The spill passes full pages and stops at the first that is not, or at the last it tries. */
  lemma {:induction false} SpillPasses(b: Board, p: Placement, f: Frame, next: int, left: nat, stop: int)
    requires ValidBoard(b) && f.cols == 1 && f.rows == 1 && p.colSpan == 1 && p.rowSpan == 1
    requires next <= stop < next + left && forall page :: next <= page < stop ==> Full(b, page)
    requires FreeAt(b, stop, 0, 0, 1, 1) || (stop == next + left - 1 && Full(b, stop))
    ensures Spill(b, p, f, next, left) == p.(page := stop, col := 0, row := 0)
    decreases left
  {
    hide Spiral, FreeAt, Full;
    var q := p.(page := next, col := 0, row := 0);
    if Full(b, next) { NoAnchor(b, q, f); }
    if next < stop {
      SpillPasses(b, q, f, next + 1, left - 1, stop);
    } else if Full(b, next) {
      assert Spill(b, q, f, next + 1, 0) == q;
    }
  }

  /** The first hundred and one widgets each get a page of their own. */
  ghost predicate Spread(b: Board, n: nat, k: nat) {
    && |b.result| == n && (forall i: nat :: i in b.done <==> i < k) && k <= n
    && forall i :: 0 <= i < k ==> b.result[i] == Crowd(n)[i].(page := i, col := 0)
  }

  lemma SqueezedScale(n: nat, i: nat)
    requires i < n
    ensures Scaled(map[], Crowd(n)[i], 0, Squeeze(n)) == Crowd(n)[i].(col := 0)
  {
    RoundNonNegative(i, 1, n);
  }

  lemma CrowdNext(n: nat, k: nat, b: Board)
    requires k < n && Spread(b, n, k) && k <= MAX_PLACEMENTS
    ensures PlaceOne(map[], b, Crowd(n)[k], 0, Squeeze(n))
            == Crowd(n)[k].(page := if k <= MAX_SPILL then k else MAX_SPILL, col := 0)
  {
    hide Crowd, Scaled, Spiral, Spill;
    CrowdCells(n);
    SqueezedScale(n, k);
    var p, f := Scaled(map[], Crowd(n)[k], 0, Squeeze(n)), Squeeze(n);
    forall page | 0 <= page < k
      ensures Full(b, page)
    {
      assert page as nat in b.done;
    }
    if k > 0 {
      NoAnchor(b, p, f);
      SpillPasses(b, p, f, 1, MAX_SPILL, if k <= MAX_SPILL then k else MAX_SPILL);
    }
  }

  lemma CrowdCells(n: nat)
    ensures |Crowd(n)| == n
    ensures forall i :: 0 <= i < n ==> Crowd(n)[i].visible && Crowd(n)[i].row == 0 && Crowd(n)[i].colSpan == 1
                                       && Crowd(n)[i].rowSpan == 1 && Crowd(n)[i].page == 0 && Crowd(n)[i].widgetId == "w"
  {
  }

  lemma {:induction false} CrowdSpreads(n: nat, k: nat)
    requires 1 <= n && k <= n && k <= MAX_PLACEMENTS
    ensures Spread(Normal(map[], Crowd(n), Squeeze(n), k), n, k)
  {
    hide PlaceOne, Crowd;
    CrowdCells(n);
    if k > 0 {
      CrowdSpreads(n, k - 1);
      CrowdNext(n, k - 1, Normal(map[], Crowd(n), Squeeze(n), k - 1));
      PutAt(map[], Normal(map[], Crowd(n), Squeeze(n), k - 1), k - 1, Crowd(n)[k - 1], 0, Squeeze(n));
    }
  }

  /** Once placed, the hundred-first and the hundred-second stay where they are. */
  lemma {:induction false} CrowdClash(n: nat, k: nat)
    requires MAX_PLACEMENTS < k <= n
    ensures var b := Normal(map[], Crowd(n), Squeeze(n), k);
            b.result[MAX_SPILL] == Crowd(n)[MAX_SPILL].(page := MAX_SPILL, col := 0)
            && b.result[MAX_PLACEMENTS] == Crowd(n)[MAX_PLACEMENTS].(page := MAX_SPILL, col := 0)
    decreases k
  {
    hide PlaceOne, Crowd;
    CrowdCells(n);
    var b := Normal(map[], Crowd(n), Squeeze(n), k - 1);
    if k == MAX_PLACEMENTS + 1 {
      CrowdSpreads(n, k - 1);
      CrowdNext(n, k - 1, b);
    } else {
      CrowdClash(n, k - 1);
    }
    PutAt(map[], b, k - 1, Crowd(n)[k - 1], 0, Squeeze(n));
  }

  /** More than a hundred and one widgets of one cell, side by side and disjoint, overlap once
      the grid has a single cell. */
  lemma CrowdOverlaps(n: nat)
    requires n > MAX_PLACEMENTS
    ensures AllWellFormed(Crowd(n)) && UniqueIds(Crowd(n)) && SoundLayout(Crowd(n), n, 1)
    ensures !SoundLayout(Remapped(map[], Crowd(n), 1, Squeeze(n)), 1, 1)
  {
    hide Normal;
    CrowdIsSound(n);
    CrowdClash(n, n);
    OnlyNormals(map[], Crowd(n), 1, Squeeze(n), n);
    var live := Remapped(map[], Crowd(n), 1, Squeeze(n));
    assert live[MAX_SPILL].page == live[MAX_PLACEMENTS].page;
    assert !Apart(live[MAX_SPILL], live[MAX_PLACEMENTS]);
  }

  /** Every remap of that many placements keeps them disjoint. */
  ghost predicate AlwaysFits(n: nat) {
    forall reg: Registry, base: seq<Placement>, baseCount: int, f: Frame ::
      f.Valid() && AllWellFormed(base) && |base| == n ==> SoundLayout(Remapped(reg, base, baseCount, f), f.cols, f.rows)
  }

  /** A hundred and one is the most a remap always finds room for. */
  lemma BoundIsSharp(n: nat)
    ensures AlwaysFits(n) <==> n <= MAX_PLACEMENTS
  {
    hide SoundLayout, Remapped;
    if n <= MAX_PLACEMENTS {
      forall reg: Registry, base: seq<Placement>, baseCount: int, f: Frame |
        f.Valid() && AllWellFormed(base) && |base| == n
        ensures SoundLayout(Remapped(reg, base, baseCount, f), f.cols, f.rows)
      {
        RemapSound(reg, base, baseCount, f);
      }
    } else {
      CrowdOverlaps(n);
      CrowdCells(n);
    }
  }
}
