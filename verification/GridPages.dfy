/** Pages of a layout: how many are needed, and moving the pages of singletons behind all others. */
module GridPages {
  import opened GridLayout
  import opened GridRemap
  import opened RemapSearch

  /** The least page count that holds every placement, at least one. */
  function RequiredPageCount(ps: seq<Placement>): (count: int)
    ensures count >= 1 && PagesBelow(ps, count)
    ensures count == 1 || exists i :: 0 <= i < |ps| && ps[i].page == count - 1
  {
    if ps == [] then 1
    else
      var front := RequiredPageCount(ps[..|ps| - 1]);
      assert forall i :: 0 <= i < |ps| - 1 ==> ps[i] == ps[..|ps| - 1][i];
      Max(front, ps[|ps| - 1].page + 1)
  }

  lemma RequiredIsLeast(ps: seq<Placement>, count: int)
    requires count >= 1 && PagesBelow(ps, count)
    ensures RequiredPageCount(ps) <= count
  {
  }

  method ComputeRequiredPageCount(ps: seq<Placement>) returns (required: int)
    ensures required == RequiredPageCount(ps)
  {
    required := 1;
    var i := 0;
    while i < |ps|
      invariant 0 <= i <= |ps| && required == RequiredPageCount(ps[..i])
    {
      assert ps[..i + 1][..i] == ps[..i];
      required := Max(required, ps[i].page + 1);
      i := i + 1;
    }
    assert ps[..i] == ps;
  }

  // ---- Renaming pages ----

  /** Where a page of [0, count) goes when reserved pages move to the tail. */
  function TailPage(reserved: set<int>, count: nat, page: int): int {
    if page < 0 || page >= count then page
    else if page in reserved then count - CountIn(reserved, count) + CountIn(reserved, page)
    else page - CountIn(reserved, page)
  }

  function MovedToTail(reg: Registry, ps: seq<Placement>, count: nat): seq<Placement> {
    seq(|ps|, i requires 0 <= i < |ps| => ps[i].(page := TailPage(ReservedPages(reg, ps), count, ps[i].page)))
  }

  /** Pages stay in [0, count), reserved pages keep their order, so do the others, and every
      reserved page comes after every other page. */
  lemma TailPageOrder(reserved: set<int>, count: nat, p: nat, q: nat)
    requires p < q < count
    ensures 0 <= TailPage(reserved, count, p) < count && 0 <= TailPage(reserved, count, q) < count
    ensures p in reserved <==> TailPage(reserved, count, p) >= count - CountIn(reserved, count)
    ensures q in reserved <==> TailPage(reserved, count, q) >= count - CountIn(reserved, count)
    ensures (p in reserved <==> q in reserved) ==> TailPage(reserved, count, p) < TailPage(reserved, count, q)
    ensures p in reserved && q !in reserved ==> TailPage(reserved, count, q) < TailPage(reserved, count, p)
  {
    TailPageRange(reserved, count, p);
    TailPageRange(reserved, count, q);
    CountInStep(reserved, p, q);
    CountInStep(reserved, p + 1, q);
  }

  lemma TailPageRange(reserved: set<int>, count: nat, p: nat)
    requires p < count
    ensures 0 <= TailPage(reserved, count, p) < count
    ensures p in reserved <==> TailPage(reserved, count, p) >= count - CountIn(reserved, count)
  {
    CountInStep(reserved, 0, p);
    CountInStep(reserved, p, count);
    CountInStep(reserved, p + 1, count);
  }

  /** No two pages are merged. */
  lemma TailPageInjective(reserved: set<int>, count: nat, p: int, q: int)
    requires TailPage(reserved, count, p) == TailPage(reserved, count, q)
    ensures p == q
  {
    if 0 <= p < count { TailPageRange(reserved, count, p); }
    if 0 <= q < count { TailPageRange(reserved, count, q); }
    if 0 <= p < q < count { TailPageOrder(reserved, count, p, q); }
    if 0 <= q < p < count { TailPageOrder(reserved, count, q, p); }
  }

  /** Every page of the result is the image of one page. */
  lemma {:induction false} TailPageOnto(reserved: set<int>, count: nat, target: nat) returns (page: nat)
    requires target < count
    ensures page < count && TailPage(reserved, count, page) == target
  {
    TailImageSize(reserved, count, count);
    var images, all := TailImage(reserved, count, count), Interval(0, count);
    if images < all {
      ProperSubsetSize(images, all);
      assert false;
    }
    assert target in images;
    page := Preimage(reserved, count, count, target);
  }

  ghost function TailImage(reserved: set<int>, count: nat, n: nat): set<int> {
    if n == 0 then {} else TailImage(reserved, count, n - 1) + {TailPage(reserved, count, n - 1)}
  }

  lemma {:induction false} TailImageSize(reserved: set<int>, count: nat, n: nat)
    requires n <= count
    ensures |TailImage(reserved, count, n)| == n && TailImage(reserved, count, n) <= Interval(0, count)
  {
    hide TailPage;
    if n > 0 {
      TailImageSize(reserved, count, n - 1);
      TailPageRange(reserved, count, n - 1);
      if TailPage(reserved, count, n - 1) in TailImage(reserved, count, n - 1) {
        var p := Preimage(reserved, count, n - 1, TailPage(reserved, count, n - 1));
        TailPageInjective(reserved, count, p, n - 1);
        assert false;
      }
    }
  }

  lemma {:induction false} Preimage(reserved: set<int>, count: nat, n: nat, target: int) returns (page: nat)
    requires target in TailImage(reserved, count, n)
    ensures page < n && TailPage(reserved, count, page) == target
  {
    if target == TailPage(reserved, count, n - 1) {
      page := n - 1;
    } else {
      page := Preimage(reserved, count, n - 1, target);
    }
  }

  lemma ProperSubsetSize(s: set<int>, t: set<int>)
    requires s < t
    ensures |s| < |t|
  {
    assert t == s + (t - s);
    assert |t - s| > 0;
  }

  // ---- What the move keeps ----

  /** The same placements in the same order, pages renamed without merging any. */
  ghost predicate Renamed(ps: seq<Placement>, qs: seq<Placement>) {
    && |ps| == |qs|
    && (forall i :: 0 <= i < |ps| ==> qs[i] == ps[i].(page := qs[i].page))
    && (forall i, j :: 0 <= i < |ps| && 0 <= j < |ps| ==> (ps[i].page == ps[j].page <==> qs[i].page == qs[j].page))
  }

  lemma MoveRenames(reg: Registry, ps: seq<Placement>, count: nat)
    ensures Renamed(ps, MovedToTail(reg, ps, count))
  {
    hide TailPage, ReservedPages;
    var r, qs := ReservedPages(reg, ps), MovedToTail(reg, ps, count);
    forall i, j | 0 <= i < |ps| && 0 <= j < |ps|
      ensures ps[i].page == ps[j].page <==> qs[i].page == qs[j].page
    {
      if qs[i].page == qs[j].page { TailPageInjective(r, count, ps[i].page, ps[j].page); }
    }
  }

  /** Renaming pages keeps each page's layout. */
  lemma RenamedSound(ps: seq<Placement>, qs: seq<Placement>, cols: int, rows: int)
    requires Renamed(ps, qs)
    ensures SoundLayout(ps, cols, rows) <==> SoundLayout(qs, cols, rows)
    ensures UniqueIds(ps) <==> UniqueIds(qs)
  {
    forall i, j | 0 <= i < |ps| && 0 <= j < |ps| && i != j
      ensures Apart(ps[i], ps[j]) <==> Apart(qs[i], qs[j])
    {
      assert ps[i].page == ps[j].page <==> qs[i].page == qs[j].page;
    }
    assert forall i :: 0 <= i < |ps| ==> qs[i].instanceId == ps[i].instanceId;
  }

  lemma MoveKeepsPages(reg: Registry, ps: seq<Placement>, count: nat)
    requires AllWellFormed(ps) && PagesBelow(ps, count)
    ensures AllWellFormed(MovedToTail(reg, ps, count)) && PagesBelow(MovedToTail(reg, ps, count), count)
  {
    hide TailPage, ReservedPages;
    forall i | 0 <= i < |ps|
      ensures 0 <= TailPage(ReservedPages(reg, ps), count, ps[i].page) < count
    {
      assert WellFormed(ps[i]);
      TailPageRange(ReservedPages(reg, ps), count, ps[i].page);
    }
  }

  /** With a reserved page, the last page is one. */
  lemma MoveRequires(reg: Registry, ps: seq<Placement>, count: nat)
    requires AllWellFormed(ps) && PagesBelow(ps, count) && ReservedPages(reg, ps) != {}
    ensures RequiredPageCount(MovedToTail(reg, ps, count)) == count
  {
    hide ReservedPages, TailPage;
    var r, qs := ReservedPages(reg, ps), MovedToTail(reg, ps, count);
    MoveKeepsPages(reg, ps, count);
    ReservedPagesAre(reg, ps, count);
    var top := LastOf(r, count);
    LastGoesLast(r, count, top);
    var i := SingletonOn(reg, ps, top);
    assert qs[i].page == count - 1;
    RequiredIsLeast(qs, count);
  }

  lemma {:induction false} LastOf(pages: set<int>, n: nat) returns (top: nat)
    requires pages != {} && pages <= Interval(0, n)
    ensures top in pages && top < n && forall p :: p in pages ==> p <= top
    decreases n
  {
    if n > 0 && n - 1 !in pages {
      assert pages <= Interval(0, n - 1);
      top := LastOf(pages, n - 1);
    } else {
      assert n > 0;
      top := n - 1;
    }
  }

  lemma LastGoesLast(pages: set<int>, count: nat, top: nat)
    requires top in pages && top < count && forall p :: p in pages ==> p <= top
    ensures TailPage(pages, count, top) == count - 1
  {
    NoneAbove(pages, top + 1, count);
  }

  lemma {:induction false} NoneAbove(pages: set<int>, from: nat, n: nat)
    requires from <= n && forall p :: p in pages ==> p < from
    ensures CountIn(pages, n) == CountIn(pages, from)
    decreases n
  {
    if from < n { NoneAbove(pages, from, n - 1); }
  }

  /** Once the reserved pages are the last ones, moving them again changes nothing. */
  lemma MoveTwice(reg: Registry, ps: seq<Placement>, count: nat)
    requires AllWellFormed(ps) && PagesBelow(ps, count)
    ensures var qs := MovedToTail(reg, ps, count); MovedToTail(reg, qs, count) == qs
  {
    hide ReservedPages;
    var qs := MovedToTail(reg, ps, count);
    var r, from := ReservedPages(reg, qs), count - CountIn(ReservedPages(reg, ps), count);
    ReservedAfterMove(reg, ps, count);
    forall i | 0 <= i < |qs|
      ensures TailPage(r, count, qs[i].page) == qs[i].page
    {
      var page := qs[i].page;
      CountInStep(ReservedPages(reg, ps), 0, count);
      CountInTail(r, from, count, count);
      if 0 <= page < count { CountInTail(r, from, count, page); }
    }
  }

  /** After the move the reserved pages are exactly the last ones. */
  lemma ReservedAfterMove(reg: Registry, ps: seq<Placement>, count: nat)
    requires AllWellFormed(ps) && PagesBelow(ps, count)
    ensures var r, r' := ReservedPages(reg, ps), ReservedPages(reg, MovedToTail(reg, ps, count));
            forall t :: t in r' <==> count - CountIn(r, count) <= t < count
  {
    hide TailPage;
    var r, qs := ReservedPages(reg, ps), MovedToTail(reg, ps, count);
    ReservedPagesAre(reg, ps, count);
    CountInStep(r, 0, count);
    forall t
      ensures t in ReservedPages(reg, qs) <==> count - CountIn(r, count) <= t < count
    {
      if t in ReservedPages(reg, qs) {
        var i := SingletonOn(reg, qs, t);
        assert WellFormed(ps[i]) && ps[i].page in r;
        TailPageRange(r, count, ps[i].page);
      }
      if count - CountIn(r, count) <= t < count {
        var page := TailPageOnto(r, count, t);
        TailPageRange(r, count, page);
        var i := SingletonOn(reg, ps, page);
        assert qs[i].page == t && IsSingleton(reg, qs[i].widgetId);
      }
    }
  }

  lemma SingletonOn(reg: Registry, ps: seq<Placement>, page: int) returns (i: nat)
    requires page in ReservedPages(reg, ps)
    ensures i < |ps| && ps[i].page == page && IsSingleton(reg, ps[i].widgetId)
  {
    i :| 0 <= i < |ps| && IsSingleton(reg, ps[i].widgetId) && ps[i].page == page;
  }

  lemma {:induction false} CountInTail(pages: set<int>, from: nat, count: nat, n: nat)
    requires from <= count && n <= count && forall t :: t in pages <==> from <= t < count
    ensures CountIn(pages, n) == if n <= from then 0 else n - from
    decreases n
  {
    if n > 0 { CountInTail(pages, from, count, n - 1); }
  }

  // ---- The move as the program runs it ----

  lemma {:induction false} CountInNone(pages: set<int>, n: nat)
    requires |pages| == 0
    ensures CountIn(pages, n) == 0
  {
    if n > 0 { CountInNone(pages, n - 1); }
  }

  lemma NothingMoves(reg: Registry, ps: seq<Placement>, count: nat)
    requires ps == [] || count < 2 || |ReservedPages(reg, ps)| == 0
    ensures MovedToTail(reg, ps, count) == ps
  {
    hide ReservedPages;
    forall i | 0 <= i < |ps|
      ensures TailPage(ReservedPages(reg, ps), count, ps[i].page) == ps[i].page
    {
      if count >= 2 {
        CountInNone(ReservedPages(reg, ps), count);
        if 0 <= ps[i].page < count { CountInNone(ReservedPages(reg, ps), ps[i].page); }
      }
    }
  }

  /** The pages in their new order: the others first, then the reserved ones. */
  method OrderPages(reserved: set<int>, count: nat) returns (ordered: seq<int>)
    ensures |ordered| == count
    ensures forall k :: 0 <= k < count ==> 0 <= ordered[k] < count && TailPage(reserved, count, ordered[k]) == k
  {
    hide TailPage;
    ordered := [];
    var page := 0;
    while page < count
      invariant 0 <= page <= count && |ordered| == page - CountIn(reserved, page)
      invariant forall k :: 0 <= k < |ordered| ==> 0 <= ordered[k] < count && TailPage(reserved, count, ordered[k]) == k
    {
      if page !in reserved {
        TailOfOther(reserved, count, page);
        ordered := ordered + [page];
      }
      page := page + 1;
    }
    page := 0;
    while page < count
      invariant 0 <= page <= count && |ordered| == count - CountIn(reserved, count) + CountIn(reserved, page)
      invariant forall k :: 0 <= k < |ordered| ==> 0 <= ordered[k] < count && TailPage(reserved, count, ordered[k]) == k
    {
      if page in reserved {
        TailOfReserved(reserved, count, page);
        ordered := ordered + [page];
      }
      page := page + 1;
    }
  }

  lemma TailOfOther(reserved: set<int>, count: nat, page: nat)
    requires page < count && page !in reserved
    ensures TailPage(reserved, count, page) == page - CountIn(reserved, page)
  {
  }

  lemma TailOfReserved(reserved: set<int>, count: nat, page: nat)
    requires page < count && page in reserved
    ensures TailPage(reserved, count, page) == count - CountIn(reserved, count) + CountIn(reserved, page)
  {
  }

  /** Where each page goes. */
  method PageMap(reserved: set<int>, count: nat) returns (pages: map<int, int>)
    ensures forall page :: page in pages <==> 0 <= page < count
    ensures forall page :: page in pages ==> pages[page] == TailPage(reserved, count, page)
  {
    hide TailPage;
    var ordered := OrderPages(reserved, count);
    pages := map[];
    var k := 0;
    while k < |ordered|
      invariant 0 <= k <= |ordered|
      invariant forall page :: page in pages <==> page in ordered[..k]
      invariant forall page :: page in pages ==> pages[page] == TailPage(reserved, count, page)
    {
      pages := pages[ordered[k] := k];
      k := k + 1;
    }
    assert ordered[..k] == ordered;
    forall page: nat | page < count
      ensures page in ordered
    {
      TailPageRange(reserved, count, page);
      TailPageInjective(reserved, count, page, ordered[TailPage(reserved, count, page)]);
    }
  }

  method MoveReservedPagesToTail(reg: Registry, ps: seq<Placement>, count: nat)
    returns (qs: seq<Placement>, changed: bool)
    ensures qs == MovedToTail(reg, ps, count)
    ensures changed <==> qs != ps
  {
    hide ReservedPages;
    qs, changed := ps, false;
    if ps == [] || count < 2 {
      NothingMoves(reg, ps, count);
      return;
    }
    var reserved := FindReservedPages(reg, ps);
    if |reserved| == 0 {
      NothingMoves(reg, ps, count);
      return;
    }
    var pages := PageMap(reserved, count);
    var i := 0;
    while i < |ps|
      invariant 0 <= i <= |ps| == |qs|
      invariant forall k :: i <= k < |ps| ==> qs[k] == ps[k]
      invariant forall k :: 0 <= k < i ==> qs[k] == ps[k].(page := TailPage(reserved, count, ps[k].page))
      invariant changed <==> exists k :: 0 <= k < i && qs[k] != ps[k]
    {
      var page := if qs[i].page in pages then pages[qs[i].page] else qs[i].page;
      if qs[i].page != page {
        qs := qs[i := qs[i].(page := page)];
        changed := true;
        assert qs[i] != ps[i];
      }
      i := i + 1;
    }
    assert qs == MovedToTail(reg, ps, count);
  }
}
