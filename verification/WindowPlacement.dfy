// What the window geometry computes, in numbers: rounding, limits, overlap, the
// nearest position inside an area, and which area is taken.
module WindowPlacement {
  import opened Wrappers
  import opened WindowBounds

  // ------------------------------------------------------------------ what is read

  // A number is rounded to the nearest integer, and up from halfway.
  lemma RoundsHalfUp(v: real, n: int)
    ensures FiniteInt(Some(v)) == Some(n) <==> n as real - 0.5 <= v < n as real + 0.5
    ensures FiniteInt(None).None?
  {
  }

  // A size is usable from 360 by 600 up to 16384 either way; without both
  // coordinates the position is left open.
  lemma NormalizesIff(v: Raw)
    ensures NormalizeWindowBounds(v).Some?
            <==> && v.width.Some? && v.height.Some?
                 && 360 <= FiniteInt(v.width).value <= 16384 && 600 <= FiniteInt(v.height).value <= 16384
    ensures NormalizeWindowBounds(v).Some? ==>
              NormalizeWindowBounds(v).value
              == if v.x.Some? && v.y.Some?
                 then Placed(Rect(FiniteInt(v.x).value, FiniteInt(v.y).value,
                     FiniteInt(v.width).value, FiniteInt(v.height).value))
                 else Sized(FiniteInt(v.width).value, FiniteInt(v.height).value)
  {
  }

  // The work areas are the displays with four numbers and a positive size, in
  // the order given.
  lemma AreaOfDisplay(v: Raw)
    ensures NormalizeDisplayArea(v)
         == if v.x.Some? && v.y.Some? && v.width.Some? && v.height.Some?
               && FiniteInt(v.width).value > 0 && FiniteInt(v.height).value > 0
            then Some(Rect(FiniteInt(v.x).value, FiniteInt(v.y).value,
                FiniteInt(v.width).value, FiniteInt(v.height).value))
            else None
    ensures Areas([]) == []
    ensures Areas([v]) == match NormalizeDisplayArea(v) case None => [] case Some(a) => [a]
  {
    assert [v][1..] == [];
    hide FiniteInt;
  }

  function AreaList(v: Raw): seq<Rect> {
    match NormalizeDisplayArea(v) case None => [] case Some(a) => [a]
  }

  lemma AreasOn(displays: seq<Raw>)
    requires displays != []
    ensures Areas(displays) == AreaList(displays[0]) + Areas(displays[1..])
  {
    hide NormalizeDisplayArea;
  }

  lemma AreasOfNone()
    ensures Areas([]) == []
  {
  }

  lemma Regroup(a: seq<Rect>, b: seq<Rect>, c: seq<Rect>)
    ensures a + b + c == a + (b + c)
  {
  }

  lemma {:induction false} AreasInOrder(some: seq<Raw>, others: seq<Raw>)
    ensures Areas(some + others) == Areas(some) + Areas(others)
  {
    hide *;
    if some == [] {
      assert some + others == others;
      AreasOfNone();
      assert [] + Areas(others) == Areas(others);
    } else {
      assert (some + others)[1..] == some[1..] + others;
      AreasOn(some);
      AreasOn(some + others);
      AreasInOrder(some[1..], others);
      Regroup(AreaList(some[0]), Areas(some[1..]), Areas(others));
    }
  }

  // ---------------------------------------------------------------------- overlap

  // The common stretch of [p, p + m) and [q, q + n).
  predicate IsOverlap(w: int, p: int, m: int, q: int, n: int) {
    if m > 0 && n > 0 && p < q + n && q < p + m
    then w <= m && w <= n && w <= q + n - p && w <= p + m - q && (w == m || w == n || w == q + n - p || w == p + m - q)
    else w == 0
  }

  lemma OverlapIs(r: Rect, a: Rect)
    requires r.width > 0 && r.height > 0 && a.width > 0 && a.height > 0
    ensures IsOverlap(OverlapWidth(r, a), r.x, r.width, a.x, a.width)
    ensures IsOverlap(OverlapHeight(r, a), r.y, r.height, a.y, a.height)
    ensures OverlapArea(r, a) == OverlapWidth(r, a) * OverlapHeight(r, a)
  {
  }

  // A window is usefully on an area when 64 pixels of it show either way.
  lemma UsefulIff(r: Rect, a: Rect)
    ensures HasUsefulOverlap(r, a)
            <==> && r.width >= 64 && a.width >= 64 && a.x + a.width - r.x >= 64 && r.x + r.width - a.x >= 64
                 && r.height >= 64 && a.height >= 64 && a.y + a.height - r.y >= 64 && r.y + r.height - a.y >= 64
  {
  }

  // -------------------------------------------------------------- which area is taken

  // The first area that holds the point.
  lemma {:induction false} AreaAtIsFirst(x: int, y: int, areas: seq<Rect>)
    ensures match AreaAt(x, y, areas)
            case Some(a) =>
              exists k | 0 <= k < |areas| ::
                areas[k] == a && ContainsPoint(x, y, a) && forall j | 0 <= j < k :: !ContainsPoint(x, y, areas[j])
            case None => forall j | 0 <= j < |areas| :: !ContainsPoint(x, y, areas[j])
  {
    if areas != [] && !ContainsPoint(x, y, areas[0]) {
      AreaAtIsFirst(x, y, areas[1..]);
      assert forall j | 0 < j < |areas| :: areas[j] == areas[1..][j - 1];
      if AreaAt(x, y, areas).Some? {
        var k :| 0 <= k < |areas[1..]| && areas[1..][k] == AreaAt(x, y, areas).value
            && forall j | 0 <= j < k :: !ContainsPoint(x, y, areas[1..][j]);
        assert areas[k + 1] == areas[1..][k];
      }
      hide ContainsPoint;
    }
  }

  lemma ContainsIff(x: int, y: int, a: Rect)
    ensures ContainsPoint(x, y, a) <==> a.x <= x < a.x + a.width && a.y <= y < a.y + a.height
  {
  }

  // No area shows more of the window than the `k`-th, and none before it as
  // much.
  predicate ShowsMost(r: Rect, areas: seq<Rect>, k: nat) {
    && k < |areas|
    && (forall j | 0 <= j < |areas| :: OverlapArea(r, areas[j]) <= OverlapArea(r, areas[k]))
    && (forall j | 0 <= j < k :: OverlapArea(r, areas[j]) < OverlapArea(r, areas[k]))
  }

  // Of equally good areas the reductions keep the first.
  lemma {:induction false} BestVisibleIsFirst(r: Rect, areas: seq<Rect>) returns (k: nat)
    requires areas != []
    ensures ShowsMost(r, areas, k) && areas[k] == BestVisible(r, areas)
  {
    hide *;
    if |areas| == 1 {
      k := 0;
      OneShows(r, areas);
    } else {
      k := BestVisibleIsFirst(r, areas[..|areas| - 1]);
      OneMoreShows(r, areas, k);
      if OverlapArea(r, areas[|areas| - 1]) > OverlapArea(r, areas[k]) {
        k := |areas| - 1;
      }
    }
  }

  lemma OneShows(r: Rect, areas: seq<Rect>)
    requires |areas| == 1
    ensures ShowsMost(r, areas, 0) && areas[0] == BestVisible(r, areas)
  {
    hide OverlapArea;
  }

  lemma OneMoreShows(r: Rect, areas: seq<Rect>, k: nat)
    requires |areas| > 1
    requires var front := areas[..|areas| - 1]; ShowsMost(r, front, k) && front[k] == BestVisible(r, front)
    ensures var n := |areas| - 1;
            var best := if OverlapArea(r, areas[n]) > OverlapArea(r, areas[k]) then n else k;
            k < n && ShowsMost(r, areas, best) && areas[best] == BestVisible(r, areas)
  {
    hide OverlapArea;
    var front := areas[..|areas| - 1];
    assert forall j | 0 <= j < |front| :: areas[j] == front[j];
  }

  function Surface(a: Rect): int {
    a.width * a.height
  }

  predicate IsLargest(areas: seq<Rect>, k: nat) {
    && k < |areas|
    && (forall j | 0 <= j < |areas| :: Surface(areas[j]) <= Surface(areas[k]))
    && (forall j | 0 <= j < k :: Surface(areas[j]) < Surface(areas[k]))
  }

  lemma {:induction false} LargestIsFirst(areas: seq<Rect>) returns (k: nat)
    requires areas != []
    ensures IsLargest(areas, k) && areas[k] == Largest(areas)
  {
    hide *;
    if |areas| == 1 {
      k := 0;
      OneIsLargest(areas);
    } else {
      k := LargestIsFirst(areas[..|areas| - 1]);
      LargestOfTwo(areas);
      OneMoreLargest(areas, k);
      if Surface(areas[|areas| - 1]) > Surface(areas[k]) {
        k := |areas| - 1;
      }
    }
  }

  lemma OneIsLargest(areas: seq<Rect>)
    requires |areas| == 1
    ensures IsLargest(areas, 0) && areas[0] == Largest(areas)
  {
    hide Surface;
  }

  lemma LargestOfTwo(areas: seq<Rect>)
    requires |areas| > 1
    ensures var best, last := Largest(areas[..|areas| - 1]), areas[|areas| - 1];
            Largest(areas) == if Surface(last) > Surface(best) then last else best
  {
  }

  lemma OneMoreLargest(areas: seq<Rect>, k: nat)
    requires |areas| > 1 && IsLargest(areas[..|areas| - 1], k)
    ensures var n := |areas| - 1;
            k < n && areas[..n][k] == areas[k]
            && IsLargest(areas, if Surface(areas[n]) > Surface(areas[k]) then n else k)
  {
    hide Surface;
    var front := areas[..|areas| - 1];
    assert forall j | 0 <= j < |front| :: areas[j] == front[j];
  }

  // ------------------------------------------------------------------- the position

  function Distance(a: int, b: int): nat {
    if a < b then b - a else a - b
  }

  // Fitting cuts the size to the area's and takes the nearest position at which
  // that lies inside it.
  lemma FitIsNearest(r: Rect, a: Rect, x: int, y: int)
    requires r.width > 0 && r.height > 0 && a.width > 0 && a.height > 0
    ensures var f := Fit(r, a);
            && f.width == (if r.width < a.width then r.width else a.width)
            && f.height == (if r.height < a.height then r.height else a.height)
            && a.x <= f.x && f.x + f.width <= a.x + a.width && a.y <= f.y && f.y + f.height <= a.y + a.height
            && (a.x <= x && x + f.width <= a.x + a.width ==> Distance(r.x, f.x) <= Distance(r.x, x))
            && (a.y <= y && y + f.height <= a.y + a.height ==> Distance(r.y, f.y) <= Distance(r.y, y))
  {
  }

  function Smaller(a: int, b: int): int {
    if a <= b then a else b
  }

  // Where a saved window goes. Without a work area it keeps its size and no
  // position; without a position it is cut to the largest area; with one it is
  // fitted to the area that holds its origin if enough of it shows there, else
  // to the one that shows most of it, else only cut to that.
  lemma RestoreCases(v: Raw, displays: seq<Raw>)
    ensures RestoreWindowBounds(v, displays)
         == match NormalizeWindowBounds(v)
            case None => None
            case Some(Sized(w, h)) =>
              if Areas(displays) == [] then Some(Sized(w, h))
              else
                var largest := Largest(Areas(displays));
                Some(Sized(Smaller(w, largest.width), Smaller(h, largest.height)))
            case Some(Placed(r)) => Some(PlaceIn(r, Areas(displays)))
  {
    hide NormalizeWindowBounds, Areas, Largest, BestVisible, HasUsefulOverlap, AreaAt, Fit;
  }

  function PlaceIn(r: Rect, areas: seq<Rect>): Bounds {
    if areas == [] then Sized(r.width, r.height)
    else if AreaAt(r.x, r.y, areas).Some? && HasUsefulOverlap(r, AreaAt(r.x, r.y, areas).value)
    then Placed(Fit(r, AreaAt(r.x, r.y, areas).value))
    else
      var best := BestVisible(r, areas);
      if HasUsefulOverlap(r, best) then Placed(Fit(r, best))
      else Sized(Smaller(r.width, best.width), Smaller(r.height, best.height))
  }

  // A cascaded window is the restored one moved 24 pixels right and down, and
  // restored again; one without a position stays as it is.
  lemma CascadeCases(v: Raw, displays: seq<Raw>, offset: int)
    ensures CascadeWindowBounds(v, displays) == CascadeWindowBounds(v, displays, 24)
    ensures CascadeWindowBounds(v, displays, offset)
         == match RestoreWindowBounds(v, displays)
            case Some(Placed(r)) =>
              RestoreWindowBounds(Raw(Some((r.x + offset) as real), Some((r.y + offset) as real),
                  Some(r.width as real), Some(r.height as real)), displays)
            case other => other
  {
    hide RestoreWindowBounds;
  }
}
