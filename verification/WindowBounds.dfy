// Window geometry: packages/desktop/main/windowBounds.js. Saved numbers are
// reals, or None where the file holds no finite number; displays likewise.
module WindowBounds {
  import opened Wrappers

  const MIN_WIDTH := 360
  const MIN_HEIGHT := 600
  const MAX_DIMENSION := 16_384
  const MIN_VISIBLE_EDGE := 64

  // A persisted rectangle or a display's work area as found.
  datatype Raw = Raw(x: Option<real>, y: Option<real>, width: Option<real>, height: Option<real>)

  datatype Rect = Rect(x: int, y: int, width: int, height: int)

  // Sized: Electron chooses the position.
  datatype Bounds = Sized(width: int, height: int) | Placed(rect: Rect)

  // Math.round of a finite number.
  function FiniteInt(v: Option<real>): Option<int> {
    if v.None? then None else Some((v.value + 0.5).Floor)
  }

  predicate AcceptableSize(width: int, height: int) {
    MIN_WIDTH <= width <= MAX_DIMENSION && MIN_HEIGHT <= height <= MAX_DIMENSION
  }

  function NormalizeWindowBounds(v: Raw): Option<Bounds> {
    var width, height, x, y := FiniteInt(v.width), FiniteInt(v.height), FiniteInt(v.x), FiniteInt(v.y);
    if width.None? || height.None? || !AcceptableSize(width.value, height.value) then None
    else if x.None? || y.None? then Some(Sized(width.value, height.value))
    else Some(Placed(Rect(x.value, y.value, width.value, height.value)))
  }

  function NormalizeDisplayArea(v: Raw): Option<Rect> {
    var width, height, x, y := FiniteInt(v.width), FiniteInt(v.height), FiniteInt(v.x), FiniteInt(v.y);
    if width.None? || height.None? || x.None? || y.None? || width.value <= 0 || height.value <= 0 then None
    else Some(Rect(x.value, y.value, width.value, height.value))
  }

  function Areas(displays: seq<Raw>): (areas: seq<Rect>)
    ensures forall a | a in areas :: a.width > 0 && a.height > 0
  {
    if displays == [] then []
    else
      var first := NormalizeDisplayArea(displays[0]);
      (if first.Some? then [first.value] else []) + Areas(displays[1..])
  }

  // ---------------------------------------------------------------------- overlap

  function Min(a: int, b: int): int {
    if a < b then a else b
  }

  function Max(a: int, b: int): int {
    if a > b then a else b
  }

  function OverlapWidth(r: Rect, a: Rect): int {
    Max(0, Min(r.x + r.width, a.x + a.width) - Max(r.x, a.x))
  }

  function OverlapHeight(r: Rect, a: Rect): int {
    Max(0, Min(r.y + r.height, a.y + a.height) - Max(r.y, a.y))
  }

  function OverlapArea(r: Rect, a: Rect): int {
    OverlapWidth(r, a) * OverlapHeight(r, a)
  }

  predicate HasUsefulOverlap(r: Rect, a: Rect) {
    OverlapWidth(r, a) >= MIN_VISIBLE_EDGE && OverlapHeight(r, a) >= MIN_VISIBLE_EDGE
  }

  predicate ContainsPoint(x: int, y: int, a: Rect) {
    a.x <= x < a.x + a.width && a.y <= y < a.y + a.height
  }

  // The first area that holds the point.
  function AreaAt(x: int, y: int, areas: seq<Rect>): Option<Rect> {
    if areas == [] then None
    else if ContainsPoint(x, y, areas[0]) then Some(areas[0])
    else AreaAt(x, y, areas[1..])
  }

  // The reductions: a later area wins only when it is strictly better.
  function BestVisible(r: Rect, areas: seq<Rect>): Rect
    requires areas != []
  {
    if |areas| == 1 then areas[0]
    else
      var best, last := BestVisible(r, areas[..|areas| - 1]), areas[|areas| - 1];
      if OverlapArea(r, last) > OverlapArea(r, best) then last else best
  }

  function Largest(areas: seq<Rect>): Rect
    requires areas != []
  {
    if |areas| == 1 then areas[0]
    else
      var best, last := Largest(areas[..|areas| - 1]), areas[|areas| - 1];
      if last.width * last.height > best.width * best.height then last else best
  }

  method BestVisibleDisplay(r: Rect, areas: seq<Rect>) returns (best: Rect)
    requires areas != []
    ensures best == BestVisible(r, areas)
  {
    best := areas[0];
    assert areas[..1] == [areas[0]];
    for i := 1 to |areas|
      invariant best == BestVisible(r, areas[..i])
    {
      assert areas[..i + 1][..i] == areas[..i];
      if OverlapArea(r, areas[i]) > OverlapArea(r, best) {
        best := areas[i];
      }
    }
    assert areas[..|areas|] == areas;
  }

  method LargestDisplayArea(areas: seq<Rect>) returns (best: Rect)
    requires areas != []
    ensures best == Largest(areas)
  {
    best := areas[0];
    assert areas[..1] == [areas[0]];
    for i := 1 to |areas|
      invariant best == Largest(areas[..i])
    {
      assert areas[..i + 1][..i] == areas[..i];
      if areas[i].width * areas[i].height > best.width * best.height {
        best := areas[i];
      }
    }
    assert areas[..|areas|] == areas;
  }

  lemma {:induction false} BestVisibleIsBest(r: Rect, areas: seq<Rect>)
    requires areas != []
    ensures BestVisible(r, areas) in areas
    ensures forall a | a in areas :: OverlapArea(r, a) <= OverlapArea(r, BestVisible(r, areas))
  {
    hide OverlapArea;
    if |areas| > 1 {
      BestVisibleIsBest(r, areas[..|areas| - 1]);
      assert areas == areas[..|areas| - 1] + [areas[|areas| - 1]];
    }
  }

  lemma {:induction false} LargestIsIn(areas: seq<Rect>)
    requires areas != []
    ensures Largest(areas) in areas
    ensures forall a | a in areas :: a.width * a.height <= Largest(areas).width * Largest(areas).height
  {
    if |areas| > 1 {
      LargestIsIn(areas[..|areas| - 1]);
      assert areas == areas[..|areas| - 1] + [areas[|areas| - 1]];
    }
  }

  // -------------------------------------------------------------------- restoring

  function Clamp(v: int, low: int, high: int): int {
    Min(Max(v, low), high)
  }

  // The rectangle cut to the area's size and moved wholly inside it.
  function Fit(r: Rect, a: Rect): Rect {
    var width, height := Min(r.width, a.width), Min(r.height, a.height);
    Rect(Clamp(r.x, a.x, a.x + a.width - width), Clamp(r.y, a.y, a.y + a.height - height), width, height)
  }

  function RestorePlaced(r: Rect, areas: seq<Rect>): Bounds
    requires areas != []
  {
    var home := AreaAt(r.x, r.y, areas);
    if home.Some? && HasUsefulOverlap(r, home.value) then Placed(Fit(r, home.value))
    else
      var target := BestVisible(r, areas);
      if HasUsefulOverlap(r, target) then Placed(Fit(r, target))
      else Sized(Min(r.width, target.width), Min(r.height, target.height))
  }

  function RestoreNormal(b: Bounds, areas: seq<Rect>): Bounds {
    if areas == [] then (if b.Placed? then Sized(b.rect.width, b.rect.height) else b)
    else
      match b
      case Sized(width, height) =>
        var target := Largest(areas);
        Sized(Min(width, target.width), Min(height, target.height))
      case Placed(r) => RestorePlaced(r, areas)
  }

  function RestoreWindowBounds(v: Raw, displays: seq<Raw>): Option<Bounds> {
    match NormalizeWindowBounds(v)
    case None => None
    case Some(b) => Some(RestoreNormal(b, Areas(displays)))
  }

  // A rectangle as it is written back: whole numbers.
  function Saved(r: Rect): Raw {
    Raw(Some(r.x as real), Some(r.y as real), Some(r.width as real), Some(r.height as real))
  }

  const CASCADE_OFFSET := 24

  function CascadeWindowBounds(v: Raw, displays: seq<Raw>, offset: int := CASCADE_OFFSET): Option<Bounds> {
    match RestoreWindowBounds(v, displays)
    case Some(Placed(r)) => RestoreWindowBounds(Saved(r.(x := r.x + offset, y := r.y + offset)), displays)
    case other => other
  }

  // ----------------------------------------------------------------- what is promised

  predicate Inside(r: Rect, a: Rect) {
    a.x <= r.x && r.x + r.width <= a.x + a.width && a.y <= r.y && r.y + r.height <= a.y + a.height
  }

  lemma {:induction false} AreaAtHolds(x: int, y: int, areas: seq<Rect>)
    ensures match AreaAt(x, y, areas)
            case Some(a) => a in areas && ContainsPoint(x, y, a)
            case None => forall a | a in areas :: !ContainsPoint(x, y, a)
  {
    if areas != [] {
      AreaAtHolds(x, y, areas[1..]);
      assert areas == [areas[0]] + areas[1..];
    }
  }

  // Every position given lies wholly inside one display's work area, at the
  // saved size cut to it; and where no display holds the saved origin, that
  // display shows more of the saved window than any other.
  lemma PlacedInsideOneArea(v: Raw, displays: seq<Raw>)
    ensures match RestoreWindowBounds(v, displays)
            case Some(Placed(r)) =>
              NormalizeWindowBounds(v).Some? && NormalizeWindowBounds(v).value.Placed?
              && var saved := NormalizeWindowBounds(v).value.rect;
              exists a | a in Areas(displays) ::
                Inside(r, a) && r.width == Min(saved.width, a.width) && r.height == Min(saved.height, a.height)
                && HasUsefulOverlap(saved, a)
                && (ContainsPoint(saved.x, saved.y, a)
                    || forall b | b in Areas(displays) :: OverlapArea(saved, b) <= OverlapArea(saved, a))
            case _ => true
  {
    hide OverlapArea, FiniteInt, Areas;
    var areas := Areas(displays);
    match NormalizeWindowBounds(v)
    case Some(Placed(saved)) =>
      if areas != [] {
        AreaAtHolds(saved.x, saved.y, areas);
        BestVisibleIsBest(saved, areas);
        hide HasUsefulOverlap, BestVisible, AreaAt;
      }
    case _ =>
  }

  // Two work areas share no pixel.
  predicate Apart(a: Rect, b: Rect) {
    a.x + a.width <= b.x || b.x + b.width <= a.x || a.y + a.height <= b.y || b.y + b.height <= a.y
  }

  // No display is mirrored or overlaps another.
  predicate Separate(areas: seq<Rect>) {
    forall i, j | 0 <= i < j < |areas| :: Apart(areas[i], areas[j])
  }

  lemma {:induction false} HomeIsUnique(x: int, y: int, areas: seq<Rect>, a: Rect)
    requires Separate(areas) && a in areas && ContainsPoint(x, y, a)
    ensures AreaAt(x, y, areas) == Some(a)
  {
    if !ContainsPoint(x, y, areas[0]) {
      assert forall i | 0 <= i < |areas| - 1 :: areas[1..][i] == areas[i + 1];
      HomeIsUnique(x, y, areas[1..], a);
    } else {
      var k :| 0 <= k < |areas| && areas[k] == a;
      assert k > 0 ==> Apart(areas[0], areas[k]);
    }
  }

  lemma RoundsBack(n: int)
    ensures FiniteInt(Some(n as real)) == Some(n)
  {
  }

  lemma SavedReadsBack(r: Rect)
    ensures NormalizeWindowBounds(Saved(r)) == if AcceptableSize(r.width, r.height) then Some(Placed(r)) else None
  {
    RoundsBack(r.x);
    RoundsBack(r.y);
    RoundsBack(r.width);
    RoundsBack(r.height);
    hide FiniteInt, AcceptableSize;
  }

  // The area a restored rectangle was fitted to.
  predicate FittedTo(r: Rect, a: Rect, displays: seq<Raw>) {
    && a in Areas(displays) && Inside(r, a) && r.width >= MIN_VISIBLE_EDGE && r.height >= MIN_VISIBLE_EDGE
    && r.width <= MAX_DIMENSION && r.height <= MAX_DIMENSION
    && (AcceptableSize(r.width, r.height) <==> a.width >= MIN_WIDTH && a.height >= MIN_HEIGHT)
  }

  lemma UsefulMeansRoom(r: Rect, a: Rect)
    requires HasUsefulOverlap(r, a)
    ensures r.width >= MIN_VISIBLE_EDGE && a.width >= MIN_VISIBLE_EDGE
    ensures r.height >= MIN_VISIBLE_EDGE && a.height >= MIN_VISIBLE_EDGE
  {
  }

  lemma PlacedIsFitted(v: Raw, displays: seq<Raw>) returns (a: Rect)
    requires RestoreWindowBounds(v, displays).Some? && RestoreWindowBounds(v, displays).value.Placed?
    ensures FittedTo(RestoreWindowBounds(v, displays).value.rect, a, displays)
  {
    PlacedInsideOneArea(v, displays);
    var r, saved := RestoreWindowBounds(v, displays).value.rect, NormalizeWindowBounds(v).value.rect;
    a :| a in Areas(displays) && Inside(r, a) && r.width == Min(saved.width, a.width)
        && r.height == Min(saved.height, a.height)
         && HasUsefulOverlap(saved, a);
    assert AcceptableSize(saved.width, saved.height);
    UsefulMeansRoom(saved, a);
    hide RestoreWindowBounds, NormalizeWindowBounds, Areas, HasUsefulOverlap, Inside;
  }

  // Moving a rectangle that lies in its home area a little: it is put back
  // inside that area.
  lemma RestoresInHome(r: Rect, dx: int, dy: int, a: Rect, displays: seq<Raw>)
    requires Separate(Areas(displays)) && a in Areas(displays) && Inside(r, a) && AcceptableSize(r.width, r.height)
    requires 0 <= dx <= r.width - MIN_VISIBLE_EDGE && 0 <= dy <= r.height - MIN_VISIBLE_EDGE
    ensures var moved := r.(x := r.x + dx, y := r.y + dy);
            RestoreWindowBounds(Saved(moved), displays) == Some(Placed(Fit(moved, a)))
  {
    var moved := r.(x := r.x + dx, y := r.y + dy);
    SavedReadsBack(moved);
    assert ContainsPoint(moved.x, moved.y, a);
    HomeIsUnique(moved.x, moved.y, Areas(displays), a);
    assert HasUsefulOverlap(moved, a);
    hide NormalizeWindowBounds, Areas, Separate, BestVisible, HasUsefulOverlap, AreaAt, Fit;
  }

  // On displays that do not overlap, a position given is given again when it is
  // restored, exactly when the display it is on has the minimum window size; on
  // a smaller one the cut size is refused the next time.
  lemma RestoringTwice(v: Raw, displays: seq<Raw>)
    requires Separate(Areas(displays))
    requires RestoreWindowBounds(v, displays).Some? && RestoreWindowBounds(v, displays).value.Placed?
    ensures var r := RestoreWindowBounds(v, displays).value.rect;
            exists a | a in Areas(displays) && Inside(r, a) ::
              RestoreWindowBounds(Saved(r), displays) == if a.width >= MIN_WIDTH && a.height >= MIN_HEIGHT
                  then Some(Placed(r)) else None
  {
    hide *;
    var r := RestoreWindowBounds(v, displays).value.rect;
    var a := PlacedIsFitted(v, displays);
    RestoredAgain(r, a, displays);
  }

  lemma RestoredAgain(r: Rect, a: Rect, displays: seq<Raw>)
    requires Separate(Areas(displays)) && FittedTo(r, a, displays)
    ensures a in Areas(displays) && Inside(r, a)
    ensures RestoreWindowBounds(Saved(r), displays) == if a.width >= MIN_WIDTH && a.height >= MIN_HEIGHT
        then Some(Placed(r)) else None
  {
    hide RestoreWindowBounds, Areas, Separate, AcceptableSize, Fit, Inside;
    if AcceptableSize(r.width, r.height) {
      RestoresInHome(r, 0, 0, a, displays);
      FitsAtRest(r, a);
    } else {
      RefusedWhenSmall(r, displays);
    }
  }

  lemma FitsAtRest(r: Rect, a: Rect)
    requires Inside(r, a)
    ensures Fit(r, a) == r
  {
  }

  // Fitting a rectangle pushed down and right gives it back just when there was
  // no room to go.
  lemma FitsShifted(r: Rect, a: Rect, offset: int)
    requires Inside(r, a) && offset > 0
    ensures Fit(r.(x := r.x + offset, y := r.y + offset), a) == r
       <==> Flush(r, a)
  {
  }

  lemma RefusedWhenSmall(r: Rect, displays: seq<Raw>)
    requires !AcceptableSize(r.width, r.height)
    ensures RestoreWindowBounds(Saved(r), displays) == None
  {
    SavedReadsBack(r);
    hide NormalizeWindowBounds, AcceptableSize, Areas;
  }

  // The cascade's comment promises a window that does not exactly cover the
  // existing one. It does cover it, exactly when the existing one already fills
  // the bottom right corner of its display: the clamp takes the offset back.
  // Below the minimum size the shifted window is refused instead.
  lemma CascadeCoversIff(v: Raw, displays: seq<Raw>, offset: int)
    requires Separate(Areas(displays)) && 0 < offset <= MIN_WIDTH - MIN_VISIBLE_EDGE
    requires RestoreWindowBounds(v, displays).Some? && RestoreWindowBounds(v, displays).value.Placed?
    ensures var r := RestoreWindowBounds(v, displays).value.rect;
            exists a | a in Areas(displays) && Inside(r, a) ::
              && CascadeWindowBounds(v, displays, offset)
                 == (if AcceptableSize(r.width, r.height)
                     then Some(Placed(Fit(r.(x := r.x + offset, y := r.y + offset), a))) else None)
              && (CascadeWindowBounds(v, displays, offset) == Some(Placed(r))
                  <==> AcceptableSize(r.width, r.height) && Flush(r, a))
  {
    hide *;
    var r := RestoreWindowBounds(v, displays).value.rect;
    var a := PlacedIsFitted(v, displays);
    CascadeIs(v, displays, offset, r);
    ShiftedInHome(r, a, offset, displays);
  }

  // The rectangle reaches the area's bottom right corner.
  predicate Flush(r: Rect, a: Rect) {
    r.x + r.width == a.x + a.width && r.y + r.height == a.y + a.height
  }

  // A window that fills its display, and the same one again.
  lemma FullDisplayIsCovered()
    ensures var screen := Saved(Rect(0, 0, 1280, 800));
            && RestoreWindowBounds(screen, [screen]) == Some(Placed(Rect(0, 0, 1280, 800)))
            && CascadeWindowBounds(screen, [screen]) == Some(Placed(Rect(0, 0, 1280, 800)))
  {
    var r := Rect(0, 0, 1280, 800);
    var displays := [Saved(r)];
    OneDisplay(r);
    assert Separate(Areas(displays)) && Inside(r, r) && AcceptableSize(r.width, r.height);
    RestoresInHome(r, 0, 0, r, displays);
    RestoresInHome(r, CASCADE_OFFSET, CASCADE_OFFSET, r, displays);
    assert Fit(r, r) == r && Fit(r.(x := CASCADE_OFFSET, y := CASCADE_OFFSET), r) == r;
    assert r.(x := r.x + 0, y := r.y + 0) == r;
    hide RestoreWindowBounds, Areas, Fit, Saved, Separate;
    CascadeIs(Saved(r), displays, CASCADE_OFFSET, r);
  }

  lemma OneDisplay(r: Rect)
    requires r.width > 0 && r.height > 0
    ensures Areas([Saved(r)]) == [r]
  {
    RoundsBack(r.x);
    RoundsBack(r.y);
    RoundsBack(r.width);
    RoundsBack(r.height);
    assert Areas([Saved(r)][1..]) == [];
    hide FiniteInt;
  }

  lemma ShiftedInHome(r: Rect, a: Rect, offset: int, displays: seq<Raw>)
    requires Separate(Areas(displays)) && FittedTo(r, a, displays)
    requires 0 < offset <= MIN_WIDTH - MIN_VISIBLE_EDGE
    ensures a in Areas(displays) && Inside(r, a)
    ensures var moved := r.(x := r.x + offset, y := r.y + offset);
            && RestoreWindowBounds(Saved(moved), displays)
               == (if AcceptableSize(r.width, r.height) then Some(Placed(Fit(moved, a))) else None)
            && (Fit(moved, a) == r <==> Flush(r, a))
  {
    hide RestoreWindowBounds, Areas, Separate, Fit, Inside, Flush;
    FitsShifted(r, a, offset);
    if AcceptableSize(r.width, r.height) {
      RestoresInHome(r, offset, offset, a, displays);
    } else {
      RefusedWhenSmall(r.(x := r.x + offset, y := r.y + offset), displays);
    }
  }

  lemma CascadeIs(v: Raw, displays: seq<Raw>, offset: int, r: Rect)
    requires RestoreWindowBounds(v, displays) == Some(Placed(r))
    ensures CascadeWindowBounds(v, displays, offset)
         == RestoreWindowBounds(Saved(r.(x := r.x + offset, y := r.y + offset)), displays)
  {
    hide RestoreWindowBounds, Saved;
  }

  // A cascaded position too lies inside one work area.
  lemma CascadedInsideOneArea(v: Raw, displays: seq<Raw>, offset: int)
    ensures match CascadeWindowBounds(v, displays, offset)
            case Some(Placed(r)) => exists a | a in Areas(displays) :: Inside(r, a)
            case _ => true
  {
    hide RestoreWindowBounds, Areas, Inside, Saved;
    match RestoreWindowBounds(v, displays)
    case Some(Placed(r)) =>
      var moved := Saved(r.(x := r.x + offset, y := r.y + offset));
      if RestoreWindowBounds(moved, displays).Some? && RestoreWindowBounds(moved, displays).value.Placed? {
        var a := PlacedIsFitted(moved, displays);
      }
    case _ =>
  }
}
