/** The part of the world a map draws: `padBox` and `inBox` in map-clusters.ts, and what they promise about panning. */
module MapClusters {
  import opened RealArithmetic

  datatype Box = Box(north: real, south: real, east: real, west: real)

  datatype Place = Place(latitude: real, longitude: real)

  predicate InWorld(p: Place) {
    -90.0 <= p.latitude <= 90.0 && -180.0 <= p.longitude <= 180.0
  }

  predicate BoxInWorld(box: Box) {
    && -90.0 <= box.south <= box.north <= 90.0
    && -180.0 <= box.west <= 180.0
    && -180.0 <= box.east <= 180.0
  }

  predicate CrossesDateLine(box: Box) {
    box.west > box.east
  }

  function Width(box: Box): real {
    if CrossesDateLine(box) then 360.0 - (box.west - box.east) else box.east - box.west
  }

  function Height(box: Box): real {
    box.north - box.south
  }

  /** The padded box would go all the way round, so it stops telling east from west. */
  predicate WrapsWorld(box: Box, share: real) {
    GoesRound(box, Width(box) * share)
  }

  predicate GoesRound(box: Box, lngPad: real) {
    CrossesDateLine(box) || Width(box) + 2.0 * lngPad >= 360.0
  }

  function PadBox(box: Box, share: real): Box {
    Padded(box, Height(box) * share, Width(box) * share)
  }

  function Padded(box: Box, latPad: real, lngPad: real): Box {
    var north, south := Min(90.0, box.north + latPad), Max(-90.0, box.south - latPad);
    if GoesRound(box, lngPad) then Box(north, south, 180.0, -180.0)
    else Box(north, south, Min(180.0, box.east + lngPad), Max(-180.0, box.west - lngPad))
  }

  predicate InBox(p: Place, box: Box) {
    if p.latitude > box.north || p.latitude < box.south then false
    else if box.west <= box.east then box.west <= p.longitude <= box.east
    else p.longitude >= box.west || p.longitude <= box.east
  }

  lemma PadIsNotNegative(size: real, share: real)
    requires size >= 0.0 && share >= 0.0
    ensures size * share >= 0.0
  {
  }

  lemma PadGrows(size: real, less: real, more: real)
    requires size >= 0.0 && less <= more
    ensures size * less <= size * more
  {
    PadIsNotNegative(size, more - less);
    assert size * (more - less) == size * more - size * less;
  }

  /** Everything of the world in `view` is in `drawn`. */
  ghost predicate Covers(drawn: Box, view: Box) {
    forall p :: InWorld(p) && InBox(p, view) ==> InBox(p, drawn)
  }

  lemma PaddedStaysInWorld(box: Box, latPad: real, lngPad: real)
    requires BoxInWorld(box) && latPad >= 0.0 && lngPad >= 0.0
    ensures BoxInWorld(Padded(box, latPad, lngPad)) && !CrossesDateLine(Padded(box, latPad, lngPad))
  {
  }

  lemma PadBoxIsPadded(box: Box, share: real) returns (latPad: real, lngPad: real)
    requires BoxInWorld(box) && share >= 0.0
    ensures latPad >= 0.0 && lngPad >= 0.0 && PadBox(box, share) == Padded(box, latPad, lngPad)
  {
    var height, width := Height(box), Width(box);
    latPad, lngPad := height * share, width * share;
    PadIsNotNegative(height, share);
    PadIsNotNegative(width, share);
  }

  /** The padded box is a box of the world that never crosses the date line. */
  lemma PadBoxStaysInWorld(box: Box, share: real)
    requires BoxInWorld(box) && share >= 0.0
    ensures BoxInWorld(PadBox(box, share)) && !CrossesDateLine(PadBox(box, share))
  {
    var latPad, lngPad := PadBoxIsPadded(box, share);
    PaddedStaysInWorld(box, latPad, lngPad);
  }

  lemma PaddedGrows(box: Box, lat0: real, lng0: real, lat1: real, lng1: real)
    requires BoxInWorld(box) && 0.0 <= lat0 <= lat1 && 0.0 <= lng0 <= lng1
    ensures Covers(Padded(box, lat0, lng0), box)
    ensures Covers(Padded(box, lat1, lng1), Padded(box, lat0, lng0))
  {
  }

  lemma OrderedPads(size: real, less: real, more: real) returns (small: real, large: real)
    requires size >= 0.0 && 0.0 <= less <= more
    ensures small == size * less && large == size * more && 0.0 <= small <= large
  {
    PadIsNotNegative(size, less);
    PadGrows(size, less, more);
    small, large := size * less, size * more;
  }

  lemma PadBoxesArePadded(box: Box, less: real, more: real) returns (lat0: real, lng0: real, lat1: real, lng1: real)
    requires BoxInWorld(box) && 0.0 <= less <= more
    ensures 0.0 <= lat0 <= lat1 && 0.0 <= lng0 <= lng1
    ensures PadBox(box, less) == Padded(box, lat0, lng0) && PadBox(box, more) == Padded(box, lat1, lng1)
  {
    var height, width := Height(box), Width(box);
    lat0, lat1 := OrderedPads(height, less, more);
    lng0, lng1 := OrderedPads(width, less, more);
  }

  /** Nothing that was in view is lost, and a larger share only ever adds. */
  lemma PadBoxGrows(box: Box, less: real, more: real)
    requires BoxInWorld(box) && 0.0 <= less <= more
    ensures Covers(PadBox(box, less), box)
    ensures Covers(PadBox(box, more), PadBox(box, less))
  {
    var lat0, lng0, lat1, lng1 := PadBoxesArePadded(box, less, more);
    PaddedGrows(box, lat0, lng0, lat1, lng1);
  }

  /** The pads of a box, which is the padded box of those pads; across the date line the width does not matter. */
  lemma PadBoxByPads(box: Box, share: real, latPad: real, lngPad: real)
    requires BoxInWorld(box) && share >= 0.0
    requires latPad == (box.north - box.south) * share && lngPad == (box.east - box.west) * share
    ensures latPad >= 0.0 && (!CrossesDateLine(box) ==> lngPad >= 0.0)
    ensures PadBox(box, share) == Padded(box, latPad, lngPad)
  {
    PadIsNotNegative(box.north - box.south, share);
    if !CrossesDateLine(box) {
      PadIsNotNegative(box.east - box.west, share);
    }
  }

  /** What is within some pads of a box. */
  predicate WithinPads(box: Box, latPad: real, lngPad: real, p: Place) {
    && box.south - latPad <= p.latitude <= box.north + latPad
    && (|| box.west > box.east || box.east - box.west + 2.0 * lngPad >= 360.0
        || box.west - lngPad <= p.longitude <= box.east + lngPad)
  }

  /**
   * Exactly what a padded box holds: whatever is within the pad of its sides, a pad being the share of its own height
   * or width, and every longitude once that goes all the way round, as it does for a box across the date line.
   */
  lemma PadBoxHoldsExactly(box: Box, share: real, latPad: real, lngPad: real, p: Place)
    requires BoxInWorld(box) && share >= 0.0 && InWorld(p)
    requires latPad == (box.north - box.south) * share && lngPad == (box.east - box.west) * share
    ensures InBox(p, PadBox(box, share)) <==> WithinPads(box, latPad, lngPad, p)
  {
    PadBoxByPads(box, share, latPad, lngPad);
    assert InBox(p, Padded(box, latPad, lngPad)) <==> WithinPads(box, latPad, lngPad, p) by {
      PaddedHolds(box, latPad, lngPad, p);
    }
  }

  lemma PaddedHolds(box: Box, latPad: real, lngPad: real, p: Place)
    requires BoxInWorld(box) && latPad >= 0.0 && InWorld(p) && (!CrossesDateLine(box) ==> lngPad >= 0.0)
    ensures InBox(p, Padded(box, latPad, lngPad)) <==> WithinPads(box, latPad, lngPad, p)
  {
  }

  // ----- Panning

  /** A longitude past the date line comes back on the other side. */
  function Wrap(longitude: real): real {
    if longitude > 180.0 then longitude - 360.0
    else if longitude < -180.0 then longitude + 360.0
    else longitude
  }

  /** The view after a pan, as the map reports it. */
  function Panned(view: Box, north: real, east: real): Box {
    Box(view.north + north, view.south + north, Wrap(view.east + east), Wrap(view.west + east))
  }

  /** A pan no longer than the share of the view's own size, which keeps the poles where they are. */
  predicate ShortPan(view: Box, share: real, north: real, east: real) {
    && -(Height(view) * share) <= north <= Height(view) * share
    && -(Width(view) * share) <= east <= Width(view) * share
    && -90.0 <= view.south + north && view.north + north <= 90.0
  }

  /** One edge of the panned view has passed the date line. */
  predicate PansPastDateLine(view: Box, east: real) {
    view.east + east > 180.0 || view.west + east < -180.0
  }

  /** The same in degrees: a pan within the pads. */
  predicate PanWithin(view: Box, latPad: real, lngPad: real, north: real, east: real) {
    && -latPad <= north <= latPad && -lngPad <= east <= lngPad
    && -90.0 <= view.south + north && view.north + north <= 90.0
  }

  lemma ShortPanInDegrees(view: Box, share: real, north: real, east: real) returns (latPad: real, lngPad: real)
    requires BoxInWorld(view) && share >= 0.0 && ShortPan(view, share, north, east)
    ensures latPad >= 0.0 && lngPad >= 0.0 && PanWithin(view, latPad, lngPad, north, east)
    ensures PadBox(view, share) == Padded(view, latPad, lngPad) && WrapsWorld(view, share) == GoesRound(view, lngPad)
  {
    var height, width := Height(view), Width(view);
    latPad, lngPad := height * share, width * share;
    PadIsNotNegative(height, share);
    PadIsNotNegative(width, share);
  }

  lemma PaddedCoversPan(view: Box, latPad: real, lngPad: real, north: real, east: real)
    requires BoxInWorld(view) && latPad >= 0.0 && lngPad >= 0.0 && PanWithin(view, latPad, lngPad, north, east)
    requires !PansPastDateLine(view, east) || GoesRound(view, lngPad)
    ensures Covers(Padded(view, latPad, lngPad), Panned(view, north, east))
  {
  }

  lemma PaddedMissesPan(view: Box, latPad: real, lngPad: real, north: real, east: real) returns (missed: Place)
    requires BoxInWorld(view) && latPad >= 0.0 && lngPad >= 0.0 && PanWithin(view, latPad, lngPad, north, east)
    requires PansPastDateLine(view, east) && !GoesRound(view, lngPad)
    ensures InWorld(missed) && InBox(missed, Panned(view, north, east)) && !InBox(missed, Padded(view, latPad, lngPad))
  {
    var panned := Panned(view, north, east);
    missed := Place(panned.south, if view.east + east > 180.0 then panned.east else panned.west);
  }

  lemma PaddingCoversPan(view: Box, share: real, north: real, east: real)
    requires BoxInWorld(view) && share >= 0.0 && ShortPan(view, share, north, east)
    requires !PansPastDateLine(view, east) || WrapsWorld(view, share)
    ensures Covers(PadBox(view, share), Panned(view, north, east))
  {
    var latPad, lngPad := ShortPanInDegrees(view, share, north, east);
    PaddedCoversPan(view, latPad, lngPad, north, east);
  }

  /** Past the date line, unless the padding already went all the way round, what comes into view was not drawn. */
  lemma WrappedPanIsMissed(view: Box, share: real, north: real, east: real) returns (missed: Place)
    requires BoxInWorld(view) && share >= 0.0 && ShortPan(view, share, north, east)
    requires PansPastDateLine(view, east) && !WrapsWorld(view, share)
    ensures InWorld(missed) && InBox(missed, Panned(view, north, east)) && !InBox(missed, PadBox(view, share))
  {
    var latPad, lngPad := ShortPanInDegrees(view, share, north, east);
    missed := PaddedMissesPan(view, latPad, lngPad, north, east);
  }

  /**
   * Padding by a share covers every pan of up to that share of the view, date-line views included, exactly when the
   * pan does not carry an edge of the view past the date line or the padding goes all the way round the world.
   */
  lemma PanIsCoveredExactly(view: Box, share: real, north: real, east: real)
    requires BoxInWorld(view) && share >= 0.0 && ShortPan(view, share, north, east)
    ensures Covers(PadBox(view, share), Panned(view, north, east))
            <==> !PansPastDateLine(view, east) || WrapsWorld(view, share)
  {
    if !PansPastDateLine(view, east) || WrapsWorld(view, share) {
      PaddingCoversPan(view, share, north, east);
    } else {
      var missed := WrappedPanIsMissed(view, share, north, east);
    }
  }
}
