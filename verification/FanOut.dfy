/** Fanning out the markers that share one spot (`spotOffsets` in map-clusters.ts), so that each can be clicked. */
module FanOut {
  import opened Sequences
  import opened RealArithmetic

  /** How far apart, in pixels, neighbours on a ring are meant to be. */
  const FAN_GAP_PX: real := 24.0

  /** How wide a disc is: centres this far apart do not overlap. */
  const DISC_PX := 22

  /**
   * `Math.sin`, `Math.cos` and `Math.PI`, as the exact functions they approximate. `Valid` lists the identities of
   * plane trigonometry the fan rests on; the geometry of the ring itself is proved from them.
   */
  datatype Trig = Trig(sin: real -> real, cos: real -> real, pi: real) {
    ghost predicate OnCircle(x: real) {
      sin(x) * sin(x) + cos(x) * cos(x) == 1.0
    }

    ghost predicate Subtracts(x: real, y: real) {
      && cos(x - y) == cos(x) * cos(y) + sin(x) * sin(y)
      && sin(x - y) == sin(x) * cos(y) - cos(x) * sin(y)
    }

    ghost predicate Mirrors(x: real) {
      cos(-x) == cos(x) && sin(-x) == -sin(x)
    }

    ghost predicate Rises(x: real, y: real) {
      && (0.0 < x < pi ==> sin(x) > 0.0)
      && (0.0 <= x <= y <= pi / 2.0 ==> sin(x) <= sin(y))
    }

    ghost predicate Valid() {
      && pi > 0.0 && sin(pi) == 0.0 && cos(pi) == -1.0
      && (forall x :: OnCircle(x) && Mirrors(x))
      && (forall x, y :: Subtracts(x, y) && Rises(x, y))
    }

    /** Half the angle between neighbours on a ring of `n`. */
    function HalfStep(n: nat): real
      requires n >= 2
    {
      pi / n as real
    }

    /** The radius at which neighbours are the gap apart. */
    function Radius(n: nat): real
      requires Valid() && n >= 2
    {
      SinIsPositive(this, n);
      FAN_GAP_PX / (2.0 * sin(HalfStep(n)))
    }

    /** From twelve o'clock, clockwise. */
    function Angle(n: nat, index: nat): real
      requires n >= 2
    {
      -pi / 2.0 + (index as real / n as real) * 2.0 * pi
    }
  }

  /** `Math.round`: to the nearest whole number, a half going up. */
  function Round(x: real): int {
    (x + 0.5).Floor
  }

  datatype Offset = Offset(x: int, y: int)

  datatype Point = Point(x: real, y: real)

  function RingPoint(trig: Trig, n: nat, index: nat): Point
    requires trig.Valid() && n >= 2
  {
    Point(trig.Radius(n) * trig.cos(trig.Angle(n, index)), trig.Radius(n) * trig.sin(trig.Angle(n, index)))
  }

  function Rounded(p: Point): Offset {
    Offset(Round(p.x), Round(p.y))
  }

  function RingOffset(trig: Trig, n: nat, index: nat): Offset
    requires trig.Valid() && n >= 2
  {
    Rounded(RingPoint(trig, n, index))
  }

  /** Two points at least the fan's gap apart. */
  ghost predicate GapApart(p: Point, q: Point) {
    Sq(p.x - q.x) + Sq(p.y - q.y) >= Sq(FAN_GAP_PX)
  }

  function Square(x: int): int {
    x * x
  }

  predicate Apart(a: Offset, b: Offset) {
    Square(a.x - b.x) + Square(a.y - b.y) >= Square(DISC_PX)
  }

  // ----- The ring

  lemma SinIsPositive(trig: Trig, n: nat)
    requires trig.Valid() && n >= 2
    ensures trig.sin(trig.HalfStep(n)) > 0.0
  {
    var x := trig.HalfStep(n);
    DividesOut(trig.pi, n);
    assert 0.0 < x < trig.pi;
    assert trig.Rises(x, x);
  }

  /** Two points of the unit circle are twice the sine of half their angle apart. */
  lemma Chord(trig: Trig, a: real, b: real, half: real)
    requires trig.Valid() && a - b == half + half
    ensures Sq(trig.cos(a) - trig.cos(b)) + Sq(trig.sin(a) - trig.sin(b)) == 4.0 * Sq(trig.sin(half))
  {
    assert trig.Subtracts(a, b) && trig.OnCircle(a) && trig.OnCircle(b);
    assert half - (-half) == a - b;
    assert trig.Subtracts(half, -half) && trig.Mirrors(half) && trig.OnCircle(half);
    assert trig.cos(a - b) == trig.cos(half) * trig.cos(half) - trig.sin(half) * trig.sin(half);
    SquareOfDifferences(trig.cos(a), trig.cos(b), trig.sin(a), trig.sin(b));
  }

  lemma AtLeastOnce(step: real, times: nat, x: real)
    requires step >= 0.0 && times >= 1 && x == times as real * step
    ensures x >= step
  {
    ScaleGrows(step, 1.0, times as real);
    assert 1.0 * step == step;
  }

  /** Between an angle and its supplement the sine is not below theirs. */
  lemma SineBetween(trig: Trig, step: real, x: real, rest: real)
    requires trig.Valid() && 0.0 <= step <= x && step <= rest && x + rest == trig.pi
    ensures trig.sin(x) >= trig.sin(step)
  {
    if x > trig.pi / 2.0 {
      assert trig.Subtracts(trig.pi, x);
      assert trig.pi - x == rest;
      assert trig.sin(rest) == trig.sin(x);
      assert trig.Rises(step, rest);
    } else {
      assert trig.Rises(step, x);
    }
  }

  /** Neighbours on the ring are its closest points. */
  lemma NeighboursAreClosest(trig: Trig, n: nat, k: nat, x: real)
    requires trig.Valid() && 1 <= k < n && x == k as real * trig.HalfStep(n)
    ensures trig.sin(x) >= trig.sin(trig.HalfStep(n))
  {
    var step := trig.HalfStep(n);
    DividesOut(trig.pi, n);
    var rest := (n - k) as real * step;
    assert x + rest == trig.pi by { SplitsProduct(k as real, (n - k) as real, step); }
    AtLeastOnce(step, k, x);
    AtLeastOnce(step, n - k, rest);
    SineBetween(trig, step, x, rest);
  }

  lemma AnglesDiffer(trig: Trig, n: nat, i: nat, j: nat)
    requires n >= 2 && j <= i
    ensures var half := (i - j) as real * trig.HalfStep(n);
            trig.Angle(n, i) - trig.Angle(n, j) == half + half
  {
    var m, pi := n as real, trig.pi;
    assert i as real / m - j as real / m == (i - j) as real / m;
    assert ((i - j) as real / m) * pi == (i - j) as real * (pi / m);
  }

  /** Before rounding, any two markers of a fan are at least the gap apart. */
  lemma RingKeepsGap(trig: Trig, n: nat, i: nat, j: nat)
    requires trig.Valid() && n >= 2 && j < i < n
    ensures GapApart(RingPoint(trig, n, i), RingPoint(trig, n, j))
  {
    var r, a, b := trig.Radius(n), trig.Angle(n, i), trig.Angle(n, j);
    var half := (i - j) as real * trig.HalfStep(n);
    SinIsPositive(trig, n);
    AnglesDiffer(trig, n, i, j);
    Chord(trig, a, b, half);
    NeighboursAreClosest(trig, n, i - j, half);
    RingGap(r, trig.sin(trig.HalfStep(n)), trig.sin(half), trig.cos(a), trig.cos(b), trig.sin(a), trig.sin(b));
  }

  /** A chord of a ring whose shortest chord is the gap. */
  lemma RingGap(r: real, nearest: real, s: real, ca: real, cb: real, sa: real, sb: real)
    requires 0.0 < nearest <= s && r == FAN_GAP_PX / (2.0 * nearest)
    requires Sq(ca - cb) + Sq(sa - sb) == 4.0 * Sq(s)
    ensures Sq(r * ca - r * cb) + Sq(r * sa - r * sb) >= Sq(FAN_GAP_PX)
  {
    var chord := r * (2.0 * s);
    assert r > 0.0 && r * (2.0 * nearest) == FAN_GAP_PX;
    assert chord >= FAN_GAP_PX by { ScaleGrows(r, 2.0 * nearest, 2.0 * s); }
    SquareGrows(FAN_GAP_PX, chord);
    ScalesSquares(r, ca - cb, sa - sb, 2.0 * s);
    assert r * (ca - cb) == r * ca - r * cb && r * (sa - sb) == r * sa - r * sb;
  }

  /** ... and neighbours exactly that: the ring is no wider than it has to be. */
  lemma NeighboursAreAtTheGap(trig: Trig, n: nat, i: nat)
    requires trig.Valid() && n >= 2 && i + 1 < n
    ensures var p, q := RingPoint(trig, n, i + 1), RingPoint(trig, n, i);
            Sq(p.x - q.x) + Sq(p.y - q.y) == 576.0
  {
    var r, a, b := trig.Radius(n), trig.Angle(n, i + 1), trig.Angle(n, i);
    var half := trig.HalfStep(n);
    SinIsPositive(trig, n);
    AnglesDiffer(trig, n, i + 1, i);
    assert ((i + 1) - i) as real * half == half;
    Chord(trig, a, b, half);
    RingExactGap(r, trig.sin(half), trig.cos(a), trig.cos(b), trig.sin(a), trig.sin(b));
  }

  lemma RingExactGap(r: real, s: real, ca: real, cb: real, sa: real, sb: real)
    requires 0.0 < s && r == FAN_GAP_PX / (2.0 * s)
    requires Sq(ca - cb) + Sq(sa - sb) == 4.0 * Sq(s)
    ensures Sq(r * ca - r * cb) + Sq(r * sa - r * sb) == 576.0
  {
    assert r * (2.0 * s) == FAN_GAP_PX;
    ScalesSquares(r, ca - cb, sa - sb, 2.0 * s);
    assert r * (ca - cb) == r * ca - r * cb && r * (sa - sb) == r * sa - r * sb;
  }

  /** A quarter turn has no cosine, and a whole sine. */
  lemma QuarterTurn(trig: Trig)
    requires trig.Valid()
    ensures trig.cos(trig.pi / 2.0) == 0.0 && trig.sin(trig.pi / 2.0) == 1.0
  {
    var q := trig.pi / 2.0;
    assert trig.Subtracts(q, -q) && trig.Mirrors(q) && trig.OnCircle(q) && trig.Rises(q, q);
    assert q - (-q) == trig.pi;
    UnitRoots(trig.cos(q), trig.sin(q));
  }

  lemma UnitRoots(c: real, s: real)
    requires c * c + s * s == 1.0 && c * c - s * s == -1.0 && s > 0.0
    ensures c == 0.0 && s == 1.0
  {
    var cc, ss := c * c, s * s;
    assert cc == 0.0 && ss == 1.0;
    SquareRoot(c, 0.0);
    SquareRoot(s, 1.0);
  }

  /** As on a clock: so far round from twelve, clockwise on a screen, where down is positive. */
  function ClockOffset(trig: Trig, n: nat, index: nat): Offset
    requires trig.Valid() && n >= 2
  {
    var turned := (index as real / n as real) * 2.0 * trig.pi;
    Offset(Round(trig.Radius(n) * trig.sin(turned)), Round(-(trig.Radius(n) * trig.cos(turned))))
  }

  /** The first marker stands at twelve, and each next one its share of the turn on. */
  lemma RingIsAClock(trig: Trig, n: nat, index: nat)
    requires trig.Valid() && n >= 2
    ensures RingOffset(trig, n, index) == ClockOffset(trig, n, index)
    ensures trig.Radius(n) > 0.0
  {
    var turned := (index as real / n as real) * 2.0 * trig.pi;
    QuarterTurn(trig);
    SinIsPositive(trig, n);
    assert trig.Subtracts(turned, trig.pi / 2.0);
    assert trig.Angle(n, index) == turned - trig.pi / 2.0;
    assert trig.cos(trig.Angle(n, index)) == trig.sin(turned);
    assert trig.sin(trig.Angle(n, index)) == -trig.cos(turned);
  }

  // ----- Rounding

  lemma RoundIsNear(x: real)
    ensures -0.5 <= Round(x) as real - x <= 0.5
  {
  }

  lemma RoundIsTheNearest(x: real, whole: int)
    ensures whole == Round(x) <==> whole as real - 0.5 <= x < whole as real + 0.5
  {
  }

  /** Any two markers of a fan, as drawn, are a disc's width apart: rounding costs less than two of the 24 pixels. */
  lemma FanKeepsDiscsApart(trig: Trig, n: nat, i: nat, j: nat)
    requires trig.Valid() && n >= 2 && i < n && j < n && i != j
    ensures Apart(RingOffset(trig, n, i), RingOffset(trig, n, j))
    decreases i < j
  {
    if i < j {
      FanKeepsDiscsApart(trig, n, j, i);
    } else {
      RingKeepsGap(trig, n, i, j);
      RoundedPairApart(RingPoint(trig, n, i), RingPoint(trig, n, j));
    }
  }

  lemma RoundedPairApart(p: Point, q: Point)
    requires GapApart(p, q)
    ensures Apart(Rounded(p), Rounded(q))
  {
    var x, y := Round(p.x) - Round(q.x), Round(p.y) - Round(q.y);
    RoundIsNear(p.x);
    RoundIsNear(p.y);
    RoundIsNear(q.x);
    RoundIsNear(q.y);
    var ex, ey := x as real - (p.x - q.x), y as real - (p.y - q.y);
    assert x as real - ex == p.x - q.x && y as real - ey == p.y - q.y;
    NudgedDifference(x as real, y as real, ex, ey);
    WholeSquare(x);
    WholeSquare(y);
  }

  lemma WholeSquare(x: int)
    ensures Sq(x as real) == Square(x) as real
  {
  }

  // ----- Spots

  /** `toFixed(5)`: the sign is printed whenever the number is below zero, even when every digit printed is a zero. */
  datatype Fixed = Fixed(negative: bool, units: int)

  function ToFixed5(x: real): Fixed {
    if x < 0.0 then Fixed(true, Round(-x * 100000.0)) else Fixed(false, Round(x * 100000.0))
  }

  datatype Spot = Spot(latitude: Fixed, longitude: Fixed)

  datatype Item<K> = Item(key: K, latitude: real, longitude: real)

  function SpotOf<K>(item: Item<K>): Spot {
    Spot(ToFixed5(item.latitude), ToFixed5(item.longitude))
  }

  /** A size, whatever its sign, rounds to this many hundred-thousandths, a half going up. */
  predicate RoundsTo(x: real, units: int) {
    var size := if x < 0.0 then -x else x;
    units as real - 0.5 <= size * 100000.0 < units as real + 0.5
  }

  /** Two coordinates print alike: on the same side of zero, and rounding to the same figure. */
  ghost predicate PrintAlike(x: real, y: real) {
    (x < 0.0 <==> y < 0.0) && exists units: int :: RoundsTo(x, units) && RoundsTo(y, units)
  }

  /** Two markers share a spot: both their coordinates print alike. */
  ghost predicate ShareSpot<K>(a: Item<K>, b: Item<K>) {
    PrintAlike(a.latitude, b.latitude) && PrintAlike(a.longitude, b.longitude)
  }

  lemma RoundsToItsFigure(x: real)
    ensures forall units: int :: RoundsTo(x, units) <==> units == ToFixed5(x).units
    ensures ToFixed5(x).negative <==> x < 0.0
  {
    forall units: int ensures RoundsTo(x, units) <==> units == ToFixed5(x).units {
      RoundIsTheNearest(if x < 0.0 then -x * 100000.0 else x * 100000.0, units);
    }
  }

  lemma FixedAlikeExactly(x: real, y: real)
    ensures ToFixed5(x) == ToFixed5(y) <==> PrintAlike(x, y)
    ensures PrintAlike(x, y) ==> -0.00001 <= x - y <= 0.00001
  {
    RoundsToItsFigure(x);
    RoundsToItsFigure(y);
    if ToFixed5(x) == ToFixed5(y) {
      assert RoundsTo(x, ToFixed5(x).units) && RoundsTo(y, ToFixed5(x).units);
    }
  }

  /** Items have one spot exactly when they print alike, and are then a hundred-thousandth of a degree apart at most. */
  lemma SpotIsAPlace<K>(a: Item<K>, b: Item<K>)
    ensures SpotOf(a) == SpotOf(b) <==> ShareSpot(a, b)
    ensures ShareSpot(a, b) ==>
              && -0.00001 <= a.latitude - b.latitude <= 0.00001
              && -0.00001 <= a.longitude - b.longitude <= 0.00001
  {
    FixedAlikeExactly(a.latitude, b.latitude);
    FixedAlikeExactly(a.longitude, b.longitude);
  }

  function AtSpot<K>(spot: Spot): Item<K> -> bool {
    item => SpotOf(item) == spot
  }

  function Here<K(!new)>(items: seq<Item<K>>, spot: Spot): seq<Item<K>> {
    Filter(items, AtSpot(spot))
  }

  ghost predicate DistinctKeys<K>(items: seq<Item<K>>) {
    forall i, j :: 0 <= i < j < |items| ==> items[i].key != items[j].key
  }

  /** Every marker of the spot has its own place on the spot's ring. */
  ghost predicate Placed<K(!new)>(items: seq<Item<K>>, trig: Trig, offsets: map<K, Offset>, spot: Spot)
    requires trig.Valid()
  {
    |Here(items, spot)| >= 2 ==>
      forall r :: 0 <= r < |Here(items, spot)| ==>
        && Here(items, spot)[r].key in offsets
        && offsets[Here(items, spot)[r].key] == RingOffset(trig, |Here(items, spot)|, r)
  }

  /** Exactly the items of the spots done so far that are not alone there have an entry. */
  ghost predicate KeysOf<K(!new)>(items: seq<Item<K>>, done: seq<Spot>, offsets: map<K, Offset>) {
    forall key :: key in offsets <==>
      exists item :: item in items && item.key == key && SpotOf(item) in done && |Here(items, SpotOf(item))| >= 2
  }

  ghost predicate AllPlaced<K(!new)>(items: seq<Item<K>>, trig: Trig, offsets: map<K, Offset>, done: seq<Spot>)
    requires trig.Valid()
  {
    forall spot :: spot in done ==> Placed(items, trig, offsets, spot)
  }

  /** What `spotOffsets` hands back: an entry for everything that shares its spot, and the ring's place for each. */
  ghost predicate IsFan<K(!new)>(items: seq<Item<K>>, trig: Trig, offsets: map<K, Offset>)
    requires trig.Valid()
  {
    && (forall key :: key in offsets <==>
          exists item :: item in items && item.key == key && |Here(items, SpotOf(item))| >= 2)
    && (DistinctKeys(items) ==> forall spot :: |Here(items, spot)| >= 2 ==> Placed(items, trig, offsets, spot))
  }

  /** The first loop: the items of each spot in their order, and the spots in order of first appearance. */
  method GroupBySpot<K(==,!new)>(items: seq<Item<K>>) returns (bySpot: map<Spot, seq<Item<K>>>, spots: seq<Spot>)
    ensures forall spot :: spot in spots <==> spot in bySpot
    ensures forall spot :: spot in bySpot <==> |Here(items, spot)| > 0
    ensures forall spot :: spot in bySpot ==> bySpot[spot] == Here(items, spot)
    ensures Distinct(spots)
  {
    bySpot, spots := map[], [];
    for i := 0 to |items|
      invariant forall spot :: spot in spots <==> spot in bySpot
      invariant forall spot :: spot in bySpot <==> |Here(items[..i], spot)| > 0
      invariant forall spot :: spot in bySpot ==> bySpot[spot] == Here(items[..i], spot)
      invariant Distinct(spots)
    {
      var item := items[i];
      var spot := SpotOf(item);
      assert items[..i + 1] == items[..i] + [item];
      forall s ensures Here(items[..i + 1], s) == Here(items[..i], s) + (if s == spot then [item] else []) {
        FilterAppend(items[..i], [item], AtSpot(s));
      }
      if spot in bySpot {
        bySpot := bySpot[spot := bySpot[spot] + [item]];
      } else {
        bySpot := bySpot[spot := [item]];
        spots := spots + [spot];
      }
    }
    assert items[..|items|] == items;
  }

  /** Entries of other items stay as they were. */
  ghost predicate OthersKept<K(!new)>(here: seq<Item<K>>, offsets: map<K, Offset>, fanned: map<K, Offset>) {
    forall key :: key in offsets && (forall r :: 0 <= r < |here| ==> here[r].key != key) ==>
                    key in fanned && fanned[key] == offsets[key]
  }

  /** One spot's fan, written over the offsets found so far. */
  method FanSpot<K(==,!new)>(here: seq<Item<K>>, trig: Trig, offsets: map<K, Offset>) returns (fanned: map<K, Offset>)
    requires trig.Valid() && |here| >= 2
    ensures forall key :: key in fanned <==> key in offsets || exists r :: 0 <= r < |here| && here[r].key == key
    ensures OthersKept(here, offsets, fanned)
    ensures DistinctKeys(here) ==> forall r :: 0 <= r < |here| ==> fanned[here[r].key] == RingOffset(trig, |here|, r)
  {
    fanned := offsets;
    for index := 0 to |here|
      invariant forall key :: key in fanned <==> key in offsets || exists r :: 0 <= r < index && here[r].key == key
      invariant OthersKept(here, offsets, fanned)
      invariant DistinctKeys(here) ==> forall r :: 0 <= r < index ==> fanned[here[r].key] == RingOffset(trig, |here|, r)
    {
      fanned := fanned[here[index].key := RingOffset(trig, |here|, index)];
    }
  }

  method SpotOffsets<K(==,!new)>(items: seq<Item<K>>, trig: Trig) returns (offsets: map<K, Offset>)
    requires trig.Valid()
    ensures IsFan(items, trig, offsets)
  {
    var bySpot, spots := GroupBySpot(items);
    offsets := map[];
    for s := 0 to |spots|
      invariant KeysOf(items, spots[..s], offsets)
      invariant DistinctKeys(items) ==> AllPlaced(items, trig, offsets, spots[..s])
    {
      var spot := spots[s];
      var here := bySpot[spot];
      assert spots[..s + 1] == spots[..s] + [spot];
      if |here| >= 2 {
        var fanned := FanSpot(here, trig, offsets);
        KeysAfterFan(items, spot, spots[..s], offsets, fanned);
        if DistinctKeys(items) {
          PlacedAfterFan(items, trig, spot, spots[..s], offsets, fanned);
        }
        offsets := fanned;
      } else {
        KeysWithoutFan(items, spot, spots[..s], offsets);
      }
    }
    assert spots[..|spots|] == spots;
    EverySpotDone(items, trig, spots, offsets);
  }

  lemma EverySpotDone<K(!new)>(items: seq<Item<K>>, trig: Trig, spots: seq<Spot>, offsets: map<K, Offset>)
    requires trig.Valid()
    requires forall spot :: spot in spots <==> |Here(items, spot)| > 0
    requires KeysOf(items, spots, offsets)
    requires DistinctKeys(items) ==> AllPlaced(items, trig, offsets, spots)
    ensures IsFan(items, trig, offsets)
  {
    if DistinctKeys(items) {
      forall spot | |Here(items, spot)| >= 2 ensures Placed(items, trig, offsets, spot) {
        assert spot in spots;
      }
    }
  }

  lemma KeysWithoutFan<K(!new)>(items: seq<Item<K>>, spot: Spot, done: seq<Spot>, offsets: map<K, Offset>)
    requires |Here(items, spot)| < 2 && KeysOf(items, done, offsets)
    ensures KeysOf(items, done + [spot], offsets)
  {
  }

  lemma KeysAfterFan<K(!new)>(
    items: seq<Item<K>>, spot: Spot, done: seq<Spot>, offsets: map<K, Offset>, fanned: map<K, Offset>)
    requires |Here(items, spot)| >= 2 && KeysOf(items, done, offsets)
    requires forall key :: key in fanned <==>
      key in offsets || exists r :: 0 <= r < |Here(items, spot)| && Here(items, spot)[r].key == key
    ensures KeysOf(items, done + [spot], fanned)
  {
    forall key
      ensures key in fanned <==>
        exists item :: item in items && item.key == key && SpotOf(item) in done + [spot] &&
          |Here(items, SpotOf(item))| >= 2
    {
      if key in fanned && key !in offsets {
        var r :| 0 <= r < |Here(items, spot)| && Here(items, spot)[r].key == key;
        assert Here(items, spot)[r] in Here(items, spot);
      }
      if item :| item in items && item.key == key && SpotOf(item) in done + [spot] && |Here(items, SpotOf(item))| >= 2 {
        if SpotOf(item) == spot {
          assert item in Here(items, spot);
        }
      }
    }
  }

  lemma PlacedAfterFan<K(!new)>(
    items: seq<Item<K>>, trig: Trig, spot: Spot, done: seq<Spot>, offsets: map<K, Offset>, fanned: map<K, Offset>)
    requires trig.Valid() && DistinctKeys(items) && |Here(items, spot)| >= 2 && AllPlaced(items, trig, offsets, done)
    requires forall key :: key in fanned <==>
      key in offsets || exists r :: 0 <= r < |Here(items, spot)| && Here(items, spot)[r].key == key
    requires OthersKept(Here(items, spot), offsets, fanned)
    requires DistinctKeys(Here(items, spot)) ==>
      forall r :: 0 <= r < |Here(items, spot)| ==>
        fanned[Here(items, spot)[r].key] == RingOffset(trig, |Here(items, spot)|, r)
    ensures AllPlaced(items, trig, fanned, done + [spot])
  {
    DistinctKeysKept(items, spot);
    forall other | other in done + [spot] ensures Placed(items, trig, fanned, other) {
      if other != spot {
        OtherSpotsKept(items, trig, spot, other, offsets, fanned);
      }
    }
  }

  /** With distinct keys, one spot's fan touches no other spot's. */
  lemma OtherSpotsKept<K(!new)>(
    items: seq<Item<K>>, trig: Trig, spot: Spot, other: Spot, offsets: map<K, Offset>, fanned: map<K, Offset>)
    requires trig.Valid() && DistinctKeys(items) && Placed(items, trig, offsets, other) && spot != other
    requires forall key :: key in offsets ==> key in fanned
    requires OthersKept(Here(items, spot), offsets, fanned)
    ensures Placed(items, trig, fanned, other)
  {
    forall q, r | 0 <= q < |Here(items, other)| && 0 <= r < |Here(items, spot)|
      ensures Here(items, spot)[r].key != Here(items, other)[q].key
    {
      var theirs, mine := Here(items, other)[q], Here(items, spot)[r];
      assert theirs in Here(items, other) && mine in Here(items, spot);
      assert theirs in items && mine in items && theirs != mine;
    }
  }

  lemma {:induction false} DistinctKeysKept<K(!new)>(items: seq<Item<K>>, spot: Spot)
    requires DistinctKeys(items)
    ensures DistinctKeys(Here(items, spot))
  {
    if |items| == 0 {
    } else {
      DistinctKeysKept(items[1..], spot);
      forall item | item in Here(items[1..], spot) ensures item.key != items[0].key {
        assert item in items[1..];
      }
    }
  }

  /** There are two at a spot exactly when an item there has another one beside it. */
  lemma {:induction false} SharedSpot<K(!new)>(items: seq<Item<K>>, k: nat)
    requires k < |items|
    ensures |Here(items, SpotOf(items[k]))| >= 2
            <==> exists l :: 0 <= l < |items| && l != k && SpotOf(items[l]) == SpotOf(items[k])
  {
    var spot := SpotOf(items[k]);
    var before, after := items[..k], items[k + 1..];
    assert items == before + [items[k]] + after;
    FilterInserted(before, items[k], after, AtSpot(spot));
    var others := Filter(before + after, AtSpot(spot));
    if |others| > 0 {
      var other := others[0];
      assert other in others;
      var m :| 0 <= m < |before + after| && (before + after)[m] == other;
      assert items[if m < k then m else m + 1] == other;
    }
    if l :| 0 <= l < |items| && l != k && SpotOf(items[l]) == spot {
      assert items[l] == (before + after)[if l < k then l else l - 1];
      assert items[l] in others;
    }
  }

  lemma FannedExactlyWhenShared<K(!new)>(items: seq<Item<K>>, trig: Trig, offsets: map<K, Offset>, k: nat)
    requires trig.Valid() && DistinctKeys(items) && IsFan(items, trig, offsets) && k < |items|
    ensures items[k].key in offsets <==> exists m :: 0 <= m < |items| && m != k && SpotOf(items[m]) == SpotOf(items[k])
  {
    SharedSpot(items, k);
    if items[k].key in offsets {
      var item :| item in items && item.key == items[k].key && |Here(items, SpotOf(item))| >= 2;
      var m :| 0 <= m < |items| && items[m] == item;
      assert m == k;
    }
    assert items[k] in items;
  }

  /**
   * The fan: with distinct keys, a marker is moved exactly when another one prints to the same place, and any two such
   * markers are drawn at least a disc's width, 22 pixels, apart.
   */
  lemma FanSeparates<K(!new)>(items: seq<Item<K>>, trig: Trig, offsets: map<K, Offset>, k: nat, l: nat)
    requires trig.Valid() && DistinctKeys(items) && IsFan(items, trig, offsets)
    requires k < |items| && l < |items|
    ensures items[k].key in offsets <==> exists m :: 0 <= m < |items| && m != k && ShareSpot(items[m], items[k])
    ensures k != l && ShareSpot(items[k], items[l]) ==>
              && items[k].key in offsets && items[l].key in offsets
              && var p, q := offsets[items[k].key], offsets[items[l].key];
                 (p.x - q.x) * (p.x - q.x) + (p.y - q.y) * (p.y - q.y) >= 484
  {
    FannedExactlyWhenShared(items, trig, offsets, k);
    forall m | 0 <= m < |items| ensures SpotOf(items[m]) == SpotOf(items[k]) <==> ShareSpot(items[m], items[k]) {
      SpotIsAPlace(items[m], items[k]);
    }
    SpotIsAPlace(items[k], items[l]);
    if k != l && ShareSpot(items[k], items[l]) {
      FannedExactlyWhenShared(items, trig, offsets, l);
      assert SpotOf(items[l]) == SpotOf(items[k]);
      SameSpotApart(items, trig, offsets, items[k], items[l]);
    }
  }

  /** Where each stands: the r-th of the n markers at its spot has the r-th place of the ring of n, rounded. */
  lemma MarkersStandOnTheRing<K(!new)>(items: seq<Item<K>>, trig: Trig, offsets: map<K, Offset>, spot: Spot, r: nat)
    requires trig.Valid() && DistinctKeys(items) && IsFan(items, trig, offsets)
    requires |Here(items, spot)| >= 2 && r < |Here(items, spot)|
    ensures var n, key := |Here(items, spot)|, Here(items, spot)[r].key;
            key in offsets && offsets[key] == ClockOffset(trig, n, r)
  {
    RingIsAClock(trig, |Here(items, spot)|, r);
    assert Placed(items, trig, offsets, spot);
  }

  lemma SameSpotApart<K(!new)>(items: seq<Item<K>>, trig: Trig, offsets: map<K, Offset>, a: Item<K>, b: Item<K>)
    requires trig.Valid() && Placed(items, trig, offsets, SpotOf(a))
    requires a in items && b in items && a != b && SpotOf(a) == SpotOf(b)
    requires a.key in offsets && b.key in offsets
    ensures Apart(offsets[a.key], offsets[b.key])
  {
    var here := Here(items, SpotOf(a));
    assert a in here && b in here;
    var r :| 0 <= r < |here| && here[r] == a;
    var t :| 0 <= t < |here| && here[t] == b;
    PlacedApart(here, trig, offsets, r, t);
  }

  lemma PlacedApart<K(!new)>(here: seq<Item<K>>, trig: Trig, offsets: map<K, Offset>, r: nat, t: nat)
    requires trig.Valid() && r < |here| && t < |here| && r != t
    requires here[r].key in offsets && offsets[here[r].key] == RingOffset(trig, |here|, r)
    requires here[t].key in offsets && offsets[here[t].key] == RingOffset(trig, |here|, t)
    ensures Apart(offsets[here[r].key], offsets[here[t].key])
  {
    FanKeepsDiscsApart(trig, |here|, r, t);
  }
}
