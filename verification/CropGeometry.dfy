/** The crop arithmetic of federation-hash-tool/hash_my_cards.py, in exact reals. */
module CropGeometry {
  import opened Wrappers

  const TRIM_WIDTH_MM: real := 63.0
  const TRIM_HEIGHT_MM: real := 88.0
  const BLEED_MARGIN_MM: real := 3.175
  const TRIM_ASPECT_RATIO: real := TRIM_WIDTH_MM / TRIM_HEIGHT_MM
  const BLEED_ASPECT_RATIO: real := (TRIM_WIDTH_MM + 2.0 * BLEED_MARGIN_MM) / (TRIM_HEIGHT_MM + 2.0 * BLEED_MARGIN_MM)
  const TOLERANCE: real := 0.03
  const WIDTH_MARGIN_FRACTION: real := BLEED_MARGIN_MM / (TRIM_WIDTH_MM + 2.0 * BLEED_MARGIN_MM)
  const HEIGHT_MARGIN_FRACTION: real := BLEED_MARGIN_MM / (TRIM_HEIGHT_MM + 2.0 * BLEED_MARGIN_MM)

  datatype BleedClass = Bleed | Trimmed
  datatype Box = Box(left: real, top: real, right: real, bottom: real)
  datatype PixelBox = PixelBox(left: int, top: int, right: int, bottom: int)

  const ART_CROP_BOX: Box := Box(0.07, 0.10, 0.93, 0.58)

  function Abs(x: real): real { if x < 0.0 then -x else x }
  function Min(x: real, y: real): real { if x <= y then x else y }
  function Max(x: real, y: real): real { if x >= y then x else y }

  function ClassifyBleedEdge(width: nat, height: nat): Option<BleedClass> {
    if height == 0 then None
    else
      var ratio := width as real / height as real;
      var toTrim := Abs(ratio - TRIM_ASPECT_RATIO);
      var toBleed := Abs(ratio - BLEED_ASPECT_RATIO);
      if Min(toTrim, toBleed) > TOLERANCE then None
      else if toBleed < toTrim then Some(Bleed) else Some(Trimmed)
  }

  function Rescale(fraction: real, margin: real): real
    requires margin != 0.5
  {
    Min(1.0, Max(0.0, (fraction - margin) / (1.0 - 2.0 * margin)))
  }

  function NormalizeCropBox(box: Box, bleedClass: Option<BleedClass>): Box {
    if bleedClass != Some(Trimmed) then box
    else Box(Rescale(box.left, WIDTH_MARGIN_FRACTION), Rescale(box.top, HEIGHT_MARGIN_FRACTION),
             Rescale(box.right, WIDTH_MARGIN_FRACTION), Rescale(box.bottom, HEIGHT_MARGIN_FRACTION))
  }

  /** Python's `int`: towards zero. */
  function Truncate(x: real): int {
    if x >= 0.0 then x.Floor else -((-x).Floor)
  }

  function Position(fraction: real, size: nat): real { fraction * size as real }

  lemma PositionStep(fraction: real, size: nat)
    requires size > 0
    ensures Position(fraction, size) == Position(fraction, size - 1) + fraction
  {
    assert fraction * (size - 1) as real + fraction == fraction * size as real;
  }

  function Edge(fraction: real, size: nat): int { Truncate(Position(fraction, size)) }

  function Pixels(box: Box, width: nat, height: nat): PixelBox {
    PixelBox(Edge(box.left, width), Edge(box.top, height), Edge(box.right, width), Edge(box.bottom, height))
  }

  /** The crop compute_content_phash takes before hashing. */
  function ArtBox(width: nat, height: nat): PixelBox {
    Pixels(NormalizeCropBox(ART_CROP_BOX, ClassifyBleedEdge(width, height)), width, height)
  }

  /** The classes are bands of the aspect ratio, cut halfway between a trimmed card's, 63 by 88 millimetres,
      and that of one with bleed, 69.35 by 94.35: no ratio between the two is left unclassified, and a tie is
      trimmed. */
  lemma ClassesAreBands(width: nat, height: nat)
    requires height > 0
    ensures var ratio := width as real / height as real;
            var trimmed, bleed := 63.0 / 88.0, 69.35 / 94.35;
            var middle := (trimmed + bleed) / 2.0;
            var found := ClassifyBleedEdge(width, height);
            && (found == Some(Trimmed) <==> trimmed - 0.03 <= ratio <= middle)
            && (found == Some(Bleed) <==> middle < ratio <= bleed + 0.03)
  {
    assert TRIM_ASPECT_RATIO < BLEED_ASPECT_RATIO < TRIM_ASPECT_RATIO + TOLERANCE;
  }

  // Millimetres from the cut edge of the card, on an image with bleed and on a trimmed one.

  function MillimetresWithBleed(fraction: real, trim: real): real {
    fraction * (trim + 2.0 * BLEED_MARGIN_MM) - BLEED_MARGIN_MM
  }

  function MillimetresTrimmed(fraction: real, trim: real): real { fraction * trim }

  function Margin(trim: real): real
    requires trim > 0.0
  {
    BLEED_MARGIN_MM / (trim + 2.0 * BLEED_MARGIN_MM)
  }

  lemma RescaledFraction(fraction: real, trim: real)
    requires trim > 0.0
    ensures Margin(trim) != 0.5
    ensures ((fraction - Margin(trim)) / (1.0 - 2.0 * Margin(trim))) * trim == MillimetresWithBleed(fraction, trim)
  {
    var full := trim + 2.0 * BLEED_MARGIN_MM;
    var m := Margin(trim);
    assert m * full == BLEED_MARGIN_MM;
    assert (1.0 - 2.0 * m) * full == trim;
    var q := (fraction - m) / (1.0 - 2.0 * m);
    assert q * (1.0 - 2.0 * m) == fraction - m;
    calc {
      q * trim;
      q * ((1.0 - 2.0 * m) * full);
      (q * (1.0 - 2.0 * m)) * full;
      (fraction - m) * full;
      fraction * full - m * full;
    }
  }

  /** Rescaling an edge finds the same physical position on the trimmed image, moved to the cut edge
      when it lay in the bleed; and it never swaps two edges. */
  lemma RescaleKeepsPosition(fraction: real, other: real, trim: real)
    requires trim > 0.0
    ensures Margin(trim) != 0.5
    ensures MillimetresTrimmed(Rescale(fraction, Margin(trim)), trim)
            == Min(trim, Max(0.0, MillimetresWithBleed(fraction, trim)))
    ensures fraction <= other ==> 0.0 <= Rescale(fraction, Margin(trim)) <= Rescale(other, Margin(trim)) <= 1.0
  {
    RescaledFraction(fraction, trim);
    RescaledFraction(other, trim);
    var m := Margin(trim);
    var q := (fraction - m) / (1.0 - 2.0 * m);
    ScaledClamp(q, trim);
    if fraction <= other {
      var r := (other - m) / (1.0 - 2.0 * m);
      var full := trim + 2.0 * BLEED_MARGIN_MM;
      assert q * trim <= r * trim by {
        assert fraction * full <= other * full;
      }
      assert q <= r;
    }
  }

  /** The card measures 63 by 88 millimetres, with a bleed of 3.175 on each side. `full` is the point on an
      image with bleed, `cut` the same point on a trimmed one, or the cut edge next to it. */
  predicate SamePoint(full: real, cut: real, trim: real) {
    var millimetres := full * (trim + 6.35) - 3.175;
    cut * trim == if millimetres < 0.0 then 0.0 else if millimetres > trim then trim else millimetres
  }

  /** Only a trimmed image has its box moved: left and right along the card's width, top and bottom along
      its height. */
  lemma NormalizedEdges(box: Box, bleedClass: Option<BleedClass>)
    ensures bleedClass != Some(Trimmed) ==> NormalizeCropBox(box, bleedClass) == box
    ensures bleedClass == Some(Trimmed) ==>
              var b := NormalizeCropBox(box, bleedClass);
              && SamePoint(box.left, b.left, 63.0) && SamePoint(box.right, b.right, 63.0)
              && SamePoint(box.top, b.top, 88.0) && SamePoint(box.bottom, b.bottom, 88.0)
  {
    if bleedClass == Some(Trimmed) {
      RescaledPoint(box.left, 63.0);
      RescaledPoint(box.right, 63.0);
      RescaledPoint(box.top, 88.0);
      RescaledPoint(box.bottom, 88.0);
    }
  }

  lemma RescaledPoint(fraction: real, trim: real)
    requires trim > 0.0
    ensures Margin(trim) != 0.5 && SamePoint(fraction, Rescale(fraction, Margin(trim)), trim)
  {
    RescaleKeepsPosition(fraction, fraction, trim);
  }

  lemma ScaledClamp(q: real, trim: real)
    requires trim > 0.0
    ensures Min(1.0, Max(0.0, q)) * trim == Min(trim, Max(0.0, q * trim))
  {
    if q < 0.0 {
      assert q * trim < 0.0;
    } else if q > 1.0 {
      assert (q - 1.0) * trim > 0.0;
    }
  }

  /** Along one axis: inside the image, less than a pixel before the exact edges, and empty only on
      images under two pixels. */
  predicate AxisFits(first: int, last: int, low: real, high: real, size: nat) {
    && 0 <= first <= last <= size
    && first as real <= low < first as real + 1.0
    && last as real <= high < last as real + 1.0
    && (first < last <==> size >= 2)
  }

  predicate BoxFits(b: PixelBox, exact: Box, width: nat, height: nat) {
    && AxisFits(b.left, b.right, Position(exact.left, width), Position(exact.right, width), width)
    && AxisFits(b.top, b.bottom, Position(exact.top, height), Position(exact.bottom, height), height)
  }

  /** The art box fits along both axes, for every image size and class. */
  lemma ArtBoxFits(width: nat, height: nat)
    ensures BoxFits(ArtBox(width, height), NormalizeCropBox(Box(0.07, 0.10, 0.93, 0.58), ClassifyBleedEdge(width, height)), width, height)
  {
    ArtBoxFractions(ClassifyBleedEdge(width, height));
    PixelsFit(NormalizeCropBox(ART_CROP_BOX, ClassifyBleedEdge(width, height)), width, height);
  }

  lemma PixelsFit(exact: Box, width: nat, height: nat)
    requires ArtLike(exact.left, exact.right) && ArtLike(exact.top, exact.bottom)
    ensures BoxFits(Pixels(exact, width, height), exact, width, height)
  {
    EdgesFit(exact.left, exact.right, width);
    EdgesFit(exact.top, exact.bottom, height);
  }

  predicate ArtLike(low: real, high: real) { 0.0 < low < 0.11 && 0.57 < high < 1.0 && high - low >= 0.47 }

  lemma ArtBoxFractions(bleedClass: Option<BleedClass>)
    ensures var exact := NormalizeCropBox(ART_CROP_BOX, bleedClass);
            ArtLike(exact.left, exact.right) && ArtLike(exact.top, exact.bottom)
  {
    assert 0.045 < WIDTH_MARGIN_FRACTION < 0.046;
    assert 0.033 < HEIGHT_MARGIN_FRACTION < 0.034;
  }

  lemma EdgesFit(low: real, high: real, size: nat)
    requires ArtLike(low, high)
    ensures AxisFits(Edge(low, size), Edge(high, size), Position(low, size), Position(high, size), size)
  {
    EdgesNear(low, high, size);
    FloorsFit(Position(low, size), Position(high, size), size);
  }

  lemma {:induction false} EdgesNear(low: real, high: real, size: nat)
    requires ArtLike(low, high)
    ensures Near(Position(low, size), Position(high, size), size)
  {
    if size > 0 {
      EdgesNear(low, high, size - 1);
      PositionStep(low, size);
      PositionStep(high, size);
    }
  }

  predicate Near(x: real, y: real, size: nat) {
    && 0.0 <= x <= 0.11 * size as real && 0.57 * size as real <= y <= size as real
    && (size > 0 ==> y < size as real) && y - x >= 0.47 * size as real
  }

  lemma FloorsFit(x: real, y: real, size: nat)
    requires Near(x, y, size)
    ensures AxisFits(Truncate(x), Truncate(y), x, y, size)
  {
    if size >= 3 {
      assert y - x >= 1.0;
    }
  }
}
