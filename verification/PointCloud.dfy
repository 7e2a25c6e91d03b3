/** The depth-to-colour mapping of the Tango point-cloud renderer.

    A palette of 360 hues is built once. For every point of a frame the depth
    `z` picks a colour: depths in the band (MIN_DEPTH, MAX_DEPTH] are spread
    over the whole palette, every other depth is opaque black. The colour is
    written as four floats in [0, 1] into a vertex-colour array that holds
    room for `maxPoints` points; slots past the frame's points keep their
    previous contents. */
module PointCloud {
  import opened JavaNumerics
  import opened AndroidColor

  /** Depth, in metres, that maps to the last palette entry by default. */
  const CLOUD_MAX_Z: real := 1.0
  const PALETTE_SIZE: nat := 360
  const HUE_BEGIN: real := 0.0
  const HUE_END: real := 320.0

  /** The float literal 0.31f, widened exactly to double: 10401874 * 2^-25. */
  const MIN_DEPTH: real := 10401874.0 / 33554432.0
  /** The float literal 0.50f, which is exact. */
  const MAX_DEPTH: real := 0.5
  /** The float literal 0.21f: 14092861 * 2^-26. */
  const NEAR_LIMIT: real := 14092861.0 / 67108864.0
  /** Palette entries per metre of depth inside the band. */
  const BAND_SCALE: real := 1894.0
  /** Floats per point in the incoming buffer: x, y, z, confidence. */
  const FLOATS_PER_POINT: nat := 4

  type Palette = p: seq<Argb> | |p| == PALETTE_SIZE witness seq(PALETTE_SIZE, _ => OPAQUE_BLACK)

  // ---------------------------------------------------------------- palette

  /** Hue, in degrees, given to palette entry `i`. */
  function Hue(i: int): (h: real)
    ensures 0 <= i < PALETTE_SIZE ==> HUE_BEGIN <= h < HUE_END
  {
    (HUE_END - HUE_BEGIN) * i as real / PALETTE_SIZE as real + HUE_BEGIN
  }

  /** Later palette entries have strictly larger hues: red first, violet last. */
  lemma HueStrictlyIncreasing(i: int, j: int)
    requires 0 <= i < j < PALETTE_SIZE
    ensures Hue(i) < Hue(j)
  {
  }

  predicate OpaquePalette(palette: Palette)
  {
    forall i :: 0 <= i < |palette| ==> Alpha(palette[i]) == 0xFF
  }

  /** Builds the palette; `hsvToColor(h, s, v)` stands for Android's
      `Color.HSVToColor`, called with saturation and value 1. */
  method CreatePalette(hsvToColor: (real, real, real) -> Argb) returns (palette: Palette)
    ensures forall i :: 0 <= i < PALETTE_SIZE ==> palette[i] == hsvToColor(Hue(i), 1.0, 1.0)
    ensures (forall h, s, v :: Alpha(hsvToColor(h, s, v)) == 0xFF) ==> OpaquePalette(palette)
  {
    var entries: seq<Argb> := [];
    var i := 0;
    while i < PALETTE_SIZE
      invariant 0 <= i <= PALETTE_SIZE
      invariant |entries| == i
      invariant forall k :: 0 <= k < i ==> entries[k] == hsvToColor(Hue(k), 1.0, 1.0)
    {
      entries := entries + [hsvToColor(Hue(i), 1.0, 1.0)];
      i := i + 1;
    }
    palette := entries;
  }

  // ------------------------------------------------------ per-point colour

  /** The index computed before the band test: `z / CLOUD_MAX_Z` scaled to
      the palette, capped at the last entry by `Math.min` and floored at the
      first by `Math.max`. */
  function DefaultIndex(z: JFloat): (idx: nat)
    ensures idx < PALETTE_SIZE
  {
    var scaled := Times(Over(z, CLOUD_MAX_Z), PALETTE_SIZE as real);
    MaxInt(DoubleToInt(MinDouble(scaled, (PALETTE_SIZE - 1) as real)), 0)
  }

  /** The default index is `floor(360 * z)` clamped to [0, 359]; an infinite
      depth clamps the same way and NaN gives 0. */
  lemma DefaultIndexIsClampedFloor(z: JFloat)
    ensures z.Finite? ==>
      var s := z.value * PALETTE_SIZE as real;
      DefaultIndex(z) == if s < 1.0 then 0 else if s >= 359.0 then 359 else s.Floor
    ensures z.PosInf? ==> DefaultIndex(z) == PALETTE_SIZE - 1
    ensures z.NegInf? || z.NaN? ==> DefaultIndex(z) == 0
  {
  }

  /** The in-band index: `(int) ((z - MIN_DEPTH) * 1894)`. */
  function BandIndex(v: real): (n: int)
    ensures MIN_DEPTH < v <= MAX_DEPTH ==> 0 <= n < PALETTE_SIZE
    ensures MIN_DEPTH < v <= MAX_DEPTH ==> n as real <= (v - MIN_DEPTH) * BAND_SCALE < n as real + 1.0
  {
    DoubleToInt(Finite((v - MIN_DEPTH) * BAND_SCALE))
  }

  /** The colour chosen for one point, as the code computes it: the default
      entry, replaced inside the band by the entry at `BandIndex` unless that
      lookup fails, replaced outside the band by opaque black whether the
      point is near (`z <= 0.21f`) or not. */
  function PointColor(palette: Palette, z: JFloat): (c: Argb)
    ensures c == ReferenceColor(palette, z)
  {
    var color := palette[DefaultIndex(z)];
    if Greater(z, MIN_DEPTH) && AtMost(z, MAX_DEPTH) then
      var depth := BandIndex(z.value);
      BandIndexIsCell(z.value);
      if 0 <= depth < |palette| then palette[depth] else color
    else if AtMost(z, NEAR_LIMIT) then OPAQUE_BLACK
    else OPAQUE_BLACK
  }

  /** The band (MIN_DEPTH, MAX_DEPTH]; NaN and the infinities lie outside. */
  predicate InBand(z: JFloat)
  {
    z.Finite? && MIN_DEPTH < z.value <= MAX_DEPTH
  }

  /** The palette cell of an in-band depth: the band is cut into cells of
      width 1/1894 metre starting at MIN_DEPTH, and every cell of the band is
      a palette entry. */
  function CellOf(v: real): (k: nat)
    requires MIN_DEPTH < v <= MAX_DEPTH
    ensures k < PALETTE_SIZE
    ensures MIN_DEPTH + k as real / BAND_SCALE <= v < MIN_DEPTH + (k + 1) as real / BAND_SCALE
  {
    ((v - MIN_DEPTH) * BAND_SCALE).Floor
  }

  /** The mapping as designed: a band depth shows its cell's palette entry,
      any other depth (NaN and infinities included) is opaque black. */
  function ReferenceColor(palette: Palette, z: JFloat): (c: Argb)
  {
    if InBand(z) then palette[CellOf(z.value)] else OPAQUE_BLACK
  }

  /** Inside the band the cast index is the cell, so the palette lookup never
      fails and the catch branch that would keep the default is dead. */
  lemma BandIndexIsCell(v: real)
    requires MIN_DEPTH < v <= MAX_DEPTH
    ensures 0 <= BandIndex(v) < PALETTE_SIZE
    ensures BandIndex(v) == CellOf(v)
  {
  }

  /** Every depth outside the band, near or far, finite or not, unpacks to
      the floats (0, 0, 0, 1). */
  lemma OutOfBandIsBlack(palette: Palette, z: JFloat)
    requires !InBand(z)
    ensures PointColor(palette, z) == OPAQUE_BLACK
    ensures ToRgba(PointColor(palette, z)) == Rgba(0.0, 0.0, 0.0, 1.0)
  {
    OpaqueBlackChannels();
  }

  /** A deeper point in the band never gets an earlier palette entry. */
  lemma BandIndexMonotone(v1: real, v2: real)
    requires MIN_DEPTH < v1 <= v2 <= MAX_DEPTH
    ensures BandIndex(v1) <= BandIndex(v2)
  {
  }

  /** So the hue shown never decreases as a point moves away in the band. */
  lemma BandHueMonotone(v1: real, v2: real)
    requires MIN_DEPTH < v1 <= v2 <= MAX_DEPTH
    ensures 0 <= BandIndex(v1) <= BandIndex(v2) < PALETTE_SIZE
    ensures Hue(BandIndex(v1)) <= Hue(BandIndex(v2))
  {
    BandIndexMonotone(v1, v2);
    if BandIndex(v1) < BandIndex(v2) {
      HueStrictlyIncreasing(BandIndex(v1), BandIndex(v2));
    }
  }

  /** A depth in the middle of cell `k`. */
  function CellCentre(k: nat): (v: real)
    requires k < PALETTE_SIZE
    ensures MIN_DEPTH < v <= MAX_DEPTH
    ensures BandIndex(v) == k
  {
    var v := MIN_DEPTH + (k as real + 0.5) / BAND_SCALE;
    BandIndexIsCell(v);
    v
  }

  /** The band uses the whole palette: every entry is the colour of some
      in-band depth. */
  lemma EveryEntryShown(palette: Palette, k: nat)
    requires k < PALETTE_SIZE
    ensures InBand(Finite(CellCentre(k)))
    ensures PointColor(palette, Finite(CellCentre(k))) == palette[k]
  {
    BandIndexIsCell(CellCentre(k));
  }

  /** With an opaque palette every point is opaque. */
  lemma PointColorOpaque(palette: Palette, z: JFloat)
    requires OpaquePalette(palette)
    ensures Alpha(PointColor(palette, z)) == 0xFF
  {
  }

  // ------------------------------------------------------- the colour array

  datatype JavaException = NegativeArraySize | BufferUnderflow | ArrayIndexOutOfBounds(index: int)

  /** The end of `calculateColors`: it returns normally, or it throws with
      the colour array as the throw left it. */
  datatype Outcome = Completed(colors: seq<real>) | Threw(exception: JavaException, colors: seq<real>)

  /** The renderer's point cloud: its capacity argument, its palette and its
      colour array. */
  datatype PointCloud = PointCloud(maxPoints: Int32, palette: Palette, colors: seq<real>)
  {
    /** The colour array has the length `maxPoints * 4` computes in Java ints. */
    predicate Valid() { |colors| == Wrap32(maxPoints * 4) }

    /** Points the colour array has room for. */
    function Capacity(): (n: nat)
      requires Valid()
      ensures 4 * n == |colors|
      ensures 0 <= maxPoints < 0x2000_0000 ==> n == maxPoints
    {
      |colors| / 4
    }
  }

  /** `new PointCloud(maxPoints, 4)` returns a cloud or throws. */
  datatype Construction = Constructed(cloud: PointCloud) | ConstructorThrew(exception: JavaException)

  /** The length of a float array allocated for `count` points: `count * 4`
      in Java ints, which wraps for counts of 2^29 and more. */
  function ArrayLength(count: Int32): (len: Int32)
    ensures len % 4 == 0
    ensures 0 <= count < 0x2000_0000 ==> len == 4 * count
  {
    Wrap32(count * 4)
  }

  /** The four floats stored for point `i`. */
  function PointChannels(colors: seq<real>, i: nat): (q: Rgba)
    requires 4 * i + 3 < |colors|
  {
    Rgba(colors[4 * i], colors[4 * i + 1], colors[4 * i + 2], colors[4 * i + 3])
  }

  /** `after` is `before` with the first `n` points coloured from the depths
      of `buffer` (the third float of each point) and nothing else changed. */
  predicate ColoredFrom(palette: Palette, before: seq<real>, after: seq<real>, buffer: seq<JFloat>, n: nat)
  {
    && |after| == |before|
    && 4 * n <= |after|
    && 4 * n <= |buffer|
    && (forall i :: 0 <= i < n ==> PointChannels(after, i) == ToRgba(PointColor(palette, buffer[4 * i + 2])))
    && (forall j :: 4 * n <= j < |after| ==> after[j] == before[j])
  }

  /** `new PointCloud(maxPoints, 4)`: the palette is built and the colour
      array is `maxPoints * 4` zeros; a negative length throws. */
  method NewPointCloud(maxPoints: Int32, hsvToColor: (real, real, real) -> Argb) returns (out: Construction)
    ensures ArrayLength(maxPoints) < 0 <==> out == ConstructorThrew(NegativeArraySize)
    ensures 0 <= ArrayLength(maxPoints) <==> out.Constructed?
    ensures out.Constructed? ==> out.cloud.Valid() && out.cloud.maxPoints == maxPoints
    ensures out.Constructed? ==> forall j :: 0 <= j < |out.cloud.colors| ==> out.cloud.colors[j] == 0.0
    ensures out.Constructed? ==>
              forall i :: 0 <= i < PALETTE_SIZE ==> out.cloud.palette[i] == hsvToColor(Hue(i), 1.0, 1.0)
    ensures 0 <= maxPoints < 0x2000_0000 ==> out.Constructed? && out.cloud.Capacity() == maxPoints
  {
    var palette := CreatePalette(hsvToColor);
    var len := ArrayLength(maxPoints);
    if len < 0 {
      return ConstructorThrew(NegativeArraySize);
    }
    return Constructed(PointCloud(maxPoints, palette, seq(len, _ => 0.0)));
  }

  /** `calculateColors(pointCount, buffer, avgDepth)`, with `buffer` the
      float buffer's contents from position 0 to its limit. The local copy
      has `ArrayLength(pointCount)` floats; the loop reads point `i`'s depth
      from it and writes the point's colour into the cloud's array, and
      throws at the first index either array lacks. The depth hint
      `avgDepth` is accepted and never read. */
  method CalculateColors(cloud: PointCloud, pointCount: Int32, buffer: seq<JFloat>, avgDepth: real)
    returns (out: Outcome)
    requires cloud.Valid()
    ensures ArrayLength(pointCount) < 0 <==> out == Threw(NegativeArraySize, cloud.colors)
    ensures 0 <= ArrayLength(pointCount) && |buffer| < ArrayLength(pointCount)
            <==> out == Threw(BufferUnderflow, cloud.colors)
    ensures var len := ArrayLength(pointCount);
            0 <= len <= |buffer| && pointCount <= len / 4 && pointCount <= cloud.Capacity()
            <==> out.Completed?
    ensures var len := ArrayLength(pointCount);
            0 <= len <= |buffer| && len / 4 < pointCount && len / 4 <= cloud.Capacity()
            <==> out == Threw(ArrayIndexOutOfBounds(len + 2), out.colors)
    ensures var len := ArrayLength(pointCount);
            0 <= len <= |buffer| && cloud.Capacity() < pointCount && cloud.Capacity() < len / 4
            <==> out == Threw(ArrayIndexOutOfBounds(|cloud.colors|), out.colors)
    ensures out.Completed? ==>
              ColoredFrom(cloud.palette, cloud.colors, out.colors, buffer, if pointCount < 0 then 0 else pointCount)
    ensures out == Threw(ArrayIndexOutOfBounds(ArrayLength(pointCount) + 2), out.colors) ==>
              ColoredFrom(cloud.palette, cloud.colors, out.colors, buffer, ArrayLength(pointCount) / 4)
    ensures out == Threw(ArrayIndexOutOfBounds(|cloud.colors|), out.colors) ==>
              ColoredFrom(cloud.palette, cloud.colors, out.colors, buffer, cloud.Capacity())
  {
    var len := ArrayLength(pointCount);
    if len < 0 {
      return Threw(NegativeArraySize, cloud.colors);
    }
    if |buffer| < len {
      return Threw(BufferUnderflow, cloud.colors);
    }
    out := ColorPoints(cloud.palette, cloud.colors, buffer[..len], pointCount, len / 4, cloud.Capacity());
    if out.Completed? || out.exception.ArrayIndexOutOfBounds? {
      SameDepthsSameColors(cloud.palette, cloud.colors, out.colors, buffer[..len], buffer, ColoredCount(out, pointCount, len / 4, cloud.Capacity()));
    }
  }

  /** How many points `ColorPoints` has coloured when it returns `out`. */
  function ColoredCount(out: Outcome, count: int, readable: nat, capacity: nat): (n: nat)
  {
    if out.Completed? then (if count < 0 then 0 else count)
    else if out.exception == ArrayIndexOutOfBounds(4 * readable + 2) then readable
    else capacity
  }

  /** The loop of `calculateColors`: `points` is the local copy of
      `4 * readable` floats and `before` the colour array of `4 * capacity`
      floats. Point `i` is read at index `4i + 2` and written at `4i` to
      `4i + 3`; the first index out of either array throws. */
  method ColorPoints(palette: Palette, before: seq<real>, points: seq<JFloat>, count: int, readable: nat, capacity: nat)
    returns (out: Outcome)
    requires |points| == 4 * readable && |before| == 4 * capacity
    ensures count <= readable && count <= capacity <==> out.Completed?
    ensures readable < count && readable <= capacity <==> out == Threw(ArrayIndexOutOfBounds(4 * readable + 2), out.colors)
    ensures capacity < count && capacity < readable <==> out == Threw(ArrayIndexOutOfBounds(4 * capacity), out.colors)
    ensures out.Completed? || out.exception.ArrayIndexOutOfBounds?
    ensures out.Completed? || out.exception.ArrayIndexOutOfBounds? ==>
              ColoredFrom(palette, before, out.colors, points, ColoredCount(out, count, readable, capacity))
  {
    var colors := before;
    var i := 0;
    while i < count
      invariant 0 <= i && (0 <= count ==> i <= count) && (count < 0 ==> i == 0)
      invariant i <= readable && i <= capacity
      invariant ColoredFrom(palette, before, colors, points, i)
    {
      if i * FLOATS_PER_POINT + 2 >= |points| {
        return Threw(ArrayIndexOutOfBounds(i * FLOATS_PER_POINT + 2), colors);
      }
      var z := points[i * FLOATS_PER_POINT + 2];
      var q := ToRgba(PointColor(palette, z));
      if i * 4 >= |colors| {
        return Threw(ArrayIndexOutOfBounds(i * 4), colors);
      }
      ColorNextPoint(palette, before, colors, points, i);
      colors := colors[i * 4 := q.red][i * 4 + 1 := q.green][i * 4 + 2 := q.blue][i * 4 + 3 := q.alpha];
      i := i + 1;
    }
    return Completed(colors);
  }

  /** Writing point `n`'s colour into its four slots colours one more point. */
  lemma ColorNextPoint(palette: Palette, before: seq<real>, colors: seq<real>, buffer: seq<JFloat>, n: nat)
    requires ColoredFrom(palette, before, colors, buffer, n)
    requires 4 * n + 3 < |colors| && 4 * n + 3 < |buffer|
    ensures var q := ToRgba(PointColor(palette, buffer[4 * n + 2]));
            ColoredFrom(palette, before, colors[4 * n := q.red][4 * n + 1 := q.green][4 * n + 2 := q.blue][4 * n + 3 := q.alpha], buffer, n + 1)
  {
    var q := ToRgba(PointColor(palette, buffer[4 * n + 2]));
    var after := colors[4 * n := q.red][4 * n + 1 := q.green][4 * n + 2 := q.blue][4 * n + 3 := q.alpha];
    forall k | 0 <= k < n
      ensures PointChannels(after, k) == PointChannels(colors, k)
    {
    }
    assert PointChannels(after, n) == q;
  }

  /** Colouring from a buffer depends only on its first `4 * n` floats. */
  lemma SameDepthsSameColors(palette: Palette, before: seq<real>, after: seq<real>, prefix: seq<JFloat>, buffer: seq<JFloat>, n: nat)
    requires ColoredFrom(palette, before, after, prefix, n)
    requires |prefix| <= |buffer| && prefix == buffer[..|prefix|]
    ensures ColoredFrom(palette, before, after, buffer, n)
  {
    forall i | 0 <= i < n
      ensures buffer[4 * i + 2] == prefix[4 * i + 2]
    {
    }
  }

  /** The colours written depend on the depths alone: two buffers that agree
      on every point's `z` give the same array, whatever their x, y and
      confidence values. */
  lemma {:induction false} ColorsDependOnlyOnDepth(
    palette: Palette, before: seq<real>, after1: seq<real>, after2: seq<real>,
    buffer1: seq<JFloat>, buffer2: seq<JFloat>, n: nat)
    requires ColoredFrom(palette, before, after1, buffer1, n)
    requires ColoredFrom(palette, before, after2, buffer2, n)
    requires forall i :: 0 <= i < n ==> buffer1[4 * i + 2] == buffer2[4 * i + 2]
    ensures after1 == after2
  {
    forall j | 0 <= j < |after1|
      ensures after1[j] == after2[j]
    {
      if j < 4 * n {
        var i := j / 4;
        assert PointChannels(after1, i) == PointChannels(after2, i);
      }
    }
  }

  /** Every float written lies in [0, 1], and with an opaque palette every
      written alpha is 1. */
  lemma {:induction false} ColoredChannelsInUnitRange(
    palette: Palette, before: seq<real>, after: seq<real>, buffer: seq<JFloat>, n: nat)
    requires ColoredFrom(palette, before, after, buffer, n)
    ensures forall j :: 0 <= j < 4 * n ==> InUnitRange(after[j])
    ensures OpaquePalette(palette) ==> forall i :: 0 <= i < n ==> after[4 * i + 3] == 1.0
  {
    forall j | 0 <= j < 4 * n
      ensures InUnitRange(after[j])
    {
      var i := j / 4;
      assert PointChannels(after, i) == ToRgba(PointColor(palette, buffer[4 * i + 2]));
    }
    if OpaquePalette(palette) {
      forall i | 0 <= i < n
        ensures after[4 * i + 3] == 1.0
      {
        PointColorOpaque(palette, buffer[4 * i + 2]);
        assert PointChannels(after, i) == ToRgba(PointColor(palette, buffer[4 * i + 2]));
      }
    }
  }
}
