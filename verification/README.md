# Depth colouring of the Tango point-cloud renderer

This project models, in Dafny, how `PointCloud` colours a depth-sensor point
cloud. A palette of 360 hues (0 to 320 degrees, red to violet) is built once
by `createPalette`. `calculateColors` then reads each point's depth `z` from an
XYZC float buffer. It picks a colour: depths in the band
(`MIN_DEPTH`, `MAX_DEPTH`] = (0.31f, 0.50f] are spread over the whole palette
at 1894 entries per metre; every other depth is opaque black. The colour's
four channels are written, divided by 255, into the cloud's colour array.

Modules:

- `JavaNumerics`: Java ints and floats. An int is an integer in
  [-2^31, 2^31 - 1], and products wrap around to that range. A float is a
  finite real, an infinity or NaN. The module also covers the comparisons,
  `Math.min`, `Math.max` and the `(int)` cast, with NaN giving 0, saturation
  and rounding toward zero.
- `AndroidColor`: a packed ARGB int as a `bv32`. It has the channel
  accessors `Color.red/green/blue/alpha`, their inverse `Color.argb`, and the
  normalisation to four floats in [0, 1].
- `PointCloud`: the constants, `createPalette`, the per-point colour choice,
  the constructor's state and `calculateColors`. `PointColor` is the
  colour choice as written: the default index, the band test, the cast index
  under `try`/`catch`, and the near and far branches. `ReferenceColor` is the
  mapping as designed, and `PointColor`'s contract is that the two agree for
  every depth, NaN and infinities included. Array lengths are `count * 4`
  computed in Java ints, so they wrap for counts of 2^29 and more.
  `NewPointCloud` returns `Constructed(cloud)` or `ConstructorThrew(exception)`.
  `CalculateColors` returns either `Completed(colors)` or
  `Threw(exception, colors)`. These model a normal return and each Java
  exception the method can throw, together with the colour array as the
  exception left it.

The depth constants are the exact values of the float literals in the source:
0.31f is 10401874 * 2^-25 and 0.21f is 14092861 * 2^-26.

How the code chooses a point's colour:
- The palette has 360 hue entries, one per index, built by the loop in
  `createPalette`.
- The band scale is the literal 1894. Nothing clamps the in-band index:
  an out-of-range index would be caught by the `catch` and would keep the
  default colour. `BandIndexIsCell` proves this cannot happen.
- Near points (`z <= 0.21f`) and far points both get opaque black.

## Model

| member | source | states |
|---|---|---|
| JavaNumerics.DoubleToInt | java_point_cloud_example/app/src/main/java/com/projecttango/examples/java/pointcloud/rajawali/PointCloud.java:99 | Java's `(int)` cast always gives a 32-bit value. NaN gives 0. +Inf and values at or above INT_MAX give INT_MAX; -Inf and values at or below INT_MIN give INT_MIN. A finite value in range is rounded toward zero. |
| JavaNumerics.TruncateToInt | java_point_cloud_example/app/src/main/java/com/projecttango/examples/java/pointcloud/rajawali/PointCloud.java:99 | Rounding toward zero: for x >= 0 the result n is non-negative with n <= x < n + 1. For x < 0, n is non-positive with n - 1 < x <= n. |
| JavaNumerics.Greater | java_point_cloud_example/app/src/main/java/com/projecttango/examples/java/pointcloud/rajawali/PointCloud.java:98 | `z > c` is false for NaN and false whenever `z <= c` holds. For every non-NaN z exactly one of the two holds, so a finite z above c and +Inf give true. |
| JavaNumerics.AtMost | java_point_cloud_example/app/src/main/java/com/projecttango/examples/java/pointcloud/rajawali/PointCloud.java:105 | `z <= c` holds exactly for -Inf and for a finite z not above c. NaN and +Inf give false. |
| JavaNumerics.Times | java_point_cloud_example/app/src/main/java/com/projecttango/examples/java/pointcloud/rajawali/PointCloud.java:93 | Multiplying by a positive constant keeps z finite, NaN or +Inf exactly when it was, and dividing a finite product back by the constant returns z. |
| JavaNumerics.Over | java_point_cloud_example/app/src/main/java/com/projecttango/examples/java/pointcloud/rajawali/PointCloud.java:93 | Dividing by a positive constant keeps z finite, NaN or +Inf exactly when it was, and multiplying a finite quotient back by the constant returns z. |
| JavaNumerics.MinDouble | java_point_cloud_example/app/src/main/java/com/projecttango/examples/java/pointcloud/rajawali/PointCloud.java:93 | `Math.min` with a finite cap returns the smaller argument: a finite input gives a finite result at most both the input and the cap, equal to one of them. +Inf gives the cap, -Inf stays -Inf, and NaN gives NaN exactly. |
| JavaNumerics.MaxInt | java_point_cloud_example/app/src/main/java/com/projecttango/examples/java/pointcloud/rajawali/PointCloud.java:94 | `Math.max` returns one of its arguments and is at least both. |
| AndroidColor.ToRgba | java_point_cloud_example/app/src/main/java/com/projecttango/examples/java/pointcloud/rajawali/PointCloud.java:112-115 | The four floats are red, green, blue and alpha, in that order, each the channel byte divided by 255 (the float times 255 is the byte). Each lies in [0, 1], and alpha is 1 exactly when the alpha byte is 0xFF. |
| AndroidColor.Normalize | java_point_cloud_example/app/src/main/java/com/projecttango/examples/java/pointcloud/rajawali/PointCloud.java:112 | A channel byte divided by 255: the result times 255 is the byte's value. It lies in [0, 1], is 0 exactly for byte 0 and 1 exactly for byte 255. |
| AndroidColor.PackOfChannels | java_point_cloud_example/app/src/main/java/com/projecttango/examples/java/pointcloud/rajawali/PointCloud.java:112-115 | Repacking the four channel bytes gives back the colour, so the channel reads lose nothing. |
| AndroidColor.Pack | java_point_cloud_example/app/src/main/java/com/projecttango/examples/java/pointcloud/rajawali/PointCloud.java:107 | Packing four bytes and reading the channels back returns those bytes. `OpaqueBlackIsPacked` ties the literal 0xFF000000 to this packing. |
| AndroidColor.ToRgbaInjective | java_point_cloud_example/app/src/main/java/com/projecttango/examples/java/pointcloud/rajawali/PointCloud.java:112-115 | Two colours that unpack to the same four floats are the same colour. |
| AndroidColor.OpaqueBlackChannels | java_point_cloud_example/app/src/main/java/com/projecttango/examples/java/pointcloud/rajawali/PointCloud.java:107-115 | Opaque black 0xFF000000 unpacks to (0, 0, 0, 1). |
| AndroidColor.OpaqueBlackIsPacked | java_point_cloud_example/app/src/main/java/com/projecttango/examples/java/pointcloud/rajawali/PointCloud.java:107 | The literal 0xFF000000 is alpha 255 packed with red, green and blue 0. |
| AndroidColor.Alpha | java_point_cloud_example/app/src/main/java/com/projecttango/examples/java/pointcloud/rajawali/PointCloud.java:115 | `Color.alpha` (`c >>> 24`) returns the byte held in bits 24-31 of the colour. |
| AndroidColor.Red | java_point_cloud_example/app/src/main/java/com/projecttango/examples/java/pointcloud/rajawali/PointCloud.java:112 | `Color.red` (`(c >> 16) & 0xFF`) returns the byte held in bits 16-23 of the colour. |
| AndroidColor.Green | java_point_cloud_example/app/src/main/java/com/projecttango/examples/java/pointcloud/rajawali/PointCloud.java:113 | `Color.green` (`(c >> 8) & 0xFF`) returns the byte held in bits 8-15 of the colour. |
| AndroidColor.Blue | java_point_cloud_example/app/src/main/java/com/projecttango/examples/java/pointcloud/rajawali/PointCloud.java:114 | `Color.blue` (`c & 0xFF`) returns the byte held in bits 0-7 of the colour. |
| PointCloud.Hue | java_point_cloud_example/app/src/main/java/com/projecttango/examples/java/pointcloud/rajawali/PointCloud.java:72 | Every palette index in [0, 360) gets a hue in [HUE_BEGIN, HUE_END) = [0, 320). |
| PointCloud.HueStrictlyIncreasing | java_point_cloud_example/app/src/main/java/com/projecttango/examples/java/pointcloud/rajawali/PointCloud.java:71-72 | A later palette entry has a strictly larger hue. |
| PointCloud.CreatePalette | java_point_cloud_example/app/src/main/java/com/projecttango/examples/java/pointcloud/rajawali/PointCloud.java:67-76 | The palette has exactly 360 entries. Entry `i` is HSVToColor(Hue(i), 1, 1). If HSVToColor always gives alpha 0xFF, every entry is opaque. |
| PointCloud.NewPointCloud | java_point_cloud_example/app/src/main/java/com/projecttango/examples/java/pointcloud/rajawali/PointCloud.java:43-51 | The palette is entry `i` = HSVToColor(Hue(i), 1, 1). The colour array has `maxPoints * 4` floats computed in Java ints, all 0. The constructor throws NegativeArraySize exactly when that wrapped length is negative, and returns a cloud exactly when it is not (`maxPoints = 2^30` gives an empty colour array). For 0 <= maxPoints < 2^29 it always returns a cloud with room for exactly `maxPoints` points. |
| PointCloud.DefaultIndex | java_point_cloud_example/app/src/main/java/com/projecttango/examples/java/pointcloud/rajawali/PointCloud.java:93-95 | The default index is a valid palette index for every depth, NaN and infinities included. |
| PointCloud.DefaultIndexIsClampedFloor | java_point_cloud_example/app/src/main/java/com/projecttango/examples/java/pointcloud/rajawali/PointCloud.java:93-94 | The min, cast and max sequence equals floor(360 z) clamped to [0, 359]. +Inf gives 359; -Inf and NaN give 0. |
| PointCloud.BandIndex | java_point_cloud_example/app/src/main/java/com/projecttango/examples/java/pointcloud/rajawali/PointCloud.java:99 | For an in-band depth, `(int)((z - MIN_DEPTH) * 1894)` is a palette index in [0, 359]: the whole number n with n <= (z - MIN_DEPTH) * 1894 < n + 1. |
| PointCloud.PointColor | java_point_cloud_example/app/src/main/java/com/projecttango/examples/java/pointcloud/rajawali/PointCloud.java:92-110 | The colour the code picks for a point equals the designed mapping for every depth. For an in-band depth it is the palette entry of the depth's cell. For every other depth (near, between 0.21f and MIN_DEPTH, far, NaN or infinite) it is opaque black. The catch fallback and the line-95 default never survive. |
| PointCloud.CellOf | java_point_cloud_example/app/src/main/java/com/projecttango/examples/java/pointcloud/rajawali/PointCloud.java:98-99 | Every in-band depth lies in a cell of width 1/1894 m that starts at MIN_DEPTH. The cell number is in [0, 359]. |
| PointCloud.BandIndexIsCell | java_point_cloud_example/app/src/main/java/com/projecttango/examples/java/pointcloud/rajawali/PointCloud.java:98-104 | For MIN_DEPTH < z <= MAX_DEPTH, `(int)((z - MIN_DEPTH) * 1894)` is the cell number and lies in [0, 359]. So the palette lookup never throws and the `catch` is never taken. |
| PointCloud.OutOfBandIsBlack | java_point_cloud_example/app/src/main/java/com/projecttango/examples/java/pointcloud/rajawali/PointCloud.java:105-110 | Any depth outside (MIN_DEPTH, MAX_DEPTH] gets 0xFF000000 and unpacks to (0, 0, 0, 1). This covers the near branch, the far branch, NaN and the infinities. |
| PointCloud.BandIndexMonotone | java_point_cloud_example/app/src/main/java/com/projecttango/examples/java/pointcloud/rajawali/PointCloud.java:99 | Within the band, the palette index is non-decreasing in z. |
| PointCloud.BandHueMonotone | java_point_cloud_example/app/src/main/java/com/projecttango/examples/java/pointcloud/rajawali/PointCloud.java:99-101 | Within the band, the hue of the chosen entry is non-decreasing in z. |
| PointCloud.CellCentre | java_point_cloud_example/app/src/main/java/com/projecttango/examples/java/pointcloud/rajawali/PointCloud.java:98-99 | For each palette index `k` there is an in-band depth whose cast index is `k`. |
| PointCloud.EveryEntryShown | java_point_cloud_example/app/src/main/java/com/projecttango/examples/java/pointcloud/rajawali/PointCloud.java:98-101 | Every one of the 360 palette entries is the colour of some in-band depth, so the band uses the whole hue range. |
| PointCloud.PointColorOpaque | java_point_cloud_example/app/src/main/java/com/projecttango/examples/java/pointcloud/rajawali/PointCloud.java:95-110 | With an opaque palette, every point's colour has alpha 0xFF. |
| PointCloud.CalculateColors | java_point_cloud_example/app/src/main/java/com/projecttango/examples/java/pointcloud/rajawali/PointCloud.java:81-121 | With `len` = `pointCount * 4` in Java ints, there are five outcomes, each stated as if and only if. A negative `len` throws NegativeArraySize with the array untouched. A buffer shorter than `len` throws BufferUnderflow with the array untouched. If `pointCount` is at most both `len / 4` and the capacity, the call completes. Point `i`'s four floats are then the unpacked colour of `z = buffer[4i+2]`, and every other slot is unchanged; a negative `pointCount` writes nothing. If the local copy runs out first, or at the same point, it throws ArrayIndexOutOfBounds at `len + 2` with the first `len / 4` points coloured. If the colour array runs out first, it throws ArrayIndexOutOfBounds at `|colors|` with every point it has room for coloured. |
| JavaNumerics.Wrap32 | java_point_cloud_example/app/src/main/java/com/projecttango/examples/java/pointcloud/rajawali/PointCloud.java:82 | A Java int product is the exact value reduced modulo 2^32 into [-2^31, 2^31 - 1]. Values already in range are unchanged, and a multiple of 4 stays a multiple of 4. |
| PointCloud.ArrayLength | java_point_cloud_example/app/src/main/java/com/projecttango/examples/java/pointcloud/rajawali/PointCloud.java:82 | The float array for `count` points has `count * 4` in Java ints as its length: always a multiple of 4, and exactly 4 * count for 0 <= count < 2^29. |
| PointCloud.PointCloud.Capacity | java_point_cloud_example/app/src/main/java/com/projecttango/examples/java/pointcloud/rajawali/PointCloud.java:47 | The colour array of `maxPoints * 4` floats has room for a whole number of points, four floats each; for 0 <= maxPoints < 2^29 that number is `maxPoints`. |
| PointCloud.ColorPoints | java_point_cloud_example/app/src/main/java/com/projecttango/examples/java/pointcloud/rajawali/PointCloud.java:91-118 | The loop alone. It reads point `i` at `4i + 2` of the local copy and writes it at `4i` to `4i + 3`. It completes exactly when the count fits both arrays. It throws at `4 * readable + 2` exactly when the copy runs out no later than the colour array, and at `4 * capacity` exactly when the colour array runs out first. In each case the points before the throw are coloured and nothing else changes. |
| PointCloud.ColorNextPoint | java_point_cloud_example/app/src/main/java/com/projecttango/examples/java/pointcloud/rajawali/PointCloud.java:112-115 | One iteration's four writes colour point `i` from its depth, keep points before it as they were, and leave every later slot unchanged. |
| PointCloud.SameDepthsSameColors | java_point_cloud_example/app/src/main/java/com/projecttango/examples/java/pointcloud/rajawali/PointCloud.java:82-84 | Colouring from the local copy is colouring from the buffer: the copy is the buffer's first `len` floats, and the loop reads only those. |
| PointCloud.ColorsDependOnlyOnDepth | java_point_cloud_example/app/src/main/java/com/projecttango/examples/java/pointcloud/rajawali/PointCloud.java:81-92 | The colour array is determined by the points' z values alone. x, y, the confidence and `avgDepth` are never read. |
| PointCloud.ColoredChannelsInUnitRange | java_point_cloud_example/app/src/main/java/com/projecttango/examples/java/pointcloud/rajawali/PointCloud.java:112-115 | Every float written lies in [0, 1]. With an opaque palette, every alpha written is 1. |

## Left out

- Float and double rounding is not modelled. Finite floats are exact reals,
  so `z / CLOUD_MAX_Z * 360`, `(z - MIN_DEPTH) * 1894`, the hue formula and
  `channel / 255f` are computed exactly. The constants themselves are the
  exact float values. NaN and the infinities are modelled.
- `Color.HSVToColor` is a parameter of `CreatePalette`, because it is an
  Android library call. Its opacity is a hypothesis, not a fact the model
  proves.
- The `FloatBuffer` is its contents from position 0 to its limit. The
  `rewind` calls change only its position, and the model does not track it.
- `updateCloud` is not modelled. It calls `calculateColors` and then
  `updatePoints`. The `Points` superclass, which `updatePoints` belongs to,
  is not part of this model, and neither are `Material` and `Log.d`.
- `floatsPerPoint` is fixed at 4. That is the value the only constructor call
  passes (PointCloudRajawaliRenderer.java:77).
- `NewPointCloud` does not model the `Points` superclass constructor, which
  receives `maxPoints` first. Whatever it does with a negative or huge value,
  for example throwing, is not part of this model.
- `i * 4` and `i * 4 + 2` in the loop are computed without wrap-around. On
  every iteration that is reached, `i` is at most a quarter of an array
  length, so these products are at most that length plus 2, below 2^31.
- The colour array holds reals in place of Java floats.
- `ContourLine.java` is not modelled. Its constructor and `init` only set up
  GL and materials, `calculatePoints` is never called, and its `updateCloud`
  is empty.
- `PointCloudRajawaliRenderer.java` (scene, camera, pose, touch) is not
  modelled. It is rendering glue.
