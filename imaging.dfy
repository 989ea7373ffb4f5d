/**
  The noise transform of add_noise.py over exact arithmetic: how a decoded
  image array is split into a colour part (and an alpha plane), how each colour
  byte is normalised, perturbed, clipped and quantised, and how the result is
  put back together.
 */
module Imaging {

  /** An 8-bit unsigned channel value, as numpy's uint8. */
  type Byte = b: int | 0 <= b < 256

  /** A two-dimensional grid, row by row; an image array is a grid of cells. */
  type Grid<T> = seq<seq<T>>

  /** One noise sample for every (row, column, channel) position of the colour array. */
  type Noise = (nat, nat, nat) -> real

  /** The noise of a zero-variance run. */
  const NoNoise: Noise := (i: nat, j: nat, c: nat) => 0.0

  /** The image mode that selects the alpha-preserving path. */
  const RGBA: string := "RGBA"

  /** What numpy makes of a decoded image: a 2-D array (one value per pixel) or a 3-D array (a channel vector per pixel). */
  datatype PixelArray =
    | Plane(values: Grid<Byte>)
    | Stack(pixels: Grid<seq<Byte>>)

  /** A decoded image: its mode name and its pixel array. */
  datatype Image = Image(mode: string, data: PixelArray)

  predicate HasChannels(g: Grid<seq<Byte>>, n: nat)
  {
    forall i, j :: 0 <= i < |g| && 0 <= j < |g[i]| ==> |g[i][j]| == n
  }

  /** An image as the decoder delivers it: an RGBA image has four channels per pixel. */
  predicate Consistent(img: Image)
  {
    img.mode == RGBA ==> img.data.Stack? && HasChannels(img.data.pixels, 4)
  }

  type Loaded = img: Image | Consistent(img) witness Image("L", Plane([]))

  /** Same number of rows, of cells per row and of channels per cell. */
  predicate SameShape<A, B>(a: Grid<seq<A>>, b: Grid<seq<B>>)
  {
    && |a| == |b|
    && (forall i :: 0 <= i < |a| ==> |a[i]| == |b[i]|)
    && (forall i, j :: 0 <= i < |a| && 0 <= j < |a[i]| ==> |a[i][j]| == |b[i][j]|)
  }

  /** Same number of rows and of cells per row. */
  predicate SameLayout<A, B>(a: Grid<A>, b: Grid<B>)
  {
    |a| == |b| && forall i :: 0 <= i < |a| ==> |a[i]| == |b[i]|
  }

  // ---------------------------------------------------------------------------
  // One colour value

  /** `v / 255.0`: a byte as a value of the unit interval. */
  function Normalize(v: Byte): (x: real)
    ensures 0.0 <= x <= 1.0
    ensures x * 255.0 == v as real
  {
    v as real / 255.0
  }

  /** `np.clip(x, 0, 1)`: a hard clamp, not a rescale. */
  function Clip(x: real): (y: real)
    ensures 0.0 <= y <= 1.0
    ensures 0.0 <= x <= 1.0 ==> y == x
    ensures x < 0.0 ==> y == 0.0
    ensures x > 1.0 ==> y == 1.0
  {
    if x < 0.0 then 0.0 else if x > 1.0 then 1.0 else x
  }

  /** `(y * 255).astype(np.uint8)` on a clipped value: the cast truncates toward zero. */
  function Quantize(y: real): (b: int)
    requires 0.0 <= y <= 1.0
    ensures 0 <= b <= 255
    ensures b as real <= y * 255.0 < b as real + 1.0
  {
    (y * 255.0).Floor
  }

  /** The output byte for input byte `v` under noise sample `n`. */
  function NoisyValue(v: Byte, n: real): (r: Byte)
    ensures n == 0.0 ==> r == v
    ensures Normalize(v) + n >= 1.0 ==> r == 255
    ensures Normalize(v) + n <= 0.0 ==> r == 0
  {
    Quantize(Clip(Normalize(v) + n))
  }

  /** With no noise, normalising, clipping and truncating give every byte back. */
  lemma NoiseFreeValue(v: Byte)
    ensures NoisyValue(v, 0.0) == v
  {
    var y := Clip(Normalize(v) + 0.0);
    assert y == Normalize(v);
    assert y * 255.0 == v as real;
  }

  /** More noise never gives a darker value. */
  lemma NoisyValueMonotone(v: Byte, n1: real, n2: real)
    requires n1 <= n2
    ensures NoisyValue(v, n1) <= NoisyValue(v, n2)
  {
    var y1, y2 := Clip(Normalize(v) + n1), Clip(Normalize(v) + n2);
    assert y1 <= y2;
    assert y1 * 255.0 <= y2 * 255.0;
  }

  /** A sample of at least 1 saturates to white and one of at most -1 to black, whatever the input byte. */
  lemma NoiseSaturates(v: Byte, n: real)
    ensures n >= 1.0 ==> NoisyValue(v, n) == 255
    ensures n <= -1.0 ==> NoisyValue(v, n) == 0
  {
    if n >= 1.0 {
      assert Clip(Normalize(v) + n) == 1.0;
    }
    if n <= -1.0 {
      assert Clip(Normalize(v) + n) == 0.0;
    }
  }

  /** The quantisation truncates: 100.9/255 comes back as 100, where rounding would give 101. */
  lemma QuantizeTruncates()
    ensures NoisyValue(100, 0.9 / 255.0) == 100
  {
    var y := Clip(Normalize(100) + 0.9 / 255.0);
    assert y * 255.0 == 100.9;
  }

  // ---------------------------------------------------------------------------
  // Whole arrays

  /** `np.clip(a / 255.0 + noise, 0, 1) * 255` cast to uint8, element by element. */
  function AddNoiseGrid(g: Grid<seq<Byte>>, noise: Noise): (r: Grid<seq<Byte>>)
    ensures SameShape(r, g)
    ensures forall i, j, c :: 0 <= i < |g| && 0 <= j < |g[i]| && 0 <= c < |g[i][j]| ==>
              r[i][j][c] == NoisyValue(g[i][j][c], noise(i, j, c))
  {
    seq(|g|, i requires 0 <= i < |g| =>
      seq(|g[i]|, j requires 0 <= j < |g[i]| =>
        seq<Byte>(|g[i][j]|, c requires 0 <= c < |g[i][j]| => NoisyValue(g[i][j][c], noise(i, j, c)))))
  }

  /** `np.stack([a, a, a], axis=2)`: a grey plane becomes three equal channels. */
  function Promote(g: Grid<Byte>): (r: Grid<seq<Byte>>)
    ensures SameLayout(r, g)
    ensures HasChannels(r, 3)
    ensures forall i, j, c :: 0 <= i < |g| && 0 <= j < |g[i]| && 0 <= c < 3 ==> r[i][j][c] == g[i][j]
  {
    seq(|g|, i requires 0 <= i < |g| =>
      seq(|g[i]|, j requires 0 <= j < |g[i]| => [g[i][j], g[i][j], g[i][j]]))
  }

  /** `convert('RGB')` of an RGBA image: the first three channels of every pixel. */
  function DropAlpha(g: Grid<seq<Byte>>): (r: Grid<seq<Byte>>)
    requires HasChannels(g, 4)
    ensures SameLayout(r, g)
    ensures HasChannels(r, 3)
    ensures forall i, j, c :: 0 <= i < |g| && 0 <= j < |g[i]| && 0 <= c < 3 ==> r[i][j][c] == g[i][j][c]
  {
    seq(|g|, i requires 0 <= i < |g| =>
      seq(|g[i]|, j requires 0 <= j < |g[i]| => g[i][j][..3]))
  }

  /** `split()[-1]` of an RGBA image: the alpha plane. */
  function AlphaPlane(g: Grid<seq<Byte>>): (r: Grid<Byte>)
    requires HasChannels(g, 4)
    ensures SameLayout(r, g)
    ensures forall i, j :: 0 <= i < |g| && 0 <= j < |g[i]| ==> r[i][j] == g[i][j][3]
  {
    seq(|g|, i requires 0 <= i < |g| =>
      seq(|g[i]|, j requires 0 <= j < |g[i]| => g[i][j][3]))
  }

  /** `Image.merge('RGBA', (r, g, b, alpha))`: the alpha plane appended to three colour channels. */
  function MergeAlpha(rgb: Grid<seq<Byte>>, alpha: Grid<Byte>): (r: Grid<seq<Byte>>)
    requires HasChannels(rgb, 3) && SameLayout(rgb, alpha)
    ensures SameLayout(r, rgb)
    ensures HasChannels(r, 4)
    ensures forall i, j :: 0 <= i < |r| && 0 <= j < |r[i]| ==> r[i][j][..3] == rgb[i][j] && r[i][j][3] == alpha[i][j]
  {
    seq(|rgb|, i requires 0 <= i < |rgb| =>
      seq(|rgb[i]|, j requires 0 <= j < |rgb[i]| => rgb[i][j] + [alpha[i][j]]))
  }

  /** The array the noise is added to: RGB of an RGBA image, a promoted grey plane, or the 3-D array as decoded. */
  function ColourArray(img: Loaded): (g: Grid<seq<Byte>>)
    ensures img.data.Plane? ==> SameLayout(g, img.data.values) && HasChannels(g, 3)
    ensures img.data.Stack? ==> SameLayout(g, img.data.pixels)
    ensures img.mode == RGBA ==> HasChannels(g, 3)
    ensures img.mode != RGBA && img.data.Stack? ==> g == img.data.pixels
  {
    if img.mode == RGBA then DropAlpha(img.data.pixels)
    else match img.data
      case Plane(values) => Promote(values)
      case Stack(pixels) => pixels
  }

  /** The uint8 array of the noisy image: noisy colour, with the original alpha plane merged back for RGBA. */
  function NoisyArray(img: Loaded, noise: Noise): (a: Grid<seq<Byte>>)
    ensures img.data.Plane? ==> SameLayout(a, img.data.values)
    ensures img.data.Stack? ==> SameLayout(a, img.data.pixels)
    ensures img.mode == RGBA ==> HasChannels(a, 4)
    ensures img.mode != RGBA && img.data.Plane? ==> HasChannels(a, 3)
    ensures img.mode != RGBA && img.data.Stack? ==> SameShape(a, img.data.pixels)
  {
    var noisy := AddNoiseGrid(ColourArray(img), noise);
    if img.mode == RGBA then MergeAlpha(noisy, AlphaPlane(img.data.pixels)) else noisy
  }

  // ---------------------------------------------------------------------------
  // Properties of the transform

  /** Zero noise leaves every colour array unchanged. */
  lemma NoiseFreeGrid(g: Grid<seq<Byte>>)
    ensures AddNoiseGrid(g, NoNoise) == g
  {
    var r := AddNoiseGrid(g, NoNoise);
    forall i | 0 <= i < |g|
      ensures r[i] == g[i]
    {
      forall j | 0 <= j < |g[i]|
        ensures r[i][j] == g[i][j]
      {
        forall c | 0 <= c < |g[i][j]|
          ensures r[i][j][c] == g[i][j][c]
        {
          NoiseFreeValue(g[i][j][c]);
        }
      }
    }
  }

  /** In the RGBA path the alpha plane comes out exactly as it went in, and the noise touches only the RGB channels. */
  lemma AlphaPreserved(img: Loaded, noise: Noise)
    requires img.mode == RGBA
    ensures HasChannels(img.data.pixels, 4)
    ensures SameShape(NoisyArray(img, noise), img.data.pixels)
    ensures HasChannels(NoisyArray(img, noise), 4)
    ensures AlphaPlane(NoisyArray(img, noise)) == AlphaPlane(img.data.pixels)
    ensures DropAlpha(NoisyArray(img, noise)) == AddNoiseGrid(DropAlpha(img.data.pixels), noise)
  {
    var px := img.data.pixels;
    var noisy := AddNoiseGrid(DropAlpha(px), noise);
    var out := NoisyArray(img, noise);
    assert out == MergeAlpha(noisy, AlphaPlane(px));
    var a, b := AlphaPlane(out), AlphaPlane(px);
    forall i | 0 <= i < |b|
      ensures a[i] == b[i]
    {
    }
    var d := DropAlpha(out);
    forall i | 0 <= i < |noisy|
      ensures d[i] == noisy[i]
    {
      forall j | 0 <= j < |noisy[i]|
        ensures d[i][j] == noisy[i][j]
      {
        assert d[i][j] == out[i][j][..3];
      }
    }
  }

  /** A 2-D array comes out with three channels per pixel and the same rows and columns; with no noise all three equal the grey value. */
  lemma GrayscalePromoted(img: Loaded, noise: Noise)
    requires img.mode != RGBA && img.data.Plane?
    ensures SameLayout(NoisyArray(img, noise), img.data.values)
    ensures HasChannels(NoisyArray(img, noise), 3)
    ensures NoisyArray(img, NoNoise) == Promote(img.data.values)
  {
    NoiseFreeGrid(Promote(img.data.values));
  }

  /** A zero-variance run gives back the decoded bytes: the whole image for RGBA and 3-D arrays, the promoted plane for 2-D arrays. */
  lemma NoiseFreeRoundTrip(img: Loaded)
    ensures img.data.Stack? ==> NoisyArray(img, NoNoise) == img.data.pixels
    ensures img.mode != RGBA && img.data.Plane? ==> NoisyArray(img, NoNoise) == Promote(img.data.values)
  {
    var out := NoisyArray(img, NoNoise);
    if img.mode == RGBA {
      var px := img.data.pixels;
      NoiseFreeGrid(DropAlpha(px));
      var rgb := DropAlpha(px);
      assert out == MergeAlpha(rgb, AlphaPlane(px));
      forall i | 0 <= i < |px|
        ensures out[i] == px[i]
      {
        forall j | 0 <= j < |px[i]|
          ensures out[i][j] == px[i][j]
        {
          assert out[i][j] == rgb[i][j] + [px[i][j][3]];
          assert rgb[i][j] == px[i][j][..3];
        }
      }
    } else {
      NoiseFreeGrid(ColourArray(img));
    }
  }
}
