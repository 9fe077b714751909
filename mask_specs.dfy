/** The shimmer's configuration: blend modes, the integer codes the layout attributes use for
    them, the MaskSpecs value and the gradient the mask is painted with. */
module Masks {
  import opened Wrappers
  import opened JvmNumbers

  /** android.graphics.PorterDuff.Mode: every mode a MaskSpecs may carry. */
  datatype BlendMode =
    | Clear | Src | Dst | SrcOver | DstOver | SrcIn | DstIn | SrcOut | DstOut
    | SrcAtop | DstAtop | Xor | Darken | Lighten | Multiply | Screen | Add | Overlay

  const DefaultMaskMode: BlendMode := SrcIn

  /** The modes the `maskSpecs_maskMode` layout attribute can name. */
  predicate AttributeMode(m: BlendMode) {
    m == SrcIn || m == SrcAtop || m == Multiply || m == Screen
  }

  /** The attribute code of each mode the layout attribute can name. */
  function MaskModeCode(m: BlendMode): (r: Option<int32>)
    ensures r.Some? <==> AttributeMode(m)
  {
    match m
    case SrcIn => Some(3)
    case SrcAtop => Some(7)
    case Multiply => Some(9)
    case Screen => Some(15)
    case _ => None
  }

  /** Maps an attribute code to a blend mode. Total: an unknown code, including the attribute's
      default -1, falls back to SRC_IN. */
  function ParseMaskMode(code: int32): (r: BlendMode)
    ensures AttributeMode(r)
    ensures code in {3, 7, 9, 15} ==> MaskModeCode(r) == Some(code)
    ensures code !in {3, 7, 9, 15} ==> r == DefaultMaskMode
  {
    match code
    case 3 => SrcIn
    case 7 => SrcAtop
    case 9 => Multiply
    case 15 => Screen
    case _ => DefaultMaskMode
  }

  /** Parsing undoes MaskModeCode, and a code parses to a mode other than the default only if
      it is that mode's code. */
  lemma ParseMaskModeInvertsCode(m: BlendMode, code: int32)
    ensures MaskModeCode(m) == Some(code) ==> ParseMaskMode(code) == m
    ensures ParseMaskMode(code) == m && m != DefaultMaskMode ==> MaskModeCode(m) == Some(code)
  {
  }

  /** The attribute default -1 yields SRC_IN. */
  lemma ParseMaskModeDefault()
    ensures ParseMaskMode(-1) == SrcIn
  {
  }

  /** The shimmer parameters. `intensity` and `dropOff` are Floats in the widget; colours are
      ARGB Ints; duration and delay are Longs. */
  datatype MaskSpecs = MaskSpecs(
    maskColor: int32,
    intensity: real,
    dropOff: real,
    maskMode: BlendMode,
    animationDuration: int64,
    startDelayed: int64)

  /** 0xFFDDDDDD.toInt(): opaque light grey. */
  const DefaultMaskColor: int32 := Wrap32(0xFFDD_DDDD)

  const DefaultSpecs: MaskSpecs := MaskSpecs(DefaultMaskColor, 0.0, 0.3, DefaultMaskMode, 1200, 0)

  /** Color.TRANSPARENT and Color.BLACK as ARGB Ints. */
  const Transparent: int32 := 0
  const Black: int32 := Wrap32(0xFF00_0000)

  function Max(a: real, b: real): real { if a < b then b else a }
  function Min(a: real, b: real): real { if a < b then a else b }

  /** The four colours of the mask's gradient: transparent, opaque, opaque, transparent. */
  function GradientColors(): (r: seq<int32>)
    ensures |r| == 4
    ensures forall k :: 0 <= k < 4 ==> r[k] == r[3 - k]
    ensures r[0] != r[1]
  {
    [Transparent, Black, Black, Transparent]
  }

  /** The stop positions of the gradient. The outer stops are clamped into [0, 1]; the inner
      ones are centred on 0.5 and nothing reorders them. */
  function GradientPositions(specs: MaskSpecs): (r: seq<real>)
    ensures |r| == 4
    ensures 0.0 <= r[0] && r[3] <= 1.0
    ensures r[1] + r[2] == 1.0
    ensures r[2] - r[1] == specs.intensity
  {
    [Max(0.0, specs.dropOff), 0.5 - specs.intensity / 2.0, 0.5 + specs.intensity / 2.0,
     Min(1.0, 1.0 - specs.dropOff)]
  }

  predicate NonDecreasing(s: seq<real>) {
    forall i, j :: 0 <= i < j < |s| ==> s[i] <= s[j]
  }

  /** In real arithmetic the stops come out in order exactly when the intensity lies in
      [0, 1] and the drop-off leaves room for the opaque band: dropOff <= (1 - intensity) / 2. */
  lemma GradientPositionsOrdered(specs: MaskSpecs)
    ensures NonDecreasing(GradientPositions(specs))
        <==> 0.0 <= specs.intensity <= 1.0 && specs.dropOff <= (1.0 - specs.intensity) / 2.0
  {
    var r := GradientPositions(specs);
    var p0, p1, p2, p3 := r[0], r[1], r[2], r[3];
    if 0.0 <= specs.intensity <= 1.0 && specs.dropOff <= (1.0 - specs.intensity) / 2.0 {
      assert p0 <= p1 <= p2 <= p3;
    } else {
      assert !(p0 <= p1 && p1 <= p2 && p2 <= p3);
    }
  }

  /** A drop-off in [0, 0.5] with an intensity in [0, 1] does not guarantee ordered stops:
      dropOff 0.3 with intensity 1 gives [0.3, 0, 1, 0.7]. */
  lemma GradientPositionsMayDecrease()
    ensures GradientPositions(DefaultSpecs.(intensity := 1.0)) == [0.3, 0.0, 1.0, 0.7]
    ensures !NonDecreasing(GradientPositions(DefaultSpecs.(intensity := 1.0)))
  {
    var r := GradientPositions(DefaultSpecs.(intensity := 1.0));
    assert r[0] > r[1];
  }

  /** For a drop-off in [0, 1] the gradient is symmetric about the mask's centre: stop k and
      stop 3 - k sit at mirrored positions and carry the same colour. */
  lemma GradientSymmetric(specs: MaskSpecs, k: int)
    requires 0.0 <= specs.dropOff <= 1.0
    requires 0 <= k < 4
    ensures GradientPositions(specs)[k] + GradientPositions(specs)[3 - k] == 1.0
    ensures GradientColors()[k] == GradientColors()[3 - k]
  {
  }
}
