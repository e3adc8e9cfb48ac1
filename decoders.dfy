/** Decoding of one 16-bit holding register into an engineering value
    (drivers/decoders.py).  Floating point is modelled by `real`, so the
    rounding of Python floats is not part of the model. */
module Decoders {
  import opened Wrappers
  import Text

  const WordModulus: int := 0x1_0000
  const DefaultThreshold: int := 0xF000

  /** `x & 0xFFFF` on a Python int: the low 16 bits, also for negative x. */
  function Mask16(x: int): (w: int)
    ensures 0 <= w < WordModulus
    ensures (x - w) % WordModulus == 0
  {
    x % WordModulus
  }

  /** The text `_to_float` hands to `float()`: stripped, decimal comma
      replaced by a decimal point. */
  function FloatText(s: string): (t: string)
    ensures |t| == |Text.Strip(s)| <= |s|
    ensures ',' !in t
    ensures forall i :: 0 <= i < |t| && t[i] != '.' ==> t[i] == Text.Strip(s)[i]
  {
    var u := Text.Strip(s);
    seq(|u|, i requires 0 <= i < |u| => if u[i] == ',' then '.' else u[i])
  }

  /** `_to_float(x, default)`: `float()` is an oracle from text to a
      number, `None` where Python raises. */
  function ToFloat(s: string, parseFloat: string -> Option<real>, default: real): (r: real)
    ensures parseFloat(FloatText(s)).None? ==> r == default
    ensures parseFloat(FloatText(s)).Some? ==> r == parseFloat(FloatText(s)).value
  {
    parseFloat(FloatText(s)).GetOr(default)
  }

  /** The masked word read as two's complement when it reaches the
      masked threshold, as unsigned otherwise. */
  function SignedWord(raw: int, thresh: int): (v: int)
    ensures -WordModulus <= v < WordModulus
    ensures (v - raw) % WordModulus == 0
    ensures v < 0 <==> Mask16(raw) >= Mask16(thresh)
  {
    var w := Mask16(raw);
    if w >= Mask16(thresh) then w - WordModulus else w
  }

  /** `decode_u16_auto(raw, scale, signed_hint_thresh)`.  `scale` is the
      outcome of `float()` on the scale text: `None` when it cannot be
      parsed, in which case the scale is 1.0. */
  function DecodeU16Auto(raw: Option<int>, scale: Option<real>, thresh: int): (r: Option<real>)
    ensures r.None? <==> raw.None?
  {
    match raw
    case None => None
    case Some(x) => Some(SignedWord(x, thresh) as real * scale.GetOr(1.0))
  }

  /** The scale argument is the scale text through `_to_float` with
      default 1.0: decoding multiplies by exactly that number. */
  lemma DecodeScaleFromText(raw: int, scaleText: string, parseFloat: string -> Option<real>, thresh: int)
    ensures DecodeU16Auto(Some(raw), parseFloat(FloatText(scaleText)), thresh)
            == DecodeU16Auto(Some(raw), Some(ToFloat(scaleText, parseFloat, 1.0)), thresh)
  {
    var parsed := parseFloat(FloatText(scaleText));
    assert parsed.GetOr(1.0) == ToFloat(scaleText, parseFloat, 1.0);
    SameScaleSameDecode(raw, parsed, Some(ToFloat(scaleText, parseFloat, 1.0)), thresh);
  }

  /** Two scale arguments that fall back to the same number decode alike. */
  lemma SameScaleSameDecode(raw: int, a: Option<real>, b: Option<real>, thresh: int)
    requires a.GetOr(1.0) == b.GetOr(1.0)
    ensures DecodeU16Auto(Some(raw), a, thresh) == DecodeU16Auto(Some(raw), b, thresh)
  {
    var w := SignedWord(raw, thresh) as real;
    assert w * a.GetOr(1.0) == w * b.GetOr(1.0);
    assert DecodeU16Auto(Some(raw), a, thresh).value == DecodeU16Auto(Some(raw), b, thresh).value;
    assert DecodeU16Auto(Some(raw), a, thresh).Some? && DecodeU16Auto(Some(raw), b, thresh).Some?;
  }

  /** Only the low 16 bits of the raw value matter. */
  lemma DecodeDependsOnWordOnly(a: int, b: int, scale: Option<real>, thresh: int)
    requires a % WordModulus == b % WordModulus
    ensures DecodeU16Auto(Some(a), scale, thresh) == DecodeU16Auto(Some(b), scale, thresh)
  {
    assert Mask16(a) == Mask16(b);
    assert SignedWord(a, thresh) == SignedWord(b, thresh);
    assert DecodeU16Auto(Some(a), scale, thresh).value == DecodeU16Auto(Some(b), scale, thresh).value;
  }

  /** Below the threshold the word is unsigned. */
  lemma DecodeBelowThreshold(raw: int, s: real, thresh: int)
    requires Mask16(raw) < Mask16(thresh)
    ensures DecodeU16Auto(Some(raw), Some(s), thresh) == Some(Mask16(raw) as real * s)
  {
    assert SignedWord(raw, thresh) == Mask16(raw);
    assert DecodeU16Auto(Some(raw), Some(s), thresh).value == Mask16(raw) as real * s;
  }

  /** At or above the threshold the word is two's complement. */
  lemma DecodeAtOrAboveThreshold(raw: int, s: real, thresh: int)
    requires Mask16(raw) >= Mask16(thresh)
    ensures DecodeU16Auto(Some(raw), Some(s), thresh) == Some((Mask16(raw) - WordModulus) as real * s)
  {
    assert SignedWord(raw, thresh) == Mask16(raw) - WordModulus;
    assert DecodeU16Auto(Some(raw), Some(s), thresh).value == (Mask16(raw) - WordModulus) as real * s;
  }

  /** With the default threshold 0xF000 and scale 1 a signed reading lies
      in [-4096, -1]; an unsigned one in [0, 0xEFFF]. */
  lemma DecodeDefaultRange(raw: int)
    ensures var r := DecodeU16Auto(Some(raw), Some(1.0), DefaultThreshold).value;
            (-4096.0 <= r <= -1.0 && Mask16(raw) >= 0xF000)
            || (0.0 <= r <= 61439.0 && Mask16(raw) < 0xF000)
  {
  }

  /** Scaling is multiplicative: k times the scale gives k times the value. */
  lemma DecodeLinearInScale(raw: int, s: real, k: real, thresh: int)
    ensures DecodeU16Auto(Some(raw), Some(k * s), thresh).value
            == k * DecodeU16Auto(Some(raw), Some(s), thresh).value
  {
    var v := SignedWord(raw, thresh) as real;
    assert v * (k * s) == k * (v * s);
  }

  /** An unparseable scale falls back to 1.0: the result is the
      sign-adjusted word itself. */
  lemma DecodeUnparseableScale(raw: int, thresh: int)
    ensures DecodeU16Auto(Some(raw), None, thresh) == Some(SignedWord(raw, thresh) as real)
  {
  }

  /** The partner of decoding: a signed value in the window
      [thresh - 65536, thresh) written as a 16-bit word decodes back to
      itself (scale 1), for a threshold in [0, 65536). */
  lemma DecodeInvertsEncode(v: int, thresh: int)
    requires 0 <= thresh < WordModulus
    requires thresh - WordModulus <= v < thresh
    ensures DecodeU16Auto(Some(Mask16(v)), Some(1.0), thresh) == Some(v as real)
  {
    Text.DivModUnique(thresh, WordModulus, 0, thresh);
    if v >= 0 {
      Text.DivModUnique(v, WordModulus, 0, v);
      assert SignedWord(Mask16(v), thresh) == v;
    } else {
      Text.DivModUnique(v, WordModulus, -1, v + WordModulus);
      Text.DivModUnique(v + WordModulus, WordModulus, 0, v + WordModulus);
      assert SignedWord(Mask16(v), thresh) == v;
    }
  }
}
