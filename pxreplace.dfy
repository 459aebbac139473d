/**
 * `createPxReplace` of index.js and the global `value.replace(pxRegex, pxReplace)` it is
 * used in. The pixel-unit pattern itself is not part of this model: a scanned value is a
 * sequence of pieces, the text between matches and the matches themselves.
 */
module PxReplace {
  import opened Wrappers
  import opened Rounding

  /**
   * A match carries its whole text `m`, the numeric capture `$1` when the pattern's number
   * group took part (`None` otherwise), and `pixels`, the host's `parseFloat($1)`.
   */
  datatype Piece =
    | Text(text: string)
    | Match(m: string, capture: Option<string>, pixels: real)

  /** The three numbers the `createPxReplace` closure captures. */
  datatype Replacer = Replacer(rootValue: real, unitPrecision: nat, minPixelValue: real)

  /** `!$1` is false: the capture is present and is not the empty string. */
  predicate HasCapture(capture: Option<string>)
  {
    capture.Some? && capture.value != ""
  }

  /**
   * The replacer called for one match. `format` is JavaScript's number-to-string
   * conversion in `${fixedVal}rem`.
   */
  function Replace(rp: Replacer, m: string, capture: Option<string>, pixels: real,
                   format: real -> string): (r: string)
    requires rp.rootValue != 0.0
    ensures !HasCapture(capture) || pixels < rp.minPixelValue ==> r == m
    ensures HasCapture(capture) && pixels >= rp.minPixelValue ==>
              (r == "0" <==> RoundsToZero(pixels / rp.rootValue, rp.unitPrecision))
    ensures HasCapture(capture) && pixels >= rp.minPixelValue
            && !RoundsToZero(pixels / rp.rootValue, rp.unitPrecision) ==>
              r == format(ToFixed(pixels / rp.rootValue, rp.unitPrecision)) + "rem"
  {
    if !HasCapture(capture) then m
    else if pixels < rp.minPixelValue then m
    else
      var fixedVal := ToFixed(pixels / rp.rootValue, rp.unitPrecision);
      ToFixedZeroIff(pixels / rp.rootValue, rp.unitPrecision);
      if fixedVal == 0.0 then "0" else format(fixedVal) + "rem"
  }

  /** What one piece becomes under the global replace. */
  function PieceOut(rp: Replacer, piece: Piece, format: real -> string): string
    requires rp.rootValue != 0.0
  {
    match piece
    case Text(t) => t
    case Match(m, capture, pixels) => Replace(rp, m, capture, pixels, format)
  }

  /** `value.replace(pxRegex, pxReplace)` over the scanned value. */
  function Rewrite(rp: Replacer, pieces: seq<Piece>, format: real -> string): string
    requires rp.rootValue != 0.0
  {
    if pieces == [] then "" else PieceOut(rp, pieces[0], format) + Rewrite(rp, pieces[1..], format)
  }

  /** The scanned text put back together: the value before replacement. */
  function Join(pieces: seq<Piece>): string
  {
    if pieces == [] then ""
    else (match pieces[0] case Text(t) => t case Match(m, _, _) => m) + Join(pieces[1..])
  }

  /** A piece the replacer hands back unchanged. */
  predicate Kept(rp: Replacer, piece: Piece)
  {
    piece.Text? || !HasCapture(piece.capture) || piece.pixels < rp.minPixelValue
  }

  /** The replace works piece by piece: it distributes over concatenation. */
  lemma {:induction false} RewriteAppend(rp: Replacer, a: seq<Piece>, b: seq<Piece>, format: real -> string)
    requires rp.rootValue != 0.0
    ensures Rewrite(rp, a + b, format) == Rewrite(rp, a, format) + Rewrite(rp, b, format)
  {
    if a == [] {
      assert a + b == b;
    } else {
      assert (a + b)[1..] == a[1..] + b;
      RewriteAppend(rp, a[1..], b, format);
    }
  }

  /**
   * A value whose every match lacks a capture or is below `minPixelValue` comes out of the
   * replace exactly as it went in.
   */
  lemma {:induction false} RewriteKeepsUnconverted(rp: Replacer, pieces: seq<Piece>, format: real -> string)
    requires rp.rootValue != 0.0
    requires forall i :: 0 <= i < |pieces| ==> Kept(rp, pieces[i])
    ensures Rewrite(rp, pieces, format) == Join(pieces)
  {
    if pieces != [] {
      assert Kept(rp, pieces[0]);
      RewriteKeepsUnconverted(rp, pieces[1..], format);
    }
  }

  /** A match at exactly `minPixelValue` is converted: the threshold is inclusive. */
  lemma ThresholdIsInclusive(rp: Replacer, m: string, capture: Option<string>, format: real -> string)
    requires rp.rootValue != 0.0 && HasCapture(capture)
    requires !RoundsToZero(rp.minPixelValue / rp.rootValue, rp.unitPrecision)
    ensures Replace(rp, m, capture, rp.minPixelValue, format)
            == format(ToFixed(rp.minPixelValue / rp.rootValue, rp.unitPrecision)) + "rem"
  {
  }

  /** `padding: 32px` at root 16, five digits, minimum 1.1 becomes `2rem`. */
  lemma ScenarioPadding(format: real -> string)
    ensures Rewrite(Replacer(16.0, 5, 1.1), [Match("32px", Some("32"), 32.0)], format)
            == format(2.0) + "rem"
  {
    ToFixedExactOnGrid(2.0, 5, 200000);
    ToFixedZeroIff(2.0, 5);
    assert Pow10(6) == 1000000;
  }

  /** `border: 1px solid red` with the same options is left alone: 1 is below 1.1. */
  lemma ScenarioHairline(format: real -> string)
    ensures Rewrite(Replacer(16.0, 5, 1.1), [Match("1px", Some("1"), 1.0), Text(" solid red")], format)
            == "1px solid red"
  {
    var pieces := [Match("1px", Some("1"), 1.0), Text(" solid red")];
    RewriteKeepsUnconverted(Replacer(16.0, 5, 1.1), pieces, format);
    assert Join(pieces) == "1px" + (" solid red" + Join([]));
  }

  /** A rounded quotient of zero is written as the unit-less `0`. */
  lemma ScenarioTiny(format: real -> string)
    ensures Rewrite(Replacer(16.0, 5, 0.0), [Match("0.00001px", Some("0.00001"), 0.00001)], format) == "0"
  {
    ToFixedZeroIff(0.00001 / 16.0, 5);
    assert Pow10(6) == 1000000;
  }
}
