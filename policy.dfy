/** The fixed limits of `process_mp4` and the geometry of its square pad. */
module VideoPolicy {

  /** The video-note byte cap: 20 MiB. */
  const MaxNoteBytes: nat := 20 * 1024 * 1024

  /** The video-note duration limit, in seconds. */
  const MaxNoteSeconds: real := 60.0

  /** Lower and upper bound of the width/height ratio that counts as square. */
  const MinSquareRatio: real := 0.9
  const MaxSquareRatio: real := 1.1

  /** The size check: the limit itself is allowed. */
  predicate WithinSizeCap(size: nat) {
    size <= MaxNoteBytes
  }

  /** The duration check: only strictly longer videos are refused. */
  predicate TooLong(duration: real) {
    duration > MaxNoteSeconds
  }

  function AspectRatio(w: nat, h: nat): (r: real)
    requires h > 0
    ensures r >= 0.0 && r * h as real == w as real
  {
    w as real / h as real
  }

  /** Near-square: the ratio lies in the closed interval [0.9, 1.1]. */
  predicate IsSquare(w: nat, h: nat)
    requires h > 0
    ensures w == h ==> IsSquare(w, h)
    ensures w == 0 ==> !IsSquare(w, h)
  {
    MinSquareRatio <= AspectRatio(w, h) <= MaxSquareRatio
  }

  /** The aspect test without division: 9h <= 10w <= 11h. */
  lemma SquareByCrossMultiplication(w: nat, h: nat)
    requires h > 0
    ensures IsSquare(w, h) <==> 9 * h <= 10 * w <= 11 * h
  {
    var hr, wr := h as real, w as real;
    QuotientBounds(0.9, wr, hr);
    QuotientBounds(1.1, wr, hr);
    assert (9 * h) as real == 10.0 * (0.9 * hr) && (11 * h) as real == 10.0 * (1.1 * hr);
    assert (10 * w) as real == 10.0 * wr;
  }

  /** Comparing a quotient with a bound is comparing the numerator with the
      bound times the (positive) denominator. */
  lemma QuotientBounds(c: real, a: real, b: real)
    requires b > 0.0
    ensures c <= a / b <==> c * b <= a
    ensures a / b <= c <==> a <= c * b
  {
    var q := a / b;
    assert a == q * b;
    if c <= q { MulMonotone(c, q, b); }
    if c * b <= q * b { MulCancel(c, q, b); }
    if q <= c { MulMonotone(q, c, b); }
    if q * b <= c * b { MulCancel(q, c, b); }
  }

  lemma MulMonotone(a: real, b: real, c: real)
    requires a <= b && c > 0.0
    ensures a * c <= b * c
  {}

  lemma MulCancel(a: real, b: real, c: real)
    requires a * c <= b * c && c > 0.0
    ensures a <= b
  {}

  /** The tolerance is not symmetric in width and height: a 9x10 portrait is
      square, the 10x9 landscape is not. */
  lemma SquareToleranceAsymmetric()
    ensures IsSquare(9, 10) && !IsSquare(10, 9)
    ensures IsSquare(11, 10) && !IsSquare(8, 10)
  {
    SquareByCrossMultiplication(9, 10);
    SquareByCrossMultiplication(10, 9);
    SquareByCrossMultiplication(11, 10);
    SquareByCrossMultiplication(8, 10);
  }

  datatype Size = Size(width: nat, height: nat)

  /** The padded frame: a canvas and the clip composited at its centre. */
  datatype PadLayout = PadLayout(canvas: Size, clip: Size)

  function Max(a: nat, b: nat): nat {
    if a >= b then a else b
  }

  /** The clip size after the aspect-preserving resize to the target width
      (landscape or square) or the target height (portrait); the library's
      rounding is modelled as the floor. */
  function ResizedClip(w: nat, h: nat): (r: Size)
    requires h > 0
    ensures r.width <= Max(w, h) && r.height <= Max(w, h)
  {
    var side := Max(w, h);
    var targetW := if w <= side then w else side;
    var targetH := if h <= side then h else side;
    if w >= h then
      DivExact(h, w);
      Size(targetW, h * targetW / w)
    else
      DivExact(w, h);
      Size(w * targetH / h, targetH)
  }

  /** The pad layout for a `w` x `h` video. */
  function Pad(w: nat, h: nat): (l: PadLayout)
    requires h > 0
    ensures l.canvas.width == l.canvas.height == Max(w, h)
    ensures l.clip.width <= l.canvas.width && l.clip.height <= l.canvas.height
  {
    var c := ResizedClip(w, h);
    ResizeKeepsSize(w, h);
    PadLayout(Size(Max(w, h), Max(w, h)), c)
  }

  /** Because both targets equal the original sides, the resize never
      changes the clip: padding only adds black bars. */
  lemma ResizeKeepsSize(w: nat, h: nat)
    requires h > 0
    ensures ResizedClip(w, h) == Size(w, h)
  {
    if w >= h {
      DivExact(h, w);
    } else {
      DivExact(w, h);
    }
  }

  lemma DivExact(a: nat, b: nat)
    requires b > 0
    ensures a * b / b == a
  {
    var q, r := a * b / b, a * b % b;
    assert b * (a - q) == r;
    MulBoundsAway(b, a - q);
  }

  lemma MulBoundsAway(b: int, d: int)
    requires b > 0
    ensures d >= 1 ==> b * d >= b
    ensures d <= -1 ==> b * d <= -b
  {}

  /** The canvas is exactly as large as the clip's longer side, so the clip
      touches two opposite edges and keeps its aspect ratio. */
  lemma PadIsTight(w: nat, h: nat)
    requires h > 0
    ensures Pad(w, h).clip == Size(w, h)
    ensures Pad(w, h).canvas.width == Max(Pad(w, h).clip.width, Pad(w, h).clip.height)
  {
    ResizeKeepsSize(w, h);
  }
}
