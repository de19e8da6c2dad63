/** WriteColour (include/colour.h): each channel goes through the gamma power,
    is clamped to [0, 1 - EPS_DEUX] and scaled to a byte, and the three bytes
    are written as one line of a plain PPM (P3) pixel: decimal integers
    separated by single spaces and ended by a newline. */
module Colours {
  import V = Vectors
  import G = Global
  import I = Intervals
  import opened Wrappers

  /** std::pow(x, GAMMA), GAMMA = 1 / 2.2: not part of this model. */
  type Gamma = real -> real

  /** The upper end of the static `intensity` interval. */
  const IntensityHi: real := 1.0 - G.EPS_DEUX

  // ------------------------------------------------------------ one channel

  /** int(256 * intensity.Clamp(g)) for a post-gamma value g. */
  function Quantise(g: real): (b: int)
    ensures 0 <= b <= 255
  {
    var c := I.ClampReal(0.0, IntensityHi, g);
    I.ClampRealProperties(0.0, IntensityHi, g, g);
    G.TruncBounds(256.0 * c);
    G.Trunc(256.0 * c)
  }

  /** At or below 0 the byte is 0; at or above 1 - EPS_DEUX it is 255. */
  lemma QuantiseEnds(g: real)
    ensures g <= 0.0 ==> Quantise(g) == 0
    ensures g >= IntensityHi ==> Quantise(g) == 255
  {
    I.ClampRealProperties(0.0, IntensityHi, g, g);
  }

  /** A larger post-gamma value never gives a smaller byte. */
  lemma QuantiseMonotone(a: real, b: real)
    requires a <= b
    ensures Quantise(a) <= Quantise(b)
  {
    I.ClampRealProperties(0.0, IntensityHi, a, b);
    G.TruncMonotone(256.0 * I.ClampReal(0.0, IntensityHi, a), 256.0 * I.ClampReal(0.0, IntensityHi, b));
  }

  /** Inside the intensity interval the byte is the index of the 1/256-wide
      bucket holding the value. */
  lemma QuantiseBucket(g: real)
    requires 0.0 <= g <= IntensityHi
    ensures Quantise(g) as real <= 256.0 * g < Quantise(g) as real + 1.0
  {
    I.ClampRealProperties(0.0, IntensityHi, g, g);
    G.TruncBounds(256.0 * g);
  }

  // ------------------------------------------------------------ decimal text

  predicate IsDigit(c: char) {
    '0' <= c <= '9'
  }

  predicate AllDigits(s: string) {
    forall k :: 0 <= k < |s| ==> IsDigit(s[k])
  }

  function Digit(d: int): (c: char)
    requires 0 <= d < 10
    ensures IsDigit(c)
  {
    (48 + d) as char
  }

  function DigitValue(c: char): (d: int)
    requires IsDigit(c)
    ensures 0 <= d < 10
  {
    c as int - 48
  }

  /** How operator<< writes a non-negative int: its decimal digits, most
      significant first, without leading zeros. */
  function Decimal(n: nat): (s: string)
    ensures |s| >= 1 && AllDigits(s)
    decreases n
  {
    if n < 10 then [Digit(n)] else Decimal(n / 10) + [Digit(n % 10)]
  }

  /** The value of a string of decimal digits. */
  function ParseDecimal(s: string): nat
    requires AllDigits(s)
    decreases |s|
  {
    if |s| == 0 then 0 else 10 * ParseDecimal(s[..|s| - 1]) + DigitValue(s[|s| - 1])
  }

  /** Reading back the digits written for n gives n. */
  lemma {:induction false} DecimalRoundTrip(n: nat)
    ensures ParseDecimal(Decimal(n)) == n
    decreases n
  {
    if n >= 10 {
      var s := Decimal(n);
      assert s[..|s| - 1] == Decimal(n / 10);
      DecimalRoundTrip(n / 10);
    }
  }

  /** Only 0 is written with a leading '0'. */
  lemma {:induction false} DecimalNoLeadingZero(n: nat)
    ensures Decimal(n)[0] == '0' <==> n == 0
    decreases n
  {
    if n >= 10 {
      DecimalNoLeadingZero(n / 10);
    }
  }

  // ------------------------------------------------------------ the line

  /** os << r << " " << g << " " << b << '\n'. */
  function Line(r: nat, g: nat, b: nat): string {
    Decimal(r) + " " + Decimal(g) + " " + Decimal(b) + "\n"
  }

  /** WriteColour(colour, os): the line written for a colour. */
  function WriteColour(c: V.Vector3, gamma: Gamma): string {
    Line(Quantise(gamma(c.x)), Quantise(gamma(c.y)), Quantise(gamma(c.z)))
  }

  /** The text before the first `sep` and the text after it. */
  function Cut(s: string, sep: char): Option<(string, string)>
    decreases |s|
  {
    if |s| == 0 then None
    else if s[0] == sep then Some(([], s[1..]))
    else match Cut(s[1..], sep)
      case None => None
      case Some(parts) => Some(([s[0]] + parts.0, parts.1))
  }

  predicate IsNumber(s: string) {
    |s| >= 1 && AllDigits(s)
  }

  /** A reader of one pixel line: three numbers, two single spaces, one
      newline and nothing after it. */
  function ParseLine(line: string): Option<(nat, nat, nat)> {
    match Cut(line, ' ')
    case None => None
    case Some(p1) =>
      match Cut(p1.1, ' ')
      case None => None
      case Some(p2) =>
        match Cut(p2.1, '\n')
        case None => None
        case Some(p3) =>
          if p3.1 == [] && IsNumber(p1.0) && IsNumber(p2.0) && IsNumber(p3.0) then
            Some((ParseDecimal(p1.0), ParseDecimal(p2.0), ParseDecimal(p3.0)))
          else None
  }

  /** Cutting at a separator the prefix does not contain splits there. */
  lemma {:induction false} CutAppend(x: string, sep: char, y: string)
    requires forall k :: 0 <= k < |x| ==> x[k] != sep
    ensures Cut(x + [sep] + y, sep) == Some((x, y))
    decreases |x|
  {
    if |x| > 0 {
      assert (x + [sep] + y)[1..] == x[1..] + [sep] + y;
      CutAppend(x[1..], sep, y);
      assert [x[0]] + x[1..] == x;
    } else {
      assert x + [sep] + y == [sep] + y;
    }
  }

  /** Digits contain neither separator. */
  lemma DigitsAreNotSeparators(s: string)
    requires AllDigits(s)
    ensures forall k :: 0 <= k < |s| ==> s[k] != ' ' && s[k] != '\n'
  {
  }

  /** Reading a written line gives back the three numbers. */
  lemma LineRoundTrip(r: nat, g: nat, b: nat)
    ensures ParseLine(Line(r, g, b)) == Some((r, g, b))
  {
    var dr, dg, db := Decimal(r), Decimal(g), Decimal(b);
    DigitsAreNotSeparators(dr);
    DigitsAreNotSeparators(dg);
    DigitsAreNotSeparators(db);
    var rest2 := db + "\n";
    var rest1 := dg + " " + rest2;
    assert Line(r, g, b) == dr + [' '] + rest1;
    assert rest1 == dg + [' '] + rest2;
    assert rest2 == db + ['\n'] + [];
    CutAppend(dr, ' ', rest1);
    CutAppend(dg, ' ', rest2);
    CutAppend(db, '\n', []);
    DecimalRoundTrip(r);
    DecimalRoundTrip(g);
    DecimalRoundTrip(b);
  }

  /** The line WriteColour emits reads back as the three quantised channels,
      each a byte. */
  lemma WriteColourReadsBack(c: V.Vector3, gamma: Gamma)
    ensures ParseLine(WriteColour(c, gamma)) == Some((Quantise(gamma(c.x)), Quantise(gamma(c.y)), Quantise(gamma(c.z))))
  {
    LineRoundTrip(Quantise(gamma(c.x)), Quantise(gamma(c.y)), Quantise(gamma(c.z)));
  }
}
