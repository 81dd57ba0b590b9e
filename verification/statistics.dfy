/**
 * The results of a calibration point: mean mass, mean volume (each mass
 * times the Z factor), inaccuracy against the nominal volume, standard
 * deviation and coefficient of variation.  The form computes them along
 * three paths that disagree on details, and each is modelled on its own:
 *
 *  - `MainResults` (`calcularResultados`): rounds to two decimals, leaves the
 *    point alone when the nominal volume is not a number, and divides by
 *    n - 1 even for a single reading;
 *  - `SyringeResults` (`calcularResultadosSeringas`): no rounding, a missing
 *    nominal volume counts as 0, and a single reading has deviation 0;
 *  - `VolumeChangeStats` (`handleVolumeNominalChange`): rounds, and leaves the
 *    deviation `null` for a single reading.
 *
 * Arithmetic is exact over `real`; the square root is a parameter.
 */
module Statistics {
  import opened Wrappers
  import opened JsText
  import opened JsNumber
  import opened Readings
  import opened Draft

  // ---------------------------------------------------------------------------
  // Sums and means
  // ---------------------------------------------------------------------------

  /** `xs.reduce((sum, v) => sum + v, 0)`. */
  function Sum(xs: seq<real>): real {
    if xs == [] then 0.0 else Sum(xs[..|xs| - 1]) + xs[|xs| - 1]
  }

  function Mean(xs: seq<real>): real
    requires xs != []
  {
    Sum(xs) / (|xs| as real)
  }

  /** `xs.map(m => m * z)`. */
  function Scale(xs: seq<real>, z: real): (r: seq<real>)
    ensures |r| == |xs| && forall i :: 0 <= i < |xs| ==> r[i] == xs[i] * z
  {
    seq(|xs|, i requires 0 <= i < |xs| => xs[i] * z)
  }

  /** `xs.reduce((sum, v) => sum + Math.pow(v - m, 2), 0)`. */
  function SumSquares(xs: seq<real>, m: real): real {
    if xs == [] then 0.0 else SumSquares(xs[..|xs| - 1], m) + (xs[|xs| - 1] - m) * (xs[|xs| - 1] - m)
  }

  /** Scaling every term scales the sum. */
  lemma {:induction false} SumScale(xs: seq<real>, z: real)
    ensures Sum(Scale(xs, z)) == z * Sum(xs)
  {
    if xs != [] {
      var ys := Scale(xs, z);
      var init := Scale(xs[..|xs| - 1], z);
      assert forall i :: 0 <= i < |init| ==> ys[..|ys| - 1][i] == init[i];
      assert ys[..|ys| - 1] == init;
      SumScale(xs[..|xs| - 1], z);
    }
  }

  /** The mean of the volumes is Z times the mean of the masses. */
  lemma MeanScale(xs: seq<real>, z: real)
    requires xs != []
    ensures Mean(Scale(xs, z)) == z * Mean(xs)
  {
    SumScale(xs, z);
  }

  /** A sum of squares is never negative. */
  lemma {:induction false} SumSquaresNonNegative(xs: seq<real>, m: real)
    ensures SumSquares(xs, m) >= 0.0
  {
    if xs != [] {
      SumSquaresNonNegative(xs[..|xs| - 1], m);
      var d := xs[|xs| - 1] - m;
      assert d * d >= 0.0;
    }
  }

  /** A single reading is its own mean and deviates from it by nothing. */
  lemma SingleMean(x: real)
    ensures Mean([x]) == x && SumSquares([x], Mean([x])) == 0.0
  {
    assert [x][..0] == [];
    assert Sum([x]) == x;
    assert SumSquares([x], x) == SumSquares([], x) + (x - x) * (x - x);
  }

  // ---------------------------------------------------------------------------
  // Readings as numbers, and IEEE special values
  // ---------------------------------------------------------------------------

  /** The readings that parse as numbers, in order, as parsed: `.map(parseFloat).filter(m => !isNaN(m))`. */
  function Numbers(ms: seq<string>): (xs: seq<real>)
    ensures |xs| <= |ms|
  {
    if ms == [] then []
    else if ParseFloat(ms[0]).Some? then [ParseFloat(ms[0]).value] + Numbers(ms[1..])
    else Numbers(ms[1..])
  }

  /** No number is read exactly when no reading parses. */
  lemma {:induction false} NumbersEmpty(ms: seq<string>)
    ensures Numbers(ms) == [] <==> forall i :: 0 <= i < |ms| ==> !IsNumeric(ms[i])
  {
    if ms != [] {
      NumbersEmpty(ms[1..]);
      assert forall i :: 1 <= i < |ms| ==> ms[i] == ms[1..][i - 1];
    }
  }

  /** Empty text is not a number, so filtering out "" first changes nothing. */
  lemma EmptyIsNotNumber()
    ensures ParseFloat("") == None
  {
    assert LeadingDigits("") == "";
  }

  /** `v * 100` on a JavaScript number. */
  function Percent(v: Value): Value {
    match v
    case Num(a) => Num(a * 100.0)
    case Null => Num(0.0)
    case _ => v
  }

  /** `v / b` on a JavaScript number (`null` counts as 0). */
  function DivValue(v: Value, b: real): Value {
    match v
    case Num(a) => Div(a, b)
    case Null => Div(0.0, b)
    case NaN => NaN
    case Inf(p) => Inf(p == !(b < 0.0))
  }

  /** `Math.sqrt(v)` on a JavaScript number, through the given square root. */
  function SqrtValue(v: Value, sqrt: real -> real): Value {
    match v
    case Num(a) => if a >= 0.0 then Num(sqrt(a)) else NaN
    case Null => Num(sqrt(0.0))
    case NaN => NaN
    case Inf(p) => if p then v else NaN
  }

  // ---------------------------------------------------------------------------
  // calcularResultados
  // ---------------------------------------------------------------------------

  /** `Math.sqrt(soma / (n - 1))` on the volumes, as `calcularResultados` computes it for any count. */
  function SampleDeviation(vols: seq<real>, sqrt: real -> real): Value
    requires vols != []
  {
    SqrtValue(Div(SumSquares(vols, Mean(vols)), (|vols| - 1) as real), sqrt)
  }

  /** `media !== 0 ? (desvio / media) * 100 : 0`. */
  function Variation(sd: Value, volMean: real): Value {
    if volMean != 0.0 then Percent(DivValue(sd, volMean)) else Num(0.0)
  }

  /** The figures of a point with masses `xs`, nominal volume `nominal` and factor `z`, rounded as stored. */
  function Figures(xs: seq<real>, nominal: real, z: real, sqrt: real -> real): Stats
    requires xs != []
  {
    var vols := Scale(xs, z);
    var volMean := Mean(vols);
    var sd := SampleDeviation(vols, sqrt);
    Stats(
      Num(Round(volMean, 2)),
      Num(Round(Mean(xs), 2)),
      Num(Round(volMean - nominal, 2)),
      RoundValue(Percent(Div(volMean - nominal, nominal)), 2),
      RoundValue(sd, 2),
      RoundValue(Variation(sd, volMean), 2))
  }

  /** `calcularResultados` for one point. */
  function MainResults(p: Point, z: real, sqrt: real -> real): Point {
    var xs := Numbers(Map(p.medicoes, Trim));
    if xs == [] then p.(stats := NullStats)
    else if ParseFloat(p.volumeNominal).None? then p
    else p.(stats := Figures(xs, ParseFloat(p.volumeNominal).value, z, sqrt))
  }

  /** Without a reading that parses, every result is cleared and nothing else changes. */
  lemma MainNoReadings(p: Point, z: real, sqrt: real -> real)
    requires forall i :: 0 <= i < |p.medicoes| ==> !IsNumeric(Trim(p.medicoes[i]))
    ensures MainResults(p, z, sqrt) == p.(stats := NullStats)
  {
    NumbersEmpty(Map(p.medicoes, Trim));
  }

  /** With readings but a nominal volume that is not a number, the point is left as it was. */
  lemma MainBadNominal(p: Point, z: real, sqrt: real -> real)
    requires Numbers(Map(p.medicoes, Trim)) != []
    requires !IsNumeric(p.volumeNominal)
    ensures MainResults(p, z, sqrt) == p
  {
  }

  /**
   * With readings and a numeric nominal volume the point gets the figures
   * of its parsed readings; nothing else about it changes.
   */
  lemma MainComputes(p: Point, z: real, sqrt: real -> real)
    ensures Numbers(Map(p.medicoes, Trim)) != [] && IsNumeric(p.volumeNominal) ==>
      MainResults(p, z, sqrt)
        == p.(stats := Figures(Numbers(Map(p.medicoes, Trim)), ParseFloat(p.volumeNominal).value, z, sqrt))
  {
  }

  /**
   * The mean volume is Z times the mean mass, the inaccuracy is the mean
   * volume less the nominal volume, and its percentage is taken of the
   * nominal volume; each is rounded to two decimals.  A zero mean volume
   * gives a coefficient of variation of 0.
   */
  lemma FiguresSpec(xs: seq<real>, nominal: real, z: real, sqrt: real -> real)
    requires xs != []
    ensures var s := Figures(xs, nominal, z, sqrt);
      && s.mediaMassa == Num(Round(Mean(xs), 2))
      && s.media == Num(Round(z * Mean(xs), 2))
      && s.inexatidao == Num(Round(z * Mean(xs) - nominal, 2))
      && (nominal != 0.0 ==> s.inexatidaoPercentual == Num(Round((z * Mean(xs) - nominal) / nominal * 100.0, 2)))
      && (z * Mean(xs) == 0.0 ==> s.coeficienteVariacao == Num(0.0))
  {
    MeanScale(xs, z);
    RoundSign(0.0, 2);
  }

  /** One volume divides a zero sum of squares by zero: the deviation is NaN. */
  lemma DeviationSingle(v: real, sqrt: real -> real)
    ensures SampleDeviation([v], sqrt) == NaN
  {
    SingleMean(v);
  }

  /** Two or more volumes give the square root of their sample variance, which is not negative. */
  lemma DeviationMany(vols: seq<real>, sqrt: real -> real)
    requires |vols| >= 2
    ensures var variance := SumSquares(vols, Mean(vols)) / ((|vols| - 1) as real);
      variance >= 0.0 && SampleDeviation(vols, sqrt) == Num(sqrt(variance))
  {
    var ss := SumSquares(vols, Mean(vols));
    var n := (|vols| - 1) as real;
    SumSquaresNonNegative(vols, Mean(vols));
    assert ss / n >= 0.0;
  }

  /** A single reading gives a NaN deviation on the main path. */
  lemma MainSingleReading(x: real, nominal: real, z: real, sqrt: real -> real)
    ensures Figures([x], nominal, z, sqrt).desvioPadrao == NaN
  {
    assert Scale([x], z)[0] == x * z;
    assert Scale([x], z) == [x * z];
    DeviationSingle(x * z, sqrt);
  }

  /** With two or more readings the main path stores the rounded sample deviation of the volumes. */
  lemma MainDeviation(xs: seq<real>, nominal: real, z: real, sqrt: real -> real)
    requires |xs| >= 2
    ensures var vols := Scale(xs, z);
      Figures(xs, nominal, z, sqrt).desvioPadrao
        == Num(Round(sqrt(SumSquares(vols, Mean(vols)) / ((|xs| - 1) as real)), 2))
  {
    DeviationMany(Scale(xs, z), sqrt);
  }

  /** Multiplying by a non-negative number keeps the order. */
  lemma MulMonotone(c: real, x: real, y: real)
    requires c >= 0.0 && x <= y
    ensures c * x <= c * y
  {
  }

  /** Multiplying by a positive number keeps the strict order. */
  lemma MulStrict(c: real, x: real, y: real)
    requires c > 0.0 && x < y
    ensures c * x < c * y
  {
  }

  /** A root squared back between two squares lies between their roots. */
  lemma RootBetween(s: real, v: real, lo: real, hi: real)
    requires s >= 0.0 && s * s == v
    requires 0.0 <= lo < hi && lo * lo <= v < hi * hi
    ensures lo <= s < hi
  {
    if s < lo {
      calc {
        v;
        == s * s;
        <= { MulMonotone(s, s, lo); }
        s * lo;
        == lo * s;
        < { MulStrict(lo, s, lo); }
        lo * lo;
      }
    }
    if s >= hi {
      calc {
        hi * hi;
        <= { MulMonotone(hi, hi, s); }
        hi * s;
        == s * hi;
        <= { MulMonotone(s, hi, s); }
        s * s;
        == v;
      }
    }
  }

  /** Sums over two readings. */
  lemma PairSums(a: real, b: real, m: real)
    ensures Sum([a, b]) == a + b
    ensures SumSquares([a, b], m) == (a - m) * (a - m) + (b - m) * (b - m)
  {
    var xs := [a, b];
    assert xs[..1] == [a] && xs[..1][..0] == [];
    assert Sum(xs[..1]) == a;
    assert SumSquares(xs[..1], m) == (a - m) * (a - m);
  }

  /** Rounding to two decimals when the scaled magnitude is within a half of `n`. */
  lemma RoundTwo(x: real, n: nat)
    requires (n as real) - 0.5 <= Abs(x) * 100.0 < (n as real) + 0.5
    ensures Round(x, 2) == if x < 0.0 then -(n as real) / 100.0 else (n as real) / 100.0
  {
    assert Pow10(2) == 100;
    assert ScaledMagnitude(x, 2) == n;
  }

  /**
   * The worked example of the spreadsheet the figures follow: readings of
   * 99.4 and 99.5 mg against 100 µL with Z = 1.0043 give a mean volume of
   * 99.88 µL, a mean mass of 99.45 mg, an inaccuracy of -0.12 µL and
   * -0.12 %, a deviation of 0.07 µL and a coefficient of 0.07 %.
   */
  lemma ReferenceHundred(sqrt: real -> real)
    requires forall v :: v >= 0.0 ==> sqrt(v) >= 0.0 && sqrt(v) * sqrt(v) == v
    ensures Figures([99.4, 99.5], 100.0, 1.0043, sqrt)
      == Stats(Num(99.88), Num(99.45), Num(-0.12), Num(-0.12), Num(0.07), Num(0.07))
  {
    var xs := [99.4, 99.5];
    var vols := Scale(xs, 1.0043);
    assert vols[0] == 99.82742 && vols[1] == 99.92785;
    assert vols == [99.82742, 99.92785];
    PairSums(99.4, 99.5, 0.0);
    PairSums(99.82742, 99.92785, 99.877635);
    assert Mean(vols) == 99.877635;
    DeviationMany(vols, sqrt);
    var sd := sqrt(0.00504309245);
    assert SampleDeviation(vols, sqrt) == Num(sd);
    RootBetween(sd, 0.00504309245, 0.0710, 0.0711);
    RoundTwo(99.877635, 9988);
    RoundTwo(99.45, 9945);
    RoundTwo(99.877635 - 100.0, 12);
    RoundTwo((99.877635 - 100.0) / 100.0 * 100.0, 12);
    RoundTwo(sd, 7);
    RoundTwo(sd / 99.877635 * 100.0, 7);
  }

  /** The same for 495.6 and 495.7 mg against 500 µL: 497.78, 495.65, -2.22, -0.44 %, 0.07 and 0.01 %. */
  lemma ReferenceFiveHundred(sqrt: real -> real)
    requires forall v :: v >= 0.0 ==> sqrt(v) >= 0.0 && sqrt(v) * sqrt(v) == v
    ensures Figures([495.6, 495.7], 500.0, 1.0043, sqrt)
      == Stats(Num(497.78), Num(495.65), Num(-2.22), Num(-0.44), Num(0.07), Num(0.01))
  {
    var xs := [495.6, 495.7];
    var vols := Scale(xs, 1.0043);
    assert vols[0] == 497.73108 && vols[1] == 497.83151;
    assert vols == [497.73108, 497.83151];
    PairSums(495.6, 495.7, 0.0);
    PairSums(497.73108, 497.83151, 497.781295);
    assert Mean(vols) == 497.781295;
    DeviationMany(vols, sqrt);
    var sd := sqrt(0.00504309245);
    assert SampleDeviation(vols, sqrt) == Num(sd);
    RootBetween(sd, 0.00504309245, 0.0710, 0.0711);
    RoundTwo(497.781295, 49778);
    RoundTwo(495.65, 49565);
    RoundTwo(497.781295 - 500.0, 222);
    RoundTwo((497.781295 - 500.0) / 500.0 * 100.0, 44);
    RoundTwo(sd, 7);
    RoundTwo(sd / 497.781295 * 100.0, 1);
  }

  /** The same for 995.5 and 995.3 mg against 1000 µL: 999.68, 995.40, -0.32, -0.03 %, 0.14 and 0.01 %. */
  lemma ReferenceThousand(sqrt: real -> real)
    requires forall v :: v >= 0.0 ==> sqrt(v) >= 0.0 && sqrt(v) * sqrt(v) == v
    ensures Figures([995.5, 995.3], 1000.0, 1.0043, sqrt)
      == Stats(Num(999.68), Num(995.40), Num(-0.32), Num(-0.03), Num(0.14), Num(0.01))
  {
    var xs := [995.5, 995.3];
    var vols := Scale(xs, 1.0043);
    assert vols[0] == 999.78065 && vols[1] == 999.57979;
    assert vols == [999.78065, 999.57979];
    PairSums(995.5, 995.3, 0.0);
    PairSums(999.78065, 999.57979, 999.68022);
    assert Mean(vols) == 999.68022;
    DeviationMany(vols, sqrt);
    var sd := sqrt(0.0201723698);
    assert SampleDeviation(vols, sqrt) == Num(sd);
    RootBetween(sd, 0.0201723698, 0.1420, 0.1421);
    RoundTwo(999.68022, 99968);
    RoundTwo(995.4, 99540);
    RoundTwo(999.68022 - 1000.0, 32);
    RoundTwo((999.68022 - 1000.0) / 1000.0 * 100.0, 3);
    RoundTwo(sd, 14);
    RoundTwo(sd / 999.68022 * 100.0, 1);
  }

  // ---------------------------------------------------------------------------
  // calcularResultadosSeringas
  // ---------------------------------------------------------------------------

  /**
   * The unrounded figures of a syringe point: `calcularMedia` and
   * `calcularDesvioPadrao` convert only when the factor is truthy, a single
   * volume has deviation 0, and the coefficient needs a positive mean.
   */
  function SyringeFigures(xs: seq<real>, nominal: real, z: real, sqrt: real -> real): Stats
    requires xs != []
  {
    var vols := if z != 0.0 then Scale(xs, z) else xs;
    var volMean := Mean(vols);
    var sd := if |vols| <= 1 then 0.0 else sqrt(SumSquares(vols, volMean) / ((|vols| - 1) as real));
    var cv := if volMean > 0.0 then Percent(Div(sd, volMean)) else Num(0.0);
    Stats(Num(volMean), Num(Mean(xs)), Num(volMean - nominal), Percent(Div(volMean - nominal, nominal)), Num(sd), cv)
  }

  /** `calcularResultadosSeringas` for one point; a nominal volume that is not a number counts as 0. */
  function SyringeResults(p: Point, z: real, sqrt: real -> real): Point {
    var xs := Numbers(p.medicoes);
    if xs == [] then p.(stats := NullStats)
    else p.(stats := SyringeFigures(xs, ParseOrZero(p.volumeNominal), z, sqrt))
  }

  /**
   * With a non-zero factor the mean volume is Z times the mean mass, the
   * inaccuracy is taken against the nominal volume, and a single reading has
   * deviation 0.  A zero nominal volume makes the percentage infinite or NaN.
   */
  lemma SyringeFiguresSpec(xs: seq<real>, nominal: real, z: real, sqrt: real -> real)
    requires xs != [] && z != 0.0
    ensures var s := SyringeFigures(xs, nominal, z, sqrt);
      && s.media == Num(z * Mean(xs))
      && s.mediaMassa == Num(Mean(xs))
      && s.inexatidao == Num(z * Mean(xs) - nominal)
      && s.inexatidaoPercentual == Percent(Div(z * Mean(xs) - nominal, nominal))
      && (|xs| == 1 ==> s.desvioPadrao == Num(0.0))
      && (z * Mean(xs) <= 0.0 ==> s.coeficienteVariacao == Num(0.0))
  {
    MeanScale(xs, z);
  }

  /** A syringe point without readings is cleared; with readings, an unparseable nominal volume reads as 0. */
  lemma SyringeResultsSpec(p: Point, z: real, sqrt: real -> real)
    ensures Numbers(p.medicoes) == [] ==> SyringeResults(p, z, sqrt) == p.(stats := NullStats)
    ensures Numbers(p.medicoes) != [] && !IsNumeric(p.volumeNominal) ==>
      SyringeResults(p, z, sqrt) == p.(stats := SyringeFigures(Numbers(p.medicoes), 0.0, z, sqrt))
  {
  }

  // ---------------------------------------------------------------------------
  // handleVolumeNominalChange
  // ---------------------------------------------------------------------------

  /** The nominal volume as typed: blank, not a number, or a volume. */
  datatype Nominal = Blank | NotANumber | Volume(v: real)

  function ReadNominal(formatted: string): (n: Nominal)
    ensures n == Blank <==> formatted == ""
    ensures n.Volume? <==> formatted != "" && IsNumeric(formatted)
  {
    if formatted == "" then Blank
    else if ParseFloat(formatted).None? then NotANumber
    else Volume(ParseFloat(formatted).value)
  }

  /**
   * The figures recomputed when the nominal volume is edited: the
   * inaccuracy is `null` for a blank nominal volume, and the deviation and
   * coefficient are `null` unless there are two readings or more.
   */
  function VolumeFigures(xs: seq<real>, nominal: Nominal, z: real, sqrt: real -> real): Stats
    requires xs != []
  {
    var vols := Scale(xs, z);
    var volMean := Mean(vols);
    var inex: Value :=
      match nominal
      case Blank => Null
      case NotANumber => NaN
      case Volume(n) => Num(volMean - n);
    var pct: Value :=
      match nominal
      case Blank => Null
      case NotANumber => NaN
      case Volume(n) => Percent(Div(volMean - n, n));
    var sd: Value :=
      if |vols| > 1 then Num(sqrt(SumSquares(vols, volMean) / ((|vols| - 1) as real))) else Null;
    var cv: Value :=
      if |vols| > 1 then Variation(sd, volMean) else Null;
    Stats(Num(Round(volMean, 2)), Num(Round(Mean(xs), 2)), RoundValue(inex, 2), RoundValue(pct, 2),
      RoundValue(sd, 2), RoundValue(cv, 2))
  }

  /** The results of the edited point for readings `ms` and the new nominal volume. */
  function VolumeChangeStats(ms: seq<string>, formatted: string, z: real, sqrt: real -> real): Stats {
    var xs := Numbers(ms);
    if xs == [] then NullStats else VolumeFigures(xs, ReadNominal(formatted), z, sqrt)
  }

  /**
   * On this path the mean volume is still Z times the mean mass, but a
   * single reading leaves the deviation and the coefficient `null`, and a
   * blank nominal volume leaves the inaccuracy `null`.
   */
  lemma VolumeFiguresSpec(xs: seq<real>, nominal: Nominal, z: real, sqrt: real -> real)
    requires xs != []
    ensures var s := VolumeFigures(xs, nominal, z, sqrt);
      && s.media == Num(Round(z * Mean(xs), 2))
      && s.mediaMassa == Num(Round(Mean(xs), 2))
      && (|xs| == 1 <==> s.desvioPadrao == Null)
      && (|xs| == 1 <==> s.coeficienteVariacao == Null)
      && (nominal == Blank <==> s.inexatidao == Null)
      && (nominal.Volume? ==> s.inexatidao == Num(Round(z * Mean(xs) - nominal.v, 2)))
  {
    MeanScale(xs, z);
  }

  /** The three paths disagree on the deviation of a single reading: NaN, 0 and `null`. */
  lemma SingleReadingPaths(x: real, nominal: real, z: real, sqrt: real -> real)
    requires z != 0.0
    ensures Figures([x], nominal, z, sqrt).desvioPadrao == NaN
    ensures SyringeFigures([x], nominal, z, sqrt).desvioPadrao == Num(0.0)
    ensures VolumeFigures([x], Volume(nominal), z, sqrt).desvioPadrao == Null
  {
    MainSingleReading(x, nominal, z, sqrt);
    SyringeFiguresSpec([x], nominal, z, sqrt);
    VolumeFiguresSpec([x], Volume(nominal), z, sqrt);
  }

  /** A follower takes the new nominal volume, and new figures only when it has readings. */
  function Follow(q: Point, formatted: string, z: real, sqrt: real -> real): Point {
    q.(volumeNominal := formatted,
       stats := if Numbers(q.medicoes) != [] then VolumeChangeStats(q.medicoes, formatted, z, sqrt) else q.stats)
  }

  /**
   * `handleVolumeNominalChange` on a form: the edited point takes the new
   * nominal volume and fresh figures; on a multichannel form, editing a
   * channel 1 point also updates the points of the other channels at the
   * same position.
   */
  function VolumeChange(f: Form, id: int, formatted: string, z: real, sqrt: real -> real): seq<Point> {
    var k := FindPoint(f.points, id);
    var sync := f.kind == Multicanal && k.Some? && CanalOf(f.points[k.value]) == Some(1);
    var pos := if k.Some? then PositionOf(f.points[k.value]) else None;
    Map(f.points, (q: Point) =>
      if q.id == id then q.(volumeNominal := formatted, stats := VolumeChangeStats(q.medicoes, formatted, z, sqrt))
      else if sync && FollowsChannel1(q, pos) then Follow(q, formatted, z, sqrt)
      else q)
  }

  /**
   * After editing the nominal volume of a channel 1 point of a multichannel
   * form, the points of the other channels at its position carry the new
   * nominal volume and keep their readings; every other point except the
   * edited one is untouched.
   */
  lemma VolumeChangeSyncsChannels(f: Form, id: int, formatted: string, z: real, sqrt: real -> real, k: nat)
    requires f.kind == Multicanal
    requires FindPoint(f.points, id) == Some(k) && CanalOf(f.points[k]) == Some(1)
    ensures var r := VolumeChange(f, id, formatted, z, sqrt);
      && |r| == |f.points|
      && r[k].volumeNominal == formatted
      && (forall i :: 0 <= i < |r| && FollowsChannel1(f.points[i], PositionOf(f.points[k])) ==>
            r[i].volumeNominal == formatted && r[i].medicoes == f.points[i].medicoes)
      && (forall i :: 0 <= i < |r| && !FollowsChannel1(f.points[i], PositionOf(f.points[k])) && f.points[i].id != id ==>
            r[i] == f.points[i])
  {
  }

  /** On a single channel form, or when the edited point is not on channel 1, only the edited point changes. */
  lemma VolumeChangeLocal(f: Form, id: int, formatted: string, z: real, sqrt: real -> real)
    requires f.kind == Monocanal || FindPoint(f.points, id).None? || CanalOf(f.points[FindPoint(f.points, id).value]) != Some(1)
    ensures var r := VolumeChange(f, id, formatted, z, sqrt);
      && |r| == |f.points|
      && forall i :: 0 <= i < |r| ==>
        r[i] == if f.points[i].id == id
          then f.points[i].(volumeNominal := formatted, stats := VolumeChangeStats(f.points[i].medicoes, formatted, z, sqrt))
          else f.points[i]
  {
  }
}
