/**
 * The form's automation: readings typed on one point are used to invent
 * plausible readings elsewhere.
 *
 *  - On a single channel pipette, typing five readings followed by a comma
 *    makes the form generate five more, each close to one of the five and
 *    (as far as 51 random draws allow) different from all of them.
 *  - On a multichannel pipette, the readings typed on channel 1 are copied,
 *    each moved by a small random amount, to every other channel at the
 *    same position; the same happens after the assistant fills channel 1.
 *
 * `Math.random()` is a parameter: a function from the draw number to a real
 * in [0, 1).
 */
module AutoFill {
  import opened Wrappers
  import opened JsText
  import opened JsNumber
  import opened Readings
  import opened Draft

  // ---------------------------------------------------------------------------
  // gerarValoresProximos
  // ---------------------------------------------------------------------------

  /** The spread around a value: 0.15, or 0.075 % of the value above 100. */
  function Spread(n: real): (s: real)
    ensures s > 0.0 || n < 0.0
  {
    if n > 100.0 then NearVariation * (n / 200.0) else NearVariation
  }

  /** The decimals the new value keeps: the characters after the first point of the base text, or 1. */
  function DecimalsOf(v: string): nat {
    if HasChar(v, '.') then SplitAtSeparator(v, '.'); |Split(v, '.')[1]| else 1
  }

  function MaxZero(x: real): real {
    if x < 0.0 then 0.0 else x
  }

  /** The default `variacao` of `gerarValoresProximos`, the only one the form uses. */
  const NearVariation: real := 0.15

  /** The new number: the base moved by up to the spread either way, and never below zero. */
  function NearNumber(n: real, r: real): real {
    MaxZero(n + (r - 0.5) * 2.0 * Spread(n))
  }

  /** `gerarValoresProximos(v)` with `Math.random()` returning `r`. */
  function NearValue(v: string, r: real): string {
    var n := ParseFloat(v);
    if n.None? then v else FormatFixed(NearNumber(n.value, r), DecimalsOf(v))
  }

  /** Text that is not a number comes back unchanged. */
  lemma NearValueText(v: string, r: real)
    requires !IsNumeric(v)
    ensures NearValue(v, r) == v
  {
  }

  /** A random factor in [-1, 1) moves a value by at most the spread. */
  lemma NoiseBound(t: real, s: real)
    requires -1.0 <= t <= 1.0 && s >= 0.0
    ensures -s <= t * s <= s
  {
    if t >= 0.0 {
      assert t * s <= 1.0 * s by { MulLeft(s, t, 1.0); }
    } else {
      assert -1.0 * s <= t * s by { MulLeft(s, -1.0, t); }
    }
  }

  lemma MulLeft(c: real, x: real, y: real)
    requires c >= 0.0 && x <= y
    ensures x * c <= y * c
  {
  }

  /** Writing a non-negative value near `n` with `d` decimals gives text that reads back near `n` and not negative. */
  lemma FixedClose(w: real, n: real, s: real, d: nat)
    requires w >= 0.0 && Abs(w - n) <= s
    ensures var back := ParseFloat(FormatFixed(w, d));
      back.Some? && back.value >= 0.0 && Abs(back.value - n) <= s + 0.5 / (Pow10(d) as real)
  {
    FormatFixedRoundTrip(w, d);
    RoundError(w, d);
    RoundSign(w, d);
  }

  /** The new number of a non-negative base is not negative and within the spread of the base. */
  lemma NearNumberClose(n: real, r: real)
    requires n >= 0.0 && 0.0 <= r < 1.0
    ensures NearNumber(n, r) >= 0.0 && Abs(NearNumber(n, r) - n) <= Spread(n)
  {
    var s := Spread(n);
    var t := (r - 0.5) * 2.0;
    NoiseBound(t, s);
  }

  /**
   * The new value of a non-negative reading is a number, not negative, and
   * within the spread of the reading, give or take the rounding to the
   * decimals kept.
   */
  lemma NearValueClose(v: string, r: real)
    requires 0.0 <= r < 1.0
    requires IsNumeric(v) && ParseFloat(v).value >= 0.0
    ensures var n := ParseFloat(v).value;
      && ParseFloat(NearValue(v, r)).Some?
      && ParseFloat(NearValue(v, r)).value >= 0.0
      && Abs(ParseFloat(NearValue(v, r)).value - n) <= Spread(n) + 0.5 / (Pow10(DecimalsOf(v)) as real)
  {
    var n := ParseFloat(v).value;
    NearNumberClose(n, r);
    FixedClose(NearNumber(n, r), n, Spread(n), DecimalsOf(v));
  }

  // ---------------------------------------------------------------------------
  // gerarValoresSemelhantesMonocanal
  // ---------------------------------------------------------------------------

  /** Draws spent on one new value before it is taken without checks. */
  const AttemptLimit: nat := 50

  /** The default `limite` of `gerarValoresSemelhantesMonocanal`, the only one the form uses. */
  const SimilarLimit: real := 0.03

  /** The random move of a candidate: up to the limit either way. */
  function Variation(r: real): real {
    (r - 0.5) * 2.0 * SimilarLimit
  }

  /**
   * `parseFloat((valor + variacao).toFixed(2))`, written as the rounding it
   * amounts to (see `CandidateIsRoundTrip`); a `NaN` base stays `NaN`.
   */
  function Candidate(valor: Option<real>, r: real): Option<real> {
    if valor.None? then None else Some(Round(valor.value + Variation(r), 2))
  }

  /** The candidate is exactly what writing the moved value with two decimals and reading it back gives. */
  lemma CandidateIsRoundTrip(valor: real, r: real)
    ensures Candidate(Some(valor), r) == RoundTrip(valor + (r - 0.5) * 2.0 * SimilarLimit, 2)
  {
    RoundTripIsRound(valor + Variation(r), 2);
  }

  /** A numeric candidate is within the limit of its base, plus half a cent of rounding, and has two decimals. */
  lemma CandidateClose(valor: real, r: real)
    requires 0.0 <= r < 1.0
    ensures var c := Candidate(Some(valor), r);
      && c.Some?
      && Abs(c.value - valor) <= SimilarLimit + 0.005
      && Round(c.value, 2) == c.value
  {
    var x := valor + Variation(r);
    RoundError(x, 2);
    RoundIdempotent(x, 2);
    assert Pow10(2) == 100;
  }

  /**
   * The loop condition of the do-while: the candidate is already generated,
   * equals an original (`includes` matches `NaN` with `NaN`), or is not
   * positive.
   */
  predicate Rejected(cand: Option<real>, generated: seq<real>, originals: seq<Option<real>>) {
    cand in originals || (cand.Some? && (cand.value in generated || cand.value <= 0.0))
  }

  /** A value that is positive, has two decimals and is within the limit of some numeric original. */
  predicate CloseToOriginal(x: real, valores: seq<string>) {
    && x > 0.0
    && Round(x, 2) == x
    && exists j :: 0 <= j < |valores| && ParseFloat(valores[j]).Some?
         && Abs(x - ParseFloat(valores[j]).value) <= SimilarLimit + 0.005
  }

  /** Every value is close to an original. */
  predicate AllClose(generated: seq<real>, valores: seq<string>) {
    forall i :: 0 <= i < |generated| ==> CloseToOriginal(generated[i], valores)
  }

  /** Values that differ from each other and from every original. */
  predicate AllFresh(generated: seq<real>, originals: seq<Option<real>>) {
    && (forall a, b :: 0 <= a < b < |generated| ==> generated[a] != generated[b])
    && (forall a :: 0 <= a < |generated| ==> Some(generated[a]) !in originals)
  }

  /**
   * One run of the do-while: draws until the candidate is accepted or the
   * 51st draw is spent, in which case the last candidate is kept unchecked.
   */
  method Attempts(valor: Option<real>, generated: seq<real>, originals: seq<Option<real>>,
                  rand: nat -> real, start: nat)
    returns (cand: Option<real>, used: nat, capped: bool)
    ensures 1 <= used <= AttemptLimit + 1
    ensures cand == Candidate(valor, rand(start + used - 1))
    ensures capped <==> used == AttemptLimit + 1
    ensures !capped ==> !Rejected(cand, generated, originals)
  {
    used := 0;
    cand := None;
    capped := false;
    while true
      invariant used <= AttemptLimit
      decreases AttemptLimit - used
    {
      cand := Candidate(valor, rand(start + used));
      used := used + 1;
      if used > AttemptLimit {
        capped := true;
        return;
      }
      if !Rejected(cand, generated, originals) {
        return;
      }
    }
  }

  /** `Math.ceil(a / b)`. */
  function CeilDiv(a: nat, b: nat): (q: nat)
    requires b > 0
    ensures q * b >= a && (q == 0 || (q - 1) * b < a)
  {
    (a + b - 1) / b
  }

  /**
   * One pass of the inner loop for the original at index `j`: the do-while,
   * then the push when the value is positive.  Unless the draws ran out,
   * exactly one fresh value is added.
   */
  method Draw(valores: seq<string>, j: nat, generated: seq<real>, rand: nat -> real, draws: nat)
    returns (next: seq<real>, used: nat, capped: bool)
    requires j < |valores|
    requires forall k :: 0.0 <= rand(k) < 1.0
    requires AllClose(generated, valores)
    ensures AllClose(next, valores)
    ensures next == generated || (|next| == |generated| + 1 && next[..|generated|] == generated)
    ensures !capped ==> |next| == |generated| + 1
    ensures !capped && AllFresh(generated, Map(valores, ParseFloat)) ==> AllFresh(next, Map(valores, ParseFloat))
  {
    var originals := Map(valores, ParseFloat);
    var cand;
    cand, used, capped := Attempts(originals[j], generated, originals, rand, draws);
    next := generated;
    if cand.Some? && cand.value > 0.0 {
      CandidateClose(originals[j].value, rand(draws + used - 1));
      assert CloseToOriginal(cand.value, valores);
      next := generated + [cand.value];
      assert next[..|generated|] == generated;
    }
  }

  /**
   * The inner loop for the original at index `j`: up to `perValue` passes,
   * stopping once `num` values exist.  Unless the draws ran out, every pass
   * adds one fresh value.
   */
  method ForOriginal(valores: seq<string>, j: nat, perValue: nat, num: nat, generated: seq<real>,
                     rand: nat -> real, draws: nat)
    returns (next: seq<real>, capped: bool, drawn: nat, done: bool)
    requires j < |valores|
    requires forall k :: 0.0 <= rand(k) < 1.0
    requires AllClose(generated, valores) && |generated| < num
    ensures AllClose(next, valores)
    ensures done <==> |next| >= num
    ensures !capped ==> !done ==> |next| == |generated| + perValue
    ensures !capped && AllFresh(generated, Map(valores, ParseFloat)) ==> AllFresh(next, Map(valores, ParseFloat))
  {
    next := generated;
    capped := false;
    drawn := draws;
    done := false;
    var i := 0;
    while i < perValue && !done
      invariant 0 <= i <= perValue
      invariant AllClose(next, valores)
      invariant done <==> |next| >= num
      invariant !capped ==> |next| == |generated| + i
      invariant !capped && AllFresh(generated, Map(valores, ParseFloat)) ==> AllFresh(next, Map(valores, ParseFloat))
    {
      var used, hit;
      next, used, hit := Draw(valores, j, next, rand, drawn);
      drawn := drawn + used;
      capped := capped || hit;
      done := |next| >= num;
      i := i + 1;
    }
  }

  lemma MulStep(a: nat, b: nat)
    ensures (a + 1) * b == a * b + b
  {
  }

  /**
   * The outer loop over the originals: `perValue` values for each, stopping
   * once `num` exist.  Unless the draws ran out, `num` values or more are
   * made when there is an original.
   */
  method Generate(valores: seq<string>, num: nat, rand: nat -> real)
    returns (generated: seq<real>, capped: bool)
    requires forall k :: 0.0 <= rand(k) < 1.0
    ensures AllClose(generated, valores)
    ensures !capped ==> AllFresh(generated, Map(valores, ParseFloat))
    ensures !capped && valores != [] ==> |generated| >= num
  {
    var perValue := if |valores| == 0 then 0 else CeilDiv(num, |valores|);
    generated := [];
    capped := false;
    var draws: nat := 0;
    var j := 0;
    var done := num == 0;
    while j < |valores| && !done
      invariant 0 <= j <= |valores|
      invariant AllClose(generated, valores)
      invariant !capped ==> AllFresh(generated, Map(valores, ParseFloat))
      invariant done <==> |generated| >= num
      invariant !capped && !done ==> |generated| == j * perValue
    {
      var hit;
      generated, hit, draws, done := ForOriginal(valores, j, perValue, num, generated, rand, draws);
      capped := capped || hit;
      MulStep(j, perValue);
      j := j + 1;
    }
  }

  /**
   * `gerarValoresSemelhantesMonocanal(valores, num)`: up to `num` positive
   * two-decimal values, each within the limit of a numeric original.
   * `capped` tells whether some value was taken after the 51st draw without
   * the uniqueness check; when none was, the values are all different, none
   * equals an original, and exactly `num` are produced.
   */
  method SimilarValues(valores: seq<string>, num: nat, rand: nat -> real)
    returns (values: seq<real>, capped: bool)
    requires forall k :: 0.0 <= rand(k) < 1.0
    ensures |values| <= num
    ensures AllClose(values, valores)
    ensures !capped ==> AllFresh(values, Map(valores, ParseFloat))
    ensures !capped && valores != [] ==> |values| == num
  {
    var generated;
    generated, capped := Generate(valores, num, rand);
    values := if |generated| <= num then generated else generated[..num];
    assert forall i :: 0 <= i < |values| ==> values[i] == generated[i];
  }

  // ---------------------------------------------------------------------------
  // handleValoresChange
  // ---------------------------------------------------------------------------

  /** `valores.trimEnd().endsWith(",")`. */
  predicate EndsWithComma(valores: string) {
    var t := TrimEnd(valores);
    t != [] && t[|t| - 1] == ','
  }

  /** The single channel shortcut: five readings typed, a trailing comma, and the automation switched on. */
  predicate MonoShortcut(kind: InstrumentType, valores: string, automation: bool) {
    kind == Monocanal && |MainTokens(valores)| == 5 && EndsWithComma(valores) && automation
  }

  /** The five typed readings followed by the generated ones, written with `toString`. */
  function MonoFill(tokens: seq<string>, generated: seq<real>): Point -> Point {
    (p: Point) =>
      var medicoes := Slots(tokens + Map(generated, ShortString));
      p.(medicoes := medicoes, valoresTexto := Join(Filter(medicoes, NonEmpty), ", "))
  }

  /** The ordinary path: the typed readings and the text exactly as typed. */
  function TypedFill(valores: string): Point -> Point {
    (p: Point) => p.(medicoes := MainReadings(valores), valoresTexto := valores)
  }

  /** The main parser never yields an empty token. */
  lemma MainTokensNonEmpty(valores: string)
    ensures forall k :: 0 <= k < |MainTokens(valores)| ==> MainTokens(valores)[k] != ""
  {
  }

  /** The short text of a number is never empty: it reads back as a number. */
  lemma ShortStringNonEmpty(x: real)
    ensures ShortString(x) != ""
  {
    ShortStringRoundTrip(x);
    assert LeadingDigits("") == "";
  }

  /**
   * The shortcut keeps the five typed readings, stores the generated values
   * after them as text that reads back as the same values, leaves the
   * remaining slots empty, and shows all of them joined by ", ".
   */
  lemma MonoFillSpec(p: Point, valores: string, generated: seq<real>)
    requires |MainTokens(valores)| == 5 && |generated| <= 5
    requires forall k :: 0 <= k < |generated| ==> Round(generated[k], 2) == generated[k]
    ensures var tokens := MainTokens(valores);
      var q := MonoFill(tokens, generated)(p);
      && |q.medicoes| == SlotCount
      && q.medicoes[..5] == tokens
      && (forall k :: 0 <= k < |generated| ==> ParseFloat(q.medicoes[5 + k]) == Some(generated[k]))
      && (forall k :: 5 + |generated| <= k < SlotCount ==> q.medicoes[k] == "")
      && q.valoresTexto == Join(tokens + Map(generated, ShortString), ", ")
      && q.(medicoes := p.medicoes, valoresTexto := p.valoresTexto) == p
  {
    var tokens := MainTokens(valores);
    var all := tokens + Map(generated, ShortString);
    var medicoes := Slots(all);
    assert |all| <= SlotCount;
    assert medicoes[..|all|] == all;
    assert medicoes[..5] == all[..5] == tokens;
    forall k | 0 <= k < |generated|
      ensures ParseFloat(medicoes[5 + k]) == Some(generated[k])
    {
      assert medicoes[5 + k] == all[5 + k] == ShortString(generated[k]);
      ShortStringRoundTrip(generated[k]);
    }
    MainTokensNonEmpty(valores);
    forall k | 0 <= k < |all|
      ensures all[k] != ""
    {
      if k >= 5 {
        ShortStringNonEmpty(generated[k - 5]);
      }
    }
    SlotsPacked(all);
    assert all[..|all|] == all;
  }

  /** The new readings for the other channels: one per typed reading, the first ten only. */
  function NearValues(tokens: seq<string>, noise: nat -> real): (r: seq<string>)
    ensures |r| == |tokens| && forall k :: 0 <= k < |tokens| ==> r[k] == NearValue(tokens[k], noise(k))
  {
    seq(|tokens|, k requires 0 <= k < |tokens| => NearValue(tokens[k], noise(k)))
  }

  /** The readings and text a follower point receives for the typed tokens. */
  function NearFill(q: Point, tokens: seq<string>, noise: nat -> real): Point {
    var m := if |tokens| < SlotCount then |tokens| else SlotCount;
    var near := NearValues(tokens[..m], noise);
    q.(medicoes := Slots(near), valoresTexto := Join(Filter(near, NonEmpty), ", "))
  }

  /** The random draws of the `i`-th point, one per token. */
  function Row(noise: (nat, nat) -> real, i: nat): nat -> real {
    (k: nat) => noise(i, k)
  }

  /** The propagation from channel 1: every point off channel 1 at position `pos` gets near values. */
  function PropagateChannel1(points: seq<Point>, pos: Option<nat>, tokens: seq<string>, noise: (nat, nat) -> real)
    : (r: seq<Point>)
    ensures |r| == |points|
    ensures forall i :: 0 <= i < |points| ==>
      r[i] == if FollowsChannel1(points[i], pos) then NearFill(points[i], tokens, Row(noise, i)) else points[i]
  {
    seq(|points|, i requires 0 <= i < |points| =>
      if FollowsChannel1(points[i], pos) then NearFill(points[i], tokens, Row(noise, i)) else points[i])
  }

  /**
   * A follower's reading `k` is the near value of token `k`, and reads back
   * within the spread of a non-negative numeric token; its slots past the
   * tokens are empty and nothing but the readings and their text changes.
   */
  lemma NearFillSpec(q: Point, tokens: seq<string>, noise: nat -> real)
    requires forall k :: 0.0 <= noise(k) < 1.0
    ensures var r := NearFill(q, tokens, noise);
      var m := if |tokens| < SlotCount then |tokens| else SlotCount;
      && |r.medicoes| == SlotCount
      && (forall k :: 0 <= k < m ==> r.medicoes[k] == NearValue(tokens[k], noise(k)))
      && (forall k :: 0 <= k < m && IsNumeric(tokens[k]) && ParseFloat(tokens[k]).value >= 0.0 ==>
            ParseFloat(r.medicoes[k]).Some?
            && Abs(ParseFloat(r.medicoes[k]).value - ParseFloat(tokens[k]).value)
              <= Spread(ParseFloat(tokens[k]).value) + 0.5 / (Pow10(DecimalsOf(tokens[k])) as real))
      && (forall k :: m <= k < SlotCount ==> r.medicoes[k] == "")
      && r.(medicoes := q.medicoes, valoresTexto := q.valoresTexto) == q
  {
    var m := if |tokens| < SlotCount then |tokens| else SlotCount;
    var near := NearValues(tokens[..m], noise);
    var r := NearFill(q, tokens, noise);
    forall k | 0 <= k < m
      ensures r.medicoes[k] == NearValue(tokens[k], noise(k))
    {
      assert r.medicoes[..m][k] == near[k];
    }
    forall k | 0 <= k < m && IsNumeric(tokens[k]) && ParseFloat(tokens[k]).value >= 0.0
      ensures ParseFloat(r.medicoes[k]).Some?
      ensures Abs(ParseFloat(r.medicoes[k]).value - ParseFloat(tokens[k]).value)
        <= Spread(ParseFloat(tokens[k]).value) + 0.5 / (Pow10(DecimalsOf(tokens[k])) as real)
    {
      assert r.medicoes[..m][k] == near[k];
      NearValueClose(tokens[k], noise(k));
    }
  }

  /**
   * `handleValoresChange(id, valores)` on a form.  `generated` is what the
   * single channel shortcut produced (empty otherwise).
   */
  method ChangeValues(f: Form, id: int, valores: string, automation: bool,
                      rand: nat -> real, noise: (nat, nat) -> real)
    returns (points: seq<Point>, generated: seq<real>)
    requires forall k :: 0.0 <= rand(k) < 1.0
    ensures MonoShortcut(f.kind, valores, automation) ==>
      && points == UpdatePoint(f.points, id, MonoFill(MainTokens(valores), generated))
      && |generated| <= 5 && AllClose(generated, MainTokens(valores))
    ensures !MonoShortcut(f.kind, valores, automation) ==>
      var typed := UpdatePoint(f.points, id, TypedFill(valores));
      var k := FindPoint(f.points, id);
      points ==
        if f.kind == Multicanal && k.Some? && CanalOf(f.points[k.value]) == Some(1)
          && MainTokens(valores) != [] && automation
        then PropagateChannel1(typed, PositionOf(f.points[k.value]), MainTokens(valores), noise)
        else typed
  {
    var tokens := MainTokens(valores);
    if MonoShortcut(f.kind, valores, automation) {
      var capped;
      generated, capped := SimilarValues(tokens, 5, rand);
      points := UpdatePoint(f.points, id, MonoFill(tokens, generated));
      return;
    }
    generated := [];
    points := UpdatePoint(f.points, id, TypedFill(valores));
    var k := FindPoint(f.points, id);
    if f.kind == Multicanal && k.Some? && CanalOf(f.points[k.value]) == Some(1) && tokens != [] && automation {
      points := PropagateChannel1(points, PositionOf(f.points[k.value]), tokens, noise);
    }
  }

  /**
   * After a multichannel edit of channel 1, the edited point keeps the text
   * as typed, every follower holds one near value per typed reading, and
   * every other point is as it was.
   */
  lemma ChannelPropagationSpec(f: Form, id: int, valores: string, noise: (nat, nat) -> real, k: nat)
    requires f.kind == Multicanal && FindPoint(f.points, id) == Some(k) && CanalOf(f.points[k]) == Some(1)
    requires MainTokens(valores) != []
    ensures var tokens := MainTokens(valores);
      var r := PropagateChannel1(UpdatePoint(f.points, id, TypedFill(valores)), PositionOf(f.points[k]), tokens, noise);
      && |r| == |f.points|
      && r[k] == f.points[k].(medicoes := MainReadings(valores), valoresTexto := valores)
      && (forall i :: 0 <= i < |r| && FollowsChannel1(f.points[i], PositionOf(f.points[k])) ==>
            r[i] == NearFill(f.points[i], tokens, Row(noise, i)))
      && (forall i :: 0 <= i < |r| && !FollowsChannel1(f.points[i], PositionOf(f.points[k])) && f.points[i].id != id ==>
            r[i] == f.points[i])
  {
  }

  // ---------------------------------------------------------------------------
  // triggerAutomacaoParaIA
  // ---------------------------------------------------------------------------

  /** The first channel 1 point at position `pos`, like `Array.prototype.find`. */
  function MasterOf(points: seq<Point>, pos: Option<nat>): (r: Option<nat>)
    ensures r.Some? ==> r.value < |points| && CanalOf(points[r.value]) == Some(1) && PositionOf(points[r.value]) == pos
    ensures r.Some? ==> forall j :: 0 <= j < r.value ==> !(CanalOf(points[j]) == Some(1) && PositionOf(points[j]) == pos)
    ensures r.None? ==> forall j :: 0 <= j < |points| ==> !(CanalOf(points[j]) == Some(1) && PositionOf(points[j]) == pos)
  {
    if points == [] then None
    else if CanalOf(points[0]) == Some(1) && PositionOf(points[0]) == pos then Some(0)
    else
      var r := MasterOf(points[1..], pos);
      if r.Some? then Some(r.value + 1) else None
  }

  /** What the point at index `i` becomes after the assistant has filled channel 1. */
  function AssistantFollow(points: seq<Point>, i: nat, noise: (nat, nat) -> real): Point
    requires i < |points|
  {
    var q := points[i];
    if CanalOf(q) == Some(1) then q
    else
      var m := MasterOf(points, PositionOf(q));
      if m.None? || points[m.value].valoresTexto == "" then q
      else
        var tokens := MasterTokens(points[m.value].valoresTexto);
        if tokens == [] then q
        else NearFill(q, tokens, Row(noise, i)).(volumeNominal := points[m.value].volumeNominal)
  }

  /** `triggerAutomacaoParaIA`: every point off channel 1 follows its channel 1 point. */
  function AssistantPropagate(points: seq<Point>, noise: (nat, nat) -> real): (r: seq<Point>)
    ensures |r| == |points| && forall i :: 0 <= i < |points| ==> r[i] == AssistantFollow(points, i, noise)
  {
    seq(|points|, i requires 0 <= i < |points| => AssistantFollow(points, i, noise))
  }

  /**
   * After the assistant's propagation the channel 1 points are untouched; a
   * point whose channel 1 point has numeric readings takes that point's
   * nominal volume and near values of its numeric readings; a point without
   * such a channel 1 point is untouched.
   */
  lemma AssistantPropagateSpec(points: seq<Point>, noise: (nat, nat) -> real, i: nat)
    requires i < |points|
    ensures var r := AssistantPropagate(points, noise);
      var m := MasterOf(points, PositionOf(points[i]));
      && (CanalOf(points[i]) == Some(1) ==> r[i] == points[i])
      && (CanalOf(points[i]) != Some(1) && m.Some? && MasterTokens(points[m.value].valoresTexto) != [] ==>
            r[i] == NearFill(points[i], MasterTokens(points[m.value].valoresTexto), Row(noise, i))
              .(volumeNominal := points[m.value].volumeNominal))
      && (m.None? ==> r[i] == points[i])
  {
    var m := MasterOf(points, PositionOf(points[i]));
    if m.Some? && points[m.value].valoresTexto == "" {
      assert Split("", ',') == [""];
      assert Map([""], Trim) == [""];
      assert MasterTokens("") == [];
    }
  }

  /** A plain point, with no position, has no channel 1 point and is never touched. */
  lemma AssistantSkipsPlain(points: seq<Point>, noise: (nat, nat) -> real, i: nat)
    requires i < |points| && !points[i].tag.Channel?
    ensures AssistantPropagate(points, noise)[i] == points[i]
  {
  }
}
