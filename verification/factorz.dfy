/**
 * The Z correction factor (water density and air buoyancy) applied to weighed
 * masses, looked up by bench temperature, and the ±0.5 °C temperature stepper
 * of the calibration form.  Factors are integers in units of 1/10000, so the
 * factor 1.0029 is 10029.
 */
module CorrectionFactor {
  import opened Wrappers
  import opened JsText
  import opened JsNumber

  /** The factors for 15.0 °C, 15.5 °C, ..., 30.0 °C, in that order. */
  const ZValues: seq<nat> := [
    10020, 10020, 10021, 10022, 10023, 10024, 10025, 10026, 10027, 10028,
    10029, 10030, 10031, 10032, 10033, 10034, 10035, 10036, 10038, 10039,
    10040, 10041, 10043, 10044, 10045, 10047, 10048, 10050, 10051, 10052,
    10054]

  /** Number of half-degree steps in the table. */
  const Steps: nat := 31

  /** The factor used when the temperature is not in the table: the entry for 20.0 °C. */
  const DefaultFactor: nat := 10029

  /** The temperature of step `i`, in tenths of a degree: 150, 155, ..., 300. */
  function StepTenths(i: nat): nat {
    150 + 5 * i
  }

  /** The table key of step `i`: its temperature written with one decimal, `(15 + i/2).toFixed(1)`. */
  function StepKey(i: nat): string {
    FormatScaled(false, StepTenths(i), 1)
  }

  /** A scaled magnitude with one decimal stands for a tenth of it. */
  lemma UnscaleTenths(negative: bool, n: nat)
    ensures Unscale(negative, n, 1) == (if negative then -(n as real) / 10.0 else (n as real) / 10.0)
  {
    assert Pow10(1) == 10;
  }

  /** A one-decimal text reads back as a tenth of its scaled magnitude. */
  lemma ParseTenths(n: nat)
    ensures ParseFloat(FormatScaled(false, n, 1)) == Some((n as real) / 10.0)
  {
    FormatScaledValue(false, n, 1);
    UnscaleTenths(false, n);
  }

  /** Reading a step key back gives the step's temperature. */
  lemma ParseStepKey(i: nat)
    ensures ParseFloat(StepKey(i)) == Some((StepTenths(i) as real) / 10.0)
  {
    ParseTenths(StepTenths(i));
  }

  /** Different steps have different keys. */
  lemma StepKeyInjective(i: nat, j: nat)
    requires StepKey(i) == StepKey(j)
    ensures i == j
  {
    ParseStepKey(i);
    ParseStepKey(j);
  }

  /** Text the stepper can hold: the one-decimal rendering of a table temperature. */
  ghost predicate IsStepKey(s: string) {
    exists i :: 0 <= i < Steps && s == StepKey(i)
  }

  /**
   * The table as the page keys it: the one-decimal text of each half-degree
   * temperature from 15.0 to 30.0, mapped to its factor.
   */
  function ZTable(): (t: map<string, nat>)
    ensures forall i :: 0 <= i < Steps ==> StepKey(i) in t && t[StepKey(i)] == ZValues[i]
  {
    StepKeysDistinct();
    map i | 0 <= i < Steps :: StepKey(i) := ZValues[i]
  }

  lemma StepKeysDistinct()
    ensures forall i, j :: 0 <= i < Steps && 0 <= j < Steps && StepKey(i) == StepKey(j) ==> i == j
  {
    forall i, j | 0 <= i < Steps && 0 <= j < Steps && StepKey(i) == StepKey(j)
      ensures i == j
    {
      StepKeyInjective(i, j);
    }
  }

  /** The first, the default and the last key are the texts the page writes. */
  lemma StepKeyExamples()
    ensures StepKey(0) == "15.0" && StepKey(1) == "15.5"
    ensures StepKey(10) == "20.0" && StepKey(30) == "30.0"
  {
    assert Pow10(1) == 10;
  }

  // ---------------------------------------------------------------------------
  // Lookup
  // ---------------------------------------------------------------------------

  /** The key under which a temperature text is looked up: `parseFloat(t).toFixed(1)`. */
  function LookupKey(temp: string): string {
    match ParseFloat(temp)
    case None => "NaN"
    case Some(t) => FormatFixed(t, 1)
  }

  /** The entry stored under a key; a missing key, or a falsy entry, gives the entry for 20.0 °C. */
  function FactorOfKey(key: string): nat {
    var table := ZTable();
    if key in table && table[key] != 0 then table[key] else DefaultFactor
  }

  /** The factor for a temperature text: `tabela[parseFloat(t).toFixed(1)] || 1.0029`. */
  function FactorFor(temp: string): nat {
    FactorOfKey(LookupKey(temp))
  }

  /** Every factor lies between the 15 °C and the 30 °C entries. */
  lemma ZValuesRange(i: nat)
    requires i < Steps
    ensures 10020 <= ZValues[i] <= 10054
  {
  }

  /** The factors never decrease as the temperature rises. */
  lemma ZValuesMonotone(i: nat, j: nat)
    requires i <= j < Steps
    ensures ZValues[i] <= ZValues[j]
  {
  }

  /** The table holds the step keys and nothing else. */
  lemma TableKeys(key: string)
    ensures key in ZTable() <==> IsStepKey(key)
  {
  }

  /** Every table entry lies between the 15 °C and the 30 °C entries. */
  lemma TableRange(key: string)
    ensures key in ZTable() ==> 10020 <= ZTable()[key] <= 10054
  {
    if key !in ZTable() {
      return;
    }
    TableKeys(key);
    var i :| 0 <= i < Steps && key == StepKey(i);
    ZValuesRange(i);
  }

  /** The key of step `i` finds the `i`-th factor. */
  lemma FactorOfStepKey(i: nat)
    requires i < Steps
    ensures FactorOfKey(StepKey(i)) == ZValues[i]
  {
    ZValuesRange(i);
  }

  /** Any other key finds the 20.0 °C factor 1.0029. */
  lemma FactorOfOtherKey(key: string)
    requires !IsStepKey(key)
    ensures FactorOfKey(key) == DefaultFactor == ZValues[10]
  {
    TableKeys(key);
  }

  /** Whatever the key, the factor is between 1.0020 and 1.0054. */
  lemma FactorOfKeyRange(key: string)
    ensures 10020 <= FactorOfKey(key) <= 10054
  {
    if key in ZTable() {
      TableRange(key);
    }
  }

  /** Whatever the input, the factor is between 1.0020 and 1.0054. */
  lemma FactorForRange(temp: string)
    ensures 10020 <= FactorFor(temp) <= 10054
  {
    FactorOfKeyRange(LookupKey(temp));
  }

  /** A text that does not start with a number is not a table key. */
  lemma NaNIsNoKey(i: nat)
    ensures StepKey(i) != "NaN"
  {
    ParseStepKey(i);
    ParseFloatNaN("NaN");
  }

  /** Two one-decimal texts are equal only when they have the same sign and tenths. */
  lemma TenthsTextInjective(negative: bool, n: nat, m: nat)
    requires m > 0
    requires FormatScaled(negative, n, 1) == FormatScaled(false, m, 1)
    ensures !negative && n == m
  {
    FormatScaledValue(negative, n, 1);
    FormatScaledValue(false, m, 1);
    UnscaleTenths(negative, n);
    UnscaleTenths(false, m);
  }

  /** Equal one-decimal renderings of a number and of step `i` mean the number rounds to that step. */
  lemma KeyMatch(t: real, i: nat)
    requires FormatFixed(t, 1) == StepKey(i)
    ensures !(t < 0.0) && ScaledMagnitude(t, 1) == StepTenths(i)
  {
    TenthsTextInjective(t < 0.0, ScaledMagnitude(t, 1), StepTenths(i));
  }

  /**
   * The lookup key of a temperature is the key of step `i` exactly when the
   * temperature reads as a non-negative number that rounds to the step's
   * temperature.
   */
  lemma LookupKeyStep(temp: string, i: nat)
    ensures LookupKey(temp) == StepKey(i) <==>
      ParseFloat(temp).Some? && !(ParseFloat(temp).value < 0.0)
      && ScaledMagnitude(ParseFloat(temp).value, 1) == StepTenths(i)
  {
    if LookupKey(temp) == StepKey(i) {
      NaNIsNoKey(i);
      KeyMatch(ParseFloat(temp).value, i);
    }
  }

  /** A temperature whose lookup key is the key of step `i` gets the `i`-th factor. */
  lemma FactorForStep(temp: string, i: nat)
    requires i < Steps
    requires LookupKey(temp) == StepKey(i)
    ensures FactorFor(temp) == ZValues[i]
  {
    FactorOfStepKey(i);
  }

  /** Any other temperature, including text that is not a number, gets the 20.0 °C factor 1.0029. */
  lemma FactorForDefault(temp: string)
    requires !IsStepKey(LookupKey(temp))
    ensures FactorFor(temp) == DefaultFactor == ZValues[10]
  {
    FactorOfOtherKey(LookupKey(temp));
  }

  // ---------------------------------------------------------------------------
  // Temperature stepping
  // ---------------------------------------------------------------------------

  /**
   * The ± buttons: the temperature moves by `inc` and is written with one
   * decimal, but only when the new value lies in [15.0, 30.0]; otherwise, and
   * for text that is not a number, it stays as it is.  (The page compares the
   * written text with the bounds, which reads it back as the rounded value.)
   */
  function StepTemperature(temp: string, inc: real): string {
    match ParseFloat(temp)
    case None => temp
    case Some(t) => if 15.0 <= Round(t + inc, 1) <= 30.0 then FormatFixed(t + inc, 1) else temp
  }

  /** A change of temperature always writes a value in [15.0, 30.0] that reads back as the rounded sum. */
  lemma StepTemperatureInRange(temp: string, inc: real)
    requires StepTemperature(temp, inc) != temp
    ensures ParseFloat(temp).Some?
    ensures var v := Round(ParseFloat(temp).value + inc, 1);
      && ParseFloat(StepTemperature(temp, inc)) == Some(v)
      && 15.0 <= v <= 30.0
  {
    FormatFixedRoundTrip(ParseFloat(temp).value + inc, 1);
  }

  /** A number of tenths written with one decimal is its own rounding. */
  lemma RoundTenths(m: nat)
    ensures !((m as real) / 10.0 < 0.0)
    ensures ScaledMagnitude((m as real) / 10.0, 1) == m
    ensures Round((m as real) / 10.0, 1) == (m as real) / 10.0
  {
    assert Pow10(1) == 10;
    UnscaleTenths(false, m);
  }

  /** Stepping from the text of `n` tenths by `k` tenths writes the text of `n + k` tenths. */
  lemma StepTenthsText(temp: string, n: nat, k: int)
    requires n + k >= 0
    requires ParseFloat(temp) == Some((n as real) / 10.0)
    ensures var m := n + k;
      StepTemperature(temp, (k as real) / 10.0)
        == if 150 <= m <= 300 then FormatScaled(false, m, 1) else temp
  {
    var m := n + k;
    assert (n as real) / 10.0 + (k as real) / 10.0 == (m as real) / 10.0;
    RoundTenths(m);
  }

  /** One step up from step `i` is step `i + 1`, or no change at 30.0 °C. */
  lemma {:induction false} StepUp(i: nat)
    requires i < Steps
    ensures StepTemperature(StepKey(i), 0.5) == if i + 1 < Steps then StepKey(i + 1) else StepKey(i)
  {
    ParseStepKey(i);
    StepTenthsText(StepKey(i), StepTenths(i), 5);
    assert (5 as real) / 10.0 == 0.5;
  }

  /** One step down from step `i` is step `i - 1`, or no change at 15.0 °C. */
  lemma StepDown(i: nat)
    requires i < Steps
    ensures StepTemperature(StepKey(i), -0.5) == if i >= 1 then StepKey(i - 1) else StepKey(i)
  {
    ParseStepKey(i);
    StepTenthsText(StepKey(i), StepTenths(i), -5);
    assert (-5 as real) / 10.0 == -0.5;
  }

  /** Stepping a table temperature either way gives a table temperature again. */
  lemma StepFromStepKey(i: nat, up: bool) returns (j: nat)
    requires i < Steps
    ensures j < Steps && StepTemperature(StepKey(i), if up then 0.5 else -0.5) == StepKey(j)
  {
    if up {
      StepUp(i);
      j := if i + 1 < Steps then i + 1 else i;
    } else {
      StepDown(i);
      j := if i >= 1 then i - 1 else i;
    }
  }

  /** A table temperature is its own lookup key. */
  lemma LookupStepKey(i: nat)
    ensures LookupKey(StepKey(i)) == StepKey(i)
  {
    ParseStepKey(i);
    RoundTenths(StepTenths(i));
  }

  /** Starting from a table temperature, the ± buttons only ever reach table temperatures. */
  lemma StepKeepsTableTemperature(temp: string, up: bool)
    requires IsStepKey(temp)
    ensures IsStepKey(StepTemperature(temp, if up then 0.5 else -0.5))
    ensures FactorFor(StepTemperature(temp, if up then 0.5 else -0.5)) in ZValues[..Steps]
  {
    var i :| 0 <= i < Steps && temp == StepKey(i);
    var j := StepFromStepKey(i, up);
    LookupStepKey(j);
    FactorOfStepKey(j);
  }
}
