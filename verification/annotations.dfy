/**
 * The check of the notes the assistant reads a calibration from: the
 * volume, the indication points and the calibrated points must each carry a
 * unit (`ul` or `ml`), unless the extraction already found units or there is
 * no text to check.
 *
 * The three regular expressions `/LABEL:\s*.*?(ul|ml)/i` are modelled by a
 * reference definition (some start position, white space, then characters
 * other than line terminators, then the unit) and by the scan that decides
 * it.
 */
module Annotations {
  import opened JsText

  // ---------------------------------------------------------------------------
  // Case-insensitive matching
  // ---------------------------------------------------------------------------

  /**
   * The canonical form of a character under the `i` flag of a regular
   * expression without the `u` flag: its upper case when that is one
   * character and does not turn a non-ASCII character into an ASCII one.
   */
  function Canonical(c: char): char {
    var u := UpperChar(c);
    if |u| != 1 then c
    else if (c as int) >= 128 && (u[0] as int) < 128 then c
    else u[0]
  }

  /** Two characters the `i` flag does not tell apart. */
  predicate SameLetter(a: char, b: char) {
    Canonical(a) == Canonical(b)
  }

  /** A pattern position: one character, or a class such as `[CÇ]`, given by its members. */
  type Choice = string

  /** Whether `c` matches one of the members of the class. */
  predicate MatchesChoice(c: char, choice: Choice) {
    exists k :: 0 <= k < |choice| && SameLetter(c, choice[k])
  }

  /** The pattern matches the text at position `i`. */
  predicate PatternAt(text: string, i: nat, pattern: seq<Choice>) {
    i + |pattern| <= |text| && forall k :: 0 <= k < |pattern| ==> MatchesChoice(text[i + k], pattern[k])
  }

  /** `(ul|ml)` at position `r`. */
  predicate UnitAt(text: string, r: nat) {
    r + 2 <= |text| && (SameLetter(text[r], 'u') || SameLetter(text[r], 'm')) && SameLetter(text[r + 1], 'l')
  }

  predicate NoLineTerminator(s: string) {
    forall i :: 0 <= i < |s| ==> !IsLineTerminator(s[i])
  }

  /** `\s*.*?` can span the text from `p` to `r`: white space, then characters other than line terminators. */
  predicate Spans(text: string, p: nat, r: nat)
    requires p <= r <= |text|
  {
    exists q :: p <= q <= r && AllSpace(text[p..q]) && NoLineTerminator(text[q..r])
  }

  /** `\s*.*?(ul|ml)` matches from position `p`: the reference definition. */
  predicate UnitAfter(text: string, p: nat)
    requires p <= |text|
  {
    exists r :: p <= r <= |text| && UnitAt(text, r) && Spans(text, p, r)
  }

  /** The whole expression matches from position `i`: the heading, then a unit it reaches. */
  predicate MatchAt(text: string, heading: seq<Choice>, i: nat) {
    i + |heading| <= |text| && PatternAt(text, i, heading) && UnitAfter(text, i + |heading|)
  }

  /** `/LABEL:\s*.*?(ul|ml)/i.test(text)`: the reference definition. */
  predicate Labelled(text: string, heading: seq<Choice>) {
    exists i: nat :: i <= |text| && MatchAt(text, heading, i)
  }

  // ---------------------------------------------------------------------------
  // The scan
  // ---------------------------------------------------------------------------

  /**
   * Looks for the unit from position `k`; `leading` tells whether everything
   * scanned so far was white space, so that a line terminator may still be
   * crossed.
   */
  function ScanUnit(text: string, k: nat, leading: bool): bool
    decreases |text| - k
  {
    if k >= |text| then false
    else if UnitAt(text, k) then true
    else if IsLineTerminator(text[k]) then leading && ScanUnit(text, k + 1, true)
    else ScanUnit(text, k + 1, leading && IsSpace(text[k]))
  }

  /** Tries every start position from `i` on. */
  function ScanLabel(text: string, heading: seq<Choice>, i: nat): bool
    decreases |text| - i
  {
    if i + |heading| > |text| then false
    else (PatternAt(text, i, heading) && ScanUnit(text, i + |heading|, true)) || ScanLabel(text, heading, i + 1)
  }

  /** `regex.test(text)`. */
  function Test(text: string, heading: seq<Choice>): bool {
    ScanLabel(text, heading, 0)
  }

  lemma LineTerminatorIsSpace(c: char)
    requires IsLineTerminator(c)
    ensures IsSpace(c)
  {
  }

  /** Spanning to `k` and one more character that is not a line terminator spans to `k + 1`. */
  lemma SpansStep(text: string, p: nat, k: nat)
    requires p <= k < |text| && Spans(text, p, k) && !IsLineTerminator(text[k])
    ensures Spans(text, p, k + 1)
  {
    var q :| p <= q <= k && AllSpace(text[p..q]) && NoLineTerminator(text[q..k]);
    assert text[q..k + 1] == text[q..k] + [text[k]];
  }

  /** Past a line terminator, only a span of white space reaches. */
  lemma SpansBlocked(text: string, p: nat, k: nat, r: nat)
    requires p <= k < r <= |text| && IsLineTerminator(text[k]) && Spans(text, p, r)
    ensures AllSpace(text[p..k])
  {
    var q :| p <= q <= r && AllSpace(text[p..q]) && NoLineTerminator(text[q..r]);
    forall i | q <= i < r
      ensures !IsLineTerminator(text[i])
    {
      assert text[q..r][i - q] == text[i];
    }
    assert k < q;
    assert forall i :: 0 <= i < k - p ==> text[p..k][i] == text[p..q][i];
  }

  /** The scan from `k` finds exactly the units that a span from `p` reaches at or after `k`. */
  lemma {:induction false} ScanUnitSound(text: string, p: nat, k: nat, leading: bool)
    requires p <= k <= |text|
    requires leading <==> AllSpace(text[p..k])
    requires Spans(text, p, k)
    ensures ScanUnit(text, k, leading) <==> exists r :: k <= r <= |text| && UnitAt(text, r) && Spans(text, p, r)
    decreases |text| - k
  {
    if k >= |text| {
    } else if UnitAt(text, k) {
    } else {
      var c := text[k];
      assert text[p..k + 1] == text[p..k] + [c];
      assert AllSpace(text[p..k + 1]) <==> AllSpace(text[p..k]) && IsSpace(c) by {
        assert forall i :: 0 <= i < k - p ==> text[p..k + 1][i] == text[p..k][i];
        assert text[p..k + 1][k - p] == c;
      }
      if IsLineTerminator(c) {
        LineTerminatorIsSpace(c);
        if leading {
          assert Spans(text, p, k + 1) by {
            assert text[k + 1..k + 1] == [];
          }
          ScanUnitSound(text, p, k + 1, true);
        } else {
          forall r | k < r <= |text| && Spans(text, p, r)
            ensures false
          {
            SpansBlocked(text, p, k, r);
          }
        }
      } else {
        SpansStep(text, p, k);
        ScanUnitSound(text, p, k + 1, leading && IsSpace(c));
      }
    }
  }

  /** The scan from the end of a heading decides the reference definition. */
  lemma ScanUnitDecides(text: string, p: nat)
    requires p <= |text|
    ensures ScanUnit(text, p, true) <==> UnitAfter(text, p)
  {
    assert text[p..p] == [];
    assert Spans(text, p, p);
    ScanUnitSound(text, p, p, true);
  }

  /** At one start position the scan agrees with the reference definition. */
  lemma ScanHere(text: string, heading: seq<Choice>, i: nat)
    requires i + |heading| <= |text|
    ensures (PatternAt(text, i, heading) && ScanUnit(text, i + |heading|, true)) <==> MatchAt(text, heading, i)
  {
    ScanUnitDecides(text, i + |heading|);
  }

  /** A successful scan from `i` has found a match at `i` or later. */
  lemma {:induction false} ScanLabelFound(text: string, heading: seq<Choice>, i: nat) returns (j: nat)
    requires ScanLabel(text, heading, i)
    ensures i <= j <= |text| && MatchAt(text, heading, j)
    decreases |text| - i
  {
    ScanHere(text, heading, i);
    if MatchAt(text, heading, i) {
      j := i;
    } else {
      j := ScanLabelFound(text, heading, i + 1);
    }
  }

  /** A failed scan from `i` means no match starts at `i` or later. */
  lemma {:induction false} ScanLabelMissed(text: string, heading: seq<Choice>, i: nat, j: nat)
    requires !ScanLabel(text, heading, i) && i <= j
    ensures !MatchAt(text, heading, j)
    decreases j - i
  {
    if i + |heading| > |text| {
      assert j + |heading| > |text|;
    } else if j == i {
      ScanHere(text, heading, i);
    } else {
      assert !ScanLabel(text, heading, i + 1);
      ScanLabelMissed(text, heading, i + 1, j);
    }
  }

  /** The scan decides the regular expression as the reference definition reads it. */
  lemma TestDecides(text: string, heading: seq<Choice>)
    ensures Test(text, heading) <==> Labelled(text, heading)
  {
    if Test(text, heading) {
      var j := ScanLabelFound(text, heading, 0);
    } else {
      forall j: nat | j <= |text|
        ensures !MatchAt(text, heading, j)
      {
        ScanLabelMissed(text, heading, 0, j);
      }
    }
  }

  // ---------------------------------------------------------------------------
  // validateNotionAnnotations
  // ---------------------------------------------------------------------------

  /** `VOLUME:`. */
  const VolumeLabel: seq<Choice> := ["V", "O", "L", "U", "M", "E", ":"]

  /** `PONTOS DE INDICA[CÇ][AÃ]O:`. */
  const IndicationLabel: seq<Choice> :=
    ["P", "O", "N", "T", "O", "S", " ", "D", "E", " ", "I", "N", "D", "I", "C", "A",
     "CÇ", "AÃ", "O", ":"]

  /** `PONTOS CALIBRADOS:`. */
  const CalibratedLabel: seq<Choice> :=
    ["P", "O", "N", "T", "O", "S", " ", "C", "A", "L", "I", "B", "R", "A", "D", "O", "S", ":"]

  const VolumeError := "VOLUME deve incluir unidade (ul ou ml). Exemplo: 'VOLUME: 100ul'"
  const IndicationError :=
    "PONTOS DE INDICAÇÃO deve incluir unidade (ul ou ml). Exemplo: 'PONTOS DE INDICAÇÃO: 10-100ul'"
  const CalibratedError := "PONTOS CALIBRADOS deve incluir unidade (ul ou ml). Exemplo: 'PONTOS CALIBRADOS: 10-100ul'"

  /** The units the extraction found; `""` stands for a missing one. */
  datatype Extracted = Extracted(unidadeCapacidade: string, unidadeFaixaIndicacao: string, unidadeFaixaCalibrada: string)

  /** At least one unit was extracted. */
  predicate HasUnits(data: Extracted) {
    data.unidadeCapacidade != "" || data.unidadeFaixaIndicacao != "" || data.unidadeFaixaCalibrada != ""
  }

  /** The error for one heading when the text lacks its unit. */
  function Check(text: string, heading: seq<Choice>, message: string): seq<string> {
    if Test(text, heading) then [] else [message]
  }

  /** `validateNotionAnnotations(extractedData, originalText)`. */
  function Validate(data: Extracted, text: string): seq<string> {
    if HasUnits(data) then []
    else if Trim(text) == "" then []
    else (Check(text, VolumeLabel, VolumeError)
      + Check(text, IndicationLabel, IndicationError)
      + Check(text, CalibratedLabel, CalibratedError))
  }

  /**
   * The text is checked only when no unit was extracted and it is not blank;
   * then each heading contributes its error exactly when no occurrence of it is
   * followed by a unit, in the order volume, indication, calibrated.
   */
  lemma ValidateSpec(data: Extracted, text: string)
    ensures var errors := Validate(data, text);
      && |errors| <= 3
      && (HasUnits(data) || AllSpace(text) ==> errors == [])
      && (!HasUnits(data) && !AllSpace(text) ==>
            errors == (if Labelled(text, VolumeLabel) then [] else [VolumeError])
              + (if Labelled(text, IndicationLabel) then [] else [IndicationError])
              + (if Labelled(text, CalibratedLabel) then [] else [CalibratedError]))
  {
    TrimEmptyIffAllSpace(text);
    TestDecides(text, VolumeLabel);
    TestDecides(text, IndicationLabel);
    TestDecides(text, CalibratedLabel);
  }

  /** A heading longer than the text cannot occur in it. */
  lemma TooShort(text: string, heading: seq<Choice>)
    requires |text| < |heading|
    ensures !Test(text, heading)
  {
    TestDecides(text, heading);
  }

  /** The example of the volume error message passes the volume check. */
  lemma VolumeExample(text: string)
    requires text == "VOLUME: 100ul"
    ensures Test(text, VolumeLabel) && Trim(text) != ""
  {
    forall k | 0 <= k < |VolumeLabel|
      ensures MatchesChoice(text[k], VolumeLabel[k])
    {
      assert SameLetter(text[k], VolumeLabel[k][0]);
    }
    assert Spans(text, 7, 11) by {
      assert AllSpace(text[7..7]);
      assert NoLineTerminator(text[7..11]);
    }
    assert UnitAt(text, 11);
    assert MatchAt(text, VolumeLabel, 0);
    TestDecides(text, VolumeLabel);
    assert !IsSpace(text[0]);
    TrimEmptyIffAllSpace(text);
  }

  /** The volume example alone lacks the two other units. */
  lemma ValidExample(text: string)
    requires text == "VOLUME: 100ul"
    ensures Validate(Extracted("", "", ""), text) == [IndicationError, CalibratedError]
  {
    VolumeExample(text);
    TooShort(text, IndicationLabel);
    TooShort(text, CalibratedLabel);
  }
}
