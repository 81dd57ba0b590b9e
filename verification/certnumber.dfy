/**
 * The certificate number of the calibration form: what the operator types is
 * a run of digits followed by a point ("1234."), which the assistant later
 * completes ("1234.1").  Two validation modes and the keystroke filter.
 */
module CertificateNumber {
  import opened Wrappers
  import opened JsText

  /** Typing mode accepts only the entry form; final mode also accepts the completed form. */
  datatype Mode = Entry | Final

  datatype CertError =
    | Required     // blank after trimming
    | EntryFormat  // not `digits.`
    | FinalFormat  // not `digits.digits`

  /** `^\d+\.$`: one or more digits and a closing point. */
  predicate MatchesEntry(s: string) {
    |s| >= 2 && s[|s| - 1] == '.' && AllDigits(s[..|s| - 1])
  }

  /** `^\d+\.\d*$`: one or more digits, a point, and any number of digits. */
  predicate MatchesFinal(s: string) {
    var k := IndexOfChar(s, '.');
    1 <= k < |s| && AllDigits(s[..k]) && AllDigits(s[k + 1..])
  }

  /** The final form read as the regular expression reads it: some point splits the text into digits and digits. */
  lemma {:induction false} MatchesFinalSpec(s: string)
    ensures MatchesFinal(s) <==>
      exists k :: 1 <= k < |s| && s[k] == '.' && AllDigits(s[..k]) && AllDigits(s[k + 1..])
  {
    if exists k :: 1 <= k < |s| && s[k] == '.' && AllDigits(s[..k]) && AllDigits(s[k + 1..]) {
      var k :| 1 <= k < |s| && s[k] == '.' && AllDigits(s[..k]) && AllDigits(s[k + 1..]);
      assert IndexOfChar(s, '.') == k;
    }
  }

  /** `validateNumeroCertificado(valor, allowCompleteFormat)`: `None` when the number is acceptable. */
  function Validate(value: string, mode: Mode): Option<CertError> {
    var v := Trim(value);
    if v == [] then Some(Required)
    else if mode == Final then (if MatchesFinal(v) then None else Some(FinalFormat))
    else if MatchesEntry(v) then None else Some(EntryFormat)
  }

  /** The "required" error is reported exactly for text made only of white space, in either mode. */
  lemma ValidateRequired(value: string, mode: Mode)
    ensures Validate(value, mode) == Some(Required) <==> AllSpace(value)
  {
    TrimEmptyIffAllSpace(value);
  }

  /** Text that passes while typing also passes the final check. */
  lemma EntryImpliesFinal(value: string)
    ensures Validate(value, Entry) == None ==> Validate(value, Final) == None
  {
    var v := Trim(value);
    if v != [] && MatchesEntry(v) {
      MatchesFinalSpec(v);
      assert v[|v| - 1..] == ".";
      assert AllDigits(v[|v| - 1 + 1..]);
    }
  }

  /** A completed number passes the final check but not the typing check. */
  lemma CompletedNumberIsFinalOnly()
    ensures Validate("1234.1", Final) == None
    ensures Validate("1234.1", Entry) == Some(EntryFormat)
  {
    var s := "1234.1";
    TrimIdentity(s);
    assert IndexOfChar(s, '.') == 4 by {
      assert s[..4] == "1234";
      assert s[4] == '.';
    }
    assert s[..4] == "1234" && s[5..] == "1";
  }

  /**
   * The keystroke filter: once the text contains a point, everything after
   * the first point is dropped, `partes[0] + "."`.
   */
  function FilterInput(value: string): string {
    if HasChar(value, '.') then Split(value, '.')[0] + "." else value
  }

  /** The filtered text is the text up to and including the first point, or the whole text when it has none. */
  lemma FilterInputSpec(value: string)
    ensures var k := IndexOfChar(value, '.');
      FilterInput(value) == if k < |value| then value[..k + 1] else value
  {
    var k := IndexOfChar(value, '.');
    IndexOfCharFound(value, '.');
    if HasChar(value, '.') {
      SplitFirst(value, '.');
      TakeThrough(value, k, '.');
    }
  }

  lemma TakeThrough(s: string, k: nat, c: char)
    requires k < |s| && s[k] == c
    ensures s[..k] + [c] == s[..k + 1]
  {
  }

  /** After filtering, a point can only be the last character. */
  lemma FilterInputOnePoint(value: string)
    ensures var r := FilterInput(value);
      forall i :: 0 <= i < |r| - 1 ==> r[i] != '.'
  {
    FilterInputSpec(value);
    IndexOfCharFound(value, '.');
  }

  /** Filtering twice is filtering once. */
  lemma FilterInputIdempotent(value: string)
    ensures FilterInput(FilterInput(value)) == FilterInput(value)
  {
    var r := FilterInput(value);
    FilterInputSpec(value);
    FilterInputSpec(r);
    IndexOfCharFound(value, '.');
    var k := IndexOfChar(value, '.');
    if k < |value| {
      assert r == value[..k + 1];
      assert r[k] == '.';
      assert IndexOfChar(r, '.') == k by {
        assert forall i :: 0 <= i < k ==> r[i] == value[i];
      }
    }
  }

  /** When the digits before the first point are not empty, the filtered text passes the typing check. */
  lemma FilterInputValid(value: string)
    requires HasChar(value, '.')
    requires IndexOfChar(value, '.') >= 1 && AllDigits(value[..IndexOfChar(value, '.')])
    ensures Validate(FilterInput(value), Entry) == None
  {
    FilterInputSpec(value);
    IndexOfCharFound(value, '.');
    var k := IndexOfChar(value, '.');
    var r := FilterInput(value);
    assert r == value[..k + 1];
    assert r[..|r| - 1] == value[..k];
    assert IsDigit(value[..k][0]);
    TrimIdentity(r);
  }
}
