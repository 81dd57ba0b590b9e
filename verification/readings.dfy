/**
 * The ten readings of a calibration point and the three ways the form turns
 * pasted text into them.  A point always holds exactly ten reading slots; the
 * parsers fill them from the left and leave the rest as empty text.
 *
 *  - the main parser (`handleValoresChange`) splits on commas, trims, and drops
 *    only the empty pieces: a piece that is not a number is kept;
 *  - the syringe parser (`handleValoresChangeSeringa`) splits on runs of commas
 *    and white space and drops empty and non-numeric pieces;
 *  - the assistant's propagation from channel 1 splits on commas, trims, and
 *    drops empty and non-numeric pieces (a value typed into channel 1 is
 *    propagated with the main parser's pieces instead).
 */
module Readings {
  import opened JsText
  import opened JsNumber

  /** Every point has ten reading slots. */
  const SlotCount: nat := 10

  /** Fills ten slots from the left with the first tokens; the slots left over hold "". */
  function Slots(tokens: seq<string>): (r: seq<string>)
    ensures |r| == SlotCount
    ensures var m := if |tokens| < SlotCount then |tokens| else SlotCount;
      r[..m] == tokens[..m] && forall i :: m <= i < SlotCount ==> r[i] == ""
  {
    var m := if |tokens| < SlotCount then |tokens| else SlotCount;
    tokens[..m] + seq(SlotCount - m, _ => "")
  }

  predicate NonEmpty(s: string) {
    s != ""
  }

  /** A piece the numeric parsers keep: not empty and `!isNaN(parseFloat(v))`. */
  predicate IsNumericToken(s: string) {
    s != "" && IsNumeric(s)
  }

  /** The separators of the syringe parser, `/[,\s]+/`. */
  predicate IsSyringeSeparator(c: char) {
    c == ',' || IsSpace(c)
  }

  /** The tokens of the main parser, in order. */
  function MainTokens(text: string): seq<string> {
    Filter(Map(Split(text, ','), Trim), NonEmpty)
  }

  /** The tokens of the syringe parser, in order. */
  function SyringeTokens(text: string): seq<string> {
    Filter(Map(SplitWhere(text, IsSyringeSeparator), Trim), IsNumericToken)
  }

  /** The tokens taken from a channel 1 point when its values are propagated, in order. */
  function MasterTokens(text: string): seq<string> {
    Filter(Map(Split(text, ','), Trim), IsNumericToken)
  }

  /** The ten readings the main parser stores for a text. */
  function MainReadings(text: string): seq<string> {
    Slots(MainTokens(text))
  }

  /** The ten readings the syringe parser stores for a text. */
  function SyringeReadings(text: string): seq<string> {
    Slots(SyringeTokens(text))
  }

  /**
   * When no token is empty, the non-empty slots are exactly the first ten
   * tokens, in order: nothing is lost before the tenth and nothing is invented.
   */
  lemma {:induction false} SlotsPacked(tokens: seq<string>)
    requires forall i :: 0 <= i < |tokens| ==> tokens[i] != ""
    ensures var m := if |tokens| < SlotCount then |tokens| else SlotCount;
      Filter(Slots(tokens), NonEmpty) == tokens[..m]
  {
    var m := if |tokens| < SlotCount then |tokens| else SlotCount;
    var r := Slots(tokens);
    assert r == r[..m] + r[m..];
    FilterAppend(r[..m], r[m..], NonEmpty);
    FilterAll(r[..m], NonEmpty);
    FilterNone(r[m..], NonEmpty);
  }

  /** The main parser keeps every non-empty trimmed piece, numeric or not, and only those. */
  lemma MainTokensSpec(text: string)
    ensures forall t :: t in MainTokens(text) ==> t != "" && t in Map(Split(text, ','), Trim)
    ensures forall k :: 0 <= k < |Split(text, ',')| && Trim(Split(text, ',')[k]) != "" ==>
      Trim(Split(text, ',')[k]) in MainTokens(text)
  {
    var pieces := Map(Split(text, ','), Trim);
    assert forall k :: 0 <= k < |Split(text, ',')| ==> pieces[k] == Trim(Split(text, ',')[k]);
  }

  /** The syringe parser keeps exactly the numeric pieces. */
  lemma SyringeTokensSpec(text: string)
    ensures forall t :: t in SyringeTokens(text) ==> IsNumericToken(t) && t in SplitWhere(text, IsSyringeSeparator)
    ensures forall t :: t in SplitWhere(text, IsSyringeSeparator) && IsNumericToken(t) ==> t in SyringeTokens(text)
  {
    var pieces := SplitWhere(text, IsSyringeSeparator);
    SyringePiecesTrimmed(text);
    assert Map(pieces, Trim) == pieces;
  }

  /** The pieces between syringe separators hold no white space, so trimming them changes nothing. */
  lemma SyringePiecesTrimmed(text: string)
    ensures var pieces := SplitWhere(text, IsSyringeSeparator);
      forall k :: 0 <= k < |pieces| ==> Trim(pieces[k]) == pieces[k]
  {
    var pieces := SplitWhere(text, IsSyringeSeparator);
    forall k | 0 <= k < |pieces|
      ensures Trim(pieces[k]) == pieces[k]
    {
      var p := pieces[k];
      if p != [] {
        assert !IsSyringeSeparator(p[0]) && !IsSyringeSeparator(p[|p| - 1]);
      }
      TrimIdentity(p);
    }
  }

  /** Tokens of every parser keep the order of the pasted text. */
  lemma TokensInOrder(text: string)
    ensures IsSubsequence(MainTokens(text), Map(Split(text, ','), Trim))
    ensures IsSubsequence(SyringeTokens(text), Map(SplitWhere(text, IsSyringeSeparator), Trim))
    ensures IsSubsequence(MasterTokens(text), Map(Split(text, ','), Trim))
  {
    FilterIsSubsequence(Map(Split(text, ','), Trim), NonEmpty);
    FilterIsSubsequence(Map(SplitWhere(text, IsSyringeSeparator), Trim), IsNumericToken);
    FilterIsSubsequence(Map(Split(text, ','), Trim), IsNumericToken);
  }

  /** Every reading a parser stores is a token or empty text. */
  lemma ReadingsFromTokens(text: string)
    ensures forall i :: 0 <= i < SlotCount ==> MainReadings(text)[i] == "" || MainReadings(text)[i] in MainTokens(text)
    ensures forall i :: 0 <= i < SlotCount ==>
      SyringeReadings(text)[i] == "" || IsNumericToken(SyringeReadings(text)[i])
  {
    var mt := MainTokens(text);
    var st := SyringeTokens(text);
    forall i | 0 <= i < SlotCount
      ensures MainReadings(text)[i] == "" || MainReadings(text)[i] in mt
      ensures SyringeReadings(text)[i] == "" || IsNumericToken(SyringeReadings(text)[i])
    {
      if i < |mt| {
        assert MainReadings(text)[..i + 1][i] == mt[..i + 1][i];
      }
      if i < |st| {
        assert SyringeReadings(text)[..i + 1][i] == st[..i + 1][i];
      }
    }
  }

  /** The parsers differ: text that is not a number survives the main parser and no other. */
  lemma ParsersDiffer()
    ensures MainTokens("abc") == ["abc"]
    ensures SyringeTokens("abc") == []
    ensures MasterTokens("abc") == []
  {
    var s := "abc";
    assert IndexOfChar(s, ',') == 3;
    assert Split(s, ',') == [s];
    TrimIdentity(s);
    assert Map([s], Trim) == [s];
    ParseFloatNaN(s);
    SplitWhereNone(s, IsSyringeSeparator);
  }
}
