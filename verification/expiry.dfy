/**
 * Reading the expiry dates of the calibration standards out of the free text
 * of the configuration: the matches of `/\(Validade\s+(\d{2})\/(\d{4})\)/gi`
 * in text order, the due date each one names, the equipment it belongs to,
 * and the requests for an expiry notification that both the notifications
 * controller and the configuration controller derive from them.
 */
module Expiry {
  import opened Wrappers
  import opened JsText

  // ---------------------------------------------------------------------------
  // The pattern
  // ---------------------------------------------------------------------------

  /** The word of the pattern, in lower case; the `i` flag lets each letter come in either case. */
  const Word := "validade"

  /** Case-insensitive equality with a lower-case ASCII letter, as a non-Unicode `i` regular expression compares. */
  predicate SameLetter(c: char, lower: char) {
    c == lower || (c as int) == (lower as int) - 32
  }

  predicate WordAt(s: string, i: nat) {
    i + |Word| <= |s| && forall k :: 0 <= k < |Word| ==> SameLetter(s[i + k], Word[k])
  }

  /** `(\d{2})\/(\d{4})\)` at position `e`. */
  predicate DateAt(s: string, e: nat) {
    && e + 8 <= |s|
    && IsDigit(s[e]) && IsDigit(s[e + 1]) && s[e + 2] == '/'
    && IsDigit(s[e + 3]) && IsDigit(s[e + 4]) && IsDigit(s[e + 5]) && IsDigit(s[e + 6])
    && s[e + 7] == ')'
  }

  /** The whole text of a match: `(`, the word, at least one white-space character, `MM/YYYY` and `)`. */
  predicate Shape(t: string) {
    && |t| >= 18
    && t[0] == '('
    && WordAt(t, 1)
    && AllSpace(t[9..|t| - 8])
    && DateAt(t, |t| - 8)
  }

  /** `parseInt` of the month digits of a match text. */
  function MonthOf(t: string): nat
    requires |t| >= 8
  {
    10 * DigitValue(t[|t| - 8]) + DigitValue(t[|t| - 7])
  }

  /** `parseInt` of the year digits of a match text. */
  function YearOf(t: string): nat
    requires |t| >= 8
  {
    1000 * DigitValue(t[|t| - 5]) + 100 * DigitValue(t[|t| - 4]) + 10 * DigitValue(t[|t| - 3]) + DigitValue(t[|t| - 2])
  }

  /** A match: where it starts, its text (`match[0]`) and its two captured numbers. */
  datatype Match = Match(start: nat, text: string, mes: nat, ano: nat)

  /** The end of the run of white space that starts at `j`. */
  function SpacesFrom(s: string, j: nat): (e: nat)
    requires j <= |s|
    ensures j <= e <= |s|
    decreases |s| - j
  {
    if j < |s| && IsSpace(s[j]) then SpacesFrom(s, j + 1) else j
  }

  /** The run is all white space and stops at the end or at a character that is not. */
  lemma {:induction false} SpacesFromSpec(s: string, j: nat)
    requires j <= |s|
    ensures var e := SpacesFrom(s, j);
      AllSpace(s[j..e]) && (e == |s| || !IsSpace(s[e]))
    decreases |s| - j
  {
    if j < |s| && IsSpace(s[j]) {
      SpacesFromSpec(s, j + 1);
      var e := SpacesFrom(s, j + 1);
      assert s[j..e] == [s[j]] + s[j + 1..e];
    }
  }

  /** The match that starts at `i`, if any. */
  function MatchAt(s: string, i: nat): (r: Option<Match>)
    ensures r.Some? ==> r.value.start == i && i + |r.value.text| <= |s| && |r.value.text| >= 18
  {
    if i + 18 <= |s| && s[i] == '(' && WordAt(s, i + 1) then
      var e := SpacesFrom(s, i + 9);
      if e > i + 9 && DateAt(s, e) then
        var t := s[i..e + 8];
        Some(Match(i, t, MonthOf(t), YearOf(t)))
      else None
    else None
  }

  /** What the pattern matches has the pattern's shape, and the numbers are its digits. */
  lemma {:induction false} MatchAtSound(s: string, i: nat)
    requires MatchAt(s, i).Some?
    ensures var m := MatchAt(s, i).value;
      && OccursAt(s, m.text, i) && Shape(m.text)
      && m.mes == MonthOf(m.text) && m.ano == YearOf(m.text)
  {
    var e := SpacesFrom(s, i + 9);
    SpacesFromSpec(s, i + 9);
    ShapeOfSlice(s, i, e);
  }

  /** The slice from an opening parenthesis to the end of a date has the shape of a match. */
  lemma ShapeOfSlice(s: string, i: nat, e: nat)
    requires i + 9 < e && e + 8 <= |s|
    requires s[i] == '(' && WordAt(s, i + 1) && AllSpace(s[i + 9..e]) && DateAt(s, e)
    ensures Shape(s[i..e + 8])
  {
    var t := s[i..e + 8];
    WordSlice(s, i, e + 8);
    assert |t| - 8 == e - i;
    var u, v := t[9..e - i], s[i + 9..e];
    forall k | 0 <= k < |u|
      ensures u[k] == v[k]
    {
      assert t[9 + k] == s[i + 9 + k];
    }
    assert u == v;
    DateSlice(s, i, e);
  }

  lemma WordSlice(s: string, i: nat, j: nat)
    requires i + 9 <= j <= |s| && WordAt(s, i + 1)
    ensures WordAt(s[i..j], 1)
  {
    var t := s[i..j];
    forall k | 0 <= k < |Word|
      ensures SameLetter(t[1 + k], Word[k])
    {
      assert t[1 + k] == s[i + 1 + k];
    }
  }

  lemma DateSlice(s: string, i: nat, e: nat)
    requires i <= e && DateAt(s, e)
    ensures DateAt(s[i..e + 8], e - i)
  {
  }

  lemma DigitNotSpace(c: char)
    requires IsDigit(c)
    ensures !IsSpace(c)
  {
  }

  lemma {:induction false} SpacesFromStops(s: string, j: nat, e: nat)
    requires j <= e < |s| && !IsSpace(s[e])
    requires forall q :: j <= q < e ==> IsSpace(s[q])
    ensures SpacesFrom(s, j) == e
    decreases e - j
  {
    if j < e {
      SpacesFromStops(s, j + 1, e);
    }
  }

  lemma WordShift(s: string, i: nat, t: string)
    requires OccursAt(s, t, i) && WordAt(t, 1)
    ensures WordAt(s, i + 1)
  {
    forall j | 1 <= j < 9
      ensures s[i + j] == t[j]
    {
      assert s[i..i + |t|][j] == t[j];
    }
  }

  lemma DateShift(s: string, i: nat, t: string)
    requires OccursAt(s, t, i) && |t| >= 8 && DateAt(t, |t| - 8)
    ensures DateAt(s, i + |t| - 8)
  {
    forall j | |t| - 8 <= j < |t|
      ensures s[i + j] == t[j]
    {
      assert s[i..i + |t|][j] == t[j];
    }
  }

  /** The white space of a match, seen in the text it occurs in. */
  lemma SpacesShift(s: string, i: nat, t: string)
    requires OccursAt(s, t, i) && Shape(t)
    ensures SpacesFrom(s, i + 9) == i + |t| - 8
  {
    var e := i + |t| - 8;
    forall q | i + 9 <= q < e
      ensures IsSpace(s[q])
    {
      assert t[9..|t| - 8][q - i - 9] == t[q - i];
      assert s[i..i + |t|][q - i] == s[q];
    }
    DigitNotSpace(t[|t| - 8]);
    assert s[e] == s[i..i + |t|][|t| - 8];
    SpacesFromStops(s, i + 9, e);
  }

  /** Wherever a text of the pattern's shape occurs, the pattern matches it there, and only it. */
  lemma MatchAtComplete(s: string, i: nat, t: string)
    requires OccursAt(s, t, i) && Shape(t)
    ensures MatchAt(s, i) == Some(Match(i, t, MonthOf(t), YearOf(t)))
  {
    assert s[i] == s[i..i + |t|][0];
    WordShift(s, i, t);
    SpacesShift(s, i, t);
    DateShift(s, i, t);
  }

  /** Only the first character of a match is an opening parenthesis. */
  lemma ShapeOpensOnce(t: string, k: nat)
    requires Shape(t) && 1 <= k < |t|
    ensures t[k] != '('
  {
    if k < 9 {
      assert SameLetter(t[1 + (k - 1)], Word[k - 1]);
    } else if k < |t| - 8 {
      assert t[9..|t| - 8][k - 9] == t[k];
    }
  }

  /** A match opens with a parenthesis. */
  lemma MatchOpens(s: string, p: nat)
    requires MatchAt(s, p).Some?
    ensures p < |s| && s[p] == '('
  {
    var t := MatchAt(s, p).value.text;
    MatchAtSound(s, p);
    assert s[p..p + |t|][0] == t[0];
  }

  /** No match starts inside another one. */
  lemma NoMatchInside(s: string, i: nat, p: nat)
    requires MatchAt(s, i).Some? && i < p < i + |MatchAt(s, i).value.text|
    ensures MatchAt(s, p).None?
  {
    var t := MatchAt(s, i).value.text;
    MatchAtSound(s, i);
    if MatchAt(s, p).Some? {
      MatchOpens(s, p);
      assert s[i..i + |t|][p - i] == s[p];
      ShapeOpensOnce(t, p - i);
      assert false;
    }
  }

  // ---------------------------------------------------------------------------
  // All the matches, in text order (`[...text.matchAll(regex)]`)
  // ---------------------------------------------------------------------------

  /**
   * A global scan of a text of length `n` with the matcher `at`: a match
   * resumes the scan after its text, a miss one position further on.  (A
   * match of the pattern is never empty; the length test only keeps the scan
   * moving for any matcher.)
   */
  function Scan(n: nat, at: nat -> Option<Match>, i: nat): seq<Match>
    decreases n - i
  {
    if i >= n then []
    else if at(i).Some? && |at(i).value.text| > 0 then [at(i).value] + Scan(n, at, i + |at(i).value.text|)
    else Scan(n, at, i + 1)
  }

  /** A matcher for a text of length `n`: each match starts where it was asked for, is not empty and fits. */
  ghost predicate Matcher(n: nat, at: nat -> Option<Match>) {
    forall p: nat :: at(p).Some? ==> at(p).value.start == p && 0 < |at(p).value.text| && p + |at(p).value.text| <= n
  }

  /** No match of the matcher starts inside another of its matches. */
  ghost predicate Disjoint(at: nat -> Option<Match>) {
    forall p: nat, q: nat :: at(p).Some? && p < q < p + |at(p).value.text| ==> at(q).None?
  }

  /** Where each match starts. */
  function Starts(ms: seq<Match>): (ps: seq<nat>)
    ensures |ps| == |ms|
  {
    if ms == [] then [] else [ms[0].start] + Starts(ms[1..])
  }

  lemma StartsCons(m: Match, ms: seq<Match>)
    ensures Starts([m] + ms) == [m.start] + Starts(ms)
  {
    assert ([m] + ms)[1..] == ms;
  }

  /** Every match in `r` is a match of the matcher at its start, and starts at or after `i`. */
  ghost predicate Reported(at: nat -> Option<Match>, r: seq<Match>, i: nat) {
    forall k :: 0 <= k < |r| ==> i <= r[k].start && at(r[k].start) == Some(r[k])
  }

  /** Each match in `r` ends before the next one starts. */
  predicate Ordered(r: seq<Match>) {
    forall a, b :: 0 <= a < b < |r| ==> r[a].start + |r[a].text| <= r[b].start
  }

  /** Every match the scan reports is a match of the matcher at its position, and they do not overlap. */
  lemma {:induction false} ScanSound(n: nat, at: nat -> Option<Match>, i: nat)
    requires Matcher(n, at)
    ensures Reported(at, Scan(n, at, i), i) && Ordered(Scan(n, at, i))
    decreases n - i
  {
    if i < n {
      if at(i).Some? && |at(i).value.text| > 0 {
        var m := at(i).value;
        var j := i + |m.text|;
        ScanSound(n, at, j);
        var rest := Scan(n, at, j);
        var r := Scan(n, at, i);
        assert r == [m] + rest;
        assert m.start == i;
        forall k | 0 <= k < |r|
          ensures i <= r[k].start && at(r[k].start) == Some(r[k])
        {
          if k > 0 {
            assert r[k] == rest[k - 1];
          }
        }
        forall a, b | 0 <= a < b < |r|
          ensures r[a].start + |r[a].text| <= r[b].start
        {
          if a > 0 {
            assert r[a] == rest[a - 1] && r[b] == rest[b - 1];
          } else {
            assert r[b] == rest[b - 1];
          }
        }
      } else {
        ScanSound(n, at, i + 1);
      }
    }
  }

  /** The scan skips no match: every position where the matcher matches starts a reported match. */
  lemma {:induction false} ScanComplete(n: nat, at: nat -> Option<Match>, i: nat, p: nat)
    requires Matcher(n, at) && Disjoint(at)
    requires i <= p && at(p).Some?
    ensures p in Starts(Scan(n, at, i))
    decreases n - i
  {
    assert p < n;
    if at(i).Some? {
      var j := i + |at(i).value.text|;
      StartsCons(at(i).value, Scan(n, at, j));
      if p >= j {
        ScanComplete(n, at, j, p);
      }
    } else {
      ScanComplete(n, at, i + 1, p);
    }
  }

  /** The matches of the pattern in `s`, in text order. */
  function Matches(s: string): seq<Match> {
    Scan(|s|, (p: nat) => MatchAt(s, p), 0)
  }

  lemma PatternMatcher(s: string)
    ensures Matcher(|s|, (p: nat) => MatchAt(s, p))
    ensures Disjoint((p: nat) => MatchAt(s, p))
  {
    forall p: nat, q: nat | MatchAt(s, p).Some? && p < q < p + |MatchAt(s, p).value.text|
      ensures MatchAt(s, q).None?
    {
      NoMatchInside(s, p, q);
    }
  }

  /** The scan reports exactly the matches of the matcher, each once and in increasing order. */
  lemma ScanSpec(n: nat, at: nat -> Option<Match>)
    requires Matcher(n, at) && Disjoint(at)
    ensures forall k :: 0 <= k < |Scan(n, at, 0)| ==> at(Scan(n, at, 0)[k].start) == Some(Scan(n, at, 0)[k])
    ensures forall a, b :: 0 <= a < b < |Scan(n, at, 0)| ==> Scan(n, at, 0)[a].start < Scan(n, at, 0)[b].start
    ensures forall p: nat :: at(p).Some? ==> p in Starts(Scan(n, at, 0))
  {
    var r := Scan(n, at, 0);
    ScanSound(n, at, 0);
    forall p: nat | at(p).Some?
      ensures p in Starts(r)
    {
      ScanComplete(n, at, 0, p);
    }
  }

  /**
   * The matches are exactly the positions where the pattern matches, each
   * once and in increasing order; so there are none exactly when the pattern
   * matches nowhere.
   */
  lemma MatchesSpec(s: string)
    ensures forall k :: 0 <= k < |Matches(s)| ==> MatchAt(s, Matches(s)[k].start) == Some(Matches(s)[k])
    ensures forall a, b :: 0 <= a < b < |Matches(s)| ==> Matches(s)[a].start < Matches(s)[b].start
    ensures forall p: nat :: MatchAt(s, p).Some? ==> p in Starts(Matches(s))
    ensures Matches(s) == [] <==> forall p: nat :: MatchAt(s, p).None?
  {
    var at := (p: nat) => MatchAt(s, p);
    var r := Matches(s);
    PatternMatcher(s);
    ScanSpec(|s|, at);
    forall k | 0 <= k < |r|
      ensures MatchAt(s, r[k].start) == Some(r[k])
    {
      assert at(r[k].start) == Some(r[k]);
    }
    forall p: nat | MatchAt(s, p).Some?
      ensures p in Starts(r)
    {
      assert at(p).Some?;
    }
    if r != [] {
      assert MatchAt(s, r[0].start).Some?;
    }
  }

  // ---------------------------------------------------------------------------
  // The due date (`new Date(ano, mes - 1, 1)`)
  // ---------------------------------------------------------------------------

  /** A calendar day; `month` runs from 1 to 12. */
  datatype CalendarDate = CalendarDate(year: int, month: nat, day: nat)

  /** `new Date(y, m, 1)` reads a year from 0 to 99 as 1900 onwards. */
  function FullYear(ano: nat): int {
    if ano <= 99 then 1900 + ano else ano
  }

  /** The first day of month `mes` of year `ano`; month 0 and months past 12 roll over into the neighbouring years. */
  function DueDate(m: Match): (d: CalendarDate)
    ensures 1 <= d.month <= 12 && d.day == 1
    ensures 12 * d.year + d.month == 12 * FullYear(m.ano) + m.mes
  {
    var k := m.mes - 1;
    CalendarDate(FullYear(m.ano) + k / 12, k % 12 + 1, 1)
  }

  /** For a month from 01 to 12 the due date is the first of that month of that year. */
  lemma DueDateInRange(m: Match)
    requires 1 <= m.mes <= 12 && m.ano >= 100
    ensures DueDate(m) == CalendarDate(m.ano, m.mes, 1)
  {
  }

  // ---------------------------------------------------------------------------
  // The equipment a match belongs to
  // ---------------------------------------------------------------------------

  const Unidentified := "Equipamento não identificado"

  /** `lines.find(linha => linha.includes(t))`. */
  function FindLine(lines: seq<string>, t: string): (r: Option<nat>)
    ensures r.Some? ==> r.value < |lines| && Includes(lines[r.value], t)
    ensures r.Some? ==> forall j :: 0 <= j < r.value ==> !Includes(lines[j], t)
    ensures r.None? ==> forall j :: 0 <= j < |lines| ==> !Includes(lines[j], t)
  {
    if lines == [] then None
    else if Includes(lines[0], t) then Some(0)
    else
      var r := FindLine(lines[1..], t);
      if r.Some? then Some(r.value + 1) else None
  }

  /** `linha.split(",")[0].trim()`: the trimmed text before the first comma. */
  function EquipmentName(line: string): (name: string)
    ensures name == Trim(line[..IndexOfChar(line, ',')])
    ensures !HasChar(name, ',')
  {
    SplitFirst(line, ',');
    var name := Trim(Split(line, ',')[0]);
    TrimIsInfix(line[..IndexOfChar(line, ',')]);
    name
  }

  /**
   * The equipment as the controllers compute it: the first line of the text
   * that contains the match's text, wherever the match itself was found.
   */
  function EquipmentAsWritten(text: string, m: Match): string {
    var lines := Split(text, '\n');
    var found := FindLine(lines, m.text);
    if found.Some? then EquipmentName(lines[found.value]) else Unidentified
  }

  /** A text without line feeds does not include a text that has one. */
  lemma NotIncludedAcrossLines(line: string, t: string)
    requires !HasChar(line, '\n') && HasChar(t, '\n')
    ensures !Includes(line, t)
  {
    var c :| 0 <= c < |t| && t[c] == '\n';
    forall i: int
      ensures !OccursAt(line, t, i)
    {
      if 0 <= i && i + |t| <= |line| {
        assert line[i..i + |t|][c] == line[i + c];
      }
    }
    IncludesSpec(line, t);
  }

  /**
   * As written, a match whose white space runs over a line feed lies in no
   * single line, so its equipment is not identified.
   */
  lemma AsWrittenAcrossLines(text: string, m: Match)
    requires HasChar(m.text, '\n')
    ensures EquipmentAsWritten(text, m) == Unidentified
  {
    var lines := Split(text, '\n');
    forall j | 0 <= j < |lines|
      ensures !Includes(lines[j], m.text)
    {
      NotIncludedAcrossLines(lines[j], m.text);
    }
  }

  /** Where the line holding position `p` starts: just after the last line feed before `p`. */
  function LineStart(s: string, p: nat): (a: nat)
    requires p <= |s|
    ensures a <= p
    ensures a == 0 || s[a - 1] == '\n'
    ensures forall q :: a <= q < p ==> s[q] != '\n'
  {
    if p == 0 || s[p - 1] == '\n' then p else LineStart(s, p - 1)
  }

  /** Where the line holding position `p` ends: at the first line feed from `p` on, or at the end. */
  function LineEnd(s: string, p: nat): (b: nat)
    requires p <= |s|
    ensures p <= b <= |s|
    ensures b == |s| || s[b] == '\n'
    ensures forall q :: p <= q < b ==> s[q] != '\n'
  {
    var k := IndexOfChar(s[p..], '\n');
    assert forall q :: p <= q < p + k ==> s[q] == s[p..][q - p];
    p + k
  }

  /** The line in which the match starts. */
  function EquipmentAt(text: string, m: Match): string {
    if m.start <= |text| then EquipmentName(text[LineStart(text, m.start)..LineEnd(text, m.start)]) else Unidentified
  }

  /** The first line of a two-line text, as `split("\n")` cuts it. */
  lemma FirstLine(l1: string, l2: string)
    requires !HasChar(l1, '\n')
    ensures Split(l1 + "\n" + l2, '\n')[0] == l1
  {
    var s := l1 + "\n" + l2;
    IndexOfCharAt(s, '\n', |l1|);
    SplitFirst(s, '\n');
    assert s[..|l1|] == l1;
  }

  /**
   * As written, a match in the second line whose text also occurs in the
   * first line is attributed to the first line's equipment.
   */
  lemma AsWrittenFirstLineWins(l1: string, l2: string, m: Match)
    requires !HasChar(l1, '\n') && Includes(l1, m.text)
    ensures EquipmentAsWritten(l1 + "\n" + l2, m) == EquipmentName(l1)
  {
    FirstLine(l1, l2);
  }

  /** Attributed by position, a match in the second line belongs to the second line's equipment. */
  lemma AtSecondLine(l1: string, l2: string, m: Match)
    requires !HasChar(l1, '\n') && !HasChar(l2, '\n')
    requires |l1| < m.start <= |l1| + |l2|
    ensures EquipmentAt(l1 + "\n" + l2, m) == EquipmentName(l2)
  {
    var s := l1 + "\n" + l2;
    var a := LineStart(s, m.start);
    var b := LineEnd(s, m.start);
    assert s[|l1|] == '\n';
    forall q | |l1| < q < |s|
      ensures s[q] == l2[q - |l1| - 1] && s[q] != '\n'
    {
    }
    assert a == |l1| + 1;
    assert b == |s|;
    assert s[a..b] == l2;
  }

  // ---------------------------------------------------------------------------
  // The requests both controllers make
  // ---------------------------------------------------------------------------

  /** A standard due within 90 days, or already expired, is notified. */
  const NoticeDays := 90

  /** What the controllers ask the notification store for: `criarNotificacaoVencimento(equipamento, dataVencimento, diasRestantes)`. */
  datatype Request = Request(equipamento: string, dataVencimento: CalendarDate, diasRestantes: int)

  /**
   * The requests for the matches `ms`, in order, each naming the equipment
   * `equipment` attributes its match to; `daysLeft` is the number of days
   * from now to a due date (`Math.ceil((date - now) / 86400000)`).
   */
  function RequestsFor(ms: seq<Match>, equipment: Match -> string, daysLeft: CalendarDate -> int): (rs: seq<Request>)
    ensures |rs| <= |ms|
    ensures forall k :: 0 <= k < |rs| ==> rs[k].diasRestantes <= NoticeDays
  {
    if ms == [] then []
    else
      var due := DueDate(ms[0]);
      var rest := RequestsFor(ms[1..], equipment, daysLeft);
      if daysLeft(due) <= NoticeDays then [Request(equipment(ms[0]), due, daysLeft(due))] + rest
      else rest
  }

  /**
   * The requests both controllers make: each match is attributed to the first
   * line holding its text, as they compute it.
   */
  function Requests(text: string, daysLeft: CalendarDate -> int): seq<Request> {
    RequestsFor(Matches(text), (m: Match) => EquipmentAsWritten(text, m), daysLeft)
  }

  /** The requests with each match attributed to the line it occurs in. */
  function CorrectedRequests(text: string, daysLeft: CalendarDate -> int): seq<Request> {
    RequestsFor(Matches(text), (m: Match) => EquipmentAt(text, m), daysLeft)
  }

  /** A match is notified exactly when its due date is at most 90 days away, in the order of the matches. */
  lemma {:induction false} RequestsForSpec(ms: seq<Match>, equipment: Match -> string, daysLeft: CalendarDate -> int)
    ensures RequestsFor(ms, equipment, daysLeft)
      == Map(Filter(ms, (m: Match) => daysLeft(DueDate(m)) <= NoticeDays),
             (m: Match) => Request(equipment(m), DueDate(m), daysLeft(DueDate(m))))
  {
    if ms != [] {
      RequestsForSpec(ms[1..], equipment, daysLeft);
    }
  }

  /**
   * The controllers' requests: one per match of the text due within 90 days,
   * in text order, naming the equipment of the first line that contains the
   * match's text.
   */
  lemma RequestsSpec(text: string, daysLeft: CalendarDate -> int)
    ensures Requests(text, daysLeft)
      == Map(Filter(Matches(text), (m: Match) => daysLeft(DueDate(m)) <= NoticeDays),
             (m: Match) => Request(EquipmentAsWritten(text, m), DueDate(m), daysLeft(DueDate(m))))
  {
    RequestsForSpec(Matches(text), (m: Match) => EquipmentAsWritten(text, m), daysLeft);
  }

  /** Two attributions give requests that differ in the equipment they name and nowhere else. */
  lemma {:induction false} AttributionOnlyNames(ms: seq<Match>, e1: Match -> string, e2: Match -> string, daysLeft: CalendarDate -> int)
    ensures |RequestsFor(ms, e1, daysLeft)| == |RequestsFor(ms, e2, daysLeft)|
    ensures forall k :: 0 <= k < |RequestsFor(ms, e1, daysLeft)| ==>
      RequestsFor(ms, e1, daysLeft)[k].(equipamento := RequestsFor(ms, e2, daysLeft)[k].equipamento)
        == RequestsFor(ms, e2, daysLeft)[k]
  {
    if ms != [] {
      AttributionOnlyNames(ms[1..], e1, e2, daysLeft);
    }
  }

  /**
   * The corrected requests are the controllers' requests with only the
   * equipment changed: the same matches, due dates and days left.
   */
  lemma CorrectedOnlyRenames(text: string, daysLeft: CalendarDate -> int)
    ensures |CorrectedRequests(text, daysLeft)| == |Requests(text, daysLeft)|
    ensures forall k :: 0 <= k < |Requests(text, daysLeft)| ==>
      Requests(text, daysLeft)[k].(equipamento := CorrectedRequests(text, daysLeft)[k].equipamento)
        == CorrectedRequests(text, daysLeft)[k]
  {
    AttributionOnlyNames(Matches(text), (m: Match) => EquipmentAsWritten(text, m), (m: Match) => EquipmentAt(text, m), daysLeft);
  }

  /**
   * As written, two matches with the same text, wherever they lie, ask for
   * the same equipment and the same due date, so the notification store,
   * which keeps one notice per equipment and due date, keeps only one of them.
   */
  lemma SameTextSameRequest(text: string, i: nat, j: nat)
    requires i < |Matches(text)| && j < |Matches(text)|
    requires Matches(text)[i].text == Matches(text)[j].text
    ensures EquipmentAsWritten(text, Matches(text)[i]) == EquipmentAsWritten(text, Matches(text)[j])
    ensures DueDate(Matches(text)[i]) == DueDate(Matches(text)[j])
  {
    var ms := Matches(text);
    NumbersOfMatch(text, i);
    NumbersOfMatch(text, j);
    assert ms[i].mes == ms[j].mes && ms[i].ano == ms[j].ano;
  }

  /** The numbers of a match are read off its text. */
  lemma NumbersOfMatch(text: string, k: nat)
    requires k < |Matches(text)|
    ensures |Matches(text)[k].text| >= 18
    ensures Matches(text)[k].mes == MonthOf(Matches(text)[k].text)
    ensures Matches(text)[k].ano == YearOf(Matches(text)[k].text)
  {
    var m := Matches(text)[k];
    MatchesSpec(text);
    assert MatchAt(text, m.start) == Some(m);
    MatchAtSound(text, m.start);
  }

  /** A text without a match asks for nothing. */
  lemma NoMatchNoRequest(text: string, daysLeft: CalendarDate -> int)
    requires forall p: nat :: MatchAt(text, p).None?
    ensures Requests(text, daysLeft) == []
  {
    MatchesSpec(text);
  }
}
