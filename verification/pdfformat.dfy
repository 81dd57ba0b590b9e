/**
 * The text formatters of the certificate document: numbers with a decimal
 * comma, the correction factor, the client's address and the block of
 * client and instrument data.
 */
module PdfFormat {
  import opened Wrappers
  import opened JsText
  import opened JsNumber

  // ---------------------------------------------------------------------------
  // formatarNumero and formatarFatorZ
  // ---------------------------------------------------------------------------

  /** What a formatter may be handed: a string, or a number (`Null` stands for `null` and `undefined`). */
  datatype Arg = Text(s: string) | Number(x: Value)

  /** `s.replace(a, b)` with a one-character pattern: only the first occurrence changes. */
  function ReplaceFirst(s: string, a: char, b: char): (r: string)
    ensures |r| == |s|
    ensures forall i :: 0 <= i < |s| ==> r[i] == (if i == IndexOfChar(s, a) then b else s[i])
  {
    var k := IndexOfChar(s, a);
    if k == |s| then s else s[..k] + [b] + s[k + 1..]
  }

  /** A decimal text with its point written as a comma. */
  function DecimalComma(s: string): string {
    ReplaceFirst(s, '.', ',')
  }

  /**
   * The shared body of both formatters: `d` decimals with a comma, the
   * fallback text for a missing, empty or unreadable value, and a string
   * that already holds a comma passed through.
   */
  function FormatDecimal(a: Arg, d: nat, fallback: string): string {
    match a
    case Text(s) =>
      if s == "" then fallback
      else if HasChar(s, ',') then s
      else if ParseFloat(s).None? then fallback
      else DecimalComma(FormatFixed(ParseFloat(s).value, d))
    case Number(x) =>
      match x
      case Null => fallback
      case NaN => fallback
      case Inf(positive) => if positive then "Infinity" else "-Infinity"
      case Num(v) => DecimalComma(FormatFixed(v, d))
  }

  /** `formatarNumero`: two decimals, `0,00` when there is nothing to show. */
  function FormatNumber(a: Arg): string {
    FormatDecimal(a, 2, "0,00")
  }

  /** `formatarFatorZ`: four decimals, `1,0000` when there is nothing to show. */
  function FormatFactor(a: Arg): string {
    FormatDecimal(a, 4, "1,0000")
  }

  /** The text of `toFixed` holds digits, at most a leading minus and one point, and never a comma. */
  lemma FormatFixedShape(x: real, d: nat)
    ensures var s := FormatFixed(x, d);
      && !HasChar(s, ',')
      && (forall i :: 0 <= i < |s| ==> IsDigit(s[i]) || s[i] == '-' || s[i] == '.')
      && (forall i, j :: 0 <= i < j < |s| && s[i] == '.' ==> s[j] != '.')
  {
    var n := ScaledMagnitude(x, d);
    var ip := NatToString(DropDigits(n, d));
    var fd := FixedDigits(n, d);
    var body := ip + (if fd == [] then "" else "." + fd);
    var s := FormatFixed(x, d);
    assert s == (if x < 0.0 then "-" + body else body);
    assert forall i :: 0 <= i < |body| && body[i] == '.' ==> i == |ip|;
    assert forall i :: 0 <= i < |s| ==> IsDigit(s[i]) || s[i] == '-' || s[i] == '.';
    assert forall i :: 0 <= i < |s| && s[i] == '.' ==> i == |s| - |body| + |ip|;
  }

  /** Turning the comma back into a point gives the text `toFixed` produced. */
  lemma DecimalCommaInverse(s: string)
    requires !HasChar(s, ',')
    ensures ReplaceFirst(DecimalComma(s), ',', '.') == s
  {
    var k := IndexOfChar(s, '.');
    var r := DecimalComma(s);
    assert forall i :: 0 <= i < |s| && i != k ==> r[i] == s[i] && s[i] != ',';
    if k < |s| {
      assert r[k] == ',';
      assert IndexOfChar(r, ',') == k;
    } else {
      assert IndexOfChar(r, ',') == |r|;
    }
  }

  /** The comma form holds no point: `toFixed` writes at most one, and it is the one replaced. */
  lemma DecimalCommaNoPoint(x: real, d: nat)
    ensures !HasChar(DecimalComma(FormatFixed(x, d)), '.')
  {
    var s := FormatFixed(x, d);
    FormatFixedShape(x, d);
    var r := DecimalComma(s);
    var k := IndexOfChar(s, '.');
    assert forall i :: 0 <= i < |s| && s[i] == '.' ==> i == k;
    assert forall i :: 0 <= i < |r| ==> r[i] != '.';
  }

  /**
   * A number is shown rounded to `d` decimals with a decimal comma: read
   * back with the comma as a point, the text is the rounded number, and no
   * point is left in it.
   */
  lemma FormatDecimalNumber(v: real, d: nat, fallback: string)
    ensures var t := FormatDecimal(Number(Num(v)), d, fallback);
      && !HasChar(t, '.')
      && ParseFloat(ReplaceFirst(t, ',', '.')) == Some(Round(v, d))
  {
    FormatFixedShape(v, d);
    DecimalCommaInverse(FormatFixed(v, d));
    DecimalCommaNoPoint(v, d);
    FormatFixedRoundTrip(v, d);
  }

  /** A numeric string without a comma is shown like the number it starts with. */
  lemma FormatDecimalText(s: string, d: nat, fallback: string)
    requires s != "" && !HasChar(s, ',') && ParseFloat(s).Some?
    ensures FormatDecimal(Text(s), d, fallback) == FormatDecimal(Number(Num(ParseFloat(s).value)), d, fallback)
  {
  }

  /** The two formatters fall back exactly on `null`, `undefined`, `''`, `NaN` and unreadable text. */
  lemma FormatFallbacks(a: Arg)
    ensures FormatNumber(a) == "0,00" <== (a == Number(Null) || a == Number(NaN) || a == Text("")
      || (a.Text? && !HasChar(a.s, ',') && ParseFloat(a.s).None?))
    ensures FormatFactor(a) == "1,0000" <== (a == Number(Null) || a == Number(NaN) || a == Text("")
      || (a.Text? && !HasChar(a.s, ',') && ParseFloat(a.s).None?))
    ensures a.Text? && HasChar(a.s, ',') ==> FormatNumber(a) == a.s && FormatFactor(a) == a.s
  {
  }

  /** `(99.876).toFixed(2)` is `99.88`, shown as `99,88`. */
  lemma NumberExample()
    ensures FormatNumber(Number(Num(99.876))) == "99,88"
  {
    assert ScaledMagnitude(99.876, 2) == 9988;
    assert NatToString(99) == "99";
    assert FixedDigits(9988, 2) == "88";
    assert FormatFixed(99.876, 2) == "99.88";
    assert IndexOfChar("99.88", '.') == 2;
  }

  // ---------------------------------------------------------------------------
  // formatarEnderecoCompleto
  // ---------------------------------------------------------------------------

  /** The address fields; `""` stands for a missing one. */
  datatype Address = Address(
    logradouro: string,
    rua: string,
    numero: string,
    bairro: string,
    cidade: string,
    estado: string,
    cep: string)

  /** A client, whose address is either a nested record or held by the client itself. */
  datatype Client = Client(nome: string, endereco: Option<Address>, own: Address)

  const NoClientText := "N/A"
  const NoAddressText := "Endereço não informado"

  /** `cliente.endereco || cliente`. */
  function AddressOf(c: Client): Address {
    if c.endereco.Some? then c.endereco.value else c.own
  }

  /** `cep.replace(/\D/g, '')`. */
  function CepDigits(cep: string): (r: string)
    ensures AllDigits(r)
  {
    Filter(cep, IsDigit)
  }

  /** `CEP 01140-000` for eight digits, nothing otherwise. */
  function CepText(cep: string): string {
    var digits := CepDigits(cep);
    if |digits| == 8 then "CEP " + digits[..5] + "-" + digits[5..] else ""
  }

  /** One piece of the address and the separator written before it when something precedes it. */
  datatype Part = Part(sep: string, text: string)

  /** The pieces in the order they are written; a piece with empty text is skipped. */
  function Parts(a: Address): (ps: seq<Part>)
    ensures |ps| == 6
  {
    [ Part("", if a.logradouro != "" then a.logradouro else a.rua),
      Part(", ", a.numero),
      Part(" - ", a.bairro),
      Part(" - ", a.cidade),
      Part(" - ", ToUpper(a.estado)),
      Part(" - ", CepText(a.cep)) ]
  }

  /** The step of the source for one piece: append it, after its separator when the text so far is not empty. */
  function AppendPart(acc: string, p: Part): string {
    if p.text == "" then acc
    else if acc == "" then p.text
    else acc + p.sep + p.text
  }

  /** The sequence of steps, from the text built so far. */
  function Build(acc: string, ps: seq<Part>): string
    decreases |ps|
  {
    if ps == [] then acc else Build(AppendPart(acc, ps[0]), ps[1..])
  }

  /** The pieces that are written: those with text. */
  function Kept(ps: seq<Part>): (r: seq<Part>)
    ensures forall k :: 0 <= k < |r| ==> r[k].text != ""
  {
    if ps == [] then [] else (if ps[0].text != "" then [ps[0]] else []) + Kept(ps[1..])
  }

  /** Every piece after the first, each behind its separator. */
  function Tail(ps: seq<Part>): string {
    if ps == [] then "" else ps[0].sep + ps[0].text + Tail(ps[1..])
  }

  /** The reference definition: the present pieces, the first bare and the rest behind their separators. */
  function Joined(ps: seq<Part>): string {
    if ps == [] then "" else ps[0].text + Tail(ps[1..])
  }

  /** `formatarEnderecoCompleto(cliente)`. */
  function FormatAddress(c: Option<Client>): string {
    if c.None? then NoClientText
    else
      var s := Build("", Parts(AddressOf(c.value)));
      if s == "" then NoAddressText else s
  }

  lemma ToUpperEmpty(s: string)
    ensures ToUpper(s) == "" <==> s == ""
  {
  }

  /** Building from a text joins it with the pieces that have text. */
  lemma {:induction false} BuildJoins(acc: string, ps: seq<Part>)
    ensures Build(acc, ps) == (if acc == "" then Joined(Kept(ps)) else acc + Tail(Kept(ps)))
    decreases |ps|
  {
    if ps != [] {
      var p := ps[0];
      var rest := Kept(ps[1..]);
      BuildJoins(AppendPart(acc, p), ps[1..]);
      if p.text != "" {
        assert Kept(ps) == [p] + rest;
        if acc != "" {
          assert acc + p.sep + p.text + Tail(rest) == acc + (p.sep + p.text + Tail(rest));
        }
      } else {
        assert Kept(ps) == rest;
      }
    }
  }

  /**
   * The address is the pieces with text joined in order, the number behind
   * `, ` and the rest behind ` - `; it falls back to a fixed text when no
   * piece has text, and to `N/A` when there is no client.
   */
  lemma FormatAddressSpec(c: Option<Client>)
    ensures c.None? ==> FormatAddress(c) == NoClientText
    ensures c.Some? ==>
      var f := Kept(Parts(AddressOf(c.value)));
      FormatAddress(c) == (if f == [] then NoAddressText else Joined(f))
  {
    if c.Some? {
      var f := Kept(Parts(AddressOf(c.value)));
      BuildJoins("", Parts(AddressOf(c.value)));
      if f != [] {
        assert f[0].text != "";
      }
    }
  }

  /** The post code is shown exactly when eight digits remain, as five digits, a dash and three digits. */
  lemma CepTextSpec(cep: string)
    ensures CepText(cep) != "" <==> |CepDigits(cep)| == 8
    ensures |CepDigits(cep)| == 8 ==>
      var t := CepText(cep);
      |t| == 13 && t[..4] == "CEP " && t[9] == '-' && AllDigits(t[4..9]) && AllDigits(t[10..])
  {
  }

  /** Pieces that all have text are all kept. */
  lemma KeptAll(ps: seq<Part>)
    requires forall k :: 0 <= k < |ps| ==> ps[k].text != ""
    ensures Kept(ps) == ps
  {
  }

  /** Six pieces that all have text are all written, each behind its separator. */
  lemma SixPieces(t0: string, t1: string, t2: string, t3: string, t4: string, t5: string)
    requires t0 != "" && t1 != "" && t2 != "" && t3 != "" && t4 != "" && t5 != ""
    ensures Build("", [Part("", t0), Part(", ", t1), Part(" - ", t2), Part(" - ", t3), Part(" - ", t4), Part(" - ", t5)])
      == t0 + ", " + t1 + " - " + t2 + " - " + t3 + " - " + t4 + " - " + t5
  {
    var ps := [Part("", t0), Part(", ", t1), Part(" - ", t2), Part(" - ", t3), Part(" - ", t4), Part(" - ", t5)];
    var b1 := t0;
    var b2 := b1 + ", " + t1;
    var b3 := b2 + " - " + t2;
    var b4 := b3 + " - " + t3;
    var b5 := b4 + " - " + t4;
    var b6 := b5 + " - " + t5;
    assert Build("", ps) == Build(b1, ps[1..]);
    assert Build(b1, ps[1..]) == Build(b2, ps[2..]);
    assert Build(b2, ps[2..]) == Build(b3, ps[3..]);
    assert Build(b3, ps[3..]) == Build(b4, ps[4..]);
    assert Build(b4, ps[4..]) == Build(b5, ps[5..]);
    assert Build(b5, ps[5..]) == Build(b6, []);
  }

  /** With every field present, the address reads `street, number - district - city - STATE - CEP ddddd-ddd`. */
  lemma FullAddress(a: Address)
    requires a.logradouro != "" && a.numero != "" && a.bairro != "" && a.cidade != "" && a.estado != ""
    requires |CepDigits(a.cep)| == 8
    ensures FormatAddress(Some(Client("", Some(a), a))) ==
      a.logradouro + ", " + a.numero + " - " + a.bairro + " - " + a.cidade + " - " + ToUpper(a.estado)
        + " - " + CepText(a.cep)
  {
    ToUpperEmpty(a.estado);
    CepTextSpec(a.cep);
    SixPieces(a.logradouro, a.numero, a.bairro, a.cidade, ToUpper(a.estado), CepText(a.cep));
  }

  // ---------------------------------------------------------------------------
  // criarBlocoDados
  // ---------------------------------------------------------------------------

  /** The certificate fields the data block shows; `""` stands for a missing one. */
  datatype Certificate = Certificate(
    tipoEquipamento: string,
    tipoInstrumento: string,
    capacidade: string,
    unidadeCapacidade: string,
    faixaIndicacao: string,
    unidadeFaixaIndicacao: string,
    faixaCalibrada: string,
    unidadeFaixaCalibrada: string,
    marcaPipeta: string,
    numeroIdentificacao: string,
    numeroPipeta: string,
    modeloPipeta: string)

  predicate IsRepeater(cert: Certificate) {
    cert.tipoEquipamento == "repipetador"
  }

  /** The `INSTRUMENTO` line. */
  function InstrumentLabel(cert: Certificate): string {
    if IsRepeater(cert) then "REPIPETADOR"
    else if cert.tipoEquipamento == "bureta" then "BURETA"
    else "MICROPIPETA " + (if cert.tipoInstrumento == "monocanal" then "MONOCANAL" else "MULTICANAL")
  }

  /** A range with its unit, or the capacity with its unit when the range is missing. */
  function RangeText(range: string, unit: string, cert: Certificate): string {
    if range != "" then range + unit else cert.capacidade + cert.unidadeCapacidade
  }

  /** `value?.toUpperCase() || 'N/A'`. */
  function UpperOrNA(s: string): (r: string)
    ensures r != ""
  {
    if ToUpper(s) == "" then NoClientText else ToUpper(s)
  }

  /** A heading and the text shown after it. */
  datatype Line = Line(heading: string, value: string)

  /**
   * The lines of the data block, in order; `date` is the calibration date
   * as the locale formats it.
   */
  function DataLines(cert: Certificate, client: Client, date: string): seq<Line> {
    [ Line("CLIENTE: ", UpperOrNA(client.nome)),
      Line("ENDEREÇO: ", ToUpper(FormatAddress(Some(client)))),
      Line("INSTRUMENTO: ", InstrumentLabel(cert)) ]
    + (if IsRepeater(cert) then []
       else [ Line("FAIXA DE INDICAÇÃO: ", RangeText(cert.faixaIndicacao, cert.unidadeFaixaIndicacao, cert)),
              Line("FAIXA CALIBRADA: ", RangeText(cert.faixaCalibrada, cert.unidadeFaixaCalibrada, cert)) ])
    + [ Line("FABRICANTE: ", UpperOrNA(cert.marcaPipeta)),
        Line("Nº DE IDENTIFICAÇÃO: ", UpperOrNA(cert.numeroIdentificacao)),
        Line("Nº DE SÉRIE: ", UpperOrNA(cert.numeroPipeta)),
        Line("MODELO: ", UpperOrNA(cert.modeloPipeta)),
        Line("DATA DE CALIBRAÇÃO: ", date),
        Line("DATA DA EMISSÃO DO CERTIFICADO: ", date) ]
  }

  /**
   * A repeater's block has no range lines, every other instrument's has
   * both; the instrument is named after the equipment type and, for a
   * pipette, its channel kind; the client, address and identification
   * lines are never blank.
   */
  lemma DataLinesSpec(cert: Certificate, client: Client, date: string)
    ensures var lines := DataLines(cert, client, date);
      && |lines| == (if IsRepeater(cert) then 9 else 11)
      && lines[2] == Line("INSTRUMENTO: ", InstrumentLabel(cert))
      && (InstrumentLabel(cert) == "REPIPETADOR" <==> IsRepeater(cert))
      && (forall k :: 0 <= k < |lines| && (k < 3 || |lines| - 6 <= k < |lines| - 2) ==> lines[k].value != "")
      && (!IsRepeater(cert) ==> lines[3].heading == "FAIXA DE INDICAÇÃO: " && lines[4].heading == "FAIXA CALIBRADA: ")
  {
    var lines := DataLines(cert, client, date);
    var addr := FormatAddress(Some(client));
    assert addr != "";
    ToUpperEmpty(addr);
    assert lines[1].value == ToUpper(addr);
    if !IsRepeater(cert) {
      assert cert.tipoEquipamento != "repipetador";
      assert InstrumentLabel(cert) != "REPIPETADOR" by {
        if cert.tipoEquipamento != "bureta" {
          assert InstrumentLabel(cert)[..12] == "MICROPIPETA ";
        }
      }
    }
  }
}
