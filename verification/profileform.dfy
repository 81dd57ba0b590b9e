/**
 * The settings page of `ConfiguracoesPage.jsx`: the profile form, its
 * validation, change detection, editing one field, the requests a save sends
 * and the page after a save, successful or not.
 */
module ProfileForm {
  import opened Wrappers
  import opened JsText
  import opened Http
  import Accounts
  import ExpiryChecks
  import Configuration
  import Notifications
  import Expiry

  /** The form fields. */
  datatype Field = Nome | Email | Cargo | Setor | SenhaAtual | NovaSenha | ConfirmarSenha

  datatype Form = Form(nome: string, email: string, cargo: string, setor: string,
                       senhaAtual: string, novaSenha: string, confirmarSenha: string)

  /** The logged-in user's profile as the page received it. */
  datatype Profile = Profile(nome: string, email: string, cargo: string, setor: string)

  /**
   * The page: the form, the standards text and the text as last saved, and
   * the `errors` object, split into the error of each field and the `submit`
   * error a failed save records.
   */
  datatype Page = Page(form: Form, padroes: string, originais: string, errors: map<Field, string>, submit: Option<string>)

  function Get(f: Form, x: Field): string {
    match x
    case Nome => f.nome
    case Email => f.email
    case Cargo => f.cargo
    case Setor => f.setor
    case SenhaAtual => f.senhaAtual
    case NovaSenha => f.novaSenha
    case ConfirmarSenha => f.confirmarSenha
  }

  /** `{ ...prev, [name]: value }`. */
  function Set(f: Form, x: Field, v: string): (r: Form)
    ensures Get(r, x) == v
    ensures forall y :: y != x ==> Get(r, y) == Get(f, y)
  {
    match x
    case Nome => f.(nome := v)
    case Email => f.(email := v)
    case Cargo => f.(cargo := v)
    case Setor => f.(setor := v)
    case SenhaAtual => f.(senhaAtual := v)
    case NovaSenha => f.(novaSenha := v)
    case ConfirmarSenha => f.(confirmarSenha := v)
  }

  // ---------------------------------------------------------------------------
  // The email pattern `^[^\s@]+@[^\s@]+\.[^\s@]+$`
  // ---------------------------------------------------------------------------

  /** A character `[^\s@]` accepts. */
  predicate Plain(c: char) {
    !IsSpace(c) && c != '@'
  }

  predicate AllPlain(s: string) {
    forall i :: 0 <= i < |s| ==> Plain(s[i])
  }

  /** `s` splits at `@` position `i` and `.` position `p` into three non-empty runs of plain characters. */
  predicate EmailSplit(s: string, i: int, p: int) {
    && 0 < i && i + 1 < p && p + 1 < |s|
    && s[i] == '@' && s[p] == '.'
    && AllPlain(s[..i]) && AllPlain(s[i + 1..p]) && AllPlain(s[p + 1..])
  }

  /** What the pattern accepts: some split into three runs. */
  ghost predicate EmailPattern(s: string) {
    exists i, p :: EmailSplit(s, i, p)
  }

  /** A `.` strictly inside `d`. */
  predicate DotInside(d: string) {
    exists p :: 0 < p < |d| - 1 && d[p] == '.'
  }

  /** The check as computed: plain text before the first `@`, and plain text after it with a `.` strictly inside. */
  predicate ValidEmail(s: string) {
    var i := IndexOfChar(s, '@');
    0 < i < |s| && AllPlain(s[..i]) && AllPlain(s[i + 1..]) && DotInside(s[i + 1..])
  }

  /** The computed check accepts exactly what the pattern accepts. */
  lemma ValidEmailIffPattern(s: string)
    ensures ValidEmail(s) <==> EmailPattern(s)
  {
    if ValidEmail(s) {
      var i := IndexOfChar(s, '@');
      var d := s[i + 1..];
      var q :| 0 < q < |d| - 1 && d[q] == '.';
      var p := i + 1 + q;
      assert s[i + 1..p] == d[..q];
      assert s[p + 1..] == d[q + 1..];
      assert EmailSplit(s, i, p);
    }
    if EmailPattern(s) {
      var i, p :| EmailSplit(s, i, p);
      assert forall j :: 0 <= j < i ==> s[j] == s[..i][j];
      IndexOfCharAt(s, '@', i);
      var d := s[i + 1..];
      forall j | 0 <= j < |d|
        ensures Plain(d[j])
      {
        if i + 1 + j < p {
          assert d[j] == s[i + 1..p][j];
        } else if i + 1 + j > p {
          assert d[j] == s[p + 1..][j - (p - i)];
        }
      }
      assert d[p - i - 1] == '.';
    }
  }

  // ---------------------------------------------------------------------------
  // Validation
  // ---------------------------------------------------------------------------

  const NameRequired := "Nome é obrigatório"
  const NameShort := "Nome deve ter pelo menos 3 caracteres"
  const EmailRequired := "Email é obrigatório"
  const EmailInvalid := "Email inválido"
  const CargoRequired := "Cargo é obrigatório"
  const SetorRequired := "Setor é obrigatório"
  const CurrentRequired := "Senha atual é obrigatória para alterar senha"
  const NewRequired := "Nova senha é obrigatória"
  const NewShort := "Senha deve ter pelo menos 6 caracteres"
  const ConfirmRequired := "Confirme a nova senha"
  const ConfirmMismatch := "As senhas não coincidem"

  /** The shortest name and new password the form accepts. */
  const MinName := 3
  const MinPassword := 6

  /** Some password field is filled in, which switches the password rules on. */
  predicate ChangingPassword(f: Form) {
    f.novaSenha != "" || f.confirmarSenha != "" || f.senhaAtual != ""
  }

  /** The error `validateForm` records for one field, if any. */
  function FieldError(f: Form, x: Field): Option<string> {
    match x
    case Nome =>
      if Trim(f.nome) == "" then Some(NameRequired)
      else if |Trim(f.nome)| < MinName then Some(NameShort)
      else None
    case Email =>
      if Trim(f.email) == "" then Some(EmailRequired)
      else if !ValidEmail(f.email) then Some(EmailInvalid)
      else None
    case Cargo => if Trim(f.cargo) == "" then Some(CargoRequired) else None
    case Setor => if Trim(f.setor) == "" then Some(SetorRequired) else None
    case SenhaAtual =>
      if ChangingPassword(f) && f.senhaAtual == "" then Some(CurrentRequired) else None
    case NovaSenha =>
      if !ChangingPassword(f) then None
      else if f.novaSenha == "" && (f.confirmarSenha != "" || f.senhaAtual != "") then Some(NewRequired)
      else if f.novaSenha != "" && |f.novaSenha| < MinPassword then Some(NewShort)
      else None
    case ConfirmarSenha =>
      if !ChangingPassword(f) then None
      else if f.confirmarSenha == "" && (f.novaSenha != "" || f.senhaAtual != "") then Some(ConfirmRequired)
      else if f.novaSenha != "" && f.confirmarSenha != "" && f.novaSenha != f.confirmarSenha then Some(ConfirmMismatch)
      else None
  }

  const AllFields: set<Field> := {Nome, Email, Cargo, Setor, SenhaAtual, NovaSenha, ConfirmarSenha}

  lemma EveryField()
    ensures forall x: Field :: x in AllFields
  {
    forall x: Field
      ensures x in AllFields
    {
      match x
      case Nome =>
      case Email =>
      case Cargo =>
      case Setor =>
      case SenhaAtual =>
      case NovaSenha =>
      case ConfirmarSenha =>
    }
  }

  /** The error map `validateForm` builds. */
  function Errors(f: Form): (m: map<Field, string>)
    ensures forall x :: x in m <==> FieldError(f, x).Some?
    ensures forall x :: x in m ==> m[x] == FieldError(f, x).value
  {
    EveryField();
    map x | x in AllFields && FieldError(f, x).Some? :: FieldError(f, x).value
  }

  /** `validateForm()`: the form is valid when the error map is empty. */
  function Validate(f: Form): bool {
    Errors(f) == map[]
  }

  /**
   * The form is valid exactly when the name has at least 3 characters after
   * trimming, the email fits the pattern, cargo and setor are not blank, and
   * either no password field is filled in or the current password is given
   * and the new one has at least 6 characters and is confirmed.
   */
  lemma ValidateSpec(f: Form)
    ensures Validate(f) <==>
      && |Trim(f.nome)| >= MinName
      && EmailPattern(f.email)
      && Trim(f.cargo) != "" && Trim(f.setor) != ""
      && (!ChangingPassword(f) || (f.senhaAtual != "" && |f.novaSenha| >= MinPassword && f.confirmarSenha == f.novaSenha))
  {
    EmailFieldSpec(f);
    if Validate(f) {
      assert Nome !in Errors(f) && Email !in Errors(f) && Cargo !in Errors(f) && Setor !in Errors(f);
      assert SenhaAtual !in Errors(f) && NovaSenha !in Errors(f) && ConfirmarSenha !in Errors(f);
    } else {
      var x :| x in Errors(f);
      assert FieldError(f, x).Some?;
    }
  }

  /** The email field has no error exactly when the email fits the pattern. */
  lemma EmailFieldSpec(f: Form)
    ensures FieldError(f, Email).None? <==> EmailPattern(f.email)
  {
    ValidEmailIffPattern(f.email);
    TrimEmptyIffAllSpace(f.email);
    if ValidEmail(f.email) {
      var i := IndexOfChar(f.email, '@');
      assert Plain(f.email[..i][0]);
      assert !AllSpace(f.email);
    }
  }

  // ---------------------------------------------------------------------------
  // Change detection and editing
  // ---------------------------------------------------------------------------

  /** The page after loading: the user's fields, empty passwords, and the configured standards text. */
  function Load(u: Profile, padroes: string): Page {
    Page(Form(u.nome, u.email, u.cargo, u.setor, "", "", ""), padroes, padroes, map[], None)
  }

  /** `hasChanges`: a profile field differs from the user, the standards text changed, or a password field is filled in. */
  predicate HasChanges(p: Page, u: Profile) {
    || p.form.nome != u.nome || p.form.email != u.email || p.form.cargo != u.cargo || p.form.setor != u.setor
    || p.padroes != p.originais
    || p.form.senhaAtual != "" || p.form.novaSenha != "" || p.form.confirmarSenha != ""
  }

  /** `handleInputChange`: set the field, and blank its error if it had one. */
  function Edit(p: Page, x: Field, v: string): (r: Page)
    ensures Get(r.form, x) == v
    ensures forall y :: y != x ==> Get(r.form, y) == Get(p.form, y)
    ensures r.padroes == p.padroes && r.originais == p.originais && r.submit == p.submit
    ensures r.errors.Keys == p.errors.Keys
    ensures forall y :: y in p.errors && y != x ==> r.errors[y] == p.errors[y]
    ensures x in r.errors ==> r.errors[x] == ""
  {
    var errors := if x in p.errors && p.errors[x] != "" then p.errors[x := ""] else p.errors;
    p.(form := Set(p.form, x, v), errors := errors)
  }

  /** A freshly loaded page has no changes, and typing a new password makes one. */
  lemma LoadHasNoChanges(u: Profile, padroes: string)
    ensures !HasChanges(Load(u, padroes), u)
    ensures HasChanges(Edit(Load(u, padroes), NovaSenha, "x"), u)
  {
  }

  // ---------------------------------------------------------------------------
  // Saving
  // ---------------------------------------------------------------------------

  /**
   * The body of `PUT /usuarios/perfil`, sent when a profile field changed or
   * a new password was typed: the four fields, plus the passwords only when
   * a new one was typed.
   */
  function ProfileRequest(p: Page, u: Profile): Option<Accounts.ProfileEdit> {
    var f := p.form;
    if f.nome != u.nome || f.email != u.email || f.cargo != u.cargo || f.setor != u.setor || f.novaSenha != "" then
      Some(Accounts.ProfileEdit(Some(f.nome), Some(f.email), Some(f.cargo), Some(f.setor),
                                if f.novaSenha != "" then Some(f.senhaAtual) else None,
                                if f.novaSenha != "" then Some(f.novaSenha) else None,
                                None))
    else None
  }

  /** The body of `PUT /configuracoes/padroes`, sent when the standards text changed. */
  function StandardsRequest(p: Page): Option<string> {
    if p.padroes != p.originais then Some(p.padroes) else None
  }

  /**
   * A page that passes validation never asks the server for a password
   * change without the current password, so that 400 cannot arise from it;
   * and a blank new password is never sent.
   */
  lemma ValidRequestHasCurrentPassword(p: Page, u: Profile, st: Accounts.Accounts, id: nat, matches: (string, string) -> bool)
    requires Validate(p.form) && ProfileRequest(p, u).Some?
    ensures var e := ProfileRequest(p, u).value;
      && (Accounts.Given(e.novaSenha) ==> Accounts.Given(e.senhaAtual))
      && Accounts.UpdateProfile(st, id, e, matches).reply != Reply(BadRequest, Accounts.CurrentPasswordRequired)
  {
    ValidateSpec(p.form);
    var e := ProfileRequest(p, u).value;
    if Accounts.Given(e.novaSenha) {
      assert p.form.novaSenha != "";
      assert ChangingPassword(p.form);
    }
  }

  /**
   * Validation does not look at the standards text: clearing it passes the
   * form and sends an empty text, which the server refuses with 400.
   */
  lemma ClearedStandardsRefused(p: Page, cfg: Configuration.Store, st: Notifications.Store, now: int,
                                daysLeft: Expiry.CalendarDate -> int, failAt: Option<nat>, configFails: bool)
    requires p.padroes == "" && p.originais != ""
    ensures StandardsRequest(p) == Some("")
    ensures ExpiryChecks.UpdatePadroesUtilizados(StandardsRequest(p), cfg, st, now, daysLeft, failAt, configFails).reply.status == BadRequest
  {
  }

  /** The page after a successful save: the password fields emptied, the standards text recorded as saved, no error. */
  function AfterSave(p: Page): (r: Page)
    ensures r.form.senhaAtual == "" && r.form.novaSenha == "" && r.form.confirmarSenha == ""
    ensures r.form.nome == p.form.nome && r.form.email == p.form.email && r.form.cargo == p.form.cargo && r.form.setor == p.form.setor
    ensures r.padroes == p.padroes && r.originais == p.padroes
    ensures r.errors == map[] && r.submit.None?
  {
    p.(form := p.form.(senhaAtual := "", novaSenha := "", confirmarSenha := ""), originais := p.padroes,
       errors := map[], submit := None)
  }

  const SaveFailed := "Erro ao salvar configurações"

  /**
   * A refused or failed request, as the page sees it: the `message` of the
   * server's reply and the error's own message, each `""` when absent.
   */
  datatype RequestError = RequestError(replyMessage: string, errorMessage: string)

  /** `error.response?.data?.message || error.message || "Erro ao salvar configurações"`. */
  function SubmitMessage(e: RequestError): (m: string)
    ensures m != ""
    ensures e.replyMessage != "" ==> m == e.replyMessage
    ensures e.replyMessage == "" && e.errorMessage != "" ==> m == e.errorMessage
    ensures e.replyMessage == "" && e.errorMessage == "" ==> m == SaveFailed
  {
    if e.replyMessage != "" then e.replyMessage
    else if e.errorMessage != "" then e.errorMessage
    else SaveFailed
  }

  /**
   * `handleSave`: `validateForm` replaces the errors with those of the form;
   * an invalid form stops there. Otherwise the requests are sent, and
   * `failure` is the error of the first one that fails, if any: then the
   * errors become just its `submit` message and the page is otherwise kept,
   * the standards text still counting as unsaved; when none fails the page
   * is the one after a successful save.
   */
  function Save(p: Page, failure: Option<RequestError>): (r: Page)
    ensures r.padroes == p.padroes
    ensures !Validate(p.form) ==>
      r.errors == Errors(p.form) && r.submit.None? && r.form == p.form && r.originais == p.originais
    ensures Validate(p.form) && failure.Some? ==>
      r.errors == map[] && r.submit == Some(SubmitMessage(failure.value)) && r.form == p.form && r.originais == p.originais
    ensures Validate(p.form) && failure.None? ==> r == AfterSave(p)
  {
    var checked := p.(errors := Errors(p.form), submit := None);
    if !Validate(p.form) then checked
    else if failure.Some? then checked.(errors := map[], submit := Some(SubmitMessage(failure.value)))
    else AfterSave(checked)
  }

  /**
   * After a save the page shows no error exactly when the form was valid and
   * every request succeeded; errors left from an earlier save never survive.
   */
  lemma SaveErrors(p: Page, failure: Option<RequestError>)
    ensures (Save(p, failure).errors == map[] && Save(p, failure).submit.None?) <==> Validate(p.form) && failure.None?
    ensures forall x :: x in Save(p, failure).errors ==> FieldError(p.form, x) == Some(Save(p, failure).errors[x])
  {
    if !Validate(p.form) {
      assert Errors(p.form) != map[];
    }
  }

  /** After a save the page shows changes only where a profile field differs from the user it compares against. */
  lemma AfterSaveChanges(p: Page, u: Profile)
    ensures HasChanges(AfterSave(p), u) <==>
      p.form.nome != u.nome || p.form.email != u.email || p.form.cargo != u.cargo || p.form.setor != u.setor
    ensures StandardsRequest(AfterSave(p)).None?
  {
  }
}
