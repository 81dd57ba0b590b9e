/**
 * The decisions of `usuariosController.js` over a store of users and reset
 * tokens: login, registration, profile and administrative updates, password
 * reset, presence and the list of active users. Password checking is the
 * parameter `matches(entered, stored)`, standing for the hash comparison.
 */
module Accounts {
  import opened Wrappers
  import opened JsText
  import opened Sorting
  import opened Http

  datatype User = User(
    id: nat,
    nome: string,
    email: string,
    senha: string,
    cargo: string,
    setor: string,
    verificado: bool,
    isAdmin: bool,
    padroesUtilizados: Option<string>,
    online: bool,
    ultimoHeartbeat: Option<int>)

  /** A password-reset token: its user, its text, whether it was used, and when it expires. */
  datatype ResetToken = ResetToken(usuario: nat, token: string, usado: bool, expiresAt: int)

  /** The users and reset tokens in insertion order, and the next free user id. */
  datatype Accounts = Accounts(users: seq<User>, nextId: nat, tokens: seq<ResetToken>)

  /** The reply, the user a session token was issued for (if any), and the state afterwards. */
  datatype Outcome = Outcome(reply: Reply, session: Option<nat>, state: Accounts)

  /** User ids are unique and below the next free id, and no two users share an email (the unique index). */
  predicate Valid(st: Accounts) {
    && (forall k :: 0 <= k < |st.users| ==> st.users[k].id < st.nextId)
    && (forall a, b :: 0 <= a < b < |st.users| ==> st.users[a].id != st.users[b].id)
    && (forall a, b :: 0 <= a < b < |st.users| ==> st.users[a].email != st.users[b].email)
  }

  /** A request field counts as given when it is present and not the empty string. */
  predicate Given(field: Option<string>) {
    field.Some? && field.value != ""
  }

  /** `body.field || current`. */
  function Or(field: Option<string>, current: string): (r: string)
    ensures Given(field) ==> r == field.value
    ensures !Given(field) ==> r == current
  {
    if Given(field) then field.value else current
  }

  /** `findOne({ email })`: the first user with that email. */
  function FindEmail(users: seq<User>, email: string): (r: Option<nat>)
    ensures r.Some? ==> r.value < |users| && users[r.value].email == email
    ensures r.Some? ==> forall j :: 0 <= j < r.value ==> users[j].email != email
    ensures r.None? ==> forall j :: 0 <= j < |users| ==> users[j].email != email
  {
    if users == [] then None
    else if users[0].email == email then Some(0)
    else
      var r := FindEmail(users[1..], email);
      if r.Some? then Some(r.value + 1) else None
  }

  /** `findById(id)`. */
  function FindId(users: seq<User>, id: nat): Option<nat> {
    FindIndex(users, (u: User) => u.id == id)
  }

  const UserNotFound := "Usuário não encontrado"
  /** Stands for the database's duplicate-key error, whose text comes from the driver. */
  const DuplicateEmail := "E11000 duplicate key error: email"

  /** Some user other than the one at index `k` has email `email`. */
  predicate EmailTaken(users: seq<User>, k: nat, email: string) {
    exists j :: 0 <= j < |users| && j != k && users[j].email == email
  }

  // ---------------------------------------------------------------------------
  // Login
  // ---------------------------------------------------------------------------

  const NotVerified := "Conta não verificada. Entre em contato com o administrador."
  const InvalidLogin := "Email ou senha inválidos"

  /** `authUsuario`: a session only for a verified user whose password matches. */
  function Login(st: Accounts, email: string, senha: string, matches: (string, string) -> bool): (o: Outcome)
    ensures o.state == st
    ensures o.session.Some? <==> o.reply.status == OK
    ensures o.session.Some? <==> (FindEmail(st.users, email).Some? && matches(senha, st.users[FindEmail(st.users, email).value].senha)
      && st.users[FindEmail(st.users, email).value].verificado)
    ensures o.session.Some? ==> o.session.value == st.users[FindEmail(st.users, email).value].id
    ensures o.reply == Reply(Unauthorized, NotVerified) <==>
      (FindEmail(st.users, email).Some? && matches(senha, st.users[FindEmail(st.users, email).value].senha)
      && !st.users[FindEmail(st.users, email).value].verificado)
  {
    var f := FindEmail(st.users, email);
    if f.Some? && matches(senha, st.users[f.value].senha) then
      if !st.users[f.value].verificado then Outcome(Reply(Unauthorized, NotVerified), None, st)
      else Outcome(Reply(OK, ""), Some(st.users[f.value].id), st)
    else Outcome(Reply(Unauthorized, InvalidLogin), None, st)
  }

  /** An unknown email and a wrong password get the same reply, so a failed login does not tell which. */
  lemma LoginDoesNotTellWhy(st: Accounts, unknown: string, known: string, wrong: string, senha: string,
                            matches: (string, string) -> bool)
    requires FindEmail(st.users, unknown).None?
    requires FindEmail(st.users, known).Some? && !matches(wrong, st.users[FindEmail(st.users, known).value].senha)
    ensures Login(st, unknown, senha, matches) == Login(st, known, wrong, matches)
    ensures Login(st, unknown, senha, matches).reply == Reply(Unauthorized, InvalidLogin)
  {
  }

  // ---------------------------------------------------------------------------
  // Registration
  // ---------------------------------------------------------------------------

  /** The fields of a registration; `isAdmin` is `None` when absent. */
  datatype Registration = Registration(nome: string, email: string, senha: string, cargo: string, setor: string, isAdmin: Option<bool>)

  const UserExists := "Usuário já existe"
  /** Stands for the database's validation error for a missing required field. */
  const ValidationFailed := "Usuario validation failed"

  /** Every required field is a non-empty string. */
  predicate Complete(r: Registration) {
    r.nome != "" && r.email != "" && r.senha != "" && r.cargo != "" && r.setor != ""
  }

  /**
   * `registerUsuario`: refused when the email is taken or a required field is
   * missing; otherwise a new verified user, an administrator only when asked.
   */
  function Register(st: Accounts, r: Registration): (o: Outcome)
    ensures FindEmail(st.users, r.email).Some? ==> o == Outcome(Reply(BadRequest, UserExists), None, st)
    ensures o.reply.status == CreatedStatus <==> FindEmail(st.users, r.email).None? && Complete(r)
    ensures o.reply.status != CreatedStatus ==> o.reply.status == BadRequest && o.state == st && o.session.None?
    ensures o.reply.status == CreatedStatus ==>
      && |o.state.users| == |st.users| + 1
      && o.state == st.(users := st.users + [o.state.users[|st.users|]], nextId := st.nextId + 1)
      && o.session == Some(st.nextId)
  {
    if FindEmail(st.users, r.email).Some? then Outcome(Reply(BadRequest, UserExists), None, st)
    else if !Complete(r) then Outcome(Reply(BadRequest, ValidationFailed), None, st)
    else
      var u := User(st.nextId, r.nome, r.email, r.senha, r.cargo, r.setor, true, r.isAdmin == Some(true), None, false, None);
      Outcome(Reply(CreatedStatus, ""), Some(u.id), st.(users := st.users + [u], nextId := st.nextId + 1))
  }

  /** A registered user is verified, holds the given fields, and is an administrator only when asked to be. */
  lemma RegisterSpec(st: Accounts, r: Registration)
    requires Register(st, r).reply.status == CreatedStatus
    ensures var u := Register(st, r).state.users[|st.users|];
      && u.id == st.nextId && u.verificado && (u.isAdmin <==> r.isAdmin == Some(true))
      && u.nome == r.nome && u.email == r.email && u.senha == r.senha && u.cargo == r.cargo && u.setor == r.setor
  {
  }

  /** Registration keeps ids and emails unique. */
  lemma RegisterPreserves(st: Accounts, r: Registration)
    requires Valid(st)
    ensures Valid(Register(st, r).state)
  {
  }

  // ---------------------------------------------------------------------------
  // Profile and administrative updates
  // ---------------------------------------------------------------------------

  /** The body of a profile update; `None` is an absent field. */
  datatype ProfileEdit = ProfileEdit(
    nome: Option<string>, email: Option<string>, cargo: Option<string>, setor: Option<string>,
    senhaAtual: Option<string>, novaSenha: Option<string>, padroesUtilizados: Option<string>)

  const CurrentPasswordRequired := "Senha atual é obrigatória para alterar a senha"
  const CurrentPasswordWrong := "Senha atual incorreta"

  /** The user after a profile edit: given fields replace, absent ones keep; the password only when a new one is given. */
  function EditedProfile(u: User, e: ProfileEdit): User {
    u.(nome := Or(e.nome, u.nome), email := Or(e.email, u.email), cargo := Or(e.cargo, u.cargo), setor := Or(e.setor, u.setor),
       senha := Or(e.novaSenha, u.senha),
       padroesUtilizados := if e.padroesUtilizados.Some? then e.padroesUtilizados else u.padroesUtilizados)
  }

  /**
   * `updateUsuarioPerfil` for the logged-in user `id`: a new password needs
   * the current one, and it must match; the save fails when the new email
   * belongs to someone else.
   */
  function UpdateProfile(st: Accounts, id: nat, e: ProfileEdit, matches: (string, string) -> bool): (o: Outcome)
    ensures FindId(st.users, id).None? ==> o == Outcome(Reply(NotFound, UserNotFound), None, st)
    ensures Given(e.novaSenha) && !Given(e.senhaAtual) && FindId(st.users, id).Some? ==>
      o == Outcome(Reply(BadRequest, CurrentPasswordRequired), None, st)
    ensures o.reply.status != OK ==> o.state == st && o.session.None?
    ensures o.reply.status == OK <==>
      && FindId(st.users, id).Some?
      && (Given(e.novaSenha) ==> Given(e.senhaAtual) && matches(e.senhaAtual.value, st.users[FindId(st.users, id).value].senha))
      && !EmailTaken(st.users, FindId(st.users, id).value, Or(e.email, st.users[FindId(st.users, id).value].email))
    ensures o.reply.status == OK ==>
      && o.session == Some(id)
      && o.state == st.(users := st.users[FindId(st.users, id).value := EditedProfile(st.users[FindId(st.users, id).value], e)])
  {
    var f := FindId(st.users, id);
    if f.None? then Outcome(Reply(NotFound, UserNotFound), None, st)
    else
      var u := st.users[f.value];
      if Given(e.novaSenha) && !Given(e.senhaAtual) then Outcome(Reply(BadRequest, CurrentPasswordRequired), None, st)
      else if Given(e.novaSenha) && !matches(e.senhaAtual.value, u.senha) then Outcome(Reply(Unauthorized, CurrentPasswordWrong), None, st)
      else
        var v := EditedProfile(u, e);
        if EmailTaken(st.users, f.value, v.email) then Outcome(Reply(BadRequest, DuplicateEmail), None, st)
        else Outcome(Reply(OK, ""), Some(id), st.(users := st.users[f.value := v]))
  }

  /**
   * An edit without a new password leaves the password as it was, and the
   * standards text changes only when the field is present.
   */
  lemma EditedProfileSpec(u: User, e: ProfileEdit)
    ensures !Given(e.novaSenha) ==> EditedProfile(u, e).senha == u.senha
    ensures e.padroesUtilizados.None? ==> EditedProfile(u, e).padroesUtilizados == u.padroesUtilizados
    ensures e.padroesUtilizados.Some? ==> EditedProfile(u, e).padroesUtilizados == e.padroesUtilizados
    ensures EditedProfile(u, e).id == u.id && EditedProfile(u, e).verificado == u.verificado && EditedProfile(u, e).isAdmin == u.isAdmin
    ensures EditedProfile(u, ProfileEdit(None, None, None, None, None, None, None)) == u
  {
  }

  /** The body of an administrative update; `isAdmin` is `None` when absent. */
  datatype AdminEdit = AdminEdit(nome: Option<string>, email: Option<string>, cargo: Option<string>, setor: Option<string>, isAdmin: Option<bool>)

  /** The user after an administrative edit: `isAdmin` is replaced whenever it is present, `false` included. */
  function EditedByAdmin(u: User, e: AdminEdit): User {
    u.(nome := Or(e.nome, u.nome), email := Or(e.email, u.email), cargo := Or(e.cargo, u.cargo), setor := Or(e.setor, u.setor),
       isAdmin := if e.isAdmin.Some? then e.isAdmin.value else u.isAdmin)
  }

  /** `updateUsuario(id)`. */
  function UpdateUser(st: Accounts, id: nat, e: AdminEdit): (o: Outcome)
    ensures o.session.None?
    ensures FindId(st.users, id).None? ==> o == Outcome(Reply(NotFound, UserNotFound), None, st)
    ensures o.reply.status != OK ==> o.state == st
    ensures o.reply.status == OK <==> (FindId(st.users, id).Some?
      && !EmailTaken(st.users, FindId(st.users, id).value, Or(e.email, st.users[FindId(st.users, id).value].email)))
    ensures o.reply.status == OK ==>
      o.state == st.(users := st.users[FindId(st.users, id).value := EditedByAdmin(st.users[FindId(st.users, id).value], e)])
  {
    var f := FindId(st.users, id);
    if f.None? then Outcome(Reply(NotFound, UserNotFound), None, st)
    else
      var v := EditedByAdmin(st.users[f.value], e);
      if EmailTaken(st.users, f.value, v.email) then Outcome(Reply(BadRequest, DuplicateEmail), None, st)
      else Outcome(Reply(OK, ""), None, st.(users := st.users[f.value := v]))
  }

  /** `isAdmin: false` revokes administration; an absent `isAdmin` keeps it; the password never changes. */
  lemma EditedByAdminSpec(u: User, e: AdminEdit)
    ensures e.isAdmin == Some(false) ==> !EditedByAdmin(u, e).isAdmin
    ensures e.isAdmin.None? ==> EditedByAdmin(u, e).isAdmin == u.isAdmin
    ensures EditedByAdmin(u, e).senha == u.senha && EditedByAdmin(u, e).id == u.id
  {
  }

  /** Replacing a user by one with the same id and an email nobody else has keeps the state valid. */
  lemma ReplacePreserves(st: Accounts, k: nat, v: User)
    requires Valid(st) && k < |st.users| && v.id == st.users[k].id
    requires !EmailTaken(st.users, k, v.email)
    ensures Valid(st.(users := st.users[k := v]))
  {
    var users := st.users[k := v];
    forall a, b | 0 <= a < b < |users|
      ensures users[a].email != users[b].email
    {
      if a == k {
        assert st.users[b].email != v.email;
      } else if b == k {
        assert st.users[a].email != v.email;
      }
    }
  }

  /** Both kinds of update keep ids and emails unique. */
  lemma UpdatesPreserve(st: Accounts, id: nat, pe: ProfileEdit, ae: AdminEdit, matches: (string, string) -> bool)
    requires Valid(st)
    ensures Valid(UpdateProfile(st, id, pe, matches).state)
    ensures Valid(UpdateUser(st, id, ae).state)
  {
    var f := FindId(st.users, id);
    if f.Some? {
      var u := st.users[f.value];
      if !EmailTaken(st.users, f.value, EditedProfile(u, pe).email) {
        ReplacePreserves(st, f.value, EditedProfile(u, pe));
      }
      if !EmailTaken(st.users, f.value, EditedByAdmin(u, ae).email) {
        ReplacePreserves(st, f.value, EditedByAdmin(u, ae));
      }
    }
  }

  // ---------------------------------------------------------------------------
  // Password reset
  // ---------------------------------------------------------------------------

  const EmailRequired := "Email é obrigatório"
  const ResetMaybeSent := "Se o email estiver cadastrado, você receberá as instruções de recuperação."
  const ResetSent := "Email de recuperação enviado. Verifique sua caixa de entrada."

  /**
   * `requestPasswordReset`: `newToken` is the random token and `expiresAt` its
   * expiry; an unknown email is answered with success and creates nothing.
   */
  function RequestReset(st: Accounts, email: Option<string>, newToken: string, expiresAt: int): (o: Outcome)
    ensures o.session.None? && o.state.users == st.users && o.state.nextId == st.nextId
    ensures !Given(email) ==> o.reply == Reply(BadRequest, EmailRequired)
    ensures Given(email) ==> o.reply.status == OK
    ensures Given(email) && FindEmail(st.users, email.value).None? ==> o.reply.message == ResetMaybeSent
    ensures o.state.tokens != st.tokens <==> Given(email) && FindEmail(st.users, email.value).Some?
    ensures o.state.tokens != st.tokens ==>
      o.state.tokens == st.tokens + [ResetToken(st.users[FindEmail(st.users, email.value).value].id, newToken, false, expiresAt)]
  {
    if !Given(email) then Outcome(Reply(BadRequest, EmailRequired), None, st)
    else
      var f := FindEmail(st.users, email.value);
      if f.None? then Outcome(Reply(OK, ResetMaybeSent), None, st)
      else
        var t := ResetToken(st.users[f.value].id, newToken, false, expiresAt);
        assert st.tokens + [t] != st.tokens by {
          assert |st.tokens + [t]| != |st.tokens|;
        }
        Outcome(Reply(OK, ResetSent), None, st.(tokens := st.tokens + [t]))
  }

  /** Both answers have status 200, but their messages differ, so the reply does tell whether the email is registered. */
  lemma ResetReplyRevealsEmail(st: Accounts, unknown: string, known: string, newToken: string, expiresAt: int)
    requires unknown != "" && known != ""
    requires FindEmail(st.users, unknown).None? && FindEmail(st.users, known).Some?
    ensures RequestReset(st, Some(unknown), newToken, expiresAt).reply.status == RequestReset(st, Some(known), newToken, expiresAt).reply.status
    ensures RequestReset(st, Some(unknown), newToken, expiresAt).reply != RequestReset(st, Some(known), newToken, expiresAt).reply
  {
    assert |ResetMaybeSent| != |ResetSent|;
  }

  /**
   * The reset request as the handler's own comment intends it: every given
   * email gets the same answer, registered or not. The tokens it stores are
   * those of `RequestReset`.
   */
  function RequestResetUniform(st: Accounts, email: Option<string>, newToken: string, expiresAt: int): (o: Outcome)
    ensures o.state == RequestReset(st, email, newToken, expiresAt).state
    ensures !Given(email) ==> o.reply == Reply(BadRequest, EmailRequired)
    ensures Given(email) ==> o.reply == Reply(OK, ResetMaybeSent)
  {
    var o := RequestReset(st, email, newToken, expiresAt);
    if Given(email) then o.(reply := Reply(OK, ResetMaybeSent)) else o
  }

  /** With the uniform answer, the reply no longer tells a registered email from an unknown one. */
  lemma UniformResetHidesEmail(st: Accounts, unknown: string, known: string, newToken: string, expiresAt: int)
    requires unknown != "" && known != ""
    requires FindEmail(st.users, unknown).None? && FindEmail(st.users, known).Some?
    ensures RequestResetUniform(st, Some(unknown), newToken, expiresAt).reply
         == RequestResetUniform(st, Some(known), newToken, expiresAt).reply
    ensures RequestResetUniform(st, Some(known), newToken, expiresAt).state.tokens
         != RequestResetUniform(st, Some(unknown), newToken, expiresAt).state.tokens
  {
  }

  const NewPasswordRequired := "Nova senha é obrigatória"
  const PasswordTooShort := "Senha deve ter no mínimo 6 caracteres"
  const TokenInvalid := "Token inválido ou expirado. Solicite uma nova recuperação."
  const ResetFailed := "Erro ao redefinir senha. Tente novamente."
  const ResetDone := "Senha redefinida com sucesso! Você já pode fazer login."

  /** The minimum length of a new password. */
  const MinPassword := 6

  /** The token can still be used at time `now`. */
  predicate Usable(t: ResetToken, token: string, now: int) {
    t.token == token && !t.usado && t.expiresAt > now
  }

  /** `ResetToken.findOne({ token, usado: false, expiresAt: { $gt: now } })`. */
  function FindToken(tokens: seq<ResetToken>, token: string, now: int): (r: Option<nat>)
    ensures r.Some? ==> r.value < |tokens| && Usable(tokens[r.value], token, now)
    ensures r.None? ==> forall j :: 0 <= j < |tokens| ==> !Usable(tokens[j], token, now)
  {
    if tokens == [] then None
    else if Usable(tokens[0], token, now) then Some(0)
    else
      var r := FindToken(tokens[1..], token, now);
      if r.Some? then Some(r.value + 1) else None
  }

  /**
   * `resetPassword(token)` at time `now`: the password is checked before the
   * token; a usable token whose user is gone fails with 500 and changes nothing.
   */
  function ResetPassword(st: Accounts, token: string, senha: Option<string>, now: int): (o: Outcome)
    ensures o.session.None?
    ensures !Given(senha) ==> o.reply == Reply(BadRequest, NewPasswordRequired)
    ensures Given(senha) && |senha.value| < MinPassword ==> o.reply == Reply(BadRequest, PasswordTooShort)
    ensures Given(senha) && |senha.value| >= MinPassword && FindToken(st.tokens, token, now).None? ==>
      o.reply == Reply(BadRequest, TokenInvalid)
    ensures o.reply.status != OK ==> o.state == st
    ensures o.reply.status == OK <==> (Given(senha) && |senha.value| >= MinPassword && FindToken(st.tokens, token, now).Some?
      && FindId(st.users, st.tokens[FindToken(st.tokens, token, now).value].usuario).Some?)
    ensures o.reply.status == OK ==>
      var t := FindToken(st.tokens, token, now).value;
      var k := FindId(st.users, st.tokens[t].usuario).value;
      o.state == st.(users := st.users[k := st.users[k].(senha := senha.value)], tokens := st.tokens[t := st.tokens[t].(usado := true)])
  {
    if !Given(senha) then Outcome(Reply(BadRequest, NewPasswordRequired), None, st)
    else if |senha.value| < MinPassword then Outcome(Reply(BadRequest, PasswordTooShort), None, st)
    else
      var t := FindToken(st.tokens, token, now);
      if t.None? then Outcome(Reply(BadRequest, TokenInvalid), None, st)
      else
        var k := FindId(st.users, st.tokens[t.value].usuario);
        if k.None? then Outcome(Reply(ServerError, ResetFailed), None, st)
        else
          var users := st.users[k.value := st.users[k.value].(senha := senha.value)];
          var tokens := st.tokens[t.value := st.tokens[t.value].(usado := true)];
          Outcome(Reply(OK, ResetDone), None, st.(users := users, tokens := tokens))
  }

  /** No two reset tokens have the same text (the tokens are random). */
  predicate DistinctTokens(tokens: seq<ResetToken>) {
    forall a, b :: 0 <= a < b < |tokens| ==> tokens[a].token != tokens[b].token
  }

  /** With distinct token texts, a token resets a password once: using it again, at any time, is refused. */
  lemma ResetOnce(st: Accounts, token: string, s1: Option<string>, s2: Option<string>, now1: int, now2: int)
    requires DistinctTokens(st.tokens)
    requires ResetPassword(st, token, s1, now1).reply.status == OK
    ensures ResetPassword(ResetPassword(st, token, s1, now1).state, token, s2, now2).reply.status != OK
  {
    var st1 := ResetPassword(st, token, s1, now1).state;
    var t := FindToken(st.tokens, token, now1).value;
    forall j | 0 <= j < |st1.tokens|
      ensures !Usable(st1.tokens[j], token, now2)
    {
      if j != t {
        assert st1.tokens[j] == st.tokens[j];
        assert st.tokens[t].token == token;
      }
    }
  }

  /** A reset keeps ids and emails unique and never adds a token. */
  lemma ResetPreserves(st: Accounts, token: string, senha: Option<string>, now: int, email: Option<string>, newToken: string, expiresAt: int)
    requires Valid(st)
    ensures Valid(ResetPassword(st, token, senha, now).state)
    ensures |ResetPassword(st, token, senha, now).state.tokens| == |st.tokens|
    ensures Valid(RequestReset(st, email, newToken, expiresAt).state)
  {
  }

  // ---------------------------------------------------------------------------
  // Presence
  // ---------------------------------------------------------------------------

  /** `updateHeartbeat` at time `now`. */
  function Heartbeat(st: Accounts, id: nat, now: int): (o: Outcome)
    ensures o.session.None?
    ensures FindId(st.users, id).None? ==> o == Outcome(Reply(NotFound, UserNotFound), None, st)
    ensures FindId(st.users, id).Some? ==> (o.reply.status == OK &&
      var k := FindId(st.users, id).value;
      o.state == st.(users := st.users[k := st.users[k].(ultimoHeartbeat := Some(now), online := true)]))
  {
    var f := FindId(st.users, id);
    if f.None? then Outcome(Reply(NotFound, UserNotFound), None, st)
    else Outcome(Reply(OK, "Heartbeat atualizado"), None, st.(users := st.users[f.value := st.users[f.value].(ultimoHeartbeat := Some(now), online := true)]))
  }

  /** A user counts as active for one minute after its last heartbeat. */
  const ActiveWindow := 60000

  /** Verified, with a heartbeat no older than one minute. */
  predicate IsActive(u: User, now: int) {
    u.verificado && u.ultimoHeartbeat.Some? && u.ultimoHeartbeat.value >= now - ActiveWindow
  }

  /** `sort({ ultimoHeartbeat: -1 })` as an ascending sort on the negated time. */
  function LatestFirst(u: User): real {
    if u.ultimoHeartbeat.Some? then -(u.ultimoHeartbeat.value as real) else 0.0
  }

  /** `getUsuariosAtivos` at time `now`: the active users, latest heartbeat first. */
  function ActiveUsers(users: seq<User>, now: int): (r: seq<User>)
    ensures multiset(r) == multiset(Filter(users, (u: User) => IsActive(u, now)))
    ensures forall k :: 0 <= k < |r| ==> IsActive(r[k], now)
  {
    var f := Filter(users, (u: User) => IsActive(u, now));
    var r := SortBy(f, LatestFirst);
    assert forall k :: 0 <= k < |r| ==> r[k] in multiset(f);
    r
  }

  /** A user is listed exactly when it is stored and active, and the list runs from the latest heartbeat back. */
  lemma ActiveUsersSpec(users: seq<User>, now: int)
    ensures forall u :: u in ActiveUsers(users, now) <==> u in users && IsActive(u, now)
    ensures forall a, b :: 0 <= a < b < |ActiveUsers(users, now)| ==>
      ActiveUsers(users, now)[a].ultimoHeartbeat.value >= ActiveUsers(users, now)[b].ultimoHeartbeat.value
  {
    var f := Filter(users, (u: User) => IsActive(u, now));
    var r := ActiveUsers(users, now);
    forall u
      ensures u in r <==> u in users && IsActive(u, now)
    {
      assert u in r <==> u in multiset(f);
      if u in users && IsActive(u, now) {
        var i :| 0 <= i < |users| && users[i] == u;
        assert u in f;
      }
    }
    forall a, b | 0 <= a < b < |r|
      ensures r[a].ultimoHeartbeat.value >= r[b].ultimoHeartbeat.value
    {
      assert r[a] in multiset(f) && r[b] in multiset(f);
      assert LatestFirst(r[a]) <= LatestFirst(r[b]);
    }
  }

  /** A verified user that has just sent a heartbeat is listed as active for the next minute. */
  lemma HeartbeatMakesActive(st: Accounts, id: nat, now: int, later: int)
    requires FindId(st.users, id).Some? && st.users[FindId(st.users, id).value].verificado
    requires now <= later <= now + ActiveWindow
    ensures exists u :: u in ActiveUsers(Heartbeat(st, id, now).state.users, later) && u.id == id
  {
    var k := FindId(st.users, id).value;
    var users := Heartbeat(st, id, now).state.users;
    ActiveUsersSpec(users, later);
    assert users[k] in users && IsActive(users[k], later);
  }
}
