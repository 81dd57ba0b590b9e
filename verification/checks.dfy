/**
 * The two places that run the expiry check: `verificarVencimentos` of the
 * notifications controller, on the stored configuration text, and
 * `updatePadroesUtilizados` of the configuration controller, which stores a
 * new text and then runs the same check on it, swallowing its errors.
 * `configFails` says whether the configuration document's database call
 * throws; `failAt` whether one of the notification calls does.
 */
module ExpiryChecks {
  import opened Wrappers
  import opened JsText
  import opened Http
  import opened Expiry
  import N = Notifications
  import C = Configuration

  const NoExpiryMessage := "Nenhuma data de validade encontrada nos padrões"
  const CheckFailedMessage := "Erro ao verificar vencimentos"
  const CreatedSuffix := " notificação(ões) criada(s)"
  const MissingFieldMessage := "Campo padroesUtilizados é obrigatório"
  const UpdatedMessage := "Padrões utilizados atualizados com sucesso"
  const UpdateFailedMessage := "Erro ao atualizar padrões utilizados"

  /** The reply, the notifications it lists, and both stores afterwards. */
  datatype CheckReply = CheckReply(reply: Reply, notificacoes: seq<N.Notification>, config: C.Store, store: N.Store)

  /** The text the check reads: that of the configuration document, created if missing. */
  function StoredText(cfg: C.Store): string {
    C.GetConfiguracao(cfg).config.padroesUtilizados
  }

  /**
   * `verificarVencimentos`. `daysLeft` gives the days from now to a due date,
   * `failAt` the request whose database call throws, if any, and
   * `configFails` whether reading the configuration throws, which answers 500
   * before anything is written.
   */
  function Check(cfg: C.Store, st: N.Store, now: int, daysLeft: CalendarDate -> int, failAt: Option<nat>,
                 configFails: bool): (r: CheckReply)
    ensures configFails ==> r == CheckReply(Reply(ServerError, CheckFailedMessage), [], cfg, st)
    ensures !configFails ==> r.config == C.GetConfiguracao(cfg).store
    ensures !configFails && Matches(StoredText(cfg)) == [] ==> r == CheckReply(Reply(OK, NoExpiryMessage), [], r.config, st)
    ensures r.reply.status == ServerError <==>
      configFails || (failAt.Some? && failAt.value < |Requests(StoredText(cfg), daysLeft)|)
    ensures r.reply.status == ServerError ==> r.reply.message == CheckFailedMessage && r.notificacoes == []
    ensures r.reply.status != ServerError ==> r.reply.status == OK && |r.notificacoes| == |Requests(StoredText(cfg), daysLeft)|
    ensures r.reply.status != ServerError && Matches(StoredText(cfg)) != [] ==>
      r.reply.message == NatToString(|r.notificacoes|) + CreatedSuffix
  {
    var got := C.GetConfiguracao(cfg);
    var text := got.config.padroesUtilizados;
    if configFails then CheckReply(Reply(ServerError, CheckFailedMessage), [], cfg, st)
    else if Matches(text) == [] then
      CheckReply(Reply(OK, NoExpiryMessage), [], got.store, st)
    else
      var o := N.Process(st, Requests(text, daysLeft), now, failAt);
      if o.failed then CheckReply(Reply(ServerError, CheckFailedMessage), [], got.store, o.store)
      else CheckReply(Reply(OK, NatToString(|o.notifications|) + CreatedSuffix), o.notifications, got.store, o.store)
  }

  /** A match counts in the reply exactly when its due date is at most 90 days away, already created or not. */
  lemma CheckCounts(cfg: C.Store, st: N.Store, now: int, daysLeft: CalendarDate -> int)
    ensures |Check(cfg, st, now, daysLeft, None, false).notificacoes|
      == |Filter(Matches(StoredText(cfg)), (m: Match) => daysLeft(DueDate(m)) <= NoticeDays)|
    ensures forall k :: 0 <= k < |Check(cfg, st, now, daysLeft, None, false).notificacoes| ==>
      N.SameExpiry(Check(cfg, st, now, daysLeft, None, false).notificacoes[k],
                   Requests(StoredText(cfg), daysLeft)[k].equipamento, Requests(StoredText(cfg), daysLeft)[k].dataVencimento)
  {
    var text := StoredText(cfg);
    RequestsSpec(text, daysLeft);
  }

  /** Running the check a second time creates nothing more and leaves both stores as the first run left them. */
  lemma CheckTwice(cfg: C.Store, st: N.Store, now1: int, now2: int, daysLeft: CalendarDate -> int)
    requires N.Valid(st) && N.UniqueExpiry(st.items)
    ensures var r1 := Check(cfg, st, now1, daysLeft, None, false);
      var r2 := Check(r1.config, r1.store, now2, daysLeft, None, false);
      r2.config == r1.config && r2.store == r1.store
  {
    var r1 := Check(cfg, st, now1, daysLeft, None, false);
    C.GetIdempotent(cfg);
    assert StoredText(r1.config) == StoredText(cfg);
    N.ProcessTwice(st, Requests(StoredText(cfg), daysLeft), now1, now2);
  }

  /** `verificarVencimentosAposAtualizacao(text)`: the same requests, with a failure ending the loop silently. */
  function CheckAfterUpdate(text: string, st: N.Store, now: int, daysLeft: CalendarDate -> int, failAt: Option<nat>): N.Store {
    N.Process(st, Requests(text, daysLeft), now, failAt).store
  }

  /**
   * Without a failure the check leaves a notice for every request of the
   * text and keeps the store valid; a failure at request `k` still leaves
   * notices for the requests before it.
   */
  lemma CheckAfterUpdateSpec(text: string, st: N.Store, now: int, daysLeft: CalendarDate -> int, failAt: Option<nat>)
    requires N.Valid(st) && N.UniqueExpiry(st.items)
    ensures N.Valid(CheckAfterUpdate(text, st, now, daysLeft, failAt))
    ensures N.UniqueExpiry(CheckAfterUpdate(text, st, now, daysLeft, failAt).items)
    ensures failAt.None? ==> N.Covered(CheckAfterUpdate(text, st, now, daysLeft, failAt).items, Requests(text, daysLeft))
    ensures failAt.Some? && failAt.value <= |Requests(text, daysLeft)| ==>
      N.Covered(CheckAfterUpdate(text, st, now, daysLeft, failAt).items, Requests(text, daysLeft)[..failAt.value])
  {
    var reqs := Requests(text, daysLeft);
    var done := if failAt.Some? && failAt.value < |reqs| then reqs[..failAt.value] else reqs;
    N.ProcessPreserves(st, done, now);
    N.ProcessCovers(st, done, now);
    if failAt.Some? && failAt.value == |reqs| {
      assert reqs[..failAt.value] == reqs;
    }
  }

  /**
   * `updatePadroesUtilizados`: `body` is the `padroesUtilizados` field of the
   * request, `None` when it is missing or null; `configFails` says whether
   * saving the configuration throws, which answers 500 with nothing written.
   */
  function UpdatePadroesUtilizados(body: Option<string>, cfg: C.Store, st: N.Store, now: int,
                                   daysLeft: CalendarDate -> int, failAt: Option<nat>, configFails: bool): (r: CheckReply)
    ensures r.reply.status == BadRequest <==> body.None? || body.value == ""
    ensures r.reply.status == BadRequest ==> r == CheckReply(Reply(BadRequest, MissingFieldMessage), [], cfg, st)
    ensures r.reply.status == ServerError <==> body.Some? && body.value != "" && configFails
    ensures r.reply.status == ServerError ==> r == CheckReply(Reply(ServerError, UpdateFailedMessage), [], cfg, st)
    ensures r.reply.status != BadRequest && r.reply.status != ServerError ==> r.reply == Reply(OK, UpdatedMessage)
    ensures r.reply.status != BadRequest && r.reply.status != ServerError ==> StoredText(r.config) == body.value
  {
    if body.None? || body.value == "" then
      CheckReply(Reply(BadRequest, MissingFieldMessage), [], cfg, st)
    else if configFails then
      CheckReply(Reply(ServerError, UpdateFailedMessage), [], cfg, st)
    else
      var updated := C.UpdatePadroes(cfg, body.value);
      C.UpdateThenGet(cfg, body.value);
      CheckReply(Reply(OK, UpdatedMessage), [], updated.store, CheckAfterUpdate(body.value, st, now, daysLeft, failAt))
  }

  /**
   * The check that follows an update leaves the notifications exactly as the
   * notifications controller's check on the newly stored text would, a
   * failing notification call included; the update itself succeeds exactly
   * when the configuration can be saved.
   */
  lemma UpdateAgreesWithCheck(s: string, cfg: C.Store, st: N.Store, now: int, daysLeft: CalendarDate -> int,
                              failAt: Option<nat>, configFails: bool)
    requires s != ""
    ensures var r := UpdatePadroesUtilizados(Some(s), cfg, st, now, daysLeft, failAt, configFails);
      && (r.reply.status == OK <==> !configFails)
      && r.store == Check(r.config, st, now, daysLeft, failAt, configFails).store
  {
    var r := UpdatePadroesUtilizados(Some(s), cfg, st, now, daysLeft, failAt, configFails);
    if !configFails {
      assert StoredText(r.config) == s;
      if Matches(s) == [] {
        assert Requests(s, daysLeft) == [];
      }
    }
  }
}
