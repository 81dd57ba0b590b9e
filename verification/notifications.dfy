/**
 * The notification store of `Notificacao.js`: the severity of an expiry
 * notice, creation that never duplicates a notice for the same equipment and
 * due date, the list of active notifications, marking as read, and the
 * sequential processing of the requests the expiry check produces.
 */
module Notifications {
  import opened Wrappers
  import opened JsText
  import opened Sorting
  import opened Http
  import opened Expiry

  /** `tipo`: one of "info", "warning", "success", "error". */
  datatype Kind = Info | Warning | Success | Error

  /** `categoria`: one of "vencimento_padrao", "sistema", "certificado", "geral". */
  datatype Category = StandardExpiry | System | Certificate | General

  /**
   * A stored notification. The message text is left out; `id` stands for the
   * document id and `createdAt` for the creation timestamp in milliseconds.
   */
  datatype Notification = Notification(
    id: nat,
    tipo: Kind,
    titulo: string,
    categoria: Category,
    dataVencimento: Option<CalendarDate>,
    equipamento: Option<string>,
    lida: bool,
    global: bool,
    createdAt: int)

  // ---------------------------------------------------------------------------
  // Severity
  // ---------------------------------------------------------------------------

  const TitleExpired := "🚨 Padrão de Calibração VENCIDO!"
  const TitleUrgent := "⚠️ Padrão de Calibração Vencendo!"
  const TitleAttention := "⏰ Atenção: Padrão Próximo do Vencimento"
  const TitleReminder := "📅 Lembrete: Renovação de Padrão"

  datatype Severity = Severity(tipo: Kind, titulo: string)

  /** The kind and title of an expiry notice, by the number of days left. */
  function Classify(days: int): (s: Severity)
    ensures s.tipo != Success
    ensures s.tipo == Error <==> days <= 10
    ensures s.tipo == Warning <==> 10 < days <= 60
    ensures s.tipo == Info <==> 60 < days
    ensures s.titulo == TitleExpired <==> days <= 0
  {
    if days <= 0 then Severity(Error, TitleExpired)
    else if days <= 10 then Severity(Error, TitleUrgent)
    else if days <= 60 then Severity(Warning, TitleAttention)
    else Severity(Info, TitleReminder)
  }

  /** How urgent a kind is; the kinds the classifier emits rank from info up to error. */
  function Urgency(k: Kind): nat {
    match k
    case Info => 0
    case Success => 0
    case Warning => 1
    case Error => 2
  }

  /** Fewer days left is never less urgent, and the title is fixed by the kind and whether the date has passed. */
  lemma ClassifyMonotone(d1: int, d2: int)
    requires d1 <= d2
    ensures Urgency(Classify(d1).tipo) >= Urgency(Classify(d2).tipo)
    ensures Classify(d1).tipo == Classify(d2).tipo && (d1 <= 0 <==> d2 <= 0) ==> Classify(d1) == Classify(d2)
  {
  }

  // ---------------------------------------------------------------------------
  // The store
  // ---------------------------------------------------------------------------

  /** The notifications in insertion order, and the next free id. */
  datatype Store = Store(items: seq<Notification>, nextId: nat)

  /** Ids are unique and below the next free id. */
  predicate Valid(st: Store) {
    && (forall k :: 0 <= k < |st.items| ==> st.items[k].id < st.nextId)
    && (forall a, b :: 0 <= a < b < |st.items| ==> st.items[a].id != st.items[b].id)
  }

  /** The query `{ equipamento, dataVencimento, categoria: "vencimento_padrao" }`. */
  predicate SameExpiry(n: Notification, equipamento: string, due: CalendarDate) {
    n.equipamento == Some(equipamento) && n.dataVencimento == Some(due) && n.categoria == StandardExpiry
  }

  /** `findOne` with that query: the first matching notification in insertion order. */
  function FindExpiry(items: seq<Notification>, equipamento: string, due: CalendarDate): (r: Option<nat>)
    ensures r.Some? ==> r.value < |items| && SameExpiry(items[r.value], equipamento, due)
    ensures r.Some? ==> forall j :: 0 <= j < r.value ==> !SameExpiry(items[j], equipamento, due)
    ensures r.None? ==> forall j :: 0 <= j < |items| ==> !SameExpiry(items[j], equipamento, due)
  {
    if items == [] then None
    else if SameExpiry(items[0], equipamento, due) then Some(0)
    else
      var r := FindExpiry(items[1..], equipamento, due);
      if r.Some? then Some(r.value + 1) else None
  }

  /** No two expiry notices share equipment and due date. */
  predicate UniqueExpiry(items: seq<Notification>) {
    forall a, b :: 0 <= a < b < |items| && items[a].categoria == StandardExpiry && items[b].categoria == StandardExpiry
      ==> items[a].equipamento != items[b].equipamento || items[a].dataVencimento != items[b].dataVencimento
  }

  /** The store after a call, the notification returned, and whether it was created by the call. */
  datatype Created = Created(store: Store, notification: Notification, isNew: bool)

  /**
   * `criarNotificacaoVencimento(equipamento, dataVencimento, diasRestantes)`
   * at time `now`: the existing notice for that equipment and due date if
   * there is one, and otherwise a new unread, global notice classified by
   * the days left.
   */
  function CreateExpiry(st: Store, req: Request, now: int): (c: Created)
    ensures SameExpiry(c.notification, req.equipamento, req.dataVencimento)
    ensures c.isNew <==> forall j :: 0 <= j < |st.items| ==> !SameExpiry(st.items[j], req.equipamento, req.dataVencimento)
    ensures !c.isNew ==> c.store == st && c.notification in st.items
    ensures c.isNew ==> c.store == Store(st.items + [c.notification], st.nextId + 1)
    ensures c.isNew ==> c.notification.id == st.nextId && c.notification.createdAt == now
    ensures c.isNew ==> !c.notification.lida && c.notification.global
    ensures c.isNew ==> Severity(c.notification.tipo, c.notification.titulo) == Classify(req.diasRestantes)
  {
    var found := FindExpiry(st.items, req.equipamento, req.dataVencimento);
    if found.Some? then
      Created(st, st.items[found.value], false)
    else
      var sev := Classify(req.diasRestantes);
      var n := Notification(st.nextId, sev.tipo, sev.titulo, StandardExpiry,
                            Some(req.dataVencimento), Some(req.equipamento), false, true, now);
      Created(Store(st.items + [n], st.nextId + 1), n, true)
  }

  /** Creation keeps ids unique and never makes a second notice for the same equipment and due date. */
  lemma CreatePreserves(st: Store, req: Request, now: int)
    requires Valid(st) && UniqueExpiry(st.items)
    ensures Valid(CreateExpiry(st, req, now).store)
    ensures UniqueExpiry(CreateExpiry(st, req, now).store.items)
  {
    var c := CreateExpiry(st, req, now);
    if c.isNew {
      var items := c.store.items;
      forall a, b | 0 <= a < b < |items| && items[a].categoria == StandardExpiry && items[b].categoria == StandardExpiry
        ensures items[a].equipamento != items[b].equipamento || items[a].dataVencimento != items[b].dataVencimento
      {
        if b == |st.items| {
          assert !SameExpiry(st.items[a], req.equipamento, req.dataVencimento);
        }
      }
    }
  }

  /** A notice appended after items none of which match is the first match. */
  lemma {:induction false} FindExpiryAppend(items: seq<Notification>, n: Notification, equipamento: string, due: CalendarDate)
    requires forall j :: 0 <= j < |items| ==> !SameExpiry(items[j], equipamento, due)
    requires SameExpiry(n, equipamento, due)
    ensures FindExpiry(items + [n], equipamento, due) == Some(|items|)
  {
    if items != [] {
      assert (items + [n])[1..] == items[1..] + [n];
      FindExpiryAppend(items[1..], n, equipamento, due);
    }
  }

  /** Asking twice for the same notice creates it at most once: the second call changes nothing and returns the same notice. */
  lemma CreateIdempotent(st: Store, req: Request, now1: int, now2: int)
    ensures CreateExpiry(CreateExpiry(st, req, now1).store, req, now2).store == CreateExpiry(st, req, now1).store
    ensures CreateExpiry(CreateExpiry(st, req, now1).store, req, now2).notification == CreateExpiry(st, req, now1).notification
  {
    var c := CreateExpiry(st, req, now1);
    if c.isNew {
      FindExpiryAppend(st.items, c.notification, req.equipamento, req.dataVencimento);
    }
  }

  // ---------------------------------------------------------------------------
  // Active notifications
  // ---------------------------------------------------------------------------

  /** `limit(20)`. */
  const ActiveLimit := 20

  function Min(a: nat, b: nat): nat {
    if a <= b then a else b
  }

  predicate IsUnread(n: Notification) {
    !n.lida
  }

  function Unread(items: seq<Notification>): seq<Notification> {
    Filter(items, IsUnread)
  }

  /** `sort({ createdAt: -1 })` as an ascending sort on the negated timestamp. */
  function NewestFirst(n: Notification): real {
    -(n.createdAt as real)
  }

  /** Sorting the unread notifications keeps them unread and stored. */
  lemma SortedUnread(items: seq<Notification>)
    ensures forall k :: 0 <= k < |SortBy(Unread(items), NewestFirst)| ==>
      !SortBy(Unread(items), NewestFirst)[k].lida && SortBy(Unread(items), NewestFirst)[k] in items
  {
    var u := Unread(items);
    var sorted := SortBy(u, NewestFirst);
    forall k | 0 <= k < |sorted|
      ensures !sorted[k].lida && sorted[k] in items
    {
      assert sorted[k] in multiset(u);
      assert IsUnread(sorted[k]);
    }
  }

  /** `buscarNotificacoesAtivas`: the unread notifications, newest first, at most 20. */
  function Active(st: Store): (r: seq<Notification>)
    ensures |r| == Min(ActiveLimit, |Unread(st.items)|)
    ensures forall k :: 0 <= k < |r| ==> !r[k].lida && r[k] in st.items
  {
    var sorted := SortBy(Unread(st.items), NewestFirst);
    SortedUnread(st.items);
    sorted[..Min(ActiveLimit, |sorted|)]
  }

  /** The active list is newest first. */
  lemma ActiveNewestFirst(st: Store)
    ensures forall a, b :: 0 <= a < b < |Active(st)| ==> Active(st)[a].createdAt >= Active(st)[b].createdAt
  {
    var sorted := SortBy(Unread(st.items), NewestFirst);
    var r := Active(st);
    forall a, b | 0 <= a < b < |r|
      ensures r[a].createdAt >= r[b].createdAt
    {
      assert r[a] == sorted[a] && r[b] == sorted[b];
      assert NewestFirst(sorted[a]) <= NewestFirst(sorted[b]);
    }
  }

  /**
   * An unread notification missing from the active list is missing only
   * because the list is full, and is no newer than any notification in it.
   */
  lemma ActiveKeepsNewest(st: Store, n: Notification)
    requires n in st.items && !n.lida && n !in Active(st)
    ensures |Active(st)| == ActiveLimit
    ensures forall k :: 0 <= k < |Active(st)| ==> Active(st)[k].createdAt >= n.createdAt
  {
    var u := Unread(st.items);
    var sorted := SortBy(u, NewestFirst);
    var r := Active(st);
    var i :| 0 <= i < |st.items| && st.items[i] == n;
    assert IsUnread(st.items[i]);
    assert n in multiset(sorted);
    var j :| 0 <= j < |sorted| && sorted[j] == n;
    assert j >= |r|;
    forall k | 0 <= k < |r|
      ensures r[k].createdAt >= n.createdAt
    {
      assert r[k] == sorted[k];
      assert NewestFirst(sorted[k]) <= NewestFirst(sorted[j]);
    }
  }

  // ---------------------------------------------------------------------------
  // Marking as read
  // ---------------------------------------------------------------------------

  const NotFoundMessage := "Notificação não encontrada"

  /** The index of the notification with id `id`. */
  function FindId(items: seq<Notification>, id: nat): Option<nat> {
    FindIndex(items, (n: Notification) => n.id == id)
  }

  /** `findByIdAndUpdate(id, { lida: true }, { new: true })`: 404 when no notification has that id. */
  function MarkRead(st: Store, id: nat): (r: Result<Created, Reply>)
    ensures r.Err? <==> forall j :: 0 <= j < |st.items| ==> st.items[j].id != id
    ensures r.Err? ==> r.error == Reply(NotFound, NotFoundMessage)
    ensures r.Ok? ==> r.value.notification.id == id && r.value.notification.lida && !r.value.isNew
    ensures r.Ok? ==> |r.value.store.items| == |st.items| && r.value.store.nextId == st.nextId
  {
    var k := FindId(st.items, id);
    if k.None? then Err(Reply(NotFound, NotFoundMessage))
    else
      var n := st.items[k.value].(lida := true);
      Ok(Created(Store(st.items[k.value := n], st.nextId), n, false))
  }

  /** With unique ids, marking one notification read changes exactly that notification, and only its `lida`. */
  lemma MarkReadSpec(st: Store, id: nat)
    requires Valid(st)
    requires MarkRead(st, id).Ok?
    ensures forall j :: 0 <= j < |st.items| ==>
      MarkRead(st, id).value.store.items[j] == if st.items[j].id == id then st.items[j].(lida := true) else st.items[j]
    ensures Valid(MarkRead(st, id).value.store)
  {
  }

  /** `updateMany({ lida: false }, { lida: true })`. */
  function MarkAll(st: Store): (r: Store)
    ensures |r.items| == |st.items| && r.nextId == st.nextId
    ensures forall j :: 0 <= j < |st.items| ==> r.items[j] == st.items[j].(lida := true)
  {
    Store(Map(st.items, (n: Notification) => n.(lida := true)), st.nextId)
  }

  /** After marking all, nothing is unread, so the active list is empty. */
  lemma MarkAllSpec(st: Store)
    ensures Unread(MarkAll(st).items) == []
    ensures Active(MarkAll(st)) == []
    ensures Valid(st) ==> Valid(MarkAll(st))
  {
    var r := MarkAll(st);
    FilterNone(r.items, IsUnread);
  }

  // ---------------------------------------------------------------------------
  // Processing the requests of an expiry check
  // ---------------------------------------------------------------------------

  /** The store after a sequence of requests, the notification each returned, and whether a database call failed. */
  datatype Outcome = Outcome(store: Store, notifications: seq<Notification>, failed: bool)

  /** `criarNotificacaoVencimento` for each request in turn, collecting what each returns. */
  function ProcessAll(st: Store, reqs: seq<Request>, now: int): (o: Outcome)
    decreases |reqs|
    ensures |o.notifications| == |reqs| && !o.failed
    ensures forall k :: 0 <= k < |reqs| ==> SameExpiry(o.notifications[k], reqs[k].equipamento, reqs[k].dataVencimento)
  {
    if reqs == [] then Outcome(st, [], false)
    else
      var c := CreateExpiry(st, reqs[0], now);
      var o := ProcessAll(c.store, reqs[1..], now);
      Outcome(o.store, [c.notification] + o.notifications, false)
  }

  /**
   * The same when the database call for request `failAt` throws: the
   * requests before it have taken effect, and the loop stops there.
   */
  function Process(st: Store, reqs: seq<Request>, now: int, failAt: Option<nat>): (o: Outcome)
    ensures o.failed <==> failAt.Some? && failAt.value < |reqs|
    ensures o.store == ProcessAll(st, if o.failed then reqs[..failAt.value] else reqs, now).store
  {
    if failAt.Some? && failAt.value < |reqs| then
      Outcome(ProcessAll(st, reqs[..failAt.value], now).store, [], true)
    else
      ProcessAll(st, reqs, now)
  }

  /** Processing only appends to the store, keeps it valid and never duplicates a notice. */
  lemma {:induction false} ProcessPreserves(st: Store, reqs: seq<Request>, now: int)
    requires Valid(st) && UniqueExpiry(st.items)
    ensures Valid(ProcessAll(st, reqs, now).store)
    ensures UniqueExpiry(ProcessAll(st, reqs, now).store.items)
    ensures |st.items| <= |ProcessAll(st, reqs, now).store.items|
    ensures ProcessAll(st, reqs, now).store.items[..|st.items|] == st.items
    decreases |reqs|
  {
    if reqs != [] {
      var c := CreateExpiry(st, reqs[0], now);
      CreatePreserves(st, reqs[0], now);
      ProcessPreserves(c.store, reqs[1..], now);
      var r := ProcessAll(st, reqs, now).store.items;
      assert r[..|c.store.items|] == c.store.items;
      assert r[..|st.items|] == r[..|c.store.items|][..|st.items|];
    }
  }

  /** Some notice among `items` is for this equipment and due date. */
  predicate HasNotice(items: seq<Notification>, equipamento: string, due: CalendarDate) {
    exists j :: 0 <= j < |items| && SameExpiry(items[j], equipamento, due)
  }

  /** Every request has a notice for its equipment and due date among `items`. */
  predicate Covered(items: seq<Notification>, reqs: seq<Request>) {
    forall k :: 0 <= k < |reqs| ==> HasNotice(items, reqs[k].equipamento, reqs[k].dataVencimento)
  }

  /** After a create, the store has a notice for the request. */
  lemma CreateHasNotice(st: Store, req: Request, now: int)
    ensures HasNotice(CreateExpiry(st, req, now).store.items, req.equipamento, req.dataVencimento)
  {
    var c := CreateExpiry(st, req, now);
    if c.isNew {
      assert c.store.items[|st.items|] == c.notification;
    } else {
      var j :| 0 <= j < |st.items| && st.items[j] == c.notification;
    }
  }

  /** A notice in a prefix is a notice in the whole. */
  lemma PrefixHasNotice(p: seq<Notification>, r: seq<Notification>, equipamento: string, due: CalendarDate)
    requires |p| <= |r| && r[..|p|] == p
    requires HasNotice(p, equipamento, due)
    ensures HasNotice(r, equipamento, due)
  {
    var j :| 0 <= j < |p| && SameExpiry(p[j], equipamento, due);
    assert r[j] == p[j];
  }

  /** Covering the first request and the rest is covering them all. */
  lemma CoveredCons(items: seq<Notification>, reqs: seq<Request>)
    requires reqs != []
    requires HasNotice(items, reqs[0].equipamento, reqs[0].dataVencimento)
    requires Covered(items, reqs[1..])
    ensures Covered(items, reqs)
  {
    forall k | 1 <= k < |reqs|
      ensures HasNotice(items, reqs[k].equipamento, reqs[k].dataVencimento)
    {
      assert reqs[k] == reqs[1..][k - 1];
    }
  }

  /** After processing, every request is covered. */
  lemma {:induction false} ProcessCovers(st: Store, reqs: seq<Request>, now: int)
    requires Valid(st) && UniqueExpiry(st.items)
    ensures Covered(ProcessAll(st, reqs, now).store.items, reqs)
    decreases |reqs|
  {
    if reqs != [] {
      var c := CreateExpiry(st, reqs[0], now);
      CreatePreserves(st, reqs[0], now);
      ProcessCovers(c.store, reqs[1..], now);
      ProcessPreserves(c.store, reqs[1..], now);
      var r := ProcessAll(st, reqs, now).store.items;
      assert r == ProcessAll(c.store, reqs[1..], now).store.items;
      CreateHasNotice(st, reqs[0], now);
      PrefixHasNotice(c.store.items, r, reqs[0].equipamento, reqs[0].dataVencimento);
      CoveredCons(r, reqs);
    }
  }

  /** Requests that are all covered change nothing. */
  lemma {:induction false} ProcessCoveredUnchanged(st: Store, reqs: seq<Request>, now: int)
    requires Covered(st.items, reqs)
    ensures ProcessAll(st, reqs, now).store == st
  {
    if reqs != [] {
      assert HasNotice(st.items, reqs[0].equipamento, reqs[0].dataVencimento);
      assert CreateExpiry(st, reqs[0], now).store == st;
      forall k | 0 <= k < |reqs[1..]|
        ensures HasNotice(st.items, reqs[1..][k].equipamento, reqs[1..][k].dataVencimento)
      {
        assert reqs[1..][k] == reqs[k + 1];
      }
      ProcessCoveredUnchanged(st, reqs[1..], now);
    }
  }

  /** Running the same requests a second time, at any time, leaves the store as the first run left it. */
  lemma ProcessTwice(st: Store, reqs: seq<Request>, now1: int, now2: int)
    requires Valid(st) && UniqueExpiry(st.items)
    ensures ProcessAll(ProcessAll(st, reqs, now1).store, reqs, now2).store == ProcessAll(st, reqs, now1).store
  {
    ProcessCovers(st, reqs, now1);
    ProcessCoveredUnchanged(ProcessAll(st, reqs, now1).store, reqs, now2);
  }
}
