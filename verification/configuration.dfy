/**
 * The global configuration of `Configuracao.js`: a store meant to hold a
 * single document with the free text of the standards in use, created with a
 * default text the first time it is read.
 */
module Configuration {

  /** The default text: two standards, one per line, both due in August 2026. */
  const DefaultLine1 := "Termohigrômetro Digital HT600 Instrutherm, Certificado RBC Nº CAL – A 15694/25 , (Validade 08/2026)."
  const DefaultLine2 := "Balança Analítica Metter Toledo SAG250, Certificado RBC Nº CAL – A 15695/25, (Validade 08/2026)."
  const DefaultPadroes := DefaultLine1 + "\n" + DefaultLine2

  /** A configuration document; `id` stands for the document id. */
  datatype Config = Config(id: nat, padroesUtilizados: string)

  /** The documents in insertion order, and the next free id. */
  datatype Store = Store(docs: seq<Config>, nextId: nat)

  /** At most one document, as the model intends. */
  predicate Singleton(st: Store) {
    |st.docs| <= 1
  }

  /** The document a call returns, and the store after it. */
  datatype Got = Got(config: Config, store: Store)

  /** `getConfiguracao`: the first document, created with the default text when there is none. */
  function GetConfiguracao(st: Store): (g: Got)
    ensures g.store.docs != [] && g.config == g.store.docs[0]
    ensures st.docs != [] ==> g.store == st
    ensures st.docs == [] ==> g.store == Store([Config(st.nextId, DefaultPadroes)], st.nextId + 1)
  {
    if st.docs != [] then Got(st.docs[0], st)
    else
      var c := Config(st.nextId, DefaultPadroes);
      Got(c, Store([c], st.nextId + 1))
  }

  /** `updatePadroesUtilizados(s)`: read (or create) the document, set its text to `s` and save it. */
  function UpdatePadroes(st: Store, s: string): (g: Got)
    ensures g.config.padroesUtilizados == s
    ensures g.store.docs != [] && g.config == g.store.docs[0]
    ensures st.docs != [] ==> g.config.id == st.docs[0].id && g.store.docs[1..] == st.docs[1..]
    ensures |g.store.docs| == if st.docs == [] then 1 else |st.docs|
  {
    var got := GetConfiguracao(st);
    var c := got.config.(padroesUtilizados := s);
    Got(c, got.store.(docs := got.store.docs[0 := c]))
  }

  /**
   * Reading is idempotent: a second read returns the same document and
   * changes nothing; and after a read the store holds one document when it
   * held at most one before.
   */
  lemma GetIdempotent(st: Store)
    ensures GetConfiguracao(GetConfiguracao(st).store) == GetConfiguracao(st)
    ensures Singleton(st) ==> Singleton(GetConfiguracao(st).store)
  {
  }

  /** What is read back after an update is the text written, whatever the store held. */
  lemma UpdateThenGet(st: Store, s: string)
    ensures GetConfiguracao(UpdatePadroes(st, s).store).config == UpdatePadroes(st, s).config
    ensures GetConfiguracao(UpdatePadroes(st, s).store).config.padroesUtilizados == s
    ensures Singleton(st) ==> Singleton(UpdatePadroes(st, s).store)
  {
  }
}
