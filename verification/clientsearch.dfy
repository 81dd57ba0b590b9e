/**
 * The client search of `SelecionarClientePage.jsx`: the list shown is the
 * clients whose lower-cased name contains the lower-cased search term.
 */
module ClientSearch {
  import opened JsText

  /** A client as the page uses it: `id` stands for the document id. */
  datatype Client = Client(id: nat, nome: string, endereco: string)

  /** Whether a client's name matches the term, ignoring case. */
  predicate Matches(term: string, c: Client) {
    Includes(ToLower(c.nome), ToLower(term))
  }

  /** `clientes.filter((cliente) => cliente.nome.toLowerCase().includes(searchTerm.toLowerCase()))`. */
  function Search(clientes: seq<Client>, term: string): (r: seq<Client>)
    ensures |r| <= |clientes|
    ensures forall i :: 0 <= i < |r| ==> r[i] in clientes && Matches(term, r[i])
    ensures forall i :: 0 <= i < |clientes| && Matches(term, clientes[i]) ==> clientes[i] in r
  {
    Filter(clientes, (c: Client) => Matches(term, c))
  }

  /**
   * A client is listed exactly when the lower-cased term occurs at some
   * position of its lower-cased name.
   */
  lemma SearchMembership(clientes: seq<Client>, term: string, c: Client)
    requires c in clientes
    ensures c in Search(clientes, term) <==> exists i :: OccursAt(ToLower(c.nome), ToLower(term), i)
  {
    IncludesSpec(ToLower(c.nome), ToLower(term));
    var r := Search(clientes, term);
    if c in r {
      var j :| 0 <= j < |r| && r[j] == c;
      assert Matches(term, r[j]);
      assert Includes(ToLower(c.nome), ToLower(term));
      assert exists i :: OccursAt(ToLower(c.nome), ToLower(term), i);
    } else {
      var i :| 0 <= i < |clientes| && clientes[i] == c;
      assert !Matches(term, clientes[i]);
    }
  }

  /** The results keep the order of the client list. */
  lemma SearchKeepsOrder(clientes: seq<Client>, term: string)
    ensures IsSubsequence(Search(clientes, term), clientes)
  {
    FilterIsSubsequence(clientes, (c: Client) => Matches(term, c));
  }

  /** An empty search lists every client. */
  lemma EmptySearchKeepsAll(clientes: seq<Client>)
    ensures Search(clientes, "") == clientes
  {
    forall i | 0 <= i < |clientes|
      ensures Matches("", clientes[i])
    {
      IncludesEmpty(ToLower(clientes[i].nome));
    }
    FilterAll(clientes, (c: Client) => Matches("", c));
  }

  /** Two terms that lower-case alike list the same clients. */
  lemma {:induction false} SameLowerSameResult(clientes: seq<Client>, t1: string, t2: string)
    requires ToLower(t1) == ToLower(t2)
    ensures Search(clientes, t1) == Search(clientes, t2)
  {
    if clientes != [] {
      SameLowerSameResult(clientes[1..], t1, t2);
    }
  }

  /** In particular, the result is the same whatever the casing of the ASCII letters of the term. */
  lemma CaseInsensitive(clientes: seq<Client>, term: string)
    ensures Search(clientes, AsciiUpper(term)) == Search(clientes, term)
  {
    ToLowerAsciiUpper(term);
    SameLowerSameResult(clientes, AsciiUpper(term), term);
  }

  /** Matching is closed under narrowing: a client listed for a longer term is listed for any prefix of it. */
  lemma NarrowingSearch(clientes: seq<Client>, term: string, k: nat)
    requires k <= |term|
    ensures forall i :: 0 <= i < |Search(clientes, term)| ==> Search(clientes, term)[i] in Search(clientes, term[..k])
  {
    forall i | 0 <= i < |Search(clientes, term)|
      ensures Search(clientes, term)[i] in Search(clientes, term[..k])
    {
      var c := Search(clientes, term)[i];
      var name := ToLower(c.nome);
      IncludesSpec(name, ToLower(term));
      var p :| OccursAt(name, ToLower(term), p);
      assert ToLower(term[..k]) == ToLower(term)[..k];
      assert OccursAt(name, ToLower(term[..k]), p);
      IncludesSpec(name, ToLower(term[..k]));
    }
  }
}
