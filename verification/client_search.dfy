/** The search box of the client list: a client is shown when its name
    contains the search term ignoring case, or when its CNPJ contains the
    term exactly as typed. */
module ClientSearch {
  import opened Wrappers
  import opened Text
  import opened Sequences

  /** A client row as the list reads it; the CNPJ column may be null. */
  datatype Client = Client(name: string, cnpj: Option<string>)

  /** Case-insensitive match on the name. */
  predicate NameMatches(c: Client, term: string) {
    Contains(ToLower(c.name), ToLower(term))
  }

  /** Raw, case-sensitive match on the CNPJ; a missing CNPJ never matches. */
  predicate CnpjMatches(c: Client, term: string) {
    c.cnpj.Some? && Contains(c.cnpj.value, term)
  }

  predicate Matches(c: Client, term: string) {
    NameMatches(c, term) || CnpjMatches(c, term)
  }

  function Matcher(term: string): Client -> bool {
    c => Matches(c, term)
  }

  /** The clients shown for a search term, in list order. */
  function FilterClients(clients: seq<Client>, term: string): (r: seq<Client>)
    ensures |r| <= |clients|
    ensures forall i :: 0 <= i < |r| ==> Matches(r[i], term)
  {
    Filter(Matcher(term), clients)
  }

  /** A client is shown exactly when it is in the list and matches, and a
      matching row listed several times is shown as many times. */
  lemma FilterClientsMembership(clients: seq<Client>, term: string, c: Client)
    ensures c in FilterClients(clients, term) <==> c in clients && Matches(c, term)
    ensures multiset(FilterClients(clients, term))[c] == if Matches(c, term) then multiset(clients)[c] else 0
  {
    FilterMembership(Matcher(term), clients, c);
    FilterCount(Matcher(term), clients, c);
  }

  /** The shown clients keep the order of the full list. */
  lemma FilterClientsSubsequence(clients: seq<Client>, term: string)
    ensures IsSubsequence(FilterClients(clients, term), clients)
  {
    FilterIsSubsequence(Matcher(term), clients);
  }

  /** With an empty search box every client is shown, in order. */
  lemma EmptyTermKeepsAll(clients: seq<Client>)
    ensures FilterClients(clients, "") == clients
  {
    forall i | 0 <= i < |clients|
      ensures Matcher("")(clients[i])
    {
      ContainsEmpty(ToLower(clients[i].name));
      assert ToLower("") == "";
    }
    FilterKeepsAll(Matcher(""), clients);
  }

  /** Searching again within the shown clients shows the same clients. */
  lemma FilterClientsIdempotent(clients: seq<Client>, term: string)
    ensures FilterClients(FilterClients(clients, term), term) == FilterClients(clients, term)
  {
    FilterIdempotent(Matcher(term), clients);
  }

  /** A client without a CNPJ can only be found through its name. */
  lemma NoCnpjMatchesByNameOnly(c: Client, term: string)
    requires c.cnpj.None?
    ensures Matches(c, term) <==> NameMatches(c, term)
  {
  }

  /** The name search does not care about the case of the term: lowering
      the term first finds the same clients. */
  lemma NameSearchIgnoresTermCase(c: Client, term: string)
    ensures NameMatches(c, ToLower(term)) <==> NameMatches(c, term)
  {
    ToLowerIdempotent(term);
  }

  /** The CNPJ search is case-sensitive and does not strip punctuation: a
      client named "Z" with CNPJ "a.1" is found by "a.1" but neither by "A.1"
      nor by "a1". */
  lemma CnpjSearchIsRaw()
    ensures var c := Client("Z", Some("a.1"));
      Matches(c, "a.1") && !Matches(c, "A.1") && !Matches(c, "a1")
  {
    var c := Client("Z", Some("a.1"));
    assert IsPrefix("a.1", "a.1");
    assert ToLower("Z") == "z";
    assert ToLower("A.1") == "a.1";
    assert ToLower("a1") == "a1";
    assert !Contains("z", "a.1") by {
      assert !IsPrefix("a.1", "z");
      assert "z"[1..] == "";
    }
    assert !Contains("z", "a1") by {
      assert !IsPrefix("a1", "z");
      assert "z"[1..] == "";
    }
    assert !Contains("a.1", "A.1") by {
      assert "a.1"[1..] == ".1";
      assert ".1"[1..] == "1";
      assert "1"[1..] == "";
    }
    assert !Contains("a.1", "a1") by {
      assert "a.1"[1..] == ".1";
      assert "a.1"[..2] == "a." != "a1";
      assert ".1"[1..] == "1";
      assert "1"[1..] == "";
    }
  }
}
