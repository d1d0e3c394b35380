/** The CNPJ search of the new-client form: when the typed CNPJ is long
    enough, its digits are sent to a public company registry, and the
    company's record fills in the name, address, phone and contact fields.
    The registry request is a function parameter. */
module CnpjAutofill {
  import opened Wrappers
  import opened Text
  import opened Sequences

  /** The new-client form. */
  datatype Form = Form(
    name: string,
    cnpj: string,
    contactName: string,
    email: string,
    phone: string,
    address: string)

  /** A partner listed in the registry record. */
  datatype Partner = Partner(nomeSocio: string)

  /** The registry record fields the form reads. Phones may be absent;
      the partner list may be absent. */
  datatype CnpjRecord = CnpjRecord(
    razaoSocial: string,
    logradouro: string,
    numero: string,
    bairro: string,
    municipio: string,
    uf: string,
    cep: string,
    phone1: Option<string>,
    phone2: Option<string>,
    qsa: Option<seq<Partner>>)

  /** The search runs only for a non-empty CNPJ of at least 14 characters,
      punctuation included. */
  predicate ShouldLookup(f: Form) {
    f.cnpj != "" && |f.cnpj| >= 14
  }

  /** The CNPJ with every non-digit removed. */
  function CleanCnpj(s: string): (r: string)
    ensures AllDigits(r)
  {
    Filter(IsDigit, s)
  }

  /** Cleaning keeps exactly the digits of the input, in order: the result
      is a subsequence of the input that holds every digit as often as the
      input does, and nothing else. */
  lemma CleanCnpjKeepsDigits(s: string)
    ensures IsSubsequence(CleanCnpj(s), s)
    ensures forall c :: multiset(CleanCnpj(s))[c] == if IsDigit(c) then multiset(s)[c] else 0
  {
    FilterIsSubsequence(IsDigit, s);
    forall c
      ensures multiset(CleanCnpj(s))[c] == if IsDigit(c) then multiset(s)[c] else 0
    {
      FilterCount(IsDigit, s, c);
    }
  }

  /** Cleaning works character by character: a digit is kept, anything
      else is dropped, and the pieces of the input clean independently. */
  lemma CleanCnpjPieces(a: string, b: string, c: char)
    ensures CleanCnpj(a + b) == CleanCnpj(a) + CleanCnpj(b)
    ensures CleanCnpj([c]) == if IsDigit(c) then [c] else []
  {
    FilterAppend(IsDigit, a, b);
    assert [c][1..] == [];
  }

  /** A CNPJ typed without punctuation is sent as typed, and cleaning twice
      is cleaning once. */
  lemma CleanCnpjOfDigits(s: string)
    requires AllDigits(s)
    ensures CleanCnpj(s) == s
  {
    FilterKeepsAll(IsDigit, s);
  }

  lemma CleanCnpjIdempotent(s: string)
    ensures CleanCnpj(CleanCnpj(s)) == CleanCnpj(s)
  {
    CleanCnpjOfDigits(CleanCnpj(s));
  }

  /** JavaScript truthiness of an optional string: present and non-empty. */
  predicate Truthy(s: Option<string>) {
    s.Some? && s.value != ""
  }

  /** The first phone, else the second, else the empty string. */
  function PickPhone(d: CnpjRecord): (r: string)
    ensures Truthy(d.phone1) ==> r == d.phone1.value
    ensures !Truthy(d.phone1) && Truthy(d.phone2) ==> r == d.phone2.value
    ensures r == "" <==> !Truthy(d.phone1) && !Truthy(d.phone2)
  {
    if Truthy(d.phone1) then d.phone1.value
    else if Truthy(d.phone2) then d.phone2.value
    else ""
  }

  /** The first partner's name, or the empty string when there is none. */
  function PickContact(d: CnpjRecord): (r: string)
    ensures d.qsa.Some? && |d.qsa.value| > 0 ==> r == d.qsa.value[0].nomeSocio
    ensures d.qsa.None? || |d.qsa.value| == 0 ==> r == ""
  {
    if d.qsa.Some? && |d.qsa.value| > 0 then d.qsa.value[0].nomeSocio else ""
  }

  /** "logradouro, numero - bairro, municipio - uf, cep": the six fields in
      this order, joined by ", " and " - " separators. So it starts with the
      street, ends with the postal code, and adds the five separators'
      twelve characters to the six fields. */
  function FormatAddress(d: CnpjRecord): (a: string)
    ensures a == d.logradouro + ", " + d.numero + " - " + d.bairro + ", " + d.municipio + " - " + d.uf + ", " + d.cep
    ensures IsPrefix(d.logradouro + ", ", a)
    ensures IsSuffix(", " + d.cep, a)
    ensures |a| == |d.logradouro| + |d.numero| + |d.bairro| + |d.municipio| + |d.uf| + |d.cep| + 12
  {
    var head := d.logradouro + ", ";
    var middle := d.numero + " - " + d.bairro + ", " + d.municipio + " - " + d.uf;
    var tail := ", " + d.cep;
    var a := head + middle + tail;
    assert a[..|head|] == head;
    assert a[|a| - |tail|..] == tail;
    a
  }

  /** The form after a successful search: the company fields come from the
      record, the CNPJ and e-mail typed by the user stay as they were. */
  function Autofill(prev: Form, d: CnpjRecord): (r: Form)
    ensures r.cnpj == prev.cnpj && r.email == prev.email
    ensures r.name == d.razaoSocial
    ensures r.address == FormatAddress(d)
    ensures r.phone == PickPhone(d) && r.contactName == PickContact(d)
  {
    prev.(name := d.razaoSocial,
          address := FormatAddress(d),
          phone := PickPhone(d),
          contactName := PickContact(d))
  }

  /** The filled form depends on the previous form only through its CNPJ
      and e-mail. */
  lemma AutofillOverwritesCompanyFields(p: Form, q: Form, d: CnpjRecord)
    requires p.cnpj == q.cnpj && p.email == q.email
    ensures Autofill(p, d) == Autofill(q, d)
  {
  }

  /** Filling twice from the same record is filling once. */
  lemma AutofillIdempotent(prev: Form, d: CnpjRecord)
    ensures Autofill(Autofill(prev, d), d) == Autofill(prev, d)
  {
  }

  /** What a press of the search button does. */
  datatype SearchOutcome =
    | NotSearched            // the CNPJ is too short: nothing happens
    | LookupFailed           // the registry refused or failed: an alert, the form is kept
    | Filled(form: Form)     // the form filled from the record

  /** The search, with the registry request `lookup` (from the cleaned
      CNPJ to the record, if the registry answers with one) as a parameter. */
  function Search(prev: Form, lookup: string -> Option<CnpjRecord>): (r: SearchOutcome)
    ensures r.NotSearched? <==> !ShouldLookup(prev)
    ensures r.LookupFailed? <==> ShouldLookup(prev) && lookup(CleanCnpj(prev.cnpj)).None?
    ensures r.Filled? ==> r.form.cnpj == prev.cnpj && r.form.email == prev.email
    ensures r.Filled? ==> r.form == Autofill(prev, lookup(CleanCnpj(prev.cnpj)).value)
  {
    if !ShouldLookup(prev) then NotSearched
    else
      match lookup(CleanCnpj(prev.cnpj))
      case None => LookupFailed
      case Some(d) => Filled(Autofill(prev, d))
  }

  /** The form shown after the search. */
  function FormAfter(prev: Form, r: SearchOutcome): (f: Form)
    ensures !r.Filled? ==> f == prev
    ensures r.Filled? ==> f == r.form
  {
    if r.Filled? then r.form else prev
  }

  /** A CNPJ shorter than 14 characters never reaches the registry and
      never changes the form, whatever the registry would answer. */
  lemma ShortCnpjLeavesFormAlone(prev: Form, lookup: string -> Option<CnpjRecord>)
    requires |prev.cnpj| < 14
    ensures FormAfter(prev, Search(prev, lookup)) == prev
  {
  }

  /** The request is made with digits only. */
  lemma SearchSendsDigits(prev: Form, lookup: string -> Option<CnpjRecord>)
    requires ShouldLookup(prev)
    ensures AllDigits(CleanCnpj(prev.cnpj))
    ensures Search(prev, lookup).Filled? || Search(prev, lookup).LookupFailed?
  {
  }
}
