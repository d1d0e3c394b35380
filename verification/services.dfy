/** The service catalog: six service codes, each with a display name, a
    default proposal template and the form fields it asks for; the general
    audit service alone offers a choice of evaluated framework, each with a
    template of its own. */
module Services {
  import opened Wrappers
  import opened Text

  datatype ServiceCode = AC | AUD | ATS | CON | INV | OTHER

  /** The code as it is stored and shown. */
  function CodeString(c: ServiceCode): string {
    match c
    case AC => "AC"
    case AUD => "AUD"
    case ATS => "ATS"
    case CON => "CON"
    case INV => "INV"
    case OTHER => "OTHER"
  }

  /** Reads a stored code back; any other string is not a service code. */
  function ParseServiceCode(s: string): (r: Option<ServiceCode>)
    ensures r.Some? ==> CodeString(r.value) == s
  {
    if s == "AC" then Some(AC)
    else if s == "AUD" then Some(AUD)
    else if s == "ATS" then Some(ATS)
    else if s == "CON" then Some(CON)
    else if s == "INV" then Some(INV)
    else if s == "OTHER" then Some(OTHER)
    else None
  }

  /** Every code reads back as itself, so distinct codes have distinct
      strings. */
  lemma ParseServiceCodeRoundTrip(c: ServiceCode)
    ensures ParseServiceCode(CodeString(c)) == Some(c)
  {
  }

  /** Code strings are upper-case letters only, never empty. */
  lemma CodeStringsAreLetters(c: ServiceCode)
    ensures |CodeString(c)| > 0
    ensures forall i :: 0 <= i < |CodeString(c)| ==> 'A' <= CodeString(c)[i] <= 'Z'
  {
  }

  /** One selectable variant of a service: an id, the caption shown next to
      its radio button (the `label` field of the TypeScript type; `label`
      is a reserved word in Dafny), and optionally a template of its own. */
  datatype EvaluatedFramework = EvaluatedFramework(id: string, caption: string, templateFile: Option<string>)

  /** A catalog entry; the icon is presentation only and is not kept. */
  datatype ServiceDefinition = ServiceDefinition(
    id: ServiceCode,
    name: string,
    description: string,
    subTypes: Option<seq<EvaluatedFramework>>,
    defaultTemplate: string,
    fields: seq<string>
  )

  /** A Word template file name. */
  function Docx(stem: string): string {
    stem + ".docx"
  }

  /** A template name ends in ".docx", after a non-empty stem. */
  lemma DocxShape(stem: string)
    requires stem != ""
    ensures |Docx(stem)| > |".docx"| && IsSuffix(".docx", Docx(stem))
  {
    assert Docx(stem)[|stem|..] == ".docx";
  }

  const AudSubTypes: seq<EvaluatedFramework> := [
    EvaluatedFramework("NBC_TA_800", "NBC TA 800 (Quadros Isolados)", Some(Docx("template_aud_800"))),
    EvaluatedFramework("NBC_TA_200_700", "NBC TA 200-700 (Demonstrações Completas)", Some(Docx("template_aud_200_700"))),
    EvaluatedFramework("NBC_TSC_4400", "NBC TSC 4400 (Procedimentos Acordados)", Some(Docx("template_tsc_4400")))
  ]

  const Catalog: map<ServiceCode, ServiceDefinition> := map[
    AC := ServiceDefinition(AC, "Auditoria Condominial",
      "Auditoria de Prestação de Contas (NBC TA 800 + 4400).", None,
      Docx("template_ac_premium"), ["pages", "folders", "start_date", "end_date"]),
    AUD := ServiceDefinition(AUD, "Auditoria (Geral)",
      "Auditorias contábeis e financeiras diversas.", Some(AudSubTypes),
      Docx("template_aud_generic"), ["framework", "scope_details", "start_date", "end_date"]),
    ATS := ServiceDefinition(ATS, "Auditoria Terceiro Setor",
      "ONGs, Fundações e Associações.", None,
      Docx("template_ats"), ["project_name", "grant_value", "start_date"]),
    CON := ServiceDefinition(CON, "Consultoria & Valuation",
      "Consultoria Financeira, Valuation, BPO.", None,
      Docx("template_consultoria"), ["consultancy_type", "hours_estimated", "consultant_name"]),
    INV := ServiceDefinition(INV, "Inventário",
      "Contagem e avaliação de estoques/ativos.", None,
      Docx("template_inventario"), ["location", "category", "team_size"]),
    OTHER := ServiceDefinition(OTHER, "Outros Serviços",
      "Personalizado / Novos Modelos.", None,
      Docx("template_generic"), ["custom_title", "custom_scope"])
  ]

  /** Every code has an entry, and nothing else does. */
  lemma CatalogKeys()
    ensures Catalog.Keys == {AC, AUD, ATS, CON, INV, OTHER}
    ensures forall c: ServiceCode :: c in Catalog
  {
    forall c: ServiceCode
      ensures c in Catalog
    {
      assert c in {AC, AUD, ATS, CON, INV, OTHER} by {
        match c
        case AC =>
        case AUD =>
        case ATS =>
        case CON =>
        case INV =>
        case OTHER =>
      }
    }
  }

  /** `SERVICES[code]`: the entry of a code. It carries its own key as id,
      a ".docx" default template with a non-empty name in front, and
      sub-types exactly when the code is AUD. */
  function Lookup(c: ServiceCode): (d: ServiceDefinition)
    ensures d.id == c
    ensures d.subTypes.Some? <==> c == AUD
    ensures |d.defaultTemplate| > |".docx"| && IsSuffix(".docx", d.defaultTemplate)
  {
    CatalogEntry(c);
    Catalog[c]
  }

  /** The facts of `Lookup`, one entry at a time. */
  lemma CatalogEntry(c: ServiceCode)
    ensures c in Catalog && Catalog[c].id == c
    ensures Catalog[c].subTypes.Some? <==> c == AUD
    ensures |Catalog[c].defaultTemplate| > |".docx"| && IsSuffix(".docx", Catalog[c].defaultTemplate)
  {
    match c
    case AC => DocxShape("template_ac_premium");
    case AUD => DocxShape("template_aud_generic");
    case ATS => DocxShape("template_ats");
    case CON => DocxShape("template_consultoria");
    case INV => DocxShape("template_inventario");
    case OTHER => DocxShape("template_generic");
  }

  /** The audit variants: three of them, with distinct ids and pairwise
      distinct templates, each differing from the service's default. */
  lemma AudSubTypesShape()
    ensures Lookup(AUD).subTypes == Some(AudSubTypes)
    ensures |AudSubTypes| == 3
    ensures [AudSubTypes[0].id, AudSubTypes[1].id, AudSubTypes[2].id] == ["NBC_TA_800", "NBC_TA_200_700", "NBC_TSC_4400"]
    ensures forall i, j :: 0 <= i < j < |AudSubTypes| ==> AudSubTypes[i].id != AudSubTypes[j].id
    ensures forall i :: 0 <= i < |AudSubTypes| ==>
      AudSubTypes[i].templateFile.Some? && AudSubTypes[i].templateFile.value != Lookup(AUD).defaultTemplate
    ensures forall i, j :: 0 <= i < j < |AudSubTypes| ==> AudSubTypes[i].templateFile != AudSubTypes[j].templateFile
  {
  }

  /** The condominium audit asks for the four inputs its price needs. */
  lemma AcFields()
    ensures Lookup(AC).fields == ["pages", "folders", "start_date", "end_date"]
  {
  }

  /** The ids of a service's sub-types (none for a service without them). */
  function SubTypeIds(c: ServiceCode): (ids: seq<string>)
    ensures |ids| > 0 <==> c == AUD
    ensures forall i :: 0 <= i < |ids| ==> ids[i] != ""
  {
    match Lookup(c).subTypes
    case None => []
    case Some(subs) => seq(|subs|, i requires 0 <= i < |subs| => subs[i].id)
  }
}
