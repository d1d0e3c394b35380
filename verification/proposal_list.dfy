/** The proposal list's display lookups: the badge style of a status, the
    label of a service type, and the client column. Each falls back when
    the lookup finds nothing. */
module ProposalList {
  import opened Wrappers
  import opened Services

  const DraftStyle: string := "bg-slate-100 text-slate-600"

  /** The five statuses a proposal can carry, with their badge styles. */
  const StatusStyles: map<string, string> := map[
    "GENERATED" := "bg-green-100 text-green-700",
    "DRAFT" := DraftStyle,
    "SENT" := "bg-blue-100 text-blue-700",
    "APPROVED" := "bg-emerald-100 text-emerald-700",
    "REJECTED" := "bg-red-100 text-red-700"
  ]

  /** The badge style of a status; an unknown status gets the draft style. */
  function StatusBadge(status: string): (r: string)
    ensures status in StatusStyles ==> r == StatusStyles[status]
    ensures status !in StatusStyles ==> r == DraftStyle
  {
    if status in StatusStyles && StatusStyles[status] != "" then StatusStyles[status]
    else DraftStyle
  }

  /** The badge tells the five known statuses apart, and only the draft
      status shares its style with the statuses the table does not know. */
  lemma StatusBadgeDistinguishes(s: string, t: string)
    requires s in StatusStyles && t in StatusStyles
    ensures StatusBadge(s) == StatusBadge(t) <==> s == t
  {
  }

  lemma StatusBadgeIsDraftStyle(status: string)
    ensures StatusBadge(status) == DraftStyle <==> status == "DRAFT" || status !in StatusStyles
  {
  }

  /** The labelled service types. PPA has a label but is not a catalog
      code; three catalog codes have none. */
  const ServiceLabels: map<string, string> := map[
    "AC" := "Assessoria Contábil",
    "AUD" := "Auditoria",
    "PPA" := "PPA",
    "CON" := "Consultoria"
  ]

  /** The label of a service type; a type without a label shows as itself. */
  function ServiceLabel(serviceType: string): (r: string)
    ensures serviceType in ServiceLabels ==> r == ServiceLabels[serviceType]
    ensures serviceType !in ServiceLabels ==> r == serviceType
  {
    if serviceType in ServiceLabels && ServiceLabels[serviceType] != "" then ServiceLabels[serviceType]
    else serviceType
  }

  /** A catalog code shows as its raw code exactly when it is ATS, INV or
      OTHER; AC, AUD and CON show a label that differs from the code. */
  lemma CatalogCodeLabel(c: ServiceCode)
    ensures ServiceLabel(CodeString(c)) == CodeString(c) <==> c in {ATS, INV, OTHER}
  {
    match c
    case AC =>
    case AUD =>
    case ATS =>
    case CON =>
    case INV =>
    case OTHER =>
  }

  const MissingClient: string := "Cliente não encontrado"

  /** The client column: the joined client's name, or the missing-client
      text when there is no joined client or its name is empty. */
  function ClientDisplayName(clientName: Option<string>): (r: string)
    ensures r != ""
    ensures clientName.Some? && clientName.value != "" ==> r == clientName.value
    ensures clientName.None? || clientName.value == "" ==> r == MissingClient
  {
    if clientName.Some? && clientName.value != "" then clientName.value else MissingClient
  }
}
