/** The filter values of the user-rule engine ("dynamic filtering"): the two
    UnifiedFilter shapes a user rule can take, the optional single-domain map,
    the legacy third-party encoding, and the builder that turns the inputs of
    the rule menus into one filter. */
module UserFilters {

  /** Kotlin's nullable type `T?`. */
  datatype Option<+T> = None | Some(value: T)

  /** The integer third-party encoding of a UnifiedFilter. */
  const THIRD_PARTY_ONLY: int := 1
  const FIRST_PARTY_ONLY: int := 0
  const ANY_PARTY: int := -1

  /** SingleDomainMap(include, domain): a domain map holding exactly one domain. */
  datatype DomainMap = SingleDomainMap(inclusive: bool, domain: string)

  /** The two filter shapes user rules use: ContainsFilter for global rules,
      HostFilter for rules tied to one page host. */
  datatype UnifiedFilter =
    | ContainsFilter(pattern: string, contentType: int, domains: Option<DomainMap>, thirdParty: int)
    | HostFilter(pattern: string, contentType: int, ignoreCase: bool, domains: Option<DomainMap>, thirdParty: int)

  /** UnifiedFilterResponse: a filter with the decision it stands for
      (true blocks, false allows). */
  datatype FilterResponse = FilterResponse(filter: UnifiedFilter, response: bool)

  /** One resource request of a page, as the network layer reports it. Only
      the container's lookup reads it. */
  datatype ContentRequest = ContentRequest(pageHost: string, requestHost: string, contentType: int, isThirdParty: bool)

  /** The inputs the menus pass when a rule is created. */
  datatype RuleInputs = RuleInputs(pageDomain: string, requestDomain: string, contentType: int, thirdParty: bool)

  /** What the third-party encoding means: 1 applies to third-party requests
      only, 0 to first-party requests only, -1 to both. */
  predicate PartyApplies(thirdParty: int, isThirdPartyRequest: bool)
  {
    if thirdParty == THIRD_PARTY_ONLY then isThirdPartyRequest
    else if thirdParty == FIRST_PARTY_ONLY then !isThirdPartyRequest
    else thirdParty == ANY_PARTY
  }

  /** `host` is `domain` itself or one of its subdomains. */
  predicate CoveredBy(host: string, domain: string)
  {
    host == domain
    || (|host| > |domain| && host[|host| - |domain|..] == domain && host[|host| - |domain| - 1] == '.')
  }

  /** What a filter's domain map means for the requested host: no map applies
      to every host; an including map applies to its domain and its
      subdomains. That an excluding map applies to every other host is this
      model's own reading; the builder never makes one. */
  predicate DomainsApply(domains: Option<DomainMap>, requestHost: string)
  {
    match domains
    case None => true
    case Some(m) => m.inclusive == CoveredBy(requestHost, m.domain)
  }

  /** createUserFilter: the filter for one user rule. */
  function CreateUserFilter(pageDomain: string, requestDomain: string, contentType: int, thirdParty: bool): (f: UnifiedFilter)
    // the domain map: absent exactly for an empty request domain, else an including map of that one domain
    ensures f.domains.None? <==> requestDomain == ""
    ensures f.domains.Some? ==> f.domains.value == SingleDomainMap(true, requestDomain)
    ensures forall host :: DomainsApply(f.domains, host) <==> (requestDomain == "" || CoveredBy(host, requestDomain))
    // the third-party flag: true gives 1, false gives -1 (both parties), never 0
    ensures f.thirdParty == THIRD_PARTY_ONLY <==> thirdParty
    ensures f.thirdParty == ANY_PARTY <==> !thirdParty
    ensures f.thirdParty != FIRST_PARTY_ONLY
    ensures forall isThirdPartyRequest :: PartyApplies(f.thirdParty, isThirdPartyRequest) <==> (thirdParty ==> isThirdPartyRequest)
    // the shape: a global rule has the empty pattern, a site rule is a case-sensitive host filter on the page domain
    ensures f.ContainsFilter? <==> pageDomain == ""
    ensures f.pattern == pageDomain
    ensures f.HostFilter? ==> !f.ignoreCase
    // the content type is copied unchanged
    ensures f.contentType == contentType
  {
    var domains := if requestDomain != "" then Some(SingleDomainMap(true, requestDomain)) else None;
    var thirdPartyInt := if thirdParty then THIRD_PARTY_ONLY else ANY_PARTY;
    if pageDomain == "" then
      ContainsFilter(pageDomain, contentType, domains, thirdPartyInt)
    else
      HostFilter(pageDomain, contentType, false, domains, thirdPartyInt)
  }

  /** The user rule a filter is displayed as: defined exactly for the filters
      the builder can produce, one rule per filter. */
  function UserRuleOf(f: UnifiedFilter): (r: Option<RuleInputs>)
    ensures r.Some? ==> CreateUserFilter(r.value.pageDomain, r.value.requestDomain, r.value.contentType, r.value.thirdParty) == f
  {
    var requestDomain: Option<string> :=
      match f.domains
      case None => Some("")
      case Some(m) => if m.inclusive && m.domain != "" then Some(m.domain) else None;
    var thirdParty: Option<bool> :=
      if f.thirdParty == THIRD_PARTY_ONLY then Some(true)
      else if f.thirdParty == ANY_PARTY then Some(false)
      else None;
    var shapeFits :=
      match f
      case ContainsFilter(pattern, _, _, _) => pattern == ""
      case HostFilter(pattern, _, ignoreCase, _, _) => pattern != "" && !ignoreCase;
    if shapeFits && requestDomain.Some? && thirdParty.Some? then
      Some(RuleInputs(f.pattern, requestDomain.value, f.contentType, thirdParty.value))
    else
      None
  }

  /** Every built filter is displayed as the rule it was built from. */
  lemma UserRuleOfCreate(pageDomain: string, requestDomain: string, contentType: int, thirdParty: bool)
    ensures UserRuleOf(CreateUserFilter(pageDomain, requestDomain, contentType, thirdParty))
         == Some(RuleInputs(pageDomain, requestDomain, contentType, thirdParty))
  {
  }

  /** Two different rules never share a filter, so a filter can be listed and
      removed as the one rule it stands for. */
  lemma CreateUserFilterInjective(a: RuleInputs, b: RuleInputs)
    requires CreateUserFilter(a.pageDomain, a.requestDomain, a.contentType, a.thirdParty)
          == CreateUserFilter(b.pageDomain, b.requestDomain, b.contentType, b.thirdParty)
    ensures a == b
  {
  }

  /** `userRules.get(request)?.response`: the found filter's decision (true
      blocks, false allows), or null when no filter was found. */
  function ResponseOf(found: Option<FilterResponse>): (r: Option<bool>)
    ensures r.None? <==> found.None?
    ensures r.Some? ==> r.value == found.value.response
  {
    match found
    case None => None
    case Some(rule) => Some(rule.response)
  }
}
