/** The DNS forwarding-rule resource
    (ztw/resource_ztw_traffic_forwarding_dns_rule.go): the delete guard for
    its predefined rules and the order fallback of its configuration
    mapping. The destination countries are prefixed there too, but the
    prefixed list is never put into the rule that is sent, so the expanded
    rule does not carry them. Placement is in module Placement. */
module DnsRules {
  import opened Results
  import opened Utils
  import Placement

  /** The names of the predefined DNS rules. */
  const PredefinedNames: set<string> := {"ZPA Resolver", "Redirect Resolution of Zscaler Domains to WAN CTR"}

  /** validatePredefinedDNSRules. */
  function ValidatePredefinedDnsRules(name: string): (r: Option<string>)
    ensures r.Some? <==> name in PredefinedNames
    ensures r.Some? ==> r.value == CannotDelete(name)
  {
    if name == "ZPA Resolver" || name == "Redirect Resolution of Zscaler Domains to WAN CTR" then Some(CannotDelete(name))
    else None
  }

  /** The part of the expanded DNS rule this model keeps: its order. */
  datatype Expanded = Expanded(order: int)

  /** expandForwardingDNSRule: order 0 falls back to 1. The destination
      countries are read and prefixed but never placed in the result. */
  function ExpandForwardingDnsRule(order: int, destCountries: seq<string>): (r: Expanded)
    ensures r.order != 0
    ensures order != 0 ==> r.order == order
    ensures r.order == 1 <==> order == 0 || order == 1
  {
    var discarded := ProcessCountries(destCountries);
    Expanded(Placement.ExpandOrder(order))
  }

  /** The configured destination countries have no effect on the rule that
      is sent: any two country lists give the same expanded rule. */
  lemma CountriesDoNotReachDnsRule(order: int, a: seq<string>, b: seq<string>)
    ensures ExpandForwardingDnsRule(order, a) == ExpandForwardingDnsRule(order, b)
  {
  }
}
