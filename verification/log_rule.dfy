/** The log forwarding-rule resource
    (ztc/resource_ztc_traffic_log_forwarding_rule.go): the delete guard for
    its predefined rules and the order fallback of its configuration
    mapping. Placement is in module Placement. */
module LogRules {
  import opened Results
  import DnsRules
  import Utils
  import Placement

  /** validatePredefinedLogRules: the log resource refuses the two names
      the DNS resource refuses, with the same message. */
  function ValidatePredefinedLogRules(name: string): (r: Option<string>)
    ensures r.Some? <==> name in DnsRules.PredefinedNames
    ensures r.Some? ==> r.value == Utils.CannotDelete(name)
  {
    if name == "ZPA Resolver" || name == "Redirect Resolution of Zscaler Domains to WAN CTR" then
      Some(Utils.CannotDelete(name))
    else None
  }

  /** The log and DNS guards agree on every name. */
  lemma SameGuardAsDns(name: string)
    ensures ValidatePredefinedLogRules(name) == DnsRules.ValidatePredefinedDnsRules(name)
  {
  }

  /** expandForwardingLogRule's order: 0 falls back to 1. */
  function ExpandLogOrder(order: int): (r: int)
    ensures r != 0
    ensures order != 0 ==> r == order
    ensures r == 1 <==> order == 0 || order == 1
  {
    Placement.ExpandOrder(order)
  }
}
