/** The forwarding-rule resource (ztw/resource_ztw_traffic_forwarding_rule.go):
    the plan-time exclusions between the forwarding method and the
    destination attributes, the guard that keeps predefined rules from being
    deleted, and the configuration mapping of order and destination
    countries. Placement is in module Placement. */
module ForwardingRules {
  import opened Results
  import opened Utils
  import Placement

  /** The names of the predefined forwarding rules. */
  const PredefinedNames: set<string> := {
    "ZPA Forwarding Rule", "Direct rule for Zscaler Cloud Endpoints",
    "Direct rule for WAN Destinations Group", "Direct rule for LAN Destinations Group",
    "Client Connector to ZPA", "ZPA Pool For Stray Traffic"}

  /** validatePredefinedRules: three paired checks, each refusing two names. */
  function ValidatePredefinedRules(name: string): (r: Option<string>)
    ensures r.Some? <==> name in PredefinedNames
    ensures r.Some? ==> r.value == CannotDelete(name)
  {
    if name == "ZPA Forwarding Rule" || name == "Direct rule for Zscaler Cloud Endpoints" then Some(CannotDelete(name))
    else if name == "Direct rule for WAN Destinations Group" || name == "Direct rule for LAN Destinations Group" then Some(CannotDelete(name))
    else if name == "Client Connector to ZPA" || name == "ZPA Pool For Stray Traffic" then Some(CannotDelete(name))
    else None
  }

  datatype DeleteOutcome = Refused(message: string) | Deleted

  /** The delete path once the rule has been fetched: refused for a
      predefined rule, otherwise the rule is deleted. */
  function Delete(name: string): (r: DeleteOutcome)
    ensures r.Deleted? <==> name !in PredefinedNames
    ensures r.Refused? ==> r.message == CannotDelete(name)
  {
    match ValidatePredefinedRules(name)
    case Some(msg) => Refused(msg)
    case None => Deleted
  }

  /** Attributes that must stay unset when forward_method is ECZPA, in the
      order they are checked. */
  const EczpaExcluded: seq<string> := [
    "dest_addresses", "dest_countries", "dest_ip_groups", "dest_ip_categories",
    "proxy_gateway", "nw_services", "nw_service_groups", "app_service_groups"]

  /** Forward methods that exclude the ZPA segment attributes. */
  const NonZpaMethods: set<string> := {"ZIA", "DIRECT", "LOCAL_SWITCH", "DROP"}

  /** Attributes that must stay unset for those methods, in checking order. */
  const ZpaOnly: seq<string> := ["zpa_application_segments", "zpa_application_segment_groups"]

  /** The first attribute of `attrs` that is set. */
  function FirstSet(attrs: seq<string>, isSet: string -> bool): (r: Option<string>)
    ensures r.None? <==> forall i :: 0 <= i < |attrs| ==> !isSet(attrs[i])
    ensures r.Some? ==> exists i :: 0 <= i < |attrs| && attrs[i] == r.value && isSet(r.value)
                          && forall j :: 0 <= j < i ==> !isSet(attrs[j])
  {
    if |attrs| == 0 then None
    else if isSet(attrs[0]) then
      Some(attrs[0])
    else
      var rest := FirstSet(attrs[1..], isSet);
      assert forall i :: 1 <= i < |attrs| ==> attrs[i] == attrs[1..][i - 1];
      if rest.Some? then
        var k :| 0 <= k < |attrs[1..]| && attrs[1..][k] == rest.value && isSet(rest.value)
                   && forall j :: 0 <= j < k ==> !isSet(attrs[1..][j]);
        assert attrs[k + 1] == rest.value;
        rest
      else rest
  }

  function CannotSet(attr: string, forwardMethod: string): string
  {
    attr + " attribute cannot be set when forward_method is '" + forwardMethod + "'"
  }

  /** The attributes a forward method excludes, in checking order. The
      ECZPA branch and the ZIA/DIRECT/LOCAL_SWITCH/DROP branch are checked
      one after the other; no method takes both. */
  function Excluded(forwardMethod: string): (attrs: seq<string>)
    ensures forwardMethod == "ECZPA" ==> attrs == EczpaExcluded
    ensures forwardMethod in NonZpaMethods ==> attrs == ZpaOnly
    ensures forwardMethod != "ECZPA" && forwardMethod !in NonZpaMethods ==> attrs == []
  {
    if forwardMethod == "ECZPA" then EczpaExcluded
    else if forwardMethod in NonZpaMethods then ZpaOnly
    else []
  }

  /** The CustomizeDiff check. `isSet` says whether an attribute is set to
      a non-empty value in the planned configuration. The plan is refused
      exactly when an excluded attribute is set, and the message names the
      first such attribute in checking order. */
  function CustomizeDiff(forwardMethod: string, isSet: string -> bool): (r: Option<string>)
    ensures r.None? <==> forall i :: 0 <= i < |Excluded(forwardMethod)| ==> !isSet(Excluded(forwardMethod)[i])
    ensures r.Some? ==>
              exists i :: 0 <= i < |Excluded(forwardMethod)| && isSet(Excluded(forwardMethod)[i])
                && r.value == CannotSet(Excluded(forwardMethod)[i], forwardMethod)
                && forall j :: 0 <= j < i ==> !isSet(Excluded(forwardMethod)[j])
  {
    match FirstSet(Excluded(forwardMethod), isSet)
    case Some(a) => Some(CannotSet(a, forwardMethod))
    case None => None
  }

  /** An example of the checking order: whenever dest_addresses is set, an
      ECZPA plan is refused naming it, whatever else is set. */
  lemma EczpaReportsFirstAttribute(isSet: string -> bool)
    requires isSet("dest_addresses")
    ensures CustomizeDiff("ECZPA", isSet) == Some(CannotSet("dest_addresses", "ECZPA"))
  {
  }

  /** An example of reading the two tables: a plan that sets none of the
      excluded attributes is accepted under every forward method. */
  lemma ExclusionsAreSeparate(isSet: string -> bool)
    requires forall i :: 0 <= i < |ZpaOnly| ==> !isSet(ZpaOnly[i])
    requires forall i :: 0 <= i < |EczpaExcluded| ==> !isSet(EczpaExcluded[i])
    ensures forall m :: CustomizeDiff(m, isSet).None?
  {
  }

  /** The configuration fields expandForwardingControlRule maps with logic:
      order falls back from 0 to 1, and destination countries get the
      country prefix. */
  datatype Expanded = Expanded(order: int, destCountries: seq<string>)

  function ExpandForwardingControlRule(order: int, destCountries: seq<string>): (r: Expanded)
    ensures r.order != 0 && (order != 0 ==> r.order == order)
    ensures r.order == 1 <==> order == 0 || order == 1
    ensures r.destCountries == ProcessCountries(destCountries)
  {
    Expanded(Placement.ExpandOrder(order), ProcessCountries(destCountries))
  }

  /** The read path trims the prefix again, so countries configured without
      it survive a write followed by a read. */
  lemma CountriesSurviveWriteAndRead(order: int, destCountries: seq<string>)
    requires forall i :: 0 <= i < |destCountries| ==>
               !(|destCountries[i]| >= |CountryPrefix| && destCountries[i][..|CountryPrefix|] == CountryPrefix)
    ensures TrimCountries(ExpandForwardingControlRule(order, destCountries).destCountries) == destCountries
  {
    TrimAfterProcess(destCountries);
  }
}
