/** The dependency checks a cloud connector location template must pass
    before it is created or updated (checkLocationTemplateDependencies in
    ztc/resource_ztc_location_template.go). */
module LocationTemplates {
  import opened Results

  /** The template settings the checks read. */
  datatype Details = Details(
    authRequired: bool,
    cautionEnabled: bool,
    aupEnabled: bool,
    aupTimeoutInDays: int,
    enforceBandwidthControl: bool,
    upBandwidth: int,
    dnBandwidth: int)

  const AuthWithCaution: string := "authentication required must be disabled, when enabling caution"
  const AupWithCaution: string := "enabling AUP and Caution together is not allowed"
  const AupWithoutTimeout: string := "AUP timeout in days is required, when AUP is enabled"
  const BandwidthMissing: string := "upload and download bandwidth is mandatory when enforce bandwidth setting is on"

  /** Reference reading: the messages of every rule the settings break, in
      checking order. */
  function Violations(d: Details): seq<string>
  {
    (if d.authRequired && d.cautionEnabled then [AuthWithCaution] else [])
    + (if d.aupEnabled && d.cautionEnabled then [AupWithCaution] else [])
    + (if d.aupEnabled && d.aupTimeoutInDays == 0 then [AupWithoutTimeout] else [])
    + (if d.enforceBandwidthControl && d.upBandwidth == 0 && d.dnBandwidth == 0 then [BandwidthMissing] else [])
  }

  datatype Verdict = Accepted | Rejected(message: string) | Panics

  /** checkLocationTemplateDependencies. The details pointer is nil when the
      configuration has no template block; the checks dereference it
      without a nil check, which panics. */
  function CheckLocationTemplateDependencies(details: Option<Details>): (r: Verdict)
    ensures r.Panics? <==> details.None?
    ensures details.Some? ==> (r == Accepted <==> Violations(details.value) == [])
    ensures details.Some? && r.Rejected? ==>
              |Violations(details.value)| > 0 && r.message == Violations(details.value)[0]
  {
    match details
    case None => Panics
    case Some(d) =>
      if d.authRequired && d.cautionEnabled then Rejected(AuthWithCaution)
      else if d.aupEnabled && d.cautionEnabled then Rejected(AupWithCaution)
      else if d.aupEnabled && d.aupTimeoutInDays == 0 then Rejected(AupWithoutTimeout)
      else if d.enforceBandwidthControl && d.upBandwidth == 0 && d.dnBandwidth == 0 then Rejected(BandwidthMissing)
      else Accepted
  }

  /** Caution cannot be combined with authentication or with AUP; with both
      combined, the authentication message wins because it is checked first. */
  lemma CautionExcludesAuthAndAup(d: Details)
    requires d.cautionEnabled && (d.authRequired || d.aupEnabled)
    ensures CheckLocationTemplateDependencies(Some(d)).Rejected?
    ensures d.authRequired ==> CheckLocationTemplateDependencies(Some(d)) == Rejected(AuthWithCaution)
  {
  }

  /** Bandwidth enforcement needs only one of the two bandwidths: a template
      with just an upload bandwidth passes that check. */
  lemma OneBandwidthSuffices(d: Details)
    requires d.enforceBandwidthControl && d.upBandwidth != 0
    requires !d.cautionEnabled && !d.aupEnabled
    ensures CheckLocationTemplateDependencies(Some(d)) == Accepted
  {
  }
}
