# Rule-ordering coordinator of the Zscaler cloud/branch connector Terraform provider

This project is a Dafny model of the code that places forwarding, DNS and log
forwarding rules at their configured order and rank. It also proves
properties of that model.

Terraform applies many rules of one kind at once. Each create first sends
its rule at a provisional placement. If that call succeeds, it registers the configured
`(order, rank)` under the rule kind's key in a process-wide registry. The
first registrant of a kind becomes its leader and runs a settle loop:
- Every tick, the loop checks the partition of that kind.
- On the first tick where every entry is done and the last three
  partition sizes are equal, it sorts the entries with a rank/order/id
  comparator.
- It pushes each entry whose intended order is at most the live rule
  count, in sorted order, and then stops.

The model is sequential. Each registration, completion and tick is a
state transition of immutable data. Go's map iteration order is a
parameter of the model. The remote API's answers are parameters too: the
count, each rule's fetch and write outcome, the outcome of each create and
update call, and the listings.

Modules:
- `Seqs`: an order-preserving filter and the subsequence relation.
- `Ordering`: `OrderRule`, the comparator and its sort, and `sortOrders`
  (ztc/common.go).
- `Registry`: registration (`reorderWithBeforeReorder`), completion
  (`markOrderRuleAsDone`) and runs of both.
- `Settle`: the `reorderAll` tick machine and its push phase.
- `Scenarios`: concrete runs of the coordinator.
- `Utils`: fail-fast error classification, country prefixes, untyped-list
  conversion and the positive-int lookup (ztc/utils.go).
- `IdLists`: `flattenIDExtensionsListIDs` and `DetachRuleIDNameExtensions`.
- `Placement`: the starting-order counter, the rank clamp, the update-path
  order choice, the order fallback and the two `updateOrder` callbacks.
  These are shared by the three rule kinds.
- `ForwardingRules`, `DnsRules` and `LogRules`: the per-kind delete guards
  and the order fallback of the configuration mapping. `ForwardingRules`
  also holds the CustomizeDiff exclusions and the destination-country
  prefixing.
- `LocationTemplates`: the template dependency checks.

Behaviour of the code worth noting:
- **Completion of an absent entry.** `markOrderRuleAsDone` on an id that is
  absent from an existing partition inserts a zero placement marked done. On
  a kind that was never registered it writes into a nil
  map, which panics. `Registry.MarkDone` returns `None` for that case.
- **Done can be reset.** The done flag stays set only while the same
  `(kind, id)` is not registered again. A non-leader re-registration stores `done = false`;
  the update path re-registers its rule.
- **Leader table reset.** Registration resets the leader table whenever the
  registry holds no partition at all.
- **Count error.** The error of a failing count query is ignored and the
  count reads 0, so the push goes ahead with that count.
- **Lock scope.** The settle loop holds the registry lock for the whole
  tick, including the count query and the pushes.
- **Log counter.** The log rule's starting order is the largest existing
  order with no +1.
- **Update path.** It indexes the last element of a possibly empty listing
  without a check; `Placement.UpdatePlacement` models the panic. The
  fail-fast check after a failed update call is unreachable, because the
  call's error is returned first.
- **Failed create or update.** A create or update call that fails returns
  before registering, so the coordinator never sees that rule. The
  starting-order counter is set before the create call and keeps its value
  even when the call fails.
- **Update marks done after its Read.** The update path calls
  `markOrderRuleAsDone` only after the Read that follows the update
  succeeds; the create path marks its rule done before its Read. An update
  whose Read fails leaves its re-registered entry not done, and the
  partition's leader does not see every entry done until a later
  completion of that id.
- **DNS destination countries.** `expandForwardingDNSRule` prefixes the
  configured destination countries but never puts the result into the rule
  it returns. `DnsRules.ExpandForwardingDnsRule` therefore carries the order
  only, and `DnsRules.CountriesDoNotReachDnsRule` states that the countries
  have no effect.

## Model

| member | source | states |
|---|---|---|
| Ordering.LessIsLexicographic | ztc/common.go:52-56 | the comparator orders pairs lexicographically by (rank, order, id): identical placements by id, else lower rank first, else lower order first |
| Ordering.LessIrreflexive | ztc/common.go:52-56 | no pair is before itself |
| Ordering.LessAsymmetric | ztc/common.go:52-56 | two pairs are never each before the other |
| Ordering.LessTransitive | ztc/common.go:52-56 | the comparator is transitive |
| Ordering.LessTotal | ztc/common.go:52-56 | any two different pairs are comparable, in particular pairs with different ids |
| Ordering.Insert | ztc/common.go:18-27 | inserting into a strictly sorted sequence keeps it strictly sorted and adds exactly that element |
| Ordering.Sort | ztc/common.go:18-27 | sorting a duplicate-free sequence gives a strictly increasing permutation of it |
| Ordering.SortOrders | ztc/common.go:18-27 | for any iteration order of the partition, the result has one (id, intended placement) pair per key, as many pairs as keys, strictly sorted by the comparator |
| Ordering.EnumerationSize | ztc/common.go:18-22 | collecting the keys in iteration order visits exactly as many keys as the partition holds |
| Ordering.SortedUnique | ztc/common.go:25 | two strictly sorted sequences with the same elements are equal |
| Ordering.ListingUnique | ztc/common.go:18-27 | every sorted listing of a partition is the same sequence, so the push order does not depend on map iteration order or on sort.Sort being unstable |
| Registry.Register | ztc/common.go:116-132 | the call leads exactly when no partition exists or its kind has no leader; the leader is stored; the entry (kind, id) is inserted or overwritten with done equal to leadership; every other entry and kind is unchanged |
| Registry.MarkDone | ztc/common.go:103-109 | on a registered kind the entry becomes done with its placement kept (a zero placement if the id was absent) and nothing else changes; on an unregistered kind it panics |
| Registry.InitialWf | ztc/common.go:116-120 | the empty registry is well formed |
| Registry.RegisterInWf | ztc/common.go:116-132 | in a well-formed registry a call leads exactly when its kind has no leader, existing leaders are kept, and well-formedness is preserved |
| Registry.MarkDoneInWf | ztc/common.go:103-109 | in a well-formed registry completion panics exactly for kinds with no leader, and otherwise keeps the registry well formed |
| Registry.MarkDoneAfterRegister | ztc/common.go:103-109 | a rule that has registered can always complete, and its entry becomes its own placement marked done |
| Registry.RunOpsWf | ztc/common.go:103-132 | any sequence of registrations and completions from a well-formed registry leaves it well formed |
| Registry.LeaderIsFirstRegistrant | ztc/common.go:123-128 | over any sequence of registrations and completions, a call is leader exactly when it is the first registration of a kind that had no leader, so each kind has at most one leader |
| Registry.LeaderSlotPersists | ztc/common.go:60-101 | once set, a kind's leader is never cleared or replaced, and no later registration of that kind leads |
| Registry.DoneIsMonotone | ztc/common.go:103-109 | a done entry stays present and done through any calls that do not re-register that (kind, id), and no key ever leaves a partition |
| Registry.ReRegistrationResetsDone | ztc/common.go:129-132 | a non-leader registration of an id stores it as not done, even if it was done before |
| Settle.Tick | ztc/common.go:76-77 | a tick shifts the size window left and appends the current size; it reorders only when every entry is done and the three sizes are equal, and always then |
| Settle.FirstReorder | ztc/common.go:63-101 | the tick at which the loop reorders is one of the observed ticks |
| Settle.WindowHoldsLastThreeSizes | ztc/common.go:63-76 | from the start window of zeros, the window after k ticks holds the sizes seen at ticks k-3, k-2 and k-1 (0 before the first tick) |
| Settle.FirstReorderIsFirstFiring | ztc/common.go:64-101 | the loop reorders at tick k exactly when k is the first tick whose condition holds |
| Settle.FiresIffThreeEqualSizes | ztc/common.go:68-77 | from the start, the condition holds at tick k exactly when every entry is done and the sizes at ticks k-2, k-1 and k are equal |
| Settle.NoReorderBeforeThirdTick | ztc/common.go:63-77 | a non-empty partition is never reordered at the first or second tick |
| Settle.NeverReordersWhileGrowing | ztc/common.go:76-77 | if every tick sees more entries than the one before, the loop never reorders |
| Settle.QuiescenceTriggersReorder | ztc/common.go:64-101 | a tick whose condition holds means the loop has reordered by that tick |
| Settle.StablePartitionReordersOnThirdTick | ztc/common.go:63-77 | a complete, non-empty partition that stays the same is reordered on exactly the third tick |
| Settle.PushList | ztc/common.go:86-92 | the pushed pairs are exactly the sorted pairs whose intended order is at most the count |
| Settle.PushListOfListing | ztc/common.go:79-92 | every push targets an entry of the partition with its intended placement and an order at most the count; pushes follow the comparator; every reachable entry is pushed |
| Settle.SubseqOfSortedIsSorted | ztc/common.go:86-88 | skipping entries of the sorted sequence keeps the rest in comparator order |
| Settle.CountErrorPushesNothingPositive | ztc/common.go:80 | when the count query fails, nothing with order 1 or more is pushed, and nothing at all if every order is positive |
| Settle.Push | ztc/common.go:86-92 | updateOrder is called once per reachable entry in sorted order, and a failed call does not stop the remaining calls |
| Settle.ReorderAll | ztc/common.go:60-101 | the loop reorders exactly when some observed tick is quiescent, at the first such tick; there it sorts that tick's partition and pushes the reachable entries, with failures recorded |
| Scenarios.SingleRuleReorder | ztc/common.go:60-143 | one rule registered with order 1 and rank 7 leads, reorders on the third tick, and is pushed exactly once when the count is at least 1 |
| Scenarios.FiveSortedIsListing | ztc/common.go:52-56 | the five rules in ascending order form a sorted listing of their partition |
| Scenarios.FiveSortedByOrder | ztc/common.go:18-27 | five rules at rank 7 with orders 5, 3, 1, 4, 2 sort by ascending order, whatever the iteration order |
| Scenarios.FiveRulesSettle | ztc/common.go:63-77 | the complete batch of five reorders on the third stable tick |
| Scenarios.FiveRulesPush | ztc/common.go:79-92 | with a count of 3 the batch pushes ids 3, 5, 2 in that order, and nothing whose order exceeds 3 |
| Scenarios.CountFailurePushesNothing | ztc/common.go:79-92 | when the count query fails, the batch pushes nothing |
| IdLists.FlattenIdExtensionsListIds | ztc/common.go:802-827 | no block when every item has id 0 and no name (including the empty list); otherwise a single block holding the ids of the other items, in input order |
| IdLists.NonBlankIdsEmpty | ztc/common.go:808-819 | no id is collected exactly when every item has id 0 and an empty name |
| IdLists.NonBlankIdsAreFilteredIds | ztc/common.go:808-814 | the collected ids are the ids of the items an order-preserving filter keeps when it drops the blank ones |
| IdLists.WithoutDropsExactly | ztc/utils.go:153-161 | no kept reference is to the detached id, and the list keeps its length exactly when none was |
| IdLists.WithoutIsFilter | ztc/utils.go:153-161 | removing the references to an id is the order-preserving filter that keeps every other reference |
| IdLists.DetachFilter | ztc/utils.go:153-162 | the kept references are exactly those not to the id, in their original order; an update is due exactly when some reference was to the id, which is exactly when the list got shorter |
| IdLists.DetachIdempotent | ztc/utils.go:153-162 | a second detach of the same id removes nothing more |
| IdLists.DetachStepReferences | ztc/utils.go:153-167 | a listed rule is written back exactly when it references the id and can be fetched, and the rule written back no longer references it |
| IdLists.DetachPlanRemovesReference | ztc/utils.go:142-175 | every rule a complete detach writes back is a listed, fetchable rule that referenced the id, with the reference gone |
| IdLists.DetachPlanPrefix | ztc/utils.go:152-173 | the write-backs for the first k listed rules are the start of the write-backs for all of them |
| IdLists.DetachAll | ztc/utils.go:152-174 | with every update succeeding, exactly the planned rules are written back, in list order; otherwise the writes are a prefix of the plan whose last write failed and all earlier writes succeeded |
| IdLists.DetachRuleIdNameExtensions | ztc/utils.go:142-175 | a failed listing is returned as an error; otherwise the rules that reference the id and can be fetched are written back without it, in list order, and the first failed write ends the detach with its error |
| Utils.Contains | ztc/utils.go:110 | the substring scan succeeds exactly when the needle occurs at some position |
| Utils.MentionsFailFastCode | ztc/utils.go:106-114 | the fallback matches exactly when the text contains `"code":"C"` for a listed code C |
| Utils.FailFast | ztc/utils.go:80-117 | no error gives none; the result is either none or the very error passed in; an error is returned exactly when its structured body code is one of the four fail-fast codes or its text contains `"code":"C"` for one of them |
| Utils.FallbackMatchFailsFast | ztc/utils.go:106-114 | an unstructured error whose text is a listed code's marker fails fast |
| Utils.OtherCodesDoNotFailFast | ztc/utils.go:94-116 | a structured error with an unlisted code and no listed marker in its text yields none |
| Utils.ProcessCountries | ztc/utils.go:130-140 | the length is kept; an entry changes exactly when it has two characters, and then it gains the COUNTRY_ prefix |
| Utils.ProcessCountryChangesExactlyPairs | ztc/utils.go:133-137 | an entry is changed exactly when it has two characters, and then it gets the COUNTRY_ prefix; the ANY/NONE exclusion never applies |
| Utils.ProcessCountriesIdempotent | ztc/utils.go:130-140 | converting twice is the same as converting once |
| Utils.TrimAfterProcess | ztc/utils.go:130-140 | trimming the prefix from the converted list restores the configured list when no configured entry starts with the prefix |
| Utils.PrefixedEntryDoesNotRoundTrip | ztc/utils.go:130-140 | a configured entry that already carries the prefix is read back without it |
| Utils.ListToStringSlice | ztc/utils.go:39-55 | the length is kept (empty gives empty), string elements are copied, and nil or non-string elements become "" |
| Utils.ListOfStringsRoundTrip | ztc/utils.go:39-55 | a list of strings converts back to the same strings |
| Utils.NonEmptyEntryIsString | ztc/utils.go:46-51 | a non-empty converted entry came from that very string element |
| Utils.GetIntFromResourceData | ztc/utils.go:57-61 | an int value is returned as it is, whatever its sign and whether the key is set; a non-int value reads as 0; the lookup succeeds exactly when the key is set and holds an int greater than 0 |
| Placement.KeysDistinct | ztw/resource_ztw_traffic_forwarding_rule.go:304 | the three rule kinds register under three different keys |
| Placement.MaxOrder | ztw/resource_ztw_traffic_forwarding_rule.go:262-267 | the scan result is at least 0 and every listed order, and is 0 or one of the orders |
| Placement.StartingOrder | ztw/resource_ztw_traffic_forwarding_rule.go:260-273 | the counter starts at 1 or more; forwarding and DNS rules start one past the largest listed order, log rules at the largest order itself |
| Placement.Counter | ztw/resource_ztw_traffic_forwarding_rule.go:260-274 | the counter is initialised only while it is 0, and a set counter is kept |
| Placement.CounterFixedAfterFirstCreate | ztw/resource_ztw_traffic_forwarding_rule.go:260-274 | across any number of creates, the counter keeps the value the first create set |
| Placement.ProvisionalRank | ztw/resource_ztw_traffic_forwarding_rule.go:279-283 | a rank below 7 is sent as 7, and a rank of 7 or more is sent unchanged |
| Placement.ExpandOrder | ztw/resource_ztw_traffic_forwarding_rule.go:552-556 | order 0 falls back to 1, and every other order is kept |
| Placement.CreatePlacement | ztw/resource_ztw_traffic_forwarding_rule.go:258-307 | a create sends the counter as its order and the clamped rank; it registers the configured placement under the kind's key exactly when the create call succeeded |
| Placement.FailedCreateKeepsCounter | ztw/resource_ztw_traffic_forwarding_rule.go:259-300 | a failed create registers nothing but leaves the counter where a successful one would |
| Placement.CreateSendsProvisionalRegistersConfigured | ztw/resource_ztw_traffic_forwarding_rule.go:276-307 | for a successful create: it is sent at rank 7 or more and at a non-zero order; a counter that forwarding or DNS creates initialise lies after every listed rule; the registered rank differs from the sent one exactly when it was below 7 |
| Placement.CreatesShareStartingOrder | ztw/resource_ztw_traffic_forwarding_dns_rule.go:151-175 | once a create has set the counter, later creates of that kind send the same provisional order |
| Placement.Greatest | ztw/resource_ztw_traffic_forwarding_rule.go:454-456 | the selected listed rule has no other rule sorting after it by (rank, order) |
| Placement.UpdateOrder | ztw/resource_ztw_traffic_forwarding_rule.go:454-459 | an empty listing panics; otherwise the chosen order is that of a listed rule that no other rule sorts after by (rank, order) |
| Placement.LastOfAnySortedArrangement | ztw/resource_ztw_traffic_forwarding_rule.go:454-459 | every (rank, order)-sorted permutation of the listing ends in a rule with the chosen order, so the choice does not depend on how the unstable sort arranges ties |
| Placement.UpdatePlacement | ztw/resource_ztw_traffic_forwarding_rule.go:444-512 | a rule that Get reports as not found ends the update with nothing sent; an empty listing panics; otherwise the update is sent at rank 7 and the last listed order, the configured placement is registered under the kind's key exactly when the update call succeeded, and it is marked done exactly when the Read after that also succeeded |
| Placement.UpdateAlwaysSendsRankSeven | ztw/resource_ztw_traffic_forwarding_dns_rule.go:313-322 | an update lowers a configured rank above 7 to 7, which a create would have kept |
| Placement.PushOrder | ztw/resource_ztw_traffic_forwarding_rule.go:485-503 | a failed fetch ends the call; the update path's callback skips exactly a rule already at the target placement; the create path's callback always writes |
| Placement.PushReachesTarget | ztc/resource_ztc_traffic_log_forwarding_rule.go:308-322 | a successful callback leaves the rule at the target placement, and skipping reaches the same placement as writing |
| ForwardingRules.ValidatePredefinedRules | ztw/resource_ztw_traffic_forwarding_rule.go:238-249 | deletion is refused exactly for the six predefined rule names, with the message naming the rule |
| ForwardingRules.Delete | ztw/resource_ztw_traffic_forwarding_rule.go:531-540 | a fetched rule is deleted exactly when its name is not predefined |
| ForwardingRules.FirstSet | ztw/resource_ztw_traffic_forwarding_rule.go:61-65 | the result is none exactly when no listed attribute is set, and otherwise is the first set one |
| ForwardingRules.Excluded | ztw/resource_ztw_traffic_forwarding_rule.go:49-79 | ECZPA excludes the eight destination and service attributes; ZIA, DIRECT, LOCAL_SWITCH and DROP exclude the two ZPA segment attributes; other methods exclude nothing |
| ForwardingRules.CustomizeDiff | ztw/resource_ztw_traffic_forwarding_rule.go:33-82 | a plan is refused exactly when an attribute its forward method excludes is set, and the message names the first such attribute in checking order |
| ForwardingRules.EczpaReportsFirstAttribute | ztw/resource_ztw_traffic_forwarding_rule.go:49-66 | with dest_addresses set, an ECZPA plan is refused naming dest_addresses |
| ForwardingRules.ExclusionsAreSeparate | ztw/resource_ztw_traffic_forwarding_rule.go:49-81 | if none of the ten excluded attributes is set, no forward method is refused |
| ForwardingRules.ExpandForwardingControlRule | ztw/resource_ztw_traffic_forwarding_rule.go:548-567 | order 0 falls back to 1, and destination countries get the same prefixing as processCountries |
| ForwardingRules.CountriesSurviveWriteAndRead | ztw/resource_ztw_traffic_forwarding_rule.go:360-363 | the read path's trimming restores configured countries that do not already carry the prefix |
| DnsRules.ValidatePredefinedDnsRules | ztw/resource_ztw_traffic_forwarding_dns_rule.go:135-140 | deletion is refused exactly for "ZPA Resolver" and "Redirect Resolution of Zscaler Domains to WAN CTR" |
| DnsRules.ExpandForwardingDnsRule | ztw/resource_ztw_traffic_forwarding_dns_rule.go:407-444 | order 0 falls back to 1 and every other order is kept |
| DnsRules.CountriesDoNotReachDnsRule | ztw/resource_ztw_traffic_forwarding_dns_rule.go:417-444 | the prefixed destination countries are computed and then dropped: any two country lists give the same expanded rule |
| LogRules.ValidatePredefinedLogRules | ztc/resource_ztc_traffic_log_forwarding_rule.go:111-116 | deletion is refused exactly for the same two names as the DNS guard |
| LogRules.SameGuardAsDns | ztc/resource_ztc_traffic_log_forwarding_rule.go:111-116 | the log and DNS guards agree on every name |
| LogRules.ExpandLogOrder | ztc/resource_ztc_traffic_log_forwarding_rule.go:370-374 | order 0 falls back to 1, and every other order is kept |
| LocationTemplates.CheckLocationTemplateDependencies | ztc/resource_ztc_location_template.go:163-177 | a missing template block panics; otherwise the template is accepted exactly when it breaks none of the four rules, and is rejected with the message of the first broken rule in checking order |
| LocationTemplates.CautionExcludesAuthAndAup | ztc/resource_ztc_location_template.go:164-169 | caution together with authentication or with AUP is rejected, and the authentication message wins when both apply |
| LocationTemplates.OneBandwidthSuffices | ztc/resource_ztc_location_template.go:173-175 | enforcing bandwidth with only an upload bandwidth passes the bandwidth check |

## Left out

- **Concurrency.** Goroutines, the registry and counter mutexes, the 30-second ticker and the 15-second sleeps are left out. Each registration, completion and tick is one sequential step. Real interleavings are the sequences `Registry.RunOps` and `Settle.ReorderAll` accept.
- **Remote SDK calls.** GetAll, Get, Create, Update and Delete are left out. Their results appear as parameters: listings, a count, the outcome of each Get (found, or not found on the update path), and the outcome of each Create and Update write.
- **beforeReorder hook.** Every call site passes nil, so the hook is not modelled.
- **JSON parsing of a structured error body.** `extractErrorCodeFromBody` is the parameter `codeOf` of `Utils.FailFast`.
- **The create path's regular-expression diagnostic.** It matches "Rule with rank … is not allowed at order …" and builds the rule table with `currentOrderVsRankWording`. It only shapes an error message, so it is left out.
- **Terraform plumbing.** Schemas, `schema.ResourceData` access, importers, flatteners other than `flattenIDExtensionsListIDs`, and provider configuration are left out. Only the fields that the modelled logic reads are kept.
- **Other rule kinds.** The other resources and data sources are left out, and so is logging.
- **ztw package's common.go.** The ztw resources call the coordinator in their own package. The ztw package's common.go is not part of this model; it is assumed to match ztc/common.go.
- Utils.ProcessCountry: lengths count characters, while Go's `len` counts bytes. The two agree for ASCII country codes, which is all the two-character check is meant for.
- Settle.ReorderAll: it covers a finite prefix of ticks. A loop that never reaches quiescence is shown only as `StillPolling` after those ticks.
- IdLists.DetachRuleIdNameExtensions: it models one reference list, chosen by the caller's getter/setter pair. A rule whose Get fails is skipped, as in the code. The write sends the filtered list only.
