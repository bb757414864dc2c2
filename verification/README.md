# megavpn: a verified model

The repository is an agent and a worker that turn desired state into the state of nodes: firewall tables, policy routing,
managed files, allocated addresses and ports, and accounted traffic. This project models the parts whose correctness spans
many steps and proves them for all inputs and all runs. Where the code prints text for nft, ip or sh, the model has the
printed commands as a datatype and an interpreter for them, and the theorems are about what the interpreter does.

`dafny verify dfyconfig.toml` checks everything.

| files | part of the system |
|---|---|
| `Firewall`, `FirewallMeaning`, `FirewallCorrect`, `FirewallPayload`, `FirewallRefusal` | the node firewall compiler; nft as a machine; the meaning of a payload and of the compiled table; when a payload is refused |
| `Kernel`, `RoutePolicyPlan`, `RoutePolicyScript`, `RoutePolicyConvergence`, `RoutePolicyRouting`, `RouteTraces`, `RoutePolicyRuns` | ip rules and routes; the route-policy plan, its script run command by command, convergence, packets, and whole runs of the agent |
| `ExternalEgress`, `ExternalEgressActions`, `NodeCleanup` | fail-closed provider tables over interleaved runs; what guard, apply and cleanup do to the kernel; resource families and emergency cleanup |
| `Traffic`, `TrafficRuns`, `TrafficProgress` | traffic accounting rounds, conservation and progress over runs |
| `WireGuard`, `Shadowsocks`, `Blocks` | address and port allocation; arithmetic of address blocks |
| `FileTree`, `ManagedFiles`, `Paths` | file systems and what writes and rollbacks make of them; transactional apply with rollback; path cleaning |
| `Replay`, `Pbkdf2`, `Password`, `EnvFile`, `Quoting`, `Text`, `Numbers`, `Common` | signed responses, password hashing, the env file, quoting, and shared text functions |

## Where the code and its promises differ

The model follows the code. In these places the code does less than its documentation or the obvious expectation says; each
has an exact condition.

- `docs/EXTERNAL_EGRESS.md` says that marked traffic fails closed instead of falling through to the main table. The managed
  rule's priority is table + 10000, at least 50000, while the main table is consulted at 32766. A marked packet therefore
  reaches its table if and only if no earlier rule decides it (`MarkedPacketReachesTable`), and a default route in the main
  table always does (`MainTableDecidesFirst`, `MarkedPacketLeavesByMain`).
- The decoder admits the route metric 32767, which is the metric of the unreachable fallback. Over runs in which
  route policies spare the table it stays closed if and only if the metric is smaller (`FailClosedIff`).
- Nothing keeps a route policy out of a deployment's table. Which route-policy runs leave the table closed is stated by
  `SparesExactly`; withdrawing a policy with a default route there opens it
  (`WithdrawnPolicyOpensTable`), and so does a cleanup, exactly when ip is there and its snapshot has such a route
  (`CleanupSparesExactly`, `CleanedPolicyOpensTable`).
- SSH bootstrap rules name the sets of both families although a set without entries is never added. As far as set references
  go, the firewall script loads if and only if the bootstrap lists have both (`PayloadLoadsIff`, `HalfListIsRefused`); nft's
  own refusal of overlapping intervals comes on top and is not modelled.
- `applyRoutePolicy` overwrites the stored snapshot before it renders and before its script has run. When the render fails,
  or the script stops in its preamble for want of ip, nft or forwarding, the next apply no longer knows the old targets.
  `RoutesOverRun` gives the exact routes after every run and `NoStaleRoutes` when none is stale; `FailedRenderLeavesRoutes`
  and `UnstartedScriptLeavesRoutes` are runs that leave some.
- `writeManagedFile` makes missing parent directories and no rollback removes them. A rollback that reports success
  restores the managed paths in any case (`RollbackDifference`), and the whole file system, once all writes were made, if and
  only if no directory above a managed path was missing (`RollbackExact`, `ParentStays`).
- Nothing refuses a list in which one managed path lies above another. Such a list is never applied even when every call
  works, and once one of the two paths is written the rollback fails too; without failing calls writes complete if and only if no two paths are nested and the
  modes parse (`WritesCompleteIff`), and the rollback succeeds if and only if no path written is nested with another
  (`RestorableIff`, `NestedFails`).
- A round whose collectors all fail moves the report time without a commit, so bytes of an earlier failed submit end up in a
  bucket that does not cover them; `FailedBucketIsRetried` says exactly when a bucket is retried and `EmptyRoundShiftsBytes`
  gives the run.
- A rule with two candidates that differ in their peer only can complete without a route (`PeersCanClash`); the surviving
  routes are given exactly by `InstalledExactly`, and with readiness by interface no rule is left without one
  (`RoutesAreReady`).
- A response whose timestamp is at or after the moment of its first acceptance can be accepted again (`ReplayableIff`).
- Env-file values come back unchanged if and only if they have no white space or double quotes at their ends
  (`EnvFileRoundTrip`).

## Modelling choices

- Payload fields that the code reads from JSON appear in parsed form: a malformed value is a constructor of its own
  (`BadCidr`, `UnsafeTable`, `Invalid`), so the error branches are kept.
- Addresses are natural numbers with a prefix length; both families in the firewall, IPv4 in policy routing as in the code.
- A set name is what `slug` makes of a list's key or ID; the theorems hold for every `slug`, with lists of the same name
  merged, and `DistinctNames` gives the usual reading. A tcp or udp rule without ports has no protocol test, as in the code.
- nft loads a script as one transaction: a rule that names an undefined set refuses all of it.
- Times are integers in nanoseconds; hash and HMAC are arbitrary functions; random salts, clock readings, the outcome of
  system calls and the readiness of interfaces are parameters.
- Which system calls of an `Apply` fail is an input, a set of failing calls, so that every exit is decided by it; the same
  holds for the agent's route-policy steps and the emergency cleanup. File permissions are the nine permission bits; a file system
  is a tree in which everything but the root is listed, and symlinks are leaves, because every path through one is refused.
- The route-policy snapshot is one file. The code keys it by the payload's output path (cmd/agent/route_policy.go:24-31), so a
  run here is a run on one path; an apply with another path knows nothing of the first one's targets.
- A route-policy plan handed to the egress model is any well-formed plan; its destinations are masked prefixes, which is what
  the parser gives (`RenderProper`). Only packets can be in the untracked connection state; rules cannot name it.

## Model

| member | source | states |
|---|---|---|
| `FirewallPayload.PayloadMeaning` | cmd/agent/firewall.go:265-333 | for every payload that compiles, every chain and every packet, the loaded table gives the verdict that the payload read by itself asks for: accept for safe packets, else the action of the first enabled and active matching rule by (priority, ID, position), else the default |
| `FirewallPayload.PayloadAsksOnce` | cmd/agent/firewall.go:797-802 | what a payload asks for a packet is unique, so the theorem above fixes the verdict |
| `FirewallRefusal.CompilesIff` | cmd/agent/firewall.go:265-333 | a payload compiles if and only if its default policies are known words, every active entry of a kept list is valid, every rule has valid fields, every rule in force has an address family that both its sides offer and its protocol allows, and with a filtered output the control plane is a literal address or a name that some rule permits |
| `FirewallRefusal.ListsParseIff` | cmd/agent/firewall.go:691-760 | the lists parse if and only if every active entry of a kept list is valid and every range goes upwards within one family |
| `FirewallRefusal.RulesParseIff` | cmd/agent/firewall.go:806-865 | the rules parse if and only if chain, action, protocol, prefixes and ports are valid and ports come with tcp or udp, rules out of force included |
| `FirewallRefusal.RuleRendersIff` | cmd/agent/firewall.go:867-967 | a rule renders if and only if its references lead to lists with active entries of a family that both sides offer and its protocol allows |
| `FirewallRefusal.ControlPlaneIff` | cmd/agent/firewall.go:557-624 | the safety rules render if and only if, with a filtered output, the control plane is a literal address or a name with an explicit permission among the rules in force |
| `FirewallPayload.PayloadLoadsIff` | cmd/agent/firewall.go:452-476 | as far as set references go, a compiled script loads if and only if input is not filtered or each SSH bootstrap list that gets rules has entries in both families; otherwise nft refuses all of it (nft's refusal of overlapping intervals is not modelled) |
| `FirewallPayload.HalfListIsRefused` | cmd/agent/firewall.go:452-476 | an instance: with input dropped and a trusted_operators list of one IPv4 prefix the payload compiles and its script is refused |
| `FirewallPayload.ParsedRelevant` | cmd/agent/firewall.go:806-865 | a parsed rule is relevant to exactly the packets for which the payload's rule is in force: both sides, ports, states, protocol, chain and status end up where they belong |
| `FirewallPayload.ParsedTags` | cmd/agent/firewall.go:691-760 | each parsed set name holds exactly the addresses covered by active entries of the lists with that name, and has a family exactly when such an entry has |
| `FirewallPayload.ParsedReference` | cmd/agent/firewall.go:901-918 | a list reference leads to the last kept list with that ID or key |
| `FirewallPayload.ParsedEntries` | cmd/agent/firewall.go:1058-1114 | the element lists of a parsed list cover exactly the addresses of its active entries; DNS entries add nothing |
| `FirewallPayload.ParsedOrder` | cmd/agent/firewall.go:797-802 | comparing parsed rules is comparing (priority, ID, position) with the defaults for missing priorities and IDs filled in |
| `FirewallCorrect.CompiledMeaning` | cmd/agent/firewall.go:265-333 | the same theorem over the parsed rules and lists |
| `FirewallCorrect.SafetyHolds` | cmd/agent/firewall.go:399-450 | with an enforced default other than accept, established, related and loopback packets and TCP to a literal control-plane address and port are accepted whatever the operator rules say |
| `FirewallCorrect.SafetyLinesExact` | cmd/agent/firewall.go:399-450 | the safety lines accept exactly the safe packets and decide no others |
| `FirewallCorrect.SshLinesExact` | cmd/agent/firewall.go:452-476 | the SSH bootstrap lines accept exactly new or established TCP to a configured port (22 without any) from the bootstrap lists that contain no prefix of length zero |
| `FirewallCorrect.SshPortsExact` | cmd/agent/firewall.go:453-456 | the ranges in an SSH bootstrap line open exactly the configured ports, or port 22 when none is configured |
| `FirewallCorrect.ControlPlaneExact` | cmd/agent/firewall.go:557-594 | the control-plane line accepts exactly TCP to the literal address and port; a DNS host gets no line |
| `FirewallCorrect.RejectLinesExact` | cmd/agent/firewall.go:674-689 | the closing lines reject everything on exactly the chains whose enforced default is reject |
| `FirewallCorrect.OperatorLinesExact` | cmd/agent/firewall.go:867-899 | the operator lines give every packet the action of the first relevant rule and only name sets that were added before with an element |
| `FirewallCorrect.SortedFirstDecides` | cmd/agent/firewall.go:797-802 | the first relevant rule after the stable sort is the one at a payload position that precedes all other relevant ones |
| `FirewallCorrect.BeforeWeakOrder` | cmd/agent/firewall.go:797-802 | the sort comparison is a strict weak order |
| `FirewallCorrect.LexLessIff` | cmd/agent/firewall.go:797-802 | the comparison of IDs is the order by the first character that differs, a proper prefix first |
| `FirewallCorrect.LoadsIff` | cmd/agent/firewall.go:375-383 | the script replaces any existing table by exactly the compiled one, or is refused when a bootstrap set is missing |
| `FirewallCorrect.DistinctNames` | cmd/agent/firewall.go:1050-1056 | with distinct set names, being in a set is being covered by an entry of that very list |
| `FirewallMeaning.RuleLinesExact` | cmd/agent/firewall.go:867-1007 | the one or two family lines of a rule say its action to exactly the packets the rule matches and name only defined sets |
| `FirewallMeaning.LineExact` | cmd/agent/firewall.go:969-1007 | one family line matches exactly the packets of its family that the rule matches; a list wins over a prefix on the same side |
| `FirewallMeaning.ProtocolExact` | cmd/agent/firewall.go:992-1007 | the protocol part: a tcp or udp rule without ports tests no protocol, icmp implies IPv4 and icmpv6 IPv6 |
| `FirewallMeaning.SetMapExact` | cmd/agent/firewall.go:1009-1026 | after the set commands a set exists exactly when a list of its name has entries of the family, and holds exactly their addresses |
| `Firewall.CanonicalCovers` | cmd/agent/firewall.go:1131-1146 | masking a prefix does not change what it covers |
| `Firewall.CoversExact` | cmd/agent/firewall.go:1131-1146 | a prefix covers the addresses of its family whose leading bits, of 32 or of 128, are its own |
| `Firewall.RenderPlan` | cmd/agent/firewall.go:265-333 | the rendering method fails exactly when compilation does (see `FirewallRefusal.CompilesIff`) and otherwise returns the compiled script |
| `Firewall.ParseListsLoop` | cmd/agent/firewall.go:691-760 | the list loop computes the specification's lists or its error |
| `Firewall.ParseEntriesLoop` | cmd/agent/firewall.go:691-760 | the entry loop of one list computes the specification's element lists or its error |
| `Firewall.ParseRulesLoop` | cmd/agent/firewall.go:779-804 | the rule loop computes the specification's rules or its error |
| `Firewall.RenderRulesLoop` | cmd/agent/firewall.go:289-303 | the rendering loop skips rules that are not in force and stops at the first error |
| `RoutePolicyPlan.RenderOk` | cmd/agent/route_policy_enforcement.go:64-121 | every rendered plan numbers its priorities and marks inside the reserved ranges, targets its own rules' and the previous snapshot's destinations, and uses only destinations that are cleanup targets of its own payload |
| `RoutePolicyPlan.TargetsExact` | cmd/agent/route_policy_enforcement.go:280-324 | a snapshot's cleanup targets are exactly the destinations and tables of its routes that would be enforceable with a source, an interface and a protocol filled in; inactive and denied routes name none |
| `RoutePolicyPlan.RenderNames` | cmd/agent/route_policy_enforcement.go:64-121 | a plan targets only what its own payload or the previous snapshot names, and everything the previous snapshot names |
| `RoutePolicyPlan.RenderFailsIff` | cmd/agent/route_policy_enforcement.go:64-121 | rendering fails if and only if a route in force has an unsafe table, interface or next hop, a client route with an interface and a known protocol has bad ports, or there are more than 50 enforceable system or 1000 enforceable client routes |
| `RoutePolicyPlan.ClientRulesRealize` | cmd/agent/route_policy_enforcement.go:387-448 | the client rules are the enforceable client routes, one each and in order, with their source, destination, protocol, ports, table and candidates |
| `RoutePolicyPlan.SystemRulesRealize` | cmd/agent/route_policy_enforcement.go:340-385 | the system rules are the enforceable system routes, one each and in order; a missing destination means every destination |
| `RoutePolicyPlan.OfferedCandidates` | cmd/agent/route_policy_enforcement.go:450-516 | the candidates are the offered backhauls, or without any the single interface, with next hop, peer and metric kept and 50 for a missing metric |
| `RoutePolicyPlan.RenderProper` | cmd/agent/route_policy_enforcement.go:532-556 | a plan's destinations are masked prefixes, or every destination, when the payload's are |
| `RoutePolicyPlan.DedupeExact` | cmd/agent/route_policy_enforcement.go:326-338 | deduplication keeps exactly the targets, each once |
| `RoutePolicyPlan.RenderPlan` | cmd/agent/route_policy_enforcement.go:64-121 | the rendering method returns the specified plan or error, and every plan is well formed |
| `RoutePolicyPlan.CollectSystemRules` | cmd/agent/route_policy_enforcement.go:64-121 | the loop over system routes stops at the first error and otherwise collects the rules |
| `RoutePolicyPlan.CollectClientRules` | cmd/agent/route_policy_enforcement.go:64-121 | the loop over client routes stops at the first error and otherwise collects the rules |
| `RoutePolicyPlan.DedupeTargets` | cmd/agent/route_policy_enforcement.go:326-338 | the loop with its seen map computes the deduplicated targets |
| `Kernel.DeleteRangeExact` | cmd/agent/route_policy_enforcement.go:122-227 | the nested delete loops over a priority range remove exactly the rules of the range and keep the order of the others |
| `Kernel.FlushDestinationExact` | cmd/agent/route_policy_enforcement.go:122-227 | the route delete loop removes every route of the destination and table and nothing else |
| `RoutePolicyScript.RunMeaning` | cmd/agent/route_policy_enforcement.go:122-227 | running the generated commands one by one from any kernel state gives exactly the stated final state and completion |
| `RoutePolicyScript.RunRule` | cmd/agent/route_policy_enforcement.go:635-659 | one rule block tries its candidates in order and adds mark and rule if and only if one was ready, else ends the script |
| `RoutePolicyConvergence.Converges` | cmd/agent/route_policy_enforcement.go:122-227 | from any kernel state, a run past its preamble leaves in the reserved ranges exactly one ip rule and in the chains exactly one mark per rule before the first unready one, in order; foreign rules and other routes stay; it completes if and only if every rule is ready |
| `RoutePolicyConvergence.StartedIff` | cmd/agent/route_policy_enforcement.go:122-207 | a run gets past its preamble if and only if ip is there, forwarding can be switched on when client rules need it, and nft is there when any rule does; otherwise it fails and touches neither routes nor chains |
| `RoutePolicyConvergence.SecondRunChangesNothing` | cmd/agent/route_policy_enforcement.go:122-227 | a second run in the same environment changes nothing, whether or not it completes |
| `RoutePolicyConvergence.InstalledExactly` | cmd/agent/route_policy_enforcement.go:635-642 | the installed routes are exactly those of ready attempts that no later attempt displaces, at most one per destination, table and metric |
| `RoutePolicyConvergence.RoutesAreReady` | cmd/agent/route_policy_enforcement.go:635-659 | every installed route goes over a ready candidate of a plan rule for its target; if readiness depends on the interface only, every ready rule has a route |
| `RoutePolicyConvergence.PeersCanClash` | cmd/agent/route_policy_enforcement.go:483-516 | a completed rule can be left without any route when two candidates differ in their peer only |
| `RoutePolicyConvergence.RoutesAfter` | cmd/agent/route_policy_enforcement.go:208-227 | after a run the routes are the old ones away from the targets followed by the plan's own |
| `RoutePolicyRouting.MarkCommandExact` | cmd/agent/route_policy_enforcement.go:661-679 | a mark command matches exactly the packets of its plan rule |
| `RoutePolicyRouting.RoutedByLastMatch` | cmd/agent/route_policy_enforcement.go:211-218 | after a completed run an unmarked packet gets the mark of the last plan rule it matches and consults that rule's table and no other managed one; without a match it is resolved as if the managed rules did not exist |
| `RoutePolicyRouting.MarksSelectOneRule` | cmd/agent/route_policy_enforcement.go:369-382 | plan marks are distinct and not zero, so a mark selects exactly one policy rule |
| `RoutePolicyRouting.DecidedByItsTable` | cmd/agent/route_policy_enforcement.go:211-218 | that table decides the packet if and only if it has a route for it and no foreign rule with a lower priority number decides first; with readiness by interface it has one |
| `RoutePolicyRuns.RoutesOverRun` | cmd/agent/route_policy.go:15-161 | for every run of applies, timer ticks and cleanups, failed renders, failed installations and scripts that stop in their preamble included: a route is in the kernel if and only if it is original and no script that ran targets it, or some script run left it and no later one targets it |
| `RoutePolicyRuns.NoStaleRoutes` | cmd/agent/route_policy.go:38-52 | after any run, beside untouched original routes only the latest script's are left if and only if every earlier script's routes are targeted again later; runs in which every apply renders and gets past its preamble, and every cleanup has ip and does not keep the script without the snapshot, always meet this |
| `RoutePolicyRuns.UnnamedRoutesStay` | cmd/agent/route_policy.go:15-259 | the operator's own routes survive: a route that neither the stored snapshot nor the installed script nor any payload names is there after every run of applies, timer ticks and cleanups |
| `RoutePolicyRuns.EffectiveRemains` | cmd/agent/route_policy.go:38-52 | in such runs a route that remains is the latest script's, and the stored snapshot and the installed script both cover it |
| `RouteTraces.AlongExact` | cmd/agent/route_policy_enforcement.go:208-227 | the same over any sequence of passes that remove the routes at their targets and leave routes of their own |
| `RouteTraces.AlongInOrder` | cmd/agent/route_policy_enforcement.go:208-227 | the surviving original routes keep their order, and what passes added and did not remove stands behind them in order |
| `RouteTraces.StaleIff` | cmd/agent/route_policy_enforcement.go:208-227 | nothing is stale after the latest pass if and only if every earlier pass is superseded |
| `RoutePolicyRuns.ForeignRulesStay` | cmd/agent/route_policy.go:15-161 | the rules outside the reserved ranges are the original ones, in order, at every point of every run |
| `RoutePolicyScript.CleanupExact` | cmd/agent/route_policy_enforcement.go:229-267 | the cleanup script, run command by command, removes exactly the managed rules, the snapshot's targets (which `RoutePolicyPlan.TargetsExact` pins) and the marks, as far as the tools exist |
| `RoutePolicyRuns.CleanupAfterRun` | cmd/agent/route_policy.go:171-259 | cleanup after any run leaves no managed rule and no mark, the original routes away from everything targeted, and of the scripts' routes exactly those that neither snapshot covers |
| `RoutePolicyRuns.CleanupLeavesNothing` | cmd/agent/route_policy.go:171-259 | no script's route is left if and only if the snapshots cover what scripts added and did not remove; after such runs they always do |
| `RoutePolicyRuns.StaleAfterFailedRender` | cmd/agent/route_policy.go:38-52 | after any run, the next apply that runs leaves a route in place if and only if neither its own rules nor the last saved payload cover it |
| `RoutePolicyRuns.FailedRenderLeavesRoutes` | cmd/agent/route_policy.go:38-52 | a failed render followed by an empty policy leaves every earlier route in place |
| `RoutePolicyRuns.UnstartedScriptLeavesRoutes` | cmd/agent/route_policy.go:38-52 | with all renders succeeding, a script that stops for want of nft followed by an empty policy leaves every earlier route but those at the one destination in between |
| `RoutePolicyRuns.Agent.ApplyRoutePolicy` | cmd/agent/route_policy.go:15-161 | read, overwrite, render, install and run in this order, each able to fail, make one step of the run; enforcement is reported if and only if every call worked, the render succeeded and the script completed |
| `RoutePolicyRuns.Agent.RunTimer` | cmd/agent/route_policy_enforcement.go:698-713 | the timer runs the installed script again |
| `RoutePolicyRuns.Agent.CleanupRoutePolicy` | cmd/agent/route_policy.go:171-259 | cleanup covers the payload's and the stored snapshot's routes; it changes nothing and fails exactly when its script cannot be written, and afterwards forgets snapshot and script except where a removal fails |
| `ExternalEgress.FailClosedOverRun` | cmd/agent/external_egress.go:1950-1980 | at every action boundary after a deployment's first guard or apply, whatever applies (aborted ones included), interface losses, other deployments' actions and route-policy runs and cleanups that spare the table follow, the table sends every destination over the provider's interface or to unreachable, for every metric below 32767 |
| `ExternalEgress.SparesExactly` | cmd/agent/route_policy_enforcement.go:208-227 | a route-policy run leaves the table closed, also through a later interface loss, if and only if it targets no default route of the table and leaves only routes over the provider's interface in it |
| `ExternalEgress.CleanupSparesExactly` | cmd/agent/route_policy_enforcement.go:229-267 | a route-policy cleanup leaves the table closed if and only if ip is missing or the snapshot has no default route in the table |
| `ExternalEgress.HarmlessPlan` | cmd/agent/route_policy_enforcement.go:340-448 | a plan without the default target and with only provider candidates in the table spares it in every environment |
| `ExternalEgress.ForeignCandidateMaySpare` | cmd/agent/route_policy_enforcement.go:635-659 | the converse fails: a plan with another interface among its candidates can spare the table in every environment |
| `ExternalEgress.WithdrawnPolicyOpensTable` | cmd/agent/route_policy_enforcement.go:387-448 | the agent accepts a route policy in a deployment's table; withdrawing it flushes the fallback and opens the table, for every metric and from every state |
| `ExternalEgress.CleanedPolicyOpensTable` | cmd/agent/route_policy_enforcement.go:254-256 | so does a cleanup of that policy |
| `ExternalEgress.FailClosedIff` | cmd/agent/external_egress.go:1233-1280 | over all runs in which route-policy runs and cleanups spare the table this holds if and only if the metric is below 32767, which the decoder does not demand |
| `ExternalEgress.FallbackMetricFallsThrough` | cmd/agent/external_egress.go:1950-1980 | with metric 32767 the provider route replaces the fallback and an interface loss leaves the table empty |
| `ExternalEgress.ClosedStays` | cmd/agent/external_egress.go:1950-1980 | every own guard and apply and every event elsewhere keeps the table closed: rule present, fallback present, every other route over the provider's interface |
| `ExternalEgress.GuardEstablishes` | cmd/agent/external_egress.go:2080-2095 | a guard establishes the invariant from any kernel state, and so does an apply however its waiting ends |
| `ExternalEgressActions.CleanupExactly` | cmd/agent/external_egress.go:2039-2056 | a cleanup removes every route of the deployment's table and one copy of its policy rule; every other route and rule stays, as often and in the order it was; the one deletion suffices if and only if there was at most one copy |
| `ExternalEgressActions.CleanupIsComplete` | cmd/agent/external_egress.go:2039-2056 | after any run whose last own event is the deployment's cleanup, nothing of the deployment is in the kernel, if the run started with at most one copy of its policy rule |
| `ExternalEgressActions.GuardSucceedsIff` | cmd/agent/external_egress.go:2080-2095 | a guard succeeds if and only if there was at most one copy of the policy rule, then leaves exactly one, and touches no other rule |
| `ExternalEgressActions.ApplyDecides` | cmd/agent/external_egress.go:1950-1992 | after an apply the table sends every destination to the provider if the guard succeeded and the waiting ended well, and to unreachable otherwise |
| `ExternalEgressActions.ApplyRoutes` | cmd/agent/external_egress.go:1950-1992 | the routes after an apply are those of other tables in their order, the fallback, and after a good waiting the provider's route, in the fallback's place when it has its metric |
| `ExternalEgress.MarkedPacketReachesTable` | cmd/agent/external_egress.go:1994-1996 | a marked packet is decided at the deployment's priority if and only if no rule with a lower number decides it first, and then goes to the provider or nowhere |
| `ExternalEgress.MainTableDecidesFirst` | cmd/agent/external_egress.go:1994-1996 | managed priorities lie above 32766, so a default route in the main table decides every marked packet first |
| `ExternalEgress.MarkedPacketLeavesByMain` | cmd/agent/external_egress.go:2080-2095 | an instance: on a node with a default route in its main table a guarded deployment's marked packets all leave by that route |
| `ExternalEgress.Node.InstallGuard` | cmd/agent/external_egress.go:2080-2095 | the four commands, one after the other, make the guard action |
| `ExternalEgress.Node.RunScript` | cmd/agent/external_egress.go:1950-1980 | the script's three actions make the actions that `ExternalEgressActions` describes; it exits with 0 if and only if it cleans up, or the guard succeeds and, for an apply, the interface and a needed address appear in time |
| `ExternalEgress.Poll` | cmd/agent/external_egress.go:1950-1980 | the counting wait loop succeeds if and only if the condition holds within sixty polls |
| `NodeCleanup.FamiliesAreDisjoint` | cmd/agent/external_egress.go:1250-1269 | route-policy and external-egress priorities, marks and rules never coincide; the proxy port is valid and belongs to one table |
| `NodeCleanup.SelectedIffExternalEgress` | cmd/agent/node_cleanup.go:465-484 | emergency cleanup selects exactly the rules some valid deployment installs |
| `NodeCleanup.RoutePolicyKeepsEgressRules` | cmd/agent/route_policy_enforcement.go:18-21 | no route-policy run and no route-policy cleanup deletes an external-egress rule |
| `NodeCleanup.EmergencyCleanup` | cmd/agent/node_cleanup.go:486-512 | a failed listing changes nothing and gives one warning; otherwise exactly the selected rules whose deletion works are deleted and exactly the tables flushed for which both calls work, each failure is one warning, and without warnings what remains is exactly the other rules in order and the routes away from the selected tables |
| `TrafficRuns.XrayConservation` | cmd/agent/traffic_accounting.go:98-142 | over any run the bytes acknowledged for an Xray user are the sums of max(0, next - previous) over the committed readings of its two counters, however many submits fail |
| `TrafficRuns.PairConservation` | cmd/agent/traffic_accounting.go:866-984 | the same for WireGuard and OpenVPN peers with the (rx, tx) differences, counted only where neither fell |
| `TrafficProgress.RoundDecided` | cmd/agent/traffic_accounting.go:98-142 | in every round of every run: too early if and only if less than the interval passed since the last report; otherwise no targets if and only if none are listed; nothing collected if and only if a collector failed and no list holds a reading; otherwise a submit is tried if and only if some counter rose over its baseline, and fails if and only if the call does; the report time and the counters change only as these outcomes say |
| `TrafficProgress.XrayProgress` | cmd/agent/traffic_accounting.go:98-142 | progress: in a due round with targets and a reading, unless the submit fails, every Xray reading becomes its counter's baseline and the last entry of the history that the acknowledged bytes add up |
| `TrafficProgress.PairProgress` | cmd/agent/traffic_accounting.go:98-142 | the same for both counters of every WireGuard or OpenVPN peer |
| `TrafficProgress.EmptyIff` | cmd/agent/traffic_accounting.go:796-984 | there is nothing to submit if and only if no counter rose: no Xray reading above its baseline, and no peer with both baselines, neither counter fallen and one risen |
| `TrafficRuns.BucketsInOrder` | cmd/agent/traffic_accounting.go:98-142 | acknowledged buckets never overlap and are each at least one interval long |
| `TrafficRuns.FailedBucketIsRetried` | cmd/agent/traffic_accounting.go:98-142 | over any run, where a report time existed a later attempt's bucket starts where a failed one's did if and only if no round in between submitted, had nothing to submit or failed to collect anything, and otherwise later; undisturbed, no baseline changed; without a report time it starts alike if and only if the clock stood still |
| `TrafficRuns.EmptyRoundShiftsBytes` | cmd/agent/traffic_accounting.go:117-120 | after any failed submit a round with failing collectors makes the bytes already measured be acknowledged in a bucket that starts after they were measured |
| `TrafficRuns.AggregateAt` | cmd/agent/traffic_accounting.go:796-851 | an aggregate holds exactly the rises of its user's uplink and downlink counters |
| `TrafficRuns.BaselineIsLast` | cmd/agent/traffic_accounting.go:853-860 | the baseline of a counter is its last committed reading |
| `Traffic.KeysInjective` | cmd/agent/traffic_accounting.go:862-864 | two- and three-part keys are equal if and only if their separator-free parts are |
| `Traffic.KeysCollide` | cmd/agent/traffic_accounting.go:926-928 | with the separator inside a part, different parts share a key |
| `Traffic.Client.Report` | cmd/agent/traffic_accounting.go:98-142 | one report round takes the specified step, whose outcome and effect on every run `TrafficProgress.RoundDecided` gives |
| `Traffic.Client.BuildXraySamples` | cmd/agent/traffic_accounting.go:796-851 | the aggregation loop computes the specified samples |
| `Traffic.Client.CommitXray` | cmd/agent/traffic_accounting.go:853-860 | the commit loop stores exactly the readings and leaves the other maps alone |
| `Traffic.Client.BuildPairSamples` | cmd/agent/traffic_accounting.go:866-914 | the pair loop computes the specified samples |
| `Traffic.Client.CommitPairs` | cmd/agent/traffic_accounting.go:916-924 | the pair commit stores both readings of every peer |
| `WireGuard.AllocateClients` | cmd/worker/driver_state.go:1017-1072 | a client that is not rotated and whose recorded address lies in the block of the prefix keeps it; every other one gets an address nobody had recorded, pairwise distinct, inside the block and neither its first nor, below /31, its last; the result is free of clashes if and only if the kept addresses were; exhaustion means that every usable address from the start on is taken |
| `WireGuard.KeptApartIff` | cmd/worker/driver_state.go:1017-1072 | all addresses are distinct and differ from the server's if and only if the kept ones are and do |
| `WireGuard.NextClientAddress` | cmd/worker/driver_state.go:1523-1543 | the first free usable address from the start index, or exhaustion when all are taken; usable are the addresses of the prefix, below /31 all but the last |
| `WireGuard.UsableIff` | cmd/worker/driver_state.go:1523-1543 | the usable addresses are those from the network address up to the end of the block, one less below /31 |
| `WireGuard.AddressFor` | cmd/worker/driver_state.go:1048-1063 | one client's turn: keep the recorded in-prefix address without rotation, else search |
| `WireGuard.HostAddrExact` | cmd/worker/driver_state.go:1545-1562 | for a usable index the uint32 sum does not wrap and stays in the prefix |
| `WireGuard.PoolMembers` | cmd/worker/driver_state.go:1545-1562 | a prefix holds exactly one block of addresses that ends at or below 2^32 |
| `Shadowsocks.NextAvailablePort` | cmd/worker/driver_state.go:1499-1508 | the search ends at the least unused port from the start |
| `Shadowsocks.AssignPorts` | cmd/worker/driver_state.go:690-742 | recorded ports are kept; new ones differ from all recorded ones and from each other; the k-th new one is at most max(base - 1, largest recorded) + k |
| `Shadowsocks.AssignPortsTwice` | cmd/worker/driver_state.go:690-742 | running again on the result assigns nothing |
| `ManagedFiles.Host.Apply` | cmd/agent/instance_runtime.go:30-170 | every exit is an if-and-only-if of the payload, the file system and the set of failing calls: refused exactly when a check or the snapshot fails, rolled back exactly when a write or a later stage does, applied otherwise; with working writes all complete if and only if the modes parse and no managed path lies above another; with a working rollback it succeeds if and only if no path written lies above or below another managed one; a successful rollback leaves the old file system and the directories the writes made, an applied exit the missing directories and the last file written at every path, and nothing else ever changes |
| `FileTree.RollbackDifference` | cmd/agent/instance_render.go:125-252 | after a successful rollback every managed path has its old existence, content and permission bits, and every other difference is a new directory above a managed path |
| `FileTree.RollbackExact` | cmd/agent/instance_render.go:125-252 | the whole file system is as before if and only if the writes made no directory beyond managed paths; when all writes completed, if and only if every directory above a managed path existed |
| `FileTree.ParentStays` | cmd/agent/instance_render.go:141-143 | an instance: a file in a missing directory, whose directory survives the rollback |
| `ManagedFiles.Host.RollbackAfter` | cmd/agent/instance_runtime.go:69-77 | the rollback succeeds if and only if every turn does, and then restores everything the snapshot covers and leaves the directories made |
| `ManagedFiles.Host.Rollback` | cmd/agent/instance_render.go:212-252 | going backwards through the backups, every turn that can succeed does, and the result is good if and only if all of them can; then every backed-up path has its existence, content and permission bits back; no other path is touched |
| `ManagedFiles.Host.Restore` | cmd/agent/instance_render.go:212-252 | one backup is restored, written back or removed if it did not exist, if and only if neither a symlink nor a directory is in the way (a new directory must be empty) and no call fails; otherwise nothing changes |
| `ManagedFiles.RestorableIff` | cmd/agent/instance_render.go:212-252 | when no call of the rollback fails, all its turns succeed if and only if no path written lies above or below another managed path |
| `ManagedFiles.WritesCompleteIff` | cmd/agent/instance_render.go:125-167 | when no call of the writes fails, all writes complete if and only if all modes parse and no managed path lies above another |
| `ManagedFiles.NestedFails` | cmd/agent/instance_render.go:212-252 | when a path written lies above or below another managed path, some turn of the rollback fails whatever the calls do |
| `ManagedFiles.Host.Snapshot` | cmd/agent/instance_render.go:169-210 | the snapshot succeeds if and only if every path is accepted and readable, and then its backups describe exactly the managed paths, each once and in order |
| `ManagedFiles.Host.Inspect` | cmd/agent/instance_render.go:169-210 | a backup is taken if and only if the path is clear, no directory and readable if it exists, and describes it |
| `ManagedFiles.Host.Write` | cmd/agent/instance_render.go:125-167 | a write completes if and only if path and mode are accepted, the path is clear and no directory, and no call fails; it then makes the missing directories and replaces its own path; a failed one leaves the path alone and may have made some of the directories |
| `ManagedFiles.Host.WriteAll` | cmd/agent/instance_render.go:125-167 | the loop completes exactly the writes before the first that fails, and leaves what they wrote |
| `ManagedFiles.Host.MakeDirectories` | cmd/agent/instance_render.go:141-143 | directories are made from the top down; it succeeds if and only if no needed call fails, and failure leaves only some of them |
| `ManagedFiles.Host.IsClear` | cmd/agent/instance_render.go:254-283 | true exactly when the path is neither the root nor a symlink and what exists above it are directories |
| `FileTree.ModeRoundTrip` | cmd/agent/instance_render.go:540-550 | printing permission bits with %04o and parsing them as octal is the identity |
| `Paths.ResolveIsStable` | cmd/agent/instance_render.go:453-471 | an accepted path resolves to itself, so a backup's path leads back to the same file |
| `Paths.CleanIsStable` | cmd/agent/instance_render.go:453-459 | cleaning a rooted path is idempotent |
| `Paths.CleanWalks` | cmd/agent/instance_render.go:453-459 | cleaning walks the path from the root: an empty name or a single dot stays, two dots go to the parent and stay at the root, any other name goes below |
| `Paths.ResolvesIff` | cmd/agent/instance_render.go:453-471 | a path is accepted if and only if, trimmed, it starts at the root, has no NUL, and no component that cleaning leaves has white space or control characters; it then names the path of those components |
| `Replay.Receiver.ReplayableIff` | cmd/agent/client_api.go:284-327 | with one clock reading per response, a response first accepted at t can ever be accepted again if and only if it was issued at t or later |
| `Replay.AcceptedIff` | internal/agentauth/signature.go:76-109 | a response is accepted if and only if it carries the MAC of its canonical text and the hash of its actual body, a token is there, the nonce has 12 to 128 octets and the time lies within one window of the clock |
| `Replay.SignatureStandsForOne` | internal/agentauth/signature.go:52-109 | two accepted responses carry the same signature if and only if they agree in request, time, nonce and body or the MAC collides on their texts |
| `Replay.Receiver.SignatureOncePerWindow` | cmd/agent/client_api.go:284-327 | over any run a signature is accepted at most once per window for one request, unless the MAC collides |
| `Replay.Receiver.SecondAcceptance` | cmd/agent/client_api.go:284-327 | with the code's two clock readings, a response accepted twice was issued no earlier than its first acceptance less the second receipt's delay between readings |
| `Replay.Receiver.AcceptancesAreSpaced` | cmd/agent/response_signature.go:22-45 | two acceptances of one key are at least one window apart |
| `Replay.Receiver.KeyStaysCached` | cmd/agent/response_signature.go:22-45 | a cached key stays cached until its expiry has come |
| `Replay.Receiver.ExpiryBounds` | cmd/agent/response_signature.go:22-45 | every cached expiry lies at most one window ahead of the clock and, after an acceptance, strictly ahead of it |
| `Replay.CanonicalInjective` | internal/agentauth/signature.go:52-58 | the signed text determines request, timestamp, nonce and body hash |
| `Replay.Cache.Accept` | cmd/agent/response_signature.go:22-45 | purge of the expired, then refusal of a known key or recording of a new one |
| `Replay.Cache.constructor` | cmd/agent/response_signature.go:15-20 | a window that is not positive becomes five minutes |
| `Pbkdf2.Pbkdf2Key` | internal/auth/password.go:63-88 | for every pseudorandom function, iteration count of at least one and key length, the loops compute the first keyLen octets of T_1 followed by T_2 and so on, as section 5.2 of RFC 8018 defines them |
| `Pbkdf2.Block` | internal/auth/password.go:72-84 | one block is U_1 xor ... xor U_c |
| `Pbkdf2.XorInto` | internal/auth/password.go:79-83 | the inner loop XORs in place, octet by octet |
| `Pbkdf2.Int4Value` | internal/auth/password.go:72 | the four octets encode the block index itself below 2^32 |
| `Password.HashPassword` | internal/auth/password.go:23-40 | fails exactly for fewer than twelve octets after trimming, else stores scheme, iterations, salt and derived key |
| `Password.VerifyPassword` | internal/auth/password.go:42-61 | accepts exactly when the stored form parses and the text derives the stored key |
| `Password.VerifyAfterHash` | internal/auth/password.go:23-61 | against what was stored, a text is accepted if and only if it derives the same key as the trimmed password, and the trimmed password always is |
| `Password.StoredParses` | internal/auth/password.go:42-61 | a stored form parses back to its iterations, salt and key |
| `Password.Base64RoundTrip` | internal/auth/password.go:33-39 | base64 decoding inverts encoding, and the encoding never contains the field separator |
| `Password.EncodeGroups` | internal/auth/password.go:33-39 | three octets are written as the four symbols, in the alphabet of section 4 of RFC 4648, of their 24-bit number, highest bits first; a rest of two or one octets as three or two symbols |
| `EnvFile.EnvFileRoundTrip` | cmd/agent/state_bootstrap.go:101-125 | for distinct keys and lines within the scanner's limit, the agent reads exactly the worker's map if and only if every value is free of white space and double quotes at its ends |
| `EnvFile.EnvFileIsReceived` | cmd/agent/state_bootstrap.go:101-125 | for every list the worker accepts, repeated keys and over-long lines included, what the agent reads is each value stripped, up to the first line that does not fit |
| `EnvFile.LineIsAbsorbed` | cmd/agent/state_bootstrap.go:101-125 | one rendered line stores exactly its own key |
| `EnvFile.RenderEnvFile` | cmd/worker/bootstrap.go:368-383 | rendering succeeds exactly when every key is valid and every value a single line, and prints the lines in order |
| `EnvFile.ReadEnvFile` | cmd/agent/state_bootstrap.go:101-125 | the scanning loop computes the specified map |
| `EnvFile.IsSingleLine` | internal/domain/validation.go:16-23 | true exactly for texts without control characters |
| `Quoting.ShellQuotesAreOneWord` | cmd/agent/netpolicy.go:713-715 | both shell quoting functions make of every text one shell word with that value, by section 2.2 of the POSIX.1-2017 Shell Command Language |
| `Quoting.AdminReadsShellQuotes` | cmd/admin/main.go:326-374 | the admin tool reads either quoting back to the trimmed text |
| `Quoting.AdminReadsBare` | cmd/admin/main.go:326-374 | a value without quotes and escapes reads as the text before its first comment, trimmed; a comment starts at a # that comes first or directly behind a blank |
| `Quoting.ParseAdminEnvValue` | cmd/admin/main.go:326-374 | the nested index loops compute the specified value or error |
| `Quoting.NftAndSecretQuotesAgree` | cmd/agent/firewall.go:1280-1284 | two replacements in sequence equal the simultaneous one, so nft and secret quoting agree everywhere |
| `Quoting.OpenVPNReadsQuotes` | internal/externalegress/openvpn.go:171-215 | the splitter returns the single original field of a quoted text, and no field for the empty text |
| `Quoting.OpenVPNReadsLine` | internal/externalegress/openvpn.go:171-215 | a line of plain and quoted fields in any mixture, separated by blanks, gives back exactly the fields, in order |
| `Quoting.SplitOpenVPNFields` | internal/externalegress/openvpn.go:171-215 | the scanning loop computes the specified fields or error |

## Left out

- HTTP, TLS, JSON encoding, the PostgreSQL store, migrations and the frontend: I/O and libraries.
- SHA-256, HMAC, X25519 and certificate checks: arbitrary functions here.
- Failures of `ip` and `nft` inside a running route-policy or egress script beyond missing tools, a refused `sysctl`, duplicate rules and missing chains, for example a refused `ip route replace`.
- The short windows inside a guard or apply between flush and fallback, and between rule delete and rule add: invariants are stated at action boundaries.
- FirewallPayload.PayloadLoadsIff: does not model nft's refusal of overlapping intervals, because that test is nft's own and differs between its versions.
- nft's other errors, the order of set elements, comments and the printed text of commands.
- Warnings, counters and flags of the firewall plan, such as the forward-preservation flag.
- Text forms of `ip rule show`, `nft list`, CIDR strings and port lists; the textual verification after an egress cleanup.
- `slugifyLocal`: left open as a parameter.
- 64-bit overflow of traffic counters and sums; the collectors that read them; Go's map order, on which nothing here depends.
- Deployments that share a table or a mark: the control plane's allocator keeps them apart.
- Concurrent changes of the file system during `Apply`, and the mode of the directories it makes.
- The network-policy unit written during `Apply`, which its rollback does not cover, and set-user-ID, set-group-ID and sticky bits.
- The two failing exits of `Apply` for a disabled instance carry no rollback; the model states that they leave the written files.
- A nil replay cache and the zero time in `accept`.
- Key generation, secret references and metadata updates around the allocators; Shadowsocks ports are not bounded by 65535, as in the code.
- L2TP process takeover, capability installs, allowlists on paths and units, diagnostics, and the artifact text builders of the worker: long but settled branch by branch.
