# Softnet packet filter: a verified model

Softnet forwards packets between virtual machines and the host and decides, packet by packet, what may
pass. This project models its decision core, and the protocols around it, in Dafny, and proves what
they promise over every input and every run.

| modules | what they model |
|---|---|
| `Net`, `RuleModel` | IPv4 addresses, CIDR prefixes as aligned blocks, rules as data |
| `PolicyCompiler`, `PolicyBuilder`, `PolicyNormal`, `PolicyLaws`, `PolicyMeaning`, `PolicyRules` | flat allow and block lists compiled to prefix maps of sorted filter lists, and looked up; what that means rule by rule |
| `RuleSyntax`, `RuleText`, `RuleNumbers`, `RuleWords`, `SortedLists`, `RuleOrder` | the rule grammar, its parser and printer, and the canonical form of a rule list |
| `Packets`, `FlowTable`, `FlowLaws`, `FlowRefusal` | packets as parsed headers, and the bounded, lazily swept table of admitted flows |
| `ProxyMachine`, `Proxy`, `ProxyFields`, `ProxyRuns`, `ProxyTheorems`, `ProxyPromises` | one VM's filter: as a state machine, as a class that implements it, and its runs |
| `Framing`, `Utf8`, `ControlTransport`, `FramingLaws` | newline framing of the control socket, with size limits and attached descriptors |
| `Handshake` | the vmnet reader and the event callback that waits for it |
| `Manager`, `ManagerInvariant`, `ManagerSteps`, `ManagerTheorems`, `ManagerShutdown`, `ManagerReplacement`, `ManagerErrors` | initialization, activation, cancellation and shutdown of batches of VMs, and the error a shutdown reports |
| `Subnet` | the search for a free subnet and the addresses given to VMs |

The main results:

- **Every forwarded packet is justified.** In every run of packets from both sides, policy changes and
  non-decreasing clock readings, a forwarded packet is admitted by the rules in force, or it is the exact
  mirror image of an earlier packet that they admit and whose entry is unexpired and not replaced since
  (`ForwardedIsJustified`, `ReturnTrafficHasOrigin`). Conversely an admitted packet that has to be tracked is
  stored (`AdmissionStores`), and its reply passes until then (`ReplyIsAvailable`).
- **The rule compiler is correct.** Normalizing, grouping by prefix, sorting, first match and best over the
  covering prefixes select what the flat maximum of the priority order over the lists as given selects, for any
  hash order and any treatment of ties (`WholeCompilerIsCorrect`). Rule by rule, a packet is blocked if and only
  if a block rule concerns it that no allow rule concerning it beats (`CompiledSelection`), from the time a policy
  is set until the next one (`PolicyMeansItsLists`). That maximum is what is left after eliminating
  rules in the documented stages (`SelectionIsElimination`), and where some port would be blocked a packet
  with unknown ports is blocked (`UnknownPortsFailClosed`).
- **Default deny holds.** With 0.0.0.0/0 blocked nothing leaves a VM without an allow rule behind it, in any
  run (`DefaultDenyHolds`).
- **The lazily swept table refines the ideal one**, which holds exactly the unexpired entries
  (`LazySweepRefinesIdeal`). It may refuse what the ideal table could store, exactly when it is full with an
  expired entry in it (`SpuriousRefusal`), and this happens in a run from a new table (`RefusalHappens`).
- **Parsing and printing undo each other**, so that sorting by printed form and dropping repetitions gives a
  canonical list: two lists have the same one if and only if they say the same, rule by rule (`RoundTrip`,
  `DisplayIsInjective`, `NormalFormsMean`).
- **Framing does not depend on how the stream was cut**, lines are accepted exactly if they encode Unicode text of
  at most 1 MiB, and no descriptor is lost or handed out twice (`ReadAll`, `FramesAreLines`, `ValidUtf8Exactly`,
  `NoDescriptorInTwoFrames`).
- **The handshake conserves its token**, cancelled reads included (`TokenIsConserved`).
- **A VM forwards only after its whole batch was built, handed over and privileges were dropped**
  (`ForwardingIsGated`), and a shutdown gets to its end by steps that need nobody's help (`ShutdownCanFinish`).
- **What a shutdown joins and reports is exact.** It leaves a worker running only if an initialization began
  before that worker was joined (`EveryWorkerIsJoined`, `LeftBehindExactly`), and it reports the first failure it
  joins, unless it is cancelled (`ShutdownReports`, `LostExactly`).

Nothing was executed: these are proofs about the model.

## How the model reads the source

Time is an integer number of nanoseconds that never goes back. A packet is a record of its addresses, its
fragmentation and its transport header, which may be too short, damaged or complete. `Proxy`, `FlowTable`
and `ControlTransport` are classes whose methods update their fields as the source does, each proved
against a function on values; the theorems are about those functions. The loops that build, sort, count,
normalize, frame and search are methods with invariants. The hash map whose iteration order is arbitrary,
the unstable sort and the random draws are arbitrary choices.

Where the documentation and the code differ, the model follows the code:

- README.md:111 describes matching by longest prefix. The code ranks a rule that names a port above every
  rule that does not, whatever their prefixes (lib/proxy/rules.rs:234-251), as the command-line help says
  (src/main.rs:93-94). `BlockedNetworkIsReached` gives an input: with TCP port 443 allowed everywhere and
  10.0.0.0/8 blocked, 10.0.0.1 is reached on port 443. `LongestPrefixExactly` says when the longest prefix does
  decide: if and only if no matching rule names a port or one with the longest prefix does.
- The note at lib/manager.rs:316 has shutdown join the worker of a cancelled initialization. An initialization
  that follows replaces the handle of that worker, so it can outlive a shutdown: `ReplacedWorkerOutlivesShutdown`
  gives the run. `EveryWorkerIsJoined` gives the condition for a caller, that no initialization begins while a
  worker is left to join, and `LeftBehindExactly` says which workers a shutdown can leave behind.
- The note at lib/manager.rs:408 promises the first failure of a shutdown. The failures joined so far are a local
  value, so a shutdown that is cancelled forgets them and the next one can return success: `LosingRun` gives the
  run, and `ReportedExactly` and `LostExactly` say when a failure is reported and when it is lost.

## Model

| member | source | states |
|---|---|---|
| `PolicyCompiler.FlatSelectIsMaximum` | lib/proxy/rules.rs:167-189 | the flat meaning of a policy is the action of any matching rule that no matching rule outranks; all such rules act alike |
| `PolicyCompiler.FlatSelectNone` | lib/proxy/rules.rs:167-189 | the flat meaning selects nothing exactly when no rule matches |
| `PolicyCompiler.FirstMatchIsBest` | lib/proxy/rules.rs:253-285 | in any list sorted by priority the first compatible filter is a maximum of the compatible ones, and none is found only if none is compatible |
| `PolicyCompiler.LevelIsBest` | lib/proxy/rules.rs:167-189 | what a lookup finds at the one truncated prefix of a length that covers the address tops all matching rules of that length |
| `PolicyCompiler.SelectIsFlat` | lib/proxy/rules.rs:167-189 | lookup in any compilation of a set of entries equals the flat maximum over the entries |
| `PolicyCompiler.CompilerIsCorrect` | lib/proxy/rules.rs:42-112 | for the lists handed to the compiler, directions and queries, the compiled rules select what the flat maximum over those lists selects |
| `PolicyNormal.NormalizingKeepsEntries` | lib/proxy/mod.rs:282-288 | a policy and its canonical form have the same entries, in the same mode and for every direction |
| `PolicyNormal.WholeCompilerIsCorrect` | lib/proxy/mod.rs:262-275 | raw lists in: rules compiled from the canonical lists select what the flat maximum over the lists as given selects |
| `PolicyRules.BlockedExactly` | lib/proxy/rules.rs:167-285 | the flat meaning blocks if and only if some block rule concerns the packet and no allow rule concerning it beats that rule |
| `PolicyRules.CompiledSelection` | lib/proxy/rules.rs:167-285 | compiled rules block, allow or select nothing as the raw rules say: by direction, leading address bits, protocol and port, a named port before a longer prefix, a named protocol and fewer ports, and blocks before allows on a tie |
| `PolicyRules.OneRuleSelects` | lib/proxy/rules.rs:253-285 | a policy of one rule of either action acts exactly on the packets of its direction, addresses, protocol and ports, an unknown TCP or UDP port counting for a block only |
| `PolicyNormal.NormalizingKeepsCount` | lib/proxy/mod.rs:254-275 | normalizing keeps the number of distinct triples that is reported |
| `PolicyBuilder.InsertMerges` | lib/proxy/rules.rs:192-216 | inserting a filter merges one more entry, a block overriding an identical allow |
| `PolicyBuilder.InsertFilter` | lib/proxy/rules.rs:192-216 | a target is inserted as its truncated prefix, as the gateway, or as every peer, and the merge holds exactly those entries more |
| `PolicyBuilder.AddRule` | lib/proxy/rules.rs:63-105 | a rule goes to the directions it applies to: a bare rule outbound, and in stateful mode both ways |
| `PolicyBuilder.AddRules` | lib/proxy/rules.rs:63-105 | after a list is added, each direction merges exactly the entries of that list more |
| `PolicyBuilder.SortFilters` | lib/proxy/rules.rs:218-232 | the listing holds each filter once, by descending priority, ties in any order |
| `PolicyBuilder.CompileRules` | lib/proxy/rules.rs:218-232 | every prefix of the merge gets a sorted listing of its filters, in any iteration order |
| `PolicyBuilder.BuildRules` | lib/proxy/rules.rs:42-112 | the constructed rules are a compilation of the two raw lists, in the mode the lists call for |
| `PolicyBuilder.LegacyInboundIsEmpty` | lib/proxy/rules.rs:50-90 | a policy without directional rules compiles to an empty inbound map |
| `PolicyLaws.AddingABlockRule` | lib/proxy/rules.rs:63-105 | with the mode fixed, one more block rule leaves each selection unchanged or turns it into a block |
| `PolicyLaws.AddingAnAllowRule` | lib/proxy/rules.rs:63-105 | with the mode fixed, one more allow rule leaves each selection unchanged or turns it into an allow, so never into a block |
| `PolicyLaws.CountRules` | lib/proxy/rules.rs:155-161 | the reported count is the number of distinct (direction, prefix, filter) triples of the lists |
| `PolicyMeaning.WinnersAreDecisive` | lib/proxy/rules.rs:234-251 | the priority tuple means elimination in stages: rules with a port, longest prefix, rules with a protocol, narrowest range, blocks; the maxima are exactly the rules left |
| `PolicyMeaning.SelectionIsElimination` | src/main.rs:93-94 | the compiled rules select the action of the rules left after the documented stages of elimination, and nothing exactly when no rule matches |
| `PolicyMeaning.LongestPrefixExactly` | lib/proxy/rules.rs:234-251 | the rules that decide all have the longest matching prefix if and only if no matching rule names a port or one with the longest prefix does |
| `PolicyMeaning.SelectionByLongestPrefix` | README.md:111 | compiled rules select by a rule of the longest prefix under that condition, and by a shorter one that names a port otherwise |
| `PolicyMeaning.ShorterPrefixWins` | lib/proxy/rules.rs:234-251 | a service allowed in a wide prefix is reached inside a narrower blocked one, for all prefixes, ports and addresses |
| `PolicyMeaning.BlockedNetworkIsReached` | README.md:111 | an input where longest-prefix matching fails: port 443 allowed everywhere, 10.0.0.0/8 blocked, 10.0.0.1 reached on 443 |
| `PolicyMeaning.UnknownPortMeans` | lib/proxy/rules.rs:253-285 | with unknown TCP or UDP ports a block matches if and only if it matches some port, an allow if and only if it matches every port |
| `PolicyMeaning.UnknownPortsFailClosed` | lib/proxy/rules.rs:253-285 | where the compiled rules would block some port they block a packet with unknown ports, and where they allow such a packet they allow every port |
| `RuleSyntax.ParserIsSound` | lib/proxy/rule.pest:1-9 | every text the parser accepts is derived by the grammar, and the derivation spells that text |
| `RuleSyntax.ParserIsComplete` | lib/proxy/rule.pest:1-9 | the ordered-choice parser finds every derivation of the grammar |
| `RuleSyntax.GrammarIsUnambiguous` | lib/proxy/rule.pest:1-9 | no text has two derivations |
| `RuleText.PrefixRoundTrip` | lib/proxy/rule.rs:184-204 | a printed CIDR prefix reads back as itself, host bits included |
| `RuleText.TargetRoundTrip` | lib/proxy/rule.rs:184-204 | a printed target is a target of the grammar and reads back as itself |
| `RuleText.RangeRoundTrip` | lib/proxy/rule.rs:206-254 | a printed port or range is a port of the grammar and reads back as itself |
| `RuleText.RoundTrip` | lib/proxy/rule.rs:78-172 | parsing a printed rule gives the rule back exactly when its ports come with tcp or udp, and fails otherwise |
| `RuleText.AcceptedInputRoundTrips` | lib/proxy/rule.rs:78-172 | for every accepted text, printing and parsing the rule again gives the same rule |
| `RuleText.DisplayIsInjective` | lib/proxy/rule.rs:147-172 | no two rules print alike, even those the parser would refuse |
| `RuleText.ParseFollowsGrammar` | lib/proxy/rule.rs:78-130 | a text parses to a rule exactly when the grammar derives it with that meaning and the ports have a protocol |
| `RuleNumbers.SpellsExactly` | lib/proxy/rule.rs:224-244 | digits have the value whose decimal form they are, after any zeros in front |
| `RuleNumbers.PrefixExactly` | lib/proxy/rule.rs:184-194 | exactly four octets with dots between them, a slash and a length are read as a prefix, with the octets from the high end |
| `RuleNumbers.TargetExactly` | lib/proxy/rule.rs:184-194 | exactly the two names and such prefixes are read as targets |
| `RuleNumbers.RangeExactly` | lib/proxy/rule.rs:206-244 | exactly one nonzero port, or two in order with a colon between them, are read as a range |
| `RuleWords.DisplayIsWords` | lib/proxy/rule.rs:147-172 | a rule prints as its direction, protocol, target and ports in these words and this order |
| `RuleWords.WordsAreRead` | lib/proxy/rule.rs:78-130 | those words are read back as the rule exactly if its ports have a protocol |
| `RuleWords.OmittedTarget` | lib/proxy/rule.rs:93-130 | a directed rule that names no target is about every address |
| `RuleWords.AnywhereIsRead` | lib/proxy/rule.rs:93-130 | "in" or "out", tcp or udp and ports without a target are read as a rule for 0.0.0.0/0 |
| `RuleText.ReadingIsMeaning` | lib/proxy/rule.rs:93-130 | reading the fields one after the other gives the meaning of the derivation |
| `RuleText.ParseStateful` | lib/proxy/rule.rs:93-130 | the loop over the fields returns the denoted rule, or nothing when a field or the port filter is invalid |
| `RuleText.ParseRule` | lib/proxy/rule.rs:78-91 | the parser of whole inputs computes the function the round trips are about |
| `SortedLists.NormalFormIsUnique` | lib/proxy/mod.rs:282-288 | under a total order a finite set has one sorted list without repetitions |
| `SortedLists.Sort` | lib/proxy/mod.rs:282-288 | the result is sorted and a permutation of the input |
| `SortedLists.Dedup` | lib/proxy/mod.rs:282-288 | dropping elements equal to their predecessor leaves a sorted list without repetitions and with the same elements |
| `RuleOrder.PrintedOrderIsTotal` | lib/proxy/mod.rs:282-288 | the order of rules by printed form is total and antisymmetric, because the printer is injective |
| `RuleOrder.TextOrderIsLexicographic` | lib/proxy/mod.rs:282-288 | texts are ordered by their first difference, and a text comes before its extensions |
| `RuleOrder.NormalFormIsNormal` | lib/proxy/mod.rs:282-288 | the canonical list is sorted, without repetitions, and holds exactly the truncated rules |
| `RuleOrder.NormalFormTruncates` | lib/proxy/rule.rs:174-182 | every prefix in a canonical list is written by the first address of its block |
| `RuleOrder.SameRuleExactly` | lib/proxy/rule.rs:62-76 | two rules are truncated alike if and only if they agree in kind, direction, filter and target, prefixes having the same length and the same addresses |
| `RuleOrder.NormalFormsMean` | lib/proxy/mod.rs:282-288 | two lists normalize alike if and only if each rule of one says the same as some rule of the other |
| `RuleOrder.NormalFormsAgree` | lib/proxy/mod.rs:282-288 | two lists normalize alike if and only if they hold the same truncated rules |
| `RuleOrder.NormalizeRules` | lib/proxy/mod.rs:282-288 | truncating in place, sorting and dropping repetitions computes the canonical list |
| `FlowTable.FlowTable.InspectAt` | lib/proxy/flows/mod.rs:119-140 | inspection sweeps first and classifies the packet by the table that is left |
| `FlowTable.FlowTable.Commit` | lib/proxy/flows/mod.rs:142-153 | a flow is stored unless its key is new and the table is full, and nothing else changes |
| `FlowLaws.ClassifyMeans` | lib/proxy/flows/mod.rs:119-190 | one rule for TCP, UDP and echo: malformed is denied, a bare SYN asks again, a live entry allows the other side and renews for its own, an opener proposes, anything else is untracked |
| `FlowLaws.TcpMeans` | lib/proxy/flows/tcp.rs:9-51 | a TCP segment by its own fields: SYN without ACK, FIN and RST asks policy for 60 s, a live entry lets the other side answer and its own side renew for 300 s, anything else is untracked |
| `FlowLaws.CandidateFlags` | lib/proxy/flows/tcp.rs:31-38 | without a live entry exactly the segments with SYN and neither ACK, FIN nor RST are candidates |
| `FlowLaws.UdpMeans` | lib/proxy/flows/udp.rs:8-53 | a datagram by its own fields: a live entry decides, and without one it asks policy for 30 s |
| `FlowLaws.EchoMeans` | lib/proxy/flows/icmp.rs:8-87 | echo requests ask policy for 30 s, and replies pass exactly on a live request of the other side |
| `FlowLaws.ReplyHasSameKey` | lib/proxy/flows/mod.rs:192-206 | an exact reply from the other side falls on the entry of the packet it answers |
| `FlowLaws.SameKeyIsReply` | lib/proxy/flows/icmp.rs:36-87 | and only exact replies do: a packet from the other side with the same key mirrors addresses and ports, or answers the same echo |
| `FlowLaws.ClassifyIgnoresExpired` | lib/proxy/flows/mod.rs:165-190 | expired entries never influence an answer |
| `FlowLaws.RoomRefines` | lib/proxy/flows/mod.rs:142-153 | wherever the real table has room the table of unexpired entries has too, also for the key of an expired entry |
| `FlowLaws.SpuriousRefusal` | lib/proxy/flows/mod.rs:142-153 | the real table refuses what the ideal one could store if and only if the key is new and the table is full with an expired entry in it |
| `FlowRefusal.RefusalHappens` | lib/proxy/flows/mod.rs:119-163 | a run from a new table: 32,768 datagrams are stored, the table is swept just before they expire, and a new flow is then refused although every entry has expired |
| `FlowLaws.SweepSound` | lib/proxy/flows/mod.rs:155-163 | after an inspection every entry expired less than one sweep interval ago, and the next sweep lies ahead |
| `FlowLaws.StoreSound` | lib/proxy/flows/mod.rs:142-153 | storing keeps the table within 32,768 entries, fresh, and with every echo entry under the direction it was requested in |
| `FlowLaws.RealStepRefines` | lib/proxy/flows/mod.rs:119-163 | one inspection and commit answers as the ideal table does, and stores only what the ideal table may store |
| `FlowLaws.LazySweepRefinesIdeal` | lib/proxy/flows/mod.rs:119-190 | over every run the lazily swept table is a run of the ideal table, stays bounded and is fresh after every inspection |
| `FlowLaws.NewTableRefinesIdeal` | lib/proxy/flows/mod.rs:104-163 | every run of a new table is a run of an ideal table that starts empty, within 32,768 entries |
| `Proxy.Proxy.constructor` | lib/proxy/mod.rs:61-112 | a new filter has the canonical lists in force, selects what the lists as given say rule by rule, and has a flow table exactly in stateful mode |
| `Proxy.Proxy.DecisionIsFlat` | lib/proxy/rules.rs:114-153 | the compiled rules of a filter decide as the flat meaning of its lists does |
| `Proxy.Proxy.Decide` | lib/proxy/rules.rs:114-135 | the decision is the flat one: the peer address of the direction, the protocol and the destination port, with allows stateful exactly in stateful mode |
| `ProxyFields.DecidedByFields` | lib/proxy/rules.rs:114-135 | a packet is decided by its own fields: the remote address of the direction, its protocol, and the destination port of a whole TCP or UDP header |
| `ProxyFields.DhcpReplyMeans` | lib/proxy/host.rs:52-62 | the inbound packets dropped for the DHCP server are exactly UDP from port 67 to 68, whole or a first fragment, damaged or not |
| `ProxyFields.DhcpRequestMeans` | lib/proxy/vm.rs:126-140 | the outbound packets it consumes are exactly UDP to port 67, whole or a first fragment, damaged or not |
| `ProxyFields.DnsMeans` | lib/proxy/vm.rs:160-196 | only whole UDP packets to port 53 of the gateway may be answered by the DNS server |
| `Proxy.Proxy.AllowedFromHostIpv4` | lib/proxy/host.rs:52-101 | one step of the inbound machine: verdict and whole new state, for every packet |
| `Proxy.Proxy.AllowedFromVmIpv4` | lib/proxy/vm.rs:60-124 | one step of the outbound machine, with the global and gateway fallbacks: verdict and whole new state, for every packet |
| `Proxy.Proxy.SetPolicy` | lib/proxy/mod.rs:254-275 | a different canonical policy replaces everything and starts with an empty table, the same one changes nothing; the filter then selects what the lists as given say rule by rule, and reports their number of distinct triples |
| `ProxyRuns.RunIsConsistent` | lib/proxy/mod.rs:262-275 | in every run a flow table exists exactly in stateful mode, and it is bounded, consistent for echo, and swept on time |
| `ProxyRuns.RunExists` | lib/proxy/mod.rs:114-226 | every ordered sequence of events has a run, so the theorems about runs speak about all of them |
| `ProxyTheorems.UntouchedEntry` | lib/proxy/flows/mod.rs:142-190 | an event that stores nothing under a key, return traffic and refused candidates included, neither creates its entry nor changes its expiry or direction |
| `ProxyTheorems.KeptEntry` | lib/proxy/flows/mod.rs:142-163 | such an event keeps a live entry as long as the policy stays |
| `ProxyTheorems.EveryEntryHasOrigin` | lib/proxy/flows/mod.rs:142-163 | every entry of every reachable table was stored by an earlier packet under the policy still in force, and not replaced since |
| `ProxyTheorems.ReturnTrafficHasOrigin` | lib/proxy/flows/mod.rs:119-190 | a packet the table lets through has an earlier admitted packet from the other side with the exact mirrored tuple, an unexpired entry, no later commit on it and no policy change between |
| `ProxyTheorems.HostAdmittedByPolicy` | lib/proxy/host.rs:52-101 | an inbound packet is admitted on its own if and only if the rules or the inbound default admit it, it is no return traffic, and where it has to be tracked there is room; a rule-allowed packet must open a flow or renew a live one of its side |
| `ProxyTheorems.VmAdmittedByPolicy` | lib/proxy/vm.rs:60-124 | the same for an outbound packet with the global and gateway fallbacks, unless the DNS server answers it |
| `ProxyTheorems.ForwardedIsJustified` | lib/proxy/vm.rs:60-124 | every forwarded packet of every run is admitted by the policy in force, trackable where a stateful rule allows it, or is exact return traffic of a packet so admitted under that policy |
| `ProxyTheorems.TcpEntriesDescend` | lib/proxy/flows/tcp.rs:9-39 | every TCP entry descends from an admitted bare SYN through admitted packets of the same side, each before its predecessor expired, and expires 60 s after a SYN or 300 s after a renewal |
| `ProxyTheorems.EntryPersists` | lib/proxy/flows/mod.rs:142-163 | a stored entry stays until it expires, is replaced or the policy changes, whatever other traffic and sweeps come between |
| `ProxyTheorems.HostStores` | lib/proxy/host.rs:86-100 | an admitted inbound packet is stored if and only if it is trackable, is for the VM, and a rule decides it or its reply; what is stored is its key, its side and its timeout |
| `ProxyTheorems.VmStores` | lib/proxy/vm.rs:90-124 | an admitted outbound packet is stored if and only if it is trackable, whether a rule or a fallback admits it; what is stored is its key, its side and its timeout |
| `ProxyTheorems.AdmissionStores` | lib/proxy/mod.rs:228-252 | in every run an admitted packet is stored exactly so, and its entry is then in the table |
| `ProxyTheorems.ReplyIsAvailable` | lib/proxy/flows/mod.rs:142-206 | in every run the exact reply to an admitted packet that has to be tracked, unfragmented and with ACK, FIN or RST set or SYN clear, is forwarded unless a local server consumes it, until the entry expires, is replaced or is revoked |
| `ProxyTheorems.MirrorLaw` | lib/proxy/rules.rs:137-153 | the return direction is stateful if and only if, in stateful mode, a rule decides the packet with addresses and ports exchanged |
| `ProxyTheorems.DefaultAdmittedRepliesAreCovered` | lib/proxy/host.rs:86-100 | in every run the reply to a trackable inbound packet admitted by default is forwarded, unless a local server consumes it or no outbound rule concerns it, while the entry is unexpired, not replaced and not revoked |
| `ProxyTheorems.ListsStayNormal` | lib/proxy/mod.rs:262-288 | the lists in force are canonical at every point of every run |
| `ProxyTheorems.PolicyChangeRevokes` | lib/proxy/mod.rs:262-288 | a policy update keeps the state exactly when both lists say what the lists in force say, rule by rule and address by address, and otherwise leaves no old entry; the lists then in force say what the new ones say |
| `ProxyTheorems.InboundAllowsAreStateful` | lib/proxy/host.rs:86-95 | with a flow table the inbound branch for stateless allows is never reached |
| `ProxyPromises.DefaultDenyHolds` | README.md:115 | in every run, with 0.0.0.0/0 blocked, a packet forwarded from the VM, and in stateful mode to it, has an allow rule in force that names its direction, peer, protocol and port, or those of the packet it answers |
| `ProxyPromises.BlockedByARule` | lib/proxy/rules.rs:253-285 | a packet is blocked if and only if a block rule in force concerns its direction, peer, protocol and port and no allow rule that does beats it |
| `ProxyPromises.PolicyMeansItsLists` | lib/proxy/mod.rs:262-275 | in every run, from a policy update until the next, packets are decided rule by rule by the lists as given, and a flow table exists exactly if one of the rules is directional |
| `ProxyPromises.FirstPolicyMeansItsLists` | lib/proxy/mod.rs:61-112 | the same for the lists a filter starts with |
| `Framing.SearchFinds` | lib/control_transport.rs:53-100 | the search from the remembered index meets the first newline of the frame, wherever the reads were cut |
| `Framing.DeliveredIsJudged` | lib/control_transport.rs:53-100 | what is delivered at a newline is the verdict on exactly the bytes and descriptors of that frame, even if most of it was discarded while reading |
| `Framing.AbsorbKeepsScanning` | lib/control_transport.rs:115-146 | one more read keeps the scan on track, with too many or misplaced descriptors recorded as the first error |
| `ControlTransport.ReceiveLine` | lib/control_transport.rs:53-146 | the loop stops at a newline or the end, loses no byte and no descriptor, and never holds more than 1 MiB and one read |
| `ControlTransport.ReadFrame` | lib/control_transport.rs:53-146 | one call takes the first frame off the stream, or reports its end, and accounts for every descriptor |
| `ControlTransport.ControlTransport.Next` | lib/control_transport.rs:53-146 | the result is the verdict on what comes up to the first newline, in terms of its bytes, its characters and its descriptors; the pending stream is what follows, and descriptors are delivered, closed or still to come |
| `ControlTransport.ControlTransport.ReadAll` | lib/control_transport.rs:53-146 | repeated calls yield exactly the frames of the stream, resynchronised after each rejected one, and every descriptor is delivered once or closed once |
| `FramingLaws.CuttingDoesNotMatter` | lib/control_transport.rs:53-146 | two ways of cutting the same descriptor-free bytes into reads give the same frames |
| `FramingLaws.LinesAreTheText` | lib/control_transport.rs:53-146 | the lines, joined by newlines and followed by the remainder, are the text, and none contains a newline |
| `Utf8.ValidUtf8Exactly` | lib/control_transport.rs:66-85 | bytes are accepted as text if and only if they are the encoding of some sequence of Unicode scalar values |
| `FramingLaws.JudgeMeans` | lib/control_transport.rs:66-100 | a frame is rejected for more than five descriptors, for descriptors after its first byte, for more than 1,048,576 bytes, or for not being text, in this order, and otherwise says its line without a carriage return at the end |
| `FramingLaws.FramesAreLines` | lib/control_transport.rs:53-146 | the frames of a descriptor-free stream are its lines, an error precisely for a line over 1,048,576 bytes or one that encodes no text |
| `FramingLaws.FrameDescriptors` | lib/control_transport.rs:115-146 | an accepted frame carries the descriptors that arrived with its first byte, at most five, and a rejected one none |
| `FramingLaws.FramesDeliverAtMost` | lib/control_transport.rs:53-146 | counting repetitions, no descriptor is handed out more often than it arrived |
| `FramingLaws.NoDescriptorInTwoFrames` | lib/control_transport.rs:53-146 | a descriptor that arrived once is in at most one frame |
| `Handshake.StepKeepsInvariant` | lib/host.rs:85-127 | every step of reader, callback and finalization keeps one token per parked callback |
| `Handshake.TokenIsConserved` | lib/host.rs:55-127 | in every run, cancelled reads included, a connected parked callback has exactly one of: stored permit, permit handed to a waiting reader, draining, buffered acknowledgment |
| `Handshake.AcknowledgmentIsNeverDropped` | lib/host.rs:85-105 | an acknowledgment always finds its slot empty and a callback parked |
| `Handshake.NeverBothStuck` | lib/host.rs:55-105 | reader and callback never both wait for each other |
| `Handshake.DrainingGoesOn` | lib/host.rs:85-105 | one notification covers every batch up to the next empty read: until then no read waits |
| `Handshake.FinalizeReleases` | lib/host.rs:111-127 | from finalization on a parked callback can resume at any time, and once cleared no callback starts |
| `Handshake.WaitingIsJustified` | lib/host.rs:85-105 | a connected reader waits only when no callback is parked or its acknowledgment is on the way |
| `Handshake.ResumptionIsEarned` | lib/host.rs:55-127 | a callback resumes only after an empty read since it started, or after finalization |
| `Handshake.CallbackCanAlwaysBeReleased` | lib/host.rs:55-127 | from every reachable state at most four steps of reader and callback free a parked callback |
| `ManagerSteps.StepKeepsInvariant` | lib/manager.rs:291-456 | every step of owner, worker, VM tasks and control, cancellation included, keeps the invariant of the lifecycle |
| `ManagerSteps.RunKeepsInvariant` | lib/manager.rs:291-456 | the invariant holds in every state of every run |
| `ManagerTheorems.ActivationHappened` | lib/manager.rs:358-370 | an initialized manager dropped privileges at an earlier step, when the worker of its last batch had built and handed over everything |
| `ManagerTheorems.HandOverAfterWholeBatch` | lib/manager.rs:331-354 | no proxy is handed over before as many builds of its batch as it has VMs |
| `ManagerTheorems.ForwardingIsGated` | lib/manager.rs:460-489 | a VM forwards only if privileges were dropped at an earlier step, before which its whole batch was built and handed over |
| `ManagerTheorems.OneBatchForwards` | lib/manager.rs:291-384 | all VMs that ever forward in a run belong to one batch |
| `ManagerTheorems.ActivatedTaskCanForward` | lib/manager.rs:370-384 | after activation every VM task that waits for its proxy or its start forwards within two steps of its own |
| `ManagerTheorems.ForwardingEnds` | lib/manager.rs:460-489 | a VM stops forwarding only when it disconnects or its command channel is closed, and then cleans up |
| `ManagerTheorems.AbandonedBatchNeverForwards` | lib/manager.rs:291-384 | no VM of a batch whose initialization failed or was cancelled forwards at any time of the run |
| `ManagerTheorems.HandlesAreTracked` | lib/manager.rs:295-314 | command channels always belong to tasks that are still tracked |
| `ManagerTheorems.LiveTasksHaveHandles` | lib/manager.rs:295-314 | until a shutdown closes the command channels, every VM task that has not ended has one |
| `ManagerTheorems.ShutdownLeavesNothing` | lib/manager.rs:397-434 | a shutdown that returns leaves no control task, worker handle, task or command channel tracked and no VM task alive; a worker yet to return lost its handle and has handed over its whole batch |
| `ManagerReplacement.LostHandles` | lib/manager.rs:316-317 | over every run the handles lost are exactly those of workers not yet joined when an initialization began |
| `ManagerReplacement.EveryWorkerIsJoined` | lib/manager.rs:397-416 | if every initialization begins with no worker left to join, a shutdown that returns leaves every worker finished |
| `ManagerReplacement.LeftBehindExactly` | lib/manager.rs:316-317 | a shutdown in progress can return before a worker does if and only if the handle of that worker was replaced and it has yet to return |
| `ManagerReplacement.ReplacedWorkerOutlivesShutdown` | lib/manager.rs:316-317 | a run of two cancelled initializations in which shutdown returns before the first worker does |
| `ManagerShutdown.ShutdownNeverStuck` | lib/manager.rs:397-434 | while a shutdown waits, some step is possible that needs no outside event, and no worker has to return but the one it joins: control, worker and tasks never wait in a circle |
| `ManagerShutdown.ShutdownApproaches` | lib/manager.rs:397-434 | every step during a shutdown lowers a natural-number measure, except forwarding, which changes nothing, and giving up |
| `ManagerShutdown.ShutdownGoesOn` | lib/manager.rs:397-434 | a shutdown ends only by returning or by being cancelled |
| `ManagerShutdown.ShutdownCanFinish` | lib/manager.rs:397-434 | from every state of a shutdown its return is reached in at most as many steps as the measure says, all of them bound to be taken and no worker returning but the one it joins |
| `ManagerErrors.ResultIsFirstFailure` | lib/manager.rs:409-415 | at every point of a shutdown what it is going to report is the first failure it has joined |
| `ManagerErrors.ShutdownReports` | lib/manager.rs:408-415 | a shutdown that returns reports the failure of the worker, or else of the first failing task it joined, and success exactly if none failed |
| `ManagerErrors.JoinedOnce` | lib/manager.rs:386-415 | no failure is joined twice in a run |
| `ManagerErrors.ReportedExactly` | lib/manager.rs:408-415 | a failure a shutdown has joined is reported in the rest of the run if and only if that shutdown returns and joined it first |
| `ManagerErrors.LostExactly` | lib/manager.rs:408-415 | all failures a shutdown has joined go unreported if and only if it is cancelled |
| `ManagerErrors.FailureCanBeLost` | lib/manager.rs:397-416 | whatever a shutdown has joined, if it is cancelled and nobody else fails the next one can return success |
| `ManagerErrors.LosingRun` | lib/manager.rs:397-416 | a run in which a worker's failure is joined, the shutdown is cancelled and the next one returns success |
| `Subnet.OverlapMeansSharedAddress` | lib/subnet_finder/mod.rs:56-61 | the two-way containment test is true if and only if the two blocks share an address |
| `Subnet.TruncationStaysInside` | lib/subnet_finder/mod.rs:41-55 | truncating an address of a range to a longer prefix stays inside the range |
| `Subnet.PrivateExactly` | lib/subnet_finder/mod.rs:18-24 | the addresses drawn from are exactly 10.0.0.0 to 10.255.255.255, 172.16.0.0 to 172.31.255.255 and 192.168.0.0 to 192.168.99.255 |
| `Subnet.AnyOverlap` | lib/subnet_finder/mod.rs:56-61 | the scan reports whether any used block shares an address with the candidate |
| `Subnet.FindAvailableSubnet` | lib/subnet_finder/mod.rs:10-75 | a returned subnet has the wanted length, holds private addresses only, is free, and comes with its first two hosts; the search gives up exactly when all 128 draws fail |
| `Subnet.AssignAddresses` | lib/manager.rs:249-283 | assignment takes the hosts after the gateway in order and fails exactly when they run out |
| `Subnet.BatchIsAssignable` | lib/manager.rs:249-283 | up to five VMs in a /29 always get addresses: inside the subnet, pairwise distinct, and never network, broadcast or gateway |

## Left out

- Byte-level decoding and checksums of Ethernet, IPv4, TCP, UDP, ICMP and ARP: packets are records, with short and damaged headers as cases of their own.
- ARP checks, and the DHCP and DNS servers: DHCP is a test of ports, and whether DNS answers a query to the gateway is part of the event.
- The JSON-RPC layer and its limit of 4096 rules, and the channel that carries policy commands to a VM task: a policy update reaches the filter as one event, and the theorems hold for lists of any length.
- Which addresses are global: an arbitrary predicate of the configuration.
- Overflow of the clock: times are unbounded integers.
- The text format of CIDR prefixes comes from a library and is modelled as four decimal octets of one to three digits, a slash and a length of one or two digits.
- The prefix map is modelled as a map from truncated prefixes, and its enumeration of covering prefixes as one lookup per length.
- I/O errors of the control socket: a stream either delivers its reads or ends.
- Reads of the control socket are non-empty, of at most 4096 bytes, and carry their descriptors on their first byte, as section 2.10.11 of POSIX has it.
- In the handshake vmnet runs callbacks one at a time, and the notifier keeps at most one permit and takes it back from a waiter that is dropped.
- In the manager a hand-over may fail at any time, an initialization requested while running returns to its caller before the loop goes on, the loop may go on after it reaped a failed task, and dropping the manager itself is not modelled; these add behaviours or leave out ends of runs, and the safety theorems hold for all of them.
- Errors are named after the worker or task that failed, without their text; the errors that the run loop and an initialization return are not modelled.
- Fairness: shutdown is shown never to be stuck and to approach its end with every step; that enabled steps are eventually taken is up to the runtime.
- Randomness of the subnet search: ranges and addresses drawn are parameters.
