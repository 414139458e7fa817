# Dockerwall, verified

Dockerwall confines containers to the destinations their policy names. A host-root command writes iptables rules that
deny by default, and a daemon proxies DNS: an answer to a query which a policy's patterns allow adds its addresses to
the policy's kernel set, and only members of that set get through the firewall.

This project models that logic and proves, over all inputs and all runs, what it is for. Rule chains are ordered lists
walked by a first-match evaluator with jumps; foreign rules are arbitrary. The daemon, the kernel's sets and the
delayed kernel writes are a step system with every interleaving. Code that updates state in place is a class or a
method with loops, each proved equal to a function of the old state; the laws are lemmas about those functions.

| file | part of Dockerwall |
|---|---|
| `Text`, `Bits`, `Addresses` | string splitting and joining, decimal numbers, bit operations, addresses and blocks |
| `Firewall`, `Iptables`, `HostRules` | packet evaluation, command lines and what they denote, the delete-then-insert step |
| `OutputPolicy`, `Rootless`, `DnsDelivery`, `RootlessInstall` | rootless Podman policies |
| `Docker` | Docker networks |
| `CommandLines` | every iptables command line, word by word |
| `Fnv`, `SourceAllocator`, `SourceRun` | deterministic source addresses |
| `DomainMatcher`, `Control`, `AllowSet`, `Ipset` | patterns, the control protocol, the allow set, the restore payload |
| `Handlers` | the daemon's procedures: control requests, recording a resolve, inspecting a response |
| `AllowRun`, `Agreement`, `WriteLog`, `SinceCreate`, `Races` | the daemon and the kernel as a step system, and the runs in which they part ways |
| `EndToEnd` | both halves together |
| `Stats`, `Registry`, `Report` | statistics |
| `Permits` | admission control of the DNS proxy |

`EndToEnd.DefaultDeny` is the headline: after any run of preparations, control requests, answers and kernel writes, a
new non-DNS IPv4 packet from a rootless policy's source is dropped unless its destination came from an answer to a
query that the policy's patterns allowed when the answer was applied.

## Findings

Where the code does not do what one would expect, it is modelled as it is, with the exact condition.

- Preparing a policy for a daemon on port 53 after an earlier preparation for another port leaves the old redirect in
  force, so its DNS no longer arrives (`DnsDelivery.DnsDeliveredIff`, `DnsDelivery.StaleRedirectBreaksPort53`).
- Kernel writes happen after the state lock is released. If two overtake each other the kernel keeps the older
  snapshot, and answering the lost address again does not repair it (`Races.OvertakenWriteLosesAddress`; exactly when
  kernel and state agree: `Agreement.AgreementIff`).
- Each write is a process of its own, so the lines of two can mix. Both then succeed and the set may end with a value
  the state never held (`Races.MixedWritesLeaveNewValue`). A write that nobody disturbs does not have this problem
  (`WriteLog.UndisturbedWriteLeavesHeldValue`); exactly when a completed write leaves its snapshot:
  `WriteLog.CompletedWriteIff`.
- CREATE empties the state but not the kernel. Sets that rules still use cannot be destroyed and `create -exist` keeps
  their members, so after every new CREATE of a used policy the old addresses stay allowed, whatever the new patterns,
  until the first write of the new epoch (`Agreement.ReCreateKeepsMembers`, `Races.StaleAddressSurvivesCreate`; exactly
  when: `SinceCreate.SinceCreateIff`, `EndToEnd.StaleDestinationIff`). REMOVE leaves them in place too
  (`Races.RemovedPolicyKeepsMembers`).
- The README of the repository promises that no container can affect the DNS of others. A global permit is taken before
  the per-origin wait, so one origin can hold all of them (`Permits.AdmissionIff`, `Permits.OneOriginStarvesOthers`).
- The 32-bit network id wraps; the registry's two maps stay inverse to each other exactly up to 2^32 different subnets
  (`Registry.RegistryRunIff`, with a run that exceeds them in `Registry.TooManySubnets`). The subnets the command line
  generates never reach that number (`Registry.GeneratedSubnetsStayInStep`).

## Model

| member | source | states |
|---|---|---|
| `EndToEnd.DefaultDeny` | src/helper.rs:899-937 | in every run of preparations, edits of other chains, control requests, answers and delayed kernel writes, a new non-DNS IPv4 packet from a prepared source is accepted exactly when its destination is in the policy's kernel set, and then an A record of some response carried it whose queried names include one whose labels match those of a pattern the policy held at that moment |
| `EndToEnd.AllowedAddressGetsThrough` | src/proxy.rs:216-245 | conversely, for every policy name, pattern list, matching domain, address, interface and port there is such a run after which packets from the policy's source to that address are accepted |
| `EndToEnd.StaleDestinationIff` | src/control.rs:84-91 | in the same runs, a packet is accepted to an address not allowed since the policy's latest CREATE exactly when the kernel's set holds the address and the daemon's does not |
| `EndToEnd.DefaultDeny6` | src/helper.rs:968-1080 | the IPv6 side: over any prior chains, any preparations and any daemon run, a new IPv6 packet of a prepared source other than neighbour discovery is accepted exactly to members of the policy's IPv6 set, all of which came from allowed answers |
| `EndToEnd.SourcesStaySeparate` | src/helper.rs:815-831 | in the same runs no two policies share a source and every source is a managed address |
| `Firewall.WalkSeesOnlyLive` | src/helper.rs:1143-1150 | rules that do not match a packet can come and go anywhere, jumps included, without changing its verdict at any depth |
| `Firewall.BlockDecides` | src/helper.rs:899-937 | deciding rules, one of which matches, settle a packet whatever follows them |
| `Firewall.WalkIgnoresChain` | src/helper.rs:941-961 | a chain nothing jumps into has no influence on any other chain's verdict |
| `Firewall.ParsingReadsV4Blocks` | src/stats.rs:225-251 | reading rule blocks with the program's own CIDR parser satisfies the reading assumption of the firewall theorems |
| `Iptables.RuleRoundTrip` | src/helper.rs:815-961 | every rule the program writes is read back from its arguments unchanged |
| `Iptables.InsertArgsDenote` | src/helper.rs:815-831 | an insertion's argument list, with or without table and position, denotes insertion of that rule at that place |
| `Iptables.DeleteArgs` | src/helper.rs:1167-1183 | the in-place edit computes the deletion form of any argument list |
| `Iptables.DeleteFormDenotes` | src/helper.rs:1167-1183 | for every insertion iptables understands, the deletion form denotes deleting the same rule from the same chain and table |
| `HostRules.Host.RunCommand` | src/helper.rs:1205-1218 | one command: success exactly when iptables accepts it, and the tables change only then |
| `HostRules.RemoveRuleAll` | src/helper.rs:1152-1165 | ends, with every copy of the rule gone and all else in order, for a missing chain or an unreadable command too |
| `HostRules.EnsureRulePresent` | src/helper.rs:1143-1150 | copies cleared, then inserted; on failure only the copies are gone |
| `HostRules.EnsureRule` | src/helper.rs:1143-1150 | fails exactly when the chain or jump target is missing or the position too large |
| `HostRules.ExactlyOneCopy` | src/helper.rs:1143-1165 | the result has exactly one copy, at the requested place, and the other rules in their old order |
| `HostRules.EnsureChain` | src/helper.rs:1125-1141 | the chain exists afterwards with its old rules, or empty |
| `HostRules.BlockStep` | src/helper.rs:832-937 | ensuring the next rule at the next position keeps the earlier ones on top in order; the position is always valid |
| `HostRules.EnsureBlock` | src/helper.rs:672-748 | a block ensured rule by rule ends up on top in order over the other rules; without the chain it fails and changes nothing |
| `OutputPolicy.InstallInvisible` | src/helper.rs:815-937 | installing a policy changes no rule that a packet of another source can match |
| `OutputPolicy.InstallDecides` | src/helper.rs:815-937 | a packet of the policy's source gets the verdict of the policy's block alone; stale rules are shadowed |
| `OutputPolicy.RunDecides` | src/helper.rs:815-937 | over any sequence of installations the latest policy of the packet's source decides, and packets of no policy keep their verdict |
| `OutputPolicy.InstallRules` | src/helper.rs:815-937 | the command sequence cannot fail on a host with an OUTPUT chain and has exactly the effect of `Install` |
| `Rootless.BlockMeaning` | src/helper.rs:832-937 | the five rules accept replies, DNS to the daemon and members of the set, and drop everything else of the source |
| `Rootless.RootlessRun` | src/helper.rs:800-937 | over any prior chains and any run of preparations: default deny for each prepared source by its latest preparation, unchanged verdict for every other source |
| `RootlessInstall.RootlessRun6` | src/helper.rs:968-1080 | the same for IPv6, with neighbour discovery let through |
| `RootlessInstall.EnsureDnsRedirects` | src/helper.rs:1082-1123 | the four redirects, each at position 1, without failure |
| `RootlessInstall.EnsureNatRules` | src/helper.rs:938-961 | redirects unless the port is 53, then masquerading, with exactly the effect of `InstallNat` |
| `RootlessInstall.EnsureRootlessPodmanRules` | src/helper.rs:800-966 | all rules of a policy on both stacks, every position valid, nothing else touched |
| `DnsDelivery.NatRun` | src/helper.rs:1082-1123 | over any run, in OUTPUT and in PREROUTING: a UDP or TCP packet of the source to 198.18.0.1:53 is redirected to the port of its latest redirecting preparation, every other packet keeps its nat verdict |
| `DnsDelivery.MasqueradeRun` | src/helper.rs:941-961 | over any run and any prior nat table: a packet with the source of some prepared plan that leaves by that plan's interface is masqueraded in POSTROUTING, every other packet keeps its verdict there |
| `DnsDelivery.DnsDelivered` | src/helper.rs:810-898 | for every port but 53, queries of a prepared source are rewritten to loopback at the daemon's port and accepted, whatever both tables held |
| `DnsDelivery.DnsDeliveredIff` | src/helper.rs:938-940 | where the original nat rules let queries pass: delivery holds exactly when the latest preparation uses another port than 53 or none of that source ever did |
| `DnsDelivery.StaleRedirectBreaksPort53` | src/helper.rs:938-940 | a policy prepared for another port and then for 53 loses its DNS |
| `Docker.GatewayInsideSubnet` | src/helper.rs:514-529 | every gateway lies in its own /28 and is neither its first nor its last address |
| `Docker.PlanForMeaning` | src/helper.rs:503-529 | subnet and gateway are numbered by the hash modulo 3584, 14 gateways in each of 256 subnets; name and port are the given ones |
| `Docker.PlanTexts` | src/helper.rs:522-527 | they are written 172.30.x.0/28 and 172.30.x.y |
| `Docker.DockerRun` | src/helper.rs:672-748 | over any run of preparations the latest network holding the source decides: replies, set members and 172.16.0.0/12 pass, all else is dropped; new packets of other sources keep their verdict |
| `Docker.DisjointNetworksKeepMeaning` | src/helper.rs:672-748 | a network whose source no other network holds keeps its meaning through all later preparations |
| `Docker.DockerDnsRun` | src/helper.rs:749-797 | a UDP or TCP packet of a network to port 53, of whatever server, goes to the gateway and port of the latest preparation holding its source; every other packet keeps its verdict |
| `Docker.EnsureDockerIptablesRules` | src/helper.rs:668-798 | all rules with exactly the effect of `Prepare` and `PrepareNat`; fails without any change exactly when DOCKER-USER is missing |
| `CommandLines.HookCommand` | src/helper.rs:815-831 | the exact command line of the hook |
| `CommandLines.EstablishedCommand` | src/helper.rs:832-852 | the exact command line of the rule for replies |
| `CommandLines.DnsCommand` | src/helper.rs:853-898 | the exact command lines of the DNS rules |
| `CommandLines.AllowCommand` | src/helper.rs:899-920 | the exact command line of the rule for the set |
| `CommandLines.DropCommand` | src/helper.rs:921-937 | the exact command line of the dropping rule |
| `CommandLines.NeighborCommand` | src/helper.rs:1012-1039 | the exact command lines of the neighbour discovery rules |
| `CommandLines.BlockMembers` | src/helper.rs:810-814 | which rules, sets and DNS addresses, written out, make up the IPv4 and the IPv6 block |
| `CommandLines.RedirectCommand` | src/helper.rs:1088-1121 | the exact command line of each redirect |
| `CommandLines.MasqueradeCommand` | src/helper.rs:941-961 | the exact command line of the masquerading rule |
| `CommandLines.DockerCommands` | src/helper.rs:672-748 | the exact command lines of the four rules of a Docker network |
| `CommandLines.DnatCommand` | src/helper.rs:749-797 | the exact command lines of its two DNS rules |
| `Fnv.MultiplyIsInvertible` | src/helper.rs:333-341 | multiplication by the FNV prime modulo 2^64 can be undone |
| `Fnv.OneByteApart` | src/helper.rs:472-479 | equally long names that differ in one byte have different hashes |
| `Fnv.PublishedValues` | src/helper.rs:335-340 | the hash has the published FNV-1a values of the empty text and of the letter a |
| `Fnv.ProbeIsPermutation` | src/helper.rs:333-344 | each managed address is reached by exactly one of the 131069 attempts, without 32-bit overflow |
| `Fnv.ProbeCoversRange` | src/helper.rs:286-310 | something holds of all attempts exactly when it holds of all managed addresses |
| `Fnv.CandidateKeepsPrefix` | src/helper.rs:472-481 | every IPv6 candidate is a 128-bit address with the interface's upper 64 bits |
| `Fnv.CandidatesDiffer` | src/helper.rs:376-377 | candidates of one name for different attempts differ |
| `Fnv.CandidatesOfCloseNamesDiffer` | src/helper.rs:472-481 | candidates of names one byte apart differ for the same attempt |
| `SourceAllocator.AllocateSourceIp` | src/helper.rs:265-311 | the loops find the policy's own address if a rule names it, otherwise the first free one of the probe |
| `SourceAllocator.OwnAddressIff` | src/helper.rs:277-284 | a policy's own address is that of the first line with its marker and a readable source, and there is none exactly when there is no such line |
| `SourceAllocator.FirstFreeIsFree` | src/helper.rs:286-308 | the probe returns the managed address of the first attempt that no line contains as a /32 and the host does not hold |
| `SourceAllocator.FailsOnlyWhenFull` | src/helper.rs:286-310 | allocation fails exactly when no line names the policy and every address from 198.18.0.2 to 198.19.255.254 is listed or held |
| `SourceAllocator.Utf8RoundTrip` | src/helper.rs:335-336 | the hashed bytes are the name's UTF-8 form: reading them (section 3 of RFC 3629) gives back the name |
| `SourceAllocator.CloseNamesStayApart` | src/helper.rs:472-481 | names that differ in one ASCII character have different hashes and IPv6 candidates |
| `SourceAllocator.MarkerIdentifiesName` | src/helper.rs:277-284 | among clean names, a policy's marker occurs only in its own hook line |
| `SourceRun.HookSourceRead` | src/helper.rs:313-321 | the source written in a hook rule is read back from its listing line |
| `SourceRun.RePreparingIsStable` | src/helper.rs:279-285 | preparing a policy again returns its address, whatever the host reports as assigned |
| `SourceRun.SourcesStayDistinct` | src/helper.rs:275-321 | in every run the name-to-source map is injective, managed, and never gives 198.18.0.1 |
| `SourceRun.GivenSourceIsKept` | src/helper.rs:275-285 | a source once given stays with its policy through any later preparations |
| `Addresses.V4RoundTrip` | src/helper.rs:313-321 | parsing a printed IPv4 address gives it back |
| `Addresses.ParseV4Iff` | src/helper.rs:317-317 | a text is read as an IPv4 address exactly when it is that address as printed |
| `Addresses.U32Texts` | src/helper.rs:1174-1178 | decimal numbers below 2^32, with or without a plus sign, are read as positions, larger ones are not |
| `Addresses.UnmappedMeaning` | src/stats.rs:226-229 | exactly ::ffff:a.b.c.d stands for the IPv4 address a.b.c.d, everything else for itself |
| `Addresses.NetworkMeaning` | src/stats.rs:238-263 | a network holds exactly the addresses of its own family with the same leading bits, for every prefix length of both families |
| `Addresses.MaskIsQuotient` | src/stats.rs:238-262 | masked comparison is equality of quotients by 2^(width - min(prefix, width)), for every width and prefix length |
| `Addresses.CidrTextMeaning` | src/stats.rs:225-251 | the text of an IPv4 block denotes exactly the addresses with the same leading bits |
| `Addresses.CidrTextInjective` | src/helper.rs:99-99 | different blocks have different texts |
| `DomainMatcher.MatcherIsLabelLevel` | src/state.rs:55-68 | the text matcher equals matching on the dot-separated labels of both names as written, trailing dots aside: labels are compared up to ASCII case, a leading `*` label stands for any number of labels, otherwise all labels must be the same |
| `DomainMatcher.NormalizeEqualIff` | src/state.rs:66-68 | two names are the same to the matcher exactly when, without trailing dots, they differ in ASCII case alone |
| `DomainMatcher.NormalizeMeaning` | src/state.rs:66-68 | a normalized name is the name without trailing dots up to ASCII case, with no upper-case letter left |
| `DomainMatcher.WildcardSuffixNeverEmpty` | src/state.rs:59-60 | after normalization nothing can follow `*.` but a non-empty name |
| `DomainMatcher.MatchIgnoresCaseAndTrailingDots` | src/state.rs:66-68 | ASCII case and trailing dots of either argument never change the answer (section 2.3.3 of RFC 1035) |
| `DomainMatcher.NormalizeIdempotent` | src/state.rs:66-68 | normalizing twice is normalizing once |
| `Control.CreateRoundTrip` | src/control.rs:62-82 | parsing the printed CREATE line returns the name, the subnet and the flattened patterns |
| `Control.FlattenIdentity` | src/control.rs:77-82 | flattening leaves clean pattern lists alone |
| `Control.RemoveRoundTrip` | src/manage.rs:12-17 | parsing the printed REMOVE line returns the name |
| `Control.CreateReads` | src/control.rs:62-82 | every CREATE line with two tabs or more: trimmed name and subnet, the rest split, trimmed and filtered; a blank name is an error |
| `Control.ShortCreateFails` | src/control.rs:64-67 | a CREATE line with fewer tabs fails |
| `Control.RemoveReads` | src/control.rs:97-102 | a REMOVE line names its trimmed rest unless that is blank |
| `Control.OtherLinesRead` | src/control.rs:51-61 | STATS and INFO are recognized, and every line that begins in no known way is unknown |
| `Control.CleanPiecesMembers` | src/control.rs:77-82 | a piece is kept exactly when something is left of it after trimming |
| `Text.TrimMeaning` | src/control.rs:64-65 | trimming takes away white space in front and behind and leaves none at either end |
| `AllowSet.CollectResolvedIps` | src/proxy.rs:247-259 | exactly the addresses of the A and AAAA answers, in order |
| `AllowSet.QueryNamesKeepMatches` | src/proxy.rs:224-225 | normalizing the queried names before matching changes nothing for any policy |
| `AllowSet.ApplyMessageMeaning` | src/state.rs:22-41 | a policy gains exactly the addresses of the answer records if the labels of some queried name match those of some of its patterns, and is left as it was otherwise |
| `AllowSet.ChangedByMeaning` | src/state.rs:35-41 | reported is exactly each policy whose patterns match and to which some answer record brings an address it did not have |
| `AllowSet.PolicyTable.ApplyResolvedIps` | src/state.rs:14-44 | in whatever order policies are visited, each that accepts a queried name gains all answers, and each that grew is reported once with its new set |
| `AllowSet.ApplyGrowsByAnswers` | src/state.rs:35-36 | sets never shrink and gain only answers to a query their patterns allow |
| `Handlers.Daemon.HandleControl` | src/control.rs:49-112 | a control line changes policies and registry as its request does, the policies by that step of a run |
| `Handlers.SentCreateTakesEffect` | src/control.rs:62-94 | a client's CREATE line leaves the policy with exactly the flattened patterns and no address, and every other policy as it was |
| `Handlers.SentCreateRegisters` | src/control.rs:73-75 | after a sent CREATE with a subnet, that subnet has an id whose entry is this name and subnet, its old id if it had one; every other subnet keeps its id and every other id its entry; a new subnet gets a new id while there are any; without a subnet nothing is registered |
| `Handlers.OtherRequestsRegisterNothing` | src/control.rs:51-61 | no other request changes the registry, and none but CREATE and REMOVE the policies |
| `Handlers.SentRemoveTakesEffect` | src/control.rs:97-107 | a client's REMOVE line takes the policy away, leaves every other, and leaves the registry alone |
| `Handlers.Daemon.RecordResolve` | src/stats.rs:61-106 | the recorded event names a registered network whose subnet holds the origin, none exactly when there is no such subnet, with the verdict of that network's policy on the labels of the domain |
| `Handlers.Daemon.InspectAndUpdateState` | src/proxy.rs:216-245 | an undecodable response changes nothing; otherwise every query is recorded under its normalized name and the answers have exactly the effect of one step of the run, with one snapshot per policy that grew |
| `Handlers.InspectionsAreLegal` | src/stats.rs:61-83 | what inspections record continues a legal run of the statistics |
| `Ipset.BuildPayload` | src/ipset.rs:22-29 | the loop grows the text of two flushes and one addition per address in the set of its family |
| `Ipset.FlushTexts` | src/ipset.rs:22-22 | how the text begins, written out |
| `Ipset.AddText` | src/ipset.rs:28-28 | the text of an addition, written out |
| `Ipset.PayloadReadsBack` | src/ipset.rs:22-29 | the payload's text is read line by line as exactly those commands, for every set name without blanks and newlines |
| `Ipset.RestoreFillsPair` | src/ipset.rs:22-29 | a complete restore leaves the pair of sets equal to the IPv4 and IPv6 parts of the addresses, whatever they held, and touches no other set |
| `Ipset.Ipv6NameInjective` | src/ipset.rs:11-13 | the names of IPv6 sets determine the policy and differ from its own |
| `AllowRun.ChangesAreSnapshots` | src/state.rs:39-43 | what the state update reports is what a step of the system hands to the kernel writers |
| `AllowRun.Provenance` | src/proxy.rs:216-245 | in every run of control requests, whole DNS responses and kernel writes interleaved line by line and cut short anywhere, each address of a policy, a pending write or a kernel set was in an answer record of a response to a query whose labels match those of a pattern the policy held at that moment |
| `AllowRun.KernelProvenanceV4` | src/ipset.rs:15-29 | every IPv4 address in the set named after a policy came from that policy |
| `AllowRun.KernelProvenanceV6` | src/ipset.rs:11-29 | the same for its IPv6 set |
| `Agreement.WriteLeavesHeldValue` | src/proxy.rs:233-242 | in every run a write done in one go leaves the pair equal to a value the state held for the policy at some moment |
| `WriteLog.KernelHoldsSurvivors` | src/ipset.rs:22-45 | under every interleaving of lines a set holds exactly the addresses added since its last flush, and what it held before if it was never flushed |
| `WriteLog.CompletedWriteIff` | src/ipset.rs:22-45 | a write that executed all its lines, interleaved with any others, leaves the pair equal to its snapshot exactly when the additions not flushed away afterwards, by whomever, are those of its snapshot |
| `WriteLog.UndisturbedWriteLeavesHeldValue` | src/proxy.rs:238-240 | in every run a write between whose first and last line nobody else executes one on the pair leaves it equal to a value the state held |
| `Races.MixedWritesLeaveNewValue` | src/proxy.rs:238-240 | a run in which two writes execute all their lines and the set ends with a value the state never held |
| `Agreement.CreateBegins` | src/control.rs:84-91 | in every run every CREATE of a policy whose sets exist begins an epoch, whatever they hold and whatever earlier writes are under way |
| `Agreement.EpochTracked` | src/state.rs:35-43 | within an epoch snapshots strictly grow in the order taken, the state holds the newest, and the kernel what the write completed last carried, of this epoch or an earlier one, or else what it held at the start |
| `Agreement.AgreementIff` | src/proxy.rs:233-242 | kernel and state agree exactly when the last completed write is this epoch's newest, or an earlier epoch's with the same addresses, or there was none and the sets began with those addresses; before anything is learnt or written, exactly when they began empty |
| `Agreement.InOrderWritesAgree` | src/proxy.rs:238-240 | once something was learnt, the newest write was not lost, none is left, and all completed in the order taken, they agree |
| `Agreement.ReCreateKeepsMembers` | src/helper.rs:542-554 | a CREATE over kept sets leaves the kernel as it was and the state empty, so they agree exactly if the sets were empty |
| `Races.OvertakenWriteLosesAddress` | src/proxy.rs:238-240 | a run in which two writes in the opposite order lose the later address, with nothing pending and no new snapshot when it is answered again |
| `SinceCreate.StateIsSinceCreate` | src/state.rs:14-44 | in every run the state holds for a policy exactly the addresses answered since its latest CREATE to queries whose labels match its patterns |
| `SinceCreate.SinceCreateIff` | src/proxy.rs:233-242 | in every epoch of every run all kernel members were allowed since the CREATE exactly when the last completed write is of this epoch, or what the kernel holds from before has been learnt again |
| `Races.StaleAddressSurvivesCreate` | src/helper.rs:542-554 | a run in which a policy is created again with any patterns and an address learnt before stays in the kernel though not allowed since |
| `Races.RemovedPolicyKeepsMembers` | src/control.rs:104-105 | REMOVE leaves the kernel as it was, and nothing there counts as allowed since |
| `Stats.Store.RecordResolve` | src/stats.rs:85-106 | eviction, cap and counting as a function of the old map |
| `Stats.RecordedKey` | src/stats.rs:91-105 | the recorded key counts one more than before, or one if it was absent or too old, with the data of the event; it is left out exactly when it is not among 1,000,000 or more fresh entries, and then the retained map stays as it is |
| `Stats.OtherKeysAfterRecord` | src/stats.rs:87-89 | every other key is kept as it was or evicted, by its own age alone, also when the clock went back |
| `Stats.RunLengthIsLongest` | src/stats.rs:85-105 | a suffix of events has all gaps below ttl exactly when it is no longer than the run length |
| `Stats.StatsRefineLog` | src/stats.rs:85-105 | with a nondecreasing clock and room for new keys the map holds exactly the keys seen within ttl, each with the run length and last data of its events, whatever other keys evict |
| `Stats.FewKeysFit` | src/stats.rs:92-94 | a log with at most 1,000,000 different keys never reaches the cap |
| `Stats.StatsRefineSmallLog` | src/stats.rs:85-105 | so for every log with at most 1,000,000 different keys and a nondecreasing clock the map is the summary of the log |
| `Stats.JustRecordedCount` | src/stats.rs:93-105 | in every such log the count of a just-recorded key is the length of the longest suffix of its events whose consecutive gaps are all below ttl |
| `Registry.NetworkRegistry.RegisterNetwork` | src/stats.rs:46-59 | both maps and the wrapping counter as a function of the old ones |
| `Registry.InverseMeaning` | src/stats.rs:46-59 | maps inverse to each other mean that ids are unique and exactly the registered networks |
| `Registry.StepKeptIff` | src/stats.rs:46-59 | a registration keeps the maps in step exactly when the subnet is known or fewer than 2^32 are |
| `Registry.RegistryRunIff` | src/stats.rs:46-59 | over every run of registrations the maps are inverse to each other exactly when at most 2^32 different subnets were registered |
| `Registry.TooManySubnets` | src/stats.rs:56-56 | a run of 2^32 + 1 registrations after which they are not |
| `Registry.GeneratedSubnetsStayInStep` | src/helper.rs:514-529 | through any number of registrations by the command line at most 256 + 131069 subnets are known and the maps stay in step |
| `Registry.FindNetwork` | src/stats.rs:64-77 | in whatever order the map is searched, the id of a subnet holding the origin is found if there is one |
| `Registry.AttributionIsUnique` | src/stats.rs:64-77 | over every run of registrations the program makes, at most one subnet holds any origin, IPv4-mapped ones included (section 2.5.5.2 of RFC 4291) |
| `Report.GroupStats` | src/stats.rs:115-119 | every entry lands in the list of its network and origin, once |
| `Report.GetStatsReport` | src/stats.rs:121-197 | networks by id then unknown ones, origins in address order, each entry of a registered or unknown network once |
| `Report.RankIsIpOrder` | src/stats.rs:133-133 | origins are ordered as addresses: IPv4 first, then by value |
| `Report.EveryEntryIsListed` | src/stats.rs:108-197 | in every run of registrations and resolves, however long, each entry is shown by exactly one line, with its domain, origin, network, count, time and verdict, and each line shows an entry |
| `Permits.Proxy.ReceiveRequest` | src/proxy.rs:56-71 | a request gets a permit exactly when its origin is local and a permit is free |
| `Permits.Proxy.SpawnTask` | src/proxy.rs:74-83 | the origin's semaphore is found or created and the permit passes to the task |
| `Permits.PermitsConserved` | src/proxy.rs:63-98 | in every run free, in-hand and held global permits add up to 10000, running tasks and free permits of each origin to 32; with no task left all are free |
| `Permits.AdmissionIff` | src/proxy.rs:56-71 | in every run, between turns of the loop, a request of any origin is admitted exactly when the origin is local and fewer than 10000 tasks are live |
| `Permits.AcquireIff` | src/proxy.rs:80-82 | in every run a waiting task can go on exactly when fewer than 32 tasks of its origin have |
| `Permits.OneOriginStarvesOthers` | src/proxy.rs:65-83 | every local origin has a run after which all requests of all other origins are dropped |
| `Permits.LocalRanges` | src/proxy.rs:188-200 | the served origins are exactly nine address ranges, written out; every other origin is dropped |
| `Permits.ManagedOriginsAreLocal` | src/proxy.rs:188-200 | rootless sources and Docker network addresses are among them |

## Left out

- Agreement.EpochTracked: each write of the policy itself is one step, done or lost as a whole; `WriteLog` says what
  writes whose lines mix leave, and when a write by lines amounts to one step.
- Agreement.WriteLeavesHeldValue: assumes the policy's pair of sets exists; without it the restore is rejected.
- Handlers.Daemon.InspectAndUpdateState: runs through without other tasks in between; that they do interleave is the
  matter of the step system, where the state update is one step. The text of replies to control requests is not
  modelled.
- SourceRun.SourcesStayDistinct: names contain no colon and no ASCII whitespace and nobody else writes hook rules, as
  markers could otherwise be confused; the listing is taken to print a rule as its own arguments, and the default
  policy as ACCEPT.
- Stats.StatsRefineLog: says nothing of logs that reach the cap of a million entries, of which `RecordedKey` gives each
  single step, and takes counts as unbounded integers.
- Process spawning, sockets, timeouts and DNS wire parsing: a response is a value with queries and answers.
- Binary trust and host-root checks, daemon start-up, command-line parsing: single checks of the operating system.
- Commands that fail for passing reasons such as a held lock, and the window between a deletion and its insertion:
  verdicts are stated for completed preparations.
- The swap and rename fallback of set creation, and Docker's own network commands: preparation leaves each set as it
  was or new and empty.
- The search loop for an IPv6 source and the text of IPv6 addresses: the candidate arithmetic is modelled, the printing
  and reading of IPv6 text are parameters.
- The hash behind Docker subnets, which is an arbitrary number here.
- Connection tracking sends only the first packet of a connection through the nat table; the nat theorems speak about
  that packet. The nat table's built-in chains are taken to be entered by no jump, which iptables does not allow.
- Built-in chains are taken to exist; only DOCKER-USER, which Docker creates, may be missing.
- Policy names of which one is another plus `-v6`: assumed not to occur in `Agreement` alone.
- The report's text layout and duration format: the report is a sequence of records.
