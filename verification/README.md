# Verified model of the Xray router, codecs and caches

A Dafny model of the parts of Xray-core where a wrong step is hard to see: the checks that keep balancers and loopbacks
free of loops, the scheduler that shares picks by weight, the byte-stream codecs, the caches and indexes that must agree
with something simpler, and the two ways of asking DNS servers. `dafny verify dfyconfig.toml` checks everything.

What the modules are about:

- **Graphs of tags.** `Digraphs`, `StrongComponents` and `ShortestCycles` are the graph algorithms: Tarjan's components
  are exactly the classes of mutual reachability, and the breadth-first search finds a shortest cycle through the
  smallest tag of each class. `BalancerGraph` accepts a map of balancers exactly when it may be published.
  `FallbackChain` is the walk that resolves a pick, `MemberStatus` the memoised status of a balancer and `StatusMeaning`
  what it says of the outbounds below, `LoopbackLoops` the over-approximation of routing that refuses loops through
  loopbacks and `LoopbackExact` when it is exact, `ObservedMembers` the check that members are observed,
  `PublishedRouting` the protocol that publishes rules and maps, `RoutingRuns` whole runs of it, `OverrideRuns` what an
  override is worth in them, and `FunctionalCycles` the cycles of a map that sends each tag to one tag.
- **Weighted picks.** `WeightedPool` decides which nodes are in the pool, `WeightedRoundRobin` shares the picks.
- **Streams.** `Vision` and `VisionConnection` are XTLS Vision padding from a writer to an unpadder that gets the bytes
  in any pieces, `VisionWrites` says which blocks a write becomes, `VisionReading` is the reader that decides what to
  unpad, and `VisionCuts` says which cuts of a stream lead it astray. `AeadStream` is AEAD chunk framing over any
  transport, `AeadSuites` what it runs on and `AeadWire` what the proxies put on the wire. `GeoSite` is the decoder that
  reads a geosite entry through a window, `Protobuf` what it runs on and `GeoSiteFormat` the file format that it reads
  back. `Buffers` is the multi-buffer layer under them.
- **Caches and indexes.** `DnsCache` is the record cache whose map is migrated while it is updated, `DomainTraffic` the
  bucketed traffic history with its cursor and cap and `DomainTotals` what its counts add up to, `IpMatcher`,
  `MultiIpMatcher` and `MultiIpFilter` prefix matching by block, `IpNumbers` prefixes as numbers, and `CidrLists` what
  that says of lists of CIDRs.
- **DNS queries.** `DnsQuery` filters what a server answers, races groups of servers and compares that with asking them in
  turn.

Randomness, clocks, observations, strategy answers, arrival orders and transports are parameters, so that every
statement is for all of them. A Go map is a Dafny map or set; a loop over one takes its keys in any order. Locks are not
modelled: each locked section is one step. Where an object changes in place it is a class whose methods are proved
against functions of its old state. Floating-point weights and ratios are reals.

Some statements one might expect do not hold of the code, and each has an input at which it fails and an exact condition:

- `LoopbackLoops.EmptyTagEscapes`: a rule whose only condition is the empty inbound tag ends the loop check's walk but
  never matches, so a default outbound that feeds the empty tag can loop unseen (`EmptyTagExample`; `EndingRuleMatches`
  says exactly when check and matcher agree).
- `LoopbackExact.ExactWhen`: the loop check may refuse a routing that cannot loop (`PinnedExample`: an override hides the
  candidate that would). With tags that tell balancers from outbounds it is right exactly if its own trips have no cycle
  or those have one that take every override at its word, and always without overrides (`AcceptedExactly`).
- `VisionWrites.DirectAgrees`: a write with application data and XTLS makes the sender copy directly, and its last block
  says Direct to the receiver exactly if the padding does not end early with it; it never does once TLS 1.2 was seen.
- `AeadWire.ChunkNonceShared`: two VMess chunks have the same data nonce exactly if their numbers differ by a multiple of
  65536.
- `DomainTotals.IdentitiesMeet`: the traffic of two users can be counted together exactly if one name is the other, a NUL
  and more.
- `Vision.PadsExactly`: the padding seeds are configuration, and the padding length stays non-negative for every content
  and draw exactly if `SafeSeeds` holds of them; the default seeds are safe, and `SomeSeeds` has some that are not.
- `Vision.RecoveredAfter`: after a first piece of at least 21 bytes an unpadder recovers a stream if and only if no piece
  of its tail looks like a start (`TailExample`); `Vision.RecoveredIff` is about the first piece.
- `VisionCuts.RecoversExactly`: the reader on top of it recovers a stream if and only if no read begins inside the header
  of the last block, behind End or Direct and before a size byte above zero, where End does no harm while packets are
  filtered. `CutExample` is a family of streams and reads at which it fails.
- `WeightedPool.PoolIsIntended`: a tolerance whose sum with the fastest round trip leaves the int64 range puts every
  candidate into the pool; that is the intended pool exactly if all of them are healthy (`OverflowExample`).
- `DnsCache.MissesExactly`: a lookup during a migration misses an answer that the cache holds exactly if its record is not
  flushed and the domain was updated since in the other family only (`HiddenExample`).
- `AeadStream.ReceiveAll`: a transport that breaks off right behind a size field is taken for one that has ended
  (`CutBehindSize`); `CleanCut` says for every cut whether it is reported.
- `MultiIpFilter.OnBothSides` and `OnNeitherSide`: filtering by several prefix sets can put one IP on both sides or on
  neither, and exactly when (`BothSidesExample`, `NeitherSideExample`); `MultiIpFilter.FilterIPs` has no result exactly if
  more IPs are matched than were given (`NoResultExample`).
- `MultiIpMatcher.MatchesIsNotEach`: that one matcher matches every IP is more than every IP having a matcher.

## Model

| member | source | states |
|---|---|---|
| StrongComponents.Components | app/router/fallback_chain.go:72-111 | Tarjan's loop returns exactly the strongly connected components of the graph, disjoint, sorted, every tag covered once |
| StrongComponents.Tarjan.Visit | app/router/fallback_chain.go:78-104 | one visit keeps the index, stack and low-link invariants, completes every component below it and bounds the edges that leave the stack |
| StrongComponents.Tarjan.PopTo | app/router/fallback_chain.go:91-104 | what is popped is exactly the stack from the root up, sorted and each tag once, and what was below stays |
| StrongComponents.CutIsComponent | app/router/loops.go:176-215 | the stack above a vertex whose low link is its own index is a class of mutual reachability |
| ShortestCycles.ShortestCycle | app/router/fallback_chain.go:113-146 | the breadth-first search gives a cycle through the component's first tag with as few edges as any, and none only if there is none |
| ShortestCycles.Expand | app/router/loops.go:219-258 | one turn of the search keeps queue levels, parents and distances, and returns the edge that closes a cycle if there is one |
| ShortestCycles.TracePath | app/router/fallback_chain.go:131-137 | following the parents back gives a path of the search's distance from the start |
| ShortestCycles.NoShorterCycle | app/router/fallback_chain.go:115-146 | no cycle through the start is shorter than the first one the search meets |
| ShortestCycles.CyclesOf | app/router/loops.go:140-172 | the reported cycles are one shortest cycle per component that has one, and there are none exactly when the graph is acyclic |
| BalancerGraph.CheckBalancerGraph | app/router/fallback_chain.go:22-65 | no error exactly when every member is a balancer with a fallback tag, none is listed twice and the member and fallback edges have no cycle; an error explains what is wrong |
| BalancerGraph.CollectGraph | app/router/fallback_chain.go:23-47 | the collected edges are the member edges and the fallback edges to balancers, or the first member that is refused is named, balancers by tag and members in order |
| BalancerGraph.GraphSteps | app/router/fallback_chain.go:26-42 | a step of the graph is a member or a fallback tag that names a balancer |
| BalancerGraph.CycleKinds | app/router/fallback_chain.go:48-65 | the cycles of a fallback error run along fallback tags alone, and a member error has a cycle that leads to a member |
| StringOrder.LeExactly | app/router/fallback_chain.go:23-45 | the order that tags are sorted in is by the first character that differs, a prefix before what it is a prefix of |
| FallbackChain.ResolveChain | app/router/fallback_chain.go:184-201 | for everything the levels may read the walk goes where it says: at a level that can select to its override if that is set, else to the strategy's answer, and to the fallback exactly for want of both or of candidates, on to a balancer only if it is a member or the fallback; on a publishable map it ends within the number of balancers, visits none twice and never drops the route |
| FallbackChain.ChainIsWalk | app/router/fallback_chain.go:187-198 | the balancers of a chain are a walk along member and fallback edges |
| FallbackChain.ChainIsBounded | app/router/fallback_chain.go:184-201 | on a publishable map a chain repeats no balancer and has at most one level per balancer |
| FallbackChain.PickSteps | app/router/balancing.go:159-183 | what a level can hand on to is a member or its fallback tag |
| FallbackChain.ChainObeys | app/router/balancing.go:159-183 | every level of a chain goes where what it read says, and the answer of the last is the route |
| FallbackChain.OverrideEnds | app/router/balancing.go:169-175 | a level that can select and whose override is no member is the last, and the override is the route, whatever its strategy answers |
| MemberStatus.StatusReader.Status | app/router/member_status.go:97-146 | the memoised status of any tag equals the plain recursive definition, whose meaning `StatusMeaning` states, whatever was asked before, and no balancer is evaluated twice |
| MemberStatus.StatusReader.Level | app/router/member_status.go:107-140 | a level without override gives the least delay of its live candidates, unknown while one is unknown, else its fallback's status |
| MemberStatus.StatusReader.Fallback | app/router/member_status.go:148-164 | the status of a level whose candidates are down is that of the definition that the statements of `StatusMeaning` are about |
| MemberStatus.ScanStep | app/router/member_status.go:111-130 | one candidate more keeps the best the first of the fastest live ones, the dead one the first dead, and unknown whether one is unknown |
| MemberStatus.MemberObservation | app/router/member_status.go:54-72 | the statuses added for any list of members with one reader are those of the plain definition, each balancer evaluated once |
| StatusMeaning.AliveIsObserved | app/router/member_status.go:92-164 | on a publishable map the status of an alive balancer is that of an alive observed outbound, with its delay and measurement, reached from it through overrides, candidates and fallbacks |
| StatusMeaning.AliveLevel | app/router/member_status.go:109-135 | a level without override and with an alive candidate is alive, with the measurement of a candidate of the least delay |
| StatusMeaning.UnknownLevel | app/router/member_status.go:122-137 | without an alive candidate a level with one that is not seen is unknown |
| StatusMeaning.DownLevel | app/router/member_status.go:148-164 | a level all of whose candidates are seen down, with no fallback or a blackhole, is known, not alive and without delay |
| StatusMeaning.DownMeasured | app/router/member_status.go:158-163 | it keeps the measurement of its first candidate, the selected outbounds before the members |
| StatusMeaning.FallbackLevel | app/router/member_status.go:150-157 | with any other fallback it is known exactly if that is, with the same measurement |
| StatusMeaning.OverrideStatus | app/router/member_status.go:107-108 | an override alone decides: known exactly if it is observed, with its measurement |
| StatusMeaning.OwnTag | app/router/member_status.go:140-144 | a known status goes by the balancer's own tag and is tracked from nowhere |
| LoopbackLoops.LoopbackReached | features/outbound/loops.go:35-56 | the walk through proxied outbounds returns exactly the loopback that dialing through the handler reaches |
| LoopbackLoops.LoopbackIsNear | features/outbound/loops.go:35-56 | a loopback that is reached at all is reached within as many hops as there are tagged handlers |
| LoopbackLoops.Level | app/router/loops.go:74-110 | the edges of every balancer reached and not seen before are exactly what its level can feed, members and fallbacks included |
| LoopbackLoops.Chain | app/router/loops.go:66-72 | the edges collected for a balancer are exactly the states that some level below it can feed |
| LoopbackLoops.From | app/router/loops.go:112-136 | the edges of a state are exactly the states its rules or the default outbound may feed, up to the first rule that certainly matches |
| LoopbackLoops.ReturnIsPossible | app/dispatcher/default.go:476-509 | every concrete routing step, whatever the other conditions, strategy answers and overrides, is an edge of the approximation |
| LoopbackLoops.OutcomeIsPossible | app/router/router.go:263-295 | a resolved pick leads only to handlers that the balancer's levels may feed |
| LoopbackLoops.TripIsCycle | app/router/loops.go:140-172 | a routing walk that comes back to a state is a cycle of the trips that the check takes as possible |
| LoopbackLoops.AcceptedIsLoopFree | app/router/loops.go:140-172 | when those trips have no cycle and no loopback feeds the empty tag (or no rule has it as its only condition) every possible routing walk passes each loopback state at most once |
| LoopbackLoops.CheckLoopbacks | app/router/loops.go:140-172 | the graph is that of exactly the tags that loopbacks feed, the cycles reported are its shortest ones, none is reported exactly if it has none, and then no routing walk returns to a loopback, when no loopback feeds the empty tag or no rule has it as its only condition |
| LoopbackLoops.EndingRuleMatches | app/router/loops.go:22-40 | for a state that is not empty a considered rule is one whose only condition is the inbound tag exactly if it matches whatever its other fields say; it never matches the empty tag |
| LoopbackLoops.EmptyTagEscapes | app/router/loops.go:112-136 | for every routing with a rule that ends the walk at the empty tag and feeds nothing, the check takes no trip from that tag as possible, and a default outbound that feeds the tag loops |
| LoopbackLoops.EmptyTagExample | app/router/loops.go:112-136 | one loopback and one rule that loop so |
| LoopbackLoops.CyclesAreFeedCycles | app/router/loops.go:140-172 | the cycles of the graph that the check builds are the cycles of possible trips |
| LoopbackLoops.ClearingIsSafe | app/router/balancing.go:250-251 | clearing an override only takes trips away, so no cycle appears |
| LoopbackExact.TripsExactly | app/dispatcher/default.go:476-509 | with plain tags and effective rules, from any state that is not empty routing can make exactly the trips that some rule or the default can feed, for some outcome of all conditions and strategies, every override taken at its word |
| LoopbackExact.LoopFreeExactly | app/router/loops.go:140-172 | when no loopback feeds the empty tag no routing walk returns to a loopback if and only if these trips have no cycle |
| LoopbackExact.ExactWhen | app/router/loops.go:140-172 | the check accepts exactly the routings that cannot loop if and only if its own trips have no cycle or these have one |
| LoopbackExact.AcceptedExactly | app/router/loops.go:140-172 | without overrides it accepts a routing if and only if it cannot loop |
| LoopbackExact.TripsAreReal | app/router/loops.go:112-136 | without overrides the trips it takes as possible are exactly those that routing can make |
| LoopbackExact.PinnedExample | app/router/loops.go:74-110 | a routing that cannot loop, because an override sends everything to an outbound, and that the check refuses |
| LoopbackExact.FeedsExactly | features/outbound/loops.go:35-56 | a handler feeds a state if it is a loopback that does, or names a proxy that feeds it and is none itself, and not otherwise |
| LoopbackExact.SelectedExactly | app/proxyman/outbound/outbound.go:230-245 | a selector selects the tags that it is a prefix of |
| ObservedMembers.CheckMemberObservation | app/router/loops.go:283-337 | accepted exactly if every balancer reached from one with members has all its candidates and its outbound fallback observed, blackholes excepted |
| ObservedMembers.ReachAll | app/router/loops.go:287-303 | the walk marks exactly the balancers that one with members reaches through members and fallbacks |
| ObservedMembers.Reach | app/router/loops.go:287-298 | one walk adds what its tag reaches and leaves no edge out of what it has added |
| ObservedMembers.BlackholeExactly | app/router/loops.go:304-330 | a tag is that of a blackhole exactly if the newest handler with it is one, and the empty tag is none |
| PublishedRouting.Router.ReloadRules | app/router/router.go:122-218 | accepted exactly if everything builds, no balancer tag or rule tag is there twice, every balancer named exists, the map may be published and the guard accepts it; then what is published is what the configuration asks for and every balancer in it points to the new map, else nothing changes |
| PublishedRouting.Router.Prepare | app/router/router.go:122-201 | before anything is published the map has passed its graph check, the rules name its balancers and the guard has accepted both, and this fails exactly if a reload must be refused |
| PublishedRouting.Router.Publish | app/router/router.go:204-217 | after publishing, the history of maps stays good and each balancer's peers is the newest map that contains it |
| PublishedRouting.Router.BuildBalancers | app/router/router.go:138-157 | the balancers kept and one for each balancing rule, and it fails exactly if a rule does not build or a tag is there twice |
| PublishedRouting.Router.BuildRules | app/router/router.go:159-191 | the rules kept, then one for each rule of the configuration, each with the balancer it names, and it fails exactly if a rule does not build, repeats a rule tag or names no balancer |
| PublishedRouting.Router.RemoveRule | app/router/router.go:221-247 | exactly the rules with the tag go, if and only if the tag is not empty and the guard accepts what is left |
| PublishedRouting.Router.SetOverrideTarget | app/router/balancing.go:243-261 | an override is stored if and only if the balancer exists, the target is no balancer and, unless it is cleared, the guard accepts the routing with it; no other balancer changes |
| PublishedRouting.Router.PickTag | app/router/fallback_chain.go:166-178 | a pick begun on any rule of any age is resolved on one published map, the newest with its balancer, level by level as what was read says, and never drops the route; a level that can select and reads its own override ends it there, with the override as the route |
| PublishedRouting.Guard | app/router/loops.go:351-364 | a guarded change is accepted exactly if, once started, its members are observed and, without a script, the trips through loopbacks have no cycle; then the routing it leads to is loop-free |
| PublishedRouting.JudgedBy | app/router/loops.go:351-364 | a guarded change is judged by the rules, balancers and overrides that it leads to, a target about to be set included, and by the handlers there are |
| PublishedRouting.StaysSafe | app/router/balancing.go:243-261 | from a routing without cycles on, over every run of changes against the same handlers, cleared overrides included, every routing is loop-free |
| PublishedRouting.AllGood | app/router/router.go:122-247 | after any calls the map is publishable and the rules name balancers of it |
| RoutingRuns.ServeAll | app/router/router.go:122-247 | over every run of reloads, removals and overrides with picks on rules of any age, after every call exactly what the calls ask for is published, every map is publishable, and every pick on a rule that was ever published is not dropped and resolves, for the strategy answers given, on the newest map of the rule's generation: the last one before everything was replaced |
| RoutingRuns.DatedReload | app/router/router.go:204-217 | a reload keeps that map the newest with the balancer of every rule ever published |
| RoutingRuns.PickAnswers | app/router/fallback_chain.go:166-178 | so the map that a balancer points to is the one that the calls say |
| RoutingRuns.ServeNext | app/router/balancing.go:243-261 | after every call the balancers of the newest map of every generation have the overrides that the calls have led to in it, and replaced balancers keep theirs |
| OverrideRuns.OverrideRules | app/router/balancing.go:159-175 | after an accepted override with a target, until it is changed, every pick on a rule of that time whose chain arrives at the balancer, can select there and reads the override as it is goes to the target |
| OverrideRuns.OverrideStands | app/router/balancing.go:243-261 | an accepted override stands until it is changed, through reloads that append and for the replaced map through those that do not |
| OverrideRuns.PickHonors | app/router/fallback_chain.go:184-201 | a pick that arrives at a balancer with an override and reads it ends there with it as the route |
| OverrideRuns.NeverMembers | app/router/balancing.go:243-261 | over every run no override names a member of its balancer |
| PublishedRouting.NewestAfter | app/router/router.go:204-217 | publishing a map makes it the newest for exactly the balancers in it |
| PublishedRouting.HistoryGrows | app/router/router.go:204-217 | every map ever published is good after one more good map |
| FunctionalCycles.Functional | common/loopcheck/loopcheck.go:11-43 | the texts of exactly the cycles of the functional graph, self-loops included, each once and from its smallest vertex, in order |
| FunctionalCycles.WalkFrom | common/loopcheck/loopcheck.go:18-40 | one walk finds the cycle it runs into if that is new, and closes everything it has seen |
| FunctionalCycles.LoopUnique | common/loopcheck/loopcheck.go:45-50 | two cycles that share a vertex and start at their smallest are the same |
| FunctionalCycles.Rotate | common/loopcheck/loopcheck.go:45-50 | the rotation is the same cycle from its smallest vertex |
| FunctionalCycles.FormatTells | common/loopcheck/loopcheck.go:45-50 | the texts tell cycles apart whose vertices have no arrow in their names |
| WeightedPool.FilterNodes | app/router/strategy_weightedleastping.go:117-201 | the pool is exactly the healthy candidates within the tolerance of the fastest, else nothing when all are measured and down and there is a fallback, else all with a positive weight, and also all of them when the limit wraps around; sorted, with their weights |
| WeightedPool.Narrow | app/router/strategy_weightedleastping.go:178-188 | exactly the healthy candidates up to the limit are kept |
| WeightedPool.Window | app/router/strategy_weightedleastping.go:178-188 | the candidates within the tolerance of the fastest are kept, and none at all exactly if that sum leaves the int64 range |
| WeightedPool.PoolIsIntended | app/router/strategy_weightedleastping.go:178-195 | the pool is the intended one exactly if the sum stays in range or every candidate with a weight is healthy |
| WeightedPool.OverflowExample | app/router/strategy_weightedleastping.go:178-195 | with the largest tolerance a dead candidate is in the pool beside a healthy one |
| WeightedPool.HealthyExactly | app/router/strategy_weightedleastping.go:150-170 | a measured candidate is healthy exactly if it is alive, has enough measurements, no more than the tolerated share of them failed, and its average is below the limit |
| WeightedPool.UnmeasuredExactly | app/router/strategy_weightedleastping.go:150-170 | without measurements the observed milliseconds stand for one that succeeded |
| WeightedPool.VerdictExactly | app/router/strategy_weightedleastping.go:126-147 | a candidate has a verdict exactly if it has no measurements, or one and as many as are asked for |
| WeightedRoundRobin.Strategy.PickWeighted | app/router/strategy_weightedleastping.go:222-252 | the first largest raised weight is picked and lowered by the total, and state for other tags is dropped |
| WeightedRoundRobin.PickKeepsBalanced | app/router/strategy_weightedleastping.go:222-252 | a pick keeps the sum of the current weights at zero and each above minus the total |
| WeightedRoundRobin.RunIsBalanced | app/router/strategy_weightedleastping.go:222-252 | so does every run on an unchanged pool |
| WeightedRoundRobin.CurrentIsDebt | app/router/strategy_weightedleastping.go:222-252 | a current weight is what the node is owed: picks times its weight less its picks times the total |
| WeightedRoundRobin.Fairness | app/router/strategy_weightedleastping.go:222-252 | after any k picks a node has been picked fewer than its share plus one times and at least its share less the number of the others |
| WeightedRoundRobin.PickTimes | app/router/strategy_weightedleastping.go:222-252 | the strategy object called any number of times on one pool gives every tag its share, with these bounds, at every moment |
| WeightedRoundRobin.Period | app/router/strategy_weightedleastping.go:222-252 | with whole weights every total of picks gives each node exactly its weight and brings the state back to zero |
| Vision.Receiver.XtlsUnpadding | proxy/proxy.go:622-704 | for every state and buffer the fields and the output are those of the byte machine |
| Vision.Receiver.Turn | proxy/proxy.go:648-700 | every turn of the loop uses at least one byte and does what the byte machine does with them |
| Vision.FeedSplit | proxy/proxy.go:622-704 | feeding two parts is feeding the whole |
| Vision.FeedBlock | proxy/proxy.go:648-700 | a whole block gives its content and leads to the next header, or ends the padding |
| Vision.FeedStream | proxy/proxy.go:648-700 | a stream of blocks gives the concatenated contents |
| Vision.SplitInvariance | proxy/proxy.go:622-704 | the pieces that the bytes come in do not matter, as long as none after the end starts with the UUID |
| Vision.RoundTrip | proxy/proxy.go:583-704 | a padded stream cut anywhere, the first piece of at least 21 bytes, gives back the contents and what follows, and the receiver is back in its initial state |
| Vision.RecoveredIff | proxy/proxy.go:639-648 | when no later piece starts like a stream, the stream is recovered if and only if the first piece has at least 21 bytes |
| Vision.RecoveredAfter | proxy/proxy.go:639-648 | after a first piece of at least 21 bytes the stream is recovered if and only if no piece of its tail starts like a stream |
| Vision.TailExample | proxy/proxy.go:639-648 | an empty End block and a piece of the tail that begins with the UUID: the stream is not recovered |
| Vision.PassUnchanged | proxy/proxy.go:639-648 | after the end, pieces that do not start with the UUID pass unchanged |
| Vision.SafePads | proxy/proxy.go:585-605 | with safe seeds, whatever is drawn, the padding length is non-negative exactly when the content leaves 21 bytes free |
| Vision.PadsExactly | proxy/proxy.go:585-605 | all contents and draws can be padded exactly if the seeds are safe, in int32 arithmetic for all uint32 seeds |
| Vision.SomeSeeds | proxy/proxy.go:391-393 | the seeds used when fewer than four are configured are safe, and a base of zero makes a length negative |
| Vision.XtlsPadding | proxy/proxy.go:583-620 | the buffer is the UUID, if it is still to be sent, and one block with the content and as much padding as the content and the draw ask for, no byte cut off; there is none exactly if no padding can be drawn or its length is negative |
| Vision.SafePadding | proxy/proxy.go:591-605 | with safe seeds a short content that is to look long has, with its padding, the base and the draw of bytes, any other content is followed by the draw, and neither by more than there is room for |
| Vision.LooksLong | proxy/proxy.go:591-605 | with the default seeds less than 900 bytes that are to look long go out as 900 to 1399 with their padding |
| Vision.Int32Is | proxy/proxy.go:591-599 | a length is what int32 arithmetic leaves: a number from -2^31 up that differs by a multiple of 2^32 |
| Vision.ReshapeMultiBuffer | proxy/proxy.go:548-581 | the same bytes, every buffer with at least 21 bytes free: a buffer without is cut in two before its last record header, in the middle if that leaves no room, and every other is as it was |
| Vision.LastIndex | proxy/proxy.go:562-565 | the last record header, or none |
| Vision.IsCompleteRecord | proxy/proxy.go:494-546 | true exactly for a sequence of whole non-empty application data records of section 5.2 of RFC 8446 |
| VisionConnection.Writer.WriteMultiBuffer | proxy/proxy.go:406-492 | over any writes, for any seeds, what has been sent is one stream of blocks and then plain bytes with exactly the content written, every write adds the blocks that `VisionWrites` says, and the sender copies directly exactly if the last block said so while XTLS comes with TLS 1.2 or above; there is a result for safe seeds and always after the padding |
| VisionConnection.Writer.PadBuffers | proxy/proxy.go:442-480 | the buffers of a write are padded until one ends the padding early, the rest is sent as it is; each block has the command and the padding of its place, and the padding goes on exactly if no buffer was application data or ended it |
| VisionConnection.Delivered | proxy/proxy.go:406-704 | what the writer has sent at any moment, cut anywhere with a first piece of at least 21 bytes, is unpadded to what was written |
| VisionWrites.EndsWith | proxy/proxy.go:449-478 | the last block of a write carries a command other than Continue exactly if the padding ends with the write, and no other block does |
| VisionWrites.DirectAgrees | proxy/proxy.go:449-478 | the last block says Direct exactly if XTLS is enabled, a padded buffer was application data and the padding did not end early |
| VisionReading.Reader.ReadMultiBuffer | proxy/proxy.go:286-352 | what a read gives and the mode it leaves are those of the functions that the statements below are about; a switch to direct copy brings what is taken out of the TLS layer, or fails |
| VisionReading.ReaderRecovers | proxy/proxy.go:286-340 | for every stream cut into reads and buffers in any way the reader gives back what was written if and only if no read is passed on inside a block |
| VisionReading.HeaderSplits | proxy/proxy.go:321-340 | the reader passes on a read inside a block exactly if no size is above zero yet and the command is Direct, or End when packets are no longer filtered |
| VisionReading.OffTrackDiffers | proxy/proxy.go:321-340 | then more bytes come out than were written |
| VisionCuts.RecoversExactly | proxy/proxy.go:286-340 | for every stream and all reads that bring it the reader gives back what was written if and only if no read begins 1 to 4 bytes into the header of the last block, behind only zero size bytes, with the command Direct, or End when packets are no longer filtered |
| VisionCuts.LosesTrackExactly | proxy/proxy.go:321-340 | that is exactly when some read is passed on inside a block |
| VisionCuts.StreamBreaks | proxy/proxy.go:330-340 | after which bytes of a stream the reader takes the block under way for ended |
| VisionCuts.CutExample | proxy/proxy.go:321-340 | an empty Continue block and any Direct block, read up to the second command and then to the end, are not given back |
| Buffers.SplitBytes | common/buf/multi_buffer.go:98-123 | the first bytes come out, the others stay in order and do not start with an empty buffer |
| Buffers.MergeBytes | common/buf/multi_buffer.go:38-54 | the bytes are appended and no buffer outgrows its capacity |
| Buffers.BufferedReader.Read | common/buf/reader.go:60-86 | bytes come out in order from the buffer or the next delivery |
| Buffers.BufferedReader.ReadFull | common/buf/buffer.go:333-343 | exactly the next n bytes however they are delivered, or failure when there are fewer |
| AeadStream.Writer.Seal | common/crypto/auth.go:249-276 | size field, ciphertext and padding of one chunk with every generator stepped, or nothing and only the padding drawn when it does not fit |
| AeadStream.Writer.WriteStream | common/crypto/auth.go:278-310 | the write becomes chunks that concatenate to it, none of them empty and none refused, and the generators are those after these chunks |
| AeadStream.Writer.WriteMultiBuffer | common/crypto/auth.go:337-350 | an empty write becomes the end marker, any other write its chunks |
| AeadStream.SendAll | common/crypto/auth.go:278-350 | any number of writes sends chunks whose plaintext up to the end is what was written before the first empty write |
| AeadStream.Reader.ReadSize | common/crypto/auth.go:119-133 | the size kept by a soft read, or the next size field with padding and size generators in step with the sender |
| AeadStream.Reader.ReadInternal | common/crypto/auth.go:153-204 | one chunk more with the generators in step, or the end, or an error exactly as the bytes that arrive have it; a soft read takes nothing from the transport, keeps the size it has read and never fails |
| AeadStream.Reader.ReadChunk | common/crypto/auth.go:137-204 | the plaintext of the chunk is appended, in one buffer or merged into several, exactly if it arrives whole; with nothing of it the transport has ended, with a part the read fails |
| AeadStream.Reader.ReadMultiBuffer | common/crypto/auth.go:206-226 | the plaintexts of the next chunks, at least one and no end among them; it ends or fails exactly as the bytes that arrive have it |
| AeadStream.ReceiveAll | common/crypto/auth.go:206-226 | from any fragments of any prefix of the bytes the result is the plaintext of the chunks that arrive whole, without an error exactly if the prefix ends at a chunk, right behind a size field or after the end; all of it when all bytes arrive |
| AeadStream.CutBehindSize | common/crypto/auth.go:153-193 | the bytes of any chunk up to behind its size field are read without an error and without a byte of it |
| AeadStream.Transfer | common/crypto/auth.go:119-350 | over every fragmentation what is read until the end is exactly what was written before the first empty write |
| AeadStream.SizeOfChunk | common/crypto/auth.go:167-170 | the size tells the end marker from every other chunk, in 16-bit arithmetic |
| AeadSuites.Increase | common/crypto/auth.go:30-41 | the bytes in place become the incremented little-endian counter |
| AeadSuites.IncrementedValue | common/crypto/auth.go:32-38 | an increment adds one modulo 256 to the length |
| AeadSuites.NonceValue | common/crypto/auth.go:30-41 | k calls add k modulo 256 to the length |
| AeadSuites.NonceFresh | common/crypto/auth.go:30-41 | no nonce comes back within 256 to the length calls |
| AeadSuites.SizeInverts | common/crypto/chunk.go:51-64 | the sealed size field is read back, with the overhead taken off and put back in 16-bit arithmetic |
| AeadSuites.BigEndianInverts | common/crypto/chunk.go:34-41 | the plain size field is read back |
| AeadSuites.PlainInverts | common/crypto/auth.go:64-88 | what is asked of a cipher can be met, with any overhead |
| AeadSuites.ShadowsocksLawful | proxy/shadowsocks/config.go:135-160 | one authenticator for sizes and payloads with one nonce counter meets what the framing asks for; which nonce seals what is stated in `AeadWire` |
| AeadSuites.MaskedTwice | proxy/vmess/encoding/auth.go:52-62 | masking a size twice with the same word gives it back |
| AeadSuites.VMessLawful | proxy/vmess/encoding/auth.go:47-70 | one hash stream for masks and padding lengths meets what the framing asks for |
| AeadWire.SendShadowsocks | proxy/shadowsocks/config.go:135-152 | over any writes the bytes sent are, chunk by chunk, the two-byte length sealed under nonce 2k + 1 of the counter and the payload sealed under nonce 2k + 2 |
| AeadWire.NonceShared | common/crypto/auth.go:30-41 | two fields share a nonce exactly if their numbers differ by a multiple of 256 to the nonce length |
| AeadWire.FieldsFresh | common/crypto/auth.go:30-41 | no two of the 2n fields of n chunks share a nonce while there are at most that many |
| AeadWire.FieldNonce | common/crypto/auth.go:43-49 | field k of a connection is sealed under the little-endian number k |
| AeadWire.SendVMess | proxy/vmess/encoding/client.go:104-160 | over any writes chunk k is its masked size, its payload sealed under data nonce k, and as much padding as its word of the hash stream says |
| AeadWire.ChunkNonceShared | proxy/vmess/encoding/client.go:302-310 | two chunks share a data nonce exactly if their numbers differ by a multiple of 65536 |
| AeadWire.MaskedBit | proxy/vmess/encoding/auth.go:52-62 | a bit of a masked size is set exactly if it differs between the mask and the size |
| GeoSite.FieldStable | common/geodata/geodat_loader.go:335-358 | a field parsed from a window is the field of the whole message, and bytes are called cut off only if they are |
| GeoSite.DecodeAttributeKey | common/geodata/geodat_loader.go:309-326 | the last key of the attribute, or the first error |
| GeoSite.Decoder.DecodeDomain | common/geodata/geodat_loader.go:277-307 | type and value of the domain, and in has exactly which wanted attributes it carries |
| GeoSite.Decoder.Take | common/geodata/geodat_loader.go:256-272 | fn is called exactly for a domain with all wanted attributes |
| GeoSite.Decoder.Decode | common/geodata/geodat_loader.go:242-275 | decoding a window is a first part of decoding the message: the calls made are its first calls, an error is its error |
| GeoSite.Decoder.Windows | common/geodata/geodat_loader.go:83-97 | the window loop ends, in the same state as decoding the bytes it has used at once |
| GeoSite.LoadSite | common/geodata/geodat_loader.go:58-108 | for every window size the calls and the error are those of one decode of the whole message; a short file always fails |
| GeoSiteFormat.SiteRoundTrip | common/geodata/geodat.proto:9-42 | a site written in the wire format, unknown fields of every wire type included, is read back: fn gets exactly the domains with all wanted attributes, each with its type and value, in order |
| GeoSiteFormat.LoadWritten | common/geodata/geodat_loader.go:58-108 | so does the loader with windows of any size, whatever follows in the file |
| GeoSiteFormat.ExtraRead | common/geodata/geodat_loader.go:356-358 | a field of any wire type, groups in groups included, is passed over in full |
| Protobuf.ProtowireLawful | common/geodata/geodat_loader.go:342-358 | what the decoder asks of the wire functions is met by protobuf's tags, varints, byte strings, fixed fields and nested groups |
| Protobuf.GroupStable | common/geodata/geodat_loader.go:356-358 | a group read from a window is the group of the whole message, or is cut off |
| DnsCache.CacheController.UpdateRecord | app/dns/cache_controller.go:252-316 | one field of one record is replaced, and the other family's field is read from the merged view |
| DnsCache.CacheController.WriteAndShrink | app/dns/cache_controller.go:110-177 | expired fields and empty records go, and a map far below its peak becomes the dirty map of a migration |
| DnsCache.CacheController.Flush | app/dns/cache_controller.go:228-250 | a batch of dirty records is moved under the fields that ips already has |
| DnsCache.CacheController.Complete | app/dns/cache_controller.go:184-226 | the dirty map is dropped when all of it has been flushed; the view stays what it was and from then on lookups miss nothing |
| DnsCache.CacheController.FindRecords | app/dns/cache_controller.go:318-327 | of each family a lookup shows what the merged view has, or misses it |
| DnsCache.UpdateView | app/dns/cache_controller.go:252-316 | an update changes the merged view of ips over dirtyips by itself alone |
| DnsCache.CleanupView | app/dns/cache_controller.go:110-177 | a cleanup changes the view only by what has expired, whether or not it starts a migration |
| DnsCache.FlushView | app/dns/cache_controller.go:228-250 | a flush leaves the view alone and overwrites no field of ips |
| DnsCache.CompleteView | app/dns/cache_controller.go:221-223 | at the end of a migration ips alone is the view |
| DnsCache.FindShowsView | app/dns/cache_controller.go:318-327 | a lookup shows what the view has of a family or misses it, and misses it only while the record is to be flushed |
| DnsCache.UpdateHides | app/dns/cache_controller.go:252-316 | an update hides the other family's answer exactly if only the dirty map has it, and only while the domain is to be flushed |
| DnsCache.MissesExactly | app/dns/cache_controller.go:110-327 | over every run a lookup misses an answer exactly if a migration is under way that started with it, has not flushed its record, and since whose start the domain was updated in the other family but not in this one |
| DnsCache.HiddenExample | app/dns/cache_controller.go:252-327 | a run from an empty cache after which a lookup misses an answer |
| DnsCache.RunRefines | app/dns/cache_controller.go:110-316 | over every interleaving of updates, cleanups, flushes and completions the view is that of a plain cache |
| DnsCache.NewestStays | app/dns/cache_controller.go:184-316 | the newest answer stays in the view until it is replaced or expires, never overwritten by a dirty one |
| DnsCache.ExpiredGoes | app/dns/cache_controller.go:110-177 | over every run a cleanup outside a migration takes away what has expired of the keys it is given, of either family, and no more |
| DnsQuery.MakeGroups | app/dns/dns.go:574-631 | the groups are the maximal runs of equal policy, in order, and every client is indexed to its group |
| DnsQuery.SerialQuery | app/dns/dns.go:461-482 | the first client with addresses wins, else all failed |
| DnsQuery.SerialErrorsAre | app/dns/dns.go:461-482 | every client that was asked adds the error of its reply, or that it was empty, and a skipped one nothing |
| DnsQuery.SucceedsExactly | app/dns/dns.go:505-531 | in the parallel query a client succeeds exactly if it was asked and answered addresses without an error |
| DnsQuery.ParallelQuery | app/dns/dns.go:484-536 | for every arrival order the winner is that of the first arrival with which a group has a success and all earlier groups have failed, the first success of that group; the query fails exactly when all clients fail, with their errors in order |
| DnsQuery.RaceGroup | app/dns/dns.go:505-531 | a group's winner is the first of its clients that has arrived and succeeded |
| DnsQuery.Advance | app/dns/dns.go:505-531 | groups are passed only when all of them have failed; a winner is what these arrivals decide, and without one nothing is decided and the next group is still waited for |
| DnsQuery.DecidesOnce | app/dns/dns.go:505-531 | any arrivals decide for one client at most |
| DnsQuery.SerialIsParallel | app/dns/dns.go:461-536 | when no neighbours share a policy a client wins the serial query if and only if it wins the parallel one, whatever the order of arrival |
| DnsQuery.SameFailures | app/dns/dns.go:461-536 | both queries fail on the same replies |
| DnsQuery.WinnersShareGroup | app/dns/dns.go:461-536 | with any policies the parallel winner is in the group of the serial one and not before it |
| DnsQuery.QueryBoth | app/dns/dns.go:461-536 | both queries succeed or both fail, with the same answer when no neighbours share a policy |
| DnsQuery.QueryIP | app/dns/nameserver.go:194-255 | a client returns addresses exactly without an error; an error is the server's or an empty response |
| DnsQuery.AnswersExactly | app/dns/nameserver.go:194-255 | exactly which addresses a client answers, by what its filters tell: those that pass the filters that must leave something, narrowed to the expected ones and then to those that are not unexpected where that is only preferred and leaves something |
| DnsQuery.PriorKeepsAnswers | app/dns/nameserver.go:220-252 | filters that only prefer never lose an answer |
| DomainTraffic.Recorder.Now | app/stats/domain_traffic.go:91-100 | time never goes back, whatever the clock does |
| DomainTraffic.Recorder.Prune | app/stats/domain_traffic.go:102-114 | buckets before the cutoff go, oldest sequence numbers first, and lastSeen keeps exactly the stored identities |
| DomainTraffic.Recorder.EnsureDomain | app/stats/domain_traffic.go:153-177 | an identity leaves only when a new one comes at the cap; it has the oldest lastSeen and leaves every bucket |
| DomainTraffic.Recorder.Record | app/stats/domain_traffic.go:116-151 | only the bucket of the current interval gains traffic, by exactly the saturated sum; every other bucket is as before but for the evicted identity |
| DomainTraffic.Recorder.Snapshot | app/stats/domain_traffic.go:202-246 | the closed buckets next after the cursor with consecutive sequence numbers, as many as there are or were asked for; when buckets remain a gap is set exactly when one after the cursor was pruned |
| DomainTraffic.Look | app/stats/domain_traffic.go:207-245 | the same of any chronological buckets |
| DomainTraffic.Oldest | app/stats/domain_traffic.go:160-170 | the search finds an identity that was seen no later than any other |
| DomainTraffic.Domains | app/stats/domain_traffic.go:188-200 | exactly the identities of all buckets |
| DomainTraffic.KeptChronological | app/stats/domain_traffic.go:102-108 | pruning removes a first part of the sequence numbers and keeps the rest without holes |
| DomainTraffic.OpenedChronological | app/stats/domain_traffic.go:123-128 | a new bucket comes after all others in time and in sequence |
| DomainTraffic.RecordedShrinks | app/stats/domain_traffic.go:116-177 | a bucket that is not the current one can only lose an identity |
| DomainTraffic.Follow | app/stats/domain_traffic.go:91-246 | over every run with any clock a consumer that follows the cursor gets strictly increasing numbers, all of them unless a gap was reported, and after an unlimited snapshot every closed bucket that is left; no bucket it got gains traffic later, and the cap holds |
| DomainTotals.Account | app/stats/domain_traffic.go:116-246 | over every run every delivered bucket and every one that is left has the unknown traffic recorded in its interval in full and of an identity no more than was recorded; all of it, and no identity missing, when the run has no more identities than the cap |
| DomainTotals.AddCounts | app/stats/domain_traffic.go:248-253 | counts added one after the other are the count of their total |
| DomainTotals.IdentitiesMeet | app/stats/domain_traffic.go:139-139 | two users can have one identity exactly if the name of one is that of the other, a NUL and more |
| DomainTotals.IdentityTells | app/stats/domain_traffic.go:139-139 | users without a NUL in their names are told apart, and so are the domains of each |
| IpMatcher.CreateFrom | common/geodata/ip_matcher.go:879-949 | the set holds exactly the addresses of the valid CIDRs, and the two maxima are the longest prefixes or the special values |
| IpMatcher.IdentityBuilds | common/geodata/ip_matcher.go:879-949 | what is asked of the set builder is met |
| IpMatcher.MatchCidrs | common/geodata/ip_matcher.go:79-192 | from CIDRs to answers: any or all of the IPs are covered by a valid CIDR of their family, in reverse by none |
| IpMatcher.FilterCidrs | common/geodata/ip_matcher.go:217-305 | from CIDRs to the two sides of a filter |
| IpMatcher.KeyIsBlock | common/geodata/ip_matcher.go:194-215 | the key of an IP is the /24 or /64 block of its address, and both are missing together |
| IpMatcher.SameBlock | common/geodata/ip_matcher.go:63-77 | when the heuristic is on, all addresses of a block match alike |
| IpNumbers.CoversExactly | common/geodata/ip_matcher.go:63-77 | a prefix covers the addresses of its length whose leading bits, as a number in network byte order, are its own |
| IpNumbers.MappedExactly | common/geodata/ip_matcher.go:194-215 | the mapped addresses are those of ::ffff:0:0/96, taken as the IPv4 address of their last 32 bits |
| IpMatcher.AnyMatch | common/geodata/ip_matcher.go:79-127 | true exactly if some IP matches by itself |
| IpMatcher.Matches | common/geodata/ip_matcher.go:129-192 | true exactly if there is an IP and every IP is valid and matches by itself |
| IpMatcher.FilterIPs | common/geodata/ip_matcher.go:217-305 | the valid IPs, each as often as given, on the side that Match puts it |
| MultiIpMatcher.AnyMatch | common/geodata/ip_matcher.go:401-449 | true exactly if some matcher matches some IP |
| MultiIpMatcher.Try | common/geodata/ip_matcher.go:413-447 | skipping a matcher for a known block never skips a match |
| MultiIpMatcher.Views.Ensure | common/geodata/ip_matcher.go:515-591 | the views a matcher needs are complete, or some IP is invalid |
| MultiIpMatcher.Matches | common/geodata/ip_matcher.go:451-508 | true exactly if there is an IP and one matcher matches every IP |
| MultiIpMatcher.MatchesIsNotEach | common/geodata/ip_matcher.go:451-508 | that is more than every IP having a matcher: an example with one matcher for each family |
| MultiIpFilter.FilterIPs | common/geodata/ip_matcher.go:593-699 | how often every IP is matched and unmatched, for any mix of matchers by block and by address, and that there is no result exactly if more are matched than were given |
| MultiIpFilter.BucketViews.Ensure | common/geodata/ip_matcher.go:706-792 | the views that a matcher needs hold exactly the IPs by block and the last one of every address |
| MultiIpFilter.BucketViews.Take | common/geodata/ip_matcher.go:616-662 | one matcher takes exactly what it matches and no other has taken from its view |
| MultiIpFilter.PartedByBlock | common/geodata/ip_matcher.go:593-699 | when all matchers look at a family by block its IPs are parted by the union of the matchers, each as often as given |
| MultiIpFilter.PartedByAddress | common/geodata/ip_matcher.go:593-699 | when all look by address they are parted by the union, the last IP of each address once |
| MultiIpFilter.OnBothSides | common/geodata/ip_matcher.go:593-699 | exactly which IPs are on both sides |
| MultiIpFilter.OnNeitherSide | common/geodata/ip_matcher.go:593-699 | exactly which valid IPs are on neither side |
| MultiIpFilter.UnmixedSucceeds | common/geodata/ip_matcher.go:664-664 | when no family is looked at both ways there is a result |
| MultiIpFilter.TwiceTurns | common/geodata/ip_matcher.go:664-664 | when every IP is matched both ways there is none |
| MultiIpFilter.OtherFamilyIsBothSides | common/geodata/ip_matcher.go:706-711 | beside a matcher without IPv4 prefixes every IPv4 address that another matches by block is on both sides |
| MultiIpFilter.BothSidesExample | common/geodata/ip_matcher.go:593-699 | two IPs of one prefix, filtered by it and by an IPv6 one |
| MultiIpFilter.NeitherSideExample | common/geodata/ip_matcher.go:593-699 | an address in its 16-byte form before its 4-byte form, filtered by two sets of addresses, is on neither side |
| MultiIpFilter.NoResultExample | common/geodata/ip_matcher.go:664-664 | two IPs, filtered by their prefix and by themselves: more are matched than were given |
| CidrLists.MatchLists | common/geodata/ip_matcher.go:401-508 | from lists of CIDRs to answers: some list matches some IP, and one list matches every IP |
| CidrLists.FilterLists | common/geodata/ip_matcher.go:593-699 | the matched addresses are those that some list matches |

## Left out

- Error texts and log lines; a cycle of the balancer and state graphs is a list of tags with its edges, not its text.
- What a routing script does: with one the loop check accepts everything, and the model says so and no more.
- Webhooks, rule cloning and the outbound manager's own handler changes.
- LoopbackLoops.CheckLoopbacks: a reported cycle is a cycle of the over-approximation; when it is a real routing loop is stated by `LoopbackExact` for routings whose outbounds and balancers share no tag and whose rules all have a condition.
- WeightedRoundRobin.Fairness: over real numbers; rounding of float64 weights is not modelled.
- `PickShares`, `weightFor` and the round-robin, random and least-load strategies: easy beside the weighted one.
- VisionCuts.RecoversExactly: what is taken out of the TLS layer at the switch to direct copy counts as a read of its own.
- The TLS filter: that packets are filtered is an input of every write and read.
- The release and reuse of buffers: a buffer is its bytes.
- Packet mode of the AEAD writer: it draws a padding length for a packet that it then drops.
- Ciphers and hash streams are parameters with stated laws.
- The panic recovery of the cache migration, which drops unmigrated records on purpose.
- Publish and subscribe of DNS answers, `sortClients`, and the merging of query errors into one.
- Domain normalisation, Unix second fields, and the order of entries inside a returned bucket; times before 1678 or after 2262, whose nanoseconds overflow.
- DnsQuery.QueryIP: what a filter of expected or unexpected IPs makes of the addresses is any function; `AnswersExactly` takes it to part them by a property.
- The switch of a Vision sender to the connection below: `directCopy` says that it is due, not that it has happened.
- OverrideRuns.OverrideRules: of a level that reads its override while another call changes it nothing is said.
- The order of the lists that `FilterIPs` of several prefix sets returns: they are compared as multisets.
- `ToggleReverse` and `SetReverse`: a matcher is a value with its reverse flag.
- Finding an entry in a geosite file (`seek`, `find`) and the whole-message IP loader.
