# TH, verified

TH manages tunnels and routes between hosts. This project models the three parts of it that carry the hardest
guarantees and proves those guarantees in Dafny:

- the **Babel speaker** of `internal/babel` (RFC 8966): source table, route acquisition, route selection with smoothing
  and hysteresis, multipath export, and a network of such speakers that exchange updates over a lossy medium;
- the **Babel packet parser and writer** of `internal/babel/proto` (section 4 of RFC 8966, and RFC 9229);
- the **desired-state engine** of `internal/core`, `internal/store` and `internal/model`: the record store with its
  conflict checks, restore and bundle transactions with their rollback, schema migration, the event hub, the work queue
  of the reconciler, and secrets that are redacted on the way out and merged on the way in.

Objects that the program updates in place are classes (`Speaker`, `Parser`, `FileStore`, `OwnerMaps`, `Manager`,
`RecordDirectory`, `EventHub`, `Reconciler`) whose methods keep the program's loops. Each method is proved against a
function or predicate on values, and what the program promises is proved about those, over every run. What each of these
functions does is stated a second time where it matters: in fields of routes and records, in octets and in plain numbers,
without the functions and constants the methods share with their specification.

## How the model is laid out

| part | files |
|---|---|
| addresses, prefixes, masking | `Net` |
| metrics, sequence numbers, feasibility distances | `BabelTypes` |
| one speaker: its state and operations, selection, guarantees, the class | `SpeakerState`, `Selection`, `SpeakerProperties`, `Speaker` |
| what its operations mean, in fields of routes and in numbers | `RouteChoice`, `Operations`, `Lifetime`, `ChangeReport` |
| the export set and what it can lose | `ExportSet`, `ExportLoss`, `ExportExact`, `ExportLimit` |
| convergence, and the runs it is about | `Convergence`, `Steady` |
| many speakers: freedom from loops, the guard it needs, runs that break the one or the other | `Network`, `Feasibility`, `Loop`, `SharedAddress` |
| packets; which octets stand for what | `Wire`, `Decoder`, `Encoder`, `RoundTrip`, `Parser`; `Layout`, `Reading` |
| from one speaker to the next, through the wire and the send queue | `Announcing`, `SendQueue` |
| records, who owns what, the whole-set check | `Records`, `Ownership`, `Conflicts`, `RecordSet`, `Lists` |
| the store and its runs; restore | `StoreState`, `Outcomes`, `Store`, `Restore` |
| defaults, secrets, priorities | `Prepare`, `Preparation`, `Secrets`, `Redaction`, `Allocation` |
| bundles | `BundleState`, `BundlePlan`, `Bundle`, `Planning`, `ExportPlan`, `Exchange` |
| an environment and records that meet what the proofs ask for | `Specimen` |
| migration | `Legacy`, `Migration`, `MigrationMeaning` |
| events and the work queue | `Events`, `Delivery`, `Queue` |

Inputs of the model, instead of code that is not part of it: the cost of each link, the path metrics of an update, every
clock reading, every outcome of a disk operation and of a backend teardown, random material, and the order in which a Go
map is iterated (proved for every order). Patterns for names and identifiers, digests, and key parsing are functions of
an environment `Env`; where a proof needs something of them (the text of a public key parses back to it, the empty
string is no identifier) it says so (`Lawful`, or a `requires`).

## What the proofs found

Where code and documentation disagree, the model follows the code.

- **Selection can loop on a stale flag.** `Route.Feasible` is computed when an update arrives and only read by the
  selection, so it does not notice that the node has since sent something better. For any three nodes there is a run
  that ends with two of them forwarding to each other (`Loop.StaleFlagLoops`). Sending keeps all flags right exactly when
  every flagged route of the source beats the update sent (`Feasibility.SendKeepsFreshIff`), and runs in which that
  always holds are free of cycles (`Feasibility.GuardedRunHasNoCycle`).
- **Nil retractions.** A selection reports a nil entry exactly when a prefix disappears for which nothing was selected
  (`SpeakerProperties.NilRetractions`).
- **The export can lose a better route.** Routes that share a forwarding path are reduced to the first one met before the
  list is sorted and cut, so a good route can vanish behind a bad one that is then cut
  (`ExportSet.SharedPathLosesBetterRoute`). It happens for some iteration order and some limit exactly when three eligible
  routes are such that the second stands for the path of the first and the third, on another path, ranks between them
  (`ExportLoss.LossIff`). Under the configured limit it happens exactly when, besides, the paths that must be listed before
  the third route leave a place for it and the paths that may be listed before the second fill the list
  (`ExportLimit.LossAtLimitIff`).
- **A packet boundary can cost an update its router-id.** The queue cuts what is written for a list of routes anywhere
  between TLVs, and every packet is read by itself: an update whose RouterId went into the packet before arrives without
  one, and is ignored (`SendQueue.PartIsHeard`).
- **Two neighbours with one address are mixed up.** The key of a route has the address of its neighbour and not the
  interface. Where two nodes have the same address on two links of a third, a route through the one can carry an
  advertisement of the other, and then nothing that loop freedom rests on holds of it
  (`SharedAddress.SharedAddressBeatsSender`).
- **Hysteresis holds a worse route for ever** if it is worse by 3 or less; 4 is the exact threshold
  (`Convergence.FourIsTheThreshold`, `Convergence.ThresholdIsSharp`).
- **Intervals above 65 seconds do not survive** a round trip (`Wire.IntervalRoundTrip`).
- **Prefix lengths of 128 and more** are read as full addresses (`Decoder.LongLengthIsFullAddress`).
- **0.0.0.0 and 4-in-6 addresses do not survive**; the exact conditions are `RoundTrip.AddressRoundTripIff`,
  `RoundTrip.PrefixRoundTripIff` and `RoundTrip.ViaV6RoundTripIff`. 0.0.0.0/0 survives only as a prefix with an IPv6
  next hop; announced on an interface with an IPv4 address it is
  read as ::/0 (`RoundTrip.UnspecifiedReadsAsV6`).
- **An unknown TLV rejects the whole packet** instead of being skipped (`Decoder.UnknownTlvRejects`), while unknown
  sub-TLVs follow the mandatory bit (`Decoder.UnknownSubTlv`).
- **The announced length is wrong** for some unspecified, link-local and full-length 4-in-6 prefixes
  (`Encoder.SizedIff`).
- **Rolling back a bundle update is a further update**: it raises the generation, keeps preshared keys the undone update
  had filled in, and settles the record (`BundleState.ReinstatedIff`). It needs a clock that is not behind the creation
  of the record.
- **An accepted bundle can fail half-way** although neither backend nor disk fails: the final records are checked
  together, but updates are carried out one by one, so two records cannot exchange routes (`Exchange.ApplyExchange`,
  `Specimen.ExchangeExists`). A bundle completes exactly when the records are free of conflicts after each of its changes
  (`Bundle.ApplyBundle`).
- **A generation is not unique** across deletion and creation of the same identifier
  (`StoreState.RecreationReusesGeneration`); otherwise at most one update per generation succeeds.

## Model

| member | source | states |
|---|---|---|
| `BabelTypes.WindowIsLinear` | internal/babel/proto/types.go:123-137 | inside any half window of 2^15 numbers the circular order of sequence numbers is the linear order of their offsets |
| `BabelTypes.FullHalfTurnIsUnordered` | internal/babel/proto/types.go:123-137 | one number more and two different sequence numbers are unordered |
| `BabelTypes.AfterSendsIsBest` | internal/babel/source.go:31-42 | after any sequence of finite updates the source entry is one of them and none of them is better |
| `BabelTypes.FeasibleIffBetterThanEverySend` | internal/babel/source.go:31-49 | an update passes the feasibility condition exactly when it is strictly better than every finite update sent for the source (section 3.7.3 of RFC 8966) |
| `BabelTypes.AdvertisingKeepsFeasible` | internal/babel/cost.go:57-66 | advertising a feasible route leaves it feasible exactly when the sum with the link cost grew; positive cost without saturation guarantees it |
| `SpeakerProperties.RouteLessIsWeakOrder` | internal/babel/speaker.go:1004-1012 | the order of routes is irreflexive and asymmetric, and not being greater is transitive |
| `SpeakerProperties.SelectedRouteIsSound` | internal/babel/speaker.go:881-968 | after every selection the selected route of a prefix is in the table, alone carries the flag, is local or feasible, unexpired and finite, and is minimal or the previous choice not beaten in both metrics; nothing is selected exactly when nothing qualifies |
| `RouteChoice.SelectionRefreshes` | internal/babel/speaker.go:888-909 | a selection refreshes every route and touches nothing else of it: the metric of a learnt one is cost plus advertised metric, 65534 at most unless one is infinite, the smoothed one the nearest integer to three quarters of the last and a quarter of the new |
| `RouteChoice.RouteLessMeans` | internal/babel/speaker.go:1004-1012 | a route ranks before another by a smaller metric, then by next hop, fewer octets first and then octet by octet, then by router-id, octet by octet |
| `RouteChoice.ChoiceMeans` | internal/babel/speaker.go:911-929 | after every operation that selects: nothing is chosen for a prefix exactly when no route is local, or unexpired, feasible and finite; a new choice is foremost, and takes the place of a qualifying previous one only if it is smaller in metric and in smoothed metric |
| `RouteChoice.UnbeatenIsKept` | internal/babel/speaker.go:911-929 | a previous choice that no qualifying route beats in both metrics is kept |
| `SpeakerProperties.ReportKeepsMirror` | internal/babel/speaker.go:934-968 | whatever the operation, applying its report to the set of reachable prefixes gives the set after it |
| `SpeakerProperties.NilRetractions` | internal/babel/speaker.go:954-960 | a nil retraction is reported exactly when a prefix vanishes that had nothing selected |
| `SpeakerProperties.MirrorFollowsRun` | internal/babel/speaker.go:881-968 | in every state of every run the tables agree and fingerprints are those of the selection; a mirror fed only the reports ends with exactly the prefixes that have a selected route |
| `Selection.SelectionKeepsInvariant` | internal/babel/speaker.go:881-968 | one selection run re-establishes: same prefixes in table, selection and fingerprints, flags that match, selected routes that qualify, fingerprints recomputed from the selection |
| `Selection.OpKeepsInvariant` | internal/babel/speaker.go:291-462 | every public operation keeps that invariant |
| `Selection.AnswerKeepsInvariant` | internal/babel/speaker.go:827-858 | answering a seqno request, which rewrites a sequence number without a selection, keeps it too |
| `Selection.QuietKeepsInvariant` | internal/babel/speaker.go:543-662 | so do all operations that end without a selection |
| `Speaker.Speaker.Choose` | internal/babel/speaker.go:911-929 | the loop over the candidates finds a minimal one, and the hysteresis keeps the previous choice unless it is beaten in metric and smoothed metric |
| `Speaker.Speaker.Exported` | internal/babel/speaker.go:1026-1077 | the two loops, the stable sort and the cut compute the export list of the specification for this iteration order |
| `Speaker.Speaker.RunSelection` | internal/babel/speaker.go:881-968 | one run is a selection step: metrics refreshed, flags set, a permitted choice for every prefix, fingerprints, and the report; afterwards the invariant holds, whatever the map order |
| `Speaker.Speaker.RefreshRoutes` | internal/babel/speaker.go:888-909 | metrics are recomputed for exactly the listed routes, and the candidates among them gathered |
| `Speaker.Speaker.Fingerprint` | internal/babel/speaker.go:1112-1119 | for some order of the routes the fingerprint has one entry for each exported route, in order, with its destination, next hop, interface, metric and path metrics |
| `ChangeReport.ReportMeansChange` | internal/babel/speaker.go:934-968 | whatever the operation, a prefix known before and after that is not reported has exports before and after that agree, entry for entry, in next hop, interface, metric and path metrics; one that is reported has exports that differ |
| `ChangeReport.SelectedChangeIsReported` | internal/babel/speaker.go:934-968 | a prefix whose selected route is another or appears or goes, or changes its next hop, interface, metric or path metrics, is reported |
| `ChangeReport.AppearingAndVanishing` | internal/babel/speaker.go:934-968 | a prefix that appears is reported exactly when something is selected for it, one that vanishes always, any other not known before and after never |
| `Speaker.Speaker.ReportVanished` | internal/babel/speaker.go:953-961 | prefixes that vanished are reported with their stored entry and lose their fingerprint |
| `Speaker.Speaker.OnUpdateReceived` | internal/babel/speaker.go:684-762 | a received update is ignored or acquired as specified, followed by a selection step |
| `Speaker.Speaker.AcquireRoute` | internal/babel/speaker.go:684-757 | exactly the accepted updates are stored: router-id, sequence number, advertised metric, feasibility, path metrics, next hop or else the sender, and a new hold time, in a route that is not expired; nothing else changes |
| `Lifetime.UpdateIsStored` | internal/babel/speaker.go:684-757 | over the whole operation: an update is stored field by field with an expiry one hold time from now, or ignored, exactly by router-id, feasibility, metric and what is selected; no other route is touched but for its metrics and flag |
| `Lifetime.RouteLasts` | internal/babel/speaker.go:434-462 | in every run, until a sweep one hold time later a route says what the last accepted update said and is not expired, unless its neighbour was removed in between |
| `Lifetime.RouteRunsOut` | internal/babel/speaker.go:434-462 | in every run, the first sweep one hold time after the update retracts the route and marks it expired, so that it cannot be chosen, and the first sweep one hold time after that drops it, unless another update or a removal came in between; a route retracted already is dropped by the first |
| `Speaker.Speaker.AdvertisePrefix` | internal/babel/speaker.go:291-334 | an invalid prefix is refused; a repeated advertisement under the current sequence number does nothing; otherwise the number is raised and a selection follows |
| `Operations.AdvertiseMeans` | internal/babel/speaker.go:291-334 | after the whole operation: an invalid prefix or a repetition changes nothing; otherwise the number is raised by one modulo 65536, and the local route of the masked prefix has it, the metric, and the speaker's router-id if it is new; other routes are refreshed only |
| `Speaker.Speaker.WithdrawPrefix` | internal/babel/speaker.go:337-356 | the local route leaves the table and a selection follows, if there was one |
| `Operations.WithdrawMeans` | internal/babel/speaker.go:337-356 | the local route of the masked prefix goes, other routes are refreshed only |
| `Speaker.Speaker.OnNeighbourRemoved` | internal/babel/speaker.go:816-822 | all routes of the neighbour leave the table and a selection follows |
| `Operations.RemovalMeans` | internal/babel/speaker.go:816-822 | exactly the routes learnt from the neighbour, by address and interface, go; the others are refreshed only |
| `Speaker.Speaker.RemoveRoutesOf` | internal/babel/route_table.go:107-118 | exactly the routes learnt from the neighbour are removed |
| `Speaker.Speaker.OnNeighbourCostChanged` | internal/babel/speaker.go:808-813 | a changed link cost leads to a selection |
| `Operations.CostMeans` | internal/babel/speaker.go:808-813 | every route is refreshed at the costs of now, and nothing else changes |
| `Speaker.Speaker.UpdateECMPParams` | internal/babel/speaker.go:983-1002 | unchanged parameters change nothing; a changed path limit, slack or bottleneck penalty leads to a selection |
| `Operations.ParamsMean` | internal/babel/speaker.go:983-1002 | the three parameters are taken over, and a change of any of them refreshes every route |
| `Speaker.Speaker.SweepTables` | internal/babel/speaker.go:434-462 | routes past their hold time are retracted, those retracted already are dropped, old source entries go, and a selection follows |
| `Operations.SweepMeans` | internal/babel/speaker.go:434-462 | a learnt route whose expiry has come is dropped if its metric is infinite, and otherwise expired with the infinite metric for one more hold time; all others stay; source entries go once their time has passed |
| `Speaker.Speaker.SweepRoutes` | internal/babel/speaker.go:438-451 | the loop over the routes does this whatever its order |
| `Speaker.Speaker.EncodeRoutes` | internal/babel/speaker.go:543-629 | the source table is tightened before each finite update; written are, for each route, its router-id, the next hop of the right family where the interface has one, and the update with interval, path quality and the IPv6-next-hop form where there is no IPv4 address |
| `Operations.EncodedMeans` | internal/babel/speaker.go:543-629 | a local route is announced under the speaker's router-id with the metric it was advertised at, a learnt one with its own router-id and metric, and one of infinite metric not at all |
| `Speaker.Speaker.SourceFeasibility` | internal/babel/speaker.go:648-662 | a missing source entry is created, an existing one only tightened, and its lifetime renewed |
| `Operations.EncodeMeans` | internal/babel/speaker.go:648-662 | sending a route changes one source entry at most: it keeps the newer distance, and of two as new the smaller, and lives for the configured time from now |
| `Speaker.Speaker.HandleSeqnoRequest` | internal/babel/speaker.go:827-858 | which selected route answers a request, when the own sequence number is raised, and when and with which hop count the request is forwarded instead (section 3.8.1.2 of RFC 8966) |
| `Operations.RequestMeans` | internal/babel/speaker.go:827-858 | when exactly a request is answered, and that the own number is raised by one exactly if a newer one under the speaker's own router-id was asked for |
| `Speaker.Speaker.ForwardNeighbour` | internal/babel/speaker.go:863-876 | the neighbour of a usable route if there is one, of any other route otherwise, and never the requesting one |
| `Announcing.LinesHeard` | internal/babel/speaker.go:543-629 | whatever was received before from the interface, the TLVs written for one update are read as that update |
| `Announcing.NeighbourHearsUpdates` | internal/babel/speaker.go:543-629 | a list of routes that leaves in one packet is read by a fresh parser as exactly the updates of the routes, each with its router-id, sequence number, metric and next hop |
| `SendQueue.PartIsHeard` | internal/babel/internal/queue/queue.go:90-131 | wherever the list is cut, each packet is accepted; an update is heard exactly as written if its RouterId is in the packet of its Update TLV, and without router-id otherwise |
| `SendQueue.QueuedPartIsHeard` | internal/babel/internal/queue/queue.go:90-131 | so is each packet the queue makes of the list; the transmit times it fills in concern other TLVs |
| `SendQueue.Queue.Send` | internal/babel/internal/queue/queue.go:90-131 | the packet has the first values in line, which leave the queue, in order and none twice; with announced lengths that are the written ones it is no longer than the MTU, and the next value would not fit |
| `ExportSet.BestMetricIsMinimum` | internal/babel/speaker.go:1038-1044 | the slack is measured from the minimum over the selected and the usable routes |
| `ExportSet.ExportSetIsSound` | internal/babel/speaker.go:1026-1084 | for every iteration order the export starts with the selected route, has at most max(1, MaxPaths) entries with distinct forwarding paths and a sorted tail of usable routes within slack, and every missing eligible route is accounted for |
| `RouteChoice.ExportMeans` | internal/babel/speaker.go:1026-1084 | in fields and numbers: feasible finite routes no worse than any such route by more than the slack, better ones first, no two through one interface to one next hop, IPv4 and mapped IPv4 being the same, and with room left none of them is missing |
| `ExportSet.DistinctPathsLoseNothing` | internal/babel/speaker.go:1045-1077 | if no two eligible routes share a path, a missing one shares its path with the selected route or no kept tail entry is worse |
| `ExportSet.SharedPathLosesBetterRoute` | internal/babel/speaker.go:1045-1077 | a concrete table in which a better route with an unrepresented path is lost |
| `ExportLoss.LossIff` | internal/babel/speaker.go:1026-1084 | a missing eligible route has its path represented or no kept tail entry is worse, for every iteration order and every path limit, if and only if the table holds no three eligible routes of which one stands for the path of another and the third ranks between them |
| `ExportExact.ExportSetIsComplete` | internal/babel/speaker.go:1026-1084 | conversely to soundness, every list that is sound in this sense is the export for some iteration order of the table |
| `ExportLimit.LossAtLimitIff` | internal/babel/speaker.go:1026-1084 | the same for the configured path limit: nothing is lost in any iteration order if and only if for no such three routes the limit can fall between the third and the second, counted in paths that must stand before the one and may stand before the other |
| `ExportLimit.LossCrowds` | internal/babel/speaker.go:1045-1077 | every loss under a limit shows such three routes and counts |
| `ExportLimit.OverflowLoses` | internal/babel/speaker.go:1045-1077 | for such counts there is an order that loses the better route |
| `ExportLoss.LossIsHazard` | internal/babel/speaker.go:1045-1077 | every loss shows such three routes |
| `ExportLoss.HazardLoses` | internal/babel/speaker.go:1045-1077 | for every such three routes there are an order and a limit that lose the better one |
| `Convergence.SmoothingSettles` | internal/babel/route.go:111-131 | from any start, 38 smoothing steps towards a constant metric end, and stay, within one below and two above it |
| `Convergence.SmoothingRests` | internal/babel/route.go:111-131 | every value in that range is a resting point |
| `Convergence.FourIsTheThreshold` | internal/babel/route.go:111-131 | the smoothed values of two constant metrics are sure to separate exactly when the metrics differ by 4 or more |
| `Convergence.ThresholdIsSharp` | internal/babel/route.go:111-131 | with a difference of 3 or less both filters can rest on one value for ever |
| `Steady.UndisturbedIff` | internal/babel/speaker.go:291-462 | for every operation, what decides before the call whether it changes no more of the routes of a prefix than repeated advertisements do |
| `Steady.ReceiveOnlyRenews` | internal/babel/speaker.go:704-757 | an update changes no more than the sequence number, the expiry and the path metrics of a route exactly when it concerns another prefix or repeats router-id, metric, next hop and feasibility of the route |
| `Steady.SelectionsAreSteady` | internal/babel/speaker.go:881-929 | in any run of such operations with constant costs of the links of the prefix, its selections are a steady run, however many operations are between them |
| `Steady.CalmRunLeavesWorseRoute` | internal/babel/speaker.go:911-929 | in such a run a route held after the first selection that exceeds the minimum by 4 or more has, 38 selections later and at every moment from then on, given way to one of minimum metric |
| `Convergence.AtMostOneChange` | internal/babel/speaker.go:911-929 | over any number of selections of a steady run, with renewals between them, the selected route of a prefix changes at most once |
| `Convergence.SettledGapIsLeft` | internal/babel/speaker.go:911-929 | once the filters rest, a held route that exceeds the minimum by 4 or more is left |
| `Convergence.WorseRouteIsLeft` | internal/babel/speaker.go:911-929 | a route held at first that exceeds the minimum by 4 or more gives way, 38 selections later at the latest and for good, to a route of minimum metric |
| `Network.InvariantHolds` | internal/babel/speaker.go:684-757 | in every run of a network with lost, repeated and reordered messages, in which speakers have any number of addresses and links, every stored route, every value a route ever had, every message and every source entry is within the sender's and the owner's source entries |
| `Network.NoAdvertisementBeatsItsSender` | internal/babel/speaker.go:600-618 | in every such run no node ever holds a finite advertisement from a neighbour that passes the feasibility condition against that neighbour's own source entry |
| `Network.FeasibleSelectionsHaveNoCycle` | internal/babel/speaker.go:648-662 | where every selected route of a source still passes the condition at its holder, following next hops never returns (section 3.5.1 of RFC 8966) |
| `Network.SendKeepsInvariant` | internal/babel/speaker.go:600-618 | sending any value a route ever had, even after it left the table, keeps the network invariant |
| `Feasibility.SendKeepsFreshIff` | internal/babel/speaker.go:648-662 | sending keeps every feasibility flag of the sender right exactly when every flagged route of the source beats the update sent |
| `Feasibility.GuardedRunHasNoCycle` | internal/babel/speaker.go:881-929 | runs that never send an update some flagged route does not beat have no cycle of next hops, for any source at any moment |
| `Loop.StaleFlagLoops` | internal/babel/speaker.go:704-757 | for any three nodes, with any addresses on any interfaces and any configuration with positive hold and collection times, there is a run that ends with two of them selecting routes through each other |
| `SharedAddress.SharedAddressBeatsSender` | internal/babel/route_table.go:16-46 | for any three nodes of which two have one address at the third there is a run after which a route through the one carries an advertisement that passes the feasibility condition against the one's own source entry |
| `Wire.IntervalRoundTrip` | internal/babel/proto/parser.go:447-458 | a whole number of seconds survives exactly up to 65 |
| `Decoder.AcceptedPrefixIsMasked` | internal/babel/proto/parser.go:503-599 | an accepted IPv4 or IPv6 prefix of a fitting length is its own masking, its omitted octets are those of the default prefix of its encoding and the others those of the message (section 4.6.9 of RFC 8966) |
| `Decoder.LongLengthIsFullAddress` | internal/babel/proto/parser.go:657-664 | a length of 128 or more reads a full address and, unless it fits, gives a prefix without a length |
| `Decoder.SubTlvsConcat` | internal/babel/proto/parser.go:398-415 | decoding a complete sequence of sub-TLVs and then more is decoding the concatenation |
| `Decoder.UnknownSubTlv` | internal/babel/proto/parser.go:398-415 | an unknown sub-TLV among others is ignored below type 128 and rejects the TLV otherwise |
| `Decoder.TlvsConcat` | internal/babel/proto/parser.go:375-396 | decoding TLVs and then more, in the state they leave, is decoding the concatenation |
| `Decoder.UnknownTlvRejects` | internal/babel/proto/parser.go:256-283 | an unknown TLV anywhere in the body rejects the packet |
| `Decoder.First` | internal/babel/proto/parser.go:334-396 | an accepted TLV takes at least one octet and none beyond the input, and stored default prefixes stay long enough for their encoding |
| `Decoder.DecodePacket` | internal/babel/proto/parser.go:62-100 | decoding is total on arbitrary octets and every reachable state, and keeps that state usable |
| `Reading.AddressMeans` | internal/babel/proto/parser.go:503-599 | which octets can be read as an address and as which: encoding 0 is ::, 1 an IPv4 address, 2 an IPv6 address, 3 the last eight octets of one in fe80::/64, 4 an IPv4 address mapped into IPv6; octets left out come from the default of the encoding, and bits beyond the length are cleared |
| `Reading.PrefixMeans` | internal/babel/proto/parser.go:657-664 | the same for a prefix, with its length |
| `Reading.SubMeans` | internal/babel/proto/parser.go:398-415 | the sub-TLVs a TLV understands: 3 timestamps, 4 and 5 of path quality, 128 a source prefix; each is accepted exactly as laid out, and others are reported as unsupported |
| `Reading.PayloadMeans` | internal/babel/proto/parser.go:256-283 | what each accepted payload says and leaves in the state, octet by octet, for the types 0 to 10; no other type is accepted |
| `Reading.FirstMeans` | internal/babel/proto/parser.go:334-351 | a TLV is a single zero, or a type, a length and as many octets; a trailer takes 0 and 1 only |
| `Reading.PacketMeans` | internal/babel/proto/parser.go:62-103 | an accepted packet starts with 42, 2 and the length of its body, of which there is enough; the rest is the trailer |
| `Encoder.SizedIff` | internal/babel/proto/parser.go:644-655 | for which prefixes the announced length is the length written |
| `Layout.TlvIsLaidOut` | internal/babel/proto/parser.go:285-332 | every TLV is its type, 0 to 10, the length of its payload and the payload: fields at their places, integers high octet first, intervals in hundredths of a second, addresses and prefixes with encoding 0, 1, 2 or 3, sub-TLVs 3, 4, 5 and 128; a Pad1 is a single zero |
| `Layout.PacketIsLaidOut` | internal/babel/proto/parser.go:105-135 | a packet is 42, 2, the length of the body in two octets, the TLVs of the body and those of the trailer |
| `Encoder.TlvIsSized` | internal/babel/proto/parser.go:188-240 | a TLV with such prefixes is announced with its exact length |
| `Encoder.PacketLengthIsExact` | internal/babel/proto/parser.go:55-57 | a packet of such TLVs is announced with the number of octets written, as a 16-bit number |
| `RoundTrip.AddressRoundTripIff` | internal/babel/proto/parser.go:601-639 | which addresses survive, exactly |
| `RoundTrip.PrefixRoundTripIff` | internal/babel/proto/parser.go:657-671 | which prefixes survive, exactly |
| `RoundTrip.UnspecifiedReadsAsV6` | internal/babel/proto/parser.go:601-639 | an unspecified address of either family is read as ::, so 0.0.0.0/0 arrives as ::/0 |
| `RoundTrip.ViaV6RoundTripIff` | internal/babel/proto/parser.go:1044-1084 | which IPv4 prefixes with an IPv6 next hop survive, exactly (RFC 9229) |
| `RoundTrip.QualityRoundTripIff` | internal/babel/proto/parser.go:1245-1316 | which path metrics and path qualities survive, exactly |
| `RoundTrip.TlvReadsBack` | internal/babel/proto/parser.go:256-332 | every canonical TLV is read back from its payload, with router-id and next hop as the state has them, and leaves the state specified |
| `RoundTrip.PacketRoundTrip` | internal/babel/proto/parser.go:62-117 | a fresh parser reads every packet of canonical TLVs back: same body and trailer, every update with the router-id and next hop the preceding TLVs determine |
| `RoundTrip.ResolvedPacketRoundTrip` | internal/babel/proto/parser.go:62-117 | a packet whose derived fields are right comes back as it is |
| `RoundTrip.UpdateCarriesRouterId` | internal/babel/proto/parser.go:875-1042 | an update carries the router-id named last, by a RouterId TLV or by an update with the router-id flag, itself included (section 4.5 of RFC 8966) |
| `RoundTrip.UpdateCarriesHop` | internal/babel/proto/parser.go:900-922 | an update carries the last next hop given for the family of its prefix |
| `PacketParser.Parser.SubValues` | internal/babel/proto/parser.go:398-415 | the loop over sub-TLVs computes the specified decoding, errors included |
| `PacketParser.Parser.RouterIdTlv` | internal/babel/proto/parser.go:875-888 | a valid router-id is remembered; anything else is an error that leaves the state alone |
| `PacketParser.Parser.NextHopTlv` | internal/babel/proto/parser.go:900-922 | the next hop is remembered under its family |
| `PacketParser.Parser.Update` | internal/babel/proto/parser.go:938-1042 | flags take effect only when the whole TLV is accepted; router-id and next hop are filled in afterwards |
| `PacketParser.Parser.Values` | internal/babel/proto/parser.go:375-434 | the loop over TLVs computes the specified decoding and final state |
| `PacketParser.Parser.ReadPacket` | internal/babel/proto/parser.go:62-100 | header checks, body and trailer as specified, with their errors |
| `PacketParser.Parser.Reset` | internal/babel/proto/parser.go:34-38 | a reset parser is a fresh one |
| `PacketParser.Parser.AppendTlv` | internal/babel/proto/parser.go:285-365 | the octets of the TLV are appended, its length filled in afterwards, and the sender's state moves on |
| `PacketParser.Parser.AppendPacket` | internal/babel/proto/parser.go:105-117 | the octets of the packet are appended, the body length filled in once known |
| `PacketParser.Parser.LengthOf` | internal/babel/proto/parser.go:367-373 | the 16-bit sum of the announced lengths |
| `Ownership.ClashIsSymmetric` | internal/store/store.go:193-304 | whether two records may stand side by side does not depend on which came first |
| `Conflicts.ClashMeans` | internal/model/ownership.go:42-160 | two records conflict exactly by one name, one interface, an XFRM identifier, a rule priority (from 100000 on, or that of SRv6), a route to the same destinations in the same table (configured, or from 51820 on for a default route, or 254), one SRv6 table, or a route in it |
| `Conflicts.AcceptedMeans` | internal/core/batch.go:371-467 | a list is accepted exactly if it has at most 1024 valid records, no two with one identifier or in conflict, and at most 262144 routes |
| `Ownership.SubsetIsAcceptable` | internal/core/batch.go:371-467 | acceptance is inherited by subsets |
| `Ownership.FitsIffExtends` | internal/store/store.go:193-271 | the incremental check of a candidate decides exactly whether the whole set with it is acceptable |
| `Ownership.OrderDoesNotMatter` | internal/core/batch.go:371-467 | acceptance of a list does not depend on its order |
| `Ownership.PartIsAcceptable` | internal/core/batch.go:371-467 | any selection from an accepted list is accepted |
| `Ownership.CandidateExtendsList` | internal/store/store.go:193-234 | a candidate the incremental check passes can be put anywhere into an accepted list, and only such a one |
| `RecordSet.ValidateRecordSet` | internal/core/batch.go:371-467 | the one-pass check with hash maps accepts exactly the lists of valid records, pairwise without conflict, within the limits on records and route claims |
| `RecordSet.Register` | internal/core/batch.go:377-466 | one record is refused exactly when it conflicts with a record seen or makes the claims too many |
| `RecordSet.OwnerMaps.ListClaims` | internal/model/ownership.go:112-139 | every masked prefix is claimed once |
| `StoreState.FitsIffConsistent` | internal/store/store.go:125-140 | creation is let through exactly when the store with the new record is conflict-free |
| `StoreState.ReplaceFitsIffConsistent` | internal/store/store.go:142-159 | replacement is let through exactly when the store with the record replaced is conflict-free |
| `StoreState.ApplyKeepsConsistent` | internal/store/store.go:125-191 | every operation, however the disk behaves, leaves a conflict-free store |
| `StoreState.UndoneIsUnchanged` | internal/store/store.go:354-383 | an operation that is not done leaves the visible records alone, unless the disk fails to sync and then to undo |
| `StoreState.RunStaysConsistent` | internal/store/store.go:125-191 | stored records stay pairwise conflict-free over every run |
| `StoreState.UpdateRaisesByOne` | internal/store/store.go:142-159 | a completed update replaces one record by one of the next generation |
| `StoreState.OneUpdatePerGeneration` | internal/store/store.go:142-159 | of several updates computed from one generation at most one succeeds, unless the record is deleted and created again in between |
| `StoreState.RecreationReusesGeneration` | internal/store/store.go:125-191 | the exception is real |
| `Store.FileStore.CheckNames` | internal/store/store.go:193-234 | the loop over the records and the route check decide whether the candidate fits |
| `Store.FileStore.ManagedRouteCollision` | internal/store/store.go:236-271 | a collision is found exactly when there is one; otherwise the claims of all records are counted |
| `Store.FileStore.Create` | internal/store/store.go:125-140 | the result and the records afterwards for every request and every behaviour of the disk, and the store stays conflict-free |
| `Outcomes.CreateMeans` | internal/store/store.go:125-140 | a record is created exactly if it is valid, its identifier is unused, the store stays conflict-free and the disk does its part; every other case has its outcome, and what is left behind is stated for each |
| `Store.FileStore.Update` | internal/store/store.go:142-159 | the same for updates, with the generation check |
| `Outcomes.UpdateMeans` | internal/store/store.go:142-159 | a record is replaced exactly if the new one is valid and of the next generation, the expected one is still there, the store stays conflict-free and the disk does its part |
| `Store.FileStore.Delete` | internal/store/store.go:161-191 | the same for deletions |
| `Outcomes.DeleteMeans` | internal/store/store.go:161-191 | a record goes exactly if it is there in the expected generation and the disk does its part |
| `Store.FileStore.Get` | internal/store/store.go:116-123 | a record is found exactly under a valid identifier that is stored |
| `Store.FileStore.List` | internal/store/store.go:78-114 | every record once, sorted by name and then by identifier |
| `Restore.PlanRestore` | internal/core/backup.go:121-181 | every identifier of store or archive is planned for once, with the right action; unchanged records come first, then deletions, replacements and creations, each by name |
| `Restore.CreateIsNotRefused` | internal/store/store.go:125-140 | a record of a conflict-free set can be created in any part of that set |
| `Restore.Manager.DeleteManaged` | internal/core/reconciler.go:314-349 | nothing happens unless record, generation and teardown are right |
| `Outcomes.ManagedDeleteMeans` | internal/core/reconciler.go:314-349 | missing and outdated records are turned down first, a failing backend leaves the record, and then the store decides |
| `Restore.Manager.DeletePhase` | internal/core/backup.go:85-97 | after the first phase exactly the records to be deleted or replaced are gone; a failure leaves exactly those gone that are listed, and there is none unless backend or disk fails |
| `Restore.Manager.CreatePhase` | internal/core/backup.go:98-107 | no creation is refused by the store; with a working disk the phase succeeds, and the store is the archive |
| `Restore.Manager.Rollback` | internal/core/backup.go:183-205 | with a working disk the records of before are back, generations included |
| `Restore.Manager.RestoreBackup` | internal/core/backup.go:69-119 | rejected or checked without a change, or applied with the store equal to the archive, or rolled back to exactly the records of before; an accepted archive is applied whenever backend and disk work, and no step is refused by the conflict check |
| `Allocation.AllocateRulePriority` | internal/model/ownership.go:61-68 | the least free priority from 20000 to 29999, if there is one |
| `Allocation.NextSourcePriority` | internal/model/ownership.go:70-90 | the one above the highest, or the least free one |
| `Allocation.NextPriorityIsNew` | internal/model/ownership.go:70-90 | the priority handed out is valid and unused as long as there are fewer sources than priorities |
| `Allocation.NextPriorityMeans` | internal/model/ownership.go:70-90 | one above the highest valid priority in use, 1 without any; once 32765 is in use the least unused one, 0 if there is none |
| `Allocation.FillPriorities` | internal/model/prepare.go:167-171 | zero priorities are filled in, one after the other |
| `Allocation.FilledIsDistinct` | internal/model/prepare.go:167-171 | filling in keeps priorities distinct, changes no given one and leaves none at zero |
| `Allocation.FilledMeans` | internal/model/prepare.go:167-171 | every priority left out is the next one for the list as filled in up to there |
| `Prepare.MergeWireGuardSecrets` | internal/model/prepare.go:438-458 | the loops over the peers fill in the private key and the preshared keys of the peers with the same public key |
| `Redaction.MergeMeans` | internal/model/prepare.go:378-458 | for every kind: a secret left out comes from the current record, from the last peer of the same public key, under the same algorithm or authentication only; the marker clears a preshared key; given secrets and all else stay |
| `Prepare.RedactWireGuard` | internal/model/secrets.go:64-78 | private and preshared keys are blanked, and exactly the fields that held one are named |
| `Redaction.RedactRecord` | internal/model/secrets.go:9-78 | for every kind: a copy in which private, preshared and static keys are blank, and so are the PSK and local key of IKE unless they are blank space, all else as it was; named are exactly the fields that held a secret |
| `Redaction.RedactedLookAlike` | internal/model/secrets.go:9-78 | records that differ in their secrets only have the same redacted copy |
| `Secrets.RedactedComesBack` | internal/model/prepare.go:378-458 | merging a valid record into its redacted copy, which holds no secret (`Redaction.RedactMeans`), gives the record, for all seven kinds and any number of peers |
| `Redaction.RedactMeans` | internal/model/secrets.go:9-78 | what is blank in the redacted copy and what is kept, field by field, for all seven kinds |
| `Preparation.PrepareNewMeans` | internal/model/prepare.go:20-43 | a new record is prepared exactly if it has one spec, of its kind, and the result is valid: generation 1, both times now, what was given kept, the default of each field and drawn key material for what was left out, the public key derived; the result is determined |
| `Preparation.PrepareUpdateMeans` | internal/model/prepare.go:57-78 | an update is prepared exactly if, with secrets and rule priority taken over from the current record, nothing has to be drawn and the result is valid: same identifier and creation, next generation, changed now, defaults for what was left out |
| `Secrets.SettleIff` | internal/model/prepare.go:82-181 | preparing a valid record again leaves it alone exactly when its GRE TTL is set, its public key is in canonical form, and it does not need the unicast fallback |
| `Secrets.PrepareUpdateOfValid` | internal/model/prepare.go:57-78 | a valid record prepared as an update of another is refused exactly when the clock is behind its creation; the result claims what the record claims |
| `Secrets.ExportIsPrepared` | internal/model/prepare.go:57-78 | the redacted copy of a stored record is prepared as that record settled, and counts as unchanged exactly when it was settled |
| `Secrets.EarlyExportIsRefused` | internal/model/prepare.go:57-78 | with a clock behind the creation it is an error |
| `Specimen.LawfulEnvironment` | internal/model/prepare.go:226-243 | what these results ask of key parsing holds of an environment in which the keys are exactly the strings of 32 octets |
| `BundlePlan.EntriesPass` | internal/core/batch.go:149-225 | whatever the entries, the changes planned fit the store, no two concern one record, and the final records are what they leave |
| `BundlePlan.FinalsAreOutcome` | internal/core/batch.go:149-243 | the final records checked as a whole are the store after all changes |
| `Bundle.PlanBundle` | internal/core/batch.go:122-262 | the loops compute the plan of the specification over the records in the order listed |
| `Planning.PlanMeans` | internal/core/batch.go:122-262 | a bundle of version 1 with one to 1024 entries is planned exactly if each entry has a name and identifier of its own and is for one stored record, by identifier or else by name, of the same kind, interface and fixed numbers, or for a new one, and the records that would be there are accepted; which change each entry gives, and what becomes of records without one |
| `Bundle.PlanIsSound` | internal/core/batch.go:122-262 | an accepted plan is sound and its final records are acceptable and the outcome of its changes |
| `Bundle.AfterIgnoresOrder` | internal/core/batch.go:264-271 | the order in which the changes are carried out does not matter for the outcome |
| `Planning.OrderMeans` | internal/core/batch.go:264-271 | changes are made in the order: confirmations, deletions, updates, creations, each as planned |
| `Bundle.ApplyChange` | internal/core/batch.go:273-297 | a change is made, or the store is as it was; the backend stops it exactly when it has objects to take down and fails; when neither backend nor disk fails it is made exactly if the records stay free of conflicts |
| `Planning.CleanupMeans` | internal/core/manager.go:156-177 | the backend is asked first exactly for an IKE record and for one whose installed routes leave their table |
| `Bundle.RollbackChanges` | internal/core/batch.go:299-342 | undone in reverse with a working disk nothing is refused and the store is as the specification says |
| `Bundle.ApplyBundle` | internal/core/batch.go:63-120 | invalid without a change, or completed with the store equal to the final records, or undone to the identifiers of before, each record as it was or, if updated, reinstated; without a failure of backend or disk an accepted bundle completes exactly when the records are free of conflicts after each of its changes |
| `Exchange.ExchangeIsAccepted` | internal/core/batch.go:149-243 | a bundle in which two records exchange what they claim is accepted, and its first update collides with the second record |
| `Exchange.ApplyExchange` | internal/core/batch.go:63-120 | such a bundle is undone although neither backend nor disk fails |
| `Specimen.ExchangeExists` | internal/core/batch.go:149-243 | two concrete WireGuard records that exchange their networks are such a bundle |
| `BundleState.UndoneIsAlike` | internal/core/batch.go:299-342 | at each step of the rollback the store has the identifiers, and every record the claims, of the store before the change |
| `BundleState.AlikeIsConsistent` | internal/core/batch.go:299-342 | a store like a conflict-free one is conflict-free, so the rollback is not refused |
| `BundleState.ReinstatedIff` | internal/core/batch.go:311-329 | a reinstated record differs in generation, time and filled-in preshared keys only, exactly when it was settled |
| `BundleState.RolledBackTable` | internal/core/batch.go:299-342 | what the finished rollback leaves for each record |
| `ExportPlan.RedactedExportIsUnchanged` | internal/core/batch.go:149-208 | planning the redacted export of the store names every record once and reports it unchanged exactly when it is settled |
| `Legacy.PrefixedOnce` | internal/model/names.go:22-28 | adding the prefix of a kind to a name is idempotent |
| `Legacy.UniqueSourceName` | internal/store/migrate.go:409-426 | the search for an unused name ends with one, after at most one attempt more than names are in use |
| `Legacy.AttemptsDiffer` | internal/store/migrate.go:409-426 | no two attempts with a suffix try the same name, although names are cut to 64 characters |
| `Legacy.MigratedSourcesAreNumbered` | internal/store/migrate.go:314-356 | migrated sources have distinct names and the priorities 1, 2, ... |
| `Legacy.NormalizePriorities` | internal/store/migrate.go:388-399 | the loop over the sorted indices assigns the ranks |
| `Legacy.NormalizedKeepsPreference` | internal/store/migrate.go:388-399 | normalized priorities are 1, 2, ...; of two sources the one preferred before is preferred now, and nothing else changes |
| `MigrationMeaning.SegmentsStand` | internal/store/migrate.go:314-356 | each segment of each legacy source has its own source, in order, with its address, family, MTU and feed, named after the legacy source |
| `Migration.WriteKeepsPlan` | internal/store/migrate.go:116-230 | after one more rewritten record, planning again gives the same records |
| `Migration.PlanSurvivesInterruption` | internal/store/migrate.go:116-230 | so it does after any number of rewrites |
| `Migration.InterruptedRunsConverge` | internal/store/migrate.go:116-230 | a migration interrupted any number of times ends in the directory of an uninterrupted one |
| `Migration.AllocationNeverFails` | internal/store/migrate.go:179-202 | within the limit of 1024 records priorities do not run out |
| `Migration.PlannedPrioritiesAreDistinct` | internal/store/migrate.go:179-202 | after migration no two SRv6 records share a rule priority |
| `Migration.RecordDirectory.Migrate` | internal/store/migrate.go:116-230 | a failure to decode, allocate or validate writes nothing; otherwise some first files are as planned, all of them if the process is not stopped, and planning again gives the same; what is planned for a file is `MigrationMeaning.PlanMeans` |
| `MigrationMeaning.PlanMeans` | internal/store/migrate.go:116-230 | every planned record says what its file said: the same but for schema, prefixed name and, for SRv6, a rule priority from 20000 to 29999 and sources numbered 1, 2, ... by the old preference (schema 3) or one for each segment (schema 2) |
| `Events.EventHub.Publish` | internal/core/events.go:59-88 | the next number, the history cut to its capacity, every open stream with room gets the event and one without is closed; history stays the last consecutive events and streams stay without a hole |
| `Delivery.EventsAreAsPublished` | internal/core/events.go:59-88 | in every run each event in a stream has the number, body and status with which it was published, and each event kept for replay too, without its status |
| `Delivery.EveryEventArrives` | internal/core/events.go:59-88 | in every run an open stream has got every event published since its subscription |
| `Delivery.ClosedExactlyWhen` | internal/core/events.go:59-122 | in every run a stream is closed exactly when its subscriber cancelled or an event was published while 64 were waiting, and never opened again |
| `Events.EventHub.Subscribe` | internal/core/events.go:90-122 | replay, current, oldest and gap of a new subscription |
| `Events.EventHub.Cancel` | internal/core/events.go:114-120 | a cancelled subscription gets nothing more |
| `Events.GapIsExact` | internal/core/events.go:100-121 | for a nonzero start, replay reaches the current event without a hole exactly when the start is not in the future and no gap is reported |
| `Events.ReplayThenLive` | internal/core/events.go:59-122 | replay followed by the stream is numbered without hole or repetition until it closes, and complete while it is open |
| `Events.SubscriberMissesNothing` | internal/core/events.go:59-122 | for a subscription with a nonzero start no greater than current and without a gap, replay and then live events are after + 1, after + 2, ... until the stream closes |
| `Events.SessionFollows` | internal/core/events.go:59-122 | in every run of the hub, what a client reads of a replay and its stream is after + 1, after + 2, ... |
| `Events.ReconnectsCompose` | internal/core/events.go:59-122 | in every run of the hub, a client that reconnects any number of times, each time after the last event it has seen and without a gap reported, receives events without hole or repetition |
| `Queue.NoWakeUpIsLost` | internal/core/reconciler.go:116-159 | in every interleaving, pending work has a token, an enqueuer about to signal or a worker about to look, and taking all means no identifiers are listed |
| `Queue.QuiescentMeansEmpty` | internal/core/reconciler.go:137-159 | once all have signalled, an idle worker without a token has nothing to do |
| `Queue.FirstSnapshotCovers` | internal/core/reconciler.go:116-159 | the first snapshot after an enqueue names the record or takes all |
| `Queue.SnapshotTakesAsked` | internal/core/reconciler.go:116-159 | a snapshot takes all exactly if that was asked for since the one before, and otherwise exactly the records asked for |
| `Queue.SnapshotIsNear` | internal/core/reconciler.go:61-114 | from any pending state at most four steps of the worker and the signallers lead to a snapshot, and none of them delays it |
| `Queue.Reconciler.TakeSnapshot` | internal/core/reconciler.go:144-159 | the snapshot is exactly the queue, which is empty afterwards |
| `Queue.Reconciler.AddToQueue` | internal/core/reconciler.go:116-127 | an enqueue under the lock is the atomic step of the model; the empty identifier asks for all |
| `Queue.Reconciler.AddAll` | internal/core/reconciler.go:129-135 | so is asking for all |
| `Queue.Reconciler.SignalQueue` | internal/core/reconciler.go:137-142 | so is signalling, which leaves a full channel as it is |
| `Queue.Reconciler.TakeWake` | internal/core/reconciler.go:61-114 | so is receiving the token |

## Left out

- Network.FeasibleSelectionsHaveNoCycle: assumes sequence numbers within one half window, source entries that do not expire, and no restart of a speaker; RFC 8966 relies on its timers for the first two. At each receiver an address stands for one node (`OneNode`), which the route key of the program needs because it has no interface; a speaker may have a different address on each of its links, and be heard at several by one receiver.
- Network.InvariantHolds: locally originated prefixes are not 4-in-6; the caller does not produce them.
- Convergence.WorseRouteIsLeft: a local route advertised at the infinite metric is outside the claim; the smoothing factor is the default 1/4, for which the program's floating point is exact, and other factors are not modelled.
- Wire.IntervalRoundTrip: intervals that are not whole seconds; the program encodes them through floating point.
- RoundTrip.PacketRoundTrip: a body of 65536 octets or more, whose length field wraps; a source prefix of another encoding than its TLV, and one together with an IPv6 next hop for IPv4.
- StoreState.OneUpdatePerGeneration: generations are unbounded; the wrap-around of 64-bit numbers is not modelled.
- Events.ReplayThenLive: event numbers are unbounded in the same way.
- Restore.Manager.RestoreBackup: marking records pending, queueing them and waiting for reconciliation afterwards.
- Bundle.ApplyBundle: identifiers drawn for new records are assumed to be new; the views returned and the queueing of records are not modelled.
- Secrets.RedactedComesBack: cloning a record through JSON is the identity here.
- Migration.RecordDirectory.Migrate: files that are not records, and the temporary files of atomic writes; a failed rewrite counts as the process stopping there.
- Queue.NoWakeUpIsLost: statuses, locks for each record and backend events; only the queue and its wake-up.
- Speaker.Speaker.OnUpdateReceived: path metrics (bottleneck, RTT, jitter, confidence) are taken as the outcome of applyUpdatePathMetrics; they involve floating point.
- Speaker.Speaker.Fingerprint: the path quality in a fingerprint is a field of the route; the program derives it from the time of the call as well, so that it can drift between selections.
- Speaker.Speaker.EncodeRoutes: the path quality sent with a route is an input, a function of the route.
- ExportSet.SharedPathLosesBetterRoute: the table of the example is not derived from a run of updates.
- SendQueue.Queue.Send: a failed write loses the packet, and when the queue is sent is up to its timer.
- Sockets, timers, neighbour acquisition, link cost estimation and triggered updates of the Babel daemon.
- Damping of route weights in the Linux backend, netlink, WireGuard, XFRM, SRv6 and MPTCP backends.
- JSON, file modes, encryption of archives, checksums (an archive is intact or not), key generation, and syntax of names.
- Fields of tunnel specifications that no modelled operation looks at; they are carried along as one value.
- Command line, terminal interface, HTTP handlers and settings.
