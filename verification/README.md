# A verified model of CODES

CODES is a library of network models and tools for the ROSS optimistic simulator. This
project models the parts of it whose bodies decide something hard, and proves what they
are for. Every file below is one module; `dafny verify dfyconfig.toml` checks them all.

**Lists and tables.** `QuickList` and `QuickHash` model `codes/quicklist.h` and
`codes/quickhash.h` on the heap: rings of links edited by pointer assignments, and a
chained hash table over them. The ring a call works on, and the live links of a table in
the order of their additions, are ghost values, and each operation is tied to what it does
to them. `HashFunctions` is the masking and the string hash on machine words.

**Simulation protocols.** `PingPong` is one server of the ping-pong tutorial with its
forward and reverse handlers, both sets of accumulators and the reversible sample;
`PingPongLedger` tells its fields after any run from the deliveries alone, and
`PingPongProtocol` is all servers exchanging messages. `Forwarding` is the two-cluster
example with its forwarders. A step delivers any one message in flight, so a theorem about
runs is about every order of delivery. Times and sums of times are real numbers, the random
stream is a position in an arbitrary sequence of draws.

**Configuration.** `ConfigEqual` is the config store and the tree comparison. `NamedLists`,
`ConfigMerge` and `ConfigCompile` go from documents to the compiled sections, `ConfigFound`
says what lookups in these find, and `ConfigEmit` puts them into the store. `JobPlacement`
books node slots, `DimLists` reads dimension lists, `Decimal` prints numbers.

**Topologies.** `ReversalWiring` is the arrangement of global links that three generators
share, `RouterMatrix` the adjacency matrix over router numbers; `DallyTopology`,
`PlusLargeTopology` and `PlusV2Topology` are those generators with the checks they run on
their own output. `RandomPlusTopology` is the randomised generator, for every shuffle.
`PlusNetwork` is what it shares with `PlusV2Topology`: local connections and
`verifyTopology`. `PlusV3Topology`, `CrayTopology` and `SimpleConnections` are wirings by
residue over `PairwiseWiring` and `Residues`. `GeneratedLinks` tells the links of the
deterministic generators by their numbers. `LinkFailures` loads links, lists neighbours and
tests connectivity; `TerminalFailures` fails terminal links and leaves one to each.

**Statistics files.** `Bytes` is fixed-width little-endian fields, `StatsFraming` the
records of both files, `StatsPayloads` and `StatsDecoders` the payload layouts, their
decoders and the callback that writes one, `StatsParser` dispatch and the two parsers,
`StatsRows` which bytes stand under which name, and `StatsLoop` the position of the
virtual-time loop, which can go back.

`Arith`, `Seqs`, `Options` and `Identity` (of integers in Python) hold what several modules
use.

## What the code does against what is said of it

Each of these is a theorem about the code as it is.

* Two trees with a key and a section of one name can differ and still compare equal; the
  comment in `src/modelconfig/configfile.c` that an entry is present by construction does
  not hold when an earlier section hides the key (`ConfigEqual.ClashUnnoticed`,
  `ConfigEqual.HiddenKeyNotReflexive`). `ConfigEqual.EqualDecidesObservedIff` is the exact
  condition.
* A pass-through section called `workload` is accepted beside a workload and is dropped
  without a message, although the front-end is said never to drop anything silently
  (`ConfigCompile.WorkloadHidden` has such a document; exact condition in
  `ConfigCompile.PassthroughFoundIff`).
* Job ids that differ in case only are accepted, and the later job cannot be looked up
  (`JobPlacement.CaseHidesJob`; exact condition in `JobPlacement.ReachableIff`).
* `doc/model-stats-binary-format.md` says that payload sizes are distinct for any one
  configuration; `StatsParser.CollisionExact` says for which they are not.
* A virtual-time record whose signed length is -48 or less does not lead past itself. With
  -48 exactly, or a length that leads back to a boundary already visited, the parser never
  ends; where nothing can be unpacked, it ends with an exception it does not catch
  (`StatsParser.StuckForever`, `StatsLoop.BlockedForever`, `StatsLoop.BlockedOutside`; exact
  condition in `StatsLoop.ForeverExact`).
* A pong handler that sends a further ping and finds its bit already set is not undone by
  the reverse handler (`PingPong.RollbackIffFlagClear`); the simulator clears the bit field
  before each forward event.
* The string hash uses only the low four bits of the last character in tables of up to 256
  places (`HashFunctions.LastCharacterDecides`).
* With `num_pings` below 1 the heterogeneous example reports a mismatch at every foo node
  (`Forwarding.NoMismatchIff`).
* The dragonfly-dally generator compares router numbers with `is not`, so every router from
  number 257 on gets a link to itself. It finishes without an error exactly when the wanted
  number of links divides the global links of a group and there is room for these links
  (`DallyTopology.Generate`), which there is not for the radixes from 515 on that are 3 mod 4
  (`DallyTopology.NoRoomIff`, `DallyTopology.SelfLinkExceeds`). The dragonfly-plus
  v2 generator further needs that the other groups divide them, and at most 256 leaves in a
  group, because it compares lengths with `is not` (`PlusV2Topology.Build`); with an odd
  radix it can accept a network with more links between groups than asked for
  (`PlusV2Topology.OddRadixExceeds`). The randomised one never accepts an odd radix
  (`RandomPlusTopology.Generate`). Of the routers that the fairness check looks at only the
  last leaf decides (`PlusNetwork.Fairness`).
* The connectivity test takes a router outside the plane for the one that has its number
  (`LinkFailures.OutsideStandsIn`).
* `fail_term_links_safe` fails a link when the roll is above the given percentage, not below
  it (`TerminalFailures.LostExact`).
* Dimension lists may have tabs and line breaks before a value and a plus sign, not only
  spaces (`DimLists.LengthsExact`).

## Model

| member | source | states |
|---|---|---|
| QuickList.InsertBetween | codes/quicklist.h:56-62 | an entry put between two neighbours of a ring leaves a ring with the entry at that place |
| QuickList.Add | codes/quicklist.h:72-74 | the entry becomes the first of the list, the rest keeps its order |
| QuickList.AddTail | codes/quicklist.h:84-86 | the entry becomes the last of the list |
| QuickList.Del | codes/quicklist.h:95-108 | the ring without that entry is a ring; nothing else moves |
| QuickList.DelInit | codes/quicklist.h:113-116 | as deletion, and the entry is an empty list of its own |
| QuickList.Pop | codes/quicklist.h:130-139 | takes the first entry off and returns it; NULL exactly for an empty list |
| QuickList.PopBack | codes/quicklist.h:145-154 | takes the last entry off and returns it; NULL exactly for an empty list |
| QuickList.Splice | codes/quicklist.h:161-174 | the whole other list is prepended, in its order; an empty one changes nothing |
| QuickList.Count | codes/quicklist.h:245-253 | the number of entries |
| QuickList.Exists | codes/quicklist.h:231-240 | true exactly for an entry of the list |
| QuickList.Find | codes/quicklist.h:272-284 | the first entry that matches, NULL when none does |
| QuickList.AddAtIndex | codes/quicklist.h:259-270 | for every integer index, negative and wrapping ones too, the entry goes to position index mod (n + 1) with a non-negative remainder |
| QuickList.AreEqual | codes/quicklist.h:286-308 | true exactly when both lists have the same length and equal entries pairwise |
| QuickHash.HashTable.constructor | codes/quickhash.h:64-97 | an empty table: every bucket is an empty ring, all rings apart |
| QuickHash.HashTable.Add | codes/quickhash.h:116-130 | the link becomes the newest live link; every bucket still holds exactly its live links, oldest first |
| QuickHash.HashTable.FindInBucket | codes/quickhash.h:138-156 | the loop over a bucket stops at the first match of the bucket |
| QuickHash.HashTable.Search | codes/quickhash.h:138-156 | the earliest live link with the key, NULL exactly when there is none |
| QuickHash.HashTable.SearchAndRemove | codes/quickhash.h:189-211 | removes exactly the link that a search returns; all other live links and their order stay |
| QuickHash.HashTable.SearchAtIndex | codes/quickhash.h:165-180 | the oldest live link of the bucket |
| QuickHash.HashTable.RemoveAtIndex | codes/quickhash.h:217-231 | removes exactly the oldest live link of the bucket |
| QuickHash.HashTable.Destroy | codes/quickhash.h:235-251 | every live link is handed to the destructor exactly once, whatever the destructor does to its pointers, and the loop ends |
| QuickHash.HashTable.SearchIsEarliest | codes/quickhash.h:116-156 | after any history of additions and removals the link that a search returns was added before every other live link with the key |
| QuickHash.HashTable.ReplayInOrder | codes/quickhash.h:116-211 | after any history the live links stand in the order of their additions |
| HashFunctions.MaskedInRange | codes/quickhash.h:254-308 | the closing mask gives a place of the table for every size, a power of two or not |
| HashFunctions.HashString | codes/quickhash.h:284-297 | the loop computes the string hash character by character |
| HashFunctions.MixExact | codes/quickhash.h:284-297 | one turn adds the character to the digits of the hash in base sixteen, moved up by one place, and clears the second digit; the shift by 24 never has an effect |
| HashFunctions.LastCharacterDecides | codes/quickhash.h:284-297 | the test mask 0xF0 makes the place depend on the low four bits of the last character alone in every table of up to 256 places |
| PingPong.Server.Handle | doc/example/tutorial-synthetic-ping-pong.c:486-504 | the whole forward event: new state, message sent, the end time set and the one before saved, and what is left in the event takes the state back |
| PingPong.Server.Unhandle | doc/example/tutorial-synthetic-ping-pong.c:506-524 | the whole reverse event, as the specification says |
| PingPong.ForwardIs | doc/example/tutorial-synthetic-ping-pong.c:301-504 | which events send what to whom, with the two draws and their ranges spelled out, and what every event does to the end time and the payload sum |
| PingPongLedger.Ledger | doc/example/tutorial-synthetic-ping-pong.c:258-504 | after any mix of events, samples, rollbacks and collections every field of a server is what the surviving deliveries alone say: pings and pongs by counting them, pings sent by the kickoffs and the pongs below num_msgs, payloads, round trips, bytes and draws by adding them up |
| PingPongLedger.EndIsLast | doc/example/tutorial-synthetic-ping-pong.c:486-488 | after any such run the end time is the time of the last surviving delivery, and 0.0 if there is none |
| PingPongLedger.SendsExact | doc/example/tutorial-synthetic-ping-pong.c:301-446 | a delivery sends a ping exactly if it is a kickoff, or a pong before which fewer than num_msgs were sent |
| PingPongLedger.SampleIsLabelled | doc/example/tutorial-synthetic-ping-pong.c:197-204 | a surviving sample has the number of the server and the time it was taken, and together with the samples before it the counts of the deliveries before it |
| PingPong.RollbackIffFlagClear | doc/example/tutorial-synthetic-ping-pong.c:301-524 | the reverse event restores the whole state and the stream position except exactly when the event was a pong that sends a further ping and found its bit already set |
| PingPong.SampleRollbackIffUnlabelled | doc/example/tutorial-synthetic-ping-pong.c:197-219 | the sample reversal restores the state exactly when the two labels of the accumulator were clear |
| PingPong.RunIsStraight | doc/example/tutorial-synthetic-ping-pong.c:153-524 | after any mix of events, samples, rollbacks in reverse order and collections the LP is where the straight run of the surviving steps ends, collected amounts aside |
| PingPong.DeltasConserved | doc/example/tutorial-synthetic-ping-pong.c:153-219 | collected deltas and accumulator give the net event counts modulo 2^32, the samples not undone and their accumulator give them exactly, bytes are the payload size times pings and pongs sent |
| PingPong.Server.SampleOut | doc/example/tutorial-synthetic-ping-pong.c:197-204 | copies the accumulator out, labels the copy with the server and the time, clears the accumulator |
| PingPong.Server.SampleBack | doc/example/tutorial-synthetic-ping-pong.c:206-219 | adds the sampled counters back |
| PingPong.Server.CollectOut | doc/example/tutorial-synthetic-ping-pong.c:153-187 | copies the accumulators out and clears them |
| PingPongProtocol.DestinationExact | doc/example/tutorial-synthetic-ping-pong.c:301-325 | a server never pings itself nor the server before it; every other server is the outcome of some draw |
| PingPongProtocol.StartExact | doc/example/tutorial-synthetic-ping-pong.c:258-299 | at the start each server has min(num_initial_msgs, num_msgs) kickoffs, and nothing else is in flight |
| PingPongProtocol.StepKeepsInv | doc/example/tutorial-synthetic-ping-pong.c:258-471 | any delivery keeps the invariant of every server and of the messages in flight |
| PingPongProtocol.MessagesConserved | doc/example/tutorial-synthetic-ping-pong.c:301-446 | in every reachable state pings sent are pings received plus pings in flight, and the same for pongs |
| PingPongProtocol.RunsTerminate | doc/example/tutorial-synthetic-ping-pong.c:258-446 | every run ends within a number of deliveries given by the parameters |
| PingPongProtocol.Quiescence | doc/example/tutorial-synthetic-ping-pong.c:258-446 | when nothing is in flight each server has a pong for each ping and has sent at least num_msgs pings and at most num_msgs + K - 1 |
| Forwarding.NodeLp.HandleNext | doc/example_heterogeneous/example.c:107-134 | sends one ping to its forwarder, or stops on the wrong cluster |
| Forwarding.NodeLp.HandleRecvPing | doc/example_heterogeneous/example.c:136-162 | the assertions, the pong sent and the count |
| Forwarding.NodeLp.HandleRecvPong | doc/example_heterogeneous/example.c:164-173 | counts and sends the next ping while there are pings left |
| Forwarding.NodeLp.Handle | doc/example_heterogeneous/example.c:175-195 | dispatch of a node event |
| Forwarding.StepKeepsInv | doc/example_heterogeneous/example.c:107-290 | no delivery fails, every foo node has one message under way until it is done, and a bar node has counted every ping whose pong arrived or is under way |
| Forwarding.MessagesOnRoute | doc/example_heterogeneous/example.c:107-290 | in every reachable state each message is at the node or forwarder that the residues of its ping say |
| Forwarding.NeverAborts | doc/example_heterogeneous/example.c:136-295 | in no reachable state does a source assertion fail, an event type turn out unknown, or a message go to a receiver that does not exist |
| Forwarding.RunsTerminate | doc/example_heterogeneous/example.c:73-290 | every run ends, and every complete run has the same number of deliveries whatever their order |
| Forwarding.FinalCounts | doc/example_heterogeneous/example.c:73-173 | at the end each foo node stands at max(1, num_pings) and bar node j at that times (F/B + (F%B > j)) |
| Forwarding.NoMismatchIff | doc/example_heterogeneous/example.c:90-104 | node_finalize reports no mismatch anywhere exactly when num_pings is at least 1 |
| ConfigEqual.SectionEqual | src/modelconfig/configfile.c:85-192 | both the short-circuit and the report run decide the same relation, and the report has the lines of the specification, none exactly when the trees are equal |
| ConfigEqual.ReportExact | src/modelconfig/configfile.c:85-192 | the report has a line exactly for each divergence of the two trees: its kind, its path along sections of both and its values |
| ConfigEqual.EqualIsObserved | src/modelconfig/configfile.c:33-58 | trees accepted as equal answer every section path and key lookup the same, when the second has no name that is both key and section |
| ConfigEqual.ObservedIsEqualIff | src/modelconfig/configfile.c:85-201 | trees that no lookup tells apart are accepted exactly when the first has no key hidden by an earlier section of its name |
| ConfigEqual.EqualDecidesObservedIff | src/modelconfig/configfile.c:85-201 | the comparison against a tree decides observational equality exactly when the tree has no such clash |
| ConfigEqual.EqualIsEquivalence | src/modelconfig/configfile.c:195-201 | on trees without clashes and hidden keys it is an equivalence relation |
| ConfigEqual.HiddenKeyNotReflexive | src/modelconfig/configfile.c:85-192 | a section before a key of the same name: the tree is not equal to itself |
| ConfigEqual.ClashUnnoticed | src/modelconfig/configfile.c:33-48 | a key only the second tree has goes unnoticed beside a section of its name |
| ConfigEqual.FindKeyExact | src/modelconfig/configstore.c:265-296 | the lookup gives the values of the first entry of exactly this name, and nothing if there is none or if it is a section |
| ConfigEqual.FindSubIn | src/modelconfig/configstore.c:278-288 | the section found matches without regard to case; none is found only when none matches |
| DallyTopology.WriteIntra | scripts/dragonfly-dally/dragonfly-dally-topo-gen.py:114-126 | one link each way between any two routers of a group, and one of each router from number 257 on to itself, because of the identity test |
| DallyTopology.IntraFileCount | scripts/dragonfly-dally/dragonfly-dally-topo-gen.py:114-119 | the intra file names every ordered pair of different routers of a group once, and every router from number 257 on with itself |
| DallyTopology.WriteInter | scripts/dragonfly-dally/dragonfly-dally-topo-gen.py:128-150 | the file holds exactly the links of the reversal wiring and the matrix counts them |
| DallyTopology.Verify | scripts/dragonfly-dally/dragonfly-dally-topo-gen.py:82-105 | passes exactly when no row, no column and no pair of groups exceeds its budget |
| DallyTopology.RowsCheck | scripts/dragonfly-dally/dragonfly-dally-topo-gen.py:84-88 | the rows pass exactly when no router with a link to itself exceeds the radix |
| DallyTopology.NoRoomIff | scripts/dragonfly-dally/dragonfly-dally-topo-gen.py:22-28 | which happens exactly for the radixes from 515 on that are 3 mod 4 |
| DallyTopology.SelfLinkExceeds | scripts/dragonfly-dally/dragonfly-dally-topo-gen.py:114-118 | with radix 515 and 33282 wanted links these divide, and the radix is exceeded |
| DallyTopology.Generate | scripts/dragonfly-dally/dragonfly-dally-topo-gen.py:17-150 | the whole script ends well exactly when num_conn_between_groups divides the global links of a group and there is room for the links of routers to themselves |
| DallyTopology.AcceptedIsRegular | scripts/dragonfly-dally/dragonfly-dally-topo-gen.py:128-150 | if the wanted links divide, the global links are symmetric with exactly that many for every ordered pair of groups |
| DallyTopology.PairCheck | scripts/dragonfly-dally/dragonfly-dally-topo-gen.py:95-105 | no two groups have more links than wanted exactly when the divisibility holds |
| ReversalWiring.Involution | scripts/dragonfly-dally/dragonfly-dally-topo-gen.py:128-150 | port p of one group carries the reverse of port G-1-p of the other, and back |
| ReversalWiring.SymmetricIffDivides | scripts/dragonfly-dally/dragonfly-dally-topo-gen.py:128-150 | the links are symmetric exactly when the number of other groups divides the ports of a group |
| ReversalWiring.OutDegree | scripts/dragonfly-dally/dragonfly-dally-topo-gen.py:128-150 | every router starts exactly its number of global ports |
| ReversalWiring.PairsCount | scripts/dragonfly-dally/dragonfly-dally-topo-gen.py:110-150 | the exact number of links from one group to another |
| ReversalWiring.OthersPick | scripts/dragonfly-dally/dragonfly-dally-topo-gen.py:110-112 | the rolled list of the other groups picks group (me + 1 + k) mod n |
| PlusLargeTopology.WriteInter | scripts/dragonfly-plus/dragonfly-plus-topo-gen.py:62-145 | the LARGE branch with its closing checks writes the reversal wiring, and raises exactly unless there are as many spines as leaves and spines squared plus one groups |
| PlusLargeTopology.CloseChecks | scripts/dragonfly-plus/dragonfly-plus-topo-gen.py:119-145 | the matrix of ones is filled and neither the sum of a row nor of a column exceeds the upward radix |
| PlusLargeTopology.MarkedFits | scripts/dragonfly-plus/dragonfly-plus-topo-gen.py:137-140 | no row has more ones than a spine has global links |
| PlusLargeTopology.MarkedBack | scripts/dragonfly-plus/dragonfly-plus-topo-gen.py:142-145 | the matrix of ones is symmetric |
| PlusLargeTopology.WrittenIsRegular | scripts/dragonfly-plus/dragonfly-plus-topo-gen.py:86-145 | symmetric, every spine starts its budget of links, and the two radix checks cannot fail |
| PlusLargeTopology.OneLinkPerPair | scripts/dragonfly-plus/dragonfly-plus-topo-gen.py:86-145 | exactly one link from any group to any other |
| PlusNetwork.ConnectLocal | scripts/dragonfly-plus/dragonfly-plus-topo-gen-v2.py:368-376 | every spine of a group is connected with every leaf, both ways, and addConnection never refuses |
| PlusNetwork.LocalExact | scripts/dragonfly-plus/dragonfly-plus-topo-gen-v2.py:368-376 | these connections are there once each way and there are no others |
| PlusNetwork.LocalDegree | scripts/dragonfly-plus/dragonfly-plus-topo-gen-v2.py:402-451 | every router has s of them |
| PlusNetwork.Fill | scripts/dragonfly-plus/dragonfly-plus-topo-gen-v2.py:306-333 | the matrix over global router numbers counts the local and global connections |
| PlusNetwork.Fairness | scripts/dragonfly-plus/dragonfly-plus-topo-gen-v2.py:230-265 | the flag starts anew for each router, so only the last leaf decides, compared with the first by identity |
| PlusNetwork.LeavesFair | scripts/dragonfly-plus/dragonfly-plus-topo-gen-v2.py:247-265 | the comparison by identity fails exactly for more than 256 leaves |
| PlusNetwork.Verify | scripts/dragonfly-plus/dragonfly-plus-topo-gen-v2.py:210-273 | all checks pass exactly when the matrix is symmetric, no row exceeds the radix, the last leaf is fair, the groups have their connections, evenly, and (randomised script) the links add up |
| PlusNetwork.SymmetricIff | scripts/dragonfly-plus/dragonfly-plus-topo-gen-v2.py:213-218 | the whole matrix is symmetric exactly when the links between spines are |
| PlusNetwork.RowFits | scripts/dragonfly-plus/dragonfly-plus-topo-gen-v2.py:220-225 | no router uses more than its radix |
| PlusNetwork.TotalFits | scripts/dragonfly-plus/dragonfly-plus-random-topo-gen.py:297-305 | the entries of the matrix add up to the expected number of links |
| PlusNetwork.VerifyTopology | scripts/dragonfly-plus/dragonfly-plus-topo-gen-v2.py:210-273 | for regular global links the verification passes exactly when these are symmetric, the leaves at most 256 and the connection lists complete and even |
| PlusV2Topology.ConnectGlobal | scripts/dragonfly-plus/dragonfly-plus-topo-gen-v2.py:157-167 | the groups choose their connections and the spines write the links of the reversal wiring; addConnection never refuses |
| PlusV2Topology.Build | scripts/dragonfly-plus/dragonfly-plus-topo-gen-v2.py:78-104 | for every radix the constructor with its verification succeeds exactly when the wanted links and the other groups divide the global links of a group and there are at most 256 leaves |
| PlusV2Topology.EvenAccepts | scripts/dragonfly-plus/dragonfly-plus-topo-gen-v2.py:202-208 | for an even radix that is: the wanted links divide the global links, and 1 to 256 spines |
| PlusV2Topology.AcceptedIsRegular | scripts/dragonfly-plus/dragonfly-plus-topo-gen-v2.py:210-273 | an accepted network is symmetric with equal degrees and equally many links for every pair of groups, for an even radix as many as wanted |
| PlusV2Topology.OddRadixExceeds | scripts/dragonfly-plus/dragonfly-plus-topo-gen-v2.py:518-540 | with radix 5 and two wanted links the accepted network has three between groups |
| RandomPlusTopology.Connect | scripts/dragonfly-plus/dragonfly-plus-random-topo-gen.py:159-188 | c connections for every pair of groups, each entered in both lists |
| RandomPlusTopology.AssignRouters | scripts/dragonfly-plus/dragonfly-plus-random-topo-gen.py:411-425 | rounds of samples bring every spine equally many connections; an error exactly when the last round does not come out even, and setEndpoint never refuses |
| RandomPlusTopology.Bake | scripts/dragonfly-plus/dragonfly-plus-random-topo-gen.py:427-436 | every baked link leads from the own end to the other one; addConnection never refuses |
| RandomPlusTopology.Wire | scripts/dragonfly-plus/dragonfly-plus-random-topo-gen.py:159-188 | for every order of pairs, every shuffle and every sample the links of all groups, or the error of an uneven round |
| RandomPlusTopology.Generate | scripts/dragonfly-plus/dragonfly-plus-random-topo-gen.py:80-106 | for every radix, order, shuffle and sample the constructor with its verification succeeds exactly when the radix is even, the wanted links divide the global links of a group and there are 1 to 256 leaves |
| RandomPlusTopology.VerifyNetwork | scripts/dragonfly-plus/dragonfly-plus-random-topo-gen.py:232-305 | what was wired passes the verification exactly for an even radix with at most 256 leaves |
| RandomPlusTopology.ToGroupIs | scripts/dragonfly-plus/dragonfly-plus-random-topo-gen.py:398-399 | a group counts as many connections to another group as there are |
| RandomPlusTopology.NetworkIsRegular | scripts/dragonfly-plus/dragonfly-plus-random-topo-gen.py:411-498 | whatever the shuffles, the links are symmetric and every spine starts equally many |
| RandomPlusTopology.PairsPerGroup | scripts/dragonfly-plus/dragonfly-plus-random-topo-gen.py:159-188 | every group is in g - 1 pairs |
| PlusV3Topology.WriteSparse | scripts/dragonfly-plus/dragonfly-plus-topo-gen-v3.py:76-87 | the sparse branch writes its links and the assertion in rtrgid holds |
| PlusV3Topology.PortsDiffer | scripts/dragonfly-plus/dragonfly-plus-topo-gen-v3.py:79-82 | different (target group, i) use different ports |
| PlusV3Topology.StepBack | scripts/dragonfly-plus/dragonfly-plus-topo-gen-v3.py:81-82 | swapping the groups swaps the two ports |
| PlusV3Topology.SparseSymmetric | scripts/dragonfly-plus/dragonfly-plus-topo-gen-v3.py:76-87 | the links of the sparse branch are symmetric |
| PlusV3Topology.SparseDegree | scripts/dragonfly-plus/dragonfly-plus-topo-gen-v3.py:76-87 | no spine exceeds its ports, and every spine meets them when (g - 1) divides the total |
| PlusV3Topology.WriteDense | scripts/dragonfly-plus/dragonfly-plus-topo-gen-v3.py:64-74 | the dense branch writes its links |
| PlusV3Topology.ShiftIsBijection | scripts/dragonfly-plus/dragonfly-plus-topo-gen-v3.py:69-71 | for each i the target spine runs over all spines once |
| PlusV3Topology.DenseSymmetric | scripts/dragonfly-plus/dragonfly-plus-topo-gen-v3.py:64-74 | the links of the dense branch are symmetric |
| PlusV3Topology.DenseDegree | scripts/dragonfly-plus/dragonfly-plus-topo-gen-v3.py:64-74 | no spine exceeds its global ports |
| GeneratedLinks.DallyLink | scripts/dragonfly-dally/dragonfly-dally-topo-gen.py:128-150 | entry q of group x in the file, by numbers: from router q / h to the mirrored router of the group that comes q mod (g - 1) places after the next one, and how many entries there are, in terms of radix and wanted links |
| GeneratedLinks.DallyAccepted | scripts/dragonfly-dally/dragonfly-dally-topo-gen.py:17-105 | when the network is accepted, in terms of the two arguments |
| GeneratedLinks.LargeLink | scripts/dragonfly-plus/dragonfly-plus-topo-gen.py:107-135 | link q of group x, by numbers |
| GeneratedLinks.PlusV2Link | scripts/dragonfly-plus/dragonfly-plus-topo-gen-v2.py:157-167 | link q of group x, by numbers, in terms of radix and wanted links |
| GeneratedLinks.SparseLinks | scripts/dragonfly-plus/dragonfly-plus-topo-gen-v3.py:76-87 | how often two routers are joined in the sparse branch: by as many links as have their two ports at these spines |
| GeneratedLinks.DenseLinks | scripts/dragonfly-plus/dragonfly-plus-topo-gen-v3.py:64-74 | the same in the dense branch: by as many as the shift leads from the one to the other |
| GeneratedLinks.CrayLinks | scripts/gen-cray-topo/connections_general_patched.c:72-99 | the same for the Cray generator: by as many as leave and end at these residues |
| SimpleConnections.WriteInter | scripts/simple_con.c:32-66 | the loops with the running router counter write the list of the specification |
| SimpleConnections.LinksExact | scripts/simple_con.c:45-61 | every link is written once and nothing else: none within a group, none to a router that does not exist |
| SimpleConnections.OnePerPair | scripts/simple_con.c:45-61 | one link for each ordered pair of groups, between the two routers whose numbers name the other group |
| SimpleConnections.LinksSymmetric | scripts/simple_con.c:45-61 | the list is closed under reversal |
| SimpleConnections.NumLinksExact | scripts/simple_con.c:45-52 | a router has just as many links as there are groups of its residue |
| CrayTopology.WriteInter | scripts/gen-cray-topo/connections_general_patched.c:72-99 | the loops write the links of the specification and never report an invalid router |
| CrayTopology.LinksPerPair | scripts/gen-cray-topo/connections_general_patched.c:72-99 | exactly g_p links from any group to any other, none within a group |
| CrayTopology.CraySymmetric | scripts/gen-cray-topo/connections_general_patched.c:72-99 | between two routers as many links one way as the other |
| CrayTopology.DegreeExact | scripts/gen-cray-topo/connections_general_patched.c:82-88 | the exact number of global links of each router; any two differ by at most one |
| Residues.ResiduesExact | scripts/gen-cray-topo/connections_general_patched.c:87-88 | how many of the first n numbers leave remainder k |
| LinkFailures.Network.AddLink | scripts/dragonfly-dally/dragonfly-dally-link-fail-gen.py:65-88 | after n calls a pair of routers and type has ceil(n/2) links, at most the last of them unpaired; the other links stay |
| LinkFailures.KeysMeet | scripts/dragonfly-dally/dragonfly-dally-link-fail-gen.py:65-66 | calls meet in one key exactly when they join the same two routers, whichever way, by the same type |
| LinkFailures.Network.FindUnpaired | scripts/dragonfly-dally/dragonfly-dally-link-fail-gen.py:75-81 | the loop finds the unpaired link, which is the last one, exactly after an odd number of calls |
| LinkFailures.Network.CalcAdjacency | scripts/dragonfly-dally/dragonfly-dally-link-fail-gen.py:167-184 | v is listed under u exactly when a link of the plane that has not failed joins them |
| LinkFailures.DescribesExact | scripts/dragonfly-dally/dragonfly-dally-link-fail-gen.py:167-184 | the same, spelled out in the fields of the links |
| LinkFailures.Dfs | scripts/dragonfly-dally/dragonfly-dally-link-fail-gen.py:191-197 | visits a number modulo the plane once, from routers reachable from its start only, and leaves the numbers of all their neighbours visited; ends because fewer are unvisited |
| LinkFailures.IsConnected | scripts/dragonfly-dally/dragonfly-dally-link-fail-gen.py:199-206 | for any links: true exactly when the first router has a link and the search comes to every number of the plane; if the search meets routers of the plane only, or no link leaves its plane, exactly when every router is reachable from the first |
| LinkFailures.ConnectedReaches | scripts/dragonfly-dally/dragonfly-dally-link-fail-gen.py:199-206 | a plane that passes has for each of its numbers a router that the first one reaches |
| LinkFailures.ConnectedExact | scripts/dragonfly-dally/dragonfly-dally-link-fail-gen.py:199-206 | a search that meets only routers of the plane, and whose routers have neighbours only there, comes to every number exactly when every router is reachable |
| LinkFailures.WithinIsInside | scripts/dragonfly-dally/dragonfly-dally-link-fail-gen.py:191-206 | without links that leave their plane every search is such |
| LinkFailures.OutsideStandsIn | scripts/dragonfly-dally/dragonfly-dally-link-fail-gen.py:191-206 | a plane of two routers passes although the second cannot be reached, because a router outside has its number |
| TerminalFailures.FailFirst | scripts/dragonfly-dally/dragonfly-dally-link-fail-gen.py:143-147 | the first link that has not failed fails, if there is one, and no other |
| TerminalFailures.TermNetwork.FailRails | scripts/dragonfly-dally/dragonfly-dally-link-fail-gen.py:138-148 | one failure for each roll above the percentage, over all rails but one, the first good links first; the counter follows; an error exactly for a missing key that is needed |
| TerminalFailures.TermNetwork.FailTermLinksSafe | scripts/dragonfly-dally/dragonfly-dally-link-fail-gen.py:134-148 | every terminal of every router loses the links its rolls say and no other key changes; the counter grows by the good links lost; an error exactly when a key is missing for which some roll is above the percentage; without such a roll nothing changes |
| TerminalFailures.LostExact | scripts/dragonfly-dally/dragonfly-dally-link-fail-gen.py:134-148 | a terminal loses the smaller of its good links and its rolls above the percentage, over all rails but one: a good link fails exactly if fewer good ones come before it than rolls are above |
| TerminalFailures.NoneAbove | scripts/dragonfly-dally/dragonfly-dally-link-fail-gen.py:138-140 | if no roll is above the percentage, no key is needed and nothing changes |
| TerminalFailures.HarmlessExact | scripts/dragonfly-dally/dragonfly-dally-link-fail-gen.py:138-143 | the key of a terminal is needed exactly when one of its rolls is above the percentage |
| TerminalFailures.OneIsLeft | scripts/dragonfly-dally/dragonfly-dally-link-fail-gen.py:138-148 | whatever the rolls, a terminal with a good link for every rail keeps one |
| JobPlacement.Place | src/modelconfig/config_compiler.cxx:1659-1690 | accepts exactly the job lists whose requested slots exist and are pairwise different, and returns their slots |
| JobPlacement.RanksFit | src/modelconfig/config_compiler.cxx:1691-1694 | the closing check on the number of ranks can never fail |
| JobPlacement.AllocationsDisjoint | src/modelconfig/config_compiler.cxx:1659-1690 | two jobs never share a slot |
| JobPlacement.SlotsExact | src/modelconfig/config_compiler.cxx:1660-1671 | a listed job gets its nodes, a contiguous one slots in a row, the first of these from slot 0 on |
| JobPlacement.NextSlots | src/modelconfig/config_compiler.cxx:1657-1668 | a contiguous job starts where the contiguous job before it ends |
| JobPlacement.Compile | src/modelconfig/config_compiler.cxx:1625-1727 | which section follows PARAMS, and exactly when the workload and jobs are accepted |
| JobPlacement.SingleJobIsInline | src/modelconfig/config_compiler.cxx:1696-1700 | one contiguous job on all slots compiles to the same tree as the inline workload |
| JobPlacement.NodesReadBack | src/modelconfig/config_compiler.cxx:1708-1724 | a lookup of nodes and ranks gives back the allocation |
| JobPlacement.WorkloadReads | src/modelconfig/config_compiler.cxx:1599-1609 | a lookup of type, traffic, num_messages, payload_size or arrival_time gives that parameter if it is present, and nothing else |
| JobPlacement.JobLookup | src/modelconfig/config_compiler.cxx:1706-1724 | a lookup of a job id opens the first job whose id is the same ignoring case |
| JobPlacement.ReachableIff | src/modelconfig/config_compiler.cxx:1706-1724 | a job of an accepted list can be looked up by its id exactly when no earlier job has that id ignoring case |
| JobPlacement.CaseHidesJob | src/modelconfig/config_compiler.cxx:1138-1143 | two ids that differ in case only are accepted and the later job cannot be reached |
| Decimal.ShowValue | src/modelconfig/config_compiler.cxx:1705-1724 | the decimal text of a number reads back as the number |
| DimLists.ParseDimLengths | src/modelconfig/config_compiler.cxx:393-419 | the loop over the text computes the specification |
| DimLists.LengthsExact | src/modelconfig/config_compiler.cxx:393-419 | a text is accepted as a list of dimensions exactly when it is such a list: positive numbers that fit, commas between, white space and a plus sign before and spaces after |
| DimLists.JoinIsRead | src/modelconfig/config_compiler.cxx:393-419 | any list of positive numbers that fit is read back, however it is spaced |
| DimLists.PrintedIsRead | src/modelconfig/config_compiler.cxx:393-419 | reading inverts printing |
| DimLists.MeshNodeCount | src/modelconfig/config_compiler.cxx:425-441 | an error exactly for a malformed list, a wrong n_dims or a product above LONG_MAX, else the product |
| DimLists.ProductCountsNodes | src/modelconfig/config_compiler.cxx:421-441 | the product is the number of nodes of the mesh, one for each choice of a coordinate in every dimension |
| DimLists.GuardExact | src/modelconfig/config_compiler.cxx:434-438 | the guard by division fires exactly when the next product is too large |
| NamedLists.PutAllExact | src/modelconfig/config_compiler.cxx:645-651 | after any number of definitions every name is there once, with its last definition |
| NamedLists.OverwriteAllExact | src/modelconfig/config_compiler.cxx:203-211 | the same for settings overwritten in place |
| ConfigMerge.Merger.ParseComponents | src/modelconfig/config_compiler.cxx:611-652 | each component replaces an earlier one of its key |
| ConfigMerge.Merger.ParseTopology | src/modelconfig/config_compiler.cxx:744-819 | from a cleared topology: exactly what the block says |
| ConfigMerge.Merger.ParseSections | src/modelconfig/config_compiler.cxx:907-933 | accepts exactly sections with a free name and the required keys; each replaces an earlier one of its name ignoring case |
| ConfigMerge.Merger.SetSimulation | src/modelconfig/config_compiler.cxx:203-211 | the loop overwrites the setting of that name or appends one |
| ConfigMerge.Merger.MergeDocument | src/modelconfig/config_compiler.cxx:1259-1282 | one more document: components, sections and settings override by name, topology and jobs wholly |
| ConfigMerge.Merger.MergeAll | src/modelconfig/config_compiler.cxx:1736-1751 | the included documents and then the main one give the merged configuration, exactly when each is valid |
| ConfigMerge.MergedExact | src/modelconfig/config_compiler.cxx:1259-1282 | component, section and setting names are unique and stand for their last definitions |
| ConfigMerge.MergedOk | src/modelconfig/config_compiler.cxx:907-933 | every merged configuration meets what compiling relies on |
| ConfigCompile.AddUserParam | src/modelconfig/config_compiler.cxx:1382-1393 | appends the resolved key, refusing derived names and values that do not resolve |
| ConfigCompile.UserKeysExact | src/modelconfig/config_compiler.cxx:1382-1398 | a list of parameters is accepted exactly when none has a derived name and every value resolves; then each gives one key, in order, with its resolved values |
| ConfigCompile.CompileFabric | src/modelconfig/config_compiler.cxx:1403-1510 | LPGROUPS, PARAMS and slots of a parametric fabric, or an error |
| ConfigCompile.FabricExact | src/modelconfig/config_compiler.cxx:1403-1510 | exactly when a fabric compiles, its number of slots, and its keys: the derived order and then the resolved parameters |
| ConfigCompile.FabricParamAt | src/modelconfig/config_compiler.cxx:1470-1510 | the parameters stand in the order shape, links, routing, connections, extras, lists, host, under the names they are emitted with |
| ConfigCompile.LinkParamAt | src/modelconfig/config_compiler.cxx:1475-1478 | a parameter of a link class is named after the class and itself, class by class in order |
| ConfigCompile.CompileFlat | src/modelconfig/config_compiler.cxx:1516-1551 | the same for a flat topology |
| ConfigCompile.FlatExact | src/modelconfig/config_compiler.cxx:1516-1551 | exactly when a flat topology compiles, its number of slots and its keys |
| ConfigCompile.ApplySimulation | src/modelconfig/config_compiler.cxx:1561-1581 | the settings after the other keys, refused exactly when a key already has a name of theirs |
| ConfigCompile.Compile | src/modelconfig/config_compiler.cxx:1752-1795 | exactly which merged configurations compile, and to what |
| ConfigCompile.CompileDocuments | src/modelconfig/config_compiler.cxx:1736-1795 | the same from the documents on |
| ConfigCompile.TopologySections | src/modelconfig/config_compiler.cxx:907-933 | the output has exactly one LPGROUPS and one PARAMS, ignoring case |
| ConfigCompile.TopologyFound | src/modelconfig/config_compiler.cxx:1752-1795 | a lookup of either opens that one |
| ConfigCompile.OrderFound | src/modelconfig/config_compiler.cxx:1456-1464 | modelnet_order is the first key of PARAMS, no other has its name, and a lookup returns the terminal, and behind it the router if it is a method of its own |
| ConfigCompile.SettingFound | src/modelconfig/config_compiler.cxx:1553-1581 | each simulation setting is in PARAMS once and a lookup returns it |
| ConfigCompile.SettingIsLastSaid | src/modelconfig/config_compiler.cxx:1272-1282 | a setting reads as the last document that gives it says |
| ConfigCompile.SectionIsLastSaid | src/modelconfig/config_compiler.cxx:907-933 | a pass-through section reads as the last document that gives it says, unless the workload section has its name |
| ConfigCompile.PassthroughFound | src/modelconfig/config_compiler.cxx:1784-1792 | what a lookup of a pass-through section opens: the workload or jobs section if it has that name, else the section |
| ConfigCompile.PassthroughFoundIff | src/modelconfig/config_compiler.cxx:1784-1792 | a pass-through section that differs from the workload or jobs section is what a lookup opens exactly when that one does not have its name |
| ConfigCompile.WorkloadHidesSection | src/modelconfig/config_compiler.cxx:1613-1616 | beside a workload a lookup of a pass-through section called workload opens the workload |
| ConfigCompile.WorkloadHidden | src/modelconfig/config_compiler.cxx:1613-1616 | a document with such a section is accepted, and a lookup does not give what it says |
| ConfigFound.ItemsExact | src/modelconfig/config_compiler.cxx:654-688 | a fabric holds, for shape, links, routing, connections, scalars and lists each, the entries of the blocks of that kind in document order |
| ConfigFound.ModelIsLast | src/modelconfig/config_compiler.cxx:657-658 | the model of a fabric is the one named last |
| ConfigFound.TopologyIsLast | src/modelconfig/config_compiler.cxx:1259-1282 | the merged topology is that of the last document that has one |
| ConfigFound.JobsAreLast | src/modelconfig/config_compiler.cxx:1074-1080 | the merged jobs are those of the last document that has any |
| ConfigFound.SettingSaidBy | src/modelconfig/config_compiler.cxx:203-211 | a setting that nothing later gives is what stands for its name |
| ConfigFound.SectionSaidBy | src/modelconfig/config_compiler.cxx:922-932 | the same for a pass-through section, ignoring case |
| ConfigFound.ComponentSaidBy | src/modelconfig/config_compiler.cxx:645-651 | the same for a component |
| ConfigFound.FabricSaidBy | src/modelconfig/config_compiler.cxx:744-775 | from the documents to the lists of the merged fabric |
| ConfigFound.FabricParamFound | src/modelconfig/config_compiler.cxx:1470-1510 | a lookup of a fabric parameter in the compiled PARAMS gives the values of the first one of its name, each resolved |
| ConfigFound.FlatParamFound | src/modelconfig/config_compiler.cxx:1541-1551 | the same for a flat topology |
| ConfigFound.RoutingIsSaid | src/modelconfig/config_compiler.cxx:670-672 | from the documents to the lookup: with one routing block in the last topology, and no parameter called routing before it, routing reads as the resolved algorithm |
| ConfigFound.FabricLps | src/modelconfig/config_compiler.cxx:1445-1454 | the group of a fabric lists repetitions, the model of the host, the terminal and the router LP in this order, the host and the terminal once for each terminal |
| ConfigFound.FabricLpsFound | src/modelconfig/config_compiler.cxx:1445-1454 | lookups in the compiled LPGROUPS give these numbers for a fabric, and the node slots are the product of repetitions and terminals |
| ConfigFound.FlatLpsFound | src/modelconfig/config_compiler.cxx:1536-1542 | the same for a flat topology: nodes, one workload and one NIC each |
| ConfigFound.GroupFound | src/modelconfig/config_compiler.cxx:696-742 | an explicit group opens with its repetitions first and then its LP types in order with their counts, and PARAMS is as written |
| ConfigFound.GroupReads | src/modelconfig/config_compiler.cxx:729-741 | a lookup in such a group gives the repetitions, and the first count of an LP type |
| ConfigFound.WorkloadFound | src/modelconfig/config_compiler.cxx:1595-1616 | the parameters of an inline workload are read from the compiled section WORKLOAD |
| ConfigFound.JobsFound | src/modelconfig/config_compiler.cxx:1706-1724 | from the compiled section JOBS are read the number of jobs and, for each job that none hides, its nodes, ranks and workload parameters |
| ConfigFound.WorkloadSits | src/modelconfig/config_compiler.cxx:1632-1650 | an accepted inline workload sits on the component that the topology runs, and no jobs stand beside it |
| ConfigFound.ResourceIsComplete | src/modelconfig/config_compiler.cxx:893-905 | an accepted resource section has the key available |
| ConfigFound.GroupsArePositive | src/modelconfig/config_compiler.cxx:714-741 | accepted explicit groups have positive repetitions, LPs and counts |
| ConfigFound.SettingsAreKnown | src/modelconfig/config_compiler.cxx:1174-1200 | accepted settings are end_time and pe_mem_factor |
| ConfigFound.JobsAreSound | src/modelconfig/config_compiler.cxx:1074-1170 | accepted jobs have different non-empty ids, positive ranks, and as many nodes as ranks where they list them |
| ConfigEmit.EmitKeys | src/modelconfig/config_emitter.cxx:18-26 | every key goes to the end of the section |
| ConfigEmit.EmitSection | src/modelconfig/config_emitter.cxx:28-35 | the recursive walk adds one section with its keys first and its subsections after them |
| ConfigEmit.LookupsAgree | src/modelconfig/config_emitter.cxx:18-46 | a key in the store reads as the first compiled key of its name, a section opens as the first compiled subsection of its name ignoring case |
| ConfigEmit.EmissionIsFaithful | src/modelconfig/config_emitter.cxx:28-46 | different compiled sections give different stores |
| ConfigEmit.EmittedNoHiddenKey | src/modelconfig/config_emitter.cxx:28-35 | in an emitted tree no key is hidden by a section |
| ConfigEmit.EmittedEqualsAlike | src/modelconfig/config_emitter.cxx:28-46 | the comparison accepts every tree that no lookup tells from an emitted one, itself included |
| Bytes.UnpackPack | scripts/parse-ross-model-stats.py:31-33 | unpacking inverts packing, whatever bytes follow |
| Bytes.PackUnpack | scripts/parse-ross-model-stats.py:31-33 | packing inverts unpacking |
| Bytes.FourBytes | scripts/parse-ross-model-stats.py:31-33 | the first of four bytes counts units, each next one 256 times as much as the one before, and the upper half of a signed field is below zero |
| Bytes.EightBytes | scripts/parse-ross-model-stats.py:31-33 | the same for eight bytes |
| Bytes.FieldAt | scripts/parse-ross-model-stats.py:31-33 | each field is read from its own bytes, right behind those of the fields before it |
| StatsFraming.ModelRecord | scripts/parse-ross-model-stats.py:218-240 | a record of ten header fields whose first is 3 and whose second is 24 is taken with a payload as long as the tenth says, and the loop goes on behind it; any other value of these two, or a payload cut short, is a FormatError |
| StatsFraming.VtRecord | scripts/parse-ross-model-stats.py:261-279 | a record of seven header fields whose last is 3 is taken with a payload as long as the sixth says, a negative one steps back by that many bytes, and -48 or less does not get past it; any other flag, or a payload cut short, is a FormatError |
| StatsFraming.ModelHeaderBytes | scripts/parse-ross-model-stats.py:31-32 | the bytes that each field of a model header is read from |
| StatsFraming.VtHeaderBytes | scripts/parse-ross-model-stats.py:33 | the bytes that each field of a virtual-time header is read from |
| StatsFraming.RoundTrip | scripts/parse-ross-model-stats.py:218-298 | a file of well-formed records is read back as those records in order |
| StatsFraming.AcceptedIsWritten | scripts/parse-ross-model-stats.py:218-298 | an accepted file without negative lengths is exactly the records that were read |
| StatsFraming.CutExact | scripts/parse-ross-model-stats.py:225-237 | a cut is accepted exactly between two records, any other raises FormatError |
| StatsFraming.CutAtBoundary | scripts/parse-ross-model-stats.py:224-240 | a cut after some records gives those records |
| StatsFraming.BoundaryExact | scripts/parse-ross-model-stats.py:224-240 | the accepted cuts are the lengths of the first few records |
| StatsFraming.ScannedSizes | scripts/parse-ross-model-stats.py:238-240 | each record read has the payload its header says, and none for a length below zero |
| StatsFraming.UnsignedProgresses | scripts/parse-ross-model-stats.py:218-258 | with an unsigned length the loop ends on every byte string |
| StatsDecoders.DecodeSvrModel | scripts/parse-ross-model-stats.py:42-59 | reads its fields and exactly 44 bytes |
| StatsDecoders.DecodeTerminalModel | scripts/parse-ross-model-stats.py:62-89 | reads its fields and exactly its dispatch size, for all rails and qos |
| StatsDecoders.DecodeRouterModel | scripts/parse-ross-model-stats.py:92-111 | the same for all radixes |
| StatsDecoders.DecodeSvrVt | scripts/parse-ross-model-stats.py:114-131 | reads its fields and exactly 72 bytes |
| StatsDecoders.DecodeTerminalVt | scripts/parse-ross-model-stats.py:134-165 | reads scalars, the hops as a double, and arrays around the pointer slots and exactly its dispatch size |
| StatsDecoders.DecodeRouterVt | scripts/parse-ross-model-stats.py:168-189 | the same for the router sample |
| StatsRows.SvrModelFields | scripts/parse-ross-model-stats.py:42-59 | name, format and offset of each of the eight values of a server |
| StatsRows.SvrVtFields | scripts/parse-ross-model-stats.py:114-131 | the same for the nine values of its virtual-time sample |
| StatsRows.TerminalModelFields | scripts/parse-ross-model-stats.py:62-70 | name, format and offset of the first five values of a terminal |
| StatsRows.TerminalModelPackets | scripts/parse-ross-model-stats.py:74-77 | the same for its four packet counts, behind the busy times |
| StatsRows.TerminalModelRail | scripts/parse-ross-model-stats.py:71-80 | the same for the busy time and the stalled chunks of each rail |
| StatsRows.TerminalQueue | scripts/parse-ross-model-stats.py:81-88 | the same for both queue lengths of each QoS level of each rail, among themselves |
| StatsRows.TerminalModelQueues | scripts/parse-ross-model-stats.py:81-88 | where these begin in the sample of a terminal |
| StatsRows.TerminalModelLength | scripts/parse-ross-model-stats.py:62-89 | and there are no other values |
| StatsRows.TerminalVtFields | scripts/parse-ross-model-stats.py:134-149 | name, format and offset of the twelve scalars of its virtual-time sample |
| StatsRows.TerminalVtRail | scripts/parse-ross-model-stats.py:150-156 | the same for the busy time and the stalled chunks of each rail, among the arrays |
| StatsRows.TerminalVtQueues | scripts/parse-ross-model-stats.py:157-164 | where the queue lengths begin among the arrays |
| StatsRows.TerminalVtLength | scripts/parse-ross-model-stats.py:134-165 | and there are no other arrays |
| StatsRows.RouterModelPort | scripts/parse-ross-model-stats.py:92-101 | name, format and offset of the busy time and the traffic of each port of a router, which alternate |
| StatsRows.RouterPort | scripts/parse-ross-model-stats.py:102-110 | the same for the three counts of each port, among themselves |
| StatsRows.RouterModelCounts | scripts/parse-ross-model-stats.py:102-110 | where these begin in the sample of a router |
| StatsRows.RouterModelHead | scripts/parse-ross-model-stats.py:92-111 | the number of the router comes first, and how many values there are |
| StatsRows.RouterVtFields | scripts/parse-ross-model-stats.py:168-172 | name, format and offset of the four scalars of its virtual-time sample |
| StatsRows.RouterVtPort | scripts/parse-ross-model-stats.py:173-179 | the same for the busy time and the traffic of each port, which come in two arrays |
| StatsRows.RouterVtCounts | scripts/parse-ross-model-stats.py:180-188 | where the counts begin among the arrays |
| StatsRows.RouterVtLength | scripts/parse-ross-model-stats.py:168-189 | and there are no other arrays |
| StatsRows.ModelShows | scripts/parse-ross-model-stats.py:242-258 | each field of the layout for a kind of LP stands in the row at its place, with the value its bytes have |
| StatsRows.SvrVtShowsField | scripts/parse-ross-model-stats.py:281-297 | the same for the virtual-time sample of a server |
| StatsRows.TerminalVtShows | scripts/parse-ross-model-stats.py:281-297 | the same for that of a terminal, whose arrays begin at byte 128 |
| StatsRows.RouterVtShows | scripts/parse-ross-model-stats.py:281-297 | the same for that of a router, whose arrays begin at byte 72 |
| StatsRows.OneModelRecord | scripts/parse-ross-model-stats.py:218-258 | the bytes of one model record with a payload for a kind of LP give one row, for that kind, and nothing else |
| StatsRows.OneVtRecord | scripts/parse-ross-model-stats.py:261-298 | the same for one virtual-time record |
| StatsDecoders.Collect | doc/example/tutorial-synthetic-ping-pong.c:153-187 | writes the packed accumulators of the server into the first 44 bytes, touches nothing else and leaves the server as the collection specifies |
| StatsParser.CollisionExact | scripts/parse-ross-model-stats.py:192-215 | FormatError exactly for the configurations whose payload sizes collide |
| StatsParser.DispatchExact | scripts/parse-ross-model-stats.py:192-215 | else each size goes to the one kind of LP that has it |
| StatsParser.Parser.Parse | scripts/parse-ross-model-stats.py:218-298 | number of records, outcome and collected output of the loop up to a record it does not get past; and after as many turns the original loop has ended alike, or stands at that record |
| StatsParser.Parser.ParseTurns | scripts/parse-ross-model-stats.py:261-298 | the virtual-time loop for any number of turns, also after it has gone back: where it is or how it ended, and every row and unknown payload it has collected |
| StatsParser.DecodedIsWhole | scripts/parse-ross-model-stats.py:276-297 | wherever the loop is, a payload that a decoder accepts has its whole size |
| StatsParser.AbsorbedExact | scripts/parse-ross-model-stats.py:250-258 | each record adds one line for the kind of LP its size names, or to the unknown payloads |
| StatsParser.WrittenIsParsed | scripts/parse-ross-model-stats.py:218-298 | a written file gives, for each kind of LP, the lines of its records in order |
| StatsParser.CollectedIsShown | doc/example/tutorial-synthetic-ping-pong.c:153-187 | what the callback wrote into a payload is what the table shows |
| StatsLoop.LoopIsScan | scripts/parse-ross-model-stats.py:261-298 | when the scan gets through, the loop on signed offsets ends alike after one turn more than records; otherwise it comes to a record whose length does not lead past it |
| StatsLoop.LoopTakesScan | scripts/parse-ross-model-stats.py:261-298 | the loop takes the records of the scan, and when the scan gets through no others, however many turns are given to it |
| StatsLoop.ForeverExact | scripts/parse-ross-model-stats.py:266-298 | the loop never ends exactly when it comes back to a position, which is exactly when it has not ended after twice as many turns as bytes, and one |
| StatsLoop.SliceExact | scripts/parse-ross-model-stats.py:278 | what a slice of the data is for bounds inside, below zero and outside |
| StatsLoop.HeaderFromEnd | scripts/parse-ross-model-stats.py:267 | a header at an offset below zero is the one counted from the end of the data |
| StatsLoop.StaysPut | scripts/parse-ross-model-stats.py:266-279 | at any offset a length of minus one header keeps the loop where it is |
| StatsLoop.BlockedForever | scripts/parse-ross-model-stats.py:266-279 | a length that leads back to where the loop was keeps it going for ever in front of the end of the data |
| StatsLoop.BlockedOutside | scripts/parse-ross-model-stats.py:266-279 | a length that leads to where nothing can be unpacked ends it with an exception that is not FormatError |
| StatsLoop.SingleHeader | scripts/parse-ross-model-stats.py:266-279 | a file of one header: only minus its own length runs for ever |
| StatsParser.StuckForever | scripts/parse-ross-model-stats.py:266-298 | behind any records, a record with the length -48 keeps the loop there, and before the end of the data, for ever |
| StatsParser.StuckExact | scripts/parse-ross-model-stats.py:266-279 | a virtual-time header alone, of length -48 or less, is taken for ever exactly when the length is -48 |
| StatsParser.StuckFiles | scripts/parse-ross-model-stats.py:266-279 | there are such files: with -48 the loop never ends, with -49 it does |
| StatsParser.BackAndForth | scripts/parse-ross-model-stats.py:266-279 | two headers of lengths 0 and -96 are taken in turns for ever |

## Left out

- QuickHash.HashTable.constructor: allocation failures, locks and freeing are not modelled; the compare callback is assumed to decide equality of keys and the hash to land in range.
- QuickList.Find: values behind the links (`qlist_entry` offsets) are not modelled; the callbacks take the link.
- HashFunctions.MaskedInRange: the mixing steps of the two integer hashes are not modelled, because any word ends in range after the mask.
- PingPong.Server.Handle: rounding of `double` and `tw_stime` is not modelled; they are real numbers.
- PingPongProtocol.Quiescence: asks for at least three nodes, because with fewer the source draws from an empty range.
- Forwarding.FinalCounts: 32-bit overflow of `num_pings` times the multiplicity and the forwarders' own counters, which nothing reads, are not modelled.
- ConfigEqual.SectionEqual: the 1024-byte buffers for names and paths, NULL values and the text of the report lines are not modelled; a report is a list of divergences.
- ConfigMerge.Merger.MergeAll: takes documents as parsed values; YAML, `schema_version`, top-level key names and the resolution of units are not modelled (`resolve` is an arbitrary function).
- ConfigMerge.Merger.ParseJobs: the checks on one job are a predicate on the whole list.
- ConfigCompile.CompileFabric: the arithmetic that derives a layout from a shape and the model registry are parameters; overflow of the number of slots is not modelled.
- ConfigCompile.Compile: its output is in the form of the store, keys before subsections, as emission leaves it.
- ConfigEmit.EmitSection: the store that is filled in place is a value that is passed along.
- DimLists.MeshNodeCount: `n_dims` is given as a number.
- DallyTopology.Generate: the float division of the group count is exact.
- DallyTopology.WriteIntra: `is not` on numbers of two ranges is identity as CPython has it, with one object for each number up to 256; another interpreter can share more.
- PlusNetwork.Fairness: the same for `is not` on lengths (dragonfly-plus-topo-gen-v2.py:239-265).
- PlusNetwork.Fill: matrix entries are integers, not floating-point numbers.
- PlusV2Topology.Build: asks for a positive number of links between groups, and a radix below zero is not modelled.
- RandomPlusTopology.Generate: asks for a positive number of links between groups; `random.shuffle` and `random.sample` are arbitrary functions with the properties their documentation gives, and the order of the set of pairs is an argument.
- PlusLargeTopology.WriteInter: the MEDIUM and SMALL branches and the redundant mode are not modelled.
- SimpleConnections.WriteInter: the intra-group file is not modelled; a negative count behaves as 0.
- CrayTopology.WriteInter: the intra-group file is not modelled; routers are pairs of group and number.
- LinkFailures.IsConnected: when the search meets routers outside the plane, which numbers the search comes to depends on the order of the neighbours, and only what holds for every order is stated.
- LinkFailures.Network.AddLink: the random choice of router links to fail and the matrix forms that call numpy are not modelled.
- TerminalFailures.TermNetwork.FailTermLinksSafe: the rolls are an arbitrary function; how many links a terminal has before the call is a premise of `OneIsLeft`.
- StatsDecoders.Collect: the bit pattern of a double is an arbitrary function of a real number.
- StatsParser.Parser.Parse: stops at a record that the loop does not get past, from where only `ParseTurns` goes on; floating-point fields are their bit patterns; the names of statistics types and CSV output are not modelled.
- ROSS, MPI, file access, model-net schedulers, congestion control, the network manager and the other parts that the repository shows only as headers are not part of this model.
- `doc/example/example.c` has the request and answer shape of the ping-pong with fewer branches and would only add easy members.
- The generated lexer and parser of `src/iokernellang` are machine output.
