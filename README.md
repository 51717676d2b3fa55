# disrupture — a verified model of the transit-disruption core

disrupture models a city transit network (trams, trolleybuses, metro and
commuter rail) as an undirected graph of stations. Every edge records the line
that serves it and a travel time. On top of that graph the project:

- classifies each line by its name and adds its stations as edges (`add_lines`);
- parses line records of the form `name: station, station, ...`;
- reduces a path's per-segment sets of serving lines to a short itinerary with
  few changes (`minimize_changes`);
- prices a path with boarding and transfer penalties;
- simulates journeys, closes a station and re-routes every journey
  (`Simulator`);
- greedily schedules disjoint groups of disruptions by score
  (`schedule_disruptions`).

The Dafny project has one module per concern:

| file | module | models |
|---|---|---|
| `outcomes.dfy` | `Outcomes` | Python exceptions as values: `Result`, `Option`, `Status` |
| `transit_graph.dfy` | `Transit` | `TransitGraph`: the graph class, `travel_times`, line classification, `add_lines` |
| `line_records.dfy` | `LineRecords` | the per-record parse `line.strip().split(':', 1)`, stations split on `,` and stripped |
| `line_minimisation.dfy` | `LineMinimisation` | `minimize_changes` and its inner `strip_extra_lines` |
| `transfer_penalty.dfy` | `TransferPenalty` | `add_edges_with_penalty` and `shortest_path_with_transfer_penalty` |
| `simulator.dfy` | `Simulation` | the `Simulator` class: journeys, disruption and re-routing, `get_stats`, the selection of `plot_delay` |
| `scheduler.dfy` | `Scheduling` | `min_index_with_none` and the greedy elimination loop of `schedule_disruptions` |
| `sequences.dfy` | `Sequences` | small facts about sequences shared by the proofs |

Some things change in place in the program: the graph, the simulator's
journey list, and the scheduler's working lists. The model keeps them as
classes with `modifies` clauses, or as methods with loops. Each of these is
specified by a pure function on values: `AddPath` for edge insertion,
`Generate` and `Replay` for journeys, `Stripped` and `Minimize` for line
minimisation, `CostAlong` and `PathCost` for pricing, and the
`CombosLeft`/`ScoresLeft`/`Removed` state for the scheduler. The properties
are proved as lemmas about those functions. An undirected edge is keyed by
the set `{u, v}`, so `(u, v)` and `(v, u)` name the same edge.

Python exceptions become explicit results. An `Err`/`Raised` value carries
`IndexError`, `KeyError`, `ValueError`, `TypeError`, `AssertionError`,
`NoPath` (networkx `NetworkXNoPath`) or `GraphError` (networkx
`NetworkXError`). `Exited` stands for `quit()`.

Shortest-path search belongs to networkx, so it is a parameter. In the
simulator a *router* maps the current graph and two stations to a route, or
to None when there is no path. For the transfer-penalty cost, the path
networkx returned is given. The random draws of `random.sample` are a given
sequence of pairs, one per journey. The scheduler's scores come from a
simulation loop outside this model, so they are an input list with one score
per combination.

## Model

| member | source | states |
|---|---|---|
| Transit.ModeOf | TransitGraph.py:31-40 | the name's mode is found exactly when it starts with `U` (metro), else `S` (commuter), else is all digits (tram); an empty name raises IndexError, any other ValueError; the mode is a key of `travel_times` |
| Transit.TransitTime | TransitGraph.py:29-42 | without a custom type the time exists exactly when the name is classifiable; a custom type yields its `travel_times` entry, KeyError when absent; every time is 2 |
| Transit.DigitNamesAreTram | TransitGraph.py:32-38 | an all-digit name is a tram line, since a digit is neither `U` nor `S` |
| Transit.WithEdge | TransitGraph.py:46-51 | networkx `add_edge(u, v)`: both endpoints become stations, the one edge `{u, v}` (in either orientation) carries the new data, and every other edge keeps its presence and data |
| Transit.WithoutNode | Simulator.py:58 | networkx `remove_node(v)`: `v` is no longer a station, no remaining edge touches it, every edge not touching it is kept with its data, and a graph whose edges join its stations stays so |
| Transit.AddPath | TransitGraph.py:44-51 | the loop of `add_lines` never loses a station or an edge of the graph it starts from |
| Transit.AddPathClosedForm | TransitGraph.py:44-51 | after adding a station list: the nodes are the old ones plus the stations (none if fewer than two); the edges are the old ones plus each consecutive pair, which carries the new line and time; every other edge keeps its data |
| Transit.ConsecutivePairsAreEdges | TransitGraph.py:44-51 | every consecutive pair of stations is an edge in both orientations, with the given line and weight |
| Transit.OtherEdgesUntouched | TransitGraph.py:44-51 | an edge that is not a consecutive pair of the list is present afterwards exactly when it was before, with the same data |
| Transit.ShortListAddsNothing | TransitGraph.py:44 | a list of fewer than two stations changes nothing |
| Transit.AddPathWellFormed | TransitGraph.py:46-51 | adding lines keeps every edge between stations of the graph |
| Transit.ReAddOverwrites | TransitGraph.py:46-51 | re-adding a pair in the other order overwrites the one edge (last write wins) and creates no second edge |
| Transit.TransitGraph.constructor | TransitGraph.py:6-12 | a new graph has no stations and no edges |
| Transit.TransitGraph.HasNode | Simulator.py:49 | `has_node(v)` holds exactly when `v` is a station of the graph; in a well-formed graph every end of an edge is a station |
| Transit.TransitGraph.HasEdge | testing.py:111-112 | `has_edge(u, v)` holds exactly when the edge `(v, u)` is present: it is symmetric |
| Transit.TransitGraph.GetEdgeData | testing.py:72 | `get_edge_data` gives the edge's data when the edge exists in either orientation, and None otherwise |
| Transit.TransitGraph.AddEdge | TransitGraph.py:46-51 | adds both endpoints and sets the data of the single edge between them |
| Transit.TransitGraph.RemoveNode | Simulator.py:58 | an absent station raises the graph error and changes nothing; otherwise the station and every edge touching it are gone, and nothing else changes |
| Transit.TransitGraph.AddLines | TransitGraph.py:29-51 | on a classification error the error is raised and the graph is unchanged; otherwise the graph becomes the old one with every consecutive pair joined by an edge carrying the line and its time |
| LineRecords.Strip | TransitGraph.py:23-25 | `str.strip()`: the result is a contiguous middle `s[i..j]` of the input, everything cut off before `i` and from `j` on is whitespace, neither end of the result is whitespace, and a string with no whitespace at either end is left alone |
| LineRecords.StripUnique | TransitGraph.py:23-25 | `strip()` is determined by where the text starts and ends: any middle that starts and ends with a non-space and has only whitespace around it is the result |
| LineRecords.StripIgnoresPadding | TransitGraph.py:23-25 | whitespace added before and after a string does not change what `strip()` gives |
| LineRecords.IndexOf | TransitGraph.py:23 | the position where `split(':', 1)` cuts: the first occurrence of the separator |
| LineRecords.StripAll | TransitGraph.py:25 | `[station.strip() for station in ...]`: one stripped string per piece, in order, each the `strip()` of its piece |
| LineRecords.Split | TransitGraph.py:25 | `split(',')`: at least one piece, no piece holds the separator, and joining the pieces gives the input back |
| LineRecords.SplitJoin | TransitGraph.py:25 | splitting a join of separator-free pieces gives the pieces back |
| LineRecords.SplitCons | TransitGraph.py:25 | `split` cuts at the first separator: a separator-free head followed by the separator gives that head and then the pieces of the rest |
| LineRecords.ParseRecord | TransitGraph.py:23-25 | a record fails with ValueError exactly when it holds no `:`; otherwise the name is stripped and free of `:`, and there is at least one station, each stripped and free of `,` |
| LineRecords.ParseFormatRoundTrip | TransitGraph.py:23-25 | writing a well-formed record as `name:s1,s2,...` and parsing it gives the same record back |
| LineRecords.ParseRecordAt | TransitGraph.py:23-25 | a line `pre:post` with no `:` in `pre` parses to the name `pre` stripped and the pieces of `post` split on `,`, each stripped, whatever whitespace surrounds the whole line |
| LineRecords.ParsePaddedRoundTrip | TransitGraph.py:23-25 | a well-formed record written with any whitespace around its name and around each station (as in `U1: A, B`) parses back to the record without that whitespace |
| LineRecords.ParseExample | TransitGraph.py:23-25 | the record `U1: A, B` parses to the line `U1` with stations `A` and `B` |
| LineMinimisation.Reverse | testing.py:150-152 | `list.reverse()`: same length, element `i` is element `n-1-i` of the input |
| LineMinimisation.Narrow | testing.py:136-145 | the set appended for a differing segment lies within that segment's set; it is non-empty when the segment's set is; it is either that whole set or a part of the candidate |
| LineMinimisation.ScanFrom | testing.py:127-147 | the scan keeps the list built so far as a prefix and appends at most one set per remaining segment |
| LineMinimisation.Stripped | testing.py:125-147 | `strip_extra_lines` returns a non-empty list, no longer than its input, that starts with the first segment's set |
| LineMinimisation.ScanFromShape | testing.py:127-147 | the scan keeps what it has built, appends at most one set per segment, and each appended set narrows its predecessor by a segment that differed from it |
| LineMinimisation.StrippedShape | testing.py:125-147 | `strip_extra_lines` starts with the first segment's set and is never longer than its input |
| LineMinimisation.StrippedCoveredNonEmpty | testing.py:136-145 | every kept set lies within some segment's set, and no set becomes empty when no segment's set is |
| LineMinimisation.BothPasses | testing.py:149-152 | the forward pass, then the pass over the reversed result, reversed back: at least one and at most as many sets as the input, ending with the forward pass's last set |
| LineMinimisation.BothPassesCovered | testing.py:149-152 | after the forward and the reversed pass the list is non-empty and every set lies within some input set |
| LineMinimisation.Condense | testing.py:154-166 | the condense loop can only fail with AssertionError, and on success adds at most one name per set to what it had |
| LineMinimisation.CondenseShape | testing.py:154-166 | when the condense loop succeeds, it extends the list built so far, has no equal neighbours, and adds only lines of the sets (the failure case is CondenseFails) |
| LineMinimisation.CondenseFails | testing.py:155-157 | the condense loop raises AssertionError exactly when some set does not hold a single line |
| LineMinimisation.Minimize | testing.py:123-168 | `minimize_changes` raises IndexError exactly on the empty list; any other failure is the AssertionError of the condense loop |
| LineMinimisation.MinimizeSharedLastSegment | testing.py:136-157 | a change from U4 onto a last segment served by both U6 and S50 leaves that segment's two lines in place after both passes, so the assertion fires and `minimize_changes` raises AssertionError |
| LineMinimisation.MinimizeSound | testing.py:123-168 | on a non-empty input, AssertionError exactly when a set left after both passes is not a single line; otherwise a non-empty itinerary with no two equal neighbours, each line serving some segment |
| LineMinimisation.MinimizeFixesItinerary | testing.py:123-168 | an itinerary without equal neighbours, given as singleton sets, minimises to itself |
| LineMinimisation.MinimizeIdempotent | testing.py:123-168 | minimising the singletons of a result gives that result again |
| LineMinimisation.StripExtraLines | testing.py:125-147 | the loop raises IndexError on an empty list and otherwise computes the scan `Stripped` |
| LineMinimisation.MinimizeChanges | testing.py:123-168 | the loops compute `Minimize`: IndexError on an empty list, the two passes, then the condense loop |
| TransferPenalty.Penalty | testing.py:77-82 | boarding U4 or U6 costs 3 and S50 costs 10; only those three lines are penalised |
| TransferPenalty.CostAlong | testing.py:71-85 | the cost loop can only fail with TypeError (subscripting the None of a missing edge), and a path of fewer than two stations costs 0 |
| TransferPenalty.EdgesAlong | testing.py:71-72 | the edge data along a path has one entry per consecutive pair |
| TransferPenalty.CostAlongIsWeightPlusPenalties | testing.py:66-87 | the loop's cost exists exactly when every consecutive pair is an edge (TypeError otherwise) and equals the total weight plus the penalty at each boarding or line change |
| TransferPenalty.PenaltiesBounds | testing.py:75-82 | penalties are at most 10 per edge, and the first edge of a ride is always charged |
| TransferPenalty.SingleLineBoardsOnce | testing.py:76-85 | riding one line throughout is charged one boarding penalty, or none when already on that line |
| TransferPenalty.PenaltiesSplit | testing.py:76-85 | a ride split in two is charged as the first part plus the second part boarded from the first part's last line |
| TransferPenalty.ShortestPathWithTransferPenalty | testing.py:66-87 | returns the path with its weight-plus-penalties cost, or TypeError when a consecutive pair is not an edge |
| TransferPenalty.AddEdgesWithPenalty | testing.py:51-58 | adds one weight-1 edge per consecutive pair, on the given line; the penalty argument has no effect |
| Simulation.Generate | Simulator.py:29-38 | the loop appends at most one journey per draw; the only error it raises is NoPath, and it raises none exactly when every draw was appended |
| Simulation.GenerateOutcome | Simulator.py:23-38 | with a positive count and fewer than two stations, ValueError before anything is appended; otherwise the status is Done or NoPath and the journeys appended are Generate's; at most one journey per draw is appended, and all of them on Done |
| Simulation.GenerateShape | Simulator.py:29-38 | generation appends, in order, one journey per draw with that draw's route; it stops at the first draw without a path, raising NoPath, and succeeds exactly when every draw has a route |
| Simulation.SampledEndsDiffer | Simulator.py:30 | with distinct station names, every generated journey has two different stations of the list as origin and target |
| Simulation.Reroute | Simulator.py:60-81 | a journey keeps its origin, target and baseline; one that starts or ends at the closed station is skipped; otherwise it gets the new route when one exists and is unchanged when none does |
| Simulation.Replay | Simulator.py:60-81 | the replay keeps the number and order of journeys and re-routes each one |
| Simulation.ReplayKeepsBaseline | Simulator.py:60-81 | re-routing never changes a journey's origin, target or baseline, and leaves journeys at the closed station untouched |
| Simulation.FirstReplayCancellations | Simulator.py:60-81 | on the first disruption a journey gets new fields exactly when neither end is closed and a path exists |
| Simulation.NewRoutesAvoidClosed | Simulator.py:58-74 | when routes use only stations of the graph, every new route avoids the closed station |
| Simulation.Keep | Simulator.py:104-109 | a journey is plotted only when it has a new time; with `affected_only` exactly when that new time differs from the old one, otherwise exactly when it has one |
| Simulation.Selected | Simulator.py:103-111 | the selected journeys are exactly those that have a new time and, when only affected journeys are wanted, a changed time |
| Simulation.AffectedRefinesRerouted | Simulator.py:103-111 | the affected-only selection is the all-rerouted selection filtered to changed times |
| Simulation.SelectStep | Simulator.py:103-111 | one more journey adds its old and new time to the two lists exactly when it is selected, and nothing otherwise |
| Simulation.Simulator.constructor | Simulator.py:10-21 | a new simulator has the given journey count, a fresh empty graph, no stations, no journeys and no disruption |
| Simulation.Simulator.GenerateJourneys | Simulator.py:23-38 | fewer than two stations with a positive count raises ValueError and appends nothing; otherwise the generated journeys are appended; NoPath is raised after a partial append |
| Simulation.Simulator.AppendJourneys | Simulator.py:29-38 | the loop appends exactly the journeys `Generate` produces and reports NoPath exactly when a draw has no path |
| Simulation.Simulator.RerouteAll | Simulator.py:60-82 | the journey list becomes its replay on the disrupted graph |
| Simulation.Simulator.Disrupt | Simulator.py:40-82 | an unknown station exits and changes nothing; with no journeys they are generated first, and a generation error is passed on with the graph unchanged; otherwise the station is removed, every journey is re-routed on the remaining graph, and the simulator is marked disrupted |
| Simulation.Simulator.GetStats | Simulator.py:83-94 | an empty dict before any disruption, None after one |
| Simulation.Simulator.PlotDelay | Simulator.py:96-111 | nothing before a disruption; afterwards two equally long lists, the old and the new times of the selected journeys in order |
| Scheduling.MinIndexWithNone | Scheduler.py:21-32 | -1 exactly when no entry is a number below `sys.maxsize`; otherwise the index of the first smallest number |
| Scheduling.Combinations | Scheduler.py:37 | `itertools.combinations(xs, k)`: one empty combination for `k = 0`, none when `k` exceeds the list's length, and every combination has `k` members |
| Scheduling.CombinationsNonEmpty | Scheduler.py:37 | with `k` at most the list's length there is at least one combination |
| Scheduling.CombinationsComplete | Scheduler.py:37 | every choice of `k` strictly increasing positions of the list, taken in that order, is one of the combinations |
| Scheduling.CombinationsShape | Scheduler.py:37 | every combination has `k` members drawn from the list without reusing a position: as a multiset it is contained in the list |
| Scheduling.CombinationWithin | Scheduler.py:37 | the combination at any one index is, as a multiset, contained in the list (by induction over the list, following how `itertools.combinations` either takes or skips the head) |
| Scheduling.SharesAny | Scheduler.py:73-78 | true exactly when some member of the chosen combination occurs in the other |
| Scheduling.RemoveFirst | Scheduler.py:65 | `list.remove` succeeds exactly when the value occurs and then removes one occurrence; ValueError otherwise |
| Scheduling.RemoveFirstAt | Scheduler.py:65 | `list.remove(x)` removes the first occurrence of `x` and keeps all other members in their order |
| Scheduling.RemoveEach | Scheduler.py:64-65 | removing a combination's members succeeds exactly when the combination is contained in the list as a multiset, and removes one occurrence of each; the result is that of one `remove` after another, so the order of the rest is kept (RemoveFirstAt) |
| Scheduling.SharingIndices | Scheduler.py:68-78 | the indices collected are exactly those of the live combinations that share a member with the pick |
| Scheduling.ClearAt | Scheduler.py:80-82 | both lists keep their length and hold None at exactly the collected indices, with every other entry unchanged |
| Scheduling.LiveCount | Scheduler.py:59 | the count of entries that are not None never exceeds the list's length |
| Scheduling.LiveCountPositive | Scheduler.py:59 | the loop condition holds exactly when some combination is still live |
| Scheduling.LiveCountDrops | Scheduler.py:59-82 | striking out entries, including at least one live one, lowers the live count, so the loop terminates |
| Scheduling.CombosLeft | Scheduler.py:52-82 | the combinations left after a sequence of picks: one entry per combination, holding it exactly when it shares no member with any pick, None otherwise |
| Scheduling.ScoresLeft | Scheduler.py:52-82 | the scores left after a sequence of picks: one entry per combination, holding its score exactly when the combination shares no member with any pick, None otherwise |
| Scheduling.Removed | Scheduler.py:64-65 | what the picks take off the disruption list: nothing before the first pick, and at least the members of every pick |
| Scheduling.GreedyExtend | Scheduler.py:61 | the index `min_index_with_none` picks is the live combination of least score, the first among equals |
| Scheduling.Step | Scheduler.py:67-82 | after a round, both lists hold exactly the combinations, and their scores, that share no member with any pick so far, and the live count has dropped |
| Scheduling.RemovedAvoidsLive | Scheduler.py:64-78 | a combination still live shares no member with what the picks removed |
| Scheduling.RemoveStep | Scheduler.py:64-65 | every `remove` of a round succeeds, and the remaining list stays the original less one occurrence of each member of each pick |
| Scheduling.PickExists | Scheduler.py:59-61 | while some combination is live, its score is present and below `sys.maxsize`, so the pick is a real index |
| Scheduling.NoneLive | Scheduler.py:59 | when the loop stops, every combination shares a member with some pick |
| Scheduling.PickNext | Scheduler.py:59-82 | one round of the loop picks the greedy combination, keeps the remaining lists equal to the picks' state, and lowers the live count |
| Scheduling.GreedyPicksDisjoint | Scheduler.py:59-82 | the picked combinations are pairwise disjoint |
| Scheduling.SelectGreedily | Scheduler.py:52-82 | the loop's picks are greedy, no combination is left live, and the remaining disruptions are the original ones less one occurrence of each member of each pick |
| Scheduling.ScheduleDisruptions | Scheduler.py:34-82 | AssertionError exactly when `1 < max_at_once < len(disruptions)` fails; otherwise the picks and remaining disruptions of the greedy loop over all combinations |

## Left out

- FuzzyFunctions.py and detect_name_errors.py are not part of this model. The name matching rests on a library's floating-point similarity ratios and only prints.
- `TransitGraph.fastest_path` and `networkx.shortest_path` are not modelled. They are networkx searches, so they are parameters: a router in `Simulation` and a given path in `TransferPenalty`. As written, `fastest_path` prints the path and returns None, so unpacking its result would raise TypeError. The router stands for the `(lines, time, stations)` triple the simulator expects.
- Simulation.Simulator.GenerateJourneys: the router yields a route or "no path". Other networkx errors, such as a station missing from the graph, are not modelled.
- Simulation.Simulator.Disrupt: only NetworkXNoPath is caught (Simulator.py:75). Other networkx errors are not modelled, for example NodeNotFound when a second disruption re-routes a journey whose end station an earlier one removed. The model hands such a journey to the router like any other.
- File and console I/O are not modelled: `load_default_graph`'s directory reading, the `stations_test.txt` loader, module-level graph construction, `print`, progress bars and plotting. Only the per-record parse is modelled. As written, `load_default_graph` opens a bare file name and writes to an undefined dictionary.
- Randomness is not modelled. `random.sample` draws are a given sequence of pairs. Each pair is required to come from two different positions of the station list.
- Simulation.Simulator.Disrupt: `find_possible_match` only prints suggestions, and `quit()` is the `Exited` status. `print_unreachable` only controls printing, so it has no effect here.
- Simulation.Simulator.constructor: the station list is the node list of the freshly built empty graph, so it is empty. Nothing in the core adds lines to the simulator's graph. A later `generate_journeys` with a positive count therefore raises ValueError, and the model states this. `journey_count` is a natural number; a negative count is not modelled.
- Simulation.Simulator.GetStats: the body after the early exit is a stub that returns None. Delay statistics and the impact score are not implemented, so they are not modelled.
- Simulation.Simulator.PlotDelay: the histogram drawing is left out; only the two selected time lists are modelled.
- The scheduler's simulation loop (Scheduler.py:39-50) is not modelled. It calls simulator methods that do not exist in Simulator.py, so the scores are an input, one per combination. The final printing of the picks and the remaining disruptions is also left out.
- Scheduling.ScheduleDisruptions: requires every score to be below `sys.maxsize`. If every live score were `sys.maxsize` or more, `min_index_with_none` would return -1 and the loop would use the last combination; that case is not modelled.
- Transit.ModeOf: the digit test accepts ASCII digits only, while Python's `str.isdigit` also accepts other Unicode digits.
- Travel times and weights are unbounded integers. Python integers do not overflow, so nothing is lost for them.
- Scheduling.ScheduleDisruptions: scores are taken to be integers. The source reads them from `get_stats()['score']`, which is not implemented and has no declared type, so float or NaN scores, and their comparisons, are not modelled.
- Scheduling.Combinations: the lexicographic order of the combinations is not stated. CombinationsComplete states that every choice of positions appears, and CombinationsShape that each one is drawn from the list.
- Scheduling.SelectGreedily: the remaining list is stated as a multiset across rounds. Within one round, RemoveEach keeps the order of the rest, but the order across rounds is not restated.
- Behaviour the program mentions but does not implement is not modelled: per-segment wait times, merging line sets on an edge, ranked top-k paths, and partial removal of a line from a segment.
