# Greedy 2-colouring of K_n with few monochromatic K4s

The program colours the edges of the complete graph K_n (n = N = 200) white
or black, one edge at a time, so that few of its K = C(n, 4) four-vertex
cliques (K4s) end up monochromatic. It is the derandomised random colouring
(the method of conditional expectations). Every K4 record carries a weight:
the probability that it ends up monochromatic if its still uncoloured edges
were coloured at random. The global `total_weight` is the sum of these
weights, and it starts at K · 2^-5, the expected count for a random colouring.
For each edge (s, e), in lexicographic order, the program:
- computes what the total would be with (s, e) white and with (s, e) black, by
  walking the list of K4s that contain the edge;
- keeps the smaller of the two, white on a tie.

The two candidates average to the current total, so the total never grows.
It ends as the number of monochromatic K4s, and that count is at most
K · 2^-5.

## Modules

- `records.dfy` (module `Records`): the colour tag, the slot
  `(start, end, color)`, the K4 record and the effect of
  `change_edge_color_in_k4` on a record's slots (`FirstMatch`, `Recolor`,
  `Retag`).
- `weight.dfy` (module `WeightModel`): `calculate_k4_weight`.
  - `CalculateK4Weight` is the counting loop, proved equal to the function
    `Weight`.
  - `MonoProbability` is an independent reference definition of the same
    number: the chance that all slots end up white, plus the chance that all
    end up black.
  - It also holds the averaging identity behind the greedy choice.
- `hypergraph.dfy` (module `Hypergraph`):
  - the quadruples in the order of the four nested loops of `add_all_k4`
    (`Level1` … `Level4`, `Quads`, together with their count, their members
    and their order);
  - the record `add_k4` allocates (`NewK4`);
  - the incidence list each edge ends up with (`Incidence`).
- `greedy.dfy` (module `Greedy`): value-level specifications of the colouring
  engine.
  - The sum of stored weights.
  - The effect of walking a list with `calculate_edge_color` (`Probed`, `Gain`)
    and with `set_edge_color` (`Committed`).
  - One `color_edge` step (`ColorEdgeStep`), with the invariants it keeps.
  - The whole of `color_all_edges` as a fold of that step over the edge order
    (`ColorEdgeOn`, `ColorEdges`, `ColorRows`), and the run of `main` from the
    initial values as one value (`GreedyPass`).
  - The end state after every edge is coloured, and the final count.
- `program.dfy` (module `Program`): class `Session` holds the globals of
  `main.cpp` (`edge`, `total_weight` and the allocated K4 records). Each
  procedure of the program is a method with loops and invariants, proved
  against the functions above. `Run` is `main` without the printing.

The state is modelled as follows:
- The types of main.cpp:7-19 are datatypes in `Records`: `enum COLOR` is
  `Color`, `value_pair` is `ValuePair` and `k4_graph` is `K4Graph`. The
  defaults of their fields, `INIT` for a colour (line 12) and `pow(2, -5)`
  for a weight (line 18), are the values `NewK4` supplies.
- The K4 records that `add_k4` allocates on the heap live in an arena,
  `records: seq<K4Graph>`, in creation order.
- `edge[s][e]`, a sentinel node followed by a singly linked list, becomes
  `edge: map<Edge, seq<nat>>`, the list of record indices, newest first,
  exactly as `add_k4` prepends.
- A ghost field `palette` records the colour `color_edge` chose for each
  edge so far. The methods that colour edges state their new records, total
  and palette as the fold `ColorEdges` of the old ones over the edges they
  visit.

## Model

| member | source | states |
|---|---|---|
| Records.Recolor | main.cpp:105-115 | the slots after `change_edge_color_in_k4`: the first slot standing for the edge gets the colour, and without one nothing changes (its properties are the lemmas below) |
| Records.Retag | main.cpp:105-115 | the same on a whole record, whose stored weight `change_edge_color_in_k4` leaves alone |
| Records.FirstMatch | main.cpp:107-113 | the slot `change_edge_color_in_k4` stops at: the first slot whose pair is (s, e), or none when no slot matches |
| Records.RecolorChangesFirstMatchOnly | main.cpp:105-115 | only the tag of the first matching slot changes, every slot keeps its endpoints, and with no matching slot the slots are unchanged |
| Records.FirstMatchByEndpoints | main.cpp:109 | which slot matches depends only on the endpoints, not on the tags |
| Records.RecolorOverwrites | main.cpp:111 | tagging (s, e) with a and then with b leaves the same slots as tagging it with b alone |
| Records.RecolorDistinct | main.cpp:105-115 | when a record's six pairs are distinct, exactly the slot equal to (s, e) gets the new tag and every other slot keeps its tag |
| WeightModel.Pow2 | main.cpp:139-142 | the exact value of `pow(2, k)` for integer k, the base of every weight |
| WeightModel.Weight | main.cpp:117-143 | what `calculate_k4_weight` returns for a record's tags: 0 when both colours occur, 2^-5 when no tag is set, otherwise 2^(c-6); `WeightRange` and `WeightIsMonoProbability` state what it means |
| WeightModel.Pow2Bounds | main.cpp:139 | 2^k is positive, and below 1 for negative k |
| WeightModel.CalculateK4Weight | main.cpp:117-143 | the counting loop over the six tags returns `Weight`: 0 when both colours occur, 2^-5 when no tag is set, otherwise 2^(c-6) for the c same-coloured tags |
| WeightModel.CountColor | main.cpp:119-130 | the number of slots tagged with a colour, as the `white_amount` and `black_amount` loop counts them; never more than the number of slots |
| WeightModel.CountColorOccurs | main.cpp:119-130 | the count of a colour is the number of slots exactly when every slot has it, and 0 exactly when no slot has it |
| WeightModel.CountColorTotal | main.cpp:119-130 | white, black and untagged slots together are all the slots |
| WeightModel.CountColorUpdate | main.cpp:119-130 | retagging one slot changes each colour's count by the tag removed and the tag added |
| WeightModel.WeightRange | main.cpp:132-142 | the weight lies in [0, 1]; it is 1 exactly when all six slots share one colour, and 0 exactly when both colours occur |
| WeightModel.ColoredWeight | main.cpp:132-142 | once no slot is untagged, the weight is 1 for a monochromatic record and 0 otherwise |
| WeightModel.AllBecomeCounts | main.cpp:137-142 | the chance that every slot ends up colour c is 0 if the other colour occurs and 2^(count of c - 6) otherwise |
| WeightModel.WeightIsMonoProbability | main.cpp:117-143 | the weight is the probability that the record ends monochromatic when its untagged slots are coloured uniformly at random |
| WeightModel.ChoicesAverage | main.cpp:117-143 | for an untagged slot, the weights with that slot white and with it black sum to twice the current weight |
| WeightModel.RecolorAverages | main.cpp:105-143 | the same for `change_edge_color_in_k4` on an edge whose slot is untagged |
| Hypergraph.K | main.cpp:5 | the number of K4s of K_n, n(n-1)(n-2)(n-3)/24, which `main` prints; `QuadsLength` states that the enumeration has that many |
| Hypergraph.SixPairs | main.cpp:44-55 | the six (start, end) pairs `add_k4` stores, in slot order; `SixPairsAreEdges` states they are distinct edges of K_n |
| Hypergraph.NewK4 | main.cpp:43-55 | the record `add_k4` fills in for i1 < i2 < i3 < i4; `NewK4Shape` states its contents |
| Hypergraph.NewK4s | main.cpp:88-103 | the fresh records `add_all_k4` appends, one `NewK4` per quadruple in order; `NewK4sSum` and `BuiltStart` state their weights |
| Hypergraph.Level4 | main.cpp:96-99 | the quadruples the i4 loop of `add_all_k4` visits, in order |
| Hypergraph.Level3 | main.cpp:94-100 | the quadruples the i3 loop visits, in order |
| Hypergraph.Level2 | main.cpp:92-101 | the quadruples the i2 loop visits, in order |
| Hypergraph.Level1 | main.cpp:90-102 | the quadruples the i1 loop visits from i1 = lo on, in order |
| Hypergraph.Quads | main.cpp:88-103 | the quadruples in the order `add_all_k4` adds them; `QuadsLength`, `QuadsMembers` and `QuadsSorted` state what they are |
| Hypergraph.Incidence | main.cpp:57-85 | the list an edge gets when the quadruples are added in order, each new index in front; `IncidenceMembers` and `IncidenceLength` state its contents and length |
| Hypergraph.NewK4Shape | main.cpp:43-55 | the record `add_k4` builds holds the six pairs of i1 < i2 < i3 < i4 in the source's order, every tag Init, and its weight (2^-5) is the weight of those tags |
| Hypergraph.SixPairsAreEdges | main.cpp:44-55 | for i1 < i2 < i3 < i4 < n, the six pairs are distinct and each has start < end < n |
| Hypergraph.QuadsLength | main.cpp:5 | the loops of add_all_k4 enumerate exactly K = n(n-1)(n-2)(n-3)/24 quadruples |
| Hypergraph.QuadsMembers | main.cpp:90-98 | a quadruple is enumerated exactly when 0 <= i1 < i2 < i3 < i4 < n |
| Hypergraph.QuadsSorted | main.cpp:90-98 | the enumeration is strictly increasing in lexicographic order, so no quadruple occurs twice |
| Hypergraph.IncidenceAppend | main.cpp:57-85 | adding more K4s puts their indices in front of the list, as the prepending in add_k4 does |
| Hypergraph.IncidenceMembers | main.cpp:57-85 | an edge's list holds exactly the indices of the records containing the edge, newest first, each once |
| Hypergraph.HitsAppend | main.cpp:88-103 | the number of enumerated K4s containing an edge adds up over consecutive runs of the enumeration |
| Hypergraph.IncidenceHits | main.cpp:57-85 | an edge's list has one entry per enumerated K4 that contains the edge |
| Hypergraph.Level4Hits | main.cpp:96-99 | the i4 loop meets an edge n - lo times when it joins two of i1, i2, i3, once when it joins one of them to a later vertex, otherwise never |
| Hypergraph.Level3Hits | main.cpp:94-100 | the i3 loop meets (i1, i2) C(n - lo, 2) times, an edge from i1 or i2 to a later vertex n - lo - 1 times, an edge between later vertices once |
| Hypergraph.Level2Hits | main.cpp:92-101 | the i2 loop meets an edge from i1 to a later vertex C(n - lo - 1, 2) times, an edge between later vertices n - lo - 2 times |
| Hypergraph.Level1Hits | main.cpp:90-102 | the i1 loop from lo meets an edge between vertices from lo on C(n - lo - 2, 2) times, and no other edge |
| Hypergraph.Choose2Closed | main.cpp:88-103 | counting helper for the list lengths: the recursive C(m, 2) is m(m - 1)/2 |
| Hypergraph.IncidenceLength | main.cpp:88-103 | after add_all_k4 the list of every edge of K_n has C(n - 2, 2) = (n - 2)(n - 3)/2 entries |
| Greedy.ListLengths | main.cpp:88-103 | in the built state every edge's list has (n - 2)(n - 3)/2 entries, one per choice of the two other vertices |
| Greedy.Row | main.cpp:192-195 | the edges the inner loop of `color_all_edges` visits for one s, in order |
| Greedy.Rows | main.cpp:190-196 | the edges the outer loop visits from s = lo on, row after row |
| Greedy.EdgeOrder | main.cpp:188-197 | the edges in the order `color_all_edges` colours them |
| Greedy.SumWeights | main.cpp:28 | the sum of the stored weights, which `total_weight` equals after every `color_edge` call (`Balanced`) |
| Greedy.EdgeOrderFacts | main.cpp:190-195 | the order of color_all_edges visits every edge s < e of K_n exactly once, in lexicographic order |
| Greedy.SumWeightsUpdate | main.cpp:151-153 | replacing one record changes the sum of the weights by the difference of its weights |
| Greedy.NewK4sSum | main.cpp:18 | the fresh records' weights sum to 2^-5 per record |
| Greedy.InitialTotal | main.cpp:28 | the initial weights of all K records sum to the initial `total_weight`, K · 2^-5 |
| Greedy.GainRetagged | main.cpp:151-153 | what a probe adds to the total does not depend on an earlier probe's tag on the same edge |
| Greedy.GainsCancel | main.cpp:174-175 | on an uncoloured edge whose records store their weights, the white gain and the black gain sum to 0 |
| Greedy.BuiltFacts | main.cpp:41-103 | after the build, each record has six distinct pairs, each of them an edge of K_n; each list holds in-range indices, each once; j is in the list of p exactly when record j contains p |
| Greedy.ListFacts | main.cpp:148-149 | every listed record exists and has six slots, so the list walks are safe |
| Greedy.Gain | main.cpp:145-158 | what `calculate_edge_color` adds to `total_weight` while walking a list: each listed record's weight with the colour tried, less its stored weight |
| Greedy.Probed | main.cpp:145-158 | the records after the walk of `calculate_edge_color`: each listed record retagged, stored weights kept |
| Greedy.Commit | main.cpp:163-167 | one step of `set_edge_color` on a record: retag, then store the recomputed weight |
| Greedy.Committed | main.cpp:160-170 | the records after the walk of `set_edge_color` over a list |
| Greedy.ProbedAt | main.cpp:145-158 | after a probe, each listed record has the edge retagged and keeps its stored weight; every other record is unchanged |
| Greedy.CommittedAt | main.cpp:160-170 | after `set_edge_color`, each listed record has the edge retagged and its weight recomputed; every other record is unchanged |
| Greedy.ProbeNext | main.cpp:149-155 | one step of the `calculate_edge_color` walk: which record it changes, and the amount it adds to the running total |
| Greedy.CommitNext | main.cpp:163-168 | one step of the `set_edge_color` walk |
| Greedy.CommittedSum | main.cpp:160-170 | committing a colour on a duplicate-free list moves the sum of the weights by exactly the gain the probe computed |
| Greedy.ColorEdgeStep | main.cpp:172-186 | the colour chosen is White or Black; it is White exactly when the white candidate is no larger; the new total is that candidate, no larger than either, and the records are committed in that colour |
| Greedy.ColorEdgeOn | main.cpp:172-186 | `color_edge` on a state of records, total and palette: `ColorEdgeStep` on the edge's list, the chosen colour recorded; the number of records is kept |
| Greedy.ColorEdges | main.cpp:188-197 | `color_edge` applied to a sequence of edges one after the other; the number of records is kept |
| Greedy.ColorRows | main.cpp:188-197 | the outer loop of `color_all_edges` from s = lo on: row s, then the rows after it; the number of records is kept |
| Greedy.ColorEdgesAppend | main.cpp:188-197 | colouring `a` and then `b` is colouring `a + b` |
| Greedy.RowStep | main.cpp:192-195 | colouring row s from e on is `color_edge(s, e)` followed by the row from e + 1 |
| Greedy.RowsSplit | main.cpp:190-196 | colouring the edges of the rows from s on is colouring row s, then the rows from s + 1 on |
| Greedy.ColorRowsInOrder | main.cpp:188-197 | colouring row after row gives the same state as colouring the whole edge order edge after edge |
| Greedy.ColorEdgesElsewhere | main.cpp:188-197 | a pass over some edges gives a colour only to those edges and keeps every other edge's colour |
| Greedy.BuiltEdges | main.cpp:88-103 | the lists `add_all_k4` leaves: every edge of K_n with the records containing it |
| Greedy.BuiltEdgesAre | main.cpp:88-103 | lists with exactly the edges of K_n as keys and the incidence lists as contents are `BuiltEdges` |
| Greedy.GreedyPass | main.cpp:240-246 | the state `main` reaches: the fold of `color_edge` over the edge order, from the built records, the initial total K · 2^-5 and no colour |
| Greedy.GreedyPassFrom | main.cpp:240-246 | a pass over the edge order from the built lists, the fresh records, the total K/32 and no colour is `GreedyPass` |
| Greedy.TwoProbes | main.cpp:174-175 | probing white then black leaves the records as a black probe alone would; the black candidate equals the one computed from the state before both probes |
| Greedy.CommitOverProbe | main.cpp:176-185 | committing after the probes gives the records that committing from the state before the probes would give |
| Greedy.ColorEdgeKeeps | main.cpp:172-186 | one `color_edge` keeps the build's structure, keeps every stored weight equal to its record's weight, and keeps the total equal to the sum of the weights; it paints the edge's slots and nothing else |
| Greedy.ColorEdgeNoWorse | main.cpp:172-186 | on an uncoloured edge, `color_edge` does not increase the total |
| Greedy.CommitPaints | main.cpp:160-170 | after `set_edge_color`, every slot of the edge has the colour and no other slot changes |
| Greedy.CommitSlots | main.cpp:105-115 | on a record with distinct pairs, the matching slot gets the colour and the other slots keep theirs |
| Greedy.AbsentSlots | main.cpp:107-109 | a record that does not contain the edge has no slot matching it |
| Greedy.CommitAllRecords | main.cpp:160-170 | committing a colour keeps the build's structure |
| Greedy.PaintStart | main.cpp:188-190 | before the first edge, the colouring loop's invariant holds with nothing painted |
| Greedy.CursorStep | main.cpp:192-194 | painting the current edge advances the loop's invariant to the next edge |
| Greedy.ColorEdgeProgress | main.cpp:192-195 | one iteration of color_all_edges keeps every invariant, does not increase the total and advances the painted prefix by one edge |
| Greedy.RowEnd | main.cpp:190-192 | the end of row s is the start of row s + 1 |
| Greedy.PaintEnd | main.cpp:188-197 | after the last edge, every edge of K_n has a colour, every slot carries its edge's colour and no slot is untagged |
| Greedy.BuiltStart | main.cpp:88-103 | after init_edge and add_all_k4 from the initial values, the records are the K4s of K_n with untagged slots, their stored weights are their weights, and the total is their sum |
| Greedy.MonoCount | main.cpp:237 | the number of monochromatic K4s under a colouring is at most the number of K4s |
| Greedy.MonochromaticUnder | main.cpp:132-142 | a record whose slots carry the palette's colours is monochromatic exactly when its K4 is monochromatic under the palette |
| Greedy.SumIsMonoCount | main.cpp:237 | 0/1 weights sum to the number of monochromatic K4s |
| Greedy.FinalCount | main.cpp:236-237 | once all edges are coloured, every stored weight is 0 or 1 and the total is the number of monochromatic K4s, at most K |
| Program.Session.constructor | main.cpp:27-28 | the initial values: no record, empty lists, `total_weight = K · 2^-5` |
| Program.Session.InitEdge | main.cpp:30-39 | gives every edge i < j < n an empty list and touches no other entry |
| Program.Session.AddK4 | main.cpp:41-86 | appends the record for (i1, i2, i3, i4) and prepends its index to the lists of its six edges and of no other edge |
| Program.Session.AddK4sWith | main.cpp:94-100 | the two inner loops of add_all_k4 add the K4s i1 < i2 < i3 < i4 for fixed i1, i2 in enumeration order |
| Program.Session.AddAllK4 | main.cpp:88-103 | appends the records of all quadruples in enumeration order; each list gains exactly the records containing its edge, newest first |
| Program.Session.Prepare | main.cpp:242-244 | init_edge then add_all_k4 from the initial values establish the invariants (the built structure, the stored weights, the total equal to their sum) and leave the records `NewK4s(Quads(n))` and the lists `BuiltEdges(n)` |
| Program.Session.ChangeEdgeColorInK4 | main.cpp:105-115 | the record becomes `Retag` of itself: first matching slot retagged, weight kept, every other record unchanged |
| Program.Session.CalculateEdgeColor | main.cpp:145-158 | returns `total_weight` plus the gain of the colour over the edge's list; it leaves the colour on the edge in the listed records and changes no stored weight and not the total |
| Program.Session.SetEdgeColor | main.cpp:160-170 | commits the colour in every listed record (retagged, weight recomputed) and changes nothing else |
| Program.Session.ColorEdge | main.cpp:172-186 | the records and the total after the two probes and the commit are those of `ColorEdgeStep` from the state before, and the new state is `ColorEdgeOn` of the old one; chosen colour recorded |
| Program.Session.ColorRow | main.cpp:192-195 | the new records, total and palette are `ColorEdges` of the old ones over row s, e = s + 1, ..., n - 1 in turn; the invariants are kept and the total does not grow |
| Program.Session.ColorAllEdges | main.cpp:188-197 | from the built state with nothing coloured yet (`PaintedBefore` at (0, 1), which `PaintStart` gives for untagged slots), the new records, total and palette are `ColorEdges` of the old ones over `EdgeOrder(n)`; every edge of K_n gets a colour and every slot carries its edge's colour; the invariants are kept and the total has not grown |
| Program.Report | main.cpp:232-238 | the printed ALG, the final total truncated to an integer, is the number of monochromatic K4s, between 0 and K, and at most the printed average K · 2^-5 |
| Program.Outcome | main.cpp:232-238 | once the cursor of `color_all_edges` is past the last row, every edge has a colour and the values `print_info` prints follow: ALG is the monochromatic count, in [0, K] and at most the average |
| Program.Run | main.cpp:240-253 | main: K, the average K · 2^-5, and ALG, the number of monochromatic K4s of the colouring `GreedyPass(n)` gives every edge, with ALG <= average |
| Program.RunOnK4 | main.cpp:240-253 | for n = 4, with a single K4 and an average of 1/32, ALG is 0: the greedy colouring never leaves that K4 monochromatic |

## Left out

- Printing: `print_info`, `print_edge_color` and `print_all_edges_color` write to standard output. `Report` and `Run` expose the values `print_info` prints (K, the average, ALG) as results instead.
- Floating point: `double` and `pow` are modelled as exact `real`, and `pow(2, k)` as `Pow2(k)`. Every weight is 0 or 2^j for some j with -5 <= j <= 0, and every total is a multiple of 2^-5 below 2^26. A double holds all of these exactly, so no rounding is modelled.
- The initial total: `K * pow(2, -5)` is written K / 32. `BuiltStart` connects it with the sum of the `Pow2(-5)` weights.
- `int(total_weight)` truncates toward zero. The total is never negative, so it is modelled as `Floor`.
- Integer width: `K` on main.cpp:5 is a mathematical integer. For N = 200 it is 64,684,950, and N·(N-1)·(N-2)·(N-3) fits in a 32-bit `int`. The overflow for larger N is not modelled.
- N: the compile-time constant is the constructor parameter `n`. No `n >= 4` is required. For n < 4, K is 0 and every statement still holds.
- Memory: heap allocation with `new`, the sentinel head nodes and the never-freed memory are not modelled. Records live in an index arena and lists are sequences of indices, so the model does not cover aliasing through raw pointers.
- Loop structure: `AddK4sWith` holds the two inner loops of `add_all_k4`, and `ColorRow` the inner loop of `color_all_edges`. The loops are otherwise as in the source.
- Program.Session.ColorAllEdges: it states the full colouring as the painted-prefix invariant at the end cursor (`PaintedBefore` at (n, n + 1)); `Run` applies `PaintEnd` to turn this into `ColoredAs`, which adds that no slot is untagged.
- Greedy.ColorEdgeOn: an edge whose list does not name existing records leaves the state unchanged. This case cannot arise in the built state (`ListFacts`), where the source would follow the list anyway.
- Program.Session.CalculateEdgeColor: it requires the list to be walkable (every index names a record with six slots). The source assumes this without checking. `BuiltFacts` and `ListFacts` prove it for every list the build creates.
- Program.Session.SetEdgeColor: it carries the same walkable requirement.
- Program.Session.ColorAllEdges: it requires the state the build leaves (`Prepare`), with no colour yet: `PaintedBefore` at the first edge (0, 1), which for an empty palette says every slot is untagged (`PaintStart`), as it is when `main` calls it. The source does not state this precondition.
