# Vending machine graph generator, modelled in Dafny

The generator builds an N×N matrix of distances between N vending machines.
It works in three steps:

- `createGraph` allocates the matrix and fills it with zeros.
- `fillGraph` visits every pair `i < j` once, row by row. For each pair it
  draws `rand() % 100`. When that draw is below the connection probability,
  the pair gets a random distance. The distance is written to both `[i][j]`
  and `[j][i]`.
- `validateGraph` runs last. A machine whose row has no positive entry gets
  an edge to a randomly drawn other machine.

`randomFloat` draws each distance. It lies between 30 m (included) and 500 m
(excluded) and has two decimal digits.

## How the model is built

- **Distances** are whole numbers of hundredths of a meter (`int`). 0 means
  "no edge". A drawn distance lies in `[3000, 50000)`. `Distances.Distance`
  is the pure definition of `randomFloat`. `Distances.RandomFloat` keeps the
  source's loop that computes the divisor.
- **The matrix** is an `array2<int>`. The methods change it in place, as the
  source changes its `float**`. The ghost function `Graphs.Cells` reads the
  array as a `seq<seq<int>>`, so the methods can be specified against pure
  functions.
- **rand()** is the class `Random.Rand`. It holds an injected stream
  `nat -> nat` of the values that successive calls return, and the number
  of values drawn so far. Given the stream, every run is determined.
- **Specification functions** describe each pass state by state, where a
  state is the matrix together with the stream position:
  - `Fill.FillCell` is one visit of the fill loop.
  - `Fill.FillTo` is the state after every cell before `(i, j)`, in
    row-major order.
  - `Repair.RepairRow` and `Repair.RepairTo` do the same for the repair pass.
  - `Fill.Generate` is the fill pass followed by the repair pass.

  Each method ensures that the new matrix and stream position equal the
  function of the old ones. The promised properties are lemmas about the
  functions.
- **The retry loop**, which redraws the partner while it equals the
  machine itself, stops only if the stream eventually yields a different
  value. `Random.Escapes(stream, n)`
  requires this for every start position and every node. It is the repair
  pass's precondition.
  - `Random.SingleNodeNeverEscapes` proves that no stream meets it for one
    machine. This is the hang the source has when N = 1.
  - `Random.AlternatingEscapes` proves that a stream meets it for every
    N ≥ 2.

## Model

| member | source | states |
|---|---|---|
| `Random.Rand.Next` | VendingMachineGenerator/main.cpp:70 | a call of rand() returns the stream's value at the current position and advances the position by one |
| `Random.Retry` | VendingMachineGenerator/main.cpp:104-106 | the redraw loop ends at the first position from its start whose draw modulo n is not i; all earlier draws in the loop were i |
| `Random.FirstEscapeUnique` | VendingMachineGenerator/main.cpp:104-106 | the draw that ends the redraw loop is unique, so the loop's outcome is determined by the stream |
| `Random.SingleNodeNeverEscapes` | VendingMachineGenerator/main.cpp:101-106 | with one machine every draw modulo 1 is that machine, so no stream ends the redraw loop |
| `Random.AlternatingEscapes` | VendingMachineGenerator/main.cpp:101-106 | for two or more machines some stream ends every redraw loop, so the requirement can be met |
| `Distances.Pow10` | VendingMachineGenerator/main.cpp:43-45 | the divisor 10^PRECISION is at least 1 |
| `Distances.Distance` | VendingMachineGenerator/main.cpp:36-57 | every drawn distance lies in [MIN_DIST, MAX_DIST) meters, i.e. [3000, 50000) hundredths |
| `Distances.DistanceParts` | VendingMachineGenerator/main.cpp:48-54 | the whole meters are `r2 % (MAX_DIST - MIN_DIST) + MIN_DIST` and the hundredths are `r1 % 100`, each from its own draw |
| `Distances.EveryWeightIsDrawn` | VendingMachineGenerator/main.cpp:48-54 | every two-decimal distance in [30, 500) is produced by some pair of draws |
| `Distances.RandomFloat` | VendingMachineGenerator/main.cpp:36-57 | randomFloat draws twice (hundredths first, then meters) and returns `Distance` of those two draws |
| `Graphs.ZeroIsWellFormed` | VendingMachineGenerator/main.cpp:167-172 | the zero matrix is square, symmetric, has a zero diagonal and only valid weights |
| `Graphs.Link` | VendingMachineGenerator/main.cpp:108-109 | writing an edge sets [a][b] and [b][a] to the same weight and leaves every other entry unchanged |
| `Graphs.LinkKeepsWellFormed` | VendingMachineGenerator/main.cpp:71-72 | a mirrored write of a drawn distance between two distinct machines keeps symmetry, the zero diagonal and the weight bounds |
| `Graphs.CreateGraph` | VendingMachineGenerator/main.cpp:156-175 | createGraph returns a fresh n×n array whose every entry is 0 |
| `Graphs.SetEdge` | VendingMachineGenerator/main.cpp:71-72 | writing w to [i][j] and mirroring it into [j][i] changes the array exactly as `Link` does |
| `Fill.FillCell` | VendingMachineGenerator/main.cpp:69-74 | a visit writes only the pair (i, j) with i < j, mirrored, and changes nothing else |
| `Fill.FillTo` | VendingMachineGenerator/main.cpp:67-76 | the fill loop keeps the matrix square and never moves the stream backwards |
| `Fill.FillKeepsWellFormed` | VendingMachineGenerator/main.cpp:67-76 | a symmetric zero-diagonal matrix with valid weights stays so through the fill loop |
| `Fill.FillLeavesUnvisited` | VendingMachineGenerator/main.cpp:67-69 | a pair i < j not yet visited still holds its initial value in both directions |
| `Fill.FillKeepsVisited` | VendingMachineGenerator/main.cpp:67-76 | once a pair i < j has been visited, later visits leave it as its visit left it |
| `Fill.FillDecidesPair` | VendingMachineGenerator/main.cpp:69-72 | on a pair with no edge the `< MIN_DIST` guard holds at its visit, and the pair ends with an edge exactly when its draw `rand() % 100` is below the probability; that edge is the next drawn distance, and otherwise the entry stays 0 |
| `Fill.FillWithoutChance` | VendingMachineGenerator/main.cpp:70 | with probability ≤ 0 the fill loop writes nothing |
| `Fill.FillCertainIsComplete` | VendingMachineGenerator/main.cpp:67-76 | with probability ≥ 100 every off-diagonal entry ends as a valid weight (the graph is complete) |
| `Fill.FillPass` | VendingMachineGenerator/main.cpp:66-76 | the whole fill pass keeps the matrix square and of the same size and never moves the stream backwards |
| `Fill.Generate` | VendingMachineGenerator/main.cpp:59-81 | fillGraph is the fill pass followed by the repair pass; the result has the input's size and no machine is isolated |
| `Fill.GenerateGuarantees` | VendingMachineGenerator/main.cpp:59-81 | fillGraph on a well-formed matrix gives a symmetric, zero-diagonal matrix with weights in [30, 500) in which every machine has an edge |
| `Fill.GenerateWithoutChance` | VendingMachineGenerator/main.cpp:70-78 | with probability ≤ 0 the result is the repair pass applied to the unchanged matrix |
| `Fill.VisitCell` | VendingMachineGenerator/main.cpp:69-74 | one turn of the inner fill loop changes matrix and stream as `FillCell` says |
| `Fill.FillPairs` | VendingMachineGenerator/main.cpp:66-76 | the nested loops of fillGraph change matrix and stream as the fill pass `FillPass` says |
| `Fill.FillGraph` | VendingMachineGenerator/main.cpp:59-81 | fillGraph leaves the matrix and the stream as `Generate` says; afterwards no machine is isolated, and a well-formed input stays well-formed |
| `Repair.RepairRow` | VendingMachineGenerator/main.cpp:89-110 | after the repair of row i the row has a positive entry |
| `Repair.RepairTo` | VendingMachineGenerator/main.cpp:87-111 | the repair loop keeps the matrix square and never moves the stream backwards |
| `Repair.RepairAll` | VendingMachineGenerator/main.cpp:87-111 | the repair pass over every row keeps the matrix square and of the same size, never moves the stream backwards, and leaves no machine isolated |
| `Repair.RepairRowSkipsConnected` | VendingMachineGenerator/main.cpp:89-100 | a row that already has a positive entry is not written and no draw is made |
| `Repair.RepairRowLinksIsolated` | VendingMachineGenerator/main.cpp:100-110 | an isolated row i is linked to the first later draw j with j ≠ i, by a drawn distance written to [i][j] and [j][i] only |
| `Repair.RepairRowKeepsWellFormed` | VendingMachineGenerator/main.cpp:100-110 | a repair keeps symmetry, the zero diagonal and the weight bounds |
| `Repair.RepairToKeepsWellFormed` | VendingMachineGenerator/main.cpp:87-111 | the repair loop keeps symmetry, the zero diagonal and the weight bounds |
| `Repair.RepairToConnects` | VendingMachineGenerator/main.cpp:87-111 | after rows 0..i-1 are repaired each of them has a positive entry: repairs only add edges |
| `Repair.RepairAllConnects` | VendingMachineGenerator/main.cpp:83-114 | after the repair pass every row has a positive entry, and well-formedness is kept |
| `Repair.ScanRow` | VendingMachineGenerator/main.cpp:89-97 | `hasConnection` is true exactly when row i holds an entry greater than 0 |
| `Repair.DrawPartner` | VendingMachineGenerator/main.cpp:101-106 | the partner is the first draw modulo n that is not i; it is a node other than i |
| `Repair.LinkIsolated` | VendingMachineGenerator/main.cpp:100-110 | for an isolated machine the partner is the first draw that is not the machine itself, and the matrix gains exactly the mirrored edge of the next drawn distance |
| `Repair.RepairRowAt` | VendingMachineGenerator/main.cpp:100-110 | the repair of an isolated row is determined by the position of the draw that ends its redraw loop |
| `Repair.RepairRowKeepsEdges` | VendingMachineGenerator/main.cpp:100-110 | a repair only adds edges: a positive entry stays positive |
| `Repair.RepairRowInPlace` | VendingMachineGenerator/main.cpp:88-110 | one turn of validateGraph's loop changes matrix and stream as `RepairRow` says |
| `Repair.ValidateGraph` | VendingMachineGenerator/main.cpp:83-114 | validateGraph leaves the matrix and the stream as `RepairAll` says; afterwards no machine is isolated, and a well-formed input stays well-formed |

## Left out

- `main` (main.cpp:18-34) is left out. It reads arguments with `atoi` and prints with `cout`, which is I/O.
- `printGraph` (main.cpp:116-154) is left out. It formats `float` values through stream width and precision settings, which is output formatting.
- `srand(time(0))` (main.cpp:64) is left out. It depends on the wall clock. The injected stream of `Random.Rand` takes its place, so fillGraph's reseeding is not modelled.
- `RAND_MAX` is not modelled: a draw is any natural number.
- `Distances.Distance` does not model IEEE `float` rounding. The source takes the hundredths as the fractional part of `rand() / 100.0`, and the model takes them as the exact `r1 % 100`.
- `Graphs.CreateGraph` takes a nat: a negative machine count, for which `new[]` throws, is not modelled. The source passes `atoi` of the first argument unchecked.
- Raw `new[]` allocation and the missing deallocation (main.cpp:160-165) are not modelled. A Dafny `array2` replaces them.
- `Fill.FillGraph` and `Repair.ValidateGraph` do not return the matrix pointer, as the source does for chaining. They change the array in place, and the caller keeps its reference.
