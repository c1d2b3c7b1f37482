# AlgoVisualize-V2 step recording and playback, in Dafny

AlgoVisualize-V2 animates algorithms by recording them. A recorder runs the algorithm once,
pushes a snapshot of its state at every interesting moment, and a playback cursor then moves
over the recorded snapshots. This project models the two engines that do this in the
repository:

- **The store** (`store/algorithmStore.ts`). It holds the data generators (random array,
  random perfect tree, built-in five-node graph) and two recorders: a bubble sort that
  snapshots every comparison, every swap and every settled array, and a breadth-first
  search from node "A". Its actions are `setAlgorithm`, `generateNewData`, `nextStep`,
  `previousStep`, `setIsPlaying` and `setSpeed`.
- **The context provider** (`context/AlgorithmContext.tsx`). It has its own swap-only
  bubble-sort recorder and its own handlers: `generateNewData`, `nextStep`, `previousStep`
  and `handleAlgorithmSelect`.

Each recorder appears twice in the model.

- A function on sequences says what is recorded: `PassRun`/`PassesRun`/`BubbleSortSteps`,
  `SwapPass`/`SwapPasses`/`SwapOnlySteps`, and `Adjacency`/`BfsLoop`/`BfsSteps`.
- A method with the source's nested loops builds the recording, over an `array` where the
  source sorts a copy in place. Its postcondition says it produces exactly what the
  function describes.

The algorithmic facts are proved as lemmas about the functions:

- sorted output, permutation, step counts;
- the swap-only recording is the store's recording with only the settled snapshots kept;
- BFS visits exactly the nodes reachable from "A", in discovery order, each once.

The store and the provider are classes. Their fields are the source's state cells and their
methods are the actions. Each class has a `Valid()` invariant.

The store's `Valid()` says:

- the selected name and its family agree;
- the cursor is 0 or in range;
- for sorting, the steps are the bubble recording of their first array, and the shown array
  is the one under the cursor;
- for graph, the graph is the built-in one and the steps are its BFS recording;
- for tree, and before any selection, nothing is said of the steps. In the tree family they
  are kept from the family selected before.

The provider's `Valid()` says:

- the cursor is 0 or in range;
- after a selection a recording exists, and it is the one for the current selection and
  its first array;
- the shown array is the snapshot under the cursor.

Every store action keeps `Valid()`. In the provider, the selection handler as written can
break it: it stores the recording for the previous selection (see Findings). So the
provider's stepping handlers ask only for the weaker `Shown()`, which is the first and last
conditions above. Every provider handler keeps `Shown()`, and the stepping handlers also keep
`Valid()` when it held before.

`Math.random()` is replaced by a parameter `draws`: the reals in [0, 1) the calls would
have returned, consumed in call order.

Modules:

- `common.dfy`: Option, Last, NoDup, Sorted.
- `datasets.dfy`: the generators.
- `bubble_steps.dfy`: the store's bubble-sort recorder.
- `swap_steps.dfy`: the provider's swap-only recorder.
- `bfs.dfy` and `bfs_reach.dfy`: the BFS recorder.
- `store.dfy`: the store.
- `context.dfy`: the provider.
- `scenarios.dfy`: worked inputs.

## Model

| member | source | states |
|---|---|---|
| Datasets.Sample | store/algorithmStore.ts:52 | `Math.floor(r * scale) + offset` for a draw r in [0, 1) lies in [offset, offset + scale) |
| Datasets.RandomArray | store/algorithmStore.ts:51-52 | `generateRandomArray`: `length` values, each the sample of its own draw with scale 80 and offset 10, so in [10, 90) |
| Datasets.RandomBST | store/algorithmStore.ts:54-62 | `generateRandomBST(depth)`: a perfect tree of that depth with 2^depth - 1 nodes; in pre-order, node k takes draw pos + k with scale 100, so every value is in [0, 100); nothing orders the values as a search tree |
| Datasets.BuiltInGraph | store/algorithmStore.ts:64-80 | `generateRandomGraph`: five distinct nodes and six edges, each joining two different nodes of the graph |
| BubbleSteps.Swap | store/algorithmStore.ts:93 | the destructuring swap exchanges positions j and j + 1 and leaves every other position alone |
| BubbleSteps.GenerateBubbleSortSteps | store/algorithmStore.ts:82-100 | the nested loops over a copy record exactly `BubbleSortSteps(arr)`; the first snapshot is the untouched input; the last snapshot's array is `arr` sorted ascending and a permutation of it |
| BubbleSteps.RecordPass | store/algorithmStore.ts:88-96 | one run of the inner `for j` loop appends exactly what `PassRun` records and leaves the array that `PassRun` leaves |
| BubbleSteps.PassRunBubblesMax | store/algorithmStore.ts:88-96 | one inner pass carries the largest of positions 0..m to position m and does not touch the positions after m |
| BubbleSteps.BubbleSortSorts | store/algorithmStore.ts:82-100 | the last snapshot shows the input sorted ascending, as a permutation of it |
| BubbleSteps.BubbleStepsPermute | store/algorithmStore.ts:83-95 | every snapshot's array is a permutation of the input and has its length |
| BubbleSteps.BubbleSwapsSettle | store/algorithmStore.ts:91-94 | every swapping step names an adjacent out-of-order pair [j, j + 1] of its array, and the next snapshot is settled and shows exactly that pair exchanged |
| BubbleSteps.BubbleStepCount | store/algorithmStore.ts:83-97 | after the initial snapshot, the plain comparing steps visit the index pairs in nested-loop order, n(n-1)/2 of them; the length is 1 + n(n-1)/2 + 2 x (number of swaps); an array of at most one element gives one snapshot |
| SwapSteps.GenerateSwapSteps | context/AlgorithmContext.tsx:30-44 | the provider's nested loops record exactly `SwapOnlySteps(arr)`, starting with a copy of the input |
| SwapSteps.RecordSwaps | context/AlgorithmContext.tsx:36-41 | one inner loop appends exactly the arrays `SwapPass` records and leaves the array it leaves |
| SwapSteps.SwapStepsChain | context/AlgorithmContext.tsx:31-43 | the recording starts with the input, and each later array is the one before it with exactly one adjacent out-of-order pair exchanged |
| SwapSteps.SwapStepsMatchStore | context/AlgorithmContext.tsx:30-44 | the provider's recording equals the arrays of the store's settled snapshots, in order, so it has one array per store swap plus the input |
| SwapSteps.SwapStepsSort | context/AlgorithmContext.tsx:35-43 | the last array is the input sorted ascending, and every array is a permutation of the input |
| SwapSteps.SwapStepsLength | context/AlgorithmContext.tsx:35-40 | the recording has at most 1 + n(n-1)/2 arrays |
| Bfs.BuildAdjacency | store/algorithmStore.ts:108-114 | the `forEach` over the edges builds exactly `Adjacency(edges)` |
| Bfs.AdjacencyIsIncident | store/algorithmStore.ts:109-114 | the map has a list for exactly the edge endpoints; the list of x names the other end of every edge touching x, in declaration order |
| Bfs.AdjacencySymmetric | store/algorithmStore.ts:112-113 | y is listed for x exactly when some edge joins them in either direction, and exactly when x is listed for y |
| Bfs.Unvisited | store/algorithmStore.ts:126-131 | the neighbours the inner loop queues are exactly those not yet visited |
| Bfs.EnqueueUnvisited | store/algorithmStore.ts:127-131 | the inner `for` appends exactly the unvisited neighbours, in order, to the back of the queue |
| Bfs.GenerateBfsSteps | store/algorithmStore.ts:102-136 | building the map and running the queue loop from ["A"] record exactly `BfsSteps(graph.edges)` |
| Bfs.BfsStepsVisitOrder | store/algorithmStore.ts:116-124 | the first snapshot visits "A" alone; each later one adds exactly its own new node to the previous visited list; "A" heads every list; no node is visited twice; one snapshot per visited node |
| Bfs.BfsStepsClosed | store/algorithmStore.ts:116-133 | when the loop ends, every neighbour of every visited node is visited |
| Bfs.BfsStepsDiscovered | store/algorithmStore.ts:126-131 | every snapshot after the first visits a neighbour of a node the previous snapshot had visited |
| BfsReach.BfsVisitsReachable | store/algorithmStore.ts:102-136 | the final visited list holds exactly the nodes reachable from "A" along edges taken either way, each once |
| AlgorithmStore.FamilyOf | store/algorithmStore.ts:160-167 | a sorting name maps to sorting, a graph name to graph, and every other name, unknown ones included, to tree |
| AlgorithmStore.Store.constructor | store/algorithmStore.ts:138-157 | the initial state: nothing selected, empty data and steps, cursor 0, not playing, speed 500 |
| AlgorithmStore.Store.SetAlgorithm | store/algorithmStore.ts:159-176 | the name and its family are recorded, the cursor is 0, playback is off, and the data of that family is regenerated as `GenerateNewData` says |
| AlgorithmStore.Store.GenerateNewData | store/algorithmStore.ts:178-202 | sorting: 15 new values and their bubble recording; graph: the built-in graph with cleared highlights and its BFS recording; tree: a new tree, old steps kept; each rewinds to 0; with no family nothing changes; the play flag is never touched |
| AlgorithmStore.Store.RegenerateArray | store/algorithmStore.ts:181-185 | the sorting branch: the array is `RandomArray(15, draws)` and the steps are its bubble recording, cursor 0 |
| AlgorithmStore.Store.RegenerateGraph | store/algorithmStore.ts:186-194 | the graph branch: the built-in graph with empty visited and queue and no current node; the steps are its BFS recording; cursor 0 |
| AlgorithmStore.Store.RegenerateTree | store/algorithmStore.ts:195-201 | the tree branch: a new depth-3 tree from its 7 draws, with cleared highlights, cursor 0, the steps untouched |
| AlgorithmStore.Store.NextStep | store/algorithmStore.ts:204-215 | below the last index the cursor advances and the shown array becomes the new step's if it is a sorting step; otherwise the cursor stays and playback ends |
| AlgorithmStore.Store.PreviousStep | store/algorithmStore.ts:217-226 | above 0 the cursor moves back and the shown array follows a sorting step; at 0 nothing changes |
| AlgorithmStore.Store.SetIsPlaying | store/algorithmStore.ts:228 | only the play flag changes, to the given value |
| AlgorithmStore.Store.SetSpeed | store/algorithmStore.ts:229 | only the speed changes, to any given number |
| AlgorithmStore.Store.TogglePlay | components/Controls.tsx:42-47 | the play flag is flipped and the speed kept. On the last step of a selected family the data is first regenerated as `GenerateNewData` does it: new values and their bubble recording, or the built-in graph and its BFS recording, or a new tree with the steps kept. In every other case cursor, steps and data stay |
| AlgorithmContext.Animation | context/AlgorithmContext.tsx:53-59 | the stored recording starts with the data; for any selection but "Bubble Sort" it is the data alone |
| AlgorithmContext.Provider.constructor | context/AlgorithmContext.tsx:23-28 | the initial cells: no selection, empty data and recording, cursor 0, not playing, speed 500 |
| AlgorithmContext.Provider.GenerateNewData | context/AlgorithmContext.tsx:46-60 | 15 new values are shown, the cursor is 0, and the recording is the one for the current selection; `Valid` holds afterwards |
| AlgorithmContext.Provider.Regenerate | context/AlgorithmContext.tsx:46-60 | the handler body for the selection it reads: shows `RandomArray(15, draws)`, rewinds, and stores `Animation(selection, data)`, whose first array is the shown one |
| AlgorithmContext.Provider.NextStep | context/AlgorithmContext.tsx:62-69 | on any state where the shown array is the one under the cursor, stale recordings included: below the last index the cursor advances and the shown array is the recording's array there; otherwise playback is set off. `Shown` is kept, and `Valid` too if it held |
| AlgorithmContext.Provider.PreviousStep | context/AlgorithmContext.tsx:71-76 | on any state where the shown array is the one under the cursor: above 0 the cursor moves back and the shown array follows it; at 0 nothing changes. `Shown` is kept, and `Valid` too if it held |
| AlgorithmContext.Provider.HandleAlgorithmSelectAsWritten | context/AlgorithmContext.tsx:79-84 | the selection is recorded, playback is off and the cursor is 0, and the new data is shown as the first array of a non-empty recording (`Shown`); but the recording stored is the one for the previous selection |
| AlgorithmContext.Provider.HandleAlgorithmSelect | context/AlgorithmContext.tsx:79-84 | the selection is recorded, playback is off, the cursor is 0, and the recording is the one for the new selection; `Valid` holds afterwards |
| AlgorithmContext.StaleSelectionDropsRecording | context/AlgorithmContext.tsx:54-58 | on unsorted data, the recording for any other previous selection is the data alone, while the bubble-sort recording has at least two arrays |
| Scenarios.BubbleExample | store/algorithmStore.ts:82-100 | recording [5, 3, 8, 1] ends on [1, 3, 5, 8]; snapshot 2 swaps positions 0 and 1; snapshot 6 swaps 8 rightward past 1 at positions 2 and 3 |
| Scenarios.SwapOnlyExample | context/AlgorithmContext.tsx:30-44 | the provider records [5, 3, 8, 1] as [5, 3, 8, 1], [3, 5, 8, 1], [3, 5, 1, 8], [3, 1, 5, 8], [1, 3, 5, 8] |
| Scenarios.BuiltInGraphBfs | store/algorithmStore.ts:102-136 | on the built-in graph the snapshots visit A, B, C, D, E in that order, with the queues [], [C], [D], [D, E], [E] |
| Scenarios.PathBfs | store/algorithmStore.ts:102-136 | on the path A - B - C the visited order is exactly [A, B, C] |

## Left out

- `Math.random()` is not modelled. Every generator and every action that draws takes the
  draws as a parameter, so any outcome of the random calls can be stated.
- Node coordinates and edge weights are not modelled, because nothing in the core reads them.
- The spread `...nextStep` in `nextStep`/`previousStep` also copies the snapshot's
  `comparing`/`swapping` keys, and a BFS snapshot's `visited`/`queue`/`current` keys, onto
  top-level state. No component reads those keys, so they are dropped. A sorting snapshot's
  `array` key is modelled: it overwrites the shown array (`ShownArray`).
- The auto-play timer is not modelled. The only timer is the effect in
  `components/Controls.tsx:26-40`, which calls the store's `nextStep` every `speed`
  milliseconds while playing; one tick is one `Store.NextStep` call. The provider's
  "auto-play" block (`context/AlgorithmContext.tsx:87-105`) is passed to `useState` as a
  lazy initial value. It runs once, at mount, while `isPlaying` is still false, so it never
  starts a timer.
- React state batching is not modelled. Each handler's state updates run in order on the
  object. The stale read in `handleAlgorithmSelect` is modelled explicitly (see Findings).
  The other handlers read their captured values before writing, so order alone fits them.
- The provider's `setIsPlaying` and `setSpeed` are plain React setters with nothing to
  prove beyond the store's `SetIsPlaying`/`SetSpeed`.
- UI components and rendering are not part of this model. The exception is the play button
  logic of `components/Controls.tsx`, as `Store.TogglePlay`.
- Quick Sort, Merge Sort, DFS, Dijkstra's Algorithm, Binary Search Tree, AVL Tree and
  Red-Black Tree have catalogue names but no recorder of their own. They are modelled only
  through `FamilyOf` and the families' regeneration. Selecting Quick Sort or Merge Sort
  plays the bubble-sort recording, because the sorting family always regenerates with
  `generateBubbleSortSteps`. Selecting DFS or Dijkstra's Algorithm plays the BFS recording.
- Three behaviours of the code worth knowing, which the model keeps:
  - a name outside the two catalogues selects the tree family (`FamilyOf`), instead of
    being ignored;
  - `generateNewData` never clears the play flag;
  - the tree branch keeps the previous steps instead of recording a single step.

## Findings

| source | as written | input that shows it | evidently intended | confidence | as-written member | corrected member |
|---|---|---|---|---|---|---|
| context/AlgorithmContext.tsx:79-84 | `handleAlgorithmSelect` sets the selection, then calls the `generateNewData` of the same render. That closure still reads the previous `currentAlgorithm`, so the recording is built for the old selection. | A fresh provider (selection null), then `handleAlgorithmSelect('Bubble Sort')` with data not already sorted: the recording is `[data]`, and playback shows no sorting. | The recording for the algorithm just selected. | high, not executed | AlgorithmContext.Provider.HandleAlgorithmSelectAsWritten, AlgorithmContext.StaleSelectionDropsRecording | AlgorithmContext.Provider.HandleAlgorithmSelect |
