# SWM route optimization, modelled in Dafny

This project models the core of a campus waste-collection dashboard. Bins
are placed on a map and marked red ("needs collection") or green. A garage
(the depot) and a disposal site are placed once each. The route optimizer
panel then computes two tours from the garage through every red bin to the
disposal site:

- a **main route**, built by the nearest-neighbour heuristic;
- an **alternative route**, built from up to ten random orders. It is meant
  to be longer than the main route.

The repository also contains an **exact solver**. It runs Floyd–Warshall
relaxation over all waypoints, tries every ordering of the bins by brute
force, and then re-queries the chosen legs. The application never calls it;
it is modelled on its own.

The road service (an HTTP routing API) is the parameter `road: Road`, a
pure function from two coordinates to a `Leg`. A leg is the road geometry
plus a distance in kilometres, or `Inf` when no route was found.
`Math.random` is the parameter `rand`. JavaScript numbers used as distances
are `Dist = Fin(km) | Inf`: `Add` and `Less` follow JavaScript's `+` and `<`
on `Infinity`. Every accumulation loop in the source adds leg distances left
to right from 0 and concatenates leg geometries. `Geo.Length` and
`Geo.Trace` model exactly that for a chain of points.

Modules, following the source's structure:

- `Geo`: coordinates, distances, the road oracle, `Length` and `Trace`.
- `Seqs`: removing one element of a sequence, shared by both route searches, and splitting a sequence at its last element.
- `Bins`: bins, their positions, the red-bin filter, the depot→bins→site chain.
- `AllPairs`: the matrix fill, the in-place Floyd–Warshall loops, `getPath`.
- `Permutations`: the recursive `permutations` helper.
- `ExactSolver`: `findBestPermutation` and `calculateFloydWarshallRoute`.
- `NearestNeighbour`: the main-route loop of `calculateOptimalRoute`.
- `RandomRoute`: `shuffleArray` and `calculateRandomRoute`.
- `RouteOptimizer`: the guards and the stored state of `calculateOptimalRoute`.
- `Page`: the page's state and its handlers.
- `MapPlacement`: click, confirm, cancel, the mode buttons and the remove buttons.

## Behaviour worth knowing

Each point below is what the code does. Where a comment in the code states
an intent, the point cites it.

- **Exact solver with no red bin.** `findBestPermutation` reads
  `perm[0]` and `perm[perm.length - 1]` of the single empty ordering, and
  the call fails with a type error (RouteOptimizer.js:112-116).
  `ExactSolver.CalculateFloydWarshallRoute` returns `Failure(NoBinsToVisit)`.
- **Exact solver with no finite tour.** No ordering passes the strict
  `totalDist < bestDist` test against `Infinity` (line 118). The path stays
  `[]`, and the function returns an empty route, no points and a total of 0.
- **Which tour the exact solver keeps.** The search compares tours over
  the relaxed matrix, which holds shortest-walk distances
  (`AllPairs.RelaxationIsShortestWalk`). It keeps the first cheapest
  ordering. `getPath` (lines 81-89) is never called. The reported route and
  total come from re-querying the direct legs of the winning order
  (lines 130-139), not from the relaxed optimum. The model keeps that
  optimum in the extra field `relaxedDistance`. When the road service is
  symmetric and zero on the diagonal, it is at most the reported total.
- **Floor of the alternative route.** `calculateOptimalRoute` passes the
  nearest-neighbour total as `minDistance` (line 298).
- **Alternative route can be shorter.** The comment at line 151 says the
  random route is modified "to ensure longer distance". When no attempt
  exceeds the floor, the comment at line 214 says 20% is added "for
  display". That inflates the longest attempt, not the floor. So a longest
  attempt far below the floor stays below it after inflation.
  `RandomRoute.RandomRouteCanUndershoot` shows a floor of 10 km giving an
  alternative of 2.4 km. End to end, `RouteOptimizer.AlternativeUndershoots`
  shows a main route of 201 km stored with an alternative of 4.8 km. An attempt with an unreachable leg has total
  `Infinity`. It passes the `>` test against any floor and is returned
  (`RandomRoute.UnreachableAttemptWins`).
- **Bin ids.** New bins are numbered `dustbins.length + 1` (Map.js:116),
  so after a removal an id can repeat (`MapPlacement.IdsCanRepeat`).
  Removal and toggling act on every bin with the given id. Ids stay
  distinct while bins are never removed
  (`MapPlacement.ConfirmKeepsNumbering`).
- **Clearing routes after edits.** Every page handler that edits bins or
  endpoints clears the displayed main route (page.js:21-54). None of them
  clears the displayed alternative route or the panel's stored tours.

## Model

| member | source | states |
|---|---|---|
| Bins.RedBins | app/components/RouteOptimizer.js:236 | the filter keeps exactly the red bins, and never more bins than it was given |
| Bins.RedBinsAppend | app/components/RouteOptimizer.js:236 | filtering a concatenation is the concatenation of the filtered parts, so list order is kept |
| AllPairs.FillMatrices | app/components/RouteOptimizer.js:49-66 | both matrices are n×n over depot, bins and site; distances are 0 on the diagonal and symmetric, and entry (i, j) with i < j is the road distance from point i to point j; next-hops are null on the diagonal and j elsewhere |
| AllPairs.FillIsDirect | app/components/RouteOptimizer.js:57-66 | the filled matrix equals the direct-query matrix: 0 on the diagonal, and otherwise the one query for the pair with the lower index first |
| AllPairs.RelaxRow | app/components/RouteOptimizer.js:71-76 | relaxing row i in place gives each cell the minimum of its value and the detour through k; every other row is untouched |
| AllPairs.RelaxRound | app/components/RouteOptimizer.js:70-77 | one in-place pivot round equals the round computed from the matrix as it was before the round (row and column k do not move because dist[k][k] is 0) |
| AllPairs.RoundKeepsRelaxed | app/components/RouteOptimizer.js:69-78 | after round k, the triangle inequality holds through every pivot up to k, entries never rise, and unchanged entries keep their next-hop |
| AllPairs.FloydWarshall | app/components/RouteOptimizer.js:69-78 | the in-place triple loop computes exactly `RelaxUpTo(dist, n, n)` and `RelaxNextUpTo(dist, next, n, n)`, the n rounds of relaxation done one after the other. The result is at most the filled matrix at every cell and satisfies the triangle inequality through every waypoint. It stays symmetric and zero on the diagonal, next-hops stay well formed, and unchanged entries keep theirs |
| AllPairs.IsRoundIsRoundMatrix | app/components/RouteOptimizer.js:70-77 | a round described cell by cell is the round applied to the whole matrix |
| AllPairs.RelaxUpToShortens | app/components/RouteOptimizer.js:69-78 | after k rounds the distances keep a zero diagonal, never exceed the start, and satisfy the triangle inequality through every pivot below k |
| AllPairs.ShortestBelowWalk | app/components/RouteOptimizer.js:69-78 | in a matrix that is relaxed (zero diagonal, below the start, triangle inequality everywhere), the distance between the ends of any walk is at most the walk's cost over the starting matrix |
| AllPairs.PathCostJoin | app/components/RouteOptimizer.js:112-116 | a walk ending at x joined to a walk starting at x costs the sum of the two |
| AllPairs.RelaxedIsWalkCost | app/components/RouteOptimizer.js:72-75 | every entry after k rounds is the cost over the starting matrix of some walk between its two nodes: a round only ever stores the sum of two such walks |
| AllPairs.RelaxationIsShortestWalk | app/components/RouteOptimizer.js:69-78 | after all n rounds, entry (i, j) is the least walk cost from i to j over the starting matrix: no walk costs less, and some walk costs exactly that |
| AllPairs.PathCostMono | app/components/RouteOptimizer.js:111-116 | lowering matrix entries never raises the cost of a tour |
| AllPairs.Follow | app/components/RouteOptimizer.js:84-87 | a returned path starts at i, ends at j, and each step follows next[·][j] |
| AllPairs.GetPath | app/components/RouteOptimizer.js:81-89 | a null next-hop gives the empty path; otherwise a returned path follows the next-hop pointers from i to j |
| AllPairs.FollowFuelIrrelevant | app/components/RouteOptimizer.js:84-87 | once the pointer walk reaches j, more fuel gives the same path |
| Seqs.RemoveAt | app/components/RouteOptimizer.js:101 | removing index i leaves the rest in order: one element shorter, every later element shifted down by one, same multiset minus the removed element; the same helper models the `unvisited.splice(k, 1)` of the nearest-neighbour loop (line 280) |
| Permutations.AllPermutations | app/components/RouteOptimizer.js:97-106 | the list has n! entries, and each is a rearrangement of the input |
| Permutations.HeadsFrom | app/components/RouteOptimizer.js:100-104 | the loop from index i contributes (n − i)·(n − 1)! rearrangements of the input |
| Permutations.AllPermutationsComplete | app/components/RouteOptimizer.js:97-106 | every rearrangement of the input is in the list, so the search misses no order |
| ExactSolver.InnerIndices | app/components/RouteOptimizer.js:108 | the bin waypoints are 1 … n−2 in order |
| ExactSolver.VisitOrderInRange | app/components/RouteOptimizer.js:108-109 | every rearrangement of the bin indices has n−2 entries, each between 1 and n−2 |
| ExactSolver.PermutationCost | app/components/RouteOptimizer.js:112-116 | the cost loop computes the matrix cost of depot → perm → site |
| ExactSolver.FindBestPermutation | app/components/RouteOptimizer.js:93-125 | `BestTour`: the kept distance is at most the cost of every visit order. The path is empty exactly when the distance is Infinity. Otherwise the path is depot → ordering s → site, where s is the first listed ordering whose cost is strictly below every earlier one's, and the distance is that cost |
| ExactSolver.NewLeader | app/components/RouteOptimizer.js:118-121 | an ordering strictly cheaper than the best so far is strictly cheaper than every earlier ordering, so it is the first cheapest, and its cost bounds every ordering read so far |
| ExactSolver.CheapestOverAllOrders | app/components/RouteOptimizer.js:111-122 | a value at most the cost of every listed permutation is at most the cost of every visit order |
| ExactSolver.SelectPermutation | app/components/RouteOptimizer.js:142 | the elements picked by a rearranged index list are a rearrangement of those picked by the original list |
| ExactSolver.LengthIsDirectCost | app/components/RouteOptimizer.js:133-139 | for a symmetric road service that is zero on the diagonal, the re-summed legs of an index path equal its cost over the filled matrix |
| ExactSolver.SearchRelaxed | app/components/RouteOptimizer.js:49-127 | the kept path and distance are `BestTour` over the relaxed matrix of the direct road distances: the first cheapest ordering and its cost. The distance is also at most the direct cost of every visit order |
| ExactSolver.JoinSegments | app/components/RouteOptimizer.js:130-139 | the re-query loop returns the summed distance and the concatenated geometry of the winning chain |
| ExactSolver.StopsAtPermutes | app/components/RouteOptimizer.js:142 | the bins a visit order picks from `allPoints` are the red bins rearranged, and their coordinates are the waypoints the order picks |
| ExactSolver.ConsistentRoadBound | app/components/RouteOptimizer.js:127-139 | for a road service that is symmetric and zero on the diagonal, the relaxed optimum is at most the reported direct-leg total |
| ExactSolver.CalculateFloydWarshallRoute | app/components/RouteOptimizer.js:48-149 | it fails exactly when there is no red bin. There are no points exactly when the relaxed optimum is Infinity, and then the route is empty and the total 0. Otherwise the points are the red bins in the first cheapest ordering over the relaxed matrix, and the relaxed optimum is that ordering's cost. The points are a rearrangement of the red bins, and total and route are the legs of depot → points → site. The relaxed optimum is at most every order's relaxed and direct cost |
| NearestNeighbour.ScanNearest | app/components/RouteOptimizer.js:256-267 | the scan returns an index whose distance is minimal, strictly smaller than every earlier index's (ties go to the lowest index) |
| NearestNeighbour.Nearest | app/components/RouteOptimizer.js:256-267 | the chosen bin is a nearest unvisited bin, the first one among equals |
| NearestNeighbour.NearestIsUnique | app/components/RouteOptimizer.js:260-266 | at most one index satisfies the scan's nearest-first rule, so the choice is determined |
| NearestNeighbour.GreedyOrder | app/components/RouteOptimizer.js:255-281 | the visiting order is a rearrangement of the red bins, and each stop is at least as close to the previous position as every later stop |
| NearestNeighbour.GreedyStepNearest | app/components/RouteOptimizer.js:255-281 | putting the nearest bin in front of a greedy order of the rest gives a greedy order of all bins |
| NearestNeighbour.GreedyStep | app/components/RouteOptimizer.js:269-280 | one iteration appends the nearest bin to the visited prefix and adds its leg to distance and geometry; an unreachable nearest bin makes the whole tour unreachable |
| NearestNeighbour.VisitLoop | app/components/RouteOptimizer.js:255-291 | the loop succeeds exactly when the greedy tour has finite length, and then returns its geometry and length; it fails at the disposal leg exactly when only that last leg is unreachable |
| NearestNeighbour.FinalLeg | app/components/RouteOptimizer.js:283-291 | with nothing left to visit, the tour is the visited chain plus the final leg to the disposal site |
| NearestNeighbour.NearestNeighbourRoute | app/components/RouteOptimizer.js:248-294 | success exactly when the greedy tour is finite. The stops are the greedy order and contain every red bin once; distance and geometry are those of garage → stops → site. The disposal error occurs exactly when only the last leg is unreachable |
| RandomRoute.Swap | app/components/RouteOptimizer.js:157 | the two entries trade places, nothing else moves, and the contents are kept |
| RandomRoute.ShuffleDown | app/components/RouteOptimizer.js:155-158 | the Fisher–Yates loop returns a rearrangement of its input |
| RandomRoute.Shuffle | app/components/RouteOptimizer.js:154-160 | the shuffled copy is a rearrangement of the red bins |
| RandomRoute.ShuffleDownKeepsOnSelfDraws | app/components/RouteOptimizer.js:155-158 | when every draw picks its own index, the shuffle moves nothing |
| RandomRoute.AttemptOrder | app/components/RouteOptimizer.js:170 | each attempt visits the red bins in some order, each exactly once |
| RandomRoute.Attempts | app/components/RouteOptimizer.js:170-192 | the ten attempts, attempt a being garage → attempt a's order → site with its summed legs and geometry |
| RandomRoute.Inflate | app/components/RouteOptimizer.js:215-220 | inflation keeps the geometry and makes a positive distance strictly larger |
| RandomRoute.KeepsLongest | app/components/RouteOptimizer.js:202-209 | an attempt longer than the best so far becomes the longest of all attempts seen, and the first to reach that length |
| RandomRoute.KeepsBest | app/components/RouteOptimizer.js:202-209 | an attempt no longer than the best so far leaves the best as the longest (first among equals) |
| RandomRoute.Retry | app/components/RouteOptimizer.js:163-225 | from attempt a on, the loop returns the first attempt exceeding the floor; or else 1.2 × the first longest positive attempt; or else no geometry and 1.2 × the floor when every attempt was 0 km |
| RandomRoute.CalculateRandomRoute | app/components/RouteOptimizer.js:152-225 | the result is the first of the ten attempts that exceeds the floor; or else the first longest positive attempt with its distance × 1.2; or else an empty route with 1.2 × the floor |
| RandomRoute.UnreachableAttemptWins | app/components/RouteOptimizer.js:178-200 | an attempt with an unreachable leg, tried first, is returned as the alternative with an infinite distance |
| RandomRoute.UniformAttempts | app/components/RouteOptimizer.js:202-220 | when every attempt has the same positive length not above the floor, the result is that attempt inflated by 20% |
| RandomRoute.RandomRouteCanUndershoot | app/components/RouteOptimizer.js:214-225 | with one bin, 1 km legs and a 10 km floor, the alternative is 2.4 km, below the floor |
| RouteOptimizer.InitialState | app/components/RouteOptimizer.js:4-10 | the panel starts with nothing stored, both distances 0, the nearest route selected |
| RouteOptimizer.CalculateOptimalRoute | app/components/RouteOptimizer.js:228-328 | a missing endpoint alerts and changes nothing. No red bin alerts, clears the stored routes and reports empty routes. An unreachable greedy tour alerts and changes nothing. Otherwise both routes are stored, optimalRoute is the red-bin list, and the callback carries only the selected route |
| RouteOptimizer.NoRedMeansAllGreen | app/components/RouteOptimizer.js:236-238 | the red-bin list is empty exactly when every bin is green |
| RouteOptimizer.GuardsIgnoreRoad | app/components/RouteOptimizer.js:231-245 | with an endpoint missing or no red bin, the outcome does not depend on the road service or the random source |
| RouteOptimizer.CallbackShowsSelectedRoute | app/components/RouteOptimizer.js:305-320 | after a successful calculation, the callback's route slot of the selected kind holds that stored route and the other slot is empty |
| RouteOptimizer.MainRouteVisitsEveryRedBin | app/components/RouteOptimizer.js:248-294 | the stored main route's stops are exactly the red bins, each once |
| RouteOptimizer.AlternativeUndershoots | app/components/RouteOptimizer.js:296-309 | end to end through calculateOptimalRoute: on any road with the instance's six one-way legs and with every draw picking index 0, the stored main route is 201 km and the stored alternative 4.8 km, shorter than the main route it is meant to exceed |
| RouteOptimizer.AlternativeCanBeShorter | app/components/RouteOptimizer.js:214-220 | the same outcome with a concrete road service keyed by latitude |
| Page.InitialPage | app/page.js:14-18 | the page starts with no bins, no routes and no endpoints |
| Page.Flip | app/page.js:25 | the toggled status always differs from the old one |
| Page.ToggleDustbinStatus | app/page.js:21-31 | bins with the id change status; all other bins, every id and position, and the list order are unchanged; the main route is cleared; the alternative route and endpoints are kept |
| Page.ToggleTwiceRestores | app/page.js:21-31 | toggling the same id twice gives back the original bin list |
| Page.HandleDustbinAdd | app/page.js:33-40 | the new bin is appended after the unchanged list; the main route is cleared; the rest is kept |
| Page.WithoutId | app/page.js:43 | the filter keeps exactly the bins whose id differs, never more than it was given |
| Page.WithoutIdAppend | app/page.js:43 | the filter distributes over concatenation, so the kept bins stay in order |
| Page.WithoutAbsentId | app/page.js:43 | removing an id no bin carries leaves the list unchanged |
| Page.HandleDustbinRemove | app/page.js:42-45 | exactly the bins with the id disappear; the main route is cleared; the rest is kept |
| Page.RemoveUndoesAdd | app/page.js:33-45 | adding a bin with a fresh id and then removing that id gives back the bin list |
| Page.HandleGarageLocationSet | app/page.js:47-50 | the garage becomes the given location (null removes it) and the main route is cleared; bins, alternative route and disposal site are kept |
| Page.HandleDisposalSiteSet | app/page.js:52-55 | the disposal site becomes the given location (null removes it) and the main route is cleared; the rest is kept |
| Page.HandleRouteCalculated | app/page.js:56-61 | both routes are replaced; a given endpoint is stored, a missing one leaves the current endpoint; the bins are unchanged |
| Page.PressCalculate | app/page.js:96-100 | the panel computes from the page's bins and endpoints; without a callback the page is unchanged |
| Page.CalculationKeepsPageInputs | app/page.js:57-62 | a calculation never changes the bins or endpoints; the page then draws the selected stored route, or nothing when there was no red bin |
| MapPlacement.InitialUi | app/components/Map.js:97-99 | the map starts in bin mode with no dialog and no clicked point |
| MapPlacement.HandleMapClick | app/components/Map.js:105-109 | the clicked point is remembered and the dialog opens; the mode is kept |
| MapPlacement.HandleCancel | app/components/Map.js:140-143 | the dialog closes and the point is forgotten; the mode is kept |
| MapPlacement.NewDustbin | app/components/Map.js:115-120 | a new bin sits at the clicked point, is green, and gets id count + 1 |
| MapPlacement.HandleConfirm | app/components/Map.js:111-138 | with no point nothing happens. A set garage or site is refused with an alert, leaving the dialog open and nothing changed. Otherwise the point is placed for the mode and the dialog closes. A set endpoint is never replaced |
| MapPlacement.SelectMode | app/components/Map.js:161-180 | a mode is entered exactly when it is already current, is bin mode, or its endpoint is unset (the button is enabled); otherwise the click changes nothing, and entering a mode changes nothing but the mode |
| MapPlacement.RemoveGarage | app/components/Map.js:243-248 | the garage is cleared and garage mode is selected; bins and disposal site are kept |
| MapPlacement.RemoveDisposal | app/components/Map.js:268-271 | the disposal site is cleared; the map's mode and dialog are unchanged |
| MapPlacement.RemoveThenPlaceGarage | app/components/Map.js:243-248 | after removing the garage, one click and a confirm place the new garage with no mode change in between |
| MapPlacement.RemoveDisposalKeepsMode | app/components/Map.js:268-271 | removing the site does not select disposal mode: in bin mode the next confirm adds a bin |
| MapPlacement.ConfirmKeepsNumbering | app/components/Map.js:114-121 | while bins are only added through the map, ids stay 1 … n, so no two bins share an id |
| MapPlacement.IdsCanRepeat | app/components/Map.js:116 | after removing bin 1 of bins 1 and 2, the next bin added also gets id 2 |

## Left out

- The HTTP routing request, JSON parsing and the metres-to-kilometres conversion (`getRoadRoute`, `calculateRoadDistance`). They are the `road` oracle. Both helpers answer the same query the same way, so one oracle serves both.
- Floating-point rounding: distances are exact non-negative reals, and the 1.2 multiplier is the real 1.2.
- `async`/`await`, React state batching and the `isCalculating` flag. Each handler is a function from the state before to the state after.
- The fuel-cost modal and its arithmetic, the route-selection buttons (`handleRouteSelection`), and every piece of JSX, Leaflet marker or styling. These are display, not routing logic.
- `MapWrapper.js` and `layout.js`: they only load and lay out components.
- The `alert` texts: the model records which alert was raised.
- `console.error` logging.
- AllPairs.GetPath: the loop in the source has no bound and would not stop on a cycle of next-hops. The model walks at most `fuel` hops and returns `None` when they run out; termination of the unbounded loop is not proved.
- NearestNeighbour.NearestNeighbourRoute: the model also returns the visiting order (`stops`). The source returns only the geometry and the total, and stores the red-bin list in list order as `optimalRoute`.
- ExactSolver.CalculateFloydWarshallRoute: the model also returns the relaxed optimum (`relaxedDistance`), which the source computes and discards.
- RouteOptimizer.CalculateOptimalRoute: the no-red-bin branch leaves `totalDistance` and `alternativeTotalDistance` as they were, as the source does; the model does not reset them.
- RandomRoute.CalculateRandomRoute: `Math.random()` is the draw `rand(attempt, i)`, and index `rand(attempt, i) mod (i + 1)` stands for `Math.floor(Math.random() * (i + 1))`. The model does not state that draws are uniform.
- RandomRoute.Attempts: the source computes attempts lazily and stops at the first one that exceeds the floor. The model lists all ten and reads only as far as the loop does; with a pure road service the result is the same.
