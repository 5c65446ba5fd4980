# Team Orienteering solver: a Dafny model of its optimisation engine

The solver plans routes for a fleet of `n_trucks` vehicles over a set of
nodes. Node 0 is the source depot, node N-1 is the sink depot, and every
other node is a customer with an integer reward. Every route runs from the
source to the sink. A route's length must not exceed the budget `tmax`. The
aim is to collect as much reward as possible.

A solution holds two maps:
- `routes`, from route id to route;
- `c_to_r`, the reverse index from each served customer to the id of its
  route.

The `Solution` dataclass also carries a `problem` field
(src/top/problem.py:38). The model drops it: every operation takes the
problem `p` as a parameter instead.
The `reward` property of a solution is the function `RewardTotal` over
its routes, which every contract uses directly.

This project models the engine that builds and improves such solutions. It
covers four parts:

- **`problem.dfy`, module `TopProblem`** (`src/top/problem.py`):
  - customers, the problem instance, routes and the `Solution` class;
  - the reward and the length of a solution;
  - the customer table and the distance table of `read_instance`;
  - the invariant `SolutionValid`: every route is stored under its own id,
    starts at the source and ends at the sink, and visits each customer at
    most once. The index maps exactly the customers the routes visit, each
    to its route.
- **`selector.dfy` and `heuristic.dfy`, modules `BraSelection` and
  `Heuristic`** (`src/top/heuristic.py`):
  - the biased-randomised selector, a class over the sorted list of
    options;
  - the dummy solution of single-customer routes;
  - the savings list;
  - route merging, which updates the solution's index in place;
  - the savings heuristic, which merges routes in place and then keeps the
    `n_trucks` routes with the largest rewards;
  - the sequential constructive heuristic.
- **`localsearch.dfy`, module `LocalSearch`** (`src/top/localsearch.py`):
  - 2-opt, as an in-place segment reversal on an array that keeps a running
    length;
  - the operators `insert`, `remove` and `shaking`. Each works on copies of
    the solution's maps and returns a fresh solution.
- **`metaheuristic.dfy`, module `Metaheuristic`**
  (`src/top/metaheuristic.py`):
  - the greedy alpha search;
  - the control loops of the multi-start metaheuristic and the local-search
    metaheuristic.

  Each loop is specified by a step function, and a `Run` function applies
  that step n times. The method that mirrors the source's loop is proved to
  end in the state `Run` computes.

Randomness is passed in as arguments:
- the selector's raw index, before the `% len(options)`, comes from a
  stream `draw`, and the k-th element taken from any selector uses
  `draw(k)`;
- the route picked by `random.choice` and the position picked by
  `random.randrange` are parameters;
- the outcome of the annealing test is a boolean oracle.

Distances are an abstract symmetric, non-negative function. In the
metaheuristics, the heuristics, the operators and the Monte-Carlo
simulation are oracles that return a candidate solution with its reward and
its stochastic reward.

## Model

| member | source | states |
|---|---|---|
| `TopProblem.RewardTotalRemove` | src/top/problem.py:43-45 | The solution's reward counts every route once, in any order: it is any one route's reward plus the reward of the other routes |
| `TopProblem.RewardTotalUpdate` | src/top/problem.py:43-45 | Replacing route k changes the solution's reward by the difference of the two routes' rewards; adding a new route adds its reward |
| `TopProblem.LengthTotalRemove` | src/top/problem.py:47-49 | The intended solution length counts every route's length once: any one route's length plus the length of the others |
| `TopProblem.Solution.LengthAsWritten` | src/top/problem.py:47-49 | As written, evaluating `Solution.length` always raises NameError for the unbound name `routes` |
| `TopProblem.LengthAsWrittenRaises` | src/top/problem.py:47-49 | Even for a one-route solution, the as-written property does not produce the total length, while the corrected `Length` equals that route's length |
| `TopProblem.Solution.constructor` | src/top/problem.py:37-41 | A solution holds exactly the given routes and index |
| `TopProblem.ReadCustomers` | src/top/problem.py:66-70 | Row i of the instance becomes customer i with that row's coordinates and reward, and the ids are exactly 0..N-1 |
| `TopProblem.BuildDistances` | src/top/problem.py:72-76 | The table has an entry for every ordered pair of distinct ids and none for (i, i); (a, b) and (b, a) hold the same value, the given distance of the pair |
| `TopProblem.TableProblemValid` | src/top/problem.py:72-76 | A symmetric, non-negative table over ids 0..N-1, read as a distance function, makes a valid problem instance |
| `TopProblem.LegSumReversed` | src/top/localsearch.py:8-10 | With symmetric distances, reversing a sequence keeps its leg sum; 2-opt's delta update relies on this |
| `BraSelection.SortDesc` | src/top/heuristic.py:56 | The sorted options are a permutation of the input in non-increasing order of value |
| `BraSelection.BraSelector.constructor` | src/top/heuristic.py:56 | A new selector holds the input sorted by descending value, as a permutation |
| `BraSelection.BraSelector.Next` | src/top/heuristic.py:58-59 | Drawing pops the option at `raw % len`: it returns an element of the old options and removes exactly that element. The options shrink by one and stay sorted |
| `BraSelection.YieldsPermutation` | src/top/heuristic.py:57-60 | Run to the end, the selector yields exactly `len(lst)` elements, and they form a permutation of its input |
| `BraSelection.YieldsGreedy` | src/top/heuristic.py:57-60 | When every raw index is 0, the selector yields its sorted options in order |
| `BraSelection.GreedySelectionDescending` | src/top/heuristic.py:56-60 | A greedy run over any list yields all of its elements in non-increasing order of value |
| `BraSelection.DrawOne` | src/top/heuristic.py:142 | `next(bra_selector(lst))` returns the element at `raw % len` of the sorted list, which is an element of lst |
| `Heuristic.Fitting` | src/top/heuristic.py:21-24 | The customers a dummy-route loop serves are exactly the ids below the bound that are not served yet, not a depot, and whose round trip fits tmax, listed in increasing id order |
| `Heuristic.WithDummiesStep` | src/top/heuristic.py:24-28 | Giving the next such customer the route [0, c, N-1] under the next id, and pointing c to it, extends the tables by exactly that route and that entry |
| `Heuristic.InitSolution` | src/top/heuristic.py:16-30 | The result is the dummy solution: route j is [0, c, N-1], with the round-trip length and c's reward, for the j-th customer c in id order whose round trip fits tmax; c is indexed to j; there are no other routes and no other index entries. It is valid, within budget, and its lengths and rewards are exact |
| `Heuristic.DummyValid` | src/top/heuristic.py:16-30 | The dummy solution is valid, within budget, with exact lengths and rewards; its ids are 0..n-1, it serves exactly the customers whose round trip fits, and each of them alone on a route [0, c, N-1] |
| `Heuristic.SingletonsValid` | src/top/heuristic.py:21-28 | Single-customer routes indexed to their customers form a valid solution whose lengths and rewards are exact and within budget |
| `Heuristic.GenerateSavings` | src/top/heuristic.py:32-43 | Every ordered pair (i, j) of distinct customers gets exactly one saving, with value `alpha*(d(i,N-1)+d(0,j)-d(i,j)) + (1-alpha)*(r(i)+r(j))`; pairs involving a depot get none |
| `Heuristic.MergedRoute` | src/top/heuristic.py:68-74 | The merged route has iroute's id and the customers `iroute[:-1] + jroute[1:]`; its interior is the two interiors concatenated and its reward is the sum. Exact lengths and rewards of the inputs give an exact merged length and reward |
| `Heuristic.MergeLegSum` | src/top/heuristic.py:72 | The delta formula for the merged length equals the leg sum of the concatenated route |
| `Heuristic.MergeRoutes` | src/top/heuristic.py:62-74 | Merging leaves the routes map alone, re-points every interior customer of jroute to iroute's id in the solution's index, and returns `MergedRoute` |
| `Heuristic.MergeKeepsValid` | src/top/heuristic.py:100-103 | Replacing two distinct routes by their merge under iroute's id, with the re-pointed index, keeps the solution valid |
| `Heuristic.MergeKeepsReward` | src/top/heuristic.py:100-103 | A merge does not change the solution's reward |
| `Heuristic.MergeIfLinkable` | src/top/heuristic.py:95-103 | For a saving whose customers are indexed on two different routes, the new tables are `MergeStep`: when i is the last customer of its route, j the first of its route and the merged length fits tmax, both routes are replaced by the merged route under i's route id and j's customers are repointed to it; otherwise nothing changes. Validity, the reward, the served customers, budget and exactness carry over |
| `Heuristic.ApplyMerge` | src/top/heuristic.py:99-103 | The routes become the old ones without routes i and j plus the merged route (route i without its sink, then route j without its source) under i's id, and exactly route j's customers are repointed to i. The solution stays valid and within budget if it was, and keeps its reward and its served customers |
| `Heuristic.AfterMergeCount` | src/top/heuristic.py:101-103 | A merge replaces two routes by one: the route count drops by exactly one |
| `Heuristic.MergeRunCount` | src/top/heuristic.py:87-107 | The merge loop never adds a route, and a fleet with more routes than trucks is never merged below n_trucks routes |
| `Heuristic.MergeSavings` | src/top/heuristic.py:87-107 | The final tables are `MergeRun` over the sorted savings and the drawn indices: a saving whose customers are not on two different indexed routes is skipped, every other is handled by `MergeStep`, after which the loop stops once at most n_trucks routes remain. Validity, the reward, the served customers, budget and exactness carry over |
| `Heuristic.TopRoutes` | src/top/heuristic.py:110 | `nlargest` returns min(n, number of routes) routes of the solution, in non-increasing order of reward |
| `Heuristic.TopRoutesBest` | src/top/heuristic.py:110 | Every route kept has at least the reward of every route dropped |
| `Heuristic.TopKeepsValid` | src/top/heuristic.py:110-112 | The rebuilt routes and index form a valid solution with at most n routes; every entry comes unchanged from the old maps, and the index covers exactly the customers of the kept routes |
| `Heuristic.KeepBestRoutes` | src/top/heuristic.py:110-112 | The tables become `KeepBest` of the old ones: exactly min(n_trucks, number of routes) routes, unchanged and with the largest rewards, and the index rebuilt from them; the result is valid |
| `Heuristic.SavingsHeuristic` | src/top/heuristic.py:76-113 | The result is `KeepBest` of `MergeRun` from the starting tables (the seed's, which is mutated, or else the dummy solution) over a savings list with every ordered customer pair once, each scored by alpha. It is valid with at most n_trucks routes, serves only customers the seed served, and keeps the seed's budget and exactness facts |
| `Heuristic.Candidates` | src/top/heuristic.py:133-139 | Every listed step is an unvisited node of the instance from which the sink can still be reached within tmax, scored `r(c)*(1-alpha) + alpha*(d(cnode,N-1)-d(cnode,c)-d(c,N-1))` |
| `Heuristic.CandidatesComplete` | src/top/heuristic.py:133-139 | Every feasible customer is listed |
| `Heuristic.CandidatesOrdered` | src/top/heuristic.py:136 | The list is in customer id order, the order of `p.customers` |
| `Heuristic.NoneFeasible` | src/top/heuristic.py:131-141 | An empty candidate list means that no customer can be appended |
| `Heuristic.Visit` | src/top/heuristic.py:143-149 | Visiting a chosen step appends it to the path, marks it visited, indexes it, and updates the running distance and reward to the path's leg sum and reward sum |
| `Heuristic.Drawn` | src/top/heuristic.py:141 | `next(bra_selector(customers, beta))` on a fresh selector yields one of the candidates: the one at the drawn index of the list sorted by value |
| `Heuristic.GrowExtends` | src/top/heuristic.py:131-149 | The while loop (`Grow`) only appends to the path, and uses exactly one draw per appended customer |
| `Heuristic.GrowFeasible` | src/top/heuristic.py:131-149 | Every customer the loop appends was feasible at the moment it was drawn: unvisited at that point, and the sink still reachable within tmax through it |
| `Heuristic.GrowMaximal` | src/top/heuristic.py:131-141 | The loop stops only when no customer can follow the last node |
| `Heuristic.GrowTurn` | src/top/heuristic.py:141-149 | One turn visits the customer drawn from the scored candidates with the next draw, and the loop still heads for the same end |
| `Heuristic.ExtendRoute` | src/top/heuristic.py:130-149 | The loop ends exactly where `Grow` from the bare source ends: the path, the visited set and the draws used. Each appended customer is the selector's pick, with the current draw, among the candidates scored after the previous one. The path goes through new, distinct customers, with exact running distance and reward, and no customer can be appended to it; a non-trivial path can still close within tmax |
| `Heuristic.BuildRoute` | src/top/heuristic.py:130-153 | One truck's route is the `Grow` path from the source closed at the sink, and the visited set and draw counter are where `Grow` leaves them. The route is well formed with exact length and reward, is within tmax unless it has no customer, visits only customers not visited before, and is recorded in the visited set and the index |
| `Heuristic.AddTruckRoute` | src/top/heuristic.py:129-154 | Route i is the `Grow` path of truck i closed at the sink, stored under id i, with earlier routes unchanged. Ids stay 0..i, every route stays good, the index exact, and the visited set equal to the depots plus the indexed customers |
| `Heuristic.ConstructPrefix` | src/top/heuristic.py:129-154 | Building more trucks never changes the paths of the earlier ones: truck i's path depends only on trucks 0..i-1 |
| `Heuristic.TracedStep` | src/top/heuristic.py:129-154 | Adding truck n's route as the for loop does extends the trace: routes 0..n are `Construct`'s paths for n+1 trucks, and the visited set and draws are those `Construct` reaches |
| `Heuristic.ConstructiveHeuristic` | src/top/heuristic.py:115-156 | Route r's customers are exactly `Construct`'s r-th path closed at the sink. That path is truck r's greedy-randomised growth: from the customers left by trucks 0..r-1, with the draws that follow theirs. Exactly n_trucks routes with ids 0..n_trucks-1. The solution is valid, so no customer appears twice; lengths and rewards are exact, and every route with a customer fits tmax |
| `LocalSearch.Flip` | src/top/localsearch.py:19 | `customers[i:j] = reversed(customers[i:j])`: positions i..j-1 are reversed and the rest are kept |
| `LocalSearch.FlipFacts` | src/top/localsearch.py:16-20 | A reversal with 1 <= i < j < len keeps the multiset and both ends, and changes the leg sum by `new_dist - current_dist` |
| `LocalSearch.ReverseSegment` | src/top/localsearch.py:19 | The in-place reversal leaves the array equal to `Flip` of its old contents |
| `LocalSearch.TryPair` | src/top/localsearch.py:16-21 | Reverses exactly when the pair is improving. The running length moves by the same amount as the leg sum, and an applied reversal makes both strictly smaller |
| `LocalSearch.ScanRow` | src/top/localsearch.py:15-21 | One row of the j loop keeps the multiset and the ends and tracks the leg sum. It reports an improvement only when one was applied, and without one no pair in that row improves |
| `LocalSearch.Sweep` | src/top/localsearch.py:13-21 | A full pass keeps the multiset and the ends and tracks the leg sum. If it improves, the leg sum strictly falls; if not, the route is unchanged and 2-optimal |
| `LocalSearch.ShorterShrinks` | src/top/localsearch.py:12-21 | An improving pass strictly shrinks the finite set of orderings shorter than the current one, so the `while improved` loop terminates |
| `LocalSearch.Opt2` | src/top/localsearch.py:7-22 | Keeps id and reward, returns a permutation with the same first and last nodes, and never increases the length. The length keeps its offset from the leg sum, so an exact length stays exact. The result is 2-optimal, and a 2-optimal input comes back unchanged |
| `LocalSearch.InsertAfterSource` | src/top/localsearch.py:61 | `customers[:1] + [id] + customers[1:]`: one more node, the same ends, and the interior gains id at its front |
| `LocalSearch.InsertCandidate` | src/top/localsearch.py:60-69 | The candidate route has the customer inserted after the source, the added reward, and is then passed through `opt2` |
| `LocalSearch.InsertedFacts` | src/top/localsearch.py:61-68 | Inserting an unserved customer gives a well-formed route whose interior is the old one plus that customer; an exact reward stays exact |
| `LocalSearch.InsertKeepsValid` | src/top/localsearch.py:71-73 | Committing an insertion, with `c_to_r[id] = route_id`, keeps the solution valid and its rewards exact |
| `LocalSearch.InsertTry` | src/top/localsearch.py:56-73 | One id of the loop: an id already served or a depot changes nothing; otherwise the candidate is the route with the customer after the source, its reward added, 2-optimised, and it is committed with `c_to_r[id] = route_id` exactly when its length fits tmax |
| `LocalSearch.InsertTurnKeeps` | src/top/localsearch.py:56-73 | Each such turn keeps the solution valid, changes only the chosen route, keeps every old index entry, indexes new customers only to the chosen route, and keeps budget and exactness |
| `LocalSearch.Insert` | src/top/localsearch.py:48-76 | Returns a fresh solution and leaves the input's maps untouched. The result is the end of a trace that starts at the chosen route and the index and takes one `InsertTry` turn for each id 0..N-1 in order. Only the chosen route may change. Validity, budget and exactness carry over |
| `LocalSearch.RemoveAt` | src/top/localsearch.py:90 | `list.pop(idx)`: one element fewer, and the multiset loses exactly the popped element |
| `LocalSearch.LegSumRemoveAt` | src/top/localsearch.py:96-101 | The source's length formula for the shorter route equals the leg sum after the pop |
| `LocalSearch.RemoveCandidate` | src/top/localsearch.py:88-103 | The candidate drops one interior position, loses that customer's reward, keeps its length offset, and is 2-optimised |
| `LocalSearch.DroppedReward` | src/top/localsearch.py:95 | Subtracting the removed customer's reward keeps an exact reward exact |
| `LocalSearch.RemoveKeepsValid` | src/top/localsearch.py:105-107 | Committing a removal, with that customer popped from the index, keeps the solution valid and its rewards exact |
| `LocalSearch.Remove` | src/top/localsearch.py:79-109 | A route of at most 3 nodes leaves the solution unchanged. Otherwise the candidate is the route without the customer at idx, with that reward subtracted and 2-optimised; the result is that candidate with the customer popped from the index exactly when the candidate fits tmax, and the unchanged solution otherwise. Validity, budget and exactness carry over |
| `LocalSearch.MaxKey` | src/top/localsearch.py:34 | `max(routes.keys())`: a key of the routes at least every other key |
| `LocalSearch.Unindex` | src/top/localsearch.py:31-32 | Popping the destroyed route's customers yields `Unindexed`: exactly those entries are removed and every other is kept |
| `LocalSearch.Destroy` | src/top/localsearch.py:28-32 | Dropping the chosen route and its customers' index entries leaves a valid solution with one route fewer and the index `Unindexed`, and keeps budget and exactness |
| `LocalSearch.AddSingletons` | src/top/localsearch.py:35-42 | The tables are the old ones plus, for the j-th customer c in id order that is unserved and whose round trip fits tmax, the route [0, c, N-1] under id firstId + j and the entry c -> firstId + j; nothing else changes. The result is valid, and budget and exactness carry over |
| `LocalSearch.AddTurn` | src/top/localsearch.py:36-42 | One id of that loop: a served id, a depot or a customer whose round trip exceeds tmax is passed over; any other gets the next id, and the tables stay the old ones plus the dummy routes of the customers handled so far |
| `LocalSearch.ShakeStart` | src/top/localsearch.py:26-44 | `ShakenStart`: newRouteId is one above the largest remaining id, which is itself a remaining id. The tables are the destroyed solution plus dummy routes numbered newRouteId, newRouteId + 1, ... for the customers then unserved whose round trip fits, in id order. Every other route keeps its id |
| `LocalSearch.Shaking` | src/top/localsearch.py:24-45 | The result is `KeepBest` of `MergeRun` over a savings list, started from `ShakeStart`'s tables. It is fresh and valid with at most n_trucks routes, serves only customers served before or whose round trip fits, and keeps budget and exactness |
| `Metaheuristic.FirstMax` | src/top/metaheuristic.py:22-27 | A scan that replaces its choice only on a strictly larger value ends on a maximal element with every earlier element strictly smaller |
| `Metaheuristic.Alpha` | src/top/metaheuristic.py:23 | Every point of the alpha grid lies in [0, 1] |
| `Metaheuristic.GenerateGreedySolution` | src/top/metaheuristic.py:17-28 | The returned candidate comes from the first grid alpha whose reward is maximal: no grid point beats it, and every earlier grid point is strictly worse |
| `Metaheuristic.Append` | src/top/metaheuristic.py:82 | `deque.append` with `maxlen`: the deque grows by one until it is full, then keeps its size, and ends with the new element |
| `Metaheuristic.AppendContents` | src/top/metaheuristic.py:68 | The deque keeps the newest elements of the old contents plus x; only the oldest is evicted |
| `Metaheuristic.RobustMaximal` | src/top/metaheuristic.py:99-102 | The robust solution is an elite with maximal long-run score, and every earlier elite scores strictly less |
| `Metaheuristic.MostRobust` | src/top/metaheuristic.py:99-102 | The selection loop returns `Robust` of the elites, a member of the elites |
| `Metaheuristic.MultiStartInit` | src/top/metaheuristic.py:65-68 | The state before the loop satisfies the loop invariant |
| `Metaheuristic.MultiStartStep` | src/top/metaheuristic.py:74-95 | One iteration keeps the invariant: the elites stay bounded by n_elites and end with the best stochastic solution, the stall counter stays in range, and beta stays in [min_beta, beta_start]. The best reward and best stochastic reward become maxima with the candidate's |
| `Metaheuristic.MultiStartStepFacts` | src/top/metaheuristic.py:80-95 | The best pair is kept or becomes the candidate's. The candidate joins the elites exactly when its stochastic reward is strictly better. An improvement resets beta but not the counter; otherwise the counter grows, and once it passes the threshold it resets to 0 and beta drops by beta_step, floored at min_beta |
| `Metaheuristic.MultiStartRun` | src/top/metaheuristic.py:72-95 | After any number of iterations the invariant holds, and the best and best stochastic rewards have not decreased |
| `Metaheuristic.MultiStartBest` | src/top/metaheuristic.py:85-87 | No candidate of an earlier iteration has a larger reward than the current best reward |
| `Metaheuristic.MultiStartBestOrigin` | src/top/metaheuristic.py:85-87 | The best solution and best reward are the greedy start's, or both come from the same earlier candidate |
| `Metaheuristic.MultiStartRewardConsistent` | src/top/metaheuristic.py:66 | If every candidate's reward is the reward of its solution, `best_reward` stays the reward of `best_solution` |
| `Metaheuristic.MultiStartIteration` | src/top/metaheuristic.py:74-95 | The loop body, with its `continue`, does what `MultiStartStep` specifies |
| `Metaheuristic.MultiStartMetaheuristic` | src/top/metaheuristic.py:30-105 | Returns the best solution after max_iter iterations and the most robust of the final elites |
| `Metaheuristic.LocalSearchInit` | src/top/metaheuristic.py:135-142 | The state before the loop satisfies the loop invariant |
| `Metaheuristic.LocalSearchStep` | src/top/metaheuristic.py:155-174 | One iteration keeps the invariant (bounded elites, base no better than best, positive temperature), never lowers the best reward, and multiplies the temperature by 0.999 |
| `Metaheuristic.LocalSearchStepFacts` | src/top/metaheuristic.py:158-172 | A candidate at least as good as the base becomes the base; a worse one becomes the base only when the annealing test accepts it. The best reward becomes the maximum. The candidate joins the elites exactly when it is not worse than the base and its stochastic reward is strictly better |
| `Metaheuristic.LocalSearchRun` | src/top/metaheuristic.py:146-174 | After any number of iterations the invariant holds and the best reward has not decreased |
| `Metaheuristic.LocalSearchBest` | src/top/metaheuristic.py:162-163 | No candidate of an earlier iteration has a larger reward than the current best reward, whatever the annealing test accepted |
| `Metaheuristic.LocalSearchTemperature` | src/top/metaheuristic.py:174 | After n iterations the temperature is the starting one times 0.999^n |
| `Metaheuristic.StartTemperatureAfter` | src/top/metaheuristic.py:140 | From the loop's start the temperature after n iterations is 1000 * 0.999^n, which is positive |
| `Metaheuristic.LocalSearchRewardConsistent` | src/top/metaheuristic.py:136-172 | If every candidate's reward is the reward of its solution, best_reward and base_reward stay the rewards of best_solution and base_solution |
| `Metaheuristic.LocalSearchIteration` | src/top/metaheuristic.py:155-174 | The loop body does what `LocalSearchStep` specifies, and consults the annealing test only for a worse solution |
| `Metaheuristic.LocalSearchMetaheuristic` | src/top/metaheuristic.py:108-184 | Returns the best solution after max_iter iterations and the most robust of the final elites |

## Left out

- Monte-Carlo simulation (`src/top/simulation.py`): stochastic rewards are oracle reals. It is floating-point numerics over a random generator.
- Plotting (`src/top/plot.py`) and batch orchestration (`src/top/main.py`): these are file and graphics I/O.
- Reading the instance:
  - reading the file, splitting lines and parsing floats in `read_instance` are left out. `ReadCustomers` starts from the parsed rows;
  - `euclidean` is left out: `sqrt` and rounding to two decimals are floating-point, so `BuildDistances` takes the distance of a pair as a parameter.
- Floating point: every `float` is an exact `real`. Rounding, and the temperature's eventual underflow to 0.0 after tens of thousands of iterations, are not modelled.
- The log-based index `int(log(random(), 1 - beta))` of `bra_selector` is a raw-index oracle. Only the `% len(options)` that follows it is modelled, so beta has no effect in the model.
- The annealing probability `exp((reward - base_reward)/temperature) > random()` is a boolean oracle that sees the iteration, the reward difference and the temperature.
- Metaheuristic.MultiStartMetaheuristic: the heuristic is an oracle over (call number, alpha, beta). How its output depends on beta, which is the whole point of decaying beta, is not modelled. Only the bookkeeping of beta is.
- Metaheuristic.LocalSearchMetaheuristic: the choice among `remove`, `insert` and `shaking` (with its fixed beta 0.3) is folded into the operator oracle. The operators themselves are modelled in `LocalSearch`.
- Metaheuristic.MultiStartIteration: `improvements_count` is carried, but nothing reads it apart from logging.
- Metaheuristic.LocalSearchIteration: the store into `best_stochastic_solution` (src/top/metaheuristic.py:166) is not modelled, because that variable is never read afterwards; the loop only keeps `best_stochastic_reward` and the elites.
- Elite deque:
  - the deque requires n_elites >= 1; with n_elites = 0, `maxlen=0` keeps the deque empty and the final `nlargest(...)[0]` raises IndexError;
  - the long simulation and `heapq.nlargest(1, ...)[0]` are a score oracle per elite plus a first-maximum scan. Ties go to the first maximal elite, which is what `nlargest` returns.
- The alpha grid `np.arange(0.0, 1.05, 0.05)` is 21 exact points k/20, not the floating-point values numpy produces.
- Heuristic.TopRoutes: `heapq.nlargest` breaks reward ties by the order of `routes.values()`, which is dict insertion order. The model lists the routes in ascending id order, which can differ after merges. The kept routes always have the largest rewards, but among routes of equal reward the model may keep a different one.
- LocalSearch.Remove: `c_to_r.pop(removed_customer_id)` raises KeyError when the customer is not indexed. On a valid solution it always is, and the model removes the key without that error path.
- LocalSearch.Shaking:
  - requires at least two routes, because `max(routes.keys())` raises ValueError when the chosen route was the only one;
  - requires a valid solution, because `c_to_r.pop` raises KeyError for an unindexed customer.
- Empty solutions: all three operators call `random.choice` on the route ids, which fails when there are none. The chosen id is a parameter that must be a key of `routes`.
- The route ids drawn by `random.choice` and the index drawn by `random.randrange` are parameters. Their distribution is not modelled.
- Logging calls are left out.
- Heuristic.SavingsHeuristic and LocalSearch.Shaking: the savings list is stated by its contents (every ordered customer pair once, each scored by alpha), not by its order. The order matters only for ties in the stable sort of the selector.
- LocalSearch.Insert and LocalSearch.Remove: the 2-optimised candidate is stated by what `Opt2` guarantees (the same ends and customers, the length bookkeeping, and no improving 2-opt move left), not as one fixed route; the turn-by-turn trace is ghost, so it does not say which of several 2-optimal orders the candidate takes.

## Findings

| source | as written | input that shows it | evidently intended | confidence | as-written member | corrected member |
|---|---|---|---|---|---|---|
| src/top/problem.py:47-49 | `Solution.length` sums over `routes.values()`, but `routes` is not bound in that scope (the attribute is `self.routes`), so the property raises NameError | any solution, e.g. one with a single route | the sum of the lengths of `self.routes` | high (not executed) | `TopProblem.Solution.LengthAsWritten`, `TopProblem.LengthAsWrittenRaises` | `TopProblem.Solution.Length` |
