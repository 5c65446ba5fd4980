/**
 * The control loops of src/top/metaheuristic.py.
 *
 * The heuristics, the local-search operators and the stochastic simulation
 * are oracles: a call returns a `Candidate` (the solution, its reward and,
 * where the loop asks for it, its short-simulation stochastic reward); the
 * long simulation of the elites is a score per elite; the annealing test
 * `exp(delta / temperature) > random()` is a boolean oracle that sees the
 * iteration, the reward difference and the temperature. What is left is
 * the bookkeeping of best, base and elite solutions, beta and temperature,
 * stated step by step as functions and run by methods that mirror the
 * source's loops.
 */
module Metaheuristic {

  /** One solution returned by a heuristic or an operator, with its reward
      and the stochastic reward of a short simulation of it. */
  datatype Candidate<S> = Candidate(solution: S, reward: int, stochastic: real)

  function MaxReal(a: real, b: real): real {
    if a >= b then a else b
  }

  function MaxInt(a: int, b: int): int {
    if a >= b then a else b
  }

  function Pow(x: real, n: nat): real {
    if n == 0 then 1.0 else x * Pow(x, n - 1)
  }

  lemma {:induction false} PowPositive(x: real, n: nat)
    requires x > 0.0
    ensures Pow(x, n) > 0.0
  {
    if n > 0 {
      PowPositive(x, n - 1);
    }
  }

  // ---------------------------------------------------------------------
  // First maximum

  /** The index a scan ends on when it keeps the first element and then
      replaces its choice only by a strictly larger value: the first
      maximal element. This is the choice of `generate_greedy_solution`
      and of `heapq.nlargest(1, ...)[0]`. */
  function FirstMax(s: seq<real>): (k: nat)
    requires s != []
    ensures k < |s|
    ensures forall j | 0 <= j < |s| :: s[j] <= s[k]
    ensures forall j | 0 <= j < k :: s[j] < s[k]
    decreases |s|
  {
    if |s| == 1 then 0
    else
      var k := FirstMax(s[..|s| - 1]);
      if s[|s| - 1] > s[k] then |s| - 1 else k
  }

  // ---------------------------------------------------------------------
  // generate_greedy_solution

  /** `np.arange(0.0, 1.05, 0.05)` has 21 points. */
  const AlphaCount: nat := 21

  /** The k-th point of the alpha grid. */
  function Alpha(k: nat): (a: real)
    requires k < AlphaCount
    ensures 0.0 <= a <= 1.0
  {
    k as real / 20.0
  }

  /** The rewards of the heuristic's solutions over the alpha grid. */
  function GridRewards<S>(heuristic: real -> Candidate<S>): (r: seq<real>)
    ensures |r| == AlphaCount
  {
    seq(AlphaCount, k requires 0 <= k < AlphaCount => heuristic(Alpha(k)).reward as real)
  }

  /** The alpha `generate_greedy_solution` settles on. */
  function GreedyAlpha<S>(heuristic: real -> Candidate<S>): real {
    Alpha(FirstMax(GridRewards(heuristic)))
  }

  /** `generate_greedy_solution`: runs the heuristic at every alpha of the
      grid and keeps the first solution of maximal reward (the comparison
      is strict). The result's reward is at least that of every grid point. */
  method GenerateGreedySolution<S>(heuristic: real -> Candidate<S>) returns (solution: Candidate<S>, bestAlpha: real)
    ensures bestAlpha == GreedyAlpha(heuristic) && solution == heuristic(bestAlpha)
    ensures forall k | 0 <= k < AlphaCount :: heuristic(Alpha(k)).reward <= solution.reward
    ensures forall k | 0 <= k < AlphaCount && Alpha(k) < bestAlpha :: heuristic(Alpha(k)).reward < solution.reward
  {
    ghost var rewards := GridRewards(heuristic);
    // the first iteration, where `solution is None` holds
    solution := heuristic(Alpha(0));
    var reward := solution.reward;
    bestAlpha := Alpha(0);
    ghost var idx: nat := 0;
    assert rewards[..1] == [rewards[0]];
    for k := 1 to AlphaCount
      invariant idx == FirstMax(rewards[..k])
      invariant bestAlpha == Alpha(idx) && solution == heuristic(bestAlpha) && reward == solution.reward
    {
      var alpha := Alpha(k);
      var newSol := heuristic(alpha);
      var newReward := newSol.reward;
      assert rewards[..k + 1][..k] == rewards[..k];
      if newReward > reward {
        solution, reward, bestAlpha := newSol, newReward, alpha;
        idx := k;
      }
    }
    assert rewards[..AlphaCount] == rewards;
    forall k | 0 <= k < AlphaCount ensures heuristic(Alpha(k)).reward <= solution.reward {
      assert rewards[k] <= rewards[idx];
    }
    forall k | 0 <= k < AlphaCount && Alpha(k) < bestAlpha ensures heuristic(Alpha(k)).reward < solution.reward {
      assert k < idx;
      assert rewards[k] < rewards[idx];
    }
  }

  // ---------------------------------------------------------------------
  // Elites

  /** `deque.append` on a deque with `maxlen`: the result is the newest
      part of the old contents followed by x, evicting the oldest element
      when the deque was full. */
  function Append<S>(q: seq<S>, x: S, maxLen: nat): (r: seq<S>)
    requires 1 <= maxLen && |q| <= maxLen
    ensures |r| == if |q| < maxLen then |q| + 1 else maxLen
    ensures r[|r| - 1] == x
  {
    if |q| < maxLen then q + [x] else q[1..] + [x]
  }

  /** The deque after the append holds the last |r| elements of q + [x]:
      nothing but the oldest element is ever evicted. */
  lemma AppendContents<S>(q: seq<S>, x: S, maxLen: nat)
    requires 1 <= maxLen && |q| <= maxLen
    ensures var r := Append(q, x, maxLen); r == (q + [x])[|q| + 1 - |r|..]
  {
  }

  /** The long-run scores of the first n elites. */
  function Scores(n: nat, longScore: nat -> real): (r: seq<real>)
    ensures |r| == n
  {
    seq(n, k requires 0 <= k < n => longScore(k))
  }

  /** The solution of the elite with the first maximal long-run score. */
  function Robust<S>(elites: seq<S>, longScore: nat -> real): S
    requires elites != []
  {
    elites[FirstMax(Scores(|elites|, longScore))]
  }

  /** The robust elite is the k-th elite for a k whose long-run score is
      maximal, and every earlier elite scores strictly less. */
  lemma RobustMaximal<S>(elites: seq<S>, longScore: nat -> real)
    requires elites != []
    ensures exists k | 0 <= k < |elites| ::
      && Robust(elites, longScore) == elites[k]
      && (forall j | 0 <= j < |elites| :: longScore(j) <= longScore(k))
      && (forall j | 0 <= j < k :: longScore(j) < longScore(k))
  {
    var scores := Scores(|elites|, longScore);
    var k := FirstMax(scores);
    assert forall j | 0 <= j < |elites| :: scores[j] == longScore(j);
    assert Robust(elites, longScore) == elites[k];
  }

  /** The final selection of both metaheuristics: the long simulation of
      each elite (its score is `longScore(k)` for the k-th) and
      `heapq.nlargest(1, ..., key=score)[0]`, which returns the first elite
      of maximal score. */
  method MostRobust<S>(elites: seq<S>, longScore: nat -> real) returns (robust: S)
    requires elites != []
    ensures robust == Robust(elites, longScore)
    ensures robust in elites
  {
    ghost var scores := Scores(|elites|, longScore);
    robust := elites[0];
    var score := longScore(0);
    ghost var idx: nat := 0;
    assert scores[..1] == [scores[0]];
    for k := 1 to |elites|
      invariant idx == FirstMax(scores[..k]) && robust == elites[idx] && score == scores[idx]
    {
      assert scores[..k + 1][..k] == scores[..k];
      var s := longScore(k);
      if s > score {
        robust, score, idx := elites[k], s, k;
      }
    }
    assert scores[..|elites|] == scores;
  }

  // ---------------------------------------------------------------------
  // multi_start_metaheuristic

  datatype MultiStartConfig = MultiStartConfig(
    maxIter: nat, enlargeSearchIter: int, betaStart: real, betaStep: real, minBeta: real, nElites: nat)

  /** The loop variables of `multi_start_metaheuristic`. */
  datatype MultiStartState<S> = MultiStartState(
    best: S, bestReward: int,
    bestStochastic: S, bestStochasticReward: real,
    noImprovement: int, beta: real, improvements: nat,
    elites: seq<S>)

  /** The beta `generate_greedy_solution` passes to the heuristic. */
  const GreedyBeta: real := 0.99999

  /** What holds before and after every iteration: the elite deque is
      bounded and ends with the best stochastic solution, the stall counter
      never passes its threshold, and beta stays in [minBeta, betaStart]
      when that range is non-empty and the step non-negative. */
  ghost predicate MultiStartInv<S>(cfg: MultiStartConfig, st: MultiStartState<S>) {
    && 1 <= |st.elites| <= cfg.nElites
    && st.elites[|st.elites| - 1] == st.bestStochastic
    && 0 <= st.noImprovement <= MaxInt(cfg.enlargeSearchIter, 0)
    && (cfg.minBeta <= cfg.betaStart && 0.0 <= cfg.betaStep ==> cfg.minBeta <= st.beta <= cfg.betaStart)
  }

  /** The state before the loop, from the greedy solution. */
  function MultiStartInit<S>(cfg: MultiStartConfig, greedy: Candidate<S>): (st: MultiStartState<S>)
    requires cfg.nElites >= 1
    ensures MultiStartInv(cfg, st)
  {
    MultiStartState(greedy.solution, greedy.reward, greedy.solution, greedy.stochastic, 0, cfg.betaStart, 0, [greedy.solution])
  }

  /** One iteration of the loop on the heuristic's candidate c. */
  function MultiStartStep<S>(cfg: MultiStartConfig, st: MultiStartState<S>, c: Candidate<S>): (st': MultiStartState<S>)
    requires 1 <= cfg.nElites && |st.elites| <= cfg.nElites
    ensures MultiStartInv(cfg, st) ==> MultiStartInv(cfg, st')
    ensures st'.bestReward == MaxInt(st.bestReward, c.reward)
    ensures st'.bestStochasticReward == MaxReal(st.bestStochasticReward, c.stochastic)
  {
    var stochastic := c.stochastic > st.bestStochasticReward;
    var bestStochastic := if stochastic then c.solution else st.bestStochastic;
    var bestStochasticReward := if stochastic then c.stochastic else st.bestStochasticReward;
    var elites := if stochastic then Append(st.elites, c.solution, cfg.nElites) else st.elites;
    if c.reward > st.bestReward then
      MultiStartState(c.solution, c.reward, bestStochastic, bestStochasticReward,
                      st.noImprovement, cfg.betaStart, st.improvements + 1, elites)
    else if st.noImprovement + 1 > cfg.enlargeSearchIter then
      MultiStartState(st.best, st.bestReward, bestStochastic, bestStochasticReward,
                      0, MaxReal(st.beta - cfg.betaStep, cfg.minBeta), st.improvements, elites)
    else
      MultiStartState(st.best, st.bestReward, bestStochastic, bestStochasticReward,
                      st.noImprovement + 1, st.beta, st.improvements, elites)
  }

  /** What one iteration does: the best reward becomes the larger of the
      old one and the candidate's, together with its solution; the
      candidate joins the elites exactly when its stochastic reward beats
      the best so far; an improvement resets beta but not the stall
      counter; otherwise the counter grows, and once it passes the
      threshold it is reset and beta drops by a step, floored at minBeta. */
  lemma MultiStartStepFacts<S>(cfg: MultiStartConfig, st: MultiStartState<S>, c: Candidate<S>)
    requires 1 <= cfg.nElites && |st.elites| <= cfg.nElites
    ensures var st' := MultiStartStep(cfg, st, c);
      && ((st'.best == st.best && st'.bestReward == st.bestReward) || BestFrom(st', c))
    ensures var st' := MultiStartStep(cfg, st, c);
      && (c.stochastic > st.bestStochasticReward ==> st'.elites == Append(st.elites, c.solution, cfg.nElites))
      && (c.stochastic <= st.bestStochasticReward ==> st'.elites == st.elites)
    ensures var st' := MultiStartStep(cfg, st, c);
      && (c.reward > st.bestReward ==> st'.beta == cfg.betaStart && st'.noImprovement == st.noImprovement)
      && (c.reward <= st.bestReward && st.noImprovement + 1 > cfg.enlargeSearchIter ==>
            st'.noImprovement == 0 && st'.beta == MaxReal(st.beta - cfg.betaStep, cfg.minBeta))
      && (c.reward <= st.bestReward && st.noImprovement + 1 <= cfg.enlargeSearchIter ==>
            st'.noImprovement == st.noImprovement + 1 && st'.beta == st.beta)
  {
  }

  /** The best solution and reward of st are those of candidate c. */
  ghost predicate BestFrom<S>(st: MultiStartState<S>, c: Candidate<S>) {
    st.best == c.solution && st.bestReward == c.reward
  }

  /** The state after n iterations. The heuristic oracle's first argument
      numbers its calls: call 0 is the greedy phase (one run per alpha of
      the grid, at beta 0.99999) and call i + 1 is iteration i, made with
      the alpha found by the greedy phase and the current beta. */
  function MultiStartRun<S>(cfg: MultiStartConfig, st0: MultiStartState<S>, alpha: real,
                            heuristic: (nat, real, real) -> Candidate<S>, n: nat): (st: MultiStartState<S>)
    requires 1 <= cfg.nElites && MultiStartInv(cfg, st0)
    ensures MultiStartInv(cfg, st)
    ensures st.bestReward >= st0.bestReward && st.bestStochasticReward >= st0.bestStochasticReward
  {
    if n == 0 then st0
    else
      var prev := MultiStartRun(cfg, st0, alpha, heuristic, n - 1);
      MultiStartStep(cfg, prev, heuristic(n, alpha, prev.beta))
  }

  /** The candidate of iteration i. */
  function MultiStartCandidate<S>(cfg: MultiStartConfig, st0: MultiStartState<S>, alpha: real,
                                  heuristic: (nat, real, real) -> Candidate<S>, i: nat): Candidate<S>
    requires 1 <= cfg.nElites && MultiStartInv(cfg, st0)
  {
    heuristic(i + 1, alpha, MultiStartRun(cfg, st0, alpha, heuristic, i).beta)
  }

  /** No candidate of the first n iterations beats the best reward after
      them: the candidate of iteration i < n is at most that reward. */
  lemma {:induction false} MultiStartBest<S>(cfg: MultiStartConfig, st0: MultiStartState<S>, alpha: real,
                                              heuristic: (nat, real, real) -> Candidate<S>, n: nat, i: nat)
    requires 1 <= cfg.nElites && MultiStartInv(cfg, st0) && i < n
    ensures MultiStartCandidate(cfg, st0, alpha, heuristic, i).reward <= MultiStartRun(cfg, st0, alpha, heuristic, n).bestReward
  {
    if i < n - 1 {
      MultiStartBest(cfg, st0, alpha, heuristic, n - 1, i);
    }
  }

  /** The best solution and reward after n iterations are the start's, or
      those of the candidate of some iteration before n. */
  lemma {:induction false} MultiStartBestOrigin<S>(cfg: MultiStartConfig, st0: MultiStartState<S>, alpha: real,
                                                    heuristic: (nat, real, real) -> Candidate<S>, n: nat)
    requires 1 <= cfg.nElites && MultiStartInv(cfg, st0)
    ensures var st := MultiStartRun(cfg, st0, alpha, heuristic, n);
      || (st.best == st0.best && st.bestReward == st0.bestReward)
      || exists i | 0 <= i < n :: BestFrom(st, MultiStartCandidate(cfg, st0, alpha, heuristic, i))
  {
    if n > 0 {
      MultiStartBestOrigin(cfg, st0, alpha, heuristic, n - 1);
      var prev := MultiStartRun(cfg, st0, alpha, heuristic, n - 1);
      var c := MultiStartCandidate(cfg, st0, alpha, heuristic, n - 1);
      var st := MultiStartStep(cfg, prev, c);
      MultiStartStepFacts(cfg, prev, c);
      if BestFrom(st, c) {
        assert 0 <= n - 1 < n;
      } else if !(prev.best == st0.best && prev.bestReward == st0.bestReward) {
        var i :| 0 <= i < n - 1 && BestFrom(prev, MultiStartCandidate(cfg, st0, alpha, heuristic, i));
        assert 0 <= i < n;
      }
    }
  }

  /** The body of the loop of `multi_start_metaheuristic` on the loop
      variables st and the heuristic's solution: it does what one step of
      the specification does. */
  method MultiStartIteration<S>(cfg: MultiStartConfig, st: MultiStartState<S>, solution: Candidate<S>)
    returns (st': MultiStartState<S>)
    requires 1 <= cfg.nElites && |st.elites| <= cfg.nElites
    ensures st' == MultiStartStep(cfg, st, solution)
  {
    var best, bestReward := st.best, st.bestReward;
    var bestStochastic, bestStochasticReward := st.bestStochastic, st.bestStochasticReward;
    var noImprovement, beta, improvements := st.noImprovement, st.beta, st.improvements;
    var elites := st.elites;
    var reward := solution.reward;
    var stochasticReward := solution.stochastic;
    if stochasticReward > bestStochasticReward {
      bestStochastic, bestStochasticReward := solution.solution, stochasticReward;
      elites := Append(elites, solution.solution, cfg.nElites);
    }
    if reward > bestReward {
      improvements := improvements + 1;
      best, bestReward, beta := solution.solution, reward, cfg.betaStart;
    } else {
      noImprovement := noImprovement + 1;
      if noImprovement > cfg.enlargeSearchIter {
        noImprovement := 0;
        beta := MaxReal(beta - cfg.betaStep, cfg.minBeta);
      }
    }
    st' := MultiStartState(best, bestReward, bestStochastic, bestStochasticReward,
                           noImprovement, beta, improvements, elites);
  }

  /** `best_reward` stays the reward of `best_solution`: when the greedy
      solution's reward and every heuristic result's reward are the reward
      of the solution they come with, so is the best reward after n
      iterations. */
  lemma {:induction false} MultiStartRewardConsistent<S>(cfg: MultiStartConfig, st0: MultiStartState<S>, alpha: real,
                                                          heuristic: (nat, real, real) -> Candidate<S>,
                                                          rewardOf: S -> int, n: nat)
    requires 1 <= cfg.nElites && MultiStartInv(cfg, st0) && st0.bestReward == rewardOf(st0.best)
    requires forall k, a, b :: heuristic(k, a, b).reward == rewardOf(heuristic(k, a, b).solution)
    ensures MultiStartRun(cfg, st0, alpha, heuristic, n).bestReward == rewardOf(MultiStartRun(cfg, st0, alpha, heuristic, n).best)
  {
    if n > 0 {
      MultiStartRewardConsistent(cfg, st0, alpha, heuristic, rewardOf, n - 1);
      var prev := MultiStartRun(cfg, st0, alpha, heuristic, n - 1);
      MultiStartStepFacts(cfg, prev, heuristic(n, alpha, prev.beta));
    }
  }

  /** `multi_start_metaheuristic`: the greedy phase, max_iter iterations of
      biased-randomised heuristic runs, and the long simulation of the
      elites. Returns the best solution and the most robust elite. */
  method MultiStartMetaheuristic<S>(cfg: MultiStartConfig, heuristic: (nat, real, real) -> Candidate<S>,
                                    longScore: nat -> real)
    returns (best: S, robust: S)
    requires 1 <= cfg.nElites
    ensures var greedyHeuristic := (a: real) => heuristic(0, a, GreedyBeta);
      var alpha := GreedyAlpha(greedyHeuristic);
      var st := MultiStartRun(cfg, MultiStartInit(cfg, greedyHeuristic(alpha)), alpha, heuristic, cfg.maxIter);
      best == st.best && robust == Robust(st.elites, longScore) && robust in st.elites
  {
    var greedy, alpha := GenerateGreedySolution((a: real) => heuristic(0, a, GreedyBeta));
    ghost var st0 := MultiStartInit(cfg, greedy);
    var st := MultiStartState(greedy.solution, greedy.reward, greedy.solution, greedy.stochastic,
                              0, cfg.betaStart, 0, [greedy.solution]);
    for i := 0 to cfg.maxIter
      invariant st == MultiStartRun(cfg, st0, alpha, heuristic, i)
    {
      var solution := heuristic(i + 1, alpha, st.beta);
      st := MultiStartIteration(cfg, st, solution);
    }
    best := st.best;
    robust := MostRobust(st.elites, longScore);
  }

  // ---------------------------------------------------------------------
  // local_search_metaheuritic

  datatype LocalSearchConfig = LocalSearchConfig(maxIter: nat, nElites: nat)

  /** The loop variables of `local_search_metaheuritic`. */
  datatype LocalSearchState<S> = LocalSearchState(
    best: S, bestReward: int, bestStochasticReward: real,
    base: S, baseReward: int,
    temperature: real,
    elites: seq<S>)

  const StartTemperature: real := 1000.0
  const Cooling: real := 0.999

  /** What holds before and after every iteration: the elites are bounded,
      the base is never better than the best, and the temperature is
      positive. */
  ghost predicate LocalSearchInv<S>(cfg: LocalSearchConfig, st: LocalSearchState<S>) {
    && 1 <= |st.elites| <= cfg.nElites
    && st.baseReward <= st.bestReward
    && st.temperature > 0.0
  }

  /** The state before the loop, from the greedy solution. */
  function LocalSearchInit<S>(cfg: LocalSearchConfig, greedy: Candidate<S>): (st: LocalSearchState<S>)
    requires cfg.nElites >= 1
    ensures LocalSearchInv(cfg, st)
  {
    LocalSearchState(greedy.solution, greedy.reward, greedy.stochastic, greedy.solution, greedy.reward,
                     StartTemperature, [greedy.solution])
  }

  /** One iteration on the operator's candidate c, where `accepted` is the
      outcome of the annealing test (consulted only for a worse candidate). */
  function LocalSearchStep<S>(cfg: LocalSearchConfig, st: LocalSearchState<S>, c: Candidate<S>, accepted: bool)
    : (st': LocalSearchState<S>)
    requires 1 <= cfg.nElites && |st.elites| <= cfg.nElites
    ensures LocalSearchInv(cfg, st) ==> LocalSearchInv(cfg, st')
    ensures st'.bestReward >= st.bestReward && st'.temperature == st.temperature * Cooling
  {
    var temperature := st.temperature * Cooling;
    if c.reward >= st.baseReward then
      var improved := c.reward > st.bestReward;
      var stochastic := c.stochastic > st.bestStochasticReward;
      LocalSearchState(
        if improved then c.solution else st.best,
        if improved then c.reward else st.bestReward,
        if stochastic then c.stochastic else st.bestStochasticReward,
        c.solution, c.reward, temperature,
        if stochastic then Append(st.elites, c.solution, cfg.nElites) else st.elites)
    else if accepted then
      st.(base := c.solution, baseReward := c.reward, temperature := temperature)
    else
      st.(temperature := temperature)
  }

  /** What one iteration does: a candidate at least as good as the base
      replaces it, and a worse one only when the annealing test accepts it;
      the best reward becomes the larger of the old one and the candidate's;
      the candidate joins the elites exactly when it is not worse than the
      base and its stochastic reward beats the best so far. */
  lemma LocalSearchStepFacts<S>(cfg: LocalSearchConfig, st: LocalSearchState<S>, c: Candidate<S>, accepted: bool)
    requires 1 <= cfg.nElites && |st.elites| <= cfg.nElites
    ensures var st' := LocalSearchStep(cfg, st, c, accepted);
      && (st.baseReward <= st.bestReward ==> st'.bestReward == MaxInt(st.bestReward, c.reward))
      && (c.reward >= st.baseReward || accepted ==> st'.base == c.solution && st'.baseReward == c.reward)
      && (c.reward < st.baseReward && !accepted ==> st'.base == st.base && st'.baseReward == st.baseReward)
    ensures var st' := LocalSearchStep(cfg, st, c, accepted);
      && (c.reward >= st.baseReward && c.stochastic > st.bestStochasticReward ==>
            st'.elites == Append(st.elites, c.solution, cfg.nElites))
      && (c.reward < st.baseReward || c.stochastic <= st.bestStochasticReward ==> st'.elites == st.elites)
  {
  }

  /** The state after n iterations: iteration i applies the operator to the
      current base and asks the annealing oracle about the reward loss at
      the current temperature. */
  function LocalSearchRun<S>(cfg: LocalSearchConfig, st0: LocalSearchState<S>,
                             operate: (nat, S) -> Candidate<S>, accept: (nat, real, real) -> bool, n: nat)
    : (st: LocalSearchState<S>)
    requires 1 <= cfg.nElites && LocalSearchInv(cfg, st0)
    ensures LocalSearchInv(cfg, st)
    ensures st.bestReward >= st0.bestReward
  {
    if n == 0 then st0
    else
      var prev := LocalSearchRun(cfg, st0, operate, accept, n - 1);
      var c := operate(n - 1, prev.base);
      LocalSearchStep(cfg, prev, c, accept(n - 1, (c.reward - prev.baseReward) as real, prev.temperature))
  }

  /** The candidate of iteration i. */
  function LocalSearchCandidate<S>(cfg: LocalSearchConfig, st0: LocalSearchState<S>,
                                   operate: (nat, S) -> Candidate<S>, accept: (nat, real, real) -> bool, i: nat)
    : Candidate<S>
    requires 1 <= cfg.nElites && LocalSearchInv(cfg, st0)
  {
    operate(i, LocalSearchRun(cfg, st0, operate, accept, i).base)
  }

  /** No candidate of the first n iterations beats the best reward after
      them, whatever the annealing test lets through. */
  lemma {:induction false} LocalSearchBest<S>(cfg: LocalSearchConfig, st0: LocalSearchState<S>,
                                              operate: (nat, S) -> Candidate<S>, accept: (nat, real, real) -> bool, n: nat)
    requires 1 <= cfg.nElites && LocalSearchInv(cfg, st0)
    ensures forall i | 0 <= i < n ::
      LocalSearchCandidate(cfg, st0, operate, accept, i).reward <= LocalSearchRun(cfg, st0, operate, accept, n).bestReward
  {
    if n > 0 {
      LocalSearchBest(cfg, st0, operate, accept, n - 1);
      var prev := LocalSearchRun(cfg, st0, operate, accept, n - 1);
      var c := operate(n - 1, prev.base);
      LocalSearchStepFacts(cfg, prev, c, accept(n - 1, (c.reward - prev.baseReward) as real, prev.temperature));
    }
  }

  /** The temperature after n iterations is the starting one times
      0.999^n: 1000 * 0.999^n from the start of the loop, never zero. */
  lemma {:induction false} LocalSearchTemperature<S>(cfg: LocalSearchConfig, st0: LocalSearchState<S>,
                                                     operate: (nat, S) -> Candidate<S>, accept: (nat, real, real) -> bool,
                                                     n: nat)
    requires 1 <= cfg.nElites && LocalSearchInv(cfg, st0)
    ensures LocalSearchRun(cfg, st0, operate, accept, n).temperature == st0.temperature * Pow(Cooling, n)
  {
    if n > 0 {
      LocalSearchTemperature(cfg, st0, operate, accept, n - 1);
      var t := LocalSearchRun(cfg, st0, operate, accept, n - 1).temperature;
      assert t * Cooling == st0.temperature * (Cooling * Pow(Cooling, n - 1));
    }
  }

  /** From the start of the loop the temperature after n iterations is
      1000 * 0.999^n, which is positive. */
  lemma StartTemperatureAfter<S>(cfg: LocalSearchConfig, greedy: Candidate<S>,
                                 operate: (nat, S) -> Candidate<S>, accept: (nat, real, real) -> bool, n: nat)
    requires 1 <= cfg.nElites
    ensures var st := LocalSearchRun(cfg, LocalSearchInit(cfg, greedy), operate, accept, n);
      st.temperature == StartTemperature * Pow(Cooling, n) && st.temperature > 0.0
  {
    LocalSearchTemperature(cfg, LocalSearchInit(cfg, greedy), operate, accept, n);
  }

  /** The body of the loop of `local_search_metaheuritic` on the loop
      variables st, the operator's solution and the annealing oracle: it
      does what one step of the specification does, and asks the oracle
      only about a solution worse than the base. */
  method LocalSearchIteration<S>(cfg: LocalSearchConfig, st: LocalSearchState<S>, solution: Candidate<S>,
                                 accept: real -> bool)
    returns (st': LocalSearchState<S>)
    requires 1 <= cfg.nElites && |st.elites| <= cfg.nElites
    ensures st' == LocalSearchStep(cfg, st, solution, accept((solution.reward - st.baseReward) as real))
  {
    var best, bestReward, bestStochasticReward := st.best, st.bestReward, st.bestStochasticReward;
    var base, baseReward := st.base, st.baseReward;
    var temperature, dt := st.temperature, Cooling;
    var elites := st.elites;
    var reward := solution.reward;
    if reward >= baseReward {
      base, baseReward := solution.solution, reward;
      var stochasticReward := solution.stochastic;
      if reward > bestReward {
        best, bestReward := solution.solution, reward;
      }
      if stochasticReward > bestStochasticReward {
        bestStochasticReward := stochasticReward;
        elites := Append(elites, solution.solution, cfg.nElites);
      }
    } else {
      if accept((reward - baseReward) as real) {
        base, baseReward := solution.solution, reward;
      }
    }
    temperature := temperature * dt;
    st' := LocalSearchState(best, bestReward, bestStochasticReward, base, baseReward, temperature, elites);
  }

  /** `best_reward` and `base_reward` stay the rewards of `best_solution`
      and `base_solution` when every candidate's reward is the reward of
      its solution. */
  lemma {:induction false} LocalSearchRewardConsistent<S>(cfg: LocalSearchConfig, st0: LocalSearchState<S>,
                                                           operate: (nat, S) -> Candidate<S>,
                                                           accept: (nat, real, real) -> bool, rewardOf: S -> int, n: nat)
    requires 1 <= cfg.nElites && LocalSearchInv(cfg, st0)
    requires st0.bestReward == rewardOf(st0.best) && st0.baseReward == rewardOf(st0.base)
    requires forall k, b :: operate(k, b).reward == rewardOf(operate(k, b).solution)
    ensures var st := LocalSearchRun(cfg, st0, operate, accept, n);
      st.bestReward == rewardOf(st.best) && st.baseReward == rewardOf(st.base)
  {
    if n > 0 {
      LocalSearchRewardConsistent(cfg, st0, operate, accept, rewardOf, n - 1);
      var prev := LocalSearchRun(cfg, st0, operate, accept, n - 1);
      var c := operate(n - 1, prev.base);
      LocalSearchStepFacts(cfg, prev, c, accept(n - 1, (c.reward - prev.baseReward) as real, prev.temperature));
    }
  }

  /** `local_search_metaheuritic`: the greedy phase with the savings
      heuristic, max_iter iterations of a random operator on the base
      solution with annealing acceptance, and the long simulation of the
      elites. Returns the best solution and the most robust elite. */
  method LocalSearchMetaheuristic<S>(cfg: LocalSearchConfig, savings: real -> Candidate<S>,
                                     operate: (nat, S) -> Candidate<S>, accept: (nat, real, real) -> bool,
                                     longScore: nat -> real)
    returns (best: S, robust: S)
    requires 1 <= cfg.nElites
    ensures var st := LocalSearchRun(cfg, LocalSearchInit(cfg, savings(GreedyAlpha(savings))), operate, accept, cfg.maxIter);
      best == st.best && robust == Robust(st.elites, longScore) && robust in st.elites
  {
    var greedy, alpha := GenerateGreedySolution(savings);
    ghost var st0 := LocalSearchInit(cfg, greedy);
    var st := LocalSearchState(greedy.solution, greedy.reward, greedy.stochastic, greedy.solution, greedy.reward,
                               StartTemperature, [greedy.solution]);
    for i := 0 to cfg.maxIter
      invariant st == LocalSearchRun(cfg, st0, operate, accept, i)
    {
      var solution := operate(i, st.base);
      st := LocalSearchIteration(cfg, st, solution, (delta: real) => accept(i, delta, st.temperature));
    }
    best := st.best;
    robust := MostRobust(st.elites, longScore);
  }
}
