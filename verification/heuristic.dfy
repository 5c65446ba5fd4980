/**
 * The constructive side of the solver (src/top/heuristic.py): the dummy
 * solution of single-customer routes, the savings list, route merging, the
 * savings heuristic and the sequential constructive heuristic.
 *
 * The raw selector indices are drawn from the oracle stream `draw`: the k-th
 * element taken from any selector uses `draw(k)`.
 */
module Heuristic {
  import opened TopProblem
  import opened BraSelection

  /** A candidate merge of the route ending in `inode` with the route
      starting at `jnode`. */
  datatype Saving = Saving(inode: nat, jnode: nat, value: real, distanceSaving: real, rewardSaving: int)

  /** The composite score of merging i before j: the distance saved by the
      direct leg i -> j blended by alpha with the reward of the two customers. */
  function SavingOf(p: Problem, alpha: real, i: nat, j: nat): (s: Saving)
    ensures s.inode == i && s.jnode == j
  {
    var distanceSaving := p.dist(i, p.Sink()) + p.dist(0, j) - p.dist(i, j);
    var rewardSaving := RewardOf(p, i) + RewardOf(p, j);
    Saving(i, j, alpha * distanceSaving + (1.0 - alpha) * rewardSaving as real, distanceSaving, rewardSaving)
  }

  /** The length of the round trip source -> c -> sink. */
  function RoundTrip(p: Problem, c: nat): real {
    p.dist(0, c) + p.dist(c, p.Sink())
  }

  ghost predicate IsCustomer(p: Problem, c: nat) {
    0 < c < p.Sink()
  }

  /** Route k of the dummy solution: source, c, sink. */
  ghost predicate Singleton(p: Problem, r: Route, k: nat, c: nat) {
    r == Route(k, [0, c, p.Sink()], RoundTrip(p, c), RewardOf(p, c))
  }

  /** The customers below n that `served` leaves out and whose round trip
      fits the budget, in increasing id order: the customers the dummy-route
      loops give a route of their own. */
  ghost function Fitting(p: Problem, served: set<nat>, n: nat): (fs: seq<nat>)
    ensures forall c: nat :: c in fs <==> c < n && c !in served && IsCustomer(p, c) && RoundTrip(p, c) <= p.tmax
    ensures forall j, j' | 0 <= j < j' < |fs| :: fs[j] < fs[j']
  {
    if n == 0 then []
    else if n - 1 !in served && IsCustomer(p, n - 1) && RoundTrip(p, n - 1) <= p.tmax then
      var fs := Fitting(p, served, n - 1);
      assert forall j | 0 <= j < |fs| :: fs[j] in fs && fs[j] < n - 1;
      fs + [n - 1]
    else
      Fitting(p, served, n - 1)
  }

  /** routes and cToR are routes0 and cToR0 extended by the dummy route of
      fs[j] under the id firstId + j, for every j, and by nothing else. */
  ghost predicate WithDummies(p: Problem, routes0: map<nat, Route>, cToR0: map<nat, nat>, fs: seq<nat>, firstId: nat,
                              routes: map<nat, Route>, cToR: map<nat, nat>) {
    && (forall k :: k in routes <==> k in routes0 || firstId <= k < firstId + |fs|)
    && (forall k | k in routes0 :: routes[k] == routes0[k])
    && (forall c :: c in cToR <==> c in cToR0 || c in fs)
    && (forall c | c in cToR0 :: cToR[c] == cToR0[c])
    && (forall j | 0 <= j < |fs| :: Dummied(p, routes, cToR, firstId + j, fs[j]))
  }

  /** Route k is the dummy route of customer c, and the index points c to k. */
  ghost predicate Dummied(p: Problem, routes: map<nat, Route>, cToR: map<nat, nat>, k: nat, c: nat) {
    k in routes && Singleton(p, routes[k], k, c) && c in cToR && cToR[c] == k
  }

  /** Giving one more unserved customer c its dummy route under the next id
      extends the tables by one more dummy route. */
  lemma WithDummiesStep(p: Problem, routes0: map<nat, Route>, cToR0: map<nat, nat>, fs: seq<nat>, firstId: nat,
                        routes: map<nat, Route>, cToR: map<nat, nat>, c: nat, r: Route)
    requires WithDummies(p, routes0, cToR0, fs, firstId, routes, cToR)
    requires forall k | k in routes0 :: k < firstId
    requires c !in cToR
    requires r == Route(firstId + |fs|, [0, c, p.Sink()], RoundTrip(p, c), RewardOf(p, c))
    ensures WithDummies(p, routes0, cToR0, fs + [c], firstId, routes[r.id := r], cToR[c := r.id])
  {
    StepKeys(routes0, fs, firstId, routes, r.id, r, c);
    StepIndex(cToR0, fs, cToR, c, r.id);
    StepRoutes(p, fs, firstId, routes, cToR, c, r);
  }

  /** The route table part of WithDummiesStep. */
  lemma StepKeys(routes0: map<nat, Route>, fs: seq<nat>, firstId: nat, routes: map<nat, Route>, k: nat, r: Route, c: nat)
    requires forall k' :: k' in routes <==> k' in routes0 || firstId <= k' < firstId + |fs|
    requires forall k' | k' in routes0 :: routes[k'] == routes0[k']
    requires forall k' | k' in routes0 :: k' < firstId
    requires k == firstId + |fs|
    ensures forall k' :: k' in routes[k := r] <==> k' in routes0 || firstId <= k' < firstId + |fs + [c]|
    ensures forall k' | k' in routes0 :: routes[k := r][k'] == routes0[k']
  {
  }

  /** The index part of WithDummiesStep. */
  lemma StepIndex(cToR0: map<nat, nat>, fs: seq<nat>, cToR: map<nat, nat>, c: nat, k: nat)
    requires forall x :: x in cToR <==> x in cToR0 || x in fs
    requires forall x | x in cToR0 :: cToR[x] == cToR0[x]
    requires c !in cToR
    ensures forall x :: x in cToR[c := k] <==> x in cToR0 || x in fs + [c]
    ensures forall x | x in cToR0 :: cToR[c := k][x] == cToR0[x]
  {
    forall x ensures x in fs + [c] <==> x in fs || x == c {
      assert x in fs + [c] <==> x in fs || x in [c];
    }
  }

  /** The dummy routes part of WithDummiesStep. */
  lemma StepRoutes(p: Problem, fs: seq<nat>, firstId: nat, routes: map<nat, Route>, cToR: map<nat, nat>, c: nat, r: Route)
    requires forall j | 0 <= j < |fs| :: Dummied(p, routes, cToR, firstId + j, fs[j])
    requires r == Route(firstId + |fs|, [0, c, p.Sink()], RoundTrip(p, c), RewardOf(p, c))
    requires c !in cToR
    ensures forall j | 0 <= j < |fs + [c]| :: Dummied(p, routes[r.id := r], cToR[c := r.id], firstId + j, (fs + [c])[j])
  {
    var fs', routes', cToR' := fs + [c], routes[r.id := r], cToR[c := r.id];
    forall j | 0 <= j < |fs'|
      ensures Dummied(p, routes', cToR', firstId + j, fs'[j])
    {
      if j < |fs| {
        assert Dummied(p, routes, cToR, firstId + j, fs[j]) && fs'[j] == fs[j];
      }
    }
  }

  /** What WithDummies says of the tables in the terms of the rest of the
      model: the old routes and index entries are kept, every other route is
      a dummy route numbered from firstId, and no id reaches firstId + |fs|. */
  lemma DummiesFacts(p: Problem, routes0: map<nat, Route>, cToR0: map<nat, nat>, fs: seq<nat>, firstId: nat,
                     routes: map<nat, Route>, cToR: map<nat, nat>)
    requires WithDummies(p, routes0, cToR0, fs, firstId, routes, cToR)
    requires forall k | k in routes0 :: k < firstId
    ensures forall k | k in routes0 :: k in routes && routes[k] == routes0[k]
    ensures forall c | c in cToR0 :: c in cToR && cToR[c] == cToR0[c]
    ensures forall k | k in routes && k !in routes0 :: firstId <= k && SingletonOf(p, routes, cToR, k)
    ensures forall k | k in routes :: k < firstId + |fs|
  {
    forall k | k in routes && k !in routes0 ensures firstId <= k && SingletonOf(p, routes, cToR, k) {
      var j := k - firstId;
      assert Dummied(p, routes, cToR, firstId + j, fs[j]);
    }
  }

  /** The dummy solution: the dummy route of the j-th customer, in id order,
      whose round trip fits the budget, stored under id j. */
  ghost predicate Dummy(p: Problem, routes: map<nat, Route>, cToR: map<nat, nat>) {
    WithDummies(p, map[], map[], Fitting(p, {}, p.Size()), 0, routes, cToR)
  }

  /** `init_solution`: one route [source, c, sink] for every customer c whose
      round trip fits the budget, numbered 0, 1, 2, ... in id order. */
  method InitSolution(p: Problem) returns (sol: Solution)
    requires p.Valid()
    ensures fresh(sol)
    ensures Dummy(p, sol.routes, sol.cToR)
    ensures sol.Valid(p)
    ensures WithinBudget(p, sol.routes) && LengthsExact(p, sol.routes) && RewardsExact(p, sol.routes)
    ensures forall k: nat :: k in sol.routes <==> k < |sol.routes|
    ensures forall c: nat :: c in sol.cToR <==> IsCustomer(p, c) && RoundTrip(p, c) <= p.tmax
    ensures forall c | c in sol.cToR :: sol.routes[sol.cToR[c]].customers == [0, c, p.Sink()]
  {
    var source, target := 0, p.Sink();
    var routes: map<nat, Route> := map[];
    var cToR: map<nat, nat> := map[];
    var routeId: nat := 0;
    assert Fitting(p, {}, 0) == [];
    for id := 0 to p.Size()
      invariant routeId == |Fitting(p, {}, id)| && WithDummies(p, map[], map[], Fitting(p, {}, id), 0, routes, cToR)
    {
      if id == source || id == target {
        assert !IsCustomer(p, id) && Fitting(p, {}, id + 1) == Fitting(p, {}, id);
        continue;
      }
      var c := p.customers[id];
      var t := p.dist(source, id) + p.dist(id, target);
      assert t == RoundTrip(p, id) && IsCustomer(p, id);
      if t <= p.tmax {
        var route := Route(routeId, [source, id, target], t, c.reward);
        assert id !in cToR;
        WithDummiesStep(p, map[], map[], Fitting(p, {}, id), 0, routes, cToR, id, route);
        assert Fitting(p, {}, id + 1) == Fitting(p, {}, id) + [id];
        cToR := cToR[id := routeId];
        routes := routes[routeId := route];
        routeId := routeId + 1;
      } else {
        assert Fitting(p, {}, id + 1) == Fitting(p, {}, id);
      }
    }
    sol := new Solution(routes, cToR);
    DummyValid(p, routes, cToR);
  }

  /** The dummy solution is a valid solution within budget with exact
      lengths and rewards, numbered 0..n-1, serving exactly the customers
      whose round trip fits, each on a route of its own. */
  lemma DummyValid(p: Problem, routes: map<nat, Route>, cToR: map<nat, nat>)
    requires p.Valid() && Dummy(p, routes, cToR)
    ensures SolutionValid(p, routes, cToR)
    ensures WithinBudget(p, routes) && LengthsExact(p, routes) && RewardsExact(p, routes)
    ensures forall k: nat :: k in routes <==> k < |routes|
    ensures forall c: nat :: c in cToR <==> IsCustomer(p, c) && RoundTrip(p, c) <= p.tmax
    ensures forall c | c in cToR :: routes[cToR[c]].customers == [0, c, p.Sink()]
  {
    DummyShape(p, routes, cToR);
    SingletonsValid(p, routes, cToR);
  }

  /** The dummy solution's ids are 0..n-1, and every index entry points a
      fitting customer to its own dummy route. */
  lemma DummyShape(p: Problem, routes: map<nat, Route>, cToR: map<nat, nat>)
    requires p.Valid() && Dummy(p, routes, cToR)
    ensures forall k: nat :: k in routes <==> k < |routes|
    ensures forall c: nat :: c in cToR <==> IsCustomer(p, c) && RoundTrip(p, c) <= p.tmax
    ensures forall c | c in cToR :: cToR[c] in routes && Singleton(p, routes[cToR[c]], cToR[c], c)
    ensures forall k | k in routes :: SingletonOf(p, routes, cToR, k)
  {
    var fs := Fitting(p, {}, p.Size());
    DummiesFacts(p, map[], map[], fs, 0, routes, cToR);
    RangeKeysCard(routes, |fs|);
    forall c | c in cToR ensures cToR[c] in routes && Singleton(p, routes[cToR[c]], cToR[c], c) {
      var j :| 0 <= j < |fs| && fs[j] == c;
      assert Dummied(p, routes, cToR, j, fs[j]);
    }
  }

  /** Route k is the dummy route of the customer it visits, and the index
      points that customer to k. */
  ghost predicate SingletonOf(p: Problem, routes: map<nat, Route>, cToR: map<nat, nat>, k: nat) {
    k in routes && |routes[k].customers| == 3 &&
    var c := routes[k].customers[1];
    c in cToR && cToR[c] == k && Singleton(p, routes[k], k, c)
  }

  /** A map whose keys are 0..n-1 has n entries. */
  lemma {:induction false} RangeKeysCard<V>(m: map<nat, V>, n: nat)
    requires forall k: nat :: k in m <==> k < n
    ensures |m| == n
  {
    if n > 0 {
      var m' := m - {n - 1};
      RangeKeysCard(m', n - 1);
      assert m.Keys == m'.Keys + {n - 1};
    } else {
      assert m.Keys == {};
    }
  }

  /** A dummy route is well formed, and its length and reward are exact. */
  lemma SingletonFacts(p: Problem, r: Route, k: nat, c: nat)
    requires Singleton(p, r, k, c) && IsCustomer(p, c)
    ensures Interior(r.customers) == [c]
    ensures WellFormed(p, r.customers)
    ensures r.length == LegSum(p, r.customers)
    ensures r.reward == RewardSum(p, Interior(r.customers))
  {
    assert Interior([0, c, p.Sink()]) == [c];
    assert [0, c, p.Sink()][1..] == [c, p.Sink()] && [c, p.Sink()][1..] == [p.Sink()];
    assert LegSum(p, [c, p.Sink()]) == p.dist(c, p.Sink());
    assert multiset([c])[c] == 1;
  }

  /** The dummy solution's routes and index are a valid solution within budget
      whose lengths and rewards are exact. */
  lemma SingletonsValid(p: Problem, routes: map<nat, Route>, cToR: map<nat, nat>)
    requires forall c | c in cToR :: IsCustomer(p, c) && RoundTrip(p, c) <= p.tmax
    requires forall c | c in cToR :: cToR[c] in routes && Singleton(p, routes[cToR[c]], cToR[c], c)
    requires forall k | k in routes :: SingletonOf(p, routes, cToR, k)
    ensures SolutionValid(p, routes, cToR)
    ensures WithinBudget(p, routes) && LengthsExact(p, routes) && RewardsExact(p, routes)
  {
    forall k | k in routes
      ensures routes[k].id == k && WellFormed(p, routes[k].customers)
      ensures routes[k].length <= p.tmax
      ensures routes[k].length == LegSum(p, routes[k].customers)
      ensures routes[k].reward == RewardSum(p, Interior(routes[k].customers))
      ensures forall c | c in Interior(routes[k].customers) :: c in cToR && cToR[c] == k
    {
      assert SingletonOf(p, routes, cToR, k);
      SingletonFacts(p, routes[k], k, routes[k].customers[1]);
    }
    forall c | c in cToR
      ensures c in Interior(routes[cToR[c]].customers)
    {
      SingletonFacts(p, routes[cToR[c]], cToR[c], c);
    }
  }

  ghost predicate HasPair(savings: seq<Saving>, i: nat, j: nat) {
    exists s :: s in savings && s.inode == i && s.jnode == j
  }

  /** No ordered pair occurs twice in the list. */
  ghost predicate PairsDistinct(savings: seq<Saving>) {
    forall x, y | 0 <= x < y < |savings| ::
      savings[x].inode != savings[y].inode || savings[x].jnode != savings[y].jnode
  }

  /** A saving of two distinct customers, scored by SavingOf. */
  ghost predicate Scored(p: Problem, alpha: real, s: Saving) {
    IsCustomer(p, s.inode) && IsCustomer(p, s.jnode) && s.inode != s.jnode &&
    s == SavingOf(p, alpha, s.inode, s.jnode)
  }

  /** The pair {i, j} comes before the pair {a, b} (a < b) in the table. */
  ghost predicate Done(i: nat, j: nat, a: nat, b: nat) {
    i < a || j < a || (i == a && j < b) || (j == a && i < b)
  }

  /** The savings list of `generate_savings`: every entry scored by alpha,
      every ordered pair of distinct customers present, and no pair twice. */
  ghost predicate SavingsOf(p: Problem, alpha: real, savings: seq<Saving>) {
    && (forall s | s in savings :: Scored(p, alpha, s))
    && (forall i: nat, j: nat | IsCustomer(p, i) && IsCustomer(p, j) && i != j :: HasPair(savings, i, j))
    && PairsDistinct(savings)
  }

  /** `generate_savings`: walks the distance table in its insertion order,
      (a, b) then (b, a) for every pair a < b, and keeps the pairs of two
      customers. Every ordered pair of distinct customers gets exactly one
      saving, scored by SavingOf. */
  method GenerateSavings(p: Problem, alpha: real) returns (savings: seq<Saving>)
    requires p.Valid()
    ensures forall s | s in savings :: Scored(p, alpha, s)
    ensures forall i: nat, j: nat | IsCustomer(p, i) && IsCustomer(p, j) && i != j :: HasPair(savings, i, j)
    ensures PairsDistinct(savings)
  {
    var source, target, n := 0, p.Sink(), p.Size();
    savings := [];
    for a := 0 to n
      invariant forall s | s in savings :: Scored(p, alpha, s) && Done(s.inode, s.jnode, a, a + 1)
      invariant forall i: nat, j: nat | IsCustomer(p, i) && IsCustomer(p, j) && i != j && Done(i, j, a, a + 1) ::
        HasPair(savings, i, j)
      invariant PairsDistinct(savings)
    {
      for b := a + 1 to n
        invariant forall s | s in savings :: Scored(p, alpha, s) && Done(s.inode, s.jnode, a, b)
        invariant forall i: nat, j: nat | IsCustomer(p, i) && IsCustomer(p, j) && i != j && Done(i, j, a, b) ::
          HasPair(savings, i, j)
        invariant PairsDistinct(savings)
      {
        if !(a == source || a == target || b == source || b == target) {
          var sab, sba := SavingOf(p, alpha, a, b), SavingOf(p, alpha, b, a);
          ghost var old_ := savings;
          savings := savings + [sab, sba];
          assert savings[|old_|] == sab && savings[|old_| + 1] == sba;
          forall i: nat, j: nat | IsCustomer(p, i) && IsCustomer(p, j) && i != j && Done(i, j, a, b + 1)
            ensures HasPair(savings, i, j)
          {
            if Done(i, j, a, b) {
              var s :| s in old_ && s.inode == i && s.jnode == j;
              assert s in savings;
            } else if i == a {
              assert sab in savings;
            } else {
              assert sba in savings;
            }
          }
        }
      }
    }
  }

  /** `merge_routes`: the customers of iroute up to its last customer followed
      by those of jroute from its first customer, under iroute's id; every
      customer of jroute is re-pointed to iroute's id in the solution's index. */
  method MergeRoutes(p: Problem, sol: Solution, iroute: Route, jroute: Route) returns (merged: Route)
    requires |iroute.customers| >= 2 && |jroute.customers| >= 2
    modifies sol
    ensures sol.routes == old(sol.routes)
    ensures sol.cToR == Repoint(old(sol.cToR), Interior(jroute.customers), iroute.id)
    ensures merged == MergedRoute(p, iroute, jroute)
  {
    var nj := |jroute.customers|;
    var moved := jroute.customers[1..nj - 1];
    assert moved == Interior(jroute.customers);
    RepointStep(sol.cToR, moved, 0, iroute.id);
    for t := 0 to |moved|
      invariant sol.routes == old(sol.routes)
      invariant sol.cToR == Repoint(old(sol.cToR), moved[..t], iroute.id)
    {
      RepointStep(old(sol.cToR), moved, t, iroute.id);
      sol.cToR := sol.cToR[moved[t] := iroute.id];
    }
    assert moved[..|moved|] == moved;
    merged := MergedRoute(p, iroute, jroute);
  }

  /** The route `merge_routes` returns: iroute without its sink followed by
      jroute without its source, under iroute's id, with the length updated
      by the legs that change and the two rewards added. When both routes
      run between the depots and their lengths and rewards are exact, so are
      the merged route's. */
  function MergedRoute(p: Problem, iroute: Route, jroute: Route): (merged: Route)
    requires |iroute.customers| >= 2 && |jroute.customers| >= 2
    ensures merged.id == iroute.id
    ensures merged.customers == iroute.customers[..|iroute.customers| - 1] + jroute.customers[1..]
    ensures Interior(merged.customers) == Interior(iroute.customers) + Interior(jroute.customers)
    ensures merged.reward == iroute.reward + jroute.reward
    ensures iroute.customers[|iroute.customers| - 1] == p.Sink() && jroute.customers[0] == 0 &&
            iroute.length == LegSum(p, iroute.customers) && jroute.length == LegSum(p, jroute.customers) ==>
      merged.length == LegSum(p, merged.customers)
    ensures iroute.reward == RewardSum(p, Interior(iroute.customers)) &&
            jroute.reward == RewardSum(p, Interior(jroute.customers)) ==>
      merged.reward == RewardSum(p, Interior(merged.customers))
  {
    var source, target := 0, p.Sink();
    var icId, jcId := iroute.customers[|iroute.customers| - 2], jroute.customers[1];
    MergeInterior(iroute.customers, jroute.customers);
    MergeLegSum(p, iroute.customers, jroute.customers);
    MergeRewardSum(p, iroute.customers, jroute.customers);
    Route(
      iroute.id,
      iroute.customers[..|iroute.customers| - 1] + jroute.customers[1..],
      iroute.length - p.dist(icId, target) + p.dist(icId, jcId) + jroute.length - p.dist(source, jcId),
      iroute.reward + jroute.reward)
  }

  /** The interior of the merged sequence is the two interiors in order. */
  lemma MergeInterior(a: seq<nat>, b: seq<nat>)
    requires |a| >= 2 && |b| >= 2
    ensures Interior(a[..|a| - 1] + b[1..]) == Interior(a) + Interior(b)
  {
    var m := a[..|a| - 1] + b[1..];
    assert |m| == |a| + |b| - 2;
    assert Interior(m) == m[1..|m| - 1];
    assert m[1..|m| - 1] == a[1..|a| - 1] + b[1..|b| - 1];
  }

  /** The merged sequence is as long as the two parts, minus the leg into
      a's sink and the leg out of b's source, plus the joining leg. */
  lemma MergeLegSum(p: Problem, a: seq<nat>, b: seq<nat>)
    requires |a| >= 2 && |b| >= 2
    ensures LegSum(p, a[..|a| - 1] + b[1..]) ==
      LegSum(p, a) - p.dist(a[|a| - 2], a[|a| - 1]) + p.dist(a[|a| - 2], b[1]) + LegSum(p, b) - p.dist(b[0], b[1])
  {
    LegSumDropLast(p, a);
    LegSumDropFirst(p, b);
    LegSumAppend(p, a[..|a| - 1], b[1..]);
  }

  lemma LegSumDropLast(p: Problem, a: seq<nat>)
    requires |a| >= 2
    ensures LegSum(p, a) == LegSum(p, a[..|a| - 1]) + p.dist(a[|a| - 2], a[|a| - 1])
  {
    assert a == a[..|a| - 1] + [a[|a| - 1]];
    LegSumAppend(p, a[..|a| - 1], [a[|a| - 1]]);
  }

  lemma LegSumDropFirst(p: Problem, b: seq<nat>)
    requires |b| >= 2
    ensures LegSum(p, b) == p.dist(b[0], b[1]) + LegSum(p, b[1..])
  {
  }

  /** The merged route collects the rewards of both interiors. */
  lemma MergeRewardSum(p: Problem, a: seq<nat>, b: seq<nat>)
    requires |a| >= 2 && |b| >= 2
    ensures RewardSum(p, Interior(a[..|a| - 1] + b[1..])) == RewardSum(p, Interior(a)) + RewardSum(p, Interior(b))
  {
    MergeInterior(a, b);
    RewardSumAppend(p, Interior(a), Interior(b));
  }
  // ---------------------------------------------------------------------
  // The merge step of savings_heuristic

  /** The index after MergeRoutes: jroute's customers re-pointed to irid. */
  function Repoint(cToR: map<nat, nat>, moved: seq<nat>, irid: nat): map<nat, nat> {
    map c | c in cToR.Keys + (set x | x in moved) :: if c in moved then irid else cToR[c]
  }

  lemma RepointFacts(cToR: map<nat, nat>, moved: seq<nat>, irid: nat)
    ensures forall c :: c in Repoint(cToR, moved, irid) <==> c in cToR || c in moved
    ensures forall c | c in Repoint(cToR, moved, irid) ::
      Repoint(cToR, moved, irid)[c] == if c in moved then irid else cToR[c]
  {
  }

  /** The route an indexed customer points to exists and has the customer
      between its two depots. */
  lemma IndexedRoute(p: Problem, routes: map<nat, Route>, cToR: map<nat, nat>, c: nat)
    requires SolutionValid(p, routes, cToR) && c in cToR
    ensures cToR[c] in routes && |routes[cToR[c]].customers| >= 3
  {
    assert c in Interior(routes[cToR[c]].customers);
  }

  /** Re-pointing nothing changes nothing; re-pointing one more customer is a
      single map update. */
  lemma RepointStep(cToR: map<nat, nat>, moved: seq<nat>, t: nat, irid: nat)
    requires t <= |moved|
    ensures Repoint(cToR, moved[..0], irid) == cToR
    ensures t < |moved| ==> Repoint(cToR, moved[..t + 1], irid) == Repoint(cToR, moved[..t], irid)[moved[t] := irid]
  {
    assert moved[..0] == [];
    if t < |moved| {
      assert moved[..t + 1] == moved[..t] + [moved[t]];
    }
  }

  /** IndexComplete at one route and one of its customers. */
  lemma IndexedAt(routes: map<nat, Route>, cToR: map<nat, nat>, k: nat, c: nat)
    requires IndexComplete(routes, cToR)
    requires k in routes && c in Interior(routes[k].customers)
    ensures c in cToR && cToR[c] == k
  {
  }

  /** Two routes of a valid solution share no customer. */
  lemma RoutesDisjoint(routes: map<nat, Route>, cToR: map<nat, nat>, k1: nat, k2: nat)
    requires Indexed(routes, cToR)
    requires k1 in routes && k2 in routes && k1 != k2
    ensures forall c | c in Interior(routes[k1].customers) :: c !in Interior(routes[k2].customers)
  {
    forall c | c in Interior(routes[k1].customers) ensures c !in Interior(routes[k2].customers) {
      assert cToR[c] == k1;
    }
  }

  /** Merging two well-formed routes with no customer in common gives a
      well-formed route. */
  lemma MergedWellFormed(p: Problem, a: seq<nat>, b: seq<nat>)
    requires WellFormed(p, a) && WellFormed(p, b)
    requires forall c | c in Interior(a) :: c !in Interior(b)
    ensures WellFormed(p, a[..|a| - 1] + b[1..])
  {
    var m := a[..|a| - 1] + b[1..];
    var ia, ib := Interior(a), Interior(b);
    MergeInterior(a, b);
    NoDupConcat(ia, ib);
    assert m[0] == a[0] && m[|m| - 1] == b[|b| - 1];
    forall c | c in ia + ib ensures 0 < c < p.Sink() {
      assert c in ia || c in ib;
    }
  }

  /** The routes after merging irid and jrid under irid. */
  function AfterMerge(routes: map<nat, Route>, irid: nat, jrid: nat, merged: Route): map<nat, Route> {
    (routes - {irid} - {jrid})[irid := merged]
  }

  lemma AfterMergeFacts(routes: map<nat, Route>, irid: nat, jrid: nat, merged: Route)
    ensures forall k :: k in AfterMerge(routes, irid, jrid, merged) <==> k == irid || (k in routes && k != jrid)
    ensures forall k | k in AfterMerge(routes, irid, jrid, merged) ::
      AfterMerge(routes, irid, jrid, merged)[k] == if k == irid then merged else routes[k]
  {
  }

  /** Every index entry after a merge points to a route visiting it. */
  lemma MergedIndexSound(routes: map<nat, Route>, cToR: map<nat, nat>, irid: nat, jrid: nat, merged: Route)
    requires Indexed(routes, cToR)
    requires irid in routes && jrid in routes && irid != jrid
    requires Interior(merged.customers) == Interior(routes[irid].customers) + Interior(routes[jrid].customers)
    ensures IndexSound(AfterMerge(routes, irid, jrid, merged), Repoint(cToR, Interior(routes[jrid].customers), irid))
  {
    var ib := Interior(routes[jrid].customers);
    var routes', cToR' := AfterMerge(routes, irid, jrid, merged), Repoint(cToR, ib, irid);
    forall c | c in cToR'
      ensures cToR'[c] in routes' && c in Interior(routes'[cToR'[c]].customers)
    {
      if c in ib {
        assert cToR'[c] == irid;
      } else {
        var k := cToR[c];
        assert cToR'[c] == k && c in Interior(routes[k].customers);
        assert k != jrid;
      }
    }
  }

  /** Every customer of a route after a merge is indexed to that route. */
  lemma MergedIndexComplete(routes: map<nat, Route>, cToR: map<nat, nat>, irid: nat, jrid: nat, merged: Route)
    requires Indexed(routes, cToR)
    requires irid in routes && jrid in routes && irid != jrid
    requires Interior(merged.customers) == Interior(routes[irid].customers) + Interior(routes[jrid].customers)
    ensures IndexComplete(AfterMerge(routes, irid, jrid, merged), Repoint(cToR, Interior(routes[jrid].customers), irid))
  {
    var ia, ib := Interior(routes[irid].customers), Interior(routes[jrid].customers);
    var routes', cToR' := AfterMerge(routes, irid, jrid, merged), Repoint(cToR, ib, irid);
    forall k, c | k in routes' && c in Interior(routes'[k].customers)
      ensures c in cToR' && cToR'[c] == k
    {
      if k == irid {
        assert c in ia + ib;
        if c !in ib {
          assert c in ia;
          assert cToR[c] == irid;
        }
      } else {
        assert routes'[k] == routes[k];
        assert cToR[c] == k;
        RoutesDisjoint(routes, cToR, k, jrid);
        assert c !in ib;
      }
    }
  }

  /** Replacing routes irid and jrid of a valid solution by their merge under
      irid, and re-pointing jrid's customers to irid, gives a valid solution. */
  lemma MergeKeepsValid(p: Problem, routes: map<nat, Route>, cToR: map<nat, nat>, irid: nat, jrid: nat, merged: Route)
    requires SolutionValid(p, routes, cToR)
    requires irid in routes && jrid in routes && irid != jrid
    requires merged.id == irid
    requires merged.customers == routes[irid].customers[..|routes[irid].customers| - 1] + routes[jrid].customers[1..]
    ensures SolutionValid(p, AfterMerge(routes, irid, jrid, merged),
                          Repoint(cToR, Interior(routes[jrid].customers), irid))
  {
    var a, b := routes[irid].customers, routes[jrid].customers;
    RoutesDisjoint(routes, cToR, irid, jrid);
    MergedWellFormed(p, a, b);
    MergeInterior(a, b);
    MergedIndexSound(routes, cToR, irid, jrid, merged);
    MergedIndexComplete(routes, cToR, irid, jrid, merged);
    var routes' := AfterMerge(routes, irid, jrid, merged);
    forall k | k in routes' ensures routes'[k].id == k && WellFormed(p, routes'[k].customers) {
      if k != irid {
        assert routes'[k] == routes[k];
      }
    }
  }

  /** Replacing two routes by their merge keeps the solution's reward and the
      set of customers it serves. */
  lemma MergeKeepsReward(routes: map<nat, Route>, irid: nat, jrid: nat, merged: Route)
    requires irid in routes && jrid in routes && irid != jrid
    requires merged.reward == routes[irid].reward + routes[jrid].reward
    ensures RewardTotal(AfterMerge(routes, irid, jrid, merged)) == RewardTotal(routes)
  {
    var rest := routes - {irid};
    RewardTotalRemove(routes, irid);
    RewardTotalRemove(rest, jrid);
    RewardTotalUpdate(rest - {jrid}, irid, merged);
  }
  // ---------------------------------------------------------------------
  // Keeping the n_trucks best routes

  /** The routes of a map in ascending id order. */
  function ValuesByKey(routes: map<nat, Route>): (vs: seq<Route>)
    ensures |vs| == |routes|
    ensures forall r :: r in vs <==> r in routes.Values
    decreases |routes|
  {
    if routes == map[] then []
    else
      var k := MinKey(routes.Keys);
      var rest := routes - {k};
      assert routes.Keys == rest.Keys + {k};
      assert forall r :: r in routes.Values <==> r == routes[k] || r in rest.Values;
      [routes[k]] + ValuesByKey(rest)
  }

  function RewardKey(r: Route): real {
    r.reward as real
  }

  /** `heapq.nlargest(n, routes, key=reward)`: the first n routes once they
      are sorted by non-increasing reward. */
  function TopRoutes(routes: map<nat, Route>, n: nat): (top: seq<Route>)
    ensures |top| == if n <= |routes| then n else |routes|
    ensures forall r | r in top :: r in routes.Values
    ensures SortedDesc(top, RewardKey)
  {
    var sorted := SortDesc(ValuesByKey(routes), RewardKey);
    var m := if n <= |sorted| then n else |sorted|;
    assert forall r | r in sorted[..m] :: r in multiset(sorted);
    sorted[..m]
  }

  /** In a sequence sorted by non-increasing reward, an element of a prefix
      has at least the reward of any element outside it. */
  lemma PrefixBest(sorted: seq<Route>, m: nat, x: Route, y: Route)
    requires SortedDesc(sorted, RewardKey) && m <= |sorted|
    requires x in sorted[..m] && y in sorted && y !in sorted[..m]
    ensures x.reward >= y.reward
  {
    var i :| 0 <= i < m && sorted[i] == x;
    var j :| 0 <= j < |sorted| && sorted[j] == y;
    assert forall t | 0 <= t < m :: sorted[t] in sorted[..m];
    assert RewardKey(sorted[i]) >= RewardKey(sorted[j]);
  }

  /** No route left out of the top n has a larger reward than one kept. */
  lemma TopRoutesBest(routes: map<nat, Route>, n: nat)
    ensures forall x, y | x in TopRoutes(routes, n) && y in routes.Values && y !in TopRoutes(routes, n) ::
      x.reward >= y.reward
  {
    var sorted := SortDesc(ValuesByKey(routes), RewardKey);
    var m := if n <= |sorted| then n else |sorted|;
    assert TopRoutes(routes, n) == sorted[..m];
    forall x, y | x in sorted[..m] && y in routes.Values && y !in sorted[..m]
      ensures x.reward >= y.reward
    {
      assert y in multiset(sorted);
      PrefixBest(sorted, m, x, y);
    }
  }

  /** `{r.id: r for r in top}`. */
  function RoutesById(top: seq<Route>): (m: map<nat, Route>)
    ensures |m| <= |top|
    ensures forall k | k in m :: m[k] in top && m[k].id == k
    ensures forall r | r in top :: r.id in m
  {
    if top == [] then map[]
    else
      var last := top[|top| - 1];
      assert forall r | r in top[..|top| - 1] :: r in top;
      assert forall r | r in top :: r in top[..|top| - 1] || r == last;
      RoutesById(top[..|top| - 1])[last.id := last]
  }

  /** `{c: r.id for r in top for c in r.customers if c is not a depot}`. */
  function IndexById(p: Problem, top: seq<Route>): (m: map<nat, nat>)
    ensures forall c | c in m ::
      (c != 0 && c != p.Sink() && exists r :: r in top && c in r.customers && r.id == m[c])
    ensures forall r, c | r in top && c in r.customers && c != 0 && c != p.Sink() :: c in m
  {
    if top == [] then map[]
    else
      var last := top[|top| - 1];
      var front := top[..|top| - 1];
      assert forall r | r in front :: r in top;
      assert forall r | r in top :: r in front || r == last;
      var fm := IndexById(p, front);
      var lm := map c | c in last.customers && c != 0 && c != p.Sink() :: last.id;
      assert last in top && forall c | c in lm :: c in last.customers && lm[c] == last.id;
      fm + lm
  }

  /** Routes drawn from the values of a valid solution are stored under
      their own ids. */
  lemma ValuesById(p: Problem, routes: map<nat, Route>, cToR: map<nat, nat>, top: seq<Route>)
    requires SolutionValid(p, routes, cToR)
    requires forall r | r in top :: r in routes.Values
    ensures forall r | r in top :: r.id in routes && routes[r.id] == r
  {
    forall r | r in top ensures r.id in routes && routes[r.id] == r {
      var k :| k in routes && routes[k] == r;
    }
  }

  /** The map rebuilt from some of a solution's routes holds those routes
      under their ids. */
  lemma KeptRoutes(p: Problem, routes: map<nat, Route>, cToR: map<nat, nat>, top: seq<Route>)
    requires SolutionValid(p, routes, cToR)
    requires forall r | r in top :: r in routes.Values
    ensures forall k | k in RoutesById(top) :: k in routes && RoutesById(top)[k] == routes[k]
    ensures forall k | k in RoutesById(top) :: RoutesById(top)[k].id == k && WellFormed(p, RoutesById(top)[k].customers)
  {
    ValuesById(p, routes, cToR, top);
  }

  /** The index rebuilt from some of a solution's routes agrees with the
      solution's index and points to a kept route visiting the customer. */
  lemma KeptIndexSound(p: Problem, routes: map<nat, Route>, cToR: map<nat, nat>, top: seq<Route>)
    requires SolutionValid(p, routes, cToR)
    requires forall r | r in top :: r in routes.Values
    ensures forall c | c in IndexById(p, top) :: c in cToR && IndexById(p, top)[c] == cToR[c]
    ensures IndexSound(RoutesById(top), IndexById(p, top))
  {
    ValuesById(p, routes, cToR, top);
    var routes', cToR' := RoutesById(top), IndexById(p, top);
    forall c | c in cToR' ensures c in cToR && cToR'[c] == cToR[c] && cToR'[c] in routes' &&
      c in Interior(routes'[cToR'[c]].customers)
    {
      var r :| r in top && c in r.customers && r.id == cToR'[c];
      assert r.id in routes && routes[r.id] == r;
      assert WellFormed(p, r.customers);
      InteriorMembers(p, r.customers, c);
      assert c in Interior(routes[r.id].customers);
      IndexedAt(routes, cToR, r.id, c);
      assert r.id in routes';
      assert routes'[r.id] in top && routes'[r.id].id == r.id;
      assert routes'[r.id] == r;
    }
  }

  /** Every customer of a kept route is in the rebuilt index, under that
      route's id. */
  lemma KeptIndexComplete(routes: map<nat, Route>, cToR: map<nat, nat>, routes': map<nat, Route>, cToR': map<nat, nat>)
    requires IndexComplete(routes, cToR)
    requires forall k | k in routes' :: k in routes && routes'[k] == routes[k]
    requires forall c | c in cToR' :: c in cToR && cToR'[c] == cToR[c]
    requires forall k, c | k in routes' && c in Interior(routes'[k].customers) :: c in cToR'
    ensures IndexComplete(routes', cToR')
  {
    forall k, c | k in routes' && c in Interior(routes'[k].customers) ensures c in cToR' && cToR'[c] == k {
      IndexedAt(routes, cToR, k, c);
    }
  }

  /** The rebuilt index holds every customer of a kept route. */
  lemma KeptIndexCovers(p: Problem, top: seq<Route>)
    requires forall k | k in RoutesById(top) :: WellFormed(p, RoutesById(top)[k].customers)
    ensures forall k, c | k in RoutesById(top) && c in Interior(RoutesById(top)[k].customers) :: c in IndexById(p, top)
  {
    forall k, c | k in RoutesById(top) && c in Interior(RoutesById(top)[k].customers) ensures c in IndexById(p, top) {
      InteriorMembers(p, RoutesById(top)[k].customers, c);
      assert RoutesById(top)[k] in top;
    }
  }

  /** Keeping the top routes of a valid solution, and rebuilding the index
      from them, gives a valid solution of at most n routes, each one of the
      original routes, and an index that agrees with the original one. */
  lemma TopKeepsValid(p: Problem, routes: map<nat, Route>, cToR: map<nat, nat>, n: nat)
    requires p.Valid() && SolutionValid(p, routes, cToR)
    ensures SolutionValid(p, RoutesById(TopRoutes(routes, n)), IndexById(p, TopRoutes(routes, n)))
    ensures |RoutesById(TopRoutes(routes, n))| <= n
    ensures forall k | k in RoutesById(TopRoutes(routes, n)) :: k in routes && RoutesById(TopRoutes(routes, n))[k] == routes[k]
    ensures forall c | c in IndexById(p, TopRoutes(routes, n)) :: c in cToR && IndexById(p, TopRoutes(routes, n))[c] == cToR[c]
  {
    var top := TopRoutes(routes, n);
    KeptRoutes(p, routes, cToR, top);
    KeptIndexSound(p, routes, cToR, top);
    KeptIndexCovers(p, top);
    KeptIndexComplete(routes, cToR, RoutesById(top), IndexById(p, top));
  }
  // ---------------------------------------------------------------------
  // savings_heuristic

  function SavingValue(s: Saving): real {
    s.value
  }

  /** The three facts a solution may keep through the savings heuristic. */
  ghost predicate Keeps(p: Problem, routes: map<nat, Route>, budget: bool, lengths: bool, rewards: bool) {
    && (budget ==> WithinBudget(p, routes))
    && (lengths ==> LengthsExact(p, routes))
    && (rewards ==> RewardsExact(p, routes))
  }

  /** The two tables of a solution, as values. */
  datatype Tables = Tables(routes: map<nat, Route>, cToR: map<nat, nat>)

  /** The saving (icId, jcId) names customers indexed on two different
      routes; otherwise lines 93-95 of `savings_heuristic` `continue`. */
  ghost predicate Links(t: Tables, icId: nat, jcId: nat) {
    icId in t.cToR && jcId in t.cToR && t.cToR[icId] != t.cToR[jcId]
  }

  /** Lines 98-99: icId is the last customer of its route, jcId the first
      of the other, and the merged route fits the budget. */
  ghost predicate Linkable(p: Problem, t: Tables, icId: nat, jcId: nat)
    requires Links(t, icId, jcId)
  {
    var irid, jrid := t.cToR[icId], t.cToR[jcId];
    && irid in t.routes && jrid in t.routes
    && var a, b := t.routes[irid], t.routes[jrid];
    && |a.customers| >= 2 && |b.customers| >= 2
    && icId == a.customers[|a.customers| - 2] && jcId == b.customers[1]
    && a.length - p.dist(icId, p.Sink()) + b.length - p.dist(0, jcId) + p.dist(icId, jcId) <= p.tmax
  }

  /** Lines 95-103 for a saving that links two routes: the tables after
      merging jcId's route into icId's when the two are linkable, the same
      tables otherwise. */
  ghost function MergeStep(p: Problem, t: Tables, icId: nat, jcId: nat): Tables
    requires Links(t, icId, jcId)
  {
    if Linkable(p, t, icId, jcId) then
      var irid, jrid := t.cToR[icId], t.cToR[jcId];
      Tables(AfterMerge(t.routes, irid, jrid, MergedRoute(p, t.routes[irid], t.routes[jrid])),
             Repoint(t.cToR, Interior(t.routes[jrid].customers), irid))
    else
      t
  }

  /** The loop of lines 87-107 from tables t, over the options the selector
      still holds, its next raw index being draw(k): a saving that does not
      link two routes is skipped, any other is handled by MergeStep, after
      which the loop stops once at most n_trucks routes are left. */
  ghost function MergeRun(p: Problem, t: Tables, options: seq<Saving>, draw: nat -> nat, k: nat): Tables
    decreases |options|
  {
    if options == [] then t
    else
      var (s, rest) := PopAt(options, draw(k));
      if !Links(t, s.inode, s.jnode) then MergeRun(p, t, rest, draw, k + 1)
      else
        var t' := MergeStep(p, t, s.inode, s.jnode);
        if |t'.routes| <= p.nTrucks then t' else MergeRun(p, t', rest, draw, k + 1)
  }

  /** A merge replaces two routes by one. */
  lemma AfterMergeCount(routes: map<nat, Route>, irid: nat, jrid: nat, merged: Route)
    requires irid in routes && jrid in routes && irid != jrid
    ensures |AfterMerge(routes, irid, jrid, merged)| == |routes| - 1
  {
    var rest := routes - {irid} - {jrid};
    assert rest.Keys == routes.Keys - {irid} - {jrid};
    assert irid !in rest;
  }

  /** The merge loop never adds a route, and it never merges a fleet that
      has more routes than trucks below one route per truck: each merge
      removes exactly one route and the loop stops as soon as at most
      n_trucks remain. */
  lemma {:induction false} MergeRunCount(p: Problem, t: Tables, options: seq<Saving>, draw: nat -> nat, k: nat)
    ensures |MergeRun(p, t, options, draw, k).routes| <= |t.routes|
    ensures |t.routes| > p.nTrucks ==> |MergeRun(p, t, options, draw, k).routes| >= p.nTrucks
    decreases |options|
  {
    if options != [] {
      var (s, rest) := PopAt(options, draw(k));
      if !Links(t, s.inode, s.jnode) {
        MergeRunCount(p, t, rest, draw, k + 1);
      } else {
        var t' := MergeStep(p, t, s.inode, s.jnode);
        if Linkable(p, t, s.inode, s.jnode) {
          var irid, jrid := t.cToR[s.inode], t.cToR[s.jnode];
          AfterMergeCount(t.routes, irid, jrid, MergedRoute(p, t.routes[irid], t.routes[jrid]));
        }
        if |t'.routes| > p.nTrucks {
          MergeRunCount(p, t', rest, draw, k + 1);
        }
      }
    }
  }

  /** Lines 110-112: the n_trucks routes of largest reward, and the index
      rebuilt from them. */
  ghost function KeepBest(p: Problem, t: Tables): Tables {
    Tables(RoutesById(TopRoutes(t.routes, p.nTrucks)), IndexById(p, TopRoutes(t.routes, p.nTrucks)))
  }

  /** Lines 95-103 of `savings_heuristic`, for a saving (icId, jcId) whose
      customers are indexed on two different routes: the routes are merged
      when icId is the last customer of its route, jcId the first of its
      route, and the merged route fits the budget. */
  method MergeIfLinkable(p: Problem, sol: Solution, icId: nat, jcId: nat,
                         ghost budget: bool, ghost lengths: bool, ghost rewards: bool)
    requires sol.Valid(p)
    requires Keeps(p, sol.routes, budget, lengths, rewards)
    requires Links(Tables(sol.routes, sol.cToR), icId, jcId)
    modifies sol
    ensures Tables(sol.routes, sol.cToR) == MergeStep(p, old(Tables(sol.routes, sol.cToR)), icId, jcId)
    ensures sol.Valid(p)
    ensures Keeps(p, sol.routes, budget, lengths, rewards)
    ensures RewardTotal(sol.routes) == old(RewardTotal(sol.routes))
    ensures sol.cToR.Keys == old(sol.cToR.Keys)
  {
    var source, target := 0, p.Sink();
    var irid, jrid := sol.cToR[icId], sol.cToR[jcId];
    var iroute, jroute := sol.routes[irid], sol.routes[jrid];
    IndexedRoute(p, sol.routes, sol.cToR, icId);
    IndexedRoute(p, sol.routes, sol.cToR, jcId);
    var ni := |iroute.customers|;
    if icId == iroute.customers[ni - 2] && jcId == jroute.customers[1] {
      if iroute.length - p.dist(icId, target) + jroute.length - p.dist(source, jcId) + p.dist(icId, jcId) <= p.tmax {
        ApplyMerge(p, sol, irid, jrid, budget, lengths, rewards);
      }
    }
  }

  /** Lines 100-103 of `savings_heuristic`: merges route jrid into route
      irid and replaces both by the merged route. */
  method ApplyMerge(p: Problem, sol: Solution, irid: nat, jrid: nat, ghost budget: bool, ghost lengths: bool, ghost rewards: bool)
    requires sol.Valid(p)
    requires Keeps(p, sol.routes, budget, lengths, rewards)
    requires irid in sol.routes && jrid in sol.routes && irid != jrid
    requires var a, b := sol.routes[irid], sol.routes[jrid];
      a.length - p.dist(a.customers[|a.customers| - 2], p.Sink()) + b.length - p.dist(0, b.customers[1])
        + p.dist(a.customers[|a.customers| - 2], b.customers[1]) <= p.tmax
    modifies sol
    ensures sol.routes ==
      AfterMerge(old(sol.routes), irid, jrid, MergedRoute(p, old(sol.routes[irid]), old(sol.routes[jrid])))
    ensures sol.cToR == Repoint(old(sol.cToR), Interior(old(sol.routes[jrid]).customers), irid)
    ensures sol.Valid(p)
    ensures Keeps(p, sol.routes, budget, lengths, rewards)
    ensures RewardTotal(sol.routes) == old(RewardTotal(sol.routes))
    ensures sol.cToR.Keys == old(sol.cToR.Keys)
  {
    ghost var routes0, cToR0 := sol.routes, sol.cToR;
    var iroute, jroute := sol.routes[irid], sol.routes[jrid];
    assert |iroute.customers| >= 2 && |jroute.customers| >= 2;
    var merged := MergeRoutes(p, sol, iroute, jroute);
    ReplaceRoutes(sol, irid, jrid, merged);
    MergeStepFacts(p, routes0, cToR0, irid, jrid, iroute, jroute, merged, budget, lengths, rewards);
  }

  /** Everything a feasible merge keeps: validity, the budget and exactness
      facts, the reward and the set of served customers. */
  lemma MergeStepFacts(p: Problem, routes: map<nat, Route>, cToR: map<nat, nat>, irid: nat, jrid: nat,
                       a: Route, b: Route, merged: Route, budget: bool, lengths: bool, rewards: bool)
    requires SolutionValid(p, routes, cToR) && Keeps(p, routes, budget, lengths, rewards)
    requires irid in routes && jrid in routes && irid != jrid
    requires routes[irid] == a && routes[jrid] == b && |a.customers| >= 2 && |b.customers| >= 2
    requires merged == MergedRoute(p, a, b)
    requires a.length - p.dist(a.customers[|a.customers| - 2], p.Sink()) + b.length - p.dist(0, b.customers[1])
      + p.dist(a.customers[|a.customers| - 2], b.customers[1]) <= p.tmax
    ensures SolutionValid(p, AfterMerge(routes, irid, jrid, merged), Repoint(cToR, Interior(b.customers), irid))
    ensures Keeps(p, AfterMerge(routes, irid, jrid, merged), budget, lengths, rewards)
    ensures RewardTotal(AfterMerge(routes, irid, jrid, merged)) == RewardTotal(routes)
    ensures Repoint(cToR, Interior(b.customers), irid).Keys == cToR.Keys
  {
    assert WellFormed(p, a.customers) && WellFormed(p, b.customers);
    assert lengths ==> a.length == LegSum(p, a.customers) && b.length == LegSum(p, b.customers);
    assert rewards ==> a.reward == RewardSum(p, Interior(a.customers)) && b.reward == RewardSum(p, Interior(b.customers));
    MergeKeepsValid(p, routes, cToR, irid, jrid, merged);
    MergeKeepsReward(routes, irid, jrid, merged);
    MergeKeeps(p, routes, irid, jrid, merged, budget, lengths, rewards);
    MergeKeepsServed(routes, cToR, jrid, irid);
  }

  /** Lines 101-103 of `savings_heuristic`: pops both routes and stores the
      merged one under its id. */
  method ReplaceRoutes(sol: Solution, irid: nat, jrid: nat, merged: Route)
    requires merged.id == irid
    modifies sol
    ensures sol.routes == AfterMerge(old(sol.routes), irid, jrid, merged)
    ensures sol.cToR == old(sol.cToR)
  {
    sol.routes := sol.routes - {irid};
    sol.routes := sol.routes - {jrid};
    sol.routes := sol.routes[merged.id := merged];
  }

  /** A feasible merge keeps the budget and the exactness of lengths and
      rewards. */
  lemma MergeKeeps(p: Problem, routes: map<nat, Route>, irid: nat, jrid: nat, merged: Route,
                   budget: bool, lengths: bool, rewards: bool)
    requires Keeps(p, routes, budget, lengths, rewards)
    requires merged.length <= p.tmax
    requires lengths ==> merged.length == LegSum(p, merged.customers)
    requires rewards ==> merged.reward == RewardSum(p, Interior(merged.customers))
    ensures Keeps(p, AfterMerge(routes, irid, jrid, merged), budget, lengths, rewards)
  {
    var routes' := AfterMerge(routes, irid, jrid, merged);
    forall k | k in routes'
      ensures budget ==> routes'[k].length <= p.tmax
      ensures lengths ==> routes'[k].length == LegSum(p, routes'[k].customers)
      ensures rewards ==> routes'[k].reward == RewardSum(p, Interior(routes'[k].customers))
    {
      if k != irid {
        assert routes'[k] == routes[k];
      }
    }
  }

  /** A merge re-points only customers the index already holds. */
  lemma MergeKeepsServed(routes: map<nat, Route>, cToR: map<nat, nat>, jrid: nat, irid: nat)
    requires IndexComplete(routes, cToR) && jrid in routes
    ensures Repoint(cToR, Interior(routes[jrid].customers), irid).Keys == cToR.Keys
  {
    forall c | c in Interior(routes[jrid].customers) ensures c in cToR {
      IndexedAt(routes, cToR, jrid, c);
    }
  }

  /** The loop of `savings_heuristic`: draws every saving through the
      selector (the k-th draw uses `draw(k)`) and stops early once no more than
      n_trucks routes are left after a saving that names two routes. */
  method MergeSavings(p: Problem, sol: Solution, savings: seq<Saving>, draw: nat -> nat,
                      ghost budget: bool, ghost lengths: bool, ghost rewards: bool)
    requires p.Valid() && sol.Valid(p)
    requires Keeps(p, sol.routes, budget, lengths, rewards)
    modifies sol
    ensures sol.Valid(p)
    ensures Keeps(p, sol.routes, budget, lengths, rewards)
    ensures RewardTotal(sol.routes) == old(RewardTotal(sol.routes))
    ensures sol.cToR.Keys == old(sol.cToR.Keys)
    ensures Tables(sol.routes, sol.cToR) == MergeRun(p, old(Tables(sol.routes, sol.cToR)), SortDesc(savings, SavingValue), draw, 0)
  {
    ghost var run := MergeRun(p, Tables(sol.routes, sol.cToR), SortDesc(savings, SavingValue), draw, 0);
    var selector := new BraSelector(savings, SavingValue);
    var k := 0;
    while selector.options != []
      invariant fresh(selector)
      invariant MergeRun(p, Tables(sol.routes, sol.cToR), selector.options, draw, k) == run
      invariant sol.Valid(p)
      invariant Keeps(p, sol.routes, budget, lengths, rewards)
      invariant RewardTotal(sol.routes) == old(RewardTotal(sol.routes))
      invariant sol.cToR.Keys == old(sol.cToR.Keys)
      decreases |selector.options|
    {
      ghost var t, options := Tables(sol.routes, sol.cToR), selector.options;
      var saving := selector.Next(draw(k));
      assert (saving, selector.options) == PopAt(options, draw(k));
      k := k + 1;
      var icId, jcId := saving.inode, saving.jnode;
      if icId !in sol.cToR || jcId !in sol.cToR || sol.cToR[icId] == sol.cToR[jcId] {
        continue;
      }
      MergeIfLinkable(p, sol, icId, jcId, budget, lengths, rewards);
      if |sol.routes| <= p.nTrucks {
        break;
      }
    }
  }

  /** Lines 110-112 of `savings_heuristic`: keeps the n_trucks routes of
      largest reward and rebuilds the index from them. */
  method KeepBestRoutes(p: Problem, sol: Solution)
    requires p.Valid() && sol.Valid(p)
    modifies sol
    ensures sol.Valid(p)
    ensures sol.routes == RoutesById(TopRoutes(old(sol.routes), p.nTrucks))
    ensures Tables(sol.routes, sol.cToR) == KeepBest(p, old(Tables(sol.routes, sol.cToR)))
    ensures |sol.routes| <= p.nTrucks
    ensures |sol.routes| == if p.nTrucks <= |old(sol.routes)| then p.nTrucks else |old(sol.routes)|
    ensures forall k | k in sol.routes :: k in old(sol.routes) && sol.routes[k] == old(sol.routes[k])
    ensures forall c | c in sol.cToR :: c in old(sol.cToR) && sol.cToR[c] == old(sol.cToR[c])
    ensures forall k, k' | k in sol.routes && k' in old(sol.routes) && k' !in sol.routes ::
      sol.routes[k].reward >= old(sol.routes[k'].reward)
  {
    var top := TopRoutes(sol.routes, p.nTrucks);
    TopKeepsValid(p, sol.routes, sol.cToR, p.nTrucks);
    TopRoutesSize(p, sol.routes, sol.cToR, p.nTrucks);
    KeptBeatDropped(p, sol.routes, sol.cToR, p.nTrucks);
    ghost var t0 := Tables(sol.routes, sol.cToR);
    sol.routes, sol.cToR := RoutesById(top), IndexById(p, top);
    assert Tables(sol.routes, sol.cToR) == KeepBest(p, t0);
  }

  /** A route KeepBestRoutes keeps has at least the reward of every route it
      drops. */
  lemma KeptBeatDropped(p: Problem, routes: map<nat, Route>, cToR: map<nat, nat>, n: nat)
    requires SolutionValid(p, routes, cToR)
    ensures forall k, k' | k in RoutesById(TopRoutes(routes, n)) && k' in routes && k' !in RoutesById(TopRoutes(routes, n)) ::
      RoutesById(TopRoutes(routes, n))[k].reward >= routes[k'].reward
  {
    var top := TopRoutes(routes, n);
    var kept := RoutesById(top);
    TopRoutesBest(routes, n);
    TopRoutesSize(p, routes, cToR, n);
    forall k, k' | k in kept && k' in routes && k' !in kept ensures kept[k].reward >= routes[k'].reward {
      assert kept[k] in top && routes[k'] in routes.Values && routes[k'] !in top;
    }
  }

  /** Listing the routes of a map stored under their own ids lists no route
      twice. */
  lemma {:induction false} ValuesByKeyNoDup(routes: map<nat, Route>)
    requires forall k | k in routes :: routes[k].id == k
    ensures NoDup(ValuesByKey(routes))
    decreases |routes|
  {
    if routes != map[] {
      var k := MinKey(routes.Keys);
      var rest := routes - {k};
      ValuesByKeyNoDup(rest);
      var h, t := routes[k], ValuesByKey(rest);
      assert forall r | r in t :: r in rest.Values && r.id != k;
      assert h !in t;
      assert multiset([h] + t) == multiset{h} + multiset(t);
      assert h !in multiset(t);
    }
  }

  /** Duplicate-free routes whose ids identify them are stored under as many
      ids as there are routes. */
  lemma {:induction false} RoutesByIdSize(top: seq<Route>)
    requires NoDup(top)
    requires forall r1, r2 | r1 in top && r2 in top && r1.id == r2.id :: r1 == r2
    ensures |RoutesById(top)| == |top|
    decreases |top|
  {
    if top != [] {
      var front, last := top[..|top| - 1], top[|top| - 1];
      NoDupPrefix(top, |top| - 1);
      assert forall r | r in front :: r in top;
      RoutesByIdSize(front);
      assert forall r | r in front :: r != last && r.id != last.id;
      var m := RoutesById(front);
      assert last.id !in m;
      assert |m[last.id := last]| == |m| + 1;
    }
  }

  /** The top n routes are stored under n distinct ids (fewer when the
      solution has fewer routes), and a route left out is not among them. */
  lemma TopRoutesSize(p: Problem, routes: map<nat, Route>, cToR: map<nat, nat>, n: nat)
    requires SolutionValid(p, routes, cToR)
    ensures |RoutesById(TopRoutes(routes, n))| == if n <= |routes| then n else |routes|
    ensures forall k | k in routes && k !in RoutesById(TopRoutes(routes, n)) :: routes[k] !in TopRoutes(routes, n)
  {
    var vs := ValuesByKey(routes);
    var sorted := SortDesc(vs, RewardKey);
    var m := if n <= |sorted| then n else |sorted|;
    var top := TopRoutes(routes, n);
    assert top == sorted[..m];
    ValuesByKeyNoDup(routes);
    assert NoDup(sorted) by {
      forall x | x in sorted ensures multiset(sorted)[x] == 1 {
        assert x in multiset(vs);
      }
    }
    NoDupPrefix(sorted, m);
    ValuesById(p, routes, cToR, top);
    RoutesByIdSize(top);
  }

  /** `savings_heuristic`: starting from `seed` (or from the dummy solution
      when there is none), merges routes along the drawn savings and keeps
      the n_trucks routes of largest reward. */
  method SavingsHeuristic(p: Problem, alpha: real, draw: nat -> nat, seed: Solution?)
    returns (sol: Solution, ghost start: Tables, ghost savings: seq<Saving>)
    requires p.Valid()
    requires seed != null ==> seed.Valid(p)
    modifies seed
    ensures seed != null ==> sol == seed && start == old(Tables(seed.routes, seed.cToR))
    ensures seed == null ==> fresh(sol) && Dummy(p, start.routes, start.cToR)
    ensures SavingsOf(p, alpha, savings)
    ensures Tables(sol.routes, sol.cToR) == KeepBest(p, MergeRun(p, start, SortDesc(savings, SavingValue), draw, 0))
    ensures sol.Valid(p)
    ensures |sol.routes| <= p.nTrucks
    ensures seed == null || old(WithinBudget(p, seed.routes)) ==> WithinBudget(p, sol.routes)
    ensures seed == null || old(LengthsExact(p, seed.routes)) ==> LengthsExact(p, sol.routes)
    ensures seed == null || old(RewardsExact(p, seed.routes)) ==> RewardsExact(p, sol.routes)
    ensures seed != null ==> forall c | c in sol.cToR :: c in old(seed.cToR)
  {
    if seed == null {
      sol := InitSolution(p);
    } else {
      sol := seed;
    }
    start := Tables(sol.routes, sol.cToR);
    ghost var budget, lengths, rewards :=
      WithinBudget(p, sol.routes), LengthsExact(p, sol.routes), RewardsExact(p, sol.routes);
    var generated := GenerateSavings(p, alpha);
    savings := generated;
    MergeSavings(p, sol, generated, draw, budget, lengths, rewards);
    KeepBestRoutes(p, sol);
  }

  // ---------------------------------------------------------------------
  // The sequential constructive heuristic

  /** A candidate next customer of the route under construction. */
  datatype ConstructiveStep = ConstructiveStep(id: nat, customer: Customer, value: real)

  /** Customer id can be appended after cnode: it is unvisited and the route
      can still reach the sink through it within the budget. */
  predicate Feasible(p: Problem, visited: set<nat>, cnode: nat, cdist: real, id: nat) {
    id in p.customers && id !in visited && cdist + p.dist(cnode, id) + p.dist(id, p.Sink()) <= p.tmax
  }

  /** The score of appending id after cnode: its reward blended by alpha
      with the detour it avoids on the way to the sink. */
  function StepValue(p: Problem, alpha: real, cnode: nat, id: nat): real {
    RewardOf(p, id) as real * (1.0 - alpha)
      + alpha * (p.dist(cnode, p.Sink()) - p.dist(cnode, id) - p.dist(id, p.Sink()))
  }

  /** The candidate list of `constructive_heuristic` over the ids below n, in
      increasing id order: one step per feasible customer. */
  function Candidates(p: Problem, alpha: real, visited: set<nat>, cnode: nat, cdist: real, n: nat)
    : (cs: seq<ConstructiveStep>)
    ensures forall i | 0 <= i < |cs| ::
      && cs[i].id < n && Feasible(p, visited, cnode, cdist, cs[i].id)
      && cs[i].customer == p.customers[cs[i].id] && cs[i].value == StepValue(p, alpha, cnode, cs[i].id)
  {
    if n == 0 then []
    else
      var front := Candidates(p, alpha, visited, cnode, cdist, n - 1);
      if Feasible(p, visited, cnode, cdist, n - 1) then
        front + [ConstructiveStep(n - 1, p.customers[n - 1], StepValue(p, alpha, cnode, n - 1))]
      else front
  }

  /** Every feasible customer below n is a candidate. */
  lemma {:induction false} CandidatesComplete(p: Problem, alpha: real, visited: set<nat>, cnode: nat, cdist: real,
                                              n: nat, id: nat)
    requires id < n && Feasible(p, visited, cnode, cdist, id)
    ensures exists i ::
      0 <= i < |Candidates(p, alpha, visited, cnode, cdist, n)| && Candidates(p, alpha, visited, cnode, cdist, n)[i].id == id
  {
    var front := Candidates(p, alpha, visited, cnode, cdist, n - 1);
    var cs := Candidates(p, alpha, visited, cnode, cdist, n);
    assert |front| <= |cs| && forall i | 0 <= i < |front| :: cs[i] == front[i];
    if id == n - 1 {
      assert cs[|front|].id == id;
    } else {
      CandidatesComplete(p, alpha, visited, cnode, cdist, n - 1, id);
      var i :| 0 <= i < |front| && front[i].id == id;
      assert cs[i].id == id;
    }
  }

  /** The candidates come in increasing id order, as the customers dict
      lists them. */
  lemma {:induction false} CandidatesOrdered(p: Problem, alpha: real, visited: set<nat>, cnode: nat, cdist: real,
                                             n: nat, i: nat, j: nat)
    requires i < j < |Candidates(p, alpha, visited, cnode, cdist, n)|
    ensures Candidates(p, alpha, visited, cnode, cdist, n)[i].id < Candidates(p, alpha, visited, cnode, cdist, n)[j].id
  {
    var front := Candidates(p, alpha, visited, cnode, cdist, n - 1);
    var cs := Candidates(p, alpha, visited, cnode, cdist, n);
    assert |front| <= |cs| && forall i | 0 <= i < |front| :: cs[i] == front[i];
    if j < |front| {
      CandidatesOrdered(p, alpha, visited, cnode, cdist, n - 1, i, j);
    } else {
      assert cs[j].id == n - 1 && cs[i] == front[i];
    }
  }

  /** The candidate drawn by the selector is feasible. */
  lemma ChosenCandidate(p: Problem, alpha: real, visited: set<nat>, cnode: nat, cdist: real, n: nat,
                        s: ConstructiveStep)
    requires s in Candidates(p, alpha, visited, cnode, cdist, n)
    ensures Feasible(p, visited, cnode, cdist, s.id) && s.customer == p.customers[s.id]
  {
  }

  function StepValueOf(s: ConstructiveStep): real {
    s.value
  }

  /** The step `next(bra_selector(cs, beta))` yields for raw draw raw: the
      element at raw % |cs| of the candidates sorted by value. */
  ghost function Drawn(cs: seq<ConstructiveStep>, raw: nat): (s: ConstructiveStep)
    requires cs != []
    ensures s in cs
  {
    var sorted := SortDesc(cs, StepValueOf);
    var s := PopAt(sorted, raw).0;
    assert s in multiset(sorted);
    s
  }

  /** Where the while loop of `constructive_heuristic` ends: the path, the
      visited set and the number of draws used so far. */
  datatype Growth = Growth(path: seq<nat>, visited: set<nat>, draws: nat)

  /** The while loop of `constructive_heuristic` from path and visited, the
      next draw being draw(k): while some customer is feasible after the last
      node, append the one the selector draws from the scored candidates. */
  ghost function Grow(p: Problem, alpha: real, draw: nat -> nat, k: nat, path: seq<nat>, visited: set<nat>)
    : Growth
    requires path != []
    decreases p.customers.Keys - visited
  {
    var cs := CandidatesAfter(p, alpha, visited, path);
    if cs == [] then Growth(path, visited, k)
    else
      var s := Drawn(cs, draw(k));
      assert s.id in p.customers.Keys - visited;
      Grow(p, alpha, draw, k + 1, path + [s.id], visited + {s.id})
  }

  /** No customer can follow the last node of g's path. */
  ghost predicate Finished(p: Problem, g: Growth) {
    forall id :: !Extends(p, g.visited, g.path, id)
  }

  /** The candidates the loop scores after the last node of path. */
  function CandidatesAfter(p: Problem, alpha: real, visited: set<nat>, path: seq<nat>): seq<ConstructiveStep>
    requires path != []
  {
    Candidates(p, alpha, visited, path[|path| - 1], LegSum(p, path), p.Size())
  }

  /** One turn of the loop: with candidates left, the drawn one is feasible
      and the loop goes on from the longer path. */
  lemma GrowNext(p: Problem, alpha: real, draw: nat -> nat, k: nat, path: seq<nat>, visited: set<nat>)
    requires path != [] && CandidatesAfter(p, alpha, visited, path) != []
    ensures var s := Drawn(CandidatesAfter(p, alpha, visited, path), draw(k));
      && Extends(p, visited, path, s.id)
      && Grow(p, alpha, draw, k, path, visited) == Grow(p, alpha, draw, k + 1, path + [s.id], visited + {s.id})
  {
    GrowUnfold(p, alpha, draw, k, path, visited, Drawn(CandidatesAfter(p, alpha, visited, path), draw(k)).id);
  }

  /** Grow's recursive case, for x the drawn customer. */
  lemma GrowUnfold(p: Problem, alpha: real, draw: nat -> nat, k: nat, path: seq<nat>, visited: set<nat>, x: nat)
    requires path != [] && CandidatesAfter(p, alpha, visited, path) != []
    requires x == Drawn(CandidatesAfter(p, alpha, visited, path), draw(k)).id
    ensures Grow(p, alpha, draw, k, path, visited) == Grow(p, alpha, draw, k + 1, path + [x], visited + {x})
  {
  }

  /** The loop only appends to path, one draw per appended node. */
  lemma {:induction false} GrowExtends(p: Problem, alpha: real, draw: nat -> nat, k: nat, path: seq<nat>,
                                       visited: set<nat>)
    requires path != []
    ensures var g := Grow(p, alpha, draw, k, path, visited);
      |path| <= |g.path| && g.path[..|path|] == path && g.draws == k + |g.path| - |path|
    decreases p.customers.Keys - visited
  {
    var cs := CandidatesAfter(p, alpha, visited, path);
    if cs != [] {
      var x := Drawn(cs, draw(k)).id;
      GrowUnfold(p, alpha, draw, k, path, visited, x);
      assert x in p.customers.Keys - visited;
      GrowExtends(p, alpha, draw, k + 1, path + [x], visited + {x});
      PrefixStep(Grow(p, alpha, draw, k + 1, path + [x], visited + {x}).path, path, x);
    }
  }

  /** After one turn, the loop still heads for the same end. */
  lemma GrowShift(p: Problem, alpha: real, draw: nat -> nat, k0: nat, visited0: set<nat>, k: nat,
                  path: seq<nat>, visited: set<nat>, cs: ConstructiveStep)
    requires path != [] && CandidatesAfter(p, alpha, visited, path) != []
    requires cs == PopAt(SortDesc(CandidatesAfter(p, alpha, visited, path), StepValueOf), draw(k)).0
    requires Grow(p, alpha, draw, k, path, visited) == Grow(p, alpha, draw, k0, [0], visited0)
    ensures Grow(p, alpha, draw, k + 1, path + [cs.id], visited + {cs.id}) == Grow(p, alpha, draw, k0, [0], visited0)
    ensures Extends(p, visited, path, cs.id)
  {
    assert cs == Drawn(CandidatesAfter(p, alpha, visited, path), draw(k));
    GrowNext(p, alpha, draw, k, path, visited);
  }

  /** The loop stops only when no customer can follow the last node. */
  lemma {:induction false} GrowMaximal(p: Problem, alpha: real, draw: nat -> nat, k: nat, path: seq<nat>,
                                       visited: set<nat>)
    requires p.Valid() && path != []
    ensures Finished(p, Grow(p, alpha, draw, k, path, visited))
    decreases p.customers.Keys - visited
  {
    var cs := CandidatesAfter(p, alpha, visited, path);
    if cs == [] {
      NoneFeasible(p, alpha, visited, path[|path| - 1], LegSum(p, path));
    } else {
      var s := Drawn(cs, draw(k));
      GrowNext(p, alpha, draw, k, path, visited);
      GrowMaximal(p, alpha, draw, k + 1, path + [s.id], visited + {s.id});
    }
  }

  /** Every node the loop appends was feasible when it was drawn: unvisited,
      and reachable from the node before it with the sink still within tmax. */
  lemma {:induction false} GrowFeasible(p: Problem, alpha: real, draw: nat -> nat, k: nat, path: seq<nat>,
                                        visited: set<nat>, j: nat)
    requires path != []
    requires |path| <= j < |Grow(p, alpha, draw, k, path, visited).path|
    ensures var g := Grow(p, alpha, draw, k, path, visited);
      Extends(p, visited + Nodes(g.path[|path|..j]), g.path[..j], g.path[j])
    decreases p.customers.Keys - visited
  {
    var g := Grow(p, alpha, draw, k, path, visited);
    var cs := CandidatesAfter(p, alpha, visited, path);
    assert cs != [];
    var s := Drawn(cs, draw(k));
    var path' := path + [s.id];
    GrowNext(p, alpha, draw, k, path, visited);
    GrowExtends(p, alpha, draw, k + 1, path', visited + {s.id});
    PrefixStep(g.path, path, s.id);
    if j == |path| {
      assert g.path[|path|..j] == [];
    } else {
      GrowFeasible(p, alpha, draw, k + 1, path', visited + {s.id}, j);
      SliceNodes(g.path, |path|, j);
    }
  }

  /** A sequence that starts with t + [x] starts with t, followed by x. */
  lemma PrefixStep(s: seq<nat>, t: seq<nat>, x: nat)
    requires |t| < |s| && s[..|t| + 1] == t + [x]
    ensures s[..|t|] == t && s[|t|] == x
  {
    assert s[..|t|] == s[..|t| + 1][..|t|];
  }

  /** The nodes of s[i..j] are s[i] and those of s[i+1..j]. */
  lemma SliceNodes(s: seq<nat>, i: nat, j: nat)
    requires i < j <= |s|
    ensures Nodes(s[i..j]) == {s[i]} + Nodes(s[i + 1..j])
  {
    assert s[i..j] == [s[i]] + s[i + 1..j];
  }

  /** The paths the for loop of `constructive_heuristic` builds for its
      first n trucks, with the visited set and the draws used after them. */
  datatype Construction = Construction(paths: seq<seq<nat>>, visited: set<nat>, draws: nat)

  ghost function Construct(p: Problem, alpha: real, draw: nat -> nat, n: nat): (c: Construction)
    ensures |c.paths| == n
  {
    if n == 0 then Construction([], {0, p.Sink()}, 0)
    else
      var c := Construct(p, alpha, draw, n - 1);
      var g := Grow(p, alpha, draw, c.draws, [0], c.visited);
      Construction(c.paths + [g.path], g.visited, g.draws)
  }

  /** Truck n is built by growing the bare source from where the first n
      trucks left the visited set and the draws. */
  lemma ConstructNext(p: Problem, alpha: real, draw: nat -> nat, n: nat)
    ensures var c := Construct(p, alpha, draw, n);
      var g := Grow(p, alpha, draw, c.draws, [0], c.visited);
      && Construct(p, alpha, draw, n + 1) == Construction(c.paths + [g.path], g.visited, g.draws)
      && forall r | 0 <= r < n :: Construct(p, alpha, draw, n + 1).paths[r] == c.paths[r]
  {
  }

  /** A later truck never changes the paths of the earlier ones. */
  lemma {:induction false} ConstructPrefix(p: Problem, alpha: real, draw: nat -> nat, m: nat, n: nat)
    requires m <= n
    ensures Construct(p, alpha, draw, n).paths[..m] == Construct(p, alpha, draw, m).paths
    decreases n
  {
    if m < n {
      ConstructPrefix(p, alpha, draw, m, n - 1);
      var c := Construct(p, alpha, draw, n - 1);
      assert Construct(p, alpha, draw, n).paths[..n - 1] == c.paths;
      assert Construct(p, alpha, draw, n).paths[..m] == c.paths[..m];
    }
  }

  /** The route under construction, path, runs from the source through
      customers that were unvisited when it started, none twice; visited and
      cToR are the starting ones plus exactly those customers. */
  ghost predicate Partial(p: Problem, visited0: set<nat>, cToR0: map<nat, nat>, routeId: nat,
                          path: seq<nat>, visited: set<nat>, cToR: map<nat, nat>) {
    && path != [] && path[0] == 0
    && (forall c | c in path[1..] :: 0 < c < p.Sink() && c !in visited0)
    && NoDup(path[1..])
    && (forall c :: c in visited <==> c in visited0 || c in path[1..])
    && (forall c :: c in cToR <==> c in cToR0 || c in path[1..])
    && (forall c | c in cToR :: cToR[c] == if c in path[1..] then routeId else cToR0[c])
  }

  /** All but the last node of s. */
  function Front(s: seq<nat>): (f: seq<nat>)
    ensures |s| > 0 ==> s == f + [s[|s| - 1]]
  {
    if s == [] then [] else s[..|s| - 1]
  }

  /** Customer id could be appended to path. */
  ghost predicate Extends(p: Problem, visited: set<nat>, path: seq<nat>, id: nat) {
    path != [] && Feasible(p, visited, path[|path| - 1], LegSum(p, path), id)
  }

  /** The inner loop of `constructive_heuristic` for truck routeId: starting
      at the source, keeps appending a customer drawn from the feasible
      candidates (the k-th draw uses `draw(k)`) until none is left, then
      closes the route at the sink. */
  method BuildRoute(p: Problem, alpha: real, draw: nat -> nat, k0: nat, visited0: set<nat>, cToR0: map<nat, nat>,
                    routeId: nat)
    returns (route: Route, visited: set<nat>, cToR: map<nat, nat>, k: nat)
    requires p.Valid()
    requires 0 in visited0 && p.Sink() in visited0
    ensures route.id == routeId
    ensures WellFormed(p, route.customers)
    ensures route.length == LegSum(p, route.customers)
    ensures route.reward == RewardSum(p, Interior(route.customers))
    ensures |route.customers| > 2 ==> route.length <= p.tmax
    ensures forall c | c in Interior(route.customers) :: c !in visited0
    ensures forall c :: c in visited <==> c in visited0 || c in Interior(route.customers)
    ensures forall c :: c in cToR <==> c in cToR0 || c in Interior(route.customers)
    ensures forall c | c in cToR :: cToR[c] == if c in Interior(route.customers) then routeId else cToR0[c]
    ensures forall id :: !Extends(p, visited, Front(route.customers), id)
    ensures var g := Grow(p, alpha, draw, k0, [0], visited0);
      route.customers == g.path + [p.Sink()] && visited == g.visited && k == g.draws
  {
    var target := p.Sink();
    var path, cdist, creward;
    path, cdist, creward, visited, cToR, k := ExtendRoute(p, alpha, draw, k0, visited0, cToR0, routeId);
    route := Route(routeId, path + [target], cdist + p.dist(path[|path| - 1], target), creward);
    CloseRoute(p, visited0, cToR0, routeId, path, visited, cToR);
  }

  /** The while loop of `constructive_heuristic`: the path from the source
      (with its leg sum and reward) once no customer can be appended, which
      is exactly where `Grow` ends from the bare source. */
  method ExtendRoute(p: Problem, alpha: real, draw: nat -> nat, k0: nat, visited0: set<nat>, cToR0: map<nat, nat>,
                     routeId: nat)
    returns (path: seq<nat>, cdist: real, creward: int, visited: set<nat>, cToR: map<nat, nat>, k: nat)
    requires p.Valid()
    requires 0 in visited0 && p.Sink() in visited0
    ensures Partial(p, visited0, cToR0, routeId, path, visited, cToR)
    ensures cdist == LegSum(p, path) && creward == RewardSum(p, path[1..])
    ensures |path| > 1 ==> cdist + p.dist(path[|path| - 1], p.Sink()) <= p.tmax
    ensures forall id :: !Extends(p, visited, path, id)
    ensures Growth(path, visited, k) == Grow(p, alpha, draw, k0, [0], visited0)
  {
    var source := 0;
    path := [source];
    var cnode := source;
    cdist, creward := 0.0, 0;
    visited, cToR, k := visited0, cToR0, k0;
    var customers := Candidates(p, alpha, visited, cnode, cdist, p.Size());
    while |customers| > 0
      invariant Growing(p, alpha, draw, k0, visited0, cToR0, routeId, path, cdist, creward, visited, cToR, k)
      invariant cnode == path[|path| - 1]
      invariant customers == CandidatesAfter(p, alpha, visited, path)
      decreases p.customers.Keys - visited
    {
      var cs := DrawOne(customers, StepValueOf, draw(k));
      path, cdist, creward, visited, cToR, k :=
        GrowTurn(p, alpha, draw, k0, visited0, cToR0, routeId, path, cdist, creward, visited, cToR, k, cs);
      cnode := cs.id;
      customers := Candidates(p, alpha, visited, cnode, cdist, p.Size());
    }
    NoneFeasible(p, alpha, visited, cnode, cdist);
  }

  /** The invariant of the while loop of `constructive_heuristic`: the path
      so far is consistent with visited and cToR, its sums are exact, it can
      still close within tmax, and growing it on from draw k ends where
      growing the bare source from draw k0 does. */
  ghost predicate Growing(p: Problem, alpha: real, draw: nat -> nat, k0: nat, visited0: set<nat>,
                          cToR0: map<nat, nat>, routeId: nat, path: seq<nat>, cdist: real, creward: int,
                          visited: set<nat>, cToR: map<nat, nat>, k: nat) {
    && Partial(p, visited0, cToR0, routeId, path, visited, cToR)
    && cdist == LegSum(p, path) && creward == RewardSum(p, path[1..])
    && (|path| > 1 ==> cdist + p.dist(path[|path| - 1], p.Sink()) <= p.tmax)
    && Grow(p, alpha, draw, k, path, visited) == Grow(p, alpha, draw, k0, [0], visited0)
  }

  /** One turn of the while loop of `constructive_heuristic`: the drawn
      candidate is visited and the next draw is used. */
  method GrowTurn(p: Problem, alpha: real, draw: nat -> nat, k0: nat, visited0: set<nat>, cToR0: map<nat, nat>,
                  routeId: nat, path: seq<nat>, cdist: real, creward: int, visited: set<nat>,
                  cToR: map<nat, nat>, k: nat, cs: ConstructiveStep)
    returns (path': seq<nat>, cdist': real, creward': int, visited': set<nat>, cToR': map<nat, nat>, k': nat)
    requires p.Valid() && 0 in visited0 && p.Sink() in visited0
    requires Growing(p, alpha, draw, k0, visited0, cToR0, routeId, path, cdist, creward, visited, cToR, k)
    requires CandidatesAfter(p, alpha, visited, path) != []
    requires cs == PopAt(SortDesc(CandidatesAfter(p, alpha, visited, path), StepValueOf), draw(k)).0
    ensures Growing(p, alpha, draw, k0, visited0, cToR0, routeId, path', cdist', creward', visited', cToR', k')
    ensures path' == path + [cs.id] && visited' == visited + {cs.id} && k' == k + 1
    ensures cs.id in p.customers && cs.id !in visited
  {
    GrowShift(p, alpha, draw, k0, visited0, k, path, visited, cs);
    ChosenCandidate(p, alpha, visited, path[|path| - 1], cdist, p.Size(), cs);
    path', cdist', creward', visited', cToR' := Visit(p, visited0, cToR0, routeId, path, cdist, creward, visited, cToR, cs);
    k' := k + 1;
  }

  /** The body of the while loop of `constructive_heuristic`: appends the
      drawn customer to the route, marks it visited, indexes it to the route
      and adds its leg and reward. */
  method Visit(p: Problem, visited0: set<nat>, cToR0: map<nat, nat>, routeId: nat, path: seq<nat>, cdist: real,
               creward: int, visited: set<nat>, cToR: map<nat, nat>, cs: ConstructiveStep)
    returns (path': seq<nat>, cdist': real, creward': int, visited': set<nat>, cToR': map<nat, nat>)
    requires p.Valid() && 0 in visited0 && p.Sink() in visited0
    requires Partial(p, visited0, cToR0, routeId, path, visited, cToR)
    requires cdist == LegSum(p, path) && creward == RewardSum(p, path[1..])
    requires Feasible(p, visited, path[|path| - 1], cdist, cs.id) && cs.customer == p.customers[cs.id]
    ensures Partial(p, visited0, cToR0, routeId, path', visited', cToR')
    ensures path' == path + [cs.id]
    ensures cdist' == LegSum(p, path') && creward' == RewardSum(p, path'[1..])
    ensures cdist' + p.dist(cs.id, p.Sink()) <= p.tmax
    ensures visited' == visited + {cs.id}
  {
    var nnode := cs.id;
    PartialStep(p, visited0, cToR0, routeId, path, visited, cToR, nnode);
    AppendFresh(p, path, nnode);
    visited' := visited + {nnode};
    cToR' := cToR[nnode := routeId];
    path' := path + [nnode];
    cdist' := cdist + p.dist(path[|path| - 1], nnode);
    creward' := creward + cs.customer.reward;
  }

  /** Appending a feasible customer keeps the route under construction
      consistent with visited and cToR. */
  lemma PartialStep(p: Problem, visited0: set<nat>, cToR0: map<nat, nat>, routeId: nat,
                    path: seq<nat>, visited: set<nat>, cToR: map<nat, nat>, n: nat)
    requires p.Valid() && 0 in visited0 && p.Sink() in visited0
    requires Partial(p, visited0, cToR0, routeId, path, visited, cToR)
    requires n in p.customers && n !in visited
    ensures Partial(p, visited0, cToR0, routeId, path + [n], visited + {n}, cToR[n := routeId])
  {
    var path' := path + [n];
    var tail := path[1..];
    assert path'[1..] == tail + [n];
    assert n !in tail && n !in visited0;
    assert 0 < n < p.Sink();
    NoDupConcat(tail, [n]);
  }

  /** The sums of a path after appending a new node. */
  lemma AppendFresh(p: Problem, path: seq<nat>, n: nat)
    requires path != []
    ensures LegSum(p, path + [n]) == LegSum(p, path) + p.dist(path[|path| - 1], n)
    ensures RewardSum(p, (path + [n])[1..]) == RewardSum(p, path[1..]) + RewardOf(p, n)
    ensures (path + [n])[1..] == path[1..] + [n]
  {
    LegSumAppend(p, path, [n]);
    assert (path + [n])[1..] == path[1..] + [n];
    RewardSumAppend(p, path[1..], [n]);
    assert [n][1..] == [];
  }

  /** An empty candidate list means no customer is feasible. */
  lemma NoneFeasible(p: Problem, alpha: real, visited: set<nat>, cnode: nat, cdist: real)
    requires p.Valid()
    requires Candidates(p, alpha, visited, cnode, cdist, p.Size()) == []
    ensures forall id :: !Feasible(p, visited, cnode, cdist, id)
  {
    forall id | Feasible(p, visited, cnode, cdist, id) ensures false {
      CandidatesComplete(p, alpha, visited, cnode, cdist, p.Size(), id);
    }
  }

  /** Closing a path at the sink: the route is well formed, its interior is
      the path after the source, and its leg sum gains the last leg. */
  lemma CloseRoute(p: Problem, visited0: set<nat>, cToR0: map<nat, nat>, routeId: nat,
                   path: seq<nat>, visited: set<nat>, cToR: map<nat, nat>)
    requires Partial(p, visited0, cToR0, routeId, path, visited, cToR)
    ensures Interior(path + [p.Sink()]) == path[1..]
    ensures WellFormed(p, path + [p.Sink()])
    ensures LegSum(p, path + [p.Sink()]) == LegSum(p, path) + p.dist(path[|path| - 1], p.Sink())
    ensures Front(path + [p.Sink()]) == path
  {
    LegSumAppend(p, path, [p.Sink()]);
    assert (path + [p.Sink()])[..|path|] == path;
  }

  /** A route is within budget, or has no customer at all (a truck that
      found nothing feasible keeps the bare source -> sink route). */
  ghost predicate BudgetOrEmpty(p: Problem, r: Route) {
    |r.customers| > 2 ==> r.length <= p.tmax
  }

  /** Route r is stored under key k and is well formed, exact and within
      budget unless empty. */
  ghost predicate GoodRoute(p: Problem, r: Route, k: nat) {
    && r.id == k && WellFormed(p, r.customers)
    && r.length == LegSum(p, r.customers)
    && r.reward == RewardSum(p, Interior(r.customers))
    && BudgetOrEmpty(p, r)
  }

  /** `constructive_heuristic`: builds one route per truck, numbered 0 to
      n_trucks-1, never visiting a customer twice. */
  method ConstructiveHeuristic(p: Problem, alpha: real, draw: nat -> nat) returns (sol: Solution)
    requires p.Valid()
    ensures fresh(sol)
    ensures sol.Valid(p)
    ensures |sol.routes| == p.nTrucks
    ensures forall k: nat :: k in sol.routes <==> k < p.nTrucks
    ensures LengthsExact(p, sol.routes) && RewardsExact(p, sol.routes)
    ensures forall k | k in sol.routes :: BudgetOrEmpty(p, sol.routes[k])
    ensures forall r: nat | r < p.nTrucks :: sol.routes[r].customers == Construct(p, alpha, draw, p.nTrucks).paths[r] + [p.Sink()]
  {
    var routes: map<nat, Route> := map[];
    var routeId: nat := 0;
    var source, target := 0, p.Sink();
    var visited: set<nat> := {source, target};
    var cToR: map<nat, nat> := map[];
    var k: nat := 0;
    for i := 0 to p.nTrucks
      invariant routeId == i
      invariant Fleet(p, i, routes, cToR, visited)
      invariant Traced(p, alpha, draw, i, routes, visited, k)
    {
      var routes', cToR', visited', k' := AddTruckRoute(p, alpha, draw, k, routes, cToR, visited, routeId);
      TracedStep(p, alpha, draw, i, routes, visited, k, routes', visited', k');
      routes, cToR, visited, k := routes', cToR', visited', k';
      routeId := routeId + 1;
    }
    sol := new Solution(routes, cToR);
    RangeKeysCard(routes, routeId);
    GoodRoutesValid(p, routes, cToR);
  }

  /** The invariant of the for loop of `constructive_heuristic` after n
      trucks: routes 0..n-1 are good and indexed, and the visited set is
      the depots plus the indexed customers. */
  ghost predicate Fleet(p: Problem, n: nat, routes: map<nat, Route>, cToR: map<nat, nat>, visited: set<nat>) {
    && (forall r: nat :: r in routes <==> r < n)
    && (forall r | r in routes :: GoodRoute(p, routes[r], r))
    && Indexed(routes, cToR)
    && visited == {0, p.Sink()} + cToR.Keys
  }

  /** Routes 0..n-1, the visited set and the draws used are those of
      `Construct` for n trucks. */
  ghost predicate Traced(p: Problem, alpha: real, draw: nat -> nat, n: nat, routes: map<nat, Route>,
                         visited: set<nat>, k: nat) {
    && Construct(p, alpha, draw, n).visited == visited && Construct(p, alpha, draw, n).draws == k
    && (forall r: nat | r < n :: r in routes && routes[r].customers == Construct(p, alpha, draw, n).paths[r] + [p.Sink()])
  }

  /** Adding truck n's route as `AddTruckRoute` does keeps the trace. */
  lemma TracedStep(p: Problem, alpha: real, draw: nat -> nat, n: nat, routes: map<nat, Route>,
                   visited: set<nat>, k: nat, routes': map<nat, Route>, visited': set<nat>, k': nat)
    requires Traced(p, alpha, draw, n, routes, visited, k)
    requires forall r | r in routes :: r in routes' && routes'[r] == routes[r]
    requires n in routes'
    requires var g := Grow(p, alpha, draw, k, [0], visited);
      routes'[n].customers == g.path + [p.Sink()] && visited' == g.visited && k' == g.draws
    ensures Traced(p, alpha, draw, n + 1, routes', visited', k')
  {
    ConstructNext(p, alpha, draw, n);
    var c := Construct(p, alpha, draw, n);
    var g := Grow(p, alpha, draw, c.draws, [0], c.visited);
    RoutesMatch(routes, routes', c.paths, g.path, n, p.Sink());
  }

  /** Routes 0..n-1 kept and route n added match the paths extended by the
      new one. */
  lemma RoutesMatch(routes: map<nat, Route>, routes': map<nat, Route>, paths: seq<seq<nat>>, path: seq<nat>,
                    n: nat, sink: nat)
    requires |paths| == n
    requires forall r: nat | r < n :: r in routes && routes[r].customers == paths[r] + [sink]
    requires forall r | r in routes :: r in routes' && routes'[r] == routes[r]
    requires n in routes' && routes'[n].customers == path + [sink]
    ensures forall r: nat | r < n + 1 :: r in routes' && routes'[r].customers == (paths + [path])[r] + [sink]
  {
  }

  /** One iteration of the for loop of `constructive_heuristic`: builds the
      route of truck routeId and stores it under that id. */
  method AddTruckRoute(p: Problem, alpha: real, draw: nat -> nat, k0: nat, routes: map<nat, Route>,
                       cToR: map<nat, nat>, visited: set<nat>, routeId: nat)
    returns (routes': map<nat, Route>, cToR': map<nat, nat>, visited': set<nat>, k: nat)
    requires p.Valid()
    requires Fleet(p, routeId, routes, cToR, visited)
    ensures Fleet(p, routeId + 1, routes', cToR', visited')
    ensures forall r | r in routes :: r in routes' && routes'[r] == routes[r]
    ensures var g := Grow(p, alpha, draw, k0, [0], visited);
      routes'[routeId].customers == g.path + [p.Sink()] && visited' == g.visited && k == g.draws
  {
    var route;
    route, visited', cToR', k := BuildRoute(p, alpha, draw, k0, visited, cToR, routeId);
    routes' := routes[routeId := route];
    AddRouteSound(routes, cToR, route, cToR');
    AddRouteComplete(routes, cToR, visited, route, cToR');
    VisitedStep(visited, cToR, visited', cToR', Interior(route.customers), 0, p.Sink());
  }

  /** Visiting the customers of a new route keeps the visited set equal to
      the depots plus the indexed customers. */
  lemma VisitedStep(visited: set<nat>, cToR: map<nat, nat>, visited': set<nat>, cToR': map<nat, nat>,
                    added: seq<nat>, source: nat, target: nat)
    requires visited == {source, target} + cToR.Keys
    requires forall c :: c in visited' <==> c in visited || c in added
    requires forall c :: c in cToR' <==> c in cToR || c in added
    ensures visited' == {source, target} + cToR'.Keys
  {
  }

  /** Routes that are all good and consistently indexed form a valid
      solution with exact lengths and rewards. */
  lemma GoodRoutesValid(p: Problem, routes: map<nat, Route>, cToR: map<nat, nat>)
    requires forall r | r in routes :: GoodRoute(p, routes[r], r)
    requires Indexed(routes, cToR)
    ensures SolutionValid(p, routes, cToR)
    ensures LengthsExact(p, routes) && RewardsExact(p, routes)
    ensures forall k | k in routes :: BudgetOrEmpty(p, routes[k])
  {
  }

  /** Adding a well-formed route of customers nobody visited yet, indexed to
      the route, keeps the solution valid. */
  lemma AddRouteValid(p: Problem, routes: map<nat, Route>, cToR: map<nat, nat>, visited: set<nat>,
                      route: Route, cToR': map<nat, nat>)
    requires SolutionValid(p, routes, cToR) && route.id !in routes
    requires WellFormed(p, route.customers)
    requires forall c | c in Interior(route.customers) :: c !in visited
    requires forall c | c in cToR :: c in visited
    requires forall c :: c in cToR' <==> c in cToR || c in Interior(route.customers)
    requires forall c | c in cToR' :: cToR'[c] == if c in Interior(route.customers) then route.id else cToR[c]
    ensures SolutionValid(p, routes[route.id := route], cToR')
  {
    AddRouteSound(routes, cToR, route, cToR');
    AddRouteComplete(routes, cToR, visited, route, cToR');
  }

  lemma AddRouteSound(routes: map<nat, Route>, cToR: map<nat, nat>, route: Route, cToR': map<nat, nat>)
    requires IndexSound(routes, cToR) && route.id !in routes
    requires forall c :: c in cToR' <==> c in cToR || c in Interior(route.customers)
    requires forall c | c in cToR' :: cToR'[c] == if c in Interior(route.customers) then route.id else cToR[c]
    ensures IndexSound(routes[route.id := route], cToR')
  {
    var routes' := routes[route.id := route];
    forall c | c in cToR'
      ensures cToR'[c] in routes' && c in Interior(routes'[cToR'[c]].customers)
    {
      if c !in Interior(route.customers) {
        assert routes'[cToR[c]] == routes[cToR[c]];
      }
    }
  }

  lemma AddRouteComplete(routes: map<nat, Route>, cToR: map<nat, nat>, visited: set<nat>,
                         route: Route, cToR': map<nat, nat>)
    requires IndexComplete(routes, cToR) && route.id !in routes
    requires forall c | c in Interior(route.customers) :: c !in visited
    requires forall c | c in cToR :: c in visited
    requires forall c :: c in cToR' <==> c in cToR || c in Interior(route.customers)
    requires forall c | c in cToR' :: cToR'[c] == if c in Interior(route.customers) then route.id else cToR[c]
    ensures IndexComplete(routes[route.id := route], cToR')
  {
    var routes' := routes[route.id := route];
    forall r, c | r in routes' && c in Interior(routes'[r].customers)
      ensures c in cToR' && cToR'[c] == r
    {
      if r != route.id {
        IndexedAt(routes, cToR, r, c);
      }
    }
  }
}
