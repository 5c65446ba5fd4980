/**
 * Data model of the Team Orienteering solver (src/top/problem.py):
 * customers, the problem instance, routes and solutions, and the sums the
 * rest of the model is stated in (leg sums of a route, reward of a route's
 * customers, reward and length of a solution).
 *
 * Node 0 is the source depot and node N-1 the sink depot; every route runs
 * from the source to the sink. Distances are an abstract symmetric,
 * non-negative function standing for the Euclidean table of `read_instance`.
 */
module TopProblem {

  datatype Customer = Customer(id: nat, x: real, y: real, reward: int)

  /** An immutable problem instance; `dist` stands for the table `dists`. */
  datatype Problem = Problem(
    instance: string,
    nTrucks: nat,
    tmax: real,
    customers: map<nat, Customer>,
    dist: (nat, nat) -> real)
  {
    /** N, the number of nodes, depots included. */
    function Size(): nat { |customers| }

    /** The sink depot, N-1 (an instance always has both depots, see Valid). */
    function Sink(): nat { if |customers| == 0 then 0 else |customers| - 1 }

    /** Ids are 0..N-1, each customer knows its id, the source and the sink are
        distinct nodes, and distances are symmetric and non-negative. */
    ghost predicate Valid() {
      && |customers| >= 2
      && (forall i: nat :: i in customers <==> i < |customers|)
      && (forall i | i in customers :: customers[i].id == i)
      && (forall a, b :: dist(a, b) == dist(b, a) && dist(a, b) >= 0.0)
    }
  }

  /** A route: ids from the source to the sink, its length and its reward. */
  datatype Route = Route(id: nat, customers: seq<nat>, length: real, reward: int)

  /** The reward of node c (0 for an id the instance does not have). */
  function RewardOf(p: Problem, c: nat): int {
    if c in p.customers then p.customers[c].reward else 0
  }

  /** Sum of the distances of consecutive legs of s. */
  function LegSum(p: Problem, s: seq<nat>): real
    decreases |s|
  {
    if |s| < 2 then 0.0 else p.dist(s[0], s[1]) + LegSum(p, s[1..])
  }

  /** Sum of the rewards of the nodes of s. */
  function RewardSum(p: Problem, s: seq<nat>): int
    decreases |s|
  {
    if s == [] then 0 else RewardOf(p, s[0]) + RewardSum(p, s[1..])
  }

  /** The nodes of s. */
  ghost function Nodes(s: seq<nat>): set<nat> {
    set c | c in s
  }

  /** The customers strictly between the two depots. */
  function Interior(s: seq<nat>): seq<nat> {
    if |s| < 2 then [] else s[1..|s| - 1]
  }

  /** No element occurs twice. */
  ghost predicate NoDup<T>(s: seq<T>) {
    forall x | x in s :: multiset(s)[x] == 1
  }

  /** A route's id sequence: source first, sink last, customers in between
      that are neither depot, no id twice. */
  ghost predicate WellFormed(p: Problem, s: seq<nat>) {
    && |s| >= 2
    && s[0] == 0
    && s[|s| - 1] == p.Sink()
    && (forall c | c in Interior(s) :: 0 < c < p.Sink())
    && NoDup(Interior(s))
  }

  /** The reverse index maps exactly the interior customers of the routes, each
      to the route that visits it (so no customer is on two routes). */
  ghost predicate Indexed(routes: map<nat, Route>, cToR: map<nat, nat>) {
    IndexSound(routes, cToR) && IndexComplete(routes, cToR)
  }

  /** Every indexed customer is visited by the route it is indexed to. */
  ghost predicate IndexSound(routes: map<nat, Route>, cToR: map<nat, nat>) {
    forall c | c in cToR :: cToR[c] in routes && c in Interior(routes[cToR[c]].customers)
  }

  /** Every customer a route visits is indexed to that route. */
  ghost predicate IndexComplete(routes: map<nat, Route>, cToR: map<nat, nat>) {
    forall k, c | k in routes && c in Interior(routes[k].customers) :: c in cToR && cToR[c] == k
  }

  /** Routes are stored under their own id, are well formed, and the reverse
      index mirrors route membership. */
  ghost predicate SolutionValid(p: Problem, routes: map<nat, Route>, cToR: map<nat, nat>) {
    && (forall k | k in routes :: routes[k].id == k && WellFormed(p, routes[k].customers))
    && Indexed(routes, cToR)
  }

  ghost predicate WithinBudget(p: Problem, routes: map<nat, Route>) {
    forall k | k in routes :: routes[k].length <= p.tmax
  }

  /** Every recorded length equals the leg sum of the route. */
  ghost predicate LengthsExact(p: Problem, routes: map<nat, Route>) {
    forall k | k in routes :: routes[k].length == LegSum(p, routes[k].customers)
  }

  /** Every recorded reward equals the sum of the rewards of the route's customers. */
  ghost predicate RewardsExact(p: Problem, routes: map<nat, Route>) {
    forall k | k in routes :: routes[k].reward == RewardSum(p, Interior(routes[k].customers))
  }

  /** The smallest element of a non-empty set of ids. */
  function MinKey(s: set<nat>): (k: nat)
    requires s != {}
    ensures k in s && forall j | j in s :: k <= j
  {
    MinExists(s);
    var k :| IsMin(s, k);
    k
  }

  predicate IsMin(s: set<nat>, k: nat) {
    k in s && forall j | j in s :: k <= j
  }

  lemma {:induction false} MinExists(s: set<nat>)
    requires s != {}
    ensures exists k :: IsMin(s, k)
    decreases |s|
  {
    var x :| x in s;
    var r := s - {x};
    assert s == r + {x};
    if r == {} {
      assert IsMin(s, x);
    } else {
      MinExists(r);
      var k :| IsMin(r, k);
      if x < k {
        assert IsMin(s, x);
      } else {
        assert IsMin(s, k);
      }
    }
  }

  /** Sum of the rewards of the routes (the property `Solution.reward`). */
  function RewardTotal(routes: map<nat, Route>): int
    decreases |routes|
  {
    if routes == map[] then 0
    else
      var k := MinKey(routes.Keys);
      routes[k].reward + RewardTotal(routes - {k})
  }

  /** Sum of the lengths of the routes (what `Solution.length` is meant to be). */
  function LengthTotal(routes: map<nat, Route>): real
    decreases |routes|
  {
    if routes == map[] then 0.0
    else
      var k := MinKey(routes.Keys);
      routes[k].length + LengthTotal(routes - {k})
  }

  /** The reward of a solution does not depend on which route is summed first:
      it is any one route's reward plus the reward of the others. */
  lemma {:induction false} RewardTotalRemove(routes: map<nat, Route>, k: nat)
    requires k in routes
    ensures RewardTotal(routes) == routes[k].reward + RewardTotal(routes - {k})
    decreases |routes|
  {
    var m := MinKey(routes.Keys);
    if m != k {
      var rest := routes - {m};
      assert k in rest;
      RewardTotalRemove(rest, k);
      var restK := routes - {k};
      assert m in restK;
      assert MinKey(restK.Keys) == m;
      assert restK - {m} == rest - {k};
    }
  }

  /** Replacing one route changes the solution's reward by the difference of
      the two routes' rewards; adding a new route adds its reward. */
  lemma RewardTotalUpdate(routes: map<nat, Route>, k: nat, r: Route)
    ensures k in routes ==> RewardTotal(routes[k := r]) == RewardTotal(routes) - routes[k].reward + r.reward
    ensures k !in routes ==> RewardTotal(routes[k := r]) == RewardTotal(routes) + r.reward
  {
    var m := routes[k := r];
    RewardTotalRemove(m, k);
    assert m - {k} == routes - {k};
    if k in routes {
      RewardTotalRemove(routes, k);
    } else {
      assert routes - {k} == routes;
    }
  }

  /** The total length of a solution is any one route's length plus the total
      length of the others: every route is counted once, in any order. */
  lemma {:induction false} LengthTotalRemove(routes: map<nat, Route>, k: nat)
    requires k in routes
    ensures LengthTotal(routes) == routes[k].length + LengthTotal(routes - {k})
    decreases |routes|
  {
    var m := MinKey(routes.Keys);
    if m != k {
      var rest := routes - {m};
      assert k in rest;
      LengthTotalRemove(rest, k);
      var restK := routes - {k};
      assert m in restK;
      assert MinKey(restK.Keys) == m;
      assert restK - {m} == rest - {k};
    }
  }

  /** What evaluating a Python expression gives: a value or a NameError. */
  datatype Eval<T> = Value(value: T) | NameError(name: string)

  /** A solution: routes by id and the reverse index customer -> route id.
      `savings_heuristic` and `merge_routes` update both fields in place. */
  class Solution {
    var routes: map<nat, Route>
    var cToR: map<nat, nat>

    constructor (routes: map<nat, Route>, cToR: map<nat, nat>)
      ensures this.routes == routes && this.cToR == cToR
    {
      this.routes := routes;
      this.cToR := cToR;
    }

    ghost predicate Valid(p: Problem)
      reads this
    {
      SolutionValid(p, routes, cToR)
    }

    /** `Solution.length` as written: its body names `routes`, which is not
        bound in that scope, so every evaluation raises NameError. */
    function LengthAsWritten(): (r: Eval<real>)
      reads this
      ensures r.NameError? && r.name == "routes"
    {
      NameError("routes")
    }

    /** `Solution.length` as intended: the sum of the lengths of the routes. */
    function Length(): real
      reads this
    {
      LengthTotal(routes)
    }
  }

  /** The as-written length never yields the total length of the routes, even
      for a solution with one route, while the corrected one does. */
  lemma LengthAsWrittenRaises(s: Solution, r: Route)
    requires s.routes == map[r.id := r]
    ensures s.LengthAsWritten() != Value(s.Length())
    ensures s.Length() == r.length
  {
    var m := s.routes;
    assert r.id in m.Keys;
    assert MinKey(m.Keys) == r.id;
    assert m - {r.id} == map[];
    assert LengthTotal(m) == r.length + LengthTotal(map[]);
  }

  /** The customer table of `read_instance`: row i of the file becomes the
      customer with id i, so the source is row 0 and the sink the last row. */
  method ReadCustomers(rows: seq<(real, real, int)>) returns (customers: map<nat, Customer>)
    ensures |customers| == |rows|
    ensures forall i: nat :: i in customers <==> i < |rows|
    ensures forall i | 0 <= i < |rows| :: customers[i] == Customer(i, rows[i].0, rows[i].1, rows[i].2)
  {
    customers := map[];
    for i := 0 to |rows|
      invariant |customers| == i
      invariant forall j: nat :: j in customers <==> j < i
      invariant forall j | 0 <= j < i :: customers[j] == Customer(j, rows[j].0, rows[j].1, rows[j].2)
    {
      var (x, y, reward) := rows[i];
      customers := customers[i := Customer(i, x, y, reward)];
    }
  }

  /** The distance table of `read_instance`: for each pair of ids a < b, taken
      in the order of `itertools.combinations`, the distance between the two
      customers is stored under (a, b) and (b, a). `euclid` stands for the
      rounded Euclidean distance of two customers. */
  method BuildDistances(customers: map<nat, Customer>, euclid: (Customer, Customer) -> real)
    returns (dists: map<(nat, nat), real>)
    requires forall i: nat :: i in customers <==> i < |customers|
    ensures forall a: nat, b: nat :: (a, b) in dists <==> a < |customers| && b < |customers| && a != b
    ensures forall a: nat, b: nat | (a, b) in dists :: (b, a) in dists && dists[(a, b)] == dists[(b, a)]
    ensures forall a: nat, b: nat | (a, b) in dists && a < b :: dists[(a, b)] == euclid(customers[a], customers[b])
  {
    var n := |customers|;
    dists := map[];
    for a := 0 to n
      invariant forall i: nat, j: nat :: (i, j) in dists <==> i != j && i < n && j < n && (i < a || j < a)
      invariant forall i: nat, j: nat | (i, j) in dists :: (j, i) in dists && dists[(i, j)] == dists[(j, i)]
      invariant forall i: nat, j: nat | (i, j) in dists && i < j :: dists[(i, j)] == euclid(customers[i], customers[j])
    {
      for b := a + 1 to n
        invariant forall i: nat, j: nat :: (i, j) in dists <==>
          i != j && i < n && j < n && (i < a || j < a || (i == a && j < b) || (j == a && i < b))
        invariant forall i: nat, j: nat | (i, j) in dists :: (j, i) in dists && dists[(i, j)] == dists[(j, i)]
        invariant forall i: nat, j: nat | (i, j) in dists && i < j :: dists[(i, j)] == euclid(customers[i], customers[j])
      {
        var distance := euclid(customers[a], customers[b]);
        dists := dists[(a, b) := distance];
        dists := dists[(b, a) := distance];
      }
    }
  }

  /** Reading the table as a distance function (pairs it lacks read as 0). */
  function TableDistance(dists: map<(nat, nat), real>): (nat, nat) -> real {
    (a: nat, b: nat) => if (a, b) in dists then dists[(a, b)] else 0.0
  }

  /** A table built by BuildDistances from a non-negative distance gives a
      valid problem: the table's symmetry is what Problem.Valid() asks of dist. */
  lemma TableProblemValid(instance: string, nTrucks: nat, tmax: real,
                          customers: map<nat, Customer>, dists: map<(nat, nat), real>)
    requires |customers| >= 2
    requires forall i: nat :: i in customers <==> i < |customers|
    requires forall i | i in customers :: customers[i].id == i
    requires forall a: nat, b: nat | (a, b) in dists :: (b, a) in dists && dists[(a, b)] == dists[(b, a)]
    requires forall a: nat, b: nat | (a, b) in dists :: dists[(a, b)] >= 0.0
    ensures Problem(instance, nTrucks, tmax, customers, TableDistance(dists)).Valid()
  {
    var d := TableDistance(dists);
    forall a: nat, b: nat ensures d(a, b) == d(b, a) && d(a, b) >= 0.0 {
      if (a, b) in dists {
        assert (b, a) in dists;
      }
    }
  }

  // ---------------------------------------------------------------------
  // Leg sums

  /** The leg sum of a concatenation: the two parts plus the joining leg. */
  lemma {:induction false} LegSumAppend(p: Problem, a: seq<nat>, b: seq<nat>)
    requires a != [] && b != []
    ensures LegSum(p, a + b) == LegSum(p, a) + p.dist(a[|a| - 1], b[0]) + LegSum(p, b)
    decreases |a|
  {
    if |a| == 1 {
      assert (a + b)[1..] == b;
    } else {
      assert (a + b)[1..] == a[1..] + b;
      LegSumAppend(p, a[1..], b);
    }
  }

  /** Sequence s reversed. */
  function Reversed(s: seq<nat>): (r: seq<nat>)
    ensures |r| == |s|
    ensures forall k | 0 <= k < |s| :: r[k] == s[|s| - 1 - k]
  {
    seq(|s|, k requires 0 <= k < |s| => s[|s| - 1 - k])
  }

  /** With symmetric distances a route read backwards has the same length. */
  lemma {:induction false} LegSumReversed(p: Problem, s: seq<nat>)
    requires p.Valid()
    ensures LegSum(p, Reversed(s)) == LegSum(p, s)
    decreases |s|
  {
    if |s| >= 2 {
      var t := s[1..];
      LegSumReversed(p, t);
      assert Reversed(s) == Reversed(t) + [s[0]];
      LegSumAppend(p, Reversed(t), [s[0]]);
      assert p.dist(t[0], s[0]) == p.dist(s[0], s[1]);
    }
  }

  // ---------------------------------------------------------------------
  // Reward sums

  lemma {:induction false} RewardSumAppend(p: Problem, a: seq<nat>, b: seq<nat>)
    ensures RewardSum(p, a + b) == RewardSum(p, a) + RewardSum(p, b)
    decreases |a|
  {
    if a != [] {
      assert (a + b)[1..] == a[1..] + b;
      RewardSumAppend(p, a[1..], b);
    } else {
      assert a + b == b;
    }
  }

  /** Taking one node out of a sequence takes its reward out of the sum. */
  lemma RewardSumRemoveAt(p: Problem, b: seq<nat>, k: nat)
    requires k < |b|
    ensures RewardSum(p, b) == RewardOf(p, b[k]) + RewardSum(p, b[..k] + b[k + 1..])
  {
    assert b == b[..k] + ([b[k]] + b[k + 1..]);
    RewardSumAppend(p, b[..k], [b[k]] + b[k + 1..]);
    RewardSumAppend(p, b[..k], b[k + 1..]);
    assert ([b[k]] + b[k + 1..])[1..] == b[k + 1..];
  }

  /** The reward of a set of customers does not depend on their order. */
  lemma {:induction false} RewardSumPermutation(p: Problem, a: seq<nat>, b: seq<nat>)
    requires multiset(a) == multiset(b)
    ensures RewardSum(p, a) == RewardSum(p, b)
    decreases |a|
  {
    if a != [] {
      assert a[0] in multiset(b);
      var k :| 0 <= k < |b| && b[k] == a[0];
      var b' := b[..k] + b[k + 1..];
      MultisetRemoveAt(b, k);
      assert a == [a[0]] + a[1..];
      assert multiset(a[1..]) == multiset(a) - multiset{a[0]};
      RewardSumPermutation(p, a[1..], b');
      RewardSumRemoveAt(p, b, k);
    }
  }

  lemma MultisetRemoveAt(b: seq<nat>, k: nat)
    requires k < |b|
    ensures multiset(b[..k] + b[k + 1..]) == multiset(b) - multiset{b[k]}
  {
    assert b == b[..k] + [b[k]] + b[k + 1..];
  }

  // ---------------------------------------------------------------------
  // Interiors of well-formed routes

  /** Two id sequences that are permutations of each other with the same
      first and last element have interiors that are permutations too. */
  lemma InteriorPermutation(a: seq<nat>, b: seq<nat>)
    requires |a| >= 2 && multiset(a) == multiset(b) && |a| == |b|
    requires a[0] == b[0] && a[|a| - 1] == b[|b| - 1]
    ensures multiset(Interior(a)) == multiset(Interior(b))
  {
    assert a == [a[0]] + Interior(a) + [a[|a| - 1]];
    assert b == [b[0]] + Interior(b) + [b[|b| - 1]];
    var ends := multiset{a[0]} + multiset{a[|a| - 1]};
    assert multiset(a) == multiset{a[0]} + multiset(Interior(a)) + multiset{a[|a| - 1]};
    assert multiset(b) == multiset{b[0]} + multiset(Interior(b)) + multiset{b[|b| - 1]};
    assert multiset(Interior(a)) == multiset(a) - ends;
    assert multiset(Interior(b)) == multiset(b) - ends;
  }

  /** A permutation of a well-formed route that keeps both ends is well
      formed, with the same interior customers. */
  lemma WellFormedPermutation(p: Problem, a: seq<nat>, b: seq<nat>)
    requires WellFormed(p, a)
    requires multiset(a) == multiset(b) && |a| == |b|
    requires a[0] == b[0] && a[|a| - 1] == b[|b| - 1]
    ensures WellFormed(p, b)
    ensures multiset(Interior(a)) == multiset(Interior(b))
    ensures forall c :: c in Interior(a) <==> c in Interior(b)
  {
    InteriorPermutation(a, b);
    forall c ensures c in Interior(a) <==> c in Interior(b) {
      assert c in Interior(a) <==> c in multiset(Interior(a));
      assert c in Interior(b) <==> c in multiset(Interior(b));
    }
  }

  /** Two duplicate-free sequences with no common element concatenate to a
      duplicate-free sequence. */
  lemma NoDupConcat<T>(a: seq<T>, b: seq<T>)
    requires NoDup(a) && NoDup(b)
    requires forall x | x in a :: x !in b
    ensures NoDup(a + b)
  {
    forall x | x in a + b ensures multiset(a + b)[x] == 1 {
      assert multiset(a + b) == multiset(a) + multiset(b);
      if x in a {
        assert x !in multiset(b);
      } else {
        assert x in b;
        assert x !in multiset(a);
      }
    }
  }

  /** A prefix of a duplicate-free sequence is duplicate free, and the
      element after the prefix is not in it. */
  lemma NoDupPrefix<T>(s: seq<T>, m: nat)
    requires NoDup(s) && m <= |s|
    ensures NoDup(s[..m])
    ensures m < |s| ==> s[m] !in s[..m]
  {
    assert s == s[..m] + s[m..];
    assert multiset(s) == multiset(s[..m]) + multiset(s[m..]);
    forall x | x in s[..m] ensures multiset(s[..m])[x] == 1 {
      assert x in s;
    }
    if m < |s| {
      assert s[m] in multiset(s[m..]);
      assert multiset(s)[s[m]] == 1;
    }
  }

  /** On a well-formed route, a node is interior exactly when it is on the
      route and is not a depot. */
  lemma InteriorMembers(p: Problem, s: seq<nat>, c: nat)
    requires WellFormed(p, s)
    ensures c in Interior(s) <==> c in s && c != 0 && c != p.Sink()
  {
    assert s == [s[0]] + Interior(s) + [s[|s| - 1]];
  }
}
