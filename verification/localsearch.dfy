/**
 * The local search operators of src/top/localsearch.py: the 2-opt
 * improvement of one route, and the three moves of the metaheuristics,
 * `insert`, `remove` and `shaking`, which work on copies of a solution's
 * route table and reverse index.
 *
 * The random route (`random.choice`) and the random position
 * (`random.randrange`) are oracle arguments; `shaking` hands the selector's
 * raw indices to the savings heuristic as the stream `draw`.
 */
module LocalSearch {
  import opened TopProblem
  import opened Heuristic
  import opened BraSelection

  // ---------------------------------------------------------------------
  // 2-opt

  /** s with the positions i..j-1 read backwards: `customers[i:j] =
      reversed(customers[i:j])`. */
  function Flip(s: seq<nat>, i: nat, j: nat): (r: seq<nat>)
    requires i <= j <= |s|
    ensures |r| == |s|
    ensures forall k | 0 <= k < |s| :: r[k] == if i <= k < j then s[i + j - 1 - k] else s[k]
  {
    s[..i] + Reversed(s[i..j]) + s[j..]
  }

  /** The two legs that reversing i..j-1 removes. */
  function CutLegs(p: Problem, s: seq<nat>, i: nat, j: nat): real
    requires 1 <= i < j < |s|
  {
    p.dist(s[i - 1], s[i]) + p.dist(s[j - 1], s[j])
  }

  /** The two legs that reversing i..j-1 puts in their place. */
  function JoinLegs(p: Problem, s: seq<nat>, i: nat, j: nat): real
    requires 1 <= i < j < |s|
  {
    p.dist(s[i - 1], s[j - 1]) + p.dist(s[i], s[j])
  }

  /** The pair (i, j) is one that `opt2` scans (1 <= i, i + 2 <= j < len)
      and reversing i..j-1 shortens the route. */
  ghost predicate Improving(p: Problem, s: seq<nat>, i: nat, j: nat) {
    1 <= i && i + 2 <= j < |s| && JoinLegs(p, s, i, j) < CutLegs(p, s, i, j)
  }

  /** No pair that `opt2` scans shortens the route: a 2-opt local optimum. */
  ghost predicate TwoOptimal(p: Problem, s: seq<nat>) {
    forall i: nat, j: nat :: !Improving(p, s, i, j)
  }

  lemma {:induction false} ReversedMultiset(s: seq<nat>)
    ensures multiset(Reversed(s)) == multiset(s)
    decreases |s|
  {
    if s != [] {
      ReversedMultiset(s[1..]);
      assert Reversed(s) == Reversed(s[1..]) + [s[0]];
      assert s == [s[0]] + s[1..];
    }
  }

  /** Reversing an inner segment permutes the route, keeps both ends, and
      changes its leg sum by exactly the two legs it exchanges (the segment
      itself reads the same both ways because distances are symmetric). */
  lemma FlipFacts(p: Problem, s: seq<nat>, i: nat, j: nat)
    requires p.Valid() && 1 <= i < j < |s|
    ensures multiset(Flip(s, i, j)) == multiset(s)
    ensures Flip(s, i, j)[0] == s[0] && Flip(s, i, j)[|s| - 1] == s[|s| - 1]
    ensures LegSum(p, Flip(s, i, j)) == LegSum(p, s) - CutLegs(p, s, i, j) + JoinLegs(p, s, i, j)
  {
    var a, m, b := s[..i], s[i..j], s[j..];
    assert s == a + m + b;
    assert Flip(s, i, j) == a + Reversed(m) + b;
    ReversedMultiset(m);
    LegSumReversed(p, m);
    LegSumThree(p, a, m, b);
    LegSumThree(p, a, Reversed(m), b);
  }

  /** The leg sum of three non-empty pieces joined together. */
  lemma LegSumThree(p: Problem, a: seq<nat>, m: seq<nat>, b: seq<nat>)
    requires a != [] && m != [] && b != []
    ensures LegSum(p, a + m + b) ==
      LegSum(p, a) + p.dist(a[|a| - 1], m[0]) + LegSum(p, m) + p.dist(m[|m| - 1], b[0]) + LegSum(p, b)
  {
    var am := a + m;
    LegSumAppend(p, a, m);
    LegSumAppend(p, am, b);
    assert am[|am| - 1] == m[|m| - 1];
  }

  /** Every sequence of length n over the nodes e. */
  ghost function Words(e: set<nat>, n: nat): set<seq<nat>> {
    if n == 0 then {[]} else set w, x | w in Words(e, n - 1) && x in e :: w + [x]
  }

  lemma {:induction false} WordsMember(e: set<nat>, q: seq<nat>)
    requires forall k | 0 <= k < |q| :: q[k] in e
    ensures q in Words(e, |q|)
    decreases |q|
  {
    if q == [] {
      assert Words(e, 0) == {[]};
    } else {
      var w, x := q[..|q| - 1], q[|q| - 1];
      WordsMember(e, w);
      assert q == w + [x];
    }
  }

  /** The arrangements of length n over e strictly shorter than bound: a
      finite set, so a strictly falling leg sum cannot fall forever. */
  ghost function Shorter(p: Problem, e: set<nat>, n: nat, bound: real): set<seq<nat>> {
    set q | q in Words(e, n) && LegSum(p, q) < bound
  }

  /** A rearrangement of s with a smaller leg sum than q0 has fewer shorter
      arrangements than q0. */
  lemma ShorterShrinks(p: Problem, s: seq<nat>, q0: seq<nat>, q1: seq<nat>)
    requires multiset(q1) == multiset(s) && |q1| == |s| && LegSum(p, q1) < LegSum(p, q0)
    ensures |Shorter(p, Nodes(s), |s|, LegSum(p, q1))| < |Shorter(p, Nodes(s), |s|, LegSum(p, q0))|
  {
    var e, n := Nodes(s), |s|;
    forall k | 0 <= k < |q1| ensures q1[k] in e {
      assert q1[k] in multiset(s);
    }
    WordsMember(e, q1);
    var small, large := Shorter(p, e, n, LegSum(p, q1)), Shorter(p, e, n, LegSum(p, q0));
    forall q | q in small ensures q in large {
      assert q in Words(e, n) && LegSum(p, q) < LegSum(p, q1);
    }
    assert q1 in large && q1 !in small;
    ProperSubsetCard(small, large, q1);
  }

  lemma ProperSubsetCard<T>(small: set<T>, large: set<T>, x: T)
    requires small <= large && x in large && x !in small
    ensures |small| < |large|
  {
    assert large == small + (large - small);
    assert small * (large - small) == {};
    assert x in large - small;
  }

  /** Reverses a[i..j-1] in place by swapping from both ends. */
  method ReverseSegment(a: array<nat>, i: nat, j: nat)
    requires i <= j <= a.Length
    modifies a
    ensures a[..] == Flip(old(a[..]), i, j)
  {
    ghost var s := a[..];
    var lo, hi := i, j;
    while lo + 1 < hi
      invariant i <= lo <= hi <= j && lo - i == j - hi
      invariant forall k | 0 <= k < a.Length && !(i <= k < lo || hi <= k < j) :: a[k] == s[k]
      invariant forall k | i <= k < lo || hi <= k < j :: a[k] == s[i + j - 1 - k]
    {
      a[lo], a[hi - 1] := a[hi - 1], a[lo];
      lo, hi := lo + 1, hi - 1;
    }
    assert forall k | 0 <= k < a.Length :: a[k] == Flip(s, i, j)[k];
  }

  /** One test of the inner loop of `opt2`: reverses i..j-1 when that
      shortens the route, updating the running length by the delta. */
  method TryPair(p: Problem, a: array<nat>, i: nat, j: nat, length: real) returns (flipped: bool, length': real)
    requires p.Valid() && 1 <= i && i + 2 <= j < a.Length
    modifies a
    ensures flipped == Improving(p, old(a[..]), i, j)
    ensures flipped ==> a[..] == Flip(old(a[..]), i, j)
    ensures multiset(a[..]) == multiset(old(a[..]))
    ensures a[0] == old(a[0]) && a[a.Length - 1] == old(a[a.Length - 1])
    ensures length' - LegSum(p, a[..]) == length - LegSum(p, old(a[..]))
    ensures flipped ==> length' < length && LegSum(p, a[..]) < LegSum(p, old(a[..]))
    ensures !flipped ==> a[..] == old(a[..]) && length' == length
  {
    ghost var s := a[..];
    var currentDist := p.dist(a[i - 1], a[i]) + p.dist(a[j - 1], a[j]);
    var newDist := p.dist(a[i - 1], a[j - 1]) + p.dist(a[i], a[j]);
    flipped, length' := false, length;
    if newDist < currentDist {
      ReverseSegment(a, i, j);
      length' := length - currentDist + newDist;
      flipped := true;
      FlipFacts(p, s, i, j);
      assert a[..] == Flip(s, i, j);
      assert a[0] == a[..][0] && a[a.Length - 1] == a[..][a.Length - 1];
    }
  }

  /** The inner loop of a sweep: tests (i, j) for j = i+2 .. len-1 on the
      route as it is being changed. Nothing changes unless one of the pairs,
      tested on the unchanged route, improves it. */
  method ScanRow(p: Problem, a: array<nat>, i: nat, length: real) returns (improved: bool, length': real)
    requires p.Valid() && 1 <= i && i + 2 < a.Length
    modifies a
    ensures multiset(a[..]) == multiset(old(a[..]))
    ensures a[0] == old(a[0]) && a[a.Length - 1] == old(a[a.Length - 1])
    ensures length' - LegSum(p, a[..]) == length - LegSum(p, old(a[..]))
    ensures improved ==> length' < length && LegSum(p, a[..]) < LegSum(p, old(a[..]))
    ensures improved ==> !TwoOptimal(p, old(a[..]))
    ensures !improved ==> a[..] == old(a[..]) && length' == length
    ensures !improved ==> forall j: nat :: !Improving(p, a[..], i, j)
  {
    ghost var s := a[..];
    var n := a.Length;
    improved, length' := false, length;
    var j := i + 2;
    while j < n
      invariant i + 2 <= j <= n
      invariant multiset(a[..]) == multiset(s)
      invariant a[0] == s[0] && a[n - 1] == s[n - 1]
      invariant length' - LegSum(p, a[..]) == length - LegSum(p, s)
      invariant improved ==> length' < length && LegSum(p, a[..]) < LegSum(p, s) && !TwoOptimal(p, s)
      invariant !improved ==> a[..] == s && length' == length
      invariant !improved ==> forall j': nat | j' < j :: !Improving(p, s, i, j')
    {
      var flipped;
      flipped, length' := TryPair(p, a, i, j, length');
      if flipped {
        assert !improved ==> Improving(p, s, i, j);
        improved := true;
      }
      j := j + 1;
    }
  }

  /** One pass of the `while improved` loop of `opt2` over every pair (i, j),
      scanning the route as it is being changed. */
  method Sweep(p: Problem, a: array<nat>, length: real) returns (improved: bool, length': real)
    requires p.Valid()
    modifies a
    ensures multiset(a[..]) == multiset(old(a[..]))
    ensures a.Length > 0 ==> a[0] == old(a[0]) && a[a.Length - 1] == old(a[a.Length - 1])
    ensures length' - LegSum(p, a[..]) == length - LegSum(p, old(a[..]))
    ensures improved ==> length' < length && LegSum(p, a[..]) < LegSum(p, old(a[..]))
    ensures improved ==> !TwoOptimal(p, old(a[..]))
    ensures !improved ==> a[..] == old(a[..]) && length' == length && TwoOptimal(p, a[..])
  {
    ghost var s := a[..];
    var n := a.Length;
    improved, length' := false, length;
    var i := 1;
    while i < n - 2
      invariant 1 <= i && (n >= 3 ==> i <= n - 2)
      invariant multiset(a[..]) == multiset(s)
      invariant n > 0 ==> a[0] == s[0] && a[n - 1] == s[n - 1]
      invariant length' - LegSum(p, a[..]) == length - LegSum(p, s)
      invariant improved ==> length' < length && LegSum(p, a[..]) < LegSum(p, s) && !TwoOptimal(p, s)
      invariant !improved ==> a[..] == s && length' == length
      invariant !improved ==> forall i': nat, j': nat | i' < i :: !Improving(p, s, i', j')
    {
      var rowImproved;
      rowImproved, length' := ScanRow(p, a, i, length');
      improved := improved || rowImproved;
      i := i + 1;
    }
    if !improved {
      forall i': nat, j': nat ensures !Improving(p, s, i', j') {
        if i' >= i {
          assert !(i' + 2 < n);
        }
      }
    }
  }

  /** `opt2`: repeats sweeps while the last one reversed a segment. The
      result is a 2-opt local optimum that keeps the route's id, reward,
      ends and nodes; its length never grows and stays off the leg sum by
      the same amount (so an exact length stays exact), and a route that is
      already 2-optimal comes back unchanged. */
  method Opt2(p: Problem, route: Route) returns (r: Route)
    requires p.Valid()
    ensures r.id == route.id && r.reward == route.reward
    ensures |r.customers| == |route.customers| && multiset(r.customers) == multiset(route.customers)
    ensures route.customers != [] ==>
      r.customers[0] == route.customers[0] && r.customers[|r.customers| - 1] == route.customers[|route.customers| - 1]
    ensures r.length <= route.length
    ensures r.length - LegSum(p, r.customers) == route.length - LegSum(p, route.customers)
    ensures TwoOptimal(p, r.customers)
    ensures TwoOptimal(p, route.customers) ==> r == route
  {
    var n := |route.customers|;
    var a := new nat[n](k requires 0 <= k < n => route.customers[k]);
    assert a[..] == route.customers;
    var length := route.length;
    var improved := true;
    while improved
      invariant multiset(a[..]) == multiset(route.customers)
      invariant n > 0 ==> a[0] == route.customers[0] && a[n - 1] == route.customers[n - 1]
      invariant length - LegSum(p, a[..]) == route.length - LegSum(p, route.customers)
      invariant length <= route.length
      invariant !improved ==> TwoOptimal(p, a[..])
      invariant TwoOptimal(p, route.customers) ==> a[..] == route.customers && length == route.length
      decreases improved, |Shorter(p, Nodes(route.customers), n, LegSum(p, a[..]))|
    {
      ghost var before := a[..];
      improved, length := Sweep(p, a, length);
      if improved {
        ShorterShrinks(p, route.customers, before, a[..]);
      }
    }
    r := Route(route.id, a[..], length, route.reward);
  }

  // ---------------------------------------------------------------------
  // Replacing one route of a solution

  /** Putting route r' in place of route k keeps a solution valid when r' is
      well formed under id k and the new index keeps every other route's
      customers and points exactly the customers of r' to k. */
  lemma ReplaceKeepsValid(p: Problem, routes: map<nat, Route>, cToR: map<nat, nat>, k: nat, r': Route,
                          cToR': map<nat, nat>)
    requires SolutionValid(p, routes, cToR) && k in routes
    requires r'.id == k && WellFormed(p, r'.customers)
    requires forall c | c in cToR' ::
      (c in cToR && cToR'[c] == cToR[c] && cToR[c] != k) || (cToR'[c] == k && c in Interior(r'.customers))
    requires forall c | c in Interior(r'.customers) :: c in cToR' && cToR'[c] == k
    requires forall c | c in cToR && cToR[c] != k :: c in cToR' && cToR'[c] == cToR[c]
    ensures SolutionValid(p, routes[k := r'], cToR')
  {
    var routes' := routes[k := r'];
    forall k2 | k2 in routes' ensures routes'[k2].id == k2 && WellFormed(p, routes'[k2].customers) {
      if k2 != k {
        assert routes'[k2] == routes[k2];
      }
    }
    ReplaceSound(routes, cToR, k, r', cToR');
    ReplaceComplete(routes, cToR, k, r', cToR');
  }

  lemma ReplaceSound(routes: map<nat, Route>, cToR: map<nat, nat>, k: nat, r': Route, cToR': map<nat, nat>)
    requires IndexSound(routes, cToR)
    requires forall c | c in cToR' ::
      (c in cToR && cToR'[c] == cToR[c] && cToR[c] != k) || (cToR'[c] == k && c in Interior(r'.customers))
    ensures IndexSound(routes[k := r'], cToR')
  {
    var routes' := routes[k := r'];
    forall c | c in cToR' ensures cToR'[c] in routes' && c in Interior(routes'[cToR'[c]].customers) {
      if cToR'[c] != k {
        var k2 := cToR[c];
        assert k2 != k && k2 in routes && c in Interior(routes[k2].customers);
        assert routes'[k2] == routes[k2];
      }
    }
  }

  lemma ReplaceComplete(routes: map<nat, Route>, cToR: map<nat, nat>, k: nat, r': Route, cToR': map<nat, nat>)
    requires IndexComplete(routes, cToR)
    requires forall c | c in Interior(r'.customers) :: c in cToR' && cToR'[c] == k
    requires forall c | c in cToR && cToR[c] != k :: c in cToR' && cToR'[c] == cToR[c]
    ensures IndexComplete(routes[k := r'], cToR')
  {
    var routes' := routes[k := r'];
    forall k2, c | k2 in routes' && c in Interior(routes'[k2].customers) ensures c in cToR' && cToR'[c] == k2 {
      if k2 != k {
        assert routes'[k2] == routes[k2];
        assert c in cToR && cToR[c] == k2;
      }
    }
  }

  // ---------------------------------------------------------------------
  // insert

  /** `s[:1] + [c] + s[1:]`: c right after the source. */
  function InsertAfterSource(s: seq<nat>, c: nat): (r: seq<nat>)
    ensures |r| == |s| + 1 && multiset(r) == multiset(s) + multiset{c}
    ensures |s| >= 2 ==> r[0] == s[0] && r[|r| - 1] == s[|s| - 1] && Interior(r) == [c] + Interior(s)
  {
    if s == [] then [c]
    else
      InsertAfterSourceFacts(s, c);
      [s[0], c] + s[1..]
  }

  lemma InsertAfterSourceFacts(s: seq<nat>, c: nat)
    requires s != []
    ensures multiset([s[0], c] + s[1..]) == multiset(s) + multiset{c}
    ensures |s| >= 2 ==> Interior([s[0], c] + s[1..]) == [c] + Interior(s)
  {
    var r := [s[0], c] + s[1..];
    assert s == [s[0]] + s[1..];
    if |s| >= 2 {
      assert r[1..|r| - 1] == [c] + s[1..|s| - 1];
    }
  }

  /** r' is route r with customer c inserted and the result 2-optimised,
      stored under id k with its exact length. */
  ghost predicate Inserted(p: Problem, r: Route, c: nat, k: nat, r': Route) {
    && r'.id == k
    && r'.reward == r.reward + RewardOf(p, c)
    && |r'.customers| == |r.customers| + 1
    && multiset(r'.customers) == multiset(r.customers) + multiset{c}
    && (|r.customers| >= 2 ==>
          r'.customers[0] == r.customers[0] && r'.customers[|r'.customers| - 1] == r.customers[|r.customers| - 1])
    && r'.length == LegSum(p, r'.customers)
    && r'.length <= LegSum(p, InsertAfterSource(r.customers, c))
    && TwoOptimal(p, r'.customers)
  }

  /** One turn of `insert`'s loop, for customer id, from the chosen route
      and index `before` to `after`: a depot or a served customer is
      skipped; otherwise cand is the route with id inserted and
      2-optimised, committed together with `c_to_r[id] = route_id` exactly
      when it fits the budget. */
  ghost predicate InsertTurn(p: Problem, routeId: nat, id: nat, before: (Route, map<nat, nat>), cand: Route,
                             after: (Route, map<nat, nat>)) {
    if id in before.1 || id == 0 || id == p.Sink() then after == before
    else
      && Inserted(p, before.0, id, routeId, cand)
      && after == if cand.length <= p.tmax then (cand, before.1[id := routeId]) else before
  }

  /** Inserting an unserved customer into a well-formed route gives a
      well-formed route whose interior is the old one plus c, with the
      reward of those customers when the old reward was exact. */
  lemma InsertedFacts(p: Problem, r: Route, c: nat, k: nat, r': Route)
    requires WellFormed(p, r.customers) && 0 < c < p.Sink() && c !in Interior(r.customers)
    requires Inserted(p, r, c, k, r')
    ensures WellFormed(p, r'.customers)
    ensures forall x :: x in Interior(r'.customers) <==> x == c || x in Interior(r.customers)
    ensures r.reward == RewardSum(p, Interior(r.customers)) ==> r'.reward == RewardSum(p, Interior(r'.customers))
  {
    var s := InsertAfterSource(r.customers, c);
    assert Interior(s) == [c] + Interior(r.customers);
    NoDupConcat([c], Interior(r.customers));
    assert multiset([c])[c] == 1;
    assert WellFormed(p, s);
    WellFormedPermutation(p, s, r'.customers);
    RewardSumPermutation(p, Interior(s), Interior(r'.customers));
    RewardSumAppend(p, [c], Interior(r.customers));
    assert RewardSum(p, [c]) == RewardOf(p, c);
  }

  /** The candidate route of `insert` for customer id: route with id spliced
      in after the source, its exact length, the reward grown by id's, and
      then 2-optimised. */
  method InsertCandidate(p: Problem, route: Route, routeId: nat, id: nat) returns (newRoute: Route)
    requires p.Valid() && id in p.customers
    ensures Inserted(p, route, id, routeId, newRoute)
  {
    var newCustomers := InsertAfterSource(route.customers, id);
    var candidate := Route(routeId, newCustomers, LegSum(p, newCustomers), route.reward + p.customers[id].reward);
    newRoute := Opt2(p, candidate);
    assert |route.customers| >= 2 ==>
      newCustomers[0] == route.customers[0] && newCustomers[|newCustomers| - 1] == route.customers[|route.customers| - 1];
  }

  /** The invariants of `insert`'s loop survive committing customer c. */
  lemma InsertStep(p: Problem, routes0: map<nat, Route>, cToR0: map<nat, nat>, routeId: nat,
                   routes: map<nat, Route>, cToR: map<nat, nat>, c: nat, r': Route)
    requires routeId in routes && c !in cToR && 0 < c < p.Sink()
    requires Inserted(p, routes[routeId], c, routeId, r')
    requires SolutionValid(p, routes0, cToR0) ==> SolutionValid(p, routes, cToR)
    requires SolutionValid(p, routes0, cToR0) && RewardsExact(p, routes0) ==> RewardsExact(p, routes)
    requires LengthsExact(p, routes0) ==> LengthsExact(p, routes)
    ensures SolutionValid(p, routes0, cToR0) ==> SolutionValid(p, routes[routeId := r'], cToR[c := routeId])
    ensures SolutionValid(p, routes0, cToR0) && RewardsExact(p, routes0) ==> RewardsExact(p, routes[routeId := r'])
    ensures LengthsExact(p, routes0) ==> LengthsExact(p, routes[routeId := r'])
  {
    if SolutionValid(p, routes0, cToR0) {
      InsertKeepsValid(p, routes, cToR, routeId, c, r');
    }
    if LengthsExact(p, routes0) {
      ReplaceKeepsLengths(p, routes, routeId, r');
    }
  }

  /** Committing an inserted customer keeps a solution valid, and keeps its
      rewards exact. */
  lemma InsertKeepsValid(p: Problem, routes: map<nat, Route>, cToR: map<nat, nat>, routeId: nat, c: nat, r': Route)
    requires SolutionValid(p, routes, cToR)
    requires routeId in routes && c !in cToR && 0 < c < p.Sink()
    requires Inserted(p, routes[routeId], c, routeId, r')
    ensures SolutionValid(p, routes[routeId := r'], cToR[c := routeId])
    ensures RewardsExact(p, routes) ==> RewardsExact(p, routes[routeId := r'])
  {
    var r, cToR' := routes[routeId], cToR[c := routeId];
    assert WellFormed(p, r.customers);
    NotServed(routes, cToR, routeId, c);
    InsertedFacts(p, r, c, routeId, r');
    InsertIndex(routes, cToR, routeId, c, r');
    ReplaceKeepsValid(p, routes, cToR, routeId, r', cToR');
    if RewardsExact(p, routes) {
      ReplaceKeepsRewards(p, routes, routeId, r');
    }
  }

  /** A customer the index does not know is on no route. */
  lemma NotServed(routes: map<nat, Route>, cToR: map<nat, nat>, k: nat, c: nat)
    requires IndexComplete(routes, cToR) && k in routes && c !in cToR
    ensures c !in Interior(routes[k].customers)
  {
  }

  /** The index after inserting c into route k, customer by customer. */
  lemma InsertIndex(routes: map<nat, Route>, cToR: map<nat, nat>, k: nat, c: nat, r': Route)
    requires IndexSound(routes, cToR) && k in routes
    requires forall x :: x in Interior(r'.customers) <==> x == c || x in Interior(routes[k].customers)
    ensures forall x | x in cToR[c := k] ::
      (x in cToR && cToR[c := k][x] == cToR[x] && cToR[x] != k) || (cToR[c := k][x] == k && x in Interior(r'.customers))
  {
  }

  lemma ReplaceKeepsLengths(p: Problem, routes: map<nat, Route>, k: nat, r': Route)
    requires LengthsExact(p, routes) && r'.length == LegSum(p, r'.customers)
    ensures LengthsExact(p, routes[k := r'])
  {
  }

  lemma ReplaceKeepsRewards(p: Problem, routes: map<nat, Route>, k: nat, r': Route)
    requires RewardsExact(p, routes) && r'.reward == RewardSum(p, Interior(r'.customers))
    ensures RewardsExact(p, routes[k := r'])
  {
  }

  /** What `insert`'s loop keeps of the solution it copied: only route
      `routeId` and new index entries change, every new entry is a customer
      pointing to `routeId`, the route is untouched or within the budget,
      and validity, the budget and exact lengths and rewards carry over. */
  ghost predicate InsertKept(p: Problem, routes0: map<nat, Route>, cToR0: map<nat, nat>, routeId: nat,
                             routes: map<nat, Route>, cToR: map<nat, nat>) {
    && routes.Keys == routes0.Keys && routeId in routes
    && (forall k | k in routes && k != routeId :: routes[k] == routes0[k])
    && (forall c | c in cToR0 :: c in cToR && cToR[c] == cToR0[c])
    && (forall c | c in cToR && c !in cToR0 :: cToR[c] == routeId && IsCustomer(p, c))
    && (routes[routeId] == routes0[routeId] || routes[routeId].length <= p.tmax)
    && (SolutionValid(p, routes0, cToR0) ==> SolutionValid(p, routes, cToR))
    && (WithinBudget(p, routes0) ==> WithinBudget(p, routes))
    && (LengthsExact(p, routes0) ==> LengthsExact(p, routes))
    && (SolutionValid(p, routes0, cToR0) && RewardsExact(p, routes0) ==> RewardsExact(p, routes))
  }

  /** One turn of `insert`'s loop (lines 55-73) on the chosen route and the
      index. */
  method InsertTry(p: Problem, routeId: nat, id: nat, route: Route, cToR: map<nat, nat>)
    returns (route': Route, cToR': map<nat, nat>, ghost cand: Route)
    requires p.Valid() && id < p.Size()
    ensures InsertTurn(p, routeId, id, (route, cToR), cand, (route', cToR'))
  {
    route', cToR', cand := route, cToR, route;
    if id in cToR || id == 0 || id == p.Sink() {
      return;
    }
    var newRoute := InsertCandidate(p, route, routeId, id);
    cand := newRoute;
    if newRoute.length <= p.tmax {
      route', cToR' := newRoute, cToR[id := routeId];
    }
  }

  /** A turn of `insert`'s loop keeps InsertKept. */
  lemma InsertTurnKeeps(p: Problem, routes0: map<nat, Route>, cToR0: map<nat, nat>, routeId: nat,
                        routes: map<nat, Route>, cToR: map<nat, nat>, id: nat, cand: Route,
                        route': Route, cToR': map<nat, nat>)
    requires p.Valid() && id < p.Size()
    requires InsertKept(p, routes0, cToR0, routeId, routes, cToR)
    requires InsertTurn(p, routeId, id, (routes[routeId], cToR), cand, (route', cToR'))
    ensures InsertKept(p, routes0, cToR0, routeId, routes[routeId := route'], cToR')
  {
    if id in cToR || id == 0 || id == p.Sink() || cand.length > p.tmax {
      assert route' == routes[routeId] && cToR' == cToR;
      assert routes[routeId := route'] == routes;
    } else {
      assert 0 < id < p.Sink() && id !in cToR0;
      InsertStep(p, routes0, cToR0, routeId, routes, cToR, id, cand);
      InsertCommitKept(p, routes0, cToR0, routeId, routes, cToR, id, cand);
    }
  }

  /** Committing the candidate of an unserved customer keeps InsertKept. */
  lemma InsertCommitKept(p: Problem, routes0: map<nat, Route>, cToR0: map<nat, nat>, routeId: nat,
                         routes: map<nat, Route>, cToR: map<nat, nat>, id: nat, cand: Route)
    requires InsertKept(p, routes0, cToR0, routeId, routes, cToR)
    requires 0 < id < p.Sink() && id !in cToR && cand.length <= p.tmax
    requires SolutionValid(p, routes0, cToR0) ==> SolutionValid(p, routes[routeId := cand], cToR[id := routeId])
    requires SolutionValid(p, routes0, cToR0) && RewardsExact(p, routes0) ==> RewardsExact(p, routes[routeId := cand])
    requires LengthsExact(p, routes0) ==> LengthsExact(p, routes[routeId := cand])
    ensures InsertKept(p, routes0, cToR0, routeId, routes[routeId := cand], cToR[id := routeId])
  {
    var routes' := routes[routeId := cand];
    if WithinBudget(p, routes0) {
      forall k | k in routes' ensures routes'[k].length <= p.tmax {
        if k != routeId {
          assert routes'[k] == routes[k];
        }
      }
    }
  }

  /** `insert`: on copies of the solution's tables, tries every customer
      that no route serves, in id order, on the chosen route `routeId`.
      `trace[id]` is the chosen route and the index before the turn of
      customer id, and `cands[id]` that turn's candidate. Only that route
      and the new index entries change; every new entry is a customer the
      solution did not serve, pointing to `routeId`; the route is either
      untouched or within the budget; validity, the budget and exact
      lengths and rewards carry over. */
  method Insert(p: Problem, sol: Solution, routeId: nat)
    returns (res: Solution, ghost trace: seq<(Route, map<nat, nat>)>, ghost cands: seq<Route>)
    requires p.Valid() && routeId in sol.routes
    ensures fresh(res)
    ensures res.routes.Keys == sol.routes.Keys
    ensures res.routes == sol.routes[routeId := res.routes[routeId]]
    ensures |trace| == p.Size() + 1 && |cands| == p.Size()
    ensures trace[0] == (sol.routes[routeId], sol.cToR)
    ensures forall id | 0 <= id < p.Size() :: InsertTurn(p, routeId, id, trace[id], cands[id], trace[id + 1])
    ensures trace[p.Size()] == (res.routes[routeId], res.cToR)
    ensures forall c | c in sol.cToR :: c in res.cToR && res.cToR[c] == sol.cToR[c]
    ensures forall c | c in res.cToR && c !in sol.cToR :: res.cToR[c] == routeId && IsCustomer(p, c)
    ensures res.routes[routeId] == sol.routes[routeId] || res.routes[routeId].length <= p.tmax
    ensures sol.Valid(p) ==> res.Valid(p)
    ensures WithinBudget(p, sol.routes) ==> WithinBudget(p, res.routes)
    ensures LengthsExact(p, sol.routes) ==> LengthsExact(p, res.routes)
    ensures sol.Valid(p) && RewardsExact(p, sol.routes) ==> RewardsExact(p, res.routes)
  {
    var routes: map<nat, Route>, cToR: map<nat, nat> := sol.routes, sol.cToR;
    ghost var routes0: map<nat, Route>, cToR0: map<nat, nat> := routes, cToR;
    trace, cands := [(routes[routeId], cToR)], [];
    for id: nat := 0 to p.Size()
      invariant InsertKept(p, routes0, cToR0, routeId, routes, cToR)
      invariant |trace| == id + 1 && |cands| == id
      invariant trace[0] == (routes0[routeId], cToR0) && trace[id] == (routes[routeId], cToR)
      invariant forall j | 0 <= j < id :: InsertTurn(p, routeId, j, trace[j], cands[j], trace[j + 1])
    {
      var route', cToR', cand := InsertTry(p, routeId, id, routes[routeId], cToR);
      InsertTurnKeeps(p, routes0, cToR0, routeId, routes, cToR, id, cand, route', cToR');
      routes, cToR := routes[routeId := route'], cToR';
      cands, trace := cands + [cand], trace + [(route', cToR')];
    }
    res := new Solution(routes, cToR);
  }

  // ---------------------------------------------------------------------
  // remove

  /** s without position k: `new_customers.pop(k)`. */
  function RemoveAt(s: seq<nat>, k: nat): (r: seq<nat>)
    requires k < |s|
    ensures |r| == |s| - 1 && multiset(r) == multiset(s) - multiset{s[k]}
  {
    MultisetRemoveAt(s, k);
    s[..k] + s[k + 1..]
  }

  /** Dropping an inner node replaces its two legs by the leg that skips it. */
  lemma LegSumRemoveAt(p: Problem, s: seq<nat>, k: nat)
    requires 1 <= k < |s| - 1
    ensures LegSum(p, RemoveAt(s, k)) ==
      LegSum(p, s) - p.dist(s[k - 1], s[k]) - p.dist(s[k], s[k + 1]) + p.dist(s[k - 1], s[k + 1])
  {
    var a, b := s[..k], s[k + 1..];
    assert s == a + [s[k]] + b;
    assert RemoveAt(s, k) == a + b;
    LegSumThree(p, a, [s[k]], b);
    LegSumAppend(p, a, b);
    assert LegSum(p, [s[k]]) == 0.0;
  }

  /** The interior of a route without its inner node k is the interior
      without that node. */
  lemma InteriorRemoveAt(s: seq<nat>, k: nat)
    requires 1 <= k < |s| - 1
    ensures RemoveAt(s, k) == [s[0]] + RemoveAt(Interior(s), k - 1) + [s[|s| - 1]]
    ensures Interior(RemoveAt(s, k)) == RemoveAt(Interior(s), k - 1)
    ensures Interior(s)[k - 1] == s[k]
  {
    var i := Interior(s);
    assert s[..k] == [s[0]] + i[..k - 1];
    assert s[k + 1..] == i[k..] + [s[|s| - 1]];
  }

  /** A node dropped from a duplicate-free sequence no longer occurs, and
      the rest stays duplicate free. */
  lemma NoDupRemoveAt(s: seq<nat>, k: nat)
    requires NoDup(s) && k < |s|
    ensures NoDup(RemoveAt(s, k))
    ensures forall x :: x in RemoveAt(s, k) <==> x in s && x != s[k]
  {
    var r := RemoveAt(s, k);
    forall x ensures x in r <==> x in s && x != s[k] {
      assert x in r <==> x in multiset(r);
      assert x in s <==> x in multiset(s);
      if x in s {
        assert multiset(s)[x] == 1;
      }
    }
    forall x | x in r ensures multiset(r)[x] == 1 {
      assert x in multiset(s);
    }
  }

  /** s' holds the nodes of s but the inner node at idx, with the same ends. */
  ghost predicate Dropped(s: seq<nat>, idx: nat, s': seq<nat>) {
    && 1 <= idx < |s| - 1
    && |s'| == |s| - 1
    && multiset(s') == multiset(s) - multiset{s[idx]}
    && s'[0] == s[0]
    && s'[|s'| - 1] == s[|s| - 1]
  }

  /** r' is route r without its inner node idx, 2-optimised and stored
      under id k: the reward falls by the node's reward, the nodes lose that
      one, and the length keeps its offset from the leg sum. */
  ghost predicate Removed(p: Problem, r: Route, idx: nat, k: nat, r': Route) {
    && Dropped(r.customers, idx, r'.customers)
    && r'.id == k
    && r'.reward == r.reward - RewardOf(p, r.customers[idx])
    && r'.length - LegSum(p, r'.customers) == r.length - LegSum(p, r.customers)
    && TwoOptimal(p, r'.customers)
  }

  /** The candidate route of `remove`: route without position idx, its
      length updated by the legs around idx, its reward by the customer's,
      then 2-optimised. */
  method RemoveCandidate(p: Problem, route: Route, routeId: nat, idx: nat) returns (newRoute: Route)
    requires p.Valid() && 1 <= idx < |route.customers| - 1 && route.customers[idx] in p.customers
    ensures Removed(p, route, idx, routeId, newRoute)
  {
    var cs := route.customers;
    var newCustomers := RemoveAt(cs, idx);
    var removed := cs[idx];
    var candidate := Route(routeId, newCustomers,
      route.length - p.dist(cs[idx - 1], cs[idx]) - p.dist(cs[idx], cs[idx + 1]) + p.dist(cs[idx - 1], cs[idx + 1]),
      route.reward - p.customers[removed].reward);
    CandidateDropped(p, route, routeId, idx, candidate);
    newRoute := Opt2(p, candidate);
    OptimisedRemoved(p, route, idx, candidate, newRoute);
  }

  /** The unoptimised candidate of `remove` already has everything of
      Removed but 2-optimality. */
  lemma CandidateDropped(p: Problem, route: Route, routeId: nat, idx: nat, candidate: Route)
    requires 1 <= idx < |route.customers| - 1 && route.customers[idx] in p.customers
    requires var cs := route.customers;
      candidate == Route(routeId, RemoveAt(cs, idx),
        route.length - p.dist(cs[idx - 1], cs[idx]) - p.dist(cs[idx], cs[idx + 1]) + p.dist(cs[idx - 1], cs[idx + 1]),
        route.reward - p.customers[cs[idx]].reward)
    ensures Dropped(route.customers, idx, candidate.customers) && candidate.id == routeId
    ensures candidate.reward == route.reward - RewardOf(p, route.customers[idx])
    ensures candidate.length - LegSum(p, candidate.customers) == route.length - LegSum(p, route.customers)
  {
    LegSumRemoveAt(p, route.customers, idx);
    InteriorRemoveAt(route.customers, idx);
  }

  /** 2-optimising the candidate keeps what Removed asks of it. */
  lemma OptimisedRemoved(p: Problem, route: Route, idx: nat, candidate: Route, r: Route)
    requires Dropped(route.customers, idx, candidate.customers)
    requires candidate.reward == route.reward - RewardOf(p, route.customers[idx])
    requires candidate.length - LegSum(p, candidate.customers) == route.length - LegSum(p, route.customers)
    requires r.id == candidate.id && r.reward == candidate.reward
    requires |r.customers| == |candidate.customers| && multiset(r.customers) == multiset(candidate.customers)
    requires r.customers[0] == candidate.customers[0]
    requires r.customers[|r.customers| - 1] == candidate.customers[|candidate.customers| - 1]
    requires r.length - LegSum(p, r.customers) == candidate.length - LegSum(p, candidate.customers)
    requires TwoOptimal(p, r.customers)
    ensures Removed(p, route, idx, candidate.id, r)
  {
  }

  /** Dropping an inner node of a well-formed route leaves a well-formed
      route whose interior lacks exactly that node. */
  lemma RemoveAtWellFormed(p: Problem, s: seq<nat>, k: nat)
    requires WellFormed(p, s) && 1 <= k < |s| - 1
    ensures WellFormed(p, RemoveAt(s, k))
    ensures forall c :: c in Interior(RemoveAt(s, k)) <==> c in Interior(s) && c != s[k]
  {
    InteriorRemoveAt(s, k);
    NoDupRemoveAt(Interior(s), k - 1);
  }

  /** The route left by a removal is well formed, and its interior is the
      old interior without the dropped customer. */
  lemma DroppedWellFormed(p: Problem, s: seq<nat>, idx: nat, s': seq<nat>)
    requires WellFormed(p, s) && Dropped(s, idx, s')
    ensures WellFormed(p, s')
    ensures forall c :: c in Interior(s') <==> c in Interior(s) && c != s[idx]
    ensures multiset(Interior(s')) == multiset(RemoveAt(Interior(s), idx - 1))
  {
    RemoveAtWellFormed(p, s, idx);
    InteriorRemoveAt(s, idx);
    WellFormedPermutation(p, RemoveAt(s, idx), s');
  }

  /** The reward of a route that lost a customer is the reward of its
      remaining customers. */
  lemma DroppedReward(p: Problem, r: Route, idx: nat, r': Route)
    requires WellFormed(p, r.customers) && Dropped(r.customers, idx, r'.customers)
    requires r.reward == RewardSum(p, Interior(r.customers))
    requires r'.reward == r.reward - RewardOf(p, r.customers[idx])
    ensures r'.reward == RewardSum(p, Interior(r'.customers))
  {
    var i := Interior(r.customers);
    DroppedWellFormed(p, r.customers, idx, r'.customers);
    InteriorRemoveAt(r.customers, idx);
    RewardSumRemoveAt(p, i, idx - 1);
    var rest := RemoveAt(i, idx - 1);
    assert RewardSum(p, i) == RewardOf(p, r.customers[idx]) + RewardSum(p, rest);
    RewardSumPermutation(p, rest, Interior(r'.customers));
  }

  /** Committing a removal keeps a solution valid and its rewards exact. */
  lemma RemoveKeepsValid(p: Problem, routes: map<nat, Route>, cToR: map<nat, nat>, k: nat, idx: nat, r': Route)
    requires SolutionValid(p, routes, cToR) && k in routes
    requires Removed(p, routes[k], idx, k, r')
    ensures SolutionValid(p, routes[k := r'], cToR - {routes[k].customers[idx]})
    ensures RewardsExact(p, routes) ==> RewardsExact(p, routes[k := r'])
  {
    var cs := routes[k].customers;
    var x := cs[idx];
    assert WellFormed(p, cs);
    DroppedWellFormed(p, cs, idx, r'.customers);
    InteriorRemoveAt(cs, idx);
    assert x in Interior(cs);
    IndexedAt(routes, cToR, k, x);
    RemoveIndex(routes, cToR, k, x, r');
    ReplaceKeepsValid(p, routes, cToR, k, r', cToR - {x});
    if RewardsExact(p, routes) {
      DroppedReward(p, routes[k], idx, r');
      ReplaceKeepsRewards(p, routes, k, r');
    }
  }

  /** The index after removing customer x from route k. */
  lemma RemoveIndex(routes: map<nat, Route>, cToR: map<nat, nat>, k: nat, x: nat, r': Route)
    requires IndexSound(routes, cToR) && IndexComplete(routes, cToR)
    requires k in routes && x in cToR && cToR[x] == k
    requires forall c :: c in Interior(r'.customers) <==> c in Interior(routes[k].customers) && c != x
    ensures forall c | c in cToR - {x} ::
      (c in cToR && (cToR - {x})[c] == cToR[c] && cToR[c] != k) || ((cToR - {x})[c] == k && c in Interior(r'.customers))
    ensures forall c | c in Interior(r'.customers) :: c in cToR - {x} && (cToR - {x})[c] == k
    ensures forall c | c in cToR && cToR[c] != k :: c in cToR - {x} && (cToR - {x})[c] == cToR[c]
  {
  }

  /** `remove`: on copies of the solution's tables, drops the customer at
      position idx of route `routeId` (both drawn at random in the source)
      unless the route has at most one customer. The 2-optimised candidate
      is committed, and the customer dropped from the index, exactly when
      the candidate fits the budget. Validity, the budget and exact lengths
      and rewards carry over. */
  method Remove(p: Problem, sol: Solution, routeId: nat, idx: nat) returns (res: Solution, ghost candidate: Route)
    requires p.Valid() && routeId in sol.routes
    requires |sol.routes[routeId].customers| > 3 ==>
      && 1 <= idx < |sol.routes[routeId].customers| - 1
      && sol.routes[routeId].customers[idx] in p.customers
    ensures fresh(res)
    ensures |sol.routes[routeId].customers| <= 3 ==> res.routes == sol.routes && res.cToR == sol.cToR
    ensures |sol.routes[routeId].customers| > 3 ==> Removed(p, sol.routes[routeId], idx, routeId, candidate)
    ensures |sol.routes[routeId].customers| > 3 && candidate.length <= p.tmax ==>
      res.routes == sol.routes[routeId := candidate] && res.cToR == sol.cToR - {sol.routes[routeId].customers[idx]}
    ensures |sol.routes[routeId].customers| > 3 && candidate.length > p.tmax ==>
      res.routes == sol.routes && res.cToR == sol.cToR
    ensures sol.Valid(p) ==> res.Valid(p)
    ensures WithinBudget(p, sol.routes) ==> WithinBudget(p, res.routes)
    ensures LengthsExact(p, sol.routes) ==> LengthsExact(p, res.routes)
    ensures sol.Valid(p) && RewardsExact(p, sol.routes) ==> RewardsExact(p, res.routes)
  {
    var routes: map<nat, Route>, cToR: map<nat, nat> := sol.routes, sol.cToR;
    var route := routes[routeId];
    candidate := route;
    if |route.customers| <= 3 {
      res := new Solution(routes, cToR);
      return;
    }
    var newRoute := RemoveCandidate(p, route, routeId, idx);
    candidate := newRoute;
    if newRoute.length <= p.tmax {
      var removed := route.customers[idx];
      RemoveCommit(p, routes, cToR, routeId, idx, newRoute, routes[routeId := newRoute], cToR - {removed});
      routes := routes[routeId := newRoute];
      cToR := cToR - {removed};
    }
    res := new Solution(routes, cToR);
  }

  /** Committing a removal that fits the budget keeps validity, the budget
      and exact lengths and rewards. */
  lemma RemoveCommit(p: Problem, routes: map<nat, Route>, cToR: map<nat, nat>, k: nat, idx: nat, r': Route,
                     routes': map<nat, Route>, cToR': map<nat, nat>)
    requires k in routes && Removed(p, routes[k], idx, k, r') && r'.length <= p.tmax
    requires routes' == routes[k := r'] && cToR' == cToR - {routes[k].customers[idx]}
    ensures SolutionValid(p, routes, cToR) ==> SolutionValid(p, routes', cToR')
    ensures WithinBudget(p, routes) ==> WithinBudget(p, routes')
    ensures LengthsExact(p, routes) ==> LengthsExact(p, routes')
    ensures SolutionValid(p, routes, cToR) && RewardsExact(p, routes) ==> RewardsExact(p, routes')
  {
    if SolutionValid(p, routes, cToR) {
      RemoveKeepsValid(p, routes, cToR, k, idx, r');
    }
    if LengthsExact(p, routes) {
      assert routes[k].length == LegSum(p, routes[k].customers);
      ReplaceKeepsLengths(p, routes, k, r');
    }
  }

  // ---------------------------------------------------------------------
  // shaking

  predicate IsMax(s: set<nat>, k: nat) {
    k in s && forall j | j in s :: j <= k
  }

  lemma {:induction false} MaxExists(s: set<nat>)
    requires s != {}
    ensures exists k :: IsMax(s, k)
    decreases |s|
  {
    var x :| x in s;
    var r := s - {x};
    assert s == r + {x};
    if r == {} {
      assert IsMax(s, x);
    } else {
      MaxExists(r);
      var k :| IsMax(r, k);
      if x > k {
        assert IsMax(s, x);
      } else {
        assert IsMax(s, k);
      }
    }
  }

  /** `max(routes.keys())`: the largest id of a non-empty route table. */
  function MaxKey(routes: map<nat, Route>): (k: nat)
    requires routes != map[]
    ensures k in routes && forall j | j in routes :: j <= k
  {
    assert routes.Keys != {} by {
      var j :| j in routes;
    }
    MaxExists(routes.Keys);
    var k :| IsMax(routes.Keys, k);
    k
  }

  /** `c_to_r.pop(i)` for every i of a destroyed route's interior: each must
      be indexed when it is popped, so the interior is indexed and has no
      repeated customer. */
  method Unindex(cToR0: map<nat, nat>, inner: seq<nat>) returns (cToR: map<nat, nat>)
    requires NoDup(inner) && forall c | c in inner :: c in cToR0
    ensures forall c :: c in cToR <==> c in cToR0 && c !in inner
    ensures forall c | c in cToR :: cToR[c] == cToR0[c]
    ensures cToR == Unindexed(cToR0, inner)
  {
    cToR := cToR0;
    for t := 0 to |inner|
      invariant forall c :: c in cToR <==> c in cToR0 && c !in inner[..t]
      invariant forall c | c in cToR :: cToR[c] == cToR0[c]
    {
      NoDupPrefix(inner, t);
      assert inner[..t + 1] == inner[..t] + [inner[t]];
      cToR := cToR - {inner[t]};
    }
    assert inner[..|inner|] == inner;
  }

  /** The index without the entries of the customers in `inner`. */
  function Unindexed(cToR: map<nat, nat>, inner: seq<nat>): map<nat, nat> {
    map c | c in cToR && c !in inner :: cToR[c]
  }

  /** Dropping a route together with the index entries of its customers
      keeps a solution valid. */
  lemma DestroyValid(p: Problem, routes: map<nat, Route>, cToR: map<nat, nat>, k: nat,
                     routes': map<nat, Route>, cToR': map<nat, nat>)
    requires SolutionValid(p, routes, cToR) && k in routes && routes' == routes - {k}
    requires forall c :: c in cToR' <==> c in cToR && c !in Interior(routes[k].customers)
    requires forall c | c in cToR' :: cToR'[c] == cToR[c]
    ensures SolutionValid(p, routes', cToR')
  {
    DestroySound(routes, cToR, k, routes', cToR');
    DestroyComplete(routes, cToR, k, routes', cToR');
  }

  lemma DestroySound(routes: map<nat, Route>, cToR: map<nat, nat>, k: nat,
                     routes': map<nat, Route>, cToR': map<nat, nat>)
    requires IndexSound(routes, cToR) && k in routes && routes' == routes - {k}
    requires forall c | c in cToR' :: c in cToR && c !in Interior(routes[k].customers) && cToR'[c] == cToR[c]
    ensures IndexSound(routes', cToR')
  {
    forall c | c in cToR' ensures cToR'[c] in routes' && c in Interior(routes'[cToR'[c]].customers) {
      var k2 := cToR[c];
      assert k2 in routes && c in Interior(routes[k2].customers);
      assert k2 != k;
    }
  }

  lemma DestroyComplete(routes: map<nat, Route>, cToR: map<nat, nat>, k: nat,
                        routes': map<nat, Route>, cToR': map<nat, nat>)
    requires IndexComplete(routes, cToR) && k in routes && routes' == routes - {k}
    requires forall c | c in cToR && c !in Interior(routes[k].customers) :: c in cToR' && cToR'[c] == cToR[c]
    ensures IndexComplete(routes', cToR')
  {
    forall k2, c | k2 in routes' && c in Interior(routes'[k2].customers) ensures c in cToR' && cToR'[c] == k2 {
      assert routes'[k2] == routes[k2];
      IndexedAt(routes, cToR, k2, c);
      if c in Interior(routes[k].customers) {
        IndexedAt(routes, cToR, k, c);
      }
    }
  }

  /** Adding the dummy route of an unindexed customer under an unused id
      keeps a solution valid, its lengths and rewards exact and its routes
      within budget if the new route fits it. */
  lemma AddFresh(p: Problem, routes: map<nat, Route>, cToR: map<nat, nat>, r: Route, c: nat,
                 routes': map<nat, Route>, cToR': map<nat, nat>)
    requires SolutionValid(p, routes, cToR) && c !in cToR && IsCustomer(p, c)
    requires r.id !in routes && Singleton(p, r, r.id, c)
    requires routes' == routes[r.id := r] && cToR' == cToR[c := r.id]
    ensures SolutionValid(p, routes', cToR')
    ensures LengthsExact(p, routes) ==> LengthsExact(p, routes')
    ensures RewardsExact(p, routes) ==> RewardsExact(p, routes')
    ensures WithinBudget(p, routes) && r.length <= p.tmax ==> WithinBudget(p, routes')
  {
    SingletonFacts(p, r, r.id, c);
    AddFreshSound(routes, cToR, r, c, routes', cToR');
    AddFreshComplete(routes, cToR, r, c, routes', cToR');
    forall k | k in routes' ensures routes'[k].id == k && WellFormed(p, routes'[k].customers) {
      if k != r.id {
        assert routes'[k] == routes[k];
      }
    }
    if LengthsExact(p, routes) {
      ReplaceKeepsLengths(p, routes, r.id, r);
    }
    if RewardsExact(p, routes) {
      ReplaceKeepsRewards(p, routes, r.id, r);
    }
  }

  lemma AddFreshSound(routes: map<nat, Route>, cToR: map<nat, nat>, r: Route, c: nat,
                      routes': map<nat, Route>, cToR': map<nat, nat>)
    requires IndexSound(routes, cToR) && r.id !in routes && Interior(r.customers) == [c]
    requires routes' == routes[r.id := r] && cToR' == cToR[c := r.id]
    ensures IndexSound(routes', cToR')
  {
    forall x | x in cToR' ensures cToR'[x] in routes' && x in Interior(routes'[cToR'[x]].customers) {
      if x != c {
        assert cToR[x] in routes && x in Interior(routes[cToR[x]].customers);
      }
    }
  }

  lemma AddFreshComplete(routes: map<nat, Route>, cToR: map<nat, nat>, r: Route, c: nat,
                         routes': map<nat, Route>, cToR': map<nat, nat>)
    requires IndexComplete(routes, cToR) && c !in cToR && Interior(r.customers) == [c]
    requires routes' == routes[r.id := r] && cToR' == cToR[c := r.id]
    ensures IndexComplete(routes', cToR')
  {
    forall k2, x | k2 in routes' && x in Interior(routes'[k2].customers) ensures x in cToR' && cToR'[x] == k2 {
      if k2 != r.id {
        IndexedAt(routes, cToR, k2, x);
      }
    }
  }

  /** The loop of `shaking` that gives every customer that is neither
      served nor a depot, and whose round trip fits the budget, a dummy route
      of its own, numbered firstId, firstId + 1, ... in id order. */
  method AddSingletons(p: Problem, routes0: map<nat, Route>, cToR0: map<nat, nat>, firstId: nat)
    returns (routes: map<nat, Route>, cToR: map<nat, nat>)
    requires p.Valid() && SolutionValid(p, routes0, cToR0)
    requires forall k | k in routes0 :: k < firstId
    ensures SolutionValid(p, routes, cToR)
    ensures forall k | k in routes0 :: k in routes && routes[k] == routes0[k]
    ensures forall c | c in cToR0 :: c in cToR && cToR[c] == cToR0[c]
    ensures forall c: nat :: c in cToR <==> c in cToR0 || (IsCustomer(p, c) && RoundTrip(p, c) <= p.tmax)
    ensures forall k | k in routes && k !in routes0 :: firstId <= k && SingletonOf(p, routes, cToR, k)
    ensures WithDummies(p, routes0, cToR0, Fitting(p, cToR0.Keys, p.Size()), firstId, routes, cToR)
    ensures WithinBudget(p, routes0) ==> WithinBudget(p, routes)
    ensures LengthsExact(p, routes0) ==> LengthsExact(p, routes)
    ensures RewardsExact(p, routes0) ==> RewardsExact(p, routes)
  {
    var source, target := 0, p.Sink();
    routes, cToR := routes0, cToR0;
    var newRouteId: nat := firstId;
    ghost var budget, lengths, rewards := WithinBudget(p, routes0), LengthsExact(p, routes0), RewardsExact(p, routes0);
    AddingStart(p, routes0, cToR0, firstId);
    for i: nat := 0 to p.Size()
      invariant Adding(p, routes0, cToR0, firstId, budget, lengths, rewards, i, newRouteId, routes, cToR)
    {
      newRouteId, routes, cToR := AddTurn(p, routes0, cToR0, firstId, budget, lengths, rewards, i, newRouteId, routes, cToR);
    }
    AddingDone(p, routes0, cToR0, firstId, budget, lengths, rewards, newRouteId, routes, cToR);
  }

  /** Before the first id, the tables are the served ones. */
  lemma AddingStart(p: Problem, routes0: map<nat, Route>, cToR0: map<nat, nat>, firstId: nat)
    requires SolutionValid(p, routes0, cToR0)
    ensures Adding(p, routes0, cToR0, firstId, WithinBudget(p, routes0), LengthsExact(p, routes0), RewardsExact(p, routes0),
                   0, firstId, routes0, cToR0)
  {
    assert Fitting(p, cToR0.Keys, 0) == [];
  }

  /** After the last id, the tables are the served ones extended by the
      dummy routes of every fitting unserved customer. */
  lemma AddingDone(p: Problem, routes0: map<nat, Route>, cToR0: map<nat, nat>, firstId: nat,
                   budget: bool, lengths: bool, rewards: bool,
                   newRouteId: nat, routes: map<nat, Route>, cToR: map<nat, nat>)
    requires p.Valid() && forall k | k in routes0 :: k < firstId
    requires Adding(p, routes0, cToR0, firstId, budget, lengths, rewards, p.Size(), newRouteId, routes, cToR)
    ensures SolutionValid(p, routes, cToR)
    ensures forall k | k in routes0 :: k in routes && routes[k] == routes0[k]
    ensures forall c | c in cToR0 :: c in cToR && cToR[c] == cToR0[c]
    ensures forall c: nat :: c in cToR <==> c in cToR0 || (IsCustomer(p, c) && RoundTrip(p, c) <= p.tmax)
    ensures forall k | k in routes && k !in routes0 :: firstId <= k && SingletonOf(p, routes, cToR, k)
    ensures WithDummies(p, routes0, cToR0, Fitting(p, cToR0.Keys, p.Size()), firstId, routes, cToR)
    ensures budget ==> WithinBudget(p, routes)
    ensures lengths ==> LengthsExact(p, routes)
    ensures rewards ==> RewardsExact(p, routes)
  {
    DummiesFacts(p, routes0, cToR0, Fitting(p, cToR0.Keys, p.Size()), firstId, routes, cToR);
  }

  /** One turn of `shaking`'s dummy-route loop, for id i: an unserved
      customer whose round trip fits gets its dummy route under the next
      id; every other id is passed over. */
  method AddTurn(p: Problem, routes0: map<nat, Route>, cToR0: map<nat, nat>, firstId: nat,
                 ghost budget: bool, ghost lengths: bool, ghost rewards: bool,
                 i: nat, newRouteId: nat, routes: map<nat, Route>, cToR: map<nat, nat>)
    returns (newRouteId': nat, routes': map<nat, Route>, cToR': map<nat, nat>)
    requires p.Valid() && i < p.Size() && forall k | k in routes0 :: k < firstId
    requires Adding(p, routes0, cToR0, firstId, budget, lengths, rewards, i, newRouteId, routes, cToR)
    ensures Adding(p, routes0, cToR0, firstId, budget, lengths, rewards, i + 1, newRouteId', routes', cToR')
  {
    var source, target := 0, p.Sink();
    newRouteId', routes', cToR' := newRouteId, routes, cToR;
    if i in cToR || i == source || i == target {
      assert i == source || i == target ==> !IsCustomer(p, i);
      AddingSkip(p, routes0, cToR0, firstId, budget, lengths, rewards, i, newRouteId, routes, cToR);
      return;
    }
    var t := p.dist(source, i) + p.dist(i, target);
    if t <= p.tmax {
      var newRoute := Route(newRouteId, [source, i, target], t, p.customers[i].reward);
      AddingCommit(p, routes0, cToR0, firstId, budget, lengths, rewards, i, newRouteId, routes, cToR, newRoute);
      cToR' := cToR[i := newRouteId];
      routes' := routes[newRouteId := newRoute];
      newRouteId' := newRouteId + 1;
    } else {
      AddingSkip(p, routes0, cToR0, firstId, budget, lengths, rewards, i, newRouteId, routes, cToR);
    }
  }

  /** The invariant of `shaking`'s dummy-route loop once the ids below i are
      done: a valid solution that extends routes0 and cToR0 by the dummy
      routes of the fitting unserved customers below i, numbered from firstId. */
  ghost predicate Adding(p: Problem, routes0: map<nat, Route>, cToR0: map<nat, nat>, firstId: nat,
                         budget: bool, lengths: bool, rewards: bool,
                         i: nat, newRouteId: nat, routes: map<nat, Route>, cToR: map<nat, nat>) {
    && SolutionValid(p, routes, cToR)
    && (budget ==> WithinBudget(p, routes))
    && (lengths ==> LengthsExact(p, routes))
    && (rewards ==> RewardsExact(p, routes))
    && newRouteId == firstId + |Fitting(p, cToR0.Keys, i)|
    && WithDummies(p, routes0, cToR0, Fitting(p, cToR0.Keys, i), firstId, routes, cToR)
  }

  /** Id i is indexed already, a depot, or too far for a round trip: the
      loop passes over it. */
  lemma AddingSkip(p: Problem, routes0: map<nat, Route>, cToR0: map<nat, nat>, firstId: nat,
                   budget: bool, lengths: bool, rewards: bool,
                   i: nat, newRouteId: nat, routes: map<nat, Route>, cToR: map<nat, nat>)
    requires Adding(p, routes0, cToR0, firstId, budget, lengths, rewards, i, newRouteId, routes, cToR)
    requires i in cToR || !IsCustomer(p, i) || RoundTrip(p, i) > p.tmax
    ensures Adding(p, routes0, cToR0, firstId, budget, lengths, rewards, i + 1, newRouteId, routes, cToR)
  {
    assert i in cToR ==> i in cToR0;
    assert Fitting(p, cToR0.Keys, i + 1) == Fitting(p, cToR0.Keys, i);
  }

  /** Unserved customer i, whose round trip fits, gets its dummy route under
      the next id. */
  lemma AddingCommit(p: Problem, routes0: map<nat, Route>, cToR0: map<nat, nat>, firstId: nat,
                     budget: bool, lengths: bool, rewards: bool,
                     i: nat, newRouteId: nat, routes: map<nat, Route>, cToR: map<nat, nat>, r: Route)
    requires p.Valid() && i < p.Size() && forall k | k in routes0 :: k < firstId
    requires Adding(p, routes0, cToR0, firstId, budget, lengths, rewards, i, newRouteId, routes, cToR)
    requires i !in cToR && i != 0 && i != p.Sink()
    requires r == Route(newRouteId, [0, i, p.Sink()], p.dist(0, i) + p.dist(i, p.Sink()), p.customers[i].reward)
    requires r.length <= p.tmax
    ensures Adding(p, routes0, cToR0, firstId, budget, lengths, rewards, i + 1, newRouteId + 1,
                   routes[newRouteId := r], cToR[i := newRouteId])
  {
    var fs := Fitting(p, cToR0.Keys, i);
    assert RoundTrip(p, i) == r.length && IsCustomer(p, i) && i !in cToR0;
    assert Singleton(p, r, newRouteId, i);
    DummiesFacts(p, routes0, cToR0, fs, firstId, routes, cToR);
    AddStep(p, routes0, cToR0, firstId, routes, cToR, r, i, routes[newRouteId := r], cToR[i := newRouteId]);
    WithDummiesStep(p, routes0, cToR0, fs, firstId, routes, cToR, i, r);
    assert Fitting(p, cToR0.Keys, i + 1) == fs + [i];
  }

  /** The invariants of `shaking`'s loop survive adding the dummy route of
      customer c. */
  lemma AddStep(p: Problem, routes0: map<nat, Route>, cToR0: map<nat, nat>, firstId: nat,
                routes: map<nat, Route>, cToR: map<nat, nat>, r: Route, c: nat,
                routes': map<nat, Route>, cToR': map<nat, nat>)
    requires SolutionValid(p, routes, cToR) && c !in cToR && IsCustomer(p, c)
    requires r.id !in routes && firstId <= r.id && Singleton(p, r, r.id, c) && RoundTrip(p, c) <= p.tmax
    requires routes' == routes[r.id := r] && cToR' == cToR[c := r.id]
    requires forall k | k in routes0 :: k in routes && routes[k] == routes0[k]
    requires forall c | c in cToR0 :: c in cToR && cToR[c] == cToR0[c]
    requires forall k | k in routes && k !in routes0 :: firstId <= k && SingletonOf(p, routes, cToR, k)
    ensures SolutionValid(p, routes', cToR')
    ensures forall k | k in routes0 :: k in routes' && routes'[k] == routes0[k]
    ensures forall x | x in cToR0 :: x in cToR' && cToR'[x] == cToR0[x]
    ensures forall k | k in routes' && k !in routes0 :: firstId <= k && SingletonOf(p, routes', cToR', k)
    ensures LengthsExact(p, routes) ==> LengthsExact(p, routes')
    ensures RewardsExact(p, routes) ==> RewardsExact(p, routes')
    ensures WithinBudget(p, routes) ==> WithinBudget(p, routes')
  {
    AddFresh(p, routes, cToR, r, c, routes', cToR');
    AddStepSingletons(p, routes0, cToR0, firstId, routes, cToR, r, c, routes', cToR');
  }

  lemma AddStepSingletons(p: Problem, routes0: map<nat, Route>, cToR0: map<nat, nat>, firstId: nat,
                          routes: map<nat, Route>, cToR: map<nat, nat>, r: Route, c: nat,
                          routes': map<nat, Route>, cToR': map<nat, nat>)
    requires c !in cToR && r.id !in routes && firstId <= r.id && Singleton(p, r, r.id, c)
    requires routes' == routes[r.id := r] && cToR' == cToR[c := r.id]
    requires forall k | k in routes0 :: k in routes && routes[k] == routes0[k]
    requires forall c | c in cToR0 :: c in cToR && cToR[c] == cToR0[c]
    requires forall k | k in routes && k !in routes0 :: firstId <= k && SingletonOf(p, routes, cToR, k)
    ensures forall k | k in routes0 :: k in routes' && routes'[k] == routes0[k]
    ensures forall x | x in cToR0 :: x in cToR' && cToR'[x] == cToR0[x]
    ensures forall k | k in routes' && k !in routes0 :: firstId <= k && SingletonOf(p, routes', cToR', k)
  {
    forall k | k in routes' && k !in routes0 ensures firstId <= k && SingletonOf(p, routes', cToR', k) {
      if k != r.id {
        assert SingletonOf(p, routes, cToR, k);
      }
    }
  }

  /** The first half of `shaking`: `routes.pop(route_id)` and the pops of
      its customers from the index. The rest stays a valid solution, and
      the budget and exact lengths and rewards carry over. */
  method Destroy(p: Problem, routes0: map<nat, Route>, cToR0: map<nat, nat>, routeId: nat)
    returns (routes: map<nat, Route>, cToR: map<nat, nat>)
    requires SolutionValid(p, routes0, cToR0) && routeId in routes0
    ensures routes == routes0 - {routeId} && |routes| == |routes0| - 1
    ensures forall c :: c in cToR <==> c in cToR0 && c !in Interior(routes0[routeId].customers)
    ensures forall c | c in cToR :: cToR[c] == cToR0[c]
    ensures cToR == Unindexed(cToR0, Interior(routes0[routeId].customers))
    ensures SolutionValid(p, routes, cToR)
    ensures WithinBudget(p, routes0) ==> WithinBudget(p, routes)
    ensures LengthsExact(p, routes0) ==> LengthsExact(p, routes)
    ensures RewardsExact(p, routes0) ==> RewardsExact(p, routes)
  {
    var route := routes0[routeId];
    routes := routes0 - {routeId};
    assert WellFormed(p, route.customers);
    var inner := route.customers[1..|route.customers| - 1];
    assert inner == Interior(route.customers);
    forall c | c in inner ensures c in cToR0 {
      IndexedAt(routes0, cToR0, routeId, c);
    }
    cToR := Unindex(cToR0, inner);
    DestroyValid(p, routes0, cToR0, routeId, routes, cToR);
    assert routes.Keys == routes0.Keys - {routeId};
  }

  /** The tables `shaking` hands to the savings heuristic, for the ids
      numbered from firstId: route routeId dropped with the index entries of
      its customers, firstId one above the largest id left, and a dummy route
      under firstId, firstId + 1, ... for every customer then unserved whose
      round trip fits, in id order. */
  ghost predicate ShakenStart(p: Problem, routes0: map<nat, Route>, cToR0: map<nat, nat>, routeId: nat,
                              firstId: nat, routes: map<nat, Route>, cToR: map<nat, nat>)
    requires routeId in routes0
  {
    var rest := Unindexed(cToR0, Interior(routes0[routeId].customers));
    && firstId >= 1 && firstId - 1 in routes0 && firstId - 1 != routeId
    && (forall k | k in routes0 && k != routeId :: k < firstId)
    && WithDummies(p, routes0 - {routeId}, rest, Fitting(p, rest.Keys, p.Size()), firstId, routes, cToR)
  }

  /** The starting solution of `shaking`: route `routeId` destroyed, then
      a dummy route for every customer left unserved whose round trip fits,
      numbered from `max(routes.keys()) + 1` on. */
  method ShakeStart(p: Problem, routes0: map<nat, Route>, cToR0: map<nat, nat>, routeId: nat)
    returns (routes: map<nat, Route>, cToR: map<nat, nat>, newRouteId: nat)
    requires p.Valid() && SolutionValid(p, routes0, cToR0) && routeId in routes0 && |routes0| >= 2
    ensures SolutionValid(p, routes, cToR)
    ensures forall k | k in routes0 && k != routeId :: k in routes && routes[k] == routes0[k] && k < newRouteId
    ensures forall k | k in routes ::
      (k in routes0 && k != routeId) || (k >= newRouteId && SingletonOf(p, routes, cToR, k))
    ensures forall c: nat :: c in cToR <==>
      (c in cToR0 && c !in Interior(routes0[routeId].customers)) || (IsCustomer(p, c) && RoundTrip(p, c) <= p.tmax)
    ensures ShakenStart(p, routes0, cToR0, routeId, newRouteId, routes, cToR)
    ensures WithinBudget(p, routes0) ==> WithinBudget(p, routes)
    ensures LengthsExact(p, routes0) ==> LengthsExact(p, routes)
    ensures RewardsExact(p, routes0) ==> RewardsExact(p, routes)
  {
    var rest: map<nat, Route>, restIndex: map<nat, nat> := Destroy(p, routes0, cToR0, routeId);
    assert rest != map[] by {
      assert |rest| >= 1;
    }
    newRouteId := MaxKey(rest) + 1;
    routes, cToR := AddSingletons(p, rest, restIndex, newRouteId);
    assert newRouteId - 1 in rest;
    forall k | k in routes ensures (k in routes0 && k != routeId) || (k >= newRouteId && SingletonOf(p, routes, cToR, k)) {
      if k in rest {
        assert k in routes0 - {routeId};
      }
    }
  }

  /** `shaking`: drops route `routeId` (drawn at random in the source) and the
      index entries of its customers, gives every customer left unserved whose
      round trip fits the budget a dummy route numbered after the largest
      remaining id, and runs the savings heuristic from there. The result is
      a valid solution for the fleet, and exact lengths and rewards and the
      budget carry over. */
  method Shaking(p: Problem, sol: Solution, alpha: real, draw: nat -> nat, routeId: nat)
    returns (res: Solution, ghost start: Tables, ghost firstId: nat, ghost savings: seq<Saving>)
    requires p.Valid() && sol.Valid(p) && routeId in sol.routes && |sol.routes| >= 2
    ensures fresh(res)
    ensures ShakenStart(p, sol.routes, sol.cToR, routeId, firstId, start.routes, start.cToR)
    ensures SavingsOf(p, alpha, savings)
    ensures Tables(res.routes, res.cToR) == KeepBest(p, MergeRun(p, start, SortDesc(savings, SavingValue), draw, 0))
    ensures res.Valid(p) && |res.routes| <= p.nTrucks
    ensures WithinBudget(p, sol.routes) ==> WithinBudget(p, res.routes)
    ensures LengthsExact(p, sol.routes) ==> LengthsExact(p, res.routes)
    ensures RewardsExact(p, sol.routes) ==> RewardsExact(p, res.routes)
    ensures forall c | c in res.cToR :: c in sol.cToR || (IsCustomer(p, c) && RoundTrip(p, c) <= p.tmax)
  {
    var routes: map<nat, Route>, cToR: map<nat, nat>, newRouteId := ShakeStart(p, sol.routes, sol.cToR, routeId);
    firstId := newRouteId;
    var seed := new Solution(routes, cToR);
    res, start, savings := SavingsHeuristic(p, alpha, draw, seed);
  }
}
