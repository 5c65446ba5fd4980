/**
 * The biased-randomised selector `bra_selector` of src/top/heuristic.py.
 *
 * The generator sorts its candidates once by descending value and then, for
 * each element it yields, pops the element at index `raw % len(options)`,
 * where `raw = int(log(u, 1 - beta))` for a uniform draw u. The model takes
 * `raw` as an oracle argument; with every raw index 0 the selector is greedy.
 */
module BraSelection {

  /** Non-increasing by key. */
  ghost predicate SortedDesc<T>(s: seq<T>, key: T -> real) {
    forall i, j | 0 <= i < j < |s| :: key(s[i]) >= key(s[j])
  }

  /** Inserts x before the first element whose key is at most x's. */
  function Insert<T(==)>(x: T, s: seq<T>, key: T -> real): (r: seq<T>)
    ensures multiset(r) == multiset(s) + multiset{x}
    decreases |s|
  {
    if s == [] || key(x) >= key(s[0]) then
      [x] + s
    else
      assert s == [s[0]] + s[1..];
      [s[0]] + Insert(x, s[1..], key)
  }

  /** Insertion keeps a non-increasing sequence non-increasing. */
  lemma {:induction false} InsertSorted<T>(x: T, s: seq<T>, key: T -> real)
    requires SortedDesc(s, key)
    ensures SortedDesc(Insert(x, s, key), key)
    decreases |s|
  {
    if s != [] && key(x) < key(s[0]) {
      var rest := Insert(x, s[1..], key);
      InsertSorted(x, s[1..], key);
      assert Insert(x, s, key) == [s[0]] + rest;
      forall j | 0 <= j < |rest| ensures key(s[0]) >= key(rest[j]) {
        assert rest[j] in multiset(rest);
        assert rest[j] in multiset(s[1..]) || rest[j] == x;
        if rest[j] != x {
          var m :| 0 <= m < |s[1..]| && s[1..][m] == rest[j];
          assert s[m + 1] == rest[j];
        }
      }
    }
  }

  /** `sorted(lst, key=..., reverse=True)`: an insertion sort that keeps
      elements of equal key in their input order. */
  function SortDesc<T(==)>(s: seq<T>, key: T -> real): (r: seq<T>)
    ensures multiset(r) == multiset(s)
    ensures |r| == |s|
    ensures SortedDesc(r, key)
    decreases |s|
  {
    if s == [] then []
    else
      assert s == [s[0]] + s[1..];
      InsertSorted(s[0], SortDesc(s[1..], key), key);
      Insert(s[0], SortDesc(s[1..], key), key)
  }

  /** One step of the generator: the element at `raw % len` and what remains. */
  function PopAt<T>(options: seq<T>, raw: nat): (r: (T, seq<T>))
    requires options != []
  {
    var i := raw % |options|;
    (options[i], options[..i] + options[i + 1..])
  }

  /** Everything the generator yields when it is run to the end, given the
      raw index drawn for each step. */
  function Yields<T>(options: seq<T>, draws: seq<nat>): seq<T>
    requires |draws| >= |options|
    decreases |options|
  {
    if options == [] then []
    else
      var (e, rest) := PopAt(options, draws[0]);
      [e] + Yields(rest, draws[1..])
  }

  /** The generator yields exactly len(lst) elements, and they are the input
      elements in some order: every pop index is in range. */
  lemma {:induction false} YieldsPermutation<T>(options: seq<T>, draws: seq<nat>)
    requires |draws| >= |options|
    ensures |Yields(options, draws)| == |options|
    ensures multiset(Yields(options, draws)) == multiset(options)
    decreases |options|
  {
    if options != [] {
      var i := draws[0] % |options|;
      var rest := options[..i] + options[i + 1..];
      YieldsPermutation(rest, draws[1..]);
      assert options == options[..i] + [options[i]] + options[i + 1..];
      assert multiset(options) == multiset(rest) + multiset{options[i]};
    }
  }

  /** With every raw index 0 the generator yields its options in order. */
  lemma {:induction false} YieldsGreedy<T>(options: seq<T>, draws: seq<nat>)
    requires |draws| >= |options|
    requires forall k | 0 <= k < |draws| :: draws[k] == 0
    ensures Yields(options, draws) == options
    decreases |options|
  {
    if options != [] {
      assert options[..0] + options[1..] == options[1..];
      YieldsGreedy(options[1..], draws[1..]);
    }
  }

  /** A greedy run (every raw index 0) of the selector over any list yields
      the elements in non-increasing value order. */
  lemma GreedySelectionDescending<T>(lst: seq<T>, key: T -> real, draws: seq<nat>)
    requires |draws| >= |lst|
    requires forall k | 0 <= k < |draws| :: draws[k] == 0
    ensures SortedDesc(Yields(SortDesc(lst, key), draws), key)
    ensures multiset(Yields(SortDesc(lst, key), draws)) == multiset(lst)
  {
    YieldsGreedy(SortDesc(lst, key), draws);
  }

  /** The generator's state: the candidates not yet yielded, sorted by
      descending value. */
  class BraSelector<T(==)> {
    var options: seq<T>
    const key: T -> real

    /** `bra_selector(lst, beta)` before its first element is drawn. */
    constructor (lst: seq<T>, key: T -> real)
      ensures this.key == key
      ensures options == SortDesc(lst, key)
      ensures multiset(options) == multiset(lst) && SortedDesc(options, key)
    {
      this.key := key;
      options := SortDesc(lst, key);
    }

    /** Draws the next element: pops index `raw % len(options)`. */
    method Next(raw: nat) returns (e: T)
      requires options != []
      modifies this
      ensures (e, options) == PopAt(old(options), raw)
      ensures e in old(options)
      ensures multiset(options) + multiset{e} == multiset(old(options))
      ensures |options| == |old(options)| - 1
      ensures SortedDesc(old(options), key) ==> SortedDesc(options, key)
    {
      var idx := raw % |options|;
      e := options[idx];
      assert options == options[..idx] + [e] + options[idx + 1..];
      options := options[..idx] + options[idx + 1..];
    }
  }

  /** `next(bra_selector(lst, beta))`: a fresh selector over lst, drawn once. */
  method DrawOne<T(==)>(lst: seq<T>, key: T -> real, raw: nat) returns (e: T)
    requires lst != []
    ensures e == PopAt(SortDesc(lst, key), raw).0
    ensures e in lst
  {
    var selector := new BraSelector(lst, key);
    e := selector.Next(raw);
    assert e in multiset(lst);
  }
}
