/**
 * Filling the grid (generate.go): the arc-consistency filter, the AC3
 * worklist loop and the backtracking search over slot assignments.
 *
 * The source keys its assignment map by `*Variable`. Here slot i of the
 * slot list is key i; the source's own keys are discussed with
 * PointerKeysNeverComplete below.
 */
module Generate {
  import opened Wrappers
  import opened Lexicon
  import opened Crossword
  import CrosswordFacts

  // ---------------------------------------------------------------------
  // Assignments (generate.go:3-25).
  // ---------------------------------------------------------------------

  /** The keys of a complete assignment to n slots. */
  function Indices(n: nat): (r: set<nat>)
    ensures forall i: nat :: i in r <==> i < n
  {
    if n == 0 then {} else Indices(n - 1) + {n - 1}
  }

  lemma {:induction false} IndicesCardinality(n: nat)
    ensures |Indices(n)| == n
  {
    if n > 0 {
      IndicesCardinality(n - 1);
      var below := Indices(n - 1);
      assert n - 1 !in below;
      assert |below + {n - 1}| == |below| + 1;
    }
  }

  /** Every slot before i has a value. */
  predicate AssignedBefore(a: map<nat, string>, i: nat) {
    forall j: nat :: j < i ==> j in a
  }

  /** The first slot at or after `from` without a value, or n. */
  function FirstUnassigned(n: nat, a: map<nat, string>, from: nat): (i: nat)
    requires from <= n && AssignedBefore(a, from)
    ensures from <= i <= n && AssignedBefore(a, i)
    ensures i < n ==> i !in a
    decreases n - from
  {
    if from == n || from !in a then from else FirstUnassigned(n, a, from + 1)
  }

  /**
   * SelectUnassignedVariable (generate.go:4-11): a copy of the first slot,
   * in slot order, that has no value; the zero Variable when all have one.
   */
  function SelectUnassignedVariable(vars: seq<Variable>, a: map<nat, string>): (v: Variable)
    ensures (forall i :: 0 <= i < |vars| ==> i in a) ==> v == ZeroVariable
    ensures forall i :: 0 <= i < |vars| && i !in a && AssignedBefore(a, i) ==> v == vars[i]
  {
    var i := FirstUnassigned(|vars|, a, 0);
    if i < |vars| then vars[i] else ZeroVariable
  }

  /** Every slot from `from` on has a value. */
  function AssignedFrom(n: nat, a: map<nat, string>, from: nat): (r: bool)
    ensures r <==> forall j :: from <= j < n ==> j in a
    decreases n - from
  {
    if from >= n then true else from in a && AssignedFrom(n, a, from + 1)
  }

  /**
   * AllAssignmentsComplete (generate.go:14-25): the assignment has as many
   * entries as there are slots and every slot is a key; that is, its keys
   * are exactly the slots.
   */
  function AllAssignmentsComplete(vars: seq<Variable>, a: map<nat, string>): (r: bool)
    ensures r <==> a.Keys == Indices(|vars|)
  {
    IndicesCardinality(|vars|);
    if |vars| == |a| then
      var all := AssignedFrom(|vars|, a, 0);
      if all then
        assert Indices(|vars|) <= a.Keys;
        SubsetOfSameSize(Indices(|vars|), a.Keys);
        true
      else
        assert exists j :: 0 <= j < |vars| && j !in a;
        false
    else
      false
  }

  // ---------------------------------------------------------------------
  // The queue (generate.go:99-112). Slices are passed by value: neither
  // operation changes the caller's queue.
  // ---------------------------------------------------------------------

  /** Enqueue: the queue with v added at the back. */
  function Enqueue(q: seq<Variable>, v: Variable): (r: seq<Variable>)
    ensures |r| == |q| + 1 && r[..|q|] == q && r[|q|] == v
  {
    q + [v]
  }

  /** Dequeue: the front of the queue, or the zero Variable when it is empty. The caller's queue keeps its front. */
  function Dequeue(q: seq<Variable>): (v: Variable)
    ensures q != [] ==> v == q[0]
    ensures q == [] ==> v == ZeroVariable
  {
    if |q| > 0 then q[0] else ZeroVariable
  }

  /** The queue is first-in first-out: what Enqueue adds comes out of Dequeue only once everything before it has. */
  lemma {:induction false} EnqueueDequeue(q: seq<Variable>, vs: seq<Variable>)
    ensures Dequeue(EnqueueAll(q, vs)) == (if q != [] then q[0] else if vs != [] then vs[0] else ZeroVariable)
    decreases |vs|
  {
    if vs != [] {
      EnqueueDequeue(q, vs[..|vs| - 1]);
      var front := EnqueueAll(q, vs[..|vs| - 1]);
      assert EnqueueAll(q, vs) == Enqueue(front, vs[|vs| - 1]);
      if front != [] {
        assert EnqueueAll(q, vs)[0] == front[0];
      }
      if q == [] && |vs| > 1 {
        assert vs[..|vs| - 1][0] == vs[0];
      }
      if q == [] && |vs| == 1 {
        assert front == [];
      }
    }
  }

  /** Enqueueing several slots in order. */
  function EnqueueAll(q: seq<Variable>, vs: seq<Variable>): seq<Variable>
    decreases |vs|
  {
    if vs == [] then q else Enqueue(EnqueueAll(q, vs[..|vs| - 1]), vs[|vs| - 1])
  }

  // ---------------------------------------------------------------------
  // The arc-consistency filter (generate.go:27-43).
  // ---------------------------------------------------------------------

  /**
   * The look-ups of generate.go:35-36 are in range for `w`: its letter at
   * position i1 exists and is lowercase, and the lexicon has layer i2 for
   * words of length len2. Otherwise the source panics.
   */
  predicate WordFits(w: string, i1: int, lexicon: map<nat, seq<Layer>>, len2: nat, i2: int) {
    0 <= i1 < |w| && IsLower(w[i1]) && len2 in lexicon && 0 <= i2 < |lexicon[len2]|
  }

  /** Some word of length len2 has w's letter at position i2: its candidate bitset is not empty. */
  predicate Supports(w: string, i1: int, lexicon: map<nat, seq<Layer>>, len2: nat, i2: int)
    requires WordFits(w, i1, lexicon, len2, i2)
  {
    Candidates(lexicon, len2, i2, LetterIndex(w[i1])) != {}
  }

  predicate ArcDefined(domain: seq<string>, i1: int, lexicon: map<nat, seq<Layer>>, len2: nat, i2: int) {
    forall k :: 0 <= k < |domain| ==> WordFits(domain[k], i1, lexicon, len2, i2)
  }

  /** The words of `domain` that have support, in their order. */
  function ArcFilter(domain: seq<string>, i1: int, lexicon: map<nat, seq<Layer>>, len2: nat, i2: int): (r: seq<string>)
    requires ArcDefined(domain, i1, lexicon, len2, i2)
    ensures |r| <= |domain|
    decreases |domain|
  {
    if domain == [] then []
    else
      var last := domain[|domain| - 1];
      ArcFilter(domain[..|domain| - 1], i1, lexicon, len2, i2) + (if Supports(last, i1, lexicon, len2, i2) then [last] else [])
  }

  /**
   * EnforceArcConsistency (generate.go:31-43): var1 keeps exactly the words
   * of its domain whose letter at the overlap occurs, at var2's index of the
   * overlap, in some word of var2's length, and nothing else changes. The
   * letter is looked up by its alphabet index (see RawRuneIndexOutOfRange).
   */
  method EnforceArcConsistency(var1: Variable, var2: Variable, overlap: Point, lexicon: map<nat, seq<Layer>>) returns (r: Variable)
    requires ArcDefined(var1.domain, IndexOfCell(var1, overlap), lexicon, var2.length, IndexOfCell(var2, overlap))
    ensures r == var1.(domain := ArcFilter(var1.domain, IndexOfCell(var1, overlap), lexicon, var2.length, IndexOfCell(var2, overlap)))
  {
    var i1, i2 := IndexOfCell(var1, overlap), IndexOfCell(var2, overlap);
    var reducedDomain: seq<string> := [];
    for k := 0 to |var1.domain|
      invariant ArcDefined(var1.domain[..k], i1, lexicon, var2.length, i2)
      invariant reducedDomain == ArcFilter(var1.domain[..k], i1, lexicon, var2.length, i2)
    {
      var val1 := var1.domain[k];
      var charAtOverlap := val1[i1];
      var possibleVal2s := Candidates(lexicon, var2.length, i2, LetterIndex(charAtOverlap));
      if possibleVal2s != {} {
        reducedDomain := reducedDomain + [val1];
      }
      assert var1.domain[..k + 1][..k] == var1.domain[..k];
    }
    assert var1.domain[..|var1.domain|] == var1.domain;
    r := var1.(domain := reducedDomain);
  }

  /** s is obtained from t by deleting elements. */
  ghost predicate SubsequenceOf(s: seq<string>, t: seq<string>)
    decreases |t|
  {
    if s == [] then true
    else if t == [] then false
    else (s[|s| - 1] == t[|t| - 1] && SubsequenceOf(s[..|s| - 1], t[..|t| - 1])) || SubsequenceOf(s, t[..|t| - 1])
  }

  /** The filter keeps the domain's order: its result is a subsequence of the domain. */
  lemma {:induction false} ArcFilterSubsequence(domain: seq<string>, i1: int, lexicon: map<nat, seq<Layer>>, len2: nat, i2: int)
    requires ArcDefined(domain, i1, lexicon, len2, i2)
    ensures SubsequenceOf(ArcFilter(domain, i1, lexicon, len2, i2), domain)
    decreases |domain|
  {
    if domain != [] {
      var front := domain[..|domain| - 1];
      ArcFilterSubsequence(front, i1, lexicon, len2, i2);
      var r := ArcFilter(domain, i1, lexicon, len2, i2);
      if Supports(domain[|domain| - 1], i1, lexicon, len2, i2) {
        assert r == ArcFilter(front, i1, lexicon, len2, i2) + [domain[|domain| - 1]];
        assert r[..|r| - 1] == ArcFilter(front, i1, lexicon, len2, i2);
        assert SubsequenceOf(r[..|r| - 1], domain[..|domain| - 1]);
      } else {
        assert r == ArcFilter(front, i1, lexicon, len2, i2);
        assert SubsequenceOf(r, domain[..|domain| - 1]);
      }
    }
  }

  /** A word stays exactly when it was in the domain and has support. */
  lemma {:induction false} ArcFilterMembers(domain: seq<string>, i1: int, lexicon: map<nat, seq<Layer>>, len2: nat, i2: int)
    requires ArcDefined(domain, i1, lexicon, len2, i2)
    ensures forall w :: w in ArcFilter(domain, i1, lexicon, len2, i2) <==>
      w in domain && WordFits(w, i1, lexicon, len2, i2) && Supports(w, i1, lexicon, len2, i2)
    decreases |domain|
  {
    if domain != [] {
      var front := domain[..|domain| - 1];
      ArcFilterMembers(front, i1, lexicon, len2, i2);
      assert domain == front + [domain[|domain| - 1]];
    }
  }

  /** The filtered domain still meets the filter's precondition. */
  lemma ArcFilterDefined(domain: seq<string>, i1: int, lexicon: map<nat, seq<Layer>>, len2: nat, i2: int)
    requires ArcDefined(domain, i1, lexicon, len2, i2)
    ensures ArcDefined(ArcFilter(domain, i1, lexicon, len2, i2), i1, lexicon, len2, i2)
  {
    ArcFilterMembers(domain, i1, lexicon, len2, i2);
    var r := ArcFilter(domain, i1, lexicon, len2, i2);
    forall k | 0 <= k < |r|
      ensures WordFits(r[k], i1, lexicon, len2, i2)
    {
      assert r[k] in r;
    }
  }

  /** Filtering twice against the same arc gives the same domain as filtering once. */
  lemma {:induction false} ArcFilterIdempotent(domain: seq<string>, i1: int, lexicon: map<nat, seq<Layer>>, len2: nat, i2: int)
    requires ArcDefined(domain, i1, lexicon, len2, i2)
    ensures ArcDefined(ArcFilter(domain, i1, lexicon, len2, i2), i1, lexicon, len2, i2)
    ensures ArcFilter(ArcFilter(domain, i1, lexicon, len2, i2), i1, lexicon, len2, i2) == ArcFilter(domain, i1, lexicon, len2, i2)
    decreases |domain|
  {
    ArcFilterDefined(domain, i1, lexicon, len2, i2);
    if domain != [] {
      var front := domain[..|domain| - 1];
      var last := domain[|domain| - 1];
      assert ArcDefined(front, i1, lexicon, len2, i2);
      ArcFilterIdempotent(front, i1, lexicon, len2, i2);
      var rf := ArcFilter(front, i1, lexicon, len2, i2);
      var r := ArcFilter(domain, i1, lexicon, len2, i2);
      if Supports(last, i1, lexicon, len2, i2) {
        assert r == rf + [last];
        assert r[..|r| - 1] == rf;
        assert r[|r| - 1] == last;
      } else {
        assert r == rf;
      }
    }
  }

  /**
   * With a lexicon that indexes the dictionary, a word keeps its place
   * exactly when some word of var2's length class has the same letter at
   * var2's overlap index: support comes from the whole class, not from
   * var2's own domain.
   */
  lemma ArcFilterMeaning(allWords: map<nat, seq<string>>, lexicon: map<nat, seq<Layer>>, domain: seq<string>, i1: int, len2: nat, i2: nat)
    requires WellKeyed(allWords) && Indexes(allWords, lexicon)
    requires len2 in allWords && i2 < len2
    requires ArcDefined(domain, i1, lexicon, len2, i2)
    ensures forall w :: w in ArcFilter(domain, i1, lexicon, len2, i2) <==>
      w in domain && 0 <= i1 < |w| && exists j :: 0 <= j < |allWords[len2]| && allWords[len2][j][i2] == w[i1]
  {
    ArcFilterMembers(domain, i1, lexicon, len2, i2);
    forall w | w in domain
      ensures WordFits(w, i1, lexicon, len2, i2) && (Supports(w, i1, lexicon, len2, i2) <==>
        exists j :: 0 <= j < |allWords[len2]| && allWords[len2][j][i2] == w[i1])
    {
      var k :| 0 <= k < |domain| && domain[k] == w;
      var c := LetterIndex(w[i1]);
      CandidatesEmptyIff(allWords, lexicon, len2, i2, c);
    }
  }

  // ---------------------------------------------------------------------
  // AC3 (generate.go:45-63).
  // ---------------------------------------------------------------------

  /** The other direction: a slot crosses only slots running the other way. */
  function Opposite(d: Direction): (e: Direction)
    ensures e != d
  {
    if d == Across then Down else Across
  }

  /** The position of the first slot anchored at p that runs in direction d, from `from` on, or |vars|. */
  function CrossingIndex(vars: seq<Variable>, p: Point, d: Direction, from: nat): (i: nat)
    requires from <= |vars|
    ensures from <= i <= |vars|
    ensures forall j :: from <= j < i ==> !(vars[j].coordinates == p && vars[j].direction == d)
    ensures i < |vars| ==> vars[i].coordinates == p && vars[i].direction == d
    decreases |vars| - from
  {
    if from == |vars| || (vars[from].coordinates == p && vars[from].direction == d) then from
    else CrossingIndex(vars, p, d, from + 1)
  }

  /**
   * The neighbour of v1 anchored at k, looked up by its anchor and by the
   * direction it must run in to cross v1: the first such slot, or the zero
   * Variable. GetVariable (crossword.go:207-214) looks up the anchor alone;
   * see AnchorLookupMissesCrossing for where that goes wrong.
   */
  function Crossing(vars: seq<Variable>, v1: Variable, k: Point): (v: Variable)
    ensures (forall i :: 0 <= i < |vars| ==> !(vars[i].coordinates == k && vars[i].direction == Opposite(v1.direction))) ==> v == ZeroVariable
    ensures forall i ::
      (&& 0 <= i < |vars| && vars[i].coordinates == k && vars[i].direction == Opposite(v1.direction)
       && forall j :: 0 <= j < i ==> !(vars[j].coordinates == k && vars[j].direction == Opposite(v1.direction)))
      ==> v == vars[i]
  {
    var i := CrossingIndex(vars, k, Opposite(v1.direction), 0);
    if i < |vars| then vars[i] else ZeroVariable
  }

  /** The arc from v1 to its neighbour anchored at k is in range for the word w. */
  predicate ArcFits(w: string, v1: Variable, vars: seq<Variable>, lexicon: map<nat, seq<Layer>>, k: Point) {
    && k in v1.neighbors
    && WordFits(w, IndexOfCell(v1, v1.neighbors[k]), lexicon, Crossing(vars, v1, k).length,
                IndexOfCell(Crossing(vars, v1, k), v1.neighbors[k]))
  }

  /** w has support across the arc from v1 to its neighbour anchored at k. */
  predicate ArcSupports(w: string, v1: Variable, vars: seq<Variable>, lexicon: map<nat, seq<Layer>>, k: Point)
    requires ArcFits(w, v1, vars, lexicon, k)
  {
    Supports(w, IndexOfCell(v1, v1.neighbors[k]), lexicon, Crossing(vars, v1, k).length,
             IndexOfCell(Crossing(vars, v1, k), v1.neighbors[k]))
  }

  /** w has support across every arc from v1 to a neighbour in `keys`. */
  predicate Survives(w: string, v1: Variable, vars: seq<Variable>, lexicon: map<nat, seq<Layer>>, keys: set<Point>) {
    forall k :: k in keys ==> ArcFits(w, v1, vars, lexicon, k) && ArcSupports(w, v1, vars, lexicon, k)
  }

  /** The words of `domain` that survive the arcs to `keys`, in order. */
  function Survivors(domain: seq<string>, v1: Variable, vars: seq<Variable>, lexicon: map<nat, seq<Layer>>, keys: set<Point>): seq<string>
    decreases |domain|
  {
    if domain == [] then []
    else
      var last := domain[|domain| - 1];
      Survivors(domain[..|domain| - 1], v1, vars, lexicon, keys) + (if Survives(last, v1, vars, lexicon, keys) then [last] else [])
  }

  /** Every arc out of v1 is in range for every word of v1's domain (the source panics otherwise). */
  ghost predicate ArcsDefined(v1: Variable, vars: seq<Variable>, lexicon: map<nat, seq<Layer>>) {
    forall w, k :: w in v1.domain && k in v1.neighbors ==> ArcFits(w, v1, vars, lexicon, k)
  }

  lemma {:induction false} SurvivorsMembers(domain: seq<string>, v1: Variable, vars: seq<Variable>, lexicon: map<nat, seq<Layer>>, keys: set<Point>)
    ensures forall w :: w in Survivors(domain, v1, vars, lexicon, keys) <==> w in domain && Survives(w, v1, vars, lexicon, keys)
    decreases |domain|
  {
    if domain != [] {
      var front := domain[..|domain| - 1];
      SurvivorsMembers(front, v1, vars, lexicon, keys);
      assert domain == front + [domain[|domain| - 1]];
    }
  }

  /** Surviving one more arc: surviving the others and having support across it. */
  lemma SurvivesOneMore(w: string, v1: Variable, vars: seq<Variable>, lexicon: map<nat, seq<Layer>>, keys: set<Point>, k: Point)
    requires ArcFits(w, v1, vars, lexicon, k)
    ensures Survives(w, v1, vars, lexicon, keys + {k}) <==>
      Survives(w, v1, vars, lexicon, keys) && ArcSupports(w, v1, vars, lexicon, k)
  {
  }

  /** The survivors still meet the precondition of the filter for the arc to k. */
  lemma SurvivorsDefined(domain: seq<string>, v1: Variable, vars: seq<Variable>, lexicon: map<nat, seq<Layer>>,
                         keys: set<Point>, i1: int, len2: nat, i2: int)
    requires forall w :: w in domain ==> WordFits(w, i1, lexicon, len2, i2)
    ensures ArcDefined(Survivors(domain, v1, vars, lexicon, keys), i1, lexicon, len2, i2)
  {
    var s := Survivors(domain, v1, vars, lexicon, keys);
    SurvivorsMembers(domain, v1, vars, lexicon, keys);
    forall j | 0 <= j < |s|
      ensures WordFits(s[j], i1, lexicon, len2, i2)
    {
      assert s[j] in s;
    }
  }

  /**
   * Filtering the survivors of some arcs against one more arc, the one to
   * the neighbour anchored at k, gives the survivors of all of them.
   */
  lemma {:induction false} FilterOneMore(domain: seq<string>, v1: Variable, vars: seq<Variable>, lexicon: map<nat, seq<Layer>>,
                                         keys: set<Point>, k: Point, i1: int, len2: nat, i2: int)
    requires k in v1.neighbors
    requires i1 == IndexOfCell(v1, v1.neighbors[k])
    requires len2 == Crossing(vars, v1, k).length && i2 == IndexOfCell(Crossing(vars, v1, k), v1.neighbors[k])
    requires forall w :: w in domain ==> WordFits(w, i1, lexicon, len2, i2)
    ensures ArcDefined(Survivors(domain, v1, vars, lexicon, keys), i1, lexicon, len2, i2)
    ensures ArcFilter(Survivors(domain, v1, vars, lexicon, keys), i1, lexicon, len2, i2)
         == Survivors(domain, v1, vars, lexicon, keys + {k})
    decreases |domain|
  {
    SurvivorsDefined(domain, v1, vars, lexicon, keys, i1, len2, i2);
    if domain != [] {
      var front := domain[..|domain| - 1];
      var last := domain[|domain| - 1];
      assert last in domain;
      assert forall w :: w in front ==> w in domain;
      FilterOneMore(front, v1, vars, lexicon, keys, k, i1, len2, i2);
      assert ArcFits(last, v1, vars, lexicon, k);
      SurvivesOneMore(last, v1, vars, lexicon, keys, k);
      var s := Survivors(domain, v1, vars, lexicon, keys);
      var sf := Survivors(front, v1, vars, lexicon, keys);
      if Survives(last, v1, vars, lexicon, keys) {
        assert s == sf + [last];
        assert s[..|s| - 1] == sf;
      } else {
        assert s == sf;
      }
    }
  }

  /** The outcome of AC3: `true`, `false`, or no answer within the number of passes allowed. */
  datatype Outcome = Consistent | Exhausted | OutOfFuel

  /**
   * AC3 (generate.go:49-63) as written. Dequeue leaves the queue as it is
   * and the queue Enqueue returns is dropped, so every pass of the outer
   * loop works on a fresh copy of the same front slot: it filters the copy's
   * domain against each neighbour in turn (in the map's unspecified order)
   * and answers `false` as soon as the domain is empty. A pass that ends
   * with words left is repeated for ever; `fuel` bounds the number of
   * passes. Only copies change: the slot list is never updated.
   *
   * So the answer is `true` exactly for the empty queue, and `false`
   * exactly when, within the passes allowed, the front slot has neighbours
   * and no word of its domain survives all of them.
   */
  method AC3(queue: seq<Variable>, vars: seq<Variable>, lexicon: map<nat, seq<Layer>>, fuel: nat) returns (r: Outcome)
    requires queue != [] ==> ArcsDefined(queue[0], vars, lexicon)
    ensures r == Consistent <==> queue == []
    ensures r == Exhausted <==> (queue != [] && fuel > 0 && queue[0].neighbors != map[]
      && Survivors(queue[0].domain, queue[0], vars, lexicon, queue[0].neighbors.Keys) == [])
  {
    var passes: nat := fuel;
    while |queue| > 0
      invariant passes <= fuel
      invariant queue != [] && passes < fuel ==>
        queue[0].neighbors == map[] || Survivors(queue[0].domain, queue[0], vars, lexicon, queue[0].neighbors.Keys) != []
      decreases passes
    {
      if passes == 0 {
        return OutOfFuel;
      }
      passes := passes - 1;
      var var1 := Dequeue(queue);
      var exhausted := FilterPass(var1, queue, vars, lexicon);
      if exhausted {
        return Exhausted;
      }
    }
    return Consistent;
  }

  /**
   * One pass of the outer loop of AC3 (generate.go:53-60) on the copy var1
   * of the front slot: var1's domain is filtered against each neighbour in
   * turn, and the pass answers true as soon as it is empty. That happens
   * exactly when var1 has neighbours and no word survives all of them.
   */
  method FilterPass(var1: Variable, queue: seq<Variable>, vars: seq<Variable>, lexicon: map<nat, seq<Layer>>) returns (exhausted: bool)
    requires ArcsDefined(var1, vars, lexicon)
    ensures exhausted <==> var1.neighbors != map[] && Survivors(var1.domain, var1, vars, lexicon, var1.neighbors.Keys) == []
  {
    SurvivorsIdentity(var1.domain, var1, vars, lexicon);
    var current := var1;
    var keys := var1.neighbors.Keys;
    ghost var done: set<Point> := {};
    while keys != {}
      invariant keys <= var1.neighbors.Keys && done == var1.neighbors.Keys - keys
      invariant current == var1.(domain := Survivors(var1.domain, var1, vars, lexicon, done))
      invariant done != {} ==> current.domain != []
      decreases keys
    {
      var var2Coords :| var2Coords in keys;
      var overlap := current.neighbors[var2Coords];
      var var2 := Crossing(vars, var1, var2Coords);
      var discarded := Enqueue(queue, var2);
      PassStep(var1, vars, lexicon, done, var2Coords);
      current := EnforceArcConsistency(current, var2, overlap, lexicon);
      keys := keys - {var2Coords};
      done := done + {var2Coords};
      if |current.domain| == 0 {
        SurvivorsShrink(var1.domain, var1, vars, lexicon, done, var1.neighbors.Keys);
        return true;
      }
    }
    assert done == var1.neighbors.Keys;
    return false;
  }

  /**
   * One step of a pass of AC3: filtering the survivors of the arcs in
   * `done` against the arc to k is in range and leaves the survivors of
   * `done` and k.
   */
  lemma PassStep(head: Variable, vars: seq<Variable>, lexicon: map<nat, seq<Layer>>, done: set<Point>, k: Point)
    requires ArcsDefined(head, vars, lexicon) && k in head.neighbors
    ensures var var1, var2 := head.(domain := Survivors(head.domain, head, vars, lexicon, done)), Crossing(vars, head, k);
      var overlap := var1.neighbors[k];
      && ArcDefined(var1.domain, IndexOfCell(var1, overlap), lexicon, var2.length, IndexOfCell(var2, overlap))
      && var1.(domain := ArcFilter(var1.domain, IndexOfCell(var1, overlap), lexicon, var2.length, IndexOfCell(var2, overlap)))
         == head.(domain := Survivors(head.domain, head, vars, lexicon, done + {k}))
  {
    var var2, overlap := Crossing(vars, head, k), head.neighbors[k];
    forall w | w in head.domain
      ensures WordFits(w, IndexOfCell(head, overlap), lexicon, var2.length, IndexOfCell(var2, overlap))
    {
      assert ArcFits(w, head, vars, lexicon, k);
    }
    FilterOneMore(head.domain, head, vars, lexicon, done, k,
                  IndexOfCell(head, overlap), var2.length, IndexOfCell(var2, overlap));
  }

  /** No arcs: every word survives. */
  lemma {:induction false} SurvivorsIdentity(domain: seq<string>, v1: Variable, vars: seq<Variable>, lexicon: map<nat, seq<Layer>>)
    ensures Survivors(domain, v1, vars, lexicon, {}) == domain
    decreases |domain|
  {
    if domain != [] {
      SurvivorsIdentity(domain[..|domain| - 1], v1, vars, lexicon);
      assert domain == domain[..|domain| - 1] + [domain[|domain| - 1]];
    }
  }

  /** More arcs leave no more survivors: once none survive some arcs, none survive a superset of them. */
  lemma SurvivorsShrink(domain: seq<string>, v1: Variable, vars: seq<Variable>, lexicon: map<nat, seq<Layer>>, keys: set<Point>, more: set<Point>)
    requires keys <= more && Survivors(domain, v1, vars, lexicon, keys) == []
    ensures Survivors(domain, v1, vars, lexicon, more) == []
  {
    SurvivorsMembers(domain, v1, vars, lexicon, keys);
    SurvivorsMembers(domain, v1, vars, lexicon, more);
    var s := Survivors(domain, v1, vars, lexicon, more);
    if s != [] {
      assert false;
    }
  }

  // ---------------------------------------------------------------------
  // The arcs of a scanned grid are in range.
  // ---------------------------------------------------------------------

  /** Two slots agree in anchor, direction, length and cells; InitNeighbors and InitDomain change none of these. */
  predicate SameShape(v: Variable, w: Variable) {
    v.coordinates == w.coordinates && v.direction == w.direction && v.length == w.length && v.cells == w.cells
  }

  /** `vars` is the scan of g with any neighbours and domains. */
  ghost predicate ShapedLike(vars: seq<Variable>, g: Grid, allWords: map<nat, seq<string>>) {
    var s := ScanSlots(g, allWords);
    |vars| == |s| && forall j :: 0 <= j < |vars| ==> SameShape(vars[j], s[j])
  }

  /**
   * On a scanned grid whose slot i has its neighbours, the look-up by anchor
   * and opposite direction finds, for every neighbour entry, a slot of the
   * list anchored there that runs the other way, and the entry's cell lies
   * in both slots: both indices of generate.go:35-36 are in range.
   */
  lemma CrossingLookupDefined(g: Grid, allWords: map<nat, seq<string>>, vars: seq<Variable>, i: nat, k: Point)
    requires CrosswordFacts.Rectangular(g) && ShapedLike(vars, g, allWords)
    requires i < |vars| && vars[i].neighbors == NeighborsFrom(ScanSlots(g, allWords)[i], ScanSlots(g, allWords))
    requires k in vars[i].neighbors
    ensures var p, w := vars[i].neighbors[k], Crossing(vars, vars[i], k);
      && w in vars && w.coordinates == k && w.direction != vars[i].direction
      && 0 <= IndexOfCell(vars[i], p) < vars[i].length
      && 0 <= IndexOfCell(w, p) < w.length
  {
    var s := ScanSlots(g, allWords);
    var v1 := s[i];
    CrosswordFacts.NeighborsFromValues(v1, s);
    var j := CrosswordFacts.LastOverlap(v1, s, k);
    assert j >= 0;
    var p := NeighborsFrom(v1, s)[k];
    assert p in v1.cells && p in s[j].cells;
    CrosswordFacts.ScanOverlapsSymmetric(g, allWords, i, j);
    var d := Opposite(v1.direction);
    assert s[j].direction == d;
    CrosswordFacts.ScanSlotsOrdered(g, allWords);
    forall j' | 0 <= j' < j
      ensures !(vars[j'].coordinates == k && vars[j'].direction == d)
    {
      assert CrosswordFacts.Before(s[j'], s[j]);
    }
    assert Crossing(vars, vars[i], k) == vars[j];
    CrosswordFacts.ScanSlotsExact(g, allWords);
    assert CrosswordFacts.IsSlot(g, s[i], allWords) && CrosswordFacts.IsSlot(g, s[j], allWords);
  }

  /**
   * Every arc of a linked scan is in range: when the slot list is the scan
   * of g, slot i has its neighbours and the words of its length, the words
   * are filed by length and lowercase, the lexicon indexes them and every
   * slot's length has words, then AC3 and BacktrackAC3 can be called on
   * slot i without a look-up out of range.
   */
  lemma LinkedArcsDefined(g: Grid, allWords: map<nat, seq<string>>, lexicon: map<nat, seq<Layer>>, vars: seq<Variable>, i: nat)
    requires CrosswordFacts.Rectangular(g) && ShapedLike(vars, g, allWords)
    requires WellKeyed(allWords) && Lowercase(allWords) && Indexes(allWords, lexicon)
    requires forall j :: 0 <= j < |vars| ==> vars[j].length in allWords
    requires i < |vars| && vars[i].neighbors == NeighborsFrom(ScanSlots(g, allWords)[i], ScanSlots(g, allWords))
    requires vars[i].domain == WordsOfLength(allWords, vars[i].length)
    ensures ArcsDefined(vars[i], vars, lexicon)
  {
    var v1 := vars[i];
    forall w, k | w in v1.domain && k in v1.neighbors
      ensures ArcFits(w, v1, vars, lexicon, k)
    {
      CrossingLookupDefined(g, allWords, vars, i, k);
      var p, v2 := v1.neighbors[k], Crossing(vars, v1, k);
      var i1, i2 := IndexOfCell(v1, p), IndexOfCell(v2, p);
      var n :| 0 <= n < |allWords[v1.length]| && allWords[v1.length][n] == w;
      assert |w| == v1.length && IsLower(w[i1]);
      assert v2.length in allWords;
      CandidatesEmptyIff(allWords, lexicon, v2.length, 0, 0);
    }
  }

  // ---------------------------------------------------------------------
  // Backtracking search (generate.go:65-97).
  // ---------------------------------------------------------------------

  /** The slots without a value. */
  function Unassigned(n: nat, a: map<nat, string>): set<nat> {
    set i: nat | i < n && i !in a
  }

  lemma AssignShrinks(n: nat, a: map<nat, string>, i: nat, w: string)
    requires i < n && i !in a
    ensures |Unassigned(n, a[i := w])| < |Unassigned(n, a)|
  {
    assert Unassigned(n, a[i := w]) == Unassigned(n, a) - {i};
  }

  /**
   * What BacktrackAC3 returns for the assignment `a` (None for nil): `a`
   * itself once complete; otherwise the first success of trying, in domain
   * order, each value of the first unassigned slot.
   */
  function Search(vars: seq<Variable>, a: map<nat, string>): Option<map<nat, string>>
    decreases |Unassigned(|vars|, a)|, 1
  {
    if AllAssignmentsComplete(vars, a) then Some(a)
    else
      var i := FirstUnassigned(|vars|, a, 0);
      TryValues(vars, a, i, SelectUnassignedVariable(vars, a).domain, 0)
  }

  /** The loop of BacktrackAC3 from the k-th value of the slot's saved domain on. */
  function TryValues(vars: seq<Variable>, a: map<nat, string>, i: nat, domain: seq<string>, k: nat): Option<map<nat, string>>
    requires domain != [] ==> i < |vars| && i !in a
    requires k <= |domain|
    decreases |Unassigned(|vars|, a)|, 0, |domain| - k
  {
    if k == |domain| then None
    else
      AssignShrinks(|vars|, a, i, domain[k]);
      match Search(vars, a[i := domain[k]])
      case Some(r) => Some(r)
      case None => TryValues(vars, a, i, domain, k + 1)
  }

  /** One turn of the value loop: the k-th value's answer if it succeeds, else the rest of the loop. */
  lemma TryValuesStep(vars: seq<Variable>, a: map<nat, string>, i: nat, domain: seq<string>, k: nat)
    requires i < |vars| && i !in a
    requires k < |domain|
    ensures var first := Search(vars, a[i := domain[k]]);
      TryValues(vars, a, i, domain, k) == if first.Some? then first else TryValues(vars, a, i, domain, k + 1)
  {
  }

  /** Every value from the k-th on fails. */
  ghost predicate AllFail(vars: seq<Variable>, a: map<nat, string>, i: nat, domain: seq<string>, k: nat) {
    forall j :: k <= j < |domain| ==> Search(vars, a[i := domain[j]]).None?
  }

  /**
   * The value loop answers nothing exactly when every remaining value fails,
   * and otherwise the answer of the first value that succeeds.
   */
  lemma {:induction false} TryValuesFirst(vars: seq<Variable>, a: map<nat, string>, i: nat, domain: seq<string>, k: nat)
    requires domain != [] ==> i < |vars| && i !in a
    requires k <= |domain|
    ensures TryValues(vars, a, i, domain, k).None? <==> AllFail(vars, a, i, domain, k)
    ensures TryValues(vars, a, i, domain, k).Some? ==>
      exists j :: k <= j < |domain| && Search(vars, a[i := domain[j]]) == TryValues(vars, a, i, domain, k)
        && AllFail(vars, a, i, domain[..j], k)
    decreases |domain| - k
  {
    var r := TryValues(vars, a, i, domain, k);
    if k < |domain| {
      TryValuesFirst(vars, a, i, domain, k + 1);
      TryValuesStep(vars, a, i, domain, k);
      var first := Search(vars, a[i := domain[k]]);
      if first.None? {
        assert r == TryValues(vars, a, i, domain, k + 1);
        assert AllFail(vars, a, i, domain, k) <==> AllFail(vars, a, i, domain, k + 1) by {
          if AllFail(vars, a, i, domain, k + 1) {
            forall j | k <= j < |domain| ensures Search(vars, a[i := domain[j]]).None? {
              if j > k {
                assert k + 1 <= j;
              }
            }
          }
        }
        if r.Some? {
          var j :| k + 1 <= j < |domain| && Search(vars, a[i := domain[j]]) == r && AllFail(vars, a, i, domain[..j], k + 1);
          assert AllFail(vars, a, i, domain[..j], k);
        }
      } else {
        assert r == first;
        assert !AllFail(vars, a, i, domain, k) by {
          assert Search(vars, a[i := domain[k]]).Some?;
        }
        assert AllFail(vars, a, i, domain[..k], k);
      }
    }
  }

  /** A Go map: shared, updated in place by the search. */
  class Assignment {
    var entries: map<nat, string>

    constructor (entries: map<nat, string>)
      ensures this.entries == entries
    {
      this.entries := entries;
    }
  }

  /**
   * Slot i can be selected by the search from `a`: it has no value, and no
   * slot before it without a value has an empty domain, at which the search
   * would answer nil before reaching i.
   */
  ghost predicate Selectable(vars: seq<Variable>, a: map<nat, string>, i: int) {
    && 0 <= i < |vars| && i !in a
    && forall j :: 0 <= j < i && j !in a ==> vars[j].domain != []
  }

  /**
   * BacktrackAC3 (generate.go:65-97) with slot indices as keys: when the
   * assignment is complete it is returned; otherwise each value of the first
   * unassigned slot's saved domain is tried in order: the slot gets the
   * value, AC3 runs on a copy whose domain is just that value (its answer is
   * ignored, as in the source), and the search recurses; a failed value is
   * deleted again. It answers nil once every value has failed.
   *
   * The result is the assignment object itself or nil, exactly as Search
   * says; on nil the assignment is as it was. Only the arcs of slots the
   * search can select must be in range.
   */
  method BacktrackAC3(vars: seq<Variable>, lexicon: map<nat, seq<Layer>>, assignment: Assignment) returns (result: Assignment?)
    requires forall i :: Selectable(vars, assignment.entries, i) ==> ArcsDefined(vars[i], vars, lexicon)
    modifies assignment
    ensures result != null ==> result == assignment && Search(vars, old(assignment.entries)) == Some(assignment.entries)
    ensures result == null ==> Search(vars, old(assignment.entries)) == None && assignment.entries == old(assignment.entries)
    decreases |Unassigned(|vars|, assignment.entries)|
  {
    if AllAssignmentsComplete(vars, assignment.entries) {
      return assignment;
    }
    var var1 := SelectUnassignedVariable(vars, assignment.entries);
    var slot := FirstUnassigned(|vars|, assignment.entries, 0);
    var savedDomain := var1.domain;
    assert savedDomain != [] ==> slot < |vars| && slot !in assignment.entries && var1 == vars[slot];
    for k := 0 to |savedDomain|
      invariant assignment.entries == old(assignment.entries)
      invariant var1 == SelectUnassignedVariable(vars, old(assignment.entries))
      invariant Search(vars, old(assignment.entries)) == TryValues(vars, old(assignment.entries), slot, savedDomain, k)
    {
      var val := savedDomain[k];
      assignment.entries := assignment.entries[slot := val];
      var1 := var1.(domain := [val]);
      var arcs := [var1];
      assert Selectable(vars, old(assignment.entries), slot);
      OneValueArcsDefined(vars[slot], val, vars, lexicon);
      var ignored := AC3(arcs, vars, lexicon, 1);
      AssignShrinks(|vars|, old(assignment.entries), slot, val);
      SelectableAfterAssign(vars, lexicon, old(assignment.entries), slot, val);
      result := BacktrackAC3(vars, lexicon, assignment);
      if result != null {
        return result;
      }
      assignment.entries := assignment.entries - {slot};
      assert assignment.entries == old(assignment.entries);
      var1 := var1.(domain := savedDomain);
    }
    return null;
  }

  /** A copy of v1 whose domain is one word of v1's domain keeps its arcs in range. */
  lemma OneValueArcsDefined(v1: Variable, val: string, vars: seq<Variable>, lexicon: map<nat, seq<Layer>>)
    requires ArcsDefined(v1, vars, lexicon) && val in v1.domain
    ensures ArcsDefined(v1.(domain := [val]), vars, lexicon)
  {
    var v := v1.(domain := [val]);
    forall w, key | w in v.domain && key in v.neighbors
      ensures ArcFits(w, v, vars, lexicon, key)
    {
      assert ArcFits(w, v1, vars, lexicon, key);
    }
  }

  /**
   * Giving the selected slot, whose domain is not empty, a value leaves only
   * slots that could already be selected, so their arcs stay in range.
   */
  lemma SelectableAfterAssign(vars: seq<Variable>, lexicon: map<nat, seq<Layer>>, a: map<nat, string>, slot: nat, val: string)
    requires forall i :: Selectable(vars, a, i) ==> ArcsDefined(vars[i], vars, lexicon)
    requires slot < |vars| && vars[slot].domain != []
    ensures forall i :: Selectable(vars, a[slot := val], i) ==> ArcsDefined(vars[i], vars, lexicon)
  {
    forall i | Selectable(vars, a[slot := val], i)
      ensures ArcsDefined(vars[i], vars, lexicon)
    {
      assert Selectable(vars, a, i);
    }
  }

  /**
   * When the first slot without a value has an empty saved domain, the loop
   * of generate.go:76-95 runs no turn and the search answers nil at once:
   * that slot is the only one it can select, and with no word its arcs are
   * never looked up, whatever the lexicon.
   */
  lemma EmptyOpenSlotStopsSearch(vars: seq<Variable>, a: map<nat, string>, i: nat, lexicon: map<nat, seq<Layer>>)
    requires i < |vars| && i !in a && AssignedBefore(a, i) && vars[i].domain == []
    ensures Search(vars, a) == None
    ensures forall j :: Selectable(vars, a, j) ==> j == i
    ensures forall j :: Selectable(vars, a, j) ==> ArcsDefined(vars[j], vars, lexicon)
  {
    assert !AllAssignmentsComplete(vars, a);
    assert SelectUnassignedVariable(vars, a) == vars[i];
  }

  /** r keeps every value of a. */
  ghost predicate Extends(a: map<nat, string>, r: map<nat, string>) {
    forall j :: j in a ==> j in r && r[j] == a[j]
  }

  /** Every value r adds to a comes from its slot's domain. */
  ghost predicate FromDomains(vars: seq<Variable>, a: map<nat, string>, r: map<nat, string>) {
    forall j :: j in r && j !in a ==> j < |vars| && r[j] in vars[j].domain
  }

  /**
   * What the search finds is a complete assignment that keeps the values it
   * started from and takes every new value from its slot's domain.
   */
  lemma {:induction false} SearchSound(vars: seq<Variable>, a: map<nat, string>)
    ensures Search(vars, a).Some? ==>
      var r := Search(vars, a).value;
      AllAssignmentsComplete(vars, r) && Extends(a, r) && FromDomains(vars, a, r)
    decreases |Unassigned(|vars|, a)|, 1
  {
    if !AllAssignmentsComplete(vars, a) {
      var i := FirstUnassigned(|vars|, a, 0);
      var domain := SelectUnassignedVariable(vars, a).domain;
      if domain != [] {
        assert domain == vars[i].domain;
      }
      TryValuesSound(vars, a, i, domain, 0);
    }
  }

  lemma {:induction false} TryValuesSound(vars: seq<Variable>, a: map<nat, string>, i: nat, domain: seq<string>, k: nat)
    requires domain != [] ==> i < |vars| && i !in a && domain == vars[i].domain
    requires k <= |domain|
    ensures TryValues(vars, a, i, domain, k).Some? ==>
      var r := TryValues(vars, a, i, domain, k).value;
      AllAssignmentsComplete(vars, r) && Extends(a, r) && FromDomains(vars, a, r)
    decreases |Unassigned(|vars|, a)|, 0, |domain| - k
  {
    if k < |domain| {
      var a' := a[i := domain[k]];
      AssignShrinks(|vars|, a, i, domain[k]);
      SearchSound(vars, a');
      TryValuesSound(vars, a, i, domain, k + 1);
    }
  }

  /** Every slot without a value has a word to try. */
  ghost predicate NoEmptyDomain(vars: seq<Variable>, a: map<nat, string>) {
    forall i :: 0 <= i < |vars| && i !in a ==> vars[i].domain != []
  }

  /** a completed with the first word of every other slot's domain. */
  function FirstWords(vars: seq<Variable>, a: map<nat, string>): map<nat, string>
    requires NoEmptyDomain(vars, a)
  {
    map i | i in Indices(|vars|) :: if i in a then a[i] else vars[i].domain[0]
  }

  lemma FirstWordsAt(vars: seq<Variable>, a: map<nat, string>)
    requires NoEmptyDomain(vars, a)
    ensures FirstWords(vars, a).Keys == Indices(|vars|)
    ensures forall i :: 0 <= i < |vars| ==> FirstWords(vars, a)[i] == if i in a then a[i] else vars[i].domain[0]
  {
  }

  /**
   * The search never backs up: since the result of AC3 is ignored, starting
   * from values for some of the slots it answers the first word of every
   * other slot's domain, whatever the crossings, and nil exactly when some
   * slot without a value has an empty domain.
   */
  lemma {:induction false} SearchTakesFirstWords(vars: seq<Variable>, a: map<nat, string>)
    requires a.Keys <= Indices(|vars|)
    ensures Search(vars, a) == if NoEmptyDomain(vars, a) then Some(FirstWords(vars, a)) else None
    decreases |Unassigned(|vars|, a)|, 1
  {
    if AllAssignmentsComplete(vars, a) {
      CompleteFirstWords(vars, a);
    } else {
      var i := FirstUnassigned(|vars|, a, 0);
      IncompleteHasUnassigned(vars, a);
      var domain := SelectUnassignedVariable(vars, a).domain;
      assert Search(vars, a) == TryValues(vars, a, i, domain, 0);
      assert domain == vars[i].domain;
      if domain != [] {
        var a' := a[i := domain[0]];
        AssignShrinks(|vars|, a, i, domain[0]);
        SearchTakesFirstWords(vars, a');
        AssignFirstWords(vars, a, i);
        if !NoEmptyDomain(vars, a) {
          var j :| 0 <= j < |vars| && j !in a && vars[j].domain == [];
          TryValuesFail(vars, a, i, domain, 0, j);
        }
      }
    }
  }

  lemma CompleteFirstWords(vars: seq<Variable>, a: map<nat, string>)
    requires AllAssignmentsComplete(vars, a)
    ensures NoEmptyDomain(vars, a) && FirstWords(vars, a) == a
  {
  }

  lemma IncompleteHasUnassigned(vars: seq<Variable>, a: map<nat, string>)
    requires a.Keys <= Indices(|vars|) && !AllAssignmentsComplete(vars, a)
    ensures FirstUnassigned(|vars|, a, 0) < |vars|
  {
    var i := FirstUnassigned(|vars|, a, 0);
    if i == |vars| {
      assert false;
    }
  }

  /** Giving slot i its first word changes neither whether every open slot has a word nor the completion. */
  lemma AssignFirstWords(vars: seq<Variable>, a: map<nat, string>, i: nat)
    requires i < |vars| && i !in a && vars[i].domain != []
    ensures NoEmptyDomain(vars, a[i := vars[i].domain[0]]) == NoEmptyDomain(vars, a)
    ensures NoEmptyDomain(vars, a) ==> FirstWords(vars, a[i := vars[i].domain[0]]) == FirstWords(vars, a)
  {
  }

  /** Once another slot without a value has an empty domain, no value of slot i helps. */
  lemma {:induction false} TryValuesFail(vars: seq<Variable>, a: map<nat, string>, i: nat, domain: seq<string>, k: nat, j: nat)
    requires a.Keys <= Indices(|vars|)
    requires i < |vars| && i !in a && domain == vars[i].domain && k <= |domain|
    requires j < |vars| && j !in a && j != i && vars[j].domain == []
    ensures TryValues(vars, a, i, domain, k) == None
    decreases |Unassigned(|vars|, a)|, 0, |domain| - k
  {
    if k < |domain| {
      var a' := a[i := domain[k]];
      AssignShrinks(|vars|, a, i, domain[k]);
      SearchTakesFirstWords(vars, a');
      assert !NoEmptyDomain(vars, a');
      TryValuesFail(vars, a, i, domain, k + 1, j);
    }
  }

  // ---------------------------------------------------------------------
  // As written: the letter index of generate.go:36.
  // ---------------------------------------------------------------------

  /** generate.go:36 indexes the 26 bitsets of a layer by the rune itself. */
  function RawRuneIndex(c: char): (k: int)
    ensures k >= 0
  {
    c as int
  }

  /** The look-ups of generate.go:35-36 as written are in range for every word of the domain. */
  predicate ArcDefinedAsWritten(domain: seq<string>, i1: int, lexicon: map<nat, seq<Layer>>, len2: nat, i2: int) {
    forall k :: 0 <= k < |domain| ==>
      && 0 <= i1 < |domain[k]| && len2 in lexicon && 0 <= i2 < |lexicon[len2]|
      && RawRuneIndex(domain[k][i1]) < ALPHABET_SIZE
  }

  /**
   * As written, the look-up is out of range for every lowercase letter
   * (their runes are 97 to 122), so EnforceArcConsistency panics on any
   * domain holding a word with a lowercase letter at the overlap.
   */
  lemma RawRuneIndexOutOfRange(domain: seq<string>, i1: int, lexicon: map<nat, seq<Layer>>, len2: nat, i2: int, k: nat)
    requires k < |domain| && 0 <= i1 < |domain[k]| && IsLower(domain[k][i1])
    ensures RawRuneIndex(domain[k][i1]) >= ALPHABET_SIZE
    ensures !ArcDefinedAsWritten(domain, i1, lexicon, len2, i2)
  {
  }

  // ---------------------------------------------------------------------
  // As written: the neighbour look-up of generate.go:54.
  // ---------------------------------------------------------------------

  /** The arc from v1 to k as written: var2 is the first slot with anchor k, whatever its direction. */
  predicate ArcFitsByAnchor(w: string, v1: Variable, vars: seq<Variable>, lexicon: map<nat, seq<Layer>>, k: Point) {
    && k in v1.neighbors
    && WordFits(w, IndexOfCell(v1, v1.neighbors[k]), lexicon, GetVariable(vars, k).length,
                IndexOfCell(GetVariable(vars, k), v1.neighbors[k]))
  }

  /** Every arc out of v1 as written is in range for every word of v1's domain. */
  ghost predicate ArcsDefinedByAnchor(v1: Variable, vars: seq<Variable>, lexicon: map<nat, seq<Layer>>) {
    forall w, k :: w in v1.domain && k in v1.neighbors ==> ArcFitsByAnchor(w, v1, vars, lexicon, k)
  }

  // ---------------------------------------------------------------------
  // As written: the assignment keys of generate.go:78 and 93.
  // ---------------------------------------------------------------------

  /**
   * A key of the source's assignment map: the pointer to slot i of the slot
   * list, or the address of the local copy `var1` in recursion frame f.
   */
  datatype Key = SlotKey(index: nat) | LocalKey(frame: nat)

  /** The pointers to the n slots of the slot list. */
  function SlotKeys(n: nat): (r: set<Key>)
    ensures forall key :: key in r <==> key.SlotKey? && key.index < n
  {
    if n == 0 then {} else SlotKeys(n - 1) + {SlotKey(n - 1)}
  }

  lemma {:induction false} SlotKeysCardinality(n: nat)
    ensures |SlotKeys(n)| == n
  {
    if n > 0 {
      SlotKeysCardinality(n - 1);
      assert SlotKeys(n) == SlotKeys(n - 1) + {SlotKey(n - 1)};
    }
  }

  /**
   * AllAssignmentsComplete as written: the size test and the look-up of
   * every slot-list pointer together say that the keys are exactly those
   * pointers.
   */
  function AllAssignmentsCompleteAsWritten(n: nat, a: map<Key, string>): (r: bool)
    ensures r <==> a.Keys == SlotKeys(n)
  {
    SlotKeysCardinality(n);
    assert |a.Keys| == |a|;
    if |a| == n && forall i :: 0 <= i < n ==> SlotKey(i) in a then
      assert SlotKeys(n) <= a.Keys;
      SubsetOfSameSize(SlotKeys(n), a.Keys);
      true
    else
      false
  }

  /**
   * Where every key is a slot pointer, the test as written agrees with
   * AllAssignmentsComplete on the assignment that uses slot i for the
   * pointer to slot i.
   */
  lemma AsWrittenAgreesOnSlotKeys(vars: seq<Variable>, a: map<Key, string>, b: map<nat, string>)
    requires forall key :: key in a ==> key.SlotKey?
    requires forall i: nat :: SlotKey(i) in a <==> i in b
    ensures AllAssignmentsCompleteAsWritten(|vars|, a) == AllAssignmentsComplete(vars, b)
  {
    if a.Keys == SlotKeys(|vars|) {
      assert b.Keys == Indices(|vars|);
    }
    if b.Keys == Indices(|vars|) {
      forall key
        ensures key in a.Keys <==> key in SlotKeys(|vars|)
      {
        if key.SlotKey? {
          assert key == SlotKey(key.index);
        }
      }
      assert a.Keys == SlotKeys(|vars|);
    }
  }

  /** SelectUnassignedVariable as written: the first slot whose pointer is not a key, or n. */
  function FirstUnassignedAsWritten(n: nat, a: map<Key, string>, from: nat): (i: nat)
    requires from <= n
    ensures from <= i <= n
    ensures forall j :: from <= j < i ==> SlotKey(j) in a
    ensures i < n ==> SlotKey(i) !in a
    decreases n - from
  {
    if from == n || SlotKey(from) !in a then from else FirstUnassignedAsWritten(n, a, from + 1)
  }

  /**
   * BacktrackAC3 as written only ever inserts the address of a local copy,
   * so from the empty map every assignment it builds holds local keys only.
   * Such an assignment is never complete, and the selection picks slot 0
   * again.
   */
  lemma PointerKeysNeverComplete(n: nat, a: map<Key, string>)
    requires n > 0 && forall key :: key in a ==> key.LocalKey?
    ensures !AllAssignmentsCompleteAsWritten(n, a)
    ensures FirstUnassignedAsWritten(n, a, 0) == 0
  {
  }
}
