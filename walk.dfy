/** The depth-first walk shared by `getAncestors` and `getDescendants`,
    as a function over a relation `g` (character id -> related ids, the
    `parentIds` or the `childIds` of every character in the map). The
    closure state of the source's inner `walk` (the `visited` set and the
    `result` array) is threaded through as a `State`. */
module WalkSpec {
  import opened Schema

  type Graph = map<Id, seq<Id>>

  /** `found` lists the ids whose characters were pushed onto `result`. */
  datatype State = State(visited: set<Id>, found: seq<Id>)

  /** The expansion guard `level > depth` fails; `None` is `depth = Infinity`. */
  predicate Within(level: int, depth: Option<int>) {
    depth.None? || level <= depth.value
  }

  lemma {:induction false} SubsetCard(a: set<Id>, b: set<Id>)
    requires a <= b
    ensures |a| <= |b|
    ensures a < b ==> |a| < |b|
    decreases |b|
  {
    if a < b {
      var x :| x in b && x !in a;
      SubsetCard(a, b - {x});
      assert |b - {x}| == |b| - 1;
    } else {
      assert a == b;
    }
  }

  /** Growing the visited set never increases the number of unvisited keys. */
  lemma Shrinks(keys: set<Id>, v: set<Id>, v': set<Id>)
    requires v <= v'
    ensures |keys - v'| <= |keys - v|
    ensures (exists x :: x in keys && x in v' && x !in v) ==> |keys - v'| < |keys - v|
  {
    SubsetCard(keys - v', keys - v);
  }

  /** `walk(cur, level)`: expand `cur` unless it is not a character or
      `level` exceeds `depth`. */
  function VisitNode(g: Graph, cur: Id, level: int, depth: Option<int>, s: State): (r: State)
    ensures s.visited <= r.visited
    ensures s.found <= r.found
    decreases |g.Keys - s.visited|, 1, 0
  {
    if cur !in g || !Within(level, depth) then s
    else VisitList(g, g[cur], level, depth, s)
  }

  /** The `for` loop of `walk` over the ids still to go in `ids`. */
  function VisitList(g: Graph, ids: seq<Id>, level: int, depth: Option<int>, s: State): (r: State)
    ensures s.visited <= r.visited
    ensures s.found <= r.found
    decreases |g.Keys - s.visited|, 0, |ids|
  {
    if ids == [] then s
    else if ids[0] in s.visited then VisitList(g, ids[1..], level, depth, s)
    else
      var id := ids[0];
      var marked := s.visited + {id};
      Shrinks(g.Keys, s.visited, marked);
      var s' := if id in g then VisitNode(g, id, level + 1, depth, State(marked, s.found + [id]))
                else State(marked, s.found);
      Shrinks(g.Keys, s.visited, s'.visited);
      VisitList(g, ids[1..], level, depth, s')
  }

  /** The ids of the characters returned by a traversal from `start`:
      nothing for an unknown start or a depth below 1. */
  function Walk(g: Graph, start: Id, depth: Option<int>): (r: seq<Id>)
    ensures start !in g || (depth.Some? && depth.value < 1) ==> r == []
  {
    VisitNode(g, start, 1, depth, State({}, [])).found
  }

  /** The walk's bookkeeping: `found` has no repeats and holds exactly the
      visited ids that are characters. */
  ghost predicate Sound(g: Graph, s: State) {
    NoDup(s.found) && forall x :: x in s.found <==> x in s.visited && x in g
  }

  /** `p` follows the relation: every step goes from a character to one
      of its related ids. */
  ghost predicate Path(g: Graph, p: seq<Id>) {
    forall i :: 0 <= i < |p| - 1 ==> p[i] in g && p[i + 1] in g[p[i]]
  }

  /** `to` is a character reachable from `from` in at least one step and
      at most `depth` steps. */
  ghost predicate Reaches(g: Graph, from: Id, to: Id, depth: Option<int>) {
    to in g &&
    exists p :: Path(g, p) && |p| >= 2 && p[0] == from && p[|p| - 1] == to && Within(|p| - 1, depth)
  }

  /** Position of the first occurrence of `x` in `s`. */
  function FirstIndex(s: seq<Id>, x: Id): (k: nat)
    requires x in s
    ensures k < |s| && s[k] == x
  {
    if s[0] == x then 0 else 1 + FirstIndex(s[1..], x)
  }
}
