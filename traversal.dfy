/** `getAncestors` and `getDescendants`: a recursive depth-first `walk`
    over the characters' `parentIds` or `childIds`, guarded by a visited
    set and an optional depth bound, collecting characters in the order
    they are first met. */
module Traversal {
  import opened Schema
  import opened WalkSpec
  import WalkProofs

  /** Which list of ids a traversal follows. */
  datatype Relation = Parents | Children

  function Related(c: Character, rel: Relation): seq<Id>
    reads c
  {
    match rel
    case Parents => c.parentIds
    case Children => c.childIds
  }

  /** The relation as it stands in the heap, one entry per character of the map. */
  ghost function Links(all: map<Id, Character>, rel: Relation): (g: Graph)
    reads all.Values
    ensures g.Keys == all.Keys
    ensures forall k :: k in g ==> g[k] == Related(all[k], rel)
  {
    map k | k in all :: Related(all[k], rel)
  }

  /** `result` holds the characters of the ids in `found`, in order. */
  ghost predicate Mirrors(all: map<Id, Character>, found: seq<Id>, result: seq<Character>) {
    |result| == |found| && forall k :: 0 <= k < |found| ==> found[k] in all && result[k] == all[found[k]]
  }

  /** Mirroring a longer list of ids extends the list of characters. */
  lemma MirrorsGrow(all: map<Id, Character>, found: seq<Id>, result: seq<Character>, found': seq<Id>, result': seq<Character>)
    requires Mirrors(all, found, result) && Mirrors(all, found', result') && found <= found'
    ensures result <= result'
  {
    assert forall k :: 0 <= k < |result| ==> result'[k] == all[found'[k]] == all[found[k]] == result[k];
  }

  /** The inner `walk(currentId, level)`; the closure's `visited` and
      `result` come in and go out, with the ids behind `result` as ghost. */
  method Visit(all: map<Id, Character>, rel: Relation, ghost g: Graph, cur: Id, level: int, depth: Option<int>,
               visited: set<Id>, ghost found: seq<Id>, result: seq<Character>)
    returns (visited': set<Id>, ghost found': seq<Id>, result': seq<Character>)
    requires g == Links(all, rel)
    requires Sound(g, State(visited, found)) && Mirrors(all, found, result)
    ensures State(visited', found') == VisitNode(g, cur, level, depth, State(visited, found))
    ensures visited <= visited' && result <= result'
    ensures Sound(g, State(visited', found')) && Mirrors(all, found', result')
    decreases |all.Keys - visited|, 2
  {
    visited', found', result' := visited, found, result;
    if cur !in all {
      return;
    }
    if !Within(level, depth) {
      return;
    }
    var node := all[cur];
    var ids := Related(node, rel);
    assert ids == g[cur];
    var i := 0;
    while i < |ids|
      invariant 0 <= i <= |ids|
      invariant visited <= visited'
      invariant Sound(g, State(visited', found')) && Mirrors(all, found', result')
      invariant VisitList(g, ids, level, depth, State(visited, found)) ==
                VisitList(g, ids[i..], level, depth, State(visited', found'))
    {
      WalkProofs.VisitListStep(g, ids, i, level, depth, State(visited', found'));
      Shrinks(all.Keys, visited, visited');
      visited', found', result' := VisitRelated(all, rel, g, ids[i], level, depth, visited', found', result');
      i := i + 1;
    }
    MirrorsGrow(all, found, result, found', result');
  }

  /** One iteration of the `for` loop of `walk`: skip an id already
      visited, otherwise mark it, and when it is a character push it and
      walk it one level deeper. */
  method VisitRelated(all: map<Id, Character>, rel: Relation, ghost g: Graph, pid: Id, level: int, depth: Option<int>,
                      visited: set<Id>, ghost found: seq<Id>, result: seq<Character>)
    returns (visited': set<Id>, ghost found': seq<Id>, result': seq<Character>)
    requires g == Links(all, rel)
    requires Sound(g, State(visited, found)) && Mirrors(all, found, result)
    ensures State(visited', found') ==
            if pid in visited then State(visited, found)
            else if pid in g then VisitNode(g, pid, level + 1, depth, State(visited + {pid}, found + [pid]))
            else State(visited + {pid}, found)
    ensures visited <= visited'
    ensures Sound(g, State(visited', found')) && Mirrors(all, found', result')
    decreases |all.Keys - visited|, 1
  {
    visited', found', result' := visited, found, result;
    if pid in visited {
      return;
    }
    WalkProofs.MarkSound(g, State(visited, found), pid);
    visited' := visited + {pid};
    if pid in all {
      result' := result + [all[pid]];
      found' := found + [pid];
      Shrinks(all.Keys, visited, visited');
      visited', found', result' := Visit(all, rel, g, pid, level + 1, depth, visited', found', result');
    }
  }

  /** The body shared by both queries: `walk(id, 1)` from an empty state. */
  method Traverse(all: map<Id, Character>, rel: Relation, id: Id, depth: Option<int>) returns (r: seq<Character>)
    ensures NoDup(Walk(Links(all, rel), id, depth))
    ensures Mirrors(all, Walk(Links(all, rel), id, depth), r)
    ensures id !in all || (depth.Some? && depth.value < 1) ==> r == []
  {
    var visited: set<Id> := {};
    ghost var found: seq<Id> := [];
    var result: seq<Character> := [];
    visited, found, result := Visit(all, rel, Links(all, rel), id, 1, depth, visited, found, result);
    r := result;
  }

  /** `getAncestors(all, id, depth)`: walks `parentIds`. */
  method GetAncestors(all: map<Id, Character>, id: Id, depth: Option<int>) returns (r: seq<Character>)
    ensures NoDup(Walk(Links(all, Parents), id, depth))
    ensures Mirrors(all, Walk(Links(all, Parents), id, depth), r)
    ensures id !in all || (depth.Some? && depth.value < 1) ==> r == []
  {
    r := Traverse(all, Parents, id, depth);
  }

  /** `getDescendants(all, id, depth)`: walks `childIds`. */
  method GetDescendants(all: map<Id, Character>, id: Id, depth: Option<int>) returns (r: seq<Character>)
    ensures NoDup(Walk(Links(all, Children), id, depth))
    ensures Mirrors(all, Walk(Links(all, Children), id, depth), r)
    ensures id !in all || (depth.Some? && depth.value < 1) ==> r == []
  {
    r := Traverse(all, Children, id, depth);
  }
}
