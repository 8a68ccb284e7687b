/** What the depth-first walk promises: it never repeats a character,
    returns only characters, includes every direct relation, returns only
    nodes within `depth` steps, and without a depth bound returns exactly
    the nodes reachable from the start. */
module WalkProofs {
  import opened Schema
  import opened WalkSpec

  lemma {:induction false} VisitNodeSound(g: Graph, cur: Id, level: int, depth: Option<int>, s: State)
    requires Sound(g, s)
    ensures Sound(g, VisitNode(g, cur, level, depth, s))
    decreases |g.Keys - s.visited|, 1, 0
  {
    if cur in g && Within(level, depth) {
      VisitListSound(g, g[cur], level, depth, s);
    }
  }

  lemma {:induction false} VisitListSound(g: Graph, ids: seq<Id>, level: int, depth: Option<int>, s: State)
    requires Sound(g, s)
    ensures Sound(g, VisitList(g, ids, level, depth, s))
    decreases |g.Keys - s.visited|, 0, |ids|
  {
    if ids == [] {
    } else if ids[0] in s.visited {
      VisitListSound(g, ids[1..], level, depth, s);
    } else {
      var id := ids[0];
      var marked := s.visited + {id};
      Shrinks(g.Keys, s.visited, marked);
      var s' := if id in g then VisitNode(g, id, level + 1, depth, State(marked, s.found + [id]))
                else State(marked, s.found);
      if id in g {
        var pushed := State(marked, s.found + [id]);
        assert id !in s.found;
        assert Sound(g, pushed);
        VisitNodeSound(g, id, level + 1, depth, pushed);
      }
      Shrinks(g.Keys, s.visited, s'.visited);
      VisitListSound(g, ids[1..], level, depth, s');
    }
  }

  /** After the loop over `ids`, every one of them has been marked visited. */
  lemma {:induction false} VisitListCovers(g: Graph, ids: seq<Id>, level: int, depth: Option<int>, s: State)
    ensures forall x :: x in ids ==> x in VisitList(g, ids, level, depth, s).visited
    decreases |ids|
  {
    if ids != [] {
      var id := ids[0];
      if id in s.visited {
        VisitListCovers(g, ids[1..], level, depth, s);
      } else {
        var marked := s.visited + {id};
        var s' := if id in g then VisitNode(g, id, level + 1, depth, State(marked, s.found + [id]))
                  else State(marked, s.found);
        assert VisitList(g, ids, level, depth, s) == VisitList(g, ids[1..], level, depth, s');
        VisitListCovers(g, ids[1..], level, depth, s');
      }
    }
  }

  /** No character is returned twice and every returned id is a character. */
  lemma WalkSound(g: Graph, start: Id, depth: Option<int>)
    ensures NoDup(Walk(g, start, depth))
    ensures forall x :: x in Walk(g, start, depth) ==> x in g
  {
    VisitNodeSound(g, start, 1, depth, State({}, []));
  }

  /** Marking a new id visited (and recording it when it is a character) keeps the bookkeeping sound. */
  lemma MarkSound(g: Graph, s: State, id: Id)
    requires Sound(g, s) && id !in s.visited
    ensures Sound(g, State(s.visited + {id}, if id in g then s.found + [id] else s.found))
  {
    assert id !in s.found;
  }

  /** One iteration of the loop over `ids`, from position `i`. */
  lemma VisitListStep(g: Graph, ids: seq<Id>, i: int, level: int, depth: Option<int>, s: State)
    requires 0 <= i < |ids|
    ensures ids[i] in s.visited ==>
              VisitList(g, ids[i..], level, depth, s) == VisitList(g, ids[i + 1..], level, depth, s)
    ensures ids[i] !in s.visited && ids[i] !in g ==>
              VisitList(g, ids[i..], level, depth, s) ==
              VisitList(g, ids[i + 1..], level, depth, State(s.visited + {ids[i]}, s.found))
    ensures ids[i] !in s.visited && ids[i] in g ==>
              VisitList(g, ids[i..], level, depth, s) ==
              VisitList(g, ids[i + 1..], level, depth,
                        VisitNode(g, ids[i], level + 1, depth, State(s.visited + {ids[i]}, s.found + [ids[i]])))
  {
    assert ids[i..][0] == ids[i] && ids[i..][1..] == ids[i + 1..];
  }

  /** With depth at least 1, every direct relation that is a character is returned. */
  lemma WalkIncludesDirect(g: Graph, start: Id, depth: Option<int>)
    requires start in g && Within(1, depth)
    ensures forall x :: x in g[start] && x in g ==> x in Walk(g, start, depth)
  {
    var s0 := State({}, []);
    VisitListCovers(g, g[start], 1, depth, s0);
    VisitListSound(g, g[start], 1, depth, s0);
  }

  /** Reference for a walk that does not expand further: the ids of `ids`
      that are characters, first occurrences only, skipping `seen`. */
  function Keep(g: Graph, ids: seq<Id>, seen: set<Id>): seq<Id>
  {
    if ids == [] then []
    else if ids[0] in seen then Keep(g, ids[1..], seen)
    else (if ids[0] in g then [ids[0]] else []) + Keep(g, ids[1..], seen + {ids[0]})
  }

  lemma {:induction false} KeepMembers(g: Graph, ids: seq<Id>, seen: set<Id>)
    ensures forall x :: x in Keep(g, ids, seen) <==> x in ids && x in g && x !in seen
  {
    if ids != [] {
      var h := ids[0];
      if h in seen {
        KeepMembers(g, ids[1..], seen);
      } else {
        KeepMembers(g, ids[1..], seen + {h});
      }
      assert forall x :: x in ids <==> x == h || x in ids[1..];
    }
  }

  lemma {:induction false} KeepNoDup(g: Graph, ids: seq<Id>, seen: set<Id>)
    ensures NoDup(Keep(g, ids, seen))
  {
    if ids != [] {
      var h := ids[0];
      if h in seen {
        KeepNoDup(g, ids[1..], seen);
      } else {
        KeepNoDup(g, ids[1..], seen + {h});
        KeepMembers(g, ids[1..], seen + {h});
        var r' := Keep(g, ids[1..], seen + {h});
        assert h !in r';
        assert Keep(g, ids, seen) == (if h in g then [h] else []) + r';
      }
    }
  }

  lemma FirstIndexTail(ids: seq<Id>, y: Id)
    requires |ids| >= 1 && y in ids[1..] && y != ids[0]
    ensures FirstIndex(ids, y) == 1 + FirstIndex(ids[1..], y)
  {
  }

  /** One step of `Keep`: the head, if kept, then the rest. */
  lemma KeepStep(g: Graph, ids: seq<Id>, seen: set<Id>)
    requires ids != []
    ensures Keep(g, ids, seen) ==
      (if ids[0] !in seen && ids[0] in g then [ids[0]] else []) +
      Keep(g, ids[1..], if ids[0] in seen then seen else seen + {ids[0]})
  {
  }

  /** `r` lists elements of `ids` in the order of their first occurrence there. */
  ghost predicate InStoredOrder(ids: seq<Id>, r: seq<Id>) {
    (forall x :: x in r ==> x in ids) &&
    forall i, j :: 0 <= i < j < |r| ==> FirstIndex(ids, r[i]) < FirstIndex(ids, r[j])
  }

  lemma {:induction false} KeepOrder(g: Graph, ids: seq<Id>, seen: set<Id>)
    ensures InStoredOrder(ids, Keep(g, ids, seen))
  {
    if ids != [] {
      var h := ids[0];
      var seen' := if h in seen then seen else seen + {h};
      var r' := Keep(g, ids[1..], seen');
      KeepOrder(g, ids[1..], seen');
      KeepMembers(g, ids[1..], seen');
      var pre := if h !in seen && h in g then [h] else [];
      KeepStep(g, ids, seen);
      assert forall x :: x in r' ==> x in ids[1..] && x != h;
      OrderCons(ids, r', pre);
    }
  }

  lemma OrderCons(ids: seq<Id>, r': seq<Id>, pre: seq<Id>)
    requires ids != []
    requires pre == [] || pre == [ids[0]]
    requires forall x :: x in r' ==> x in ids[1..] && x != ids[0]
    requires InStoredOrder(ids[1..], r')
    ensures InStoredOrder(ids, pre + r')
  {
    var r := pre + r';
    assert forall x :: x in ids[1..] ==> x in ids;
    forall i, j | 0 <= i < j < |r|
      ensures FirstIndex(ids, r[i]) < FirstIndex(ids, r[j])
    {
      OrderStep(ids, r', pre, i, j);
    }
  }

  lemma OrderStep(ids: seq<Id>, r': seq<Id>, pre: seq<Id>, i: int, j: int)
    requires ids != []
    requires pre == [] || pre == [ids[0]]
    requires forall x :: x in r' ==> x in ids[1..] && x != ids[0]
    requires InStoredOrder(ids[1..], r')
    requires 0 <= i < j < |pre + r'|
    ensures (pre + r')[i] in ids && (pre + r')[j] in ids
    ensures FirstIndex(ids, (pre + r')[i]) < FirstIndex(ids, (pre + r')[j])
  {
    var r := pre + r';
    var j' := j - |pre|;
    assert 0 <= j' < |r'| && r[j] == r'[j'];
    var y := r'[j'];
    assert y in r';
    FirstIndexTail(ids, y);
    assert y in ids by {
      var k :| 0 <= k < |ids| - 1 && ids[1..][k] == y;
      assert ids[k + 1] == y;
    }
    if i >= |pre| {
      var i' := i - |pre|;
      assert r[i] == r'[i'];
      var x := r'[i'];
      assert x in r';
      FirstIndexTail(ids, x);
      assert FirstIndex(ids[1..], x) < FirstIndex(ids[1..], y);
      assert x in ids by {
        var k :| 0 <= k < |ids| - 1 && ids[1..][k] == x;
        assert ids[k + 1] == x;
      }
    } else {
      assert r[i] == ids[0] && FirstIndex(ids, ids[0]) == 0;
    }
  }

  /** A loop whose nodes will not be expanded (the next level exceeds the
      depth) appends exactly `Keep`. */
  lemma {:induction false} VisitListShallow(g: Graph, ids: seq<Id>, level: int, depth: Option<int>, s: State)
    requires !Within(level + 1, depth)
    ensures VisitList(g, ids, level, depth, s).found == s.found + Keep(g, ids, s.visited)
    decreases |ids|
  {
    if ids != [] {
      var id := ids[0];
      if id in s.visited {
        VisitListShallow(g, ids[1..], level, depth, s);
      } else {
        var marked := s.visited + {id};
        var s' := if id in g then VisitNode(g, id, level + 1, depth, State(marked, s.found + [id]))
                  else State(marked, s.found);
        assert s' == State(marked, s.found + (if id in g then [id] else []));
        assert VisitList(g, ids, level, depth, s) == VisitList(g, ids[1..], level, depth, s');
        VisitListShallow(g, ids[1..], level, depth, s');
      }
    }
  }

  /** `depth = 1` returns exactly the direct relations that are
      characters, each once, in the order they are stored. */
  lemma WalkDepthOne(g: Graph, start: Id)
    requires start in g
    ensures forall x :: x in Walk(g, start, Some(1)) <==> x in g[start] && x in g
    ensures NoDup(Walk(g, start, Some(1)))
    ensures InStoredOrder(g[start], Walk(g, start, Some(1)))
  {
    VisitListShallow(g, g[start], 1, Some(1), State({}, []));
    KeepMembers(g, g[start], {});
    KeepNoDup(g, g[start], {});
    KeepOrder(g, g[start], {});
  }

  /** Every id in `found` is a character reachable from `start` within `depth` steps. */
  ghost predicate AllReach(g: Graph, start: Id, depth: Option<int>, found: seq<Id>) {
    forall x :: x in found ==> Reaches(g, start, x, depth)
  }

  lemma {:induction false} VisitNodeReaches(g: Graph, start: Id, depth: Option<int>, p: seq<Id>,
                                            cur: Id, level: int, s: State)
    requires Path(g, p) && |p| == level >= 1 && p[0] == start && p[|p| - 1] == cur
    requires AllReach(g, start, depth, s.found)
    ensures AllReach(g, start, depth, VisitNode(g, cur, level, depth, s).found)
    decreases |g.Keys - s.visited|, 1, 0
  {
    if cur in g && Within(level, depth) {
      VisitListReaches(g, start, depth, p, g[cur], level, s);
    }
  }

  lemma {:induction false} VisitListReaches(g: Graph, start: Id, depth: Option<int>, p: seq<Id>,
                                            ids: seq<Id>, level: int, s: State)
    requires Path(g, p) && |p| == level >= 1 && p[0] == start
    requires p[|p| - 1] in g && Within(level, depth)
    requires forall x :: x in ids ==> x in g[p[|p| - 1]]
    requires AllReach(g, start, depth, s.found)
    ensures AllReach(g, start, depth, VisitList(g, ids, level, depth, s).found)
    decreases |g.Keys - s.visited|, 0, |ids|
  {
    assert ids != [] ==> forall x :: x in ids[1..] ==> x in ids;
    if ids == [] {
    } else if ids[0] in s.visited {
      VisitListReaches(g, start, depth, p, ids[1..], level, s);
    } else {
      var id := ids[0];
      var marked := s.visited + {id};
      Shrinks(g.Keys, s.visited, marked);
      var s' := if id in g then VisitNode(g, id, level + 1, depth, State(marked, s.found + [id]))
                else State(marked, s.found);
      if id in g {
        var p' := p + [id];
        assert Path(g, p') by {
          forall i | 0 <= i < |p'| - 1 ensures p'[i] in g && p'[i + 1] in g[p'[i]] {
            if i < |p| - 1 {
              assert p'[i] == p[i] && p'[i + 1] == p[i + 1];
            } else {
              assert p'[i] == p[|p| - 1] && p'[i + 1] == id && id in ids;
            }
          }
        }
        assert Reaches(g, start, id, depth) by {
          assert Path(g, p') && |p'| >= 2 && p'[0] == start && p'[|p'| - 1] == id && Within(|p'| - 1, depth);
        }
        VisitNodeReaches(g, start, depth, p', id, level + 1, State(marked, s.found + [id]));
      }
      Shrinks(g.Keys, s.visited, s'.visited);
      VisitListReaches(g, start, depth, p, ids[1..], level, s');
    }
  }

  /** Every returned character lies between 1 and `depth` steps from the start. */
  lemma WalkWithinDepth(g: Graph, start: Id, depth: Option<int>)
    ensures forall x :: x in Walk(g, start, depth) ==> Reaches(g, start, x, depth)
  {
    VisitNodeReaches(g, start, depth, [start], start, 1, State({}, []));
  }

  /** Every id listed strictly between positions `k'` and `k` of `found`
      can be reached from `found[k']`: it was found while `found[k']`
      was still being expanded. */
  ghost predicate Beneath(g: Graph, found: seq<Id>, k': int, k: int)
    requires 0 <= k' < k <= |found|
  {
    forall j :: k' < j < k ==> Reaches(g, found[k'], found[j], None)
  }

  /** `found[k]` is a relation of `start`, or of an earlier `found[k']`
      below which everything listed since has been found. */
  ghost predicate Led(g: Graph, start: Id, found: seq<Id>, k: int)
    requires 0 <= k < |found|
  {
    (start in g && found[k] in g[start]) ||
    exists k' :: 0 <= k' < k && found[k'] in g && found[k] in g[found[k']] && Beneath(g, found, k', k)
  }

  /** Depth-first preorder: each id follows the one that led to it, with
      only that one's descendants in between. */
  ghost predicate Preorder(g: Graph, start: Id, found: seq<Id>) {
    forall k :: 0 <= k < |found| ==> Led(g, start, found, k)
  }

  /** A related character is reachable in one step. */
  lemma ReachesStep(g: Graph, p: Id, id: Id)
    requires p in g && id in g[p] && id in g
    ensures Reaches(g, p, id, None)
  {
    assert Path(g, [p, id]);
  }

  /** What a related character reaches, its relative reaches too. */
  lemma ReachesPrepend(g: Graph, p: Id, id: Id, x: Id)
    requires p in g && id in g[p] && Reaches(g, id, x, None)
    ensures Reaches(g, p, x, None)
  {
    var q :| Path(g, q) && |q| >= 2 && q[0] == id && q[|q| - 1] == x;
    var q' := [p] + q;
    assert Path(g, q') by {
      forall i | 0 <= i < |q'| - 1 ensures q'[i] in g && q'[i + 1] in g[q'[i]] {
        if i > 0 {
          assert q'[i] == q[i - 1] && q'[i + 1] == q[i];
        }
      }
    }
    assert q'[|q'| - 1] == x;
  }

  /** `Beneath` depends only on the entries up to `k`. */
  lemma BeneathPrefix(g: Graph, found: seq<Id>, f: seq<Id>, k': int, k: int)
    requires 0 <= k' < k <= |found| && found <= f && Beneath(g, found, k', k)
    ensures Beneath(g, f, k', k)
  {
    forall j | k' < j < k ensures Reaches(g, f[k'], f[j], None) {
      assert f[j] == found[j] && f[k'] == found[k'];
    }
  }

  /** Appending a relation of the start (`kp == -1`), or of `found[kp]`
      when everything after `found[kp]` lies below it. */
  lemma PreorderSnoc(g: Graph, start: Id, found: seq<Id>, p: Id, kp: int, id: Id)
    requires Preorder(g, start, found) && p in g && id in g[p]
    requires kp >= -1 && (kp == -1 ==> p == start)
    requires kp >= 0 ==> kp < |found| && found[kp] == p && Beneath(g, found, kp, |found|)
    ensures Preorder(g, start, found + [id])
  {
    var f := found + [id];
    forall k | 0 <= k < |f| ensures Led(g, start, f, k) {
      if k < |found| {
        assert Led(g, start, found, k);
        assert f[k] == found[k];
        if !(start in g && found[k] in g[start]) {
          var k' :| 0 <= k' < k && found[k'] in g && found[k] in g[found[k']] && Beneath(g, found, k', k);
          BeneathPrefix(g, found, f, k', k);
          assert f[k'] == found[k'];
        }
      } else if kp >= 0 {
        BeneathPrefix(g, found, f, kp, |found|);
        assert f[kp] == p && f[k] == id;
        assert f[kp] in g && f[k] in g[f[kp]] && Beneath(g, f, kp, k);
      } else {
        assert f[k] == id;
      }
    }
  }

  /** A walk of `cur` keeps the preorder; when `cur` is `found[kc]`
      (not the start call, `kc == -1`), all it adds lies below `cur`. */
  lemma {:induction false} VisitNodeOrder(g: Graph, start: Id, cur: Id, kc: int, level: int, depth: Option<int>, s: State)
    requires kc >= -1 && (kc == -1 ==> cur == start)
    requires kc >= 0 ==> kc < |s.found| && s.found[kc] == cur && Beneath(g, s.found, kc, |s.found|)
    requires Preorder(g, start, s.found)
    ensures var r := VisitNode(g, cur, level, depth, s).found;
      Preorder(g, start, r) && (kc >= 0 ==> Beneath(g, r, kc, |r|))
    decreases |g.Keys - s.visited|, 1, 0
  {
    if cur in g && Within(level, depth) {
      VisitListOrder(g, start, cur, kc, g[cur], level, depth, s);
    }
  }

  lemma {:induction false} VisitListOrder(g: Graph, start: Id, p: Id, kp: int, ids: seq<Id>, level: int, depth: Option<int>, s: State)
    requires p in g && forall x :: x in ids ==> x in g[p]
    requires kp >= -1 && (kp == -1 ==> p == start)
    requires kp >= 0 ==> kp < |s.found| && s.found[kp] == p && Beneath(g, s.found, kp, |s.found|)
    requires Preorder(g, start, s.found)
    ensures var r := VisitList(g, ids, level, depth, s).found;
      Preorder(g, start, r) && (kp >= 0 ==> Beneath(g, r, kp, |r|))
    decreases |g.Keys - s.visited|, 0, |ids|
  {
    assert ids != [] ==> forall x :: x in ids[1..] ==> x in ids;
    if ids == [] {
    } else if ids[0] in s.visited {
      VisitListOrder(g, start, p, kp, ids[1..], level, depth, s);
    } else {
      var id := ids[0];
      var marked := s.visited + {id};
      Shrinks(g.Keys, s.visited, marked);
      var s' := if id in g then VisitNode(g, id, level + 1, depth, State(marked, s.found + [id]))
                else State(marked, s.found);
      if id in g {
        var f := s.found + [id];
        PreorderSnoc(g, start, s.found, p, kp, id);
        VisitNodeOrder(g, start, id, |s.found|, level + 1, depth, State(marked, f));
        if kp >= 0 {
          SubtreeBelow(g, s.found, p, kp, id, s'.found);
        }
      }
      Shrinks(g.Keys, s.visited, s'.visited);
      VisitListOrder(g, start, p, kp, ids[1..], level, depth, s');
    }
  }

  /** After walking the relation `id` of `found[kp]`, everything listed
      after `found[kp]` still lies below it. */
  lemma SubtreeBelow(g: Graph, found: seq<Id>, p: Id, kp: int, id: Id, r: seq<Id>)
    requires p in g && id in g[p] && id in g
    requires 0 <= kp < |found| && found[kp] == p && Beneath(g, found, kp, |found|)
    requires found + [id] <= r && Beneath(g, r, |found|, |r|)
    ensures kp < |r| && r[kp] == p && Beneath(g, r, kp, |r|)
  {
    assert r[kp] == (found + [id])[kp] == p;
    forall j | kp < j < |r| ensures Reaches(g, p, r[j], None) {
      if j < |found| {
        assert r[j] == (found + [id])[j] == found[j];
      } else if j == |found| {
        assert r[j] == (found + [id])[j] == id;
        ReachesStep(g, p, id);
      } else {
        assert r[|found|] == (found + [id])[|found|] == id;
        ReachesPrepend(g, p, id, r[j]);
      }
    }
  }

  /** The traversal lists characters in depth-first preorder: every result
      is a relation of the start, or of an earlier result `w[k']` such
      that every result listed between the two is reachable from `w[k']`. */
  lemma WalkOrder(g: Graph, start: Id, depth: Option<int>)
    ensures Preorder(g, start, Walk(g, start, depth))
  {
    VisitNodeOrder(g, start, start, -1, 1, depth, State({}, []));
  }

  /** From `b`, whose only relation is the leaf `d`, every path stays on `b` and `d`. */
  lemma {:induction false} PathFromB(g: Graph, b: Id, d: Id, q: seq<Id>)
    requires b in g && d in g && g[b] == [d] && g[d] == []
    requires Path(g, q) && |q| >= 1 && q[0] == b
    ensures forall i :: 0 <= i < |q| ==> q[i] == b || q[i] == d
    decreases |q|
  {
    if |q| > 1 {
      var q' := q[..|q| - 1];
      assert Path(g, q') by {
        forall i | 0 <= i < |q'| - 1 ensures q'[i] in g && q'[i + 1] in g[q'[i]] {
          assert q'[i] == q[i] && q'[i + 1] == q[i + 1];
        }
      }
      PathFromB(g, b, d, q');
      var n := |q| - 2;
      assert q[n] == q'[n];
      assert q[n + 1] in g[q[n]];
    }
  }

  /** The order tells depth-first from breadth-first: from `a` with
      relations `b` (whose relation is `d`) and `c`, the walk lists
      `b, d, c`, and the breadth-first order `b, c, d` is no preorder. */
  lemma BreadthFirstIsNotPreorder(a: Id, b: Id, c: Id, d: Id)
    requires a != b && a != c && a != d && b != c && b != d && c != d
    ensures var g := map[a := [b, c], b := [d], c := [], d := []];
            Walk(g, a, None) == [b, d, c] && Preorder(g, a, [b, d, c]) && !Preorder(g, a, [b, c, d])
  {
    var g := map[a := [b, c], b := [d], c := [], d := []];
    var sB := State({b}, [b]);
    var sBD := State({b, d}, [b, d]);
    var sBDC := State({b, d, c}, [b, d, c]);
    assert VisitNode(g, d, 3, None, sBD) == sBD;
    assert [d][1..] == [] && {b} + {d} == {b, d} && [b] + [d] == [b, d];
    assert VisitList(g, [d], 2, None, sB) == sBD;
    assert VisitNode(g, b, 2, None, sB) == sBD;
    assert VisitNode(g, c, 2, None, sBDC) == sBDC;
    assert [c][1..] == [] && {b, d} + {c} == {b, d, c} && [b, d] + [c] == [b, d, c];
    assert VisitList(g, [c], 1, None, sBD) == sBDC;
    assert [b, c][1..] == [c] && {} + {b} == {b} && [] + [b] == [b];
    assert VisitList(g, [b, c], 1, None, State({}, [])) == sBDC;
    assert Walk(g, a, None) == [b, d, c];
    WalkOrder(g, a, None);
    var f := [b, c, d];
    forall k' | 0 <= k' < 2 && f[k'] in g && f[2] in g[f[k']] ensures !Beneath(g, f, k', 2) {
      assert k' == 0;
      forall q | Path(g, q) && |q| >= 2 && q[0] == b ensures q[|q| - 1] != c {
        PathFromB(g, b, d, q);
      }
      assert f[0] == b && f[1] == c && !Reaches(g, f[0], f[1], None);
    }
    assert !Led(g, a, f, 2);
  }

  /** The start itself is returned only when a cycle leads back to it. */
  lemma WalkStartOnCycle(g: Graph, start: Id, depth: Option<int>)
    requires start in Walk(g, start, depth)
    ensures Reaches(g, start, start, depth)
  {
    WalkWithinDepth(g, start, depth);
  }

  /** Every relation of `y` has been visited. */
  ghost predicate Expanded(g: Graph, visited: set<Id>, y: Id) {
    y in g ==> forall z :: z in g[y] ==> z in visited
  }

  lemma {:induction false} VisitNodeCloses(g: Graph, cur: Id, level: int, s: State)
    requires Sound(g, s)
    ensures Expanded(g, VisitNode(g, cur, level, None, s).visited, cur)
    ensures forall y :: y in VisitNode(g, cur, level, None, s).found && y !in s.found ==>
              Expanded(g, VisitNode(g, cur, level, None, s).visited, y)
    decreases |g.Keys - s.visited|, 1, 0
  {
    if cur in g {
      VisitListCovers(g, g[cur], level, None, s);
      VisitListCloses(g, g[cur], level, s);
    }
  }

  lemma {:induction false} VisitListCloses(g: Graph, ids: seq<Id>, level: int, s: State)
    requires Sound(g, s)
    ensures forall y :: y in VisitList(g, ids, level, None, s).found && y !in s.found ==>
              Expanded(g, VisitList(g, ids, level, None, s).visited, y)
    decreases |g.Keys - s.visited|, 0, |ids|
  {
    if ids == [] {
    } else if ids[0] in s.visited {
      VisitListCloses(g, ids[1..], level, s);
    } else {
      var id := ids[0];
      var marked := s.visited + {id};
      Shrinks(g.Keys, s.visited, marked);
      if id in g {
        var pushed := State(marked, s.found + [id]);
        assert Sound(g, pushed) by { assert id !in s.found; }
        var s2 := VisitNode(g, id, level + 1, None, pushed);
        VisitNodeCloses(g, id, level + 1, pushed);
        VisitNodeSound(g, id, level + 1, None, pushed);
        Shrinks(g.Keys, s.visited, s2.visited);
        VisitListCloses(g, ids[1..], level, s2);
        var r := VisitList(g, ids[1..], level, None, s2);
        assert VisitList(g, ids, level, None, s) == r;
        ClosesStep(g, s, id, s2, r);
      } else {
        var s' := State(marked, s.found);
        assert Sound(g, s');
        Shrinks(g.Keys, s.visited, s'.visited);
        VisitListCloses(g, ids[1..], level, s');
      }
    }
  }

  /** Combines the two recursive facts of `VisitListCloses` for a newly pushed `id`. */
  lemma ClosesStep(g: Graph, s: State, id: Id, s2: State, r: State)
    requires s2.visited <= r.visited && s.found + [id] <= s2.found
    requires Expanded(g, s2.visited, id)
    requires forall y :: y in s2.found && y !in s.found + [id] ==> Expanded(g, s2.visited, y)
    requires forall y :: y in r.found && y !in s2.found ==> Expanded(g, r.visited, y)
    ensures forall y :: y in r.found && y !in s.found ==> Expanded(g, r.visited, y)
  {
    forall y | y in r.found && y !in s.found
      ensures Expanded(g, r.visited, y)
    {
      if y in s2.found {
        if y == id {
          assert Expanded(g, s2.visited, id);
        } else {
          assert y !in s.found + [id];
        }
      }
    }
  }

  /** In a closed, sound final state every path from the start ends in `found`. */
  lemma {:induction false} PathLands(g: Graph, start: Id, r: State, p: seq<Id>)
    requires Sound(g, r) && Expanded(g, r.visited, start)
    requires forall y :: y in r.found ==> Expanded(g, r.visited, y)
    requires Path(g, p) && |p| >= 2 && p[0] == start && p[|p| - 1] in g
    ensures p[|p| - 1] in r.found
    decreases |p|
  {
    var q := p[..|p| - 1];
    var u := q[|q| - 1];
    assert u == p[|p| - 2] && u in g && p[|p| - 1] in g[u];
    if |q| >= 2 {
      assert Path(g, q) by {
        forall i | 0 <= i < |q| - 1 ensures q[i] in g && q[i + 1] in g[q[i]] {
          assert q[i] == p[i] && q[i + 1] == p[i + 1];
        }
      }
      PathLands(g, start, r, q);
    }
  }

  /** Without a depth bound the walk returns exactly the characters
      reachable from the start in one or more steps. */
  lemma WalkUnbounded(g: Graph, start: Id)
    ensures forall y :: y in Walk(g, start, None) <==> Reaches(g, start, y, None)
  {
    var s0 := State({}, []);
    var r := VisitNode(g, start, 1, None, s0);
    VisitNodeSound(g, start, 1, None, s0);
    VisitNodeCloses(g, start, 1, s0);
    WalkWithinDepth(g, start, None);
    forall y | Reaches(g, start, y, None) ensures y in r.found {
      var p :| Path(g, p) && |p| >= 2 && p[0] == start && p[|p| - 1] == y && Within(|p| - 1, None);
      PathLands(g, start, r, p);
    }
  }

  /** With a depth bound the walk can miss a character that is within
      `depth` steps: A relates to [B, C], B to [C], C to [E]. With depth 2,
      C is first met through B at level 2 and is not expanded; when A's
      own link to C comes up, C is already visited, so E (A -> C -> E,
      two steps) is never returned. */
  lemma DepthBoundCanMissNode(a: Id, b: Id, c: Id, e: Id)
    requires a != b && a != c && a != e && b != c && b != e && c != e
    ensures var g := map[a := [b, c], b := [c], c := [e], e := []];
            Reaches(g, a, e, Some(2)) && e !in Walk(g, a, Some(2))
  {
    var g := map[a := [b, c], b := [c], c := [e], e := []];
    var p := [a, c, e];
    assert Path(g, p) by {
      forall i | 0 <= i < |p| - 1 ensures p[i] in g && p[i + 1] in g[p[i]] {
        if i == 0 { assert g[a][1] == c; } else { assert g[c][0] == e; }
      }
    }
    assert Reaches(g, a, e, Some(2));
    var sB := State({b}, [b]);
    var sBC := State({b, c}, [b, c]);
    assert VisitNode(g, c, 3, Some(2), sBC) == sBC;
    assert VisitList(g, [c], 2, Some(2), sB) == sBC;
    assert VisitNode(g, b, 2, Some(2), sB) == sBC;
    assert VisitList(g, [c], 1, Some(2), sBC) == sBC;
    assert [b, c][1..] == [c] && [c][1..] == [];
    assert {} + {b} == {b} && [] + [b] == [b];
    assert VisitList(g, [b, c], 1, Some(2), State({}, [])) == sBC;
    assert Walk(g, a, Some(2)) == [b, c];
  }
}
