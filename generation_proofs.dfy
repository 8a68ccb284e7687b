/** What the map returned by `generateFounders` promises: every link in it
    resolves and is answered from the other side, and the counts and years
    stay within their ranges. The facts are stated over the postconditions
    of `Generation.GenerateFounders` and `Generation.GenerateFoundersPaired`. */
module GenerationProofs {
  import opened Schema
  import opened Generation

  /** Every key of the map is the uuid of some created character. */
  lemma Locate(m: map<Id, Character>, cs: seq<Character>, ids: seq<Id>, x: Id) returns (j: nat)
    requires Indexed(m, cs, ids) && x in m
    ensures j < |cs| && ids[j] == x && m[x] == cs[j]
  {
    assert x in ids[..|cs|];
    var k :| 0 <= k < |cs| && ids[..|cs|][k] == x;
    j := k;
  }

  /** Every position after the founders belongs to the brood of some couple. */
  lemma CoupleOf(n: nat, starts: seq<int>, m: nat, idCount: nat, p: nat) returns (t: nat)
    requires Layout(n, starts, m, idCount) && n <= p < m
    ensures t < |starts| - 1 && starts[t] <= p < starts[t + 1]
  {
    t := 0;
    while starts[t + 1] <= p
      invariant t < |starts| - 1 && starts[t] <= p
      decreases |starts| - t
    {
      t := t + 1;
    }
  }

  /** Each entry sits under its own uuid, with stats in [1, 10], alive. */
  lemma Entries(m: map<Id, Character>, cs: seq<Character>, ids: seq<Id>, n: nat, sy: int, starts: seq<int>)
    requires Shaped(cs, ids, n, sy, starts) && Indexed(m, cs, ids)
    ensures forall x :: x in m ==> m[x].id == x && StatsInRange(m[x].stats) && m[x].alive
  {
    forall x | x in m ensures m[x].id == x && StatsInRange(m[x].stats) && m[x].alive {
      var j := Locate(m, cs, ids, x);
    }
  }

  /** Within the couples, `Partner` pairs `2t` with `2t + 1` both ways. */
  lemma PartnerOf(j: nat, pairs: nat)
    requires j < 2 * pairs
    ensures Partner(j) < 2 * pairs && Partner(Partner(j)) == j && Partner(j) / 2 == j / 2
  {
    var t := j / 2;
    assert j == 2 * t || j == 2 * t + 1;
  }

  /** The spouse `s` of the entry `x` lists `x` back. */
  lemma SpouseBack(m: map<Id, Character>, cs: seq<Character>, ids: seq<Id>, pairs: nat, x: Id, s: Id)
    requires Spouses(cs, ids, pairs) && Indexed(m, cs, ids) && x in m && s in m[x].spouseIds
    ensures s in m && x in m[s].spouseIds
  {
    var j := Locate(m, cs, ids, x);
    assert j < 2 * pairs by {
      assert cs[j].spouseIds != [];
    }
    PartnerOf(j, pairs);
    var q := Partner(j);
    assert cs[q].spouseIds == [ids[j]];
  }

  /** Marriage is symmetric: every spouse id resolves, and the spouse
      lists the character back. */
  lemma SpousesMutual(m: map<Id, Character>, cs: seq<Character>, ids: seq<Id>, n: nat, sy: int, starts: seq<int>)
    requires Shaped(cs, ids, n, sy, starts) && Indexed(m, cs, ids)
    ensures forall x, s :: x in m && s in m[x].spouseIds ==> s in m && x in m[s].spouseIds
  {
    assert Spouses(cs, ids, |starts| - 1);
    forall x, s | x in m && s in m[x].spouseIds ensures s in m && x in m[s].spouseIds {
      SpouseBack(m, cs, ids, |starts| - 1, x, s);
    }
  }

  /** The parent lists as laid out: founders have none, and the children
      of couple `t` have the couple's two ids. */
  ghost predicate ParentsAt(cs: seq<Character>, ids: seq<Id>, n: nat, starts: seq<int>)
    requires Layout(n, starts, |cs|, |ids|)
  {
    (forall j :: 0 <= j < n ==> cs[j].parentIds == []) &&
    forall t: nat, p: nat :: t < |starts| - 1 && starts[t] <= p < starts[t + 1] ==>
      cs[p].parentIds == [ids[2 * t], ids[2 * t + 1]]
  }

  lemma ParentsLaidOut(cs: seq<Character>, ids: seq<Id>, n: nat, sy: int, starts: seq<int>)
    requires Layout(n, starts, |cs|, |ids|) && Founders(cs, n, sy) && Children(cs, ids, n, sy, starts)
    ensures ParentsAt(cs, ids, n, starts)
  {
    forall t: nat, p: nat | t < |starts| - 1 && starts[t] <= p < starts[t + 1]
      ensures cs[p].parentIds == [ids[2 * t], ids[2 * t + 1]]
    {
      assert ChildAt(cs, ids, n, sy, starts, t, p);
    }
  }

  /** A parent of the child at position `j` of couple `t` lists it. */
  lemma CoupleLists(cs: seq<Character>, ids: seq<Id>, n: nat, starts: seq<int>, t: nat, j: nat, q: nat)
    requires Layout(n, starts, |cs|, |ids|) && Offspring(cs, ids, starts)
    requires t < |starts| - 1 && starts[t] <= j < starts[t + 1] && (q == 2 * t || q == 2 * t + 1)
    ensures q < |cs| && ids[j] in cs[q].childIds
  {
    assert q / 2 == t;
    assert cs[q].childIds == ids[starts[t]..starts[t + 1]];
    assert ids[starts[t]..starts[t + 1]][j - starts[t]] == ids[j];
  }

  /** The parent `p` of the entry `x` lists `x` among its children. */
  lemma ParentBack(m: map<Id, Character>, cs: seq<Character>, ids: seq<Id>, n: nat, starts: seq<int>, x: Id, p: Id)
    requires Layout(n, starts, |cs|, |ids|) && ParentsAt(cs, ids, n, starts)
    requires Offspring(cs, ids, starts) && Indexed(m, cs, ids) && x in m && p in m[x].parentIds
    ensures p in m && x in m[p].childIds
  {
    var j := Locate(m, cs, ids, x);
    if j < n {
      assert false;
    } else {
      var t := CoupleOf(n, starts, |cs|, |ids|, j);
      var q := if p == ids[2 * t] then 2 * t else 2 * t + 1;
      CoupleLists(cs, ids, n, starts, t, j, q);
      assert p == ids[q];
    }
  }

  /** Every parent id resolves, and the parent lists the child. */
  lemma ParentsAcknowledge(m: map<Id, Character>, cs: seq<Character>, ids: seq<Id>, n: nat, sy: int, starts: seq<int>)
    requires Shaped(cs, ids, n, sy, starts) && Indexed(m, cs, ids)
    ensures forall x, p :: x in m && p in m[x].parentIds ==> p in m && x in m[p].childIds
  {
    assert Static(cs, ids, n, sy, starts) && Offspring(cs, ids, starts);
    ParentsLaidOut(cs, ids, n, sy, starts);
    forall x, p | x in m && p in m[x].parentIds ensures p in m && x in m[p].childIds {
      ParentBack(m, cs, ids, n, starts, x, p);
    }
  }

  /** The child `c` of the entry `x` lists `x` among its parents. */
  lemma ChildBack(m: map<Id, Character>, cs: seq<Character>, ids: seq<Id>, n: nat, sy: int, starts: seq<int>, x: Id, c: Id)
    requires Layout(n, starts, |cs|, |ids|) && Born(cs, ids) && Children(cs, ids, n, sy, starts)
    requires Offspring(cs, ids, starts) && Indexed(m, cs, ids) && x in m && c in m[x].childIds
    ensures c in m && x in m[c].parentIds
  {
    var j := Locate(m, cs, ids, x);
    assert cs[j].childIds == ChildIdsOf(ids, starts, j);
    var t := j / 2;
    assert j < 2 * (|starts| - 1) && ChildIdsOf(ids, starts, j) == ids[starts[t]..starts[t + 1]];
    var k :| 0 <= k < starts[t + 1] - starts[t] && ids[starts[t]..starts[t + 1]][k] == c;
    var p := starts[t] + k;
    assert ids[p] == c;
    assert starts[t + 1] <= |cs|;
    assert cs[p].id == c;
    assert m[c] == cs[p];
    assert ChildAt(cs, ids, n, sy, starts, t, p);
    assert j == 2 * t || j == 2 * t + 1;
  }

  /** Every child id resolves, and the child lists the parent. */
  lemma ChildrenAcknowledge(m: map<Id, Character>, cs: seq<Character>, ids: seq<Id>, n: nat, sy: int, starts: seq<int>)
    requires Shaped(cs, ids, n, sy, starts) && Indexed(m, cs, ids)
    ensures forall x, c :: x in m && c in m[x].childIds ==> c in m && x in m[c].parentIds
  {
    assert Static(cs, ids, n, sy, starts) && Offspring(cs, ids, starts);
    forall x, c | x in m && c in m[x].childIds ensures c in m && x in m[c].parentIds {
      ChildBack(m, cs, ids, n, sy, starts, x, c);
    }
  }

  /** Founders are born 20 to 40 years before the starting year; a child
      18 to 30 years after its first parent (after the starting year when
      that parent's birth year is 0). */
  lemma BirthYears(m: map<Id, Character>, cs: seq<Character>, ids: seq<Id>, n: nat, sy: int, starts: seq<int>)
    requires Shaped(cs, ids, n, sy, starts) && Indexed(m, cs, ids)
    ensures forall x :: x in m && m[x].parentIds == [] ==>
              m[x].birthYear.Some? && sy - 40 <= m[x].birthYear.value <= sy - 20
    ensures forall x :: x in m && m[x].parentIds != [] ==>
              m[x].parentIds[0] in m && m[x].birthYear.Some? &&
              OrElse(m[m[x].parentIds[0]].birthYear, sy) + 18 <= m[x].birthYear.value <=
              OrElse(m[m[x].parentIds[0]].birthYear, sy) + 30
  {
    forall x | x in m
      ensures m[x].parentIds == [] ==> m[x].birthYear.Some? && sy - 40 <= m[x].birthYear.value <= sy - 20
      ensures m[x].parentIds != [] ==>
                m[x].parentIds[0] in m && m[x].birthYear.Some? &&
                OrElse(m[m[x].parentIds[0]].birthYear, sy) + 18 <= m[x].birthYear.value <=
                OrElse(m[m[x].parentIds[0]].birthYear, sy) + 30
    {
      var j := Locate(m, cs, ids, x);
      if j < n {
        assert Founder(cs[j], j, sy);
      } else {
        var t := CoupleOf(n, starts, |cs|, |ids|, j);
        assert ChildAt(cs, ids, n, sy, starts, t, j);
        assert m[ids[2 * t]] == cs[2 * t];
      }
    }
  }

  /** Every couple's brood has one to three children, so `t` couples have
      between `t` and `3t` children in all. */
  lemma {:induction false} BroodSpan(starts: seq<int>)
    requires Broods(starts) && |starts| >= 1
    ensures |starts| - 1 <= starts[|starts| - 1] - starts[0] <= 3 * (|starts| - 1)
  {
    if |starts| > 1 {
      var s := starts[..|starts| - 1];
      assert Broods(s) by {
        forall t | 0 <= t < |s| - 1 ensures s[t] + 1 <= s[t + 1] <= s[t] + 3 {
          assert s[t] == starts[t] && s[t + 1] == starts[t + 1];
        }
      }
      BroodSpan(s);
      assert s[0] == starts[0] && s[|s| - 1] == starts[|starts| - 2];
    }
  }

  /** A list without repeats has as many distinct members as entries. */
  lemma {:induction false} DistinctCount(s: seq<Id>)
    requires NoDup(s)
    ensures |set x | x in s| == |s|
  {
    if s != [] {
      var t := s[..|s| - 1];
      assert NoDup(t);
      DistinctCount(t);
      assert (set x | x in s) == (set x | x in t) + {s[|s| - 1]};
      assert s[|s| - 1] !in t;
    }
  }

  /** The map has one key per created character: the uuids never repeat. */
  lemma MapSize(m: map<Id, Character>, cs: seq<Character>, ids: seq<Id>)
    requires Indexed(m, cs, ids) && NoDup(ids)
    ensures |m.Keys| == |cs|
  {
    var s := ids[..|cs|];
    assert NoDup(s);
    DistinctCount(s);
    forall x | x in s ensures x in m {
      var j :| 0 <= j < |s| && s[j] == x;
      var c := cs[j];
      assert ids[j] in m && s[j] == ids[j];
    }
    assert m.Keys == set x | x in s;
  }

  /** With the pairing loop bounded by the founders, `count` founders and
      one to three children per founder pair make up the map. */
  lemma CharacterCount(m: map<Id, Character>, cs: seq<Character>, ids: seq<Id>, n: nat, sy: int, starts: seq<int>)
    requires Shaped(cs, ids, n, sy, starts) && Broods(starts) && |starts| - 1 == n / 2
    requires Indexed(m, cs, ids) && NoDup(ids)
    ensures |m.Keys| == |cs|
    ensures n + n / 2 <= |m.Keys| <= n + 3 * (n / 2)
  {
    BroodSpan(starts);
    MapSize(m, cs, ids);
  }

  /** With the pairing loop bounded by the founders, exactly the founders
      of a pair are married: no child is, and with an odd count neither is
      the last founder. */
  lemma OnlyFoundersMarry(cs: seq<Character>, ids: seq<Id>, n: nat, sy: int, starts: seq<int>)
    requires Shaped(cs, ids, n, sy, starts) && |starts| - 1 == n / 2
    ensures forall j :: 0 <= j < |cs| ==> (cs[j].spouseIds != [] <==> j < 2 * (n / 2))
    ensures n % 2 == 1 ==> cs[n - 1].spouseIds == []
  {
    assert Spouses(cs, ids, n / 2);
  }

  /** With the pairing loop bounded by the founders, every couple is a
      male founder at an even position and the female founder after him,
      each listing only the other. */
  lemma CouplesOfFounders(cs: seq<Character>, ids: seq<Id>, n: nat, sy: int, starts: seq<int>)
    requires Shaped(cs, ids, n, sy, starts) && |starts| - 1 == n / 2
    ensures forall j :: 0 <= j < 2 * (n / 2) ==>
              cs[j].parentIds == [] && cs[j].gender == (if j % 2 == 0 then Male else Female) &&
              cs[j].spouseIds == [cs[Partner(j)].id]
  {
    forall j | 0 <= j < 2 * (n / 2)
      ensures cs[j].parentIds == [] && cs[j].gender == (if j % 2 == 0 then Male else Female)
      ensures cs[j].spouseIds == [cs[Partner(j)].id]
    {
      assert Founder(cs[j], j, sy);
      assert Partner(j) < |cs|;
    }
  }

  /** As written, with three founders the pairing loop does not stop at
      the founders: founder 3 (position 2) is married to the first child
      of founders 1 and 2, whatever the random draws (given ids for nine
      characters, so that the model's id supply does not stop the loop
      first). The requires are the postconditions of
      `Generation.GenerateFounders` for `count: 3`. */
  lemma OddCountMarriesChild(cs: seq<Character>, ids: seq<Id>, sy: int, starts: seq<int>, complete: bool)
    requires Shaped(cs, ids, 3, sy, starts) && Broods(starts)
    requires complete <==> 2 * (|starts| - 1) + 1 >= |cs|
    requires !complete ==> |ids| < |cs| + 3
    requires 9 <= |ids|
    ensures cs[3].parentIds == [ids[0], ids[1]] && cs[3].givenName == ChildName(0, 0)
    ensures cs[2].spouseIds == [ids[3]] && cs[3].spouseIds == [ids[2]]
  {
    assert starts[0] == 3 && starts[|starts| - 1] == |cs|;
    if |starts| == 1 {
      assert false;
    } else if |starts| == 2 {
      assert false;
    }
    assert starts[0] + 1 <= starts[1];
    assert ChildAt(cs, ids, 3, sy, starts, 0, 3);
    assert Partner(2) == 3 && Partner(3) == 2;
  }

  /** As written, with two founders (the count the test uses) whose
      couple has at least two children, the loop goes on to marry those
      first two children, two siblings, to each other (given ids
      for nine characters). The requires are the postconditions of
      `Generation.GenerateFounders` for `count: 2`. */
  lemma SiblingsMarry(cs: seq<Character>, ids: seq<Id>, sy: int, starts: seq<int>, complete: bool)
    requires Shaped(cs, ids, 2, sy, starts) && Broods(starts)
    requires complete <==> 2 * (|starts| - 1) + 1 >= |cs|
    requires !complete ==> |ids| < |cs| + 3
    requires 9 <= |ids| && 2 <= |starts| && 4 <= starts[1]
    ensures cs[2].parentIds == [ids[0], ids[1]] && cs[3].parentIds == [ids[0], ids[1]]
    ensures cs[2].spouseIds == [ids[3]] && cs[3].spouseIds == [ids[2]]
  {
    assert starts[0] == 2 && starts[|starts| - 1] == |cs|;
    if |starts| == 2 {
      assert false;
    }
    assert ChildAt(cs, ids, 2, sy, starts, 0, 2) && ChildAt(cs, ids, 2, sy, starts, 0, 3);
    assert Partner(2) == 3 && Partner(3) == 2;
  }
}
