/** `generateFounders`: create the founders, then walk the character array
    two at a time, marrying each pair and giving it one to three children.

    The characters are kept in creation order in `cs`, with `ids[j]` the
    uuid of `cs[j]`. Couple `t` is the pair at positions `2t` and `2t + 1`;
    its children sit at positions `starts[t]` up to `starts[t + 1]`, and
    the last entry of `starts` is the length of the array.

    The loops are split into small methods so that each proof only has to
    reason about one change to the heap:

    | source (`dynasty.ts`)          | member                                   |
    |--------------------------------|------------------------------------------|
    | :49-50 options                 | `FounderCount`, `StartingYear`           |
    | :53-69 founder loop            | `MakeFounders`, one pass `AddFounder`    |
    | :72 pairing loop               | `GenerateFounders`, one pass `Pair`      |
    | :73-76 marry the pair          | `Couple` (`Wed` does the two pushes)     |
    | :78-98 children loop           | `Brood`, one pass `BearChild`            |
    | :81-94 the child literal       | `NewChild`                               |
    | :95-97 the three pushes        | `Attach`; `Enroll` / `Settle` push ids   |
    | :101-102 index by id           | `IndexById`                              |
    | :104 root ids                  | `IdsOf`                                  |

    The lemmas `WedShaped`, `GrowChildren`, `GrowRest` and `GrowAll`
    carry the invariant `Shaped` across those changes. */
module Generation {
  import opened Schema
  import Random

  datatype GenerateOptions = GenerateOptions(count: Option<int>, startingYear: Option<int>)

  /** `options.count || 4`, and no founders when that is negative. */
  function FounderCount(count: Option<int>): (n: nat)
    ensures count.None? || count.value == 0 ==> n == 4
    ensures count.Some? && count.value > 0 ==> n == count.value
    ensures count.Some? && count.value < 0 ==> n == 0
  {
    var c := OrElse(count, 4);
    if c < 0 then 0 else c
  }

  /** `options.startingYear || 1000`. */
  function StartingYear(startingYear: Option<int>): (y: int)
    ensures startingYear.None? || startingYear.value == 0 ==> y == 1000
    ensures startingYear.Some? && startingYear.value != 0 ==> y == startingYear.value
  {
    OrElse(startingYear, 1000)
  }

  /** `Founder${i + 1}` */
  function FounderName(i: nat): JsString {
    Js("Founder") + Decimal(i + 1)
  }

  /** A founder's name reads back as the word, then the digits of `i + 1`. */
  lemma FounderNameSpells(i: nat)
    ensures var r := FounderName(i);
      |r| > 7 && r[..7] == Js("Founder") && DigitsValue(r[7..]) == i + 1
  {
    assert FounderName(i)[7..] == Decimal(i + 1);
  }

  /** The founders' given names are pairwise distinct. */
  lemma FounderNamesDistinct(i: nat, j: nat)
    requires FounderName(i) == FounderName(j)
    ensures i == j
  {
    FounderNameSpells(i);
    FounderNameSpells(j);
  }

  /** `'House ' + String.fromCharCode(65 + i)` */
  function FounderHouse(i: nat): JsString {
    Js("House ") + FromCharCode(65 + i)
  }

  /** The house name ends in the letter `A`..`Z` for the first 26
      founders; past them, in whatever code unit `65 + i` wraps to. */
  lemma FounderHouseLetter(i: nat)
    ensures var r := FounderHouse(i);
      |r| == 7 && r[..6] == Js("House ") && r[6] as int == (65 + i) % 0x1_0000 &&
      (i < 26 ==> 'A' as int <= r[6] as int <= 'Z' as int)
  {
  }

  /** `Child${i}-${c}`, where `i` is the array index of the first parent. */
  function ChildName(i: nat, c: nat): JsString {
    Js("Child") + Decimal(i) + Js("-") + Decimal(c)
  }

  /** A child's name reads back as the word, the digits of `i`, a dash
      and the digits of `c`. */
  lemma ChildNameSpells(i: nat, c: nat)
    ensures var r, d := ChildName(i, c), |Decimal(i)|;
      |r| == 6 + d + |Decimal(c)| && r[..5] == Js("Child") && r[5 + d] as int == '-' as int &&
      r[5..5 + d] == Decimal(i) && r[6 + d..] == Decimal(c)
  {
    var head := Js("Child") + Decimal(i);
    var r := head + Js("-") + Decimal(c);
    assert r[5..5 + |Decimal(i)|] == head[5..] == Decimal(i);
    assert r[6 + |Decimal(i)|..] == Decimal(c);
  }

  /** No `-` precedes the one after the parent index. */
  lemma ChildNameDash(i: nat, c: nat)
    ensures forall k :: 0 <= k < 5 + |Decimal(i)| ==> ChildName(i, c)[k] as int != '-' as int
  {
    ChildNameSpells(i, c);
    var r := ChildName(i, c);
    forall k | 0 <= k < 5 + |Decimal(i)| ensures r[k] as int != '-' as int {
      if k < 5 {
        assert r[k] == r[..5][k] == Js("Child")[k];
      } else {
        assert r[k] == r[5..5 + |Decimal(i)|][k - 5] == Decimal(i)[k - 5];
      }
    }
  }

  /** Two child names agree only for the same parent index and birth
      counter: the digits hold no `-`, so the dash is found at one place. */
  lemma ChildNamesDistinct(i: nat, c: nat, i': nat, c': nat)
    requires ChildName(i, c) == ChildName(i', c')
    ensures i == i' && c == c'
  {
    ChildNameSpells(i, c);
    ChildNameSpells(i', c');
    ChildNameDash(i, c);
    ChildNameDash(i', c');
    assert DigitsValue(Decimal(i)) == i && DigitsValue(Decimal(c)) == c;
  }

  /** The other member of the couple at position `j`. */
  function Partner(j: nat): nat {
    if j % 2 == 0 then j + 1 else j - 1
  }

  /** `n` founders, then the children of each couple in turn: couple `t`
      was formed while the array had `starts[t]` entries, so both its
      members precede its children. */
  ghost predicate Layout(n: nat, starts: seq<int>, m: nat, idCount: nat) {
    |starts| >= 1 && starts[0] == n && starts[|starts| - 1] == m && m <= idCount &&
    2 * (|starts| - 1) <= m &&
    (forall t :: 0 <= t < |starts| ==> n <= starts[t] <= m) &&
    (forall t, u :: 0 <= t <= u < |starts| ==> starts[t] <= starts[u]) &&
    forall t :: 0 <= t < |starts| - 1 ==> 2 * t + 1 < starts[t]
  }

  /** What every created character shares: its uuid, stats in [1, 10],
      no traits or titles, alive, no death year. */
  ghost predicate Born(cs: seq<Character>, ids: seq<Id>)
  {
    |cs| <= |ids| &&
    forall j {:trigger cs[j]} :: 0 <= j < |cs| ==>
      cs[j].id == ids[j] && StatsInRange(cs[j].stats) && cs[j].traits == [] && cs[j].titles == [] &&
      cs[j].alive && cs[j].deathYear == Unset
  }

  /** Founder `i`: its name and house, born 20 to 40 years before the
      starting year, male at even index and female at odd, no parents. */
  ghost predicate Founder(c: Character, i: nat, sy: int)
  {
    c.givenName == FounderName(i) && c.familyName == Some(FounderHouse(i)) &&
    c.birthYear.Some? && sy - 40 <= c.birthYear.value <= sy - 20 &&
    c.gender == (if i % 2 == 0 then Male else Female) && c.parentIds == []
  }

  ghost predicate Founders(cs: seq<Character>, n: nat, sy: int)
  {
    n <= |cs| && forall j :: 0 <= j < n ==> Founder(cs[j], j, sy)
  }

  /** Child number `k` of the couple whose first member `a` sits at index
      `i`: both parents' ids, `a`'s house, born 18 to 30 years after `a`
      (after the starting year when `a`'s birth year is falsy), male or female. */
  ghost predicate Child(c: Character, a: Character, aId: Id, bId: Id, i: nat, k: nat, sy: int)
  {
    c.parentIds == [aId, bId] && c.givenName == ChildName(i, k) && c.familyName == a.familyName &&
    c.birthYear.Some? &&
    OrElse(a.birthYear, sy) + 18 <= c.birthYear.value <= OrElse(a.birthYear, sy) + 30 &&
    (c.gender == Male || c.gender == Female)
  }

  /** Position `p` holds a child of couple `t`. */
  ghost predicate ChildAt(cs: seq<Character>, ids: seq<Id>, n: nat, sy: int, starts: seq<int>, t: nat, p: nat)
    requires Layout(n, starts, |cs|, |ids|) && t < |starts| - 1 && starts[t] <= p < starts[t + 1]
  {
    Child(cs[p], cs[2 * t], ids[2 * t], ids[2 * t + 1], 2 * t, p - starts[t], sy)
  }

  ghost predicate Children(cs: seq<Character>, ids: seq<Id>, n: nat, sy: int, starts: seq<int>)
    requires Layout(n, starts, |cs|, |ids|)
  {
    forall t: nat, p: nat :: t < |starts| - 1 && starts[t] <= p < starts[t + 1] ==> ChildAt(cs, ids, n, sy, starts, t, p)
  }

  /** The first `pairs` couples list each other as spouses; everybody
      else has none. */
  ghost predicate Spouses(cs: seq<Character>, ids: seq<Id>, pairs: nat)
    reads cs`spouseIds
  {
    2 * pairs <= |cs| <= |ids| &&
    forall j {:trigger cs[j]} :: 0 <= j < |cs| ==> cs[j].spouseIds == (if j < 2 * pairs then [ids[Partner(j)]] else [])
  }

  /** The child list of position `j`: the children of its couple, in
      birth order, or nothing when `j` is in no couple. */
  ghost function ChildIdsOf(ids: seq<Id>, starts: seq<int>, j: nat): seq<Id> {
    if j < 2 * (|starts| - 1) && 0 <= starts[j / 2] <= starts[j / 2 + 1] <= |ids|
    then ids[starts[j / 2]..starts[j / 2 + 1]]
    else []
  }

  /** Both members of each couple list its children; everybody else has none. */
  ghost predicate Offspring(cs: seq<Character>, ids: seq<Id>, starts: seq<int>)
    reads cs`childIds
  {
    forall j {:trigger cs[j]} :: 0 <= j < |cs| ==> cs[j].childIds == ChildIdsOf(ids, starts, j)
  }

  /** Everything but the child lists. */
  ghost predicate Static(cs: seq<Character>, ids: seq<Id>, n: nat, sy: int, starts: seq<int>)
    reads cs`spouseIds
  {
    Layout(n, starts, |cs|, |ids|) && Born(cs, ids) && Founders(cs, n, sy) &&
    Children(cs, ids, n, sy, starts) && Spouses(cs, ids, |starts| - 1)
  }

  /** The whole state after some couples have been formed and given children.
      The conjunction is bound to a name so that the verifier keeps it as
      one fact where it is assumed or proved, rather than splitting it
      into its parts at every call. */
  ghost predicate Shaped(cs: seq<Character>, ids: seq<Id>, n: nat, sy: int, starts: seq<int>)
    reads cs
  {
    var whole := Static(cs, ids, n, sy, starts) && Offspring(cs, ids, starts);
    whole
  }

  /** Nobody is married and nobody has children yet. */
  ghost predicate Unlinked(cs: seq<Character>)
    reads cs`spouseIds, cs`childIds
  {
    forall j {:trigger cs[j]} :: 0 <= j < |cs| ==> cs[j].spouseIds == [] && cs[j].childIds == []
  }

  lemma FoundersShaped(cs: seq<Character>, ids: seq<Id>, sy: int)
    requires Born(cs, ids) && Founders(cs, |cs|, sy) && Unlinked(cs)
    ensures Shaped(cs, ids, |cs|, sy, [|cs|])
  {
  }

  /** The first loop: `count` founders, none married yet. */
  method MakeFounders(count: int, sy: int, ids: seq<Id>) returns (cs: seq<Character>)
    requires |ids| >= count
    ensures |cs| == if count < 0 then 0 else count
    ensures Shaped(cs, ids, |cs|, sy, [|cs|])
    ensures forall j :: 0 <= j < |cs| ==> fresh(cs[j])
  {
    cs := [];
    while |cs| < count
      invariant |cs| <= (if count < 0 then 0 else count)
      invariant Born(cs, ids) && Founders(cs, |cs|, sy) && Unlinked(cs)
      invariant forall j :: 0 <= j < |cs| ==> fresh(cs[j])
    {
      cs := AddFounder(cs, ids, sy);
    }
    FoundersShaped(cs, ids, sy);
  }

  /** One iteration of the first loop: founder `i`, with `i` the number
      of founders so far. */
  method AddFounder(cs: seq<Character>, ids: seq<Id>, sy: int) returns (cs': seq<Character>)
    requires |cs| < |ids| && Born(cs, ids) && Founders(cs, |cs|, sy) && Unlinked(cs)
    ensures |cs'| == |cs| + 1 && cs' == cs + [cs'[|cs|]] && fresh(cs'[|cs|])
    ensures Born(cs', ids) && Founders(cs', |cs'|, sy) && Unlinked(cs')
  {
    var i := |cs|;
    var age := Random.RndInt(20, 40);
    var stats := Random.RandomStats();
    var founder := new Character(ids[i], FounderName(i), Some(FounderHouse(i)), Some(sy - age), Unset,
                                 if i % 2 == 0 then Male else Female, [], stats, [], []);
    cs' := cs + [founder];
  }

  /** `index` maps every id back to its position, so the ids are distinct. */
  ghost predicate Positions(ids: seq<Id>, index: map<Id, nat>) {
    forall j :: 0 <= j < |ids| ==> ids[j] in index && index[ids[j]] == j
  }

  /** Distinct ids have such an index. */
  lemma PositionsOf(ids: seq<Id>) returns (index: map<Id, nat>)
    requires NoDup(ids)
    ensures Positions(ids, index)
  {
    index := map j | 0 <= j < |ids| :: ids[j] := j;
  }

  /** Positions hold distinct objects, since their ids differ. */
  lemma Distinct(cs: seq<Character>, ids: seq<Id>, index: map<Id, nat>, j: nat, j': nat)
    requires Born(cs, ids) && Positions(ids, index) && j < |cs| && j' < |cs| && j != j'
    ensures cs[j] != cs[j']
  {
    assert index[ids[j]] == j && index[ids[j']] == j';
  }

  /** The pair at `2t` and `2t + 1`, with `t == pairs`, push each
      other's id, with no duplicate check. */
  method Wed(cs: seq<Character>, ids: seq<Id>, ghost index: map<Id, nat>, ghost pairs: nat, a: Character, b: Character)
    requires Spouses(cs, ids, pairs) && Born(cs, ids) && Positions(ids, index)
    requires 2 * pairs + 1 < |cs| && a == cs[2 * pairs] && b == cs[2 * pairs + 1]
    modifies a`spouseIds, b`spouseIds
    ensures Spouses(cs, ids, pairs + 1)
  {
    forall j | 0 <= j < |cs| && j != 2 * pairs && j != 2 * pairs + 1
      ensures cs[j] != a && cs[j] != b
    {
      Distinct(cs, ids, index, j, 2 * pairs);
      Distinct(cs, ids, index, j, 2 * pairs + 1);
    }
    assert Partner(2 * pairs) == 2 * pairs + 1 && Partner(2 * pairs + 1) == 2 * pairs;
    a.spouseIds := a.spouseIds + [b.id];
    b.spouseIds := b.spouseIds + [a.id];
  }

  /** A new couple with no children yet adds no child and no child list. */
  lemma WedShaped(cs: seq<Character>, ids: seq<Id>, n: nat, sy: int, starts: seq<int>)
    requires Layout(n, starts, |cs|, |ids|) && 2 * (|starts| - 1) + 1 < |cs|
    requires Children(cs, ids, n, sy, starts) && Offspring(cs, ids, starts)
    ensures Layout(n, starts + [|cs|], |cs|, |ids|)
    ensures Children(cs, ids, n, sy, starts + [|cs|]) && Offspring(cs, ids, starts + [|cs|])
  {
    var starts' := starts + [|cs|];
    forall t: nat, p: nat | t < |starts'| - 1 && starts'[t] <= p < starts'[t + 1]
      ensures ChildAt(cs, ids, n, sy, starts', t, p)
    {
      assert ChildAt(cs, ids, n, sy, starts, t, p);
    }
    forall j | 0 <= j < |cs| ensures ChildIdsOf(ids, starts, j) == ChildIdsOf(ids, starts', j) {
      if j / 2 < |starts| - 1 {
        assert starts'[j / 2] == starts[j / 2] && starts'[j / 2 + 1] == starts[j / 2 + 1];
      }
    }
  }

  /** One more child of the last couple extends that couple's two lists
      by its id and changes no other list. */
  lemma ChildIdsGrow(ids: seq<Id>, n: nat, pre: seq<int>, m: nat, j: nat)
    requires Layout(n, pre + [m + 1], m + 1, |ids|) && |pre| >= 1 && pre[|pre| - 1] <= m && j <= m
    ensures 2 * (|pre| - 1) + 1 < pre[|pre| - 1] <= m
    ensures ChildIdsOf(ids, pre + [m + 1], j) ==
            if j / 2 == |pre| - 1 then ChildIdsOf(ids, pre + [m], j) + [ids[m]]
            else ChildIdsOf(ids, pre + [m], j)
  {
    var t := |pre| - 1;
    assert (pre + [m + 1])[t] == pre[t] == (pre + [m])[t];
    if j / 2 == t {
      assert ids[pre[t]..m] + [ids[m]] == ids[pre[t]..m + 1];
    } else if j / 2 < t {
      assert (pre + [m])[j / 2] == pre[j / 2] == (pre + [m + 1])[j / 2];
      assert (pre + [m])[j / 2 + 1] == pre[j / 2 + 1] == (pre + [m + 1])[j / 2 + 1];
    }
  }

  /** Before `Enroll`: every list but the couple's already has its new
      value ... */
  lemma OthersReady(cs: seq<Character>, ids: seq<Id>, index: map<Id, nat>, n: nat, pre: seq<int>)
    requires 1 <= |cs| && |pre| >= 1 && pre[|pre| - 1] < |cs| && Layout(n, pre + [|cs|], |cs|, |ids|)
    requires Born(cs, ids) && Positions(ids, index) && Offspring(cs, ids, pre + [|cs| - 1])
    ensures 2 * (|pre| - 1) + 1 < |cs|
    ensures forall j :: 0 <= j < |cs| && j != 2 * (|pre| - 1) && j != 2 * (|pre| - 1) + 1 ==>
              cs[j] != cs[2 * (|pre| - 1)] && cs[j] != cs[2 * (|pre| - 1) + 1] &&
              cs[j].childIds == ChildIdsOf(ids, pre + [|cs|], j)
  {
    var t, m := |pre| - 1, |cs| - 1;
    ChildIdsGrow(ids, n, pre, m, 0);
    forall j | 0 <= j < |cs| && j != 2 * t && j != 2 * t + 1
      ensures cs[j] != cs[2 * t] && cs[j] != cs[2 * t + 1] && cs[j].childIds == ChildIdsOf(ids, pre + [|cs|], j)
    {
      Distinct(cs, ids, index, j, 2 * t);
      Distinct(cs, ids, index, j, 2 * t + 1);
      ChildIdsGrow(ids, n, pre, m, j);
      assert j / 2 != t;
    }
  }

  /** ... and the couple's lists lack only the new child's id. */
  lemma CoupleReady(cs: seq<Character>, ids: seq<Id>, n: nat, pre: seq<int>)
    requires 1 <= |cs| && |pre| >= 1 && pre[|pre| - 1] < |cs| && Layout(n, pre + [|cs|], |cs|, |ids|)
    requires Offspring(cs, ids, pre + [|cs| - 1])
    ensures 2 * (|pre| - 1) + 1 < |cs|
    ensures cs[2 * (|pre| - 1)].childIds + [ids[|cs| - 1]] == ChildIdsOf(ids, pre + [|cs|], 2 * (|pre| - 1))
    ensures cs[2 * (|pre| - 1) + 1].childIds + [ids[|cs| - 1]] == ChildIdsOf(ids, pre + [|cs|], 2 * (|pre| - 1) + 1)
  {
    var t, m := |pre| - 1, |cs| - 1;
    ChildIdsGrow(ids, n, pre, m, 2 * t);
    ChildIdsGrow(ids, n, pre, m, 2 * t + 1);
    assert (2 * t) / 2 == t && (2 * t + 1) / 2 == t;
  }

  /** Pushing the new child's id onto both parents' lists; `cs` already
      ends with the child. */
  method Enroll(cs: seq<Character>, ids: seq<Id>, ghost index: map<Id, nat>, n: nat, ghost pre: seq<int>, a: Character, b: Character)
    requires 1 <= |cs| && |pre| >= 1 && pre[|pre| - 1] < |cs| && Layout(n, pre + [|cs|], |cs|, |ids|)
    requires Born(cs, ids) && Positions(ids, index) && Offspring(cs, ids, pre + [|cs| - 1])
    requires a == cs[2 * (|pre| - 1)] && b == cs[2 * (|pre| - 1) + 1]
    modifies a`childIds, b`childIds
    ensures Offspring(cs, ids, pre + [|cs|])
  {
    OthersReady(cs, ids, index, n, pre);
    CoupleReady(cs, ids, n, pre);
    a.childIds := a.childIds + [ids[|cs| - 1]];
    b.childIds := b.childIds + [ids[|cs| - 1]];
    forall j | 0 <= j < |cs| ensures cs[j].childIds == ChildIdsOf(ids, pre + [|cs|], j) {
      if j == 2 * (|pre| - 1) {
        assert cs[j] == a;
      } else if j == 2 * (|pre| - 1) + 1 {
        assert cs[j] == b;
      } else {
        assert cs[j].childIds == old(cs[j].childIds);
      }
    }
  }

  /** `Enroll`, which changes child lists only, keeps everything else;
      `last + 1` is the length of `cs`, which ends with the new child. */
  method Settle(cs: seq<Character>, ids: seq<Id>, ghost index: map<Id, nat>, n: nat, sy: int, ghost pre: seq<int>, ghost last: nat,
                a: Character, b: Character)
    requires |cs| == last + 1 && |pre| >= 1 && pre[|pre| - 1] <= last
    requires Static(cs, ids, n, sy, pre + [last + 1]) && Positions(ids, index) && Offspring(cs, ids, pre + [last])
    requires a == cs[2 * (|pre| - 1)] && b == cs[2 * (|pre| - 1) + 1]
    modifies a`childIds, b`childIds
    ensures Shaped(cs, ids, n, sy, pre + [last + 1])
  {
    Enroll(cs, ids, index, n, pre, a, b);
  }

  /** The new child, at position `m`, is a child of the last couple. */
  lemma GrowChildren(cs: seq<Character>, child: Character, ids: seq<Id>, n: nat, sy: int, pre: seq<int>)
    requires |pre| >= 1 && Layout(n, pre + [|cs|], |cs|, |ids|) && |cs| < |ids|
    requires Children(cs, ids, n, sy, pre + [|cs|]) && 2 * (|pre| - 1) + 1 < |cs| && pre[|pre| - 1] <= |cs|
    requires Child(child, cs[2 * (|pre| - 1)], ids[2 * (|pre| - 1)], ids[2 * (|pre| - 1) + 1],
                   2 * (|pre| - 1), |cs| - pre[|pre| - 1], sy)
    ensures Layout(n, pre + [|cs| + 1], |cs| + 1, |ids|)
    ensures Children(cs + [child], ids, n, sy, pre + [|cs| + 1])
  {
    var cs', s, s' := cs + [child], pre + [|cs|], pre + [|cs| + 1];
    assert forall t :: 0 <= t < |pre| ==> s'[t] == s[t] == pre[t];
    forall t: nat, p: nat | t < |s'| - 1 && s'[t] <= p < s'[t + 1] ensures ChildAt(cs', ids, n, sy, s', t, p) {
      if p < |cs| {
        assert ChildAt(cs, ids, n, sy, s, t, p);
        assert cs'[p] == cs[p] && cs'[2 * t] == cs[2 * t];
      } else {
        assert cs'[p] == child && cs'[2 * t] == cs[2 * t];
      }
    }
  }

  /** The new child's other facts: its uuid and default fields, no spouse
      and, for now, no children. */
  lemma GrowRest(cs: seq<Character>, child: Character, ids: seq<Id>, n: nat, sy: int, starts: seq<int>)
    requires Layout(n, starts, |cs|, |ids|) && |cs| < |ids|
    requires Born(cs, ids) && Founders(cs, n, sy) && Spouses(cs, ids, |starts| - 1) && Offspring(cs, ids, starts)
    requires child.id == ids[|cs|] && StatsInRange(child.stats) && child.traits == [] && child.titles == []
    requires child.alive && child.deathYear == Unset && child.spouseIds == [] && child.childIds == []
    ensures Born(cs + [child], ids) && Founders(cs + [child], n, sy)
    ensures Spouses(cs + [child], ids, |starts| - 1) && Offspring(cs + [child], ids, starts)
  {
    var cs' := cs + [child];
    assert forall j :: 0 <= j < |cs| ==> cs'[j] == cs[j];
    assert ChildIdsOf(ids, starts, |cs|) == [];
  }

  /** The array with the new child appended satisfies everything but the
      parents' child lists, which still lack the child's id. */
  lemma GrowAll(cs: seq<Character>, child: Character, ids: seq<Id>, n: nat, sy: int,
                pre: seq<int>, top: nat, i: nat, c: nat, a: Character, b: Character)
    requires top == |cs| && |pre| >= 1 && Shaped(cs, ids, n, sy, pre + [top]) && |cs| < |ids|
    requires i == 2 * (|pre| - 1) && c == |cs| - pre[|pre| - 1]
    requires i + 1 < |cs| && a == cs[i] && b == cs[i + 1]
    requires Child(child, a, a.id, b.id, i, c, sy) && child.id == ids[|cs|]
    requires StatsInRange(child.stats) && child.traits == [] && child.titles == []
    requires child.alive && child.deathYear == Unset && child.spouseIds == [] && child.childIds == []
    ensures Static(cs + [child], ids, n, sy, pre + [top + 1]) && Offspring(cs + [child], ids, pre + [top])
  {
    assert a.id == ids[i] && b.id == ids[i + 1];
    GrowChildren(cs, child, ids, n, sy, pre);
    GrowRest(cs, child, ids, n, sy, pre + [|cs|]);
  }

  /** The child literal: child number `c` of `a` and `b`, with `a` at
      index `i`. */
  method NewChild(id: Id, a: Character, b: Character, i: nat, c: nat, sy: int) returns (child: Character)
    ensures fresh(child) && child.id == id
    ensures Child(child, a, a.id, b.id, i, c, sy)
    ensures StatsInRange(child.stats) && child.traits == [] && child.titles == []
    ensures child.alive && child.deathYear == Unset && child.spouseIds == [] && child.childIds == []
  {
    var gap := Random.RndInt(18, 30);
    var gender := Random.RandomGender();
    var stats := Random.RandomStats();
    child := new Character(id, ChildName(i, c), a.familyName, Some(OrElse(a.birthYear, sy) + gap), Unset,
                           gender, [a.id, b.id], stats, [], []);
  }

  /** Appends the new child and records it in its parents' child lists. */
  method Attach(cs: seq<Character>, child: Character, ids: seq<Id>, ghost index: map<Id, nat>, n: nat, sy: int, ghost pre: seq<int>,
                ghost top: nat, i: nat, c: nat, a: Character, b: Character)
    requires top == |cs| && |pre| >= 1 && Shaped(cs, ids, n, sy, pre + [top]) && Positions(ids, index) && |cs| < |ids|
    requires i == 2 * (|pre| - 1) && c == |cs| - pre[|pre| - 1]
    requires i + 1 < |cs| && a == cs[i] && b == cs[i + 1]
    requires Child(child, a, a.id, b.id, i, c, sy) && child.id == ids[|cs|]
    requires StatsInRange(child.stats) && child.traits == [] && child.titles == []
    requires child.alive && child.deathYear == Unset && child.spouseIds == [] && child.childIds == []
    modifies a`childIds, b`childIds
    ensures Shaped(cs + [child], ids, n, sy, pre + [top + 1])
  {
    GrowAll(cs, child, ids, n, sy, pre, top, i, c, a, b);
    Settle(cs + [child], ids, index, n, sy, pre, top, a, b);
  }

  /** One pass of the inner loop: the next child of the last couple, its
      id pushed onto both parents' `childIds` and the child onto the array. */
  method BearChild(cs: seq<Character>, ids: seq<Id>, ghost index: map<Id, nat>, n: nat, sy: int, ghost pre: seq<int>, ghost top: nat,
                   i: nat, c: nat, a: Character, b: Character)
    returns (child: Character)
    requires top == |cs| && |pre| >= 1 && Shaped(cs, ids, n, sy, pre + [top]) && Positions(ids, index) && |cs| < |ids|
    requires i == 2 * (|pre| - 1) && c == |cs| - pre[|pre| - 1]
    requires i + 1 < |cs| && a == cs[i] && b == cs[i + 1]
    modifies a`childIds, b`childIds
    ensures fresh(child) && Shaped(cs + [child], ids, n, sy, pre + [top + 1])
  {
    child := NewChild(ids[|cs|], a, b, i, c, sy);
    Attach(cs, child, ids, index, n, sy, pre, top, i, c, a, b);
  }

  /** The pair at `2t` and `2t + 1`, with `t == |starts| - 1`, marries:
      a new couple with no children yet. */
  method Couple(cs: seq<Character>, ids: seq<Id>, ghost index: map<Id, nat>, n: nat, sy: int, ghost starts: seq<int>,
                a: Character, b: Character)
    requires Shaped(cs, ids, n, sy, starts) && Positions(ids, index)
    requires 2 * (|starts| - 1) + 1 < |cs| && a == cs[2 * (|starts| - 1)] && b == cs[2 * (|starts| - 1) + 1]
    modifies a`spouseIds, b`spouseIds
    ensures Shaped(cs, ids, n, sy, starts + [|cs|])
  {
    Wed(cs, ids, index, |starts| - 1, a, b);
    WedShaped(cs, ids, n, sy, starts);
  }

  /** Pushing a new object keeps `next` an extension of `cs` by new objects. */
  twostate lemma Extended(cs: seq<Character>, new prev: seq<Character>, new child: Character, new next: seq<Character>)
    requires forall j :: 0 <= j < |prev| ==> if j < |cs| then prev[j] == cs[j] else fresh(prev[j])
    requires |cs| <= |prev| && fresh(child) && next == prev + [child]
    ensures forall j :: 0 <= j < |next| ==> if j < |cs| then next[j] == cs[j] else fresh(next[j])
  {
  }

  /** The inner loop: `k` children of the last couple. */
  method Brood(cs: seq<Character>, ids: seq<Id>, ghost index: map<Id, nat>, n: nat, sy: int, ghost pre: seq<int>, i: nat,
               a: Character, b: Character, k: nat)
    returns (cs': seq<Character>)
    requires |pre| >= 1 && Shaped(cs, ids, n, sy, pre + [|cs|]) && Positions(ids, index) && |cs| + k <= |ids|
    requires i == 2 * (|pre| - 1) && pre[|pre| - 1] == |cs| && i + 1 < |cs| && a == cs[i] && b == cs[i + 1]
    modifies a`childIds, b`childIds
    ensures |cs'| == |cs| + k
    ensures forall j :: 0 <= j < |cs'| ==> if j < |cs| then cs'[j] == cs[j] else fresh(cs'[j])
    ensures Shaped(cs', ids, n, sy, pre + [|cs'|])
  {
    cs' := cs;
    var c := 0;
    ghost var top := |cs|;
    while c < k
      invariant c <= k && top == |cs'| == |cs| + c && c == |cs'| - pre[|pre| - 1]
      invariant forall j :: 0 <= j < |cs'| ==> if j < |cs| then cs'[j] == cs[j] else fresh(cs'[j])
      invariant Shaped(cs', ids, n, sy, pre + [top])
    {
      var child := BearChild(cs', ids, index, n, sy, pre, top, i, c, a, b);
      ghost var prev := cs';
      cs' := cs' + [child];
      Extended(cs, prev, child, cs');
      c, top := c + 1, top + 1;
    }
  }

  /** One iteration of the pairing loop: the pair at `2t` and `2t + 1`,
      with `t == |starts| - 1`, marries and has one to three children. */
  method Pair(cs: seq<Character>, ids: seq<Id>, ghost index: map<Id, nat>, n: nat, sy: int, ghost starts: seq<int>, i: nat,
              a: Character, b: Character)
    returns (cs': seq<Character>, k: nat)
    requires Shaped(cs, ids, n, sy, starts) && Positions(ids, index)
    requires i == 2 * (|starts| - 1) && i + 1 < |cs| && |cs| + 3 <= |ids|
    requires a == cs[i] && b == cs[i + 1]
    modifies a`spouseIds, b`spouseIds, a`childIds, b`childIds
    ensures 1 <= k <= 3 && |cs'| == |cs| + k && forall j :: 0 <= j < |cs| ==> cs'[j] == cs[j]
    ensures forall j :: |cs| <= j < |cs'| ==> fresh(cs'[j])
    ensures Shaped(cs', ids, n, sy, starts + [|cs'|])
  {
    Couple(cs, ids, index, n, sy, starts, a, b);
    k := Random.RndInt(1, 3);
    cs' := Brood(cs, ids, index, n, sy, starts, i, a, b, k);
  }

  /** Every couple has one to three children. */
  ghost predicate Broods(starts: seq<int>) {
    forall t :: 0 <= t < |starts| - 1 ==> starts[t] + 1 <= starts[t + 1] <= starts[t] + 3
  }

  /** One more couple with one to three children keeps `Broods`. */
  lemma BroodsGrow(starts: seq<int>, m: int)
    requires Broods(starts) && |starts| >= 1 && starts[|starts| - 1] + 1 <= m <= starts[|starts| - 1] + 3
    ensures Broods(starts + [m])
  {
    var s' := starts + [m];
    forall t | 0 <= t < |s'| - 1 ensures s'[t] + 1 <= s'[t + 1] <= s'[t] + 3 {
      if t < |starts| - 1 {
        assert s'[t] == starts[t] && s'[t + 1] == starts[t + 1];
      }
    }
  }

  /** `map` holds exactly the created characters, each under its own id. */
  ghost predicate Indexed(m: map<Id, Character>, cs: seq<Character>, ids: seq<Id>) {
    |cs| <= |ids| &&
    (forall j {:trigger cs[j]} :: 0 <= j < |cs| ==> ids[j] in m && m[ids[j]] == cs[j]) &&
    (forall k :: k in m ==> k in ids[..|cs|])
  }

  /** `for (const c of characters) map[c.id] = c`. */
  method IndexById(cs: seq<Character>, ghost ids: seq<Id>) returns (m: map<Id, Character>)
    requires Born(cs, ids) && NoDup(ids)
    ensures Indexed(m, cs, ids)
  {
    m := map[];
    var j := 0;
    while j < |cs|
      invariant 0 <= j <= |cs|
      invariant forall j' :: 0 <= j' < j ==> ids[j'] in m && m[ids[j']] == cs[j']
      invariant forall k :: k in m ==> k in ids[..j]
    {
      assert ids[..j + 1] == ids[..j] + [ids[j]] && cs[j].id == ids[j];
      forall j' | 0 <= j' < j ensures ids[j'] != ids[j] {
        assert j' < j;
      }
      m := m[cs[j].id := cs[j]];
      j := j + 1;
    }
  }

  /** `characters.slice(0, count).map((c) => c.id)` */
  function IdsOf(cs: seq<Character>): (r: seq<Id>)
    ensures |r| == |cs| && forall j :: 0 <= j < |cs| ==> r[j] == cs[j].id
  {
    seq(|cs|, j requires 0 <= j < |cs| => cs[j].id)
  }

  /** The founders' ids are the first `n` ids of the supply. */
  lemma RootIds(cs: seq<Character>, ids: seq<Id>, n: nat)
    requires Born(cs, ids) && n <= |cs|
    ensures IdsOf(cs[..n]) == ids[..n]
  {
    assert forall j :: 0 <= j < n ==> cs[..n][j] == cs[j];
  }

  /** `generateFounders(seed, options)` as written: the pairing loop reads
      the length of the growing array, so it goes on to pair and marry the
      children it has just created. `uuidv4` draws from `freshIds`; the
      loop also stops once fewer than three unused ids remain, in which
      case `complete` is false. */
  method GenerateFounders(options: GenerateOptions, freshIds: seq<Id>)
    returns (characters: map<Id, Character>, rootIds: seq<Id>, complete: bool,
             ghost created: seq<Character>, ghost starts: seq<int>)
    requires NoDup(freshIds) && FounderCount(options.count) <= |freshIds|
    ensures rootIds == freshIds[..FounderCount(options.count)]
    ensures Shaped(created, freshIds, FounderCount(options.count), StartingYear(options.startingYear), starts)
    ensures Broods(starts) && Indexed(characters, created, freshIds)
    ensures complete <==> 2 * (|starts| - 1) + 1 >= |created|
    ensures !complete ==> |freshIds| < |created| + 3
  {
    ghost var index := PositionsOf(freshIds);
    var n := FounderCount(options.count);
    var sy := StartingYear(options.startingYear);
    var cs := MakeFounders(n, sy, freshIds);
    starts := [|cs|];
    var i := 0;
    while i + 1 < |cs| && |cs| + 3 <= |freshIds|
      invariant i == 2 * (|starts| - 1) && n <= |cs|
      invariant Shaped(cs, freshIds, n, sy, starts) && Broods(starts)
      invariant forall j :: 0 <= j < |cs| ==> fresh(cs[j])
      decreases |freshIds| - |cs|
    {
      var k;
      cs, k := Pair(cs, freshIds, index, n, sy, starts, i, cs[i], cs[i + 1]);
      BroodsGrow(starts, |cs|);
      starts := starts + [|cs|];
      i := i + 2;
    }
    complete := i + 1 >= |cs|;
    created := cs;
    characters := IndexById(cs, freshIds);
    rootIds := IdsOf(cs[..n]);
    RootIds(cs, freshIds, n);
  }

  /** Before the pair `2t`, `2t + 1` of `n` founders, with at most three
      children per earlier couple, ids for three more children remain. */
  lemma Room(n: nat, t: nat, m: nat, idCount: nat)
    requires 2 * t + 1 < n && m <= n + 3 * t && n + 3 * (n / 2) <= idCount
    ensures m + 3 <= idCount
  {
    assert t + 1 <= n / 2;
  }

  /** The evidently intended `generateFounders`: the pairing loop stops at
      the founders (`i + 1 < count`), so only founders marry. */
  method GenerateFoundersPaired(options: GenerateOptions, freshIds: seq<Id>)
    returns (characters: map<Id, Character>, rootIds: seq<Id>,
             ghost created: seq<Character>, ghost starts: seq<int>)
    requires NoDup(freshIds)
    requires FounderCount(options.count) + 3 * (FounderCount(options.count) / 2) <= |freshIds|
    ensures rootIds == freshIds[..FounderCount(options.count)]
    ensures Shaped(created, freshIds, FounderCount(options.count), StartingYear(options.startingYear), starts)
    ensures Broods(starts) && Indexed(characters, created, freshIds)
    ensures |starts| - 1 == FounderCount(options.count) / 2
  {
    ghost var index := PositionsOf(freshIds);
    var n := FounderCount(options.count);
    var sy := StartingYear(options.startingYear);
    var cs := MakeFounders(n, sy, freshIds);
    starts := [|cs|];
    var i := 0;
    while i + 1 < n
      invariant i == 2 * (|starts| - 1) && i <= n <= |cs| <= n + 3 * (|starts| - 1)
      invariant Shaped(cs, freshIds, n, sy, starts) && Broods(starts)
      invariant forall j :: 0 <= j < |cs| ==> fresh(cs[j])
    {
      Room(n, |starts| - 1, |cs|, |freshIds|);
      var k;
      cs, k := Pair(cs, freshIds, index, n, sy, starts, i, cs[i], cs[i + 1]);
      BroodsGrow(starts, |cs|);
      starts := starts + [|cs|];
      i := i + 2;
    }
    created := cs;
    characters := IndexById(cs, freshIds);
    rootIds := IdsOf(cs[..n]);
    RootIds(cs, freshIds, n);
  }
}
