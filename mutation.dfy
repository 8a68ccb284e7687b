/** The two helpers that create or link characters without walking the
    graph: `createChild` and `marry`. */
module Mutation {
  import opened Schema
  import Random

  /** The fields of `Partial<Character>` that `createChild` reads; `None`
      stands for a field that is absent (or `overrides` itself absent). */
  datatype Overrides = Overrides(
    givenName: Option<JsString>,
    familyName: Option<JsString>,
    birthYear: Option<int>,
    gender: Option<Gender>,
    stats: Option<Stats>,
    traits: Option<seq<JsString>>,
    titles: Option<seq<JsString>>)

  /** `x || fallback` on an optional string: absent or empty falls back. */
  function OrString(x: Option<JsString>, fallback: JsString): (r: JsString)
    ensures x.Some? && x.value != [] ==> r == x.value
    ensures x.None? || x.value == [] ==> r == fallback
  {
    if x.Some? && x.value != [] then x.value else fallback
  }

  function OrValue<T>(x: Option<T>, fallback: T): (r: T)
    ensures x.Some? ==> r == x.value
    ensures x.None? ==> r == fallback
  {
    if x.Some? then x.value else fallback
  }

  /** `createChild(parentIds, overrides)` with `id` as the fresh uuid. The
      parents are not touched (the method may modify nothing that exists). */
  method CreateChild(id: Id, parentIds: seq<Id>, overrides: Overrides) returns (child: Character)
    ensures fresh(child)
    ensures child.id == id && child.parentIds == parentIds
    ensures child.spouseIds == [] && child.childIds == []
    ensures child.alive && child.deathYear == Null
    ensures child.givenName == OrString(overrides.givenName, Js("Newborn"))
    ensures child.familyName == Some(OrString(overrides.familyName, Js("House")))
    ensures child.birthYear == overrides.birthYear
    ensures overrides.gender.Some? ==> child.gender == overrides.gender.value
    ensures overrides.gender.None? ==> child.gender == Male || child.gender == Female
    ensures overrides.stats.Some? ==> child.stats == overrides.stats.value
    ensures overrides.stats.None? ==> StatsInRange(child.stats)
    ensures child.traits == OrValue(overrides.traits, [])
    ensures child.titles == OrValue(overrides.titles, [])
  {
    var familyName := OrString(overrides.familyName, Js("House"));
    var gender;
    if overrides.gender.Some? {
      gender := overrides.gender.value;
    } else {
      gender := Random.RandomGender();
    }
    var stats;
    if overrides.stats.Some? {
      stats := overrides.stats.value;
    } else {
      stats := Random.RandomStats();
    }
    child := new Character(id, OrString(overrides.givenName, Js("Newborn")), Some(familyName),
                           overrides.birthYear, Null, gender, parentIds, stats,
                           OrValue(overrides.traits, []), OrValue(overrides.titles, []));
  }

  /** `if (!s.includes(x)) s.push(x)`. */
  function AddOnce(s: seq<Id>, x: Id): (r: seq<Id>)
    ensures x in r && forall y :: y in r <==> y in s || y == x
    ensures s <= r && |r| <= |s| + 1
    ensures x in s ==> r == s
    ensures NoDup(s) ==> NoDup(r)
  {
    if x in s then s else s + [x]
  }

  /** `marry(a, b)`: each lists the other as a spouse, added at most once.
      The frame says that nothing but the two spouse lists changes; this
      holds also when `a` and `b` are the same object. */
  method Marry(a: Character, b: Character)
    modifies a`spouseIds, b`spouseIds
    ensures a.spouseIds == AddOnce(old(a.spouseIds), b.id)
    ensures b.spouseIds == AddOnce(old(b.spouseIds), a.id)
  {
    if b.id !in a.spouseIds {
      a.spouseIds := a.spouseIds + [b.id];
    }
    if a.id !in b.spouseIds {
      b.spouseIds := b.spouseIds + [a.id];
    }
  }

  /** A second `marry` of the same pair changes nothing. */
  method MarryTwice(a: Character, b: Character)
    modifies a`spouseIds, b`spouseIds
    ensures b.id in a.spouseIds && a.id in b.spouseIds
    ensures a.spouseIds == AddOnce(old(a.spouseIds), b.id)
    ensures b.spouseIds == AddOnce(old(b.spouseIds), a.id)
  {
    Marry(a, b);
    ghost var once := (a.spouseIds, b.spouseIds);
    Marry(a, b);
    assert (a.spouseIds, b.spouseIds) == once;
  }
}
