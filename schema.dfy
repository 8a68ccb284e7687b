/** The entity schema of the dynasty graph: identifiers, strings, the
    closed gender set, the five stats and the `Character` record. */
module Schema {

  datatype Option<+T> = None | Some(value: T)

  /** A UTF-16 code unit: JavaScript strings are sequences of these. */
  newtype CodeUnit = x: int | 0 <= x < 0x1_0000

  type JsString = seq<CodeUnit>

  /** Character identifiers: uuid strings, which the core only compares
      and uses as keys, so only their equality is modelled. */
  type Id(==, !new)

  /** A string literal as JavaScript code units (every literal used here is ASCII). */
  function Js(s: string): (r: JsString)
    ensures |r| == |s|
    ensures forall i :: 0 <= i < |s| ==> r[i] as int == s[i] as int % 0x1_0000
  {
    seq(|s|, i requires 0 <= i < |s| => (s[i] as int % 0x1_0000) as CodeUnit)
  }

  /** `String.fromCharCode(n)`: the code unit n modulo 2^16. */
  function FromCharCode(n: int): (r: JsString)
    ensures |r| == 1 && r[0] as int == n % 0x1_0000
  {
    [(n % 0x1_0000) as CodeUnit]
  }

  /** The number a string of decimal digits spells, most significant first. */
  function DigitsValue(r: JsString): int
    decreases |r|
  {
    if r == [] then 0 else 10 * DigitsValue(r[..|r| - 1]) + (r[|r| - 1] as int - '0' as int)
  }

  /** Decimal rendering of a natural number, as in a template literal `${n}`:
      a non-empty string of digits that spells `n`. */
  function Decimal(n: nat): (r: JsString)
    ensures |r| >= 1
    ensures forall i :: 0 <= i < |r| ==> '0' as int <= r[i] as int <= '9' as int
    ensures DigitsValue(r) == n
    decreases n
  {
    if n < 10 then [(48 + n) as CodeUnit]
    else
      var r := Decimal(n / 10) + [(48 + n % 10) as CodeUnit];
      assert r[..|r| - 1] == Decimal(n / 10);
      r
  }

  /** Different numbers render differently. */
  lemma DecimalInjective(m: nat, n: nat)
    requires Decimal(m) == Decimal(n)
    ensures m == n
  {
  }

  /** `a || b` on an optional number: absent or 0 (falsy) falls back to `b`. */
  function OrElse(x: Option<int>, fallback: int): (r: int)
    ensures x.Some? && x.value != 0 ==> r == x.value
    ensures x.None? || x.value == 0 ==> r == fallback
  {
    if x.Some? && x.value != 0 then x.value else fallback
  }

  datatype Gender = Male | Female | Other

  datatype Stats = Stats(diplomacy: int, martial: int, stewardship: int, intrigue: int, learning: int)

  const MinStat := 1
  const MaxStat := 10

  predicate StatsInRange(s: Stats) {
    MinStat <= s.diplomacy <= MaxStat && MinStat <= s.martial <= MaxStat &&
    MinStat <= s.stewardship <= MaxStat && MinStat <= s.intrigue <= MaxStat &&
    MinStat <= s.learning <= MaxStat
  }

  /** `deathYear?: number | null`: never set, explicitly null, or a year. */
  datatype DeathYear = Unset | Null | Year(year: int)

  /** A node of the dynasty graph. The only fields the core updates in
      place are `spouseIds` and `childIds`; every other field is written
      once, when the object literal is built, and is a `const` here. */
  class Character {
    const id: Id
    const givenName: JsString
    const familyName: Option<JsString>
    const birthYear: Option<int>
    const deathYear: DeathYear
    const gender: Gender
    const parentIds: seq<Id>
    var spouseIds: seq<Id>
    var childIds: seq<Id>
    const stats: Stats
    const traits: seq<JsString>
    const titles: seq<JsString>
    const alive: bool

    /** Every creation site in the core builds a living character with no
        spouses and no children yet. */
    constructor (id: Id, givenName: JsString, familyName: Option<JsString>, birthYear: Option<int>,
                 deathYear: DeathYear, gender: Gender, parentIds: seq<Id>, stats: Stats,
                 traits: seq<JsString>, titles: seq<JsString>)
      ensures this.id == id && this.givenName == givenName && this.familyName == familyName
      ensures this.birthYear == birthYear && this.deathYear == deathYear && this.gender == gender
      ensures this.parentIds == parentIds && this.spouseIds == [] && this.childIds == []
      ensures this.stats == stats && this.traits == traits && this.titles == titles && this.alive
    {
      this.id := id;
      this.givenName := givenName;
      this.familyName := familyName;
      this.birthYear := birthYear;
      this.deathYear := deathYear;
      this.gender := gender;
      this.parentIds := parentIds;
      this.spouseIds := [];
      this.childIds := [];
      this.stats := stats;
      this.traits := traits;
      this.titles := titles;
      this.alive := true;
    }
  }

  /** No identifier occurs twice. */
  predicate NoDup(s: seq<Id>) {
    forall i, j :: 0 <= i < j < |s| ==> s[i] != s[j]
  }
}
