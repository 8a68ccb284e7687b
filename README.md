# Dynasty graph engine — a Dafny model

This project models the dynasty graph engine of a dynasty-simulation app
(`src/utils/dynasty.ts`). Characters are records linked to each other by
`parentIds`, `spouseIds` and `childIds` and kept in a map from uuid to
character. The engine has four kinds of operation:

- `generateFounders` builds a starting population. It creates `count`
  founders, then walks the character array two at a time. Each pair
  marries and has one to three children, and every child is pushed onto
  the same array. Finally it indexes everything by id and returns the
  founders' ids.
- `createChild` builds a new character record from parent ids and
  optional overrides.
- `marry` links two characters as spouses, adding each id at most once.
- `getAncestors` / `getDescendants` walk `parentIds` / `childIds` depth
  first. The walk is guarded by a visited set and an optional depth bound,
  and returns characters in the order it first meets them.

The files:

- `schema.dfy`: module `Schema`. The `Character` class, with the two
  lists the engine updates in place (`spouseIds`, `childIds`) as fields
  and every other field `const`. It also holds JavaScript strings as
  UTF-16 code units and the falsy-fallback `||` on numbers.
- `random.dfy`: module `Random`. `rndInt`, `randomStats` and the gender
  coin, each as a choice within the range the source's arithmetic
  produces.
- `mutation.dfy`: module `Mutation`. `createChild` and `marry`.
- `walk.dfy`: module `WalkSpec`. The walk as a function over a relation
  (id → related ids), with the closure state (`visited`, `result`)
  threaded through. `Walk` itself ensures the empty cases: nothing for
  an unknown start or a depth below 1.
- `walk_proofs.dfy`: module `WalkProofs`. What the walk promises:
  - no duplicates;
  - only map entries;
  - depth 1 is exactly the direct relations, in stored order;
  - every result is within `depth` steps;
  - the start appears only on a cycle;
  - completeness without a depth bound;
  - a counterexample to completeness with one;
  - depth-first preorder: each result follows the character that led
    to it, with only that character's descendants in between, and a
    concrete graph on which the breadth-first order fails this.
- `traversal.dfy`: module `Traversal`. `getAncestors` / `getDescendants`
  as methods over the heap. Each is proved equal to the `WalkSpec`
  function.
- `generation.dfy`: module `Generation`. `generateFounders` as written,
  and a corrected version that pairs founders only. Both are imperative
  over a sequence of `Character` objects whose lists are updated in
  place. A ghost invariant (`Shaped`) describes the exact state after
  every step of each loop.
- `generation_proofs.dfy`: module `GenerationProofs`. What the returned
  map promises:
  - keys, stats, spouse symmetry, parent/child agreement, birth years;
  - the counts, and who marries whom, under the corrected loop;
  - two concrete consequences of the loop as written.

The uuid supply is a parameter: a sequence `freshIds` of distinct ids,
consumed in order. The random draws are nondeterministic choices within
their ranges, so every property holds for every outcome of the draws.

## Model

| member | source | states |
|---|---|---|
| Schema.Character.constructor | src/utils/dynasty.ts:13-27 | a new character with the given fields, no spouses, no children, alive |
| Schema.OrElse | src/utils/dynasty.ts:49-50 | the falsy fallback on a number: the value unless absent or 0 |
| Schema.FromCharCode | src/utils/dynasty.ts:58 | `String.fromCharCode(n)` is one code unit, `n` mod 2^16 |
| Schema.Decimal | src/utils/dynasty.ts:57 | `${n}` is a non-empty string of decimal digits that reads back as `n` (`DigitsValue`), so different numbers render differently |
| Schema.DecimalInjective | src/utils/dynasty.ts:57 | two numbers with the same rendering are equal |
| Random.RndInt | src/utils/dynasty.ts:34-36 | `rndInt(min, max)` lies in [min, max] |
| Random.RandomStats | src/utils/dynasty.ts:38-46 | all five stats lie in [1, 10] |
| Random.RandomGender | src/utils/dynasty.ts:86 | the coin yields male or female, never other |
| Mutation.OrString | src/utils/dynasty.ts:109-112 | the falsy fallback on a string: the value unless absent or empty |
| Mutation.OrValue | src/utils/dynasty.ts:119-121 | an override when present, the default otherwise (objects and arrays are truthy) |
| Mutation.CreateChild | src/utils/dynasty.ts:107-126 | a fresh record with the given parent ids and empty spouse and child lists, alive, `deathYear` null; name falls back to 'Newborn', house to 'House', stats to in-range draws, traits and titles to []; nothing existing is modified |
| Mutation.AddOnce | src/utils/dynasty.ts:129-130 | push-if-absent: the id is present afterwards, nothing else is added, an existing id leaves the list unchanged, duplicate-free stays duplicate-free |
| Mutation.Marry | src/utils/dynasty.ts:128-131 | each spouse list gains the other's id at most once and nothing else changes, also when `a` and `b` are the same object |
| Mutation.MarryTwice | src/utils/dynasty.ts:128-131 | a second `marry` of the same pair changes nothing (idempotence); both are then spouses |
| WalkSpec.VisitNode | src/utils/dynasty.ts:137-140 | `walk(cur, level)` only grows `visited` and only appends to the result; it terminates because each step marks an unvisited id |
| WalkSpec.VisitList | src/utils/dynasty.ts:141-149 | the `for` loop only grows `visited` and only appends to the result |
| WalkProofs.VisitNodeSound | src/utils/dynasty.ts:137-149 | the result never repeats an id and holds exactly the visited ids that are map entries |
| WalkProofs.VisitListSound | src/utils/dynasty.ts:141-149 | the same invariant, across the loop |
| WalkProofs.VisitListCovers | src/utils/dynasty.ts:141-143 | after the loop, every id of the list has been marked visited |
| WalkProofs.WalkSound | src/utils/dynasty.ts:133-154 | the traversal returns no duplicate, and only map entries (ids missing from the map are skipped) |
| WalkSpec.Walk | src/utils/dynasty.ts:152-153 | `walk(id, 1)` from an empty state returns the ids pushed; an unknown start id or a depth below 1 (the guards at :138-139) returns nothing |
| WalkProofs.WalkIncludesDirect | src/utils/dynasty.ts:141-148 | with depth ≥ 1 every direct relation that is a map entry is returned |
| WalkProofs.KeepMembers | src/utils/dynasty.ts:141-146 | the reference filter for one level keeps exactly the unseen ids that are map entries |
| WalkProofs.KeepNoDup | src/utils/dynasty.ts:141-146 | the reference filter repeats no id |
| WalkProofs.KeepOrder | src/utils/dynasty.ts:141-146 | the reference filter keeps the stored order |
| WalkProofs.VisitListShallow | src/utils/dynasty.ts:139-149 | when the next level exceeds the depth, the loop appends exactly the reference filter of the list |
| WalkProofs.WalkDepthOne | src/utils/dynasty.ts:133-154 | depth 1 returns exactly the direct relations that are map entries, without repeats, in stored order |
| WalkProofs.VisitNodeReaches | src/utils/dynasty.ts:137-149 | everything a walk at `level` appends is reachable from the start within `depth` steps |
| WalkProofs.VisitListReaches | src/utils/dynasty.ts:141-149 | the same, across the loop |
| WalkProofs.WalkWithinDepth | src/utils/dynasty.ts:133-154 | every returned character is between 1 and `depth` steps from the start |
| WalkProofs.VisitNodeOrder | src/utils/dynasty.ts:137-149 | walking a node keeps the preorder, and when the node is an earlier result, everything the walk appends is reachable from it |
| WalkProofs.VisitListOrder | src/utils/dynasty.ts:141-149 | the same, across the `for` loop over the node's relations |
| WalkProofs.WalkOrder | src/utils/dynasty.ts:133-154 | depth-first preorder: every returned character is a relation of the start, or of an earlier result `w[k']` such that every result listed between the two is reachable from `w[k']` |
| WalkProofs.BreadthFirstIsNotPreorder | src/utils/dynasty.ts:141-148 | on `a → b, c` and `b → d` the walk returns `b, d, c`; the breadth-first order `b, c, d` is not a preorder, so `WalkOrder` tells the two apart |
| WalkProofs.WalkStartOnCycle | src/utils/dynasty.ts:134-135 | `visited` is not seeded with the start, so the start is returned only if a cycle leads back to it |
| WalkProofs.VisitNodeCloses | src/utils/dynasty.ts:137-149 | without a depth bound, the node and everything newly returned have all their relations visited |
| WalkProofs.VisitListCloses | src/utils/dynasty.ts:141-149 | the same closure fact, across the loop |
| WalkProofs.PathLands | src/utils/dynasty.ts:133-154 | in a closed final state every path from the start ends at a returned character |
| WalkProofs.WalkUnbounded | src/utils/dynasty.ts:133-154 | with `depth = Infinity` the result is exactly the characters reachable in one or more steps |
| WalkProofs.DepthBoundCanMissNode | src/utils/dynasty.ts:139-143 | with a finite depth, an id first met at the deepest level is marked visited and never expanded, so a node within `depth` steps can be missed |
| Traversal.Links | src/utils/dynasty.ts:141 | the relation followed is each map entry's `parentIds` / `childIds` as stored in the heap |
| Traversal.Visit | src/utils/dynasty.ts:137-150 | the imperative `walk` yields exactly the `WalkSpec` state and keeps `result` equal to the characters of the ids found; `visited` and `result` only grow, `result` by appending |
| Traversal.VisitRelated | src/utils/dynasty.ts:141-149 | one iteration: skip a visited id; otherwise mark it, and for a map entry push it and walk it one level deeper |
| Traversal.Traverse | src/utils/dynasty.ts:134-153 | `walk(id, 1)` from an empty state returns the characters of `Walk`, without repeats, and nothing for an unknown id or depth < 1 |
| Traversal.GetAncestors | src/utils/dynasty.ts:133-154 | the same over `parentIds` |
| Traversal.GetDescendants | src/utils/dynasty.ts:156-177 | the same over `childIds` |
| Generation.FounderCount | src/utils/dynasty.ts:49 | an absent or 0 `count` gives 4, a positive one itself, a negative one no founders |
| Generation.StartingYear | src/utils/dynasty.ts:50 | an absent or 0 `startingYear` gives 1000, any other value itself |
| Generation.FounderNameSpells | src/utils/dynasty.ts:57 | `Founder${i + 1}` is the word `Founder` followed by digits that read back as `i + 1` |
| Generation.FounderNamesDistinct | src/utils/dynasty.ts:57 | no two founders get the same given name |
| Generation.FounderHouseLetter | src/utils/dynasty.ts:58 | `House ` plus the code unit `65 + i` mod 2^16: a letter `A`–`Z` for the first 26 founders |
| Generation.ChildNameSpells | src/utils/dynasty.ts:82 | `Child${i}-${c}` is the word, the digits of `i`, a dash and the digits of `c` |
| Generation.ChildNamesDistinct | src/utils/dynasty.ts:82 | two child names agree only for the same parent position and birth counter |
| Generation.AddFounder | src/utils/dynasty.ts:54-68 | founder `i` is a new object: `Founder{i+1}`, `House` + letter, born 20–40 years before the starting year, male at even `i` and female at odd `i`, no links |
| Generation.MakeFounders | src/utils/dynasty.ts:53-69 | exactly `count` new founders, in order, nobody married or with children |
| Generation.Wed | src/utils/dynasty.ts:73-76 | the pair at `2t`, `2t+1` push each other's id and nobody else's list changes |
| Generation.Couple | src/utils/dynasty.ts:73-76 | marrying the next pair opens a new couple with no children and keeps the whole-state invariant |
| Generation.NewChild | src/utils/dynasty.ts:80-94 | the child literal: a new object, both parents' ids, the first parent's house, `Child{i}-{c}`, born 18–30 years after the first parent (after the starting year when that year is 0), stats in range |
| Generation.Attach | src/utils/dynasty.ts:95-97 | pushing the child id onto both parents and the child onto the array keeps the whole-state invariant |
| Generation.Enroll | src/utils/dynasty.ts:95-96 | pushing the new child's id onto both parents' `childIds` gives every character of the array the child list of the extended layout |
| Generation.BearChild | src/utils/dynasty.ts:79-98 | one pass of the inner loop: a new child, recorded by both parents, appended to the array |
| Generation.Brood | src/utils/dynasty.ts:78-98 | the inner loop: `k` new children appended in order, earlier entries unchanged |
| Generation.Pair | src/utils/dynasty.ts:72-98 | one pass of the pairing loop: the pair marries and has 1–3 new children; the rest of the array is unchanged |
| Generation.IndexById | src/utils/dynasty.ts:101-102 | the map holds exactly the created characters, each under its own uuid |
| Generation.IdsOf | src/utils/dynasty.ts:104 | `slice(0, count).map(c => c.id)` lists the ids in order |
| Generation.GenerateFounders | src/utils/dynasty.ts:48-105 | as written: `rootIds` are the first `count` ids. The map indexes every created character. After the founders, the array holds each couple's 1–3 children in turn. Couples are taken two at a time from the growing array. The loop ends with every couple formed, or, in the model, once fewer than three ids remain |
| Generation.GenerateFoundersPaired | src/utils/dynasty.ts:48-105 | pairing bounded by the founders: the same state with exactly `count / 2` couples |
| GenerationProofs.Entries | src/utils/dynasty.ts:101-102 | every entry is stored under its own id, with stats in [1, 10], alive |
| GenerationProofs.SpousesMutual | src/utils/dynasty.ts:72-76 | every spouse id resolves in the map and the spouse lists the character back |
| GenerationProofs.ParentsAcknowledge | src/utils/dynasty.ts:87-96 | every parent id resolves and the parent lists the child |
| GenerationProofs.ChildrenAcknowledge | src/utils/dynasty.ts:87-96 | every child id resolves and the child lists the parent |
| GenerationProofs.BirthYears | src/utils/dynasty.ts:59-85 | founders are born 20–40 years before the starting year; children are born 18–30 years after their first parent, who is in the map |
| GenerationProofs.BroodSpan | src/utils/dynasty.ts:78 | `t` couples with 1–3 children each have between `t` and `3t` children in all |
| GenerationProofs.MapSize | src/utils/dynasty.ts:101-102 | the map has one key per created character, since the uuids never repeat |
| GenerationProofs.CharacterCount | src/utils/dynasty.ts:72-102 | pairing founders only: the map has one key per created character, between `count + count/2` and `count + 3·(count/2)` of them |
| GenerationProofs.OnlyFoundersMarry | src/utils/dynasty.ts:71-76 | pairing founders only: exactly the founders of a pair are married; with an odd count the last founder is not |
| GenerationProofs.CouplesOfFounders | src/utils/dynasty.ts:60-76 | pairing founders only: each couple is a male founder at an even position and the female founder after him, each listing only the other |
| GenerationProofs.OddCountMarriesChild | src/utils/dynasty.ts:72-97 | as written, `count: 3`: founder 3 is married to `Child0-0`, the first child of founders 1 and 2, whatever the draws |
| GenerationProofs.SiblingsMarry | src/utils/dynasty.ts:72-97 | as written, `count: 2` (the test's input) with at least two children: those two children, siblings, marry each other |

`rootIds` for `count: 2` has length 2 (`src/utils/__tests__/dynasty.test.ts:3-8`). This follows from the
`Generation.GenerateFounders` postcondition together with `Generation.FounderCount`.

## Findings

| source | as written | input that shows it | evidently intended | confidence | as-written member | corrected member |
|---|---|---|---|---|---|---|
| src/utils/dynasty.ts:72 | the pairing loop tests `i + 1 < characters.length` on the array the inner loop pushes children onto (line 97), so children are paired and married too, and the loop stops only when a round of draws leaves too few unpaired entries | `count: 3`, any draws: founder 3 marries the first child of founders 1 and 2; `count: 2` with two or more children: the siblings marry each other | pair the founders only (`i + 1 < count`), as the comment at line 71 says: the last founder of an odd count stays unmarried, and the map has `count` founders plus 1–3 children per founder pair | high; not executed | GenerationProofs.OddCountMarriesChild | Generation.GenerateFoundersPaired |

`Generation.GenerateFounders` keeps the loop as written, and
`GenerationProofs.SiblingsMarry` gives a second input that shows the
problem. `GenerationProofs.OnlyFoundersMarry`,
`GenerationProofs.CouplesOfFounders` and
`GenerationProofs.CharacterCount` prove the intended properties of the
corrected loop.

## Left out

- uuid generation (`uuidv4`, a foreign library): ids come from a supplied sequence of distinct ids, consumed in order.
- `Math.random` and its floating-point arithmetic: every draw is a nondeterministic choice within the integer range it produces.
- The `seed` parameter of `generateFounders`: it is never used.
- The store, persistence, screens and tree view: they only call into this core, or render it.
- Generation.GenerateFounders: the loop as written also stops once fewer than three unused ids remain (`complete` is then false). The source has no such stop, and its loop ends only when the draws stop outrunning the pairing. With 3 children for every couple it never ends.
- Generation.FounderCount: a fractional, NaN or infinite `count` is not modelled; counts are integers.
- Generation.StartingYear: a fractional or infinite `startingYear` is not modelled; years are integers, so the birth years derived from it (founders' and children's) are integers too.
- Mutation.CreateChild: a fractional or infinite `birthYear` override is not modelled; it is an optional integer.
- Traversal.GetAncestors: a fractional `depth` is not modelled; the bound is an integer or absent (`Infinity`).
- Traversal.GetDescendants: a fractional `depth` is not modelled, as for `getAncestors`.
- Character ids are compared only for equality; their uuid string format is not modelled.
- Fields other than `spouseIds` and `childIds` are `const`: nothing in the core writes them after the object literal is built.
