# RLMod map partitioning, modelled in Dafny

RLMod generates countries for a strategy-game map. It reads the province
definitions (a semicolon-separated file) and the province bitmap. From these
it derives province adjacency, groups provinces into states, and gives every
state an archetype (Industrial, Resource or Balanced). Each state also gets a
bundle of attributes: factories, factory slots, resources and victory points.
Finally it partitions the states into countries by greedy growth from random
seeds.

This project models that engine and proves properties of the model. There are
two generations of the engine, and both are modelled.

- **The legacy all-in-one generator** (`MapGenerator.cs`), with these modules:
  - `LegacyStates`: the attribute bundle and the state wrapper `StateMap`.
  - `LegacyCountries`: the nested `CountryMap`, whose border is kept
    incrementally and which takes the majority archetype.
  - `LegacyScores`: the candidate scoring of `SelectState`, the dispersion
    (built on a breadth-first shortest path, `Bfs.ShortestPath`) and the type
    match.
  - `LegacyGenerator`:
    - the constructor's validation and seed selection;
    - the `do … while` growth loop, with a termination measure;
    - `Divide`.
  - `LegacyBalance`: the post-pass value rebalancing with its clamps.
  - `LegacyValidator`: the nested connectivity / spread / histogram validator.
- **The newer object-based variant**, with these modules:
  - `StateProperties`: category-driven factory slots and the three attribute
    generators.
  - `StateInfos` and `StateMaps`: state wrappers. The source repeats the
    attribute setters and the value formula in `StateInfo`, `StateMap` and the
    legacy `StateMap`. Each class gets its own module here, so those members
    appear three times.
  - `StateManager`: state adjacency derived from province adjacency.
  - `CountryInfos` and `CountryMaps`: country bookkeeping. `CountryMaps`
    excludes globally occupied states.
  - `MapValidators`: the validator.
- **The province parser**, with these modules:
  - `ProvinceParser`: CSV records, with defaulting.
  - `ProvinceBitmap`: adjacency from the four-neighbourhood of a colour grid,
    and the failure behaviour of `TryParse`.
  - `TextFields`: the `Split`, `int`/`byte`/`bool` `TryParse` and
    case-insensitive comparison that the records need.
- **Utilities**: `RgbColor` (`Rgb` equality), `ListExtensions`
  (`RemoveFastAt`), `MathHelper` (`ClampValue`) and `EnumExtensions`
  (`EqualsForType`).

Shared modules:
- `Graph`: adjacency maps, hop-bounded reachability, paths and the hop distance.
- `Bfs`: the two breadth-first searches.
- `Stats`: set sums, mean and population variance.
- `ExtReal`: doubles with NaN and infinities, where they steer control flow.
- `Draws`: `Random.Next` as a nondeterministic choice, and double-to-int
  truncation.
- `Sequences`: the enumeration order of a hash set, as an arbitrary order.
- `TypeHistogram`, `Archetypes` and `Limits`: the value formula and its weights.
- `Wrappers`: `Result`, `Option` and the exception kinds.

Modelling conventions:
- Objects become immutable datatypes. Mutating methods return the new value.
- An exception becomes a `Failure` carrying the exception kind.
- A random draw is a nondeterministic choice inside the range `Random.Next(a, b)`
  allows:
  - `a <= x < b`;
  - exactly `a` when `a == b`;
  - `ArgumentOutOfRange` when `a > b`.
- Doubles are reals, except in the scores and ratios. There, NaN and the
  infinities change which branch runs, so they use `ExtReal.Ext`.

A behaviour the legacy growth loop has, and the model proves:
- The legacy `CountryMap` border never excludes states owned by another
  country. Every country therefore grows until it holds its whole region of
  passable states: `LegacyGenerator.GrownIsClosed`.
- Two seeds in one region end with the same members:
  `LegacyGenerator.SharedStates` exhibits two countries that both own `{1, 2}`.
- The legacy generator therefore promises neither disjoint countries nor a
  partition, and the model claims neither.

## Model

| member | source | states |
|---|---|---|
| Archetypes.ToCountryType | RLMod.Core/Infrastructure/Generator/CountryInfo.cs:98-103 | each state archetype corresponds to the country archetype of the same name, and to no other |
| Archetypes.Majority | RLMod.Core/Infrastructure/Generator/CountryInfo.cs:85-104 | the chosen archetype occurs among the members at least as often as each other archetype; it occurs at least once when there are members |
| EnumExtensions.EqualsForType | RLMod.Core/Extensions/EnumExtensions.cs:7-12 | true exactly when the country archetype is the one the state archetype corresponds to |
| EnumExtensions.ExactlyOneMatch | RLMod.Core/Extensions/EnumExtensions.cs:9-11 | for every state archetype exactly one country archetype matches |
| EnumExtensions.MatchIffSameName | RLMod.Core/Extensions/EnumExtensions.cs:7-12 | a country archetype matches a state archetype exactly when their member names are equal, which is the `ToString` comparison the legacy type match makes |
| ListExtensions.RemoveFastAt | RLMod.Core/Extensions/ListExtensions.cs:5-14 | fails with an out-of-range error exactly when the index is negative or past the end. Otherwise: the list is one shorter, the old last element fills the removed slot, and every other position is unchanged |
| ListExtensions.RemoveFastAtMultiset | RLMod.Core/Extensions/ListExtensions.cs:12-13 | the result holds the same elements as the input, less one occurrence of the removed one |
| MathHelper.ClampValue | RLMod.Core/Helpers/MathHelper.cs:5-6 | the result is at least `min`. When `min <= max` it is at most `max`, and a value inside the range is returned unchanged. When the bounds cross, the result is `min` |
| MathHelper.ClampIdempotent | RLMod.Core/Helpers/MathHelper.cs:5-6 | clamping twice is clamping once |
| MathHelper.ClampMonotone | RLMod.Core/Helpers/MathHelper.cs:5-6 | clamping preserves the order of values |
| RgbColor.EqualityAgrees | RLMod.Core/Infrastructure/Parser/Rgb.cs:9-15 | `==` is component-wise equality and `!=` is its negation. `Equals(Rgb)`, and `Equals(object)` on a boxed `Rgb`, agree with `==`. `Equals(object)` is false for null and for other objects |
| RgbColor.EqualsIsEquivalence | RLMod.Core/Infrastructure/Parser/Rgb.cs:13 | `Equals` is reflexive, symmetric and transitive |
| Limits.Value | RLMod.Core/Infrastructure/Generator/StateProperty.cs:101-117 | the value of a bundle within the ceilings lies in [0, 100]. The empty bundle is worth 0 and the bundle at every ceiling is worth 100 |
| Limits.ValueMonotone | RLMod.Core/Infrastructure/Generator/StateProperty.cs:101-117 | raising any attribute never lowers the value |
| Draws.Next | RLMod.Core/Infrastructure/Generator/StateProperty.cs:74-77 | `Random.Next(a, b)`: fails exactly when `a > b`. Gives `a` when `a == b`, and otherwise a value in `[a, b)` |
| Draws.Truncate | RLMod.Core/Infrastructure/Generator/StateProperty.cs:37-53 | the `(int)` cast of a double rounds toward zero |
| Draws.ToInt | RLMod.Core/Infrastructure/Generator/MapGenerator.cs:403-428 | the cast of a finite in-range double is its truncation; any cast yields a 32-bit value |
| ExtReal.Add | RLMod.Core/Infrastructure/Generator/MapGenerator.cs:313-315 | IEEE addition: NaN absorbs, opposite infinities give NaN, an infinity dominates finite values |
| ExtReal.Mul | RLMod.Core/Infrastructure/Generator/MapGenerator.cs:404-427 | IEEE multiplication: NaN absorbs, and zero times infinity is NaN. A finite product needs finite factors |
| ExtReal.Div | RLMod.Core/Infrastructure/Generator/MapGenerator.cs:313-315 | IEEE division. A positive or negative number over zero gives the infinity of that sign, and 0/0 gives NaN. Infinity over infinity is NaN and a finite number over infinity is 0 |
| ExtReal.LessIsStrictTotal | RLMod.Core/Infrastructure/Generator/MapGenerator.cs:317 | the comparer order used for sorting scores, with NaN lowest, is a strict total order |
| ExtReal.MaxOf | RLMod.Core/Infrastructure/Generator/MapGenerator.cs:302-307 | `Max` returns an element of the list that no non-NaN element exceeds. It is NaN only when every element is NaN |
| Stats.SumOver | RLMod.Core/Infrastructure/Generator/MapGenerator.cs:165 | the loop sum over a hash set equals the set sum, whatever the enumeration order |
| Stats.SetSumRemove | RLMod.Core/Infrastructure/Generator/MapGenerator.cs:165 | a set sum is one member's value plus the sum over the rest |
| Stats.Average | RLMod.Core/Infrastructure/Generator/MapValidator.cs:71 | `Average` fails with `InvalidOperation` exactly on no values; otherwise the average times the count is the total |
| Stats.Variance | RLMod.Core/Infrastructure/Generator/MapValidator.cs:68-73 | fails exactly on no values; otherwise non-negative |
| Stats.EqualValuesNoVariance | RLMod.Core/Infrastructure/Generator/MapValidator.cs:68-73 | equal values have no spread |
| Sequences.Enumerate | RLMod.Core/Infrastructure/Generator/CountryMap.cs:39 | enumerating a hash set lists each member exactly once |
| TypeHistogram.Histogram | RLMod.Core/Infrastructure/Generator/MapValidator.cs:75-78 | `GroupBy` + `ToDictionary`: there is an entry exactly for the archetypes that occur. Each entry is at least 1 and is the number of occurrences, and the entries add up to the list length |
| TypeHistogram.CountPositive | RLMod.Core/Infrastructure/Generator/MapValidator.cs:77 | an archetype is counted at least once exactly when it occurs |
| TypeHistogram.CountsCover | RLMod.Core/Infrastructure/Generator/MapValidator.cs:77 | the three counts add up to the list length |
| Graph.ReachIffPath | RLMod.Core/Infrastructure/Generator/MapGenerator.cs:339-366 | a node is within `k` hops exactly when a path of at most `k` edges leads to it |
| Graph.Distance | RLMod.Core/Infrastructure/Generator/MapGenerator.cs:339-366 | the hop distance is the least number of hops that reaches the node, or -1 exactly when the node is unreachable |
| Graph.DistanceIsShortestPath | RLMod.Core/Infrastructure/Generator/MapGenerator.cs:339-366 | a path of exactly the distance exists, and no path is shorter |
| Bfs.ShortestPath | RLMod.Core/Infrastructure/Generator/MapGenerator.cs:339-366 | the layered queue search returns the hop distance from start to end |
| Bfs.VisitAll | RLMod.Core/Infrastructure/Generator/MapValidator.cs:33-58 | the visited set of the queue search is exactly the set of nodes reachable from the start |
| StateProperties.CategoryOf | RLMod.Core/Infrastructure/Generator/StateProperty.cs:17 | `Enum.IsDefined`: an integer names a category exactly when some category has that value |
| StateProperties.CategoryRoundTrip | RLMod.Core/Infrastructure/Generator/StateProperty.cs:17-18 | casting a category to its integer and back gives the category |
| StateProperties.DefinedBetween | RLMod.Core/Infrastructure/Generator/StateProperty.cs:14-19 | the collected categories are exactly those whose value lies in `[min, max]` |
| StateProperties.RandomCategories | RLMod.Core/Infrastructure/Generator/StateProperty.cs:12-25 | fails with `InvalidOperation` exactly when no category is defined in `[min, max]`; otherwise returns a category in that range |
| StateProperties.GenerateIndustrial | RLMod.Core/Infrastructure/Generator/StateProperty.cs:72-78 | factories are drawn from `[⌊0.5m⌋, ⌊0.7m⌋)`, the resource cap from `[10·factories, ⌊0.3R⌋)`, and resources from `[0, cap]`. Fails when a range is inverted, and succeeds when both are well formed |
| StateProperties.GenerateResource | RLMod.Core/Infrastructure/Generator/StateProperty.cs:80-86 | resources are drawn from `[⌊0.7R⌋, R]` and factories from `[0, min(⌊0.005·resources⌋, ⌊0.7m⌋)]`; succeeds for non-negative limits |
| StateProperties.GenerateBalanced | RLMod.Core/Infrastructure/Generator/StateProperty.cs:88-99 | factories are drawn from `[⌊0.3m⌋, ⌊0.7m⌋]`. A first resource draw more than 50 away from 50·factories is replaced by 50·factories + d, with d in [-25, 25], and clamped to `[0, R]`. Fails exactly when the factory range or the resource range is inverted |
| StateProperties.New | RLMod.Core/Infrastructure/Generator/StateProperty.cs:27-70 | archetype and victory points are copied. The slot count is a defined category within the archetype's slot range, and the attributes are an outcome of that archetype's generator. The default Industrial limits always fail; the other archetypes always succeed at the default limits |
| StateProperties.IndustrialSlotsUndefined | RLMod.Core/Infrastructure/Generator/StateProperty.cs:34-39 | with 25 slots the Industrial range is [17, 25], and no category lies in it |
| StateProperties.DefaultSlotRanges | RLMod.Core/Infrastructure/Generator/StateProperty.cs:41-55 | with 25 slots the Resource range is [2, 7] and the Balanced range is [7, 17] |
| StateProperties.IndustrialBounds | RLMod.Core/Infrastructure/Generator/StateProperty.cs:72-78 | an Industrial outcome has factories in `[⌊0.5m⌋, ⌊0.7m⌋]` and resources in `[0, ⌊0.3R⌋]`, with 10·factories ≤ ⌊0.3R⌋ |
| StateProperties.ResourceBounds | RLMod.Core/Infrastructure/Generator/StateProperty.cs:80-86 | a Resource outcome has resources in `[⌊0.7R⌋, R]` and factories in `[0, ⌊0.005·resources⌋]`, also at most ⌊0.7m⌋ |
| StateProperties.BalancedBounds | RLMod.Core/Infrastructure/Generator/StateProperty.cs:88-99 | a Balanced outcome has factories in `[⌊0.3m⌋, ⌊0.7m⌋]` and resources in `[0, R]` |
| StateInfos.New | RLMod.Core/Infrastructure/Generator/StateInfo.cs:3-42 | id, edges and impassability are the constructor's arguments. Archetype and victory points are copied into the bundle, which respects the ceilings. Construction fails exactly for Industrial states |
| StateInfos.GetValue | RLMod.Core/Infrastructure/Generator/StateInfo.cs:32-35 | an impassable state is worth 0, and any other state the value of its bundle |
| StateInfos.GetValueBounded | RLMod.Core/Infrastructure/Generator/StateInfo.cs:32-35 | a state within the ceilings is worth between 0 and 100 |
| StateInfos.SetFactories | RLMod.Core/Infrastructure/Generator/StateInfo.cs:11-15 | reading factories back gives the value written, and nothing else changes |
| StateInfos.SetResources | RLMod.Core/Infrastructure/Generator/StateInfo.cs:17-21 | reading resources back gives the value written, and nothing else changes |
| StateMaps.New | RLMod.Core/Infrastructure/Generator/StateMap.cs:3-36 | id and impassability are copied from the `TmpState`. The edges hold exactly its adjacencies, each once. Archetype and victory points reach the bundle, which respects the ceilings. Construction fails exactly for Industrial states |
| StateMaps.GetValue | RLMod.Core/Infrastructure/Generator/StateMap.cs:28-31 | an impassable state is worth 0, and any other state the value of its bundle |
| StateMaps.GetValueBounded | RLMod.Core/Infrastructure/Generator/StateMap.cs:28-31 | a state within the ceilings is worth between 0 and 100 |
| StateMaps.SetFactories | RLMod.Core/Infrastructure/Generator/StateMap.cs:5-9 | reading factories back gives the value written, and nothing else changes |
| StateMaps.SetResources | RLMod.Core/Infrastructure/Generator/StateMap.cs:11-15 | reading resources back gives the value written, and nothing else changes |
| StateManager.IsCoastal | RLMod.Core/Infrastructure/Generator/StateManager.cs:35-37 | a state is coastal exactly when one of its provinces is known and coastal |
| StateManager.LookupStateAdjacencies | RLMod.Core/Infrastructure/Generator/StateManager.cs:71-106 | when a province of the first state is adjacent to a known province of the second, each state is appended to the other's list, once. Otherwise the map is unchanged |
| StateManager.Build | RLMod.Core/Infrastructure/Generator/StateManager.cs:19-69 | one entry per input state, in input order, followed by one per ocean cluster. Land entries carry the coastal flag. With distinct ids: one state lists another exactly when they are distinct and linked through their provinces; no list repeats an entry; and a state with no link gets no list |
| StateManager.AdjacencySymmetric | RLMod.Core/Infrastructure/Generator/StateManager.cs:49-66 | the resulting adjacency is symmetric and irreflexive |
| StateManager.PartnersAll | RLMod.Core/Infrastructure/Generator/StateManager.cs:49-57 | after the pair loop, each pair of distinct positions has been examined exactly once |
| CountryInfos.New | RLMod.Core/Infrastructure/Generator/CountryInfo.cs:32-37 | the initial state becomes the only member and is owned by the new country. The initial id is recorded, the border is the seed's other neighbours, and the country is valid |
| CountryInfos.AddState | RLMod.Core/Infrastructure/Generator/CountryInfo.cs:59-68 | needs a non-blank tag and a non-member. The new state gets this country as owner, membership grows by exactly that state, and the border excludes members. An exact border stays exact, and validity is kept |
| CountryInfos.UpdateBorders | RLMod.Core/Infrastructure/Generator/CountryInfo.cs:70-83 | the new border is the old border plus the added state's neighbours, less every member |
| CountryInfos.BordersStayExact | RLMod.Core/Infrastructure/Generator/CountryInfo.cs:70-83 | if the border was the members' neighbours less the members, it stays so after a state is added |
| CountryInfos.UpdateCountryType | RLMod.Core/Infrastructure/Generator/CountryInfo.cs:85-104 | only the archetype changes. With no members the country is unchanged; otherwise the archetype is that of a most frequent member archetype |
| CountryInfos.GetPassableBorder | RLMod.Core/Infrastructure/Generator/CountryInfo.cs:52-55 | exactly the border states that are not impassable, each once |
| CountryInfos.GetValue | RLMod.Core/Infrastructure/Generator/CountryInfo.cs:43-46 | the sum of the member values, non-negative when every member is |
| CountryInfos.AddStateAddsValue | RLMod.Core/Infrastructure/Generator/CountryInfo.cs:43-68 | adding a state raises the country value by that state's value |
| CountryInfos.ClearOceanStates | RLMod.Core/Infrastructure/Generator/CountryInfo.cs:19-25 | removes exactly the ocean members and keeps everything else |
| CountryInfos.ClearOceanStatesIdempotent | RLMod.Core/Infrastructure/Generator/CountryInfo.cs:19-25 | clearing twice is clearing once, and no ocean state remains |
| CountryMaps.New | RLMod.Core/Infrastructure/Generator/CountryMap.cs:17-21 | fails exactly when the initial state is unknown. Otherwise the id is the initial state, the only member, with an exact border and an agreeing archetype |
| CountryMaps.AddState | RLMod.Core/Infrastructure/Generator/CountryMap.cs:46-51 | fails with `KeyNotFound` exactly when a member is unknown. Otherwise membership gains the state. The border holds no member and no occupied state, and only gains neighbours of the added state. Re-adding a member changes neither membership nor `StateCount` |
| CountryMaps.UpdateBorders | RLMod.Core/Infrastructure/Generator/CountryMap.cs:53-70 | the new border is the old one plus the added state's non-member neighbours, less the added state and every occupied state |
| CountryMaps.AddStateKeepsBorderExact | RLMod.Core/Infrastructure/Generator/CountryMap.cs:53-70 | an exact border, net of occupied states, stays exact when the occupied set grows and a state is added |
| CountryMaps.UpdateCountryType | RLMod.Core/Infrastructure/Generator/CountryMap.cs:72-86 | fails on no members (`First` on empty) or an unknown member; otherwise sets a most frequent member archetype and changes nothing else |
| CountryMaps.GetPassableBorder | RLMod.Core/Infrastructure/Generator/CountryMap.cs:37-40 | fails exactly on an unknown border state; otherwise exactly the passable border, each state once |
| CountryMaps.GetValue | RLMod.Core/Infrastructure/Generator/CountryMap.cs:32-35 | fails exactly on an unknown member; otherwise the sum of the member values |
| CountryMaps.AddStateAddsValue | RLMod.Core/Infrastructure/Generator/CountryMap.cs:32-51 | adding a new state raises the country value by that state's value |
| MapValidators.CheckConnectivity | RLMod.Core/Infrastructure/Generator/MapValidator.cs:28-66 | true exactly when, for every country, the states reached from its initial state equal its state count in number. The search follows edges into members or impassable states. No countries gives true |
| MapValidators.ReachedWithin | RLMod.Core/Infrastructure/Generator/MapValidator.cs:39-58 | the search only visits the initial state, members and impassable states |
| MapValidators.ConnectedIffMembersReached | RLMod.Core/Infrastructure/Generator/MapValidator.cs:60 | for a country that starts inside itself, in a map with no foreign impassable state, the count check holds exactly when every member is reached |
| MapValidators.GetTypeDistribution | RLMod.Core/Infrastructure/Generator/MapValidator.cs:75-78 | an entry exactly for the archetypes that occur. Each entry is at least 1 and counts its countries, and the entries add up to the number of countries |
| MapValidators.ValueSpread | RLMod.Core/Infrastructure/Generator/MapValidator.cs:68-73 | the result is the population variance of the country values, in country order: it fails with `InvalidOperation` exactly on no countries. The spread is non-negative, and zero when all countries have the same value |
| MapValidators.Validate | RLMod.Core/Infrastructure/Generator/MapValidator.cs:14-26 | fails exactly on no countries. Otherwise it reports three things: connected exactly when every country's search reaches as many states as it has; the spread, equal to the population variance of the country values; and the archetype counts |
| TextFields.Split | RLMod.Core/Infrastructure/Parser/ProvinceParser.cs:54 | `Split` yields at least one field |
| TextFields.SplitJoinsBack | RLMod.Core/Infrastructure/Parser/ProvinceParser.cs:54 | joining the fields with the separator restores the line, and no field holds the separator |
| TextFields.SplitJoin | RLMod.Core/Infrastructure/Parser/ProvinceParser.cs:54 | splitting a join of separator-free fields restores the fields |
| TextFields.TryParseInt | RLMod.Core/Infrastructure/Parser/ProvinceParser.cs:57 | `int.TryParse` only succeeds with a 32-bit value |
| TextFields.ParseIntRoundTrip | RLMod.Core/Infrastructure/Parser/ProvinceParser.cs:57 | every 32-bit integer's decimal text parses back to it |
| TextFields.TryParseByte | RLMod.Core/Infrastructure/Parser/ProvinceParser.cs:59-61 | `byte.TryParse` only succeeds with a value in [0, 255] |
| TextFields.EqualsIgnoreCaseEquivalence | RLMod.Core/Infrastructure/Parser/ProvinceParser.cs:68 | the case-insensitive comparison is an equivalence |
| TextFields.NoBreakSpaceTrimmed | RLMod.Core/Infrastructure/Parser/ProvinceParser.cs:69 | a leading no-break space and a trailing NUL do not stop "true" from parsing |
| TextFields.TryParseBool | RLMod.Core/Infrastructure/Parser/ProvinceParser.cs:69 | `true` exactly when the text is "true" in any letter case, and `false` exactly for "false". Both ends are first trimmed of NUL and of every `char.IsWhiteSpace` character, the Unicode separators included |
| ProvinceParser.ParseLine | RLMod.Core/Infrastructure/Parser/ProvinceParser.cs:54-72 | a line fails with `IndexOutOfRange` exactly when it has fewer than 8 fields |
| ProvinceParser.ParseFieldsMeaning | RLMod.Core/Infrastructure/Parser/ProvinceParser.cs:57-71 | an unparsable id or continent reads as 0 and an unparsable colour component as 0. The type is Land exactly for "land" in any case, and the coastal flag is set only by a boolean `true`. The terrain is kept, and the adjacency starts empty |
| ProvinceParser.ParseBodyFails | RLMod.Core/Infrastructure/Parser/ProvinceParser.cs:52-55 | the records fail exactly when some line after the header is short |
| ProvinceParser.ParseBodyRecords | RLMod.Core/Infrastructure/Parser/ProvinceParser.cs:52-72 | the header is skipped, and line `i` yields record `i - 1` |
| ProvinceParser.ParseDefinitions | RLMod.Core/Infrastructure/Parser/ProvinceParser.cs:46-77 | fails exactly when a line is short. Otherwise each id maps to its last record and each colour to the id of the last record with that colour |
| ProvinceParser.StoreKeepsIndexed | RLMod.Core/Infrastructure/Parser/ProvinceParser.cs:74-75 | storing one more record keeps "every id and colour maps to its last record" |
| ProvinceBitmap.ScanEdges | RLMod.Core/Infrastructure/Parser/ProvinceParser.cs:100-136 | fails with `KeyNotFound` exactly when a pixel colour is unknown. Otherwise it collects a pair exactly when the two provinces differ and have pixels side by side or one above the other |
| ProvinceBitmap.GridPairsAreTouching | RLMod.Core/Infrastructure/Parser/ProvinceParser.cs:106-133 | the right and down comparisons over the grid find exactly the touching province pairs |
| ProvinceBitmap.AddEdges | RLMod.Core/Infrastructure/Parser/ProvinceParser.cs:141-145 | fails exactly when a pair names an unknown province. Otherwise each province gains exactly its partners in the pairs, in both directions |
| ProvinceBitmap.PartnersAreBorders | RLMod.Core/Infrastructure/Parser/ProvinceParser.cs:141-145 | the partners of a province are exactly the provinces touching it in the bitmap |
| ProvinceBitmap.BordersSymmetric | RLMod.Core/Infrastructure/Parser/ProvinceParser.cs:141-145 | a province that borders another is bordered by it, and every neighbour is a recorded province |
| ProvinceBitmap.TryParse | RLMod.Core/Infrastructure/Parser/ProvinceParser.cs:15-44 | succeeds exactly when every line has 8 fields and every pixel colour is known. On failure it returns no provinces. On success every recorded id maps to its last record, adjacent exactly to the provinces touching it, which excludes the province itself. The adjacency is symmetric and never names an unrecorded province |
| LegacyStates.NewProperty | RLMod.Core/Infrastructure/Generator/MapGenerator.cs:52-77 | fails exactly when the archetype's factory range or its resource range is inverted. Otherwise archetype and victory points are copied, the slot count is the archetype's, and factories and resources are draws from the archetype's ranges |
| LegacyStates.RangesValid | RLMod.Core/Infrastructure/Generator/MapGenerator.cs:58-76 | for non-negative limits every draw range is well formed |
| LegacyStates.FactoriesWithinSlots | RLMod.Core/Infrastructure/Generator/MapGenerator.cs:58-76 | drawn factories never exceed the archetype's slot count |
| LegacyStates.DefaultRanges | RLMod.Core/Infrastructure/Generator/MapGenerator.cs:58-76 | the ranges and slot counts at limits 25 and 600 |
| LegacyStates.NewStateMap | RLMod.Core/Infrastructure/Generator/MapGenerator.cs:92-101 | id, impassability, edges, archetype and victory points come from the `TmpState`, and the bundle respects the ceilings |
| LegacyStates.GetValue | RLMod.Core/Infrastructure/Generator/MapGenerator.cs:128-131 | an impassable state is worth 0, and any other state the value of its bundle |
| LegacyStates.GetValueBounded | RLMod.Core/Infrastructure/Generator/MapGenerator.cs:128-131 | a state within the ceilings is worth between 0 and 100 |
| LegacyStates.SetFactories | RLMod.Core/Infrastructure/Generator/MapGenerator.cs:102-106 | reading factories back gives the value written, and nothing else changes |
| LegacyStates.SetResources | RLMod.Core/Infrastructure/Generator/MapGenerator.cs:108-112 | reading resources back gives the value written, and nothing else changes |
| LegacyCountries.New | RLMod.Core/Infrastructure/Generator/MapGenerator.cs:154-158 | fails exactly for an unknown seed. Otherwise the seed is the id and only member, the border is its other neighbours, and the country is valid |
| LegacyCountries.AddState | RLMod.Core/Infrastructure/Generator/MapGenerator.cs:175-180 | fails exactly when a member is unknown. Otherwise membership gains the state, the border excludes it and only gains its neighbours, an exact border stays exact, and validity is kept |
| LegacyCountries.UpdateBorders | RLMod.Core/Infrastructure/Generator/MapGenerator.cs:182-190 | the new border is the old one plus the added state's non-member neighbours, less the added state |
| LegacyCountries.BorderStaysExact | RLMod.Core/Infrastructure/Generator/MapGenerator.cs:182-190 | a border equal to the members' neighbours less the members stays so after a state is added |
| LegacyCountries.UpdateCountryType | RLMod.Core/Infrastructure/Generator/MapGenerator.cs:192-205 | fails exactly on an unknown member; otherwise only the archetype changes, to that of a most frequent member archetype |
| LegacyCountries.GetPassableBorder | RLMod.Core/Infrastructure/Generator/MapGenerator.cs:167 | fails exactly on an unknown border state; otherwise exactly the passable border, each once |
| LegacyCountries.GetValue | RLMod.Core/Infrastructure/Generator/MapGenerator.cs:165 | fails exactly on an unknown member; otherwise the sum of the member values |
| LegacyCountries.AddMemberAgain | RLMod.Core/Infrastructure/Generator/MapGenerator.cs:169-177 | re-adding a member changes neither membership nor the state count |
| LegacyScores.ShortestPathLengthBfs | RLMod.Core/Infrastructure/Generator/MapGenerator.cs:339-366 | 0 when start is end. Otherwise the least number of hops along edges into passable states, and -1 exactly when there is no such path |
| LegacyScores.CalculateDispersion | RLMod.Core/Infrastructure/Generator/MapGenerator.cs:322-329 | the hop distances from the candidate to the seed of every country whose seed is not the candidate (so the candidate's own country counts unless the candidate is its seed), summed and divided by the number of countries minus one; not finite exactly when there is just one country |
| LegacyScores.CalculateTypeMatch | RLMod.Core/Infrastructure/Generator/MapGenerator.cs:331-337 | fails (`Average` on empty) exactly when no country borders the state. Otherwise it is the fraction of the bordering countries whose archetype matches, and lies in [0, 1] |
| LegacyScores.SelectState | RLMod.Core/Infrastructure/Generator/MapGenerator.cs:290-320 | fails exactly on no candidates or an unscorable one. Otherwise returns a candidate, the first with the highest combined score under the comparer order |
| LegacyScores.FirstMax | RLMod.Core/Infrastructure/Generator/MapGenerator.cs:317-318 | `OrderByDescending(...).First()` picks the first position whose score no other position exceeds |
| LegacyGenerator.LatestKeys | RLMod.Core/Infrastructure/Generator/MapGenerator.cs:225-229 | the table has an entry exactly for the ids in the state list |
| LegacyGenerator.LatestIsLast | RLMod.Core/Infrastructure/Generator/MapGenerator.cs:228 | a repeated id keeps its last state |
| LegacyGenerator.PassableIds | RLMod.Core/Infrastructure/Generator/MapGenerator.cs:240 | exactly the ids of the states that are not impassable |
| LegacyGenerator.New | RLMod.Core/Infrastructure/Generator/MapGenerator.cs:216-248 | fails with `ArgumentException` exactly when there are fewer passable states than countries. Otherwise the table holds a state for each id, built from its last `TmpState`. The entry copies the id, impassability, edges and victory points. Its slot count is the archetype's, and its factories and resources are draws from the archetype's ranges, within the ceilings |
| LegacyGenerator.SelectSeeds | RLMod.Core/Infrastructure/Generator/MapGenerator.cs:280-288 | distinct passable seeds: exactly `countriesCount` of them when that many exist, all passable states when fewer, and none for a non-positive count |
| LegacyGenerator.TryExpandCountry | RLMod.Core/Infrastructure/Generator/MapGenerator.cs:269-278 | expands exactly when the passable border is non-empty. The country gains one passable non-member, and the other countries are unchanged |
| LegacyGenerator.RemainingShrinks | RLMod.Core/Infrastructure/Generator/MapGenerator.cs:255-263 | adding a passable non-member to one country lowers the termination measure |
| LegacyGenerator.Sweep | RLMod.Core/Infrastructure/Generator/MapGenerator.cs:257-262 | a sweep that changes something lowers the measure. One that changes nothing leaves every country with an empty passable border |
| LegacyGenerator.Grow | RLMod.Core/Infrastructure/Generator/MapGenerator.cs:252-263 | the growth loop ends with one valid country per seed, each started at its seed, with an empty passable border |
| LegacyGenerator.Divide | RLMod.Core/Infrastructure/Generator/MapGenerator.cs:250-267 | one country per seed, with distinct passable ids, each fully grown. The rebalancing then runs step by step. Step i adjusts the i-th poorest country, with ties in seed order, against the i-th smallest Gaussian draw, and takes its ratio on the table the earlier steps left. The final table has the same states and shapes, with impassable states untouched and every changed state clamped |
| LegacyGenerator.GrownIsClosed | RLMod.Core/Infrastructure/Generator/MapGenerator.cs:167-190 | a grown country holds every passable neighbour of its members, whoever else owns it |
| LegacyGenerator.SharedStates | RLMod.Core/Infrastructure/Generator/MapGenerator.cs:255-263 | two seeds in one region both end owning the whole region: countries may overlap |
| LegacyBalance.ClampValue | RLMod.Core/Infrastructure/Generator/MapGenerator.cs:432 | the private clamp is the general clamp with lower bound 0 |
| LegacyBalance.IndustrialScaledByTwo | RLMod.Core/Infrastructure/Generator/MapGenerator.cs:400-407 | an Industrial state with 5 factories and 10 resources, scaled by a ratio of 2, ends with 12 factories and 20 resources |
| LegacyBalance.CastClamp | RLMod.Core/Infrastructure/Generator/MapGenerator.cs:403-428 | cast then clamp: the result lies in `[0, limit]`, and equals the clamped truncation for a finite in-range product |
| LegacyBalance.AdjustStateProperties | RLMod.Core/Infrastructure/Generator/MapGenerator.cs:395-430 | everything but factories and resources is kept, and both end within [0, 25] and [0, 600]. Industrial scales factories by 1.2·ratio and resources by ratio, and Resource the other way round. Balanced scales both by a jitter in [0.8, 1.2)·ratio |
| LegacyBalance.AdjustCountry | RLMod.Core/Infrastructure/Generator/MapGenerator.cs:379-390 | a country whose target/current ratio is NaN or within [0.95, 1.05] is left unchanged. Otherwise every passable member is adjusted exactly once by that ratio, as `AdjustStateProperties` describes, and every other state is untouched |
| LegacyBalance.SortByValue | RLMod.Core/Infrastructure/Generator/MapGenerator.cs:372 | the stable `OrderBy`: a permutation of the positions, sorted by value, with equal values kept in input order |
| LegacyBalance.ApplyValueDistribution | RLMod.Core/Infrastructure/Generator/MapGenerator.cs:368-393 | the countries are ranked by their value before the pass, stably. Step i adjusts the i-th ranked country against the i-th target, and takes its ratio on the table the earlier steps left. Keys are kept, impassable states and states outside every country are untouched, shapes are kept, and every changed state is clamped |
| LegacyValidator.CheckConnectivity | RLMod.Core/Infrastructure/Generator/MapGenerator.cs:470-498 | true exactly when, for every country, the states reached from its seed equal its state count in number. The search follows edges into members or impassable states. No countries gives true |
| LegacyValidator.ReachedWithin | RLMod.Core/Infrastructure/Generator/MapGenerator.cs:478-495 | the search only visits the seed, members and impassable states |
| LegacyValidator.ConnectedIffMembersReached | RLMod.Core/Infrastructure/Generator/MapGenerator.cs:494 | for a valid country in a map with no foreign impassable state, the count check holds exactly when every member is reached |
| LegacyValidator.GetTypeDistribution | RLMod.Core/Infrastructure/Generator/MapGenerator.cs:507-510 | an entry exactly for the archetypes that occur. Each entry is at least 1 and counts its countries, and the entries add up to the number of countries |
| LegacyValidator.ValueSpread | RLMod.Core/Infrastructure/Generator/MapGenerator.cs:500-505 | fails with `InvalidOperation` on no countries and with `KeyNotFound` on an unknown member. Otherwise the result is the population variance of the country values, in country order. It is non-negative, and zero when all values are equal |
| LegacyValidator.Validate | RLMod.Core/Infrastructure/Generator/MapGenerator.cs:460-468 | fails exactly where the spread fails. Otherwise it reports three things: the connectivity verdict; the spread, equal to the population variance of the country values; and the archetype counts |

## Left out

- File and bitmap reading, the `unsafe` pixel access, `Parallel.For` and the
  `ConcurrentBag`:
  - the definitions file is a list of lines;
  - the bitmap is a decoded `seq<seq<Rgb>>`;
  - the parallel scan only collects a set, so its order does not matter.
- Logging, `Console.WriteLine` (CountryMap.cs:55), `MapGenerator.TestProgram`,
  and `CountryInfo.GenerateStatesBuildingsAndResources` / `WriteToFiles`.
  These write output or call code that is not part of this model.
- Pseudo-random generators, seeds and the order of draws.
  - `Random`, `Random.Shared`, `GetItems`, `Shuffle` and `OrderBy(_ => Next())`
    become nondeterministic choices, so reproducibility is not modelled.
  - The archetype drawn per state, and the shuffle of seeds and categories, are
    arbitrary choices within the allowed range.
- `NextGaussian` and `GenerateNormalDistribution` (MapGenerator.cs:434-449) use
  logarithms and sines. `LegacyGenerator.Divide` therefore takes the Gaussian
  draws as a parameter and sorts them itself.
- Exact IEEE rounding of doubles. Values are reals, with NaN and the
  infinities only where a branch depends on them (scores, ratios, casts). A
  cast of a non-finite or out-of-range double to `int` is an arbitrary 32-bit
  value, because the result is platform-dependent.
- MapValidators.ValueSpread: returns the population variance, not its square
  root, because square roots are not modelled. The source's standard deviation
  is the root of the value stated. The root is monotone and zero exactly at
  zero, so the bound and the equal-values case carry over.
- LegacyValidator.ValueSpread: the same; the square root is not modelled.
- Stats.EqualValuesNoVariance: only "equal values give zero spread" is proved.
  The converse needs non-linear real reasoning that is out of reach here.
- Archetypes.Majority: promises "a most frequent archetype". Which one wins a
  tie depends on `GroupBy` order and the sort, and is not modelled.
- LegacyGenerator.TryExpandCountry: states that the added state is a passable
  border state, and not that it is the highest-scoring one. The score promise
  is stated on `LegacyScores.SelectState`.
- Object identity. `StateInfo` and `CountryInfo` objects are identified by
  their ids: a country holds state ids, and ownership is a tag on the state.
- `MapGenerator.OccupiedStates` (used by CountryMap.cs:59-66) is a static
  member that is not part of this model. `CountryMaps` takes the occupied set
  as a parameter.
- The ids `StateInfo` gives ocean clusters from its static counter, and that
  constructor's missing source. `StateManager.Build` takes the ocean ids as a
  parameter.
- StateManager.Build: the source of the land-state constructor
  `new StateInfo(state, isCoastal, type)` (StateManager.cs:38) is missing. The
  model stores its arguments and assumes it does not throw. If it delegated
  to the primary constructor (StateInfo.cs:3-9), every Industrial draw would
  throw, as `StateInfos.New` shows.
- Dangling edges. An edge to an unknown state makes the source throw
  `KeyNotFoundException` in the searches. The searches, the scores and the
  growth loop require every edge to lead to a known state.
- 32-bit overflow of the summed distances in `CalculateDispersion`. The model
  sums unbounded integers.
- Removal from a `HashSet` while enumerating it (CountryInfo.cs:21-23 and
  79-81). This is modelled as removing the selected members, as .NET 5
  and later allow.
- Ordinal case mapping of non-ASCII letters. `OrdinalIgnoreCase`
  (StringExtensions.cs:7) maps every letter to upper case; `EqualsIgnoreCase`
  maps ASCII letters only, which gives the same result for "land", "true"
  and "false".
- `int.TryParse` accepts trailing NUL characters; the model does not.
- `Debug.Assert(fields.Length == 8)` (ProvinceParser.cs:55). The model follows
  a release build: fewer than 8 fields fail on the index, and extra fields are
  ignored.
- `StateProperty.cs`'s constructor takes a `TmpState`, while `StateInfo`
  passes an integer victory point. The model passes the victory point
  directly.
