# Specialist discovery, modelled in Dafny

The Specialists page of the village health-connect application fetches the
specialist table and shows a filtered list. It keeps the rows in the selected
city and specialty ("all" means no constraint). It also keeps the rows whose
name or specialty contains the search text, ignoring case. When the user has
shared a position, each row gets a `distance` and the list is sorted by it.
That routine is `filterSpecialists` in `src/pages/Specialists.tsx`. This
project models it together with the `Specialist` record it works on.

Files, one module each:

- `wrappers.dfy` (`Wrappers`): `Option`, for the record's `T | null` fields and the optional `distance`.
- `text.dfy` (`Text`): ASCII `toLowerCase` and `String.prototype.includes`.
- `sequences.dfy` (`Sequences`): `Array.prototype.filter` as `Filter`, and the facts about it that the pipeline uses.
- `specialist.dfy` (`SpecialistModel`): the `Specialist` record, the query `Criteria` and the three filter rules. It also has `WithDistance`, the `{ ...s, distance }` copy, and `Annotate`, the `.map` over the list.
- `ranking.dfy` (`Ranking`): the comparator key `(s.distance || 0)` and `SortByDistance`, a reference stable sort. `SortInPlace` is an in-place insertion sort on an array, proved equal to `SortByDistance`.
- `discovery.dfy` (`Discovery`): `Discover`, a reference that filters once by the conjunction of the rules and then ranks. `FilterSpecialists` is the routine as written: a copy of the list, three guarded filters in turn, then the annotation and the in-place sort. It is proved to return `Discover`.
- `scenarios.dfy` (`Scenarios`): three concrete queries and their results.

How things are modelled:

- TypeScript `number` is `real`.
- `calculateDistance(lat1, lon1, lat2, lon2)` is a parameter `dist` of type `(real, real, real, real) -> real`. The general lemmas hold for any distance function, so they hold for the haversine one. `DistanceScenario` assumes only that the haversine puts (0, 1) farther from (0, 0) than (0, 0) itself, about 111.19 km against 0.
- The specialist list is an `array`. `FilterSpecialists` has no `modifies` clause, so the verifier checks that the list is never written. As in the source, only a copy is filtered and annotated.
- Stability is defined through key groups. For each key `k`, `AtDistance(s, k)` is the subsequence of `s` whose key is `k`. `SameTieOrder(a, b)` says every group is the same in `a` and in `b`. `StableSortUnique` shows that only one sorted sequence satisfies this. Any stable ascending sort with this comparator, such as `Array.prototype.sort` under ECMAScript 2019 and later, therefore returns `SortByDistance`.

## Model

| member | source | states |
|---|---|---|
| Discovery.FilterSpecialists | src/pages/Specialists.tsx:115-142 | The three guarded filters over a copy, the annotation and the in-place sort return exactly `Discover` for the same list and criteria. The input array is not written. |
| Discovery.NextStage | src/pages/Specialists.tsx:118-131 | A filter run only when its guard holds adds its rule, with the guard, to the rules already applied. |
| Discovery.KeptIsSubsequence | src/pages/Specialists.tsx:116-131 | The filtered list is a subsequence of the input: no record is made up and the input order is kept. |
| Discovery.KeptMembers | src/pages/Specialists.tsx:118-131 | A record survives filtering iff it is in the list, its city is the selected one or the selection is "all", its specialty is the selected one or the selection is "all", and the search rule admits it. |
| Discovery.ShownWithoutLocation | src/pages/Specialists.tsx:116-139 | With no position, the shown list is a subsequence of the input. A record is shown iff it is in the input and matches every rule. |
| Discovery.NoCriteriaShowsAll | src/pages/Specialists.tsx:116-139 | City "all", specialty "all", empty search and no position show the input list unchanged and in order. |
| Discovery.EmptyShowsNothing | src/pages/Specialists.tsx:115-142 | An empty list gives an empty result for any criteria. |
| Discovery.ShownWithLocation | src/pages/Specialists.tsx:133-137 | With a position, `r` is shown iff some input record matching every rule, with its distance attached, equals `r`. |
| Discovery.RankedByDistance | src/pages/Specialists.tsx:133-138 | With a position, the shown list is a permutation of the annotated filtered list. Distances never decrease, pairwise and between neighbours. Records with equal distance keep their filtered order. |
| Discovery.DiscoverIdempotent | src/pages/Specialists.tsx:115-142 | Running discovery again on its own output with the same criteria returns that output, with or without a position. |
| Sequences.Filter | src/pages/Specialists.tsx:119-130 | No contract. Models `.filter`. Its meaning is given by `FilterMembers` and `FilterIsSubsequence`. |
| Text.ToLower | src/pages/Specialists.tsx:128-129 | No contract. Models ASCII `toLowerCase`. Its meaning is given by `ToLowerFolds`. |
| Text.Includes | src/pages/Specialists.tsx:128-129 | No contract. Models `includes`. Its meaning is given by `IncludesIffOccurs`. |
| SpecialistModel.WithDistance | src/pages/Specialists.tsx:134-137 | No contract. Models the `{ ...s, distance }` copy. Its meaning is given by `WithDistanceFields`. |
| SpecialistModel.Annotate | src/pages/Specialists.tsx:134-137 | No contract. Models the `.map` over the filtered list. |
| Ranking.DistanceKey | src/pages/Specialists.tsx:138 | No contract. The comparator key: the distance, or 0 when it is missing. |
| Ranking.SortByDistance | src/pages/Specialists.tsx:138 | No contract. The reference stable sort. Its meaning is given by `SortPermutes`, `SortSorts`, `SortIsStable` and `StableSortIsReference`. |
| Discovery.Discover | src/pages/Specialists.tsx:115-142 | No contract. The reference pipeline: one filter by all rules, then the ranking. `FilterSpecialists` is proved to return it. |
| SpecialistModel.Specialist | src/pages/Specialists.tsx:12-27 | No contract. The record: the nullable fields become `Option`, `number` becomes `real`, and `distance?` is an `Option` that only the ranking fills in. `WithDistanceFields` states what a copy with a distance keeps. |
| SpecialistModel.DistanceFn | src/pages/Specialists.tsx:79-89 | No contract. The signature of `calculateDistance`. Its haversine arithmetic is a parameter, so every general lemma holds for any such function. `WithDistanceFields` says where its value goes. |
| SpecialistModel.Location | src/pages/Specialists.tsx:35 | No contract. The `{ lat: number; lng: number }` position, with `null` as `None`. `ShownWithLocation` says how it is passed to the distance function. |
| SpecialistModel.Criteria | src/pages/Specialists.tsx:35-38 | No contract. The four state values the routine reads: `selectedCity`, `selectedSpecialty`, `searchQuery` and `userLocation`. `KeptMembers` and `ShownWithLocation` say what each contributes. |
| SpecialistModel.All | src/pages/Specialists.tsx:36-37 | No contract. The `"all"` start value of both selectors, the one that switches their filters off at lines 118 and 122. `NoCriteriaShowsAll` and `KeptMembers` state its effect. |
| SpecialistModel.InCity | src/pages/Specialists.tsx:119 | No contract. `s.city === selectedCity`. Used through `CityOk`, whose meaning is given by `KeptMembers`. |
| SpecialistModel.HasSpecialty | src/pages/Specialists.tsx:123 | No contract. `s.specialty === selectedSpecialty`. Used through `SpecialtyOk`, whose meaning is given by `KeptMembers`. |
| SpecialistModel.MentionsQuery | src/pages/Specialists.tsx:127-130 | No contract. The folded query occurs in the folded name or the folded specialty. Its meaning is given by `TextOkMeaning`. |
| SpecialistModel.CityOk | src/pages/Specialists.tsx:118-120 | No contract. The city rule with its guard: "all" admits every record. Its meaning is given by `KeptMembers`. |
| SpecialistModel.SpecialtyOk | src/pages/Specialists.tsx:122-124 | No contract. The specialty rule with its guard: "all" admits every record. Its meaning is given by `KeptMembers`. |
| SpecialistModel.TextOk | src/pages/Specialists.tsx:126-131 | No contract. The search rule with its guard: an empty query admits every record. Its meaning is given by `TextOkMeaning`. |
| SpecialistModel.Matches | src/pages/Specialists.tsx:118-131 | No contract. The conjunction of the three guarded rules. Its meaning is given by `KeptMembers` and `MatchesIgnoresDistance`. |
| Discovery.CityFilter | src/pages/Specialists.tsx:119 | No contract. The callback `s => s.city === selectedCity`. `FilterSpecialists` applies it only when the city is not "all". |
| Discovery.SpecialtyFilter | src/pages/Specialists.tsx:123 | No contract. The callback `s => s.specialty === selectedSpecialty`. `FilterSpecialists` applies it only when the specialty is not "all". |
| Discovery.SearchFilter | src/pages/Specialists.tsx:127-130 | No contract. The search callback over name and specialty. `FilterSpecialists` applies it only when the query is not empty. Its meaning is given by `TextOkMeaning`. |
| Discovery.RulesUpTo | src/pages/Specialists.tsx:118-131 | No contract. The guarded rules of the first filters, used to state what the first filters of `FilterSpecialists` leave. `NextStage` relates one stage to the next. |
| Discovery.Admits | src/pages/Specialists.tsx:118-131 | No contract. `Matches` as a callback. |
| Discovery.Kept | src/pages/Specialists.tsx:116-131 | No contract. The list after the three filters. Its meaning is given by `KeptMembers` and `KeptIsSubsequence`. |
| Discovery.Rank | src/pages/Specialists.tsx:133-139 | No contract. Without a position the list is left alone; with one it is annotated and sorted. Its meaning is given by `ShownWithLocation`, `ShownWithoutLocation` and `RankedByDistance`. |
| Sequences.FilterMembers | src/pages/Specialists.tsx:119 | `.filter` keeps an element iff it is in the input and passes the predicate. |
| Sequences.FilterIsSubsequence | src/pages/Specialists.tsx:119 | `.filter` returns a subsequence of its input. |
| Sequences.FilterMultiset | src/pages/Specialists.tsx:119 | Every element of a `.filter` result comes from the input, counted with multiplicity. |
| Sequences.FilterAllPass | src/pages/Specialists.tsx:119 | A filter that every element passes returns its input unchanged. |
| Sequences.FilterAgree | src/pages/Specialists.tsx:119-130 | Helper fact about `.filter`: filters whose predicates agree on the input return the same list. |
| Sequences.FilterThenFilter | src/pages/Specialists.tsx:119-123 | Two successive filters equal one filter by the conjunction of their predicates. |
| Sequences.FilterAppend | src/pages/Specialists.tsx:119-130 | Helper fact about `.filter`: filtering a concatenation concatenates the filtered parts. |
| Sequences.FilterIdempotent | src/pages/Specialists.tsx:119-130 | Helper fact about `.filter`: filtering twice by the same predicate is filtering once. |
| Text.IncludesIffOccurs | src/pages/Specialists.tsx:128-129 | `includes` holds iff the needle occurs at some position of the haystack. |
| Text.ToLowerFolds | src/pages/Specialists.tsx:128-129 | Case folding keeps the length. Each of 'A'..'Z' becomes the letter 32 code points above it, 'a'..'z', and every other character stays as it is. No upper-case ASCII letter remains. |
| Text.ToLowerEqualIff | src/pages/Specialists.tsx:128-129 | Two strings fold to the same string iff they have the same length and agree character by character up to ASCII case. |
| Text.ToLowerIdempotent | src/pages/Specialists.tsx:128-129 | Folding a folded string changes nothing. |
| SpecialistModel.TextOkMeaning | src/pages/Specialists.tsx:126-131 | The search rule admits a record iff the query is empty or its folded form occurs in the folded name or the folded specialty. |
| SpecialistModel.MatchesIgnoresDistance | src/pages/Specialists.tsx:134-137 | Attaching a distance does not change whether a record passes the filters. |
| SpecialistModel.WithDistanceIdempotent | src/pages/Specialists.tsx:134-137 | Attaching the same distance twice gives the record that attaching it once gives. |
| SpecialistModel.WithDistanceFields | src/pages/Specialists.tsx:134-137 | The annotated copy differs from the record only in `distance`. That field is `calculateDistance` from the user's position to the record's coordinates. |
| Ranking.InsertMultiset | src/pages/Specialists.tsx:138 | Inserting into the sorted prefix adds exactly the inserted record. |
| Ranking.InsertSorted | src/pages/Specialists.tsx:138 | Inserting into a sorted sequence keeps it sorted by distance key. |
| Ranking.InsertTieOrder | src/pages/Specialists.tsx:138 | Inserting puts the record at the end of its key group and leaves every other group unchanged. |
| Ranking.SortPermutes | src/pages/Specialists.tsx:138 | The distance sort is a permutation of its input. |
| Ranking.SortSorts | src/pages/Specialists.tsx:138 | The distance sort orders by ascending distance, a missing distance counting as 0. |
| Ranking.SortIsStable | src/pages/Specialists.tsx:138 | Records with equal distance key keep their relative order. |
| Ranking.SortKeepsSorted | src/pages/Specialists.tsx:138 | An already sorted list is returned unchanged. |
| Ranking.StableSortUnique | src/pages/Specialists.tsx:138 | Two sorted sequences with the same key groups are equal. |
| Ranking.StableSortIsReference | src/pages/Specialists.tsx:138 | Any sorted sequence that keeps every key group of `s` in order is `SortByDistance(s)`. |
| Ranking.InsertInPlace | src/pages/Specialists.tsx:138 | Shifting larger keys right and writing the element puts it into the sorted prefix, as `Insert` does. The rest of the array is untouched. |
| Ranking.SortInPlace | src/pages/Specialists.tsx:138 | The in-place insertion sort leaves the array holding `SortByDistance` of its old contents. |
| Scenarios.CityScenario | src/pages/Specialists.tsx:118-120 | Of three specialists in Delhi, Mumbai and Jaipur, selecting Mumbai shows only the Mumbai one. |
| Scenarios.SearchScenario | src/pages/Specialists.tsx:126-131 | The query "rao" shows "Dr. Alice Rao" and not "Dr. Bob Singh". |
| Scenarios.FarListedFirst | src/pages/Specialists.tsx:133-138 | With the user at (0, 0), the list [(0, 1), (0, 0)] is shown as [(0, 0), (0, 1)], each with its own computed distance, when (0, 1) is the farther. |
| Scenarios.NearListedFirst | src/pages/Specialists.tsx:133-138 | With the user at (0, 0), the list [(0, 0), (0, 1)] is shown in that order, each with its own computed distance, when (0, 1) is the farther. |
| Scenarios.DistanceScenario | src/pages/Specialists.tsx:133-138 | With the user at (0, 0) and a distance function that puts (0, 1) farther than (0, 0), both orders of the two-record list show the specialist at (0, 0) first. Each is shown with its own computed distance. |

## Left out

- The haversine arithmetic of `calculateDistance` (src/pages/Specialists.tsx:79-89) is floating-point trigonometry. It is a parameter of the model. Its symmetry and its zero distance from a point to itself are not stated.
- Floating point: `number` is modelled as `real`. NaN and infinities cannot occur. With them, `NaN || 0` would compare as 0 and `Infinity - Infinity` would be NaN.
- `toLowerCase` is ASCII case folding only. Non-ASCII letters are left as they are, and so is Unicode case mapping that changes a string's length.
- Fetching from the store, the session check and logout (src/pages/Specialists.tsx:52-77, 144-147) are I/O. The list is an input. The store orders it by name (line 64), and with no position the model keeps whatever order it is given.
- The browser geolocation request and its toasts (src/pages/Specialists.tsx:91-113) are asynchronous callbacks. The position is an input.
- The React effect that re-runs filtering whenever its dependencies change (src/pages/Specialists.tsx:48-50) is not modelled. `FilterSpecialists` is called explicitly and returns the list that `setFilteredSpecialists` would receive.
- Rendering (src/pages/Specialists.tsx:149-310) is not modelled, including the `toFixed(1)` display of the distance. src/pages/Index.tsx is not part of this model: it holds a landing page and a routing choice.
- The fixed city and specialty lists (src/pages/Specialists.tsx:40-41) only populate the selectors. The filter compares any string, so the model does not restrict criteria to those lists.
