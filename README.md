# Fast travel registry and sight helpers, modelled in Dafny

This project models the two self-contained pieces of logic in a set of RPG Maker
MZ plugins and proves properties of them.

- **Fast travel registry** (`fast_travel.dfy`, module `FastTravel`), from
  `CGMZ_FastTravel.js`. The plugin keeps an ordered list of travel points on its
  core object. Each point has a name, a discovered flag, a category, a
  destination (map, x, y, facing) and optional gold and item costs.
  - The list is seeded from the plugin configuration. A configured point is
    appended only when no point of that name is present yet.
  - "Reinitialize" empties the list first.
  - Queries: the discovered points, the discovered points of a category
    (`"all"` means every discovered point), the distinct categories of discovered
    points, lookup by name, and the discovered count.
  - Commands: discover/undiscover, change map and change category. Each edits
    the named point. An unknown name is silently ignored.
  - The travel list enables a point only when the party meets its costs.
- **Sight helpers** (`sight.dfy`, module `Sight`), from `Krons_AI_base.js`.
  - An actor id names the calling event (0), the player (-1), a follower
    (-2, -3, …) or a map event (any other id).
  - Distance is the floor of the Euclidean distance between two cells, which is
    the integer square root of dx² + dy².
  - The range test compares that distance with a range.
  - The sight test adds two checks. First, a facing cone: for facings 2, 4, 6
    and 8 the target must be strictly ahead, and no farther sideways than
    `slope` times its distance ahead. Second, a line of sight: every rounded
    sample of the straight line from viewer to target must lie on a cell with the
    viewer's region id.
- `wrappers.dfy` (module `Wrappers`) holds the `Option` type used for
  `undefined`/`null` results.

How the model is shaped:

- The registry is a class `FastTravel.Core` whose fields are the list
  (`points: seq<Point>`) and whether the list exists yet. Its methods reassign
  the list, and their contracts state the whole new list in terms of the old one.
- Points are values. An in-place edit of a point object becomes replacing one
  element of the sequence.
- Seeding is a loop proved against the function `Seed`.
- `Seed` is related to an independent reference definition, `FirstNew`: the
  configuration entries, in configuration order, whose name is neither already
  present nor taken by an earlier entry.
- The category lookup is a loop proved directly against the property the plugin
  promises: no duplicates, exactly the discovered categories, in first-seen
  order.
- `Sight.EventInSight` is a method with the line-of-sight loop. It is proved
  against the predicate `Sight.InSight`, which is built from the distance, cone
  and line predicates that the lemmas are about.
- Engine state is passed in:
  - the party's gold and an item-count function for the cost test;
  - a `World` of events, player and followers for id resolution;
  - a region-id function of the cell;
  - whether the toast manager is loaded and the "Show Discover Toast" parameter.

Where the code and the plugin's own description differ, the model follows the code:

- `discover(true)` emits a toast on every call, also for a point that is
  already discovered. The "Show Discover Toast" parameter speaks of a *new*
  point. `FastTravel.RediscoverToastsAgain` states the behaviour as written.
- `isEnabled` does not consult the "Use Costs" parameter. A point with
  configured costs is disabled when unaffordable even if costs are not shown.

Two further facts of the code that the model keeps:

- An unrecognised facing direction skips the cone test, because none of the
  four `=== 2/4/8/6` guards fires. Such a viewer is not blind.
- `Math.round` rounds halves up (toward +∞), so a sample coordinate v becomes
  floor(v + 1/2).

## Model

| member | source | states |
|---|---|---|
| `FastTravel.NewPoint` | js/plugins/CGMZ_FastTravel.js:281-303 | a point takes every field from its configuration (name, discovered flag, description, image, category, destination, costs, travel and toast sounds); `hasCosts` holds iff gold cost > 0 or item cost amount > 0 |
| `FastTravel.DiscoverToast` | js/plugins/CGMZ_FastTravel.js:329-335 | the discovery toast carries the point's name, and a sound effect (pan 0, pitch 100, volume 100) exactly when the point's toast sound is not empty |
| `FastTravel.Discover` | js/plugins/CGMZ_FastTravel.js:320-325 | only the discovered flag changes, to the given value; a toast is emitted iff the value is true, the toast manager is loaded and discover toasts are enabled |
| `FastTravel.RediscoverToastsAgain` | js/plugins/CGMZ_FastTravel.js:320-325 | discovering an already discovered point emits the same toast again (there is no transition test) |
| `FastTravel.IndexOf` | js/plugins/CGMZ_FastTravel.js:390-392 | the position found holds the name and no earlier point does; nothing is found iff no point has the name |
| `FastTravel.FindPoint` | js/plugins/CGMZ_FastTravel.js:390-392 | lookup gives nothing iff no point has the name, else a point of the list with exactly that name |
| `FastTravel.FindPointFirst` | js/plugins/CGMZ_FastTravel.js:390-392 | lookup returns the earliest point with the name |
| `FastTravel.FindPointUnique` | js/plugins/CGMZ_FastTravel.js:390-392 | with unique names, lookup of a point's name returns that point |
| `FastTravel.AllDiscovered` | js/plugins/CGMZ_FastTravel.js:384-386 | the discovered list holds exactly the discovered points of the registry |
| `FastTravel.AllDiscoveredAppend` | js/plugins/CGMZ_FastTravel.js:384-386 | the discovered filter distributes over concatenation, so it preserves registry order |
| `FastTravel.DiscoveredOfCategory` | js/plugins/CGMZ_FastTravel.js:407 | the category filter holds exactly the discovered points whose category equals the given string; with `DiscoveredOfCategoryAppend` their order and multiplicity are those of the registry |
| `FastTravel.DiscoveredOfCategoryAppend` | js/plugins/CGMZ_FastTravel.js:407 | the category filter distributes over concatenation, so it keeps registry order and multiplicity |
| `FastTravel.DiscoveredFromCategory` | js/plugins/CGMZ_FastTravel.js:406-408 | category "all" gives the whole discovered list; any other string gives `DiscoveredOfCategory`, the discovered points of that category in registry order |
| `FastTravel.CategoryFiltersDiscovered` | js/plugins/CGMZ_FastTravel.js:406-408 | a named category's list is the discovered list narrowed to that category (both filters keep order, by `AllDiscoveredAppend` and `DiscoveredOfCategoryAppend`) |
| `FastTravel.TotalDiscovered` | js/plugins/CGMZ_FastTravel.js:442-444 | the discovered count is the length of the discovered list `AllDiscovered`; it is at most the number of points, 0 iff none is discovered, and full iff all are |
| `FastTravel.DiscoveredCountIsFull` | js/plugins/CGMZ_FastTravel.js:442-444 | the discovered list is as long as the registry iff every point is discovered, and empty iff none is |
| `FastTravel.FirstDiscoveredIn` | js/plugins/CGMZ_FastTravel.js:396-402 | the index where a category is first seen among discovered points, with no earlier discovered point of that category |
| `FastTravel.Seed` | js/plugins/CGMZ_FastTravel.js:352-360 | seeding never changes, removes or reorders the points already present |
| `FastTravel.SeedKeepsInvariant` | js/plugins/CGMZ_FastTravel.js:356-359 | seeding keeps names unique and every point's cost flag consistent with its costs |
| `FastTravel.SeedStep` | js/plugins/CGMZ_FastTravel.js:357-358 | one round of the seeding loop: a configured name already present leaves the list unchanged; a new name appends the point built from the entry |
| `FastTravel.FirstNew` | js/plugins/CGMZ_FastTravel.js:356-359 | what seeding adds comes from the configuration and has a name not already present |
| `FastTravel.FirstNewNames` | js/plugins/CGMZ_FastTravel.js:356-359 | what seeding adds has each name once, and exactly the configured names not yet present, so a later duplicate in the configuration is skipped |
| `FastTravel.SeedAppendsFirstNew` | js/plugins/CGMZ_FastTravel.js:352-360 | seeding yields the existing points followed by the new configured points, in configuration order |
| `FastTravel.SeedNames` | js/plugins/CGMZ_FastTravel.js:356-359 | after seeding, the names are the previous names plus all configured names |
| `FastTravel.SeedIdempotent` | js/plugins/CGMZ_FastTravel.js:352-360 | seeding twice with the same configuration equals seeding once |
| `FastTravel.FirstNewKeepsFirstOccurrence` | js/plugins/CGMZ_FastTravel.js:356-359 | the first configuration entry of a name not yet present is among those added |
| `FastTravel.ReinitializedPoints` | js/plugins/CGMZ_FastTravel.js:353-359 | reinitialising discards prior state: the result depends only on the configuration, has unique names, and holds exactly the configured names |
| `FastTravel.ReinitializedFromFirstEntry` | js/plugins/CGMZ_FastTravel.js:352-360 | after reinitialising, a configured name's point is the one built from its first entry, discovered flag included |
| `FastTravel.AppendKeepsUniqueNames` | js/plugins/CGMZ_FastTravel.js:358 | pushing a point whose name is absent keeps names unique |
| `FastTravel.EditKeepsUniqueNames` | js/plugins/CGMZ_FastTravel.js:412-438 | the editing commands never touch names, so names stay unique |
| `FastTravel.DiscoveredAfterDiscover` | js/plugins/CGMZ_FastTravel.js:412-417 | for any list, after discovering a known name, lookup finds the point discovered and both the discovered list and the "all" list hold it |
| `FastTravel.CategoryLoopPush` | js/plugins/CGMZ_FastTravel.js:399 | pushing a newly met category keeps the list duplicate-free, covering the discovered points seen so far, in first-seen order |
| `FastTravel.CategoryLoopStep` | js/plugins/CGMZ_FastTravel.js:398-400 | one round of the category loop keeps the list duplicate-free, covering the discovered points seen so far, in first-seen order |
| `FastTravel.Core.constructor` | js/plugins/CGMZ_FastTravel.js:352-353 | before the first seeding the list does not exist and is treated as empty |
| `FastTravel.Core.SetupFastTravelVariables` | js/plugins/CGMZ_FastTravel.js:364-366 | the list exists and is empty |
| `FastTravel.Core.InitializeFastTravelData` | js/plugins/CGMZ_FastTravel.js:352-360 | the new list is `Seed` of the empty list (when reinitialising or not yet created) or of the old list, and the registry invariant holds |
| `FastTravel.Core.GetFastTravelPointCategories` | js/plugins/CGMZ_FastTravel.js:396-402 | the categories are duplicate-free, contain exactly the categories of discovered points, and are ordered by where each is first seen |
| `FastTravel.Core.DiscoverFastTravelPoint` | js/plugins/CGMZ_FastTravel.js:412-417 | an unknown name changes nothing and emits no toast; otherwise only the first matching point's discovered flag changes, with the toast `Discover` gives |
| `FastTravel.Core.ChangeFastTravelPointMap` | js/plugins/CGMZ_FastTravel.js:421-429 | an unknown name changes nothing; otherwise only map, x, y and direction of the matching point change |
| `FastTravel.Core.ChangeFastTravelPointCategory` | js/plugins/CGMZ_FastTravel.js:433-438 | an unknown name changes nothing; otherwise only the matching point's category changes |
| `FastTravel.MeetsCosts` | js/plugins/CGMZ_FastTravel.js:896-907 | true without costs; false when the gold cost exceeds the gold held; otherwise, with an item amount set, true iff the items held reach it |
| `FastTravel.MeetsCostsMonotone` | js/plugins/CGMZ_FastTravel.js:896-907 | more gold and more of every item never turn an affordable point unaffordable |
| `FastTravel.MeetsCostsIsAffordability` | js/plugins/CGMZ_FastTravel.js:896-907 | for a point with a consistent cost flag, the test is: no gold shortfall, and no item shortfall when an item cost is set |
| `FastTravel.IsEnabled` | js/plugins/CGMZ_FastTravel.js:890-892 | no selected point is never enabled; a point with a consistent cost flag is enabled iff the party has no gold shortfall and, when an item cost is set, no item shortfall |
| `FastTravel.IsEnabledMonotone` | js/plugins/CGMZ_FastTravel.js:890-892 | more gold and no fewer of any item keep an enabled entry enabled |
| `FastTravel.MakeItemList` | js/plugins/CGMZ_FastTravel.js:918-924 | no selected category gives an empty list; "all" gives `AllDiscovered`, any other category `DiscoveredOfCategory`, so the window's list holds the discovered points of that category in registry order (`AllDiscoveredAppend`, `DiscoveredOfCategoryAppend`) |
| `Sight.Classify` | js/plugins/Krons_AI_base.js:177-194 | 0 is the calling event, -1 the player, ids below -1 are followers, positive ids are events |
| `Sight.ClassifyRoundTrip` | js/plugins/Krons_AI_base.js:185-187 | classification is a bijection between ids and subjects (events with positive ids); follower id `id` has index `abs(id) - 2` |
| `Sight.Resolve` | js/plugins/Krons_AI_base.js:197-218 | the player always resolves; 0 resolves to the calling event, a positive id to that event, id < -1 to follower `abs(id) - 2` when it exists |
| `Sight.ISqrt` | js/plugins/Krons_AI_base.js:221-224 | r² ≤ n < (r+1)² |
| `Sight.ISqrtUnique` | js/plugins/Krons_AI_base.js:221-224 | that bracketing determines the root |
| `Sight.Distance` | js/plugins/Krons_AI_base.js:221-224 | d² ≤ dx² + dy² < (d+1)², i.e. floor of the Euclidean distance |
| `Sight.DistanceSymmetric` | js/plugins/Krons_AI_base.js:221-224 | distance is symmetric |
| `Sight.DistanceZeroIffSameCell` | js/plugins/Krons_AI_base.js:221-224 | distance is 0 iff both cells are the same |
| `Sight.DistanceBounds` | js/plugins/Krons_AI_base.js:221-224 | max(abs dx, abs dy) ≤ distance ≤ abs dx + abs dy |
| `Sight.DistanceExamples` | js/plugins/Krons_AI_base.js:221-224 | (0,0)-(3,4) is 5 and (0,0)-(1,1) is 1 |
| `Sight.EventDistance` | js/plugins/Krons_AI_base.js:78-84 | defined iff both ids resolve, and then the floor of the Euclidean distance of their cells |
| `Sight.EventInRange` | js/plugins/Krons_AI_base.js:90-101 | defined iff both ids resolve, and then true iff the distance is at most the range |
| `Sight.EffectiveSlope` | js/plugins/Krons_AI_base.js:114 | an omitted or zero slope becomes 1; any other slope is kept |
| `Sight.ConeAdmits` | js/plugins/Krons_AI_base.js:128-143 | the four facing guards: a viewer facing 2, 4, 6 or 8 never admits its own cell, and any other direction admits everything |
| `Sight.ConeIsWedge` | js/plugins/Krons_AI_base.js:128-143 | for facings 2, 4, 6 and 8 the cone admits exactly the targets strictly ahead with abs(sideways offset) ≤ slope · forward offset |
| `Sight.ConeExcludesOwnCell` | js/plugins/Krons_AI_base.js:128-143 | for those facings the viewer's own cell is never in the cone |
| `Sight.ConeIgnoresOtherDirections` | js/plugins/Krons_AI_base.js:128-143 | any other direction value does not reject |
| `Sight.ConeWidensWithSlope` | js/plugins/Krons_AI_base.js:128-143 | a larger slope admits every target a smaller one admits |
| `Sight.Steps` | js/plugins/Krons_AI_base.js:151 | the step count is the larger of abs dx and abs dy |
| `Sight.SampleAt` | js/plugins/Krons_AI_base.js:157-166 | the rounded sample coordinate r is start + i·d/steps rounded half up: 2·steps·(r − start) ≤ 2·i·d + steps < 2·steps·(r − start + 1); with no steps it is the start |
| `Sight.ClearLine` | js/plugins/Krons_AI_base.js:159-167 | every sample 0..steps lies on a cell of the viewer's region; with at least one step, the target's cell then has that region |
| `Sight.SampleEnds` | js/plugins/Krons_AI_base.js:157-166 | sample 0 is the viewer's cell, so it never fails; with at least one step the last sample is the target's cell |
| `Sight.InSight` | js/plugins/Krons_AI_base.js:121-167 | the sight test on resolved actors: in range, admitted by the cone and a clear line; a target in sight is within range and on a cell of the viewer's region |
| `Sight.OutOfRangeNotInSight` | js/plugins/Krons_AI_base.js:121-123 | a target out of range is not in sight |
| `Sight.NotInSightOnOwnCell` | js/plugins/Krons_AI_base.js:128-143 | a viewer facing 2, 4, 6 or 8 never sees a target on its own cell |
| `Sight.InSightSharesRegion` | js/plugins/Krons_AI_base.js:157-167 | a target in sight stands on a cell with the viewer's region |
| `Sight.SeenOverUniformRegions` | js/plugins/Krons_AI_base.js:109-171 | viewer (5,5) facing down sees (5,8) with range 5 and slope 1 over uniform regions |
| `Sight.BlockedByRegion` | js/plugins/Krons_AI_base.js:155-167 | the same sight is blocked by a different region at (5,6) |
| `Sight.OutsideConeNotSeen` | js/plugins/Krons_AI_base.js:128-131 | viewer (5,5) facing down never sees (8,5), whatever the regions |
| `Sight.EventInSight` | js/plugins/Krons_AI_base.js:109-171 | defined iff both ids resolve; then true iff in range, admitted by the cone with the defaulted slope, and every line sample i = 0..steps lies on a cell with the viewer's region |

## Left out

- Scenes and windows (layout, image scaling, drawing of costs, descriptions and toasts): rendering over engine classes. Only `meetsCosts`, `isEnabled` and `makeItemList` of the list window are modelled.
- Parameter and plugin-command plumbing (`PluginManager`, `JSON.parse`, coercion with `Number(...)` and `=== "true"`, the command handlers, `createPluginData` and `onAfterLoad`, which only call the seeding with `false`): configuration entries are already-typed records, and configured numbers are integers.
- Queries and edits before the list exists: the plugin would fail with a type error on the undefined list, while the model answers as for an empty list. The plugin never reaches that state, since `createPluginData` seeds the list first.
- `getAllFastTravelPoints` and `hasCosts`: plain field reads, the registry's `points` and the point's `hasCosts`.
- `callScene`: it only pushes the scene with an optional category list.
- `takeCosts` and `onListOk`: calls into the party, the audio manager, the player's transfer and the scene manager, whose clamping is not visible here. `onListOk` does not re-check affordability itself.
- Toast creation (`$cgmzTemp.createNewToast`): modelled only as the returned `Toast` record.
- Object identity: the plugin returns and mutates the point objects themselves. The model's points are values inside the registry's sequence, so aliasing of a point held elsewhere is not modelled.
- `this.wait(10)` in `eventInSight`: interpreter frame scheduling.
- Engine objects (`$gameMap.event`, `$gamePlayer`, its followers, `$gameMap.regionId`): passed in as a `World` value and a region function. A missing event or follower, on which the plugin would fail with a type error, gives `None`.
- `AnimationSpeedChanger.js`: it only adjusts engine motion tables and overrides a one-line wait. There is nothing self-contained in it.
- `FastTravel.IsEnabled`: its contract speaks only of points whose `hasCosts` flag agrees with their costs. Every point the registry holds is such a point (`NewPoint` and the registry invariant), and other records do not arise.
- `Sight.Distance`: does not model the floating-point rounding of `Math.hypot`; it is the exact floor of the square root.
- `Sight.EventInSight`: samples are computed exactly as x1 + floor((2·i·dx + steps) / (2·steps)). This leaves out the drift of the accumulated floating-point increments and the `0/0` NaN increments when viewer and target share a cell (the plugin then checks only sample 0, as the model does). Slopes are integers, not fractions.
