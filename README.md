# BottomApp display logic and archive store, in Dafny

BottomApp is an Android app that lists the installed applications under three
bottom tabs: Home, Recent and Archive. This project models the part of it
that has behaviour you can state:

- **The archive store** (`ArchiveDataStore.kt`). One preference entry,
  `archives_key`, holds the set of package names the user has archived. The
  entry may be absent. `ArchiveStore.ArchiveDataStore` is a class with one
  field, `stored: Option<set<string>>`. `SaveValue` and `RemoveValue` rewrite
  that field, and `GetValue` reads it, giving the empty set when the key is
  absent. The pure functions `Saved`, `Removed` and `ValueOf` describe the
  same transitions on values, and the idempotence and round-trip lemmas are
  stated about them.
- **The display-list derivation** (`MainScreen.kt`). These are pure
  functions over a sequence of `AppInfo(packageName, flags)` records, a
  usage map from package name to last-used time, and the archived set:
  - the optional non-system filter (`flags & FLAG_SYSTEM`, compared to 0 with
    Kotlin's `compareTo`);
  - the per-tab selection, including the Recent tab's stable newest-first sort;
  - the case-sensitive package-name search;
  - the "F/T apps" / "T apps" header;
  - the split of a package name into prefix, highlighted match and suffix;
  - which store mutation a row's trailing icon triggers in each tab.

Modules:

- `Wrappers`: `Option`.
- `Collections`: Kotlin's `filter` and `filterNot`, plus a subsequence
  relation. `FilterUnique` proves that a filter's contract determines its
  result.
- `Strings`: `indexOf`, `contains` and decimal `Int.toString`.
- `ArchiveStore`: the store.
- `MainScreen`: the derivation and the tap dispatch.
- `Scenarios`: three concrete situations (Home/Archive with one archived
  app, Recent ordering by usage, a search).

Kotlin's `sortedBy` is a stable sort. The model computes it with a stable
insertion sort, `SortedByLastUsed`. `StableSortIsDetermined` proves that any
ordering that is newest-first and keeps the input order among equal times
equals that result. So the choice of sorting algorithm does not matter.

The search filter always applies, whether or not the search field is shown
(`MainScreen.kt:238`). Only the header's form depends on the search field
being shown or the query being non-empty (`MainScreen.kt:244-246`). The
model follows this code.

## Model

| member | source | states |
|---|---|---|
| `ArchiveStore.ValueOf` | app/src/main/java/jp/kawagh/bottomapp/ArchiveDataStore.kt:18-20 | reading the entry gives the stored set, or the empty set when the key is absent |
| `ArchiveStore.Saved` | app/src/main/java/jp/kawagh/bottomapp/ArchiveDataStore.kt:22-30 | after saving p the key is present and holds the old archived set plus p; p is archived; every other name keeps its membership |
| `ArchiveStore.Removed` | app/src/main/java/jp/kawagh/bottomapp/ArchiveDataStore.kt:32-40 | after removing p the key is present (empty if it was absent) and holds the old set minus p; p is not archived; every other name keeps its membership |
| `ArchiveStore.SaveIdempotent` | app/src/main/java/jp/kawagh/bottomapp/ArchiveDataStore.kt:27 | saving p twice stores the same entry as saving it once |
| `ArchiveStore.RemoveIdempotent` | app/src/main/java/jp/kawagh/bottomapp/ArchiveDataStore.kt:37 | removing p twice stores the same entry as removing it once |
| `ArchiveStore.RemoveAfterSave` | app/src/main/java/jp/kawagh/bottomapp/ArchiveDataStore.kt:22-40 | archiving then unarchiving p leaves the archived set as before, without p |
| `ArchiveStore.SaveAfterRemove` | app/src/main/java/jp/kawagh/bottomapp/ArchiveDataStore.kt:22-40 | unarchiving then archiving p leaves the archived set as before, with p |
| `ArchiveStore.ArchiveDataStore.constructor` | app/src/main/java/jp/kawagh/bottomapp/ArchiveDataStore.kt:12-16 | a store starts from the saved `archives_key` entry and reads as its `ValueOf`; a never-written file reads as the empty set |
| `ArchiveStore.ArchiveDataStore.GetValue` | app/src/main/java/jp/kawagh/bottomapp/ArchiveDataStore.kt:18-20 | the flow's value is `ValueOf` of the stored entry |
| `ArchiveStore.ArchiveDataStore.SaveValue` | app/src/main/java/jp/kawagh/bottomapp/ArchiveDataStore.kt:22-30 | an absent key becomes `{p}`; a present set S becomes S + {p}; the read value gains p |
| `ArchiveStore.ArchiveDataStore.RemoveValue` | app/src/main/java/jp/kawagh/bottomapp/ArchiveDataStore.kt:32-40 | an absent key becomes the empty set; a present set S becomes S - {p}; the read value loses p |
| `Collections.Filter` | app/src/main/java/jp/kawagh/bottomapp/MainScreen.kt:115 | `filter` keeps every occurrence of the elements that satisfy the test and no other, as a subsequence of the input (order preserved), never longer |
| `Collections.FilterNot` | app/src/main/java/jp/kawagh/bottomapp/MainScreen.kt:105 | `filterNot` keeps every occurrence of the elements that fail the test and no other, as a subsequence of the input |
| `Collections.FilterUnique` | app/src/main/java/jp/kawagh/bottomapp/MainScreen.kt:238 | a subsequence that keeps exactly the occurrences satisfying the test is the filter's result, so the filter contracts characterise the lists completely |
| `Collections.FilterKeepsAll` | app/src/main/java/jp/kawagh/bottomapp/MainScreen.kt:238 | filtering with a test every element passes returns the list unchanged |
| `Strings.IndexOfFrom` | app/src/main/java/jp/kawagh/bottomapp/MainScreen.kt:310 | the result is -1 or an occurrence at or after the start, with no occurrence between the start and the result |
| `Strings.IndexOf` | app/src/main/java/jp/kawagh/bottomapp/MainScreen.kt:310 | `indexOf` is -1 exactly when the query is not a substring; otherwise the query occurs there and at no earlier index |
| `Strings.IndexOfIsFirstOccurrence` | app/src/main/java/jp/kawagh/bottomapp/MainScreen.kt:310 | an occurrence with no earlier occurrence is what `indexOf` returns |
| `Strings.Contains` | app/src/main/java/jp/kawagh/bottomapp/MainScreen.kt:238 | `contains` holds exactly when the query is a substring; the empty query is contained in every name |
| `Strings.DecimalString` | app/src/main/java/jp/kawagh/bottomapp/MainScreen.kt:245 | the rendering of a count is a non-empty string of digits with no leading zero; it is "0" exactly for zero |
| `Strings.DecimalRoundTrip` | app/src/main/java/jp/kawagh/bottomapp/MainScreen.kt:245 | reading back a rendered count gives the count |
| `Strings.NumeralRoundTrip` | app/src/main/java/jp/kawagh/bottomapp/MainScreen.kt:245 | every digit string without a leading zero is the rendering of its value, so rendering and reading are inverse both ways |
| `MainScreen.CompareTo` | app/src/main/java/jp/kawagh/bottomapp/MainScreen.kt:83 | `compareTo` is -1, 0 or 1 exactly when the first operand is less than, equal to or greater than the second |
| `MainScreen.IsSystemApp` | app/src/main/java/jp/kawagh/bottomapp/MainScreen.kt:83 | an app counts as a system app exactly when its `FLAG_SYSTEM` bit is set |
| `MainScreen.NonSystemApps` | app/src/main/java/jp/kawagh/bottomapp/MainScreen.kt:82-83 | the non-system list holds every installed app whose `FLAG_SYSTEM` bit is clear and no other, in the original order |
| `MainScreen.SourceApps` | app/src/main/java/jp/kawagh/bottomapp/MainScreen.kt:99-100 | the source list is the installed list, minus the system apps when the toggle is on, in the original order |
| `MainScreen.HomeApps` | app/src/main/java/jp/kawagh/bottomapp/MainScreen.kt:104-106 | Home holds every source app whose package name is not archived and no other, in source order |
| `MainScreen.ArchiveApps` | app/src/main/java/jp/kawagh/bottomapp/MainScreen.kt:115 | Archive holds every source app whose package name is archived and no other, in source order |
| `MainScreen.RecentCandidates` | app/src/main/java/jp/kawagh/bottomapp/MainScreen.kt:108-110 | before sorting, Recent holds every source app that is in the usage map and not archived, and no other, in source order |
| `MainScreen.InsertByLastUsed` | app/src/main/java/jp/kawagh/bottomapp/MainScreen.kt:111-113 | one insertion step of the stable sort adds exactly the inserted app |
| `MainScreen.SortedByLastUsed` | app/src/main/java/jp/kawagh/bottomapp/MainScreen.kt:111-113 | the Recent ordering is a permutation of its input |
| `MainScreen.InsertNewestFirst` | app/src/main/java/jp/kawagh/bottomapp/MainScreen.kt:111-113 | inserting into a newest-first list keeps it newest-first |
| `MainScreen.SortedNewestFirst` | app/src/main/java/jp/kawagh/bottomapp/MainScreen.kt:111-113 | the Recent ordering is non-increasing in last-used time |
| `MainScreen.InsertStable` | app/src/main/java/jp/kawagh/bottomapp/MainScreen.kt:111-113 | inserting an app keeps it ahead of the apps with the same time that follow it in the input |
| `MainScreen.SortedStable` | app/src/main/java/jp/kawagh/bottomapp/MainScreen.kt:111-113 | the Recent ordering keeps apps with equal last-used times in their input order |
| `MainScreen.NewestFirstUnique` | app/src/main/java/jp/kawagh/bottomapp/MainScreen.kt:111-113 | two newest-first lists with the same order inside every time class are equal |
| `MainScreen.StableSortIsDetermined` | app/src/main/java/jp/kawagh/bottomapp/MainScreen.kt:111-113 | any stable newest-first ordering of the input, such as the one `sortedBy` produces, equals the model's ordering |
| `MainScreen.RecentApps` | app/src/main/java/jp/kawagh/bottomapp/MainScreen.kt:107-114 | Recent holds every source app with usage data that is not archived and no other, as a permutation of the filtered list, newest first, ties in source order |
| `MainScreen.AppsToDisplay` | app/src/main/java/jp/kawagh/bottomapp/MainScreen.kt:103-116 | each tab shows exactly its apps: Home the unarchived ones, Recent the used and unarchived ones newest first, Archive the archived ones; Home and Archive keep source order |
| `MainScreen.ArchiveIgnoresUsage` | app/src/main/java/jp/kawagh/bottomapp/MainScreen.kt:115 | the Archive tab is the same whatever the usage data |
| `MainScreen.FilteredApps` | app/src/main/java/jp/kawagh/bottomapp/MainScreen.kt:238 | the search keeps every displayed app whose package name contains the query (case-sensitive) and no other, in order; it is never longer; the empty query keeps the list unchanged |
| `MainScreen.HeaderRoundTrip` | app/src/main/java/jp/kawagh/bottomapp/MainScreen.kt:244-246 | a header text reads back as the counts it was rendered from |
| `MainScreen.ParseIsRendered` | app/src/main/java/jp/kawagh/bottomapp/MainScreen.kt:244-246 | any text that reads back as a count is exactly that count's rendered header |
| `MainScreen.ParsedOnlyFromRendering` | app/src/main/java/jp/kawagh/bottomapp/MainScreen.kt:244-246 | the rendering of a count is the only text that reads back as that count |
| `MainScreen.Header` | app/src/main/java/jp/kawagh/bottomapp/MainScreen.kt:244-246 | while searching, the header gives the filtered count over the total, and the filtered count is at most the total; otherwise it gives the total alone |
| `MainScreen.HeaderText` | app/src/main/java/jp/kawagh/bottomapp/MainScreen.kt:244-246 | the header text reads back as the header's counts, and it is the only text that does, so the counts fix the text |
| `MainScreen.HighlightPackageName` | app/src/main/java/jp/kawagh/bottomapp/MainScreen.kt:310-320 | the row shows exactly the package name; it is unsplit exactly when the query does not occur; otherwise the highlighted part is the query at its first occurrence, so no occurrence starts inside the prefix |
| `MainScreen.FilteredAppsAreHighlighted` | app/src/main/java/jp/kawagh/bottomapp/MainScreen.kt:310-312 | every row the search keeps shows a highlighted match |
| `MainScreen.TrailIconMutation` | app/src/main/java/jp/kawagh/bottomapp/MainScreen.kt:118-128 | a tap removes the package in the Archive tab and saves it in every other tab |
| `MainScreen.ActionIcon` | app/src/main/java/jp/kawagh/bottomapp/MainScreen.kt:130-133 | the remove icon shows in the Archive tab and the archive icon in every other tab |
| `MainScreen.IconAnnouncesMutation` | app/src/main/java/jp/kawagh/bottomapp/MainScreen.kt:118-133 | the icon a row shows matches the mutation its tap performs |
| `MainScreen.AfterTap` | app/src/main/java/jp/kawagh/bottomapp/MainScreen.kt:118-128 | after a tap, the archived set has lost the package in the Archive tab and gained it in every other tab |
| `MainScreen.OnTrailIconClick` | app/src/main/java/jp/kawagh/bottomapp/MainScreen.kt:118-129 | the tap's coroutine calls `removeValue` in the Archive tab and `saveValue` elsewhere, with that effect on the store |
| `MainScreen.SeedOwnPackage` | app/src/main/java/jp/kawagh/bottomapp/MainScreen.kt:73-77 | the first display saves the app's own package name, which is then archived |
| `MainScreen.TapHidesPackage` | app/src/main/java/jp/kawagh/bottomapp/MainScreen.kt:103-128 | after a tap, the tapped package no longer appears in the current tab |
| `MainScreen.TapMovesApp` | app/src/main/java/jp/kawagh/bottomapp/MainScreen.kt:103-128 | a tap in Home puts the app in the Archive tab; a tap in Archive puts it back in Home |
| `MainScreen.DisplayedApps` | app/src/main/java/jp/kawagh/bottomapp/MainScreen.kt:99-238 | a row is shown exactly when the app is installed, passes the system filter, meets the selected tab's condition (Home: not archived; Recent: in the usage map and not archived; Archive: archived) and its package name contains the query |
| `Scenarios.HomeAndArchiveScenario` | app/src/main/java/jp/kawagh/bottomapp/MainScreen.kt:103-116 | with a archived among [a, b, c], Home shows [b, c] and Archive shows [a] |
| `Scenarios.RecentScenario` | app/src/main/java/jp/kawagh/bottomapp/MainScreen.kt:107-114 | with usage a:100 and b:200, Recent shows [b, a] and leaves out c |
| `Scenarios.SearchScenario` | app/src/main/java/jp/kawagh/bottomapp/MainScreen.kt:238 | searching for "com.app.b" among [a, b] keeps [b] |

## Left out

- Compose rendering is not modelled: the scaffold, top bar, list and grid, icons, bitmaps, colour animation, focus and keyboard handling. It has no behaviour to state.
- Package-manager queries, app labels, icon loading, launch intents and the "launch failed" toast are not modelled. They are platform calls. The installed apps are an input sequence.
- The usage-stats query and its one-month window are not modelled. They are operating-system I/O. The usage map is an input. The model also does not capture how `associate` resolves duplicate package names.
- Preference-store persistence, `Flow` re-emission, `collectAsState`, coroutine scheduling and `LaunchedEffect` timing are not modelled. A store mutation is modelled as one atomic method call. The self-seeding is one `SaveValue` call.
- ArchiveStore.ArchiveDataStore: each object has its own `stored` field. In the app, every instance created from the same context shares one preference file. That sharing (aliasing) is not modelled.
- The UI state variables and the click handlers that toggle them are not modelled. This includes the initial tab, which is Archive. These values are parameters of the derivation functions.
- MainScreen.SortedByLastUsed: timestamps are unbounded integers, sorted newest first directly. The source sorts ascending on the negated `Long`. That negation overflows only for `Long.MIN_VALUE`, which this model does not capture.
- Strings.DecimalString models only non-negative counts, which is all that list sizes can be.
- MainActivity.kt is not part of this model. It holds the usage-access permission check, the settings intent and the system-bar tint.
