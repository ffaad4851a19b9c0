# Request statistics of the OpenGrok web application

This project models the servlet filter `StatisticsFilter` of OpenGrok's web
application and proves properties of the model in Dafny. The filter wraps the
rest of the filter chain. When the chain finishes normally, the filter labels the
request with a category and records its duration into named meters of the
process-wide metrics registry.

- `java_string.dfy` (module `JavaString`) models `String.replace(target, "")`.
  It removes every non-overlapping occurrence of the target, scanning left to
  right, and leaves the string unchanged when the target is empty. A second
  definition, `Split`/`Join`, describes the same removal as "the pieces between
  the occurrences".
- `metrics.dfy` (module `Metrics`) models the registry as `map<string, seq<int>>`:
  each meter name maps to the values recorded under it. A meter is looked up, or
  created, by its name. `ApplyAll` describes a sequence of recordings as a
  function.
- `statistics_filter.dfy` (module `StatisticsFilter`) has four parts:
  - the classifier (`IsRoot`, `Category`);
  - `Emissions`, the ordered list of recordings one request makes;
  - the class `Filter`, whose constructor looks up the four fixed meters and
    whose `DoFilter` method records into the registry, proved equal to
    `ApplyAll(old meters, Emissions(...))`;
  - lemmas about each meter the filter touches.
- `wrappers.dfy` holds `Option`.

The inputs are modelled as values:
- `HttpRequest(requestUri, contextPath)`;
- `PageConfig(prefix, project, searchHelper)`, where a search helper's
  `hits == None` stands for a null hit array and `Some(n)` for an array of
  length `n`;
- `ChainOutcome`, which is `Completed(elapsed)` (the duration in nanoseconds)
  or `Threw(error)`.

Removal of the context path is global, as in the code. A URI such as `/app/app`
under context path `/app` reduces to `""`, so it counts as the root page
(`RepeatedContextPathIsRoot`). One might expect only a leading copy of the
context path to go; the code removes every copy, and so does the model.

## Model

| member | source | states |
|---|---|---|
| JavaString.RemoveAll | opengrok-web/src/main/java/org/opengrok/web/StatisticsFilter.java:108-109 | removing the context path never lengthens the URI, and an empty context path leaves it unchanged |
| JavaString.RemoveAllAbsent | opengrok-web/src/main/java/org/opengrok/web/StatisticsFilter.java:108-109 | a URI in which the context path does not occur is left as it is |
| JavaString.RemoveAllLeading | opengrok-web/src/main/java/org/opengrok/web/StatisticsFilter.java:108-109 | any number of leading copies of the context path are all removed, not only the first |
| JavaString.JoinSplit | opengrok-web/src/main/java/org/opengrok/web/StatisticsFilter.java:108-109 | the pieces between the occurrences of the context path, joined again with it, give back the URI |
| JavaString.RemoveAllIsConcatOfSplit | opengrok-web/src/main/java/org/opengrok/web/StatisticsFilter.java:108-109 | the removal keeps exactly those pieces, in order |
| JavaString.SplitPiecesFree | opengrok-web/src/main/java/org/opengrok/web/StatisticsFilter.java:108-109 | no piece that the removal keeps contains the context path, so every occurrence the left-to-right scan finds is removed |
| JavaString.SplitFirstPiece | opengrok-web/src/main/java/org/opengrok/web/StatisticsFilter.java:108-109 | the pieces follow Java's left-to-right choice: the first piece ends at the first occurrence of the context path, and the remaining pieces are the split of what follows that occurrence |
| StatisticsFilter.IsRoot | opengrok-web/src/main/java/org/opengrok/web/StatisticsFilter.java:107-110 | a URI of "" or "/" is the root page under every context path; with an empty context path those two URIs are the only root pages (the body, removal then comparison with "/" and "", is the model of `isRoot`) |
| StatisticsFilter.Category | opengrok-web/src/main/java/org/opengrok/web/StatisticsFilter.java:70-77 | there is no category exactly when the request is not for the root page and the prefix is unknown; the root page is "root"; any other category is a known prefix's name without its first character |
| StatisticsFilter.ViewingOf | opengrok-web/src/main/java/org/opengrok/web/StatisticsFilter.java:91 | the project meter's name is "viewing_of_" followed by the project name, which can be read back from it unchanged |
| StatisticsFilter.SearchTimer | opengrok-web/src/main/java/org/opengrok/web/StatisticsFilter.java:97-103 | "empty_search" exactly when the hit array is null or empty, "successful_search" exactly when it has at least one hit |
| StatisticsFilter.Emissions | opengrok-web/src/main/java/org/opengrok/web/StatisticsFilter.java:83-104 | a request records nothing exactly when the chain threw or there is no category; otherwise it makes three to five recordings, the first 1 into "requests" |
| StatisticsFilter.IsRootByPieces | opengrok-web/src/main/java/org/opengrok/web/StatisticsFilter.java:107-110 | a request is for the root page exactly when the URI pieces between context-path occurrences, put together, are "" or "/" (or the URI itself is, for an empty context path) |
| StatisticsFilter.RootWhateverPrefix | opengrok-web/src/main/java/org/opengrok/web/StatisticsFilter.java:71-72 | a URI made of context-path copies followed by "" or "/" is categorised "root" for every resolved prefix, unknown included |
| StatisticsFilter.RepeatedContextPathIsRoot | opengrok-web/src/main/java/org/opengrok/web/StatisticsFilter.java:108-109 | "/app/app" under context path "/app" is categorised "root" |
| StatisticsFilter.NonRootCategory | opengrok-web/src/main/java/org/opengrok/web/StatisticsFilter.java:73-76 | outside the root page, a known prefix gives its name without the first character (that character followed by the category is the name); there is no category exactly when the prefix is unknown |
| StatisticsFilter.UncountedRecordsNothing | opengrok-web/src/main/java/org/opengrok/web/StatisticsFilter.java:66-77 | when the chain throws, or the request has no category, the registry is the same before and after |
| StatisticsFilter.RecordedPerName | opengrok-web/src/main/java/org/opengrok/web/StatisticsFilter.java:83-104 | for any meter name, a counted request records 1 if it is "requests", plus the duration once for each of "*", the category, the bound project's meter and the selected search meter that the name equals |
| StatisticsFilter.RequestsRecordedOnce | opengrok-web/src/main/java/org/opengrok/web/StatisticsFilter.java:83 | a counted request adds exactly one value, 1, to "requests" |
| StatisticsFilter.GenericTimerRecordedOnce | opengrok-web/src/main/java/org/opengrok/web/StatisticsFilter.java:84 | a counted request adds exactly one value, the duration, to "*" |
| StatisticsFilter.CategoryTimerRecordedOnce | opengrok-web/src/main/java/org/opengrok/web/StatisticsFilter.java:86 | a counted request adds exactly one value, the duration, to its category's timer |
| StatisticsFilter.ProjectRecording | opengrok-web/src/main/java/org/opengrok/web/StatisticsFilter.java:89-93 | with a project bound, "viewing_of_" followed by its name gets exactly one value, the duration |
| StatisticsFilter.NoProjectNoViewing | opengrok-web/src/main/java/org/opengrok/web/StatisticsFilter.java:89-93 | with no project bound, no "viewing_of_" meter changes or comes into being, unless it is the category itself |
| StatisticsFilter.SearchRecording | opengrok-web/src/main/java/org/opengrok/web/StatisticsFilter.java:95-104 | a search helper with a null or empty hit array adds the duration to "empty_search" and nothing to "successful_search"; with at least one hit the other way round |
| StatisticsFilter.NoSearchNoSearchTimers | opengrok-web/src/main/java/org/opengrok/web/StatisticsFilter.java:95-96 | without a search helper neither search meter changes or comes into being, unless the category is itself one of the two search meters |
| StatisticsFilter.OnlyFilterMetersChange | opengrok-web/src/main/java/org/opengrok/web/StatisticsFilter.java:83-104 | every meter other than "requests", "*", the category, the bound project's meter and the two search meters is left exactly as it was |
| StatisticsFilter.OneDurationPerRequest | opengrok-web/src/main/java/org/opengrok/web/StatisticsFilter.java:83-104 | a counted request makes three to five recordings: 1 into "requests" first, then the same duration every time |
| StatisticsFilter.FixedNamesDistinct | opengrok-web/src/main/java/org/opengrok/web/StatisticsFilter.java:45-51 | the four fixed meter names are pairwise different, and no project's meter equals any of them |
| StatisticsFilter.Filter.constructor | opengrok-web/src/main/java/org/opengrok/web/StatisticsFilter.java:45-51 | building the filter looks up, or creates empty, the meters "requests", "*", "empty_search" and "successful_search", and changes nothing else |
| StatisticsFilter.Filter.DoFilter | opengrok-web/src/main/java/org/opengrok/web/StatisticsFilter.java:58-105 | the chain's exception is passed on unchanged, and the registry afterwards is the old one with exactly the request's recordings appended, in the order the code makes them |
| Metrics.MeterRegistry.Register | opengrok-web/src/main/java/org/opengrok/web/StatisticsFilter.java:47-51 | looking a meter up by name creates it empty if absent and otherwise leaves it as it was |
| Metrics.MeterRegistry.Record | opengrok-web/src/main/java/org/opengrok/web/StatisticsFilter.java:86 | recording into a meter found by name appends the value to that meter and changes no other |
| Metrics.ApplyAllValues | opengrok-web/src/main/java/org/opengrok/web/StatisticsFilter.java:83-104 | after several recordings each meter holds its old values followed by exactly those recorded under its name |
| Metrics.ApplyAllFrame | opengrok-web/src/main/java/org/opengrok/web/StatisticsFilter.java:83-104 | a meter name no recording mentions keeps its values and its presence or absence |

## Left out

- CategoryTimerRecordedOnce: assumes the category is not "requests", not "*", not the bound project's meter and not the search meter the helper selects. A prefix printing as "/*" or "/empty_search" would make its category share a meter. `RecordedPerName` gives the general count.
- ProjectRecording: assumes the category is not the project's meter name, for the same reason.
- SearchRecording: assumes the category is neither "empty_search" nor "successful_search", for the same reason.
- RequestsRecordedOnce: assumes the category is not "requests", for the same reason.
- GenericTimerRecordedOnce: assumes the category is not "*", for the same reason.
- NoSearchNoSearchTimers: assumes the category is neither "empty_search" nor "successful_search", for the same reason.
- The values of `Prefix.toString()` are not part of this model. A known prefix is any non-empty string (`PrefixName`), because `substring(1)` would throw on an empty one.
- Timing: `Instant.now()` and `Duration.between` become the `elapsed` value of `Completed`. No clock is modelled, and no duration exists when the chain throws.
- The rest of the chain (`fc.doFilter`) is reduced to its outcome: normal completion or a thrown exception. Its effect on the response is not modelled.
- `PageConfig.get`, prefix resolution, `Project.getName` and how `SearchHelper` is filled are upstream code. They appear only as input values.
- Registry internals (aggregation, percentiles, export) are not modelled. Neither is the library's refusal to register a timer under a name already used by a summary ("requests"), nor its handling of negative durations. A recording is modelled as appending the value under the name.
- Concurrent use of the shared registry by several requests is not modelled. Each call is treated as running alone.
- `init`, `destroy` and the cast to `HttpServletRequest` carry no logic and are not modelled.
- plugins/src/test/java/opengrok/auth/plugin/TruePluginTest.java tests an always-allow authorization plugin whose source is not part of this model. It has no logic of its own to model.
