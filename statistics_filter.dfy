/**
 * The statistics filter of the web application: after the rest of the filter
 * chain has handled a request, it labels the request with a category and
 * records the elapsed time into named meters of the shared registry.
 */
module StatisticsFilter {
  import opened Wrappers
  import opened JavaString
  import opened Metrics

  const REQUESTS_METRIC: string := "requests"
  const GENERIC_TIMER: string := "*"
  const EMPTY_SEARCH: string := "empty_search"
  const SUCCESSFUL_SEARCH: string := "successful_search"
  const VIEWING_OF: string := "viewing_of_"
  const ROOT: string := "root"

  /** What a known prefix prints as: never empty, since the filter drops its first character. */
  type PrefixName = s: string | |s| >= 1 witness "/"

  /** The route prefix resolved for the request, `Prefix.UNKNOWN` included. */
  datatype Prefix = Unknown | Known(name: PrefixName)

  /** The search helper left in the request; `hits == None` stands for a null hit array. */
  datatype SearchHelper = SearchHelper(hits: Option<nat>)

  /** The request's page configuration as the filter reads it after the chain has run. */
  datatype PageConfig = PageConfig(prefix: Prefix, project: Option<string>, searchHelper: Option<SearchHelper>)

  /** The two parts of the servlet request the classifier looks at. */
  datatype HttpRequest = HttpRequest(requestUri: string, contextPath: string)

  /** How the rest of the chain ended: normally after `elapsed` nanoseconds, or by throwing. */
  datatype ChainOutcome = Completed(elapsed: int) | Threw(error: string)

  /** The request URI with every occurrence of the context path removed. */
  function StrippedPath(req: HttpRequest): string {
    RemoveAll(req.requestUri, req.contextPath)
  }

  /** The request is for the application's root page. */
  predicate IsRoot(req: HttpRequest)
    ensures req.requestUri == "" || req.requestUri == "/" ==> IsRoot(req)
    ensures req.contextPath == [] ==> (IsRoot(req) <==> req.requestUri == "" || req.requestUri == "/")
  {
    SlashStaysRoot(req.contextPath);
    StrippedPath(req) == "/" || StrippedPath(req) == ""
  }

  /** Removing any context path from "/" leaves "/" or "" (used by `IsRoot`'s contract). */
  lemma SlashStaysRoot(contextPath: string)
    ensures RemoveAll("/", contextPath) == "/" || RemoveAll("/", contextPath) == ""
  {
    if contextPath != [] && contextPath != "/" && |contextPath| == 1 {
      assert !StartsWith("/", contextPath);
      assert RemoveAll("/", contextPath) == ['/'] + RemoveAll([], contextPath);
    }
  }

  /** The category the request is counted under, or None when it is not counted. */
  function Category(req: HttpRequest, prefix: Prefix): (r: Option<string>)
    ensures r == None <==> !IsRoot(req) && prefix == Unknown
    ensures IsRoot(req) ==> r == Some(ROOT)
    ensures r.Some? && !IsRoot(req) ==> prefix.Known? && [prefix.name[0]] + r.value == prefix.name
  {
    if IsRoot(req) then Some(ROOT)
    else if prefix != Unknown then Some(prefix.name[1..])
    else None
  }

  /** The meter that times views of a project. */
  function ViewingOf(project: string): (r: string)
    ensures StartsWith(r, VIEWING_OF) && r[|VIEWING_OF|..] == project
  {
    VIEWING_OF + project
  }

  /** The search meter a present search helper selects. */
  function SearchTimer(helper: SearchHelper): (r: string)
    ensures r == EMPTY_SEARCH <==> helper.hits == None || helper.hits.value == 0
    ensures r == SUCCESSFUL_SEARCH <==> helper.hits != None && helper.hits.value > 0
  {
    FixedNamesDistinct(None);
    if helper.hits == None || helper.hits.value == 0 then EMPTY_SEARCH else SUCCESSFUL_SEARCH
  }

  /** The recordings every counted request makes. */
  function CategoryRecordings(category: string, d: int): seq<Recording> {
    [Recording(REQUESTS_METRIC, 1), Recording(GENERIC_TIMER, d), Recording(category, d)]
  }

  /** The recording a bound project adds. */
  function ProjectRecordings(project: Option<string>, d: int): seq<Recording> {
    match project
    case None => []
    case Some(p) => [Recording(ViewingOf(p), d)]
  }

  /** The recording a search helper left in the request adds. */
  function SearchRecordings(helper: Option<SearchHelper>, d: int): seq<Recording> {
    match helper
    case None => []
    case Some(h) => [Recording(SearchTimer(h), d)]
  }

  /** The recordings one pass through the filter makes, in the order it makes them. */
  function Emissions(req: HttpRequest, config: PageConfig, outcome: ChainOutcome): (r: seq<Recording>)
    ensures r == [] <==> outcome.Threw? || Category(req, config.prefix) == None
    ensures r != [] ==> 3 <= |r| <= 5 && r[0] == Recording(REQUESTS_METRIC, 1)
  {
    match outcome
    case Threw(_) => []
    case Completed(d) =>
      match Category(req, config.prefix)
      case None => []
      case Some(c) =>
        CategoryRecordings(c, d) + ProjectRecordings(config.project, d) + SearchRecordings(config.searchHelper, d)
  }

  /** The filter: handles into the shared registry, obtained when it is built. */
  class Filter {
    const registry: MeterRegistry

    /** The field initialisers look up (creating if need be) the four fixed meters. */
    constructor (registry: MeterRegistry)
      modifies registry
      ensures this.registry == registry
      ensures registry.meters == old(registry.meters)
        [REQUESTS_METRIC := Values(old(registry.meters), REQUESTS_METRIC)]
        [GENERIC_TIMER := Values(old(registry.meters), GENERIC_TIMER)]
        [EMPTY_SEARCH := Values(old(registry.meters), EMPTY_SEARCH)]
        [SUCCESSFUL_SEARCH := Values(old(registry.meters), SUCCESSFUL_SEARCH)]
    {
      this.registry := registry;
      new;
      registry.Register(REQUESTS_METRIC);
      registry.Register(GENERIC_TIMER);
      registry.Register(EMPTY_SEARCH);
      registry.Register(SUCCESSFUL_SEARCH);
    }

    /**
     * Runs the rest of the chain (its outcome is a parameter), passes a thrown
     * exception on unchanged, and otherwise records the request's metrics.
     */
    method DoFilter(req: HttpRequest, config: PageConfig, outcome: ChainOutcome) returns (result: ChainOutcome)
      modifies registry
      ensures result == outcome
      ensures registry.meters == ApplyAll(old(registry.meters), Emissions(req, config, outcome))
    {
      result := outcome;
      if outcome.Threw? {
        return;
      }
      var duration := outcome.elapsed;

      var category: string;
      if IsRoot(req) {
        category := ROOT;
      } else if config.prefix != Unknown {
        category := config.prefix.name[1..];
      } else {
        return;
      }

      assert Category(req, config.prefix) == Some(category);
      ghost var before := registry.meters;
      registry.Record(REQUESTS_METRIC, 1);
      registry.Record(GENERIC_TIMER, duration);
      registry.Record(category, duration);
      ApplyAllThree(before, Recording(REQUESTS_METRIC, 1), Recording(GENERIC_TIMER, duration), Recording(category, duration));
      ghost var counted := registry.meters;

      if config.project != None {
        var name := ViewingOf(config.project.value);
        registry.Record(name, duration);
        ApplyAllOne(counted, Recording(name, duration));
      }
      ghost var viewed := registry.meters;
      assert viewed == ApplyAll(counted, ProjectRecordings(config.project, duration));

      var helper := config.searchHelper;
      if helper != None {
        if helper.value.hits == None || helper.value.hits.value == 0 {
          registry.Record(EMPTY_SEARCH, duration);
        } else {
          registry.Record(SUCCESSFUL_SEARCH, duration);
        }
        ApplyAllOne(viewed, Recording(SearchTimer(helper.value), duration));
      }
      assert registry.meters == ApplyAll(viewed, SearchRecordings(config.searchHelper, duration));

      EmissionsWhenCounted(req, config, duration);
      ApplyAllConcat(before, CategoryRecordings(category, duration), ProjectRecordings(config.project, duration));
      ApplyAllConcat(before, CategoryRecordings(category, duration) + ProjectRecordings(config.project, duration),
        SearchRecordings(config.searchHelper, duration));
    }
  }

  lemma ApplyAllOne(meters: map<string, seq<int>>, rec: Recording)
    ensures ApplyAll(meters, [rec]) == Apply(meters, rec)
  {
    assert [rec][..0] == [];
  }

  lemma ApplyAllThree(meters: map<string, seq<int>>, r0: Recording, r1: Recording, r2: Recording)
    ensures ApplyAll(meters, [r0, r1, r2]) == Apply(Apply(Apply(meters, r0), r1), r2)
  {
    assert [r0][..0] == [];
    assert ApplyAll(meters, [r0]) == Apply(meters, r0);
    assert [r0, r1][..1] == [r0];
    assert ApplyAll(meters, [r0, r1]) == Apply(Apply(meters, r0), r1);
    assert [r0, r1, r2][..2] == [r0, r1];
  }

  // ---------------------------------------------------------------------
  // The classifier

  /**
   * A URI made of the context path, any number of times over, followed by
   * nothing or by "/", is the root page whatever prefix was resolved: the
   * removal strips every copy, not only the leading one.
   */
  lemma RootWhateverPrefix(contextPath: string, copies: nat, tail: string, prefix: Prefix)
    requires tail == "" || tail == "/"
    ensures Category(HttpRequest(Repeat(contextPath, copies) + tail, contextPath), prefix) == Some(ROOT)
  {
    RemoveAllLeading(copies, contextPath, tail);
    if tail == "/" && |contextPath| == 1 && contextPath != "/" {
      assert !StartsWith(tail, contextPath);
      assert RemoveAll(tail, contextPath) == [tail[0]] + RemoveAll(tail[1..], contextPath);
    }
  }

  /** "/app/app" under context path "/app" is counted as the root page. */
  lemma RepeatedContextPathIsRoot(prefix: Prefix)
    ensures Category(HttpRequest("/app/app", "/app"), prefix) == Some(ROOT)
  {
    assert Repeat("/app", 2) + "" == "/app/app";
    RootWhateverPrefix("/app", 2, "", prefix);
  }

  /**
   * Root classification in terms of the pieces of the URI that lie between
   * the occurrences of a non-empty context path: the request is for the root
   * page exactly when those pieces, put together, are "" or "/". With an
   * empty context path the URI itself must be "" or "/".
   */
  lemma IsRootByPieces(req: HttpRequest)
    ensures req.contextPath != [] ==>
      (IsRoot(req) <==> Concat(Split(req.requestUri, req.contextPath)) in {"", "/"})
    ensures req.contextPath == [] ==> (IsRoot(req) <==> req.requestUri in {"", "/"})
  {
    if req.contextPath != [] {
      RemoveAllIsConcatOfSplit(req.requestUri, req.contextPath);
    }
  }

  /**
   * A request that is not for the root page is counted under its known
   * prefix with the first character dropped, and not counted at all under
   * `Prefix.UNKNOWN`.
   */
  lemma NonRootCategory(req: HttpRequest, prefix: Prefix)
    requires !IsRoot(req)
    ensures prefix.Known? ==>
      Category(req, prefix) == Some(prefix.name[1..]) && [prefix.name[0]] + Category(req, prefix).value == prefix.name
    ensures prefix == Unknown <==> Category(req, prefix) == None
  {
    if prefix.Known? {
      assert [prefix.name[0]] + prefix.name[1..] == prefix.name;
    }
  }

  // ---------------------------------------------------------------------
  // The recordings



  /** The fixed meter names differ from each other and from every project's meter. */
  lemma FixedNamesDistinct(project: Option<string>)
    ensures REQUESTS_METRIC != GENERIC_TIMER && REQUESTS_METRIC != EMPTY_SEARCH
    ensures REQUESTS_METRIC != SUCCESSFUL_SEARCH && GENERIC_TIMER != EMPTY_SEARCH
    ensures GENERIC_TIMER != SUCCESSFUL_SEARCH && EMPTY_SEARCH != SUCCESSFUL_SEARCH
    ensures project.Some? ==> var v := ViewingOf(project.value);
      v != REQUESTS_METRIC && v != GENERIC_TIMER && v != EMPTY_SEARCH && v != SUCCESSFUL_SEARCH
      && StartsWith(v, VIEWING_OF)
  {
    assert REQUESTS_METRIC[0] == 'r' && GENERIC_TIMER[0] == '*';
    assert EMPTY_SEARCH[0] == 'e' && SUCCESSFUL_SEARCH[0] == 's';
    if project.Some? {
      var v := ViewingOf(project.value);
      assert v[0] == 'v';
      assert v[..|VIEWING_OF|] == VIEWING_OF;
    }
  }

  lemma RecordedUnderOne(rec: Recording, name: string)
    ensures RecordedUnder([rec], name) == if rec.name == name then [rec.value] else []
  {
    assert [rec][..0] == [];
  }

  /** The recordings of a counted request are its three fixed ones and the supplementary ones. */
  lemma EmissionsWhenCounted(req: HttpRequest, config: PageConfig, d: int)
    requires Category(req, config.prefix).Some?
    ensures Emissions(req, config, Completed(d))
      == CategoryRecordings(Category(req, config.prefix).value, d)
       + ProjectRecordings(config.project, d) + SearchRecordings(config.searchHelper, d)
  {
  }

  /** What the three fixed recordings, then the supplementary ones, put under one name. */
  lemma {:induction false} RecordedUnderParts(c: string, project: Option<string>, helper: Option<SearchHelper>, d: int, name: string)
    ensures RecordedUnder(CategoryRecordings(c, d) + ProjectRecordings(project, d) + SearchRecordings(helper, d), name)
      == (if name == REQUESTS_METRIC then [1] else [])
       + (if name == GENERIC_TIMER then [d] else [])
       + (if name == c then [d] else [])
       + (if project.Some? && name == ViewingOf(project.value) then [d] else [])
       + (if helper.Some? && name == SearchTimer(helper.value) then [d] else [])
  {
    var core := CategoryRecordings(c, d);
    var proj := ProjectRecordings(project, d);
    var search := SearchRecordings(helper, d);
    RecordedUnderAppend(core + proj, search, name);
    RecordedUnderAppend(core, proj, name);
    RecordedUnderCore(c, d, name);
    if project.Some? {
      RecordedUnderOne(proj[0], name);
    }
    if helper.Some? {
      RecordedUnderOne(search[0], name);
    }
  }

  lemma RecordedUnderCore(c: string, d: int, name: string)
    ensures RecordedUnder(CategoryRecordings(c, d), name)
      == (if name == REQUESTS_METRIC then [1] else [])
       + (if name == GENERIC_TIMER then [d] else [])
       + (if name == c then [d] else [])
  {
    var a := [Recording(REQUESTS_METRIC, 1)];
    var b := [Recording(GENERIC_TIMER, d)];
    var e := [Recording(c, d)];
    assert CategoryRecordings(c, d) == a + b + e;
    RecordedUnderAppend(a + b, e, name);
    RecordedUnderAppend(a, b, name);
    RecordedUnderOne(a[0], name);
    RecordedUnderOne(b[0], name);
    RecordedUnderOne(e[0], name);
  }

  /**
   * What a counted request records under any one name: 1 under "requests",
   * the duration under "*" and under its category, under its project's
   * meter if a project is bound, and under the search meter its helper
   * selects if one is present, each as often as the name is hit.
   */
  lemma RecordedPerName(req: HttpRequest, config: PageConfig, d: int, name: string)
    requires Category(req, config.prefix).Some?
    ensures var c := Category(req, config.prefix).value;
      RecordedUnder(Emissions(req, config, Completed(d)), name)
      == (if name == REQUESTS_METRIC then [1] else [])
       + (if name == GENERIC_TIMER then [d] else [])
       + (if name == c then [d] else [])
       + (if config.project.Some? && name == ViewingOf(config.project.value) then [d] else [])
       + (if config.searchHelper.Some? && name == SearchTimer(config.searchHelper.value) then [d] else [])
  {
    EmissionsWhenCounted(req, config, d);
    RecordedUnderParts(Category(req, config.prefix).value, config.project, config.searchHelper, d, name);
  }

  /** A request the chain failed on, or one with no category, records nothing. */
  lemma UncountedRecordsNothing(req: HttpRequest, config: PageConfig, outcome: ChainOutcome, meters: map<string, seq<int>>)
    requires outcome.Threw? || Category(req, config.prefix) == None
    ensures ApplyAll(meters, Emissions(req, config, outcome)) == meters
  {
  }

  /** A counted request adds exactly one value to "requests", namely 1. */
  lemma RequestsRecordedOnce(req: HttpRequest, config: PageConfig, d: int, meters: map<string, seq<int>>)
    requires Category(req, config.prefix).Some?
    requires Category(req, config.prefix).value != REQUESTS_METRIC
    ensures Values(ApplyAll(meters, Emissions(req, config, Completed(d))), REQUESTS_METRIC)
      == Values(meters, REQUESTS_METRIC) + [1]
  {
    FixedNamesDistinct(config.project);
    ApplyAllValues(meters, Emissions(req, config, Completed(d)), REQUESTS_METRIC);
    RecordedPerName(req, config, d, REQUESTS_METRIC);
  }

  /** A counted request adds exactly one value to the generic timer "*", the duration. */
  lemma GenericTimerRecordedOnce(req: HttpRequest, config: PageConfig, d: int, meters: map<string, seq<int>>)
    requires Category(req, config.prefix).Some?
    requires Category(req, config.prefix).value != GENERIC_TIMER
    ensures Values(ApplyAll(meters, Emissions(req, config, Completed(d))), GENERIC_TIMER)
      == Values(meters, GENERIC_TIMER) + [d]
  {
    FixedNamesDistinct(config.project);
    ApplyAllValues(meters, Emissions(req, config, Completed(d)), GENERIC_TIMER);
    RecordedPerName(req, config, d, GENERIC_TIMER);
  }

  /** A counted request adds exactly one value to its category's timer, the duration. */
  lemma CategoryTimerRecordedOnce(req: HttpRequest, config: PageConfig, d: int, meters: map<string, seq<int>>)
    requires Category(req, config.prefix).Some?
    requires Category(req, config.prefix).value != REQUESTS_METRIC
    requires Category(req, config.prefix).value != GENERIC_TIMER
    requires config.project.Some? ==> Category(req, config.prefix).value != ViewingOf(config.project.value)
    requires config.searchHelper.Some? ==> Category(req, config.prefix).value != SearchTimer(config.searchHelper.value)
    ensures var c := Category(req, config.prefix).value;
      Values(ApplyAll(meters, Emissions(req, config, Completed(d))), c) == Values(meters, c) + [d]
  {
    var c := Category(req, config.prefix).value;
    ApplyAllValues(meters, Emissions(req, config, Completed(d)), c);
    RecordedPerName(req, config, d, c);
  }

  /** A bound project's meter "viewing_of_<name>" gets exactly one value, the duration. */
  lemma ProjectRecording(req: HttpRequest, config: PageConfig, d: int, meters: map<string, seq<int>>)
    requires Category(req, config.prefix).Some? && config.project.Some?
    requires Category(req, config.prefix).value != ViewingOf(config.project.value)
    ensures var name := ViewingOf(config.project.value);
      Values(ApplyAll(meters, Emissions(req, config, Completed(d))), name) == Values(meters, name) + [d]
  {
    var name := ViewingOf(config.project.value);
    var e := Emissions(req, config, Completed(d));
    FixedNamesDistinct(config.project);
    assert RecordedUnder(e, name) == [d] by {
      RecordedPerName(req, config, d, name);
    }
    ApplyAllValues(meters, e, name);
  }

  /** With no project bound, no "viewing_of_" meter other than the category's changes. */
  lemma NoProjectNoViewing(req: HttpRequest, config: PageConfig, outcome: ChainOutcome, meters: map<string, seq<int>>, name: string)
    requires config.project == None
    requires StartsWith(name, VIEWING_OF)
    requires Category(req, config.prefix) != Some(name)
    ensures Values(ApplyAll(meters, Emissions(req, config, outcome)), name) == Values(meters, name)
    ensures name in ApplyAll(meters, Emissions(req, config, outcome)) <==> name in meters
  {
    var e := Emissions(req, config, outcome);
    ApplyAllValues(meters, e, name);
    if outcome.Completed? && Category(req, config.prefix).Some? {
      FixedNamesDistinct(Some(name[|VIEWING_OF|..]));
      assert ViewingOf(name[|VIEWING_OF|..]) == name;
      RecordedPerName(req, config, outcome.elapsed, name);
    }
    NamesByRecordedUnder(e, name);
    ApplyAllFrame(meters, e, name);
  }

  /**
   * A search helper left in the request selects one search meter: with a
   * null or empty hit array "empty_search" gets the duration and
   * "successful_search" nothing; with at least one hit the other way round.
   */
  lemma SearchRecording(req: HttpRequest, config: PageConfig, d: int, meters: map<string, seq<int>>)
    requires Category(req, config.prefix).Some? && config.searchHelper.Some?
    requires Category(req, config.prefix).value != EMPTY_SEARCH
    requires Category(req, config.prefix).value != SUCCESSFUL_SEARCH
    ensures var after := ApplyAll(meters, Emissions(req, config, Completed(d)));
      var hits := config.searchHelper.value.hits;
      if hits == None || hits.value == 0 then
        Values(after, EMPTY_SEARCH) == Values(meters, EMPTY_SEARCH) + [d]
        && Values(after, SUCCESSFUL_SEARCH) == Values(meters, SUCCESSFUL_SEARCH)
      else
        Values(after, SUCCESSFUL_SEARCH) == Values(meters, SUCCESSFUL_SEARCH) + [d]
        && Values(after, EMPTY_SEARCH) == Values(meters, EMPTY_SEARCH)
  {
    var e := Emissions(req, config, Completed(d));
    FixedNamesDistinct(config.project);
    ApplyAllValues(meters, e, EMPTY_SEARCH);
    RecordedPerName(req, config, d, EMPTY_SEARCH);
    ApplyAllValues(meters, e, SUCCESSFUL_SEARCH);
    RecordedPerName(req, config, d, SUCCESSFUL_SEARCH);
  }

  /** Without a search helper neither search meter changes, nor comes into being. */
  lemma NoSearchNoSearchTimers(req: HttpRequest, config: PageConfig, outcome: ChainOutcome, meters: map<string, seq<int>>)
    requires config.searchHelper == None
    requires Category(req, config.prefix) != Some(EMPTY_SEARCH)
    requires Category(req, config.prefix) != Some(SUCCESSFUL_SEARCH)
    ensures var after := ApplyAll(meters, Emissions(req, config, outcome));
      Values(after, EMPTY_SEARCH) == Values(meters, EMPTY_SEARCH)
      && Values(after, SUCCESSFUL_SEARCH) == Values(meters, SUCCESSFUL_SEARCH)
      && (EMPTY_SEARCH in after <==> EMPTY_SEARCH in meters)
      && (SUCCESSFUL_SEARCH in after <==> SUCCESSFUL_SEARCH in meters)
  {
    var e := Emissions(req, config, outcome);
    FixedNamesDistinct(config.project);
    ApplyAllFrame(meters, e, EMPTY_SEARCH);
    ApplyAllFrame(meters, e, SUCCESSFUL_SEARCH);
  }

  /**
   * Only the filter's own meter names can change: "requests", "*", the
   * category, the bound project's meter and the two search meters.
   */
  lemma OnlyFilterMetersChange(req: HttpRequest, config: PageConfig, outcome: ChainOutcome, meters: map<string, seq<int>>, name: string)
    requires name != REQUESTS_METRIC && name != GENERIC_TIMER
    requires name != EMPTY_SEARCH && name != SUCCESSFUL_SEARCH
    requires Category(req, config.prefix) != Some(name)
    requires config.project.Some? ==> name != ViewingOf(config.project.value)
    ensures Values(ApplyAll(meters, Emissions(req, config, outcome)), name) == Values(meters, name)
    ensures name in ApplyAll(meters, Emissions(req, config, outcome)) <==> name in meters
  {
    var e := Emissions(req, config, outcome);
    assert name !in Names(e) by {
      forall i | 0 <= i < |e| ensures e[i].name != name {
        if config.searchHelper.Some? && i == |e| - 1 {
          assert e[i].name == SearchTimer(config.searchHelper.value);
        }
      }
    }
    ApplyAllFrame(meters, e, name);
  }

  /**
   * A counted request makes three to five recordings; the first records 1
   * under "requests" and every other one records the same duration.
   */
  lemma OneDurationPerRequest(req: HttpRequest, config: PageConfig, d: int)
    requires Category(req, config.prefix).Some?
    ensures var e := Emissions(req, config, Completed(d));
      3 <= |e| <= 5
      && e[0] == Recording(REQUESTS_METRIC, 1)
      && forall i :: 1 <= i < |e| ==> e[i].value == d
  {
  }
}
