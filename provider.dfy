/**
 * `RubyMethodCodeLensProvider`: the per-(workspace, controller) route cache, the
 * per-document lens cache, and `provideCodeLenses`, which ties them to the scan.
 */
module Provider {
  import opened Wrappers
  import opened JsText
  import opened Routes
  import opened Views
  import opened Lenses

  /**
   * A document as the provider sees it: its URI string, its file name, its text,
   * and the file-system path of the workspace folder holding it (`undefined` when
   * none does).
   */
  datatype Document = Document(uri: string, fileName: string, text: string, workspacePath: Option<string>)

  /** What `runRailsRoutesCommand` settles to: its standard output, or a rejection. */
  datatype Fetched = Stdout(text: string) | ExecFailed

  /** One call of `runRailsRoutesCommand`. */
  datatype FetchRequest = FetchRequest(workspacePath: Option<string>, controller: string)

  const RoutesWarning := "An error occurred while retrieving routes information."
  const LensesWarning := "An error occurred while generating code lenses."

  /** `${workspacePath}` in a template literal: `undefined` prints as the word. */
  function WorkspaceText(workspacePath: Option<string>): (r: string)
    ensures workspacePath.Some? ==> r == workspacePath.value
    ensures r == "undefined" <==> workspacePath == None || workspacePath == Some("undefined")
  {
    match workspacePath
    case None => "undefined"
    case Some(p) => p
  }

  /** The route cache key `${workspacePath}:${controller}`. */
  function CacheKey(workspacePath: Option<string>, controller: string): (key: string)
    ensures StartsAt(key, 0, WorkspaceText(workspacePath) + ":")
    ensures EndsWith(key, ":" + controller)
  {
    WorkspaceText(workspacePath) + ":" + controller
  }

  /** Only documents whose file name ends in `_controller.rb` are scanned. */
  predicate IsControllerFile(fileName: string)
    ensures IsControllerFile(fileName) <==>
      |fileName| >= |ControllerSuffix| && fileName == fileName[..|fileName| - |ControllerSuffix|] + ControllerSuffix
  {
    EndsWith(fileName, ControllerSuffix)
  }

  /** Every name ending in `_controller.rb` is a controller file name. */
  lemma ControllerFileOf(stem: string)
    ensures IsControllerFile(stem + ControllerSuffix)
  {
    var f := stem + ControllerSuffix;
    assert f[..|f| - |ControllerSuffix|] == stem;
  }

  /** The cache keys of the fetches made. */
  ghost function FetchedKeys(fetches: seq<FetchRequest>): set<string> {
    if fetches == [] then {}
    else
      var last := fetches[|fetches| - 1];
      FetchedKeys(fetches[..|fetches| - 1]) + {CacheKey(last.workspacePath, last.controller)}
  }

  /**
   * The result of one `getRoutes` call on cache `cache`: the routes returned, the
   * cache afterwards, whether the fetcher ran and whether a warning was shown.
   */
  datatype Lookup = Lookup(routes: seq<Route>, cache: map<string, seq<Route>>, fetched: bool, warned: bool)

  /**
   * `getRoutes`: a hit returns the cached routes and fetches nothing; a miss
   * fetches, and either caches and returns the parsed output or, when the fetch
   * fails, shows the warning and returns no routes, caching nothing. Every entry
   * already cached stays as it was.
   */
  function LookupRoutes(cache: map<string, seq<Route>>, workspacePath: Option<string>, controller: string,
                        fetch: (Option<string>, string) -> Fetched): (l: Lookup)
    ensures var key := CacheKey(workspacePath, controller);
      && (forall k :: k in cache ==> k in l.cache && l.cache[k] == cache[k])
      && l.cache.Keys <= cache.Keys + {key}
      && (l.fetched <==> key !in cache)
      && (key in cache ==> l.routes == cache[key] && !l.warned)
      && (key !in cache && fetch(workspacePath, controller).Stdout? ==>
            l.routes == ParsedRoutes(fetch(workspacePath, controller).text) && l.cache == cache[key := l.routes])
      && (l.warned <==> key !in cache && fetch(workspacePath, controller).ExecFailed?)
      && (l.warned ==> l.routes == [] && l.cache == cache)
      && (key in l.cache <==> !l.warned)
      && (key in l.cache ==> l.routes == l.cache[key])
  {
    var key := CacheKey(workspacePath, controller);
    if key in cache then Lookup(cache[key], cache, false, false)
    else
      match fetch(workspacePath, controller)
      case Stdout(out) =>
        var routes := ParsedRoutes(out);
        Lookup(routes, cache[key := routes], true, false)
      case ExecFailed => Lookup([], cache, true, true)
  }

  /**
   * The result of one `provideCodeLenses` call: the lenses returned, both caches
   * afterwards, the fetcher calls made and the warnings shown.
   */
  datatype Provision = Provision(lenses: seq<CodeLens>, lensCache: map<string, seq<CodeLens>>,
                                 routeCache: map<string, seq<Route>>, fetches: seq<FetchRequest>,
                                 warnings: seq<string>)

  /**
   * `provideCodeLenses` on the two caches: at most one fetch and two warnings,
   * every cached route list kept, and the lens cache unchanged or given the
   * returned lenses under the document's URI.
   */
  function Provide(lensCache: map<string, seq<CodeLens>>, routeCache: map<string, seq<Route>>, document: Document,
                   fetch: (Option<string>, string) -> Fetched, fileExists: string -> bool): (p: Provision)
    ensures |p.fetches| <= 1 && |p.warnings| <= 1
    ensures forall k :: k in routeCache ==> k in p.routeCache && p.routeCache[k] == routeCache[k]
    ensures p.lensCache == lensCache || p.lensCache == lensCache[document.uri := p.lenses]
    ensures document.uri in lensCache ==> p.lenses == lensCache[document.uri] && p.fetches == [] && p.warnings == []
  {
    if document.uri in lensCache then
      Provision(lensCache[document.uri], lensCache, routeCache, [], [])
    else if !IsControllerFile(document.fileName) then
      Provision([], lensCache, routeCache, [], [])
    else
      match ExtractController(document.fileName)
      case None => Provision([], lensCache, routeCache, [], [LensesWarning])
      case Some(controller) => ProvideFor(lensCache, routeCache, document, controller, fetch, fileExists)
  }

  /** The part of `Provide` after the controller name is known. */
  function ProvideFor(lensCache: map<string, seq<CodeLens>>, routeCache: map<string, seq<Route>>, document: Document,
                      controller: string, fetch: (Option<string>, string) -> Fetched, fileExists: string -> bool)
    : (p: Provision)
    ensures p.fetches == [FetchRequest(document.workspacePath, controller)]
        <==> CacheKey(document.workspacePath, controller) !in routeCache
    ensures |p.fetches| <= 1 && |p.warnings| <= 1
    ensures forall k :: k in routeCache ==> k in p.routeCache && p.routeCache[k] == routeCache[k]
    ensures p.lensCache == lensCache || p.lensCache == lensCache[document.uri := p.lenses]
    ensures RoutesWarning in p.warnings <==> p.fetches != [] && fetch(document.workspacePath, controller).ExecFailed?
  {
    var l := LookupRoutes(routeCache, document.workspacePath, controller, fetch);
    var fetched := if l.fetched then [FetchRequest(document.workspacePath, controller)] else [];
    var warned := if l.warned then [RoutesWarning] else [];
    var lines := SplitOn(document.text, '\n');
    assert l.warned ==> Scan(lines, l.routes, controller, document.workspacePath, fileExists) == Ok([]) by {
      if l.warned {
        ScanNoRoutes(lines, controller, document.workspacePath, fileExists);
      }
    }
    match Scan(lines, l.routes, controller, document.workspacePath, fileExists)
    case Ok(lenses) => Provision(lenses, lensCache[document.uri := lenses], l.cache, fetched, warned)
    case Err(_) => Provision([], lensCache, l.cache, fetched, warned + [LensesWarning])
  }

  /**
   * Two keys are equal only for the same workspace text and controller, as long
   * as controller names hold no `:`.
   */
  lemma CacheKeyInjective(w1: Option<string>, c1: string, w2: Option<string>, c2: string)
    requires ':' !in c1 && ':' !in c2
    requires CacheKey(w1, c1) == CacheKey(w2, c2)
    ensures WorkspaceText(w1) == WorkspaceText(w2) && c1 == c2
  {
    var k := CacheKey(w1, c1);
    KeyParts(WorkspaceText(w1), c1, k);
    KeyParts(WorkspaceText(w2), c2, k);
  }

  /** Where the parts of a key `a:c` sit in it. */
  lemma KeyParts(a: string, c: string, k: string)
    requires k == a + ":" + c
    ensures k[..|a|] == a && k[|a|] == ':' && k[|a| + 1..] == c
  {
  }

  /**
   * The key does not separate a workspace path holding `:` from the controller,
   * nor a missing workspace from one whose path is the word `undefined`.
   */
  lemma CacheKeyCollisions()
    ensures CacheKey(Some("a:b"), "c") == CacheKey(Some("a"), "b:c")
    ensures CacheKey(None, "posts") == CacheKey(Some("undefined"), "posts")
  {
  }

  /** After a successful fetch, the next lookup of the same key is served from the cache. */
  lemma LookupThenHit(cache: map<string, seq<Route>>, workspacePath: Option<string>, controller: string,
                      fetch: (Option<string>, string) -> Fetched, fetch2: (Option<string>, string) -> Fetched)
    requires CacheKey(workspacePath, controller) in cache || fetch(workspacePath, controller).Stdout?
    ensures var l := LookupRoutes(cache, workspacePath, controller, fetch);
      LookupRoutes(l.cache, workspacePath, controller, fetch2) == Lookup(l.routes, l.cache, false, false)
  {
  }

  /** A failed fetch leaves the cache as it was, so the next lookup fetches again. */
  lemma LookupRetriesAfterFailure(cache: map<string, seq<Route>>, workspacePath: Option<string>, controller: string,
                                  fetch: (Option<string>, string) -> Fetched, fetch2: (Option<string>, string) -> Fetched)
    requires CacheKey(workspacePath, controller) !in cache && fetch(workspacePath, controller).ExecFailed?
    ensures var l := LookupRoutes(cache, workspacePath, controller, fetch);
      l.cache == cache && l.routes == [] && l.warned && LookupRoutes(l.cache, workspacePath, controller, fetch2).fetched
  {
  }

  /**
   * Once the controller is known, the lens cache either stays as it was, after a
   * line threw and the lenses warning was shown, or gains the returned lenses.
   */
  lemma ProvideForCaching(lensCache: map<string, seq<CodeLens>>, routeCache: map<string, seq<Route>>,
                          document: Document, controller: string,
                          fetch: (Option<string>, string) -> Fetched, fileExists: string -> bool)
    ensures var p := ProvideFor(lensCache, routeCache, document, controller, fetch, fileExists);
      || (p.lensCache == lensCache && p.lenses == [] && LensesWarning in p.warnings)
      || (p.lensCache == lensCache[document.uri := p.lenses] && LensesWarning !in p.warnings)
  {
  }

  /**
   * The lens cache changes only on the path that scans a controller file whose
   * name gives a controller and none of whose lines throws, and then it gains
   * exactly the returned lenses under the document's URI.
   */
  lemma ProvideCaching(lensCache: map<string, seq<CodeLens>>, routeCache: map<string, seq<Route>>, document: Document,
                       fetch: (Option<string>, string) -> Fetched, fileExists: string -> bool)
    ensures var p := Provide(lensCache, routeCache, document, fetch, fileExists);
      && (p.lensCache == lensCache || p.lensCache == lensCache[document.uri := p.lenses])
      && (p.lensCache != lensCache ==>
            document.uri !in lensCache && IsControllerFile(document.fileName)
            && ExtractController(document.fileName).Some? && LensesWarning !in p.warnings)
      && (document.uri in lensCache ==> p == Provision(lensCache[document.uri], lensCache, routeCache, [], []))
      && (!IsControllerFile(document.fileName) && document.uri !in lensCache ==>
            p == Provision([], lensCache, routeCache, [], []))
  {
    var c := ExtractController(document.fileName);
    if document.uri !in lensCache && IsControllerFile(document.fileName) && c.Some? {
      ProvideForCaching(lensCache, routeCache, document, c.value, fetch, fileExists);
    }
  }

  /** Once a document's lenses are cached, asking again returns them and fetches nothing. */
  lemma ProvideTwice(lensCache: map<string, seq<CodeLens>>, routeCache: map<string, seq<Route>>, document: Document,
                     fetch: (Option<string>, string) -> Fetched, fileExists: string -> bool,
                     fetch2: (Option<string>, string) -> Fetched, fileExists2: string -> bool)
    requires document.uri in Provide(lensCache, routeCache, document, fetch, fileExists).lensCache
    ensures var p := Provide(lensCache, routeCache, document, fetch, fileExists);
      Provide(p.lensCache, p.routeCache, document, fetch2, fileExists2) == Provision(p.lenses, p.lensCache, p.routeCache, [], [])
  {
    ProvideCaching(lensCache, routeCache, document, fetch, fileExists);
  }

  /**
   * When the routes command fails for a controller file, the routes warning is
   * shown, no route is cached, and the empty lens list is cached for the
   * document, so later calls show no lenses until the editor changes.
   */
  lemma ProvideAfterFetchFailure(lensCache: map<string, seq<CodeLens>>, routeCache: map<string, seq<Route>>,
                                 document: Document, controller: string,
                                 fetch: (Option<string>, string) -> Fetched, fileExists: string -> bool)
    requires document.uri !in lensCache && IsControllerFile(document.fileName)
    requires ExtractController(document.fileName) == Some(controller)
    requires CacheKey(document.workspacePath, controller) !in routeCache
    requires fetch(document.workspacePath, controller) == ExecFailed
    ensures Provide(lensCache, routeCache, document, fetch, fileExists)
      == Provision([], lensCache[document.uri := []], routeCache,
                   [FetchRequest(document.workspacePath, controller)], [RoutesWarning])
  {
    ScanNoRoutes(SplitOn(document.text, '\n'), controller, document.workspacePath, fileExists);
  }

  class RubyMethodCodeLensProvider {
    var routesCache: map<string, seq<Route>>
    var cachedCodeLenses: map<string, seq<CodeLens>>
    /** Every call of the route fetcher so far. */
    ghost var fetches: seq<FetchRequest>
    /** Every warning shown so far. */
    ghost var warnings: seq<string>

    /** Every cached route list was fetched under its key. */
    ghost predicate Valid()
      reads this`routesCache, this`fetches
    {
      routesCache.Keys <= FetchedKeys(fetches)
    }

    constructor ()
      ensures Valid()
      ensures routesCache == map[] && cachedCodeLenses == map[]
      ensures fetches == [] && warnings == []
    {
      routesCache := map[];
      cachedCodeLenses := map[];
      fetches := [];
      warnings := [];
    }

    /** `getCachedCodeLenses`. */
    method GetCachedCodeLenses(uri: string) returns (r: Option<seq<CodeLens>>)
      ensures r.Some? <==> uri in cachedCodeLenses
      ensures r.Some? ==> r.value == cachedCodeLenses[uri]
    {
      if uri in cachedCodeLenses {
        r := Some(cachedCodeLenses[uri]);
      } else {
        r := None;
      }
    }

    /** `setCachedCodeLenses`. */
    method SetCachedCodeLenses(uri: string, codeLenses: seq<CodeLens>)
      modifies this`cachedCodeLenses
      ensures cachedCodeLenses == old(cachedCodeLenses)[uri := codeLenses]
    {
      cachedCodeLenses := cachedCodeLenses[uri := codeLenses];
    }

    /** `clearCachedCodeLenses`: forget one document's lenses and nothing else. */
    method ClearCachedCodeLenses(uri: string)
      modifies this`cachedCodeLenses
      ensures cachedCodeLenses == old(cachedCodeLenses) - {uri}
      ensures uri !in cachedCodeLenses
      ensures forall u :: u in old(cachedCodeLenses) && u != uri ==> u in cachedCodeLenses && cachedCodeLenses[u] == old(cachedCodeLenses)[u]
    {
      cachedCodeLenses := cachedCodeLenses - {uri};
    }

    /** `updateCodeLenses`, called when the active editor changes to `document`. */
    method UpdateCodeLenses(document: Document)
      modifies this`cachedCodeLenses
      ensures cachedCodeLenses == old(cachedCodeLenses) - {document.uri}
    {
      ClearCachedCodeLenses(document.uri);
    }

    /**
     * `getRoutes`: serve the routes of `controller` from the cache, or fetch, parse
     * and cache them; a failed fetch shows a warning and gives no routes, uncached.
     */
    method GetRoutes(workspacePath: Option<string>, controller: string, fetch: (Option<string>, string) -> Fetched)
      returns (routes: seq<Route>)
      requires Valid()
      modifies this`routesCache, this`fetches, this`warnings
      ensures Valid()
      ensures var l := LookupRoutes(old(routesCache), workspacePath, controller, fetch);
        && routes == l.routes
        && routesCache == l.cache
        && fetches == old(fetches) + (if l.fetched then [FetchRequest(workspacePath, controller)] else [])
        && warnings == old(warnings) + (if l.warned then [RoutesWarning] else [])
    {
      var cacheKey := CacheKey(workspacePath, controller);
      if cacheKey in routesCache {
        return routesCache[cacheKey];
      }
      fetches := fetches + [FetchRequest(workspacePath, controller)];
      assert fetches[..|fetches| - 1] == old(fetches);
      assert FetchedKeys(fetches) == FetchedKeys(old(fetches)) + {cacheKey};
      var stdout := fetch(workspacePath, controller);
      if stdout.ExecFailed? {
        warnings := warnings + [RoutesWarning];
        return [];
      }
      routes := ParseRoutes(stdout.text);
      routesCache := routesCache[cacheKey := routes];
    }

    /**
     * `provideCodeLenses`: the cached lenses of the document if there are any;
     * otherwise, for a controller file, its controller's routes, one lens per
     * `def` line with a route, cached under the document's URI. What throws on
     * the way shows a warning and gives no lenses, uncached.
     */
    method ProvideCodeLenses(document: Document, fetch: (Option<string>, string) -> Fetched, fileExists: string -> bool)
      returns (codeLenses: seq<CodeLens>)
      requires Valid()
      modifies this
      ensures Valid()
      ensures var p := Provide(old(cachedCodeLenses), old(routesCache), document, fetch, fileExists);
        && codeLenses == p.lenses
        && cachedCodeLenses == p.lensCache
        && routesCache == p.routeCache
        && fetches == old(fetches) + p.fetches
        && warnings == old(warnings) + p.warnings
    {
      var cached := GetCachedCodeLenses(document.uri);
      if cached.Some? {
        return cached.value;
      }
      if !IsControllerFile(document.fileName) {
        return [];
      }
      var controller := ExtractController(document.fileName);
      if controller.None? {
        warnings := warnings + [LensesWarning];
        return [];
      }
      codeLenses := ProvideForController(document, controller.value, fetch, fileExists);
    }

    /** The `try` block of `provideCodeLenses`, once the controller name is known. */
    method ProvideForController(document: Document, controller: string,
                                fetch: (Option<string>, string) -> Fetched, fileExists: string -> bool)
      returns (codeLenses: seq<CodeLens>)
      requires Valid()
      modifies this
      ensures Valid()
      ensures var p := ProvideFor(old(cachedCodeLenses), old(routesCache), document, controller, fetch, fileExists);
        && codeLenses == p.lenses
        && cachedCodeLenses == p.lensCache
        && routesCache == p.routeCache
        && fetches == old(fetches) + p.fetches
        && warnings == old(warnings) + p.warnings
    {
      ghost var l := LookupRoutes(routesCache, document.workspacePath, controller, fetch);
      var routes := GetRoutes(document.workspacePath, controller, fetch);
      assert routes == l.routes && routesCache == l.cache;
      codeLenses := ScanAndCache(document, controller, routes, fileExists);
    }

    /**
     * The rest of the `try` block once the routes are known: scan the lines, and
     * cache the lenses under the document's URI, or show a warning if a line threw.
     */
    method ScanAndCache(document: Document, controller: string, routes: seq<Route>, fileExists: string -> bool)
      returns (codeLenses: seq<CodeLens>)
      modifies this`cachedCodeLenses, this`warnings
      ensures var scanned := Scan(SplitOn(document.text, '\n'), routes, controller, document.workspacePath, fileExists);
        && codeLenses == (if scanned.Ok? then scanned.value else [])
        && cachedCodeLenses == (if scanned.Ok? then old(cachedCodeLenses)[document.uri := scanned.value] else old(cachedCodeLenses))
        && warnings == old(warnings) + (if scanned.Ok? then [] else [LensesWarning])
    {
      var lines := SplitOn(document.text, '\n');
      var scanned := ScanLines(lines, routes, controller, document.workspacePath, fileExists);
      if scanned.Err? {
        warnings := warnings + [LensesWarning];
        return [];
      }
      SetCachedCodeLenses(document.uri, scanned.value);
      return scanned.value;
    }
  }
}
