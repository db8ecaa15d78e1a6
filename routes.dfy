/**
 * The route table: the `Route` record, the parser that turns the filtered
 * `rails routes` dump into routes (`parseRoutes`), and the case-insensitive
 * matcher (`findRouteForAction`).
 */
module Routes {
  import opened Wrappers
  import opened JsText

  /**
   * One row of the route table. `action` is `None` when the last column holds no
   * `#`: the source destructures `controllerAction.split('#')` and leaves `action`
   * undefined in that case.
   */
  datatype Route = Route(verb: string, url: string, pattern: string, controller: string, action: Option<string>)

  /**
   * `c` and `a` are what destructuring `ca.split('#')` into two names gives:
   * `c` is the text before the first `#`, `a` the text between the first and the
   * second `#` (or up to the end), and absent when `ca` has no `#`.
   */
  ghost predicate SplitsInto(ca: string, c: string, a: Option<string>) {
    && '#' !in c
    && match a {
         case None => ca == c
         case Some(x) => '#' !in x && (ca == c + "#" + x || StartsAt(ca, 0, c + "#" + x + "#"))
       }
  }

  /** `controllerAction.split('#')` destructured into `[controller, action]`. */
  function SplitControllerAction(ca: string): (r: (string, Option<string>))
    ensures SplitsInto(ca, r.0, r.1)
  {
    var parts := SplitOn(ca, '#');
    if |parts| == 1 then
      (parts[0], None)
    else
      var tail := JoinWith(parts[1..], "#");
      assert ca == parts[0] + "#" + tail;
      assert |parts| > 2 ==> tail == parts[1] + "#" + JoinWith(parts[2..], "#");
      assert StartsAt(ca, 0, parts[0] + "#" + parts[1] + "#") <== |parts| > 2 by {
        if |parts| > 2 {
          assert ca == (parts[0] + "#" + parts[1] + "#") + JoinWith(parts[2..], "#");
        }
      }
      (parts[0], Some(parts[1]))
  }

  function RouteOf(verb: string, url: string, pattern: string, controllerAction: string): Route {
    var (controller, action) := SplitControllerAction(controllerAction);
    Route(verb, url, pattern, controller, action)
  }

  /**
   * The route one line of the dump contributes: five fields read as
   * `[_, verb, url, pattern, controller#action]`, four as
   * `[_, url, pattern, controller#action]` with an empty verb, anything else none.
   */
  function ParseLine(line: string): Option<Route> {
    var t := SplitWs(line);
    if |t| == 5 then Some(RouteOf(t[1], t[2], t[3], t[4]))
    else if |t| == 4 then Some(RouteOf("", t[1], t[2], t[3]))
    else None
  }

  /** The routes of `lines`, one per accepted line, in line order. */
  function ParseLines(lines: seq<string>): (routes: seq<Route>)
    ensures |routes| <= |lines|
  {
    if lines == [] then []
    else
      var init := ParseLines(lines[..|lines| - 1]);
      match ParseLine(lines[|lines| - 1])
      case Some(r) => init + [r]
      case None => init
  }

  /** What `parseRoutes(text)` returns. */
  function ParsedRoutes(text: string): (routes: seq<Route>)
    ensures |routes| <= |SplitOn(text, '\n')|
  {
    ParseLines(SplitOn(text, '\n'))
  }

  /** `parseRoutes`: walk the lines of the dump and push one route per accepted line. */
  method ParseRoutes(routesOutput: string) returns (routes: seq<Route>)
    ensures routes == ParsedRoutes(routesOutput)
  {
    routes := [];
    var lines := SplitOn(routesOutput, '\n');
    var i := 0;
    while i < |lines|
      invariant 0 <= i <= |lines|
      invariant routes == ParseLines(lines[..i])
    {
      var line := lines[i];
      var tokens := SplitWs(line);
      var count := |tokens|;
      assert lines[..i + 1][..i] == lines[..i];
      if count == 5 {
        var verb, url, pattern, controllerAction := tokens[1], tokens[2], tokens[3], tokens[4];
        var (controller, action) := SplitControllerAction(controllerAction);
        routes := routes + [Route(verb, url, pattern, controller, action)];
      } else if count == 4 {
        var url, pattern, controllerAction := tokens[1], tokens[2], tokens[3];
        var (controller, action) := SplitControllerAction(controllerAction);
        var verb := "";
        routes := routes + [Route(verb, url, pattern, controller, action)];
      }
      i := i + 1;
    }
    assert lines[..|lines|] == lines;
  }

  /** A line with exactly five fields gives the route `[_, verb, url, pattern, controller#action]`. */
  lemma ParseFiveFields(line: string)
    requires |SplitWs(line)| == 5
    ensures ParseLine(line).Some?
    ensures var t, r := SplitWs(line), ParseLine(line).value;
      r.verb == t[1] && r.url == t[2] && r.pattern == t[3] && SplitsInto(t[4], r.controller, r.action)
  {
  }

  /** A line with exactly four fields gives the route `[_, url, pattern, controller#action]`, verb empty. */
  lemma ParseFourFields(line: string)
    requires |SplitWs(line)| == 4
    ensures ParseLine(line).Some?
    ensures var t, r := SplitWs(line), ParseLine(line).value;
      r.verb == "" && r.url == t[1] && r.pattern == t[2] && SplitsInto(t[3], r.controller, r.action)
  {
  }

  /** Lines with any other number of fields, the empty line among them, give nothing. */
  lemma ParseOtherFields(line: string)
    requires |SplitWs(line)| != 4 && |SplitWs(line)| != 5
    ensures ParseLine(line) == None
  {
  }

  /** Empty output, which `split('\n')` turns into one empty line, gives no routes. */
  lemma ParseEmptyOutput()
    ensures ParsedRoutes("") == []
  {
    assert SplitOn("", '\n') == [""];
    assert SplitWs("") == [""];
  }

  /**
   * A row without a leading name column has one field too few: `GET /posts
   * posts#index` splits into three fields and is skipped.
   */
  lemma ParseThreeFieldRow()
    ensures ParseLine("GET /posts posts#index") == None
  {
    var t, seps := ["GET", "/posts", "posts#index"], [" ", " "];
    assert Interleave(t, seps) == "GET /posts posts#index";
    SplitWsInterleave(t, seps);
  }

  /** `controller#action` splits back into its two halves. */
  lemma SplitControllerActionJoin(controller: string, action: string)
    requires '#' !in controller && '#' !in action
    ensures SplitControllerAction(controller + "#" + action) == (controller, Some(action))
  {
    assert JoinWith([controller, action], "#") == controller + "#" + action;
    SplitOnJoin([controller, action], '#');
  }

  /**
   * A row `name verb url pattern controller#action` of the dump, its columns
   * separated by any runs of `\s`, parses back into its fields.
   */
  lemma ParseRowWithVerb(name: string, verb: string, url: string, pattern: string, controller: string, action: string,
                         seps: seq<string>)
    requires |seps| == 4 && SpaceRuns(seps)
    requires NoSpace(name) && NoSpace(verb) && NoSpace(url) && NoSpace(pattern) && NoSpace(controller) && NoSpace(action)
    requires verb != "" && url != "" && pattern != ""
    requires '#' !in controller && '#' !in action
    ensures ParseLine(Interleave([name, verb, url, pattern, controller + "#" + action], seps))
         == Some(Route(verb, url, pattern, controller, Some(action)))
  {
    var t := [name, verb, url, pattern, controller + "#" + action];
    NoSpaceConcat(controller, action);
    SplitWsInterleave(t, seps);
    SplitControllerActionJoin(controller, action);
  }

  /**
   * A row `name url pattern controller#action` of the dump, its columns separated
   * by any runs of `\s`, parses with an empty verb.
   */
  lemma ParseRowWithoutVerb(name: string, url: string, pattern: string, controller: string, action: string,
                            seps: seq<string>)
    requires |seps| == 3 && SpaceRuns(seps)
    requires NoSpace(name) && NoSpace(url) && NoSpace(pattern) && NoSpace(controller) && NoSpace(action)
    requires url != "" && pattern != ""
    requires '#' !in controller && '#' !in action
    ensures ParseLine(Interleave([name, url, pattern, controller + "#" + action], seps))
         == Some(Route("", url, pattern, controller, Some(action)))
  {
    var t := [name, url, pattern, controller + "#" + action];
    NoSpaceConcat(controller, action);
    SplitWsInterleave(t, seps);
    SplitControllerActionJoin(controller, action);
  }

  lemma NoSpaceConcat(c: string, a: string)
    requires NoSpace(c) && NoSpace(a)
    ensures NoSpace(c + "#" + a)
  {
    var s := c + "#" + a;
    forall i | 0 <= i < |s| ensures !IsSpace(s[i]) {
      if i < |c| { assert s[i] == c[i]; }
      else if i > |c| { assert s[i] == a[i - |c| - 1]; }
    }
  }

  /** Parsing is line by line: the routes of `a + b` are those of `a`, then those of `b`. */
  lemma {:induction false} ParseLinesConcat(a: seq<string>, b: seq<string>)
    ensures ParseLines(a + b) == ParseLines(a) + ParseLines(b)
    decreases |b|
  {
    if b == [] {
      assert a + b == a;
    } else {
      var b0, last := b[..|b| - 1], b[|b| - 1];
      assert a + b == (a + b0) + [last];
      assert b == b0 + [last];
      ParseLinesConcat(a, b0);
      ParseLinesSnoc(a + b0, last);
      ParseLinesSnoc(b0, last);
    }
  }

  /** One more line adds its route, if it has one, at the end. */
  lemma ParseLinesSnoc(init: seq<string>, line: string)
    ensures ParseLines(init + [line])
         == ParseLines(init) + (if ParseLine(line).Some? then [ParseLine(line).value] else [])
  {
    assert (init + [line])[..|init|] == init;
  }

  /** The routes of `a + "\n" + b` are the routes of `a` followed by those of `b`. */
  lemma ParsedRoutesConcat(a: string, b: string)
    ensures ParsedRoutes(a + "\n" + b) == ParsedRoutes(a) + ParsedRoutes(b)
  {
    SplitOnConcat(a, b, '\n');
    ParseLinesConcat(SplitOn(a, '\n'), SplitOn(b, '\n'));
  }

  /** The lines from which `parseRoutes` builds a route. */
  predicate Accepted(line: string) {
    ParseLine(line).Some?
  }

  /** The indices, in increasing order, of the elements of `xs` that satisfy `ok`. */
  function IndicesWhere(xs: seq<string>, ok: string -> bool): (idx: seq<nat>)
    ensures forall k :: 0 <= k < |idx| ==> idx[k] < |xs| && ok(xs[idx[k]])
    ensures forall k, m :: 0 <= k < m < |idx| ==> idx[k] < idx[m]
    ensures forall i :: 0 <= i < |xs| && ok(xs[i]) ==> i in idx
  {
    if xs == [] then []
    else
      var n := |xs| - 1;
      var init := IndicesWhere(xs[..n], ok);
      assert forall i :: 0 <= i < n ==> xs[..n][i] == xs[i];
      if ok(xs[n]) then init + [n] else init
  }

  /** The indices of the lines `parseRoutes` accepts, in increasing order. */
  function AcceptedLines(lines: seq<string>): (idx: seq<nat>)
    ensures forall k :: 0 <= k < |idx| ==> idx[k] < |lines| && ParseLine(lines[idx[k]]).Some?
    ensures forall k, m :: 0 <= k < m < |idx| ==> idx[k] < idx[m]
    ensures forall i :: 0 <= i < |lines| && ParseLine(lines[i]).Some? ==> i in idx
  {
    IndicesWhere(lines, Accepted)
  }

  /**
   * `parseRoutes` keeps exactly one route per accepted line, in line order: the
   * k-th route is the route of the k-th accepted line.
   */
  lemma {:induction false} ParseLinesAccepted(lines: seq<string>)
    ensures |ParseLines(lines)| == |AcceptedLines(lines)|
    ensures forall k :: 0 <= k < |ParseLines(lines)| ==>
      ParseLine(lines[AcceptedLines(lines)[k]]) == Some(ParseLines(lines)[k])
  {
    if lines != [] {
      var n := |lines| - 1;
      ParseLinesAccepted(lines[..n]);
      assert forall i :: 0 <= i < n ==> lines[..n][i] == lines[i];
      assert AcceptedLines(lines) ==
        AcceptedLines(lines[..n]) + (if Accepted(lines[n]) then [n] else []);
    }
  }

  /** A line of four or five fields holds a `#` in its last field. */
  predicate HashInLastField(line: string) {
    var t := SplitWs(line);
    (|t| == 4 || |t| == 5) ==> '#' in t[|t| - 1]
  }

  /** Every route carries an action when every accepted line's last field holds a `#`. */
  lemma {:induction false} ParsedActionsPresent(lines: seq<string>)
    requires forall i :: 0 <= i < |lines| ==> HashInLastField(lines[i])
    ensures forall k :: 0 <= k < |ParseLines(lines)| ==> ParseLines(lines)[k].action.Some?
  {
    if lines != [] {
      var n := |lines| - 1;
      assert forall i :: 0 <= i < n ==> lines[..n][i] == lines[i];
      ParsedActionsPresent(lines[..n]);
      assert lines == lines[..n] + [lines[n]];
      ParseLinesSnoc(lines[..n], lines[n]);
      LineActionPresent(lines[n]);
    }
  }

  /** The route of a line whose last field holds a `#` has an action. */
  lemma LineActionPresent(line: string)
    requires HashInLastField(line)
    ensures ParseLine(line).Some? ==> ParseLine(line).value.action.Some?
  {
    var t := SplitWs(line);
    if |t| == 5 {
      ParseFiveFields(line);
    } else if |t| == 4 {
      ParseFourFields(line);
    }
  }

  /**
   * The test `findRouteForAction` applies to one route: controller and action equal
   * the inputs after lower-casing. It is only asked of a route that has an action.
   */
  predicate Matches(route: Route, action: string, controller: string)
    requires route.action.Some?
  {
    Lower(route.controller) == Lower(controller) && Lower(route.action.value) == Lower(action)
  }

  /** The search passes route `j`: it has an action, and that action does not match. */
  predicate Passes(route: Route, action: string, controller: string) {
    route.action.Some? && !Matches(route, action, controller)
  }

  /** `k` is the first route at which the search stops, by matching or by throwing. */
  predicate StopsAt(routes: seq<Route>, action: string, controller: string, k: int) {
    && 0 <= k < |routes|
    && !Passes(routes[k], action, controller)
    && forall j :: 0 <= j < k ==> Passes(routes[j], action, controller)
  }

  /**
   * `findRouteForAction(routes, action, controller)`: `Array.find` with the
   * lower-casing test. `Ok(Some(r))` is the first match, `Ok(None)` no match, and
   * `Err` the `TypeError` thrown when the search reaches a route whose action is
   * undefined before it finds a match.
   */
  function FindRouteForAction(routes: seq<Route>, action: string, controller: string): (r: Result<Option<Route>>)
    ensures r.Ok? && r.value.Some? ==> exists k :: StopsAt(routes, action, controller, k) && routes[k] == r.value.value
    ensures r.Ok? && r.value.Some? ==> r.value.value.action.Some? && Matches(r.value.value, action, controller)
    ensures r.Err? ==> exists k :: StopsAt(routes, action, controller, k) && routes[k].action.None?
    ensures r == Ok(None) <==> forall j :: 0 <= j < |routes| ==> Passes(routes[j], action, controller)
  {
    if |routes| == 0 then Ok(None)
    else if routes[0].action.None? then
      assert StopsAt(routes, action, controller, 0);
      Err("route.action is undefined")
    else if Matches(routes[0], action, controller) then
      assert StopsAt(routes, action, controller, 0);
      Ok(Some(routes[0]))
    else
      var r := FindRouteForAction(routes[1..], action, controller);
      assert forall j :: 0 < j < |routes| ==> routes[j] == routes[1..][j - 1];
      assert forall k :: StopsAt(routes[1..], action, controller, k) ==> StopsAt(routes, action, controller, k + 1);
      r
  }

  /** The search stops at one place only. */
  lemma StopsAtUnique(routes: seq<Route>, action: string, controller: string, k: int)
    requires StopsAt(routes, action, controller, k)
    ensures forall m :: StopsAt(routes, action, controller, m) ==> m == k
  {
  }

  /** A route at which the search stops by matching is the route returned. */
  lemma FindsFirstMatch(routes: seq<Route>, action: string, controller: string, k: int)
    requires StopsAt(routes, action, controller, k) && routes[k].action.Some?
    ensures FindRouteForAction(routes, action, controller) == Ok(Some(routes[k]))
  {
    StopsAtUnique(routes, action, controller, k);
  }

  /** The matcher only ever looks at lower-cased inputs. */
  lemma {:induction false} FindIgnoresCase(routes: seq<Route>, a1: string, c1: string, a2: string, c2: string)
    requires Lower(a1) == Lower(a2) && Lower(c1) == Lower(c2)
    ensures FindRouteForAction(routes, a1, c1) == FindRouteForAction(routes, a2, c2)
  {
    if |routes| > 0 {
      FindIgnoresCase(routes[1..], a1, c1, a2, c2);
    }
  }

  /** The matcher cannot throw when every route carries an action. */
  lemma FindTotalWithActions(routes: seq<Route>, action: string, controller: string)
    requires forall k :: 0 <= k < |routes| ==> routes[k].action.Some?
    ensures FindRouteForAction(routes, action, controller).Ok?
  {
  }

  /** `("Posts", "Index")` finds the route of `posts#index`. */
  lemma FindMixedCaseExample(verb: string, url: string, pattern: string)
    ensures var route := Route(verb, url, pattern, "posts", Some("index"));
      FindRouteForAction([route], "Index", "Posts") == Ok(Some(route))
  {
    var route := Route(verb, url, pattern, "posts", Some("index"));
    assert Lower("Posts") == "posts";
    assert Lower("posts") == "posts";
    assert Lower("Index") == "index";
    assert Lower("index") == "index";
    assert Matches(route, "Index", "Posts");
  }
}
