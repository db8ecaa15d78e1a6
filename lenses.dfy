/**
 * The annotation scan of `provideCodeLenses`: the controller name taken from the
 * file name by `/app\/controllers\/(.*?)_controller\.rb/`, the action taken from
 * each line by `/def\s+(\w+)/`, and the annotation built for a line whose action
 * has a route.
 */
module Lenses {
  import opened Wrappers
  import opened JsText
  import opened Routes
  import opened Views

  const ControllersDir := "app/controllers/"
  const ControllerSuffix := "_controller.rb"

  // ---------------------------------------------------------------------------
  // The controller regular expression

  predicate NoTerminatorIn(s: string, lo: int, hi: int)
    requires 0 <= lo && hi <= |s|
  {
    forall k :: lo <= k < hi ==> !IsLineTerminator(s[k])
  }

  /**
   * The regular expression matches `s` at offset `i` with `c` as its group:
   * `app/controllers/`, then `c` (no line terminator, since `.` refuses them),
   * then `_controller.rb`.
   */
  predicate MatchAt(s: string, i: int, c: string) {
    && 0 <= i
    && StartsAt(s, i, ControllersDir + c + ControllerSuffix)
    && NoTerminatorIn(c, 0, |c|)
  }

  lemma MatchAtParts(s: string, i: nat, c: string)
    ensures MatchAt(s, i, c) <==>
      && StartsAt(s, i, ControllersDir)
      && StartsAt(s, i + |ControllersDir| + |c|, ControllerSuffix)
      && NoTerminatorIn(s, i + |ControllersDir|, i + |ControllersDir| + |c|)
      && s[i + |ControllersDir|..i + |ControllersDir| + |c|] == c
  {
    var d, x := |ControllersDir|, |ControllerSuffix|;
    if i + d + |c| + x <= |s| {
      var w := s[i..i + d + |c| + x];
      assert w[..d] == s[i..i + d];
      assert w[d..d + |c|] == s[i + d..i + d + |c|];
      assert w[d + |c|..] == s[i + d + |c|..i + d + |c| + x];
      if StartsAt(s, i, ControllersDir + c + ControllerSuffix) {
        assert w == ControllersDir + c + ControllerSuffix;
        assert w[d..d + |c|] == c;
      }
      if && StartsAt(s, i, ControllersDir)
         && StartsAt(s, i + d + |c|, ControllerSuffix)
         && s[i + d..i + d + |c|] == c {
        assert w == w[..d] + w[d..d + |c|] + w[d + |c|..];
      }
    }
  }

  /**
   * The lazy `(.*?)_controller\.rb` from offset `j`: the first offset at which
   * `_controller.rb` follows, as long as no line terminator comes first.
   */
  function LazyEnd(s: string, j: nat): (e: Option<nat>)
    requires j <= |s|
    ensures e.Some? ==> j <= e.value <= |s| && StartsAt(s, e.value, ControllerSuffix)
    ensures e.Some? ==> NoTerminatorIn(s, j, e.value)
    ensures e.Some? ==> forall m :: j <= m < e.value ==> !StartsAt(s, m, ControllerSuffix)
    ensures e.None? ==> forall m :: j <= m <= |s| && StartsAt(s, m, ControllerSuffix) ==> !NoTerminatorIn(s, j, m)
    decreases |s| - j
  {
    if StartsAt(s, j, ControllerSuffix) then Some(j)
    else if j < |s| && !IsLineTerminator(s[j]) then LazyEnd(s, j + 1)
    else None
  }

  /**
   * `c` is the group of the match `exec` reports when it starts looking at offset
   * `from`: the match at `i` is the leftmost from `from`, and `c` the shortest
   * group there (the group is lazy).
   */
  ghost predicate FirstMatch(s: string, from: int, i: int, c: string) {
    && from <= i
    && MatchAt(s, i, c)
    && (forall i', c' :: from <= i' < i ==> !MatchAt(s, i', c'))
    && (forall c' :: MatchAt(s, i, c') ==> |c| <= |c'|)
  }

  /** The match that starts at `from`, if any, is the one the lazy group finds. */
  lemma MatchHere(s: string, from: nat)
    requires from <= |s|
    ensures var here := if StartsAt(s, from, ControllersDir) then LazyEnd(s, from + |ControllersDir|) else None;
      && (here.Some? ==> FirstMatch(s, from, from, s[from + |ControllersDir|..here.value]))
      && (here.None? ==> forall c :: !MatchAt(s, from, c))
  {
    var d := |ControllersDir|;
    var here := if StartsAt(s, from, ControllersDir) then LazyEnd(s, from + d) else None;
    if here.Some? {
      var c := s[from + d..here.value];
      MatchAtParts(s, from, c);
      forall c' | MatchAt(s, from, c') ensures |c| <= |c'| {
        MatchAtParts(s, from, c');
      }
    } else {
      forall c | MatchAt(s, from, c) ensures false {
        MatchAtParts(s, from, c);
      }
    }
  }

  /** The leftmost match at or after offset `from`, with the shortest group there. */
  function ControllerFrom(s: string, from: nat): (r: Option<string>)
    requires from <= |s|
    ensures r.Some? ==> exists i :: FirstMatch(s, from, i, r.value)
    ensures r.None? ==> forall i, c :: from <= i ==> !MatchAt(s, i, c)
    decreases |s| - from
  {
    var here := if StartsAt(s, from, ControllersDir) then LazyEnd(s, from + |ControllersDir|) else None;
    MatchHere(s, from);
    if here.Some? then
      Some(s[from + |ControllersDir|..here.value])
    else if from < |s| then
      var r := ControllerFrom(s, from + 1);
      assert r.Some? ==> exists i :: FirstMatch(s, from, i, r.value) by {
        if r.Some? {
          var i :| FirstMatch(s, from + 1, i, r.value);
          assert FirstMatch(s, from, i, r.value);
        }
      }
      r
    else
      assert forall i, c :: from <= i && MatchAt(s, i, c) ==> i == from;
      None
  }

  /**
   * `/app\/controllers\/(.*?)_controller\.rb/.exec(fileName)![1]`, with `None` where
   * `exec` finds no match and the source's `![1]` throws.
   */
  function ExtractController(fileName: string): (r: Option<string>)
    ensures r.Some? ==> exists i :: FirstMatch(fileName, 0, i, r.value)
    ensures r.None? <==> forall i, c :: !MatchAt(fileName, i, c)
  {
    ControllerFrom(fileName, 0)
  }

  // ---------------------------------------------------------------------------
  // The action regular expression

  /**
   * `/def\s+(\w+)/` matches `line` at offset `i` with its group at `[m, n)`:
   * `def`, then one or more `\s` characters up to `m`, then the word characters
   * of `[m, n)`.
   */
  predicate DefShape(line: string, i: int, m: int, n: int) {
    && 0 <= i && i + 3 < m < n <= |line|
    && StartsAt(line, i, "def")
    && (forall k :: i + 3 <= k < m ==> IsSpace(line[k]))
    && (forall k :: m <= k < n ==> IsWordChar(line[k]))
  }

  /** The line holds `def`, whitespace and a word somewhere. */
  ghost predicate ContainsDef(line: string) {
    exists i, m, n :: DefShape(line, i, m, n)
  }

  /** The match at `i` has `action` as its group: the whole word after the whitespace. */
  predicate Captures(line: string, i: int, m: int, n: int, action: string) {
    && DefShape(line, i, m, n)
    && action == line[m..n]
    && (n == |line| || !IsWordChar(line[n]))
  }

  /** The match at `i` is the leftmost at or after `from`, and its group is `action`. */
  ghost predicate FirstDef(line: string, from: int, i: int, m: int, n: int, action: string) {
    && from <= i
    && Captures(line, i, m, n, action)
    && forall i', m', n' :: from <= i' < i ==> !DefShape(line, i', m', n')
  }

  /** The group of the match at offset `i`, if the expression matches there (greedy `\s+` and `\w+`). */
  function DefAt(line: string, i: nat): (r: Option<string>)
    requires i <= |line|
    ensures r.Some? <==> exists m, n :: DefShape(line, i, m, n)
    ensures r.Some? ==> exists m, n :: Captures(line, i, m, n, r.value)
  {
    if StartsAt(line, i, "def") then
      var m := SpanEnd(line, i + 3, IsSpace);
      var n := if m > i + 3 then SpanEnd(line, m, IsWordChar) else m;
      assert forall m', n' :: DefShape(line, i, m', n') ==> m' == m && n' <= n by {
        forall m', n' | DefShape(line, i, m', n') ensures m' == m && n' <= n {
          assert !IsSpace(line[m']);
        }
      }
      if m > i + 3 && n > m then
        assert Captures(line, i, m, n, line[m..n]);
        Some(line[m..n])
      else None
    else None
  }

  /** A match at `from` itself is the leftmost one from there. */
  lemma FirstDefHere(line: string, from: nat, action: string)
    requires exists m, n :: Captures(line, from, m, n, action)
    ensures exists i, m, n :: FirstDef(line, from, i, m, n, action)
  {
    var m, n :| Captures(line, from, m, n, action);
    assert FirstDef(line, from, from, m, n, action);
  }

  /** With no match at `from`, the leftmost match from `next == from + 1` is the leftmost from `from`. */
  lemma FirstDefLater(line: string, from: nat, next: nat, action: string)
    requires next == from + 1
    requires forall m, n :: !DefShape(line, from, m, n)
    requires exists i, m, n :: FirstDef(line, next, i, m, n, action)
    ensures exists i, m, n :: FirstDef(line, from, i, m, n, action)
  {
    var i, m, n :| FirstDef(line, next, i, m, n, action);
    assert FirstDef(line, from, i, m, n, action);
  }

  /** The leftmost match at or after offset `from`. */
  function DefFrom(line: string, from: nat): (r: Option<string>)
    requires from <= |line|
    ensures r.None? <==> forall i, m, n :: from <= i ==> !DefShape(line, i, m, n)
    ensures r.Some? ==> exists i, m, n :: FirstDef(line, from, i, m, n, r.value)
    decreases |line| - from
  {
    var here := DefAt(line, from);
    if here.Some? then
      FirstDefHere(line, from, here.value);
      here
    else if from < |line| then
      var r := DefFrom(line, from + 1);
      if r.Some? then
        FirstDefLater(line, from, from + 1, r.value);
        r
      else
        r
    else
      None
  }

  /**
   * `/def\s+(\w+)/.exec(lineText)` with its group: the word after the leftmost
   * `def` that is followed by whitespace and a word, taken whole.
   */
  function DefAction(line: string): (r: Option<string>)
    ensures r.Some? <==> ContainsDef(line)
    ensures r.Some? ==> exists i, m, n :: FirstDef(line, 0, i, m, n, r.value)
  {
    DefFrom(line, 0)
  }

  // ---------------------------------------------------------------------------
  // Annotations

  const Globe := "\U{1F310}"
  const Eye := "\U{1F441}\U{FE0F}"
  const OpenViewCommand := "extension.openView"

  /** What a `vscode.Command` holds here; absent `arguments` and `tooltip` are `None`. */
  datatype Command = Command(title: string, command: string, arguments: Option<seq<string>>, tooltip: Option<string>)

  /** A code lens anchored at the start of line `line`. */
  datatype CodeLens = CodeLens(line: nat, command: Command)

  /** The label `🌐 url | pattern | verb`. */
  function Title(route: Route): (r: string)
    ensures StartsAt(r, 0, Globe + " " + route.url + " | ")
    ensures EndsWith(r, " | " + route.verb)
  {
    Globe + " " + route.url + " | " + route.pattern + " | " + route.verb
  }

  /**
   * What one line contributes in `provideCodeLenses`: nothing when it has no
   * `def` or its action has no route, one lens at that line when it has, and
   * `Err` for what throws: the matcher reaching a route without an action, or
   * `path.join` given the undefined workspace path of a document outside every
   * workspace folder.
   */
  function LineLens(lineText: string, lineIndex: nat, routes: seq<Route>, controller: string,
                    workspacePath: Option<string>, fileExists: string -> bool): (o: Result<Option<CodeLens>>)
    ensures DefAction(lineText).None? ==> o == Ok(None)
    ensures o.Ok? && o.value.Some? ==> o.value.value.line == lineIndex
    ensures HasRoute(lineText, routes, controller) && workspacePath.None? ==> o.Err?
  {
    match DefAction(lineText)
    case None => Ok(None)
    case Some(action) =>
      match FindRouteForAction(routes, action, controller)
      case Err(e) => Err(e)
      case Ok(None) => Ok(None)
      case Ok(Some(route)) =>
        if workspacePath.None? then Err("path.join received undefined")
        else
          var viewFilePath := GetViewFilePath(workspacePath.value, route.controller, route.action.value, fileExists);
          if viewFilePath != "" then
            Ok(Some(CodeLens(lineIndex, Command(Title(route) + " " + Eye, OpenViewCommand, Some([viewFilePath]),
                                                Some("navigate to view: " + controller + "#" + action)))))
          else
            Ok(Some(CodeLens(lineIndex, Command(Title(route), "", None, None))))
  }

  /** What each line contributes, line by line. */
  function Outcomes(lines: seq<string>, routes: seq<Route>, controller: string,
                    workspacePath: Option<string>, fileExists: string -> bool): (os: seq<Result<Option<CodeLens>>>)
    ensures |os| == |lines|
    ensures forall i :: 0 <= i < |lines| ==> os[i] == LineLens(lines[i], i, routes, controller, workspacePath, fileExists)
  {
    seq(|lines|, i requires 0 <= i < |lines| => LineLens(lines[i], i, routes, controller, workspacePath, fileExists))
  }

  /** The lenses of the outcomes, in order, or the first exception. */
  function Collect(os: seq<Result<Option<CodeLens>>>): (r: Result<seq<CodeLens>>)
    ensures r.Ok? ==> |r.value| <= |os|
  {
    if os == [] then Ok([])
    else
      var n := |os| - 1;
      match Collect(os[..n])
      case Err(e) => Err(e)
      case Ok(lenses) =>
        match os[n]
        case Err(e) => Err(e)
        case Ok(None) => Ok(lenses)
        case Ok(Some(lens)) => Ok(lenses + [lens])
  }

  /** What the lines of a document give: their lenses in line order, or the first line's exception. */
  function Scan(lines: seq<string>, routes: seq<Route>, controller: string,
                workspacePath: Option<string>, fileExists: string -> bool): (r: Result<seq<CodeLens>>)
    ensures r.Ok? ==> |r.value| <= |lines|
  {
    Collect(Outcomes(lines, routes, controller, workspacePath, fileExists))
  }

  /** Once a prefix of the outcomes throws, the whole collection throws the same way. */
  lemma {:induction false} CollectErrPersists(os: seq<Result<Option<CodeLens>>>, k: nat)
    requires k <= |os| && Collect(os[..k]).Err?
    ensures Collect(os) == Collect(os[..k])
    decreases |os| - k
  {
    if k < |os| {
      var n := |os| - 1;
      assert os[..n][..k] == os[..k];
      CollectErrPersists(os[..n], k);
    } else {
      assert os[..k] == os;
    }
  }

  /**
   * The body of the per-line callback of `provideCodeLenses`: match the line
   * against the `def` expression, look its action up, locate the view and build
   * the lens (`Ok(None)` when the line gets none, `Err` when the callback throws).
   */
  method LensForLine(lineText: string, lineIndex: nat, routes: seq<Route>, controller: string,
                     workspacePath: Option<string>, fileExists: string -> bool)
    returns (outcome: Result<Option<CodeLens>>)
    ensures outcome == LineLens(lineText, lineIndex, routes, controller, workspacePath, fileExists)
  {
    var defMatch := DefAction(lineText);
    if defMatch.None? {
      return Ok(None);
    }
    var action := defMatch.value;
    var route := FindRouteForAction(routes, action, controller);
    if route.Err? {
      return Err(route.reason);
    }
    if route.value.None? {
      return Ok(None);
    }
    var found := route.value.value;
    if workspacePath.None? {
      return Err("path.join received undefined");
    }
    var viewFilePath := GetViewFilePath(workspacePath.value, found.controller, found.action.value, fileExists);
    var command := Command(Title(found), "", None, None);
    if viewFilePath != "" {
      command := command.(title := Title(found) + " " + Eye);
      command := command.(command := OpenViewCommand);
      command := command.(arguments := Some([viewFilePath]));
      command := command.(tooltip := Some("navigate to view: " + controller + "#" + action));
    }
    return Ok(Some(CodeLens(lineIndex, command)));
  }

  /**
   * The line loop of `provideCodeLenses`: each line's lens is pushed in turn, and
   * the first line whose callback throws ends the scan with its exception.
   */
  method ScanLines(lines: seq<string>, routes: seq<Route>, controller: string,
                   workspacePath: Option<string>, fileExists: string -> bool)
    returns (r: Result<seq<CodeLens>>)
    ensures r == Scan(lines, routes, controller, workspacePath, fileExists)
  {
    ghost var os := Outcomes(lines, routes, controller, workspacePath, fileExists);
    var codeLenses: seq<CodeLens> := [];
    var lineIndex := 0;
    while lineIndex < |lines|
      invariant 0 <= lineIndex <= |lines|
      invariant Collect(os[..lineIndex]) == Ok(codeLenses)
    {
      assert os[..lineIndex + 1][..lineIndex] == os[..lineIndex];
      var outcome := LensForLine(lines[lineIndex], lineIndex, routes, controller, workspacePath, fileExists);
      assert os[..lineIndex + 1][lineIndex] == os[lineIndex] == outcome;
      match outcome {
        case Err(e) =>
          CollectErrPersists(os, lineIndex + 1);
          return Err(e);
        case Ok(None) =>
        case Ok(Some(lens)) =>
          codeLenses := codeLenses + [lens];
      }
      lineIndex := lineIndex + 1;
    }
    assert os[..|lines|] == os;
    return Ok(codeLenses);
  }

  /** The route `findRouteForAction` returns for the action of `lineText`, when there is one. */
  predicate HasRoute(lineText: string, routes: seq<Route>, controller: string) {
    && DefAction(lineText).Some?
    && var found := FindRouteForAction(routes, DefAction(lineText).value, controller);
       found.Ok? && found.value.Some?
  }

  /**
   * A line gets a lens exactly when it holds `def`, whitespace and a word, the
   * route table has a route for that word, and the document has a workspace path.
   */
  lemma LensIff(lineText: string, lineIndex: nat, routes: seq<Route>, controller: string,
                workspacePath: Option<string>, fileExists: string -> bool)
    ensures var o := LineLens(lineText, lineIndex, routes, controller, workspacePath, fileExists);
      (o.Ok? && o.value.Some?) <==> ContainsDef(lineText) && HasRoute(lineText, routes, controller) && workspacePath.Some?
  {
  }

  /**
   * The lens of a line sits at that line and is labelled `🌐 url | pattern | verb`
   * from the route found; it opens the view, with the view's path as its one
   * argument, exactly when a view file exists, and its label then ends in ` 👁️`.
   */
  lemma LensContents(lineText: string, lineIndex: nat, routes: seq<Route>, controller: string,
                     workspacePath: Option<string>, fileExists: string -> bool)
    requires HasRoute(lineText, routes, controller) && workspacePath.Some?
    ensures var o := LineLens(lineText, lineIndex, routes, controller, workspacePath, fileExists);
      var route := FindRouteForAction(routes, DefAction(lineText).value, controller).value.value;
      var base := ViewBase(workspacePath.value, route.controller, route.action.value);
      var hasView := fileExists(base + HtmlErb) || fileExists(base + JsonJbuilder);
      && o.Ok? && o.value.Some?
      && o.value.value.line == lineIndex
      && StartsAt(o.value.value.command.title, 0, Title(route))
      && (o.value.value.command.command == OpenViewCommand <==> hasView)
      && (hasView ==> o.value.value.command.title == Title(route) + " " + Eye
                      && o.value.value.command.arguments
                         == Some([GetViewFilePath(workspacePath.value, route.controller, route.action.value, fileExists)])
                      && fileExists(o.value.value.command.arguments.value[0])
                      && o.value.value.command.tooltip
                         == Some("navigate to view: " + controller + "#" + DefAction(lineText).value))
      && (!hasView ==> o.value.value.command == Command(Title(route), "", None, None))
  {
    var o := LineLens(lineText, lineIndex, routes, controller, workspacePath, fileExists);
    var route := FindRouteForAction(routes, DefAction(lineText).value, controller).value.value;
    var p := GetViewFilePath(workspacePath.value, route.controller, route.action.value, fileExists);
    assert p != "" ==> o.value.value.command.arguments == Some([p]);
    assert (Title(route) + " " + Eye)[..|Title(route)|] == Title(route);
  }

  /** The outcome of line `i` is a lens at line `i`, when it is a lens. */
  ghost predicate Anchored(os: seq<Result<Option<CodeLens>>>) {
    forall i :: 0 <= i < |os| && os[i].Ok? && os[i].value.Some? ==> os[i].value.value.line == i
  }

  lemma {:induction false} CollectLenses(os: seq<Result<Option<CodeLens>>>)
    requires Anchored(os) && Collect(os).Ok?
    ensures forall k :: 0 <= k < |Collect(os).value| ==>
      Collect(os).value[k].line < |os| && os[Collect(os).value[k].line] == Ok(Some(Collect(os).value[k]))
    ensures forall k, m :: 0 <= k < m < |Collect(os).value| ==> Collect(os).value[k].line < Collect(os).value[m].line
    ensures forall i :: 0 <= i < |os| ==> os[i].Ok? && (os[i].value.Some? ==> os[i].value.value in Collect(os).value)
  {
    if os != [] {
      var n := |os| - 1;
      assert forall i :: 0 <= i < n ==> os[..n][i] == os[i];
      CollectLenses(os[..n]);
    }
  }

  lemma {:induction false} CollectThrows(os: seq<Result<Option<CodeLens>>>)
    ensures Collect(os).Err? <==> exists i :: 0 <= i < |os| && os[i].Err?
  {
    if os != [] {
      var n := |os| - 1;
      assert forall i :: 0 <= i < n ==> os[..n][i] == os[i];
      CollectThrows(os[..n]);
    }
  }

  /** `lens` is the lens of the line it is anchored at. */
  predicate LensOfLine(lines: seq<string>, routes: seq<Route>, controller: string,
                       workspacePath: Option<string>, fileExists: string -> bool, lens: CodeLens) {
    lens.line < |lines| && LineLens(lines[lens.line], lens.line, routes, controller, workspacePath, fileExists) == Ok(Some(lens))
  }

  /**
   * A successful scan holds, in increasing line order, exactly one lens per line
   * that gets one, and each is that line's lens.
   */
  lemma ScanLenses(lines: seq<string>, routes: seq<Route>, controller: string,
                   workspacePath: Option<string>, fileExists: string -> bool)
    requires Scan(lines, routes, controller, workspacePath, fileExists).Ok?
    ensures var ls := Scan(lines, routes, controller, workspacePath, fileExists).value;
      && (forall k :: 0 <= k < |ls| ==> LensOfLine(lines, routes, controller, workspacePath, fileExists, ls[k]))
      && (forall k, m :: 0 <= k < m < |ls| ==> ls[k].line < ls[m].line)
      && (forall i :: 0 <= i < |lines| ==> LineLens(lines[i], i, routes, controller, workspacePath, fileExists).Ok?)
      && (forall i :: 0 <= i < |lines| && LineLens(lines[i], i, routes, controller, workspacePath, fileExists).value.Some? ==>
            LineLens(lines[i], i, routes, controller, workspacePath, fileExists).value.value in ls)
  {
    var os := Outcomes(lines, routes, controller, workspacePath, fileExists);
    assert Anchored(os);
    CollectLenses(os);
  }

  /** The scan throws exactly when some line throws. */
  lemma ScanThrows(lines: seq<string>, routes: seq<Route>, controller: string,
                   workspacePath: Option<string>, fileExists: string -> bool)
    ensures Scan(lines, routes, controller, workspacePath, fileExists).Err?
        <==> exists i :: 0 <= i < |lines| && LineLens(lines[i], i, routes, controller, workspacePath, fileExists).Err?
  {
    CollectThrows(Outcomes(lines, routes, controller, workspacePath, fileExists));
  }

  /** Outcomes that are all "no lens" collect to no lenses. */
  lemma {:induction false} CollectNone(os: seq<Result<Option<CodeLens>>>)
    requires forall i :: 0 <= i < |os| ==> os[i] == Ok(None)
    ensures Collect(os) == Ok([])
  {
    if os != [] {
      var n := |os| - 1;
      assert forall i :: 0 <= i < n ==> os[..n][i] == os[i];
      CollectNone(os[..n]);
    }
  }

  /** With no routes, no line gets a lens and none throws. */
  lemma ScanNoRoutes(lines: seq<string>, controller: string, workspacePath: Option<string>, fileExists: string -> bool)
    ensures Scan(lines, [], controller, workspacePath, fileExists) == Ok([])
  {
    CollectNone(Outcomes(lines, [], controller, workspacePath, fileExists));
  }
}
