/** Locating the view template of a controller action (`getViewFilePath`). */
module Views {
  import opened JsText

  const HtmlErb := ".html.erb"
  const JsonJbuilder := ".json.jbuilder"

  /** `path.join(workspacePath, 'app', 'views', controller, action)`, without normalisation. */
  function ViewBase(workspacePath: string, controller: string, action: string): (base: string)
    ensures base == workspacePath + "/app/views/" + controller + "/" + action
  {
    var parts := [workspacePath, "app", "views", controller, action];
    assert JoinWith(parts[3..], "/") == controller + "/" + action;
    assert JoinWith(parts[1..], "/") == "app/views/" + controller + "/" + action by {
      assert parts[1..][1..] == parts[2..] && parts[2..][1..] == parts[3..];
    }
    JoinWith(parts, "/")
  }

  /**
   * `getViewFilePath`: the template view if it exists, else the JSON builder view
   * if that exists, else the empty string. `fileExists` stands for the file
   * system check.
   */
  function GetViewFilePath(workspacePath: string, controller: string, action: string, fileExists: string -> bool): (path: string)
    ensures var base := ViewBase(workspacePath, controller, action);
      && (path == "" <==> !fileExists(base + HtmlErb) && !fileExists(base + JsonJbuilder))
      && (fileExists(base + HtmlErb) ==> path == base + HtmlErb)
      && (path != "" ==> fileExists(path) && (path == base + HtmlErb || path == base + JsonJbuilder))
  {
    var viewFilePath := ViewBase(workspacePath, controller, action);
    if fileExists(viewFilePath + HtmlErb) then viewFilePath + HtmlErb
    else if fileExists(viewFilePath + JsonJbuilder) then viewFilePath + JsonJbuilder
    else ""
  }
}
