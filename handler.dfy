/**
 * The helpers every embedded-HTTP endpoint shares: storing a whole-URI match
 * in the request, turning its two capture groups into a workspace (and
 * dataset) from the data repository, resolving a spatial reference, and
 * `%key%` substitution in line-based templates.
 */
module Handler {
  import opened Wrappers
  import opened JavaText

  // ---------------------------------------------------------------------------
  // Requests, patterns and HTTP errors
  // ---------------------------------------------------------------------------

  datatype Status = BadRequest | NotFound

  /** The exception a handler raises to answer with an HTTP error status. */
  datatype HttpError = HttpError(status: Status, message: string)

  /** The capture groups of a whole-URI match: the workspace, then the dataset. */
  datatype Groups = Groups(first: Option<string>, second: Option<string>)

  /**
   * A compiled URI pattern: whether it matches a whole string, and the groups
   * it captures when it does.
   */
  datatype Pattern = Pattern(matches: string -> bool, groups: string -> Groups)

  /** Keys of the request context; `MatcherKey` stands for `Matcher.class`. */
  datatype ContextKey = MatcherKey | Named(name: string)

  /** Values of the request context: a stored match, or anything else a handler put there. */
  datatype ContextValue = Matcher(groups: Groups) | Other(description: string)

  class Request {
    const uri: string
    const parms: map<string, string>
    var context: map<ContextKey, ContextValue>

    constructor (uri: string, parms: map<string, string>)
      ensures this.uri == uri && this.parms == parms && context == map[]
    {
      this.uri := uri;
      this.parms := parms;
      context := map[];
    }
  }

  predicate HasMatch(request: Request)
    reads request
  {
    MatcherKey in request.context && request.context[MatcherKey].Matcher?
  }

  function StoredGroups(request: Request): Groups
    reads request
    requires HasMatch(request)
  {
    request.context[MatcherKey].groups
  }

  /**
   * `match`: when the pattern matches the whole URI, the match is stored under
   * the matcher key and the answer is true; otherwise the context is left alone.
   */
  method Match(request: Request, pattern: Pattern) returns (matched: bool)
    modifies request
    ensures matched <==> pattern.matches(request.uri)
    ensures matched ==> request.context == old(request.context)[MatcherKey := Matcher(pattern.groups(request.uri))]
    ensures matched ==> HasMatch(request) && StoredGroups(request) == pattern.groups(request.uri)
    ensures !matched ==> request.context == old(request.context)
  {
    if pattern.matches(request.uri) {
      request.context := request.context[MatcherKey := Matcher(pattern.groups(request.uri))];
      return true;
    }
    return false;
  }

  // ---------------------------------------------------------------------------
  // createPath
  // ---------------------------------------------------------------------------

  /** A Java string in a concatenation: `null` prints as "null". */
  function Printed(s: Option<string>): string {
    if s.Some? then s.value else "null"
  }

  /** `createPath`: group 1, then "/" and group 2 when group 2 is present. */
  function CreatePath(request: Request): string
    reads request
    requires HasMatch(request)
  {
    var groups := StoredGroups(request);
    Printed(groups.first) + (if groups.second.None? then "" else "/" + groups.second.value)
  }

  /** Splits a path at its first '/' into the head and, when there is one, the rest. */
  function SplitAtSlash(path: string): (string, Option<string>) {
    if |path| == 0 then ("", None)
    else if path[0] == '/' then ("", Some(path[1..]))
    else
      var (head, rest) := SplitAtSlash(path[1..]);
      ([path[0]] + head, rest)
  }

  lemma {:induction false} SplitAtSlashOfJoined(head: string, rest: Option<string>)
    requires '/' !in head
    ensures SplitAtSlash(head + (if rest.None? then "" else "/" + rest.value)) == (head, rest)
  {
    var tail := if rest.None? then "" else "/" + rest.value;
    if |head| > 0 {
      assert (head + tail)[1..] == head[1..] + tail;
      SplitAtSlashOfJoined(head[1..], rest);
      assert [head[0]] + head[1..] == head;
    } else {
      assert head + tail == tail;
    }
  }

  /**
   * The path `createPath` builds gives both groups back when the workspace
   * holds no '/'; a missing workspace group prints as "null".
   */
  lemma CreatePathRecoversGroups(request: Request)
    requires HasMatch(request)
    ensures StoredGroups(request).first.Some? && '/' !in StoredGroups(request).first.value ==>
              SplitAtSlash(CreatePath(request)) == (StoredGroups(request).first.value, StoredGroups(request).second)
    ensures StoredGroups(request).first.None? ==> SplitAtSlash(CreatePath(request)).0 == "null"
  {
    var groups := StoredGroups(request);
    if groups.first.None? {
      assert "null"[0] != '/' && "null"[1] != '/' && "null"[2] != '/' && "null"[3] != '/';
      SplitAtSlashOfJoined("null", groups.second);
    } else if '/' !in groups.first.value {
      SplitAtSlashOfJoined(groups.first.value, groups.second);
    }
  }

  // ---------------------------------------------------------------------------
  // findWorkspace and findWorkspaceOrDataset
  // ---------------------------------------------------------------------------

  datatype Dataset = Dataset(name: string)

  /** A workspace and the datasets it holds, by name. */
  datatype Workspace = Workspace(name: string, datasets: map<string, Dataset>)

  /** The data repository's workspaces, by key. */
  type Repository = map<string, Workspace>

  /** A workspace and, when the URI named one, a dataset inside it. */
  datatype Resource = Resource(workspace: Workspace, dataset: Option<Dataset>)

  /**
   * `findWorkspace`: never answers without a workspace; a missing one is a
   * 404 naming the key.
   */
  function FindWorkspace(key: string, repo: Repository): (r: Result<Workspace, HttpError>)
    ensures r.Ok? <==> key in repo
    ensures r.Ok? ==> r.value == repo[key]
    ensures r.Err? ==> r.error == HttpError(NotFound, "No such workspace: " + key)
  {
    if key !in repo then Err(HttpError(NotFound, "No such workspace: " + key)) else Ok(repo[key])
  }

  /**
   * `findWorkspaceOrDataset`: nothing when group 1 is absent; otherwise the
   * workspace (its 404 comes first) and, when group 2 is present, the dataset
   * of that name inside it or a 404 naming both.
   */
  function FindWorkspaceOrDataset(request: Request, repo: Repository): Result<Option<Resource>, HttpError>
    reads request
    requires HasMatch(request)
  {
    var groups := StoredGroups(request);
    if groups.first.None? then Ok(None)
    else
      var first := groups.first.value;
      match FindWorkspace(first, repo)
      case Err(e) => Err(e)
      case Ok(ws) =>
        if groups.second.None? then Ok(Some(Resource(ws, None)))
        else if groups.second.value !in ws.datasets then
          Err(HttpError(NotFound, "no such dataset: " + groups.second.value + " in workspace: " + first))
        else Ok(Some(Resource(ws, Some(ws.datasets[groups.second.value]))))
  }

  /** Without a workspace group there is no resource, whatever group 2 holds. */
  lemma ResolveWithoutWorkspace(request: Request, repo: Repository)
    requires HasMatch(request) && StoredGroups(request).first.None?
    ensures FindWorkspaceOrDataset(request, repo) == Ok(None)
  {
  }

  /** A missing workspace is reported before any dataset is looked up. */
  lemma ResolveMissingWorkspace(request: Request, repo: Repository)
    requires HasMatch(request) && StoredGroups(request).first.Some?
    requires StoredGroups(request).first.value !in repo
    ensures FindWorkspaceOrDataset(request, repo)
            == Err(HttpError(NotFound, "No such workspace: " + StoredGroups(request).first.value))
  {
  }

  /** A missing dataset is a 404 naming the dataset and its workspace. */
  lemma ResolveMissingDataset(request: Request, repo: Repository)
    requires HasMatch(request)
    requires StoredGroups(request).first.Some? && StoredGroups(request).second.Some?
    requires StoredGroups(request).first.value in repo
    requires StoredGroups(request).second.value !in repo[StoredGroups(request).first.value].datasets
    ensures FindWorkspaceOrDataset(request, repo)
            == Err(HttpError(NotFound, "no such dataset: " + StoredGroups(request).second.value
                                       + " in workspace: " + StoredGroups(request).first.value))
  {
  }

  /**
   * Soundness and completeness: a resource is returned exactly when group 1
   * and everything the groups name exist, and it is the one they name.
   */
  lemma ResolveNamedResource(request: Request, repo: Repository)
    requires HasMatch(request) && StoredGroups(request).first.Some?
    ensures var groups := StoredGroups(request);
            var r := FindWorkspaceOrDataset(request, repo);
            && (r.Ok? <==> groups.first.value in repo
                           && (groups.second.Some? ==> groups.second.value in repo[groups.first.value].datasets))
            && (r.Ok? ==> r.value.Some? && r.value.value.workspace == repo[groups.first.value])
            && (r.Ok? ==> (r.value.value.dataset.Some? <==> groups.second.Some?))
            && (r.Ok? && groups.second.Some? ==>
                  r.value.value.dataset.value == repo[groups.first.value].datasets[groups.second.value])
            && (r.Err? ==> r.error.status == NotFound)
  {
  }

  // ---------------------------------------------------------------------------
  // parseCRS
  // ---------------------------------------------------------------------------

  /** What the spatial-reference lookup does with an identifier. */
  datatype CrsLookup<C> = Found(crs: C) | UnsupportedParameter | UnknownAuthorityCode | IllegalState

  /**
   * `parseCRS(String)`: no identifier means no CRS; otherwise the lookup's
   * CRS, or a 400 whose message names the identifier.
   */
  function ParseCRS<C>(srs: Option<string>, lookup: string -> CrsLookup<C>): Result<Option<C>, HttpError> {
    if srs.None? then Ok(None)
    else match lookup(srs.value)
      case Found(crs) => Ok(Some(crs))
      case UnsupportedParameter => Err(HttpError(BadRequest, "Cannot locate provided srs: " + srs.value))
      case UnknownAuthorityCode => Err(HttpError(BadRequest, "Cannot locate provided authority: " + srs.value))
      case IllegalState => Err(HttpError(BadRequest, "Cannot locate provided srs: " + srs.value))
  }

  /** `parseCRS(Properties)`: the `srs` parameter, when there is one. */
  function ParseCRSParameter<C>(parms: map<string, string>, lookup: string -> CrsLookup<C>): Result<Option<C>, HttpError> {
    ParseCRS(if "srs" in parms then Some(parms["srs"]) else None, lookup)
  }

  /** The `srs` parameter is what gets resolved; without it there is no CRS. */
  lemma ParseCRSParameterReads<C>(parms: map<string, string>, lookup: string -> CrsLookup<C>)
    ensures "srs" !in parms ==> ParseCRSParameter(parms, lookup) == Ok(None)
    ensures "srs" in parms ==> ParseCRSParameter(parms, lookup) == ParseCRS(Some(parms["srs"]), lookup)
  {
  }

  /** A request without an identifier gets no CRS, whatever the lookup would say. */
  lemma ParseCRSAbsent<C>(lookup: string -> CrsLookup<C>, other: string -> CrsLookup<C>)
    ensures ParseCRS(None, lookup) == ParseCRS(None, other) == Ok(None)
  {
  }

  /**
   * Every lookup failure becomes a 400 carrying the identifier; only an
   * unknown authority code is reported as such.
   */
  lemma ParseCRSFailures<C>(srs: string, lookup: string -> CrsLookup<C>)
    ensures ParseCRS(Some(srs), lookup).Ok? <==> lookup(srs).Found?
    ensures lookup(srs).Found? ==> ParseCRS(Some(srs), lookup) == Ok(Some(lookup(srs).crs))
    ensures lookup(srs) == UnknownAuthorityCode ==>
              ParseCRS(Some(srs), lookup) == Err(HttpError(BadRequest, "Cannot locate provided authority: " + srs))
    ensures lookup(srs) == UnsupportedParameter || lookup(srs) == IllegalState ==>
              ParseCRS(Some(srs), lookup) == Err(HttpError(BadRequest, "Cannot locate provided srs: " + srs))
  {
  }

  // ---------------------------------------------------------------------------
  // renderTemplate
  // ---------------------------------------------------------------------------

  /** The `%key%` token a template variable replaces. */
  function Token(key: string): string {
    "%" + key + "%"
  }

  /** One template line after replacing each variable's token, in the map's iteration order. */
  function Substitute(line: string, vars: seq<(string, string)>): string
    decreases |vars|
  {
    if |vars| == 0 then line else Substitute(Replace(line, Token(vars[0].0), vars[0].1), vars[1..])
  }

  /** Lines, each followed by "\n". */
  function Unlines(lines: seq<string>): string {
    if |lines| == 0 then "" else lines[0] + "\n" + Unlines(lines[1..])
  }

  /** Every template line after substitution, in order. */
  function SubstituteLines(lines: seq<string>, vars: seq<(string, string)>): seq<string> {
    seq(|lines|, i requires 0 <= i < |lines| => Substitute(lines[i], vars))
  }

  lemma {:induction false} UnlinesSnoc(lines: seq<string>, line: string)
    ensures Unlines(lines + [line]) == Unlines(lines) + line + "\n"
  {
    if |lines| > 0 {
      assert (lines + [line])[1..] == lines[1..] + [line];
      UnlinesSnoc(lines[1..], line);
    } else {
      assert lines + [line] == [line];
    }
  }

  /**
   * `renderTemplate` on the lines the resource yields: each line in turn has
   * every variable's token replaced and is appended with a "\n".
   */
  method RenderTemplate(lines: seq<string>, vars: seq<(string, string)>) returns (text: string)
    ensures text == Unlines(SubstituteLines(lines, vars))
  {
    text := "";
    ghost var done: seq<string> := [];
    var i := 0;
    while i < |lines|
      invariant 0 <= i <= |lines|
      invariant done == SubstituteLines(lines[..i], vars)
      invariant text == Unlines(done)
    {
      var line := lines[i];
      var j := 0;
      while j < |vars|
        invariant 0 <= j <= |vars|
        invariant Substitute(lines[i], vars) == Substitute(line, vars[j..])
      {
        assert vars[j..][1..] == vars[j + 1..];
        line := Replace(line, Token(vars[j].0), vars[j].1);
        j := j + 1;
      }
      UnlinesSnoc(done, line);
      text := text + line + "\n";
      done := done + [line];
      assert lines[..i + 1] == lines[..i] + [lines[i]];
      i := i + 1;
    }
    assert lines[..i] == lines;
  }

  lemma {:induction false} UnlinesIsJoin(lines: seq<string>)
    ensures Unlines(lines) == Join(lines + [""], '\n')
  {
    if |lines| > 0 {
      UnlinesIsJoin(lines[1..]);
      assert (lines + [""])[1..] == lines[1..] + [""];
    }
  }

  lemma {:induction false} SubstituteKeepsOutNewlines(line: string, vars: seq<(string, string)>)
    requires '\n' !in line
    requires forall k :: 0 <= k < |vars| ==> '\n' !in vars[k].1
    ensures '\n' !in Substitute(line, vars)
    decreases |vars|
  {
    if |vars| > 0 {
      var next := Replace(line, Token(vars[0].0), vars[0].1);
      if '\n' in next {
        ReplaceCharacters(line, Token(vars[0].0), vars[0].1, '\n');
      }
      SubstituteKeepsOutNewlines(next, vars[1..]);
    }
  }

  /**
   * When neither the template lines nor the values hold a newline, the output
   * has exactly one "\n"-terminated line per input line, in the same order,
   * each the substituted input line.
   */
  lemma RenderedLines(lines: seq<string>, vars: seq<(string, string)>)
    requires forall i :: 0 <= i < |lines| ==> '\n' !in lines[i]
    requires forall k :: 0 <= k < |vars| ==> '\n' !in vars[k].1
    ensures SplitAll(Unlines(SubstituteLines(lines, vars)), '\n') == SubstituteLines(lines, vars) + [""]
  {
    var out := SubstituteLines(lines, vars);
    forall i | 0 <= i < |out| ensures '\n' !in out[i] {
      SubstituteKeepsOutNewlines(lines[i], vars);
    }
    UnlinesIsJoin(out);
    SplitAllJoin(out + [""], '\n');
  }

  /** With no variables the output is the input lines, each followed by "\n". */
  lemma RenderWithoutVariables(lines: seq<string>)
    ensures Unlines(SubstituteLines(lines, [])) == Unlines(lines)
  {
    assert SubstituteLines(lines, []) == lines;
  }

  /** A variable whose token occurs nowhere in the line leaves it as it was. */
  lemma SubstituteAbsentTokens(line: string, vars: seq<(string, string)>)
    requires forall k :: 0 <= k < |vars| ==> !Contains(line, Token(vars[k].0))
    ensures Substitute(line, vars) == line
    decreases |vars|
  {
    if |vars| > 0 {
      ReplaceWithoutOccurrence(line, Token(vars[0].0), vars[0].1);
      SubstituteAbsentTokens(line, vars[1..]);
    }
  }

  /** A template line naming a variable gets its value: "Hi %name%!" with name = Acme. */
  lemma SubstituteExample()
    ensures Substitute("Hi %name%!", [("name", "Acme")]) == "Hi Acme!"
  {
    assert Token("name") == "%name%";
    ReplaceExample();
    assert [("name", "Acme")][1..] == [];
  }

  /** The whole rendered template of that line. */
  lemma RenderExample()
    ensures Unlines(SubstituteLines(["Hi %name%!"], [("name", "Acme")])) == "Hi Acme!\n"
  {
    SubstituteExample();
    assert SubstituteLines(["Hi %name%!"], [("name", "Acme")]) == ["Hi Acme!"];
  }
}
