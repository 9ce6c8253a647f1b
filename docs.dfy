/** Serving built documentation: from a request for a project, language,
    version and file, decide between a redirect to the canonical URL and the
    internal path the front-end server is told to send. */
module Docs {
  import opened Wrappers
  import opened Text
  import opened Projects

  /** The documentation type whose pages are built as `<dir>/index.html`. */
  const HTML_DIR := "sphinx_htmldir"

  /** The keyword arguments a canonical documentation URL is reversed from. */
  datatype DocUrl = DocUrl(projectSlug: string, langSlug: string, versionSlug: string, filename: string)

  /** What a documentation request gets: a 404, a redirect (temporary or
      permanent), or a response whose `X-Accel-Redirect` header names the
      file to send. */
  datatype DocResponse =
    | NotFound
    | Redirect(target: DocUrl, permanent: bool)
    | Serve(accelRedirect: string)

  /** None of the substrings that stop `index.html` from being appended:
      static assets, HTML pages, and search-index or inventory files. */
  predicate NoIndexMarkers(filename: string) {
    !Contains(filename, "_static") && !Contains(filename, "html") && !Contains(filename, "inv")
  }

  /** The file name served for a requested path (an empty path is the index
      page; a directory-style path of an HTML-directory project gets
      `index.html` appended as is, without a separator; anything else loses
      its trailing slashes). */
  function ResolveFilename(documentationType: string, filename: string): (r: string)
    ensures filename == "" ==> r == "index.html"
    ensures filename != "" && documentationType == HTML_DIR && NoIndexMarkers(filename) ==>
              r == filename + "index.html"
    ensures filename != "" && !(documentationType == HTML_DIR && NoIndexMarkers(filename)) ==>
              TrailingRemoved(filename, '/', r)
    // a name mentioning "html" is never extended
    ensures filename != "" && Contains(filename, "html") ==> r <= filename
    ensures r == [] || r[|r| - 1] != '/'
    ensures !Absolute(filename) ==> !Absolute(r)
  {
    if filename == "" then "index.html"
    else if documentationType == HTML_DIR && NoIndexMarkers(filename) then filename + "index.html"
    else StripTrailing(filename, '/')
  }

  /** Directory-style names of an HTML-directory project, and names that
      carry a marker, resolved: "setup/" and "setup" become
      "setup/index.html" and "setupindex.html"; "_static/style.css" and
      "searchindex.inv" are served as requested. */
  lemma ResolveFilenameExamples()
    ensures ResolveFilename(HTML_DIR, "setup/") == "setup/" + "index.html"
    ensures ResolveFilename(HTML_DIR, "setup") == "setup" + "index.html"
    ensures ResolveFilename(HTML_DIR, "_static/style.css") == "_static/style.css"
    ensures ResolveFilename(HTML_DIR, "searchindex.inv") == "searchindex.inv"
  {
    forall s | s == "setup/" || s == "setup" ensures NoIndexMarkers(s) {
      AbsentWithoutFirstChar(s, "_static");
      AbsentWithoutFirstChar(s, "html");
      AbsentWithoutFirstChar(s, "inv");
    }
    assert OccursAt("_static/style.css", "_static", 0);
    assert OccursAt("searchindex.inv", "inv", 12);
  }

  /** `os.path.join('/user_builds', slug, 'rtd-builds', version, filename)`. */
  function AccelPath(projectSlug: string, versionSlug: string, filename: string): (r: string)
    ensures Absolute(filename) ==> r == filename
    ensures !Absolute(filename) ==> |filename| <= |r| && r[|r| - |filename|..] == filename
    ensures Absolute(r)
  {
    PathJoin(PathJoin(PathJoin(PathJoin("/user_builds", projectSlug), "rtd-builds"), versionSlug), filename)
  }

  /** A path component with no slash at either end. */
  predicate Segment(s: string) {
    s != "" && s[0] != '/' && s[|s| - 1] != '/'
  }

  /** With ordinary components the internal path is
      `/user_builds/<slug>/rtd-builds/<version>/<filename>`. */
  lemma AccelPathLayout(projectSlug: string, versionSlug: string, filename: string)
    requires Segment(projectSlug) && Segment(versionSlug) && !Absolute(filename)
    ensures AccelPath(projectSlug, versionSlug, filename)
            == "/user_builds" + "/" + projectSlug + "/" + "rtd-builds" + "/" + versionSlug + "/" + filename
  {
  }

  /** A file name that starts with a slash replaces the whole internal path:
      the join keeps only its last absolute component. */
  lemma AccelPathAbsoluteFilename(projectSlug: string, versionSlug: string, filename: string)
    requires Absolute(filename)
    ensures AccelPath(projectSlug, versionSlug, filename) == filename
  {
  }

  /** The project slug a request names: the URL's, or else the one the
      request carries from its host name. */
  function EffectiveSlug(projectSlug: string, requestSlug: string): (r: string)
    ensures r == projectSlug || r == requestSlug
    ensures projectSlug != "" ==> r == projectSlug
    ensures r == "" <==> projectSlug == "" && requestSlug == ""
  {
    if projectSlug == "" then requestSlug else projectSlug
  }

  /** `serve_docs` outside debug mode. Missing URL segments are "". */
  function ServeDocs(projects: seq<Project>, requestSlug: string, langSlug: string,
                     versionSlug: string, filename: string, projectSlug: string): (r: DocResponse)
    ensures r.NotFound? <==>
              forall i :: 0 <= i < |projects| ==> projects[i].slug != EffectiveSlug(projectSlug, requestSlug)
    // a request missing its version or language is never served directly
    ensures versionSlug == "" || langSlug == "" ==> !r.Serve?
    ensures r.Redirect? ==>
              && (versionSlug == "" || langSlug == "")
              && !r.permanent
              && r.target.projectSlug == EffectiveSlug(projectSlug, requestSlug)
              && r.target.langSlug == "en"
              && r.target.filename == filename
              && exists p :: p in projects && p.slug == r.target.projectSlug
                             && r.target.versionSlug == p.defaultVersion
    ensures r.Serve? ==> versionSlug != "" && langSlug != ""
  {
    var slug := EffectiveSlug(projectSlug, requestSlug);
    match FindBySlug(projects, slug)
    case None => NotFound
    case Some(p) =>
      if versionSlug == "" || langSlug == "" then
        Redirect(DocUrl(slug, "en", p.defaultVersion, filename), false)
      else
        Serve(AccelPath(p.slug, versionSlug, ResolveFilename(p.documentationType, filename)))
  }

  /** A complete request for an existing project is served from
      `/user_builds/<slug>/rtd-builds/<version>/`, under the resolved name. */
  lemma ServeDocsServesFromBuildDir(projects: seq<Project>, requestSlug: string, langSlug: string,
                                    versionSlug: string, filename: string, projectSlug: string,
                                    p: Project)
    requires FindBySlug(projects, EffectiveSlug(projectSlug, requestSlug)) == Some(p)
    requires langSlug != "" && Segment(p.slug) && Segment(versionSlug) && !Absolute(filename)
    ensures ServeDocs(projects, requestSlug, langSlug, versionSlug, filename, projectSlug)
            == Serve("/user_builds" + "/" + p.slug + "/" + "rtd-builds" + "/" + versionSlug + "/"
                     + ResolveFilename(p.documentationType, filename))
  {
    AccelPathLayout(p.slug, versionSlug, ResolveFilename(p.documentationType, filename));
  }

  /** A complete request whose resolved file name starts with a slash (a
      doubled slash in the URL gives one) is served at that name itself,
      outside the build directory. */
  lemma ServeDocsAbsoluteNameEscapesBuildDir(projects: seq<Project>, requestSlug: string,
                                             langSlug: string, versionSlug: string,
                                             filename: string, projectSlug: string, p: Project)
    requires FindBySlug(projects, EffectiveSlug(projectSlug, requestSlug)) == Some(p)
    requires langSlug != "" && versionSlug != ""
    requires Absolute(ResolveFilename(p.documentationType, filename))
    ensures ServeDocs(projects, requestSlug, langSlug, versionSlug, filename, projectSlug)
            == Serve(ResolveFilename(p.documentationType, filename))
  {
  }

  /** `legacy_serve_docs`: the three-segment URL always answers with a
      permanent redirect to the project's default version in English. */
  function LegacyServeDocs(projects: seq<Project>, username: string, projectSlug: string,
                           filename: string): (r: DocResponse)
    ensures !r.Serve?
    ensures r.NotFound? <==> forall i :: 0 <= i < |projects| ==> projects[i].slug != projectSlug
    ensures r.Redirect? ==>
              && r.permanent
              && r.target.projectSlug == projectSlug
              && r.target.langSlug == "en"
              && r.target.filename == filename
              && exists p :: p in projects && p.slug == projectSlug
                             && r.target.versionSlug == p.defaultVersion
  {
    match FindBySlug(projects, projectSlug)
    case None => NotFound
    case Some(p) => Redirect(DocUrl(projectSlug, "en", p.defaultVersion, filename), true)
  }

  /** The legacy route redirects exactly where a request without a version
      would, only permanently. */
  lemma LegacyRedirectsLikeMissingVersion(projects: seq<Project>, username: string,
                                          projectSlug: string, filename: string,
                                          requestSlug: string, langSlug: string)
    requires projectSlug != ""
    ensures var r := ServeDocs(projects, requestSlug, langSlug, "", filename, projectSlug);
            LegacyServeDocs(projects, username, projectSlug, filename)
            == if r.Redirect? then Redirect(r.target, true) else r
  {
  }
}
