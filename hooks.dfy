/** The post-commit hooks: given an already-parsed payload and the projects in
    query order, decide whether a documentation build is enqueued, for which
    project and version, and what the caller is told. The enqueue and the
    mail to the administrators are returned as values. */
module Hooks {
  import opened Wrappers
  import opened Text
  import opened Projects

  const OK: nat := 200
  const NOT_FOUND: nat := 404

  /** The fields read from a GitHub payload: repository name, repository URL
      and the pushed ref. */
  datatype GithubPayload = GithubPayload(name: string, url: string, ref: string)

  /** The fields read from a Bitbucket payload: repository name and its
      site-relative path. */
  datatype BitbucketPayload = BitbucketPayload(name: string, absoluteUrl: string)

  /** The arguments of one `update_docs.delay` call; `versionPk == None`
      builds the project's latest version. */
  datatype Job = Job(projectPk: nat, versionPk: Option<nat>, force: bool)

  /** The exception behind a failed dispatch. */
  datatype Failure =
    | NoRepoMatch          // indexing an empty project query
    | NoLatestVersion      // the project has no version slugged "latest"
    | ProjectDoesNotExist  // no project with the posted primary key
    | VersionDoesNotExist  // no version with the posted slug

  /** The "Build Failure" mail sent to the administrators. */
  datatype Notice = BuildFailure(repoName: string, cause: Failure)

  /** What a hook returns: a plain-text response with the job it enqueued and
      the mail it sent, or an exception that escapes the view. */
  datatype HookReply =
    | Reply(status: nat, body: string, job: Option<Job>, notice: Option<Notice>)
    | Uncaught(cause: Failure)

  function Started(job: Job, slug: string): HookReply {
    Reply(OK, "Build Started: " + slug, Some(job), None)
  }

  function Failed(name: string, cause: Failure): HookReply {
    Reply(NOT_FOUND, "Build Failed", None, Some(BuildFailure(name, cause)))
  }

  // ---------------------------------------------------------------- GitHub

  /** The repository URL with every `http://` and then every `https://` removed. */
  function NormalizeRepoUrl(url: string): (r: string)
    ensures |r| <= |url|
    ensures Contains(url, "http://") ==> |r| < |url|
    ensures SchemeFree(url) ==> r == url
  {
    var once := ReplaceAll(url, "http://", "");
    RemoveAllShrinks(url, "http://");
    RemoveAllShrinks(once, "https://");
    assert SchemeFree(url) ==> ReplaceAll(once, "https://", "") == url by {
      if SchemeFree(url) {
        ReplaceAllAbsent(url, "http://", "");
        ReplaceAllAbsent(url, "https://", "");
      }
    }
    ReplaceAll(once, "https://", "")
  }

  /** The pushed ref with every `refs/heads/` removed. */
  function NormalizeBranch(ref: string): (r: string)
    ensures |r| <= |ref|
    ensures r == ref <==> !Contains(ref, "refs/heads/")
  {
    RemoveAllIsIdentityIff(ref, "refs/heads/");
    RemoveAllShrinks(ref, "refs/heads/");
    ReplaceAll(ref, "refs/heads/", "")
  }

  /** A string carrying neither scheme marker. */
  predicate SchemeFree(s: string) {
    !Contains(s, "http://") && !Contains(s, "https://")
  }

  /** "http://" does not occur in "https://" + s when it does not occur in s:
      the only 'h' of the prefix starts "https", which is not "http:". */
  lemma HttpAbsentAfterHttps(s: string)
    requires !Contains(s, "http://")
    ensures !Contains("https://" + s, "http://")
  {
    var x := "https://" + s;
    forall i: nat | i <= |x| ensures !OccursAt(x, "http://", i) {
      if i + 7 <= |x| {
        if i == 0 {
          assert x[i..i + 7][4] == 's';
        } else if i < 8 {
          assert x[i..i + 7][0] == x[i] != 'h';
        } else {
          assert x[i..i + 7] == s[i - 8..i - 1];
          assert !OccursAt(s, "http://", i - 8);
        }
      }
    }
  }

  /** Payload URLs that differ only in their scheme normalise alike: a
      scheme-free `s` with `https://`, with `http://` or with neither
      normalises to `s` itself. */
  lemma {:induction false} NormalizeRepoUrlStripsScheme(s: string)
    requires SchemeFree(s)
    ensures NormalizeRepoUrl("https://" + s) == s
    ensures NormalizeRepoUrl("http://" + s) == s
    ensures NormalizeRepoUrl(s) == s
  {
    ReplaceAllAbsent(s, "http://", "");
    ReplaceAllAbsent(s, "https://", "");
    HttpAbsentAfterHttps(s);
    ReplaceAllAbsent("https://" + s, "http://", "");
    assert ("https://" + s)[8..] == s;
    assert ("http://" + s)[7..] == s;
  }

  /** A pushed `refs/heads/b` names branch `b`. */
  lemma {:induction false} NormalizeBranchStripsPrefix(b: string)
    requires !Contains(b, "refs/heads/")
    ensures NormalizeBranch("refs/heads/" + b) == b
  {
    ReplaceAllAbsent(b, "refs/heads/", "");
    assert ("refs/heads/" + b)[11..] == b;
  }

  /** `github_build` for a POST whose payload parsed. The version lookup
      `project.version_from_branch_name` is the opaque `versionOf`. */
  function GithubBuild(payload: GithubPayload, projects: seq<Project>,
                       versionOf: (Project, string) -> Option<Version>): (r: HookReply)
    // no exception escapes once the payload is parsed
    ensures r.Reply?
    ensures r.job.Some? <==> r.status == OK
    ensures r.job.Some? ==> r.job.value.force
    ensures r.notice.Some? <==> r.body == "Build Failed"
    ensures r.notice.Some? ==> r.notice.value.repoName == payload.name && r.job.None?
    // a job always targets the first project whose repo contains the URL
    ensures r.job.Some? ==>
              var m := FirstRepoMatch(projects, NormalizeRepoUrl(payload.url));
              m.Some? && r.job.value.projectPk == m.value.pk
    ensures (forall i :: 0 <= i < |projects| ==> !Contains(projects[i].repo, NormalizeRepoUrl(payload.url)))
              ==> r == Failed(payload.name, NoRepoMatch)
    // a version key is the "latest" version's for the default branch, and
    // otherwise the key of the active version the branch resolves to
    ensures r.job.Some? && r.job.value.versionPk.Some? ==>
              var p := FirstRepoMatch(projects, NormalizeRepoUrl(payload.url)).value;
              var branch := NormalizeBranch(payload.ref);
              var found := versionOf(p, branch);
              && found.Some?
              && (branch == DefaultBranch(p) ==>
                    exists l :: l in p.versions && l.slug == "latest" && l.pk == r.job.value.versionPk.value)
              && (branch != DefaultBranch(p) ==>
                    !IsInactiveVersionOf(p, found.value) && r.job.value.versionPk.value == found.value.pk)
  {
    var url := NormalizeRepoUrl(payload.url);
    var branch := NormalizeBranch(payload.ref);
    match FirstRepoMatch(projects, url)
    case None => Failed(payload.name, NoRepoMatch)
    case Some(p) =>
      match versionOf(p, branch)
      case None => Started(Job(p.pk, None, true), "latest")
      case Some(v) =>
        if branch == DefaultBranch(p) then
          match VersionBySlug(p.versions, "latest")
          case None => Failed(payload.name, NoLatestVersion)
          case Some(latest) => Started(Job(p.pk, Some(latest.pk), true), latest.slug)
        else if IsInactiveVersionOf(p, v) then
          Reply(NOT_FOUND, "Not Building: " + branch, None, None)
        else
          Started(Job(p.pk, Some(v.pk), true), v.slug)
  }

  /** A push to the default branch builds the project's "latest" version,
      whether or not the branch's own version is active. */
  lemma GithubDefaultBranchBuildsLatest(payload: GithubPayload, projects: seq<Project>,
                                        versionOf: (Project, string) -> Option<Version>,
                                        p: Project, v: Version, latest: Version)
    requires FirstRepoMatch(projects, NormalizeRepoUrl(payload.url)) == Some(p)
    requires versionOf(p, NormalizeBranch(payload.ref)) == Some(v)
    requires NormalizeBranch(payload.ref) == DefaultBranch(p)
    requires VersionBySlug(p.versions, "latest") == Some(latest)
    ensures GithubBuild(payload, projects, versionOf)
            == Reply(OK, "Build Started: latest", Some(Job(p.pk, Some(latest.pk), true)), None)
  {
  }

  /** A push to the default branch of a project without a "latest" version
      fails and mails the administrators. */
  lemma GithubDefaultBranchWithoutLatestFails(payload: GithubPayload, projects: seq<Project>,
                                              versionOf: (Project, string) -> Option<Version>,
                                              p: Project, v: Version)
    requires FirstRepoMatch(projects, NormalizeRepoUrl(payload.url)) == Some(p)
    requires versionOf(p, NormalizeBranch(payload.ref)) == Some(v)
    requires NormalizeBranch(payload.ref) == DefaultBranch(p)
    requires forall i :: 0 <= i < |p.versions| ==> p.versions[i].slug != "latest"
    ensures GithubBuild(payload, projects, versionOf) == Failed(payload.name, NoLatestVersion)
  {
  }

  /** A push to an inactive branch that is not the default enqueues nothing,
      mails nobody and answers "Not Building: <branch>". */
  lemma GithubInactiveBranchNotBuilt(payload: GithubPayload, projects: seq<Project>,
                                     versionOf: (Project, string) -> Option<Version>,
                                     p: Project, v: Version)
    requires FirstRepoMatch(projects, NormalizeRepoUrl(payload.url)) == Some(p)
    requires versionOf(p, NormalizeBranch(payload.ref)) == Some(v)
    requires NormalizeBranch(payload.ref) != DefaultBranch(p)
    requires IsInactiveVersionOf(p, v)
    ensures GithubBuild(payload, projects, versionOf)
            == Reply(NOT_FOUND, "Not Building: " + NormalizeBranch(payload.ref), None, None)
  {
  }

  /** A push to a branch with no version builds without a version key, which
      the build task reads as "latest". */
  lemma GithubUnknownBranchBuildsUnscoped(payload: GithubPayload, projects: seq<Project>,
                                          versionOf: (Project, string) -> Option<Version>,
                                          p: Project)
    requires FirstRepoMatch(projects, NormalizeRepoUrl(payload.url)) == Some(p)
    requires versionOf(p, NormalizeBranch(payload.ref)) == None
    ensures GithubBuild(payload, projects, versionOf)
            == Reply(OK, "Build Started: latest", Some(Job(p.pk, None, true)), None)
  {
  }

  /** A push to an active branch that is not the default builds that
      branch's version and reports its slug. */
  lemma GithubActiveBranchBuildsItsVersion(payload: GithubPayload, projects: seq<Project>,
                                           versionOf: (Project, string) -> Option<Version>,
                                           p: Project, v: Version)
    requires FirstRepoMatch(projects, NormalizeRepoUrl(payload.url)) == Some(p)
    requires versionOf(p, NormalizeBranch(payload.ref)) == Some(v)
    requires NormalizeBranch(payload.ref) != DefaultBranch(p)
    requires !IsInactiveVersionOf(p, v)
    ensures GithubBuild(payload, projects, versionOf)
            == Reply(OK, "Build Started: " + v.slug, Some(Job(p.pk, Some(v.pk), true)), None)
  {
  }

  /** The decision does not depend on the payload's scheme: a scheme-free
      URL `s` sent with `https://`, with `http://` or bare gives the same reply. */
  lemma {:induction false} GithubIgnoresScheme(name: string, s: string, ref: string,
                                               projects: seq<Project>,
                                               versionOf: (Project, string) -> Option<Version>)
    requires SchemeFree(s)
    ensures GithubBuild(GithubPayload(name, "https://" + s, ref), projects, versionOf)
            == GithubBuild(GithubPayload(name, s, ref), projects, versionOf)
    ensures GithubBuild(GithubPayload(name, "http://" + s, ref), projects, versionOf)
            == GithubBuild(GithubPayload(name, s, ref), projects, versionOf)
  {
    NormalizeRepoUrlStripsScheme(s);
  }

  /** The repository path of the example push below carries no scheme marker. */
  lemma ExamplePathSchemeFree()
    ensures SchemeFree("github.com/x/foo")
  {
    var s := "github.com/x/foo";
    // its only 'h' is followed by 'u', while both markers start "ht"
    forall i: nat | i <= |s| ensures !OccursAt(s, "http://", i) && !OccursAt(s, "https://", i) {
      if i + 7 <= |s| {
        if i == 3 {
          assert s[i..i + 7][1] == s[4] == 'u';
          assert i + 8 <= |s| ==> s[i..i + 8][1] == s[4];
        } else {
          assert s[i] != 'h' by { if i < 3 { assert i == 0 || i == 1 || i == 2; } }
          assert s[i..i + 7][0] == s[i];
          assert i + 8 <= |s| ==> s[i..i + 8][0] == s[i];
        }
      }
    }
  }

  /** An active, non-default version "dev" of a project "foo" hosted at
      `github.com/x/foo.git`, whose default branch is "master". */
  const ExampleDev := Version(7, "dev", true)
  const ExampleFoo := Project(1, "foo", "github.com/x/foo.git", None, "master", "sphinx",
                              "latest", [Version(3, "latest", true), ExampleDev])

  /** "foo" is the project the example push reaches, and its "dev" version
      is active. */
  lemma ExampleFooMatches()
    ensures NormalizeRepoUrl("https://" + "github.com/x/foo") == "github.com/x/foo"
    ensures FirstRepoMatch([ExampleFoo], "github.com/x/foo") == Some(ExampleFoo)
    ensures !IsInactiveVersionOf(ExampleFoo, ExampleDev)
  {
    ExamplePathSchemeFree();
    NormalizeRepoUrlStripsScheme("github.com/x/foo");
    assert OccursAt(ExampleFoo.repo, "github.com/x/foo", 0);
    assert ExampleFoo.versions[0].pk != ExampleDev.pk;
  }

  /** A push from `https://github.com/x/foo` to `refs/heads/dev` builds the
      "dev" version of "foo" and answers "Build Started: dev", for any
      version lookup that resolves the branch "dev" to that version. */
  lemma GithubPushToActiveBranch(versionOf: (Project, string) -> Option<Version>)
    requires versionOf(ExampleFoo, "dev") == Some(ExampleDev)
    ensures GithubBuild(GithubPayload("foo", "https://" + "github.com/x/foo", "refs/heads/" + "dev"),
                        [ExampleFoo], versionOf)
            == Reply(OK, "Build Started: " + "dev", Some(Job(1, Some(7), true)), None)
  {
    ExampleFooMatches();
    NormalizeBranchStripsPrefix("dev");
    GithubActiveBranchBuildsItsVersion(
      GithubPayload("foo", "https://" + "github.com/x/foo", "refs/heads/" + "dev"),
      [ExampleFoo], versionOf, ExampleFoo, ExampleDev);
  }

  // ------------------------------------------------------------- Bitbucket

  /** The URL matched for a Bitbucket push: the site name followed by the
      repository path without its trailing slashes. */
  function BitbucketUrl(absoluteUrl: string): (r: string)
    ensures StartsWith(r, "bitbucket.org")
    ensures TrailingRemoved(absoluteUrl, '/', r[|"bitbucket.org"|..])
    ensures r[|r| - 1] != '/'
  {
    var path := StripTrailing(absoluteUrl, '/');
    assert ("bitbucket.org" + path)[|"bitbucket.org"|..] == path;
    "bitbucket.org" + path
  }

  /** `bitbucket_build` for a POST whose payload parsed. */
  function BitbucketBuild(payload: BitbucketPayload, projects: seq<Project>): (r: HookReply)
    ensures r.Reply?
    ensures r.job.Some? <==> r.status == OK
    ensures r.job.Some? ==> r.job.value.force && r.job.value.versionPk.None?
    ensures r.job.Some? ==> r.body == "Build Started" && r.notice.None?
    ensures r.job.None? ==> r == Failed(payload.name, NoRepoMatch)
    ensures r.job.Some? <==> exists i :: 0 <= i < |projects|
                                         && Contains(projects[i].repo, BitbucketUrl(payload.absoluteUrl))
    // a job always targets the first project whose repo contains the URL
    ensures r.job.Some? ==>
              var m := FirstRepoMatch(projects, BitbucketUrl(payload.absoluteUrl));
              m.Some? && r.job.value.projectPk == m.value.pk
  {
    match FirstRepoMatch(projects, BitbucketUrl(payload.absoluteUrl))
    case None => Failed(payload.name, NoRepoMatch)
    case Some(p) => Reply(OK, "Build Started", Some(Job(p.pk, None, true)), None)
  }

  /** A trailing slash on the repository path does not change the outcome. */
  lemma BitbucketIgnoresTrailingSlash(name: string, absoluteUrl: string, projects: seq<Project>)
    ensures BitbucketBuild(BitbucketPayload(name, absoluteUrl + "/"), projects)
            == BitbucketBuild(BitbucketPayload(name, absoluteUrl), projects)
  {
    StripTrailingAbsorbs(absoluteUrl, '/');
  }

  // --------------------------------------------------------------- generic

  /** `generic_build` for a POST to `/build/<pk>/`; `postedSlug` is the
      optional `version_slug` form field. A missing project or a posted slug
      naming no version raises out of the view. */
  function GenericBuild(projects: seq<Project>, pk: nat, postedSlug: Option<string>): (r: HookReply)
    ensures r.Uncaught? <==>
              FindByPk(projects, pk).None?
              || (postedSlug.Some? && postedSlug.value != ""
                  && VersionBySlug(FindByPk(projects, pk).value.versions, postedSlug.value).None?)
    ensures r.Reply? ==> r.status == OK && r.body == "Build Started" && r.notice.None?
    ensures r.Reply? ==> r.job.Some? && r.job.value.projectPk == pk && r.job.value.force
    // a version key is passed exactly when a non-empty slug was posted, and it is that slug's version
    ensures r.Reply? ==> (r.job.value.versionPk.Some? <==> postedSlug.Some? && postedSlug.value != "")
    ensures r.Reply? && r.job.value.versionPk.Some? ==>
              exists v :: v in FindByPk(projects, pk).value.versions
                          && v.slug == postedSlug.value && v.pk == r.job.value.versionPk.value
  {
    match FindByPk(projects, pk)
    case None => Uncaught(ProjectDoesNotExist)
    case Some(p) =>
      if postedSlug.Some? && postedSlug.value != "" then
        match VersionBySlug(p.versions, postedSlug.value)
        case None => Uncaught(VersionDoesNotExist)
        case Some(v) => Reply(OK, "Build Started", Some(Job(pk, Some(v.pk), true)), None)
      else
        Reply(OK, "Build Started", Some(Job(pk, None, true)), None)
  }
}
