# Read the Docs core views, modelled in Dafny

This project models the decision logic of `readthedocs/core/views.py`, the
HTTP-facing layer of the Read the Docs documentation host:

- **Post-commit hooks** (`github_build`, `bitbucket_build`, `generic_build`).
  Given an already-parsed payload and the projects in query order, each hook
  decides whether a documentation build is enqueued. It also decides for which
  project and version the build runs, and what plain-text response the caller
  gets. The `update_docs.delay` enqueue is returned as a `Job` value. The
  `mail_admins` call is returned as a `Notice` value.
- **Documentation serving** (`serve_docs`, `legacy_serve_docs`). A request
  for a project, language, version and file either gets a redirect to the
  canonical four-segment URL or gets served. Serving means sending the
  `X-Accel-Redirect` path `/user_builds/<slug>/rtd-builds/<version>/<file>`
  to the front-end server.

Everything is pure: datatypes, functions and lemmas. The modules follow the
pieces of the view file:

- `Wrappers`: the `Option` type.
- `Text`: the Python string operations the views use. These are `in`,
  `str.replace`, `str.rstrip` with one character, and `posixpath.join`. Each
  keeps Python's semantics. For example, `replace` scans left to right and
  replaces non-overlapping occurrences, and `join` restarts at an absolute
  component.
- `Projects`: the `Project` and `Version` records. Each ORM lookup the views
  make is a first-match function over a sequence.
- `Hooks`: the three build hooks.
- `Docs`: the two documentation views.

Missing URL segments and unset slugs, which Python treats as falsy, are the
empty string. `Project.defaultBranch` is an `Option<string>`. Both `None`
and `Some("")` fall back to the repository's branch, as `or` does. The
posted `version_slug` of the generic hook is an `Option<string>`, and an
empty string counts as not posted.

`project.version_from_branch_name` is defined outside this file. It is the
opaque parameter `versionOf` of `Hooks.GithubBuild`, and every GitHub
property holds for any such lookup.

The append at line 155 inserts no separator, so in an HTML-directory
project `api/module` resolves to `api/moduleindex.html`. Only a name that
already ends in `/` gets `<dir>/index.html`. `Docs.ResolveFilenameExamples`
shows both forms (`setup` and `setup/`).

## Model

| member | source | states |
|---|---|---|
| `Text.ContainsStep` | readthedocs/core/views.py:154 | `pat in s` holds exactly when `s` starts with `pat` or `pat` is in the tail of `s` |
| `Text.ReplaceAllAbsent` | readthedocs/core/views.py:53-54 | `s.replace(pat, rep)` returns `s` unchanged when `pat` does not occur in `s` |
| `Text.RemoveAllShrinks` | readthedocs/core/views.py:53-54 | deleting a pattern never lengthens a string, and strictly shortens it when the pattern occurs |
| `Text.RemoveAllIsIdentityIff` | readthedocs/core/views.py:53-54 | `s.replace(pat, '') == s` if and only if `pat` is not in `s` |
| `Text.StripTrailing` | readthedocs/core/views.py:157 | `s.rstrip(c)` is the prefix of `s` that does not end in `c` and after which every character of `s` is `c` |
| `Text.PathJoin` | readthedocs/core/views.py:167 | `posixpath.join(a, b)`: an absolute `b` replaces `a`; otherwise the result starts with `a` and ends with `b`, with nothing between them when `a` is empty or ends in `/`, and exactly one added `/` between them otherwise |
| `Text.StripTrailingAbsorbs` | readthedocs/core/views.py:97 | `(s + c).rstrip(c) == s.rstrip(c)` |
| `Projects.FirstRepoMatch` | readthedocs/core/views.py:59 | `filter(repo__contains=url)[0]` is absent exactly when no project's repo contains `url`; otherwise it is the first project in query order whose repo contains `url` |
| `Projects.DefaultBranch` | readthedocs/core/views.py:62 | `default_branch or fallback_branch`: a set, non-empty configured branch wins; an unset or empty one gives the repository's fallback branch, as Python's `or` does for a falsy string |
| `Projects.InactiveByKey` | readthedocs/core/views.py:70 | `version in project.versions.exclude(active=True)` compares versions by primary key: two versions with the same key are judged alike, a version the project holds as inactive is inactive, and a key the project does not hold is never inactive |
| `Projects.FindBySlug` | readthedocs/core/views.py:128 | `get_object_or_404(Project, slug=...)` finds a project with that slug, and gives not-found exactly when no project has it |
| `Projects.FindByPk` | readthedocs/core/views.py:112 | `Project.objects.get(pk=pk)` finds a project with that key, and fails exactly when no project has it |
| `Projects.VersionBySlug` | readthedocs/core/views.py:66 | `project.versions.get(slug=...)` finds one of the project's versions with that slug, and fails exactly when there is none |
| `Hooks.NormalizeRepoUrl` | readthedocs/core/views.py:53 | removing `http://` and then `https://` never lengthens the URL, shortens it whenever `http://` occurs, and leaves a scheme-free URL unchanged |
| `Hooks.NormalizeBranch` | readthedocs/core/views.py:54 | removing `refs/heads/` never lengthens the ref, and leaves it unchanged exactly when it does not contain `refs/heads/` |
| `Hooks.NormalizeRepoUrlStripsScheme` | readthedocs/core/views.py:53 | a scheme-free `s` prefixed with `https://`, prefixed with `http://`, or bare normalises to `s` |
| `Hooks.NormalizeBranchStripsPrefix` | readthedocs/core/views.py:54 | the ref `refs/heads/b` names branch `b` when `b` does not itself contain `refs/heads/` |
| `Hooks.GithubBuild` | readthedocs/core/views.py:45-86 | no exception escapes once the payload is parsed, given that the enqueue and the mail succeed; a job is enqueued exactly when the status is 200; every job has `force=True` and targets the first project whose repo contains the normalised URL; a mail is sent exactly when the body is "Build Failed", and it names the repository; if no project matches, the reply is "Build Failed" with no job; a job with a version key builds the `latest` version when the branch is the default one, and otherwise the active version the branch resolves to |
| `Hooks.GithubDefaultBranchBuildsLatest` | readthedocs/core/views.py:61-69 | a push to the default branch (`default_branch`, or else the repository's fallback) builds the `latest` version's key and answers "Build Started: latest", even when the branch's own version is inactive |
| `Hooks.GithubDefaultBranchWithoutLatestFails` | readthedocs/core/views.py:66 | a default-branch push to a project without a `latest` version answers "Build Failed", enqueues nothing and mails the administrators |
| `Hooks.GithubInactiveBranchNotBuilt` | readthedocs/core/views.py:70-72 | a push to an inactive, non-default branch answers 404 "Not Building: <branch>" with no job and no mail |
| `Hooks.GithubUnknownBranchBuildsUnscoped` | readthedocs/core/views.py:77-83 | a push to a branch with no version enqueues a forced job with no version key and answers "Build Started: latest" |
| `Hooks.GithubActiveBranchBuildsItsVersion` | readthedocs/core/views.py:73-76 | a push to an active, non-default branch builds that version's key and answers with its slug |
| `Hooks.GithubIgnoresScheme` | readthedocs/core/views.py:53-59 | a payload URL sent with `https://`, with `http://` or bare gets the same reply, when the rest of the URL carries no scheme |
| `Hooks.GithubPushToActiveBranch` | readthedocs/core/views.py:50-83 | a push from `https://github.com/x/foo` to `refs/heads/dev`, reaching a project with an active non-default `dev` version, enqueues that version with `force=True` and answers "Build Started: dev" |
| `Hooks.BitbucketUrl` | readthedocs/core/views.py:97 | the matched URL is `bitbucket.org` followed by the repository path with exactly its trailing slashes removed, so it never ends in `/` |
| `Hooks.BitbucketBuild` | readthedocs/core/views.py:92-105 | the URL is `bitbucket.org` plus the path without trailing slashes; a job is enqueued exactly when some project's repo contains that URL, and then it is forced, has no version key, targets the first project whose repo contains that URL, the body is "Build Started" and no mail is sent; otherwise the reply is "Build Failed" with a mail |
| `Hooks.BitbucketIgnoresTrailingSlash` | readthedocs/core/views.py:97 | a trailing slash on the repository path does not change the reply |
| `Hooks.GenericBuild` | readthedocs/core/views.py:111-122 | the view raises exactly when the project key is unknown, or when a posted non-empty slug names no version; otherwise it answers "Build Started" with one forced job for that key, which carries a version key exactly when a non-empty slug was posted, and that key is the key of a version with the posted slug |
| `Docs.EffectiveSlug` | readthedocs/core/views.py:140-141 | the URL's project slug is used whenever it is non-empty, and otherwise the slug the request carries; the result is empty only when both are |
| `Docs.ResolveFilename` | readthedocs/core/views.py:152-157 | an empty name becomes `index.html`; in an HTML-directory project, a name with none of `_static`, `html`, `inv` becomes `name + "index.html"`; any other name loses exactly its trailing slashes; a name containing `html` is never extended; the result never ends in `/` and is absolute only if the name is |
| `Docs.ResolveFilenameExamples` | readthedocs/core/views.py:154-157 | in an HTML-directory project, `setup/` becomes `setup/index.html` and `setup` becomes `setupindex.html`; `_static/style.css` and `searchindex.inv` are served as requested |
| `Docs.AccelPath` | readthedocs/core/views.py:167-171 | the internal path always starts with `/`; it ends with the file name, and is exactly the file name when that is absolute |
| `Docs.AccelPathLayout` | readthedocs/core/views.py:167-171 | with a slug and a version that have no slash at either end, and a relative file name, the internal path is `/user_builds/<slug>/rtd-builds/<version>/<file>` |
| `Docs.AccelPathAbsoluteFilename` | readthedocs/core/views.py:167-171 | a file name starting with `/` becomes the whole internal path, because the join restarts at an absolute component |
| `Docs.ServeDocs` | readthedocs/core/views.py:139-177 | not-found exactly when no project has the URL's slug (or else the host's slug); a request missing its version or language is never served; in that case it gets a temporary redirect to the project's default version, language `en`, the same file name |
| `Docs.ServeDocsServesFromBuildDir` | readthedocs/core/views.py:158-175 | a complete request for an existing project whose slug and version have no slash at either end, and whose file name is relative, is served from `/user_builds/<slug>/rtd-builds/<version>/` under the resolved file name |
| `Docs.ServeDocsAbsoluteNameEscapesBuildDir` | readthedocs/core/views.py:158-171 | a complete request whose resolved file name starts with `/` (for example after a doubled slash in the URL) is served at that name itself, outside the build directory |
| `Docs.LegacyServeDocs` | readthedocs/core/views.py:127-136 | the three-segment route is never served: not-found when no project has the slug, otherwise a permanent redirect to the default version, language `en`, the same file name |
| `Docs.LegacyRedirectsLikeMissingVersion` | readthedocs/core/views.py:127-151 | the legacy route redirects to exactly the URL that a request without a version gets, and only the permanence differs |

## Left out

- `homepage`, `random_page`, `server_error` and `server_error_404` are left out. They render templates or pick a random database row, and have no decision logic.
- Requests other than POST to the three hooks are left out. They render the `post_commit.html` template.
- JSON decoding and key extraction of the payloads are left out (lines 50-54 and 94-97). The payload is a parsed record. A decoding or missing-key error there happens outside the `try`, so it escapes the view rather than becoming "Build Failed".
- The mail text is not modelled. A `Notice` carries the repository name and the kind of exception, not the exception's message. The fixed wording, which says "via github" for Bitbucket too, is also left out.
- A raising `update_docs.delay` is not modelled. At lines 82 and 101 it would be caught and become "Build Failed" with a mail; at lines 119 and 121 it would escape `generic_build` as a server error.
- A raising `mail_admins` is not modelled. At lines 85 and 104 it would escape the GitHub or Bitbucket view as a server error, so `Hooks.GithubBuild` and `Hooks.BitbucketBuild` promise a reply only on the assumption that the mail is sent.
- Logging is left out.
- `project.version_from_branch_name` is an opaque parameter, and the model takes it to be total. A lookup that raised at line 60 would be caught at lines 84-86 and give "Build Failed" with a mail; `Hooks.GithubBuild` does not produce that reply.
- `vcs_repo().fallback_branch` is the given field `fallbackBranch`. A failing `vcs_repo()` is not modelled.
- Query order and database collation are not modelled. `projects` is taken to be in query order. `repo__contains` is modelled as a case-sensitive substring test.
- `.get()` raising `MultipleObjectsReturned` is not modelled. Slugs are unique within a project and primary keys are unique, so the lookups return the first match.
- `request.slug` missing, which would raise, is not modelled. `requestSlug` is a given string.
- In `serve_docs`, the debug-mode fallback to serving from disk is left out.
- `mimetypes.guess_type` and the `Content-Encoding` header are left out. They are a library lookup table.
- `rtd_build_path` is left out. Its result is used only by the two parts above.
- The `UnicodeEncodeError` to 404 path at lines 172-173 is left out. Strings are sequences of characters with no encoding.
- `reverse()` is not modelled. A redirect carries the keyword arguments passed to it, not the URL text.
