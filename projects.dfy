/** The records the views read, and the database lookups they make, as
    functions over a sequence of records taken in query order. Only the
    fields the views read are kept. */
module Projects {
  import opened Wrappers
  import opened Text

  /** A buildable snapshot of a project's documentation. */
  datatype Version = Version(pk: nat, slug: string, active: bool)

  /** A documentation project. `defaultBranch` is the optional configured
      branch; `fallbackBranch` is what the project's repository backend names
      as its default branch; `defaultVersion` is the slug its URLs default to. */
  datatype Project = Project(
    pk: nat,
    slug: string,
    repo: string,
    defaultBranch: Option<string>,
    fallbackBranch: string,
    documentationType: string,
    defaultVersion: string,
    versions: seq<Version>)

  /** The index of the first element of `s` that satisfies `p`, if any. */
  function FirstIndex<T>(s: seq<T>, p: T -> bool): (r: Option<nat>)
    ensures r.None? <==> forall i :: 0 <= i < |s| ==> !p(s[i])
    ensures r.Some? ==> r.value < |s| && p(s[r.value])
    ensures r.Some? ==> forall j :: 0 <= j < r.value ==> !p(s[j])
    decreases |s|
  {
    if |s| == 0 then None
    else if p(s[0]) then Some(0)
    else match FirstIndex(s[1..], p)
      case None => None
      case Some(i) => Some(i + 1)
  }

  /** The first element of `s` that satisfies `p`, if any: what indexing a
      filtered query at 0, or `.get()` on a unique field, returns. */
  function FirstWhere<T>(s: seq<T>, p: T -> bool): (r: Option<T>)
    ensures r.None? <==> forall i :: 0 <= i < |s| ==> !p(s[i])
    ensures r.Some? ==> exists k :: 0 <= k < |s| && s[k] == r.value && p(r.value)
                                    && forall j :: 0 <= j < k ==> !p(s[j])
  {
    match FirstIndex(s, p)
    case None => None
    case Some(k) => Some(s[k])
  }

  /** `Project.objects.filter(repo__contains=url)[0]`: the first project, in
      query order, whose repository string contains `url`; None where the
      indexing would raise. */
  function FirstRepoMatch(projects: seq<Project>, url: string): (r: Option<Project>)
    ensures r.None? <==> forall i :: 0 <= i < |projects| ==> !Contains(projects[i].repo, url)
    ensures r.Some? ==> exists k :: 0 <= k < |projects| && projects[k] == r.value
                          && Contains(r.value.repo, url)
                          && forall j :: 0 <= j < k ==> !Contains(projects[j].repo, url)
  {
    FirstWhere(projects, (p: Project) => Contains(p.repo, url))
  }

  /** `get_object_or_404(Project, slug=slug)`: the project with that slug;
      None for the not-found response. */
  function FindBySlug(projects: seq<Project>, slug: string): (r: Option<Project>)
    ensures r.None? <==> forall i :: 0 <= i < |projects| ==> projects[i].slug != slug
    ensures r.Some? ==> r.value in projects && r.value.slug == slug
  {
    FirstWhere(projects, (p: Project) => p.slug == slug)
  }

  /** `Project.objects.get(pk=pk)`: the project with that primary key; None
      where the lookup raises `DoesNotExist`. */
  function FindByPk(projects: seq<Project>, pk: nat): (r: Option<Project>)
    ensures r.None? <==> forall i :: 0 <= i < |projects| ==> projects[i].pk != pk
    ensures r.Some? ==> r.value in projects && r.value.pk == pk
  {
    FirstWhere(projects, (p: Project) => p.pk == pk)
  }

  /** `project.versions.get(slug=slug)`: the project's version with that slug;
      None where the lookup raises `DoesNotExist`. */
  function VersionBySlug(versions: seq<Version>, slug: string): (r: Option<Version>)
    ensures r.None? <==> forall i :: 0 <= i < |versions| ==> versions[i].slug != slug
    ensures r.Some? ==> r.value in versions && r.value.slug == slug
  {
    FirstWhere(versions, (v: Version) => v.slug == slug)
  }

  /** `project.default_branch or project.vcs_repo().fallback_branch`: an unset
      or empty configured branch falls back to the repository's own. */
  function DefaultBranch(p: Project): (r: string)
    ensures p.defaultBranch.Some? && p.defaultBranch.value != "" ==> r == p.defaultBranch.value
    ensures p.defaultBranch.None? || p.defaultBranch == Some("") ==> r == p.fallbackBranch
    // the result is empty only when both branches are
    ensures r == "" ==> r == p.fallbackBranch
  {
    match p.defaultBranch
    case Some(b) => if b != "" then b else p.fallbackBranch
    case None => p.fallbackBranch
  }

  /** `v in project.versions.exclude(active=True)`: model instances compare
      by primary key, so `v` is inactive when one of the project's inactive
      versions has its key. */
  predicate IsInactiveVersionOf(p: Project, v: Version) {
    exists i :: 0 <= i < |p.versions| && p.versions[i].pk == v.pk && !p.versions[i].active
  }

  /** Membership goes by primary key alone: a version the project holds as
      inactive counts as inactive, and two versions with the same key are
      judged alike whatever their other fields say. */
  lemma InactiveByKey(p: Project, v: Version, w: Version)
    requires v.pk == w.pk
    ensures IsInactiveVersionOf(p, v) <==> IsInactiveVersionOf(p, w)
    ensures v in p.versions && !v.active ==> IsInactiveVersionOf(p, v)
    ensures (forall i :: 0 <= i < |p.versions| ==> p.versions[i].pk != v.pk) ==> !IsInactiveVersionOf(p, v)
  {
    if v in p.versions && !v.active {
      var i :| 0 <= i < |p.versions| && p.versions[i] == v;
    }
  }
}
