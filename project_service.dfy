/**
 * The project service: the checks `Create` and `Update` make before they
 * reach the repository, and the per-domain cache of `GetByDomain`.
 *
 * The repository's answers are parameters: `Lookup` is what its
 * `GetByDomain` returned, and the value of its `Create` or `Update` is passed
 * in as well. The clock is a parameter `now`, in seconds.
 */
module ProjectService {
  import opened GoStrings

  datatype Project = Project(id: int, name: string, domain: string)

  /** The repository's GetByDomain: a row, ErrProjectNotFound, or another error */
  datatype Lookup = Found(project: Project) | NotFound | Failed(msg: string)

  const ErrProjectNotFound := "project not found"
  const ErrNameRequired := "project name is required"
  const ErrDomainRequired := "project domain is required"
  const ErrDomainInUse := "domain is already in use"
  const ErrDomainInUseByOther := "domain is already in use by another project"

  function CheckFailed(msg: string): string {
    "failed to check domain: " + msg
  }

  /**
   * Create's checks in their order, None when the project may be created:
   * a name, a domain, a lookup that worked, and no project on that domain
   */
  function CreateCheck(p: Project, existing: Lookup): (r: Option<string>)
    ensures r.None? <==> p.name != "" && p.domain != "" && existing.NotFound?
    ensures p.name == "" ==> r == Some(ErrNameRequired)
    ensures p.name != "" && p.domain == "" ==> r == Some(ErrDomainRequired)
    ensures p.name != "" && p.domain != "" && existing.Found? ==> r == Some(ErrDomainInUse)
    ensures p.name != "" && p.domain != "" && existing.Failed? ==> r == Some(CheckFailed(existing.msg))
  {
    if p.name == "" then Some(ErrNameRequired)
    else if p.domain == "" then Some(ErrDomainRequired)
    else match existing
      case Failed(msg) => Some(CheckFailed(msg))
      case Found(_) => Some(ErrDomainInUse)
      case NotFound => None
  }

  /** Create: the repository's answer `created` once the checks pass */
  function Create(p: Project, existing: Lookup, created: Result<int>): (r: Result<int>)
    ensures CreateCheck(p, existing).Some? ==> r == Err(CreateCheck(p, existing).value)
    ensures CreateCheck(p, existing).None? ==> r == created
  {
    match CreateCheck(p, existing)
    case Some(e) => Err(e)
    case None => created
  }

  /**
   * Update's checks: as Create's, except that the domain may already belong
   * to the project being updated
   */
  function UpdateCheck(p: Project, existing: Lookup): (r: Option<string>)
    ensures r.None? <==>
      (p.name != "" && p.domain != "" &&
       (existing.NotFound? || (existing.Found? && existing.project.id == p.id)))
    ensures p.name == "" ==> r == Some(ErrNameRequired)
    ensures p.name != "" && p.domain == "" ==> r == Some(ErrDomainRequired)
    ensures p.name != "" && p.domain != "" && existing.Found? && existing.project.id != p.id ==>
      r == Some(ErrDomainInUseByOther)
    ensures p.name != "" && p.domain != "" && existing.Failed? ==> r == Some(CheckFailed(existing.msg))
  {
    if p.name == "" then Some(ErrNameRequired)
    else if p.domain == "" then Some(ErrDomainRequired)
    else match existing
      case Failed(msg) => Some(CheckFailed(msg))
      case Found(q) => if q.id != p.id then Some(ErrDomainInUseByOther) else None
      case NotFound => None
  }

  /** Update: the repository's error `updated` once the checks pass */
  function Update(p: Project, existing: Lookup, updated: Option<string>): (r: Option<string>)
    ensures UpdateCheck(p, existing).Some? ==> r == UpdateCheck(p, existing)
    ensures UpdateCheck(p, existing).None? ==> r == updated
  {
    match UpdateCheck(p, existing)
    case Some(e) => Some(e)
    case None => updated
  }

  /** Whatever Create accepts, Update accepts too */
  lemma CreateCheckImpliesUpdateCheck(p: Project, existing: Lookup)
    requires CreateCheck(p, existing).None?
    ensures UpdateCheck(p, existing).None?
  {
  }

  /** Updating a project on its own domain passes the checks */
  lemma UpdateOwnDomain(p: Project, q: Project)
    requires p.name != "" && p.domain != "" && q.id == p.id
    ensures UpdateCheck(p, Found(q)).None? && CreateCheck(p, Found(q)) == Some(ErrDomainInUse)
  {
  }

  // The repository as a map from ID to project, to state what the checks preserve

  ghost predicate Keyed(repo: map<int, Project>) {
    forall id :: id in repo ==> repo[id].id == id
  }

  /** No two stored projects share a domain */
  ghost predicate UniqueDomains(repo: map<int, Project>) {
    forall a, b :: a in repo && b in repo && repo[a].domain == repo[b].domain ==> a == b
  }

  /** `l` is what the repository answers for `domain` when it holds `repo` */
  ghost predicate Answers(repo: map<int, Project>, domain: string, l: Lookup) {
    (l.NotFound? <==> forall id :: id in repo ==> repo[id].domain != domain) &&
    (l.Found? ==> l.project.id in repo && repo[l.project.id] == l.project && l.project.domain == domain)
  }

  /** A creation that passes the checks keeps domains unique */
  lemma CreateKeepsDomainsUnique(repo: map<int, Project>, p: Project, existing: Lookup, id: int)
    requires Keyed(repo) && UniqueDomains(repo) && Answers(repo, p.domain, existing)
    requires CreateCheck(p, existing).None? && id !in repo
    ensures var repo' := repo[id := p.(id := id)];
      Keyed(repo') && UniqueDomains(repo')
  {
  }

  /** An update of a stored project that passes the checks keeps domains unique */
  lemma UpdateKeepsDomainsUnique(repo: map<int, Project>, p: Project, existing: Lookup)
    requires Keyed(repo) && UniqueDomains(repo) && Answers(repo, p.domain, existing)
    requires UpdateCheck(p, existing).None? && p.id in repo
    ensures var repo' := repo[p.id := p];
      Keyed(repo') && UniqueDomains(repo')
  {
  }

  /** One hour, in seconds */
  const RefreshInterval := 3600

  datatype CachedProject = CachedProject(project: Project, lastRefreshed: int)

  /** A cached entry is served when it was refreshed no earlier than an hour before `now` */
  predicate CacheHit(cache: map<string, CachedProject>, domain: string, now: int) {
    domain in cache && !(cache[domain].lastRefreshed < now - RefreshInterval)
  }

  datatype Step = Step(result: Result<Project>, cache: map<string, CachedProject>)

  /**
   * GetByDomain: a fresh cached project, or the repository's answer, which
   * is cached with the time when it is a project
   */
  function GetByDomainStep(cache: map<string, CachedProject>, domain: string, now: int, fetch: Lookup): (s: Step)
    ensures CacheHit(cache, domain, now) ==> s == Step(Ok(cache[domain].project), cache)
    ensures !CacheHit(cache, domain, now) && fetch.Found? ==>
      s == Step(Ok(fetch.project), cache[domain := CachedProject(fetch.project, now)])
    ensures !CacheHit(cache, domain, now) && !fetch.Found? ==> s.result.Err? && s.cache == cache
  {
    if CacheHit(cache, domain, now) then Step(Ok(cache[domain].project), cache)
    else match fetch
      case Found(p) => Step(Ok(p), cache[domain := CachedProject(p, now)])
      case NotFound => Step(Err(ErrProjectNotFound), cache)
      case Failed(msg) => Step(Err(msg), cache)
  }

  /** Within the hour after a fetch, the next call is answered from the cache, whatever the repository holds */
  lemma CachedForAnHour(cache: map<string, CachedProject>, domain: string, now: int, p: Project, later: int, fetch: Lookup)
    requires !CacheHit(cache, domain, now) && now <= later <= now + RefreshInterval
    ensures var first := GetByDomainStep(cache, domain, now, Found(p));
      first.result == Ok(p) &&
      GetByDomainStep(first.cache, domain, later, fetch) == Step(Ok(p), first.cache)
  {
  }

  /** After the hour the repository is asked again */
  lemma ExpiresAfterAnHour(cache: map<string, CachedProject>, domain: string, now: int, p: Project, later: int, fetch: Lookup)
    requires later > now + RefreshInterval
    ensures var c := cache[domain := CachedProject(p, now)];
      GetByDomainStep(c, domain, later, fetch).result ==
        match fetch
        case Found(q) => Ok(q)
        case NotFound => Err(ErrProjectNotFound)
        case Failed(msg) => Err(msg)
  {
  }

  /** A repository error is returned and caches nothing; other domains are never touched */
  lemma FailureKeepsCache(cache: map<string, CachedProject>, domain: string, now: int, fetch: Lookup, other: string)
    requires !fetch.Found? && other != domain
    ensures GetByDomainStep(cache, domain, now, fetch).cache == cache
    ensures var c := GetByDomainStep(cache, domain, now, fetch).cache;
      (other in c <==> other in cache) && (other in cache ==> c[other] == cache[other])
  {
  }

  /** The service's state: the cache by domain */
  class Service {
    var projectsByDomain: map<string, CachedProject>

    constructor ()
      ensures projectsByDomain == map[]
    {
      projectsByDomain := map[];
    }

    method GetByDomain(domain: string, now: int, fetch: Lookup) returns (r: Result<Project>)
      modifies this
      ensures var s := GetByDomainStep(old(projectsByDomain), domain, now, fetch);
        r == s.result && projectsByDomain == s.cache
    {
      if domain in projectsByDomain && !(projectsByDomain[domain].lastRefreshed < now - RefreshInterval) {
        return Ok(projectsByDomain[domain].project);
      }
      match fetch
      case Failed(msg) =>
        return Err(msg);
      case NotFound =>
        return Err(ErrProjectNotFound);
      case Found(p) =>
        projectsByDomain := projectsByDomain[domain := CachedProject(p, now)];
        return Ok(p);
    }
  }
}
