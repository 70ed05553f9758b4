/** The GitHub REST client of `src/lib/github.ts`: request headers, the
    repository list (public repositories, most recently updated first), the user
    lookup, and the statistics folded from both. The two `fetch` calls are
    inputs: each is the response the server gave, already decoded from JSON. */
module GitHub {
  import opened Wrappers
  import opened Seqs

  /** A repository summary as the API returns it; `updated_at` is taken as a
      timestamp in milliseconds (what `new Date(...).getTime()` yields). */
  datatype Repo = Repo(
    id: int,
    name: string,
    htmlUrl: string,
    description: Option<string>,
    language: Option<string>,
    stars: nat,
    forks: nat,
    topics: seq<string>,
    updatedAt: int,
    homepage: Option<string>,
    fork: bool,
    archived: bool,
    isPrivate: bool)

  datatype User = User(
    login: string,
    name: string,
    bio: string,
    avatarUrl: string,
    publicRepos: nat,
    followers: nat,
    following: nat,
    createdAt: string,
    location: string,
    blog: string,
    company: string)

  /** What a `fetch` produced: a decoded body for an ok status, an HTTP error
      status, or a rejected promise (network failure or undecodable JSON). */
  datatype Response<T> = Ok(body: T) | NotOk(status: int) | Rejected

  /** Why the repository request failed: the thrown `GitHub API error: <status>`,
      or the network error rethrown as it was. */
  datatype FetchError = ApiError(status: int) | NetworkError

  // ---------------------------------------------------------------------------
  // Headers

  const AcceptValue := "application/vnd.github.v3+json"
  const UserAgentValue := "Portfolio-Website-KOU"

  /** `getHeaders()`. `token` is the build-time `VITE_GITHUB_TOKEN`, absent when
      it is not configured; an empty string is falsy and adds no header. */
  function Headers(token: Option<string>): (h: map<string, string>)
    ensures "Accept" in h && h["Accept"] == AcceptValue
    ensures "User-Agent" in h && h["User-Agent"] == UserAgentValue
    ensures "Authorization" in h <==> token.Some? && token.value != ""
    ensures "Authorization" in h ==> h["Authorization"] == "Bearer " + token.value
    ensures h.Keys <= {"Accept", "User-Agent", "Authorization"}
  {
    var base := map["Accept" := AcceptValue, "User-Agent" := UserAgentValue];
    if token.Some? && token.value != "" then base["Authorization" := "Bearer " + token.value]
    else base
  }

  /** The configured token can be read back from the Authorization header. */
  lemma HeadersCarryToken(token: string)
    requires token != ""
    ensures var v := Headers(Some(token))["Authorization"];
            v[..7] == "Bearer " && v[7..] == token
  {
    var v := Headers(Some(token))["Authorization"];
    assert v == "Bearer " + token;
  }

  // ---------------------------------------------------------------------------
  // Repositories

  predicate IsPublic(r: Repo) {
    !r.isPrivate
  }

  function UpdatedAt(r: Repo): int {
    r.updatedAt
  }

  function Stars(r: Repo): int {
    r.stars
  }

  function Forks(r: Repo): int {
    r.forks
  }

  /** `getGitHubRepos`: a non-ok status throws `ApiError`, a rejected fetch is
      rethrown; otherwise the public repositories, newest update first. */
  function FetchRepos(resp: Response<seq<Repo>>): (r: Result<seq<Repo>, FetchError>)
    ensures r.Success? <==> resp.Ok?
    ensures resp.NotOk? ==> r == Failure(ApiError(resp.status))
    ensures resp.Rejected? ==> r == Failure(NetworkError)
    ensures r.Success? ==> SortedDesc(r.value, UpdatedAt)
    ensures r.Success? ==> multiset(r.value) == multiset(Filter(resp.body, IsPublic))
    ensures r.Success? ==> forall i :: 0 <= i < |r.value| ==> !r.value[i].isPrivate
  {
    match resp
    case Ok(data) =>
      var s := SortDesc(Filter(data, IsPublic), UpdatedAt);
      PermutationMembers(s, Filter(data, IsPublic));
      Success(s)
    case NotOk(status) => Failure(ApiError(status))
    case Rejected => Failure(NetworkError)
  }

  /** Every public repository of the response is kept, as often as it occurs,
      and every private one is dropped. */
  lemma FetchReposKeepsPublic(data: seq<Repo>, x: Repo)
    ensures multiset(FetchRepos(Ok(data)).value)[x] == if x.isPrivate then 0 else multiset(data)[x]
  {
    FilterMultiset(data, IsPublic, x);
  }

  /** `getGitHubUser`: the user on an ok response, `null` on anything else. */
  function FetchUser(resp: Response<User>): (r: Option<User>)
    ensures r.Some? <==> resp.Ok?
    ensures r.Some? ==> r.value == resp.body
  {
    if resp.Ok? then Some(resp.body) else None
  }

  // ---------------------------------------------------------------------------
  // Statistics

  /** The repository shown as a project: not a fork, not archived, and with a
      truthy (present, non-empty) description. */
  predicate IsShowcase(r: Repo) {
    !r.fork && !r.archived && r.description.Some? && r.description.value != ""
  }

  /** `repos.filter(IsShowcase).sort(by stars, descending).slice(0, n)`. */
  function SelectTop(repos: seq<Repo>, n: nat): (r: seq<Repo>)
    ensures |r| == if |Filter(repos, IsShowcase)| < n then |Filter(repos, IsShowcase)| else n
    ensures forall i :: 0 <= i < |r| ==> IsShowcase(r[i]) && r[i] in repos
    ensures SortedDesc(r, Stars)
    ensures multiset(r) <= multiset(Filter(repos, IsShowcase))
    ensures |Filter(repos, IsShowcase)| <= n ==> multiset(r) == multiset(Filter(repos, IsShowcase))
    ensures forall x :: x in multiset(Filter(repos, IsShowcase)) - multiset(r) ==>
              forall i :: 0 <= i < |r| ==> r[i].stars >= x.stars
  {
    var eligible := Filter(repos, IsShowcase);
    var sorted := SortDesc(eligible, Stars);
    SelectTopMembers(eligible, sorted, n);
    SelectTopIsTop(eligible, sorted, n);
    TakeSorted(sorted, Stars, n);
    TakeMultiset(sorted, n);
    Take(sorted, n)
  }

  lemma SelectTopMembers(eligible: seq<Repo>, sorted: seq<Repo>, n: nat)
    requires multiset(sorted) == multiset(eligible)
    ensures forall i :: 0 <= i < |Take(sorted, n)| ==> Take(sorted, n)[i] in eligible
  {
    PermutationMembers(sorted, eligible);
  }

  lemma SelectTopIsTop(eligible: seq<Repo>, sorted: seq<Repo>, n: nat)
    requires multiset(sorted) == multiset(eligible) && SortedDesc(sorted, Stars)
    ensures forall x :: x in multiset(eligible) - multiset(Take(sorted, n)) ==>
              forall i :: 0 <= i < |Take(sorted, n)| ==> Take(sorted, n)[i].stars >= x.stars
  {
    forall x | x in multiset(eligible) - multiset(Take(sorted, n))
      ensures forall i :: 0 <= i < |Take(sorted, n)| ==> Take(sorted, n)[i].stars >= x.stars
    {
      TakeSortedIsTop(sorted, Stars, n, x);
    }
  }

  /** The repository languages that `filter(Boolean)` keeps: present and non-empty. */
  function LanguagesOf(repos: seq<Repo>): (r: seq<string>)
    ensures |r| <= |repos|
    ensures forall k :: 0 <= k < |r| ==> r[k] != "" && exists i :: 0 <= i < |repos| && repos[i].language == Some(r[k])
    ensures forall i :: 0 <= i < |repos| && repos[i].language.Some? && repos[i].language.value != "" ==>
              repos[i].language.value in r
    decreases |repos|
  {
    if |repos| == 0 then []
    else
      var rest := LanguagesOf(repos[1..]);
      assert forall k :: 0 <= k < |rest| ==> exists i :: 0 <= i < |repos| && repos[i].language == Some(rest[k]) by {
        forall k | 0 <= k < |rest|
          ensures exists i :: 0 <= i < |repos| && repos[i].language == Some(rest[k])
        {
          var i :| 0 <= i < |repos[1..]| && repos[1..][i].language == Some(rest[k]);
          assert repos[i + 1].language == Some(rest[k]);
        }
      }
      var l := repos[0].language;
      if l.Some? && l.value != "" then [l.value] + rest else rest
  }

  /** The object `getGitHubStats` returns. */
  datatype Stats = Stats(
    user: User,
    totalRepos: nat,
    totalStars: int,
    totalForks: int,
    languagesCount: nat,
    topLanguages: seq<string>,
    topRepos: seq<Repo>,
    allRepos: seq<Repo>)

  /** `getGitHubStats`: `null` when the user lookup gave `null` or the repository
      request threw (the throw is caught here); otherwise the folded statistics. */
  function GetStats(userResp: Response<User>, reposResp: Response<seq<Repo>>): (r: Option<Stats>)
    ensures r.Some? <==> userResp.Ok? && reposResp.Ok?
    ensures r.Some? ==> r.value.user == userResp.body
    ensures r.Some? ==> r.value.allRepos == FetchRepos(reposResp).value
    ensures r.Some? ==> r.value.totalRepos == |r.value.allRepos|
    ensures r.Some? ==> r.value.languagesCount == |r.value.topLanguages| <= r.value.totalRepos
    ensures r.Some? ==> NoDuplicates(r.value.topLanguages)
    ensures r.Some? ==> r.value.topRepos == SelectTop(r.value.allRepos, 6)
  {
    match FetchUser(userResp)
    case None => None
    case Some(user) =>
      match FetchRepos(reposResp)
      case Failure(_) => None
      case Success(repos) =>
        var languages := Dedup(LanguagesOf(repos));
        Some(Stats(
          user,
          |repos|,
          SumBy(repos, Stars),
          SumBy(repos, Forks),
          |languages|,
          languages,
          SelectTop(repos, 6),
          repos))
  }

  /** The totals are sums over exactly the public repositories of the response,
      whatever their order there. */
  lemma StatsTotals(u: User, data: seq<Repo>)
    ensures var s := GetStats(Ok(u), Ok(data)).value;
            && s.totalRepos == |Filter(data, IsPublic)|
            && s.totalStars == SumBy(Filter(data, IsPublic), Stars)
            && s.totalForks == SumBy(Filter(data, IsPublic), Forks)
  {
    SumBySort(Filter(data, IsPublic), UpdatedAt, Stars);
    SumBySort(Filter(data, IsPublic), UpdatedAt, Forks);
  }

  /** A language is listed, once deduplicated, exactly when it is the present,
      non-empty language of some repository. */
  lemma LanguagesListed(repos: seq<Repo>, l: string)
    ensures l in Dedup(LanguagesOf(repos)) <==>
              l != "" && exists i :: 0 <= i < |repos| && repos[i].language == Some(l)
  {
    var names := LanguagesOf(repos);
    if l in Dedup(names) {
      var k :| 0 <= k < |Dedup(names)| && Dedup(names)[k] == l;
      var j :| 0 <= j < |names| && names[j] == l;
    }
    if l != "" && exists i :: 0 <= i < |repos| && repos[i].language == Some(l) {
      var i :| 0 <= i < |repos| && repos[i].language == Some(l);
      var j :| 0 <= j < |names| && names[j] == l;
    }
  }

  /** `topLanguages` lists each language of some repository exactly once, and
      every present, non-empty language appears. */
  lemma StatsLanguages(u: User, data: seq<Repo>, l: string)
    ensures var s := GetStats(Ok(u), Ok(data)).value;
            l in s.topLanguages <==> l != "" && exists i :: 0 <= i < |s.allRepos| && s.allRepos[i].language == Some(l)
  {
    var s := GetStats(Ok(u), Ok(data)).value;
    assert s.topLanguages == Dedup(LanguagesOf(s.allRepos));
    LanguagesListed(s.allRepos, l);
  }

  /** `topRepos`: six showcase repositories of the response, or all of them when
      fewer qualify, most stars first; none left out has more stars than one kept. */
  lemma StatsTopRepos(u: User, data: seq<Repo>)
    ensures var s := GetStats(Ok(u), Ok(data)).value;
            var eligible := Filter(s.allRepos, IsShowcase);
            && |s.topRepos| == (if |eligible| < 6 then |eligible| else 6)
            && multiset(s.topRepos) <= multiset(eligible)
            && (forall x :: x in multiset(eligible) - multiset(s.topRepos) ==>
                  forall i :: 0 <= i < |s.topRepos| ==> s.topRepos[i].stars >= x.stars)
            && (forall i :: 0 <= i < |s.topRepos| ==> IsShowcase(s.topRepos[i]) && !s.topRepos[i].isPrivate && s.topRepos[i] in data)
            && SortedDesc(s.topRepos, Stars)
            && (|eligible| <= 6 ==> multiset(s.topRepos) == multiset(eligible))
  {
    var stats := GetStats(Ok(u), Ok(data));
    var s := stats.value;
    var fetched := FetchRepos(Ok(data));
    assert s.allRepos == fetched.value && s.topRepos == SelectTop(s.allRepos, 6);
    TopOfPublic(data, s.allRepos, s.topRepos);
  }

  /** The top-six selection over a list holding the public repositories of `data`. */
  lemma TopOfPublic(data: seq<Repo>, all: seq<Repo>, top: seq<Repo>)
    requires multiset(all) == multiset(Filter(data, IsPublic))
    requires top == SelectTop(all, 6)
    ensures var eligible := Filter(all, IsShowcase);
            && |top| == (if |eligible| < 6 then |eligible| else 6)
            && multiset(top) <= multiset(eligible)
            && (forall x :: x in multiset(eligible) - multiset(top) ==>
                  forall i :: 0 <= i < |top| ==> top[i].stars >= x.stars)
            && (forall i :: 0 <= i < |top| ==> IsShowcase(top[i]) && !top[i].isPrivate && top[i] in data)
            && SortedDesc(top, Stars)
            && (|eligible| <= 6 ==> multiset(top) == multiset(eligible))
  {
    PublicMembers(data, all, top);
  }

  /** Members of a list that holds the public repositories of `data` are public
      repositories of `data`. */
  lemma PublicMembers(data: seq<Repo>, all: seq<Repo>, t: seq<Repo>)
    requires multiset(all) == multiset(Filter(data, IsPublic))
    requires forall i :: 0 <= i < |t| ==> t[i] in all
    ensures forall i :: 0 <= i < |t| ==> !t[i].isPrivate && t[i] in data
  {
    forall i | 0 <= i < |t|
      ensures !t[i].isPrivate && t[i] in data
    {
      var x := t[i];
      assert x in multiset(all);
      FilterMultiset(data, IsPublic, x);
    }
  }
}
