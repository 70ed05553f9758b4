/** The project grid of `src/components/Projects.tsx`: the list it keeps from the
    GitHub statistics, the language colour dot and the topic chips. */
module ProjectsView {
  import opened Wrappers
  import opened Seqs
  import opened GitHub

  /** The component's state: the projects shown and the loading flag. */
  datatype ViewState = ViewState(projects: seq<Repo>, loading: bool)

  /** Before the effect runs: nothing shown, loading. */
  const Initial := ViewState([], true)

  /** `fetchProjects` run on the result of `getGitHubStats` (which never throws:
      its failures are already `null`). The list is kept from `allRepos`, which
      is always present on a non-null result. */
  function FetchProjects(stats: Option<Stats>): (r: ViewState)
    ensures !r.loading
    ensures stats.None? ==> r.projects == []
    ensures stats.Some? ==>
              var eligible := Filter(stats.value.allRepos, IsShowcase);
              && |r.projects| == (if |eligible| < 12 then |eligible| else 12)
              && multiset(r.projects) <= multiset(eligible)
              && (|eligible| <= 12 ==> multiset(r.projects) == multiset(eligible))
              && (forall x :: x in multiset(eligible) - multiset(r.projects) ==>
                    forall i :: 0 <= i < |r.projects| ==> r.projects[i].stars >= x.stars)
    ensures stats.Some? ==> forall i :: 0 <= i < |r.projects| ==>
              IsShowcase(r.projects[i]) && r.projects[i] in stats.value.allRepos
    ensures SortedDesc(r.projects, Stars)
  {
    match stats
    case None => ViewState(Initial.projects, false)
    case Some(s) =>
      var shown := SelectTop(s.allRepos, 12);
      ViewState(shown, false)
  }

  /** The first six projects shown are exactly the statistics' `topRepos`: the
      same filter and comparator run over the same list, and only the cut differs. */
  lemma FirstSixAreTopRepos(u: User, reposResp: Response<seq<Repo>>)
    requires reposResp.Ok?
    ensures var stats := GetStats(Ok(u), reposResp);
            Take(FetchProjects(stats).projects, 6) == stats.value.topRepos
  {
    var stats := GetStats(Ok(u), reposResp);
    var sorted := SortDesc(Filter(stats.value.allRepos, IsShowcase), Stars);
    TakeTake(sorted, 12, 6);
  }

  // ---------------------------------------------------------------------------
  // Language colour

  const LanguageColors: map<string, string> := map[
    "TypeScript" := "#3178c6",
    "JavaScript" := "#f1e05a",
    "Vue" := "#4fc08d",
    "React" := "#61dafb",
    "Python" := "#3572a5",
    "PHP" := "#4f5d95",
    "HTML" := "#e34c26",
    "CSS" := "#1572b6"]

  const DefaultColor := "#6b7280"

  /** A CSS colour of the form `#rrggbb` in lower-case hexadecimal. */
  predicate IsHexColor(c: string) {
    |c| == 7 && c[0] == '#' && forall k :: 1 <= k < 7 ==> ('0' <= c[k] <= '9' || 'a' <= c[k] <= 'f')
  }

  /** `getLanguageColor`: the listed colour of a mapped language, grey otherwise;
      always a well-formed colour, and grey exactly for unmapped languages. */
  function LanguageColor(language: string): (r: string)
    ensures language in LanguageColors ==> r == LanguageColors[language]
    ensures IsHexColor(r)
    ensures r == DefaultColor <==> language !in LanguageColors
  {
    if language in LanguageColors && LanguageColors[language] != "" then LanguageColors[language]
    else DefaultColor
  }

  /** The topic chips of one card: `topics.slice(0, 3)`. */
  function VisibleTopics(topics: seq<string>): (r: seq<string>)
    ensures |r| <= 3
    ensures |topics| <= 3 ==> r == topics
    ensures forall i :: 0 <= i < |r| ==> r[i] == topics[i]
  {
    Take(topics, 3)
  }
}
