/**
 * The app drawer's search: the query the user typed, and the app list it
 * selects and ranks from all installed apps.
 */
module AppDrawer {

  import opened Text
  import opened Sorting
  import opened AppSearch

  /** The score of each app for one query, as a sort key. */
  function ScoreFor(query: string): AppInfo -> int {
    (app: AppInfo) => SearchScore(app, query)
  }

  /** An app is kept when its score exceeds the `0.3f` threshold. */
  predicate Relevant(app: AppInfo, query: string) {
    SearchScore(app, query) as real > 0.3
  }

  /** Scores are multiples of 5, so the threshold keeps exactly the scores of at least 5. */
  lemma RelevantIffAtLeastFive(app: AppInfo, query: string)
    ensures Relevant(app, query) <==> SearchScore(app, query) >= 5
  {
    ScoreIsMultipleOfFive(app, query);
  }

  /** `filter { it.second > 0.3f }`: the relevant apps, in their original order. */
  function Matching(apps: seq<AppInfo>, query: string): (r: seq<AppInfo>)
    ensures |r| <= |apps|
    ensures forall app :: app in r <==> app in apps && Relevant(app, query)
    ensures multiset(r) <= multiset(apps)
  {
    if apps == [] then []
    else
      assert apps == [apps[0]] + apps[1..];
      (if Relevant(apps[0], query) then [apps[0]] else []) + Matching(apps[1..], query)
  }

  /** Filtering keeps, for every score above the threshold, the apps of that score in order. */
  lemma {:induction false} MatchingKeepsEachScore(apps: seq<AppInfo>, query: string, score: int)
    requires score >= 5
    ensures WithKey(Matching(apps, query), ScoreFor(query), score) == WithKey(apps, ScoreFor(query), score)
  {
    if apps != [] {
      MatchingKeepsEachScore(apps[1..], query, score);
      RelevantIffAtLeastFive(apps[0], query);
      var m := Matching(apps, query);
      assert ScoreFor(query)(apps[0]) == SearchScore(apps[0], query);
      if Relevant(apps[0], query) {
        assert m[0] == apps[0] && m[1..] == Matching(apps[1..], query);
      } else {
        assert m == Matching(apps[1..], query);
      }
    }
  }

  /**
   * What `filterApps` publishes: all apps for a blank query, else the
   * relevant ones, best first; never an app that is not installed, nor one
   * more often than it is installed.
   */
  function Ranked(apps: seq<AppInfo>, query: string): (r: seq<AppInfo>)
    ensures multiset(r) <= multiset(apps)
  {
    if IsBlank(query) then apps
    else
      var m := Matching(apps, query);
      SortIsPermutation(m, ScoreFor(query));
      SortByDescending(m, ScoreFor(query))
  }

  /**
   * For a non-blank query the ranking holds exactly the apps scoring above
   * the threshold, each as often as in the input, ordered by non-increasing
   * score, with apps of equal score in their input order.
   */
  lemma RankedSpec(apps: seq<AppInfo>, query: string)
    requires !IsBlank(query)
    ensures var r := Ranked(apps, query);
      && (forall app :: app in r <==> app in apps && SearchScore(app, query) >= 5)
      && multiset(r) == multiset(Matching(apps, query))
      && multiset(r) <= multiset(apps)
      && SortedDesc(r, ScoreFor(query))
      && (forall score :: score >= 5 ==> WithKey(r, ScoreFor(query), score) == WithKey(apps, ScoreFor(query), score))
  {
    var m := Matching(apps, query);
    var r := Ranked(apps, query);
    SortIsPermutation(m, ScoreFor(query));
    SortedBySort(m, ScoreFor(query));
    forall app ensures app in r <==> app in apps && SearchScore(app, query) >= 5 {
      assert app in r <==> app in multiset(r);
      assert app in m <==> app in multiset(m);
      RelevantIffAtLeastFive(app, query);
    }
    forall score | score >= 5
      ensures WithKey(r, ScoreFor(query), score) == WithKey(apps, ScoreFor(query), score)
    {
      SortIsStable(m, ScoreFor(query), score);
      MatchingKeepsEachScore(apps, query, score);
    }
  }

  /** A blank query shows every app, in the original order. */
  lemma BlankQueryShowsAll(apps: seq<AppInfo>, query: string)
    requires IsBlank(query)
    ensures Ranked(apps, query) == apps
  {
  }

  /** `AppDrawerViewModel`'s search state. */
  class AppDrawerViewModel {
    var allApps: seq<AppInfo>
    var searchQuery: string
    var filteredApps: seq<AppInfo>

    constructor ()
      ensures allApps == [] && searchQuery == "" && filteredApps == []
    {
      allApps := [];
      searchQuery := "";
      filteredApps := [];
    }

    /** `updateSearchQuery`: the query is stored verbatim and the list recomputed. */
    method UpdateSearchQuery(query: string)
      modifies this
      ensures searchQuery == query && allApps == old(allApps)
      ensures filteredApps == Ranked(allApps, query)
    {
      searchQuery := query;
      FilterApps(query);
    }

    /** `filterApps`. */
    method FilterApps(query: string)
      modifies this
      ensures searchQuery == old(searchQuery) && allApps == old(allApps)
      ensures filteredApps == Ranked(allApps, query)
    {
      if IsBlank(query) {
        filteredApps := allApps;
      } else {
        filteredApps := SortByDescending(Matching(allApps, query), ScoreFor(query));
      }
    }

    /** `loadInstalledApps`; `apps` is what the package manager lists. */
    method LoadInstalledApps(apps: seq<AppInfo>)
      modifies this
      ensures searchQuery == old(searchQuery)
      ensures allApps == apps && filteredApps == apps
    {
      allApps := apps;
      filteredApps := apps;
    }
  }
}
