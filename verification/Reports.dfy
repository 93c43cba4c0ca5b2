/**
 Repository rows, the report filter over them, and the reports that must respect it: the list, the
 direct lookup, the count and the clone and view totals.
 */
module Reports {
  import opened Wrappers
  import opened DayRows
  import opened Traffic
  import opened Calendar
  import opened Names

  datatype RepoRow = RepoRow(
    description: string,
    stars: int, forks: int, watchers: int, issues: int, prs: int,
    fork: bool, archived: bool, parent: string,
    visibility: string, policy: string, hidden: bool)

  /** What GitHub's metadata says about a repository at one sync. */
  datatype Meta = Meta(
    description: string,
    stars: int, forks: int, watchers: int, issues: int, prs: int,
    fork: bool, archived: bool, parent: string, visibility: string)

  type Repos = map<string, RepoRow>

  function Max(a: int, b: int): int {
    if a > b then a else b
  }

  function NormalizeGitHubVisibility(visibility: string, isPrivate: bool): string {
    if visibility == "public" || visibility == "private" then visibility
    else if visibility != "" then "unknown"
    else if isPrivate then "private"
    else "public"
  }

  function AfterUpsert(repos: Repos, name: string, m: Meta): Repos {
    var visibility := if m.visibility == "public" || m.visibility == "private" then m.visibility else "unknown";
    var parent := if m.fork then m.parent else "";
    if name !in repos then
      repos[name := RepoRow(m.description, m.stars, m.forks, m.watchers, m.issues, m.prs,
                            m.fork, m.archived, parent, visibility, "inherit", false)]
    else
      var row := repos[name];
      repos[name := RepoRow(m.description, Max(row.stars, m.stars), Max(row.forks, m.forks),
                            Max(row.watchers, m.watchers), m.issues, m.prs,
                            m.fork, m.archived, parent, visibility, row.policy, false)]
  }

  predicate ValidReportPolicy(policy: string) {
    policy == "inherit" || policy == "include" || policy == "exclude"
  }

  function AfterPolicy(repos: Repos, name: string, policy: string): Repos {
    if ValidReportPolicy(policy) && name in repos then repos[name := repos[name].(policy := policy)] else repos
  }

  predicate ReportVisible(repos: Repos, name: string, includePrivate: bool) {
    && name in repos && !repos[name].hidden
    && repos[name].policy != "exclude"
    && (repos[name].policy == "include"
        || repos[name].visibility == "public"
        || (repos[name].visibility == "private" && includePrivate))
  }

  /** An inherited policy never shows a repository of unknown visibility, whatever GitHub calls it. */
  lemma UnknownNeedsAnOperator(repos: Repos, name: string, m: Meta, visibility: string, includePrivate: bool)
    requires m.visibility == NormalizeGitHubVisibility(visibility, false) && visibility !in {"", "public", "private"}
    ensures ReportVisible(AfterUpsert(repos, name, m), name, includePrivate)
      <==> name in repos && repos[name].policy == "include"
  {
  }

  // ---------- The tables one report reads ----------

  datatype Fleet = Fleet(
    repos: Repos,
    views: map<string, Table>,
    clones: map<string, Table>,
    states: map<MetricKey, MetricState>)
  {
    function Clones(name: string): Table {
      if name in clones then clones[name] else map[]
    }

    function Views(name: string): Table {
      if name in views then views[name] else map[]
    }

    function State(name: string, metric: string): MetricState {
      if MetricKey(name, metric) in states then states[MetricKey(name, metric)] else NoState
    }

    function VisibleNames(includePrivate: bool): set<string> {
      set n | n in repos && ReportVisible(repos, n, includePrivate)
    }
  }

  datatype Summary = Summary(name: string, row: RepoRow, totalViews: int, totalClones: int)

  ghost function SummaryOf(f: Fleet, name: string): Summary
    requires name in f.repos
  {
    Summary(name, f.repos[name], Total(f.Views(name)), Total(f.Clones(name)))
  }

  ghost function Lookup(f: Fleet, name: string, includePrivate: bool): Option<Summary> {
    if ReportVisible(f.repos, name, includePrivate) then Some(SummaryOf(f, name)) else None
  }

  ghost function SummariesOf(f: Fleet, names: seq<string>): seq<Summary>
    requires forall n :: n in names ==> n in f.repos
  {
    seq(|names|, i requires 0 <= i < |names| => SummaryOf(f, names[i]))
  }

  ghost function ReportList(f: Fleet, includePrivate: bool): seq<Summary> {
    SortedMeaning(f.VisibleNames(includePrivate));
    SummariesOf(f, Sorted(f.VisibleNames(includePrivate)))
  }

  function CloneTotals(list: seq<Summary>): int {
    if list == [] then 0 else CloneTotals(list[..|list| - 1]) + list[|list| - 1].totalClones
  }

  function ViewTotals(list: seq<Summary>): int {
    if list == [] then 0 else ViewTotals(list[..|list| - 1]) + list[|list| - 1].totalViews
  }

  class ReportStore {
    var repos: Repos
    const traffic: TrafficStore

    constructor (traffic: TrafficStore)
      ensures repos == map[] && this.traffic == traffic
    {
      repos := map[];
      this.traffic := traffic;
    }

    function Data(): Fleet
      reads this, traffic
    {
      Fleet(repos, traffic.views, traffic.clones, traffic.states)
    }

    method UpsertRepoWithVisibility(name: string, m: Meta)
      modifies this
      ensures repos == AfterUpsert(old(repos), name, m)
    {
      repos := AfterUpsert(repos, name, m);
    }

    method SetRepoReportPolicy(name: string, policy: string) returns (valid: bool, found: bool)
      modifies this
      ensures valid <==> policy in {"inherit", "include", "exclude"}
      ensures found == (valid && name in old(repos))
      ensures repos == AfterPolicy(old(repos), name, policy)
    {
      valid := ValidReportPolicy(policy);
      found := valid && name in repos;
      if found {
        repos := repos[name := repos[name].(policy := policy)];
      }
    }

    method RepoByName(name: string) returns (r: Option<Summary>)
      ensures r == if name in repos && !repos[name].hidden then Some(SummaryOf(Data(), name)) else None
    {
      if name !in repos || repos[name].hidden {
        return None;
      }
      var views := TotalOf(Data().Views(name));
      var clones := TotalOf(Data().Clones(name));
      r := Some(Summary(name, repos[name], views, clones));
    }

    method ReportRepoByName(name: string, includePrivate: bool) returns (r: Option<Summary>)
      ensures r == Lookup(Data(), name, includePrivate)
    {
      if !ReportVisible(repos, name, includePrivate) {
        return None;
      }
      r := RepoByName(name);
    }

    /** Every row that is not hidden, by name; then the filter, row by row. */
    method ListReportRepos(includePrivate: bool) returns (list: seq<Summary>)
      ensures list == ReportList(Data(), includePrivate)
    {
      var all := set n | n in repos && !repos[n].hidden;
      var names := OrderByName(all);
      SortedMeaning(all);
      ghost var kept: seq<string> := [];
      list := [];
      for i := 0 to |names|
        invariant forall n :: n in kept ==> n in repos
        invariant list == SummariesOf(Data(), kept)
        invariant Ascending(kept)
        invariant forall n :: n in kept <==> n in names[..i] && ReportVisible(repos, n, includePrivate)
      {
        assert names[i] in names;
        forall n | n in kept
          ensures Before(n, names[i])
        {
          assert n in names[..i];
        }
        if ReportVisible(repos, names[i], includePrivate) {
          var s := RepoByName(names[i]);
          AscendingSnoc(kept, names[i]);
          list := list + [s.value];
          kept := kept + [names[i]];
        }
      }
      assert names[..|names|] == names;
      AscendingListIsSorted(kept, Data().VisibleNames(includePrivate));
    }

    method ReportRepoCount(includePrivate: bool) returns (n: nat)
      ensures n == |Data().VisibleNames(includePrivate)|
    {
      var list := ListReportRepos(includePrivate);
      SortedMeaning(Data().VisibleNames(includePrivate));
      n := |list|;
    }

    method SumReportClonesAll(includePrivate: bool) returns (total: int)
      ensures total == CloneTotals(ReportList(Data(), includePrivate))
    {
      var list := ListReportRepos(includePrivate);
      total := 0;
      for i := 0 to |list|
        invariant total == CloneTotals(list[..i])
      {
        assert list[..i + 1][..i] == list[..i];
        total := total + list[i].totalClones;
      }
      assert list[..|list|] == list;
    }

    method SumReportViewsAll(includePrivate: bool) returns (total: int)
      ensures total == ViewTotals(ReportList(Data(), includePrivate))
    {
      var list := ListReportRepos(includePrivate);
      total := 0;
      for i := 0 to |list|
        invariant total == ViewTotals(list[..i])
      {
        assert list[..i + 1][..i] == list[..i];
        total := total + list[i].totalViews;
      }
      assert list[..|list|] == list;
    }
  }

  /** The list is in name order and names exactly the repositories a direct lookup finds. */
  lemma ListedIffFound(f: Fleet, includePrivate: bool, name: string)
    ensures var list := ReportList(f, includePrivate);
            && (forall i, j :: 0 <= i < j < |list| ==> Before(list[i].name, list[j].name))
            && ((exists i :: 0 <= i < |list| && list[i].name == name) <==> Lookup(f, name, includePrivate).Some?)
            && forall i :: 0 <= i < |list| && list[i].name == name ==> Lookup(f, name, includePrivate) == Some(list[i])
  {
    var list, names := ReportList(f, includePrivate), Sorted(f.VisibleNames(includePrivate));
    SortedMeaning(f.VisibleNames(includePrivate));
    assert |list| == |names| && forall i :: 0 <= i < |list| ==> list[i].name == names[i] && names[i] in names;
    if name in names {
      var i :| 0 <= i < |names| && names[i] == name;
      assert list[i].name == name;
    }
  }

  /** The two fleets hold the same rows, traffic and metric states for what either may report. */
  ghost predicate SameReportable(f: Fleet, g: Fleet, includePrivate: bool) {
    forall n :: ReportVisible(f.repos, n, includePrivate) || ReportVisible(g.repos, n, includePrivate) ==>
        && n in f.repos && n in g.repos && f.repos[n] == g.repos[n]
        && f.Views(n) == g.Views(n) && f.Clones(n) == g.Clones(n)
        && forall m :: f.State(n, m) == g.State(n, m)
  }

  lemma SameVisibleNames(f: Fleet, g: Fleet, includePrivate: bool)
    requires SameReportable(f, g, includePrivate)
    ensures f.VisibleNames(includePrivate) == g.VisibleNames(includePrivate)
  {
  }

  lemma SameSummary(f: Fleet, g: Fleet, includePrivate: bool, name: string)
    requires SameReportable(f, g, includePrivate)
    requires ReportVisible(f.repos, name, includePrivate)
    ensures name in g.repos && SummaryOf(f, name) == SummaryOf(g, name)
  {
  }

  /** No report tells apart two fleets that differ only in what is not reportable. */
  lemma ReportsSeeOnlyReportable(f: Fleet, g: Fleet, includePrivate: bool)
    requires SameReportable(f, g, includePrivate)
    ensures ReportList(f, includePrivate) == ReportList(g, includePrivate)
    ensures |f.VisibleNames(includePrivate)| == |g.VisibleNames(includePrivate)|
    ensures CloneTotals(ReportList(f, includePrivate)) == CloneTotals(ReportList(g, includePrivate))
    ensures ViewTotals(ReportList(f, includePrivate)) == ViewTotals(ReportList(g, includePrivate))
  {
    SameVisibleNames(f, g, includePrivate);
    var visible := f.VisibleNames(includePrivate);
    SortedMeaning(visible);
    forall n | n in visible
      ensures n in g.repos && SummaryOf(f, n) == SummaryOf(g, n)
    {
      SameSummary(f, g, includePrivate, n);
    }
    assert SummariesOf(f, Sorted(visible)) == SummariesOf(g, Sorted(visible));
  }

  lemma LookupSeesOnlyReportable(f: Fleet, g: Fleet, includePrivate: bool, name: string)
    requires SameReportable(f, g, includePrivate)
    ensures Lookup(f, name, includePrivate) == Lookup(g, name, includePrivate)
  {
    if ReportVisible(f.repos, name, includePrivate) {
      SameSummary(f, g, includePrivate, name);
    }
  }

  // ---------- Stored stars never decrease ----------

  datatype Change = Upsert(name: string, meta: Meta) | Policy(name: string, policy: string)

  function AfterChange(repos: Repos, c: Change): Repos {
    match c
    case Upsert(name, m) => AfterUpsert(repos, name, m)
    case Policy(name, policy) => AfterPolicy(repos, name, policy)
  }

  lemma StarsNeverDecrease(repos: Repos, c: Change, name: string)
    requires name in repos
    ensures name in AfterChange(repos, c)
    ensures AfterChange(repos, c)[name].stars >= repos[name].stars
  {
  }

  function AfterChanges(repos: Repos, changes: seq<Change>): Repos {
    if changes == [] then repos
    else AfterChange(AfterChanges(repos, changes[..|changes| - 1]), changes[|changes| - 1])
  }

  predicate LeavesPolicy(changes: seq<Change>, name: string) {
    forall i :: 0 <= i < |changes| && changes[i].Policy? ==> changes[i].name != name
  }

  lemma {:induction false} PolicyOutlivesChanges(repos: Repos, name: string, changes: seq<Change>)
    requires name in repos && LeavesPolicy(changes, name)
    ensures var after := AfterChanges(repos, changes);
            && name in after && after[name].policy == repos[name].policy
            && (!repos[name].hidden ==> !after[name].hidden)
  {
    if changes != [] {
      var before := changes[..|changes| - 1];
      assert forall i :: 0 <= i < |before| ==> before[i] == changes[i];
      PolicyOutlivesChanges(repos, name, before);
    }
  }

  /** An operator's exclude or include holds through every later sync, whatever GitHub then says. */
  lemma OperatorChoiceOutlivesSyncs(repos: Repos, name: string, policy: string, changes: seq<Change>, includePrivate: bool)
    requires name in repos && !repos[name].hidden && LeavesPolicy(changes, name)
    ensures var after := AfterChanges(AfterPolicy(repos, name, policy), changes);
            && (policy == "exclude" ==> !ReportVisible(after, name, includePrivate))
            && (policy == "include" ==> ReportVisible(after, name, includePrivate))
  {
    PolicyOutlivesChanges(AfterPolicy(repos, name, policy), name, changes);
  }

  // ---------- What GitHub's visibility decides ----------

  /** After a sync, a repository under no operator's choice is found iff it is public, or private where those are shown. */
  lemma InheritedIsFoundIff(f: Fleet, name: string, m: Meta, includePrivate: bool)
    requires name in f.repos ==> f.repos[name].policy == "inherit"
    ensures Lookup(f.(repos := AfterUpsert(f.repos, name, m)), name, includePrivate).Some?
      <==> m.visibility == "public" || (m.visibility == "private" && includePrivate)
  {
  }

  /** The same from GitHub's own answer: an old one without a visibility has only the private flag. */
  lemma GitHubDecidesIff(f: Fleet, name: string, m: Meta, answer: string, isPrivate: bool, includePrivate: bool)
    requires name in f.repos ==> f.repos[name].policy == "inherit"
    requires m.visibility == NormalizeGitHubVisibility(answer, isPrivate)
    ensures Lookup(f.(repos := AfterUpsert(f.repos, name, m)), name, includePrivate).Some?
      <==> answer == "public" || (answer == "" && !isPrivate) || (includePrivate && (answer == "private" || (answer == "" && isPrivate)))
  {
  }

  /** Taking an operator's choice back lets the stored visibility decide again; an unknown policy does nothing. */
  lemma InheritingGoesBack(f: Fleet, name: string, policy: string, includePrivate: bool)
    requires name in f.repos && !f.repos[name].hidden
    ensures Lookup(f.(repos := AfterPolicy(f.repos, name, "inherit")), name, includePrivate).Some?
      <==> f.repos[name].visibility == "public" || (f.repos[name].visibility == "private" && includePrivate)
    ensures policy !in {"inherit", "include", "exclude"} ==> AfterPolicy(f.repos, name, policy) == f.repos
  {
  }

  predicate IsInheritedPrivate(f: Fleet, name: string) {
    && name in f.repos && !f.repos[name].hidden && f.repos[name].visibility == "private"
    && f.repos[name].policy !in {"include", "exclude"}
  }

  lemma ListHolds(f: Fleet, includePrivate: bool, s: Summary)
    ensures s in ReportList(f, includePrivate) <==> Lookup(f, s.name, includePrivate) == Some(s)
  {
    ListedIffFound(f, includePrivate, s.name);
    var list := ReportList(f, includePrivate);
    if s in list {
      var i :| 0 <= i < |list| && list[i] == s;
      assert list[i].name == s.name;
    }
    if Lookup(f, s.name, includePrivate) == Some(s) {
      var i :| 0 <= i < |list| && list[i].name == s.name;
      assert list[i] == s;
    }
  }

  /** Showing private repositories adds exactly the inherited private ones, and takes none away. */
  lemma PrivateScopeAdds(f: Fleet, s: Summary)
    ensures s in ReportList(f, false) ==> s in ReportList(f, true) && !IsInheritedPrivate(f, s.name)
    ensures s in ReportList(f, true) && s !in ReportList(f, false) ==> IsInheritedPrivate(f, s.name)
    ensures IsInheritedPrivate(f, s.name) && s == SummaryOf(f, s.name) ==> s in ReportList(f, true) && s !in ReportList(f, false)
  {
    ListHolds(f, false, s);
    ListHolds(f, true, s);
  }

  /** A sync stores what GitHub says, keeps the greater of the counted interest, and unhides the row. */
  lemma UpsertedRow(repos: Repos, name: string, m: Meta)
    ensures var after := AfterUpsert(repos, name, m);
            && after.Keys == repos.Keys + {name} && (forall n :: n in repos && n != name ==> after[n] == repos[n])
            && after[name].stars >= m.stars && after[name].forks >= m.forks && after[name].watchers >= m.watchers
            && after[name].issues == m.issues && after[name].prs == m.prs && after[name].description == m.description
            && after[name].fork == m.fork && after[name].archived == m.archived && (!m.fork ==> after[name].parent == "")
            && after[name].visibility in {"public", "private", "unknown"} && !after[name].hidden
            && (name in repos ==>
              && after[name].forks >= repos[name].forks && after[name].watchers >= repos[name].watchers
              && after[name].policy == repos[name].policy
              && after[name].stars in {m.stars, repos[name].stars}
              && after[name].forks in {m.forks, repos[name].forks} && after[name].watchers in {m.watchers, repos[name].watchers})
  {
  }

  // ---------- What the totals add up ----------

  ghost function TotalOver(tables: map<string, Table>, names: seq<string>): int {
    if names == [] then 0
    else
      var n := names[|names| - 1];
      TotalOver(tables, names[..|names| - 1]) + (if n in tables then Total(tables[n]) else 0)
  }

  lemma {:induction false} SummariesAddUp(f: Fleet, names: seq<string>)
    requires forall n :: n in names ==> n in f.repos
    ensures CloneTotals(SummariesOf(f, names)) == TotalOver(f.clones, names)
    ensures ViewTotals(SummariesOf(f, names)) == TotalOver(f.views, names)
  {
    if names != [] {
      var front := names[..|names| - 1];
      SummariesAddUp(f, front);
      assert SummariesOf(f, names)[..|names| - 1] == SummariesOf(f, front);
      assert Total(map[]) == 0;
    }
  }

  /** The report sums are the clones table's and the views table's counts of the reportable repositories. */
  lemma SumsAddUpTheTables(f: Fleet, includePrivate: bool)
    ensures CloneTotals(ReportList(f, includePrivate)) == TotalOver(f.clones, Sorted(f.VisibleNames(includePrivate)))
    ensures ViewTotals(ReportList(f, includePrivate)) == TotalOver(f.views, Sorted(f.VisibleNames(includePrivate)))
  {
    SortedMeaning(f.VisibleNames(includePrivate));
    SummariesAddUp(f, Sorted(f.VisibleNames(includePrivate)));
  }
}
