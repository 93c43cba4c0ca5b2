/** What rule parsing accepts, and the form it brings a rule into. */
module AlertRules {
  import opened Wrappers
  import opened SortedInts
  import opened AlertKeys

  predicate MilestonesAccepted(r: RuleSpec) {
    && (r.kind == "traffic" || r.kind == "")
    && (r.metric == "stars" || r.metric == "")
    && r.repo != ""
    && r.milestones != []
    && forall i :: 0 <= i < |r.milestones| ==> r.milestones[i] > 0
  }

  /** A ladder of the same thresholds, each once and in order, that fires once per threshold. */
  ghost predicate IsLadderOf(n: RuleSpec, r: RuleSpec) {
    && n == r.(kind := "traffic", metric := "stars", fire := "once", debounce := "once", window := "milestone",
               milestones := n.milestones)
    && StrictlyAscending(n.milestones)
    && forall t :: t in n.milestones <==> t in r.milestones
  }

  method NormalizeMilestoneRule(r: RuleSpec) returns (n: Option<RuleSpec>)
    ensures n.Some? <==> MilestonesAccepted(r)
    ensures n.Some? ==> IsLadderOf(n.value, r)
  {
    if (r.kind != "traffic" && r.kind != "") || (r.metric != "" && r.metric != "stars") || r.repo == "" {
      return None;
    }
    var cleaned := Cleaned(r.milestones);
    FirstIsIn(r.milestones);
    if cleaned.None? || |cleaned.value| == 0 {
      return None;
    }
    FirstIsIn(cleaned.value);
    n := Some(r.(kind := "traffic", metric := "stars", fire := "once", debounce := "once", window := "milestone",
                 milestones := cleaned.value));
  }

  method Cleaned(thresholds: seq<int>) returns (sorted: Option<seq<int>>)
    ensures sorted.Some? <==> forall i :: 0 <= i < |thresholds| ==> thresholds[i] > 0
    ensures sorted.Some? ==> StrictlyAscending(sorted.value) && forall t :: t in sorted.value <==> t in thresholds
  {
    var seen := {};
    for i := 0 to |thresholds|
      invariant forall j :: 0 <= j < i ==> thresholds[j] > 0
      invariant forall t :: t in seen <==> t in thresholds[..i]
    {
      if thresholds[i] <= 0 {
        return None;
      }
      assert thresholds[..i + 1] == thresholds[..i] + [thresholds[i]];
      seen := seen + {thresholds[i]};
    }
    assert thresholds[..|thresholds|] == thresholds;
    var out := SortedSet(seen);
    sorted := Some(out);
  }

  predicate RuleAccepted(r: RuleSpec) {
    if r.milestones != [] then MilestonesAccepted(r)
    else if r.kind == "traffic" || r.kind == "" then
      && r.metric != "" && r.window != "" && r.op != ""
      && (r.repo != "" || r.scope != "")
      && (r.scope == "all_repos" ==> r.window == "lifetime")
    else r.kind == "ops" && r.event != ""
  }

  /** The fields arrive trimmed and in lower case. */
  method NormalizeRule(r: RuleSpec) returns (n: Option<RuleSpec>)
    ensures n.Some? <==> RuleAccepted(r)
    ensures n.Some? ==> n.value.Normalized()
    ensures n.Some? && r.IsMilestone() ==> IsLadderOf(n.value, r)
    ensures n.Some? && !r.IsMilestone() ==> n.value == if r.kind == "" then r.(kind := "traffic") else r
  {
    if |r.milestones| > 0 {
      n := NormalizeMilestoneRule(r);
      return;
    }
    var kind := r.kind;
    if kind == "" {
      kind := "traffic";
    }
    if kind == "traffic" {
      if r.metric == "" || r.window == "" || r.op == "" || (r.repo == "" && r.scope == "") {
        return None;
      }
      if r.scope == "all_repos" && r.window != "lifetime" {
        return None;
      }
    } else if kind == "ops" {
      if r.event == "" {
        return None;
      }
    } else {
      return None;
    }
    n := Some(r.(kind := kind));
  }

  /** What an accepted rule becomes; there is only one such rule. */
  ghost predicate IsNormalFormOf(n: RuleSpec, r: RuleSpec) {
    if r.IsMilestone() then IsLadderOf(n, r) else n == if r.kind == "" then r.(kind := "traffic") else r
  }

  lemma NormalFormIsUnique(n: RuleSpec, n': RuleSpec, r: RuleSpec)
    requires IsNormalFormOf(n, r) && IsNormalFormOf(n', r)
    ensures n == n'
  {
    if r.IsMilestone() {
      forall t
        ensures t in n.milestones <==> t in n'.milestones
      {
        assert t in n.milestones <==> t in r.milestones;
      }
      SameElementsSameList(n.milestones, n'.milestones);
    }
  }

  method ParseRules(raw: seq<RuleSpec>) returns (rules: Option<seq<RuleSpec>>)
    ensures rules.Some? <==> forall i :: 0 <= i < |raw| ==> RuleAccepted(raw[i])
    ensures rules.Some? ==> |rules.value| == |raw|
    ensures rules.Some? ==> forall i :: 0 <= i < |raw| ==> rules.value[i].Normalized() && IsNormalFormOf(rules.value[i], raw[i])
  {
    var out: seq<RuleSpec> := [];
    for i := 0 to |raw|
      invariant |out| == i
      invariant forall j :: 0 <= j < i ==> RuleAccepted(raw[j]) && out[j].Normalized() && IsNormalFormOf(out[j], raw[j])
    {
      var n := NormalizeRule(raw[i]);
      if n.None? {
        return None;
      }
      out := out + [n.value];
    }
    rules := Some(out);
  }
}
