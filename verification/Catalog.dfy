/** Which repositories one sync cycle works on: an explicit list, or the filtered listing and the pins. */
module Catalog {
  import opened Wrappers

  /** `id` is zero until GitHub's metadata has been fetched. */
  datatype Repo = Repo(name: string, id: nat)

  function NamesOf(repos: seq<Repo>): set<string> {
    set i | 0 <= i < |repos| :: repos[i].name
  }

  predicate DistinctNames(repos: seq<Repo>) {
    forall i, j :: 0 <= i < j < |repos| ==> repos[i].name != repos[j].name
  }

  /** `extra` are pins outside the listing, each once, in the order they are first pinned. */
  ghost predicate AddsPins(listed: seq<Repo>, pins: seq<string>, repos: seq<Repo>) {
    && listed <= repos
    && NamesOf(repos) == NamesOf(listed) + (set p | p in pins)
    && (forall i :: |listed| <= i < |repos| ==> repos[i].id == 0 && repos[i].name !in NamesOf(repos[..i]))
  }

  /** With an explicit list nothing else is asked for; otherwise a failed read ends the cycle. */
  method ResolveTracked(explicit: seq<string>, listed: Option<seq<Repo>>, pins: Option<seq<string>>)
    returns (r: Option<seq<Repo>>)
    ensures explicit != [] ==>
              r == Some(seq(|explicit|, i requires 0 <= i < |explicit| => Repo(explicit[i], 0)))
    ensures explicit == [] ==> (r.Some? <==> listed.Some? && pins.Some?)
    ensures explicit == [] && r.Some? ==> AddsPins(listed.value, pins.value, r.value)
  {
    if |explicit| > 0 {
      var named := [];
      for i := 0 to |explicit|
        invariant named == seq(i, k requires 0 <= k < i => Repo(explicit[k], 0))
      {
        named := named + [Repo(explicit[i], 0)];
      }
      return Some(named);
    }
    if listed.None? || pins.None? {
      return None;
    }
    var repos := listed.value;
    var seen := {};
    for i := 0 to |repos|
      invariant seen == NamesOf(repos[..i])
    {
      OneMoreName(repos[..i], repos[i]);
      assert repos[..i + 1] == repos[..i] + [repos[i]];
      seen := seen + {repos[i].name};
    }
    assert repos[..|repos|] == repos;
    repos := MergePins(repos, pins.value, seen);
    r := Some(repos);
  }

  method MergePins(listed: seq<Repo>, pins: seq<string>, names: set<string>) returns (repos: seq<Repo>)
    requires names == NamesOf(listed)
    ensures AddsPins(listed, pins, repos)
  {
    repos := listed;
    var seen := names;
    for i := 0 to |pins|
      invariant AddsPins(listed, pins[..i], repos) && seen == NamesOf(repos)
    {
      assert pins[..i + 1] == pins[..i] + [pins[i]];
      if pins[i] in seen {
        continue;
      }
      OneMoreName(repos, Repo(pins[i], 0));
      seen := seen + {pins[i]};
      ghost var before := repos;
      repos := repos + [Repo(pins[i], 0)];
      assert repos[..|before|] == before;
      assert forall j :: |listed| <= j < |before| ==> repos[..j] == before[..j];
    }
    assert pins[..|pins|] == pins;
  }

  lemma OneMoreName(repos: seq<Repo>, r: Repo)
    ensures NamesOf(repos + [r]) == NamesOf(repos) + {r.name}
  {
    var grown := repos + [r];
    assert forall i :: 0 <= i < |repos| ==> grown[i] == repos[i];
    assert grown[|repos|] == r;
  }

  /** A listing without duplicates stays without them, and so each name is worked once. */
  lemma PinsAddNoDuplicates(listed: seq<Repo>, pins: seq<string>, repos: seq<Repo>)
    requires AddsPins(listed, pins, repos) && DistinctNames(listed)
    ensures DistinctNames(repos)
  {
    forall i, j | 0 <= i < j < |repos|
      ensures repos[i].name != repos[j].name
    {
      if j < |listed| {
        assert listed[i] == repos[i] && listed[j] == repos[j];
      } else {
        assert repos[..j][i].name in NamesOf(repos[..j]);
      }
    }
  }
}
