/**
 Whole runs of star syncs against a list of stars that only grows: whichever of skip, incremental,
 full and heal each cycle took, the stored history is the rebuild of a prefix of that list.
 */
module StarRuns {
  import opened Wrappers
  import opened StarHistory
  import opened Stargazers
  import opened StarSync

  datatype RunState = RunState(timeline: seq<Instant>, st: RepoStars)

  datatype Event = Grow(extra: seq<Instant>) | Cycle(today: int, world: World)

  function Reverse(s: seq<Instant>): (r: seq<Instant>)
    ensures |r| == |s|
    ensures forall i :: 0 <= i < |s| ==> r[i] == s[|s| - 1 - i]
  {
    seq(|s|, i requires 0 <= i < |s| => s[|s| - 1 - i])
  }

  /** GitHub lists exactly the timeline, newest first; any fetch may fail. */
  predicate Faithful(w: World, timeline: seq<Instant>) {
    && (w.full.Some? ==> multiset(w.full.value) == multiset(timeline))
    && Serves(w.recent, Reverse(timeline))
  }

  predicate Possible(s: RunState, e: Event) {
    match e
    case Grow(extra) =>
      Ascending(extra) && forall i, j :: 0 <= i < |s.timeline| && 0 <= j < |extra| ==> s.timeline[i] < extra[j]
    case Cycle(_, w) => Faithful(w, s.timeline)
  }

  ghost function Step(s: RunState, e: Event): RunState {
    match e
    case Grow(extra) => s.(timeline := s.timeline + extra)
    case Cycle(today, w) => s.(st := AfterCycle(s.st, today, true, |s.timeline|, w))
  }

  ghost function Exec(s: RunState, events: seq<Event>): RunState {
    if events == [] then s else Step(Exec(s, events[..|events| - 1]), events[|events| - 1])
  }

  ghost predicate ValidRun(s: RunState, events: seq<Event>) {
    events != [] ==>
      ValidRun(s, events[..|events| - 1])
      && Possible(Exec(s, events[..|events| - 1]), events[|events| - 1])
  }

  function CursorCount(c: Cursor): nat {
    if c.Synced() then c.lastSeen else 0
  }

  /** The first `k` stars are stored; a cursor never claims more than that, and knows its last star. */
  ghost predicate Consistent(s: RunState, k: nat) {
    var c := CursorCount(s.st.cursor);
    && Ascending(s.timeline)
    && c <= k <= |s.timeline|
    && s.st.history == Rebuild(s.timeline[..k])
    && s.st.cursor.lastAt == (if c == 0 then 0 else s.timeline[c - 1])
    && (forall i, j :: 0 <= i < c <= j < |s.timeline| ==> s.timeline[i] < s.timeline[j])
  }

  lemma {:induction false} ReversePrefix(s: seq<Instant>, m: nat)
    requires m <= |s|
    ensures multiset(Reverse(s)[..m]) == multiset(s[|s| - m..])
  {
    if m > 0 {
      ReversePrefix(s, m - 1);
      assert Reverse(s)[..m] == Reverse(s)[..m - 1] + [s[|s| - m]];
      assert s[|s| - m..] == [s[|s| - m]] + s[|s| - m + 1..];
    }
  }

  lemma NewestIsLast(list: seq<Instant>, s: seq<Instant>)
    requires Ascending(s) && multiset(list) == multiset(s)
    ensures Newest(list) == if s == [] then 0 else s[|s| - 1]
  {
    assert |multiset(list)| == |list| && |multiset(s)| == |s|;
    forall x | x in list
      ensures s != [] && x <= s[|s| - 1]
    {
      assert x in multiset(s);
    }
    if s != [] {
      assert s[|s| - 1] in multiset(list);
    }
  }

  /** A successful incremental read returns exactly the stars the cursor has not counted. */
  lemma IncrementalReadsTheTail(s: RunState, k: nat, w: World)
    requires Consistent(s, k) && Faithful(w, s.timeline)
    requires s.st.cursor.Synced() && s.st.cursor.lastSeen < |s.timeline|
    ensures var c := s.st.cursor.lastSeen;
            var r := NewStars(s.st, |s.timeline|, w);
            r.Some? ==> multiset(r.value) == multiset(s.timeline[c..]) && r.value != []
  {
    NewestAreNew(s, k);
    ReadsTheTail(s.timeline, s.st.cursor.lastSeen, w.recent, s.st.cursor.lastAt);
  }

  lemma ReadsTheTail(s: seq<Instant>, c: nat, replies: seq<Reply>, stopAt: Instant)
    requires c < |s| && Serves(replies, Reverse(s))
    requires stopAt != 0 ==> forall i :: 0 <= i < |s| - c ==> Reverse(s)[i] > stopAt
    ensures var r := RecentFrom([], replies, |s| - c, stopAt);
            r.Some? ==> multiset(r.value) == multiset(s[c..]) && r.value != []
  {
    RecentTakesAllNew(replies, Reverse(s), |s| - c, stopAt);
    ReversePrefix(s, |s| - c);
  }

  lemma NewestAreNew(s: RunState, k: nat)
    requires Consistent(s, k) && s.st.cursor.Synced()
    ensures s.st.cursor.lastAt != 0 ==>
              forall i :: 0 <= i < |s.timeline| - s.st.cursor.lastSeen ==> Reverse(s.timeline)[i] > s.st.cursor.lastAt
  {
  }

  /** Along a run the heal branch is never needed. */
  lemma NeverBehind(s: RunState, k: nat)
    requires Consistent(s, k)
    ensures !HistoryBehindKpi(s.st.cursor, MaxTotal(s.st.history), |s.timeline|)
  {
    MaxOfRebuild(s.timeline[..k]);
  }

  function FetchOk(m: Mode, s: RunState, w: World): bool {
    match m
    case Off => true
    case Unread => false
    case Skip => true
    case Full => w.full.Some?
    case Incremental => NewStars(s.st, |s.timeline|, w).Some?
  }

  lemma FullKeeps(s: RunState, k: nat, w: World)
    requires Consistent(s, k) && Faithful(w, s.timeline) && w.full.Some?
    ensures var s' := s.(st := AfterFull(s.st, |s.timeline|, w));
            && Consistent(s', |s.timeline|)
            && s'.st.cursor == (if w.cursorWrite then Cursor(|s.timeline|, s'.st.cursor.lastAt) else s.st.cursor)
  {
    var list := w.full.value;
    SortRecovers(list, s.timeline);
    NewestIsLast(list, s.timeline);
    TailWriteCompletes(s.timeline, 0, k);
    assert s.timeline[0..] == s.timeline;
    CaughtUp(s, k, s.(st := AfterFull(s.st, |s.timeline|, w)));
  }

  /** A cycle that completed the history may leave the cursor where it was. */
  lemma CaughtUp(s: RunState, k: nat, s': RunState)
    requires Consistent(s, k) && s'.timeline == s.timeline
    requires s'.st.history == Rebuild(s.timeline)
    requires s'.st.cursor == s.st.cursor
      || s'.st.cursor == Cursor(|s.timeline|, if s.timeline == [] then 0 else s.timeline[|s.timeline| - 1])
    ensures Consistent(s', |s.timeline|)
  {
    assert s.timeline[..|s.timeline|] == s.timeline;
  }

  lemma TailKeeps(s: RunState, k: nat, list: seq<Instant>, cursorWrite: bool)
    requires Consistent(s, k) && s.st.cursor.Synced() && s.st.cursor.lastSeen < |s.timeline|
    requires multiset(list) == multiset(s.timeline[s.st.cursor.lastSeen..])
    ensures var n := |s.timeline|;
            var s' := s.(st := WithNewStars(s.st, list, n, s.st.cursor, cursorWrite));
            && Consistent(s', n)
            && s'.st.cursor == (if cursorWrite then Cursor(n, s'.st.cursor.lastAt) else s.st.cursor)
  {
    var c := s.st.cursor.lastSeen;
    SortRecovers(list, s.timeline[c..]);
    NewestIsLast(list, s.timeline[c..]);
    TailWriteCompletes(s.timeline, c, k);
    CaughtUp(s, k, s.(st := WithNewStars(s.st, list, |s.timeline|, s.st.cursor, cursorWrite)));
  }

  lemma IncrementalKeeps(s: RunState, k: nat, w: World)
    requires Consistent(s, k) && Faithful(w, s.timeline)
    requires s.st.cursor.Synced() && s.st.cursor.lastSeen < |s.timeline|
    requires FetchOk(Incremental, s, w)
    ensures var s' := s.(st := AfterIncremental(s.st, |s.timeline|, NewStars(s.st, |s.timeline|, w), w.cursorWrite));
            && Consistent(s', |s.timeline|)
            && s'.st.cursor == (if w.cursorWrite then Cursor(|s.timeline|, s'.st.cursor.lastAt) else s.st.cursor)
  {
    IncrementalReadsTheTail(s, k, w);
    TailKeeps(s, k, NewStars(s.st, |s.timeline|, w).value, w.cursorWrite);
  }

  lemma CycleKeeps(s: RunState, k: nat, today: int, w: World) returns (k': nat)
    requires Consistent(s, k) && Faithful(w, s.timeline)
    ensures Consistent(Step(s, Cycle(today, w)), k')
    ensures w.cursorWrite && k == CursorCount(s.st.cursor) ==>
              k' == CursorCount(Step(s, Cycle(today, w)).st.cursor)
    ensures FetchOk(ModeOf(s.st, true, |s.timeline|, w), s, w) && w.cursorWrite ==>
              k' == |s.timeline| && Step(s, Cycle(today, w)).st.cursor.lastSeen == |s.timeline|
  {
    NeverBehind(s, k);
    var mode := ModeOf(s.st, true, |s.timeline|, w);
    k' := if FetchOk(mode, s, w) then |s.timeline| else k;
    if FetchOk(mode, s, w) {
      match mode
      case Full => FullKeeps(s, k, w);
      case Incremental => IncrementalKeeps(s, k, w);
      case _ =>
    }
  }

  lemma GrowKeeps(s: RunState, k: nat, extra: seq<Instant>)
    requires Consistent(s, k) && Possible(s, Grow(extra))
    ensures Consistent(Step(s, Grow(extra)), k)
  {
    var grown := s.timeline + extra;
    assert grown[..k] == s.timeline[..k];
  }

  predicate CursorWritesSucceed(events: seq<Event>) {
    forall i :: 0 <= i < |events| && events[i].Cycle? ==> events[i].world.cursorWrite
  }

  predicate IsStart(s: RunState) {
    Ascending(s.timeline) && s.st == RepoStars(map[], NeverSynced)
  }

  lemma {:induction false} RunStaysConsistent(s: RunState, events: seq<Event>) returns (k: nat)
    requires IsStart(s) && ValidRun(s, events)
    ensures Consistent(Exec(s, events), k)
    ensures CursorWritesSucceed(events) ==> k == CursorCount(Exec(s, events).st.cursor)
  {
    if events == [] {
      k := 0;
    } else {
      var before, e := events[..|events| - 1], events[|events| - 1];
      k := RunStaysConsistent(s, before);
      assert forall i :: 0 <= i < |before| ==> before[i] == events[i];
      match e
      case Grow(extra) => GrowKeeps(Exec(s, before), k, extra);
      case Cycle(today, w) => k := CycleKeeps(Exec(s, before), k, today, w);
    }
  }

  /**
   The incremental history equals a full rebuild: of the stars the cursor counted when every
   cursor write succeeded, and in any case of some prefix at least that long.
   */
  lemma StoredHistoryIsRebuild(s: RunState, events: seq<Event>)
    requires IsStart(s) && ValidRun(s, events)
    ensures var e := Exec(s, events);
            && CursorCount(e.st.cursor) <= |e.timeline|
            && (CursorWritesSucceed(events) ==>
              e.st.history == Rebuild(e.timeline[..CursorCount(e.st.cursor)]))
            && exists k :: CursorCount(e.st.cursor) <= k <= |e.timeline| && e.st.history == Rebuild(e.timeline[..k])
  {
    var _ := RunStaysConsistent(s, events);
  }

  /** One cycle whose fetch and cursor write succeed catches up, whatever failed before it. */
  lemma OneGoodCycleCatchesUp(s: RunState, events: seq<Event>, today: int, w: World)
    requires IsStart(s) && ValidRun(s, events + [Cycle(today, w)])
    requires var e := Exec(s, events);
             FetchOk(ModeOf(e.st, true, |e.timeline|, w), e, w) && w.cursorWrite
    ensures var e := Exec(s, events + [Cycle(today, w)]);
            e.st.history == Rebuild(e.timeline) && e.st.cursor.lastSeen == |e.timeline|
  {
    var all := events + [Cycle(today, w)];
    assert all[..|all| - 1] == events;
    var k := RunStaysConsistent(s, events);
    var k' := CycleKeeps(Exec(s, events), k, today, w);
    var e := Exec(s, all);
    assert e.timeline[..|e.timeline|] == e.timeline;
  }

  // ---------- Healing, from any state at all ----------

  lemma {:induction false} StoreReachesTotal(h: History, s: seq<Instant>, base: nat)
    ensures forall d :: d in h ==> d in StoreFrom(h, s, base) && StoreFrom(h, s, base)[d] >= h[d]
    ensures s != [] ==> MaxTotal(StoreFrom(h, s, base)) >= base + |s|
    ensures MaxTotal(StoreFrom(h, s, base)) <= if MaxTotal(h) > base + |s| then MaxTotal(h) else base + |s|
  {
    var g := StoreFrom(h, s, base);
    if s == [] {
    } else {
      var t, last := s[..|s| - 1], DayOf(s[|s| - 1]);
      StoreReachesTotal(h, t, base);
      assert g[last] >= base + |s|;
      assert forall d :: d in StoreFrom(h, t, base) ==> StoreFrom(h, t, base)[d] <= MaxTotal(StoreFrom(h, t, base));
      if g != map[] {
        var d :| d in g && g[d] == MaxTotal(g);
      }
    }
  }

  /** A flagged state refetches, and a full list as long as the count makes the next cycle skip. */
  lemma FullHealSettles(st: RepoStars, today: int, current: nat, w: World, w': World)
    requires HistoryBehindKpi(st.cursor, MaxTotal(st.history), current)
    requires w.cursorRead && w.maxRead && w.cursorWrite && w'.cursorRead && w'.maxRead
    requires w.full.Some? && |w.full.value| == current
    ensures ModeOf(st, true, current, w) == Full
    ensures ModeOf(AfterCycle(st, today, true, current, w), true, current, w') == Skip
  {
    FullWriteReaches(st.history, w.full.value);
    SettledSkips(AfterCycle(st, today, true, current, w), current, w');
  }

  lemma SettledSkips(st: RepoStars, current: nat, w: World)
    requires st.cursor.lastSeen == current && MaxTotal(st.history) == current && w.cursorRead && w.maxRead
    ensures ModeOf(st, true, current, w) == Skip
  {
  }

  lemma FullWriteReaches(h: History, list: seq<Instant>)
    requires MaxTotal(h) < |list|
    ensures MaxTotal(StoreFrom(h, SortByTime(list), 0)) == |list|
  {
    var sorted := SortByTime(list);
    assert |sorted| == |multiset(sorted)| == |list|;
    StoreReachesTotal(h, sorted, 0);
  }

  lemma ShortWriteIsFlagged(st: RepoStars, list: seq<Instant>, current: nat)
    requires 0 <= st.cursor.lastSeen == MaxTotal(st.history)
    requires 0 < |list| < current - st.cursor.lastSeen
    ensures var st' := WithNewStars(st, list, current, st.cursor, true);
            HistoryBehindKpi(st'.cursor, MaxTotal(st'.history), current)
  {
    var sorted := SortByTime(list);
    assert |sorted| == |multiset(sorted)| == |list|;
    StoreReachesTotal(st.history, sorted, st.cursor.lastSeen);
  }

  /** An incremental write of too few stars is always caught by the next cycle at that count. */
  lemma ShortIncrementalIsFlagged(st: RepoStars, today: int, current: nat, w: World)
    requires ModeOf(st, true, current, w) == Incremental && w.cursorWrite
    requires MaxTotal(st.history) == st.cursor.lastSeen
    requires var r := NewStars(st, current, w);
             r.Some? && 0 < |r.value| < current - st.cursor.lastSeen
    ensures var st' := AfterCycle(st, today, true, current, w);
            HistoryBehindKpi(st'.cursor, MaxTotal(st'.history), current)
  {
    ShortWriteIsFlagged(st, NewStars(st, current, w).value, current);
  }

  /** An incremental fetch is only reached with a positive number of stars to ask for. */
  lemma IncrementalAsksForStars(st: RepoStars, current: nat, w: World)
    ensures ModeOf(st, true, current, w) == Incremental ==> current - st.cursor.lastSeen > 0
    ensures ModeOf(st, true, current, w) == Skip ==>
              st.cursor.lastSeen == current && MaxTotal(st.history) >= current
  {
  }
}
