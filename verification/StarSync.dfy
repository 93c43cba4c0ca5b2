/**
 One repository's star sync: the choice between skip, incremental, full and heal, and the store
 methods it writes through.
 */
module StarSync {
  import opened Wrappers
  import opened StarHistory
  import opened Stargazers

  /** `lastSeen == -1` until a star history has been stored. */
  datatype Cursor = Cursor(lastSeen: int, lastAt: Instant) {
    predicate Synced() {
      lastSeen >= 0
    }
  }

  const NeverSynced := Cursor(-1, 0)

  datatype RepoStars = RepoStars(history: History, cursor: Cursor)

  /** What the outside world answers during one cycle. */
  datatype World = World(
    full: Option<seq<Instant>>,
    recent: seq<Reply>,
    cursorRead: bool,
    maxRead: bool,
    cursorWrite: bool)

  datatype Mode = Off | Unread | Skip | Full | Incremental

  function HistoryBehindKpi(cursor: Cursor, historyMax: int, current: int): bool {
    cursor.Synced() && historyMax < current
    && (cursor.lastSeen == current || historyMax < cursor.lastSeen)
  }

  ghost function ModeOf(st: RepoStars, syncStars: bool, current: int, w: World): Mode {
    var behind := HistoryBehindKpi(st.cursor, MaxTotal(st.history), current);
    if !syncStars then Off
    else if !w.cursorRead || !w.maxRead then Unread
    else if st.cursor.Synced() && current == st.cursor.lastSeen && !behind then Skip
    else if !st.cursor.Synced() || current < st.cursor.lastSeen || behind then Full
    else Incremental
  }

  function Newest(stars: seq<Instant>): (t: Instant)
    ensures forall i :: 0 <= i < |stars| ==> stars[i] <= t
    ensures t == 0 || t in stars
  {
    if stars == [] then 0
    else
      var rest := Newest(stars[..|stars| - 1]);
      assert forall i :: 0 <= i < |stars| - 1 ==> stars[..|stars| - 1][i] == stars[i];
      if stars[|stars| - 1] > rest then stars[|stars| - 1] else rest
  }

  function MoveCursor(st: RepoStars, count: int, newest: Instant, written: bool): RepoStars {
    if written then st.(cursor := Cursor(count, newest)) else st
  }

  function AfterFull(st: RepoStars, current: nat, w: World): RepoStars {
    match w.full
    case None => st
    case Some(list) =>
      MoveCursor(st.(history := StoreFrom(st.history, SortByTime(list), 0)), current, Newest(list), w.cursorWrite)
  }

  /** The reply to asking for the stars the cursor has not counted. */
  function NewStars(st: RepoStars, current: nat, w: World): Option<seq<Instant>> {
    RecentFrom([], w.recent, current - st.cursor.lastSeen, st.cursor.lastAt)
  }

  function AfterIncremental(st: RepoStars, current: nat, fetched: Option<seq<Instant>>, cursorWrite: bool): RepoStars
    requires 0 <= st.cursor.lastSeen < current
  {
    if fetched.None? || fetched.value == [] then st
    else WithNewStars(st, fetched.value, current, st.cursor, cursorWrite)
  }

  function WithNewStars(st: RepoStars, list: seq<Instant>, current: nat, c: Cursor, cursorWrite: bool): RepoStars
    requires 0 <= c.lastSeen
  {
    var newest := if Newest(list) == 0 then c.lastAt else Newest(list);
    MoveCursor(st.(history := StoreFrom(st.history, SortByTime(list), c.lastSeen)), current, newest, cursorWrite)
  }

  /** The state one cycle leaves for its repository. */
  ghost function AfterCycle(st: RepoStars, today: int, syncStars: bool, current: nat, w: World): RepoStars {
    match ModeOf(st, syncStars, current, w)
    case Off => st.(history := UpsertMax(st.history, today, current))
    case Unread => st
    case Skip => st
    case Full => AfterFull(st, current, w)
    case Incremental => AfterIncremental(st, current, NewStars(st, current, w), w.cursorWrite)
  }

  /** The tables `stars` and `repos` (its two star cursor columns). */
  class StarStore {
    var stars: map<string, History>
    var cursors: map<string, Cursor>

    constructor ()
      ensures stars == map[] && cursors == map[]
    {
      stars, cursors := map[], map[];
    }

    function HistoryOf(repo: string): History
      reads this`stars
    {
      if repo in stars then stars[repo] else map[]
    }

    function CursorOf(repo: string): Cursor
      reads this`cursors
    {
      if repo in cursors then cursors[repo] else NeverSynced
    }

    function Of(repo: string): RepoStars
      reads this
    {
      RepoStars(HistoryOf(repo), CursorOf(repo))
    }

    method UpsertStar(repo: string, day: int, total: nat)
      modifies this`stars
      ensures HistoryOf(repo) == UpsertMax(old(HistoryOf(repo)), day, total)
      ensures forall r :: r != repo ==> HistoryOf(r) == old(HistoryOf(r))
    {
      stars := stars[repo := UpsertMax(HistoryOf(repo), day, total)];
    }

    /** An UPDATE: a repository without a row keeps having none. */
    method SetStarSyncCursor(repo: string, count: int, lastAt: Instant)
      modifies this`cursors
      ensures cursors == if repo in old(cursors) then old(cursors)[repo := Cursor(count, lastAt)] else old(cursors)
    {
      if repo in cursors {
        cursors := cursors[repo := Cursor(count, lastAt)];
      }
    }

    method MaxStarTotal(repo: string) returns (m: nat)
      ensures m == MaxTotal(HistoryOf(repo))
    {
      var h := HistoryOf(repo);
      var days := h.Keys;
      m := 0;
      while days != {}
        invariant days <= h.Keys
        invariant forall d :: d in h && d !in days ==> h[d] <= m
        invariant m == 0 || exists d :: d in h && h[d] == m
        decreases days
      {
        assert (forall d :: d !in days) ==> days == {};
        var d :| d in days;
        if h[d] > m {
          m := h[d];
        }
        days := days - {d};
      }
    }

    method StoreSorted(repo: string, sorted: seq<Instant>, base: nat)
      modifies this`stars
      ensures HistoryOf(repo) == StoreFrom(old(HistoryOf(repo)), sorted, base)
      ensures forall r :: r != repo ==> HistoryOf(r) == old(HistoryOf(r))
    {
      ghost var h := HistoryOf(repo);
      var i := 0;
      while i < |sorted|
        invariant 0 <= i <= |sorted|
        invariant HistoryOf(repo) == StoreFrom(h, sorted[..i], base)
        invariant forall r :: r != repo ==> HistoryOf(r) == old(HistoryOf(r))
      {
        assert sorted[..i + 1][..i] == sorted[..i];
        UpsertStar(repo, DayOf(sorted[i]), base + i + 1);
        i := i + 1;
      }
      assert sorted[..i] == sorted;
    }

    method NewestStarredAt(stars: seq<Instant>) returns (newest: Instant)
      ensures newest == Newest(stars)
    {
      newest := 0;
      for i := 0 to |stars|
        invariant newest == Newest(stars[..i])
      {
        assert stars[..i + 1][..i] == stars[..i];
        if stars[i] > newest {
          newest := stars[i];
        }
      }
      assert stars[..|stars|] == stars;
    }

    method SyncStarsFull(repo: string, current: nat, w: World)
      requires repo in cursors
      modifies this
      ensures Of(repo) == AfterFull(old(Of(repo)), current, w)
      ensures forall r :: r != repo ==> Of(r) == old(Of(r))
      ensures cursors.Keys == old(cursors.Keys)
    {
      if w.full.None? {
        return;
      }
      var list := w.full.value;
      StoreSorted(repo, SortByTime(list), 0);
      var newest := NewestStarredAt(list);
      if w.cursorWrite {
        SetStarSyncCursor(repo, current, newest);
      }
    }

    method SyncStarsIncremental(repo: string, current: nat, cursor: Cursor, w: World)
      requires repo in cursors && cursor == CursorOf(repo)
      requires 0 <= cursor.lastSeen < current
      modifies this
      ensures Of(repo) == AfterIncremental(old(Of(repo)), current, NewStars(old(Of(repo)), current, w), w.cursorWrite)
      ensures forall r :: r != repo ==> Of(r) == old(Of(r))
      ensures cursors.Keys == old(cursors.Keys)
    {
      var delta := current - cursor.lastSeen;
      var fetched := StargazersRecent(w.recent, delta, cursor.lastAt);
      assert fetched == NewStars(Of(repo), current, w);
      if fetched.None? {
        return;
      }
      var list := fetched.value;
      if |list| == 0 && delta > 0 {
        return;
      }
      AppendNewStars(repo, list, current, cursor, w.cursorWrite);
    }

    method AppendNewStars(repo: string, list: seq<Instant>, current: nat, cursor: Cursor, cursorWrite: bool)
      requires repo in cursors && 0 <= cursor.lastSeen
      modifies this
      ensures Of(repo) == WithNewStars(old(Of(repo)), list, current, cursor, cursorWrite)
      ensures forall r :: r != repo ==> Of(r) == old(Of(r))
      ensures cursors.Keys == old(cursors.Keys)
    {
      StoreSorted(repo, SortByTime(list), cursor.lastSeen);
      var newest := NewestStarredAt(list);
      if newest == 0 {
        newest := cursor.lastAt;
      }
      if cursorWrite {
        SetStarSyncCursor(repo, current, newest);
      }
    }

    /**
     The repository's own row was upserted just before, so it exists. Reaching the incremental
     fetch proves its precondition: the fetch is only ever asked for a positive number of stars.
     */
    method SyncRepoStars(repo: string, today: int, current: nat, syncStars: bool, w: World)
      requires repo in cursors
      modifies this
      ensures Of(repo) == AfterCycle(old(Of(repo)), today, syncStars, current, w)
      ensures forall r :: r != repo ==> Of(r) == old(Of(r))
      ensures cursors.Keys == old(cursors.Keys)
    {
      if !syncStars {
        UpsertStar(repo, today, current);
        return;
      }
      if !w.cursorRead {
        return;
      }
      var cursor := CursorOf(repo);
      if !w.maxRead {
        return;
      }
      var historyMax := MaxStarTotal(repo);
      var behind := HistoryBehindKpi(cursor, historyMax, current);
      if cursor.Synced() && current == cursor.lastSeen && !behind {
        return;
      }
      if !cursor.Synced() || current < cursor.lastSeen || behind {
        SyncStarsFull(repo, current, w);
        return;
      }
      SyncStarsIncremental(repo, current, cursor, w);
    }
  }
}
