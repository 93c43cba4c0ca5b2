/** GitHub's paged stargazer listing and the early-stopping reader of its newest part. */
module Stargazers {
  import opened Wrappers
  import opened StarHistory

  datatype Reply = Page(stars: seq<Instant>) | Failed

  datatype Scan = Scan(out: seq<Instant>, stop: bool)

  function ScanPage(out: seq<Instant>, page: seq<Instant>, maxNew: int, stopAt: Instant): Scan
    decreases page
  {
    if page == [] then Scan(out, false)
    else if stopAt != 0 && page[0] <= stopAt then Scan(out, true)
    else
      var grown := out + [page[0]];
      if maxNew > 0 && |grown| >= maxNew then Scan(grown, true)
      else ScanPage(grown, page[1..], maxNew, stopAt)
  }

  function RecentFrom(out: seq<Instant>, replies: seq<Reply>, maxNew: int, stopAt: Instant): Option<seq<Instant>>
    decreases replies
  {
    if replies == [] then Some(out)
    else
      match replies[0]
      case Failed => None
      case Page(page) =>
        var s := ScanPage(out, page, maxNew, stopAt);
        if s.stop then Some(s.out) else RecentFrom(s.out, replies[1..], maxNew, stopAt)
  }

  /** The page loop; `replies` are what GitHub would answer, page by page, if asked. */
  method StargazersRecent(replies: seq<Reply>, maxNew: int, stopAt: Instant)
    returns (r: Option<seq<Instant>>)
    ensures r == RecentFrom([], replies, maxNew, stopAt)
  {
    var out: seq<Instant> := [];
    var next := 0;
    while next < |replies|
      invariant 0 <= next <= |replies|
      invariant RecentFrom([], replies, maxNew, stopAt) == RecentFrom(out, replies[next..], maxNew, stopAt)
    {
      if replies[next].Failed? {
        return None;
      }
      var page := replies[next].stars;
      ghost var before := out;
      var stop := false;
      var i := 0;
      while i < |page| && !stop
        invariant 0 <= i <= |page|
        invariant !stop ==> ScanPage(before, page, maxNew, stopAt) == ScanPage(out, page[i..], maxNew, stopAt)
        invariant stop ==> ScanPage(before, page, maxNew, stopAt) == Scan(out, true)
        decreases |page| - i, !stop
      {
        if stopAt != 0 && page[i] <= stopAt {
          stop := true;
        } else {
          out := out + [page[i]];
          assert page[i..][1..] == page[i + 1..];
          if maxNew > 0 && |out| >= maxNew {
            stop := true;
          }
          i := i + 1;
        }
      }
      if stop {
        break;
      }
      assert replies[next..][1..] == replies[next + 1..];
      next := next + 1;
    }
    r := Some(out);
  }

  // ---------- What the reader returns ----------

  /** The replies cut `listing` into pages, up to the first reply that fails. */
  predicate Serves(replies: seq<Reply>, listing: seq<Instant>) {
    if replies == [] then listing == []
    else
      match replies[0]
      case Failed => true
      case Page(page) => page <= listing && Serves(replies[1..], listing[|page|..])
  }

  /** `r` is the longest prefix of the listing within the limit and newer than the stop time. */
  predicate IsRecent(listing: seq<Instant>, r: seq<Instant>, maxNew: int, stopAt: Instant) {
    && r <= listing
    && (stopAt != 0 ==> forall i :: 0 <= i < |r| ==> r[i] > stopAt)
    && (maxNew > 0 ==> |r| <= maxNew)
    && (|r| == |listing| || (maxNew > 0 && |r| == maxNew) || (stopAt != 0 && listing[|r|] <= stopAt))
  }

  lemma {:induction false} ScanAdds(out: seq<Instant>, page: seq<Instant>, maxNew: int, stopAt: Instant)
    requires maxNew > 0 ==> |out| < maxNew
    requires stopAt != 0 ==> forall i :: 0 <= i < |out| ==> out[i] > stopAt
    ensures var s := ScanPage(out, page, maxNew, stopAt);
            if s.stop then |s.out| <= |out + page| && IsRecent(out + page, s.out, maxNew, stopAt)
              && ((maxNew > 0 && |s.out| == maxNew) || |s.out| < |out + page|)
            else s.out == out + page && IsRecent(out + page, s.out, maxNew, stopAt) && (maxNew > 0 ==> |s.out| < maxNew)
    decreases page
  {
    if page != [] && !(stopAt != 0 && page[0] <= stopAt) {
      var grown := out + [page[0]];
      assert grown + page[1..] == out + page;
      if !(maxNew > 0 && |grown| >= maxNew) {
        ScanAdds(grown, page[1..], maxNew, stopAt);
      }
    }
  }

  lemma {:induction false} RecentIsPrefix(out: seq<Instant>, replies: seq<Reply>, rest: seq<Instant>, maxNew: int, stopAt: Instant)
    requires Serves(replies, rest)
    requires maxNew > 0 ==> |out| < maxNew
    requires stopAt != 0 ==> forall i :: 0 <= i < |out| ==> out[i] > stopAt
    ensures var r := RecentFrom(out, replies, maxNew, stopAt);
            r.Some? ==> IsRecent(out + rest, r.value, maxNew, stopAt)
    decreases replies
  {
    if replies != [] && replies[0].Page? {
      var page := replies[0].stars;
      var s := ScanPage(out, page, maxNew, stopAt);
      ScanAdds(out, page, maxNew, stopAt);
      assert out + rest == (out + page) + rest[|page|..];
      if !s.stop {
        RecentIsPrefix(s.out, replies[1..], rest[|page|..], maxNew, stopAt);
      }
    } else if replies == [] {
      assert out + rest == out;
    }
  }

  /** However GitHub pages its listing, a read that succeeds returns that prefix. */
  lemma RecentMeaning(replies: seq<Reply>, listing: seq<Instant>, maxNew: int, stopAt: Instant)
    requires Serves(replies, listing)
    ensures var r := RecentFrom([], replies, maxNew, stopAt);
            r.Some? ==> IsRecent(listing, r.value, maxNew, stopAt)
  {
    RecentIsPrefix([], replies, listing, maxNew, stopAt);
    assert [] + listing == listing;
  }

  /** Asked for `m` stars when the newest `m` are past the stop time, it returns just those. */
  lemma RecentTakesAllNew(replies: seq<Reply>, listing: seq<Instant>, m: nat, stopAt: Instant)
    requires Serves(replies, listing) && 0 < m <= |listing|
    requires stopAt != 0 ==> forall i :: 0 <= i < m ==> listing[i] > stopAt
    ensures var r := RecentFrom([], replies, m, stopAt);
            r.Some? ==> r.value == listing[..m]
  {
    RecentMeaning(replies, listing, m, stopAt);
  }

  // ---------- When it fails ----------

  function StarsOf(replies: seq<Reply>): seq<Instant> {
    if replies == [] then []
    else
      var last := replies[|replies| - 1];
      StarsOf(replies[..|replies| - 1]) + (if last.Page? then last.stars else [])
  }

  /** Nothing among these stars ends the read: the limit is not reached and all are newer than the stop time. */
  predicate ReadOn(stars: seq<Instant>, maxNew: int, stopAt: Instant) {
    (maxNew > 0 ==> |stars| < maxNew) && (stopAt != 0 ==> forall i :: 0 <= i < |stars| ==> stars[i] > stopAt)
  }

  predicate AllPages(replies: seq<Reply>) {
    forall i :: 0 <= i < |replies| ==> replies[i].Page?
  }

  /** The n-th reply is asked for and fails. */
  predicate FailsAt(out: seq<Instant>, replies: seq<Reply>, n: nat, maxNew: int, stopAt: Instant) {
    n < |replies| && replies[n].Failed? && AllPages(replies[..n]) && ReadOn(out + StarsOf(replies[..n]), maxNew, stopAt)
  }

  ghost predicate ReadFails(out: seq<Instant>, replies: seq<Reply>, maxNew: int, stopAt: Instant) {
    exists n: nat :: FailsAt(out, replies, n, maxNew, stopAt)
  }

  lemma {:induction false} StarsOfCons(page: seq<Instant>, replies: seq<Reply>)
    ensures StarsOf([Page(page)] + replies) == page + StarsOf(replies)
  {
    var all := [Page(page)] + replies;
    if replies == [] {
      assert all[..0] == [];
      assert StarsOf(all) == [] + page == page + StarsOf(replies);
    } else {
      var n := |replies| - 1;
      assert all[..|all| - 1] == [Page(page)] + replies[..n];
      StarsOfCons(page, replies[..n]);
    }
  }

  lemma ScanStopsIff(out: seq<Instant>, page: seq<Instant>, maxNew: int, stopAt: Instant)
    requires ReadOn(out, maxNew, stopAt)
    ensures var s := ScanPage(out, page, maxNew, stopAt);
            && (s.stop <==> !ReadOn(out + page, maxNew, stopAt))
            && (!s.stop ==> s.out == out + page)
  {
    ScanAdds(out, page, maxNew, stopAt);
  }

  lemma ReadOnPrefix(a: seq<Instant>, b: seq<Instant>, maxNew: int, stopAt: Instant)
    requires ReadOn(a + b, maxNew, stopAt)
    ensures ReadOn(a, maxNew, stopAt)
  {
    assert forall i :: 0 <= i < |a| ==> a[i] == (a + b)[i];
  }

  lemma ShiftedFailure(out: seq<Instant>, replies: seq<Reply>, n: nat, maxNew: int, stopAt: Instant)
    requires 0 < n < |replies| && replies[0].Page?
    ensures FailsAt(out, replies, n, maxNew, stopAt)
      <==> FailsAt(out + replies[0].stars, replies[1..], n - 1, maxNew, stopAt)
  {
    var page, rest := replies[0].stars, replies[1..];
    assert replies[..n] == [replies[0]] + rest[..n - 1];
    StarsOfCons(page, rest[..n - 1]);
    assert (out + page) + StarsOf(rest[..n - 1]) == out + StarsOf(replies[..n]);
    AllPagesCons(replies[0], rest[..n - 1]);
  }

  lemma AllPagesCons(first: Reply, rest: seq<Reply>)
    ensures AllPages([first] + rest) <==> first.Page? && AllPages(rest)
  {
    var all := [first] + rest;
    assert all[0] == first && forall i :: 0 <= i < |rest| ==> rest[i] == all[i + 1];
  }

  lemma {:induction false} ReadFailsIff(out: seq<Instant>, replies: seq<Reply>, maxNew: int, stopAt: Instant)
    requires ReadOn(out, maxNew, stopAt)
    ensures RecentFrom(out, replies, maxNew, stopAt).None? <==> ReadFails(out, replies, maxNew, stopAt)
    decreases replies
  {
    if replies != [] {
      assert replies[..0] == [] && out + StarsOf(replies[..0]) == out;
      if replies[0].Failed? {
        assert FailsAt(out, replies, 0, maxNew, stopAt);
      } else {
        LaterReadFailsIff(out, replies, maxNew, stopAt);
      }
    }
  }

  lemma {:induction false} LaterReadFailsIff(out: seq<Instant>, replies: seq<Reply>, maxNew: int, stopAt: Instant)
    requires ReadOn(out, maxNew, stopAt) && replies != [] && replies[0].Page?
    ensures RecentFrom(out, replies, maxNew, stopAt).None? <==> ReadFails(out, replies, maxNew, stopAt)
    decreases replies, 0
  {
    var page, rest := replies[0].stars, replies[1..];
    ScanStopsIff(out, page, maxNew, stopAt);
    if ReadOn(out + page, maxNew, stopAt) {
      ReadFailsIff(out + page, rest, maxNew, stopAt);
    }
    if n: nat :| FailsAt(out, replies, n, maxNew, stopAt) {
      assert n > 0;
      ShiftedFailure(out, replies, n, maxNew, stopAt);
      ReadOnPrefix(out + page, StarsOf(rest[..n - 1]), maxNew, stopAt);
    }
    if n: nat :| FailsAt(out + page, rest, n, maxNew, stopAt) {
      ShiftedFailure(out, replies, n + 1, maxNew, stopAt);
    }
  }

  /** A read fails exactly when some reply fails before the limit or the stop time was reached. */
  lemma RecentFailsIff(replies: seq<Reply>, maxNew: int, stopAt: Instant)
    ensures RecentFrom([], replies, maxNew, stopAt).None? <==> ReadFails([], replies, maxNew, stopAt)
  {
    ReadFailsIff([], replies, maxNew, stopAt);
  }
}
