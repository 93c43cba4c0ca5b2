/**
 Alert rules and the keys they debounce under. Rules, milestones and the consecutive-failure
 counter share one string-keyed table, so the keys must not run into each other.
 */
module AlertKeys {
  /** `valueText` is the rule's value as `%g` prints it. */
  datatype RuleSpec = RuleSpec(
    kind: string, repo: string, scope: string, metric: string, window: string, op: string,
    value: real, valueText: string,
    debounce: string, fire: string, level: string, event: string, milestones: seq<int>)
  {
    predicate IsMilestone() {
      |milestones| > 0
    }

    function DebounceMode(): string {
      if IsMilestone() then "once"
      else if fire == "once" || debounce == "once" then "once"
      else if debounce == "" || debounce == "once_per_utc_day" then "once_per_utc_day"
      else debounce
    }

    function OpsDebounceMode(): string {
      if debounce != "" then DebounceMode()
      else if event == "upstream_stale" then "once"
      else if event == "sync_failed" && level == "crit" then "every_sync"
      else if event == "github_unreachable" && (level == "crit" || level == "") then "every_sync"
      else "once_per_utc_day"
    }

    function IdentityKey(repoOrScope: string): string {
      kind + ("|" + (repoOrScope + ("|" + (metric + ("|" + (window + ("|" +
        (op + ("|" + (valueText + ("|" + DebounceMode())))))))))))
    }

    function OpsKey(): string {
      IdentityKey(event)
    }

    function MilestoneKey(threshold: int): string {
      MilestoneKeyOf(repo, threshold)
    }

    /** What `normalizeRule` leaves of a rule it accepts. */
    predicate Normalized() {
      && (kind == "traffic" || kind == "ops")
      && (IsMilestone() ==> kind == "traffic")
    }
  }

  const CounterEvent := "sync_failed"
  const CounterField := "consecutive_count"
  const CounterKey := "ops" + ("|" + (CounterEvent + ("|" + CounterField)))

  function MilestoneKeyOf(repo: string, threshold: int): string {
    "milestone|" + (((repo + "|stars|") + Itoa(threshold)) + "|once")
  }

  // ---------- Decimal numbers ----------

  function Digits(n: nat): string {
    (if n < 10 then "" else Digits(n / 10)) + [('0' as int + n % 10) as char]
  }

  /** `strconv.Itoa` and `%d`. */
  function Itoa(n: int): string {
    if n < 0 then "-" + Digits(-n) else Digits(n)
  }

  predicate AllDigits(s: string) {
    forall i :: 0 <= i < |s| ==> '0' <= s[i] <= '9'
  }

  function ValueOf(s: string): nat
    requires AllDigits(s)
  {
    if s == "" then 0 else 10 * ValueOf(s[..|s| - 1]) + (s[|s| - 1] as int - '0' as int)
  }

  /** `strconv.Atoi` with its error ignored, which leaves zero. */
  function Atoi(s: string): int {
    if s != "" && AllDigits(s) then ValueOf(s)
    else if |s| > 1 && s[0] == '-' && AllDigits(s[1..]) then 0 - ValueOf(s[1..])
    else if |s| > 1 && s[0] == '+' && AllDigits(s[1..]) then ValueOf(s[1..])
    else 0
  }

  lemma {:induction false} DigitsRoundTrip(n: nat)
    ensures Digits(n) != "" && AllDigits(Digits(n)) && ValueOf(Digits(n)) == n
  {
    var front := if n < 10 then "" else Digits(n / 10);
    if n >= 10 {
      DigitsRoundTrip(n / 10);
    }
    var s := Digits(n);
    assert s[..|s| - 1] == front;
    assert forall i :: 0 <= i < |front| ==> s[i] == front[i];
  }

  lemma AtoiOfItoa(n: int)
    ensures Atoi(Itoa(n)) == n
    ensures Itoa(n) != ""
  {
    if n < 0 {
      DigitsRoundTrip(-n);
      assert Itoa(n)[1..] == Digits(-n);
    } else {
      DigitsRoundTrip(n);
    }
  }

  // ---------- Keys never run into each other ----------

  function Bars(s: string): nat {
    if s == "" then 0 else (if s[0] == '|' then 1 else 0) + Bars(s[1..])
  }

  lemma {:induction false} BarsConcat(a: string, b: string)
    ensures Bars(a + b) == Bars(a) + Bars(b)
  {
    if a == "" {
      assert a + b == b;
    } else {
      assert (a + b)[1..] == a[1..] + b;
      BarsConcat(a[1..], b);
    }
  }

  lemma BarsOfField(field: string, rest: string)
    ensures Bars(field + ("|" + rest)) == Bars(field) + 1 + Bars(rest)
  {
    BarsConcat(field, "|" + rest);
    assert ("|" + rest)[1..] == rest;
  }

  lemma RuleKeyBars(r: RuleSpec, scope: string)
    ensures Bars(r.IdentityKey(scope)) >= 6
  {
    var k6 := r.valueText + ("|" + r.DebounceMode());
    var k5 := r.op + ("|" + k6);
    var k4 := r.window + ("|" + k5);
    var k3 := r.metric + ("|" + k4);
    var k2 := scope + ("|" + k3);
    BarsOfField(r.valueText, r.DebounceMode());
    BarsOfField(r.op, k6);
    BarsOfField(r.window, k5);
    BarsOfField(r.metric, k4);
    BarsOfField(scope, k3);
    BarsOfField(r.kind, k2);
  }

  lemma ThreePlainFields(a: string, b: string, c: string)
    requires NoBarIn(a) && NoBarIn(b) && NoBarIn(c)
    ensures Bars(a + ("|" + (b + ("|" + c)))) == 2
  {
    NoBars(a);
    NoBars(b);
    NoBars(c);
    BarsOfField(b, c);
    BarsOfField(a, b + ("|" + c));
  }

  lemma CounterKeyBars()
    ensures Bars(CounterKey) == 2
  {
    ThreePlainFields("ops", CounterEvent, CounterField);
  }

  lemma {:induction false} NoBars(s: string)
    requires NoBarIn(s)
    ensures Bars(s) == 0
  {
    if s != "" {
      NoBars(s[1..]);
    }
  }

  /** No rule key is the counter's key or a milestone's, whatever the rule's fields hold. */
  lemma RuleKeysAreApart(r: RuleSpec, scope: string, repo: string, threshold: int)
    requires r.Normalized()
    ensures r.IdentityKey(scope) != CounterKey
    ensures r.IdentityKey(scope) != MilestoneKeyOf(repo, threshold)
    ensures MilestoneKeyOf(repo, threshold) != CounterKey
  {
    RuleKeyBars(r, scope);
    CounterKeyBars();
    assert r.IdentityKey(scope)[0] == r.kind[0] != 'm';
    assert MilestoneKeyOf(repo, threshold)[0] == 'm';
    assert CounterKey[0] == 'o';
  }

  lemma CancelPrefix(p: string, a: string, b: string)
    requires p + a == p + b
    ensures a == b
  {
    assert a == (p + a)[|p|..] && b == (p + b)[|p|..];
  }

  lemma CancelSuffix(a: string, b: string, x: string, y: string)
    requires a + x == b + y && |x| == |y|
    ensures a == b && x == y
  {
    assert a == (a + x)[..|a|] && b == (b + y)[..|b|];
    assert x == (a + x)[|a|..] && y == (b + y)[|b|..];
  }

  /** Text that ends in a bar, followed by a field without one, splits in one way only. */
  lemma LastFieldUnique(p: string, t: string, q: string, u: string)
    requires p + t == q + u
    requires p != "" && p[|p| - 1] == '|' && q != "" && q[|q| - 1] == '|'
    requires NoBarIn(t) && NoBarIn(u)
    ensures p == q && t == u
  {
    var s := p + t;
    assert s[|p| - 1] == '|' && s[|q| - 1] == '|';
    assert forall i :: |p| <= i < |s| ==> s[i] == t[i - |p|];
    assert forall i :: |q| <= i < |s| ==> s[i] == (q + u)[i] == u[i - |q|];
    assert |p| == |q|;
    CancelSuffix(p, q, t, u);
  }

  predicate NoBarIn(s: string) {
    forall i :: 0 <= i < |s| ==> s[i] != '|'
  }

  lemma DigitsAreNotBars(s: string)
    requires AllDigits(s)
    ensures NoBarIn(s) && NoBarIn("-" + s)
  {
  }

  lemma ItoaHasNoBar(n: int)
    ensures NoBarIn(Itoa(n))
  {
    var m: nat := if n < 0 then -n else n;
    assert AllDigits(Digits(m)) by {
      DigitsRoundTrip(m);
    }
    DigitsAreNotBars(Digits(m));
  }

  /** A milestone key determines its repository and threshold, even if the name holds bars. */
  lemma MilestoneKeyInjective(repo: string, threshold: int, repo': string, threshold': int)
    ensures MilestoneKeyOf(repo, threshold) == MilestoneKeyOf(repo', threshold')
      ==> repo == repo' && threshold == threshold'
  {
    var p, p' := repo + "|stars|", repo' + "|stars|";
    var t, t' := Itoa(threshold), Itoa(threshold');
    if MilestoneKeyOf(repo, threshold) == MilestoneKeyOf(repo', threshold') {
      CancelPrefix("milestone|", (p + t) + "|once", (p' + t') + "|once");
      CancelSuffix(p + t, p' + t', "|once", "|once");
      ItoaHasNoBar(threshold);
      ItoaHasNoBar(threshold');
      LastFieldUnique(p, t, p', t');
      CancelSuffix(repo, repo', "|stars|", "|stars|");
      AtoiOfItoa(threshold);
      AtoiOfItoa(threshold');
    }
  }

  lemma MilestoneIsNotTheCounter(repo: string, threshold: int)
    ensures MilestoneKeyOf(repo, threshold) != CounterKey
  {
    assert MilestoneKeyOf(repo, threshold)[0] == 'm' && CounterKey[0] == 'o';
  }

  /** Text before the first bar is unique. */
  lemma FirstFieldUnique(a: string, b: string, x: string, y: string)
    requires a + ("|" + x) == b + ("|" + y) && NoBarIn(a) && NoBarIn(b)
    ensures a == b
  {
    BarIsNotBefore(a, x, b, "|" + y);
    BarIsNotBefore(b, y, a, "|" + x);
    assert a == (a + ("|" + x))[..|a|] && b == (b + ("|" + y))[..|b|];
  }

  lemma BarIsNotBefore(a: string, x: string, b: string, y: string)
    requires a + ("|" + x) == b + y && NoBarIn(b)
    ensures |a| >= |b|
  {
    var s := a + ("|" + x);
    assert s[|a|] == '|';
    assert forall i :: 0 <= i < |b| ==> s[i] == (b + y)[i] == b[i];
  }

  /** Ops rules that share a key share their event, if neither event holds a bar. */
  lemma SameKeySameEvent(r: RuleSpec, r': RuleSpec)
    requires r.kind == r'.kind && r.OpsKey() == r'.OpsKey()
    requires NoBarIn(r.event) && NoBarIn(r'.event)
    ensures r.event == r'.event
  {
    var x := r.metric + ("|" + (r.window + ("|" + (r.op + ("|" + (r.valueText + ("|" + r.DebounceMode())))))));
    var x' := r'.metric + ("|" + (r'.window + ("|" + (r'.op + ("|" + (r'.valueText + ("|" + r'.DebounceMode())))))));
    CancelPrefix(r.kind, "|" + (r.event + ("|" + x)), "|" + (r'.event + ("|" + x')));
    CancelPrefix("|", r.event + ("|" + x), r'.event + ("|" + x'));
    FirstFieldUnique(r.event, r'.event, x, x');
  }

  function KeyFields(r: RuleSpec, scope: string): seq<string> {
    [r.kind, scope, r.metric, r.window, r.op, r.valueText, r.DebounceMode()]
  }

  predicate NoBarsIn(fields: seq<string>) {
    forall i :: 0 <= i < |fields| ==> NoBarIn(fields[i])
  }

  function Joined(fields: seq<string>): string
    requires fields != []
  {
    if |fields| == 1 then fields[0] else fields[0] + ("|" + Joined(fields[1..]))
  }

  lemma {:induction false} JoinedUnique(a: seq<string>, b: seq<string>)
    requires a != [] && |a| == |b| && NoBarsIn(a) && NoBarsIn(b) && Joined(a) == Joined(b)
    ensures a == b
  {
    if |a| > 1 {
      FirstFieldUnique(a[0], b[0], Joined(a[1..]), Joined(b[1..]));
      CancelPrefix(a[0], "|" + Joined(a[1..]), "|" + Joined(b[1..]));
      CancelPrefix("|", Joined(a[1..]), Joined(b[1..]));
      JoinedUnique(a[1..], b[1..]);
      assert a == [a[0]] + a[1..] && b == [b[0]] + b[1..];
    }
  }

  lemma KeyIsJoined(r: RuleSpec, scope: string)
    ensures r.IdentityKey(scope) == Joined(KeyFields(r, scope))
  {
    var f := KeyFields(r, scope);
    assert f[1..][1..] == f[2..] && f[2..][1..] == f[3..] && f[3..][1..] == f[4..] && f[4..][1..] == f[5..] && f[5..][1..] == f[6..];
    assert Joined(f[6..]) == f[6];
    assert Joined(f[5..]) == f[5] + ("|" + f[6]);
    assert Joined(f[4..]) == f[4] + ("|" + (f[5] + ("|" + f[6])));
    assert Joined(f[3..]) == f[3] + ("|" + (f[4] + ("|" + (f[5] + ("|" + f[6])))));
    assert Joined(f[2..]) == f[2] + ("|" + (f[3] + ("|" + (f[4] + ("|" + (f[5] + ("|" + f[6])))))));
  }

  /** Rules whose fields hold no bar share a key only if they agree on every field of it. */
  lemma RuleKeyInjective(r: RuleSpec, scope: string, r': RuleSpec, scope': string)
    requires NoBarsIn(KeyFields(r, scope)) && NoBarsIn(KeyFields(r', scope'))
    requires r.IdentityKey(scope) == r'.IdentityKey(scope')
    ensures r.kind == r'.kind && scope == scope' && r.metric == r'.metric && r.window == r'.window
    ensures r.op == r'.op && r.valueText == r'.valueText && r.DebounceMode() == r'.DebounceMode()
  {
    KeyIsJoined(r, scope);
    KeyIsJoined(r', scope');
    var f, f' := KeyFields(r, scope), KeyFields(r', scope');
    JoinedUnique(f, f');
    assert f[0] == f'[0] && f[1] == f'[1] && f[2] == f'[2] && f[3] == f'[3] && f[4] == f'[4] && f[5] == f'[5] && f[6] == f'[6];
  }
}
