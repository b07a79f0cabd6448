/**
 * Several evaluation passes at once: the background loop and request-spawned ones, interleaved at store-call
 * granularity.
 */
module AlertRaces {
  import opened AlertStore
  import opened Alerts
  import opened AlertEdges
  import opened Runs

  /** A pass is between store calls, or has been told that no ACTIVE event exists and is about to insert one. */
  datatype Pass = Idle | Firing(o: Obs)

  /** `passes` has one place for each pass that may run at the same time. */
  datatype System = System(events: seq<AlertEvent>, passes: seq<Pass>)

  datatype Move =
    | Look(pass: nat, o: Obs)
    | Insert(pass: nat)
    | ResolveByHand(id: nat)

  /**
   * Look is the one store call an observation starts with; Insert is the second one, if the first found nothing or
   * failed.
   */
  ghost function Apply(s: System, m: Move): System {
    match m
    case Look(i, o) =>
      if i >= |s.passes| || s.passes[i].Firing? then s
      else if !High(o) then
        (if o.LagSeen? && !o.faults.first then s.(events := ResolveAll(s.events, o.rule.id, Prefix(o.group.id))) else s)
      else if o.LagSeen? && !o.faults.first && HasActive(s.events, o.rule.id, Prefix(o.group.id)) then s
      else s.(passes := s.passes[i := Firing(o)])
    case Insert(i) =>
      if i >= |s.passes| || s.passes[i].Idle? then s
      else s.(events := Fired(s.events, s.passes[i].o), passes := s.passes[i := Idle])
    case ResolveByHand(id) =>
      if id < |s.events| then s.(events := s.events[id := s.events[id].(status := Resolved)]) else s
  }

  /** A pass that is not interrupted does what the sequential evaluator does. */
  lemma {:induction false} UninterruptedPass(s: System, i: nat, o: Obs)
    requires i < |s.passes| && s.passes[i].Idle?
    ensures Run(Apply, s, [Look(i, o), Insert(i)]) == s.(events := Observe(s.events, o))
  {
    RunTwo(Apply, s, Look(i, o), Insert(i));
    assert s.passes[i := Firing(o)][i := Idle] == s.passes;
  }

  ghost function FiringFor(rule: int, group: string): Pass -> bool {
    (p: Pass) => p.Firing? && Concerns(p.o, rule, group)
  }

  /** ACTIVE events about the group, and passes on their way to insert another. */
  ghost function Load(s: System, rule: int, group: string): nat {
    ActiveFor(s.events, rule, group) + Count(FiringFor(rule, group), s.passes)
  }

  ghost predicate FindsOwn(group: string) {
    forall lag: int, threshold | lag as real > threshold :: Like(LagAlarm(group, lag, threshold), Prefix(group) + "%")
  }

  lemma {:induction false} UnescapedFindsOwn(group: string)
    requires Unescaped(group)
    ensures FindsOwn(group)
  {
    forall lag: int, threshold | lag as real > threshold
      ensures Like(LagAlarm(group, lag, threshold), Prefix(group) + "%")
    {
      assert forall c | c in Prefix(group) :: c in "Consumer group " || c in group;
      PrefixMatchesItself(Prefix(group), LagText(lag, threshold));
    }
  }

  // ---------------------------------------------------------------- the bound

  /**
   * Only lag rules watch groups: events and pending inserts of the rule come from lag observations above the
   * threshold.
   */
  ghost predicate Orderly(s: System, rule: int) {
    && (forall e | e in s.events && e.rule == rule && e.status.Active? ::
          exists g, lag: int, threshold | lag as real > threshold :: e.message == LagAlarm(g, lag, threshold))
    && (forall p | p in s.passes && p.Firing? && p.o.rule.id == rule :: p.o.LagSeen? && High(p.o))
  }

  /** The rule watches lags, and its lookups succeed; resolves and inserts may fail. */
  ghost predicate LagRule(m: Move, rule: int) {
    m.Look? && m.o.rule.id == rule ==> m.o.LagSeen? && (High(m.o) ==> !m.o.faults.first)
  }

  lemma {:induction false} OwnAlarmIsFound(e: AlertEvent, rule: int, group: string)
    requires FindsOwn(group) && ActiveAbout(rule, group)(e)
    requires exists g, lag: int, threshold | lag as real > threshold :: e.message == LagAlarm(g, lag, threshold)
    ensures Matches(e, rule, Prefix(group))
  {
    var g, lag: int, threshold :| lag as real > threshold && e.message == LagAlarm(g, lag, threshold);
    assert Names(e.message, g);
    NamesOneGroup(e.message, g, group);
  }

  lemma {:induction false} NothingFoundMeansNone(s: System, rule: int, group: string)
    requires Orderly(s, rule) && FindsOwn(group) && !HasActive(s.events, rule, Prefix(group))
    ensures ActiveFor(s.events, rule, group) == 0
  {
    CountZero(ActiveAbout(rule, group), s.events);
    forall e | e in s.events
      ensures ActiveAbout(rule, group)(e) ==> Matches(e, rule, Prefix(group))
    {
      if ActiveAbout(rule, group)(e) {
        OwnAlarmIsFound(e, rule, group);
      }
    }
  }

  lemma {:induction false} ResolvingTakesAway(events: seq<AlertEvent>, rule: int, prefix: string, r: int, group: string)
    ensures ActiveFor(ResolveAll(events, rule, prefix), r, group) <= ActiveFor(events, r, group)
  {
    ResolveAllAt(events, rule, prefix);
    CountMonotone(ActiveAbout(r, group), ResolveAll(events, rule, prefix), ActiveAbout(r, group), events);
  }

  lemma {:induction false} MoveKeepsOrder(s: System, m: Move, rule: int)
    requires Orderly(s, rule) && LagRule(m, rule)
    ensures Orderly(Apply(s, m), rule)
  {
    match m {
      case Look(i, o) =>
        ResolveAllAt(s.events, o.rule.id, if o.LagSeen? then Prefix(o.group.id) else "");
        var less := ResolveAll(s.events, o.rule.id, if o.LagSeen? then Prefix(o.group.id) else "");
        assert forall k | 0 <= k < |less| && less[k].status.Active? :: less[k] == s.events[k];
      case Insert(i) =>
        if i < |s.passes| && s.passes[i].Firing? {
          var o := s.passes[i].o;
          assert s.passes[i] in s.passes;
          assert o.LagSeen? ==> AlarmOf(o).message == LagAlarm(o.group.id, o.group.maxLag, o.rule.threshold);
        }
      case ResolveByHand(id) =>
    }
  }

  lemma {:induction false} LookKeepsBound(s: System, i: nat, o: Obs, rule: int, group: string)
    requires Orderly(s, rule) && LagRule(Look(i, o), rule) && FindsOwn(group) && Load(s, rule, group) <= |s.passes|
    ensures Load(Apply(s, Look(i, o)), rule, group) <= |s.passes|
  {
    var after := Apply(s, Look(i, o));
    if o.LagSeen? && !High(o) {
      ResolvingTakesAway(s.events, o.rule.id, Prefix(o.group.id), rule, group);
    } else if after.passes != s.passes {
      CountUpdate(FiringFor(rule, group), s.passes, i, Firing(o));
      CountAtMost(FiringFor(rule, group), after.passes);
      if Concerns(o, rule, group) {
        NothingFoundMeansNone(s, rule, group);
      }
    }
  }

  lemma {:induction false} InsertKeepsBound(s: System, i: nat, rule: int, group: string)
    requires Orderly(s, rule) && Load(s, rule, group) <= |s.passes|
    ensures Load(Apply(s, Insert(i)), rule, group) <= |s.passes|
  {
    if i < |s.passes| && s.passes[i].Firing? {
      var o := s.passes[i].o;
      assert s.passes[i] in s.passes;
      CountUpdate(FiringFor(rule, group), s.passes, i, Idle);
      FireCounts(s.events, o, rule, group);
    }
  }

  lemma {:induction false} MoveKeepsBound(s: System, m: Move, rule: int, group: string)
    requires Orderly(s, rule) && LagRule(m, rule) && FindsOwn(group) && Load(s, rule, group) <= |s.passes|
    ensures Load(Apply(s, m), rule, group) <= |s.passes| == |Apply(s, m).passes|
  {
    match m {
      case Look(i, o) => LookKeepsBound(s, i, o, rule, group);
      case Insert(i) => InsertKeepsBound(s, i, rule, group);
      case ResolveByHand(id) =>
        if id < |s.events| {
          CountUpdate(ActiveAbout(rule, group), s.events, id, s.events[id].(status := Resolved));
        }
    }
  }

  /**
   * With k passes at once, whatever the interleaving, a group never has more ACTIVE events and pending inserts than k,
   * provided it did not at the start and its search finds its own alarms. In particular a single pass at a time never
   * opens a second event.
   */
  lemma {:induction false} ActiveEventsBoundedByPasses(s: System, moves: seq<Move>, rule: int, group: string)
    requires Orderly(s, rule) && FindsOwn(group) && Load(s, rule, group) <= |s.passes|
    requires forall m | m in moves :: LagRule(m, rule)
    ensures var t := Run(Apply, s, moves);
      |t.passes| == |s.passes| && Orderly(t, rule) && Load(t, rule, group) <= |s.passes|
  {
    if moves != [] {
      var init, last := moves[..|moves| - 1], moves[|moves| - 1];
      ActiveEventsBoundedByPasses(s, init, rule, group);
      MoveKeepsOrder(Run(Apply, s, init), last, rule);
      MoveKeepsBound(Run(Apply, s, init), last, rule, group);
    }
  }

  // ---------------------------------------------------------------- the bound is reached, and when it fails

  function Start(k: nat): System {
    System([], seq(k, _ => Idle))
  }

  lemma {:induction false} StartIsEmpty(k: nat, rule: int, group: string)
    ensures Orderly(Start(k), rule) && Load(Start(k), rule, group) == 0
  {
    CountZero(ActiveAbout(rule, group), Start(k).events);
    CountZero(FiringFor(rule, group), Start(k).passes);
  }

  /** All passes look before any of them inserts. */
  function AllLook(k: nat, o: Obs): seq<Move> {
    Series(k, i => [Look(i, o)])
  }

  function AllInsert(k: nat): seq<Move> {
    Series(k, i => [Insert(i)])
  }

  /** `n` passes have looked. */
  ghost predicate Looked(s: System, k: nat, n: nat, o: Obs) {
    s.events == [] && |s.passes| == k && forall i | 0 <= i < k :: s.passes[i] == if i < n then Firing(o) else Idle
  }

  /** `n` passes have inserted; the others are about to. */
  ghost predicate Inserted(s: System, k: nat, n: nat, o: Obs)
    requires o.LagSeen?
  {
    |s.passes| == k && (forall i | n <= i < k :: s.passes[i] == Firing(o)) &&
      ActiveFor(s.events, o.rule.id, o.group.id) == n
  }

  lemma {:induction false} OneMoreLooked(s: System, k: nat, n: nat, o: Obs)
    requires n < k && High(o) && Looked(s, k, n, o)
    ensures Looked(Run(Apply, s, [Look(n, o)]), k, n + 1, o)
  {
  }

  lemma {:induction false} OneMoreInserted(s: System, k: nat, n: nat, o: Obs)
    requires o.LagSeen? && !o.faults.insert && n < k && Inserted(s, k, n, o)
    ensures Inserted(Run(Apply, s, [Insert(n)]), k, n + 1, o)
  {
  }

  lemma {:induction false} AllHaveLooked(k: nat, o: Obs)
    requires High(o)
    ensures Looked(Run(Apply, Start(k), AllLook(k, o)), k, k, o)
  {
    forall s: System, n: nat | n < k && Looked(s, k, n, o)
      ensures Looked(Run(Apply, s, [Look(n, o)]), k, n + 1, o)
    {
      OneMoreLooked(s, k, n, o);
    }
    SeriesKeeps(Apply, Start(k), k, k, i => [Look(i, o)], (s, n) => Looked(s, k, n, o));
  }

  lemma {:induction false} AllHaveInserted(s: System, k: nat, o: Obs)
    requires o.LagSeen? && !o.faults.insert && Inserted(s, k, 0, o)
    ensures Inserted(Run(Apply, s, AllInsert(k)), k, k, o)
  {
    forall t: System, n: nat | n < k && Inserted(t, k, n, o)
      ensures Inserted(Run(Apply, t, [Insert(n)]), k, n + 1, o)
    {
      OneMoreInserted(t, k, n, o);
    }
    SeriesKeeps(Apply, s, k, k, i => [Insert(i)], (t, n) => Inserted(t, k, n, o));
  }

  /** The bound is tight: k passes that all look before the first insert open k ACTIVE events for one group. */
  lemma {:induction false} BoundIsReached(k: nat, o: Obs)
    requires o.LagSeen? && o.faults == NO_FAULTS && High(o)
    ensures ActiveFor(Run(Apply, Start(k), AllLook(k, o) + AllInsert(k)).events, o.rule.id, o.group.id) == k
  {
    AllHaveLooked(k, o);
    CountZero(ActiveAbout(o.rule.id, o.group.id), []);
    RunInTurn(Apply, Start(k), AllLook(k, o), AllInsert(k));
    AllHaveInserted(Run(Apply, Start(k), AllLook(k, o)), k, o);
  }

  ghost predicate StaysBounded(k: nat, group: string) {
    forall moves: seq<Move>, rule: int | (forall m | m in moves :: LagRule(m, rule)) ::
      ActiveFor(Run(Apply, Start(k), moves).events, rule, group) <= k
  }

  ghost predicate OnlyCopies(s: System, n: nat, o: Obs)
    requires o.LagSeen?
  {
    && s.passes != [] && s.passes[0].Idle? && (forall e | e in s.events :: e == AlarmOf(o))
    && ActiveFor(s.events, o.rule.id, o.group.id) == n
  }

  lemma {:induction false} OneMoreCopy(s: System, n: nat, o: Obs)
    requires o.LagSeen? && o.faults == NO_FAULTS && High(o) && !Like(AlarmOf(o).message, Prefix(o.group.id) + "%") &&
      OnlyCopies(s, n, o)
    ensures OnlyCopies(Run(Apply, s, [Look(0, o), Insert(0)]), n + 1, o)
  {
    UninterruptedPass(s, 0, o);
    FireCounts(s.events, o, o.rule.id, o.group.id);
  }

  function Rounds(n: nat, o: Obs): seq<Move> {
    Series(n, _ => [Look(0, o), Insert(0)])
  }

  /** A group whose search misses its own alarm gets one more event with every pass. */
  lemma {:induction false} MissedAlarmsPileUp(s: System, n: nat, o: Obs)
    requires o.LagSeen? && o.faults == NO_FAULTS && High(o) && !Like(AlarmOf(o).message, Prefix(o.group.id) + "%") &&
      OnlyCopies(s, 0, o)
    ensures OnlyCopies(Run(Apply, s, Rounds(n, o)), n, o)
  {
    forall t: System, m: nat | OnlyCopies(t, m, o)
      ensures OnlyCopies(Run(Apply, t, [Look(0, o), Insert(0)]), m + 1, o)
    {
      OneMoreCopy(t, m, o);
    }
    SeriesKeeps(Apply, s, n, n, _ => [Look(0, o), Insert(0)], (t, m) => OnlyCopies(t, m, o));
  }

  lemma {:induction false} RoundsAreLagMoves(n: nat, o: Obs)
    requires o.LagSeen? && o.faults == NO_FAULTS
    ensures forall m | m in Rounds(n, o) :: LagRule(m, o.rule.id)
  {
    if n > 0 {
      RoundsAreLagMoves(n - 1, o);
      assert Rounds(n, o) == Rounds(n - 1, o) + [Look(0, o), Insert(0)];
    }
  }

  /**
   * With k passes, k bounds the ACTIVE events of a group over every run exactly when its search finds its own alarms.
   */
  lemma {:induction false} BoundedExactlyWhenFound(k: nat, group: string)
    requires k > 0
    ensures StaysBounded(k, group) <==> FindsOwn(group)
  {
    if FindsOwn(group) {
      forall moves: seq<Move>, rule: int | (forall m | m in moves :: LagRule(m, rule))
        ensures ActiveFor(Run(Apply, Start(k), moves).events, rule, group) <= k
      {
        StartIsEmpty(k, rule, group);
        ActiveEventsBoundedByPasses(Start(k), moves, rule, group);
      }
    } else {
      var lag: int, threshold :| lag as real > threshold && !Like(LagAlarm(group, lag, threshold), Prefix(group) + "%");
      var o := LagSeen(Rule(0, 0, ConsumerLag, threshold, true), CL.GroupInfo(group, "", 0, lag, lag, 0), NO_FAULTS);
      StartIsEmpty(k, 0, group);
      MissedAlarmsPileUp(Start(k), k + 1, o);
      RoundsAreLagMoves(k + 1, o);
      assert ActiveFor(Run(Apply, Start(k), Rounds(k + 1, o)).events, 0, group) == k + 1;
    }
  }

  /** A literal text, then an escaped wildcard: only that text with a % after it, and nothing more. */
  lemma {:induction false} PrefixThenEscape(prefix: string, s: string)
    requires Literal(prefix)
    ensures Like(s, prefix + "\\%") ==> s == prefix + "%"
  {
    var pattern := prefix + "\\%";
    if prefix == [] {
      assert pattern[0] == '\\' && pattern[1] == '%' && pattern[2..] == [];
      assert Like(s, pattern) ==> s != [] && Like(s[1..], []);
      assert s != [] ==> s == [s[0]] + s[1..];
    } else {
      assert prefix[0] in prefix && pattern[1..] == prefix[1..] + "\\%";
      if s != [] {
        PrefixThenEscape(prefix[1..], s[1..]);
        assert s == [s[0]] + s[1..];
      }
    }
  }

  /** A backslash at the end of a group ID takes the wildcard out of its search. */
  lemma {:induction false} TrailingBackslashIsMissed(group: string)
    requires Literal(group)
    ensures !FindsOwn(group + "\\")
  {
    var id := group + "\\";
    var alarm := LagAlarm(id, 1, 0.0);
    LiteralPrefix(group);
    PrefixThenEscape(Prefix(group), alarm);
    assert Prefix(id) + "%" == Prefix(group) + "\\%";
    assert alarm[|Prefix(group)|] == '\\';
    assert 1 as real > 0.0;
  }

  // ---------------------------------------------------------------- which group IDs find their own alarms

  function Backslashes(k: nat): string {
    seq(k, _ => '\\')
  }

  predicate WildcardFree(s: string) { '%' !in s && '_' !in s }

  lemma {:induction false} LiteralHead(a: string, s: string, pattern: string)
    requires Literal(a)
    ensures Like(a + s, a + pattern) <==> Like(s, pattern)
  {
    if a == [] {
      assert a + s == s && a + pattern == pattern;
    } else {
      assert a[0] in a && (a + s)[1..] == a[1..] + s && (a + pattern)[1..] == a[1..] + pattern;
      LiteralHead(a[1..], s, pattern);
    }
  }

  /**
   * Two backslashes of the pattern take one of the text, so an odd one, or text after them, is left without a match.
   */
  lemma {:induction false} RunMatches(m: nat, rest: string, k: nat, b: string)
    requires 2 * m > k && WildcardFree(b) && (b == [] || b[0] != '\\')
    ensures Like(Backslashes(m) + rest, Backslashes(k) + (b + "%")) <==> k % 2 == 0 && b == []
  {
    var s, pattern := Backslashes(m) + rest, Backslashes(k) + (b + "%");
    assert s[0] == '\\';
    if k == 0 {
      assert pattern == b + "%";
      if b == [] {
        assert pattern == "%";
        PercentMatchesAll(s);
      } else {
        assert b[0] in b;
      }
    } else if k == 1 {
      assert pattern[0] == '\\' && pattern[1] == (b + "%")[0];
    } else {
      assert pattern[0] == pattern[1] == '\\';
      assert s[1..] == Backslashes(m - 1) + rest && pattern[2..] == Backslashes(k - 2) + (b + "%");
      RunMatches(m - 1, rest, k - 2, b);
    }
  }

  lemma {:induction false} PrefixRegrouped(a: string, run: string, b: string, rest: string)
    ensures Prefix(a + (run + b)) + rest == Prefix(a) + (run + (b + rest))
  {
  }

  lemma {:induction false} AlarmMatches(a: string, k: nat, b: string, lag: int, threshold: real)
    requires Literal(a) && k > 0 && WildcardFree(b) && (b == [] || b[0] != '\\')
    ensures var g := a + (Backslashes(k) + b);
      Like(LagAlarm(g, lag, threshold), Prefix(g) + "%") <==> k % 2 == 0 && b == []
  {
    var run, rest := Backslashes(k), LagText(lag, threshold);
    PrefixRegrouped(a, run, b, rest);
    PrefixRegrouped(a, run, b, "%");
    LiteralPrefix(a);
    LiteralHead(Prefix(a), run + (b + rest), run + (b + "%"));
    RunMatches(k, b + rest, k, b);
  }

  /** How many backslashes end the text. */
  function Trailing(s: string): (n: nat)
    ensures n <= |s|
  {
    if s == [] || s[|s| - 1] != '\\' then 0 else 1 + Trailing(s[..|s| - 1])
  }

  /** All backslashes stand in one run at the very end, and that run is even. */
  predicate Paired(g: string) {
    Trailing(g) % 2 == 0 && Unescaped(g[..|g| - Trailing(g)])
  }

  function Leading(s: string): (n: nat)
    ensures n <= |s| && s[..n] == Backslashes(n) && (n < |s| ==> s[n] != '\\')
  {
    if s == [] || s[0] != '\\' then 0 else 1 + Leading(s[1..])
  }

  function Head(s: string): (n: nat)
    ensures n <= |s| && Unescaped(s[..n]) && (n < |s| ==> s[n] == '\\')
  {
    if s == [] || s[0] == '\\' then 0
    else
      var n := 1 + Head(s[1..]);
      assert s[..n] == [s[0]] + s[1..][..n - 1];
      n
  }

  lemma {:induction false} TrailingIs(c: string, n: nat)
    requires c == [] || c[|c| - 1] != '\\'
    ensures Trailing(c + Backslashes(n)) == n
  {
    var s := c + Backslashes(n);
    if n == 0 {
      assert s == c;
    } else {
      assert s[..|s| - 1] == c + Backslashes(n - 1);
      TrailingIs(c, n - 1);
    }
  }

  lemma {:induction false} TrailingStops(x: string, y: string)
    requires y != [] && y[0] != '\\'
    ensures Trailing(x + y) < |y|
  {
    var s := x + y;
    if y[|y| - 1] == '\\' {
      assert s[..|s| - 1] == x + y[..|y| - 1];
      TrailingStops(x, y[..|y| - 1]);
    }
  }

  lemma {:induction false} PairedParts(a: string, k: nat, b: string)
    requires Unescaped(a) && k > 0 && (b == [] || b[0] != '\\')
    ensures Paired(a + (Backslashes(k) + b)) <==> k % 2 == 0 && b == []
  {
    var g := a + (Backslashes(k) + b);
    if b == [] {
      assert a != [] ==> a[|a| - 1] in a;
      assert g == a + Backslashes(k);
      TrailingIs(a, k);
      assert g[..|a|] == a;
    } else {
      assert g == (a + Backslashes(k)) + b;
      TrailingStops(a + Backslashes(k), b);
      assert g[..|g| - Trailing(g)][|a|] == '\\';
    }
  }

  /**
   * A condition on the ID alone: without wildcards, a group ID finds its own alarms exactly when its backslashes pair
   * up at its end.
   */
  lemma {:induction false} FindsOwnExactlyWhenPaired(g: string)
    requires WildcardFree(g)
    ensures FindsOwn(g) <==> Paired(g)
  {
    var n := Head(g);
    var a, tail := g[..n], g[n..];
    if n == |g| {
      assert a == g;
      UnescapedFindsOwn(g);
      NoTrailing(g);
    } else {
      var k := Leading(tail);
      var b := tail[k..];
      assert g == a + (Backslashes(k) + b) && tail[0] == '\\';
      PairedParts(a, k, b);
      forall lag: int, threshold | lag as real > threshold
        ensures Like(LagAlarm(g, lag, threshold), Prefix(g) + "%") <==> k % 2 == 0 && b == []
      {
        AlarmMatches(a, k, b, lag, threshold);
      }
      assert 1 as real > 0.0;
      assert Like(LagAlarm(g, 1, 0.0), Prefix(g) + "%") <==> k % 2 == 0 && b == [];
    }
  }

  lemma {:induction false} NoTrailing(g: string)
    requires Unescaped(g)
    ensures Paired(g)
  {
    assert g != [] ==> g[|g| - 1] in g;
    assert g[..|g| - Trailing(g)] == g;
  }

  /**
   * So for a group ID without wildcards, k passes bound its ACTIVE events over every run exactly when its backslashes
   * pair up.
   */
  lemma {:induction false} BoundedExactlyWhenPaired(k: nat, g: string)
    requires k > 0 && WildcardFree(g)
    ensures StaysBounded(k, g) <==> Paired(g)
  {
    BoundedExactlyWhenFound(k, g);
    FindsOwnExactlyWhenPaired(g);
  }
}
