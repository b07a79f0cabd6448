/** How alerts follow the lag over every run of observations, and when they do not. */
module AlertEdges {
  import opened Wrappers
  import opened AlertStore
  import opened Alerts
  import opened Runs
  import CL = ConsumerLag

  // ---------------------------------------------------------------- counting events

  predicate Concerns(o: Obs, rule: int, g: string) {
    o.LagSeen? && o.rule.id == rule && o.group.id == g
  }

  ghost predicate IsAbout(e: AlertEvent, rule: int, group: string) {
    e.rule == rule && Names(e.message, group)
  }

  ghost function ActiveAbout(rule: int, group: string): AlertEvent -> bool {
    e => IsAbout(e, rule, group) && e.status.Active?
  }

  ghost function About(rule: int, group: string): AlertEvent -> bool {
    e => IsAbout(e, rule, group)
  }

  /** ACTIVE events of a rule about a group. */
  ghost function ActiveFor(events: seq<AlertEvent>, rule: int, group: string): nat {
    Count(ActiveAbout(rule, group), events)
  }

  /** All events ever fired by a rule about a group. */
  ghost function FiredFor(events: seq<AlertEvent>, rule: int, group: string): nat {
    Count(About(rule, group), events)
  }

  lemma {:induction false} AlarmIsAbout(o: Obs, rule: int, group: string)
    requires o.LagSeen? || o.rule.id != rule
    ensures IsAbout(AlarmOf(o), rule, group) <==> Concerns(o, rule, group)
  {
    if o.LagSeen? {
      assert Names(AlarmOf(o).message, o.group.id);
      if Names(AlarmOf(o).message, group) {
        NamesOneGroup(AlarmOf(o).message, group, o.group.id);
      }
    }
  }

  lemma {:induction false} FireCounts(events: seq<AlertEvent>, o: Obs, rule: int, group: string)
    requires o.LagSeen? || o.rule.id != rule
    ensures var (more, n) := (events + [AlarmOf(o)], if Concerns(o, rule, group) then 1 else 0);
      ActiveFor(more, rule, group) == ActiveFor(events, rule, group) + n &&
        FiredFor(more, rule, group) == FiredFor(events, rule, group) + n
  {
    AlarmIsAbout(o, rule, group);
    CountLast(ActiveAbout(rule, group), events, AlarmOf(o));
    CountLast(About(rule, group), events, AlarmOf(o));
  }

  // ---------------------------------------------------------------- edge triggering

  ghost predicate FiredFrom(message: string, ids: set<string>) {
    exists g, lag: int, threshold | g in ids && lag as real > threshold :: message == LagAlarm(g, lag, threshold)
  }

  /** ACTIVE events of the rule are about known groups. */
  ghost predicate WellNamed(events: seq<AlertEvent>, rule: int, ids: set<string>) {
    forall e | e in events && e.rule == rule && e.status.Active? :: FiredFrom(e.message, ids)
  }

  /** Searching for a group finds the alarms about it and no alarm about another. */
  ghost predicate SearchIsExact(ids: set<string>) {
    forall g, h, lag: int, threshold | g in ids && h in ids && lag as real > threshold ::
      Like(LagAlarm(h, lag, threshold), Prefix(g) + "%") <==> g == h
  }

  ghost predicate PrefixFree(ids: set<string>) {
    forall a, b | a in ids && b in ids && a <= b :: a == b
  }

  lemma {:induction false} LiteralPrefix(g: string)
    requires Literal(g)
    ensures Literal(Prefix(g))
  {
  }

  lemma {:induction false} StartsWithOwn(g: string, h: string, rest: string)
    requires g <= h || h <= g ==> g == h
    ensures Prefix(g) <= Prefix(h) + rest <==> g == h
  {
    if Prefix(g) <= Prefix(h) + rest {
      PrefixesCompare(g, h, rest);
    }
  }

  lemma {:induction false} PrefixesCompare(g: string, h: string, rest: string)
    requires Prefix(g) <= Prefix(h) + rest
    ensures g <= h || h <= g
  {
    var m := Prefix(h) + rest;
    assert forall i | 0 <= i < |g| :: Prefix(g)[15 + i] == g[i];
    assert forall i | 0 <= i < |h| :: m[15 + i] == h[i];
  }

  /** Literal group IDs none of which is a prefix of another can be told apart by the search. */
  lemma {:induction false} PlainIdsSearchExactly(ids: set<string>)
    requires PrefixFree(ids) && forall g | g in ids :: Literal(g)
    ensures SearchIsExact(ids)
  {
    forall g, h, lag: int, threshold | g in ids && h in ids && lag as real > threshold
      ensures Like(LagAlarm(h, lag, threshold), Prefix(g) + "%") <==> g == h
    {
      LiteralPrefix(g);
      LiteralMeansPrefix(LagAlarm(h, lag, threshold), Prefix(g));
      StartsWithOwn(g, h, LagText(lag, threshold));
    }
  }

  lemma {:induction false} MatchesOwn(e: AlertEvent, rule: int, g: string, ids: set<string>)
    requires SearchIsExact(ids) && g in ids && (e.rule == rule && e.status.Active? ==> FiredFrom(e.message, ids))
    ensures Matches(e, rule, Prefix(g)) <==> IsAbout(e, rule, g) && e.status.Active?
  {
    if e.rule == rule && e.status.Active? {
      var h, lag: int, threshold :| h in ids && lag as real > threshold && e.message == LagAlarm(h, lag, threshold);
      assert Names(e.message, h);
      if Names(e.message, g) {
        NamesOneGroup(e.message, g, h);
      }
    }
  }

  lemma {:induction false} SettledEvent(e: AlertEvent, rule: int, h: string, g: string, ids: set<string>)
    requires SearchIsExact(ids) && h in ids && (e.rule == rule && e.status.Active? ==> FiredFrom(e.message, ids))
    ensures var d := Settled(e, rule, Prefix(h));
      && (IsAbout(d, rule, g) <==> IsAbout(e, rule, g))
      && (IsAbout(d, rule, g) && d.status.Active? <==> IsAbout(e, rule, g) && e.status.Active? && g != h)
  {
    MatchesOwn(e, rule, h, ids);
    if IsAbout(e, rule, g) && IsAbout(e, rule, h) {
      NamesOneGroup(e.message, g, h);
    }
  }

  /** Resolving a group's alerts takes all of its own and none of another group's. */
  lemma {:induction false} ResolveCounts(events: seq<AlertEvent>, rule: int, h: string, g: string, ids: set<string>)
    requires SearchIsExact(ids) && h in ids && WellNamed(events, rule, ids)
    ensures var less := ResolveAll(events, rule, Prefix(h));
      && ActiveFor(less, rule, g) == (if g == h then 0 else ActiveFor(events, rule, g))
      && FiredFor(less, rule, g) == FiredFor(events, rule, g)
  {
    var less := ResolveAll(events, rule, Prefix(h));
    ResolveAllAt(events, rule, Prefix(h));
    forall i | 0 <= i < |events|
      ensures IsAbout(less[i], rule, g) <==> IsAbout(events[i], rule, g)
      ensures IsAbout(less[i], rule, g) && less[i].status.Active? <==>
        IsAbout(events[i], rule, g) && events[i].status.Active? && g != h
    {
      SettledEvent(events[i], rule, h, g, ids);
    }
    CountAlike(About(rule, g), less, About(rule, g), events);
    if g == h {
      CountZero(ActiveAbout(rule, g), less);
    } else {
      CountAlike(ActiveAbout(rule, g), less, ActiveAbout(rule, g), events);
    }
  }

  lemma {:induction false} ResolveElsewhere(events: seq<AlertEvent>, other: int, prefix: string, rule: int, g: string)
    requires other != rule
    ensures ActiveFor(ResolveAll(events, other, prefix), rule, g) == ActiveFor(events, rule, g)
    ensures FiredFor(ResolveAll(events, other, prefix), rule, g) == FiredFor(events, rule, g)
  {
    ResolveAllAt(events, other, prefix);
    CountAlike(About(rule, g), ResolveAll(events, other, prefix), About(rule, g), events);
    CountAlike(ActiveAbout(rule, g), ResolveAll(events, other, prefix), ActiveAbout(rule, g), events);
  }

  lemma {:induction false} CheckFindsOwn(events: seq<AlertEvent>, rule: int, g: string, ids: set<string>)
    requires SearchIsExact(ids) && g in ids && WellNamed(events, rule, ids)
    ensures HasActive(events, rule, Prefix(g)) <==> ActiveFor(events, rule, g) > 0
  {
    CountZero(ActiveAbout(rule, g), events);
    forall e | e in events
      ensures Matches(e, rule, Prefix(g)) <==> ActiveAbout(rule, g)(e)
    {
      MatchesOwn(e, rule, g, ids);
    }
  }

  /** The observation is about a known group of the rule and its store calls succeed, or it is of another rule. */
  ghost predicate Known(o: Obs, rule: int, ids: set<string>) {
    o.rule.id == rule ==> o.LagSeen? && o.group.id in ids && o.faults == NO_FAULTS
  }

  lemma {:induction false} StaysWellNamed(events: seq<AlertEvent>, o: Obs, rule: int, ids: set<string>)
    requires WellNamed(events, rule, ids) && Known(o, rule, ids)
    ensures WellNamed(Observe(events, o), rule, ids)
  {
    var after := Observe(events, o);
    ResolveAllAt(events, o.rule.id, if o.LagSeen? then Prefix(o.group.id) else "");
    forall e | e in after && e.rule == rule && e.status.Active?
      ensures FiredFrom(e.message, ids)
    {
      var i :| 0 <= i < |after| && after[i] == e;
      if i < |events| {
        assert events[i] in events;
      } else {
        assert e.message == LagAlarm(o.group.id, o.group.maxLag, o.rule.threshold);
      }
    }
  }

  /** One observation: a high one leaves its group one alert, a low one none; other groups keep what they have. */
  lemma {:induction false} ObserveCounts(events: seq<AlertEvent>, o: Obs, rule: int, g: string, ids: set<string>)
    requires SearchIsExact(ids) && g in ids && WellNamed(events, rule, ids) && Known(o, rule, ids) &&
      ActiveFor(events, rule, g) <= 1
    ensures var after := Observe(events, o);
      && ActiveFor(after, rule, g) ==
        (if !Concerns(o, rule, g) then ActiveFor(events, rule, g) else if High(o) then 1 else 0)
      && FiredFor(after, rule, g) ==
         FiredFor(events, rule, g) +
           (if Concerns(o, rule, g) && High(o) && ActiveFor(events, rule, g) == 0 then 1 else 0)
  {
    FireCounts(events, o, rule, g);
    if o.LagSeen? {
      if o.rule.id == rule {
        ResolveCounts(events, rule, o.group.id, g, ids);
        CheckFindsOwn(events, rule, o.group.id, ids);
      } else {
        ResolveElsewhere(events, o.rule.id, Prefix(o.group.id), rule, g);
      }
    }
  }

  /** What was seen of one group under one rule, in order: over the threshold or not. */
  function Highs(obs: seq<Obs>, rule: int, g: string): seq<bool> {
    if obs == [] then []
    else
      var o := obs[|obs| - 1];
      Highs(obs[..|obs| - 1], rule, g) + if Concerns(o, rule, g) then [High(o)] else []
  }

  predicate LastHigh(flags: seq<bool>) {
    flags != [] && flags[|flags| - 1]
  }

  function RisingEdges(flags: seq<bool>): nat {
    if flags == [] then 0
    else RisingEdges(flags[..|flags| - 1]) + if flags[|flags| - 1] && !LastHigh(flags[..|flags| - 1]) then 1 else 0
  }

  lemma {:induction false} FlagsGrow(flags: seq<bool>, more: seq<bool>)
    requires |more| <= 1
    ensures more == [] ==> flags + more == flags
    ensures more != [] ==> LastHigh(flags + more) == more[0]
    ensures more != [] ==>
      RisingEdges(flags + more) == RisingEdges(flags) + if more[0] && !LastHigh(flags) then 1 else 0
  {
  }

  /**
   * Alerts are edge-triggered. For a sequential evaluator over group IDs the search tells apart, starting without
   * ACTIVE events of the rule: a group has exactly one ACTIVE event if it was last seen above the threshold and none
   * otherwise, and the events ever fired for it are the rising edges seen.
   */
  lemma {:induction false} AlertsAreEdgeTriggered(events: seq<AlertEvent>, obs: seq<Obs>, rule: int, g: string,
        ids: set<string>)
    requires SearchIsExact(ids) && g in ids && forall o | o in obs :: Known(o, rule, ids)
    requires forall e | e in events && e.rule == rule :: e.status.Resolved?
    ensures WellNamed(ObserveAll(events, obs), rule, ids)
    ensures ActiveFor(ObserveAll(events, obs), rule, g) == if LastHigh(Highs(obs, rule, g)) then 1 else 0
    ensures FiredFor(ObserveAll(events, obs), rule, g) == FiredFor(events, rule, g) + RisingEdges(Highs(obs, rule, g))
  {
    if obs == [] {
      CountZero(ActiveAbout(rule, g), events);
    } else {
      var init, o := obs[..|obs| - 1], obs[|obs| - 1];
      assert obs == init + [o];
      AlertsAreEdgeTriggered(events, init, rule, g, ids);
      StaysWellNamed(ObserveAll(events, init), o, rule, ids);
      ObserveCounts(ObserveAll(events, init), o, rule, g, ids);
      FlagsGrow(Highs(init, rule, g), if Concerns(o, rule, g) then [High(o)] else []);
    }
  }

  ghost predicate KeepsEdges(ids: set<string>) {
    forall obs: seq<Obs>, rule: int, g: string | g in ids && (forall o | o in obs :: Known(o, rule, ids)) ::
      ActiveFor(ObserveAll([], obs), rule, g) == if LastHigh(Highs(obs, rule, g)) then 1 else 0
  }

  lemma {:induction false} HighsOfTwo(a: Obs, b: Obs, rule: int, g: string)
    requires Concerns(a, rule, g)
    ensures LastHigh(Highs([a, b], rule, g)) == if Concerns(b, rule, g) then High(b) else High(a)
  {
  }

  lemma {:induction false} BreaksEdges(ids: set<string>, a: Obs, b: Obs, rule: int, g: string)
    requires g in ids && Known(a, rule, ids) && Known(b, rule, ids)
    requires ActiveFor(ObserveAll([], [a, b]), rule, g) != if LastHigh(Highs([a, b], rule, g)) then 1 else 0
    ensures !KeepsEdges(ids)
  {
    assert forall x | x in [a, b] :: Known(x, rule, ids);
  }

  /** A search that misses its own group's alarm lets the next pass fire again. */
  lemma {:induction false} MissedAlarmFiresTwice(ids: set<string>, g: string, lag: int, threshold: real)
    requires g in ids && lag as real > threshold && !Like(LagAlarm(g, lag, threshold), Prefix(g) + "%")
    ensures !KeepsEdges(ids)
  {
    var o := LagSeen(Rule(0, 0, ConsumerLag, threshold, true), CL.GroupInfo(g, "", 0, lag, lag, 0), NO_FAULTS);
    RunTwo(Observe, [], o, o);
    HighsOfTwo(o, o, 0, g);
    FireCounts([], o, 0, g);
    FireCounts([AlarmOf(o)], o, 0, g);
    assert [] + [AlarmOf(o)] == [AlarmOf(o)];
    BreaksEdges(ids, o, o, 0, g);
  }

  lemma {:induction false} FiredThenResolved(o: Obs, p: Obs)
    requires o.LagSeen? && p.LagSeen? && o.faults == p.faults == NO_FAULTS && High(o) && !High(p) &&
      Matches(AlarmOf(o), p.rule.id, Prefix(p.group.id))
    ensures ObserveAll([], [o, p]) == [AlarmOf(o).(status := Resolved)]
  {
    RunTwo(Observe, [], o, p);
    assert [] + [AlarmOf(o)] == [AlarmOf(o)];
    ResolveAllAt([AlarmOf(o)], p.rule.id, Prefix(p.group.id));
  }

  /** A search that also finds another group's alarm resolves it. */
  lemma {:induction false} ForeignAlarmIsResolved(ids: set<string>, g: string, h: string, lag: int, threshold: real)
    requires g in ids && h in ids && g != h && lag as real > threshold &&
      Like(LagAlarm(h, lag, threshold), Prefix(g) + "%")
    ensures !KeepsEdges(ids)
  {
    var rule := Rule(0, 0, ConsumerLag, threshold, true);
    var o, p := LagSeen(rule, CL.GroupInfo(h, "", 0, lag, lag, 0), NO_FAULTS),
      LagSeen(rule, CL.GroupInfo(g, "", 0, 0, threshold.Floor, 0), NO_FAULTS);
    FiredThenResolved(o, p);
    HighsOfTwo(o, p, 0, h);
    CountZero(ActiveAbout(0, h), ObserveAll([], [o, p]));
    BreaksEdges(ids, o, p, 0, h);
  }

  /** A failed lookup opens one more event, whatever is active. */
  lemma {:induction false} FailedLookupFiresAgain(events: seq<AlertEvent>, o: Obs)
    requires o.LagSeen? && High(o) && o.faults.first && !o.faults.insert
    ensures ActiveFor(Observe(events, o), o.rule.id, o.group.id) == ActiveFor(events, o.rule.id, o.group.id) + 1
  {
    FireCounts(events, o, o.rule.id, o.group.id);
  }

  /** Group IDs are tracked correctly over every run exactly when the search tells their alarms apart. */
  lemma {:induction false} EdgesExactlyWhenSearchIsExact(ids: set<string>)
    ensures KeepsEdges(ids) <==> SearchIsExact(ids)
  {
    if SearchIsExact(ids) {
      forall obs: seq<Obs>, rule: int, g: string | g in ids && (forall o | o in obs :: Known(o, rule, ids))
        ensures ActiveFor(ObserveAll([], obs), rule, g) == if LastHigh(Highs(obs, rule, g)) then 1 else 0
      {
        AlertsAreEdgeTriggered([], obs, rule, g, ids);
      }
    } else {
      var g, h, lag: int, threshold :| g in ids && h in ids && lag as real > threshold
        && !(Like(LagAlarm(h, lag, threshold), Prefix(g) + "%") <==> g == h);
      if g == h {
        MissedAlarmFiresTwice(ids, g, lag, threshold);
      } else {
        ForeignAlarmIsResolved(ids, g, h, lag, threshold);
      }
    }
  }

  lemma {:induction false} ExactSearchNeedsPrefixFree(ids: set<string>)
    requires SearchIsExact(ids) && forall g | g in ids :: Literal(g)
    ensures PrefixFree(ids)
  {
    forall a, b | a in ids && b in ids && a <= b
      ensures a == b
    {
      LiteralPrefix(a);
      LiteralMeansPrefix(LagAlarm(b, 1, 0.0), Prefix(a));
      assert Prefix(a) <= Prefix(b) <= LagAlarm(b, 1, 0.0);
      assert 1 as real > 0.0;
    }
  }

  /** A condition on the IDs alone: literal group IDs are tracked correctly exactly when none is a prefix of another. */
  lemma {:induction false} EdgesExactlyWhenPrefixFree(ids: set<string>)
    requires forall g | g in ids :: Literal(g)
    ensures KeepsEdges(ids) <==> PrefixFree(ids)
  {
    EdgesExactlyWhenSearchIsExact(ids);
    if PrefixFree(ids) {
      PlainIdsSearchExactly(ids);
    }
    if SearchIsExact(ids) {
      ExactSearchNeedsPrefixFree(ids);
    }
  }

  lemma {:induction false} Regroup(k: string, a: string, x: string, b: string, rest: string)
    ensures (k + (a + x + b)) + rest == (k + a) + (x + (b + rest))
  {
  }

  /** An underscore in a group ID stands for any character: the search also finds the alarms of other groups. */
  lemma {:induction false} UnderscoreFindsOthers(a: string, b: string, c: char, lag: int, threshold: real)
    requires Literal(a) && Literal(b)
    ensures Like(LagAlarm(a + [c] + b, lag, threshold), Prefix(a + "_" + b) + "%")
  {
    var text := LagText(lag, threshold);
    LiteralPrefix(a);
    UnderscoreMatchesAny(Prefix(a), c, b, text);
    Regroup("Consumer group ", a, [c], b, text);
    Regroup("Consumer group ", a, "_", b, "%");
  }

  /** So groups whose IDs differ only where one has an underscore are not tracked correctly. */
  lemma {:induction false} UnderscoreConfusesGroups(ids: set<string>, a: string, b: string, c: char)
    requires Literal(a) && Literal(b) && c != '_' && a + "_" + b in ids && a + [c] + b in ids
    ensures !KeepsEdges(ids)
  {
    UnderscoreFindsOthers(a, b, c, 1, 0.0);
    assert (a + "_" + b)[|a|] == '_' && (a + [c] + b)[|a|] == c;
    assert 1 as real > 0.0;
    ForeignAlarmIsResolved(ids, a + "_" + b, a + [c] + b, 1, 0.0);
  }

  // ---------------------------------------------------------------- after a pass

  lemma {:induction false} HighsJoin(a: seq<Obs>, b: seq<Obs>, rule: int, g: string)
    ensures Highs(a + b, rule, g) == Highs(a, rule, g) + Highs(b, rule, g)
  {
    if b == [] {
      assert a + b == a;
    } else {
      HighsJoin(a, b[..|b| - 1], rule, g);
      assert (a + b)[..|a + b| - 1] == a + b[..|b| - 1];
    }
  }

  lemma {:induction false} NothingConcerns(obs: seq<Obs>, rule: int, g: string)
    requires forall o | o in obs :: !Concerns(o, rule, g)
    ensures Highs(obs, rule, g) == []
  {
    if obs != [] {
      NothingConcerns(obs[..|obs| - 1], rule, g);
    }
  }

  ghost predicate DistinctGroups(groups: seq<Sighting>) {
    forall i, j | 0 <= i < j < |groups| :: groups[i].group.id != groups[j].group.id
  }

  /** A listed group is looked at once per rule. */
  lemma {:induction false} SeenOncePerRule(rule: Rule, groups: seq<Sighting>, k: nat)
    requires DistinctGroups(groups) && k < |groups|
    ensures Highs(LagsSeen(rule, groups), rule.id, groups[k].group.id) ==
      [High(LagSeen(rule, groups[k].group, groups[k].faults))]
  {
    var init, last := groups[..|groups| - 1], groups[|groups| - 1];
    var obs := LagsSeen(rule, groups);
    assert obs[..|obs| - 1] == LagsSeen(rule, init);
    if k < |init| {
      SeenOncePerRule(rule, init, k);
    } else {
      NothingConcerns(LagsSeen(rule, init), rule.id, last.group.id);
    }
  }

  /** An enabled lag rule that sees `groups` in this pass. */
  ghost predicate Watches(rule: Rule, world: World, groups: seq<Sighting>) {
    rule.enabled && rule.kind.ConsumerLag? && rule.id in world && world[rule.id].groups == Some(groups)
  }

  lemma {:induction false} OtherRule(rule: Rule, world: World, id: int, g: string)
    requires rule.id != id
    ensures Highs(SeenIn(rule, world), id, g) == []
  {
    NothingConcerns(SeenIn(rule, world), id, g);
  }

  lemma {:induction false} OnlyOwnRule(rules: seq<Rule>, world: World, id: int, g: string)
    requires forall r | r in rules :: r.id != id
    ensures Highs(Seen(rules, world), id, g) == []
  {
    if rules != [] {
      var init, last := rules[..|rules| - 1], rules[|rules| - 1];
      OnlyOwnRule(init, world, id, g);
      OtherRule(last, world, id, g);
      HighsJoin(Seen(init, world), SeenIn(last, world), id, g);
    }
  }

  lemma {:induction false} SeenOncePerPass(rules: seq<Rule>, world: World, rule: Rule, groups: seq<Sighting>, k: nat)
    requires DistinctRules(rules) && rule in rules && Watches(rule, world, groups) && DistinctGroups(groups) &&
      k < |groups|
    ensures Highs(Seen(rules, world), rule.id, groups[k].group.id) ==
      [High(LagSeen(rule, groups[k].group, groups[k].faults))]
  {
    var init, last, g := rules[..|rules| - 1], rules[|rules| - 1], groups[k].group.id;
    HighsJoin(Seen(init, world), SeenIn(last, world), rule.id, g);
    if last == rule {
      OnlyOwnRule(init, world, rule.id, g);
      SeenOncePerRule(rule, groups, k);
    } else {
      var j :| 0 <= j < |rules| && rules[j] == rule;
      assert init[j] == rule;
      SeenOncePerPass(init, world, rule, groups, k);
      OtherRule(last, world, rule.id, g);
    }
  }

  /**
   * After any pass, whatever was seen before, a listed group has exactly one ACTIVE event of a watching rule if some
   * partition of it lags beyond the threshold, and none otherwise.
   */
  lemma {:induction false} OneAlertWhileLagging(events: seq<AlertEvent>, earlier: seq<Obs>, rules: seq<Rule>,
        world: World,
        rule: Rule, groups: seq<Sighting>, k: nat, lags: CL.TopicLags, ids: set<string>)
    requires DistinctRules(rules) && rule in rules && Watches(rule, world, groups) && DistinctGroups(groups) &&
      k < |groups|
    requires rule.threshold >= 0.0 && CL.Summarizes(groups[k].group, lags)
    requires forall e | e in events && e.rule == rule.id :: e.status.Resolved?
    requires SearchIsExact(ids) && groups[k].group.id in ids &&
      forall o | o in earlier + Seen(rules, world) :: Known(o, rule.id, ids)
    ensures ActiveFor(ObserveAll(events, earlier + Seen(rules, world)), rule.id, groups[k].group.id) ==
      if exists t, i | t in lags && 0 <= i < |lags[t]| :: lags[t][i] as real > rule.threshold then 1 else 0
  {
    var g := groups[k].group.id;
    AlertsAreEdgeTriggered(events, earlier + Seen(rules, world), rule.id, g, ids);
    HighsJoin(earlier, Seen(rules, world), rule.id, g);
    SeenOncePerPass(rules, world, rule, groups, k);
    FlagsGrow(Highs(earlier, rule.id, g), [High(LagSeen(rule, groups[k].group, groups[k].faults))]);
    CL.ExceedsWhenSomePartitionDoes(lags, groups[k].group.maxLag, rule.threshold);
  }

  // ---------------------------------------------------------------- offline partitions

  ghost function ActiveOf(rule: int): AlertEvent -> bool {
    (e: AlertEvent) => e.rule == rule && e.status.Active?
  }

  ghost function TooManyOffline(rule: int): Obs -> bool {
    (o: Obs) => o.OfflineSeen? && o.rule.id == rule && High(o) && !o.faults.insert
  }

  lemma {:induction false} CountOfRule(events: seq<AlertEvent>, id: int)
    ensures Count(ActiveOf(id), OfRule(events, id)) == Count(ActiveOf(id), events)
  {
    if events != [] {
      var init, last := events[..|events| - 1], events[|events| - 1];
      CountOfRule(init, id);
      CountLast(ActiveOf(id), OfRule(init, id), last);
      assert last.rule != id ==> OfRule(events, id) == OfRule(init, id);
    }
  }

  lemma {:induction false} OfflineStep(events: seq<AlertEvent>, o: Obs, rule: int)
    requires o.rule.id == rule ==> o.OfflineSeen?
    ensures Count(ActiveOf(rule), Observe(events, o)) ==
      Count(ActiveOf(rule), events) + if TooManyOffline(rule)(o) then 1 else 0
  {
    if o.rule.id == rule {
      CountLast(ActiveOf(rule), events, AlarmOf(o));
    } else {
      ObserveOfRule(events, o, rule);
      CountOfRule(events, rule);
      CountOfRule(Observe(events, o), rule);
    }
  }

  /**
   * Offline-partition alerts are not edge-triggered: every observation above the threshold adds one, and none
   * resolves.
   */
  lemma {:induction false} OfflineAlertsPileUp(events: seq<AlertEvent>, obs: seq<Obs>, rule: int)
    requires forall o | o in obs && o.rule.id == rule :: o.OfflineSeen?
    ensures Count(ActiveOf(rule), ObserveAll(events, obs)) ==
      Count(ActiveOf(rule), events) + Count(TooManyOffline(rule), obs)
  {
    if obs != [] {
      OfflineAlertsPileUp(events, obs[..|obs| - 1], rule);
      OfflineStep(ObserveAll(events, obs[..|obs| - 1]), obs[|obs| - 1], rule);
    }
  }

  lemma {:induction false} TreatedCount(rule: Rule, world: World, own: seq<AlertEvent>, now: seq<AlertEvent>)
    requires Treats(rule, world, own, now) && rule.kind.OfflinePartitions?
    ensures Count(ActiveOf(rule.id), now) == Count(ActiveOf(rule.id), own) +
      if rule.enabled && rule.id in world && world[rule.id].offline.Some? && !world[rule.id].faults.insert &&
        world[rule.id].offline.value as real > rule.threshold then 1 else 0
  {
    if |now| > |own| {
      assert now[..|now| - 1] == own;
    } else {
      assert now == own;
    }
  }

  /** In any pass, an offline rule adds exactly one ACTIVE event when it is due, and otherwise changes none. */
  lemma {:induction false} OfflineRuleInPass(events: seq<AlertEvent>, rules: seq<Rule>, world: World, rule: Rule)
    requires DistinctRules(rules) && rule in rules && rule.kind.OfflinePartitions?
    ensures var after := ObserveAll(events, Seen(rules, world));
      Count(ActiveOf(rule.id), after) == Count(ActiveOf(rule.id), events) +
        if rule.enabled && rule.id in world && world[rule.id].offline.Some? && !world[rule.id].faults.insert &&
          world[rule.id].offline.value as real > rule.threshold then 1 else 0
  {
    var after := ObserveAll(events, Seen(rules, world));
    PassTreatsEveryRule(events, rules, world);
    CountOfRule(events, rule.id);
    CountOfRule(after, rule.id);
    TreatedCount(rule, world, OfRule(events, rule.id), OfRule(after, rule.id));
  }
}
