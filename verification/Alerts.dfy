/** Alert evaluation: observed lags and offline partitions open alert events, and low lags resolve them. */
module Alerts {
  import opened Wrappers
  import opened Decimal
  import opened AlertStore
  import opened Runs
  import CL = ConsumerLag

  type GroupInfo = CL.GroupInfo

  datatype RuleKind = ConsumerLag | OfflinePartitions | Unknown

  datatype Rule = Rule(id: int, cluster: int, kind: RuleKind, threshold: real, enabled: bool)

  // ---------------------------------------------------------------- messages

  function Prefix(group: string): string {
    "Consumer group " + group
  }

  /** Round half to even. */
  function Round(x: real): nat
    requires x >= 0.0
  {
    var low := x.Floor;
    var over := x - low as real;
    if over < 0.5 || (over == 0.5 && low % 2 == 0) then low else low + 1
  }

  /** Go's %.0f. */
  function WholeText(x: real): string {
    if x < 0.0 then "-" + Digits(Round(-x)) else Digits(Round(x))
  }

  /** Rounding goes to the nearest whole number, to the even one where two are equally near. */
  lemma {:induction false} RoundsToNearest(x: real)
    requires x >= 0.0
    ensures -0.5 <= Round(x) as real - x <= 0.5
    ensures Round(x) as real - x == 0.5 || Round(x) as real - x == -0.5 ==> Round(x) % 2 == 0
  {
  }

  /** A whole number is printed as it is. */
  lemma {:induction false} WholeTextOfInt(n: int)
    ensures WholeText(n as real) == Itoa(n)
  {
    assert (n as real).Floor == n && (-(n as real)).Floor == -n;
  }

  function LagText(lag: int, threshold: real): string {
    " max lag " + WholeText(lag as real) + " exceeds threshold " + WholeText(threshold)
  }

  function LagAlarm(group: string, lag: int, threshold: real): string {
    Prefix(group) + LagText(lag, threshold)
  }

  function OfflineAlarm(count: int, threshold: real): string {
    "Cluster has " + Itoa(count) + " offline partitions (threshold " + WholeText(threshold) + ")"
  }

  ghost predicate Names(message: string, group: string) {
    exists lag, threshold :: message == LagAlarm(group, lag, threshold)
  }

  predicate Spaceless(s: string) { ' ' !in s }

  lemma {:induction false} NumbersAreSpaceless(x: real)
    ensures Spaceless(WholeText(x))
  {
    var digits := Digits(Round(if x < 0.0 then -x else x));
    DigitsValue(Round(if x < 0.0 then -x else x));
    assert forall c | c in digits :: IsDigit(c);
  }

  lemma {:induction false} SplitAtLastSpace(a: string, b: string, c: string, d: string)
    requires Spaceless(b) && Spaceless(d) && a + " " + b == c + " " + d
    ensures a == c && b == d
  {
    var s, t := a + " " + b, c + " " + d;
    assert s[|a|] == ' ' && t[|c|] == ' ';
    assert forall k | |a| < k < |s| :: s[k] == b[k - |a| - 1] && s[k] in b;
    assert forall k | |c| < k < |t| :: t[k] == d[k - |c| - 1] && t[k] in d;
    assert |a| == |c|;
    assert s[..|a|] == a && t[..|c|] == c && s[|a| + 1..] == b && t[|c| + 1..] == d;
  }

  lemma {:induction false} SameEnding(a: string, c: string, ending: string)
    requires a + ending == c + ending
    ensures a == c
  {
    assert (a + ending)[..|a|] == a && (c + ending)[..|c|] == c;
  }

  lemma {:induction false} AlarmParts(group: string, lag: int, threshold: real)
    ensures var (a, b) := (WholeText(lag as real), WholeText(threshold));
      LagAlarm(group, lag, threshold) == (((Prefix(group) + " max lag") + " " + a) + " exceeds threshold") + " " + b
  {
  }

  /** A message tells which group it is about, whatever characters group IDs hold. */
  lemma {:induction false} NamesOneGroup(message: string, g: string, h: string)
    requires Names(message, g) && Names(message, h)
    ensures g == h
  {
    var lag, threshold :| message == LagAlarm(g, lag, threshold);
    var lag', threshold' :| message == LagAlarm(h, lag', threshold');
    var a, b := WholeText(lag as real), WholeText(threshold);
    var c, d := WholeText(lag' as real), WholeText(threshold');
    AlarmParts(g, lag, threshold);
    AlarmParts(h, lag', threshold');
    NumbersAreSpaceless(lag as real);
    NumbersAreSpaceless(threshold);
    NumbersAreSpaceless(lag' as real);
    NumbersAreSpaceless(threshold');
    SameAlarm(g, a, b, h, c, d);
  }

  lemma {:induction false} SameAlarm(g: string, a: string, b: string, h: string, c: string, d: string)
    requires Spaceless(a) && Spaceless(b) && Spaceless(c) && Spaceless(d)
    requires (((Prefix(g) + " max lag") + " " + a) + " exceeds threshold") + " " + b ==
             (((Prefix(h) + " max lag") + " " + c) + " exceeds threshold") + " " + d
    ensures g == h
  {
    var x, y := (Prefix(g) + " max lag") + " " + a, (Prefix(h) + " max lag") + " " + c;
    SplitAtLastSpace(x + " exceeds threshold", b, y + " exceeds threshold", d);
    SameEnding(x, y, " exceeds threshold");
    SplitAtLastSpace(Prefix(g) + " max lag", a, Prefix(h) + " max lag", c);
    SameEnding(Prefix(g), Prefix(h), " max lag");
    assert Prefix(g)[15..] == g && Prefix(h)[15..] == h;
  }

  // ---------------------------------------------------------------- what an observation does

  /** Which store calls fail while an observation is handled: the resolve or the lookup, and the insert. */
  datatype Faults = Faults(first: bool, insert: bool)

  const NO_FAULTS := Faults(false, false)

  datatype Obs =
    | LagSeen(rule: Rule, group: GroupInfo, faults: Faults)
    | OfflineSeen(rule: Rule, count: int, faults: Faults)

  predicate High(o: Obs) {
    match o
    case LagSeen(rule, group, _) => group.maxLag as real > rule.threshold
    case OfflineSeen(rule, count, _) => count as real > rule.threshold
  }

  function AlarmOf(o: Obs): AlertEvent {
    match o
    case LagSeen(rule, group, _) =>
      AlertEvent(rule.id, rule.cluster, "WARNING", LagAlarm(group.id, group.maxLag, rule.threshold), Active)
    case OfflineSeen(rule, count, _) =>
      AlertEvent(rule.id, rule.cluster, "CRITICAL", OfflineAlarm(count, rule.threshold), Active)
  }

  function Fired(events: seq<AlertEvent>, o: Obs): seq<AlertEvent> {
    if o.faults.insert then events else events + [AlarmOf(o)]
  }

  /** A failed lookup counts as finding nothing; a failed resolve or insert is ignored. */
  ghost function Observe(events: seq<AlertEvent>, o: Obs): seq<AlertEvent> {
    match o
    case LagSeen(rule, group, faults) =>
      if !High(o) then (if faults.first then events else ResolveAll(events, rule.id, Prefix(group.id)))
      else if !faults.first && HasActive(events, rule.id, Prefix(group.id)) then events
      else Fired(events, o)
    case OfflineSeen(_, _, _) =>
      if High(o) then Fired(events, o) else events
  }

  ghost function ObserveAll(events: seq<AlertEvent>, obs: seq<Obs>): seq<AlertEvent> {
    Run(Observe, events, obs)
  }

  // ---------------------------------------------------------------- evaluation passes

  datatype Sighting = Sighting(group: GroupInfo, faults: Faults)

  /**
   * What evaluating a rule meets: the groups or the offline partitions, None where the request fails, and failing
   * store calls.
   */
  datatype RuleView = RuleView(groups: Option<seq<Sighting>>, offline: Option<int>, faults: Faults)

  function LagsSeen(rule: Rule, groups: seq<Sighting>): (obs: seq<Obs>)
    ensures |obs| == |groups|
  {
    seq(|groups|, i requires 0 <= i < |groups| => LagSeen(rule, groups[i].group, groups[i].faults))
  }

  function SeenBy(rule: Rule, view: RuleView): seq<Obs> {
    match rule.kind
    case ConsumerLag => if view.groups.Some? then LagsSeen(rule, view.groups.value) else []
    case OfflinePartitions => if view.offline.Some? then [OfflineSeen(rule, view.offline.value, view.faults)] else []
    case Unknown => []
  }

  /** By rule id: what a pass meets. Rules of clusters that cannot be loaded are missing. */
  type World = map<int, RuleView>

  function SeenIn(rule: Rule, world: World): seq<Obs> {
    if rule.enabled && rule.id in world then SeenBy(rule, world[rule.id]) else []
  }

  function Seen(rules: seq<Rule>, world: World): seq<Obs> {
    if rules == [] then [] else Seen(rules[..|rules| - 1], world) + SeenIn(rules[|rules| - 1], world)
  }

  lemma {:induction false} SeenNext(events: seq<AlertEvent>, rules: seq<Rule>, i: nat, world: World)
    requires i < |rules|
    ensures ObserveAll(events, Seen(rules[..i + 1], world)) ==
            ObserveAll(ObserveAll(events, Seen(rules[..i], world)), SeenIn(rules[i], world))
  {
    assert rules[..i + 1][..i] == rules[..i];
    RunInTurn(Observe, events, Seen(rules[..i], world), SeenIn(rules[i], world));
  }

  // ---------------------------------------------------------------- a pass, rule by rule

  /** The events of one rule, in order. */
  function OfRule(events: seq<AlertEvent>, id: int): seq<AlertEvent> {
    if events == [] then []
    else
      var last := events[|events| - 1];
      OfRule(events[..|events| - 1], id) + if last.rule == id then [last] else []
  }

  lemma {:induction false} OfRuleLast(events: seq<AlertEvent>, last: AlertEvent, id: int)
    ensures OfRule(events + [last], id) == OfRule(events, id) + if last.rule == id then [last] else []
  {
  }

  lemma {:induction false} ResolveLast(events: seq<AlertEvent>, last: AlertEvent, rule: int, prefix: string)
    ensures ResolveAll(events + [last], rule, prefix) ==
      ResolveAll(events, rule, prefix) + [Settled(last, rule, prefix)]
  {
  }

  lemma {:induction false} ResolveOfRule(events: seq<AlertEvent>, rule: int, prefix: string, id: int)
    ensures OfRule(ResolveAll(events, rule, prefix), id) ==
      if rule == id then ResolveAll(OfRule(events, id), id, prefix) else OfRule(events, id)
  {
    if events != [] {
      var init, last := events[..|events| - 1], events[|events| - 1];
      ResolveOfRule(init, rule, prefix, id);
      OfRuleLast(ResolveAll(init, rule, prefix), Settled(last, rule, prefix), id);
      if last.rule == id {
        ResolveLast(OfRule(init, id), last, id, prefix);
      } else {
        assert OfRule(events, id) == OfRule(init, id);
      }
    }
  }

  lemma {:induction false} OfRuleMembers(events: seq<AlertEvent>, id: int)
    ensures forall e :: e in OfRule(events, id) <==> e in events && e.rule == id
  {
    if events != [] {
      OfRuleMembers(events[..|events| - 1], id);
      assert events == events[..|events| - 1] + [events[|events| - 1]];
    }
  }

  lemma {:induction false} SearchesOwnRule(events: seq<AlertEvent>, id: int, prefix: string)
    ensures HasActive(OfRule(events, id), id, prefix) <==> HasActive(events, id, prefix)
  {
    OfRuleMembers(events, id);
  }

  lemma {:induction false} FiredOfRule(events: seq<AlertEvent>, o: Obs, id: int)
    ensures OfRule(Fired(events, o), id) == if o.rule.id == id then Fired(OfRule(events, id), o) else OfRule(events, id)
  {
    OfRuleLast(events, AlarmOf(o), id);
    if o.rule.id != id {
      assert OfRule(events, id) + [] == OfRule(events, id);
    }
  }

  lemma {:induction false} ObserveOwn(events: seq<AlertEvent>, o: Obs)
    ensures OfRule(Observe(events, o), o.rule.id) == Observe(OfRule(events, o.rule.id), o)
  {
    if High(o) {
      FiredOfRule(events, o, o.rule.id);
      if o.LagSeen? {
        SearchesOwnRule(events, o.rule.id, Prefix(o.group.id));
      }
    } else if o.LagSeen? {
      ResolveOfRule(events, o.rule.id, Prefix(o.group.id), o.rule.id);
    }
  }

  lemma {:induction false} ObserveOther(events: seq<AlertEvent>, o: Obs, id: int)
    requires o.rule.id != id
    ensures OfRule(Observe(events, o), id) == OfRule(events, id)
  {
    if High(o) {
      FiredOfRule(events, o, id);
    } else if o.LagSeen? {
      ResolveOfRule(events, o.rule.id, Prefix(o.group.id), id);
    }
  }

  /** An observation looks at and changes the events of its own rule only. */
  lemma {:induction false} ObserveOfRule(events: seq<AlertEvent>, o: Obs, id: int)
    ensures o.rule.id == id ==> OfRule(Observe(events, o), id) == Observe(OfRule(events, id), o)
    ensures o.rule.id != id ==> OfRule(Observe(events, o), id) == OfRule(events, id)
  {
    if o.rule.id == id {
      ObserveOwn(events, o);
    } else {
      ObserveOther(events, o, id);
    }
  }

  /** So do the observations of one rule. */
  lemma {:induction false} ObserveAllOfRule(events: seq<AlertEvent>, obs: seq<Obs>, rule: int, id: int)
    requires forall o | o in obs :: o.rule.id == rule
    ensures rule == id ==> OfRule(ObserveAll(events, obs), id) == ObserveAll(OfRule(events, id), obs)
    ensures rule != id ==> OfRule(ObserveAll(events, obs), id) == OfRule(events, id)
  {
    if obs != [] {
      var init, last := obs[..|obs| - 1], obs[|obs| - 1];
      assert forall o | o in init :: o in obs;
      ObserveAllOfRule(events, init, rule, id);
      ObserveOfRule(ObserveAll(events, init), last, id);
    }
  }

  lemma {:induction false} SeenInOwn(rule: Rule, world: World)
    ensures forall o | o in SeenIn(rule, world) :: o.rule == rule
  {
  }

  ghost predicate DistinctRules(rules: seq<Rule>) {
    forall i, j | 0 <= i < j < |rules| :: rules[i].id != rules[j].id
  }

  lemma {:induction false} OneRuleMore(events: seq<AlertEvent>, rules: seq<Rule>, world: World, id: int)
    requires rules != []
    ensures var (init, last) := (rules[..|rules| - 1], rules[|rules| - 1]);
      var before := OfRule(ObserveAll(events, Seen(init, world)), id);
      var after := OfRule(ObserveAll(events, Seen(rules, world)), id);
      (last.id == id ==> after == ObserveAll(before, SeenIn(last, world))) && (last.id != id ==> after == before)
  {
    var init, last := rules[..|rules| - 1], rules[|rules| - 1];
    RunInTurn(Observe, events, Seen(init, world), SeenIn(last, world));
    SeenInOwn(last, world);
    ObserveAllOfRule(ObserveAll(events, Seen(init, world)), SeenIn(last, world), last.id, id);
  }

  /** Events that no rule of the pass has made stay as they are. */
  lemma {:induction false} NoRuleNoChange(events: seq<AlertEvent>, rules: seq<Rule>, world: World, id: int)
    requires forall r | r in rules :: r.id != id
    ensures OfRule(ObserveAll(events, Seen(rules, world)), id) == OfRule(events, id)
  {
    if rules != [] {
      assert forall r | r in rules[..|rules| - 1] :: r in rules;
      NoRuleNoChange(events, rules[..|rules| - 1], world, id);
      OneRuleMore(events, rules, world, id);
    }
  }

  lemma {:induction false} RuleInPass(events: seq<AlertEvent>, rules: seq<Rule>, world: World, k: nat)
    requires DistinctRules(rules) && k < |rules|
    ensures OfRule(ObserveAll(events, Seen(rules, world)), rules[k].id) ==
      ObserveAll(OfRule(events, rules[k].id), SeenIn(rules[k], world))
  {
    var init := rules[..|rules| - 1];
    OneRuleMore(events, rules, world, rules[k].id);
    if k == |init| {
      NoRuleNoChange(events, init, world, rules[k].id);
    } else {
      RuleInPass(events, init, world, k);
    }
  }

  /** Rules do not interfere: a pass does to the events of each rule what evaluating that rule alone does to them. */
  lemma {:induction false} RulesAreIndependent(events: seq<AlertEvent>, rules: seq<Rule>, world: World, rule: Rule)
    requires DistinctRules(rules) && rule in rules
    ensures OfRule(ObserveAll(events, Seen(rules, world)), rule.id) ==
      ObserveAll(OfRule(events, rule.id), SeenIn(rule, world))
  {
    var k :| 0 <= k < |rules| && rules[k] == rule;
    RuleInPass(events, rules, world, k);
  }

  /** What a high lag of one of the groups is reported as. */
  ghost predicate ReportsHighLag(e: AlertEvent, rule: Rule, groups: seq<Sighting>) {
    exists k | 0 <= k < |groups| ::
      && groups[k].group.maxLag as real > rule.threshold
      && e == AlertEvent(rule.id, rule.cluster, "WARNING", "Consumer group " + groups[k].group.id + " max lag " +
        Itoa(groups[k].group.maxLag) + " exceeds threshold " + WholeText(rule.threshold), Active)
  }

  /** Some group of the list at or below the threshold has the event in its search. */
  ghost predicate ResolvedByLowLag(e: AlertEvent, rule: Rule, groups: seq<Sighting>) {
    exists k | 0 <= k < |groups| ::
      && groups[k].group.maxLag as real <= rule.threshold
      && Like(e.message, "Consumer group " + groups[k].group.id + "%")
  }

  /** Events stay or are resolved because of a low lag; what is added reports a high one. */
  ghost predicate FollowsLags(rule: Rule, groups: seq<Sighting>, before: seq<AlertEvent>, after: seq<AlertEvent>) {
    && |before| <= |after|
    && (forall i | 0 <= i < |before| :: after[i] == before[i] ||
         (after[i] == before[i].(status := Resolved) && ResolvedByLowLag(before[i], rule, groups)))
    && (forall i | |before| <= i < |after| ::
         ReportsHighLag(after[i], rule, groups) || ReportsHighLag(after[i].(status := Active), rule, groups))
  }

  /**
   * What a pass makes of the events of one rule. Nothing, for a rule that is disabled, unknown or not loadable or whose
   * request fails; one CRITICAL event more for too many offline partitions, if the insert succeeds.
   */
  ghost predicate Treats(rule: Rule, world: World, before: seq<AlertEvent>, after: seq<AlertEvent>) {
    if !rule.enabled || rule.id !in world then after == before
    else
      var view := world[rule.id];
      match rule.kind
      case Unknown => after == before
      case ConsumerLag => if view.groups.None? then after == before
        else FollowsLags(rule, view.groups.value, before, after)
      case OfflinePartitions =>
        after == before +
          if view.offline.Some? && view.offline.value as real > rule.threshold && !view.faults.insert then
            [AlertEvent(rule.id, rule.cluster, "CRITICAL", "Cluster has " + Itoa(view.offline.value) +
              " offline partitions (threshold " + WholeText(rule.threshold) + ")", Active)]
          else []
  }

  lemma {:induction false} ReportsOwnLag(rule: Rule, groups: seq<Sighting>, k: nat)
    requires k < |groups| && groups[k].group.maxLag as real > rule.threshold
    ensures ReportsHighLag(AlarmOf(LagSeen(rule, groups[k].group, groups[k].faults)), rule, groups)
  {
    var g := groups[k].group;
    WholeTextOfInt(g.maxLag);
    assert LagAlarm(g.id, g.maxLag, rule.threshold) == "Consumer group " + g.id + " max lag " + Itoa(g.maxLag) +
      " exceeds threshold " + WholeText(rule.threshold);
  }

  lemma {:induction false} FollowsResolving(rule: Rule, groups: seq<Sighting>, k: nat, before: seq<AlertEvent>,
        mid: seq<AlertEvent>)
    requires FollowsLags(rule, groups, before, mid)
    requires k < |groups| && groups[k].group.maxLag as real <= rule.threshold
    ensures FollowsLags(rule, groups, before, ResolveAll(mid, rule.id, Prefix(groups[k].group.id)))
  {
    var after := ResolveAll(mid, rule.id, Prefix(groups[k].group.id));
    ResolveAllAt(mid, rule.id, Prefix(groups[k].group.id));
    forall i | 0 <= i < |before|
      ensures after[i] == before[i] ||
        (after[i] == before[i].(status := Resolved) && ResolvedByLowLag(before[i], rule, groups))
    {
      assert after[i] == Settled(mid[i], rule.id, Prefix(groups[k].group.id));
    }
    forall i | |before| <= i < |after|
      ensures ReportsHighLag(after[i], rule, groups) || ReportsHighLag(after[i].(status := Active), rule, groups)
    {
      assert after[i] == Settled(mid[i], rule.id, Prefix(groups[k].group.id));
    }
  }

  lemma {:induction false} FollowsOneMore(rule: Rule, groups: seq<Sighting>, k: nat, before: seq<AlertEvent>,
        mid: seq<AlertEvent>)
    requires FollowsLags(rule, groups, before, mid) && k < |groups|
    ensures FollowsLags(rule, groups, before, Observe(mid, LagSeen(rule, groups[k].group, groups[k].faults)))
  {
    if groups[k].group.maxLag as real > rule.threshold {
      ReportsOwnLag(rule, groups, k);
    } else {
      FollowsResolving(rule, groups, k, before, mid);
    }
  }

  lemma {:induction false} FollowsAll(rule: Rule, groups: seq<Sighting>, n: nat, before: seq<AlertEvent>)
    requires n <= |groups|
    ensures FollowsLags(rule, groups, before, ObserveAll(before, LagsSeen(rule, groups)[..n]))
  {
    if n > 0 {
      var obs := LagsSeen(rule, groups);
      FollowsAll(rule, groups, n - 1, before);
      assert obs[..n] == obs[..n - 1] + [obs[n - 1]];
      RunLast(Observe, before, obs[..n - 1], obs[n - 1]);
      FollowsOneMore(rule, groups, n - 1, before, ObserveAll(before, obs[..n - 1]));
    }
  }

  lemma {:induction false} TreatsAlone(rule: Rule, world: World, before: seq<AlertEvent>)
    ensures Treats(rule, world, before, ObserveAll(before, SeenIn(rule, world)))
  {
    if rule.enabled && rule.id in world {
      var view := world[rule.id];
      if rule.kind.ConsumerLag? && view.groups.Some? {
        FollowsAll(rule, view.groups.value, |view.groups.value|, before);
        var obs := LagsSeen(rule, view.groups.value);
        assert obs[..|view.groups.value|] == obs;
      } else if rule.kind.OfflinePartitions? && view.offline.Some? {
        RunOne(Observe, before, OfflineSeen(rule, view.offline.value, view.faults));
      }
    }
  }

  /** Every rule of a pass is treated as its kind and its view ask for, and no event of another rule changes. */
  ghost predicate TreatsAll(rules: seq<Rule>, world: World, before: seq<AlertEvent>, after: seq<AlertEvent>) {
    && (forall rule | rule in rules :: Treats(rule, world, OfRule(before, rule.id), OfRule(after, rule.id)))
    && (forall id | (forall rule | rule in rules :: rule.id != id) :: OfRule(after, id) == OfRule(before, id))
  }

  /** What a pass over rules with distinct ids does, whatever the table held before. */
  lemma {:induction false} PassTreatsEveryRule(events: seq<AlertEvent>, rules: seq<Rule>, world: World)
    requires DistinctRules(rules)
    ensures TreatsAll(rules, world, events, ObserveAll(events, Seen(rules, world)))
  {
    var after := ObserveAll(events, Seen(rules, world));
    forall rule | rule in rules
      ensures Treats(rule, world, OfRule(events, rule.id), OfRule(after, rule.id))
    {
      RulesAreIndependent(events, rules, world, rule);
      TreatsAlone(rule, world, OfRule(events, rule.id));
    }
    forall id | (forall rule | rule in rules :: rule.id != id)
      ensures OfRule(after, id) == OfRule(events, id)
    {
      NoRuleNoChange(events, rules, world, id);
    }
  }

  class Evaluator {
    const store: AlertStore

    constructor (store: AlertStore)
      ensures this.store == store
    {
      this.store := store;
    }

    method Fire(o: Obs)
      modifies store
      ensures store.events == Fired(old(store.events), o)
    {
      store.InsertAlertEvent(AlarmOf(o), o.faults.insert);
    }

    method EvalConsumerLag(rule: Rule, groups: Option<seq<Sighting>>)
      modifies store
      ensures store.events == ObserveAll(old(store.events), if groups.Some? then LagsSeen(rule, groups.value) else [])
    {
      if groups.None? {
        return;
      }
      ghost var obs := LagsSeen(rule, groups.value);
      for i := 0 to |groups.value|
        invariant store.events == ObserveAll(old(store.events), obs[..i])
      {
        var g, faults := groups.value[i].group, groups.value[i].faults;
        assert obs[..i + 1][..i] == obs[..i] && obs[i] == LagSeen(rule, g, faults);
        var prefix := Prefix(g.id);
        if g.maxLag as real <= rule.threshold {
          store.ResolveActiveAlertsByPrefix(rule.id, prefix, faults.first);
        } else {
          var active := store.HasActiveAlertEvent(rule.id, prefix, faults.first);
          if active != Some(true) {
            Fire(LagSeen(rule, g, faults));
          }
        }
      }
      assert obs[..|groups.value|] == obs;
    }

    method EvalOfflinePartitions(rule: Rule, offline: Option<int>, faults: Faults)
      modifies store
      ensures store.events ==
        ObserveAll(old(store.events), if offline.Some? then [OfflineSeen(rule, offline.value, faults)] else [])
    {
      if offline.None? {
        return;
      }
      RunOne(Observe, store.events, OfflineSeen(rule, offline.value, faults));
      if offline.value as real <= rule.threshold {
        return;
      }
      Fire(OfflineSeen(rule, offline.value, faults));
    }

    method EvaluateRule(rule: Rule, world: World)
      modifies store
      ensures store.events == ObserveAll(old(store.events), SeenIn(rule, world))
    {
      if rule.enabled && rule.id in world {
        var view := world[rule.id];
        match rule.kind {
          case ConsumerLag => EvalConsumerLag(rule, view.groups);
          case OfflinePartitions => EvalOfflinePartitions(rule, view.offline, view.faults);
          case Unknown =>
        }
      }
    }

    /** A pass over the rules of one cluster, on request; `loaded` says whether the cluster could be loaded. */
    method EvaluateCluster(rules: seq<Rule>, loaded: bool, world: World)
      modifies store
      ensures store.events == ObserveAll(old(store.events), if loaded then Seen(rules, world) else [])
      ensures !loaded ==> store.events == old(store.events)
      ensures loaded && DistinctRules(rules) ==> TreatsAll(rules, world, old(store.events), store.events)
    {
      if !loaded {
        return;
      }
      Evaluate(rules, world);
    }

    /** The background pass over all rules. */
    method Evaluate(rules: seq<Rule>, world: World)
      modifies store
      ensures store.events == ObserveAll(old(store.events), Seen(rules, world))
      ensures DistinctRules(rules) ==> TreatsAll(rules, world, old(store.events), store.events)
    {
      ghost var before := store.events;
      for i := 0 to |rules|
        invariant store.events == ObserveAll(before, Seen(rules[..i], world))
      {
        EvaluateRule(rules[i], world);
        SeenNext(before, rules, i, world);
      }
      assert rules[..|rules|] == rules;
      if DistinctRules(rules) {
        PassTreatsEveryRule(before, rules, world);
      }
    }
  }
}
