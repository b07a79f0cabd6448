/** The alert event table: prefix search with SQL's LIKE, and the statements that change event rows. */
module AlertStore {
  import opened Wrappers

  // ---------------------------------------------------------------- LIKE

  /**
   * `s LIKE pattern`: % stands for any text, _ for any character, and a backslash takes the wildcard out of what
   * follows.
   */
  predicate Like(s: string, pattern: string)
    decreases |s| + |pattern|
  {
    if pattern == [] then s == []
    else if pattern[0] == '%' then Like(s, pattern[1..]) || (s != [] && Like(s[1..], pattern))
    else if pattern[0] == '_' then s != [] && Like(s[1..], pattern[1..])
    else if pattern[0] == '\\' then |pattern| > 1 && s != [] && s[0] == pattern[1] && Like(s[1..], pattern[2..])
    else s != [] && s[0] == pattern[0] && Like(s[1..], pattern[1..])
  }

  predicate Unescaped(s: string) { '\\' !in s }

  predicate Literal(s: string) { '\\' !in s && '%' !in s && '_' !in s }

  lemma {:induction false} PercentMatchesAll(s: string)
    ensures Like(s, "%")
  {
    if s != [] {
      PercentMatchesAll(s[1..]);
    }
  }

  /** Wildcards match themselves, so a text without backslashes matches its own prefix pattern. */
  lemma {:induction false} PrefixMatchesItself(prefix: string, rest: string)
    requires Unescaped(prefix)
    ensures Like(prefix + rest, prefix + "%")
  {
    var s, pattern := prefix + rest, prefix + "%";
    if prefix == [] {
      assert s == rest && pattern == "%";
      PercentMatchesAll(rest);
    } else {
      assert s[1..] == prefix[1..] + rest && pattern[1..] == prefix[1..] + "%";
      PrefixMatchesItself(prefix[1..], rest);
      assert pattern[0] == '%' ==> Like(s[1..], pattern[1..]) && Like(s[1..], pattern);
    }
  }

  /** Without wildcards or backslashes, the pattern means: starts with. */
  lemma {:induction false} LiteralMeansPrefix(s: string, prefix: string)
    requires Literal(prefix)
    ensures Like(s, prefix + "%") <==> prefix <= s
  {
    var pattern := prefix + "%";
    if prefix == [] {
      assert pattern == "%";
      PercentMatchesAll(s);
    } else {
      assert prefix[0] in prefix && pattern[1..] == prefix[1..] + "%";
      if s != [] {
        LiteralMeansPrefix(s[1..], prefix[1..]);
        assert prefix <= s <==> prefix[0] == s[0] && prefix[1..] <= s[1..];
      }
    }
  }

  lemma {:induction false} LiteralThen(s: string, a: string, pattern: string)
    requires Literal(a)
    ensures Like(s, a + pattern) <==> a <= s && Like(s[|a|..], pattern)
  {
    if a == [] {
      assert a + pattern == pattern;
    } else {
      assert a[0] in a && (a + pattern)[1..] == a[1..] + pattern;
      if s != [] {
        LiteralThen(s[1..], a[1..], pattern);
        assert a <= s <==> a[0] == s[0] && a[1..] <= s[1..];
        assert a <= s ==> s[1..][|a| - 1..] == s[|a|..];
      }
    }
  }

  lemma {:induction false} PercentMeansAnyText(s: string, pattern: string)
    ensures Like(s, "%" + pattern) <==> exists k | 0 <= k <= |s| :: Like(s[k..], pattern)
    decreases |s|
  {
    var p := "%" + pattern;
    assert p[1..] == pattern && s[0..] == s;
    if s != [] {
      PercentMeansAnyText(s[1..], pattern);
      assert forall k | 0 <= k < |s| :: s[1..][k..] == s[k + 1..];
      if k :| 1 <= k <= |s| && Like(s[k..], pattern) {
        assert s[1..][k - 1..] == s[k..];
      }
    }
  }

  /**
   * What each part of a pattern means after literal text: nothing more is the text itself, _ is any one character, %
   * any text, and a backslash the character after it, whatever that is.
   */
  lemma {:induction false} PatternMeaning(s: string, a: string, c: char, pattern: string)
    requires Literal(a)
    ensures Like(s, a) <==> s == a
    ensures Like(s, a + ("_" + pattern)) <==> a <= s && |a| < |s| && Like(s[|a| + 1..], pattern)
    ensures Like(s, a + ("\\" + ([c] + pattern))) <==> a + [c] <= s && Like(s[|a| + 1..], pattern)
    ensures Like(s, a + ("%" + pattern)) <==> a <= s && exists k | |a| <= k <= |s| :: Like(s[k..], pattern)
  {
    LiteralThen(s, a, "");
    assert a + "" == a;
    LiteralThen(s, a, "_" + pattern);
    LiteralThen(s, a, "\\" + ([c] + pattern));
    LiteralThen(s, a, "%" + pattern);
    assert ("_" + pattern)[1..] == pattern && ("\\" + ([c] + pattern))[2..] == pattern;
    if a <= s {
      var rest := s[|a|..];
      assert rest != [] ==> rest[1..] == s[|a| + 1..];
      PercentMeansAnyText(rest, pattern);
      AnyTextAfter(s, |a|, pattern);
    }
  }

  lemma {:induction false} AnyTextAfter(s: string, n: nat, pattern: string)
    requires n <= |s|
    ensures (exists k | 0 <= k <= |s| - n :: Like(s[n..][k..], pattern)) <==>
      exists k | n <= k <= |s| :: Like(s[k..], pattern)
  {
    assert forall k | 0 <= k <= |s| - n :: s[n..][k..] == s[n + k..];
    if k :| n <= k <= |s| && Like(s[k..], pattern) {
      assert s[n..][k - n..] == s[k..];
    }
  }

  lemma {:induction false} UnderscoreMatchesAny(front: string, c: char, back: string, rest: string)
    requires Literal(front) && Literal(back)
    ensures Like(front + ([c] + (back + rest)), front + ("_" + (back + "%")))
  {
    var s := front + ([c] + (back + rest));
    PatternMeaning(s, front, c, back + "%");
    assert s[|front| + 1..] == back + rest;
    LiteralMeansPrefix(back + rest, back);
  }

  // ---------------------------------------------------------------- events

  datatype Status = Active | Resolved

  /** A row; its id is its position in the table. */
  datatype AlertEvent = AlertEvent(rule: int, cluster: int, severity: string, message: string, status: Status)

  predicate Matches(e: AlertEvent, rule: int, prefix: string) {
    e.rule == rule && e.status.Active? && Like(e.message, prefix + "%")
  }

  ghost predicate HasActive(events: seq<AlertEvent>, rule: int, prefix: string) {
    exists e | e in events :: Matches(e, rule, prefix)
  }

  function Settled(e: AlertEvent, rule: int, prefix: string): AlertEvent {
    if Matches(e, rule, prefix) then e.(status := Resolved) else e
  }

  function ResolveAll(events: seq<AlertEvent>, rule: int, prefix: string): seq<AlertEvent> {
    if events == [] then []
    else ResolveAll(events[..|events| - 1], rule, prefix) + [Settled(events[|events| - 1], rule, prefix)]
  }

  /** The update changes each row by itself. */
  lemma {:induction false} ResolveAllAt(events: seq<AlertEvent>, rule: int, prefix: string)
    ensures var r := ResolveAll(events, rule, prefix);
      |r| == |events| && forall i | 0 <= i < |events| :: r[i] == Settled(events[i], rule, prefix)
  {
    if events != [] {
      ResolveAllAt(events[..|events| - 1], rule, prefix);
    }
  }

  /** The alert_events table. `fails` says that the statement fails, which the evaluator mostly ignores. */
  class AlertStore {
    var events: seq<AlertEvent>

    constructor ()
      ensures events == []
    {
      events := [];
    }

    method InsertAlertEvent(e: AlertEvent, fails: bool)
      modifies this
      ensures events == if fails then old(events) else old(events) + [e]
    {
      if !fails {
        events := events + [e];
      }
    }

    /** None where the query fails. */
    method HasActiveAlertEvent(rule: int, messagePrefix: string, fails: bool) returns (found: Option<bool>)
      ensures found == if fails then None else Some(HasActive(events, rule, messagePrefix))
    {
      if fails {
        return None;
      }
      for i := 0 to |events|
        invariant forall j | 0 <= j < i :: !Matches(events[j], rule, messagePrefix)
      {
        if Matches(events[i], rule, messagePrefix) {
          return Some(true);
        }
      }
      return Some(false);
    }

    method ResolveActiveAlertsByPrefix(rule: int, messagePrefix: string, fails: bool)
      modifies this
      ensures events == if fails then old(events) else ResolveAll(old(events), rule, messagePrefix)
    {
      if fails {
        return;
      }
      for i := 0 to |events|
        invariant |events| == |old(events)|
        invariant forall j | 0 <= j < i :: events[j] == Settled(old(events)[j], rule, messagePrefix)
        invariant forall j | i <= j < |events| :: events[j] == old(events)[j]
      {
        if Matches(events[i], rule, messagePrefix) {
          events := events[i := events[i].(status := Resolved)];
        }
      }
      ResolveAllAt(old(events), rule, messagePrefix);
    }

    /** Resolving by hand; an unknown id changes no row. */
    method ResolveAlertEvent(id: nat)
      modifies this
      ensures events == if id < |old(events)| then old(events)[id := old(events)[id].(status := Resolved)]
        else old(events)
    {
      if id < |events| {
        events := events[id := events[id].(status := Resolved)];
      }
    }
  }
}
