/** The permission matchers of the server and of the browser, and where they agree. */
module Permissions {

  predicate IsWildcard(p: string) {
    |p| > 2 && p[|p| - 2] == '.' && p[|p| - 1] == '*'
  }

  /** The wildcard without its star is a prefix of what is asked for. */
  predicate Covers(p: string, required: string) {
    IsWildcard(p) && p[..|p| - 1] <= required
  }

  predicate Suffices(p: string, required: string) {
    p == required || Covers(p, required)
  }

  ghost predicate Grants(granted: seq<string>, required: string) {
    exists p | p in granted :: Suffices(p, required)
  }

  /** The server's matcher. */
  method MatchPermission(granted: seq<string>, required: string) returns (r: bool)
    ensures r <==> Grants(granted, required)
  {
    for i := 0 to |granted|
      invariant forall j | 0 <= j < i :: !Suffices(granted[j], required)
    {
      var p := granted[i];
      assert p in granted;
      if p == required {
        return true;
      }
      if |p| > 2 && p[|p| - 2..] == ".*" {
        var prefix := p[..|p| - 1];
        if |required| >= |prefix| && required[..|prefix|] == prefix {
          assert p[|p| - 2..][0] == '.' && p[|p| - 2..][1] == '*' && Covers(p, required);
          return true;
        }
      }
    }
    return false;
  }

  /** The text before the first dot. */
  function Namespace(s: string): (ns: string)
    ensures ns <= s && '.' !in ns && (|ns| < |s| ==> s[|ns|] == '.')
  {
    if s == [] || s[0] == '.' then [] else [s[0]] + Namespace(s[1..])
  }

  /** The browser's matcher. */
  predicate MatchesInBrowser(granted: seq<string>, required: string) {
    required in granted || Namespace(required) + ".*" in granted
  }

  function Dots(s: string): nat {
    if s == [] then 0 else Dots(s[1..]) + if s[0] == '.' then 1 else 0
  }

  ghost predicate Simple(granted: seq<string>) {
    forall p | p in granted :: Dots(p) <= 1
  }

  lemma {:induction false} DotsJoin(a: string, b: string)
    ensures Dots(a + b) == Dots(a) + Dots(b)
  {
    if a == [] {
      assert a + b == b;
    } else {
      assert (a + b)[1..] == a[1..] + b;
      DotsJoin(a[1..], b);
    }
  }

  lemma {:induction false} NoDots(s: string)
    ensures Dots(s) == 0 <==> '.' !in s
  {
    if s != [] {
      NoDots(s[1..]);
      assert s == [s[0]] + s[1..];
    }
  }

  /** A namespace is all there is before the first dot. */
  lemma {:induction false} NamespaceIsUnique(x: string, s: string)
    requires '.' !in x
    ensures x + "." <= s <==> Namespace(s) == x && |x| < |s|
  {
    var ns := Namespace(s);
    if x + "." <= s {
      assert s[|x|] == '.';
      assert forall i | 0 <= i < |x| :: s[i] == x[i] && x[i] in x;
      assert forall i | 0 <= i < |ns| :: s[i] == ns[i] && ns[i] in ns;
      assert |ns| == |x|;
    }
    if ns == x && |x| < |s| {
      assert s[..|x| + 1] == x + ".";
    }
  }

  /** A wildcard with one dot covers exactly what lies in its namespace. */
  lemma {:induction false} SimpleWildcard(p: string, required: string)
    requires Dots(p) <= 1
    ensures Covers(p, required) <==> p == Namespace(required) + ".*" && 0 < |Namespace(required)| < |required|
  {
    if IsWildcard(p) {
      var x := p[..|p| - 2];
      assert p == x + ".*" && p[..|p| - 1] == x + ".";
      DotsJoin(x, ".*");
      NoDots(x);
      NamespaceIsUnique(x, required);
      assert p == Namespace(required) + ".*" <==> x == Namespace(required) by {
        assert (Namespace(required) + ".*")[..|Namespace(required)|] == Namespace(required);
      }
    }
  }

  /** A dot after a non-empty first segment; or a bare wildcard, which only itself grants. */
  predicate Namespaced(required: string) {
    0 < |Namespace(required)| < |required| || required == ".*"
  }

  lemma {:induction false} AgreeOnNamespaced(granted: seq<string>, required: string)
    requires Simple(granted) && Namespaced(required)
    ensures Grants(granted, required) <==> MatchesInBrowser(granted, required)
  {
    forall p | p in granted
      ensures Covers(p, required) <==> p == Namespace(required) + ".*" && 0 < |Namespace(required)| < |required|
    {
      SimpleWildcard(p, required);
    }
  }

  lemma {:induction false} DifferElsewhere(required: string)
    requires !Namespaced(required)
    ensures var granted := [Namespace(required) + ".*"];
      Simple(granted) && MatchesInBrowser(granted, required) && !Grants(granted, required)
  {
    var ns := Namespace(required);
    DotsJoin(ns, ".*");
    NoDots(ns);
    SimpleWildcard(ns + ".*", required);
    assert Dots(".*") == 1 + Dots("*");
  }

  /**
   * Over all granted lists whose entries have at most one dot, server and browser agree on a required permission
   * exactly when it has a dot after a non-empty first segment, or is the bare wildcard.
   */
  lemma {:induction false} AgreeExactlyWhenNamespaced(required: string)
    ensures
      (forall granted | Simple(granted) :: Grants(granted, required) <==> MatchesInBrowser(granted, required)) <==>
      Namespaced(required)
  {
    if Namespaced(required) {
      forall granted | Simple(granted)
        ensures Grants(granted, required) <==> MatchesInBrowser(granted, required)
      {
        AgreeOnNamespaced(granted, required);
      }
    } else {
      DifferElsewhere(required);
    }
  }

  /** With a second dot they part: a nested wildcard counts on the server only. */
  lemma {:induction false} NestedWildcardsDiffer()
    ensures Grants(["a.b.*"], "a.b.c") && !MatchesInBrowser(["a.b.*"], "a.b.c")
  {
    var p: string := "a.b.*";
    assert p in [p] && Covers(p, "a.b.c") by {
      assert p[..4] == "a.b." && "a.b.c"[..4] == "a.b.";
    }
    NamespaceIsUnique("a", "a.b.c");
    assert "a" + "." <= "a.b.c";
  }
}
