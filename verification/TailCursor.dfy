/** The paging token: a map from partition to offset, as a JSON object in base64url. */
module TailCursor {
  import opened Wrappers
  import opened Decimal
  import opened Records
  import opened Base64Url

  /** Go's int64: a client may send any value back. */
  type Offset = o: int | -0x8000_0000_0000_0000 <= o <= 0x7FFF_FFFF_FFFF_FFFF

  type Cursor = map<PartitionId, Offset>

  // ---------------------------------------------------------------- writing JSON

  predicate StringLess(a: string, b: string) {
    b != [] && (a == [] || a[0] < b[0] || (a[0] == b[0] && StringLess(a[1..], b[1..])))
  }

  lemma {:induction false} StringOrder(a: string, b: string)
    ensures StringLess(a, b) || a == b || StringLess(b, a)
  {
    if a != [] && b != [] && a[0] == b[0] {
      StringOrder(a[1..], b[1..]);
      assert a == [a[0]] + a[1..] && b == [b[0]] + b[1..];
    }
  }

  lemma {:induction false} StringLessTransitive(a: string, b: string, c: string)
    requires StringLess(a, b) && StringLess(b, c)
    ensures StringLess(a, c)
  {
    if a != [] && a[0] == b[0] == c[0] {
      StringLessTransitive(a[1..], b[1..], c[1..]);
    }
  }

  predicate IsLeast(k: string, keys: set<string>) {
    k in keys && forall j | j in keys :: j == k || StringLess(k, j)
  }

  lemma {:induction false} LeastExists(keys: set<string>)
    requires keys != {}
    ensures exists k :: IsLeast(k, keys)
  {
    var j :| j in keys;
    if keys == {j} {
      assert IsLeast(j, keys);
    } else {
      LeastExists(keys - {j});
      var k :| IsLeast(k, keys - {j});
      StringOrder(j, k);
      if StringLess(k, j) {
        assert IsLeast(k, keys);
      } else {
        forall i | i in keys && i != j && i != k
          ensures StringLess(j, i)
        {
          StringLessTransitive(j, k, i);
        }
        assert IsLeast(j, keys);
      }
    }
  }

  lemma {:induction false} StringLessAsymmetric(a: string, b: string)
    requires StringLess(a, b) && a != b
    ensures !StringLess(b, a)
  {
    if a != [] && a[0] == b[0] {
      assert a == [a[0]] + a[1..] && b == [b[0]] + b[1..];
      StringLessAsymmetric(a[1..], b[1..]);
    }
  }

  function Least(keys: set<string>): (k: string)
    requires keys != {}
    ensures IsLeast(k, keys)
  {
    LeastExists(keys);
    assert forall a, b | IsLeast(a, keys) && IsLeast(b, keys) :: a == b by {
      forall a, b | IsLeast(a, keys) && IsLeast(b, keys)
        ensures a == b
      {
        if a != b {
          StringLessAsymmetric(a, b);
        }
      }
    }
    var k :| k in keys && IsLeast(k, keys);
    k
  }

  function MemberText(k: string, rest: string): string {
    "\"" + k + "\":" + rest
  }

  /** The members of a JSON object (section 4 of RFC 8259) in key order, up to the closing brace. */
  function Members(keys: set<string>, m: map<string, Offset>): string
    requires keys != {} && keys <= m.Keys
    decreases |keys|
  {
    var k := Least(keys);
    MemberText(k, Itoa(m[k]) + (if keys == {k} then "}" else "," + Members(keys - {k}, m)))
  }

  function Json(m: map<string, Offset>): string {
    if m == map[] then "{}" else "{" + Members(m.Keys, m)
  }

  /** Keys are compared by the first character in which they differ; a proper prefix comes first. */
  lemma {:induction false} LessAtFirstDifference(a: string, b: string, i: nat)
    requires i <= |a| && i <= |b| && a[..i] == b[..i]
    ensures i == |a| < |b| ==> StringLess(a, b)
    ensures i < |a| && i < |b| && a[i] != b[i] ==> (StringLess(a, b) <==> a[i] < b[i])
  {
    if i > 0 {
      assert a[0] == a[..i][0] == b[..i][0] == b[0];
      assert a[1..][..i - 1] == a[..i][1..] == b[..i][1..] == b[1..][..i - 1];
      LessAtFirstDifference(a[1..], b[1..], i - 1);
    }
  }

  predicate KeysRise(keys: seq<string>) {
    forall i, j | 0 <= i < j < |keys| :: StringLess(keys[i], keys[j])
  }

  /** The members one by one, with commas between them. */
  function Joined(keys: seq<string>, m: map<string, Offset>): string
    requires forall k | k in keys :: k in m
  {
    if keys == [] then ""
    else
      var first := "\"" + keys[0] + "\":" + Itoa(m[keys[0]]);
      if |keys| == 1 then first else first + "," + Joined(keys[1..], m)
  }

  lemma {:induction false} MemberWritten(k: string, v: string, rest: string)
    ensures MemberText(k, v + "}") == ("\"" + k + "\":" + v) + "}"
    ensures MemberText(k, v + ("," + (rest + "}"))) == (("\"" + k + "\":" + v) + "," + rest) + "}"
  {
  }

  lemma {:induction false} LeastFirst(k: string, keys: set<string>, rest: seq<string>)
    requires IsLeast(k, keys) && KeysRise(rest) && forall j :: j in rest <==> j in keys - {k}
    ensures KeysRise([k] + rest) && forall j :: j in [k] + rest <==> j in keys
  {
    var order := [k] + rest;
    forall i, j | 0 <= i < j < |order|
      ensures StringLess(order[i], order[j])
    {
      assert order[j] == rest[j - 1] && rest[j - 1] in rest;
    }
  }

  lemma {:induction false} MembersInKeyOrder(keys: set<string>, m: map<string, Offset>) returns (order: seq<string>)
    requires keys != {} && keys <= m.Keys
    ensures order != [] && KeysRise(order) && (forall k :: k in order <==> k in keys)
    ensures Members(keys, m) == Joined(order, m) + "}"
    decreases |keys|
  {
    var k := Least(keys);
    if keys == {k} {
      order := [k];
      MemberWritten(k, Itoa(m[k]), "");
    } else {
      var rest := MembersInKeyOrder(keys - {k}, m);
      LeastFirst(k, keys, rest);
      order := [k] + rest;
      MemberWritten(k, Itoa(m[k]), Joined(rest, m));
      assert order[1..] == rest;
    }
  }

  /** The JSON text: an object with every entry once, keys strictly rising. */
  lemma {:induction false} JsonListsKeysInOrder(m: map<string, Offset>) returns (order: seq<string>)
    ensures KeysRise(order) && (forall k :: k in order <==> k in m)
    ensures Json(m) == "{" + Joined(order, m) + "}"
  {
    if m == map[] {
      order := [];
    } else {
      order := MembersInKeyOrder(m.Keys, m);
    }
  }

  // ---------------------------------------------------------------- reading JSON

  predicate IsSpace(c: char) {
    c == ' ' || c == '\t' || c == '\r' || c == '\n'
  }

  function SkipSpace(s: string): (r: string)
    ensures |r| <= |s|
  {
    if s != [] && IsSpace(s[0]) then SkipSpace(s[1..]) else s
  }

  predicate NumeralChar(c: char) {
    IsDigit(c) || c == '+' || c == '-'
  }

  /** The one character a backslash-u escape of a numeral character stands for. */
  function Escaped(s: string): Option<char> {
    if |s| < 6 || s[..4] != "\\u00" then None
    else if s[4] == '3' && IsDigit(s[5]) then Some(s[5])
    else if s[4] == '2' && (s[5] == 'b' || s[5] == 'B') then Some('+')
    else if s[4] == '2' && (s[5] == 'd' || s[5] == 'D') then Some('-')
    else None
  }

  /** A key up to its closing quote. Any other character makes the key no partition number, hence the cursor invalid. */
  function ReadKey(s: string): (r: Option<(string, string)>)
    ensures r.Some? ==> |r.value.1| < |s|
  {
    if s == [] then None
    else if s[0] == '"' then Some(("", s[1..]))
    else
      var (c, n) := if NumeralChar(s[0]) then (Some(s[0]), 1) else (Escaped(s), 6);
      if c.None? then None
      else
        match ReadKey(s[n..])
        case Some((k, rest)) => Some(([c.value] + k, rest))
        case None => None
  }

  function DigitRun(s: string): (n: nat)
    ensures n <= |s| && AllDigits(s[..n])
  {
    if s == [] || !IsDigit(s[0]) then 0
    else
      var n := 1 + DigitRun(s[1..]);
      assert s[..n] == [s[0]] + s[1..][..n - 1];
      n
  }

  /** Digits without a leading zero. */
  function ReadDigits(s: string): (r: Option<(nat, string)>)
    ensures r.Some? ==> |r.value.1| < |s|
  {
    var n := DigitRun(s);
    if n == 0 || (n > 1 && s[0] == '0') then None else Some((Value(s[..n]), s[n..]))
  }

  /** An int64 in JSON's number grammar (section 6 of RFC 8259); null leaves the zero value. */
  function ReadValue(s: string): (r: Option<(Offset, string)>)
    ensures r.Some? ==> |r.value.1| < |s|
  {
    if "null" <= s then Some((0, s[4..]))
    else
      var negative := s != [] && s[0] == '-';
      match ReadDigits(if negative then s[1..] else s)
      case None => None
      case Some((n, rest)) =>
        var magnitude: int := n;
        var v := if negative then -magnitude else magnitude;
        if -0x8000_0000_0000_0000 <= v <= 0x7FFF_FFFF_FFFF_FFFF then Some((v, rest)) else None
  }

  /** One member, with the space around its parts. */
  function ReadMember(s: string): (r: Option<(string, Offset, string)>)
    ensures r.Some? ==> |r.value.2| < |s|
  {
    var a := SkipSpace(s);
    if a == [] || a[0] != '"' then None
    else
      match ReadKey(a[1..])
      case None => None
      case Some((k, b)) =>
        var c := SkipSpace(b);
        if c == [] || c[0] != ':' then None
        else
          match ReadValue(SkipSpace(c[1..]))
          case None => None
          case Some((v, d)) => Some((k, v, SkipSpace(d)))
  }

  /** Members up to the closing brace; a repeated key keeps its last value. */
  function ReadMembers(s: string): (r: Option<(map<string, Offset>, string)>)
    decreases |s|
  {
    match ReadMember(s)
    case None => None
    case Some((k, v, rest)) =>
      if rest == [] then None
      else if rest[0] == '}' then Some((map[k := v], rest[1..]))
      else if rest[0] != ',' then None
      else
        match ReadMembers(rest[1..])
        case None => None
        case Some((m, end)) => Some((map[k := v] + m, end))
  }

  function ReadJson(s: string): Option<map<string, Offset>> {
    var a := SkipSpace(s);
    if "null" <= a then
      if SkipSpace(a[4..]) == [] then Some(map[]) else None
    else if a == [] || a[0] != '{' then None
    else
      var b := SkipSpace(a[1..]);
      if b != [] && b[0] == '}' then
        if SkipSpace(b[1..]) == [] then Some(map[]) else None
      else
        match ReadMembers(a[1..])
        case Some((m, rest)) => if SkipSpace(rest) == [] then Some(m) else None
        case None => None
  }

  // ---------------------------------------------------------------- the token

  function ReadToken(s: string): Option<map<string, Offset>> {
    match Base64Url.Decode(s)
    case Some(bs) => ReadJson(Text(bs))
    case None => None
  }

  ghost predicate IsSpelled(k: string, c: Cursor) {
    exists p | p in c :: k == Itoa(p)
  }

  ghost predicate SpellsOut(m: map<string, Offset>, c: Cursor) {
    && (forall p | p in c :: Itoa(p) in m && m[Itoa(p)] == c[p])
    && (forall k {:trigger IsSpelled(k, c)} | k in m :: IsSpelled(k, c))
  }

  lemma {:induction false} OneKeyMore(m: map<string, Offset>, c: Cursor, p: PartitionId)
    requires p in c && SpellsOut(m, c - {p})
    ensures SpellsOut(m[Itoa(p) := c[p]], c)
  {
    forall q | q in c
      ensures Itoa(q) == Itoa(p) <==> q == p
    {
      if Itoa(q) == Itoa(p) {
        ItoaInjective(p, q);
      }
    }
    forall k | k in m
      ensures IsSpelled(k, c)
    {
      assert IsSpelled(k, c - {p});
    }
  }

  ghost function Keyed(c: Cursor): (m: map<string, Offset>)
    ensures SpellsOut(m, c)
  {
    if c == map[] then map[]
    else
      var p :| p in c;
      OneKeyMore(Keyed(c - {p}), c, p);
      Keyed(c - {p})[Itoa(p) := c[p]]
  }

  function PartitionOf(k: string): Option<int> {
    ParseInt(k, -0x8000_0000, 0x7FFF_FFFF)
  }

  ghost predicate IsKeyOf(k: string, c: Cursor) {
    PartitionOf(k).Some? && PartitionOf(k).value in c
  }

  ghost predicate HasEntry(m: map<string, Offset>, p: int, v: Offset) {
    exists k | k in m :: PartitionOf(k) == Some(p) && m[k] == v
  }

  /** `c` is a possible reading of `m`: of several keys that spell one partition, any may win. */
  ghost predicate Reads(m: map<string, Offset>, c: Cursor) {
    && (forall k {:trigger IsKeyOf(k, c)} | k in m :: IsKeyOf(k, c))
    && (forall p {:trigger HasEntry(m, p, c[p])} | p in c :: HasEntry(m, p, c[p]))
  }

  // ---------------------------------------------------------------- reading back what was written

  ghost predicate NumeralKeys(m: map<string, Offset>) {
    forall k, i | k in m && 0 <= i < |k| :: NumeralChar(k[i])
  }

  lemma {:induction false} ItoaNumeralChars(n: int)
    ensures forall i | 0 <= i < |Itoa(n)| :: NumeralChar(Itoa(n)[i])
  {
    var digits := Digits(if n < 0 then -n else n);
    DigitsValue(if n < 0 then -n else n);
    assert forall i | 0 <= i < |digits| :: digits[i] in digits;
  }

  lemma {:induction false} KeyedNumerals(c: Cursor)
    ensures NumeralKeys(Keyed(c))
  {
    forall k, i | k in Keyed(c) && 0 <= i < |k|
      ensures NumeralChar(k[i])
    {
      assert IsSpelled(k, c);
      var p :| p in c && k == Itoa(p);
      ItoaNumeralChars(p);
    }
  }

  lemma {:induction false} MembersAreText(keys: set<string>, m: map<string, Offset>)
    requires keys != {} && keys <= m.Keys && NumeralKeys(m)
    ensures IsByteString(Members(keys, m))
    decreases |keys|
  {
    var k := Least(keys);
    ItoaNumeralChars(m[k]);
    if keys != {k} {
      MembersAreText(keys - {k}, m);
    }
  }

  lemma {:induction false} JsonIsByteString(m: map<string, Offset>)
    requires NumeralKeys(m)
    ensures IsByteString(Json(m))
  {
    if m != map[] {
      MembersAreText(m.Keys, m);
    }
  }

  lemma {:induction false} KeyReadsBack(k: string, rest: string)
    requires forall i | 0 <= i < |k| :: NumeralChar(k[i])
    ensures ReadKey(k + "\"" + rest) == Some((k, rest))
  {
    var s := k + "\"" + rest;
    if k == [] {
      assert s[1..] == rest;
    } else {
      KeyReadsBack(k[1..], rest);
      assert s[1..] == k[1..] + "\"" + rest;
      assert k == [k[0]] + k[1..];
    }
  }

  lemma {:induction false} DigitRunStops(digits: string, rest: string)
    requires AllDigits(digits) && (rest == [] || !IsDigit(rest[0]))
    ensures DigitRun(digits + rest) == |digits|
  {
    if digits != [] {
      assert digits[0] in digits;
      assert (digits + rest)[1..] == digits[1..] + rest;
      assert forall c | c in digits[1..] :: c in digits;
      DigitRunStops(digits[1..], rest);
    } else {
      assert digits + rest == rest;
    }
  }

  lemma {:induction false} DigitsGrammar(digits: string, rest: string)
    requires AllDigits(digits) && (rest == [] || !IsDigit(rest[0]))
    ensures ReadDigits(digits + rest) ==
      if digits == "" || (|digits| > 1 && digits[0] == '0') then None else Some((Value(digits), rest))
  {
    DigitRunStops(digits, rest);
    assert (digits + rest)[..|digits|] == digits && (digits + rest)[|digits|..] == rest;
  }

  lemma {:induction false} ValueOfDigits(s: string, minus: bool, body: string)
    requires (s != [] && s[0] == '-' <==> minus) && body == (if minus then s[1..] else s) && !("null" <= s)
    ensures ReadValue(s) ==
      match ReadDigits(body)
      case None => None
      case Some((n, rest)) =>
        var v: int := if minus then 0 - n else n;
        if -9223372036854775808 <= v <= 9223372036854775807 then Some((v, rest)) else None
  {
  }

  lemma {:induction false} NotNull(s: string)
    requires s != [] && s[0] != 'n'
    ensures !("null" <= s)
  {
    assert "null"[0] == 'n';
  }

  lemma {:induction false} FirstOfNumber(minus: bool, digits: string, rest: string)
    requires AllDigits(digits)
    requires digits == "" && !minus ==> !("null" <= rest) && (rest == [] || rest[0] != '-')
    ensures var s := (if minus then "-" else "") + (digits + rest);
      !("null" <= s) && (s != [] && s[0] == '-' <==> minus) && digits + rest == if minus then s[1..] else s
  {
    var s := (if minus then "-" else "") + (digits + rest);
    if digits == "" {
      assert digits + rest == rest;
    } else {
      assert digits[0] in digits;
      assert s[0] == if minus then '-' else digits[0];
    }
    if minus || digits != "" {
      NotNull(s);
    }
  }

  /**
   * A number in a token is an optional minus and a run of digits without a leading zero, within the bounds of int64;
   * anything else is an error.
   */
  lemma {:induction false} NumberGrammar(minus: bool, digits: string, rest: string)
    requires AllDigits(digits) && (rest == [] || !IsDigit(rest[0]))
    requires digits == "" && !minus ==> !("null" <= rest) && (rest == [] || rest[0] != '-')
    ensures var v: int := if minus then 0 - Value(digits) else Value(digits);
      ReadValue((if minus then "-" else "") + (digits + rest)) ==
        if digits == "" || (|digits| > 1 && digits[0] == '0') || v < -9223372036854775808 || v > 9223372036854775807
        then None else Some((v, rest))
  {
    FirstOfNumber(minus, digits, rest);
    DigitsGrammar(digits, rest);
    ValueOfDigits((if minus then "-" else "") + (digits + rest), minus, digits + rest);
  }

  lemma {:induction false} DigitsReadBack(n: nat, rest: string)
    requires rest == [] || !IsDigit(rest[0])
    ensures ReadDigits(Digits(n) + rest) == Some((n, rest))
  {
    DigitsValue(n);
    DigitsGrammar(Digits(n), rest);
  }

  lemma {:induction false} DigitsStart(n: nat)
    ensures Digits(n) != [] && IsDigit(Digits(n)[0])
  {
    DigitsValue(n);
    assert Digits(n)[0] in Digits(n);
  }

  /** The text of a number starts with a sign or a digit. */
  lemma {:induction false} ItoaSplit(n: int, rest: string)
    ensures var (s, digits) := (Itoa(n) + rest, Digits(if n < 0 then -n else n));
      && s != [] && SkipSpace(s) == s && s[0] != 'n'
      && (s[0] == '-' <==> n < 0)
      && (if n < 0 then s[1..] else s) == digits + rest
  {
    if n < 0 {
      assert (['-'] + Digits(-n) + rest)[1..] == Digits(-n) + rest;
    } else {
      DigitsStart(n);
      assert (Digits(n) + rest)[0] == Digits(n)[0];
    }
  }

  lemma {:induction false} ValueReadsBack(v: Offset, rest: string)
    requires rest == [] || !IsDigit(rest[0])
    ensures ReadValue(Itoa(v) + rest) == Some((v, rest))
  {
    var s, n: int := Itoa(v) + rest, v;
    ItoaSplit(v, rest);
    DigitsReadBack(if n < 0 then -n else n, rest);
    assert !("null" <= s);
  }

  lemma {:induction false} MemberReadsBack(k: string, v: Offset, number: string, after: string)
    requires forall i | 0 <= i < |k| :: NumeralChar(k[i])
    requires SkipSpace(number) == number && ReadValue(number) == Some((v, after)) && SkipSpace(after) == after
    ensures ReadMember(MemberText(k, number)) == Some((k, v, after))
  {
    var tail := ":" + number;
    var s := MemberText(k, number);
    assert s[1..] == k + "\"" + tail && tail[1..] == number;
    KeyReadsBack(k, tail);
  }

  lemma {:induction false} NumberReadsBack(k: string, v: Offset, after: string)
    requires forall i | 0 <= i < |k| :: NumeralChar(k[i])
    requires after != [] && (after[0] == ',' || after[0] == '}')
    ensures ReadMember(MemberText(k, Itoa(v) + after)) == Some((k, v, after))
  {
    ItoaSplit(v, after);
    ValueReadsBack(v, after);
    MemberReadsBack(k, v, Itoa(v) + after, after);
  }

  predicate AllSpace(s: string) {
    forall i | 0 <= i < |s| :: IsSpace(s[i])
  }

  lemma {:induction false} SpaceSkipped(space: string, rest: string)
    requires AllSpace(space) && SkipSpace(rest) == rest
    ensures SkipSpace(space + rest) == rest
  {
    if space == [] {
      assert space + rest == rest;
    } else {
      assert (space + rest)[1..] == space[1..] + rest;
      SpaceSkipped(space[1..], rest);
    }
  }

  lemma {:induction false} SpacedValue(v: Offset, c: string, d: string, after: string)
    requires AllSpace(c) && AllSpace(d) && after != [] && (after[0] == ',' || after[0] == '}')
    ensures ReadValue(SkipSpace(c + (Itoa(v) + (d + after)))) == Some((v, d + after))
    ensures SkipSpace(d + after) == after
  {
    ItoaSplit(v, d + after);
    SpaceSkipped(c, Itoa(v) + (d + after));
    assert (d + after)[0] == if d == [] then after[0] else d[0];
    ValueReadsBack(v, d + after);
    SpaceSkipped(d, after);
  }

  lemma {:induction false} SpacedKey(k: string, a: string, b: string, colon: string)
    requires forall i | 0 <= i < |k| :: NumeralChar(k[i])
    requires AllSpace(a) && AllSpace(b) && colon != [] && colon[0] == ':'
    ensures var s := SkipSpace(a + ("\"" + (k + "\"" + (b + colon))));
      s != [] && s[0] == '"' && ReadKey(s[1..]) == Some((k, b + colon))
    ensures SkipSpace(b + colon) == colon
  {
    var quoted := "\"" + (k + "\"" + (b + colon));
    SpaceSkipped(a, quoted);
    KeyReadsBack(k, b + colon);
    assert quoted[1..] == k + "\"" + (b + colon);
    SpaceSkipped(b, colon);
  }

  /** Space around the parts of a member does not matter. */
  lemma {:induction false} SpaceDoesNotMatter(k: string, v: Offset, a: string, b: string, c: string, d: string,
        after: string)
    requires forall i | 0 <= i < |k| :: NumeralChar(k[i])
    requires AllSpace(a) && AllSpace(b) && AllSpace(c) && AllSpace(d)
    requires after != [] && (after[0] == ',' || after[0] == '}')
    ensures ReadMember(a + ("\"" + (k + "\"" + (b + (":" + (c + (Itoa(v) + (d + after)))))))) == Some((k, v, after))
  {
    var value := c + (Itoa(v) + (d + after));
    SpacedKey(k, a, b, ":" + value);
    SpacedValue(v, c, d, after);
    assert (":" + value)[1..] == value;
  }

  function Restrict(m: map<string, Offset>, keys: set<string>): map<string, Offset> {
    map k | k in keys && k in m :: m[k]
  }

  lemma {:induction false} RestrictStep(m: map<string, Offset>, keys: set<string>, k: string)
    requires k in keys && k in m
    ensures Restrict(m, keys) == map[k := m[k]] + Restrict(m, keys - {k})
  {
  }

  lemma {:induction false} MembersReadBack(keys: set<string>, m: map<string, Offset>)
    requires keys != {} && keys <= m.Keys && NumeralKeys(m)
    ensures ReadMembers(Members(keys, m)) == Some((Restrict(m, keys), ""))
    ensures Members(keys, m)[0] == '"'
    decreases |keys|
  {
    var k := Least(keys);
    var others := keys - {k};
    RestrictStep(m, keys, k);
    if others == {} {
      assert keys == {k};
      NumberReadsBack(k, m[k], "}");
      assert "}"[1..] == "" && map[k := m[k]] + Restrict(m, others) == map[k := m[k]];
    } else {
      MembersReadBack(others, m);
      var after := "," + Members(others, m);
      NumberReadsBack(k, m[k], after);
      assert after[1..] == Members(others, m);
    }
  }

  lemma {:induction false} JsonReadsBack(m: map<string, Offset>)
    requires NumeralKeys(m)
    ensures ReadJson(Json(m)) == Some(m)
  {
    if m != map[] {
      var s, members := Json(m), Members(m.Keys, m);
      assert s[0] == '{' && s[1..] == members && SkipSpace(s) == s;
      assert ReadMembers(members) == Some((m, "")) && SkipSpace(members)[0] == '"' by {
        MembersReadBack(m.Keys, m);
        assert Restrict(m, m.Keys) == m;
      }
    }
  }

  lemma {:induction false} ReadsBackKey(p: PartitionId)
    ensures PartitionOf(Itoa(p)) == Some(p)
  {
    ParseItoa(p, -0x8000_0000, 0x7FFF_FFFF);
  }

  lemma {:induction false} WrittenKey(m: map<string, Offset>, c: Cursor, k: string)
    requires SpellsOut(m, c) && k in m
    ensures IsKeyOf(k, c) && m[k] == c[PartitionOf(k).value]
  {
    assert IsSpelled(k, c);
    var p :| p in c && k == Itoa(p);
    ReadsBackKey(p);
  }

  lemma {:induction false} WrittenEntry(m: map<string, Offset>, c: Cursor, p: int, v: Offset)
    requires SpellsOut(m, c)
    ensures HasEntry(m, p, v) <==> p in c && v == c[p]
  {
    if p in c {
      ReadsBackKey(p);
      assert Itoa(p) in m;
    }
    if HasEntry(m, p, v) {
      var k :| k in m && PartitionOf(k) == Some(p) && m[k] == v;
      WrittenKey(m, c, k);
    }
  }

  lemma {:induction false} WrittenReads(m: map<string, Offset>, c: Cursor)
    requires SpellsOut(m, c)
    ensures Reads(m, c)
  {
    forall k | k in m
      ensures IsKeyOf(k, c)
    {
      WrittenKey(m, c, k);
    }
    forall p | p in c
      ensures HasEntry(m, p, c[p])
    {
      WrittenEntry(m, c, p, c[p]);
    }
  }

  lemma {:induction false} EntryIsRead(m: map<string, Offset>, d: Cursor, p: int, v: Offset)
    requires Reads(m, d) && HasEntry(m, p, v)
    ensures p in d
  {
    var k :| k in m && PartitionOf(k) == Some(p) && m[k] == v;
    assert IsKeyOf(k, d);
  }

  lemma {:induction false} OnlyReading(m: map<string, Offset>, c: Cursor, d: Cursor)
    requires SpellsOut(m, c) && Reads(m, d)
    ensures d == c
  {
    forall p | p in d
      ensures p in c && d[p] == c[p]
    {
      WrittenEntry(m, c, p, d[p]);
    }
    forall p | p in c
      ensures p in d
    {
      WrittenEntry(m, c, p, c[p]);
      EntryIsRead(m, d, p, c[p]);
    }
  }

  ghost function Token(c: Cursor): string {
    if c == map[] then ""
    else
      KeyedNumerals(c);
      JsonIsByteString(Keyed(c));
      Base64Url.Encode(Codes(Json(Keyed(c))))
  }

  datatype Decoded = Absent | Invalid | Present(cursor: Cursor)

  ghost predicate DecodesTo(s: string, d: Decoded) {
    match d
    case Absent => s == ""
    case Invalid => s != "" && (ReadToken(s).None? || exists k | k in ReadToken(s).value :: PartitionOf(k).None?)
    case Present(c) => s != "" && ReadToken(s).Some? && Reads(ReadToken(s).value, c)
  }

  lemma {:induction false} TokenReadsBack(c: Cursor)
    requires c != map[]
    ensures Token(c) != "" && ReadToken(Token(c)) == Some(Keyed(c))
  {
    var json := Json(Keyed(c));
    KeyedNumerals(c);
    JsonIsByteString(Keyed(c));
    TextCodes(json);
    Base64Url.DecodeEncode(Codes(json));
    JsonReadsBack(Keyed(c));
    assert Base64Url.Decode("") == Some([]);
    assert json[0] == '{';
  }

  lemma {:induction false} ReadingDecodes(s: string, c: Cursor, d: Decoded)
    requires s != "" && ReadToken(s) == Some(Keyed(c))
    ensures DecodesTo(s, d) <==> d == Present(c)
  {
    WrittenReads(Keyed(c), c);
    if d.Present? {
      if Reads(Keyed(c), d.cursor) {
        OnlyReading(Keyed(c), c, d.cursor);
      }
    } else if d.Invalid? {
      assert forall k | k in Keyed(c) :: IsKeyOf(k, c);
    }
  }

  /** A token decodes to the cursor it was made from and to nothing else; only the empty cursor has the empty token. */
  lemma {:induction false} TokenRoundTrip(c: Cursor, d: Decoded)
    ensures DecodesTo(Token(c), d) <==> d == if c == map[] then Absent else Present(c)
  {
    if c != map[] {
      TokenReadsBack(c);
      ReadingDecodes(Token(c), c, d);
    }
  }

  lemma {:induction false} TokenInjective(c: Cursor, d: Cursor)
    requires Token(c) == Token(d)
    ensures c == d
  {
    TokenRoundTrip(c, if c == map[] then Absent else Present(c));
    TokenRoundTrip(d, if c == map[] then Absent else Present(c));
  }

  method EncodeTailCursor(c: Cursor) returns (s: string)
    ensures s == Token(c)
  {
    if |c| == 0 {
      return "";
    }
    var encoded: map<string, Offset> := map[];
    var todo := c.Keys;
    while todo != {}
      invariant todo <= c.Keys
      invariant forall p | p in c && p !in todo :: Itoa(p) in encoded && encoded[Itoa(p)] == c[p]
      invariant forall k | k in encoded :: IsSpelled(k, c)
      decreases todo
    {
      var p :| p in todo;
      forall q | q in c && Itoa(q) == Itoa(p)
        ensures q == p
      {
        ItoaInjective(p, q);
      }
      encoded := encoded[Itoa(p) := c[p]];
      todo := todo - {p};
    }
    SpelledOnce(encoded, c);
    KeyedNumerals(c);
    JsonIsByteString(encoded);
    s := Base64Url.Encode(Codes(Json(encoded)));
  }

  lemma {:induction false} SpelledOnce(m: map<string, Offset>, c: Cursor)
    requires SpellsOut(m, c)
    ensures m == Keyed(c)
  {
    forall k
      ensures k in m <==> k in Keyed(c)
      ensures k in m ==> m[k] == Keyed(c)[k]
    {
      assert k in m ==> IsSpelled(k, c);
      assert k in Keyed(c) ==> IsSpelled(k, c);
    }
  }

  /** `c` is a possible reading of the keys that are not still to do. */
  ghost predicate ReadUpTo(m: map<string, Offset>, todo: set<string>, c: Cursor) {
    && (forall k {:trigger IsKeyOf(k, c)} | k in m && k !in todo :: IsKeyOf(k, c))
    && (forall p {:trigger HasEntry(m, p, c[p])} | p in c :: HasEntry(m, p, c[p]))
  }

  lemma {:induction false} OneKeyRead(m: map<string, Offset>, todo: set<string>, c: Cursor, k: string)
    requires ReadUpTo(m, todo, c) && k in todo && k in m && PartitionOf(k).Some?
    ensures ReadUpTo(m, todo - {k}, c[PartitionOf(k).value := m[k]])
  {
    var p, d := PartitionOf(k).value, c[PartitionOf(k).value := m[k]];
    assert HasEntry(m, p, m[k]);
    forall j | j in m && j !in todo - {k}
      ensures IsKeyOf(j, d)
    {
      assert j != k ==> IsKeyOf(j, c);
    }
    forall q | q in d
      ensures HasEntry(m, q, d[q])
    {
      assert q != p ==> HasEntry(m, q, c[q]);
    }
  }

  method DecodeTailCursor(s: string) returns (d: Decoded)
    ensures DecodesTo(s, d)
  {
    if s == "" {
      return Absent;
    }
    var encoded := ReadToken(s);
    if encoded.None? {
      return Invalid;
    }
    var m := encoded.value;
    var c: Cursor, todo := map[], m.Keys;
    while todo != {}
      invariant todo <= m.Keys && ReadUpTo(m, todo, c)
      decreases todo
    {
      var k :| k in todo;
      var part := PartitionOf(k);
      if part.None? {
        return Invalid;
      }
      OneKeyRead(m, todo, c, k);
      c := c[part.value := m[k]];
      todo := todo - {k};
    }
    return Present(c);
  }
}
