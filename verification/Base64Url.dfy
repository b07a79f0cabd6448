/** Unpadded base64url (section 5 of RFC 4648 without the padding of section 3.2), as Go's RawURLEncoding reads and
    writes it. */
module Base64Url {
  import opened Wrappers

  predicate AreBytes(bs: seq<int>) {
    forall i | 0 <= i < |bs| :: 0 <= bs[i] < 256
  }

  function Letter(v: int): char {
    var w := v % 64;
    if w < 26 then 'A' + w as char
    else if w < 52 then 'a' + (w - 26) as char
    else if w < 62 then '0' + (w - 52) as char
    else if w == 62 then '-' else '_'
  }

  function Sextet(c: char): Option<int> {
    if 'A' <= c <= 'Z' then Some(c as int - 'A' as int)
    else if 'a' <= c <= 'z' then Some(c as int - 'a' as int + 26)
    else if '0' <= c <= '9' then Some(c as int - '0' as int + 52)
    else if c == '-' then Some(62)
    else if c == '_' then Some(63)
    else None
  }

  lemma {:induction false} LetterSextet(v: int)
    ensures Sextet(Letter(v)) == Some(v % 64) && !IsLineBreak(Letter(v))
  {
  }

  function Letters(vs: seq<int>): string {
    if vs == [] then [] else [Letter(vs[0])] + Letters(vs[1..])
  }

  /** Three bytes make four sextets; one or two last bytes make two or three. */
  function Sextets(bs: seq<int>): seq<int> {
    if bs == [] then []
    else if |bs| == 1 then [bs[0] / 4, bs[0] % 4 * 16]
    else if |bs| == 2 then [bs[0] / 4, bs[0] % 4 * 16 + bs[1] / 16, bs[1] % 16 * 4]
    else [bs[0] / 4, bs[0] % 4 * 16 + bs[1] / 16, bs[1] % 16 * 4 + bs[2] / 64, bs[2] % 64] + Sextets(bs[3..])
  }

  function Encode(bs: seq<int>): string {
    Letters(Sextets(bs))
  }

  predicate IsLineBreak(c: char) {
    c == '\r' || c == '\n'
  }

  /** Line breaks are skipped wherever they stand; any other foreign character is an error. */
  function ReadSextets(s: string): Option<seq<int>> {
    if s == [] then Some([])
    else if IsLineBreak(s[0]) then ReadSextets(s[1..])
    else
      match (Sextet(s[0]), ReadSextets(s[1..]))
      case (Some(v), Some(vs)) => Some([v] + vs)
      case _ => None
  }

  /** A lone last sextet is malformed; spare low bits of the last sextet are ignored. */
  function Bytes(vs: seq<int>): Option<seq<int>> {
    if vs == [] then Some([])
    else if |vs| == 1 then None
    else if |vs| == 2 then Some([vs[0] * 4 + vs[1] / 16])
    else if |vs| == 3 then Some([vs[0] * 4 + vs[1] / 16, vs[1] % 16 * 16 + vs[2] / 4])
    else
      match Bytes(vs[4..])
      case Some(rest) => Some([vs[0] * 4 + vs[1] / 16, vs[1] % 16 * 16 + vs[2] / 4, vs[2] % 4 * 64 + vs[3]] + rest)
      case None => None
  }

  function Decode(s: string): Option<seq<int>> {
    match ReadSextets(s)
    case Some(vs) => Bytes(vs)
    case None => None
  }

  predicate AreSextets(vs: seq<int>) {
    forall i | 0 <= i < |vs| :: 0 <= vs[i] < 64
  }

  lemma {:induction false} LettersReadBack(vs: seq<int>)
    requires AreSextets(vs)
    ensures ReadSextets(Letters(vs)) == Some(vs)
  {
    if vs != [] {
      LetterSextet(vs[0]);
      LettersReadBack(vs[1..]);
      assert Letters(vs)[1..] == Letters(vs[1..]);
      assert vs == [vs[0]] + vs[1..];
    }
  }

  /** Regrouping 8-bit pieces into 6-bit pieces loses no bits. */
  lemma {:induction false} Regroup(b0: int, b1: int, b2: int)
    requires AreBytes([b0, b1, b2])
    ensures b0 / 4 * 4 + (b0 % 4 * 16 + b1 / 16) / 16 == b0
    ensures (b0 % 4 * 16 + b1 / 16) % 16 * 16 + (b1 % 16 * 4 + b2 / 64) / 4 == b1
    ensures (b1 % 16 * 4 + b2 / 64) % 4 * 64 + b2 % 64 == b2
    ensures AreSextets([b0 / 4, b0 % 4 * 16 + b1 / 16, b1 % 16 * 4 + b2 / 64, b2 % 64])
  {
    assert 0 <= [b0, b1, b2][0] < 256 && 0 <= [b0, b1, b2][1] < 256 && 0 <= [b0, b1, b2][2] < 256;
    assert 0 <= b1 / 16 < 16 && 0 <= b2 / 64 < 4;
  }

  lemma {:induction false} FullGroup(b0: int, b1: int, b2: int, vs: seq<int>, rest: seq<int>)
    requires AreBytes([b0, b1, b2]) && AreSextets(vs) && Bytes(vs) == Some(rest)
    ensures var group := [b0 / 4, b0 % 4 * 16 + b1 / 16, b1 % 16 * 4 + b2 / 64, b2 % 64];
      AreSextets(group + vs) && Bytes(group + vs) == Some([b0, b1, b2] + rest)
  {
    var group := [b0 / 4, b0 % 4 * 16 + b1 / 16, b1 % 16 * 4 + b2 / 64, b2 % 64];
    Regroup(b0, b1, b2);
    assert (group + vs)[4..] == vs;
  }

  lemma {:induction false} OneByte(b0: int)
    requires 0 <= b0 < 256
    ensures AreSextets(Sextets([b0])) && Bytes(Sextets([b0])) == Some([b0])
  {
  }

  lemma {:induction false} TwoBytes(b0: int, b1: int)
    requires 0 <= b0 < 256 && 0 <= b1 < 256
    ensures AreSextets(Sextets([b0, b1])) && Bytes(Sextets([b0, b1])) == Some([b0, b1])
  {
  }

  lemma {:induction false} ShortSextets(bs: seq<int>)
    requires AreBytes(bs) && |bs| < 3
    ensures AreSextets(Sextets(bs)) && Bytes(Sextets(bs)) == Some(bs)
  {
    if |bs| == 2 {
      TwoBytes(bs[0], bs[1]);
      assert bs == [bs[0], bs[1]];
    } else if |bs| == 1 {
      OneByte(bs[0]);
      assert bs == [bs[0]];
    }
  }

  lemma {:induction false} BytesSextets(bs: seq<int>)
    requires AreBytes(bs)
    ensures AreSextets(Sextets(bs)) && Bytes(Sextets(bs)) == Some(bs)
  {
    if |bs| >= 3 {
      BytesSextets(bs[3..]);
      FullGroup(bs[0], bs[1], bs[2], Sextets(bs[3..]), bs[3..]);
      assert bs == [bs[0], bs[1], bs[2]] + bs[3..];
    } else {
      ShortSextets(bs);
    }
  }

  lemma {:induction false} DecodeEncode(bs: seq<int>)
    requires AreBytes(bs)
    ensures Decode(Encode(bs)) == Some(bs)
  {
    BytesSextets(bs);
    LettersReadBack(Sextets(bs));
  }

  // ---------------------------------------------------------------- against RFC 4648

  const CAPITALS := "ABCDEFGHIJKLMNOPQRSTUVWXYZ"

  const SMALL := "abcdefghijklmnopqrstuvwxyz"

  const FIGURES := "0123456789"

  /** The table of section 5 of RFC 4648. */
  function Table(v: int): char
    requires 0 <= v < 64
  {
    if v < 26 then CAPITALS[v] else if v < 52 then SMALL[v - 26] else if v < 62 then FIGURES[v - 52]
    else if v == 62 then '-' else '_'
  }

  lemma {:induction false} TableByCode(v: int)
    requires 0 <= v < 64
    ensures Table(v) as int == if v < 26 then 65 + v else if v < 52 then 71 + v else if v < 62 then v - 4
      else if v == 62 then 45 else 95
  {
  }

  lemma {:induction false} SextetByCode(c: char, v: int)
    requires 0 <= v < 64
    ensures var n := if v < 26 then 65 + v else if v < 52 then 71 + v else if v < 62 then v - 4
      else if v == 62 then 45 else 95;
      (Sextet(c) == Some(v) <==> c as int == n) && Letter(v) as int == n
  {
  }

  /** Writing and reading follow the table; a character that is not in it stands for nothing. */
  lemma {:induction false} FollowsTable(v: int, c: char)
    requires 0 <= v < 64
    ensures Letter(v) == Table(v)
    ensures Sextet(c) == Some(v) <==> c == Table(v)
    ensures Sextet(c).Some? ==> 0 <= Sextet(c).value < 64
  {
    SextetByCode(c, v);
    TableByCode(v);
  }

  /** The sextets of a group of bytes are the same number in base 64, filled up with zero bits at the end. */
  lemma {:induction false} SameNumber(b0: int, b1: int, b2: int)
    requires AreBytes([b0, b1, b2])
    ensures var v := Sextets([b0, b1, b2]);
      |v| == 4 && AreSextets(v) && 262144 * v[0] + 4096 * v[1] + 64 * v[2] + v[3] == 65536 * b0 + 256 * b1 + b2
    ensures var v := Sextets([b0, b1]);
      |v| == 3 && AreSextets(v) && 4096 * v[0] + 64 * v[1] + v[2] == 4 * (256 * b0 + b1)
    ensures var v := Sextets([b0]); |v| == 2 && AreSextets(v) && 64 * v[0] + v[1] == 16 * b0
  {
    assert 0 <= [b0, b1, b2][0] < 256 && 0 <= [b0, b1, b2][1] < 256 && 0 <= [b0, b1, b2][2] < 256;
    assert [b0, b1, b2][3..] == [] && Sextets([]) == [];
    Regroup(b0, b1, b2);
    assert AreSextets([b0 / 4, b0 % 4 * 16 + b1 / 16, b1 % 16 * 4]);
    assert AreSextets([b0 / 4, b0 % 4 * 16]);
  }

  /** Groups of three bytes are written one after the other. */
  lemma {:induction false} GroupByGroup(b0: int, b1: int, b2: int, rest: seq<int>)
    ensures Sextets([b0, b1, b2] + rest) == Sextets([b0, b1, b2]) + Sextets(rest)
  {
    assert ([b0, b1, b2] + rest)[3..] == rest;
    assert [b0, b1, b2][3..] == [] && Sextets([]) == [];
  }

  lemma {:induction false} LettersAt(vs: seq<int>)
    ensures |Letters(vs)| == |vs| && forall i | 0 <= i < |vs| :: Letters(vs)[i] == Letter(vs[i])
  {
    if vs != [] {
      LettersAt(vs[1..]);
    }
  }

  lemma {:induction false} OneByteVector()
    ensures Encode([102]) == "Zg"
  {
    assert Sextets([102]) == [25, 32];
    LettersAt([25, 32]);
  }

  lemma {:induction false} TwoByteVector()
    ensures Encode([102, 111]) == "Zm8"
  {
    assert Sextets([102, 111]) == [25, 38, 60];
    LettersAt([25, 38, 60]);
  }

  lemma {:induction false} ThreeByteVector()
    ensures Encode([102, 111, 111]) == "Zm9v"
  {
    assert [102, 111, 111][3..] == [] && Sextets([102, 111, 111]) == [25, 38, 61, 47];
    LettersAt([25, 38, 61, 47]);
  }

  /** Test vectors of section 10, without padding: f, fo and foo. */
  lemma {:induction false} TestVectors()
    ensures Encode([102]) == "Zg" && Encode([102, 111]) == "Zm8" && Encode([102, 111, 111]) == "Zm9v"
  {
    OneByteVector();
    TwoByteVector();
    ThreeByteVector();
  }

  /** What is left of a text without its carriage returns and line feeds. */
  function Unbroken(s: string): string {
    if s == [] then [] else (if s[0] == '\r' || s[0] == '\n' then [] else [s[0]]) + Unbroken(s[1..])
  }

  predicate InTable(s: string) {
    forall i | 0 <= i < |s| :: Sextet(s[i]).Some?
  }

  lemma {:induction false} ReadsUnbroken(s: string)
    ensures ReadSextets(s).Some? <==> InTable(Unbroken(s))
    ensures ReadSextets(s).Some? ==> |ReadSextets(s).value| == |Unbroken(s)|
    ensures ReadSextets(s) == ReadSextets(Unbroken(s))
  {
    if s != [] {
      ReadsUnbroken(s[1..]);
      var rest := Unbroken(s[1..]);
      if s[0] != '\r' && s[0] != '\n' {
        assert Unbroken(s) == [s[0]] + rest && ([s[0]] + rest)[1..] == rest;
        assert InTable([s[0]] + rest) <==> Sextet(s[0]).Some? && InTable(rest) by {
          assert forall i | 0 <= i < |rest| :: ([s[0]] + rest)[i + 1] == rest[i];
        }
      } else {
        assert Unbroken(s) == rest;
      }
    }
  }

  lemma {:induction false} BytesExactlyWhen(vs: seq<int>)
    ensures Bytes(vs).Some? <==> |vs| % 4 != 1
  {
    if |vs| >= 4 {
      BytesExactlyWhen(vs[4..]);
    }
  }

  /** Line breaks do not count; beyond them, exactly the texts over the table that leave no lone letter can be read. */
  lemma {:induction false} DecodableExactlyWhen(s: string)
    ensures Decode(s) == Decode(Unbroken(s))
    ensures Decode(s).Some? <==> InTable(Unbroken(s)) && |Unbroken(s)| % 4 != 1
  {
    ReadsUnbroken(s);
    if ReadSextets(s).Some? {
      BytesExactlyWhen(ReadSextets(s).value);
    }
  }

  // Text of characters below 256 is a byte sequence.

  function Codes(s: string): seq<int> {
    if s == [] then [] else [s[0] as int] + Codes(s[1..])
  }

  function Text(bs: seq<int>): string {
    if bs == [] then [] else [(bs[0] % 256) as char] + Text(bs[1..])
  }

  predicate IsByteString(s: string) {
    forall i | 0 <= i < |s| :: s[i] as int < 256
  }

  lemma {:induction false} CharCode(c: char)
    requires c as int < 256
    ensures (c as int % 256) as char == c
  {
  }

  lemma {:induction false} TextCodes(s: string)
    requires IsByteString(s)
    ensures AreBytes(Codes(s)) && Text(Codes(s)) == s
  {
    if s != [] {
      var rest := Codes(s[1..]);
      TextCodes(s[1..]);
      CharCode(s[0]);
      assert Codes(s) == [s[0] as int] + rest && ([s[0] as int] + rest)[1..] == rest;
      assert s == [s[0]] + s[1..];
    }
  }
}
