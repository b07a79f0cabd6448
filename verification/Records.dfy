/** Message records, their identity and the newest-first order of the message browser. */
module Records {
  import opened Decimal

  /** Go's int32 partition numbers. */
  type PartitionId = p: int | -0x8000_0000 <= p <= 0x7FFF_FFFF

  /** Non-negative int64 offsets, as a broker hands them out. */
  type Position = o: int | 0 <= o <= 0x7FFF_FFFF_FFFF_FFFF

  datatype Record = Record(partition: PartitionId, offset: Position, timestamp: int, value: string)

  predicate SameSlot(a: Record, b: Record) {
    a.partition == b.partition && a.offset == b.offset
  }

  ghost predicate Distinct(s: seq<Record>) {
    forall i, j | 0 <= i < j < |s| :: !SameSlot(s[i], s[j])
  }

  /** The text under which both the server and the browser recognise a record. */
  function MessageKey(r: Record): string {
    Itoa(r.partition) + "-" + Itoa(r.offset)
  }

  /** A dash occurs at most as the sign. */
  predicate Numeral(a: string) {
    a != [] && forall k | 1 <= k < |a| :: a[k] != '-'
  }

  lemma {:induction false} ItoaNumeral(n: int)
    ensures Numeral(Itoa(n))
  {
    var digits := Digits(if n < 0 then -n else n);
    DigitsValue(if n < 0 then -n else n);
    assert forall k | 0 <= k < |digits| :: digits[k] in digits;
  }

  lemma {:induction false} SplitAtDash(a: string, b: string, c: string, d: string)
    requires Numeral(a) && Numeral(c)
    requires a + "-" + b == c + "-" + d
    ensures a == c && b == d
  {
    var s, t := a + "-" + b, c + "-" + d;
    assert s[|a|] == '-' && t[|c|] == '-';
    assert forall k | 1 <= k < |a| :: s[k] == a[k];
    assert forall k | 1 <= k < |c| :: t[k] == c[k];
    assert |a| == |c|;
    assert s[..|a|] == a && t[..|c|] == c;
    assert s[|a| + 1..] == b && t[|c| + 1..] == d;
  }

  /** The printed key identifies partition and offset, negative numbers included. */
  lemma {:induction false} MessageKeyInjective(a: Record, b: Record)
    ensures MessageKey(a) == MessageKey(b) <==> SameSlot(a, b)
  {
    if MessageKey(a) == MessageKey(b) {
      ItoaNumeral(a.partition);
      ItoaNumeral(b.partition);
      SplitAtDash(Itoa(a.partition), Itoa(a.offset), Itoa(b.partition), Itoa(b.offset));
      ItoaInjective(a.partition, b.partition);
      ItoaInjective(a.offset, b.offset);
    }
  }

  // ---------------------------------------------------------------- duplicates

  ghost predicate Holds(s: seq<Record>, r: Record) {
    exists x | x in s :: SameSlot(x, r)
  }

  /** The first occurrence of every (partition, offset), in order. */
  ghost function Dedupe(s: seq<Record>): seq<Record> {
    if s == [] then []
    else
      var d := Dedupe(s[..|s| - 1]);
      if Holds(d, s[|s| - 1]) then d else d + [s[|s| - 1]]
  }

  ghost predicate KeepsOneOfEach(d: seq<Record>, s: seq<Record>) {
    Distinct(d) && (forall r | r in d :: r in s) && forall r {:trigger Holds(d, r)} | r in s :: Holds(d, r)
  }

  lemma {:induction false} HoldsMore(d: seq<Record>, last: Record, r: Record)
    requires Holds(d, r) || r == last
    ensures Holds(d + [last], r)
  {
    if Holds(d, r) {
      var x :| x in d && SameSlot(x, r);
      assert x in d + [last];
    } else {
      assert last in d + [last];
    }
  }

  lemma {:induction false} OneMoreKept(d: seq<Record>, s: seq<Record>, last: Record)
    requires KeepsOneOfEach(d, s)
    ensures KeepsOneOfEach(if Holds(d, last) then d else d + [last], s + [last])
  {
    if !Holds(d, last) {
      forall r | r in s + [last]
        ensures Holds(d + [last], r)
      {
        HoldsMore(d, last, r);
      }
    }
  }

  lemma {:induction false} DedupeKeeps(s: seq<Record>)
    ensures KeepsOneOfEach(Dedupe(s), s)
  {
    if s != [] {
      var init, last := s[..|s| - 1], s[|s| - 1];
      DedupeKeeps(init);
      OneMoreKept(Dedupe(init), init, last);
      assert init + [last] == s;
    }
  }

  lemma {:induction false} DedupeKeepsOneOfEach(s: seq<Record>)
    ensures Distinct(Dedupe(s))
    ensures forall r | r in Dedupe(s) :: r in s
    ensures forall r | r in s :: Holds(Dedupe(s), r)
  {
    DedupeKeeps(s);
  }

  lemma {:induction false} DedupeDistinct(s: seq<Record>)
    requires Distinct(s)
    ensures Dedupe(s) == s
  {
    if s != [] {
      var init := s[..|s| - 1];
      DedupeDistinct(init);
      assert s == init + [s[|s| - 1]];
    }
  }

  /** No earlier record has the slot of the one at `k`. */
  ghost predicate IsFirst(s: seq<Record>, k: nat) {
    k < |s| && forall j | 0 <= j < k :: !SameSlot(s[j], s[k])
  }

  lemma {:induction false} KeptWhenFirst(d: seq<Record>, s: seq<Record>, last: Record)
    requires KeepsOneOfEach(d, s)
    ensures Holds(d, last) <==> !IsFirst(s + [last], |s|)
  {
    var t := s + [last];
    if Holds(d, last) {
      var x :| x in d && SameSlot(x, last);
      var j :| 0 <= j < |s| && s[j] == x;
      assert SameSlot(t[j], t[|s|]);
    }
    if !IsFirst(t, |s|) {
      var j :| 0 <= j < |s| && SameSlot(t[j], t[|s|]);
      assert s[j] in s && Holds(d, s[j]);
    }
  }

  /** The positions `at`, in order, are those of first occurrences, and `d` holds what stands there. */
  ghost predicate PicksFirsts(s: seq<Record>, d: seq<Record>, at: seq<nat>) {
    && |at| == |d|
    && (forall i, j | 0 <= i < j < |at| :: at[i] < at[j])
    && (forall i | 0 <= i < |at| :: at[i] < |s| && d[i] == s[at[i]])
    && (forall k: nat :: k in at <==> IsFirst(s, k))
  }

  lemma {:induction false} FirstsOfLonger(s: seq<Record>, last: Record, k: nat)
    ensures k != |s| ==> (IsFirst(s + [last], k) <==> IsFirst(s, k))
  {
    var t := s + [last];
    assert forall j | 0 <= j < |s| :: SameSlot(t[j], t[if k < |s| then k else 0]) <==>
      SameSlot(s[j], s[if k < |s| then k else 0]);
  }

  lemma {:induction false} PicksOneMore(s: seq<Record>, d: seq<Record>, at: seq<nat>, last: Record)
    requires PicksFirsts(s, d, at)
    ensures IsFirst(s + [last], |s|) ==> PicksFirsts(s + [last], d + [last], at + [|s|])
    ensures !IsFirst(s + [last], |s|) ==> PicksFirsts(s + [last], d, at)
  {
    forall k: nat
      ensures k != |s| ==> (IsFirst(s + [last], k) <==> IsFirst(s, k))
    {
      FirstsOfLonger(s, last, k);
    }
  }

  /** Deduplication keeps, in order, exactly the records whose slot no earlier record has. */
  lemma {:induction false} DedupeKeepsFirsts(s: seq<Record>) returns (at: seq<nat>)
    ensures PicksFirsts(s, Dedupe(s), at)
  {
    at := [];
    if s != [] {
      var init, last := s[..|s| - 1], s[|s| - 1];
      at := DedupeKeepsFirsts(init);
      DedupeKeeps(init);
      KeptWhenFirst(Dedupe(init), init, last);
      PicksOneMore(init, Dedupe(init), at, last);
      assert init + [last] == s;
      if IsFirst(s, |init|) {
        at := at + [|init|];
      }
    }
  }

  method DedupeMessages(records: seq<Record>) returns (out: seq<Record>)
    ensures out == Dedupe(records)
  {
    var seen: set<string> := {};
    out := [];
    for i := 0 to |records|
      invariant out == Dedupe(records[..i])
      invariant forall k :: k in seen <==> exists r | r in out :: MessageKey(r) == k
    {
      var r := records[i];
      assert records[..i + 1][..i] == records[..i];
      forall x | x in out
        ensures MessageKey(x) == MessageKey(r) <==> SameSlot(x, r)
      {
        MessageKeyInjective(x, r);
      }
      assert MessageKey(r) in seen <==> Holds(out, r);
      if MessageKey(r) !in seen {
        seen := seen + {MessageKey(r)};
        out := out + [r];
      }
    }
    assert records[..|records|] == records;
  }

  // ---------------------------------------------------------------- newest first

  predicate Newer(a: Record, b: Record) {
    if a.timestamp != b.timestamp then a.timestamp > b.timestamp
    else if a.partition != b.partition then a.partition < b.partition
    else a.offset > b.offset
  }

  ghost predicate NewestFirst(s: seq<Record>) {
    forall i, j | 0 <= i < j < |s| :: Newer(s[i], s[j])
  }

  /**
   * The order in plain fields: timestamps never rise; at one timestamp, partition numbers never fall; in one partition
   * at one timestamp, offsets strictly fall.
   */
  ghost predicate InPageOrder(s: seq<Record>) {
    forall i, j | 0 <= i < j < |s| ::
      && s[i].timestamp >= s[j].timestamp
      && (s[i].timestamp == s[j].timestamp ==> s[i].partition <= s[j].partition)
      && (s[i].timestamp == s[j].timestamp && s[i].partition == s[j].partition ==> s[i].offset > s[j].offset)
  }

  lemma {:induction false} PageOrderIsNewestFirst(s: seq<Record>)
    ensures NewestFirst(s) <==> InPageOrder(s)
  {
  }

  /** The comparator is a strict order, total on records that differ in partition or offset. */
  lemma {:induction false} NewerIsStrictTotalOrder(a: Record, b: Record, c: Record)
    ensures !Newer(a, a)
    ensures Newer(a, b) && Newer(b, c) ==> Newer(a, c)
    ensures !SameSlot(a, b) ==> (Newer(a, b) <==> !Newer(b, a))
  {
  }

  function Insert(r: Record, s: seq<Record>): seq<Record> {
    if s == [] || Newer(r, s[0]) then [r] + s else [s[0]] + Insert(r, s[1..])
  }

  lemma {:induction false} InsertAddsOne(r: Record, s: seq<Record>)
    ensures multiset(Insert(r, s)) == multiset(s) + multiset{r}
    ensures forall x :: x in Insert(r, s) <==> x in s || x == r
  {
    if s != [] && !Newer(r, s[0]) {
      InsertAddsOne(r, s[1..]);
      assert s == [s[0]] + s[1..];
    }
  }

  lemma {:induction false} InsertKeepsOrder(r: Record, s: seq<Record>)
    requires NewestFirst(s) && forall x | x in s :: !SameSlot(x, r)
    ensures NewestFirst(Insert(r, s))
  {
    if s == [] {
    } else if Newer(r, s[0]) {
      forall x | x in s
        ensures Newer(r, x)
      {
        assert x == s[0] || Newer(s[0], x);
      }
    } else {
      InsertKeepsOrder(r, s[1..]);
      InsertAddsOne(r, s[1..]);
      assert s[0] in s;
      var t := Insert(r, s[1..]);
      forall x | x in t
        ensures Newer(s[0], x)
      {
        assert x == r || x in s[1..];
      }
      assert Insert(r, s) == [s[0]] + t;
    }
  }

  lemma {:induction false} SameMembers(s: seq<Record>, t: seq<Record>)
    requires multiset(s) == multiset(t)
    ensures |s| == |t| && forall r :: r in s <==> r in t
  {
    assert forall r :: r in s <==> r in multiset(s);
    assert |s| == |multiset(s)| == |multiset(t)| == |t|;
  }

  /** The one newest-first arrangement of a list without duplicates. */
  ghost function Newest(s: seq<Record>): (t: seq<Record>)
    requires Distinct(s)
    ensures NewestFirst(t) && multiset(t) == multiset(s)
    ensures |t| == |s| && forall r :: r in t <==> r in s
  {
    if s == [] then []
    else
      var init, last := s[..|s| - 1], s[|s| - 1];
      assert s == init + [last];
      InsertKeepsOrder(last, Newest(init));
      InsertAddsOne(last, Newest(init));
      var t := Insert(last, Newest(init));
      SameMembers(t, s);
      t
  }

  /** A sorted list whose members beat everything else in a sorted list is a prefix of it. */
  lemma {:induction false} TopIsPrefix(top: seq<Record>, all: seq<Record>)
    requires NewestFirst(top) && NewestFirst(all)
    requires forall r | r in top :: r in all
    requires forall r, x | r in all && r !in top && x in top :: Newer(x, r)
    ensures top <= all
  {
    if top != [] {
      assert top[0] in all && all[0] in all;
      assert all[0] !in top ==> Newer(top[0], all[0]);
      assert all[0] == top[0];
      forall r | r in top[1..]
        ensures r in all[1..]
      {
        assert r in all && r != top[0];
      }
      forall r, x | r in all[1..] && r !in top[1..] && x in top[1..]
        ensures Newer(x, r)
      {
        assert r != all[0];
        assert r !in top;
      }
      TopIsPrefix(top[1..], all[1..]);
      assert top == [top[0]] + top[1..] && all == [all[0]] + all[1..];
    }
  }

  lemma {:induction false} SameMembersSameOrder(s: seq<Record>, t: seq<Record>)
    requires NewestFirst(s) && NewestFirst(t) && forall r :: r in s <==> r in t
    ensures s == t
  {
    TopIsPrefix(s, t);
    TopIsPrefix(t, s);
  }

  /** Only one newest-first arrangement exists: an unstable sort has no freedom, and neither has the input order. */
  lemma {:induction false} SortIsCanonical(s: seq<Record>, t: seq<Record>)
    requires Distinct(s) && Distinct(t) && multiset(s) == multiset(t)
    ensures Newest(s) == Newest(t)
  {
    SameMembers(Newest(s), Newest(t));
    TopIsPrefix(Newest(s), Newest(t));
  }

  /** In plain fields: the sort is an arrangement of its input in page order, and the only one. */
  lemma {:induction false} NewestExactlyWhenInPageOrder(s: seq<Record>, t: seq<Record>)
    requires Distinct(s)
    ensures t == Newest(s) <==> multiset(t) == multiset(s) && InPageOrder(t)
  {
    PageOrderIsNewestFirst(t);
    if multiset(t) == multiset(s) && InPageOrder(t) {
      SameMembers(t, Newest(s));
      TopIsPrefix(t, Newest(s));
    }
  }

  /** In-place sort under the browser's comparator. */
  method SortMessagesNewestFirst(records: array<Record>)
    requires Distinct(records[..])
    modifies records
    ensures multiset(records[..]) == multiset(old(records[..])) && InPageOrder(records[..])
    ensures records[..] == Newest(old(records[..]))
  {
    ghost var input := records[..];
    for i := 0 to records.Length
      invariant multiset(records[..]) == multiset(input)
      invariant NewestFirst(records[..i]) && Distinct(records[..])
    {
      SiftDown(records, i);
    }
    assert records[..records.Length] == records[..];
    PageOrderIsNewestFirst(records[..]);
    NewestExactlyWhenInPageOrder(input, records[..]);
  }

  method SiftDown(records: array<Record>, i: nat)
    requires i < records.Length && Distinct(records[..]) && NewestFirst(records[..i])
    modifies records
    ensures NewestFirst(records[..i + 1]) && Distinct(records[..])
    ensures multiset(records[..]) == multiset(old(records[..]))
  {
    var j := i;
    while j > 0 && Newer(records[j], records[j - 1])
      invariant 0 <= j <= i
      invariant Distinct(records[..]) && multiset(records[..]) == multiset(old(records[..]))
      invariant forall a, b | 0 <= a < b <= i && a != j && b != j :: Newer(records[a], records[b])
      invariant forall b | j < b <= i :: Newer(records[j], records[b])
    {
      SwapDown(records, j);
      j := j - 1;
    }
    forall a | 0 <= a < j
      ensures Newer(records[a], records[j])
    {
      assert !SameSlot(records[..][j - 1], records[..][j]);
    }
  }

  method SwapDown(records: array<Record>, j: nat)
    requires 0 < j < records.Length && Distinct(records[..])
    modifies records
    ensures records[..] == old(records[..])[j - 1 := old(records[j])][j := old(records[j - 1])]
    ensures Distinct(records[..]) && multiset(records[..]) == multiset(old(records[..]))
  {
    records[j - 1], records[j] := records[j], records[j - 1];
  }
}
