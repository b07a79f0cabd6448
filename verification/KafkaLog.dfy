/** A partition log: offsets index slots, retention raises the begin offset, producers append. */
module KafkaLog {
  import opened Records

  /** A hole is an offset without a readable record: compacted away, or a transaction marker. */
  datatype Slot = Hole | Data(timestamp: int, value: string)

  datatype RawLog = RawLog(begin: nat, slots: seq<Slot>)

  type Log = l: RawLog | l.begin <= |l.slots| <= 0x7FFF_FFFF_FFFF_FFFF witness RawLog(0, [])

  type Topic = map<PartitionId, Log>

  predicate HasRecord(l: Log, o: int) {
    0 <= o < |l.slots| && l.slots[o].Data?
  }

  function RecordAt(l: Log, p: PartitionId, o: int): Record
    requires HasRecord(l, o)
  {
    Record(p, o, l.slots[o].timestamp, l.slots[o].value)
  }

  /** The records with offsets in [lo, hi), oldest offset first: what a fetch of that range may return. */
  function DataIn(l: Log, p: PartitionId, lo: nat, hi: int): seq<Record>
    decreases hi - lo
  {
    if lo >= hi || lo >= |l.slots| then []
    else (if HasRecord(l, lo) then [RecordAt(l, p, lo)] else []) + DataIn(l, p, lo + 1, hi)
  }

  ghost predicate Ascending(s: seq<Record>) {
    forall i, j | 0 <= i < j < |s| :: s[i].offset < s[j].offset
  }

  predicate InRange(l: Log, p: PartitionId, lo: nat, hi: int, r: Record) {
    lo <= r.offset < hi && HasRecord(l, r.offset) && r == RecordAt(l, p, r.offset)
  }

  lemma {:induction false} DataInMember(l: Log, p: PartitionId, lo: nat, hi: int, r: Record)
    ensures r in DataIn(l, p, lo, hi) <==> InRange(l, p, lo, hi, r)
    decreases hi - lo
  {
    if lo < hi && lo < |l.slots| {
      DataInMember(l, p, lo + 1, hi, r);
    }
  }

  lemma {:induction false} DataInAscending(l: Log, p: PartitionId, lo: nat, hi: int)
    ensures Ascending(DataIn(l, p, lo, hi))
    decreases hi - lo
  {
    if lo < hi && lo < |l.slots| {
      var rest := DataIn(l, p, lo + 1, hi);
      DataInAscending(l, p, lo + 1, hi);
      forall i | 0 <= i < |rest|
        ensures rest[i].offset > lo
      {
        DataInMember(l, p, lo + 1, hi, rest[i]);
      }
    }
  }

  lemma {:induction false} DataInMembers(l: Log, p: PartitionId, lo: nat, hi: int)
    ensures Ascending(DataIn(l, p, lo, hi))
    ensures forall r :: r in DataIn(l, p, lo, hi) <==> InRange(l, p, lo, hi, r)
  {
    DataInAscending(l, p, lo, hi);
    forall r
      ensures r in DataIn(l, p, lo, hi) <==> InRange(l, p, lo, hi, r)
    {
      DataInMember(l, p, lo, hi, r);
    }
  }

  lemma {:induction false} DataInSplit(l: Log, p: PartitionId, lo: nat, mid: nat, hi: int)
    requires lo <= mid <= hi
    ensures DataIn(l, p, lo, hi) == DataIn(l, p, lo, mid) + DataIn(l, p, mid, hi)
    decreases mid - lo
  {
    if lo < mid && lo < |l.slots| {
      DataInSplit(l, p, lo + 1, mid, hi);
    } else if lo < mid {
      assert DataIn(l, p, mid, hi) == [];
    }
  }

  /** No holes from lo up to hi: offsets are consecutive. */
  ghost predicate Dense(l: Log, lo: int, hi: int) {
    forall o | lo <= o < hi :: HasRecord(l, o)
  }

  lemma {:induction false} DenseCount(l: Log, p: PartitionId, lo: nat, hi: int)
    requires lo <= hi && Dense(l, lo, hi)
    ensures |DataIn(l, p, lo, hi)| == hi - lo
    ensures forall i | 0 <= i < hi - lo :: DataIn(l, p, lo, hi)[i] == RecordAt(l, p, lo + i)
    decreases hi - lo
  {
    if lo < hi {
      assert HasRecord(l, lo);
      DenseCount(l, p, lo + 1, hi);
    }
  }

  /** Retained timestamps never decrease with the offset. */
  ghost predicate Monotone(l: Log) {
    forall a, b | l.begin <= a < b && HasRecord(l, a) && HasRecord(l, b) :: l.slots[a].timestamp <= l.slots[b].timestamp
  }

  lemma {:induction false} LaterOffsetIsNewer(l: Log, p: PartitionId, a: int, b: int)
    requires Monotone(l) && l.begin <= a < b && HasRecord(l, a) && HasRecord(l, b)
    ensures Newer(RecordAt(l, p, b), RecordAt(l, p, a))
  {
  }

  /** Producers append and retention trims, any number of times; partitions may be added. */
  ghost predicate Evolves(t: Topic, u: Topic) {
    forall p | p in t :: p in u && t[p].begin <= u[p].begin && t[p].slots <= u[p].slots
  }

  lemma {:induction false} EvolvesTransitive(t: Topic, u: Topic, v: Topic)
    requires Evolves(t, u) && Evolves(u, v)
    ensures Evolves(t, v)
  {
  }
}
