/** Consumer group lag, summed and maximised over topics and partitions. */
module ConsumerLag {
  import opened Wrappers

  /** The partition lags of each topic; a negative lag is one that could not be computed. */
  type TopicLags = map<string, seq<int>>

  /** A group as the broker lists it, and what describing it adds. */
  datatype Listed = Listed(id: string, state: string)

  datatype Described = Described(state: string, members: nat)

  datatype GroupInfo = GroupInfo(id: string, state: string, members: nat, totalLag: int, maxLag: int, topics: nat)

  function Known(lag: int): nat {
    if lag < 0 then 0 else lag
  }

  function Sum(parts: seq<int>): nat {
    if parts == [] then 0 else Sum(parts[..|parts| - 1]) + Known(parts[|parts| - 1])
  }

  ghost function Total(lags: TopicLags): nat {
    if lags == map[] then 0
    else
      var t :| t in lags;
      Total(lags - {t}) + Sum(lags[t])
  }

  /** The total does not depend on the order in which topics are visited. */
  lemma {:induction false} TotalFromAnyTopic(lags: TopicLags, t: string)
    requires t in lags
    ensures Total(lags) == Total(lags - {t}) + Sum(lags[t])
    decreases |lags|
  {
    var u :| u in lags && Total(lags) == Total(lags - {u}) + Sum(lags[u]);
    if u != t {
      TotalFromAnyTopic(lags - {u}, t);
      TotalFromAnyTopic(lags - {t}, u);
      assert lags - {u} - {t} == lags - {t} - {u};
    }
  }

  lemma {:induction false} SumLast(parts: seq<int>, x: int)
    ensures Sum(parts + [x]) == Sum(parts) + if x < 0 then 0 else x
  {
  }

  /**
   * The total, lag by lag: nothing for no topics or an empty one, and each lag more adds itself, or nothing where it is
   * negative.
   */
  lemma {:induction false} TotalAddsEachLag(lags: TopicLags, t: string, x: int)
    ensures Total(map[]) == 0
    ensures t !in lags ==> Total(lags[t := []]) == Total(lags)
    ensures t in lags ==> Total(lags[t := lags[t] + [x]]) == Total(lags) + if x < 0 then 0 else x
  {
    if t in lags {
      var longer := lags[t := lags[t] + [x]];
      TotalFromAnyTopic(longer, t);
      TotalFromAnyTopic(lags, t);
      SumLast(lags[t], x);
      assert longer - {t} == lags - {t};
    } else {
      TotalFromAnyTopic(lags[t := []], t);
      assert lags[t := []] - {t} == lags;
    }
  }

  /** Zero if no lag is positive, else the largest one. */
  ghost predicate IsMax(lags: TopicLags, m: int) {
    && m >= 0
    && (forall t, i | t in lags && 0 <= i < |lags[t]| :: lags[t][i] <= m)
    && (m == 0 || exists t, i | t in lags && 0 <= i < |lags[t]| :: lags[t][i] == m)
  }

  ghost predicate SummedUp(lags: TopicLags, total: int, max: int) {
    total == Total(lags) && IsMax(lags, max)
  }

  ghost predicate Summarizes(info: GroupInfo, lags: TopicLags) {
    SummedUp(lags, info.totalLag, info.maxLag) && info.topics == |lags|
  }

  method AddTopic(parts: seq<int>, total: int, max: int) returns (newTotal: int, newMax: int)
    ensures newTotal == total + Sum(parts)
    ensures newMax >= max && (forall i | 0 <= i < |parts| && parts[i] >= 0 :: parts[i] <= newMax)
    ensures newMax == max || exists i | 0 <= i < |parts| :: parts[i] == newMax
  {
    newTotal, newMax := total, max;
    for k := 0 to |parts|
      invariant newTotal == total + Sum(parts[..k])
      invariant newMax >= max && forall i | 0 <= i < k && parts[i] >= 0 :: parts[i] <= newMax
      invariant newMax == max || exists i | 0 <= i < k :: parts[i] == newMax
    {
      assert parts[..k + 1][..k] == parts[..k];
      if parts[k] >= 0 {
        newTotal := newTotal + parts[k];
        if parts[k] > newMax {
          newMax := parts[k];
        }
      }
    }
    assert parts[..|parts|] == parts;
  }

  method Summarize(lags: TopicLags) returns (total: int, max: int)
    ensures SummedUp(lags, total, max)
  {
    total, max := 0, 0;
    var todo := lags.Keys;
    assert lags - todo == map[];
    while todo != {}
      invariant todo <= lags.Keys && SummedUp(lags - todo, total, max)
      decreases todo
    {
      var t :| t in todo;
      var newTotal, newMax := AddTopic(lags[t], total, max);
      OneMoreTopic(lags - todo, lags - (todo - {t}), t, total, max, newTotal, newMax);
      total, max, todo := newTotal, newMax, todo - {t};
    }
    assert lags - todo == lags;
  }

  lemma {:induction false} OneMoreTopic(before: TopicLags, after: TopicLags, t: string, total: int, max: int,
        newTotal: int, newMax: int)
    requires SummedUp(before, total, max) && t in after && t !in before && after - {t} == before
    requires newTotal == total + Sum(after[t])
    requires newMax >= max && forall i | 0 <= i < |after[t]| && after[t][i] >= 0 :: after[t][i] <= newMax
    requires newMax == max || exists i | 0 <= i < |after[t]| :: after[t][i] == newMax
    ensures SummedUp(after, newTotal, newMax)
  {
    TotalFromAnyTopic(after, t);
    MaxGrows(before, after, t, max, newMax);
  }

  lemma {:induction false} MaxGrows(before: TopicLags, after: TopicLags, t: string, m: int, n: int)
    requires IsMax(before, m) && t in after && after - {t} == before && t !in before
    requires n >= m && forall i | 0 <= i < |after[t]| && after[t][i] >= 0 :: after[t][i] <= n
    requires n == m || exists i | 0 <= i < |after[t]| :: after[t][i] == n
    ensures IsMax(after, n)
  {
    forall u, i | u in after && 0 <= i < |after[u]|
      ensures after[u][i] <= n
    {
      assert u != t ==> u in before && before[u] == after[u];
    }
    if n == m && m != 0 {
      var u, i :| u in before && 0 <= i < |before[u]| && before[u][i] == m;
      assert u in after && after[u] == before[u];
    }
  }

  /** What describing gave, else what the listing said; without lag figures, every figure is zero. */
  ghost predicate Describes(info: GroupInfo, g: Listed, described: map<string, Described>,
        lags: Option<map<string, TopicLags>>) {
    && info.id == g.id
    && info.state == (if g.id in described then described[g.id].state else g.state)
    && info.members == (if g.id in described then described[g.id].members else 0)
    && if lags.Some? && g.id in lags.value then Summarizes(info, lags.value[g.id])
       else info.totalLag == 0 && info.maxLag == 0 && info.topics == 0
  }

  /**
   * `listed` and `lags` are None where the request for them failed; `described` has the groups that could be
   * described.
   */
  method ListConsumerGroupsWithLag(listed: Option<seq<Listed>>, described: map<string, Described>,
        lags: Option<map<string, TopicLags>>)
    returns (infos: Option<seq<GroupInfo>>)
    ensures infos.None? <==> listed.None?
    ensures infos.Some? ==> |infos.value| == |listed.value|
    ensures infos.Some? ==> forall i | 0 <= i < |infos.value| ::
      Describes(infos.value[i], listed.value[i], described, lags)
  {
    if listed.None? {
      return None;
    }
    var result: seq<GroupInfo> := [];
    for i := 0 to |listed.value|
      invariant |result| == i && forall j | 0 <= j < i :: Describes(result[j], listed.value[j], described, lags)
    {
      var info := DescribeGroup(listed.value[i], described, lags);
      result := result + [info];
    }
    return Some(result);
  }

  method DescribeGroup(g: Listed, described: map<string, Described>, lags: Option<map<string, TopicLags>>)
        returns (info: GroupInfo)
    ensures Describes(info, g, described, lags)
  {
    info := GroupInfo(g.id, g.state, 0, 0, 0, 0);
    if g.id in described {
      info := info.(members := described[g.id].members, state := described[g.id].state);
    }
    if lags.Some? && g.id in lags.value {
      var total, max := Summarize(lags.value[g.id]);
      info := info.(totalLag := total, maxLag := max, topics := |lags.value[g.id]|);
    }
  }

  /** For a threshold of zero or more, the maximum exceeds it exactly when some partition does. */
  lemma {:induction false} ExceedsWhenSomePartitionDoes(lags: TopicLags, m: int, threshold: real)
    requires IsMax(lags, m) && threshold >= 0.0
    ensures m as real > threshold <==> exists t, i | t in lags && 0 <= i < |lags[t]| :: lags[t][i] as real > threshold
  {
  }
}
