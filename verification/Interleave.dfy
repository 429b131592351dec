/**
  Whether the groups of a set of runs alternate in time, from `armsInterleaveBy` in
  cmd/queuelabrun/compare.go.
 */
module Interleave {
  import opened Common

  /** One run: when it started, `None` when the time does not parse, and its group. */
  datatype Run = Run(startedAt: Option<int>, group: string)

  datatype Started = Started(at: int, group: string)

  // ------------------------------------------------------------------- sorting

  predicate Sorted(s: seq<Started>) {
    forall i, j :: 0 <= i < j < |s| ==> s[i].at <= s[j].at
  }

  function Insert(s: seq<Started>, x: Started): seq<Started> {
    if s == [] || s[|s| - 1].at <= x.at then s + [x] else Insert(s[..|s| - 1], x) + [s[|s| - 1]]
  }

  /** The runs in time order; any other sort gives the same when the times are distinct. */
  function InOrder(s: seq<Started>): seq<Started> {
    if s == [] then [] else Insert(InOrder(s[..|s| - 1]), s[|s| - 1])
  }

  lemma {:induction false} InsertAdds(s: seq<Started>, x: Started)
    ensures multiset(Insert(s, x)) == multiset(s) + multiset{x} && |Insert(s, x)| == |s| + 1
    ensures forall y <- Insert(s, x) :: y in s || y == x
  {
    if s != [] && s[|s| - 1].at > x.at {
      InsertAdds(s[..|s| - 1], x);
      assert s == s[..|s| - 1] + [s[|s| - 1]];
    }
  }

  lemma {:induction false} InsertSorts(s: seq<Started>, x: Started)
    requires Sorted(s)
    ensures Sorted(Insert(s, x))
  {
    if s != [] && s[|s| - 1].at > x.at {
      var rest, last := s[..|s| - 1], s[|s| - 1];
      InsertSorts(rest, x);
      InsertAdds(rest, x);
      var r := Insert(rest, x);
      forall i | 0 <= i < |r| ensures r[i].at <= last.at {
        assert r[i] in rest || r[i] == x;
      }
    }
  }

  lemma {:induction false} InOrderSorts(s: seq<Started>)
    ensures Sorted(InOrder(s)) && multiset(InOrder(s)) == multiset(s) && |InOrder(s)| == |s|
  {
    InOrderPermutes(s);
    if s != [] {
      InOrderSorts(s[..|s| - 1]);
      InsertSorts(InOrder(s[..|s| - 1]), s[|s| - 1]);
    }
  }

  lemma {:induction false} InOrderPermutes(s: seq<Started>)
    ensures multiset(InOrder(s)) == multiset(s) && |InOrder(s)| == |s|
  {
    if s != [] {
      InOrderPermutes(s[..|s| - 1]);
      InsertAdds(InOrder(s[..|s| - 1]), s[|s| - 1]);
      LastCounts(s);
    }
  }

  lemma LastCounts(s: seq<Started>)
    requires s != []
    ensures multiset(s) == multiset(s[..|s| - 1]) + multiset{s[|s| - 1]}
  {
    assert s == s[..|s| - 1] + [s[|s| - 1]];
  }

  lemma InOrderMember(s: seq<Started>, x: Started)
    ensures x in InOrder(s) <==> x in s
  {
    InOrderSorts(s);
    assert x in InOrder(s) <==> x in multiset(InOrder(s));
  }

  // -------------------------------------------------------------------- blocks

  function Groups(s: seq<Started>): set<string> {
    set x <- s :: x.group
  }

  /** How often the group changes along the sequence, counting the first. */
  function Blocks(s: seq<Started>): nat {
    if s == [] then 0
    else if |s| == 1 then 1
    else Blocks(s[..|s| - 1]) + (if s[|s| - 2].group != s[|s| - 1].group then 1 else 0)
  }

  /** At position `k` a group is returned to after another one ran in between. */
  predicate ReturnsAt(s: seq<Started>, i: int, j: int, k: int) {
    0 <= i < j < k < |s| && s[i].group == s[k].group != s[j].group
  }

  ghost predicate Returns(s: seq<Started>) {
    exists i, j, k :: ReturnsAt(s, i, j, k)
  }

  lemma GroupsOneMore(s: seq<Started>, x: Started)
    ensures Groups(s + [x]) == Groups(s) + {x.group}
  {
    assert forall y :: y in s + [x] <==> y in s || y == x;
  }

  lemma ReturnsOneMore(s: seq<Started>, x: Started)
    requires s != []
    ensures Returns(s) ==> Returns(s + [x])
    ensures s[|s| - 1].group == x.group ==> (Returns(s + [x]) ==> Returns(s))
    ensures x.group !in Groups(s) ==> (Returns(s + [x]) ==> Returns(s))
    ensures s[|s| - 1].group != x.group && x.group in Groups(s) ==> Returns(s + [x])
  {
    var t := s + [x];
    if Returns(s) {
      var i, j, k :| ReturnsAt(s, i, j, k);
      assert ReturnsAt(t, i, j, k);
    }
    if Returns(t) && (s[|s| - 1].group == x.group || x.group !in Groups(s)) {
      var i, j, k :| ReturnsAt(t, i, j, k);
      assert s[i] in s;
      assert ReturnsAt(s, i, j, if k == |s| then |s| - 1 else k);
    }
    if s[|s| - 1].group != x.group && x.group in Groups(s) {
      var y :| y in s && y.group == x.group;
      var i :| 0 <= i < |s| && s[i] == y;
      assert ReturnsAt(t, i, |s| - 1, |s|);
    }
  }

  /** There are at least as many blocks as groups, and more exactly when some group is returned to. */
  lemma {:induction false} MoreBlocksExactlyWhenReturned(s: seq<Started>)
    ensures Blocks(s) >= |Groups(s)|
    ensures Blocks(s) > |Groups(s)| <==> Returns(s)
  {
    if |s| == 1 {
      assert Groups(s) == {s[0].group};
    } else if s != [] {
      var rest, x := s[..|s| - 1], s[|s| - 1];
      MoreBlocksExactlyWhenReturned(rest);
      assert s == rest + [x];
      GroupsOneMore(rest, x);
      ReturnsOneMore(rest, x);
      assert rest[|rest| - 1] in rest;
    }
  }

  // ----------------------------------------------------------- independent form

  predicate Parseable(runs: seq<Run>) {
    forall r <- runs :: r.startedAt.Some?
  }

  predicate DistinctTimes(runs: seq<Run>) {
    forall i, j :: 0 <= i < j < |runs| ==> runs[i].startedAt != runs[j].startedAt
  }

  /** Some group ran, then another, then the first again: a property of the runs, not of their listing. */
  ghost predicate Revisited(runs: seq<Run>) {
    exists a, b, c :: a in runs && b in runs && c in runs && Revisit(a, b, c)
  }

  predicate Revisit(a: Run, b: Run, c: Run) {
    && a.startedAt.Some? && b.startedAt.Some? && c.startedAt.Some?
    && a.startedAt.value < b.startedAt.value < c.startedAt.value
    && a.group == c.group != b.group
  }

  ghost predicate Lists(s: seq<Started>, runs: seq<Run>) {
    |s| == |runs| && forall i :: 0 <= i < |s| ==> runs[i] == Run(Some(s[i].at), s[i].group)
  }

  /** Sorted runs with distinct times: earlier in the sequence is earlier in time, both ways. */
  lemma InOrderIsStrict(s: seq<Started>, i: nat, j: nat)
    requires forall i, j :: 0 <= i < j < |s| ==> s[i].at != s[j].at
    requires i < |InOrder(s)| && j < |InOrder(s)|
    ensures i < j <==> InOrder(s)[i].at < InOrder(s)[j].at
  {
    InOrderSorts(s);
    if i != j {
      NoTies(s, i, j);
    }
  }

  /** Two entries of one time would be one entry listed twice. */
  lemma NoTies(s: seq<Started>, i: nat, j: nat)
    requires forall i, j :: 0 <= i < j < |s| ==> s[i].at != s[j].at
    requires i < |InOrder(s)| && j < |InOrder(s)| && i != j
    ensures InOrder(s)[i].at != InOrder(s)[j].at
  {
    var x, y := InOrder(s)[i], InOrder(s)[j];
    if x.at == y.at {
      InOrderMember(s, x);
      InOrderMember(s, y);
      SameTimeIsSame(s, x, y);
      TwiceCounts(InOrder(s), if i < j then i else j, if i < j then j else i);
      OnceCounts(s, x);
      InOrderSorts(s);
    }
  }

  lemma SameTimeIsSame(s: seq<Started>, x: Started, y: Started)
    requires forall i, j :: 0 <= i < j < |s| ==> s[i].at != s[j].at
    requires x in s && y in s && x.at == y.at
    ensures x == y
  {
  }

  lemma TwiceCounts(s: seq<Started>, i: nat, j: nat)
    requires i < j < |s| && s[i] == s[j]
    ensures multiset(s)[s[i]] >= 2
  {
    assert s == s[..i] + [s[i]] + s[i + 1..];
    assert s[j] in s[i + 1..];
  }

  lemma {:induction false} OnceCounts(s: seq<Started>, x: Started)
    requires forall i, j :: 0 <= i < j < |s| ==> s[i].at != s[j].at
    ensures multiset(s)[x] <= 1
  {
    if s != [] {
      var rest, last := s[..|s| - 1], s[|s| - 1];
      OnceCounts(rest, x);
      assert s == rest + [last];
      if last == x {
        assert forall y <- rest :: y.at != last.at;
        assert x !in multiset(rest);
      }
    }
  }

  function AsRun(x: Started): Run {
    Run(Some(x.at), x.group)
  }

  lemma AllAt(s: seq<Started>, runs: seq<Run>)
    requires Lists(s, runs) && DistinctTimes(runs)
    ensures forall i, j :: 0 <= i < j < |s| ==> s[i].at != s[j].at
  {
    forall i, j | 0 <= i < j < |s| ensures s[i].at != s[j].at {
      assert runs[i].startedAt != runs[j].startedAt;
    }
  }

  lemma OrderedRunIsListed(s: seq<Started>, runs: seq<Run>, k: nat)
    requires Lists(s, runs) && k < |InOrder(s)|
    ensures AsRun(InOrder(s)[k]) in runs
  {
    InOrderMember(s, InOrder(s)[k]);
    var i :| 0 <= i < |s| && s[i] == InOrder(s)[k];
    assert runs[i] == AsRun(s[i]);
  }

  /** Where a run ends up in time order. */
  lemma ListedRunIsOrdered(s: seq<Started>, runs: seq<Run>, a: Run) returns (i: nat)
    requires Lists(s, runs) && a in runs
    ensures i < |InOrder(s)| && AsRun(InOrder(s)[i]) == a
  {
    var k :| 0 <= k < |runs| && runs[k] == a;
    InOrderMember(s, s[k]);
    i :| 0 <= i < |InOrder(s)| && InOrder(s)[i] == s[k];
  }

  lemma ReturnIsRevisit(s: seq<Started>, runs: seq<Run>)
    requires Lists(s, runs) && DistinctTimes(runs) && Returns(InOrder(s))
    ensures Revisited(runs)
  {
    AllAt(s, runs);
    var i, j, k :| ReturnsAt(InOrder(s), i, j, k);
    InOrderIsStrict(s, i, j);
    InOrderIsStrict(s, j, k);
    OrderedRunIsListed(s, runs, i);
    OrderedRunIsListed(s, runs, j);
    OrderedRunIsListed(s, runs, k);
    assert Revisit(AsRun(InOrder(s)[i]), AsRun(InOrder(s)[j]), AsRun(InOrder(s)[k]));
  }

  lemma RevisitIsReturn(s: seq<Started>, runs: seq<Run>)
    requires Lists(s, runs) && DistinctTimes(runs) && Revisited(runs)
    ensures Returns(InOrder(s))
  {
    AllAt(s, runs);
    var a, b, c :| a in runs && b in runs && c in runs && Revisit(a, b, c);
    var i := ListedRunIsOrdered(s, runs, a);
    var j := ListedRunIsOrdered(s, runs, b);
    var k := ListedRunIsOrdered(s, runs, c);
    InOrderIsStrict(s, i, j);
    InOrderIsStrict(s, j, k);
    assert ReturnsAt(InOrder(s), i, j, k);
  }

  lemma SameGroups(s: seq<Started>)
    ensures Groups(InOrder(s)) == Groups(s)
  {
    forall x ensures x in InOrder(s) <==> x in s {
      InOrderMember(s, x);
    }
  }

  // ------------------------------------------------------------------ the code

  /** The counting loop over the sorted runs. */
  method CountBlocks(s: seq<Started>) returns (blocks: nat)
    ensures blocks == Blocks(s)
  {
    blocks := 0;
    for i := 0 to |s|
      invariant blocks == Blocks(s[..i])
    {
      assert s[..i + 1][..i] == s[..i];
      if i == 0 || s[i - 1].group != s[i].group {
        blocks := blocks + 1;
      }
    }
    assert s[..|s|] == s;
  }

  /**
    For runs with distinct, parseable start times the answer is whether some group was returned to after
    another one ran, whatever order the runs are listed in. A start time that does not parse answers no.
   */
  method ArmsInterleaveBy(runs: seq<Run>) returns (interleaved: bool)
    ensures !Parseable(runs) ==> !interleaved
    ensures Parseable(runs) && DistinctTimes(runs) ==> (interleaved <==> Revisited(runs))
  {
    var s: seq<Started> := [];
    var distinct: set<string> := {};
    for i := 0 to |runs|
      invariant Lists(s, runs[..i]) && distinct == Groups(s)
      invariant Parseable(runs[..i])
    {
      if runs[i].startedAt.None? {
        assert runs[i] in runs;
        return false;
      }
      var x := Started(runs[i].startedAt.value, runs[i].group);
      GroupsOneMore(s, x);
      s, distinct := s + [x], distinct + {x.group};
    }
    assert runs[..|runs|] == runs;
    var ordered := InOrder(s);
    var blocks := CountBlocks(ordered);
    interleaved := blocks > |distinct|;
    SameGroups(s);
    MoreBlocksExactlyWhenReturned(ordered);
    if DistinctTimes(runs) {
      if Returns(ordered) {
        ReturnIsRevisit(s, runs);
      }
      if Revisited(runs) {
        RevisitIsReturn(s, runs);
      }
    }
  }
}
