/** tools/work_unit.py: redundant-quorum verification of untrusted results. An output is seen only
    through its digest, which is all the quorum ever looks at. */
module WorkUnit {
  import opened Options
  import opened Orders

  datatype Result = Result(worker: string, digest: string)

  datatype Verdict =
    | NoResults(threshold: int)
    | Verdict(verified: bool, accepted: Option<string>, agree: seq<string>, disagree: seq<string>,
              threshold: int, received: nat)

  // ----- votes -----

  /** The workers whose digest is d (or, for `yes` false, is not d), in the order results came. */
  function Side(rs: seq<Result>, d: string, yes: bool): seq<string> {
    if rs == [] then [] else (if (rs[0].digest == d) == yes then [rs[0].worker] else []) + Side(rs[1..], d, yes)
  }

  function Voters(rs: seq<Result>, d: string): seq<string> {
    Side(rs, d, true)
  }

  function Others(rs: seq<Result>, d: string): seq<string> {
    Side(rs, d, false)
  }

  function Votes(rs: seq<Result>, d: string): nat {
    |Voters(rs, d)|
  }

  predicate Returned(rs: seq<Result>, d: string) {
    exists j :: 0 <= j < |rs| && rs[j].digest == d
  }

  /** The first result whose digest nobody beats: Python's `max` keeps the first of equals, and
      the groups are in the order their digests first came. */
  ghost predicate Wins(rs: seq<Result>, d: string) {
    && Returned(rs, d)
    && (forall e :: Votes(rs, e) <= Votes(rs, d))
    && (forall i :: 0 <= i < |rs| && Votes(rs, rs[i].digest) == Votes(rs, d)
          ==> Returned(rs[..i + 1], d))
  }

  function Threshold(n: int, threshold: Option<int>): int {
    if threshold.Some? && threshold.value != 0 then threshold.value else n / 2 + 1
  }

  function Replication(replication: Option<int>, rs: seq<Result>): int {
    if replication.Some? then replication.value else |rs|
  }

  /** What `redundant_quorum` returns. */
  ghost predicate IsVerdict(replication: Option<int>, rs: seq<Result>, threshold: Option<int>, v: Verdict) {
    var t := Threshold(Replication(replication, rs), threshold);
    if rs == [] then v == NoResults(t)
    else exists d :: Wins(rs, d) && v == VerdictFor(rs, d, t)
  }

  function VerdictFor(rs: seq<Result>, d: string, t: int): Verdict {
    var ok := Votes(rs, d) >= t;
    Verdict(ok, if ok then Some(d) else None, SortStrings(Voters(rs, d)), SortStrings(Others(rs, d)), t, |rs|)
  }

  // ----- grouping, as the source does it -----

  lemma {:induction false} SideConcat(a: seq<Result>, b: seq<Result>, d: string, yes: bool)
    ensures Side(a + b, d, yes) == Side(a, d, yes) + Side(b, d, yes)
  {
    if a == [] {
      assert a + b == b;
    } else {
      assert (a + b)[1..] == a[1..] + b;
      SideConcat(a[1..], b, d, yes);
    }
  }

  lemma VotersAppend(rs: seq<Result>, r: Result, d: string)
    ensures Voters(rs + [r], d) == Voters(rs, d) + if r.digest == d then [r.worker] else []
    ensures Others(rs + [r], d) == Others(rs, d) + if r.digest != d then [r.worker] else []
  {
    SideConcat(rs, [r], d, true);
    SideConcat(rs, [r], d, false);
  }

  lemma {:induction false} NotReturned(rs: seq<Result>, d: string)
    ensures Votes(rs, d) == 0 <==> !Returned(rs, d)
  {
    if rs == [] {
    } else {
      NotReturned(rs[1..], d);
      if Returned(rs[1..], d) {
        var j :| 0 <= j < |rs[1..]| && rs[1..][j].digest == d;
        assert rs[j + 1].digest == d;
      } else if rs[0].digest != d {
        forall j | 0 <= j < |rs| ensures rs[j].digest != d {
          if j > 0 { assert rs[1..][j - 1].digest != d; }
        }
      }
    }
  }

  ghost predicate AllDistinct(order: seq<string>) {
    forall i, j :: 0 <= i < j < |order| ==> order[i] != order[j]
  }

  lemma LastIsNew(order: seq<string>)
    requires order != [] && AllDistinct(order)
    ensures AllDistinct(order[..|order| - 1]) && order[|order| - 1] !in order[..|order| - 1]
  {
  }

  /** The digests in the order they first came. */
  ghost predicate FirstSeen(rs: seq<Result>, order: seq<string>) {
    && AllDistinct(order)
    && (forall i :: 0 <= i < |rs| ==> rs[i].digest in order)
    && (forall i :: 0 <= i < |order| ==> Returned(rs, order[i]))
    && InFirstOrder(rs, order)
  }

  ghost predicate InFirstOrder(rs: seq<Result>, order: seq<string>) {
    forall i, a, b :: 0 <= i < |rs| && 0 <= a < b < |order| && rs[i].digest == order[b]
      ==> Returned(rs[..i], order[a])
  }

  /** Every result is in exactly one group: the groups of the other digests hold just the others. */
  lemma {:induction false} OthersGrouped(rs: seq<Result>, order: seq<string>, d: string)
    requires AllDistinct(order)
    requires forall i :: 0 <= i < |rs| ==> rs[i].digest in order
    ensures multiset(Disagreeing(rs, order, d)) == multiset(Others(rs, d))
  {
    if |rs| == 0 {
      NoneDisagree(order, d);
    } else {
      var n := |rs| - 1;
      assert rs == rs[..n] + [rs[n]];
      VotersAppend(rs[..n], rs[n], d);
      OthersGrouped(rs[..n], order, d);
      DisagreeAppend(rs[..n], rs[n], order, d);
    }
  }

  /** The workers of every group but the winner's, group after group. */
  function Disagreeing(rs: seq<Result>, order: seq<string>, d: string): seq<string> {
    if order == [] then []
    else
      var k := |order| - 1;
      Disagreeing(rs, order[..k], d) + if order[k] != d then Voters(rs, order[k]) else []
  }

  lemma {:induction false} NoneDisagree(order: seq<string>, d: string)
    ensures Disagreeing([], order, d) == []
  {
    if order == [] {
    } else {
      NoneDisagree(order[..|order| - 1], d);
    }
  }

  /** The bag of votes for the other digests, group by group. */
  function OtherVotes(rs: seq<Result>, order: seq<string>, d: string): multiset<string> {
    if order == [] then multiset{}
    else
      var k := |order| - 1;
      OtherVotes(rs, order[..k], d) + if order[k] != d then multiset(Voters(rs, order[k])) else multiset{}
  }

  lemma {:induction false} DisagreeingBag(rs: seq<Result>, order: seq<string>, d: string)
    ensures multiset(Disagreeing(rs, order, d)) == OtherVotes(rs, order, d)
  {
    if order == [] {
    } else {
      DisagreeingBag(rs, order[..|order| - 1], d);
      hide Voters;
    }
  }

  function One(w: string, yes: bool): multiset<string> {
    if yes then multiset{w} else multiset{}
  }

  lemma VotesAppend(rs: seq<Result>, r: Result, d: string)
    ensures multiset(Voters(rs + [r], d)) == multiset(Voters(rs, d)) + One(r.worker, r.digest == d)
  {
    VotersAppend(rs, r, d);
    hide Voters;
  }

  lemma {:induction false} OtherVotesAppend(rs: seq<Result>, r: Result, order: seq<string>, d: string)
    requires AllDistinct(order)
    ensures OtherVotes(rs + [r], order, d)
      == OtherVotes(rs, order, d) + One(r.worker, r.digest in order && r.digest != d)
  {
    if order == [] {
    } else {
      var k := |order| - 1;
      LastIsNew(order);
      assert r.digest in order <==> r.digest in order[..k] || r.digest == order[k];
      hide AllDistinct, Voters;
      OtherVotesAppend(rs, r, order[..k], d);
      VotesAppend(rs, r, order[k]);
    }
  }

  lemma DisagreeAppend(rs: seq<Result>, r: Result, order: seq<string>, d: string)
    requires AllDistinct(order)
    ensures multiset(Disagreeing(rs + [r], order, d))
      == multiset(Disagreeing(rs, order, d)) + One(r.worker, r.digest in order && r.digest != d)
  {
    DisagreeingBag(rs + [r], order, d);
    DisagreeingBag(rs, order, d);
    OtherVotesAppend(rs, r, order, d);
  }

  /** The grouping loop: one group per digest, in the order the digests first came. */
  method GroupByDigest(rs: seq<Result>) returns (order: seq<string>, groups: map<string, seq<string>>)
    ensures FirstSeen(rs, order) && (rs == [] <==> order == [])
    ensures forall d :: d in groups <==> d in order
    ensures forall d :: d in groups ==> groups[d] == Voters(rs, d)
  {
    hide FirstSeen, Side;
    order, groups := [], map[];
    NothingSeen();
    for i := 0 to |rs|
      invariant FirstSeen(rs[..i], order) && (i == 0 <==> order == [])
      invariant forall d :: d in groups <==> d in order
      invariant forall d :: d in groups ==> groups[d] == Voters(rs[..i], d)
    {
      var r := rs[i];
      assert rs[..i + 1] == rs[..i] + [r];
      forall d ensures Voters(rs[..i + 1], d) == Voters(rs[..i], d) + if r.digest == d then [r.worker] else [] {
        VotersAppend(rs[..i], r, d);
      }
      NotReturned(rs[..i], r.digest);
      GrowOrder(rs[..i], r, order);
      if r.digest !in groups {
        order := order + [r.digest];
        groups := groups[r.digest := []];
      }
      groups := groups[r.digest := groups[r.digest] + [r.worker]];
    }
    assert rs[..|rs|] == rs;
  }

  /** `max` over the groups by size: the first of the largest. */
  method LargestGroup(order: seq<string>, groups: map<string, seq<string>>) returns (best: nat)
    requires order != [] && forall d :: d in order ==> d in groups
    ensures best < |order|
    ensures forall j :: 0 <= j < |order| ==> |groups[order[j]]| <= |groups[order[best]]|
    ensures forall j :: 0 <= j < best ==> |groups[order[j]]| < |groups[order[best]]|
  {
    best := 0;
    for i := 1 to |order|
      invariant 0 <= best < i
      invariant forall j :: 0 <= j < i ==> |groups[order[j]]| <= |groups[order[best]]|
      invariant forall j :: 0 <= j < best ==> |groups[order[j]]| < |groups[order[best]]|
    {
      if |groups[order[i]]| > |groups[order[best]]| {
        best := i;
      }
    }
  }

  /** The loop that collects every other group, in the order of the groups. */
  method OtherGroups(rs: seq<Result>, order: seq<string>, groups: map<string, seq<string>>, winner: string)
    returns (disagree: seq<string>)
    requires forall d :: d in order ==> d in groups && groups[d] == Voters(rs, d)
    ensures disagree == Disagreeing(rs, order, winner)
  {
    hide Voters;
    disagree := [];
    for i := 0 to |order|
      invariant disagree == Disagreeing(rs, order[..i], winner)
    {
      assert order[..i + 1][..i] == order[..i];
      if order[i] != winner {
        disagree := disagree + groups[order[i]];
      }
    }
    assert order[..|order|] == order;
  }

  method RedundantQuorum(replication: Option<int>, rs: seq<Result>, threshold: Option<int>) returns (v: Verdict)
    ensures IsVerdict(replication, rs, threshold, v)
  {
    hide FirstSeen, Side, Wins, Voters, Others, Disagreeing, SortStrings, Sorted;
    var t := Threshold(Replication(replication, rs), threshold);
    var order, groups := GroupByDigest(rs);
    if order == [] {
      return NoResults(t);
    }
    var best := LargestGroup(order, groups);
    var winner := order[best];
    WinnerWins(rs, order, best);
    var agree := groups[winner];
    var disagree := OtherGroups(rs, order, groups, winner);
    AllSeen(rs, order);
    OthersGrouped(rs, order, winner);
    SortForgetsOrder(disagree, Others(rs, winner));
    var verified := |agree| >= t;
    v := Verdict(verified, if verified then Some(winner) else None, SortStrings(agree), SortStrings(disagree), t, |rs|);
  }

  lemma NothingSeen()
    ensures FirstSeen([], [])
  {
  }

  lemma AllSeen(rs: seq<Result>, order: seq<string>)
    requires FirstSeen(rs, order)
    ensures AllDistinct(order)
    ensures forall i :: 0 <= i < |rs| ==> rs[i].digest in order
  {
  }

  lemma GrowOrder(rs: seq<Result>, r: Result, order: seq<string>)
    requires FirstSeen(rs, order)
    ensures FirstSeen(rs + [r], if r.digest in order then order else order + [r.digest])
    ensures r.digest in order <==> Returned(rs, r.digest)
  {
    hide InFirstOrder;
    var rs' := rs + [r];
    var order' := if r.digest in order then order else order + [r.digest];
    assert rs'[|rs|] == r;
    forall i | 0 <= i < |order'|
      ensures Returned(rs', order'[i])
    {
      if i < |order| {
        var q :| 0 <= q < |rs| && rs[q].digest == order[i];
        assert rs'[q].digest == order'[i];
      }
    }
    GrowFirstOrder(rs, r, order);
  }

  lemma GrowFirstOrder(rs: seq<Result>, r: Result, order: seq<string>)
    requires InFirstOrder(rs, order)
    requires forall i :: 0 <= i < |order| ==> Returned(rs, order[i])
    requires forall i :: 0 <= i < |rs| ==> rs[i].digest in order
    requires AllDistinct(order)
    ensures InFirstOrder(rs + [r], if r.digest in order then order else order + [r.digest])
  {
    hide Returned;
    var rs' := rs + [r];
    var order' := if r.digest in order then order else order + [r.digest];
    forall i, a, b | 0 <= i < |rs'| && 0 <= a < b < |order'| && rs'[i].digest == order'[b]
      ensures Returned(rs'[..i], order'[a])
    {
      assert order'[a] == order[a];
      if i < |rs| {
        assert rs'[..i] == rs[..i];
      } else {
        assert rs'[..i] == rs;
      }
    }
  }

  lemma WinnerWins(rs: seq<Result>, order: seq<string>, best: nat)
    requires FirstSeen(rs, order) && best < |order|
    requires forall j :: 0 <= j < |order| ==> Votes(rs, order[j]) <= Votes(rs, order[best])
    requires forall j :: 0 <= j < best ==> Votes(rs, order[j]) < Votes(rs, order[best])
    ensures Wins(rs, order[best])
  {
    var d := order[best];
    forall e ensures Votes(rs, e) <= Votes(rs, d) {
      NotReturned(rs, e);
      if Returned(rs, e) {
        var j :| 0 <= j < |rs| && rs[j].digest == e;
      }
    }
    forall i | 0 <= i < |rs| && Votes(rs, rs[i].digest) == Votes(rs, d)
      ensures Returned(rs[..i + 1], d)
    {
      var b :| 0 <= b < |order| && order[b] == rs[i].digest;
      if best < b {
        assert Returned(rs[..i], d);
        var j :| 0 <= j < |rs[..i]| && rs[..i][j].digest == d;
        assert rs[..i + 1][j].digest == d;
      } else {
        assert b == best;
        assert rs[..i + 1][i].digest == d;
      }
    }
  }
}
