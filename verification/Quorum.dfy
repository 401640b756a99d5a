/** What a quorum verdict means: who can force one, who can prevent one, and what it does not
    depend on. */
module Quorum {
  import opened Basics
  import opened Options
  import opened Orders
  import opened WorkUnit

  // ----- the threshold, and who reached it -----

  /** The results with this digest. */
  function With(rs: seq<Result>, d: string): set<nat> {
    set i: nat | i < |rs| && rs[i].digest == d
  }

  /** The results of this worker. */
  function From(rs: seq<Result>, w: string): set<nat> {
    set i: nat | i < |rs| && rs[i].worker == w
  }

  function IfSo(yes: bool, i: nat): set<nat> {
    if yes then {i} else {}
  }

  lemma OneMoreResult(rs: seq<Result>, r: Result, d: string, w: string)
    ensures With(rs + [r], d) == With(rs, d) + IfSo(r.digest == d, |rs|)
    ensures From(rs + [r], w) == From(rs, w) + IfSo(r.worker == w, |rs|)
    ensures |rs| !in With(rs, d) && |rs| !in From(rs, w)
  {
  }

  lemma OneMoreMember(a: set<nat>, n: nat, yes: bool)
    requires n !in a
    ensures |a + IfSo(yes, n)| == |a| + if yes then 1 else 0
  {
    if !yes {
      assert a + {} == a;
    }
  }

  lemma CommonWith(a: set<nat>, b: set<nat>, n: nat)
    requires n !in a && n !in b
    ensures (a + {n}) * b == a * b && a * (b + {n}) == a * b && (a + {n}) * (b + {n}) == a * b + {n}
  {
  }

  lemma RestWith(a: set<nat>, b: set<nat>, n: nat)
    requires n !in a && n !in b
    ensures (a + {n}) - b == (a - b) + {n} && a - (b + {n}) == a - b && (a + {n}) - (b + {n}) == a - b
  {
  }

  lemma OneMoreOfBoth(a: set<nat>, b: set<nat>, n: nat, x: bool, y: bool)
    requires n !in a && n !in b
    ensures var c, d := a + IfSo(x, n), b + IfSo(y, n);
      && c * d == a * b + IfSo(x && y, n)
      && c - d == (a - b) + IfSo(x && !y, n)
  {
    CommonWith(a, b, n);
    RestWith(a, b, n);
    assert a + {} == a && b + {} == b && a * b + {} == a * b && (a - b) + {} == a - b;
  }

  lemma {:induction false} VotesAreResults(rs: seq<Result>, d: string)
    ensures Votes(rs, d) == |With(rs, d)|
  {
    if rs == [] {
      assert With(rs, d) == {};
    } else {
      var n := |rs| - 1;
      VotesAreResults(rs[..n], d);
      assert rs == rs[..n] + [rs[n]];
      VotersAppend(rs[..n], rs[n], d);
      OneMoreResult(rs[..n], rs[n], d, rs[n].worker);
      hide Voters, With, From, IfSo;
      OneMoreMember(With(rs[..n], d), n, rs[n].digest == d);
    }
  }

  /** What the verdict says about the threshold and who reached it: the number is the one given, and verified means that
      so many results have one and the same digest. */
  ghost predicate ReachesIff(rs: seq<Result>, v: Verdict, t: int) {
    && v.threshold == t
    && (v.NoResults? <==> rs == [])
    && (v.Verdict? ==>
          && v.received == |rs|
          && (v.verified <==> exists d :: |With(rs, d)| >= t)
          && (v.verified <==> v.accepted.Some?)
          && (v.verified ==> |With(rs, v.accepted.value)| >= t))
  }

  lemma ReachesThreshold(replication: Option<int>, rs: seq<Result>, threshold: Option<int>, v: Verdict)
    requires IsVerdict(replication, rs, threshold, v)
    ensures ReachesIff(rs, v, Threshold(Replication(replication, rs), threshold))
  {
    hide With, Voters, Others, SortStrings;
    if rs != [] {
      var t := Threshold(Replication(replication, rs), threshold);
      var e :| Wins(rs, e) && v == VerdictFor(rs, e, t);
      forall d ensures |With(rs, d)| <= |With(rs, e)| && |With(rs, d)| == Votes(rs, d) {
        VotesAreResults(rs, d);
        VotesAreResults(rs, e);
      }
    }
  }

  /** By default, when no threshold is given or it is zero, a majority of the replication factor must agree, or of the
      results returned if the unit names no factor; a threshold that is given and not zero is taken as it is. */
  lemma ThresholdMeans(replication: Option<int>, rs: seq<Result>, threshold: Option<int>, v: Verdict)
    requires IsVerdict(replication, rs, threshold, v)
    ensures forall n :: replication == Some(n) && threshold in {None, Some(0)} ==> ReachesIff(rs, v, n / 2 + 1)
    ensures replication == None && threshold in {None, Some(0)} ==> ReachesIff(rs, v, |rs| / 2 + 1)
    ensures forall k :: k != 0 && threshold == Some(k) ==> ReachesIff(rs, v, k)
  {
    ReachesThreshold(replication, rs, threshold, v);
    hide IsVerdict, ReachesIff;
  }

  /** So with half of the replication factor or fewer returned nothing is verified by default. */
  lemma HalfIsNotEnough(n: nat, rs: seq<Result>, threshold: Option<int>, v: Verdict)
    requires IsVerdict(Some(n), rs, threshold, v) && threshold in {None, Some(0)} && |rs| <= n / 2
    ensures v.NoResults? || (!v.verified && v.accepted == None)
  {
    ThresholdMeans(Some(n), rs, threshold, v);
    if v.Verdict? && v.verified {
      VotesAreResults(rs, v.accepted.value);
      VotesAtMost(rs, v.accepted.value);
    }
  }

  lemma {:induction false} VotesAtMost(rs: seq<Result>, d: string)
    ensures Votes(rs, d) <= |rs|
  {
    if rs == [] {
    } else {
      VotesAtMost(rs[1..], d);
    }
  }

  /** This digest came in no later than the j-th result. */
  predicate FirstBy(rs: seq<Result>, d: string, j: nat) {
    exists i :: 0 <= i < |rs| && i <= j && rs[i].digest == d
  }

  /** The two worker lists are sorted and account for every result: those with the digest that came out on top, which no
      other digest outnumbers and of those as many came in first, and the rest. */
  lemma ListsAccount(replication: Option<int>, rs: seq<Result>, threshold: Option<int>, v: Verdict) returns (d: string)
    requires IsVerdict(replication, rs, threshold, v) && rs != []
    ensures v.Verdict? && Sorted(v.agree) && Sorted(v.disagree)
    ensures forall e :: |With(rs, e)| <= |With(rs, d)|
    ensures forall j :: 0 <= j < |rs| && |With(rs, rs[j].digest)| == |With(rs, d)| ==> FirstBy(rs, d, j)
    ensures v.verified ==> v.accepted == Some(d)
    ensures forall w :: multiset(v.agree)[w] == |From(rs, w) * With(rs, d)|
    ensures forall w :: multiset(v.disagree)[w] == |From(rs, w) - With(rs, d)|
  {
    var t := Threshold(Replication(replication, rs), threshold);
    d :| Wins(rs, d) && v == VerdictFor(rs, d, t);
    hide Wins, Voters, Others, With, From, SortStrings, Sorted, FirstBy, Replication, Threshold;
    WinnerLeads(rs, d);
    SortStringsCorrect(Voters(rs, d));
    SortStringsCorrect(Others(rs, d));
    forall w
      ensures multiset(Voters(rs, d))[w] == |From(rs, w) * With(rs, d)|
      ensures multiset(Others(rs, d))[w] == |From(rs, w) - With(rs, d)|
    {
      SideCounts(rs, d, w);
    }
  }

  lemma WinnerLeads(rs: seq<Result>, d: string)
    requires Wins(rs, d)
    ensures forall e :: |With(rs, e)| <= |With(rs, d)|
    ensures forall j :: 0 <= j < |rs| && |With(rs, rs[j].digest)| == |With(rs, d)| ==> FirstBy(rs, d, j)
  {
    hide Voters, With, FirstBy;
    assert forall e :: Votes(rs, e) <= Votes(rs, d);
    forall e ensures Votes(rs, e) == |With(rs, e)| {
      VotesAreResults(rs, e);
    }
    forall j | 0 <= j < |rs| && |With(rs, rs[j].digest)| == |With(rs, d)|
      ensures FirstBy(rs, d, j)
    {
      assert Votes(rs, rs[j].digest) == Votes(rs, d);
      WinsFirst(rs, d, j);
    }
  }

  lemma WinsFirst(rs: seq<Result>, d: string, j: nat)
    requires Wins(rs, d) && j < |rs| && Votes(rs, rs[j].digest) == Votes(rs, d)
    ensures FirstBy(rs, d, j)
  {
    hide Voters;
    var i :| 0 <= i < |rs[..j + 1]| && rs[..j + 1][i].digest == d;
    assert rs[i].digest == d;
  }

  lemma {:induction false} SideCounts(rs: seq<Result>, d: string, w: string)
    ensures multiset(Voters(rs, d))[w] == |From(rs, w) * With(rs, d)|
    ensures multiset(Others(rs, d))[w] == |From(rs, w) - With(rs, d)|
  {
    if rs == [] {
      assert From(rs, w) == {};
    } else {
      var n := |rs| - 1;
      SideCounts(rs[..n], d, w);
      assert rs == rs[..n] + [rs[n]];
      VotersAppend(rs[..n], rs[n], d);
      hide Voters, Others;
      FromAppend(rs[..n], rs[n], d, w);
    }
  }

  lemma FromAppend(rs: seq<Result>, r: Result, d: string, w: string)
    ensures |From(rs + [r], w) * With(rs + [r], d)|
      == |From(rs, w) * With(rs, d)| + if r == Result(w, d) then 1 else 0
    ensures |From(rs + [r], w) - With(rs + [r], d)|
      == |From(rs, w) - With(rs, d)| + if r.worker == w && r.digest != d then 1 else 0
  {
    OneMoreResult(rs, r, d, w);
    hide From, With, IfSo;
    var a, b, x, y := From(rs, w), With(rs, d), r.worker == w, r.digest == d;
    OneMoreOfBoth(a, b, |rs|, x, y);
    OneMoreMember(a * b, |rs|, x && y);
    OneMoreMember(a - b, |rs|, x && !y);
  }

  /** Verified means exactly that some returned digest reached the threshold; the accepted digest
      is then one that did. */
  lemma VerifiedIff(replication: Option<int>, rs: seq<Result>, threshold: Option<int>, v: Verdict)
    requires IsVerdict(replication, rs, threshold, v) && rs != []
    ensures v.Verdict? && v.threshold == Threshold(Replication(replication, rs), threshold)
    ensures v.verified <==> exists d :: Returned(rs, d) && Votes(rs, d) >= v.threshold
    ensures v.verified <==> v.accepted.Some?
    ensures v.verified ==> Returned(rs, v.accepted.value) && Votes(rs, v.accepted.value) >= v.threshold
  {
  }

  lemma {:induction false} VotesDisjoint(rs: seq<Result>, d: string, e: string)
    requires d != e
    ensures Votes(rs, d) + Votes(rs, e) <= |rs|
  {
    if rs == [] {
    } else {
      VotesDisjoint(rs[1..], d, e);
    }
  }

  /** As long as there are fewer results than twice the threshold, at most one digest can reach it. */
  lemma MajorityUnique(rs: seq<Result>, t: int, d: string, e: string)
    requires |rs| < 2 * t && Votes(rs, d) >= t && Votes(rs, e) >= t
    ensures d == e
  {
    if d != e {
      VotesDisjoint(rs, d, e);
    }
  }

  /** The default threshold is such for up to `replication` results. */
  lemma DefaultIsMajority(replication: Option<int>, rs: seq<Result>, threshold: Option<int>, v: Verdict)
    requires IsVerdict(replication, rs, threshold, v) && threshold in {None, Some(0)}
    requires replication.Some? ==> |rs| <= replication.value
    ensures |rs| < 2 * v.threshold
  {
    ThresholdMeans(replication, rs, threshold, v);
  }

  /** k votes of one worker for one digest. */
  function Ballot(k: nat, worker: string, d: string): seq<Result> {
    if k == 0 then [] else [Result(worker, d)] + Ballot(k - 1, worker, d)
  }

  lemma {:induction false} BallotVotes(k: nat, worker: string, d: string, e: string)
    ensures |Ballot(k, worker, d)| == k && Votes(Ballot(k, worker, d), e) == if d == e then k else 0
  {
    if k == 0 {
    } else {
      BallotVotes(k - 1, worker, d, e);
    }
  }

  ghost predicate BothReach(rs: seq<Result>, t: int, d: string, e: string) {
    Votes(rs, d) >= t && Votes(rs, e) >= t
  }

  /** And no longer than that: with twice the threshold or more, two digests can both reach it. */
  lemma UniqueIffFewer(m: nat, t: nat)
    requires t > 0
    ensures m < 2 * t <==> forall rs, d, e :: |rs| == m && BothReach(rs, t, d, e) ==> d == e
  {
    if m < 2 * t {
      forall rs, d, e | |rs| == m && BothReach(rs, t, d, e)
        ensures d == e
      {
        MajorityUnique(rs, t, d, e);
      }
    } else {
      var rs := Ballot(t, "a", "x") + Ballot(m - t, "b", "y");
      BallotVotes(t, "a", "x", "x");
      BallotVotes(t, "a", "x", "y");
      BallotVotes(m - t, "b", "y", "x");
      BallotVotes(m - t, "b", "y", "y");
      SideConcat(Ballot(t, "a", "x"), Ballot(m - t, "b", "y"), "x", true);
      SideConcat(Ballot(t, "a", "x"), Ballot(m - t, "b", "y"), "y", true);
      assert BothReach(rs, t, "x", "y");
    }
  }

  /** Results have one verdict. */
  lemma OneVerdict(replication: Option<int>, rs: seq<Result>, threshold: Option<int>, v: Verdict, w: Verdict)
    requires IsVerdict(replication, rs, threshold, v) && IsVerdict(replication, rs, threshold, w)
    ensures v == w
  {
    if rs != [] {
      var t := Threshold(Replication(replication, rs), threshold);
      var d :| Wins(rs, d) && v == VerdictFor(rs, d, t);
      var e :| Wins(rs, e) && w == VerdictFor(rs, e, t);
      OneWinner(rs, d, e);
    }
  }

  lemma WinnersTie(rs: seq<Result>, d: string, e: string)
    requires Wins(rs, d) && Wins(rs, e)
    ensures Votes(rs, d) == Votes(rs, e) && Returned(rs, d) && Returned(rs, e)
  {
    hide Voters, Returned;
  }

  lemma OneWinner(rs: seq<Result>, d: string, e: string)
    requires Wins(rs, d) && Wins(rs, e)
    ensures d == e
  {
    hide Wins, Votes, Returned;
    WinnersTie(rs, d, e);
    assert rs[..|rs|] == rs;
    var i := FirstReturned(rs, d, |rs|);
    var j := FirstReturned(rs, e, |rs|);
    WinsFirst(rs, d, j);
    WinsFirst(rs, e, i);
  }

  lemma {:induction false} FirstReturned(rs: seq<Result>, d: string, n: nat) returns (i: nat)
    requires n <= |rs| && Returned(rs[..n], d)
    ensures i < n && rs[i].digest == d && forall k :: 0 <= k < i ==> rs[k].digest != d
  {
    if Returned(rs[..n - 1], d) {
      i := FirstReturned(rs, d, n - 1);
    } else {
      i := n - 1;
      forall k | 0 <= k < i ensures rs[k].digest != d {
        assert rs[..n - 1][k] == rs[k];
      }
    }
  }

  // ----- order of arrival -----

  lemma MiddleOut(a: seq<string>, x: seq<string>, b: seq<string>)
    ensures multiset(a + (x + b)) == multiset(a + b) + multiset(x)
  {
  }

  lemma SideRemove(qs: seq<Result>, j: nat, d: string, yes: bool)
    requires j < |qs|
    ensures multiset(Side(qs, d, yes))
      == multiset(Side(qs[..j] + qs[j + 1..], d, yes)) + multiset(Side([qs[j]], d, yes))
  {
    hide Side;
    assert qs == qs[..j] + ([qs[j]] + qs[j + 1..]);
    SideConcat(qs[..j], [qs[j]] + qs[j + 1..], d, yes);
    SideConcat([qs[j]], qs[j + 1..], d, yes);
    SideConcat(qs[..j], qs[j + 1..], d, yes);
    MiddleOut(Side(qs[..j], d, yes), Side([qs[j]], d, yes), Side(qs[j + 1..], d, yes));
  }

  /** Taking the first of one order out of the other. */
  lemma TakeOut(rs: seq<Result>, qs: seq<Result>) returns (j: nat)
    requires multiset(rs) == multiset(qs) && rs != []
    ensures j < |qs| && qs[j] == rs[0] && multiset(rs[1..]) == multiset(qs[..j] + qs[j + 1..])
  {
    assert rs[0] in multiset(qs);
    j :| 0 <= j < |qs| && qs[j] == rs[0];
    RemoveAt(qs, j);
    assert multiset(rs[1..]) == multiset(rs) - multiset{rs[0]} by {
      assert rs == [rs[0]] + rs[1..];
    }
  }

  /** Who voted for a digest, and who against, does not depend on the order of the results. */
  lemma {:induction false} SidePermuted(rs: seq<Result>, qs: seq<Result>, d: string, yes: bool)
    requires multiset(rs) == multiset(qs)
    ensures multiset(Side(rs, d, yes)) == multiset(Side(qs, d, yes))
  {
    if rs == [] {
      assert |multiset(qs)| == |qs|;
    } else {
      hide Side;
      var j := TakeOut(rs, qs);
      SidePermuted(rs[1..], qs[..j] + qs[j + 1..], d, yes);
      SideRemove(qs, j, d, yes);
      SideRemove(rs, 0, d, yes);
      assert rs[..0] + rs[1..] == rs[1..];
    }
  }

  lemma SameVotes(rs: seq<Result>, qs: seq<Result>, d: string)
    requires multiset(rs) == multiset(qs)
    ensures Votes(rs, d) == Votes(qs, d) && |rs| == |qs|
    ensures Returned(rs, d) <==> Returned(qs, d)
  {
    SidePermuted(rs, qs, d, true);
    assert |multiset(Voters(rs, d))| == |Voters(rs, d)| && |multiset(Voters(qs, d))| == |Voters(qs, d)|;
    assert |multiset(rs)| == |rs| && |multiset(qs)| == |qs|;
    NotReturned(rs, d);
    NotReturned(qs, d);
  }

  /** Order independence: any rearrangement of the results gives the same yes or no; with fewer results
      than twice the threshold, as the default has for up to `replication` results, a yes is the same
      verdict throughout. */
  lemma OrderIndependent(replication: Option<int>, rs: seq<Result>, qs: seq<Result>, threshold: Option<int>,
      v: Verdict, w: Verdict)
    requires multiset(rs) == multiset(qs)
    requires IsVerdict(replication, rs, threshold, v) && IsVerdict(replication, qs, threshold, w)
    ensures v.NoResults? <==> w.NoResults?
    ensures v.threshold == w.threshold
    ensures v.Verdict? ==> v.verified == w.verified && v.received == w.received
    ensures v.Verdict? && v.verified && |rs| < 2 * v.threshold ==> v == w
  {
    assert |multiset(rs)| == |rs| && |multiset(qs)| == |qs|;
    if rs != [] {
      VerifiedIff(replication, rs, threshold, v);
      VerifiedIff(replication, qs, threshold, w);
      if v.verified {
        SameVotes(rs, qs, v.accepted.value);
      }
      if w.verified {
        SameVotes(rs, qs, w.accepted.value);
      }
      if v.verified && |rs| < 2 * v.threshold {
        SameVotes(rs, qs, w.accepted.value);
        MajorityUnique(rs, v.threshold, v.accepted.value, w.accepted.value);
        SidePermuted(rs, qs, v.accepted.value, true);
        SidePermuted(rs, qs, v.accepted.value, false);
        SortForgetsOrder(Voters(rs, v.accepted.value), Voters(qs, v.accepted.value));
        SortForgetsOrder(Others(rs, v.accepted.value), Others(qs, v.accepted.value));
      }
    }
  }

  /** Without a quorum the two worker lists do depend on the order: in a tie the first digest to
      arrive is the one whose workers are called agreeing. */
  lemma TieFollowsOrder() returns (v: Verdict, w: Verdict)
    ensures IsVerdict(Some(2), [Result("a", "x"), Result("b", "y")], None, v)
    ensures IsVerdict(Some(2), [Result("b", "y"), Result("a", "x")], None, w)
    ensures v.Verdict? && w.Verdict? && !v.verified && !w.verified && v.agree == ["a"] && w.agree == ["b"]
  {
    v := TwoVotes(Result("a", "x"), Result("b", "y"));
    w := TwoVotes(Result("b", "y"), Result("a", "x"));
  }

  lemma TwoVotes(a: Result, b: Result) returns (v: Verdict)
    requires a.digest != b.digest
    ensures IsVerdict(Some(2), [a, b], None, v) && v.Verdict? && !v.verified && v.agree == [a.worker]
  {
    var rs := [a, b];
    forall e ensures Votes(rs, e) <= 1 {
      TwoVoters(a, b, e);
    }
    TwoVoters(a, b, a.digest);
    SortOne(a.worker);
    assert Wins(rs, a.digest) by {
      assert rs[0].digest == a.digest;
      assert rs[..1][0] == a && rs[..2][0] == a;
    }
    v := VerdictFor(rs, a.digest, 2);
  }

  lemma TwoVoters(a: Result, b: Result, d: string)
    ensures Voters([a, b], d) == (if a.digest == d then [a.worker] else []) + if b.digest == d then [b.worker] else []
  {
    SideConcat([a], [b], d, true);
    assert [a] + [b] == [a, b];
  }

  lemma SortOne(x: string)
    ensures SortStrings([x]) == [x]
  {
  }

  // ----- exactly when order does not matter -----

  /** One digest with strictly more votes than every other. */
  ghost predicate StrictLeader(rs: seq<Result>, d: string) {
    Returned(rs, d) && forall e :: e != d ==> Votes(rs, e) < Votes(rs, d)
  }

  /** These two orders of the results can have different verdicts. */
  ghost predicate Disagree(replication: Option<int>, threshold: Option<int>, ps: seq<Result>, qs: seq<Result>) {
    exists v, w :: IsVerdict(replication, ps, threshold, v) && IsVerdict(replication, qs, threshold, w) && v != w
  }

  ghost predicate OrderFree(replication: Option<int>, rs: seq<Result>, threshold: Option<int>) {
    forall ps, qs :: multiset(ps) == multiset(rs) && multiset(qs) == multiset(rs)
      ==> !Disagree(replication, threshold, ps, qs)
  }

  /** The whole verdict for a digest is the same for every order of the results. */
  lemma SameVerdictFor(rs: seq<Result>, qs: seq<Result>, d: string, t: int)
    requires multiset(rs) == multiset(qs)
    ensures VerdictFor(rs, d, t) == VerdictFor(qs, d, t)
  {
    SameVotes(rs, qs, d);
    SidePermuted(rs, qs, d, true);
    SidePermuted(rs, qs, d, false);
    SortForgetsOrder(Voters(rs, d), Voters(qs, d));
    SortForgetsOrder(Others(rs, d), Others(qs, d));
  }

  lemma LeaderWins(rs: seq<Result>, qs: seq<Result>, d: string, e: string)
    requires multiset(rs) == multiset(qs) && StrictLeader(rs, d) && Wins(qs, e)
    ensures e == d
  {
    SameVotes(rs, qs, d);
    SameVotes(rs, qs, e);
  }

  /** A strict leader has the same verdict in every order, quorum or not, whoever the workers are. */
  lemma LeaderForcesVerdict(replication: Option<int>, rs: seq<Result>, qs: seq<Result>, threshold: Option<int>,
      d: string, v: Verdict)
    requires multiset(rs) == multiset(qs) && StrictLeader(rs, d) && IsVerdict(replication, qs, threshold, v)
    ensures v == VerdictFor(rs, d, Threshold(Replication(replication, rs), threshold))
  {
    assert |multiset(rs)| == |rs| && |multiset(qs)| == |qs|;
    var t := Threshold(Replication(replication, rs), threshold);
    var e :| Wins(qs, e) && v == VerdictFor(qs, e, t);
    LeaderWins(rs, qs, d, e);
    SameVerdictFor(rs, qs, d, t);
  }

  /** Some digest nobody outvotes. */
  lemma {:induction false} SomeLeader(rs: seq<Result>, k: nat) returns (i: nat)
    requires 0 < k <= |rs|
    ensures i < k && forall j :: 0 <= j < k ==> Votes(rs, rs[j].digest) <= Votes(rs, rs[i].digest)
  {
    if k == 1 {
      i := 0;
    } else {
      i := SomeLeader(rs, k - 1);
      if Votes(rs, rs[i].digest) < Votes(rs, rs[k - 1].digest) {
        i := k - 1;
      }
    }
  }

  /** Nobody outvotes this digest. */
  ghost predicate Leads(rs: seq<Result>, d: string) {
    Returned(rs, d) && forall e :: Votes(rs, e) <= Votes(rs, d)
  }

  lemma LeadsEverywhere(rs: seq<Result>, qs: seq<Result>, d: string)
    requires multiset(rs) == multiset(qs) && Leads(rs, d)
    ensures Leads(qs, d)
  {
    SameVotes(rs, qs, d);
    forall e ensures Votes(qs, e) <= Votes(qs, d) {
      SameVotes(rs, qs, e);
    }
  }

  lemma LeaderOrTie(rs: seq<Result>) returns (d: string, e: string)
    requires rs != []
    ensures Leads(rs, d) && (StrictLeader(rs, d) || (d != e && Leads(rs, e)))
  {
    var i := SomeLeader(rs, |rs|);
    d, e := rs[i].digest, "";
    forall x ensures Votes(rs, x) <= Votes(rs, d) {
      NotReturned(rs, x);
    }
    NotReturned(rs, d);
    if x :| x != d && Votes(rs, x) == Votes(rs, d) {
      e := x;
      NotReturned(rs, e);
    }
  }

  /** Some order in which a leader comes first, and then wins. */
  lemma ComesFirst(rs: seq<Result>, d: string) returns (qs: seq<Result>)
    requires Leads(rs, d)
    ensures multiset(qs) == multiset(rs) && Wins(qs, d)
  {
    var j :| 0 <= j < |rs| && rs[j].digest == d;
    var rest := rs[..j] + rs[j + 1..];
    qs := [rs[j]] + rest;
    RemoveAt(rs, j);
    assert rs[j] in multiset(rs);
    assert qs[0].digest == d;
    LeadsEverywhere(rs, qs, d);
    forall i | 0 <= i < |qs| && Votes(qs, qs[i].digest) == Votes(qs, d)
      ensures Returned(qs[..i + 1], d)
    {
      assert qs[..i + 1][0] == qs[0];
    }
  }

  /** Nobody votes for two digests when the workers are distinct, so a returned digest has a voter no other has. */
  lemma VotersDiffer(rs: seq<Result>, d: string, e: string) returns (w: string)
    requires DistinctWorkers(rs) && d != e && Returned(rs, d)
    ensures w in multiset(Voters(rs, d)) && w !in multiset(Voters(rs, e))
  {
    var j :| 0 <= j < |rs| && rs[j].digest == d;
    w := rs[j].worker;
    VoterIff(rs, d, w);
    VoterIff(rs, e, w);
    assert rs[j] == Result(w, d);
  }

  /** These two digests have the same voters, a worker as often for one as for the other. */
  ghost predicate SameVoters(rs: seq<Result>, d: string, e: string) {
    multiset(Voters(rs, d)) == multiset(Voters(rs, e))
  }

  function AllWorkers(rs: seq<Result>): seq<string> {
    if rs == [] then [] else [rs[0].worker] + AllWorkers(rs[1..])
  }

  /** Whatever the digest, the two sides together are everyone. */
  lemma {:induction false} SidesMakeAll(rs: seq<Result>, d: string)
    ensures multiset(Voters(rs, d)) + multiset(Others(rs, d)) == multiset(AllWorkers(rs))
  {
    if rs == [] {
    } else {
      SidesMakeAll(rs[1..], d);
    }
  }

  /** Digests with the same voters have the same lists. */
  lemma SameLists(rs: seq<Result>, d: string, e: string)
    requires SameVoters(rs, d, e)
    ensures SortStrings(Voters(rs, d)) == SortStrings(Voters(rs, e))
    ensures SortStrings(Others(rs, d)) == SortStrings(Others(rs, e))
  {
    SidesMakeAll(rs, d);
    SidesMakeAll(rs, e);
    hide Voters, Others, AllWorkers, SortStrings;
    assert multiset(Others(rs, d)) == multiset(AllWorkers(rs)) - multiset(Voters(rs, d));
    SortForgetsOrder(Voters(rs, d), Voters(rs, e));
    SortForgetsOrder(Others(rs, d), Others(rs, e));
  }

  /** Two leading digests have one verdict exactly when they are one, or there is no quorum and the same workers
      voted for both. */
  lemma OneVerdictIff(rs: seq<Result>, d: string, e: string, t: int)
    requires Leads(rs, d) && Leads(rs, e)
    ensures VerdictFor(rs, d, t) == VerdictFor(rs, e, t) <==> d == e || (Votes(rs, d) < t && SameVoters(rs, d, e))
  {
    assert Votes(rs, d) == Votes(rs, e);
    hide Voters, Others, Leads, SortStrings, Sorted;
    SortStringsCorrect(Voters(rs, d));
    SortStringsCorrect(Voters(rs, e));
    if SameVoters(rs, d, e) {
      SameLists(rs, d, e);
    }
  }

  /** The verdicts some order of the results has are those of the digests that lead. */
  lemma VerdictsOfLeaders(replication: Option<int>, rs: seq<Result>, threshold: Option<int>, v: Verdict)
    requires rs != []
    ensures (exists qs :: multiset(qs) == multiset(rs) && IsVerdict(replication, qs, threshold, v))
      <==> exists d :: Leads(rs, d) && v == VerdictFor(rs, d, Threshold(Replication(replication, rs), threshold))
  {
    var t := Threshold(Replication(replication, rs), threshold);
    if qs :| multiset(qs) == multiset(rs) && IsVerdict(replication, qs, threshold, v) {
      assert |multiset(rs)| == |rs| && |multiset(qs)| == |qs|;
      var d :| Wins(qs, d) && v == VerdictFor(qs, d, t);
      LeadsEverywhere(qs, rs, d);
      SameVerdictFor(rs, qs, d, t);
    }
    if d :| Leads(rs, d) && v == VerdictFor(rs, d, t) {
      var qs := ComesFirst(rs, d);
      assert |multiset(rs)| == |rs| && |multiset(qs)| == |qs|;
      SameVerdictFor(rs, qs, d, t);
      assert IsVerdict(replication, qs, threshold, v);
    }
  }

  /** Exactly when the whole verdict, worker lists included, is the same for every order of the results, whoever
      the workers are and however often they answer: any two digests that lead are one, or there is no quorum
      and the same workers voted for both. */
  lemma OrderFreeIff(replication: Option<int>, rs: seq<Result>, threshold: Option<int>)
    requires rs != []
    ensures var t := Threshold(Replication(replication, rs), threshold);
      OrderFree(replication, rs, threshold)
      <==> forall d, e :: Leads(rs, d) && Leads(rs, e) ==> d == e || (Votes(rs, d) < t && SameVoters(rs, d, e))
  {
    var t := Threshold(Replication(replication, rs), threshold);
    hide IsVerdict, VerdictFor, Threshold, Replication, Leads, SameVoters, Votes;
    if OrderFree(replication, rs, threshold) {
      forall d, e | Leads(rs, d) && Leads(rs, e)
        ensures d == e || (Votes(rs, d) < t && SameVoters(rs, d, e))
      {
        OneVerdictIff(rs, d, e, t);
        VerdictsOfLeaders(replication, rs, threshold, VerdictFor(rs, d, t));
        VerdictsOfLeaders(replication, rs, threshold, VerdictFor(rs, e, t));
        var ps :| multiset(ps) == multiset(rs) && IsVerdict(replication, ps, threshold, VerdictFor(rs, d, t));
        var qs :| multiset(qs) == multiset(rs) && IsVerdict(replication, qs, threshold, VerdictFor(rs, e, t));
        assert !Disagree(replication, threshold, ps, qs);
      }
    } else {
      var ps, qs :| multiset(ps) == multiset(rs) && multiset(qs) == multiset(rs)
        && Disagree(replication, threshold, ps, qs);
      var v, w :| IsVerdict(replication, ps, threshold, v) && IsVerdict(replication, qs, threshold, w) && v != w;
      VerdictsOfLeaders(replication, rs, threshold, v);
      VerdictsOfLeaders(replication, rs, threshold, w);
      var d :| Leads(rs, d) && v == VerdictFor(rs, d, t);
      var e :| Leads(rs, e) && w == VerdictFor(rs, e, t);
      OneVerdictIff(rs, d, e, t);
    }
  }

  lemma StrictLeaderIsOnly(rs: seq<Result>, d: string, e: string)
    requires StrictLeader(rs, d) && Leads(rs, e)
    ensures e == d
  {
    hide Voters;
    assert Votes(rs, d) <= Votes(rs, e);
    assert e != d ==> Votes(rs, e) < Votes(rs, d);
  }

  /** With distinct workers two leading digests never have the same voters. */
  lemma SameVotersIffLeader(rs: seq<Result>)
    requires DistinctWorkers(rs) && rs != []
    ensures (forall d, e :: Leads(rs, d) && Leads(rs, e) ==> SameVoters(rs, d, e)) <==> exists d :: StrictLeader(rs, d)
    ensures forall d, e :: Leads(rs, d) && Leads(rs, e) ==> (SameVoters(rs, d, e) <==> d == e)
  {
    forall d, e | Leads(rs, d) && Leads(rs, e)
      ensures SameVoters(rs, d, e) <==> d == e
    {
      if d != e {
        var w := VotersDiffer(rs, d, e);
      }
    }
    hide SameVoters;
    var d, e := LeaderOrTie(rs);
    if x :| StrictLeader(rs, x) {
      forall y | Leads(rs, y) ensures y == x { StrictLeaderIsOnly(rs, x, y); }
    }
  }

  /** With distinct workers that is: one digest has strictly more votes than every other. */
  lemma OrderFreeIffLeader(replication: Option<int>, rs: seq<Result>, threshold: Option<int>)
    requires DistinctWorkers(rs) && rs != []
    ensures OrderFree(replication, rs, threshold) <==> exists d :: StrictLeader(rs, d)
  {
    hide *;
    OrderFreeIff(replication, rs, threshold);
    SameVotersIffLeader(rs);
  }

  lemma OneVoteEach(w: string, x: string, y: string, d: string)
    requires x != y
    ensures Voters([Result(w, x), Result(w, y)], d) == if d == x || d == y then [w] else []
    ensures Leads([Result(w, x), Result(w, y)], d) ==> d == x || d == y
    ensures !StrictLeader([Result(w, x), Result(w, y)], d)
  {
    var rs := [Result(w, x), Result(w, y)];
    TwoVoters(rs[0], rs[1], d);
    TwoVoters(rs[0], rs[1], x);
    TwoVoters(rs[0], rs[1], y);
    hide Voters, Returned;
    assert Votes(rs, x) == 1 && Votes(rs, y) == 1;
  }

  /** Two different answers of one worker leave no strict leader, and yet one verdict for every order when there
      is no quorum: the condition with distinct workers is not the condition without. */
  lemma TwiceAnswered(replication: Option<int>, threshold: Option<int>, w: string, x: string, y: string)
    requires x != y && Threshold(Replication(replication, [Result(w, x), Result(w, y)]), threshold) > 1
    ensures var rs := [Result(w, x), Result(w, y)];
      OrderFree(replication, rs, threshold) && forall d :: !StrictLeader(rs, d)
  {
    var rs := [Result(w, x), Result(w, y)];
    OrderFreeIff(replication, rs, threshold);
    forall d
      ensures Voters(rs, d) == if d == x || d == y then [w] else []
      ensures Leads(rs, d) ==> d == x || d == y
      ensures !StrictLeader(rs, d)
    {
      OneVoteEach(w, x, y, d);
    }
    hide OrderFree, Voters, Leads, StrictLeader, Threshold, Replication;
  }

  // ----- honest and dishonest workers -----

  function Workers(rs: seq<Result>): set<string> {
    set i | 0 <= i < |rs| :: rs[i].worker
  }

  function VoterSet(rs: seq<Result>, d: string): set<string> {
    set w | w in Voters(rs, d)
  }

  ghost predicate DistinctWorkers(rs: seq<Result>) {
    forall i, j :: 0 <= i < j < |rs| ==> rs[i].worker != rs[j].worker
  }

  ghost predicate HonestAgree(rs: seq<Result>, honest: set<string>, d: string) {
    forall i :: 0 <= i < |rs| && rs[i].worker in honest ==> rs[i].digest == d
  }

  lemma {:induction false} VoterIff(rs: seq<Result>, d: string, w: string)
    ensures w in Voters(rs, d) <==> exists i :: 0 <= i < |rs| && rs[i] == Result(w, d)
  {
    if rs == [] {
    } else {
      VoterIff(rs[1..], d, w);
      if rs[0] == Result(w, d) {
      } else if w in Voters(rs[1..], d) {
        var i :| 0 <= i < |rs[1..]| && rs[1..][i] == Result(w, d);
        assert rs[i + 1] == Result(w, d);
      } else {
        forall i | 0 <= i < |rs| ensures rs[i] != Result(w, d) {
          if i > 0 { assert rs[1..][i - 1] != Result(w, d); }
        }
      }
    }
  }

  lemma {:induction false} SetOfSeq(s: seq<string>)
    ensures |set w | w in s| <= |s|
    ensures (forall i, j :: 0 <= i < j < |s| ==> s[i] != s[j]) ==> |set w | w in s| == |s|
  {
    if s == [] {
    } else {
      SetOfSeq(s[1..]);
      assert (set w | w in s) == (set w | w in s[1..]) + {s[0]};
    }
  }

  lemma {:induction false} VotersDistinct(rs: seq<Result>, d: string)
    requires DistinctWorkers(rs)
    ensures forall i, j :: 0 <= i < j < |Voters(rs, d)| ==> Voters(rs, d)[i] != Voters(rs, d)[j]
  {
    if rs == [] {
    } else {
      VotersDistinct(rs[1..], d);
      VoterIff(rs[1..], d, rs[0].worker);
    }
  }

  /** Tolerance: for n the replication factor, or the number of results if there is none, n / 2 + 1 honest workers
      that agree on d force d to be accepted by default, whatever the others return, as long as there are fewer than
      twice so many results. */
  lemma HonestMajorityForces(replication: Option<int>, n: int, rs: seq<Result>, threshold: Option<int>, v: Verdict,
    honest: set<string>, d: string)
    requires replication == Some(n) || (replication == None && n == |rs|)
    requires IsVerdict(replication, rs, threshold, v) && threshold in {None, Some(0)}
    requires |rs| < 2 * (n / 2 + 1)
    requires HonestAgree(rs, honest, d)
    requires |Workers(rs) * honest| >= n / 2 + 1
    ensures v.Verdict? && v.verified && v.accepted == Some(d)
  {
    ThresholdMeans(replication, rs, threshold, v);
    var someone :| someone in Workers(rs) * honest;
    forall w | w in Workers(rs) * honest
      ensures w in VoterSet(rs, d)
    {
      var i :| 0 <= i < |rs| && rs[i].worker == w;
      assert rs[i] == Result(w, d);
      VoterIff(rs, d, w);
    }
    SubsetSize(Workers(rs) * honest, VoterSet(rs, d));
    SetOfSeq(Voters(rs, d));
    NotReturned(rs, d);
    VerifiedIff(replication, rs, threshold, v);
    MajorityUnique(rs, v.threshold, d, v.accepted.value);
  }

  /** A digest is accepted only if a strict majority of the replication factor, in distinct
      workers, returned it. So if the honest ones agree on d and the dishonest ones are fewer than
      that, nothing but d is ever accepted. */
  lemma AcceptedNeedsMajority(replication: Option<int>, n: int, rs: seq<Result>, threshold: Option<int>, v: Verdict)
    requires replication == Some(n) || (replication == None && n == |rs|)
    requires IsVerdict(replication, rs, threshold, v) && threshold in {None, Some(0)} && DistinctWorkers(rs)
    requires v.Verdict? && v.verified
    ensures |VoterSet(rs, v.accepted.value)| >= n / 2 + 1
  {
    ThresholdMeans(replication, rs, threshold, v);
    VerifiedIff(replication, rs, threshold, v);
    VotersDistinct(rs, v.accepted.value);
    SetOfSeq(Voters(rs, v.accepted.value));
  }

  lemma DishonestMinorityCannotForge(replication: Option<int>, n: int, rs: seq<Result>, threshold: Option<int>,
    v: Verdict, honest: set<string>, d: string)
    requires replication == Some(n) || (replication == None && n == |rs|)
    requires IsVerdict(replication, rs, threshold, v) && threshold in {None, Some(0)} && DistinctWorkers(rs)
    requires HonestAgree(rs, honest, d) && |Workers(rs) - honest| <= n / 2
    ensures v.Verdict? ==> v.accepted == None || v.accepted == Some(d)
  {
    if v.Verdict? && v.verified && v.accepted != Some(d) {
      var e := v.accepted.value;
      AcceptedNeedsMajority(replication, n, rs, threshold, v);
      forall w | w in VoterSet(rs, e)
        ensures w in Workers(rs) - honest
      {
        VoterIff(rs, e, w);
        var i :| 0 <= i < |rs| && rs[i] == Result(w, e);
      }
      SubsetSize(VoterSet(rs, e), Workers(rs) - honest);
    }
  }
}
