/** The per-worker record of verified results in tools/work_unit.py, and what it adds up to. */
module Reputation {
  import opened Basics
  import opened Options
  import opened Orders
  import opened Sums
  import opened WorkUnit
  import opened Quorum

  datatype Tally = Tally(verified: nat, total: nat)

  type Book = map<string, Tally>

  function Of(book: Book, worker: string): Tally {
    if worker in book then book[worker] else Tally(0, 0)
  }

  function Bump(book: Book, worker: string, ok: bool): Book {
    var t := Of(book, worker);
    book[worker := Tally(t.verified + if ok then 1 else 0, t.total + 1)]
  }

  function Credit(book: Book, workers: seq<string>, ok: bool): Book {
    if workers == [] then book
    else Bump(Credit(book, workers[..|workers| - 1], ok), workers[|workers| - 1], ok)
  }

  /** What `record` makes of the book. */
  function Recorded(book: Book, agreed: seq<string>, disagreed: seq<string>): Book {
    Credit(Credit(book, agreed, true), disagreed, false)
  }

  /** A quotient and a remainder rounded to a whole number, half to even. */
  function RoundsTo(q: nat, r: nat, den: nat): nat {
    if 2 * r < den || (2 * r == den && q % 2 == 0) then q else q + 1
  }

  /** num / den rounded to a whole number, half to even. */
  function RoundHalfEven(num: nat, den: nat): nat
    requires den > 0
  {
    RoundsTo(num / den, num % den, den)
  }

  /** Two to the 53rd: how finely a binary double divides the numbers from a half to one. */
  const UNIT := 0x20_0000_0000_0000

  /** How finely it divides those around v / n, for v up to n: twice as finely for each halving. */
  function Grid(v: nat, n: nat): (g: nat)
    requires v > 0
    ensures g > 0
    decreases n - v
  {
    if 2 * v >= n then UNIT else 2 * Grid(2 * v, n)
  }

  /** The score in thousandths: the quotient as a double, then rounded to three decimals. */
  function ScoreOf(t: Tally): nat {
    if t.total == 0 || t.verified == 0 then 0
    else
      var g := Grid(t.verified, t.total);
      RoundHalfEven(1000 * RoundHalfEven(t.verified * g, t.total), g)
  }

  class Record {
    var book: Book

    constructor ()
      ensures book == map[]
    {
      book := map[];
    }

    /** `_r`: the worker's entry, made on first sight. */
    method Entry(worker: string) returns (t: Tally)
      modifies this
      ensures t == Of(old(book), worker) && book == old(book)[worker := t]
    {
      if worker !in book {
        book := book[worker := Tally(0, 0)];
      }
      t := book[worker];
    }

    method Add(agreed: seq<string>, disagreed: seq<string>)
      modifies this
      ensures book == Recorded(old(book), agreed, disagreed)
    {
      for i := 0 to |agreed|
        invariant book == Credit(old(book), agreed[..i], true)
      {
        assert agreed[..i + 1][..i] == agreed[..i];
        var t := Entry(agreed[i]);
        book := book[agreed[i] := Tally(t.verified + 1, t.total + 1)];
      }
      assert agreed[..|agreed|] == agreed;
      ghost var middle := book;
      for i := 0 to |disagreed|
        invariant book == Credit(middle, disagreed[..i], false)
      {
        assert disagreed[..i + 1][..i] == disagreed[..i];
        var t := Entry(disagreed[i]);
        book := book[disagreed[i] := Tally(t.verified, t.total + 1)];
      }
      assert disagreed[..|disagreed|] == disagreed;
    }

    method Score(worker: string) returns (s: nat)
      modifies this
      ensures s == ScoreOf(Of(old(book), worker))
      ensures forall w :: Of(book, w) == Of(old(book), w)
    {
      var t := Entry(worker);
      if t.total == 0 || t.verified == 0 {
        return 0;
      }
      var g := Grid(t.verified, t.total);
      var quotient := RoundHalfEven(t.verified * g, t.total);
      s := RoundHalfEven(1000 * quotient, g);
    }

    /** `minimum` is in thousandths. */
    method Trusted(worker: string, minimum: int, minSamples: int) returns (ok: bool)
      modifies this
      ensures ok <==> Of(old(book), worker).total >= minSamples && ScoreOf(Of(old(book), worker)) >= minimum
      ensures forall w :: Of(book, w) == Of(old(book), w)
    {
      var t := Entry(worker);
      ok := t.total >= minSamples;
      if ok {
        var s := Score(worker);
        ok := s >= minimum;
      }
    }

    /** Verifies a unit's results and books who agreed with the plurality, quorum or not. */
    method VerifyAndScore(replication: Option<int>, rs: seq<Result>) returns (v: Verdict)
      modifies this
      ensures Scored(old(book), replication, rs, v, book)
    {
      v := RedundantQuorum(replication, rs, None);
      if v.Verdict? {
        Add(v.agree, v.disagree);
      }
    }
  }

  ghost predicate Scored(before: Book, replication: Option<int>, rs: seq<Result>, v: Verdict, after: Book) {
    && IsVerdict(replication, rs, None, v)
    && after == if v.Verdict? then Recorded(before, v.agree, v.disagree) else before
  }

  // ----- what a record adds, worker by worker and in total -----

  /** Each mention of a worker adds one to the total, and to the verified count iff it agreed. */
  lemma {:induction false} CreditPerWorker(book: Book, workers: seq<string>, ok: bool, w: string)
    ensures var a, b := Of(book, w), Of(Credit(book, workers, ok), w);
      && b.total == a.total + multiset(workers)[w]
      && b.verified == a.verified + if ok then multiset(workers)[w] else 0
  {
    if workers == [] {
    } else {
      var n := |workers| - 1;
      CreditPerWorker(book, workers[..n], ok, w);
      assert workers == workers[..n] + [workers[n]];
    }
  }

  ghost function Totals(book: Book): int {
    Sum(map w | w in book :: book[w].total as int)
  }

  ghost function Verifieds(book: Book): int {
    Sum(map w | w in book :: book[w].verified as int)
  }

  lemma BumpTotals(book: Book, w: string, ok: bool)
    ensures Totals(Bump(book, w, ok)) == Totals(book) + 1
  {
    hide Sum;
    var b, t := Bump(book, w, ok), Of(book, w);
    var m := map x | x in book :: book[x].total as int;
    assert (map x | x in b :: b[x].total as int) == m[w := t.total + 1];
    SumUpdate(m, w, t.total + 1);
  }

  lemma BumpVerifieds(book: Book, w: string, ok: bool)
    ensures Verifieds(Bump(book, w, ok)) == Verifieds(book) + if ok then 1 else 0
  {
    hide Sum;
    var b, t := Bump(book, w, ok), Of(book, w);
    var m := map x | x in book :: book[x].verified as int;
    assert (map x | x in b :: b[x].verified as int) == m[w := t.verified + if ok then 1 else 0];
    SumUpdate(m, w, t.verified + if ok then 1 else 0);
  }

  lemma {:induction false} CreditSums(book: Book, workers: seq<string>, ok: bool)
    ensures Totals(Credit(book, workers, ok)) == Totals(book) + |workers|
    ensures Verifieds(Credit(book, workers, ok)) == Verifieds(book) + if ok then |workers| else 0
  {
    if workers == [] {
    } else {
      CreditSums(book, workers[..|workers| - 1], ok);
      BumpTotals(Credit(book, workers[..|workers| - 1], ok), workers[|workers| - 1], ok);
      BumpVerifieds(Credit(book, workers[..|workers| - 1], ok), workers[|workers| - 1], ok);
    }
  }

  // ----- whole runs -----

  datatype Job = Job(replication: Option<int>, results: seq<Result>)

  /** A run of `verify_and_score` calls from one book to another, with their verdicts. */
  ghost predicate ScoredRun(before: Book, jobs: seq<Job>, vs: seq<Verdict>, after: Book) {
    |jobs| == |vs| &&
    if jobs == [] then before == after
    else
      var n := |jobs| - 1;
      exists mid :: ScoredRun(before, jobs[..n], vs[..n], mid)
                 && Scored(mid, jobs[n].replication, jobs[n].results, vs[n], after)
  }

  function Received(jobs: seq<Job>): nat {
    if jobs == [] then 0 else Received(jobs[..|jobs| - 1]) + |jobs[|jobs| - 1].results|
  }

  /** The size of the plurality group: the most votes any digest got. */
  function PluralitySizes(vs: seq<Verdict>): nat {
    if vs == [] then 0
    else
      var v := vs[|vs| - 1];
      PluralitySizes(vs[..|vs| - 1]) + if v.Verdict? then |v.agree| else 0
  }

  lemma {:induction false} SidesSplit(rs: seq<Result>, d: string)
    ensures |Voters(rs, d)| + |Others(rs, d)| == |rs|
  {
    if rs == [] {
    } else {
      SidesSplit(rs[1..], d);
    }
  }

  /** The agreeing workers are the largest group of the results; everyone else disagrees. */
  lemma AgreeIsPlurality(replication: Option<int>, rs: seq<Result>, v: Verdict)
    requires IsVerdict(replication, rs, None, v)
    ensures v.NoResults? <==> rs == []
    ensures v.Verdict? ==> |v.agree| + |v.disagree| == |rs|
    ensures v.Verdict? ==> (forall d :: Votes(rs, d) <= |v.agree|) && exists d :: Votes(rs, d) == |v.agree|
  {
    if rs != [] {
      var d :| Wins(rs, d) && v == VerdictFor(rs, d, Threshold(Replication(replication, rs), None));
      SortStringsCorrect(Voters(rs, d));
      SortStringsCorrect(Others(rs, d));
      assert |v.agree| == |multiset(v.agree)| == |multiset(Voters(rs, d))| == |Voters(rs, d)|;
      assert |v.disagree| == |multiset(v.disagree)| == |multiset(Others(rs, d))| == |Others(rs, d)|;
      SidesSplit(rs, d);
    }
  }

  ghost predicate NeverMoreVerified(book: Book) {
    forall w :: Of(book, w).verified <= Of(book, w).total
  }

  lemma RecordKeeps(book: Book, agreed: seq<string>, disagreed: seq<string>)
    requires NeverMoreVerified(book)
    ensures NeverMoreVerified(Recorded(book, agreed, disagreed))
  {
    forall w
      ensures Of(Recorded(book, agreed, disagreed), w).verified <= Of(Recorded(book, agreed, disagreed), w).total
    {
      CreditPerWorker(book, agreed, true, w);
      CreditPerWorker(Credit(book, agreed, true), disagreed, false, w);
    }
  }

  /** Accounting over any run: no worker has more verified than total; the totals grow by exactly
      the results received and the verified counts by exactly the sizes of the plurality groups. */
  lemma {:induction false} RunAccounts(before: Book, jobs: seq<Job>, vs: seq<Verdict>, after: Book)
    requires ScoredRun(before, jobs, vs, after) && NeverMoreVerified(before)
    ensures NeverMoreVerified(after)
    ensures Totals(after) == Totals(before) + Received(jobs)
    ensures Verifieds(after) == Verifieds(before) + PluralitySizes(vs)
    decreases |jobs|
  {
    if jobs == [] {
    } else {
      var n := |jobs| - 1;
      var mid :| ScoredRun(before, jobs[..n], vs[..n], mid)
              && Scored(mid, jobs[n].replication, jobs[n].results, vs[n], after);
      RunAccounts(before, jobs[..n], vs[..n], mid);
      var v := vs[n];
      AgreeIsPlurality(jobs[n].replication, jobs[n].results, v);
      if v.Verdict? {
        RecordKeeps(mid, v.agree, v.disagree);
        CreditSums(mid, v.agree, true);
        CreditSums(Credit(mid, v.agree, true), v.disagree, false);
      }
    }
  }

  // ----- exactly when credit does not follow the order of arrival -----

  /** Some worker's tally after these two orders of the results differs. */
  ghost predicate CreditsDiffer(before: Book, replication: Option<int>, ps: seq<Result>, qs: seq<Result>) {
    exists v, w, a, b, k :: Scored(before, replication, ps, v, a) && Scored(before, replication, qs, w, b)
      && Of(a, k) != Of(b, k)
  }

  ghost predicate CreditFree(before: Book, replication: Option<int>, rs: seq<Result>) {
    forall ps, qs :: multiset(ps) == multiset(rs) && multiset(qs) == multiset(rs)
      ==> !CreditsDiffer(before, replication, ps, qs)
  }

  /** What scoring leaves of a worker's tally when this digest is the one called agreeing. */
  function TallyFor(before: Book, rs: seq<Result>, d: string, k: string): Tally {
    var t := Of(before, k);
    Tally(t.verified + multiset(Voters(rs, d))[k], t.total + multiset(AllWorkers(rs))[k])
  }

  lemma TallyOfVerdict(before: Book, rs: seq<Result>, d: string, t: int, k: string)
    ensures var v := VerdictFor(rs, d, t); Of(Recorded(before, v.agree, v.disagree), k) == TallyFor(before, rs, d, k)
  {
    SortStringsCorrect(Voters(rs, d));
    SortStringsCorrect(Others(rs, d));
    SidesMakeAll(rs, d);
    hide Voters, Others, AllWorkers, Credit, Of, SortStrings;
    var v := VerdictFor(rs, d, t);
    CreditPerWorker(before, v.agree, true, k);
    CreditPerWorker(Credit(before, v.agree, true), v.disagree, false, k);
    assert multiset(AllWorkers(rs))[k] == multiset(Voters(rs, d))[k] + multiset(Others(rs, d))[k];
  }

  /** The tallies some order of the results leads to are those of the digests that lead. */
  lemma TalliesOfLeaders(before: Book, replication: Option<int>, rs: seq<Result>, k: string, tally: Tally)
    requires rs != []
    ensures (exists qs, v, a ::
               multiset(qs) == multiset(rs) && Scored(before, replication, qs, v, a) && Of(a, k) == tally)
      <==> exists d :: Leads(rs, d) && tally == TallyFor(before, rs, d, k)
  {
    var t := Threshold(Replication(replication, rs), None);
    hide IsVerdict, Threshold, Replication, Leads, Of, Recorded, TallyFor;
    if qs, v, a :| multiset(qs) == multiset(rs) && Scored(before, replication, qs, v, a) && Of(a, k) == tally {
      VerdictsOfLeaders(replication, rs, None, v);
      var d :| Leads(rs, d) && v == VerdictFor(rs, d, t);
      TallyOfVerdict(before, rs, d, t, k);
    }
    if d :| Leads(rs, d) && tally == TallyFor(before, rs, d, k) {
      var v := VerdictFor(rs, d, t);
      VerdictsOfLeaders(replication, rs, None, v);
      TallyOfVerdict(before, rs, d, t, k);
      var qs :| multiset(qs) == multiset(rs) && IsVerdict(replication, qs, None, v);
      assert Scored(before, replication, qs, v, Recorded(before, v.agree, v.disagree));
    }
  }

  lemma SameTally(before: Book, rs: seq<Result>, d: string, e: string, k: string)
    requires SameVoters(rs, d, e)
    ensures TallyFor(before, rs, d, k) == TallyFor(before, rs, e, k)
  {
    hide Voters, Of, AllWorkers;
  }

  /** If credit does not follow the order, two leading digests have a worker as often for one as for the other. */
  lemma SameCredit(before: Book, replication: Option<int>, rs: seq<Result>, d: string, e: string, k: string)
    requires rs != [] && CreditFree(before, replication, rs) && Leads(rs, d) && Leads(rs, e)
    ensures multiset(Voters(rs, d))[k] == multiset(Voters(rs, e))[k]
  {
    var x, y := TallyFor(before, rs, d, k), TallyFor(before, rs, e, k);
    hide Scored, Leads, Of, Voters;
    TalliesOfLeaders(before, replication, rs, k, x);
    TalliesOfLeaders(before, replication, rs, k, y);
    var ps, v, a :| multiset(ps) == multiset(rs) && Scored(before, replication, ps, v, a) && Of(a, k) == x;
    var qs, w, b :| multiset(qs) == multiset(rs) && Scored(before, replication, qs, w, b) && Of(b, k) == y;
    assert !CreditsDiffer(before, replication, ps, qs);
  }

  /** If it does follow the order, two leading digests have different voters. */
  lemma DifferentCredit(before: Book, replication: Option<int>, rs: seq<Result>, ps: seq<Result>, qs: seq<Result>)
    requires rs != [] && multiset(ps) == multiset(rs) && multiset(qs) == multiset(rs)
    requires CreditsDiffer(before, replication, ps, qs)
    ensures exists d, e :: Leads(rs, d) && Leads(rs, e) && !SameVoters(rs, d, e)
  {
    var v, w, a, b, k :|
      Scored(before, replication, ps, v, a) && Scored(before, replication, qs, w, b) && Of(a, k) != Of(b, k);
    hide *;
    TalliesOfLeaders(before, replication, rs, k, Of(a, k));
    TalliesOfLeaders(before, replication, rs, k, Of(b, k));
    var d :| Leads(rs, d) && Of(a, k) == TallyFor(before, rs, d, k);
    var e :| Leads(rs, e) && Of(b, k) == TallyFor(before, rs, e, k);
    assert !SameVoters(rs, d, e) by {
      if SameVoters(rs, d, e) {
        SameTally(before, rs, d, e, k);
      }
    }
  }

  /** Exactly when what scoring a unit credits to whom is the same for every order of its results, quorum or not,
      whoever the workers are: the same workers voted for any two digests that lead. */
  lemma CreditFreeIff(before: Book, replication: Option<int>, rs: seq<Result>)
    requires rs != []
    ensures CreditFree(before, replication, rs)
      <==> forall d, e :: Leads(rs, d) && Leads(rs, e) ==> SameVoters(rs, d, e)
  {
    hide Leads, Voters, CreditsDiffer;
    if CreditFree(before, replication, rs) {
      forall d, e | Leads(rs, d) && Leads(rs, e)
        ensures SameVoters(rs, d, e)
      {
        forall k ensures multiset(Voters(rs, d))[k] == multiset(Voters(rs, e))[k] {
          SameCredit(before, replication, rs, d, e, k);
        }
      }
    } else {
      var ps, qs :| multiset(ps) == multiset(rs) && multiset(qs) == multiset(rs)
        && CreditsDiffer(before, replication, ps, qs);
      DifferentCredit(before, replication, rs, ps, qs);
    }
  }

  /** With distinct workers that is: one digest has strictly more votes than every other. */
  lemma CreditFreeIffLeader(before: Book, replication: Option<int>, rs: seq<Result>)
    requires DistinctWorkers(rs) && rs != []
    ensures CreditFree(before, replication, rs) <==> exists d :: StrictLeader(rs, d)
  {
    CreditFreeIff(before, replication, rs);
    SameVotersIffLeader(rs);
  }

  // ----- the trust threshold -----

  /** Rounding past k, for a == p + r with p standing for q * n and c for k * n. */
  lemma PastBy(a: int, n: int, k: nat, q: nat, r: nat, p: int, c: int)
    requires a == p + r && r < n
    requires (q > k ==> p >= c + n) && (q == k ==> p == c) && (q < k ==> p + n <= c)
    ensures RoundsTo(q, r, n) > k <==> 2 * a > 2 * c + n || (2 * a == 2 * c + n && k % 2 == 1)
  {
  }

  lemma StepsApart(q: nat, k: nat, n: nat)
    ensures q > k ==> q * n >= k * n + n
  {
    if q > k {
      MulMonotone(k + 1, q, n);
    }
  }

  lemma PastProducts(a: nat, n: nat, k: nat, q: nat, r: nat)
    requires a == q * n + r && r < n
    ensures RoundsTo(q, r, n) > k <==> 2 * a > 2 * (k * n) + n || (2 * a == 2 * (k * n) + n && k % 2 == 1)
  {
    hide RoundsTo;
    StepsApart(q, k, n);
    StepsApart(k, q, n);
    PastBy(a, n, k, q, r, q * n, k * n);
  }

  /** Rounding goes past k exactly beyond k and a half, or there if k is odd. */
  lemma RoundsPast(a: nat, n: nat, k: nat)
    requires n > 0
    ensures RoundHalfEven(a, n) > k <==> 2 * a > (2 * k + 1) * n || (2 * a == (2 * k + 1) * n && k % 2 == 1)
  {
    hide RoundsTo;
    PastProducts(a, n, k, a / n, a % n);
    assert (2 * k + 1) * n == 2 * (k * n) + n;
  }

  lemma {:induction false} GridIsEven(v: nat, n: nat)
    requires v > 0
    ensures Grid(v, n) % 2 == 0
    decreases n - v
  {
    if 2 * v >= n {
    } else {
      GridIsEven(2 * v, n);
    }
  }

  /** Below a half the score is at most a half. */
  lemma LowScore(v: nat, n: nat)
    requires 0 < v && 2 * v < n
    ensures ScoreOf(Tally(v, n)) <= 500
  {
    var g := Grid(v, n);
    GridIsEven(v, n);
    var m, h := RoundHalfEven(v * g, n), g / 2;
    HalfProduct(v, n, g, h);
    RoundsPast(v * g, n, h);
    RoundsPast(1000 * m, g, 500);
    hide Grid, RoundHalfEven;
  }

  lemma HalfProduct(v: nat, n: nat, g: nat, h: nat)
    requires 2 * v < n && g == 2 * h && h > 0
    ensures 2 * (v * g) < (2 * h + 1) * n
  {
    MulMonotone(2 * v, n, g);
    assert 2 * (v * g) == (2 * v) * g && (2 * h + 1) * n == n * g + n;
  }

  predicate Near(x: int, bound: int) {
    -bound <= x <= bound
  }

  /** Rounding is off by at most a half. */
  lemma RoundsNear(a: nat, n: nat)
    requires n > 0
    ensures Near(2 * (RoundHalfEven(a, n) * n - a), n)
  {
    var q, r := a / n, a % n;
    assert a == q * n + r && (q + 1) * n == q * n + n;
  }

  lemma {:induction false} GridIsFine(v: nat, n: nat)
    requires v > 0
    ensures Grid(v, n) >= UNIT
    decreases n - v
  {
    if 2 * v >= n {
    } else {
      GridIsFine(2 * v, n);
    }
  }

  lemma SameProduct(s: int, m: int, v: int, g: int, n: int)
    ensures (s * n - 1000 * v) * g == (s * g - 1000 * m) * n + 1000 * (m * n - v * g)
  {
    calc {
      (s * n - 1000 * v) * g;
      s * n * g - 1000 * v * g;
      s * g * n - 1000 * m * n + 1000 * m * n - 1000 * v * g;
      (s * g - 1000 * m) * n + 1000 * (m * n - v * g);
    }
  }

  lemma Scales(x: int, g: int, n: int)
    requires Near(x, g) && n >= 0
    ensures Near(x * n, g * n)
  {
    assert (g - x) * n >= 0 && (g + x) * n >= 0;
  }

  lemma TooFar(z: int, g: int, n: int)
    requires z > n && g >= 0
    ensures z * g >= n * g + g
  {
    var k := z - n - 1;
    assert k * g >= 0 && z * g == (n + 1 + k) * g;
    assert (n + 1 + k) * g == n * g + g + k * g;
  }

  lemma Descales(z: int, g: int, n: int)
    requires n >= 0 && g > 1000 * n && Near(z * g, g * n + 1000 * n)
    ensures Near(z, n)
  {
    if z > n {
      TooFar(z, g, n);
    } else if -z > n {
      TooFar(-z, g, n);
    }
  }

  lemma Doubles(x: int, n: int)
    ensures (2 * x) * n == 2 * (x * n)
  {
  }

  lemma NearSum(x: int, y: int, z: int, a: int, n: int)
    requires z == x + 1000 * y && Near(2 * x, a) && Near(2 * y, n)
    ensures Near(2 * z, a + 1000 * n)
  {
  }

  /** Of two roundings in a row the second is off by at most a half still, as long as the first is fine enough. */
  lemma TwoRoundings(s: int, m: int, v: int, g: int, n: int)
    requires n > 0 && g > 1000 * n
    requires Near(2 * (m * n - v * g), n) && Near(2 * (s * g - 1000 * m), g)
    ensures Near(2 * (s * n - 1000 * v), n)
  {
    var x, y, z := s * g - 1000 * m, m * n - v * g, s * n - 1000 * v;
    SameProduct(s, m, v, g, n);
    Scales(2 * x, g, n);
    Doubles(x, n);
    Doubles(z, g);
    NearSum(x * n, y, z * g, g * n, n);
    Descales(2 * z, g, n);
  }

  /** For totals up to nine million million the score is the success rate to the nearest thousandth. */
  lemma ScoreIsNearest(t: Tally)
    requires t.verified <= t.total && 0 < t.total <= 9_000_000_000_000
    ensures Near(2 * (ScoreOf(t) * t.total - 1000 * t.verified), t.total)
  {
    var v, n := t.verified, t.total;
    if v > 0 {
      var g := Grid(v, n);
      var m := RoundHalfEven(v * g, n);
      GridIsFine(v, n);
      RoundsNear(v * g, n);
      RoundsNear(1000 * m, g);
      hide Grid, RoundHalfEven, Near;
      TwoRoundings(ScoreOf(t), m, v, g, n);
    }
  }

  /** The double nearest to 0.7995, in steps of the grid: it lies below 0.7995. */
  const BELOW := 7201255804165423

  /** Halfway from there to the next double, in half steps. */
  const CUT := 2 * BELOW + 1

  lemma ScorePastCut(m: nat)
    ensures RoundHalfEven(1000 * m, UNIT) >= 800 <==> m > BELOW
  {
    RoundsPast(1000 * m, UNIT, 799);
    hide RoundHalfEven;
  }

  lemma QuotientPastCut(v: nat, n: nat)
    requires n > 0
    ensures RoundHalfEven(v * UNIT, n) > BELOW <==> 2 * UNIT * v >= CUT * n
  {
    RoundsPast(v * UNIT, n, BELOW);
    hide RoundHalfEven;
  }

  /** From a half on the score reaches 0.8 exactly at the cut. */
  lemma HighScore(v: nat, n: nat)
    requires 0 < v <= n <= 2 * v
    ensures ScoreOf(Tally(v, n)) >= 800 <==> 2 * UNIT * v >= CUT * n
  {
    hide RoundHalfEven;
    ScorePastCut(RoundHalfEven(v * UNIT, n));
    QuotientPastCut(v, n);
  }

  lemma CutIsRate(v: nat, n: nat)
    requires 0 < n <= 10_000_000_000_000
    ensures 2 * UNIT * v >= CUT * n <==> 2000 * v > 1599 * n
  {
  }

  /** With the default arguments (0.8 and 3 samples) a worker is trusted exactly when it has three samples and its
      success rate is at least halfway from the double of 0.7995 to the next one. Up to 10^13 samples that is a rate
      of more than 0.7995: the double of 1599 / 2000 lies below it and rounds to 0.799, which is not enough. */
  lemma TrustedIff(t: Tally)
    requires t.verified <= t.total
    ensures t.total >= 3 && ScoreOf(t) >= 800 <==> t.total >= 3 && 2 * UNIT * t.verified >= CUT * t.total
    ensures t.total <= 10_000_000_000_000 ==>
      (t.total >= 3 && ScoreOf(t) >= 800 <==> t.total >= 3 && 2000 * t.verified > 1599 * t.total)
  {
    var v, n := t.verified, t.total;
    if 0 < v && 2 * v < n {
      LowScore(v, n);
    } else if 0 < v {
      HighScore(v, n);
    }
    hide Grid, RoundHalfEven;
    if 0 < n <= 10_000_000_000_000 {
      CutIsRate(v, n);
    }
  }
}
