/** What the control loop keeps over whole runs: the cooldown, and the books. */
module LoopRuns {
  import opened Basics
  import opened Options
  import opened Admission
  import opened Executor
  import opened Grant
  import opened SpineSafety
  import opened ControlLoop

  function Start(book: Book): Loop {
    Loop(map[], [], [], book)
  }

  // ----- no remediation storms -----

  /** Entries for one key are at least a cooldown apart. */
  ghost predicate Spaced(ledger: seq<Entry>, cooldown: int) {
    forall i, j :: 0 <= i < j < |ledger| && ledger[i].condition.key == ledger[j].condition.key ==>
      ledger[j].at - ledger[i].at >= cooldown
  }

  function LastAt(ledger: seq<Entry>, key: Option<string>): Option<int> {
    if ledger == [] then None
    else if ledger[|ledger| - 1].condition.key == key then Some(ledger[|ledger| - 1].at)
    else LastAt(ledger[..|ledger| - 1], key)
  }

  function Find(acted: map<Option<string>, int>, key: Option<string>): Option<int> {
    if key in acted then Some(acted[key]) else None
  }

  lemma {:induction false} LastIsLatest(ledger: seq<Entry>, key: Option<string>, cooldown: int, i: nat)
    requires Spaced(ledger, cooldown) && 0 <= cooldown && i < |ledger| && ledger[i].condition.key == key
    ensures LastAt(ledger, key).Some? && ledger[i].at <= LastAt(ledger, key).value
  {
    if ledger[|ledger| - 1].condition.key == key {
    } else {
      LastIsLatest(ledger[..|ledger| - 1], key, cooldown, i);
    }
  }

  lemma {:induction false} LastIsThere(ledger: seq<Entry>, key: Option<string>) returns (i: nat)
    requires LastAt(ledger, key).Some?
    ensures i < |ledger| && ledger[i].condition.key == key && ledger[i].at == LastAt(ledger, key).value
  {
    var n := |ledger| - 1;
    if ledger[n].condition.key == key {
      i := n;
    } else {
      i := LastIsThere(ledger[..n], key);
    }
  }

  /** The cooldown map remembers, for every key, the time of the last action for it. */
  lemma {:induction false} ActedIsLast(f: Fixed, book: Book, vs: seq<Visit>, key: Option<string>)
    ensures Find(Run(f, Start(book), vs).acted, key) == LastAt(Run(f, Start(book), vs).actions, key)
  {
    hide Spine;
    if vs == [] {
    } else {
      ActedIsLast(f, book, vs[..|vs| - 1], key);
    }
  }

  // ----- what the ledger keeps of the actions -----

  function Recorded(actions: seq<Entry>): seq<Entry> {
    if actions == [] then [] else Recorded(actions[..|actions| - 1]) + Sealed(actions[|actions| - 1])
  }

  /** What the ledger has lost. */
  function Lost(actions: seq<Entry>): seq<Entry> {
    if actions == [] then []
    else
      var e := actions[|actions| - 1];
      Lost(actions[..|actions| - 1]) + if e.condition.printable then [] else [e]
  }

  lemma RecordedSnoc(actions: seq<Entry>, e: Entry)
    ensures Recorded(actions + [e]) == Recorded(actions) + Sealed(e)
  {
    assert (actions + [e])[..|actions|] == actions;
  }

  lemma StepRecords(f: Fixed, l: Loop, v: Visit)
    requires l.ledger == Recorded(l.actions)
    ensures Step(f, l, v).ledger == Recorded(Step(f, l, v).actions)
  {
    hide Spine, Recorded;
    if !CoolingDown(l.acted, v.condition.key, v.now, f.cooldown) {
      RecordedSnoc(l.actions, ReportOf(f, l, v).entry);
    }
  }

  /** The ledger holds exactly the actions whose condition can be printed, in their order. */
  lemma {:induction false} LedgerIsRecorded(f: Fixed, book: Book, vs: seq<Visit>)
    ensures Run(f, Start(book), vs).ledger == Recorded(Run(f, Start(book), vs).actions)
  {
    hide Step;
    if vs == [] {
    } else {
      LedgerIsRecorded(f, book, vs[..|vs| - 1]);
      StepRecords(f, Run(f, Start(book), vs[..|vs| - 1]), vs[|vs| - 1]);
    }
  }

  lemma {:induction false} RecordedMembers(actions: seq<Entry>)
    ensures forall e :: e in Recorded(actions) <==> e in actions && e.condition.printable
    ensures forall e :: e in Lost(actions) <==> e in actions && !e.condition.printable
  {
    if actions == [] {
    } else {
      var n := |actions| - 1;
      RecordedMembers(actions[..n]);
      assert actions == actions[..n] + [actions[n]];
    }
  }

  lemma {:induction false} SpacedRecorded(actions: seq<Entry>, cooldown: int)
    requires Spaced(actions, cooldown)
    ensures Spaced(Recorded(actions), cooldown)
  {
    if actions == [] {
    } else {
      var n := |actions| - 1;
      var e, r := actions[n], Recorded(actions[..n]);
      SpacedRecorded(actions[..n], cooldown);
      RecordedMembers(actions[..n]);
      forall i | 0 <= i < |r| && r[i].condition.key == e.condition.key
        ensures e.at - r[i].at >= cooldown
      {
        assert r[i] in r;
        var k :| 0 <= k < n && actions[..n][k] == r[i];
      }
    }
  }

  /** Whatever the clock does, two actions for one key are at least a cooldown apart, and so are two
      entries of the ledger. */
  lemma {:induction false} NeverTwiceInACooldown(f: Fixed, book: Book, vs: seq<Visit>)
    requires 0 <= f.cooldown
    ensures Spaced(Run(f, Start(book), vs).actions, f.cooldown)
    ensures Spaced(Run(f, Start(book), vs).ledger, f.cooldown)
  {
    ActionsSpaced(f, book, vs);
    LedgerIsRecorded(f, book, vs);
    SpacedRecorded(Run(f, Start(book), vs).actions, f.cooldown);
  }

  lemma {:induction false} ActionsSpaced(f: Fixed, book: Book, vs: seq<Visit>)
    requires 0 <= f.cooldown
    ensures Spaced(Run(f, Start(book), vs).actions, f.cooldown)
  {
    hide Spine;
    if vs == [] {
    } else {
      var l, v := Run(f, Start(book), vs[..|vs| - 1]), vs[|vs| - 1];
      ActionsSpaced(f, book, vs[..|vs| - 1]);
      ActedIsLast(f, book, vs[..|vs| - 1], v.condition.key);
      forall i | 0 <= i < |l.actions| && l.actions[i].condition.key == v.condition.key
        ensures v.condition.key in l.acted && l.actions[i].at <= l.acted[v.condition.key]
      {
        LastIsLatest(l.actions, v.condition.key, f.cooldown, i);
      }
      hide Run, LastAt;
    }
  }

  function CountIn(ledger: seq<Entry>, key: Option<string>, lo: int, hi: int): nat {
    if ledger == [] then 0
    else
      var e := ledger[|ledger| - 1];
      CountIn(ledger[..|ledger| - 1], key, lo, hi) + if e.condition.key == key && lo <= e.at <= hi then 1 else 0
  }

  lemma {:induction false} CountUpTo(ledger: seq<Entry>, key: Option<string>, lo: int, hi: int, last: int)
    requires last <= hi && forall i :: 0 <= i < |ledger| && ledger[i].condition.key == key ==> ledger[i].at <= last
    ensures CountIn(ledger, key, lo, hi) == CountIn(ledger, key, lo, last)
  {
    if ledger == [] {
    } else {
      CountUpTo(ledger[..|ledger| - 1], key, lo, hi, last);
    }
  }

  /** n entries spaced by the cooldown span n - 1 cooldowns. */
  lemma {:induction false} SpacedSpan(ledger: seq<Entry>, cooldown: int, key: Option<string>, lo: int, hi: int)
    requires Spaced(ledger, cooldown) && cooldown > 0 && CountIn(ledger, key, lo, hi) > 0
    ensures (CountIn(ledger, key, lo, hi) - 1) * cooldown <= hi - lo
  {
    var n := |ledger| - 1;
    var e, before := ledger[n], ledger[..n];
    if e.condition.key == key && lo <= e.at <= hi {
      CountUpTo(before, key, lo, hi, e.at - cooldown);
      var m := CountIn(before, key, lo, e.at - cooldown);
      if m == 0 {
      } else {
        SpacedSpan(before, cooldown, key, lo, e.at - cooldown);
        assert m * cooldown == (m - 1) * cooldown + cooldown;
      }
    } else {
      SpacedSpan(before, cooldown, key, lo, hi);
    }
  }

  lemma QuotientBound(n: nat, w: nat, c: int)
    requires c > 0 && n * c <= w
    ensures n <= w / c
  {
    var q := w / c;
    assert w == q * c + w % c;
    assert q * c + w % c < (q + 1) * c;
    if n > q {
      MulMonotone(q + 1, n, c);
    }
  }

  /** The rate bound: any closed window of length w holds at most floor(w / cooldown) + 1 actions for one
      key, counting repeats within a tick, remediations that failed, were denied or were blocked, and those
      the ledger lost; and no more entries of the ledger. */
  lemma RateBound(f: Fixed, book: Book, vs: seq<Visit>, key: Option<string>, lo: int, w: nat)
    requires 0 < f.cooldown
    ensures CountIn(Run(f, Start(book), vs).actions, key, lo, lo + w) <= w / f.cooldown + 1
    ensures CountIn(Run(f, Start(book), vs).ledger, key, lo, lo + w) <= w / f.cooldown + 1
  {
    NeverTwiceInACooldown(f, book, vs);
    SpacedBound(Run(f, Start(book), vs).actions, f.cooldown, key, lo, w);
    SpacedBound(Run(f, Start(book), vs).ledger, f.cooldown, key, lo, w);
  }

  lemma SpacedBound(entries: seq<Entry>, cooldown: int, key: Option<string>, lo: int, w: nat)
    requires Spaced(entries, cooldown) && 0 < cooldown
    ensures CountIn(entries, key, lo, lo + w) <= w / cooldown + 1
  {
    var n := CountIn(entries, key, lo, lo + w);
    if n > 0 {
      SpacedSpan(entries, cooldown, key, lo, lo + w);
      QuotientBound(n - 1, w, cooldown);
    }
  }

  /** A condition is acted on exactly when every action for its key so far is at least a cooldown ago,
      and is reported suppressed, with nothing changed, otherwise. */
  lemma ActedIffCooledDown(f: Fixed, book: Book, vs: seq<Visit>, v: Visit)
    requires 0 <= f.cooldown
    ensures var l := Run(f, Start(book), vs);
      && (ReportOf(f, l, v).Acted?
        <==> forall e :: e in l.actions && e.condition.key == v.condition.key ==> v.now - e.at >= f.cooldown)
      && (ReportOf(f, l, v).Acted? ==>
            && ReportOf(f, l, v).entry.condition == v.condition && ReportOf(f, l, v).entry.at == v.now
            && Step(f, l, v).actions == l.actions + [ReportOf(f, l, v).entry]
            && Step(f, l, v).ledger == l.ledger + (if v.condition.printable then [ReportOf(f, l, v).entry] else []))
      && (ReportOf(f, l, v).Suppressed? ==>
            Step(f, l, v) == l && ReportOf(f, l, v) == Suppressed(v.condition.key, v.now))
      && (Escapes(f, l, v) <==> ReportOf(f, l, v).Acted? && !v.condition.printable)
  {
    var l, key := Run(f, Start(book), vs), v.condition.key;
    NeverTwiceInACooldown(f, book, vs);
    ActedIsLast(f, book, vs, key);
    if LastAt(l.actions, key).Some? {
      var i := LastIsThere(l.actions, key);
      assert l.actions[i] in l.actions;
    }
    forall e | e in l.actions && e.condition.key == key
      ensures key in l.acted && e.at <= l.acted[key]
    {
      var i :| 0 <= i < |l.actions| && l.actions[i] == e;
      LastIsLatest(l.actions, key, f.cooldown, i);
    }
    hide Spine, Run, LastAt, Spaced;
  }

  // ----- what an entry says -----

  /** Nobody is named to act for. */
  predicate Nameless(c: Config) {
    c.admissionKey == "" && c.binding.spiffeId.None?
  }

  /** What an entry says of how acting on this visit ended, on these books: that no job could be built iff none could;
      denied, blocked or ran exactly for what the spine means by it, on behalf of the admission key or else the
      identity in the binding; and an error of whatever it was that raised first. */
  ghost predicate ActMeans(f: Fixed, book: Book, v: Visit, act: Act) {
    && (act.Unbuilt? <==> v.condition.job.None?)
    && (v.condition.job.Some? ==>
          var c, j, o := f.config, v.condition.job.value, act.outcome;
          && (Nameless(c) ==> o == Raised(MissingKey("spiffe_id")))
          && (!Nameless(c) ==>
                var key := if c.admissionKey != "" then c.admissionKey else c.binding.spiffeId.value;
                && OutcomeMeans(c, f.plan, book, v.nodes, f.ttl, j, v.moment, key, o)
                && (o.Raised? ==>
                      var d := Chosen(c, v.nodes, f.ttl, j, v.moment);
                      d.Scheduled? && ErrorMeans(c, d.backend.id, j, v.moment, o.error))))
  }

  lemma ActedMeans(f: Fixed, l: Loop, v: Visit)
    requires Matching(f.config.sign, f.config.verify)
    ensures var m := Step(f, l, v);
      m.actions == l.actions || (l.actions < m.actions && ActMeans(f, l.book, v, m.actions[|l.actions|].act))
  {
    var c := f.config;
    if v.condition.job.Some? {
      var j := v.condition.job.value;
      if Nameless(c) {
        WhoPays(c, f.plan, l.book, v.nodes, f.ttl, j, v.moment);
      } else {
        var key := if c.admissionKey != "" then c.admissionKey else c.binding.spiffeId.value;
        OutcomesMean(c, f.plan, l.book, v.nodes, f.ttl, j, v.moment, key);
        RaisesMean(c, f.plan, l.book, v.nodes, f.ttl, j, v.moment);
      }
    }
    hide Spine, OutcomeMeans, ErrorMeans, Matching, Chosen;
  }

  /** Position i of a run: held back, with nothing changed, exactly when some action for the key is less than a cooldown
      ago; otherwise acted on, with one more action that says what became of it. */
  ghost predicate Answered(f: Fixed, book: Book, vs: seq<Visit>, i: nat)
    requires i < |vs|
  {
    var l, n, v := Run(f, Start(book), vs[..i]), Run(f, Start(book), vs[..i + 1]), vs[i];
    if exists e :: e in l.actions && e.condition.key == v.condition.key && v.now - e.at < f.cooldown
    then n == l
    else
      && |n.actions| == |l.actions| + 1 && l.actions <= n.actions
      && var e := n.actions[|l.actions|];
         && e.condition == v.condition && e.at == v.now && ActMeans(f, l.book, v, e.act)
         && n.ledger == l.ledger + if v.condition.printable then [e] else []
  }

  /** Every visit of every run is answered so, and what it left is still there at the end. */
  lemma EveryVisitAnswered(f: Fixed, book: Book, vs: seq<Visit>, i: nat)
    requires i < |vs| && 0 <= f.cooldown && Matching(f.config.sign, f.config.verify)
    ensures Answered(f, book, vs, i)
    ensures Run(f, Start(book), vs[..i + 1]).actions <= Run(f, Start(book), vs).actions
  {
    var l, v := Run(f, Start(book), vs[..i]), vs[i];
    assert vs[..i + 1][..i] == vs[..i] && Run(f, Start(book), vs[..i + 1]) == Step(f, l, v);
    ActedIffCooledDown(f, book, vs[..i], v);
    ActedMeans(f, l, v);
    hide Run, ActMeans;
    ActionsGrow(f, Start(book), vs, i + 1);
  }

  lemma {:induction false} ActionsGrow(f: Fixed, l: Loop, vs: seq<Visit>, n: nat)
    requires n <= |vs|
    ensures Run(f, l, vs[..n]).actions <= Run(f, l, vs).actions
  {
    hide Spine;
    if n == |vs| {
      assert vs[..n] == vs;
    } else {
      ActionsGrow(f, l, vs[..|vs| - 1], n);
      assert vs[..|vs| - 1][..n] == vs[..n];
    }
  }

  // ----- the books -----

  /** What one entry adds to its subject's usage: nothing unless it ran. */
  function Adds(e: Entry): Usage {
    if e.RanWell() && e.condition.job.Some?
    then Usage(1, Gpus(e.condition.job.value.workload.needsGpu), e.condition.job.value.cost)
    else Usage(0, 0, 0)
  }

  function Plus(a: Usage, b: Usage): Usage {
    Usage(a.concurrent + b.concurrent, a.gpu + b.gpu, a.cost + b.cost)
  }

  function Total(ledger: seq<Entry>): Usage {
    if ledger == [] then Usage(0, 0, 0) else Plus(Total(ledger[..|ledger| - 1]), Adds(ledger[|ledger| - 1]))
  }

  /** How one visit leaves the actions and the books. */
  ghost predicate Booked(f: Fixed, l: Loop, v: Visit, key: string) {
    var m := Step(f, l, v);
    if m.actions == l.actions then m == l
    else
      && |m.actions| == |l.actions| + 1 && m.actions[..|l.actions|] == l.actions
      && var e := m.actions[|l.actions|];
         if f.config.admission && Subject(f.config) == Some(key)
         then UsageOf(m.book, key) == Plus(UsageOf(l.book, key), Adds(e)) && (e.RanWell() ==> Cleared(f, l, e, key))
         else UsageOf(m.book, key) == UsageOf(l.book, key)
  }

  /** The job an entry stands for was within quota when it started. */
  ghost predicate Cleared(f: Fixed, l: Loop, e: Entry, key: string) {
    && e.condition.job.Some?
    && Admits(f.plan, l.book, key, e.condition.job.value.workload.needsGpu, e.condition.job.value.cost)
  }

  lemma StepBooks(f: Fixed, l: Loop, v: Visit, key: string)
    ensures Booked(f, l, v, key)
  {
    hide Spine, Admits, UsageOf;
    if v.condition.job.Some? {
      OnlyRunsAreCharged(f.config, f.plan, l.book, v.nodes, f.ttl, v.condition.job.value, v.moment);
      var r := Spine(f.config, f.plan, l.book, v.nodes, f.ttl, v.condition.job.value, v.moment);
      assert UsageOf(r.book, key) == if r.outcome.Ran? && f.config.admission && Subject(f.config) == Some(key)
                                     then AfterCharge(UsageOf(l.book, key), v.condition.job.value.workload.needsGpu,
                                                      v.condition.job.value.cost)
                                     else UsageOf(l.book, key);
      hide Subject, UsageMoves;
    }
  }

  lemma TotalGrows(ledger: seq<Entry>, e: Entry)
    ensures Total(ledger + [e]) == Plus(Total(ledger), Adds(e))
  {
  }

  /** Conservation across loop, spine and quota: over any run the subject's usage has grown by exactly what
      the actions that ran add (one job each, a GPU for the GPU ones, their costs), and nobody else's moved. */
  lemma {:induction false} BooksAreTheActions(f: Fixed, book: Book, vs: seq<Visit>, key: string)
    ensures var l := Run(f, Start(book), vs);
      UsageOf(l.book, key) == if f.config.admission && Subject(f.config) == Some(key)
                              then Plus(UsageOf(book, key), Total(l.actions)) else UsageOf(book, key)
  {
    hide Step, Adds, UsageOf, Subject, Cleared;
    if vs == [] {
    } else {
      var l, v := Run(f, Start(book), vs[..|vs| - 1]), vs[|vs| - 1];
      BooksAreTheActions(f, book, vs[..|vs| - 1], key);
      StepBooks(f, l, v, key);
      var m := Step(f, l, v);
      if m.actions != l.actions {
        assert m.actions == l.actions + [m.actions[|l.actions|]];
        TotalGrows(l.actions, m.actions[|l.actions|]);
      }
      hide Total;
    }
  }

  /** The last action goes to one of the two lists. */
  lemma LastGoes(actions: seq<Entry>)
    requires actions != []
    ensures var n := |actions| - 1;
      if actions[n].condition.printable
      then Recorded(actions) == Recorded(actions[..n]) + [actions[n]] && Lost(actions) == Lost(actions[..n])
      else Recorded(actions) == Recorded(actions[..n]) && Lost(actions) == Lost(actions[..n]) + [actions[n]]
  {
    var n := |actions| - 1;
    assert Recorded(actions[..n]) + [] == Recorded(actions[..n]) && Lost(actions[..n]) + [] == Lost(actions[..n]);
  }

  lemma NothingSplits()
    ensures Total(Recorded([])) == Total(Lost([])) == Total([]) == Usage(0, 0, 0)
  {
  }

  lemma {:induction false} TotalSplits(actions: seq<Entry>)
    ensures Total(actions) == Plus(Total(Recorded(actions)), Total(Lost(actions)))
  {
    hide Recorded, Lost, Total, Adds;
    if actions == [] {
      NothingSplits();
    } else {
      var n := |actions| - 1;
      TotalSplits(actions[..n]);
      LastGoes(actions);
      assert actions == actions[..n] + [actions[n]];
      TotalGrows(actions[..n], actions[n]);
      TotalGrows(Recorded(actions[..n]), actions[n]);
      TotalGrows(Lost(actions[..n]), actions[n]);
    }
  }

  ghost predicate NoneRan(entries: seq<Entry>) {
    forall e :: e in entries ==> !e.RanWell()
  }

  ghost predicate HaveJobs(entries: seq<Entry>) {
    forall e :: e in entries && e.RanWell() ==> e.condition.job.Some?
  }

  lemma Snoc(entries: seq<Entry>)
    requires entries != []
    ensures var n := |entries| - 1;
      && (NoneRan(entries) <==> NoneRan(entries[..n]) && !entries[n].RanWell())
      && (HaveJobs(entries) <==> HaveJobs(entries[..n]) && (entries[n].RanWell() ==> entries[n].condition.job.Some?))
  {
    assert entries == entries[..|entries| - 1] + [entries[|entries| - 1]];
  }

  /** Something that ran shows in the count of jobs, and nothing else shows anywhere. */
  lemma {:induction false} NothingIffNoneRan(entries: seq<Entry>)
    requires HaveJobs(entries)
    ensures Total(entries).concurrent >= 0
    ensures NoneRan(entries) ==> Total(entries) == Usage(0, 0, 0)
    ensures Total(entries).concurrent == 0 ==> NoneRan(entries)
  {
    if entries == [] {
    } else {
      Snoc(entries);
      NothingIffNoneRan(entries[..|entries| - 1]);
      hide NoneRan, HaveJobs, Gpus;
    }
  }

  lemma {:induction false} RanHasJob(f: Fixed, book: Book, vs: seq<Visit>)
    ensures HaveJobs(Run(f, Start(book), vs).actions)
  {
    hide Spine;
    if vs == [] {
    } else {
      RanHasJob(f, book, vs[..|vs| - 1]);
    }
  }

  /** So the books are what the ledger of 'ran' entries says exactly when no remediation ran for a condition
      that cannot be printed: such a run is charged and has no entry. */
  lemma BooksAreTheLedger(f: Fixed, book: Book, vs: seq<Visit>, key: string)
    requires f.config.admission && Subject(f.config) == Some(key)
    ensures var l := Run(f, Start(book), vs);
      UsageOf(l.book, key) == Plus(UsageOf(book, key), Total(l.ledger))
      <==> forall e :: e in l.actions && e.RanWell() ==> e.condition.printable
  {
    hide Run, Total, Recorded, Lost, UsageOf, Subject;
    var actions := Run(f, Start(book), vs).actions;
    BooksAreTheActions(f, book, vs, key);
    LedgerIsRecorded(f, book, vs);
    TotalSplits(actions);
    RecordedMembers(actions);
    RanHasJob(f, book, vs);
    NothingIffNoneRan(Lost(actions));
  }

  /** With conditions that can all be printed nothing is lost and no tick raises. */
  lemma {:induction false} PrintableLosesNothing(f: Fixed, book: Book, vs: seq<Visit>)
    requires forall v :: v in vs ==> v.condition.printable
    ensures Run(f, Start(book), vs).ledger == Run(f, Start(book), vs).actions
    ensures forall n :: 0 <= n < |vs| ==> !Escapes(f, Run(f, Start(book), vs[..n]), vs[n])
  {
    hide Spine;
    if vs == [] {
    } else {
      assert forall v :: v in vs[..|vs| - 1] ==> v in vs;
      assert vs[|vs| - 1] in vs;
      PrintableLosesNothing(f, book, vs[..|vs| - 1]);
    }
  }

  lemma StepAppends(f: Fixed, l: Loop, v: Visit)
    ensures l.ledger <= Step(f, l, v).ledger
  {
  }

  /** The ledger is append-only. */
  lemma {:induction false} LedgerGrows(f: Fixed, l: Loop, vs: seq<Visit>)
    ensures l.ledger <= Run(f, l, vs).ledger
  {
    if vs == [] {
    } else {
      LedgerGrows(f, l, vs[..|vs| - 1]);
      StepAppends(f, Run(f, l, vs[..|vs| - 1]), vs[|vs| - 1]);
    }
  }

  predicate WithinQuota(plan: Plan, book: Book, key: string) {
    var u, q := UsageOf(book, key), QuotaFor(plan, key);
    u.concurrent <= q.maxConcurrent && u.gpu <= q.gpuMax && u.cost <= q.costBudget
  }

  /** Usage that starts within quota stays within quota on all three axes. */
  lemma {:induction false} QuotaHolds(f: Fixed, book: Book, vs: seq<Visit>, key: string)
    requires WithinQuota(f.plan, book, key)
    ensures WithinQuota(f.plan, Run(f, Start(book), vs).book, key)
  {
    hide Step, UsageOf, QuotaFor, Subject;
    if vs == [] {
    } else {
      var l, v := Run(f, Start(book), vs[..|vs| - 1]), vs[|vs| - 1];
      QuotaHolds(f, book, vs[..|vs| - 1], key);
      StepBooks(f, l, v, key);
    }
  }
}
