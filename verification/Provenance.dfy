/** Where every release of an app comes from, under any interleaving of webhook deliveries and rollbacks. */
module Provenance {
  import opened Options
  import opened Orders
  import opened LedgerNames
  import opened Buildpack
  import opened ReleaseLedger
  import opened Rollbacks
  import opened PushWebhook

  datatype Event = Push(delivery: Delivery) | Back(request: Request, created: string, stamp: string)

  ghost function Step(h: Host, s: Store, e: Event): Store
    requires Holds(s.files, s.names)
  {
    match e
    case Push(d) =>
      var v := Judge(h, d);
      if v.Deployed? then Put(s, v.release, d.stamp) else s
    case Back(q, created, stamp) =>
      var a := Decide(HistoryOf(s.files, s.names), q, h.mint, created);
      if a.RolledBack? then Put(s, a.head, stamp) else s
  }

  /** The directory after these events, starting from an empty one. */
  ghost function After(h: Host, es: seq<Event>): (s: Store)
    ensures Holds(s.files, s.names)
  {
    if es == [] then Store(map[], [])
    else
      var s := After(h, es[..|es| - 1]);
      StepHolds(h, s, es[|es| - 1]);
      Step(h, s, es[|es| - 1])
  }

  lemma StepHolds(h: Host, s: Store, e: Event)
    requires Holds(s.files, s.names)
    ensures var t := Step(h, s, e); Holds(t.files, t.names)
  {
    hide Holds, HistoryOf, Judge, Decide;
    match e
    case Push(d) =>
      if Judge(h, d).Deployed? {
        PutAppends(s, Judge(h, d).release, d.stamp);
      }
    case Back(q, created, stamp) =>
      var a := Decide(HistoryOf(s.files, s.names), q, h.mint, created);
      if a.RolledBack? {
        PutAppends(s, a.head, stamp);
      }
  }

  ghost function Log(h: Host, es: seq<Event>): seq<Release> {
    LogOf(After(h, es).files, After(h, es).names)
  }

  /** What an event appends. */
  ghost function Added(h: Host, es: seq<Event>, e: Event): seq<Release> {
    var s := After(h, es);
    match e
    case Push(d) => if Judge(h, d).Deployed? then [Judge(h, d).release] else []
    case Back(q, created, _) =>
      var a := Decide(HistoryOf(s.files, s.names), q, h.mint, created);
      if a.RolledBack? then [a.head] else []
  }

  lemma LogIs(h: Host, es: seq<Event>)
    ensures Log(h, es) == LogOf(After(h, es).files, After(h, es).names)
  {
  }

  lemma StepAppends(h: Host, es: seq<Event>)
    requires es != []
    ensures Log(h, es) == Log(h, es[..|es| - 1]) + Added(h, es[..|es| - 1], es[|es| - 1])
  {
    hide Holds, HistoryOf, Judge, Decide, LogOf;
    var before, e := es[..|es| - 1], es[|es| - 1];
    var s := After(h, before);
    if Added(h, before, e) == [] {
      assert Log(h, before) + [] == Log(h, before);
    } else {
      match e
      case Push(d) =>
        PutAppends(s, Judge(h, d).release, d.stamp);
      case Back(q, created, stamp) =>
        PutAppends(s, Decide(HistoryOf(s.files, s.names), q, h.mint, created).head, stamp);
    }
  }

  /** The log only grows at its end. */
  lemma {:induction false} AppendOnly(h: Host, es: seq<Event>, k: nat)
    requires k <= |es|
    ensures Log(h, es[..k]) <= Log(h, es)
  {
    hide Log, Added, After;
    if k == |es| {
      assert es[..k] == es;
    } else {
      AppendOnly(h, es[..|es| - 1], k);
      assert es[..|es| - 1][..k] == es[..k];
      StepAppends(h, es);
    }
  }

  /** A release recorded for a delivery that was accepted and built. */
  ghost predicate Delivered(h: Host, es: seq<Event>, r: Release) {
    exists k :: 0 <= k < |es| && es[k].Push? && Judge(h, es[k].delivery).Deployed?
      && Judge(h, es[k].delivery).release == r
  }

  /** Position i carries an image that position j, no later, deployed. */
  ghost predicate SameImage(log: seq<Release>, j: nat, i: nat) {
    j <= i < |log| && log[j].kind == "deploy" && log[j].digest == log[i].digest
  }

  ghost predicate Traced(h: Host, es: seq<Event>, log: seq<Release>, i: nat)
    requires i < |log|
  {
    && Ran(log[i])
    && (log[i].kind == "deploy" ==> Delivered(h, es, log[i]))
    && exists j: nat :: SameImage(log, j, i)
  }

  lemma HistoryFromLog(files: Files, names: seq<string>)
    requires Holds(files, names)
    ensures forall r :: r in HistoryOf(files, names) ==> r in LogOf(files, names)
  {
    SortedStaysIn(names);
    var sorted := SortStrings(names);
    forall r | r in HistoryOf(files, names)
      ensures r in LogOf(files, names)
    {
      var i :| 0 <= i < |sorted| && files[NewestFirst(sorted)[i]] == r;
      assert NewestFirst(sorted)[i] in sorted;
      var j :| 0 <= j < |names| && names[j] == NewestFirst(sorted)[i];
      assert LogOf(files, names)[j] == r;
    }
  }

  lemma TracedStays(h: Host, es: seq<Event>, log: seq<Release>, more: seq<Release>, e: Event, i: nat)
    requires i < |log| && Traced(h, es, log, i)
    ensures Traced(h, es + [e], log + more, i)
  {
    hide Judge, Ran;
    var j: nat :| SameImage(log, j, i);
    assert SameImage(log + more, j, i);
    if log[i].kind == "deploy" {
      var k :| 0 <= k < |es| && es[k].Push? && Judge(h, es[k].delivery).Deployed?
        && Judge(h, es[k].delivery).release == log[i];
      assert (es + [e])[k] == es[k];
    }
  }

  lemma PushTraced(h: Host, es: seq<Event>, d: Delivery, log: seq<Release>)
    requires Judge(h, d).Deployed?
    ensures Traced(h, es + [Push(d)], log + [Judge(h, d).release], |log|)
  {
    var r := Judge(h, d).release;
    assert r.status == "deployed" && r.kind == "deploy" && r.digest[0] == 's';
    hide Judge;
    assert (es + [Push(d)])[|es|] == Push(d);
    assert SameImage(log + [r], |log|, |log|);
  }

  lemma RollbackTraced(h: Host, es: seq<Event>, e: Event, log: seq<Release>, hist: seq<Release>, q: Request,
      created: string)
    requires Decide(hist, q, h.mint, created).RolledBack?
    requires forall r :: r in hist ==> r in log
    requires forall i :: 0 <= i < |log| ==> Traced(h, es, log, i)
    ensures Traced(h, es + [e], log + [Decide(hist, q, h.mint, created).head], |log|)
  {
    TargetFromHistory(hist, q, h.mint, created);
    var a := Decide(hist, q, h.mint, created);
    hide Decide, Delivered, Ran;
    assert a.target in log;
    var i :| 0 <= i < |log| && log[i] == a.target;
    assert Traced(h, es, log, i);
    var j: nat :| SameImage(log, j, i);
    assert SameImage(log + [a.head], j, |log|);
    assert a.head.kind != "deploy" by {
      assert |a.head.kind| != |"deploy"|;
    }
  }

  lemma AddedTraced(h: Host, before: seq<Event>, e: Event)
    requires Added(h, before, e) != []
    requires forall k :: 0 <= k < |Log(h, before)| ==> Traced(h, before, Log(h, before), k)
    ensures |Added(h, before, e)| == 1
    ensures Traced(h, before + [e], Log(h, before) + Added(h, before, e), |Log(h, before)|)
  {
    hide Traced, Judge, Decide, HistoryOf, LogOf, Holds, After, Log;
    match e
    case Push(d) =>
      PushTraced(h, before, d, Log(h, before));
    case Back(q, created, stamp) =>
      var s := After(h, before);
      LogIs(h, before);
      HistoryFromLog(s.files, s.names);
      RollbackTraced(h, before, e, Log(h, before), HistoryOf(s.files, s.names), q, created);
  }

  lemma NothingYet(h: Host)
    ensures Log(h, []) == []
  {
  }

  /** Provenance: under any interleaving, with any clock, every entry of the log ran, a deploy entry
      comes from a delivery that was accepted and built, and every image was deployed no later than
      the entry that carries it. */
  lemma {:induction false} EveryReleaseTraced(h: Host, es: seq<Event>)
    ensures forall i :: 0 <= i < |Log(h, es)| ==> Traced(h, es, Log(h, es), i)
    decreases |es|
  {
    hide Traced, Added, Log, After;
    if es == [] {
      NothingYet(h);
    } else {
      var before, e := es[..|es| - 1], es[|es| - 1];
      EveryReleaseTraced(h, before);
      StepAppends(h, es);
      assert es == before + [e];
      if Added(h, before, e) != [] {
        AddedTraced(h, before, e);
      }
      forall i | 0 <= i < |Log(h, before)|
        ensures Traced(h, es, Log(h, es), i)
      {
        TracedStays(h, before, Log(h, before), Added(h, before, e), e, i);
      }
    }
  }

  /** The verdict was reached on a delivery like this. */
  ghost predicate Accepted(h: Host, d: Delivery) {
    && VerifySignature(h, d.body, d.header).Open? && h.parse(d.body).Object?
    && var p := h.parse(d.body).payload;
       && ToBranch(p) && !Gone(p) && Judge(h, d).Deployed?
       && BuildPlan(Listed(h, p), p.repo + "-" + p.ref[|"refs/heads/"|..], h.hash) == Judge(h, d).build
       && var r, b := Judge(h, d).release, Judge(h, d).build;
          && r.digest == b.digest && r.image == b.image && r.workload == WorkloadName(b)
          && r.branch == p.ref[|"refs/heads/"|..]
          && r.id == h.mint(b.digest, d.created) && r.status == "deployed" && r.kind == "deploy"
          && r.rolledBackFrom.None? && r.rolledBackTo.None?
  }

  lemma DeployedMeans(h: Host, d: Delivery)
    requires Judge(h, d).Deployed?
    ensures Accepted(h, d)
  {
    var p := h.parse(d.body).payload;
    PayloadMeans(h, p);
    assert p.ref[|"refs/heads/"|..] == BranchOf(p);
    hide SourceFiles, Listed, Gone, IsDeleted, BuildPlan, VerifySignature;
  }

  /** Every release the history shows, its head above all, carries an image built for a delivery with a valid
      signature, on a branch that was not deleted, from files a buildpack matches, however many releases
      there are and in whatever order the history lists them. */
  lemma HistoryWasBuilt(h: Host, es: seq<Event>, r: Release) returns (d: Delivery)
    requires r in HistoryOf(After(h, es).files, After(h, es).names)
    ensures Push(d) in es && Accepted(h, d) && Judge(h, d).release.digest == r.digest && Ran(r)
  {
    hide Accepted, Judge, After, HistoryOf;
    var log := Log(h, es);
    HistoryFromLog(After(h, es).files, After(h, es).names);
    LogIs(h, es);
    hide Log;
    var i :| 0 <= i < |log| && log[i] == r;
    EveryReleaseTraced(h, es);
    assert Traced(h, es, log, i);
    var j: nat :| SameImage(log, j, i);
    assert Traced(h, es, log, j);
    var k :| 0 <= k < |es| && es[k].Push? && Judge(h, es[k].delivery).Deployed?
      && Judge(h, es[k].delivery).release == log[j];
    d := es[k].delivery;
    assert Push(d) == es[k];
    DeployedMeans(h, d);
  }

  /** What is serving now: the head of the history, if there is any. */
  ghost function Current(h: Host, es: seq<Event>): Option<Release> {
    var hist := HistoryOf(After(h, es).files, After(h, es).names);
    if hist == [] then None else Some(hist[0])
  }

  lemma HistoryLength(files: Files, names: seq<string>)
    requires Holds(files, names)
    ensures |HistoryOf(files, names)| == |LogOf(files, names)|
  {
    SortedStaysIn(names);
  }

  /** So what is serving, which is something as soon as anything was recorded, is never an image that was not
      built. */
  lemma ServedImageWasBuilt(h: Host, es: seq<Event>) returns (d: Delivery)
    requires Log(h, es) != []
    ensures Current(h, es).Some?
    ensures Push(d) in es && Accepted(h, d) && Judge(h, d).release.digest == Current(h, es).value.digest
  {
    hide Accepted, Judge, After, HistoryOf, LogOf;
    HistoryLength(After(h, es).files, After(h, es).names);
    d := HistoryWasBuilt(h, es, Current(h, es).value);
  }

  lemma EveryReleaseRan(h: Host, es: seq<Event>)
    ensures forall i :: 0 <= i < |Log(h, es)| ==> Ran(Log(h, es)[i])
  {
    EveryReleaseTraced(h, es);
    hide Log, Ran, Delivered, SameImage;
    forall i | 0 <= i < |Log(h, es)|
      ensures Ran(Log(h, es)[i])
    {
      assert Traced(h, es, Log(h, es), i);
    }
  }

  /** Up to the limit, history is the log backwards. */
  lemma HistoryBackwards(h: Host, es: seq<Event>)
    requires |Log(h, es)| <= LIMIT
    ensures HistoryOf(After(h, es).files, After(h, es).names) == NewestFirst(Log(h, es))
  {
    LogIs(h, es);
    hide After, HistoryOf, NewestFirst;
    HistoryIsLogBackwards(After(h, es).files, After(h, es).names);
  }

  /** And it can always be left again: on such a log one step back succeeds as soon as there are two entries,
      for as long as history is the log backwards. */
  lemma OneStepBackWorks(h: Host, es: seq<Event>, created: string)
    requires 2 <= |Log(h, es)| <= LIMIT
    ensures var s, log := After(h, es), Log(h, es);
      var a := Decide(HistoryOf(s.files, s.names), Steps(1), h.mint, created);
      Ok(a) && Serving(Appended(log, a)) == log[|log| - 2].digest
  {
    hide After, Log, HistoryOf, Decide, NewestFirst, Ran, Serving, Appended;
    HistoryBackwards(h, es);
    EveryReleaseRan(h, es);
    StepsServe(Log(h, es), 1, h.mint, created);
  }
}
