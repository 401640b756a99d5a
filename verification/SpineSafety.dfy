/** What a call of `run_spine` guarantees: the order of its effects, exactly when it runs, and what a
    run proves about the mesh. */
module SpineSafety {
  import opened Options
  import opened MeshTelemetry
  import opened ComputePlane
  import opened Admission
  import opened Grant
  import opened Executor

  // ----- the order of effects -----

  /** Before the i-th event: the subject was admitted, this backend was placed, this very grant was
      minted, and the node's check of it passed. */
  ghost predicate Earned(c: Config, j: Job, trace: seq<Event>, i: nat)
    requires i < |trace| && trace[i].Dispatched? && Subject(c).Some?
  {
    && (c.admission ==> Admitted(Subject(c).value, j.workload.needsGpu, j.cost) in trace[..i])
    && PlacedOn(trace[i].backend) in trace[..i]
    && MintedGrant(trace[i].grant) in trace[..i]
    && Checked(trace[i].grant, Active) in trace[..i]
    && forall k :: 0 <= k < |trace| && trace[k].Dispatched? ==> k == i
  }

  /** A charge is the last event, for the subject, workload and cost that were admitted, and follows a dispatch. */
  ghost predicate Owed(c: Config, j: Job, trace: seq<Event>, i: nat)
    requires i < |trace| && Subject(c).Some?
  {
    && i == |trace| - 1
    && trace[i] == Charged(Subject(c).value, j.workload.needsGpu, j.cost)
    && Admitted(Subject(c).value, j.workload.needsGpu, j.cost) in trace[..i]
    && exists k :: 0 <= k < i && trace[k].Dispatched?
  }

  /** The place of an effect in the spine. */
  function Stage(e: Event): nat {
    match e
    case Admitted(_, _, _) => 0
    case PlacedOn(_) => 1
    case MintedGrant(_) => 2
    case Checked(_, _) => 3
    case Dispatched(_, _) => 4
    case Charged(_, _, _) => 5
  }

  /** The stages come in their order, each at most once. */
  ghost predicate InOrder(trace: seq<Event>) {
    forall i, j :: 0 <= i < j < |trace| ==> Stage(trace[i]) < Stage(trace[j])
  }

  /** The one order in which effects can come, for a backend and a grant. */
  ghost predicate InPlace(c: Config, j: Job, key: string, backend: string, g: Grant, i: nat, e: Event) {
    var k := if c.admission then i - 1 else i;
    if k == -1 then e == Admitted(key, j.workload.needsGpu, j.cost)
    else if k == 0 then e == PlacedOn(backend)
    else if k == 1 then e == MintedGrant(g)
    else if k == 2 then e.Checked? && e.grant == g
    else if k == 3 then e == Dispatched(backend, g)
    else k == 4 && c.admission && e == Charged(key, j.workload.needsGpu, j.cost)
  }

  ghost predicate AllInPlace(c: Config, j: Job, key: string, backend: string, g: Grant, trace: seq<Event>) {
    forall i :: 0 <= i < |trace| ==> InPlace(c, j, key, backend, g, i, trace[i])
  }

  lemma OneMore(c: Config, j: Job, key: string, backend: string, g: Grant, trace: seq<Event>, e: Event)
    requires AllInPlace(c, j, key, backend, g, trace) && InPlace(c, j, key, backend, g, |trace|, e)
    ensures AllInPlace(c, j, key, backend, g, trace + [e]) && |trace + [e]| == |trace| + 1
  {
  }

  ghost predicate Scripted(c: Config, j: Job, r: Result, key: string, backend: string, g: Grant) {
    var n := if c.admission then 1 else 0;
    && AllInPlace(c, j, key, backend, g, r.trace)
    && (|r.trace| > n + 3 ==> r.trace[n + 2] == Checked(g, Active))
    && (r.outcome.Ran? ==> |r.trace| == 4 + 2 * n && r.outcome == Ran(backend, g.body.id))
    && (c.admission && !r.outcome.Ran? ==> |r.trace| <= 5)
    && (r.outcome.NoPlace? ==> |r.trace| <= n)
    && (r.outcome.Denied? ==> r.trace == [])
  }

  lemma ExecuteFollowsScript(c: Config, j: Job, d: Decision, g: Grant, session: string, m: Moment)
    requires d.Scheduled?
    ensures var e := Execute(c, j, d, g, session, m);
      && 1 <= |e.trace| <= 2 && e.trace[0].Checked? && e.trace[0].grant == g
      && (|e.trace| == 2 ==> e.trace == [Checked(g, Active), Dispatched(d.backend.id, g)])
      && (e.failure.None? ==> |e.trace| == 2)
      && (e.failure.Some? ==> !e.failure.value.MissingKey?)
  {
    hide VerifyGrant;
  }

  lemma DispenseFollowsScript(c: Config, j: Job, nodes: Nodes, ttl: int, m: Moment, key: string, book: Book,
      pre: seq<Event>)
    returns (backend: string, g: Grant)
    requires pre == if c.admission then [Admitted(key, j.workload.needsGpu, j.cost)] else []
    ensures Scripted(c, j, Dispense(c, j, nodes, ttl, m, key, book, pre), key, backend, g)
  {
    hide Available, Placement, Execute, Issue, Asked, AfterCharge, UsageOf;
    var d := Placement(c.table, j.workload, j.policy, Available(nodes, m.sensed, ttl));
    backend := if d.Scheduled? then d.backend.id else "";
    var issued := Issue(Asked(c, d), c.hash, c.sign, m.grantId, m.issued);
    if issued.Minted? {
      g := issued.grant;
    } else {
      g :| true;
    }
    var placed := pre + [PlacedOn(backend)];
    OneMore(c, j, key, backend, g, pre, PlacedOn(backend));
    OneMore(c, j, key, backend, g, placed, MintedGrant(g));
    if Placed(d) && issued.Minted? && c.binding.sessionId.Some? {
      var e := Execute(c, j, d, g, c.binding.sessionId.value, m);
      ExecuteFollowsScript(c, j, d, g, c.binding.sessionId.value, m);
      ExecutedInPlace(c, j, key, d, g, placed + [MintedGrant(g)], e);
    }
    hide AllInPlace, InPlace;
  }

  /** The checked and dispatched events, and a charge after them, are in their places. */
  lemma ExecutedInPlace(c: Config, j: Job, key: string, d: Decision, g: Grant, trace: seq<Event>, e: Execution)
    requires d.Scheduled? && AllInPlace(c, j, key, d.backend.id, g, trace) && |trace| == if c.admission then 3 else 2
    requires e.trace == [Checked(g, Active), Dispatched(d.backend.id, g)]
      || (|e.trace| == 1 && e.trace[0].Checked? && e.trace[0].grant == g)
    ensures AllInPlace(c, j, key, d.backend.id, g, trace + e.trace) && |trace + e.trace| == |trace| + |e.trace|
    ensures |e.trace| == 2 && c.admission ==>
      AllInPlace(c, j, key, d.backend.id, g, trace + e.trace + [Charged(key, j.workload.needsGpu, j.cost)])
    ensures |e.trace| == 2 ==> (trace + e.trace)[|trace|] == Checked(g, Active)
  {
    OneMore(c, j, key, d.backend.id, g, trace, e.trace[0]);
    if |e.trace| == 2 {
      OneMore(c, j, key, d.backend.id, g, trace + [e.trace[0]], e.trace[1]);
      assert trace + e.trace == trace + [e.trace[0]] + [e.trace[1]];
      if c.admission {
        OneMore(c, j, key, d.backend.id, g, trace + e.trace, Charged(key, j.workload.needsGpu, j.cost));
      }
    } else {
      assert trace + e.trace == trace + [e.trace[0]];
    }
  }

  /** The effects come in the order of the spine, each at most once. Nothing is dispatched that was not
      admitted, placed, granted and checked; nothing is charged but what ran, once; what found no place
      got no grant, and what was denied was not even placed. */
  lemma EffectsAreOrdered(c: Config, plan: Plan, book: Book, nodes: Nodes, ttl: int, j: Job, m: Moment)
    ensures var r := Spine(c, plan, book, nodes, ttl, j, m);
      && (r.trace != [] ==> Subject(c).Some?)
      && InOrder(r.trace)
      && (forall i :: 0 <= i < |r.trace| && r.trace[i].Dispatched? ==> Earned(c, j, r.trace, i))
      && (forall i :: 0 <= i < |r.trace| && r.trace[i].Charged? ==> Owed(c, j, r.trace, i))
      && ((exists e :: e in r.trace && e.Charged?) <==> r.outcome.Ran? && c.admission)
      && (r.outcome.Ran? ==> exists e :: e in r.trace && e.Dispatched? && r.outcome == Ran(e.backend, e.grant.body.id))
      && (r.outcome.NoPlace? ==> !exists e :: e in r.trace && e.MintedGrant?)
      && (r.outcome.Denied? ==> r.trace == [])
  {
    hide Dispense, Admits, Exceeded, QuotaFor, UsageOf;
    var r := Spine(c, plan, book, nodes, ttl, j, m);
    if Subject(c).Some? && (c.admission ==> Admits(plan, book, Subject(c).value, j.workload.needsGpu, j.cost)) {
      var key := Subject(c).value;
      var backend, g;
      if c.admission {
        backend, g := DispenseFollowsScript(c, j, nodes, ttl, m, key, book[key := UsageOf(book, key)],
                                            [Admitted(key, j.workload.needsGpu, j.cost)]);
      } else {
        backend, g := DispenseFollowsScript(c, j, nodes, ttl, m, key, book, []);
      }
      StagesInOrder(c, j, r, key, backend, g);
      ScriptIsOrdered(c, j, r, backend, g);
      assert r.outcome.Denied? ==> r.trace == [];
      hide Scripted, Earned, Owed, InOrder;
    }
  }

  lemma StagesInOrder(c: Config, j: Job, r: Result, key: string, backend: string, g: Grant)
    requires Scripted(c, j, r, key, backend, g)
    ensures InOrder(r.trace)
  {
    forall i | 0 <= i < |r.trace|
      ensures Stage(r.trace[i]) == if c.admission then i else i + 1
    {
      assert InPlace(c, j, key, backend, g, i, r.trace[i]);
    }
    hide Stage, Scripted;
  }

  lemma ScriptIsOrdered(c: Config, j: Job, r: Result, backend: string, g: Grant)
    requires Subject(c).Some? && Scripted(c, j, r, Subject(c).value, backend, g)
    ensures forall i :: 0 <= i < |r.trace| && r.trace[i].Dispatched? ==> Earned(c, j, r.trace, i)
    ensures forall i :: 0 <= i < |r.trace| && r.trace[i].Charged? ==> Owed(c, j, r.trace, i)
    ensures (exists e :: e in r.trace && e.Charged?) <==> r.outcome.Ran? && c.admission
    ensures r.outcome.Ran? ==> exists e :: e in r.trace && e.Dispatched? && r.outcome == Ran(e.backend, e.grant.body.id)
    ensures r.outcome.NoPlace? ==> !exists e :: e in r.trace && e.MintedGrant?
  {
    var n := if c.admission then 1 else 0;
    forall i | 0 <= i < |r.trace| && r.trace[i].Dispatched?
      ensures Earned(c, j, r.trace, i)
    {
      assert i == n + 3;
      assert r.trace[..i][n] == r.trace[n] && r.trace[..i][n + 1] == r.trace[n + 1]
        && r.trace[..i][n + 2] == r.trace[n + 2];
      assert c.admission ==> r.trace[..i][0] == r.trace[0];
    }
    forall i | 0 <= i < |r.trace| && r.trace[i].Charged?
      ensures Owed(c, j, r.trace, i)
    {
      assert i == 5 && r.trace[..i][0] == r.trace[0] && r.trace[4].Dispatched?;
    }
    if r.outcome.Ran? {
      assert r.trace[n + 3] in r.trace;
      assert c.admission ==> r.trace[5] in r.trace;
    }
  }

  // ----- exactly when a call runs -----

  /** The chosen backend for this job on this mesh. */
  ghost function Chosen(c: Config, nodes: Nodes, ttl: int, j: Job, m: Moment): Decision {
    Placement(c.table, j.workload, j.policy, Available(nodes, m.sensed, ttl))
  }

  /** With matching keys, a call ends in 'ran' exactly when: the subject is known, any quota admits
      it, a (named) backend fits, the attestation holds, no quorum is demanded, the binding has a
      session, the check comes no later than the truncated expiry, the effect is the granted one or
      absent, an adapter is registered for the chosen backend, and its dispatch returns. */
  lemma RunsIff(c: Config, plan: Plan, book: Book, nodes: Nodes, ttl: int, j: Job, m: Moment)
    requires Matching(c.sign, c.verify)
    ensures Spine(c, plan, book, nodes, ttl, j, m).outcome.Ran?
      <==> && Subject(c).Some?
           && (c.admission ==> Admits(plan, book, Subject(c).value, j.workload.needsGpu, j.cost))
           && Placed(Chosen(c, nodes, ttl, j, m))
           && Attested(c.attestation)
           && !c.constraints.requireQuorum
           && c.binding.sessionId.Some?
           && m.checked <= Iso(m.issued + DEFAULT_TTL)
           && (j.workload.effect.Some? ==> j.workload.effect == c.capability.effect)
           && Chosen(c, nodes, ttl, j, m).backend.id in c.adapters
           && m.dispatchReturns
  {
    hide Admits, Placement, Available, Issue, VerifyGrant, Iso, Matching, Dispense, Execute, AfterCharge, UsageOf;
    if Subject(c).Some? {
      var key := Subject(c).value;
      GrantedIff(c, Chosen(c, nodes, ttl, j, m), j, m);
      if c.admission {
        DispenseRunsIff(c, j, nodes, ttl, m, key, book[key := UsageOf(book, key)],
          [Admitted(key, j.workload.needsGpu, j.cost)]);
      } else {
        DispenseRunsIff(c, j, nodes, ttl, m, key, book, []);
      }
    }
  }

  /** The grant and the gate, for what the spine asks of them. */
  ghost predicate Granted(c: Config, d: Decision, j: Job, m: Moment) {
    var issued := Issue(Asked(c, d), c.hash, c.sign, m.grantId, m.issued);
    && issued.Minted? && c.binding.sessionId.Some?
    && VerifyGrant(issued.grant, c.binding.sessionId.value, c.verify, j.workload.effect, None, m.checked).valid
  }

  lemma GrantedIff(c: Config, d: Decision, j: Job, m: Moment)
    requires Matching(c.sign, c.verify)
    ensures Granted(c, d, j, m)
      <==> && Attested(c.attestation) && Placed(d) && !c.constraints.requireQuorum && c.binding.sessionId.Some?
           && m.checked <= Iso(m.issued + DEFAULT_TTL)
           && (j.workload.effect.Some? ==> j.workload.effect == c.capability.effect)
  {
    var q := Asked(c, d);
    MintedIff(q, c.hash, c.sign, m.grantId, m.issued);
    if Issue(q, c.hash, c.sign, m.grantId, m.issued).Minted? && c.binding.sessionId.Some? {
      FreshGrantVerifies(q, c.hash, c.sign, c.verify, m.grantId, m.issued, c.binding.sessionId.value,
        j.workload.effect, None, m.checked);
    }
    hide Issue, VerifyGrant, Iso, Matching;
  }

  lemma DispenseRunsIff(c: Config, j: Job, nodes: Nodes, ttl: int, m: Moment, key: string, book: Book, pre: seq<Event>)
    ensures var d := Chosen(c, nodes, ttl, j, m);
      Dispense(c, j, nodes, ttl, m, key, book, pre).outcome.Ran?
      <==> Placed(d) && Granted(c, d, j, m) && d.backend.id in c.adapters && m.dispatchReturns
  {
    hide Placement, Available, Issue, VerifyGrant, Asked, AfterCharge, UsageOf;
  }

  /** Which calls end before any grant: those whose quota is exceeded, and those no (named) backend fits. */
  lemma StoppedIff(c: Config, plan: Plan, book: Book, nodes: Nodes, ttl: int, j: Job, m: Moment)
    ensures var r := Spine(c, plan, book, nodes, ttl, j, m);
      var over := c.admission && Subject(c).Some? && !Admits(plan, book, Subject(c).value, j.workload.needsGpu, j.cost);
      && (r.outcome.Denied? <==> over)
      && (r.outcome.NoPlace? <==> Subject(c).Some? && !over && !Placed(Chosen(c, nodes, ttl, j, m)))
      && (r.outcome == Raised(MissingKey("spiffe_id")) <==> Subject(c).None?)
  {
    hide Available, Admits, Exceeded, QuotaFor, Dispense, Placed, Chosen;
    if Subject(c).Some? {
      var key := Subject(c).value;
      if c.admission {
        DispenseStops(c, j, nodes, ttl, m, key, book[key := UsageOf(book, key)],
          [Admitted(key, j.workload.needsGpu, j.cost)]);
      } else {
        DispenseStops(c, j, nodes, ttl, m, key, book, []);
      }
    }
  }

  lemma DispenseStops(c: Config, j: Job, nodes: Nodes, ttl: int, m: Moment, key: string, book: Book, pre: seq<Event>)
    ensures var o := Dispense(c, j, nodes, ttl, m, key, book, pre).outcome;
      !o.Denied? && (o.NoPlace? <==> !Placed(Chosen(c, nodes, ttl, j, m))) && o != Raised(MissingKey("spiffe_id"))
  {
    hide Placement, Available, Issue, VerifyGrant, Execute, Asked, AfterCharge, UsageOf;
    assert "spiffe_id"[1] != "session_id"[1];
    var d := Chosen(c, nodes, ttl, j, m);
    var issued := Issue(Asked(c, d), c.hash, c.sign, m.grantId, m.issued);
    if d.Scheduled? && issued.Minted? && c.binding.sessionId.Some? {
      ExecuteFollowsScript(c, j, d, issued.grant, c.binding.sessionId.value, m);
    }
  }

  /** Checking no later than the lifetime minus a second after issue is always in time. */
  lemma InTime(m: Moment)
    requires m.checked <= m.issued + DEFAULT_TTL - SECOND
    ensures m.checked <= Iso(m.issued + DEFAULT_TTL)
  {
  }

  // ----- what a run proves about the mesh, and what it costs -----

  lemma RunsWhereChosen(c: Config, plan: Plan, book: Book, nodes: Nodes, ttl: int, j: Job, m: Moment)
    requires Spine(c, plan, book, nodes, ttl, j, m).outcome.Ran?
    ensures var d := Chosen(c, nodes, ttl, j, m);
      Placed(d) && d.backend.id in c.adapters && d.backend.id == Spine(c, plan, book, nodes, ttl, j, m).outcome.backend
  {
    hide Placement, Available, Admits, VerifyGrant, Issue;
  }

  /** The adapters registered by default leave one built-in backend out: a call placed on k3s-edge is denied
      or raises, whatever the keys. */
  lemma EdgeNeverRuns(c: Config, plan: Plan, book: Book, nodes: Nodes, ttl: int, j: Job, m: Moment)
    requires c.adapters == DEFAULT_ADAPTERS
    requires Placed(Chosen(c, nodes, ttl, j, m)) && Chosen(c, nodes, ttl, j, m).backend.id == "k3s-edge"
    ensures var o := Spine(c, plan, book, nodes, ttl, j, m).outcome; o.Denied? || o.Raised?
  {
    assert "k3s-edge" !in DEFAULT_ADAPTERS by {
      assert "k3s-edge"[1] == '3';
      assert "connector"[1] != '3' && "wasm-edge"[1] != '3' && "hpc-slurm"[1] != '3' && "p2p-mesh"[1] != '3';
      assert "local"[1] != '3' && "k8s"[1] != '3' && "volunteer-boinc"[1] != '3' && "blockchain-rlc"[1] != '3';
    }
    StoppedIff(c, plan, book, nodes, ttl, j, m);
    hide Spine, Chosen, Placed;
    if Spine(c, plan, book, nodes, ttl, j, m).outcome.Ran? {
      RunsWhereChosen(c, plan, book, nodes, ttl, j, m);
    }
  }

  /** Some node of the backend sent its last heartbeat no longer than the TTL ago and announced a positive capacity. */
  ghost predicate Backed(beats: seq<Beat>, backend: string, now: int, ttl: int) {
    exists i: nat :: i < |beats| && Latest(beats, i) && beats[i].node.backend == backend && beats[i].node.capacity > 0
                     && now - beats[i].node.beat <= ttl
  }

  /** Every placement scheduled on the live mesh, whether or not it is then granted and run, is on a backend
      of the table that meets every hard constraint and is backed by a fresh heartbeat. */
  lemma PlacementIsLive(table: seq<Backend>, w: Workload, p: Policy, beats: seq<Beat>, now: int, ttl: int)
    ensures var avail := Available(After(beats), now, ttl);
      var d := Placement(table, w, p, avail);
      d.Scheduled? ==> d.backend in table && Fits(d.backend, w, p, avail) && Backed(beats, d.backend.id, now, ttl)
  {
    var avail := Available(After(beats), now, ttl);
    var d := Placement(table, w, p, avail);
    PlacementMeans(table, w, p, avail);
    if d.Scheduled? {
      LooksUpFree(After(beats), now, ttl, d.backend.id);
      var i := CapacityIsBacked(beats, d.backend.id, now, ttl);
    }
  }

  /** So whatever ran, ran on such a backend, with an adapter registered, and never an untrusted one for
      sensitive work the policy keeps off them. */
  lemma RanOnLiveTrustedBackend(c: Config, plan: Plan, book: Book, beats: seq<Beat>, ttl: int, j: Job, m: Moment)
    ensures var o, d := Spine(c, plan, book, After(beats), ttl, j, m).outcome, Chosen(c, After(beats), ttl, j, m);
      o.Ran? ==>
        && d.Scheduled? && d.backend.id == o.backend && d.backend in c.table && d.backend.id in c.adapters
        && Fits(d.backend, j.workload, j.policy, Available(After(beats), m.sensed, ttl))
        && (j.workload.sensitivity == "sensitive" && j.policy.forbidUntrusted ==> d.backend.trusted)
        && Backed(beats, o.backend, m.sensed, ttl)
  {
    hide Spine, Placement, Available, Backed;
    if Spine(c, plan, book, After(beats), ttl, j, m).outcome.Ran? {
      RunsWhereChosen(c, plan, book, After(beats), ttl, j, m);
      PlacementIsLive(c.table, j.workload, j.policy, beats, m.sensed, ttl);
    }
  }

  /** Every subject's usage moves by exactly the charge of a run, and by nothing for any other outcome. */
  ghost predicate UsageMoves(c: Config, before: Book, j: Job, r: Result) {
    forall k :: UsageOf(r.book, k) ==
      if r.outcome.Ran? && c.admission && Subject(c) == Some(k)
      then AfterCharge(UsageOf(before, k), j.workload.needsGpu, j.cost)
      else UsageOf(before, k)
  }

  lemma OnlyRunsAreCharged(c: Config, plan: Plan, book: Book, nodes: Nodes, ttl: int, j: Job, m: Moment)
    ensures UsageMoves(c, book, j, Spine(c, plan, book, nodes, ttl, j, m))
    ensures var r := Spine(c, plan, book, nodes, ttl, j, m);
      r.outcome.Ran? && c.admission ==>
        Subject(c).Some? && Admits(plan, book, Subject(c).value, j.workload.needsGpu, j.cost)
  {
    hide Placement, Available, Admits, Execute, Issue, Exceeded, QuotaFor, AfterCharge;
  }

  // ----- who is asked for, and who pays -----

  /** One more job of this kind takes the subject over one of its three limits. */
  ghost predicate OverQuota(plan: Plan, book: Book, key: string, w: Workload, cost: int) {
    var q, u := QuotaFor(plan, key), UsageOf(book, key);
    || u.concurrent + 1 > q.maxConcurrent
    || u.gpu + (if w.needsGpu then 1 else 0) > q.gpuMax
    || u.cost + cost > q.costBudget
  }

  /** These are the limits it takes the subject over. */
  ghost predicate Overruns(plan: Plan, book: Book, key: string, w: Workload, cost: int, axes: seq<Axis>) {
    var q, u := QuotaFor(plan, key), UsageOf(book, key);
    && (MaxConcurrent in axes <==> u.concurrent + 1 > q.maxConcurrent)
    && (GpuMax in axes <==> u.gpu + (if w.needsGpu then 1 else 0) > q.gpuMax)
    && (CostBudget in axes <==> u.cost + cost > q.costBudget)
  }

  /** This subject's quota decides whether the call is denied, and nobody's usage but this subject's moves: by one
      job, its GPU and its cost if the call ran, and not at all otherwise. */
  ghost predicate Pays(plan: Plan, book: Book, key: string, j: Job, r: Result) {
    && (r.outcome.Denied? <==> OverQuota(plan, book, key, j.workload, j.cost))
    && (r.outcome.Denied? ==> Overruns(plan, book, key, j.workload, j.cost, r.outcome.exceeded))
    && (forall k :: k != key ==> UsageOf(r.book, k) == UsageOf(book, k))
    && var u := UsageOf(book, key);
       UsageOf(r.book, key)
       == if r.outcome.Ran?
          then Usage(u.concurrent + 1, u.gpu + (if j.workload.needsGpu then 1 else 0), u.cost + j.cost)
          else u
  }

  ghost predicate NobodyPays(book: Book, r: Result) {
    forall k :: UsageOf(r.book, k) == UsageOf(book, k)
  }

  lemma AdmitsUnlessOver(plan: Plan, book: Book, key: string, w: Workload, cost: int)
    ensures Admits(plan, book, key, w.needsGpu, cost) <==> !OverQuota(plan, book, key, w, cost)
    ensures var q, u := QuotaFor(plan, key), UsageOf(book, key);
      Overruns(plan, book, key, w, cost, Exceeded(q, u, w.needsGpu, cost))
  {
    ExceededExactly(QuotaFor(plan, key), UsageOf(book, key), w.needsGpu, cost);
    hide QuotaFor, Exceeded, UsageOf;
  }

  lemma DeniedLists(c: Config, plan: Plan, book: Book, nodes: Nodes, ttl: int, j: Job, m: Moment)
    requires c.admission && Subject(c).Some?
    ensures var o, key := Spine(c, plan, book, nodes, ttl, j, m).outcome, Subject(c).value;
      o.Denied? ==> o.exceeded == Exceeded(QuotaFor(plan, key), UsageOf(book, key), j.workload.needsGpu, j.cost)
  {
    hide Dispense, Exceeded, QuotaFor, Admits, UsageOf, Subject;
    var key := Subject(c).value;
    DispenseStops(c, j, nodes, ttl, m, key, book[key := UsageOf(book, key)],
      [Admitted(key, j.workload.needsGpu, j.cost)]);
  }

  lemma SubjectPays(c: Config, plan: Plan, book: Book, nodes: Nodes, ttl: int, j: Job, m: Moment)
    requires c.admission && Subject(c).Some?
    ensures Pays(plan, book, Subject(c).value, j, Spine(c, plan, book, nodes, ttl, j, m))
  {
    hide Spine, UsageOf, QuotaFor, Exceeded, Admits, OverQuota, Overruns, Subject;
    AdmitsUnlessOver(plan, book, Subject(c).value, j.workload, j.cost);
    StoppedIff(c, plan, book, nodes, ttl, j, m);
    OnlyRunsAreCharged(c, plan, book, nodes, ttl, j, m);
    DeniedLists(c, plan, book, nodes, ttl, j, m);
  }

  /** A non-empty admission key is the subject; with an empty one it is the identity in the binding; with neither
      the call raises, and nobody pays. Without a quota controller nobody is denied and nobody pays. */
  lemma WhoPays(c: Config, plan: Plan, book: Book, nodes: Nodes, ttl: int, j: Job, m: Moment)
    ensures var r := Spine(c, plan, book, nodes, ttl, j, m);
      && (c.admission && c.admissionKey != "" ==> Pays(plan, book, c.admissionKey, j, r))
      && (c.admission && c.admissionKey == "" && c.binding.spiffeId.Some? ==>
            Pays(plan, book, c.binding.spiffeId.value, j, r))
      && (c.admissionKey == "" && c.binding.spiffeId.None? ==>
            r.outcome == Raised(MissingKey("spiffe_id")) && NobodyPays(book, r))
      && (!c.admission ==> !r.outcome.Denied? && NobodyPays(book, r))
  {
    hide Spine, Pays, UsageOf, Admits;
    if c.admission && Subject(c).Some? {
      SubjectPays(c, plan, book, nodes, ttl, j, m);
    } else {
      StoppedIff(c, plan, book, nodes, ttl, j, m);
      OnlyRunsAreCharged(c, plan, book, nodes, ttl, j, m);
    }
  }

  // ----- what every outcome means -----

  /** Nothing in the table fits the workload on the mesh as it is then. */
  ghost predicate NothingFits(c: Config, nodes: Nodes, ttl: int, j: Job, m: Moment) {
    forall b :: b in c.table ==> !Fits(b, j.workload, j.policy, Available(nodes, m.sensed, ttl))
  }

  /** Everything after placement goes well: the attestation holds and no quorum is demanded, the session is known,
      the check comes no later than the truncated expiry and for the granted effect, and the adapter is there and
      returns. */
  ghost predicate GoesWell(c: Config, backend: string, j: Job, m: Moment) {
    && c.attestation.results.tpmValid && c.attestation.results.cosignValid && !c.constraints.requireQuorum
    && c.binding.sessionId.Some?
    && m.checked <= m.issued + 900_000_000 - (m.issued + 900_000_000) % 1_000_000
    && (j.workload.effect.Some? ==> j.workload.effect == c.capability.effect)
    && backend in c.adapters && m.dispatchReturns
  }

  ghost predicate NoNamedBackend(c: Config, nodes: Nodes, ttl: int, j: Job, m: Moment) {
    var d := Chosen(c, nodes, ttl, j, m);
    NothingFits(c, nodes, ttl, j, m) || (d.Scheduled? && d.backend.id == "")
  }

  /** The call ran on the chosen backend, which fits, under the grant drawn for it. */
  ghost predicate RanAsChosen(c: Config, nodes: Nodes, ttl: int, j: Job, m: Moment, o: Outcome) {
    var d := Chosen(c, nodes, ttl, j, m);
    && d.Scheduled? && o == Ran(d.backend.id, m.grantId)
    && d.backend in c.table && Fits(d.backend, j.workload, j.policy, Available(nodes, m.sensed, ttl))
  }

  /** What an outcome means for a call on behalf of this subject: denied iff its quota refuses the job, over exactly the
      limits listed; blocked iff it is not denied and no backend fits, or the one chosen has no name; ran iff it is
      neither and all goes well; and anything else has raised. */
  ghost predicate OutcomeMeans(c: Config, plan: Plan, book: Book, nodes: Nodes, ttl: int, j: Job, m: Moment,
      key: string, o: Outcome)
  {
    var d := Chosen(c, nodes, ttl, j, m);
    var over := c.admission && OverQuota(plan, book, key, j.workload, j.cost);
    var blocked := NoNamedBackend(c, nodes, ttl, j, m);
    && (o.Denied? <==> over)
    && (o.Denied? ==> Overruns(plan, book, key, j.workload, j.cost, o.exceeded))
    && (o.NoPlace? <==> !over && blocked)
    && (o.NoPlace? ==> o.decision == d)
    && (o.Ran? <==> !over && !blocked && d.Scheduled? && GoesWell(c, d.backend.id, j, m))
    && (o.Ran? ==> RanAsChosen(c, nodes, ttl, j, m, o))
  }

  /** A call that is not stopped at its quota is what is dispensed on books that may hold a new record, after the
      admission if there is one. */
  lemma SpineDispenses(c: Config, plan: Plan, book: Book, nodes: Nodes, ttl: int, j: Job, m: Moment)
    returns (key: string, seen: Book, pre: seq<Event>)
    requires var o := Spine(c, plan, book, nodes, ttl, j, m).outcome;
      Subject(c).Some? && !o.Denied?
    ensures Spine(c, plan, book, nodes, ttl, j, m) == Dispense(c, j, nodes, ttl, m, key, seen, pre)
    ensures pre == [] || exists e :: pre == [e] && e.Admitted?
  {
    hide Dispense, Admits, Exceeded, QuotaFor, UsageOf;
    key := Subject(c).value;
    if c.admission {
      seen, pre := book[key := UsageOf(book, key)], [Admitted(key, j.workload.needsGpu, j.cost)];
    } else {
      seen, pre := book, [];
    }
  }

  lemma RanUnderItsGrant(c: Config, plan: Plan, book: Book, nodes: Nodes, ttl: int, j: Job, m: Moment)
    ensures var o := Spine(c, plan, book, nodes, ttl, j, m).outcome;
      && (o.Ran? ==> o.grantId == m.grantId)
      && (o.NoPlace? ==> o.decision == Chosen(c, nodes, ttl, j, m))
  {
    hide Spine, Dispense, Chosen;
    StoppedIff(c, plan, book, nodes, ttl, j, m);
    if Subject(c).Some? && !Spine(c, plan, book, nodes, ttl, j, m).outcome.Denied? {
      var key, seen, pre := SpineDispenses(c, plan, book, nodes, ttl, j, m);
      DispensedUnderItsGrant(c, j, nodes, ttl, m, key, seen, pre);
    }
  }

  lemma DispensedUnderItsGrant(c: Config, j: Job, nodes: Nodes, ttl: int, m: Moment, key: string, book: Book,
      pre: seq<Event>)
    ensures var o := Dispense(c, j, nodes, ttl, m, key, book, pre).outcome;
      && (o.Ran? ==> o.grantId == m.grantId)
      && (o.NoPlace? ==> o.decision == Chosen(c, nodes, ttl, j, m))
  {
    hide Placement, Available, Issue, Execute, Asked, AfterCharge, UsageOf;
    var d := Placement(c.table, j.workload, j.policy, Available(nodes, m.sensed, ttl));
    if Issue(Asked(c, d), c.hash, c.sign, m.grantId, m.issued).Minted? {
      MintedCarries(Asked(c, d), c.hash, c.sign, m.grantId, m.issued);
    }
  }

  lemma PlacedUnlessBlocked(c: Config, nodes: Nodes, ttl: int, j: Job, m: Moment)
    ensures Placed(Chosen(c, nodes, ttl, j, m)) <==> !NoNamedBackend(c, nodes, ttl, j, m)
    ensures var d := Chosen(c, nodes, ttl, j, m);
      d.Scheduled? ==>
        d.backend in c.table && Fits(d.backend, j.workload, j.policy, Available(nodes, m.sensed, ttl))
  {
    PlacementMeans(c.table, j.workload, j.policy, Available(nodes, m.sensed, ttl));
    hide Placement, Available, Fits;
  }

  lemma RunsIfWell(c: Config, plan: Plan, book: Book, nodes: Nodes, ttl: int, j: Job, m: Moment, key: string)
    requires Matching(c.sign, c.verify)
    requires if c.admissionKey != "" then key == c.admissionKey else c.binding.spiffeId == Some(key)
    ensures var d := Chosen(c, nodes, ttl, j, m);
      Spine(c, plan, book, nodes, ttl, j, m).outcome.Ran?
      <==> && (c.admission ==> Admits(plan, book, key, j.workload.needsGpu, j.cost))
           && Placed(d) && GoesWell(c, d.backend.id, j, m)
  {
    hide Spine, Matching, Chosen, Admits, Placed;
    RunsIff(c, plan, book, nodes, ttl, j, m);
  }

  lemma EndsEarly(c: Config, plan: Plan, book: Book, nodes: Nodes, ttl: int, j: Job, m: Moment, key: string)
    requires if c.admissionKey != "" then key == c.admissionKey else c.binding.spiffeId == Some(key)
    ensures var o := Spine(c, plan, book, nodes, ttl, j, m).outcome;
      var over := c.admission && OverQuota(plan, book, key, j.workload, j.cost);
      && (o.Denied? <==> over)
      && (o.Denied? ==> Overruns(plan, book, key, j.workload, j.cost, o.exceeded))
      && (o.NoPlace? <==> !over && !Placed(Chosen(c, nodes, ttl, j, m)))
  {
    StoppedIff(c, plan, book, nodes, ttl, j, m);
    WhoPays(c, plan, book, nodes, ttl, j, m);
    AdmitsUnlessOver(plan, book, key, j.workload, j.cost);
    hide Spine, Chosen, Placed, Admits, OverQuota, Overruns, UsageOf, QuotaFor;
  }

  lemma OutcomesMean(c: Config, plan: Plan, book: Book, nodes: Nodes, ttl: int, j: Job, m: Moment, key: string)
    requires Matching(c.sign, c.verify)
    requires if c.admissionKey != "" then key == c.admissionKey else c.binding.spiffeId == Some(key)
    ensures OutcomeMeans(c, plan, book, nodes, ttl, j, m, key, Spine(c, plan, book, nodes, ttl, j, m).outcome)
  {
    hide Spine, Chosen, Placed, Admits, OverQuota, Overruns, Matching, NoNamedBackend, GoesWell, Fits, Available;
    AdmitsUnlessOver(plan, book, key, j.workload, j.cost);
    EndsEarly(c, plan, book, nodes, ttl, j, m, key);
    RunsIfWell(c, plan, book, nodes, ttl, j, m, key);
    PlacedUnlessBlocked(c, nodes, ttl, j, m);
    RanUnderItsGrant(c, plan, book, nodes, ttl, j, m);
    PlacedIsScheduled(Chosen(c, nodes, ttl, j, m));
    if Spine(c, plan, book, nodes, ttl, j, m).outcome.Ran? {
      RunsWhereChosen(c, plan, book, nodes, ttl, j, m);
    }
  }

  lemma PlacedIsScheduled(d: Decision)
    ensures Placed(d) ==> d.Scheduled?
  {
  }

  // ----- what every exception means -----

  /** What the node finds wrong with a fresh grant of the spine's own, shown for its own session. */
  lemma FreshFinding(c: Config, d: Decision, session: string, effect: Option<string>, m: Moment)
    requires Matching(c.sign, c.verify) && c.binding.sessionId == Some(session)
    requires Issue(Asked(c, d), c.hash, c.sign, m.grantId, m.issued).Minted?
    ensures var g := Issue(Asked(c, d), c.hash, c.sign, m.grantId, m.issued).grant;
      VerifyGrant(g, session, c.verify, effect, None, m.checked).finding
      == if m.checked > Iso(m.issued + DEFAULT_TTL) then Expired
         else if effect.Some? && effect != c.capability.effect then EffectNotGranted
         else Active
  {
    var q := Asked(c, d);
    var g := Issue(q, c.hash, c.sign, m.grantId, m.issued).grant;
    assert g.sig == c.sign(g.body);
    MintedCarries(q, c.hash, c.sign, m.grantId, m.issued);
    FindingMeans(g, session, c.verify, effect, None, m.checked);
    hide Issue, VerifyGrant, Iso;
  }

  /** The call is not denied and a named backend fits, but granting, checking or dispatching raises: this error is
      about the first of the steps, in their order, that does not go well. */
  ghost predicate ErrorMeans(c: Config, backend: string, j: Job, m: Moment, e: Error) {
    var attested := c.attestation.results.tpmValid && c.attestation.results.cosignValid;
    var granted := attested && !c.constraints.requireQuorum;
    var known := granted && c.binding.sessionId.Some?;
    var inTime := known && m.checked <= m.issued + 900_000_000 - (m.issued + 900_000_000) % 1_000_000;
    var within := inTime && (j.workload.effect == None || j.workload.effect == c.capability.effect);
    var adapted := within && backend in c.adapters;
    match e
    case GrantRefused(why) => (why == NotAttested && !attested) || (why == NoQuorum && attested && !granted)
    case MissingKey(name) => name == "session_id" && granted && !known
    case CheckFailed(finding) =>
      (finding == Expired && known && !inTime) || (finding == EffectNotGranted && inTime && !within)
    case NoAdapter(id) => id == backend && within && !adapted
    case DispatchFailed => adapted && !m.dispatchReturns
  }

  lemma ExecuteErrors(c: Config, j: Job, d: Decision, session: string, m: Moment)
    requires Matching(c.sign, c.verify) && d.Scheduled? && c.binding.sessionId == Some(session)
    requires Attested(c.attestation) && !c.constraints.requireQuorum
    requires Issue(Asked(c, d), c.hash, c.sign, m.grantId, m.issued).Minted?
    ensures var g := Issue(Asked(c, d), c.hash, c.sign, m.grantId, m.issued).grant;
      var e := Execute(c, j, d, g, session, m);
      e.failure.Some? ==> ErrorMeans(c, d.backend.id, j, m, e.failure.value)
  {
    hide Issue, VerifyGrant, Matching, Asked;
    FreshFinding(c, d, session, j.workload.effect, m);
  }

  lemma ErrorsMean(c: Config, j: Job, nodes: Nodes, ttl: int, m: Moment, key: string, book: Book, pre: seq<Event>)
    requires Matching(c.sign, c.verify) && Placed(Chosen(c, nodes, ttl, j, m))
    ensures var o := Dispense(c, j, nodes, ttl, m, key, book, pre).outcome;
      o.Raised? ==> ErrorMeans(c, Chosen(c, nodes, ttl, j, m).backend.id, j, m, o.error)
  {
    hide Placement, Available, Issue, Matching, AfterCharge, UsageOf, Execute;
    var d := Chosen(c, nodes, ttl, j, m);
    MintedIff(Asked(c, d), c.hash, c.sign, m.grantId, m.issued);
    if Issue(Asked(c, d), c.hash, c.sign, m.grantId, m.issued).Minted? && c.binding.sessionId.Some? {
      ExecuteErrors(c, j, d, c.binding.sessionId.value, m);
    }
  }

  /** Every exception of a call whose subject is known. */
  lemma RaisesMean(c: Config, plan: Plan, book: Book, nodes: Nodes, ttl: int, j: Job, m: Moment)
    requires Matching(c.sign, c.verify)
    ensures var o, d := Spine(c, plan, book, nodes, ttl, j, m).outcome, Chosen(c, nodes, ttl, j, m);
      o.Raised? && (c.admissionKey != "" || c.binding.spiffeId.Some?) ==>
        d.Scheduled? && ErrorMeans(c, d.backend.id, j, m, o.error)
  {
    StoppedIff(c, plan, book, nodes, ttl, j, m);
    if Subject(c).Some? && Placed(Chosen(c, nodes, ttl, j, m)) {
      var key := Subject(c).value;
      if c.admission {
        ErrorsMean(c, j, nodes, ttl, m, key, book[key := UsageOf(book, key)],
          [Admitted(key, j.workload.needsGpu, j.cost)]);
      } else {
        ErrorsMean(c, j, nodes, ttl, m, key, book, []);
      }
    }
    hide Chosen, Admits, Exceeded, QuotaFor, Dispense, UsageOf, Matching, ErrorMeans;
  }

  /** What each event of a trace says happened: the job was placed on the chosen backend; the grant minted is the
      authority's answer to just this request, with the binding, capability, attestation and constraints of the call,
      for the backend chosen, for fifteen minutes, without a quorum proof or evidence of its own; the check found what
      the gate finds in that grant then, for the session of the binding; and what was dispatched went to the chosen
      backend through its adapter. */
  ghost predicate SaysTrue(c: Config, d: Decision, j: Job, m: Moment, e: Event) {
    var q := Request(c.binding, c.capability, d, c.attestation, c.constraints,
                     "spiffe://sourceos/policyarbiter", 900_000_000, None, map[]);
    match e
    case Admitted(_, _, _) => true
    case PlacedOn(backend) => d.Scheduled? && backend == d.backend.id
    case MintedGrant(g) => Issue(q, c.hash, c.sign, m.grantId, m.issued) == Minted(g)
    case Checked(g, finding) =>
      && Issue(q, c.hash, c.sign, m.grantId, m.issued) == Minted(g) && c.binding.sessionId.Some?
      && finding == VerifyGrant(g, c.binding.sessionId.value, c.verify, j.workload.effect, None, m.checked).finding
    case Dispatched(backend, g) =>
      && Issue(q, c.hash, c.sign, m.grantId, m.issued) == Minted(g)
      && d.Scheduled? && backend == d.backend.id && backend in c.adapters
    case Charged(_, _, _) => true
  }

  lemma TraceIsTrue(c: Config, plan: Plan, book: Book, nodes: Nodes, ttl: int, j: Job, m: Moment, e: Event)
    requires e in Spine(c, plan, book, nodes, ttl, j, m).trace
    ensures SaysTrue(c, Chosen(c, nodes, ttl, j, m), j, m, e)
  {
    EffectsAreOrdered(c, plan, book, nodes, ttl, j, m);
    hide Spine, Dispense, Chosen, InOrder, Earned, Owed, SaysTrue;
    var key, seen, pre := SpineDispenses(c, plan, book, nodes, ttl, j, m);
    DispensedIsTrue(c, j, nodes, ttl, m, key, seen, pre, e);
  }

  lemma ExecutedIsTrue(c: Config, j: Job, d: Decision, g: Grant, session: string, m: Moment)
    requires d.Scheduled? && c.binding.sessionId == Some(session)
    requires Issue(Asked(c, d), c.hash, c.sign, m.grantId, m.issued) == Minted(g)
    ensures forall e :: e in Execute(c, j, d, g, session, m).trace ==> SaysTrue(c, d, j, m, e)
  {
    hide Issue, VerifyGrant;
  }

  lemma DispensedIsTrue(c: Config, j: Job, nodes: Nodes, ttl: int, m: Moment, key: string, book: Book, pre: seq<Event>,
      e: Event)
    requires e in Dispense(c, j, nodes, ttl, m, key, book, pre).trace
    requires pre == [] || exists a :: pre == [a] && a.Admitted?
    ensures SaysTrue(c, Chosen(c, nodes, ttl, j, m), j, m, e)
  {
    hide Placement, Available, Issue, Execute, VerifyGrant, AfterCharge, UsageOf;
    var d := Placement(c.table, j.workload, j.policy, Available(nodes, m.sensed, ttl));
    var issued := Issue(Asked(c, d), c.hash, c.sign, m.grantId, m.issued);
    if issued.Minted? && c.binding.sessionId.Some? && d.Scheduled? {
      ExecutedIsTrue(c, j, d, issued.grant, c.binding.sessionId.value, m);
    }
  }
}
