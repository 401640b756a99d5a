/** tools/executor.py: `run_spine`, the one call that admits, places, grants, checks, dispatches and
    charges a workload, with everything it does recorded as a trace of events. */
module Executor {
  import opened Options
  import opened MeshTelemetry
  import opened ComputePlane
  import opened Admission
  import opened Grant

  /** What stays the same from call to call. `admission` says whether a quota controller is attached
      and `adapters` lists the backends an adapter is registered for. */
  datatype Config = Config(
    table: seq<Backend>, binding: Binding, capability: Capability, attestation: Attestation, constraints: Constraints,
    hash: Document -> string, sign: Body -> string, verify: (Body, string) -> bool,
    adapters: set<string>, admissionKey: string, admission: bool)

  /** What one call meets outside: its three clock readings, the id drawn for its grant, and whether
      the adapter's dispatch returns or raises. */
  datatype Moment = Moment(sensed: int, issued: int, checked: int, grantId: string, dispatchReturns: bool)

  datatype Job = Job(workload: Workload, policy: Policy, cost: int)

  datatype Error =
    | MissingKey(name: string) | GrantRefused(why: Refusal) | CheckFailed(finding: Finding)
    | NoAdapter(id: string) | DispatchFailed

  datatype Outcome =
    | Denied(exceeded: seq<Axis>) | NoPlace(decision: Decision)
    | Ran(backend: string, grantId: string) | Raised(error: Error)

  datatype Event =
    | Admitted(key: string, needsGpu: bool, cost: int)
    | PlacedOn(backend: string)
    | MintedGrant(grant: Grant)
    | Checked(grant: Grant, finding: Finding)
    | Dispatched(backend: string, grant: Grant)
    | Charged(key: string, needsGpu: bool, cost: int)

  datatype Result = Result(outcome: Outcome, trace: seq<Event>, book: Book)

  const DEFAULT_ISSUER := "spiffe://sourceos/policyarbiter"
  const DEFAULT_TTL := 900 * SECOND
  const DEFAULT_ADAPTERS := {"local", "k8s", "hpc-slurm", "connector", "wasm-edge", "p2p-mesh", "volunteer-boinc",
      "blockchain-rlc"}

  /** The subject charged: the explicit key if it is not empty, else the identity in the binding. */
  function Subject(c: Config): Option<string> {
    if c.admissionKey != "" then Some(c.admissionKey) else c.binding.spiffeId
  }

  /** The spine passes neither a quorum proof nor evidence of its own. */
  function Asked(c: Config, d: Decision): Request {
    Request(c.binding, c.capability, d, c.attestation, c.constraints, DEFAULT_ISSUER, DEFAULT_TTL, None, map[])
  }

  // ----- what one call does -----

  datatype Execution = Execution(failure: Option<Error>, trace: seq<Event>)

  /** `execute`: check the grant at the node, then dispatch. */
  function Execute(c: Config, j: Job, d: Decision, g: Grant, session: string, m: Moment): Execution
    requires d.Scheduled?
  {
    var check := VerifyGrant(g, session, c.verify, j.workload.effect, None, m.checked);
    var checked := Checked(g, check.finding);
    if !check.valid then Execution(Some(CheckFailed(check.finding)), [checked])
    else if d.backend.id !in c.adapters then Execution(Some(NoAdapter(d.backend.id)), [checked])
    else Execution(if m.dispatchReturns then None else Some(DispatchFailed), [checked, Dispatched(d.backend.id, g)])
  }

  /** From an admitted call on: place, grant, execute, charge. */
  ghost function Dispense(c: Config, j: Job, nodes: Nodes, ttl: int, m: Moment, key: string, book: Book,
      pre: seq<Event>): Result {
    var d := Placement(c.table, j.workload, j.policy, Available(nodes, m.sensed, ttl));
    if !Placed(d) then Result(NoPlace(d), pre, book)
    else
      var issued := Issue(Asked(c, d), c.hash, c.sign, m.grantId, m.issued);
      if issued.Refused? then Result(Raised(GrantRefused(issued.why)), pre + [PlacedOn(d.backend.id)], book)
      else
        var trace := pre + [PlacedOn(d.backend.id)] + [MintedGrant(issued.grant)];
        if c.binding.sessionId.None? then Result(Raised(MissingKey("session_id")), trace, book)
        else
          var e := Execute(c, j, d, issued.grant, c.binding.sessionId.value, m);
          if e.failure.Some? then Result(Raised(e.failure.value), trace + e.trace, book)
          else if !c.admission then Result(Ran(d.backend.id, issued.grant.body.id), trace + e.trace, book)
          else
            Result(Ran(d.backend.id, issued.grant.body.id),
                   trace + e.trace + [Charged(key, j.workload.needsGpu, j.cost)],
                   book[key := AfterCharge(UsageOf(book, key), j.workload.needsGpu, j.cost)])
  }

  ghost function Spine(c: Config, plan: Plan, book: Book, nodes: Nodes, ttl: int, j: Job, m: Moment): Result {
    if Subject(c).None? then Result(Raised(MissingKey("spiffe_id")), [], book)
    else
      var key := Subject(c).value;
      if !c.admission then Dispense(c, j, nodes, ttl, m, key, book, [])
      else
        var seen := book[key := UsageOf(book, key)];
        if !Admits(plan, book, key, j.workload.needsGpu, j.cost)
        then Result(Denied(Exceeded(QuotaFor(plan, key), UsageOf(book, key), j.workload.needsGpu, j.cost)), [], seen)
        else Dispense(c, j, nodes, ttl, m, key, seen, [Admitted(key, j.workload.needsGpu, j.cost)])
  }

  method ExecuteJob(c: Config, j: Job, d: Decision, g: Grant, session: string, m: Moment)
    returns (failure: Option<Error>, trace: seq<Event>)
    requires d.Scheduled?
    ensures Execution(failure, trace) == Execute(c, j, d, g, session, m)
  {
    var check := VerifyGrant(g, session, c.verify, j.workload.effect, None, m.checked);
    trace := [Checked(g, check.finding)];
    if !check.valid {
      return Some(CheckFailed(check.finding)), trace;
    }
    if d.backend.id !in c.adapters {
      return Some(NoAdapter(d.backend.id)), trace;
    }
    trace := trace + [Dispatched(d.backend.id, g)];
    failure := if m.dispatchReturns then None else Some(DispatchFailed);
  }

  /** One call against a live registry and, when attached, a live quota controller. */
  method RunSpine(c: Config, registry: MeshRegistry, admission: AdmissionController, j: Job, m: Moment)
    returns (outcome: Outcome, trace: seq<Event>)
    modifies admission
    ensures Result(outcome, trace, admission.book)
      == Spine(c, admission.plan, old(admission.book), registry.nodes, registry.ttl, j, m)
  {
    hide Available, Placement, Issue, Execute, QuotaFor, Admits, Exceeded, UsageOf, AfterCharge;
    trace := [];
    if Subject(c).None? {
      return Raised(MissingKey("spiffe_id")), trace;
    }
    var key := Subject(c).value;
    if c.admission {
      var a := admission.Admit(key, j.workload.needsGpu, j.cost);
      if !a.admitted {
        return Denied(a.exceeded), trace;
      }
      trace := trace + [Admitted(key, j.workload.needsGpu, j.cost)];
    }
    var avail := registry.Availability(m.sensed);
    var d := Place(c.table, j.workload, j.policy, avail);
    if !Placed(d) {
      return NoPlace(d), trace;
    }
    trace := trace + [PlacedOn(d.backend.id)];
    var issued := IssueGrant(Asked(c, d), c.hash, c.sign, m.grantId, m.issued);
    if issued.Refused? {
      return Raised(GrantRefused(issued.why)), trace;
    }
    trace := trace + [MintedGrant(issued.grant)];
    if c.binding.sessionId.None? {
      return Raised(MissingKey("session_id")), trace;
    }
    var failure, done := ExecuteJob(c, j, d, issued.grant, c.binding.sessionId.value, m);
    trace := trace + done;
    if failure.Some? {
      return Raised(failure.value), trace;
    }
    outcome := Ran(d.backend.id, issued.grant.body.id);
    if c.admission {
      var u := admission.Charge(key, j.workload.needsGpu, j.cost);
      trace := trace + [Charged(key, j.workload.needsGpu, j.cost)];
    }
  }
}
