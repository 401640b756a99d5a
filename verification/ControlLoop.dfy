/** tools/control_loop.py: the sense-and-act loop over the governed spine. Ledger entries keep the exact
    clock reading of their tick, which the source prints cut to the second. */
module ControlLoop {
  import opened Options
  import opened MeshTelemetry
  import opened Admission
  import opened Executor

  /** A sensed condition: its key, if it has one, the job that is to remedy it (None if making one raises), and
      whether it can be printed as JSON, which sealing an entry takes. */
  datatype Condition = Condition(key: Option<string>, job: Option<Job>, printable: bool)

  /** How acting on a condition ended: the spine's outcome, or a remediation that could not be built. */
  datatype Act = Spined(outcome: Outcome) | Unbuilt

  datatype Entry = Entry(condition: Condition, act: Act, at: int) {
    /** The statuses are ran, denied, blocked and, for anything that raised, error. */
    predicate RanWell() {
      act.Spined? && act.outcome.Ran?
    }
  }

  datatype Report = Suppressed(key: Option<string>, at: int) | Acted(entry: Entry)

  /** One condition met at one clock reading, on the mesh as it then is. */
  datatype Visit = Visit(now: int, condition: Condition, moment: Moment, nodes: Nodes)

  datatype Fixed = Fixed(config: Config, plan: Plan, ttl: int, cooldown: int)

  /** `actions` is the history of what was acted on; the source keeps only what it could seal, `ledger`. */
  datatype Loop = Loop(acted: map<Option<string>, int>, actions: seq<Entry>, ledger: seq<Entry>, book: Book)

  predicate CoolingDown(acted: map<Option<string>, int>, key: Option<string>, now: int, cooldown: int) {
    key in acted && now - acted[key] < cooldown
  }

  /** Sealing what was done about this visit raises, and the exception leaves the tick. */
  predicate Escapes(f: Fixed, l: Loop, v: Visit) {
    !CoolingDown(l.acted, v.condition.key, v.now, f.cooldown) && !v.condition.printable
  }

  function Sealed(e: Entry): seq<Entry> {
    if e.condition.printable then [e] else []
  }

  /** The remediation has run, and the cooldown is stamped, before anything is sealed. */
  function Noted(l: Loop, e: Entry, book: Book): Loop {
    Loop(l.acted[e.condition.key := e.at], l.actions + [e], l.ledger + Sealed(e), book)
  }

  ghost function Step(f: Fixed, l: Loop, v: Visit): Loop {
    if CoolingDown(l.acted, v.condition.key, v.now, f.cooldown) then l
    else if v.condition.job.None? then Noted(l, Entry(v.condition, Unbuilt, v.now), l.book)
    else
      var r := Spine(f.config, f.plan, l.book, v.nodes, f.ttl, v.condition.job.value, v.moment);
      Noted(l, Entry(v.condition, Spined(r.outcome), v.now), r.book)
  }

  ghost function Run(f: Fixed, l: Loop, vs: seq<Visit>): Loop {
    if vs == [] then l else Step(f, Run(f, l, vs[..|vs| - 1]), vs[|vs| - 1])
  }

  /** The report of a visit that does not raise. */
  ghost function ReportOf(f: Fixed, l: Loop, v: Visit): Report {
    if CoolingDown(l.acted, v.condition.key, v.now, f.cooldown) then Suppressed(v.condition.key, v.now)
    else Acted(Step(f, l, v).actions[|l.actions|])
  }

  /** This report is about this condition, at this time. */
  predicate Answers(r: Report, cond: Condition, now: int) {
    match r
    case Suppressed(key, at) => key == cond.key && at == now
    case Acted(entry) => entry.condition == cond && entry.at == now
  }

  /** What one tick reads: the clock, the conditions sensed, and the moment each would be acted on. */
  datatype Round = Round(now: int, conditions: seq<Condition>, moments: seq<Moment>)

  ghost function Visits(r: Round, nodes: Nodes): (vs: seq<Visit>)
    requires |r.moments| == |r.conditions|
    ensures |vs| == |r.conditions|
    ensures forall i :: 0 <= i < |vs| ==> vs[i].now == r.now && vs[i].condition == r.conditions[i]
    ensures forall i :: 0 <= i < |vs| ==> vs[i].moment == r.moments[i] && vs[i].nodes == nodes
  {
    seq(|r.conditions|, i requires 0 <= i < |r.conditions| => Visit(r.now, r.conditions[i], r.moments[i], nodes))
  }

  ghost function AllVisits(rs: seq<Round>, nodes: Nodes): seq<Visit>
    requires forall r :: r in rs ==> |r.moments| == |r.conditions|
  {
    if rs == [] then [] else AllVisits(rs[..|rs| - 1], nodes) + Visits(rs[|rs| - 1], nodes)
  }

  lemma {:induction false} RunSplits(f: Fixed, l: Loop, a: seq<Visit>, b: seq<Visit>)
    ensures Run(f, l, a + b) == Run(f, Run(f, l, a), b)
  {
    if b == [] {
      assert a + b == a;
    } else {
      var n := |b| - 1;
      assert (a + b)[..|a + b| - 1] == a + b[..n] && (a + b)[|a + b| - 1] == b[n];
      RunSplits(f, l, a, b[..n]);
    }
  }

  class ControlLoop {
    const config: Config
    const registry: MeshRegistry
    const admission: AdmissionController
    const cooldown: int
    var acted: map<Option<string>, int>
    var ledger: seq<Entry>
    ghost var actions: seq<Entry>

    constructor (config: Config, registry: MeshRegistry, admission: AdmissionController, cooldown: int)
      ensures this.config == config && this.registry == registry && this.admission == admission
        && this.cooldown == cooldown
      ensures acted == map[] && ledger == [] && actions == []
    {
      this.config, this.registry, this.admission, this.cooldown := config, registry, admission, cooldown;
      acted, ledger, actions := map[], [], [];
    }

    ghost function Setting(): Fixed {
      Fixed(config, admission.plan, registry.ttl, cooldown)
    }

    ghost function State(): Loop
      reads this, admission
    {
      Loop(acted, actions, ledger, admission.book)
    }

    /** The body of the loop over conditions: hold back, or run the remediation and seal what came of it.
        None stands for the exception of a condition that cannot be printed. */
    method Respond(now: int, cond: Condition, moment: Moment) returns (r: Option<Report>)
      modifies this, admission
      ensures var l, v := old(State()), Visit(now, cond, moment, registry.nodes);
        && State() == Step(Setting(), l, v)
        && r == if Escapes(Setting(), l, v) then None else Some(ReportOf(Setting(), l, v))
      ensures r.Some? ==> Answers(r.value, cond, now)
    {
      hide Spine;
      if cond.key in acted && now - acted[cond.key] < cooldown {
        return Some(Suppressed(cond.key, now));
      }
      var act := Unbuilt;
      if cond.job.Some? {
        var outcome, _ := RunSpine(config, registry, admission, cond.job.value, moment);
        act := Spined(outcome);
      }
      acted := acted[cond.key := now];
      var entry := Entry(cond, act, now);
      actions := actions + [entry];
      if !cond.printable {
        return None;
      }
      ledger := ledger + [entry];
      r := Some(Acted(entry));
    }

    /** One pass over what is sensed: exactly one report per condition, whatever the remediations do, up to the
        first whose report cannot be sealed; that one has been acted on, and ends the pass. */
    method Tick(r: Round) returns (out: seq<Report>, raised: bool)
      requires |r.moments| == |r.conditions|
      modifies this, admission
      ensures Ticked(Setting(), old(State()), Visits(r, registry.nodes), out, raised, State())
      ensures |out| <= |r.conditions| && (!raised ==> |out| == |r.conditions|)
      ensures forall i :: 0 <= i < |out| ==> Answers(out[i], r.conditions[i], r.now)
    {
      hide Step, ReportOf, Setting, Escapes, Answers, Reports, Visits;
      ghost var l, vs := State(), Visits(r, registry.nodes);
      NoReports(Setting(), l, vs);
      out, raised := [], false;
      for i := 0 to |r.conditions|
        invariant State() == Run(Setting(), l, vs[..i])
        invariant |out| == i && !raised
        invariant Reports(Setting(), l, vs, out)
        invariant forall k :: 0 <= k < i ==> Answers(out[k], r.conditions[k], r.now)
      {
        assert vs[..i + 1][..i] == vs[..i];
        var report := Respond(r.now, r.conditions[i], r.moments[i]);
        if report.None? {
          raised := true;
          return;
        }
        OneReportMore(Setting(), l, vs, out, report.value);
        out := out + [report.value];
      }
      assert vs[..|vs|] == vs;
    }

    /** Tick after tick, until one raises. */
    method RunRounds(rs: seq<Round>) returns (all: seq<Entry>, raised: bool)
      requires forall r :: r in rs ==> |r.moments| == |r.conditions|
      modifies this, admission
      ensures var vs := AllVisits(rs, registry.nodes);
        if raised then exists n: nat :: n < |vs| && StoppedAt(Setting(), old(State()), vs, n, State())
        else State() == Run(Setting(), old(State()), vs)
      ensures all == ledger
    {
      hide Step, Escapes, Setting, Reports, Run, StoppedAt, AllVisits, Visits;
      ghost var l, nodes := State(), registry.nodes;
      NoRounds(Setting(), l, nodes);
      assert rs[..0] == [];
      raised := false;
      for i := 0 to |rs|
        invariant !raised && State() == Run(Setting(), l, AllVisits(rs[..i], nodes))
      {
        OneRoundMore(rs, i, nodes);
        ghost var before, vs := AllVisits(rs[..i], nodes), Visits(rs[i], nodes);
        var out;
        out, raised := Tick(rs[i]);
        RunSplits(Setting(), l, before, vs);
        if raised {
          StopsInside(Setting(), l, before, vs, |out|, State());
          LaterRounds(rs, i + 1, nodes);
          StopsEarlier(Setting(), l, before + vs, AllVisits(rs, nodes), |before| + |out|, State());
          all := ledger;
          return;
        }
      }
      assert rs[..|rs|] == rs;
      all := ledger;
    }
  }

  /** The reports are those of the visits they answer, none of which raised. */
  ghost predicate Reports(f: Fixed, l: Loop, vs: seq<Visit>, out: seq<Report>) {
    && |out| <= |vs|
    && forall i :: 0 <= i < |out| ==>
         !Escapes(f, Run(f, l, vs[..i]), vs[i]) && out[i] == ReportOf(f, Run(f, l, vs[..i]), vs[i])
  }

  lemma NoReports(f: Fixed, l: Loop, vs: seq<Visit>)
    ensures Reports(f, l, vs, [])
  {
  }

  lemma OneReportMore(f: Fixed, l: Loop, vs: seq<Visit>, out: seq<Report>, r: Report)
    requires Reports(f, l, vs, out) && |out| < |vs|
    requires !Escapes(f, Run(f, l, vs[..|out|]), vs[|out|]) && r == ReportOf(f, Run(f, l, vs[..|out|]), vs[|out|])
    ensures Reports(f, l, vs, out + [r])
  {
    hide Escapes, ReportOf, Run;
  }

  /** Visit n raised, after the visits before it and with its own effects done. */
  ghost predicate StoppedAt(f: Fixed, l: Loop, vs: seq<Visit>, n: nat, after: Loop)
    requires n < |vs|
  {
    Escapes(f, Run(f, l, vs[..n]), vs[n]) && after == Run(f, l, vs[..n + 1])
  }

  ghost predicate Ticked(f: Fixed, l: Loop, vs: seq<Visit>, out: seq<Report>, raised: bool, after: Loop) {
    && Reports(f, l, vs, out)
    && if raised then |out| < |vs| && StoppedAt(f, l, vs, |out|, after) else |out| == |vs| && after == Run(f, l, vs)
  }

  lemma StopsInside(f: Fixed, l: Loop, before: seq<Visit>, vs: seq<Visit>, n: nat, after: Loop)
    requires n < |vs| && StoppedAt(f, Run(f, l, before), vs, n, after)
    ensures StoppedAt(f, l, before + vs, |before| + n, after)
  {
    hide Run, Step, Escapes;
    var all := before + vs;
    assert all[..|before| + n] == before + vs[..n] && all[..|before| + n + 1] == before + vs[..n + 1];
    RunSplits(f, l, before, vs[..n]);
    RunSplits(f, l, before, vs[..n + 1]);
  }

  lemma StopsEarlier(f: Fixed, l: Loop, vs: seq<Visit>, more: seq<Visit>, n: nat, after: Loop)
    requires n < |vs| && vs <= more && StoppedAt(f, l, vs, n, after)
    ensures StoppedAt(f, l, more, n, after)
  {
    assert more[..n] == vs[..n] && more[..n + 1] == vs[..n + 1];
  }

  lemma NoRounds(f: Fixed, l: Loop, nodes: Nodes)
    ensures Run(f, l, AllVisits([], nodes)) == l
  {
  }

  lemma OneRoundMore(rs: seq<Round>, i: nat, nodes: Nodes)
    requires i < |rs| && forall r :: r in rs ==> |r.moments| == |r.conditions|
    ensures AllVisits(rs[..i + 1], nodes) == AllVisits(rs[..i], nodes) + Visits(rs[i], nodes)
  {
    assert rs[..i + 1][..i] == rs[..i];
  }

  lemma {:induction false} LaterRounds(rs: seq<Round>, i: nat, nodes: Nodes)
    requires i <= |rs| && forall r :: r in rs ==> |r.moments| == |r.conditions|
    ensures AllVisits(rs[..i], nodes) <= AllVisits(rs, nodes)
  {
    if i == |rs| {
      assert rs[..i] == rs;
    } else {
      LaterRounds(rs[..|rs| - 1], i, nodes);
      assert rs[..|rs| - 1][..i] == rs[..i];
    }
  }
}
