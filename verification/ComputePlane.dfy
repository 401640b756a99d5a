/** tools/compute_plane.py: routing one workload over an arbitrary table of backends. */
module ComputePlane {
  import opened Options
  import opened Orders
  import opened MeshTelemetry

  /** A capability value a backend attests, or the absence of one. */
  datatype Cap = Absent | Flag(on: bool) | Text(text: string)

  /** What a workload asks of a capability: to be there, to be one of a list, or to equal a value. */
  datatype Need = Present | OneOf(options: seq<Cap>) | Exactly(value: Cap)

  datatype Requirement = Requirement(name: string, need: Need)

  datatype Backend = Backend(id: string, kind: string, trusted: bool, elasticity: int, gpu: bool,
                             caps: map<string, Cap>)

  datatype Workload =
    Workload(sensitivity: string, scalable: bool, needsGpu: bool, needs: seq<Requirement>, effect: Option<string>)

  /** An empty list of allowed backends stands for all of them. */
  datatype Policy =
    Policy(allowed: seq<string>, forbidUntrusted: bool, prefer: seq<string>, requireAttestation: bool)

  datatype Reason = NotAllowed | NotAvailable | NoGpu | Governance | Firewall(unmet: seq<string>)

  datatype Why = Preference | ScaleOut | RanLocally | KeptSmall

  datatype Decision =
    | Blocked(excluded: map<string, Reason>)
    | Scheduled(backend: Backend, why: Why, alternatives: seq<string>, attestationRequired: bool,
                excluded: map<string, Reason>)

  ghost predicate DistinctIds(table: seq<Backend>) {
    forall i, j :: 0 <= i < j < |table| ==> table[i].id != table[j].id
  }

  // ----- the hard constraints -----

  function Have(caps: map<string, Cap>, name: string): Cap {
    if name in caps then caps[name] else Absent
  }

  predicate Truthy(c: Cap) {
    match c
    case Absent => false
    case Flag(on) => on
    case Text(t) => t != ""
  }

  predicate Meets(need: Need, have: Cap) {
    match need
    case Present => Truthy(have)
    case OneOf(options) => have in options
    case Exactly(value) => have == value
  }

  function Unmet(needs: seq<Requirement>, caps: map<string, Cap>): seq<string> {
    if needs == [] then []
    else
      var r := needs[|needs| - 1];
      Unmet(needs[..|needs| - 1], caps) + if Meets(r.need, Have(caps, r.name)) then [] else [r.name]
  }

  predicate Sensitive(w: Workload) {
    w.sensitivity == "sensitive"
  }

  /** Why a backend is passed over: the first test it fails. */
  function Refusal(b: Backend, w: Workload, p: Policy, avail: map<string, int>): Option<Reason> {
    if p.allowed != [] && b.id !in p.allowed then Some(NotAllowed)
    else if Get(avail, b.id) <= 0 then Some(NotAvailable)
    else if w.needsGpu && !b.gpu then Some(NoGpu)
    else if Sensitive(w) && p.forbidUntrusted && !b.trusted then Some(Governance)
    else if Unmet(w.needs, b.caps) != [] then Some(Firewall(Unmet(w.needs, b.caps)))
    else None
  }

  /** What a backend must satisfy to be a candidate, with no order among the tests. */
  ghost predicate Fits(b: Backend, w: Workload, p: Policy, avail: map<string, int>) {
    && (p.allowed == [] || b.id in p.allowed)
    && Get(avail, b.id) > 0
    && (w.needsGpu ==> b.gpu)
    && (w.sensitivity == "sensitive" && p.forbidUntrusted ==> b.trusted)
    && (forall r :: r in w.needs ==> Meets(r.need, Have(b.caps, r.name)))
  }

  /** The firewall names exactly the needs a backend does not provably provide. */
  lemma {:induction false} UnmetExactly(needs: seq<Requirement>, caps: map<string, Cap>)
    ensures forall x :: x in Unmet(needs, caps) ==>
              exists r :: r in needs && r.name == x && !Meets(r.need, Have(caps, r.name))
    ensures forall r :: r in needs && !Meets(r.need, Have(caps, r.name)) ==> r.name in Unmet(needs, caps)
  {
    if needs == [] {
    } else {
      var n := |needs| - 1;
      UnmetExactly(needs[..n], caps);
      assert needs == needs[..n] + [needs[n]];
    }
  }

  /** What each kind of need asks of the value a backend attests: to be there and not false or empty, to be one of the
      values listed, or to be the very value; a capability the backend does not name counts as absent. */
  lemma FirewallMeans(needs: seq<Requirement>, caps: map<string, Cap>, name: string)
    ensures var have := if name in caps then caps[name] else Absent;
      name in Unmet(needs, caps) <==> exists r ::
        && r in needs && r.name == name
        && match r.need
           case Present => have in {Absent, Flag(false), Text("")}
           case OneOf(options) => have !in options
           case Exactly(value) => have != value
  {
    UnmetExactly(needs, caps);
  }

  lemma RefusedIffUnfit(b: Backend, w: Workload, p: Policy, avail: map<string, int>)
    ensures Refusal(b, w, p, avail).None? <==> Fits(b, w, p, avail)
  {
    UnmetExactly(w.needs, b.caps);
    if Unmet(w.needs, b.caps) != [] {
      assert Unmet(w.needs, b.caps)[0] in Unmet(w.needs, b.caps);
    }
  }

  /** The reason given is the first of the five tests the backend fails, in their order. */
  lemma FirstFailure(b: Backend, w: Workload, p: Policy, avail: map<string, int>)
    ensures var r := Refusal(b, w, p, avail);
      var allowed, up, gpu := p.allowed == [] || b.id in p.allowed, Get(avail, b.id) > 0, w.needsGpu ==> b.gpu;
      var trust := w.sensitivity == "sensitive" && p.forbidUntrusted ==> b.trusted;
      && (r == Some(NotAllowed) <==> !allowed)
      && (r == Some(NotAvailable) <==> allowed && !up)
      && (r == Some(NoGpu) <==> allowed && up && !gpu)
      && (r == Some(Governance) <==> allowed && up && gpu && !trust)
      && (r.Some? && r.value.Firewall? <==>
            allowed && up && gpu && trust && exists q :: q in w.needs && !Meets(q.need, Have(b.caps, q.name)))
      && (r.Some? && r.value.Firewall? ==> r.value.unmet == Unmet(w.needs, b.caps))
  {
    RefusedIffUnfit(b, w, p, avail);
  }

  // ----- the decision -----

  function Fitting(table: seq<Backend>, w: Workload, p: Policy, avail: map<string, int>): seq<Backend> {
    if table == [] then []
    else
      var b := table[|table| - 1];
      Fitting(table[..|table| - 1], w, p, avail) + if Refusal(b, w, p, avail).None? then [b] else []
  }

  function Excluded(table: seq<Backend>, w: Workload, p: Policy, avail: map<string, int>): map<string, Reason> {
    if table == [] then map[]
    else
      var b := table[|table| - 1];
      var others := Excluded(table[..|table| - 1], w, p, avail);
      var r := Refusal(b, w, p, avail);
      if r.None? then others else others[b.id := r.value]
  }

  /** The candidate with this id, if there is one. */
  function WithId(bs: seq<Backend>, id: string): Option<Backend> {
    if bs == [] then None else if bs[0].id == id then Some(bs[0]) else WithId(bs[1..], id)
  }

  function FirstPreferred(prefer: seq<string>, bs: seq<Backend>): Option<Backend> {
    if prefer == [] then None
    else if WithId(bs, prefer[0]).Some? then WithId(bs, prefer[0])
    else FirstPreferred(prefer[1..], bs)
  }

  /** The order of the two rankings: scale out to elasticity, then free capacity; or keep it small. */
  predicate Better(x: Backend, y: Backend, scalable: bool, avail: map<string, int>) {
    if scalable
    then x.elasticity > y.elasticity || (x.elasticity == y.elasticity && Get(avail, x.id) > Get(avail, y.id))
    else x.elasticity < y.elasticity
  }

  /** Python's `max`/`min` with a key: the first of the best. */
  function Best(bs: seq<Backend>, scalable: bool, avail: map<string, int>): Backend
    requires bs != []
  {
    var last := bs[|bs| - 1];
    if |bs| == 1 then last
    else
      var best := Best(bs[..|bs| - 1], scalable, avail);
      if Better(last, best, scalable, avail) then last else best
  }

  function Choose(bs: seq<Backend>, w: Workload, p: Policy, avail: map<string, int>): Backend
    requires bs != []
  {
    var preferred := FirstPreferred(p.prefer, bs);
    if preferred.Some? then preferred.value else Best(bs, w.scalable, avail)
  }

  function WhyChosen(bs: seq<Backend>, w: Workload, p: Policy, chosen: Backend): Why {
    if FirstPreferred(p.prefer, bs).Some? then Preference
    else if !w.scalable then KeptSmall
    else if chosen.elasticity > 1 then ScaleOut
    else RanLocally
  }

  function Ids(bs: seq<Backend>): seq<string> {
    if bs == [] then [] else Ids(bs[..|bs| - 1]) + [bs[|bs| - 1].id]
  }

  function IdsBut(bs: seq<Backend>, id: string): seq<string> {
    if bs == [] then []
    else IdsBut(bs[..|bs| - 1], id) + if bs[|bs| - 1].id == id then [] else [bs[|bs| - 1].id]
  }

  function Placement(table: seq<Backend>, w: Workload, p: Policy, avail: map<string, int>): Decision {
    var bs := Fitting(table, w, p, avail);
    var excluded := Excluded(table, w, p, avail);
    if bs == [] then Blocked(excluded)
    else
      var c := Choose(bs, w, p, avail);
      Scheduled(c, WhyChosen(bs, w, p, c), SortStrings(IdsBut(bs, c.id)), p.requireAttestation || !c.trusted, excluded)
  }

  method NeedsMet(needs: seq<Requirement>, caps: map<string, Cap>) returns (met: bool, unmet: seq<string>)
    ensures unmet == Unmet(needs, caps) && met == (unmet == [])
  {
    unmet := [];
    for i := 0 to |needs|
      invariant unmet == Unmet(needs[..i], caps)
    {
      assert needs[..i + 1][..i] == needs[..i];
      if !Meets(needs[i].need, Have(caps, needs[i].name)) {
        unmet := unmet + [needs[i].name];
      }
    }
    assert needs[..|needs|] == needs;
    met := unmet == [];
  }

  method Place(table: seq<Backend>, w: Workload, p: Policy, avail: map<string, int>) returns (d: Decision)
    ensures d == Placement(table, w, p, avail)
  {
    var excluded: map<string, Reason> := map[];
    var candidates: seq<Backend> := [];
    for i := 0 to |table|
      invariant candidates == Fitting(table[..i], w, p, avail)
      invariant excluded == Excluded(table[..i], w, p, avail)
    {
      assert table[..i + 1][..i] == table[..i];
      var b := table[i];
      var met, unmet := NeedsMet(w.needs, b.caps);
      if p.allowed != [] && b.id !in p.allowed {
        excluded := excluded[b.id := NotAllowed];
      } else if Get(avail, b.id) <= 0 {
        excluded := excluded[b.id := NotAvailable];
      } else if w.needsGpu && !b.gpu {
        excluded := excluded[b.id := NoGpu];
      } else if Sensitive(w) && p.forbidUntrusted && !b.trusted {
        excluded := excluded[b.id := Governance];
      } else if !met {
        excluded := excluded[b.id := Firewall(unmet)];
      } else {
        candidates := candidates + [b];
      }
    }
    assert table[..|table|] == table;
    if candidates == [] {
      return Blocked(excluded);
    }
    var chosen := Choose(candidates, w, p, avail);
    d := Scheduled(chosen, WhyChosen(candidates, w, p, chosen), SortStrings(IdsBut(candidates, chosen.id)),
                   p.requireAttestation || !chosen.trusted, excluded);
  }

  // ----- what the decision means -----

  lemma {:induction false} FittingMembers(table: seq<Backend>, w: Workload, p: Policy, avail: map<string, int>)
    ensures forall b :: b in Fitting(table, w, p, avail) ==> b in table && Fits(b, w, p, avail)
    ensures forall b :: b in table && Fits(b, w, p, avail) ==> b in Fitting(table, w, p, avail)
  {
    if table == [] {
    } else {
      hide Fits, Refusal;
      var n := |table| - 1;
      FittingMembers(table[..n], w, p, avail);
      RefusedIffUnfit(table[n], w, p, avail);
      assert table == table[..n] + [table[n]];
    }
  }

  /** Every backend of the table is a candidate or is excluded with the first test it fails, never
      both, and nothing else is listed. */
  lemma {:induction false} CandidatesAndExcluded(table: seq<Backend>, w: Workload, p: Policy, avail: map<string, int>)
    requires DistinctIds(table)
    ensures forall b :: b in table && Fits(b, w, p, avail) ==> b.id !in Excluded(table, w, p, avail)
    ensures forall b :: b in table && !Fits(b, w, p, avail) ==>
              && b.id in Excluded(table, w, p, avail)
              && Refusal(b, w, p, avail) == Some(Excluded(table, w, p, avail)[b.id])
    ensures forall id :: id in Excluded(table, w, p, avail) ==> exists b :: b in table && b.id == id
  {
    if table == [] {
    } else {
      hide Fits, Refusal;
      var n := |table| - 1;
      assert table == table[..n] + [table[n]];
      CandidatesAndExcluded(table[..n], w, p, avail);
      RefusedIffUnfit(table[n], w, p, avail);
      assert forall b :: b in table[..n] ==> b in table && b.id != table[n].id;
      assert table[n] in table;
    }
  }

  lemma {:induction false} WithIdFinds(bs: seq<Backend>, id: string)
    ensures WithId(bs, id).None? ==> forall b :: b in bs ==> b.id != id
    ensures WithId(bs, id).Some? ==> WithId(bs, id).value in bs && WithId(bs, id).value.id == id
  {
    if bs == [] {
    } else {
      WithIdFinds(bs[1..], id);
      assert bs == [bs[0]] + bs[1..];
    }
  }

  /** The position in the preference list that decides, if any does. */
  lemma {:induction false} FirstPreferredFinds(prefer: seq<string>, bs: seq<Backend>) returns (k: nat)
    ensures FirstPreferred(prefer, bs).None? ==> forall b :: b in bs ==> b.id !in prefer
    ensures var f := FirstPreferred(prefer, bs);
      f.Some? ==>
        && f.value in bs && k < |prefer| && f.value.id == prefer[k]
        && forall i, b :: 0 <= i < k && b in bs ==> b.id != prefer[i]
  {
    k := 0;
    if prefer == [] {
    } else {
      WithIdFinds(bs, prefer[0]);
      if WithId(bs, prefer[0]).None? {
        assert prefer == [prefer[0]] + prefer[1..];
        var j := FirstPreferredFinds(prefer[1..], bs);
        k := j + 1;
        if FirstPreferred(prefer, bs).Some? {
          forall i, b | 0 <= i < k && b in bs
            ensures b.id != prefer[i]
          {
            if i > 0 { assert prefer[1..][i - 1] == prefer[i]; }
          }
        }
      }
    }
  }

  /** Position i holds the first of the best: it beats everything before it and nothing after beats it. */
  ghost predicate FirstBest(bs: seq<Backend>, i: nat, scalable: bool, avail: map<string, int>) {
    && i < |bs|
    && (forall j :: 0 <= j < i ==> Better(bs[i], bs[j], scalable, avail))
    && (forall j :: i < j < |bs| ==> !Better(bs[j], bs[i], scalable, avail))
  }

  lemma {:induction false} BestIsFirstBest(bs: seq<Backend>, scalable: bool, avail: map<string, int>) returns (i: nat)
    requires bs != []
    ensures FirstBest(bs, i, scalable, avail) && bs[i] == Best(bs, scalable, avail)
  {
    i := 0;
    if |bs| <= 1 {
    } else {
      i := BestIsFirstBest(bs[..|bs| - 1], scalable, avail);
      if Better(bs[|bs| - 1], bs[i], scalable, avail) {
        i := |bs| - 1;
      }
    }
  }

  lemma {:induction false} IdsButMembers(bs: seq<Backend>, id: string)
    ensures multiset(IdsBut(bs, id)) == multiset(Ids(bs))[id := 0]
  {
    if bs == [] {
    } else {
      IdsButMembers(bs[..|bs| - 1], id);
    }
  }

  /** Backend i of the table comes before backend j, or is it: for scalable work the higher elasticity comes first, then
      the larger free capacity, then the earlier place; for other work the lower elasticity, then the earlier place. */
  ghost predicate Ahead(table: seq<Backend>, i: nat, j: nat, scalable: bool, avail: map<string, int>)
    requires i < |table| && j < |table|
  {
    var x, y := table[i], table[j];
    if x.elasticity != y.elasticity then
      if scalable then x.elasticity > y.elasticity else x.elasticity < y.elasticity
    else if scalable && Get(avail, x.id) != Get(avail, y.id) then Get(avail, x.id) > Get(avail, y.id)
    else i <= j
  }

  /** Backend i fits and comes before every other of the first n that fits. */
  ghost predicate TopOf(table: seq<Backend>, n: nat, i: nat, w: Workload, p: Policy, avail: map<string, int>)
    requires i < n <= |table|
  {
    && Fits(table[i], w, p, avail)
    && forall j: nat :: j < n && Fits(table[j], w, p, avail) ==> Ahead(table, i, j, w.scalable, avail)
  }

  lemma FittingOfMore(table: seq<Backend>, n: nat, w: Workload, p: Policy, avail: map<string, int>)
    requires n < |table|
    ensures Fitting(table[..n + 1], w, p, avail)
      == Fitting(table[..n], w, p, avail) + if Fits(table[n], w, p, avail) then [table[n]] else []
  {
    assert table[..n + 1][..n] == table[..n];
    RefusedIffUnfit(table[n], w, p, avail);
    hide Fits, Refusal;
  }

  lemma TopOfMore(table: seq<Backend>, n: nat, i: nat, w: Workload, p: Policy, avail: map<string, int>)
    requires i < n < |table| && TopOf(table, n, i, w, p, avail)
    ensures !Fits(table[n], w, p, avail) || !Better(table[n], table[i], w.scalable, avail) ==>
      TopOf(table, n + 1, i, w, p, avail)
    ensures Fits(table[n], w, p, avail) && Better(table[n], table[i], w.scalable, avail) ==>
      TopOf(table, n + 1, n, w, p, avail)
  {
    hide Fits;
    forall j: nat | j < n && Fits(table[j], w, p, avail)
      ensures Ahead(table, i, j, w.scalable, avail)
    {
    }
  }

  lemma TopStarts(table: seq<Backend>, n: nat, w: Workload, p: Policy, avail: map<string, int>)
    requires n < |table| && Fits(table[n], w, p, avail) && Fitting(table[..n], w, p, avail) == []
    ensures TopOf(table, n + 1, n, w, p, avail)
  {
    FittingMembers(table[..n], w, p, avail);
    hide Fits, Fitting;
    forall j: nat | j < n
      ensures !Fits(table[j], w, p, avail)
    {
      assert table[j] == table[..n][j];
    }
  }

  /** The best of the candidates stands somewhere in the table, above all the others. */
  lemma {:induction false} BestIsTop(table: seq<Backend>, n: nat, w: Workload, p: Policy, avail: map<string, int>)
    returns (i: nat)
    requires n <= |table| && Fitting(table[..n], w, p, avail) != []
    ensures i < n && table[i] == Best(Fitting(table[..n], w, p, avail), w.scalable, avail)
    ensures TopOf(table, n, i, w, p, avail)
  {
    hide Fitting, Best, Better, Fits, TopOf;
    NoneFit(w, p, avail);
    assert table[..0] == [];
    assert n > 0;
    var bs := Fitting(table[..n - 1], w, p, avail);
    FittingOfMore(table, n - 1, w, p, avail);
    BestOfMore(bs, table[n - 1], w.scalable, avail);
    if bs == [] {
      TopStarts(table, n - 1, w, p, avail);
      i := n - 1;
    } else {
      i := BestIsTop(table, n - 1, w, p, avail);
      TopOfMore(table, n - 1, i, w, p, avail);
      assert bs + [] == bs;
      if Fits(table[n - 1], w, p, avail) && Better(table[n - 1], table[i], w.scalable, avail) {
        i := n - 1;
      }
    }
  }

  lemma NoneFit(w: Workload, p: Policy, avail: map<string, int>)
    ensures Fitting([], w, p, avail) == []
  {
  }

  /** Preferred backends that fit win, earliest preference first. */
  ghost predicate ByPreference(d: Decision, table: seq<Backend>, w: Workload, p: Policy, avail: map<string, int>)
    requires d.Scheduled?
  {
    && d.why == Preference
    && exists k :: 0 <= k < |p.prefer| && p.prefer[k] == d.backend.id
                   && forall i, b :: 0 <= i < k && b in table && Fits(b, w, p, avail) ==> b.id != p.prefer[i]
  }

  /** Without one, the ranking of the workload decides over the table, ties going to the earlier backend. */
  ghost predicate ByRanking(d: Decision, table: seq<Backend>, w: Workload, p: Policy, avail: map<string, int>)
    requires d.Scheduled?
  {
    && d.why == (if !w.scalable then KeptSmall else if d.backend.elasticity > 1 then ScaleOut else RanLocally)
    && exists i: nat :: i < |table| && table[i] == d.backend && TopOf(table, |table|, i, w, p, avail)
  }

  /** What a placement takes from its list of candidates. */
  lemma ChosenFrom(table: seq<Backend>, w: Workload, p: Policy, avail: map<string, int>)
    ensures var d, bs := Placement(table, w, p, avail), Fitting(table, w, p, avail);
      && (d.Scheduled? <==> bs != [])
      && (bs != [] ==> d.backend == Choose(bs, w, p, avail) && d.why == WhyChosen(bs, w, p, d.backend)
                       && d.attestationRequired == (p.requireAttestation || !d.backend.trusted)
                       && d.alternatives == SortStrings(IdsBut(bs, d.backend.id)))
  {
    hide Fitting, Excluded, Choose, WhyChosen, IdsBut, SortStrings;
  }

  lemma PreferenceDecides(table: seq<Backend>, w: Workload, p: Policy, avail: map<string, int>)
    requires exists b :: b in table && Fits(b, w, p, avail) && b.id in p.prefer
    ensures var d := Placement(table, w, p, avail);
      d.Scheduled? && d.backend in Fitting(table, w, p, avail) && ByPreference(d, table, w, p, avail)
  {
    var bs := Fitting(table, w, p, avail);
    ChosenFrom(table, w, p, avail);
    FittingMembers(table, w, p, avail);
    var k := FirstPreferredFinds(p.prefer, bs);
    hide Placement, Fitting, Fits, FirstPreferred, Best;
    assert FirstPreferred(p.prefer, bs).Some?;
  }

  lemma RankingDecides(table: seq<Backend>, w: Workload, p: Policy, avail: map<string, int>)
    requires Fitting(table, w, p, avail) != []
    requires forall b :: b in table && Fits(b, w, p, avail) ==> b.id !in p.prefer
    ensures var d := Placement(table, w, p, avail);
      d.Scheduled? && d.backend in Fitting(table, w, p, avail) && ByRanking(d, table, w, p, avail)
  {
    var bs := Fitting(table, w, p, avail);
    ChosenFrom(table, w, p, avail);
    FittingMembers(table, w, p, avail);
    var k := FirstPreferredFinds(p.prefer, bs);
    assert table[..|table|] == table;
    hide Placement, Fitting, FirstPreferred, Best, TopOf;
    var i := BestIsTop(table, |table|, w, p, avail);
    assert Fits(table[i], w, p, avail) by { TopFits(table, |table|, i, w, p, avail); }
    hide Fits;
  }

  lemma TopFits(table: seq<Backend>, n: nat, i: nat, w: Workload, p: Policy, avail: map<string, int>)
    requires i < n <= |table| && TopOf(table, n, i, w, p, avail)
    ensures Fits(table[i], w, p, avail)
  {
  }

  /** The alternatives are the other candidates' ids, sorted, as often as candidates have them. */
  lemma AlternativesMean(table: seq<Backend>, w: Workload, p: Policy, avail: map<string, int>)
    ensures var d, bs := Placement(table, w, p, avail), Fitting(table, w, p, avail);
      d.Scheduled? ==>
        && Sorted(d.alternatives) && multiset(d.alternatives) == multiset(Ids(bs))[d.backend.id := 0]
        && forall x :: x in d.alternatives
             <==> x != d.backend.id && exists b :: b in table && Fits(b, w, p, avail) && b.id == x
  {
    var d, bs := Placement(table, w, p, avail), Fitting(table, w, p, avail);
    ChosenFrom(table, w, p, avail);
    FittingMembers(table, w, p, avail);
    if bs != [] {
      IdsButMembers(bs, d.backend.id);
      SortStringsCorrect(IdsBut(bs, d.backend.id));
      hide Placement, Fitting, Fits, Ids, IdsBut, SortStrings, Sorted;
      forall x
        ensures x in d.alternatives <==> x != d.backend.id && exists b :: b in bs && b.id == x
      {
        IdsMembers(bs, x);
        assert x in d.alternatives <==> x in multiset(d.alternatives);
        assert x in Ids(bs) <==> x in multiset(Ids(bs));
      }
    }
  }

  lemma {:induction false} IdsMembers(bs: seq<Backend>, x: string)
    ensures x in Ids(bs) <==> exists b :: b in bs && b.id == x
  {
    if bs == [] {
    } else {
      var n := |bs| - 1;
      IdsMembers(bs[..n], x);
      assert bs == bs[..n] + [bs[n]];
    }
  }

  /** Placement is scheduled exactly when some backend meets every hard constraint; the choice then
      meets them all, even when it is a preference, and is the best of its branch. */
  lemma PlacementMeans(table: seq<Backend>, w: Workload, p: Policy, avail: map<string, int>)
    ensures var d := Placement(table, w, p, avail);
      && (d.Scheduled? <==> exists b :: b in table && Fits(b, w, p, avail))
      && (d.Scheduled? ==>
            && d.backend in table && Fits(d.backend, w, p, avail)
            && (if exists b :: b in table && Fits(b, w, p, avail) && b.id in p.prefer
                then ByPreference(d, table, w, p, avail) else ByRanking(d, table, w, p, avail))
            && d.attestationRequired == (p.requireAttestation || !d.backend.trusted))
  {
    var d, bs := Placement(table, w, p, avail), Fitting(table, w, p, avail);
    FittingMembers(table, w, p, avail);
    ChosenFrom(table, w, p, avail);
    hide Placement, Fitting, Fits, Choose, WhyChosen, ByPreference, ByRanking, IdsBut, SortStrings;
    assert bs != [] ==> bs[0] in bs;
    if exists b :: b in table && Fits(b, w, p, avail) && b.id in p.prefer {
      PreferenceDecides(table, w, p, avail);
    } else if bs != [] {
      RankingDecides(table, w, p, avail);
    }
  }

  /** Sensitive work never lands on an untrusted backend while the policy forbids it. */
  lemma SensitiveStaysTrusted(table: seq<Backend>, w: Workload, p: Policy, avail: map<string, int>)
    requires w.sensitivity == "sensitive" && p.forbidUntrusted
    ensures var d := Placement(table, w, p, avail); d.Scheduled? ==> d.backend.trusted
  {
    PlacementMeans(table, w, p, avail);
  }

  // ----- comparing two placements -----

  /** The same mesh with some backends, none of them `kept`, gone. */
  ghost predicate Loses(avail: map<string, int>, fewer: map<string, int>, kept: string) {
    forall id :: Get(fewer, id) == Get(avail, id) || (Get(fewer, id) <= 0 && id != kept)
  }

  function Remaining(bs: seq<Backend>, avail: map<string, int>): seq<Backend> {
    if bs == [] then []
    else Remaining(bs[..|bs| - 1], avail) + if Get(avail, bs[|bs| - 1].id) > 0 then [bs[|bs| - 1]] else []
  }

  lemma {:induction false} FittingRemains(table: seq<Backend>, w: Workload, p: Policy, avail: map<string, int>,
                                          fewer: map<string, int>, kept: string)
    requires Loses(avail, fewer, kept)
    ensures Fitting(table, w, p, fewer) == Remaining(Fitting(table, w, p, avail), fewer)
  {
    if table == [] {
    } else {
      var n := |table| - 1;
      FittingRemains(table[..n], w, p, avail, fewer, kept);
      var bs := Fitting(table[..n], w, p, avail);
      assert bs + [] == bs && (bs + [table[n]])[..|bs|] == bs;
    }
  }

  lemma {:induction false} RemainingMembers(bs: seq<Backend>, avail: map<string, int>)
    ensures forall b :: b in Remaining(bs, avail) ==> b in bs && Get(avail, b.id) > 0
  {
    if bs == [] {
    } else {
      RemainingMembers(bs[..|bs| - 1], avail);
    }
  }

  lemma BestOfMore(bs: seq<Backend>, last: Backend, scalable: bool, avail: map<string, int>)
    ensures Best(bs + [last], scalable, avail)
      == if bs == [] || Better(last, Best(bs, scalable, avail), scalable, avail)
         then last else Best(bs, scalable, avail)
  {
  }

  /** A new best beats whatever is left of the others. */
  lemma StillNewBest(before: seq<Backend>, last: Backend, scalable: bool, avail: map<string, int>,
      fewer: map<string, int>)
    requires before == [] || Better(last, Best(before, scalable, avail), scalable, avail)
    requires Loses(avail, fewer, last.id) && Get(avail, last.id) > 0
    ensures Best(Remaining(before, fewer) + [last], scalable, fewer) == last
  {
    hide Loses, Best, Better;
    var cs := Remaining(before, fewer);
    BestOfMore(cs, last, scalable, fewer);
    RemainingMembers(before, fewer);
    if cs != [] {
      var j := BestIsFirstBest(cs, scalable, fewer);
      var c := cs[j];
      hide Remaining;
      NotBeaten(before, c, last, scalable, avail);
      LosesAt(avail, fewer, last.id, c.id);
      LosesAt(avail, fewer, last.id, last.id);
      SameRanking(last, c, scalable, avail, fewer);
    }
  }

  /** What beats the best of a list beats every member. */
  lemma NotBeaten(bs: seq<Backend>, c: Backend, last: Backend, scalable: bool, avail: map<string, int>)
    requires c in bs && Better(last, Best(bs, scalable, avail), scalable, avail)
    ensures Better(last, c, scalable, avail)
  {
    var i := BestIsFirstBest(bs, scalable, avail);
    hide Best;
    var k :| 0 <= k < |bs| && bs[k] == c;
    assert k < i ==> Better(bs[i], bs[k], scalable, avail);
    assert i < k ==> !Better(bs[k], bs[i], scalable, avail);
  }

  /** The first of the best is still that when others drop out. */
  lemma {:induction false} BestRemains(bs: seq<Backend>, scalable: bool, avail: map<string, int>,
      fewer: map<string, int>)
    requires bs != [] && Loses(avail, fewer, Best(bs, scalable, avail).id)
    requires Get(avail, Best(bs, scalable, avail).id) > 0
    ensures Remaining(bs, fewer) != [] && Best(Remaining(bs, fewer), scalable, fewer) == Best(bs, scalable, avail)
  {
    hide Loses, Best, Remaining, Better;
    var last, before := bs[|bs| - 1], bs[..|bs| - 1];
    var c, cs := Best(bs, scalable, avail), Remaining(before, fewer);
    assert bs == before + [last];
    BestOfMore(before, last, scalable, avail);
    BestOfMore(cs, last, scalable, fewer);
    RemainingOfMore(before, last, fewer);
    LosesAt(avail, fewer, c.id, c.id);
    LosesAt(avail, fewer, c.id, last.id);
    if before == [] || Better(last, Best(before, scalable, avail), scalable, avail) {
      StillNewBest(before, last, scalable, avail, fewer);
    } else {
      BestRemains(before, scalable, avail, fewer);
      SameRanking(last, c, scalable, avail, fewer);
    }
  }

  lemma LosesAt(avail: map<string, int>, fewer: map<string, int>, kept: string, id: string)
    requires Loses(avail, fewer, kept)
    ensures Get(fewer, id) == Get(avail, id) || (Get(fewer, id) <= 0 && id != kept)
  {
  }

  lemma RemainingOfMore(bs: seq<Backend>, last: Backend, avail: map<string, int>)
    ensures Remaining(bs + [last], avail)
      == if Get(avail, last.id) > 0 then Remaining(bs, avail) + [last] else Remaining(bs, avail)
  {
    assert (bs + [last])[..|bs|] == bs;
    assert Remaining(bs, avail) + [] == Remaining(bs, avail);
  }

  lemma SameRanking(x: Backend, y: Backend, scalable: bool, avail: map<string, int>, fewer: map<string, int>)
    ensures Get(fewer, x.id) == Get(avail, x.id) && Get(fewer, y.id) == Get(avail, y.id) ==>
      (Better(x, y, scalable, fewer) <==> Better(x, y, scalable, avail))
  {
  }

  /** A preference decides the same way when other candidates drop out. */
  lemma PreferredRemains(prefer: seq<string>, bs: seq<Backend>, cs: seq<Backend>)
    requires forall c :: c in cs ==> c in bs
    requires forall b, c :: b in bs && c in bs && b.id == c.id ==> b == c
    requires var f := FirstPreferred(prefer, bs); f.Some? ==> f.value in cs
    ensures FirstPreferred(prefer, cs) == FirstPreferred(prefer, bs)
  {
    var k := FirstPreferredFinds(prefer, bs);
    var l := FirstPreferredFinds(prefer, cs);
    var f, g := FirstPreferred(prefer, bs), FirstPreferred(prefer, cs);
    hide FirstPreferred;
    if f.Some? {
      assert g.value in bs;
      assert k == l;
    }
  }

  /** The candidates left when some backends other than `kept` are gone. */
  lemma CandidatesLeft(table: seq<Backend>, w: Workload, p: Policy, avail: map<string, int>,
                       fewer: map<string, int>, kept: Backend)
    requires DistinctIds(table) && kept in Fitting(table, w, p, avail) && Loses(avail, fewer, kept.id)
    ensures var bs, cs := Fitting(table, w, p, avail), Fitting(table, w, p, fewer);
      && kept in cs && (forall c :: c in cs ==> c in bs)
      && (forall b, c :: b in bs && c in bs && b.id == c.id ==> b == c)
  {
    FittingMembers(table, w, p, avail);
    FittingMembers(table, w, p, fewer);
    hide Fitting;
  }

  /** The choice is one of the candidates, and has capacity. */
  lemma ChosenFits(table: seq<Backend>, w: Workload, p: Policy, avail: map<string, int>)
    requires Fitting(table, w, p, avail) != []
    ensures var c := Choose(Fitting(table, w, p, avail), w, p, avail);
      c in Fitting(table, w, p, avail) && Get(avail, c.id) > 0
  {
    ChosenFrom(table, w, p, avail);
    PlacementMeans(table, w, p, avail);
    FittingMembers(table, w, p, avail);
    hide Placement, Fitting, Choose;
  }

  lemma PreferredIsChosen(bs: seq<Backend>, w: Workload, p: Policy, avail: map<string, int>)
    requires bs != [] && FirstPreferred(p.prefer, bs).Some?
    ensures Choose(bs, w, p, avail) == FirstPreferred(p.prefer, bs).value
  {
    hide FirstPreferred;
  }

  /** A preference that is left decides again. */
  lemma PreferenceStays(bs: seq<Backend>, cs: seq<Backend>, w: Workload, p: Policy, avail: map<string, int>,
                        fewer: map<string, int>)
    requires bs != [] && cs != []
    requires FirstPreferred(p.prefer, bs).Some? && FirstPreferred(p.prefer, cs) == FirstPreferred(p.prefer, bs)
    ensures var d := Choose(bs, w, p, avail);
      Choose(cs, w, p, fewer) == d && WhyChosen(cs, w, p, d) == WhyChosen(bs, w, p, d)
  {
    hide FirstPreferred, Best;
  }

  /** Without one, the first of the best is left and is that again. */
  lemma RankingStays(bs: seq<Backend>, w: Workload, p: Policy, avail: map<string, int>, fewer: map<string, int>)
    requires bs != [] && FirstPreferred(p.prefer, bs).None?
    requires FirstPreferred(p.prefer, Remaining(bs, fewer)).None?
    requires var d := Choose(bs, w, p, avail); Loses(avail, fewer, d.id) && Get(avail, d.id) > 0
    ensures var d, cs := Choose(bs, w, p, avail), Remaining(bs, fewer);
      cs != [] && Choose(cs, w, p, fewer) == d && WhyChosen(cs, w, p, d) == WhyChosen(bs, w, p, d)
  {
    hide FirstPreferred, Best, Loses, Remaining;
    BestRemains(bs, w.scalable, avail, fewer);
  }

  /** Backends that were not chosen do not matter: taking any of them out of the mesh leaves the
      choice and its reason as they were. */
  lemma OthersDoNotMatter(table: seq<Backend>, w: Workload, p: Policy, avail: map<string, int>, fewer: map<string, int>)
    requires DistinctIds(table)
    requires var d := Placement(table, w, p, avail); d.Scheduled? && Loses(avail, fewer, d.backend.id)
    ensures var d, e := Placement(table, w, p, avail), Placement(table, w, p, fewer);
      e.Scheduled? && e.backend == d.backend && e.why == d.why && e.attestationRequired == d.attestationRequired
  {
    hide *;
    var bs, cs := Fitting(table, w, p, avail), Fitting(table, w, p, fewer);
    var d := Placement(table, w, p, avail).backend;
    ChosenFrom(table, w, p, avail);
    ChosenFrom(table, w, p, fewer);
    ChosenFits(table, w, p, avail);
    CandidatesLeft(table, w, p, avail, fewer, d);
    if FirstPreferred(p.prefer, bs).Some? {
      assert FirstPreferred(p.prefer, bs).value == d by { PreferredIsChosen(bs, w, p, avail); }
      PreferredRemains(p.prefer, bs, cs);
      PreferenceStays(bs, cs, w, p, avail, fewer);
    } else {
      PreferredRemains(p.prefer, bs, cs);
      FittingRemains(table, w, p, avail, fewer, d.id);
      RankingStays(bs, w, p, avail, fewer);
    }
  }

  /** A workload that asks for at least as much. */
  ghost predicate AsksMore(w: Workload, more: Workload) {
    && (Sensitive(w) ==> Sensitive(more))
    && (w.needsGpu ==> more.needsGpu)
    && (forall r :: r in w.needs ==> r in more.needs)
  }

  /** Asking for more only shrinks the candidates, so work that was blocked stays blocked. */
  lemma AskingMoreShrinks(table: seq<Backend>, w: Workload, more: Workload, p: Policy, avail: map<string, int>)
    requires AsksMore(w, more)
    ensures forall b :: b in Fitting(table, more, p, avail) ==> b in Fitting(table, w, p, avail)
    ensures Placement(table, w, p, avail).Blocked? ==> Placement(table, more, p, avail).Blocked?
  {
    FittingMembers(table, w, p, avail);
    FittingMembers(table, more, p, avail);
    var bs := Fitting(table, more, p, avail);
    if bs != [] {
      assert bs[0] in bs;
      assert bs[0] in Fitting(table, w, p, avail);
    }
  }
}
