/** tools/admission.py: per-subject quotas and the consumption ledger. Costs are whole numbers of
    10^-6, the precision the source rounds to. */
module Admission {
  import opened Options

  datatype Quota = Quota(maxConcurrent: int, gpuMax: int, costBudget: int)

  /** An explicit per-subject override names some of the three limits. */
  datatype Override = Override(maxConcurrent: Option<int>, gpuMax: Option<int>, costBudget: Option<int>)

  datatype Usage = Usage(concurrent: int, gpu: int, cost: int)

  datatype Axis = CostBudget | GpuMax | MaxConcurrent

  datatype Verdict = Verdict(admitted: bool, exceeded: seq<Axis>, quota: Quota, usage: Usage)

  const DEFAULT_QUOTA := Quota(4, 2, 100_000_000)

  function TierQuota(tier: string): Quota {
    if tier == "free" then Quota(1, 0, 5_000_000)
    else if tier == "pro" then Quota(4, 2, 100_000_000)
    else if tier == "enterprise" then Quota(16, 8, 5_000_000_000)
    else DEFAULT_QUOTA
  }

  /** What is configured per subject: overrides and tiers. */
  datatype Plan = Plan(quotas: map<string, Override>, tiers: map<string, string>)

  function OrElse(x: Option<int>, y: int): int {
    if x.Some? then x.value else y
  }

  function QuotaFor(plan: Plan, key: string): Quota {
    var q := TierQuota(if key in plan.tiers then plan.tiers[key] else "pro");
    if key !in plan.quotas then q
    else
      var o := plan.quotas[key];
      Quota(OrElse(o.maxConcurrent, q.maxConcurrent), OrElse(o.gpuMax, q.gpuMax), OrElse(o.costBudget, q.costBudget))
  }

  type Book = map<string, Usage>

  function UsageOf(book: Book, key: string): Usage {
    if key in book then book[key] else Usage(0, 0, 0)
  }

  function Gpus(needsGpu: bool): int {
    if needsGpu then 1 else 0
  }

  function Exceeded(q: Quota, u: Usage, needsGpu: bool, cost: int): seq<Axis> {
    (if u.cost + cost <= q.costBudget then [] else [CostBudget])
    + (if u.gpu + Gpus(needsGpu) <= q.gpuMax then [] else [GpuMax])
    + if u.concurrent + 1 <= q.maxConcurrent then [] else [MaxConcurrent]
  }

  predicate Admits(plan: Plan, book: Book, key: string, needsGpu: bool, cost: int) {
    Exceeded(QuotaFor(plan, key), UsageOf(book, key), needsGpu, cost) == []
  }

  function AfterCharge(u: Usage, needsGpu: bool, cost: int): Usage {
    Usage(u.concurrent + 1, u.gpu + Gpus(needsGpu), u.cost + cost)
  }

  function ClampedLess(x: int, less: int): int {
    if x - less < 0 then 0 else x - less
  }

  function AfterRelease(u: Usage, needsGpu: bool): Usage {
    Usage(ClampedLess(u.concurrent, 1), ClampedLess(u.gpu, Gpus(needsGpu)), u.cost)
  }

  class AdmissionController {
    const plan: Plan
    var book: Book

    constructor (plan: Plan, book: Book)
      ensures this.plan == plan && this.book == book
    {
      this.plan, this.book := plan, book;
    }

    /** `usage`: the subject's record, made on first sight. */
    method Record(key: string) returns (u: Usage)
      modifies this
      ensures u == UsageOf(old(book), key) && book == old(book)[key := u]
    {
      if key !in book {
        book := book[key := Usage(0, 0, 0)];
      }
      u := book[key];
    }

    method Admit(key: string, needsGpu: bool, cost: int) returns (a: Verdict)
      modifies this
      ensures a.admitted <==> Admits(plan, old(book), key, needsGpu, cost)
      ensures a == Verdict(a.admitted, Exceeded(QuotaFor(plan, key), UsageOf(old(book), key), needsGpu, cost),
                             QuotaFor(plan, key), UsageOf(old(book), key))
      ensures book == old(book)[key := UsageOf(old(book), key)]
    {
      var q := QuotaFor(plan, key);
      var u := Record(key);
      var exceeded := Exceeded(q, u, needsGpu, cost);
      a := Verdict(exceeded == [], exceeded, q, u);
    }

    method Charge(key: string, needsGpu: bool, cost: int) returns (u: Usage)
      modifies this
      ensures u == AfterCharge(UsageOf(old(book), key), needsGpu, cost) && book == old(book)[key := u]
    {
      var r := Record(key);
      r := r.(concurrent := r.concurrent + 1);
      r := r.(gpu := r.gpu + if needsGpu then 1 else 0);
      u := r.(cost := r.cost + cost);
      book := book[key := u];
    }

    method Release(key: string, needsGpu: bool) returns (u: Usage)
      modifies this
      ensures u == AfterRelease(UsageOf(old(book), key), needsGpu) && book == old(book)[key := u]
    {
      var r := Record(key);
      r := r.(concurrent := ClampedLess(r.concurrent, 1));
      u := r.(gpu := ClampedLess(r.gpu, if needsGpu then 1 else 0));
      book := book[key := u];
    }
  }

  // ----- what the limits are, and which are exceeded -----

  /** An explicit override wins axis by axis over the tier, whose limits an unknown tier takes from the
      default; a subject with no tier is on "pro". */
  lemma QuotaLayers(plan: Plan, key: string)
    ensures var q, o :=
      QuotaFor(plan, key), if key in plan.quotas then plan.quotas[key] else Override(None, None, None);
      var tier := TierQuota(if key in plan.tiers then plan.tiers[key] else "pro");
      && (forall x :: o.maxConcurrent == Some(x) ==> q.maxConcurrent == x)
      && (forall x :: o.gpuMax == Some(x) ==> q.gpuMax == x)
      && (forall x :: o.costBudget == Some(x) ==> q.costBudget == x)
      && (o.maxConcurrent.None? ==> q.maxConcurrent == tier.maxConcurrent)
      && (o.gpuMax.None? ==> q.gpuMax == tier.gpuMax)
      && (o.costBudget.None? ==> q.costBudget == tier.costBudget)
    ensures key !in plan.tiers && key !in plan.quotas ==> QuotaFor(plan, key) == DEFAULT_QUOTA
    ensures key in plan.tiers && key !in plan.quotas ==>
      var tier, q := plan.tiers[key], QuotaFor(plan, key);
      && (tier == "free" ==> q == Quota(1, 0, 5_000_000))
      && (tier == "enterprise" ==> q == Quota(16, 8, 5_000_000_000))
      && (tier !in {"free", "enterprise"} ==> q == Quota(4, 2, 100_000_000))
  {
    assert "pro"[0] != "free"[0];
    assert "enterprise"[0] != "free"[0] && "enterprise"[0] != "pro"[0];
  }

  /** The place of an axis among the sorted names. */
  function Position(a: Axis): nat {
    match a
    case CostBudget => 0
    case GpuMax => 1
    case MaxConcurrent => 2
  }

  /** The axes listed are exactly those the job would take over the limit, in the order of their names. */
  lemma ExceededExactly(q: Quota, u: Usage, needsGpu: bool, cost: int)
    ensures var e, v := Exceeded(q, u, needsGpu, cost), AfterCharge(u, needsGpu, cost);
      && (CostBudget in e <==> v.cost > q.costBudget)
      && (GpuMax in e <==> v.gpu > q.gpuMax)
      && (MaxConcurrent in e <==> v.concurrent > q.maxConcurrent)
      && (forall i, j :: 0 <= i < j < |e| ==> Position(e[i]) < Position(e[j]))
      && (e == [] <==> v.cost <= q.costBudget && v.gpu <= q.gpuMax && v.concurrent <= q.maxConcurrent)
  {
    var e := Exceeded(q, u, needsGpu, cost);
    assert e != [] ==> e[0] in e;
  }
}
