/** tools/mcp_a2a_grant.py: minting a Grant (attest, decide, quorum) and checking one at the node.
    Times are whole microseconds; hashing and signing are functions of what they are given. */
module Grant {
  import opened Options
  import opened ComputePlane

  const SECOND := 1_000_000

  /** A timestamp as it is printed and read back: cut to whole seconds. */
  function Iso(t: int): int {
    t - t % SECOND
  }

  /** Python's `int` on a number of seconds: towards zero. */
  function WholeSeconds(t: int): int {
    if t >= 0 then t / SECOND else -(-t / SECOND)
  }

  /** What a dictionary holds beside the keys the code looks at, value by value as text. */
  type Rest = map<string, string>

  datatype Binding =
    Binding(spiffeId: Option<string>, aumDigest: Option<string>, sessionId: Option<string>, rest: Rest)

  datatype Capability = Capability(effect: Option<string>, executorRef: Option<string>, rest: Rest)

  datatype Constraints = Constraints(
    requireQuorum: bool, quorumThreshold: Option<int>, ttlSec: Option<int>, opsAllow: Option<seq<string>>, rest: Rest)

  /** The results of an attestation; a grant needs the first two. */
  datatype Results = Results(tpmValid: bool, cosignValid: bool, fido2Valid: Option<bool>, rest: Rest)

  datatype Attestation = Attestation(results: Results, rest: Rest)

  /** The documents that are hashed. */
  datatype Document =
    | OfAttestation(attestation: Attestation)
    | OfDecision(decision: Decision)
    | OfPolicy(binding: Binding, capability: Capability, constraints: Constraints, backend: string, results: Results)

  /** A Grant without its signature. */
  datatype Body = Body(
    id: string, issuedAt: int, expiresAt: int, binding: Binding, capability: Capability, constraints: Constraints,
    policyHash: string, quorumProof: Option<seq<string>>, evidence: map<string, string>)

  /** An empty signature is a missing one. */
  datatype Grant = Grant(body: Body, issuer: string, sig: string)

  datatype Refusal = NotAttested | NotPlaced | NoQuorum

  datatype Issued = Minted(grant: Grant) | Refused(why: Refusal)

  function Sha256(hash: Document -> string, d: Document): string {
    "sha256:" + hash(d)
  }

  function OrDefault<T>(x: Option<T>, default: T): T {
    if x.Some? then x.value else default
  }

  function SetDefault(m: map<string, string>, k: string, v: string): map<string, string> {
    if k in m then m else m[k := v]
  }

  predicate Placed(d: Decision) {
    d.Scheduled? && d.backend.id != ""
  }

  predicate Attested(a: Attestation) {
    a.results.tpmValid && a.results.cosignValid
  }

  /** Only the three named keys of a binding go into the grant. */
  function Bound(b: Binding): Binding {
    b.(rest := map[])
  }

  predicate QuorumMet(c: Constraints, proof: Option<seq<string>>) {
    c.requireQuorum ==> proof.Some? && |proof.value| >= OrDefault(c.quorumThreshold, 2)
  }

  const HASH_KEY := "attestation_bundle_hash"

  /** The authority's request: everything `issue_grant` is told besides the clock and the id. */
  datatype Request = Request(
    binding: Binding, capability: Capability, decision: Decision, attestation: Attestation, constraints: Constraints,
    issuer: string, ttl: int, quorumProof: Option<seq<string>>, evidence: map<string, string>)

  function BoundTo(c: Capability, d: Decision): Capability
    requires d.Scheduled?
  {
    c.(executorRef := Some(OrDefault(c.executorRef, "node://" + d.backend.id)))
  }

  /** What the node is to enforce: the authority's own directives taken out, the lifetime put in. */
  function Enforceable(c: Constraints, ttl: int): Constraints {
    Constraints(false, None, Some(OrDefault(c.ttlSec, WholeSeconds(ttl))), c.opsAllow, c.rest)
  }

  function Evidence(q: Request, hash: Document -> string): map<string, string> {
    var e := SetDefault(q.evidence, "attestation_bundle_ref", "worm://attest/inline");
    var e := SetDefault(e, HASH_KEY, Sha256(hash, OfAttestation(q.attestation)));
    var e := SetDefault(e, "hdt_decision_ref", "worm://hdt/decision");
    SetDefault(e, "hdt_decision_hash", Sha256(hash, OfDecision(q.decision)))
  }

  function GrantBody(q: Request, hash: Document -> string, id: string, now: int): Body
    requires Placed(q.decision)
  {
    var cap, con := BoundTo(q.capability, q.decision), Enforceable(q.constraints, q.ttl);
    Body(id, Iso(now), Iso(now + q.ttl), Bound(q.binding), cap, con,
         Sha256(hash, OfPolicy(q.binding, cap, con, q.decision.backend.id, q.attestation.results)),
         q.quorumProof, Evidence(q, hash))
  }

  function Issue(q: Request, hash: Document -> string, sign: Body -> string, id: string, now: int): Issued {
    if !Attested(q.attestation) then Refused(NotAttested)
    else if !Placed(q.decision) then Refused(NotPlaced)
    else if !QuorumMet(q.constraints, q.quorumProof) then Refused(NoQuorum)
    else
      var body := GrantBody(q, hash, id, now);
      Minted(Grant(body, q.issuer, sign(body)))
  }

  method IssueGrant(q: Request, hash: Document -> string, sign: Body -> string, id: string, now: int)
    returns (r: Issued)
    ensures r == Issue(q, hash, sign, id, now)
  {
    if !Attested(q.attestation) {
      return Refused(NotAttested);
    }
    if !Placed(q.decision) {
      return Refused(NotPlaced);
    }
    if q.constraints.requireQuorum {
      var threshold := OrDefault(q.constraints.quorumThreshold, 2);
      var sigs := OrDefault(q.quorumProof, []);
      if q.quorumProof.None? || |sigs| < threshold {
        return Refused(NoQuorum);
      }
    }
    var cap := q.capability;
    if cap.executorRef.None? {
      cap := cap.(executorRef := Some("node://" + q.decision.backend.id));
    }
    var enforceable := q.constraints.(requireQuorum := false, quorumThreshold := None);
    if enforceable.ttlSec.None? {
      enforceable := enforceable.(ttlSec := Some(WholeSeconds(q.ttl)));
    }
    var ev := q.evidence;
    ev := SetDefault(ev, "attestation_bundle_ref", "worm://attest/inline");
    ev := SetDefault(ev, HASH_KEY, Sha256(hash, OfAttestation(q.attestation)));
    ev := SetDefault(ev, "hdt_decision_ref", "worm://hdt/decision");
    ev := SetDefault(ev, "hdt_decision_hash", Sha256(hash, OfDecision(q.decision)));
    var policy := OfPolicy(q.binding, cap, enforceable, q.decision.backend.id, q.attestation.results);
    var binding := Binding(q.binding.spiffeId, q.binding.aumDigest, q.binding.sessionId, map[]);
    var body :=
      Body(id, Iso(now), Iso(now + q.ttl), binding, cap, enforceable, Sha256(hash, policy), q.quorumProof, ev);
    r := Minted(Grant(body, q.issuer, sign(body)));
  }

  // ----- the gate at the node -----

  datatype Finding = Active | BadSignature | WrongSession | Expired | NoAttestation | EffectNotGranted | OpNotAllowed

  datatype Check = Check(valid: bool, expired: bool, finding: Finding)

  function VerifyGrant(g: Grant, session: string, verify: (Body, string) -> bool, effect: Option<string>,
                       op: Option<string>, now: int): (c: Check)
    ensures (c.valid <==> c.finding == Active) && (c.expired <==> c.finding == Expired)
  {
    if !(g.sig != "" && verify(g.body, g.sig)) then Check(false, false, BadSignature)
    else if g.body.binding.sessionId != Some(session) then Check(false, false, WrongSession)
    else if now > g.body.expiresAt then Check(false, true, Expired)
    else if HASH_KEY !in g.body.evidence || g.body.evidence[HASH_KEY] == "" then Check(false, false, NoAttestation)
    else if effect.Some? && effect != g.body.capability.effect then Check(false, false, EffectNotGranted)
    else if op.Some? && g.body.constraints.opsAllow.Some? && op.value !in g.body.constraints.opsAllow.value
    then Check(false, false, OpNotAllowed)
    else Check(true, false, Active)
  }

  /** The gate as one condition on a grant, wherever it comes from. */
  ghost predicate Opens(g: Grant, session: string, verify: (Body, string) -> bool, effect: Option<string>,
      op: Option<string>, now: int) {
    && g.sig != "" && verify(g.body, g.sig)
    && g.body.binding.sessionId == Some(session)
    && now <= g.body.expiresAt
    && HASH_KEY in g.body.evidence && g.body.evidence[HASH_KEY] != ""
    && (effect.Some? ==> effect == g.body.capability.effect)
    && (op.Some? && g.body.constraints.opsAllow.Some? ==> op.value in g.body.constraints.opsAllow.value)
  }

  /** The early-return chain passes a grant exactly when all of its conditions hold. */
  lemma PassesIffOpens(g: Grant, session: string, verify: (Body, string) -> bool, effect: Option<string>,
      op: Option<string>, now: int)
    ensures VerifyGrant(g, session, verify, effect, op, now).valid <==> Opens(g, session, verify, effect, op, now)
  {
  }

  /** What the node finds is the first thing wrong with the grant, in this order; only a grant found expired is
      reported as such, and only one with nothing wrong as valid. */
  lemma FindingMeans(g: Grant, session: string, verify: (Body, string) -> bool, effect: Option<string>,
      op: Option<string>, now: int)
    ensures var c := VerifyGrant(g, session, verify, effect, op, now);
      var signed := g.sig != "" && verify(g.body, g.sig);
      var mine := signed && g.body.binding.sessionId == Some(session);
      var due := mine && now <= g.body.expiresAt;
      var key := "attestation_bundle_hash";
      var attested := due && key in g.body.evidence && g.body.evidence[key] != "";
      var granted := attested && (effect == None || effect == g.body.capability.effect);
      var allowed := op.None? || g.body.constraints.opsAllow.None? || op.value in g.body.constraints.opsAllow.value;
      && (c.finding == BadSignature <==> !signed)
      && (c.finding == WrongSession <==> signed && !mine)
      && (c.finding == Expired <==> mine && now > g.body.expiresAt)
      && (c.finding == NoAttestation <==> due && !attested)
      && (c.finding == EffectNotGranted <==> attested && !granted)
      && (c.finding == OpNotAllowed <==> granted && !allowed)
      && (c.finding == Active <==> granted && allowed)
      && (c.expired <==> mine && now > g.body.expiresAt)
      && (c.valid <==> granted && allowed)
  {
  }

  /** The effect and the operation asked for are within what was requested of the authority. */
  predicate Within(q: Request, effect: Option<string>, op: Option<string>) {
    && (effect.Some? ==> effect == q.capability.effect)
    && (op.Some? && q.constraints.opsAllow.Some? ==> op.value in q.constraints.opsAllow.value)
  }

  /** The verifier accepts what the signer signs, and the signer's signatures are not empty. */
  ghost predicate Matching(sign: Body -> string, verify: (Body, string) -> bool) {
    forall b :: sign(b) != "" && verify(b, sign(b))
  }

  /** `hmac_verifier`: recompute and compare. */
  function HmacVerifier(sign: Body -> string): (Body, string) -> bool {
    (b, sig) => sign(b) == sig
  }

  /** A grant is minted exactly when the attestation holds, a real backend was placed and any quorum
      the constraints demand is there; the first of the three that fails is the one reported. */
  lemma MintedIff(q: Request, hash: Document -> string, sign: Body -> string, id: string, now: int)
    ensures var r, c := Issue(q, hash, sign, id, now), q.constraints;
      var attested := q.attestation.results.tpmValid && q.attestation.results.cosignValid;
      var placed := q.decision.Scheduled? && q.decision.backend.id != "";
      var needed := if c.quorumThreshold.Some? then c.quorumThreshold.value else 2;
      var backed := c.requireQuorum ==> q.quorumProof.Some? && |q.quorumProof.value| >= needed;
      && (r.Minted? <==> attested && placed && backed)
      && (r == Refused(NotAttested) <==> !attested)
      && (r == Refused(NotPlaced) <==> attested && !placed)
      && (r == Refused(NoQuorum) <==> attested && placed && !backed)
    ensures Issue(q, hash, sign, id, now).Minted?
      <==> Attested(q.attestation) && Placed(q.decision) && QuorumMet(q.constraints, q.quorumProof)
  {
    hide GrantBody;
  }

  /** A freshly minted grant passes the gate with matching keys exactly for its own session, up to its
      truncated expiry, and for an effect and operation within the request, provided the caller did not
      supply an empty attestation hash of its own. */
  lemma FreshGrantVerifies(q: Request, hash: Document -> string, sign: Body -> string, verify: (Body, string) -> bool,
                           id: string, issued: int, session: string, effect: Option<string>, op: Option<string>,
                           now: int)
    requires Matching(sign, verify)
    requires Issue(q, hash, sign, id, issued).Minted?
    ensures VerifyGrant(Issue(q, hash, sign, id, issued).grant, session, verify, effect, op, now).valid
      <==> && q.binding.sessionId == Some(session)
           && now <= Iso(issued + q.ttl)
           && (HASH_KEY in q.evidence ==> q.evidence[HASH_KEY] != "")
           && Within(q, effect, op)
  {
  }

  /** The entries of the evidence that are filled in. */
  const EVIDENCE_KEYS :=
    ["attestation_bundle_ref", "attestation_bundle_hash", "hdt_decision_ref", "hdt_decision_hash"]

  /** A minted grant carries what was asked for: the binding and the capability as given, the operations
      allowed, the authority's own directives gone, and the caller's evidence with the missing entries
      filled in from the attestation and the decision it rests on. */
  lemma MintedCarries(q: Request, hash: Document -> string, sign: Body -> string, id: string, now: int)
    requires Issue(q, hash, sign, id, now).Minted?
    ensures var g := Issue(q, hash, sign, id, now).grant;
      && g.body.id == id && g.issuer == q.issuer && g.sig == sign(g.body)
      && g.body.issuedAt == Iso(now) && g.body.expiresAt == Iso(now + q.ttl)
      && g.body.binding == Binding(q.binding.spiffeId, q.binding.aumDigest, q.binding.sessionId, map[])
      && g.body.quorumProof == q.quorumProof
      && g.body.capability.effect == q.capability.effect && g.body.capability.rest == q.capability.rest
      && g.body.constraints.opsAllow == q.constraints.opsAllow && g.body.constraints.rest == q.constraints.rest
      && !g.body.constraints.requireQuorum && g.body.constraints.quorumThreshold.None?
      && g.body.constraints.ttlSec
         == (if q.constraints.ttlSec.Some? then q.constraints.ttlSec else Some(WholeSeconds(q.ttl)))
      && g.body.capability.executorRef
         == (if q.capability.executorRef.Some? then q.capability.executorRef
             else Some("node://" + q.decision.backend.id))
      && (forall k :: k in q.evidence ==> k in g.body.evidence && g.body.evidence[k] == q.evidence[k])
      && (forall k :: k in g.body.evidence ==> k in q.evidence || k in EVIDENCE_KEYS)
      && (EVIDENCE_KEYS[0] !in q.evidence ==> g.body.evidence[EVIDENCE_KEYS[0]] == "worm://attest/inline")
      && (EVIDENCE_KEYS[1] !in q.evidence ==>
            g.body.evidence[EVIDENCE_KEYS[1]] == "sha256:" + hash(OfAttestation(q.attestation)))
      && (EVIDENCE_KEYS[2] !in q.evidence ==> g.body.evidence[EVIDENCE_KEYS[2]] == "worm://hdt/decision")
      && (EVIDENCE_KEYS[3] !in q.evidence ==>
            g.body.evidence[EVIDENCE_KEYS[3]] == "sha256:" + hash(OfDecision(q.decision)))
  {
    KeysDiffer();
    hide Iso, WholeSeconds;
  }

  lemma KeysDiffer()
    ensures "attestation_bundle_ref" != HASH_KEY && "hdt_decision_ref" != HASH_KEY && "hdt_decision_hash" != HASH_KEY
    ensures "hdt_decision_ref" != "hdt_decision_hash" && "attestation_bundle_ref" != "hdt_decision_hash"
    ensures "attestation_bundle_ref" != "hdt_decision_ref"
  {
    assert |"attestation_bundle_ref"| == 22 && |HASH_KEY| == 23 && |"hdt_decision_ref"| == 16
      && |"hdt_decision_hash"| == 17;
  }

  /** What the policy hash of a request's grant is taken over. */
  function PolicyOf(q: Request): Document
    requires Placed(q.decision)
  {
    OfPolicy(q.binding, BoundTo(q.capability, q.decision), Enforceable(q.constraints, q.ttl), q.decision.backend.id,
             q.attestation.results)
  }

  /** With a hash that tells their two policies apart, two grants have the same policy hash exactly when they
      agree on the whole binding asked for, the capability, the enforceable constraints, the backend and
      the whole attestation results. */
  lemma PolicyHashBinds(q: Request, r: Request, hash: Document -> string, sign: Body -> string, id: string,
      id': string, now: int, now': int)
    requires Issue(q, hash, sign, id, now).Minted? && Issue(r, hash, sign, id', now').Minted?
    requires hash(PolicyOf(q)) == hash(PolicyOf(r)) ==> PolicyOf(q) == PolicyOf(r)
    ensures var b, c := Issue(q, hash, sign, id, now).grant.body, Issue(r, hash, sign, id', now').grant.body;
      b.policyHash == c.policyHash <==>
        && q.binding == r.binding && b.capability == c.capability && b.constraints == c.constraints
        && q.decision.backend.id == r.decision.backend.id && q.attestation.results == r.attestation.results
  {
    var b, c := Issue(q, hash, sign, id, now).grant.body, Issue(r, hash, sign, id', now').grant.body;
    assert b.policyHash == Sha256(hash, PolicyOf(q)) && c.policyHash == Sha256(hash, PolicyOf(r));
    if b.policyHash == c.policyHash {
      assert hash(PolicyOf(q)) == b.policyHash[7..] && hash(PolicyOf(r)) == c.policyHash[7..];
    }
  }

  /** Truncation costs a grant less than a second of its lifetime, and never adds any; what is left is whole. */
  lemma LifetimeWithinASecond(issued: int, ttl: int)
    ensures issued + ttl - SECOND < Iso(issued + ttl) <= issued + ttl && Iso(issued + ttl) % SECOND == 0
  {
  }

  /** The lifetime the node is told is cut towards zero, whatever its sign. */
  lemma LifetimeTold(ttl: int)
    ensures ttl >= 0 ==> 0 <= ttl - WholeSeconds(ttl) * SECOND < SECOND
    ensures ttl <= 0 ==> 0 <= WholeSeconds(ttl) * SECOND - ttl < SECOND
  {
  }

  /** Whether a grant is still good at the very moment it is issued: it may not be, when the lifetime
      is under a second and ends before the next whole one. */
  lemma BornExpired(issued: int, ttl: int)
    requires 0 <= ttl
    ensures issued > Iso(issued + ttl) <==> issued % SECOND > 0 && ttl < SECOND - issued % SECOND
  {
  }

  /** The grant names the node that was chosen exactly when the caller named none or the same one. */
  lemma NamesTheNode(q: Request, hash: Document -> string, sign: Body -> string, id: string, now: int)
    requires Issue(q, hash, sign, id, now).Minted?
    ensures Issue(q, hash, sign, id, now).grant.body.capability.executorRef == Some("node://" + q.decision.backend.id)
      <==> q.capability.executorRef in {None, Some("node://" + q.decision.backend.id)}
  {
  }

  /** Carrying a signature over to a body the key signs differently is refused as a bad signature whatever
      else holds. */
  lemma TamperingIsRefused(g: Grant, sign: Body -> string, body: Body, session: string, effect: Option<string>,
                           op: Option<string>, now: int)
    requires g.sig == sign(g.body) && sign(body) != sign(g.body)
    ensures VerifyGrant(g.(body := body), session, HmacVerifier(sign), effect, op, now).finding == BadSignature
  {
  }

  /** An expired grant is never valid again, under any request. */
  lemma ExpiryIsFinal(g: Grant, verify: (Body, string) -> bool, session: string, effect: Option<string>,
      op: Option<string>,
                      now: int, later: int, session': string, effect': Option<string>, op': Option<string>)
    requires VerifyGrant(g, session, verify, effect, op, now).expired && now <= later
    ensures !VerifyGrant(g, session', verify, effect', op', later).valid
  {
  }
}
