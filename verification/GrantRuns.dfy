/** Whole runs of an authority that mints grants and a node that is shown them, by anyone. */
module GrantRuns {
  import opened Options
  import opened Grant

  /** The authority is asked for a grant, or the node is shown one. */
  datatype Event =
    | Asked(request: Request, id: string, now: int)
    | Shown(grant: Grant, session: string, effect: Option<string>, op: Option<string>, now: int)

  /** The authority of one key. */
  datatype Authority = Authority(hash: Document -> string, sign: Body -> string)

  predicate Mints(a: Authority, e: Event, g: Grant) {
    e.Asked? && Issue(e.request, a.hash, a.sign, e.id, e.now) == Minted(g)
  }

  predicate Accepts(a: Authority, e: Event) {
    e.Shown? && VerifyGrant(e.grant, e.session, HmacVerifier(a.sign), e.effect, e.op, e.now).valid
  }

  /** This signature was handed out with an earlier grant. */
  ghost predicate SeenBefore(a: Authority, es: seq<Event>, k: nat, sig: string) {
    exists j, g :: 0 <= j < k && j < |es| && Mints(a, es[j], g) && g.sig == sig
  }

  /** Nobody but the authority makes signatures of its key: what is shown carries one that was handed out
      before, or one the key gives to no body. Bodies shown may be made up and signatures mixed at will. */
  ghost predicate Unforged(a: Authority, es: seq<Event>) {
    forall k :: 0 <= k < |es| && es[k].Shown? ==>
      SeenBefore(a, es, k, es[k].grant.sig) || forall b :: a.sign(b) != es[k].grant.sig
  }

  /** The key signs a body handed out and a body shown alike only if they are the same. */
  ghost predicate NoCollision(a: Authority, es: seq<Event>) {
    forall j, k, g :: 0 <= j < |es| && 0 <= k < |es| && Mints(a, es[j], g) && es[k].Shown? ==>
      (a.sign(g.body) == a.sign(es[k].grant.body) ==> g.body == es[k].grant.body)
  }

  /** The request stands behind the grant shown: it was minted with this very body, for something attested,
      placed and backed by any quorum it demanded, and what is asked of the node is within it. */
  ghost predicate Covers(a: Authority, asked: Event, shown: Event)
    requires asked.Asked? && shown.Shown?
  {
    var q := asked.request;
    && (exists g :: Mints(a, asked, g) && g.body == shown.grant.body)
    && Attested(q.attestation) && Placed(q.decision) && QuorumMet(q.constraints, q.quorumProof)
    && q.binding.sessionId == Some(shown.session) && shown.now <= Iso(asked.now + q.ttl)
    && Within(q, shown.effect, shown.op)
  }

  lemma AcceptedSigned(a: Authority, e: Event)
    requires Accepts(a, e)
    ensures e.grant.sig == a.sign(e.grant.body)
      && Opens(e.grant, e.session, HmacVerifier(a.sign), e.effect, e.op, e.now)
  {
    PassesIffOpens(e.grant, e.session, HmacVerifier(a.sign), e.effect, e.op, e.now);
  }

  lemma MintedCovers(a: Authority, asked: Event, g: Grant, shown: Event)
    requires Mints(a, asked, g) && shown.Shown? && g.body == shown.grant.body
    requires Opens(shown.grant, shown.session, HmacVerifier(a.sign), shown.effect, shown.op, shown.now)
    ensures Covers(a, asked, shown)
  {
    MintedIff(asked.request, a.hash, a.sign, asked.id, asked.now);
    MintedCarries(asked.request, a.hash, a.sign, asked.id, asked.now);
    hide Issue, Iso;
  }

  /** In any such run a grant that passes was minted, with this very body, by the authority of the key, earlier,
      for a request that was attested and placed; and it passes for the session, within the lifetime and
      for the effect and operations of that request. */
  lemma OnlyMintedPass(a: Authority, es: seq<Event>, k: nat) returns (j: nat)
    requires k < |es| && Accepts(a, es[k]) && Unforged(a, es) && NoCollision(a, es)
    ensures j < k && es[j].Asked? && Covers(a, es[j], es[k])
  {
    var e := es[k];
    AcceptedSigned(a, e);
    hide Covers, Opens, VerifyGrant, Issue;
    assert e.Shown?;
    assert SeenBefore(a, es, k, e.grant.sig);
    var i, g :| 0 <= i < k && i < |es| && Mints(a, es[i], g) && g.sig == e.grant.sig;
    SignedBy(a, es[i], g);
    assert g.body == e.grant.body;
    MintedCovers(a, es[i], g, e);
    j := i;
  }

  lemma SignedBy(a: Authority, e: Event, g: Grant)
    requires Mints(a, e, g)
    ensures e.Asked? && g.sig == a.sign(g.body)
  {
  }
}
