/** tools/push_webhook.py and tools/deploy_flow.py: from one webhook delivery to a recorded release. */
module PushWebhook {
  import opened Options
  import opened Orders
  import opened Bytes
  import opened Buildpack
  import opened ReleaseLedger

  datatype Commit = Commit(added: seq<string>, modified: seq<string>)

  /** The fields of a push payload the deploy needs; an empty ref or repository stands for a missing one. */
  datatype Payload = Payload(ref: string, after: string, deleted: bool, repo: string, commits: seq<Commit>)

  datatype Parsed = NotJson | NotObject | Object(payload: Payload)

  /** What a receiver is set up with. `resolve`, when there is one, lists the files at a pushed commit. */
  datatype Host = Host(
    secret: string, mac: (string, seq<byte>) -> string, parse: seq<byte> -> Parsed,
    resolve: Option<(string, string, string) -> seq<string>>, hash: Hash, mint: Mint)

  datatype Delivery = Delivery(header: string, body: seq<byte>, created: string, stamp: string)

  // ----- the door -----

  /** Unicode white space, as Python's `str.strip` takes it. */
  predicate IsSpace(c: char) {
    var n := c as int;
    || 0x09 <= n <= 0x0D || 0x1C <= n <= 0x20 || n == 0x85 || n == 0xA0 || n == 0x1680 || 0x2000 <= n <= 0x200A
    || n == 0x2028 || n == 0x2029 || n == 0x202F || n == 0x205F || n == 0x3000
  }

  function StripLeft(s: string): string {
    if s != "" && IsSpace(s[0]) then StripLeft(s[1..]) else s
  }

  function StripRight(s: string): string {
    if s != "" && IsSpace(s[|s| - 1]) then StripRight(s[..|s| - 1]) else s
  }

  function Strip(s: string): string {
    StripRight(StripLeft(s))
  }

  predicate StartsWith(s: string, p: string) {
    p <= s
  }

  predicate Ascii(s: string) {
    forall c :: c in s ==> c as int < 128
  }

  /** A comparison of text that is not ASCII raises. */
  datatype Door = Open | Shut | Raises

  const SCHEME := "sha256="

  function Provided(header: string): string {
    Strip(if StartsWith(header, SCHEME) then header[|SCHEME|..] else header)
  }

  function VerifySignature(h: Host, body: seq<byte>, header: string): Door {
    if h.secret == "" || header == "" || body == [] then Shut
    else if !Ascii(Provided(header)) then Raises
    else if h.mac(h.secret, body) == Provided(header) then Open
    else Shut
  }

  // ----- the event -----

  const HEADS := "refs/heads/"
  const ZERO_SHA := "0000000000000000000000000000000000000000"

  predicate IsBranch(p: Payload) {
    StartsWith(p.ref, HEADS)
  }

  function BranchOf(p: Payload): string
    requires IsBranch(p)
  {
    p.ref[|HEADS|..]
  }

  predicate IsDeleted(p: Payload) {
    p.deleted || p.after == ZERO_SHA
  }

  function Touched(commits: seq<Commit>): seq<string> {
    if commits == [] then []
    else Touched(commits[..|commits| - 1]) + commits[|commits| - 1].added + commits[|commits| - 1].modified
  }

  function Distinct(s: seq<string>): seq<string> {
    if s == [] then []
    else
      var r := Distinct(s[..|s| - 1]);
      if s[|s| - 1] in r then r else r + [s[|s| - 1]]
  }

  /** Each added or modified path once, sorted. */
  function ChangedFiles(p: Payload): seq<string> {
    SortStrings(Distinct(Touched(p.commits)))
  }

  function SourceFiles(h: Host, p: Payload): seq<string> {
    if h.resolve.Some? then h.resolve.value(p.repo, p.ref, p.after) else ChangedFiles(p)
  }

  // ----- build, and record what was built -----

  /** `on_push`: the app built for a branch of a repository. */
  function OnPush(repo: string, branch: string, files: seq<string>, hash: Hash): Build {
    BuildPlan(files, repo + "-" + branch, hash)
  }

  function DeployRelease(b: Build, branch: string, mint: Mint, created: string): Release
    requires b.Built?
  {
    Release(mint(b.digest, created), branch, b.image, b.digest, WorkloadName(b), "deployed", "deploy", None, None)
  }

  datatype Verdict =
    | Raised | BadSignature | MalformedBody | NotABranch | BranchDeleted | BuildFailed
    | Deployed(build: Build, release: Release)

  function Judge(h: Host, d: Delivery): Verdict {
    match VerifySignature(h, d.body, d.header)
    case Raises => Raised
    case Shut => BadSignature
    case Open =>
      match h.parse(d.body)
      case NotJson => MalformedBody
      case NotObject => MalformedBody
      case Object(p) =>
        if !IsBranch(p) || p.repo == "" then NotABranch
        else if IsDeleted(p) then BranchDeleted
        else
          var build := OnPush(p.repo, BranchOf(p), SourceFiles(h, p), h.hash);
          if build.NoMatch? then BuildFailed else Deployed(build, DeployRelease(build, BranchOf(p), h.mint, d.created))
  }

  /** One delivery. With a ledger, a deploy is recorded as a release; nothing else writes to it. */
  method HandlePush(h: Host, d: Delivery, ledger: ReleaseLog?) returns (v: Verdict)
    requires ledger != null ==> ledger.Valid()
    modifies if ledger == null then {} else {ledger}
    ensures v == Judge(h, d)
    ensures ledger != null ==>
              && ledger.Valid() && ledger.Log() == old(ledger.Log()) + (if v.Deployed? then [v.release] else [])
              && ledger.Dir() == if v.Deployed? then Put(old(ledger.Dir()), v.release, d.stamp) else old(ledger.Dir())
  {
    var door := VerifySignature(h, d.body, d.header);
    if door.Raises? {
      return Raised;
    }
    if door.Shut? {
      return BadSignature;
    }
    var parsed := h.parse(d.body);
    if !parsed.Object? {
      return MalformedBody;
    }
    var p := parsed.payload;
    if !IsBranch(p) || p.repo == "" {
      return NotABranch;
    }
    if IsDeleted(p) {
      return BranchDeleted;
    }
    var files := SourceFiles(h, p);
    var build := OnPush(p.repo, BranchOf(p), files, h.hash);
    if build.NoMatch? {
      return BuildFailed;
    }
    var release := DeployRelease(build, BranchOf(p), h.mint, d.created);
    if ledger != null {
      ledger.Record(release, d.stamp);
    }
    v := Deployed(build, release);
  }

  // ----- what gets through the door -----

  /** What the door does: it opens exactly for a header whose signature is the MAC of the body under a secret, neither
      of them empty, and raises instead of comparing a text that is not ASCII. */
  lemma DoorMeans(h: Host, body: seq<byte>, header: string)
    ensures var door := VerifySignature(h, body, header);
      var asked := h.secret != "" && header != "" && body != [];
      var plain := forall c :: c in Provided(header) ==> c < '\U{80}';
      && (door.Raises? <==> asked && !plain)
      && (door.Open? <==> asked && plain && Provided(header) == h.mac(h.secret, body))
  {
    hide Provided;
  }

  /** A push to a branch, by its full name, of a repository with a name. */
  predicate ToBranch(p: Payload) {
    "refs/heads/" <= p.ref && p.repo != ""
  }

  /** The branch is said to be deleted, or is left at the commit of forty zeros. */
  predicate Gone(p: Payload) {
    p.deleted || (|p.after| == 40 && forall c :: c in p.after ==> c == '0')
  }

  /** The files that are built: those the checkout lists, or the ones the push says it touched. */
  function Listed(h: Host, p: Payload): seq<string> {
    if h.resolve == None then ChangedFiles(p) else h.resolve.value(p.repo, p.ref, p.after)
  }

  lemma PayloadMeans(h: Host, p: Payload)
    ensures ToBranch(p) <==> IsBranch(p) && p.repo != ""
    ensures Gone(p) <==> IsDeleted(p)
    ensures Listed(h, p) == SourceFiles(h, p)
    ensures IsBranch(p) ==> p.ref == "refs/heads/" + BranchOf(p)
  {
    if |p.after| == 40 && forall c :: c in p.after ==> c == '0' {
      forall i | 0 <= i < 40 ensures p.after[i] == ZERO_SHA[i] {
        assert p.after[i] in p.after;
        ZeroAt(i);
      }
      assert p.after == ZERO_SHA;
    }
    if p.after == ZERO_SHA {
      forall c | c in p.after ensures c == '0' {
        var i :| 0 <= i < |ZERO_SHA| && ZERO_SHA[i] == c;
        ZeroAt(i);
      }
    }
    hide ChangedFiles;
  }

  lemma ZeroAt(i: nat)
    requires i < 40
    ensures |ZERO_SHA| == 40 && ZERO_SHA[i] == '0'
  {
  }

  /** A delivery deploys exactly when its signature verifies, its body is a push to a branch of a named
      repository that was not deleted, and some buildpack matches its files. */
  lemma DeployedIff(h: Host, d: Delivery)
    ensures Judge(h, d).Deployed? <==>
      && h.secret != "" && d.body != [] && d.header != ""
      && Provided(d.header) == h.mac(h.secret, d.body) && Ascii(Provided(d.header))
      && h.parse(d.body).Object?
      && var p := h.parse(d.body).payload;
         ToBranch(p) && !Gone(p) && exists i: nat :: FirstSignalled(i, Listed(h, p))
  {
    if h.parse(d.body).Object? {
      var p := h.parse(d.body).payload;
      PayloadMeans(h, p);
      if IsBranch(p) {
        BuildMeans(SourceFiles(h, p), p.repo + "-" + BranchOf(p), h.hash);
      }
    }
    hide BuildPlan, FirstSignalled, SourceFiles, Listed, Strip, Gone, IsDeleted, ToBranch, IsBranch;
  }

  /** Why every other delivery does not deploy: the first thing wrong with it, in this order. */
  lemma VerdictsMean(h: Host, d: Delivery)
    ensures var v, door := Judge(h, d), VerifySignature(h, d.body, d.header);
      && (v.Raised? <==> door.Raises?) && (v.BadSignature? <==> door.Shut?)
      && (v.MalformedBody? <==> door.Open? && !h.parse(d.body).Object?)
      && (door.Open? && h.parse(d.body).Object? ==>
            var p := h.parse(d.body).payload;
            && (v.NotABranch? <==> !ToBranch(p))
            && (v.BranchDeleted? <==> ToBranch(p) && Gone(p))
            && (v.BuildFailed? <==> ToBranch(p) && !Gone(p) && !exists i: nat :: FirstSignalled(i, Listed(h, p))))
  {
    if h.parse(d.body).Object? {
      var p := h.parse(d.body).payload;
      PayloadMeans(h, p);
      if IsBranch(p) {
        BuildMeans(SourceFiles(h, p), p.repo + "-" + BranchOf(p), h.hash);
      }
    }
    hide VerifySignature, BuildPlan, FirstSignalled, SourceFiles, Listed, Gone, IsDeleted, ToBranch, IsBranch;
  }

  /** The characters stripped that are ASCII: tab to carriage return, the four separators, and the space. */
  lemma SpacesMean(c: char)
    requires c as int < 128
    ensures IsSpace(c) <==> c in {'\t', '\n', '\U{0B}', '\U{0C}', '\r', '\U{1C}', '\U{1D}', '\U{1E}', '\U{1F}', ' '}
  {
  }

  /** Stripping takes white space off both ends, all of it, and leaves the rest as it is. */
  lemma StripMeans(s: string) returns (left: string, right: string)
    ensures s == left + Strip(s) + right
    ensures forall c :: c in left + right ==> IsSpace(c)
    ensures Strip(s) != "" ==> !IsSpace(Strip(s)[0]) && !IsSpace(Strip(s)[|Strip(s)| - 1])
  {
    left := StripsLeftOff(s);
    right := StripsRightOff(StripLeft(s));
    hide StripLeft, StripRight, IsSpace;
    assert s == left + (Strip(s) + right);
    if Strip(s) != "" {
      assert StripLeft(s)[0] == Strip(s)[0];
    }
  }

  lemma {:induction false} StripsLeftOff(s: string) returns (left: string)
    ensures s == left + StripLeft(s) && (forall c :: c in left ==> IsSpace(c))
    ensures StripLeft(s) != "" ==> !IsSpace(StripLeft(s)[0])
  {
    if s != "" && IsSpace(s[0]) {
      var rest := StripsLeftOff(s[1..]);
      left := [s[0]] + rest;
      assert s == [s[0]] + s[1..];
    } else {
      left := "";
    }
  }

  lemma {:induction false} StripsRightOff(s: string) returns (right: string)
    ensures s == StripRight(s) + right && (forall c :: c in right ==> IsSpace(c))
    ensures StripRight(s) != "" ==> !IsSpace(StripRight(s)[|StripRight(s)| - 1])
  {
    if s != "" && IsSpace(s[|s| - 1]) {
      var rest := StripsRightOff(s[..|s| - 1]);
      right := rest + [s[|s| - 1]];
      assert s == s[..|s| - 1] + [s[|s| - 1]];
    } else {
      right := "";
      assert s + "" == s;
    }
  }

  predicate NoSpace(s: string) {
    forall c :: c in s ==> !IsSpace(c)
  }

  lemma {:induction false} StripsPadding(left: string, s: string, right: string)
    requires s != "" && NoSpace(s)
    requires forall c :: c in left + right ==> IsSpace(c)
    ensures Strip(left + s + right) == s
  {
    if left != "" {
      assert left[0] in left + right;
      assert (left + s + right)[1..] == left[1..] + s + right;
      StripsPadding(left[1..], s, right);
    } else {
      assert left + s + right == s + right;
      assert s[0] in s;
      StripsRight(s, right);
    }
  }

  lemma {:induction false} StripsRight(s: string, right: string)
    requires s != "" && NoSpace(s) && forall c :: c in right ==> IsSpace(c)
    ensures StripRight(s + right) == s
  {
    if right == "" {
      assert s + right == s && s[|s| - 1] in s;
    } else {
      assert right[|right| - 1] in right;
      assert (s + right)[..|s + right| - 1] == s + right[..|right| - 1];
      StripsRight(s, right[..|right| - 1]);
    }
  }

  /** Both header styles open the door, with any white space around the hex. */
  lemma BothStylesOpen(h: Host, body: seq<byte>, left: string, right: string)
    requires h.secret != "" && body != []
    requires var m := h.mac(h.secret, body); m != "" && NoSpace(m) && Ascii(m) && 'h' !in m
    requires forall c :: c in left + right ==> IsSpace(c)
    ensures VerifySignature(h, body, SCHEME + left + h.mac(h.secret, body) + right).Open?
    ensures VerifySignature(h, body, left + h.mac(h.secret, body) + right).Open?
  {
    var m := h.mac(h.secret, body);
    StripsPadding(left, m, right);
    var header := SCHEME + left + m + right;
    assert header[|SCHEME|..] == left + m + right;
    var bare := left + m + right;
    forall c | c in bare
      ensures c != 'h'
    {
      assert c in left || c in m || c in right;
      assert c in left || c in right ==> c in left + right;
    }
    assert SCHEME[1] == 'h';
    assert |bare| > 1 ==> bare[1] in bare;
  }

  /** A signature carried over to a body with another MAC never opens the door. */
  lemma CarriedOverIsRefused(h: Host, body: seq<byte>, other: seq<byte>, header: string)
    requires h.mac(h.secret, other) != h.mac(h.secret, body)
    requires VerifySignature(h, body, header).Open?
    ensures VerifySignature(h, other, header) == Shut
  {
  }

  lemma {:induction false} DistinctMembers(s: seq<string>)
    ensures forall x :: x in Distinct(s) <==> x in s
    ensures forall i, j :: 0 <= i < j < |Distinct(s)| ==> Distinct(s)[i] != Distinct(s)[j]
  {
    if s == [] {
    } else {
      DistinctMembers(s[..|s| - 1]);
      assert s == s[..|s| - 1] + [s[|s| - 1]];
    }
  }

  lemma {:induction false} TouchedMembers(commits: seq<Commit>, x: string)
    ensures x in Touched(commits) <==> exists c :: c in commits && (x in c.added || x in c.modified)
  {
    if commits == [] {
    } else {
      var k := |commits| - 1;
      TouchedMembers(commits[..k], x);
      assert commits == commits[..k] + [commits[k]];
    }
  }

  /** The changed files are the paths some commit added or modified, each once, in order. */
  lemma ChangedFilesExactly(p: Payload)
    ensures Sorted(ChangedFiles(p))
    ensures forall x :: multiset(ChangedFiles(p))[x]
                        == if exists c :: c in p.commits && (x in c.added || x in c.modified) then 1 else 0
  {
    var d := Distinct(Touched(p.commits));
    SortStringsCorrect(d);
    DistinctMembers(Touched(p.commits));
    forall x
      ensures multiset(ChangedFiles(p))[x]
        == if exists c :: c in p.commits && (x in c.added || x in c.modified) then 1 else 0
    {
      TouchedMembers(p.commits, x);
      OnceEach(d, x);
    }
  }
}
