/** What rollback does to the log, and how one rollback undoes another. History is the log newest
    first, as it is for up to 10^8 releases. */
module Rollbacks {
  import opened Options
  import opened ReleaseLedger

  function Ask(log: seq<Release>, q: Request, mint: Mint, created: string): Answer {
    Decide(NewestFirst(log), q, mint, created)
  }

  /** The image that is served: that of the newest release. */
  function Serving(log: seq<Release>): string
    requires log != []
  {
    log[|log| - 1].digest
  }

  function Steps(k: int): Request {
    Request(None, None, k)
  }

  /** A digest wins over any number of steps, and an id over both. */
  function ToDigest(d: string, steps: int): Request {
    Request(None, Some(d), steps)
  }

  function ToId(id: string, digest: Option<string>, steps: int): Request {
    Request(Some(id), digest, steps)
  }

  /** Nothing is rebuilt: the same image for the same workload. */
  predicate SameBits(r: Release, s: Release) {
    r.digest == s.digest && r.image == s.image && r.workload == s.workload && r.branch == s.branch
  }

  /** What an effective rollback goes back to, however the history is ordered. */
  lemma TargetFromHistory(hist: seq<Release>, q: Request, mint: Mint, created: string)
    ensures var a := Decide(hist, q, mint, created);
      a.RolledBack? ==>
        && hist != [] && a.current == hist[0] && a.target in hist && Ran(a.target) && a.target.digest != hist[0].digest
        && SameBits(a.head, a.target) && Ran(a.head)
        && a.head.status == "rolled-back" && a.head.kind == "rollback"
        && a.head.id == mint(a.target.digest, created)
        && a.head.rolledBackFrom == Some(hist[0].id) && a.head.rolledBackTo == Some(a.target.id)
  {
    if hist != [] {
      if q.toId.Some? {
        FoundById(hist, q.toId.value);
      } else if q.toDigest.Some? {
        FoundByDigest(hist[1..], q.toDigest.value);
      }
    }
  }

  /** Which releases can be gone back to: those that were deployed or rolled back to, and have an image. */
  lemma RanMeans(r: Release)
    ensures Ran(r) <==> r.status in {"deployed", "rolled-back"} && r.digest != ""
  {
  }

  /** What is answered: nothing to go back to without a history; and a success that writes exactly when the target is
      another image than the one served. */
  lemma AnswersMean(log: seq<Release>, q: Request, mint: Mint, created: string)
    ensures var a := Ask(log, q, mint, created);
      && (a.NoHistory? <==> log == [])
      && (a.Blocked? || a.NoOp? || a.RolledBack? ==> log != [] && a.current == log[|log| - 1])
      && (a.RolledBack? ==> Serving(Appended(log, a)) != Serving(log))
      && (a.NoOp? ==> Appended(log, a) == log)
  {
    hide Resolve;
  }

  /** Only an effective rollback writes, and it writes exactly one entry: an earlier release's image again,
      different from the one served, linked to the release it replaces and the one it goes back to. */
  lemma EffectIsOneEntry(log: seq<Release>, q: Request, mint: Mint, created: string)
    ensures var a := Ask(log, q, mint, created);
      if a.RolledBack? then
        && log != [] && a.target in log && Ran(a.target) && a.target.digest != Serving(log)
        && Appended(log, a) == log + [a.head]
        && SameBits(a.head, a.target) && Ran(a.head)
        && a.head.rolledBackFrom == Some(log[|log| - 1].id) && a.head.rolledBackTo == Some(a.target.id)
      else Appended(log, a) == log
  {
    var hist := NewestFirst(log);
    TargetFromHistory(hist, q, mint, created);
    hide Decide;
    forall r | r in hist ensures r in log {
      var i :| 0 <= i < |hist| && hist[i] == r;
      assert log[|log| - 1 - i] == r;
    }
  }

  lemma {:induction false} FoundById(hist: seq<Release>, id: string)
    ensures FirstWithId(hist, id).Some? ==> FirstWithId(hist, id).value in hist && FirstWithId(hist, id).value.id == id
    ensures FirstWithId(hist, id).None? ==> forall r :: r in hist ==> r.id != id
  {
    if hist == [] {
    } else {
      FoundById(hist[1..], id);
      assert hist == [hist[0]] + hist[1..];
    }
  }

  lemma {:induction false} FoundByDigest(hist: seq<Release>, d: string)
    ensures FirstWithDigest(hist, d).Some?
      ==> FirstWithDigest(hist, d).value in hist && FirstWithDigest(hist, d).value.digest == d
    ensures FirstWithDigest(hist, d).None? ==> forall r :: r in hist ==> r.digest != d
  {
    if hist == [] {
    } else {
      FoundByDigest(hist[1..], d);
      assert hist == [hist[0]] + hist[1..];
    }
  }

  /** A rollback by k steps serves the image of the release k back exactly when that release ran; a step past
      the oldest release, like one to a release that did not run, is blocked and changes nothing. */
  lemma StepsServe(log: seq<Release>, k: nat, mint: Mint, created: string)
    requires log != []
    ensures var a := Ask(log, Steps(k), mint, created);
      && (Ok(a) <==> k < |log| && Ran(log[|log| - 1 - k]))
      && (Ok(a) ==> Serving(Appended(log, a)) == log[|log| - 1 - k].digest)
      && (!Ok(a) ==> a == Blocked(log[|log| - 1]) && Appended(log, a) == log)
  {
  }

  /** A negative number of steps counts from the oldest release, and past the end it raises. */
  lemma NegativeStepsCountFromOldest(log: seq<Release>, k: nat, mint: Mint, created: string)
    requires log != [] && k > 0
    ensures var a := Ask(log, Steps(0 - k), mint, created);
      && (a == IndexError <==> k > |log|)
      && (Ok(a) <==> k <= |log| && Ran(log[k - 1]))
      && (Ok(a) ==> Serving(Appended(log, a)) == log[k - 1].digest)
      && (!Ok(a) && k <= |log| ==> a == Blocked(log[|log| - 1]))
  {
  }

  /** An effective rollback, whatever it was asked by, is undone by one of one step exactly when the
      release it replaced had run: the image served before is served again. */
  lemma OneStepUndoes(log: seq<Release>, q: Request, mint: Mint, created: string, later: string)
    requires Ask(log, q, mint, created).RolledBack?
    ensures var once := Appended(log, Ask(log, q, mint, created));
      var twice := Appended(once, Ask(once, Steps(1), mint, later));
      log != [] && (Serving(twice) == Serving(log) <==> Ran(log[|log| - 1]))
  {
  }

  /** The newest release below the head that carries this image. */
  ghost predicate NewestCarrying(log: seq<Release>, d: string, i: nat) {
    && i < |log| - 1 && log[i].digest == d
    && forall j :: i < j < |log| - 1 ==> log[j].digest != d
  }

  lemma {:induction false} FirstFound(hist: seq<Release>, d: string) returns (i: nat)
    requires FirstWithDigest(hist, d).Some?
    ensures i < |hist| && FirstWithDigest(hist, d).value == hist[i] && hist[i].digest == d
    ensures forall j :: 0 <= j < i ==> hist[j].digest != d
  {
    if hist[0].digest == d {
      i := 0;
    } else {
      var k := FirstFound(hist[1..], d);
      i := k + 1;
      forall j | 0 <= j < i ensures hist[j].digest != d {
        if j > 0 { assert hist[1..][j - 1] == hist[j]; }
      }
    }
  }

  /** A rollback to digest d succeeds exactly when the newest release below the head that carries d ran;
      it then serves d. */
  lemma ToDigestExactly(log: seq<Release>, d: string, steps: int, mint: Mint, created: string)
    requires log != []
    ensures var a := Ask(log, ToDigest(d, steps), mint, created);
      && (Ok(a) <==> exists i: nat :: NewestCarrying(log, d, i) && Ran(log[i]))
      && (Ok(a) ==> Serving(Appended(log, a)) == d)
      && (!Ok(a) ==> a == Blocked(log[|log| - 1]))
  {
    var hist, n := NewestFirst(log), |log| - 1;
    FoundByDigest(hist[1..], d);
    if FirstWithDigest(hist[1..], d).Some? {
      var k := FirstFound(hist[1..], d);
      var i := n - 1 - k;
      assert hist[1..][k] == log[i];
      forall j | i < j < n ensures log[j].digest != d {
        assert hist[1..][n - 1 - j] == log[j];
      }
      assert NewestCarrying(log, d, i);
      forall j: nat | NewestCarrying(log, d, j) ensures j == i {
      }
    } else {
      forall j: nat ensures !NewestCarrying(log, d, j) {
        if j < n {
          assert hist[1..][n - 1 - j] in hist[1..];
        }
      }
    }
  }

  /** Position i is the newest with this id. */
  ghost predicate NewestNamed(log: seq<Release>, id: string, i: nat) {
    i < |log| && log[i].id == id && forall j :: i < j < |log| ==> log[j].id != id
  }

  lemma {:induction false} FirstNamed(hist: seq<Release>, id: string) returns (i: nat)
    requires FirstWithId(hist, id).Some?
    ensures i < |hist| && FirstWithId(hist, id).value == hist[i] && hist[i].id == id
    ensures forall j :: 0 <= j < i ==> hist[j].id != id
  {
    if hist[0].id == id {
      i := 0;
    } else {
      var k := FirstNamed(hist[1..], id);
      i := k + 1;
      forall j | 0 <= j < i ensures hist[j].id != id {
        if j > 0 { assert hist[1..][j - 1] == hist[j]; }
      }
    }
  }

  /** A rollback to a release id, whatever digest or steps come with it, succeeds exactly when the newest
      release with that id ran; it then serves that release's image. */
  lemma ToIdExactly(log: seq<Release>, id: string, digest: Option<string>, steps: int, mint: Mint, created: string)
    requires log != []
    ensures var a := Ask(log, ToId(id, digest, steps), mint, created);
      && (Ok(a) <==> exists i: nat :: NewestNamed(log, id, i) && Ran(log[i]))
      && (forall i: nat :: Ok(a) && NewestNamed(log, id, i) ==> Serving(Appended(log, a)) == log[i].digest)
      && (!Ok(a) ==> a == Blocked(log[|log| - 1]))
  {
    var hist, n := NewestFirst(log), |log|;
    FoundById(hist, id);
    if FirstWithId(hist, id).Some? {
      var k := FirstNamed(hist, id);
      var i := n - 1 - k;
      forall j | i < j < n ensures log[j].id != id {
        assert hist[n - 1 - j] == log[j];
      }
      assert NewestNamed(log, id, i);
      forall j: nat | NewestNamed(log, id, j) ensures j == i {
      }
    } else {
      forall j: nat ensures !NewestNamed(log, id, j) {
        if j < n {
          assert hist[n - 1 - j] in hist;
        }
      }
    }
  }

  ghost predicate AllRan(log: seq<Release>) {
    forall i :: 0 <= i < |log| ==> Ran(log[i])
  }

  /** Rollbacks keep every release of a log one that ran. */
  lemma StaysRan(log: seq<Release>, q: Request, mint: Mint, created: string)
    requires AllRan(log)
    ensures AllRan(Appended(log, Ask(log, q, mint, created)))
  {
  }

  /** On a log of releases that ran, a rollback to digest d succeeds exactly when a release below the head
      ran d. */
  lemma ToDigestIffRan(log: seq<Release>, d: string, steps: int, mint: Mint, created: string)
    requires AllRan(log) && log != []
    ensures Ok(Ask(log, ToDigest(d, steps), mint, created)) <==> exists i :: 0 <= i < |log| - 1 && log[i].digest == d
  {
    ToDigestExactly(log, d, steps, mint, created);
    if i :| 0 <= i < |log| - 1 && log[i].digest == d {
      var k := LastCarrying(log, d, i);
    }
  }

  lemma LastCarrying(log: seq<Release>, d: string, i: nat) returns (k: nat)
    requires i < |log| - 1 && log[i].digest == d
    ensures NewestCarrying(log, d, k)
    decreases |log| - i
  {
    if j :| i < j < |log| - 1 && log[j].digest == d {
      k := LastCarrying(log, d, j);
    } else {
      k := i;
    }
  }

  /** On other logs that is false: a later record of the same image that did not run hides the release that did. */
  lemma HiddenRelease(mint: Mint, created: string)
    ensures var ran := Release("r0", "main", "a@d", "d", "a", "deployed", "deploy", None, None);
      var log := [ran, ran.(id := "r1", status := "failed"), ran.(id := "r2", digest := "e")];
      Ran(log[0]) && log[0].digest == "d" && !Ok(Ask(log, ToDigest("d", 1), mint, created))
  {
  }
}
