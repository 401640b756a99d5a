/** tools/release_ledger.py: one app's append-only log of releases, kept as files in a directory, and
    rollback to a release that ran. */
module ReleaseLedger {
  import opened Options
  import opened Orders
  import opened LedgerNames

  /** An empty digest stands for a missing one. */
  datatype Release = Release(
    id: string, branch: string, image: string, digest: string, workload: string, status: string, kind: string,
    rolledBackFrom: Option<string>, rolledBackTo: Option<string>)

  /** The id of a release is derived from its image digest and its time of creation. */
  type Mint = (string, string) -> string

  /** The release actually ran here and has an image. */
  predicate Ran(r: Release) {
    (r.status == "deployed" || r.status == "rolled-back") && r.digest != ""
  }

  // ----- choosing what to go back to -----

  /** An explicit release id wins over a digest, which wins over a number of steps. */
  datatype Request = Request(toId: Option<string>, toDigest: Option<string>, steps: int)

  datatype Resolved = Target(release: Option<Release>) | OutOfRange

  function FirstWithId(hist: seq<Release>, id: string): Option<Release> {
    if hist == [] then None else if hist[0].id == id then Some(hist[0]) else FirstWithId(hist[1..], id)
  }

  function FirstWithDigest(hist: seq<Release>, digest: string): Option<Release> {
    if hist == [] then None else if hist[0].digest == digest then Some(hist[0]) else FirstWithDigest(hist[1..], digest)
  }

  /** The release so many steps back, if there is one; a negative number counts from the other end, and raises
      past it. */
  function StepsBack(hist: seq<Release>, steps: int): Resolved {
    if |hist| <= steps then Target(None)
    else if 0 <= steps then Target(Some(hist[steps]))
    else if -steps <= |hist| then Target(Some(hist[|hist| + steps]))
    else OutOfRange
  }

  function Resolve(hist: seq<Release>, q: Request): Resolved
    requires hist != []
  {
    if q.toId.Some? then Target(FirstWithId(hist, q.toId.value))
    else if q.toDigest.Some? then Target(FirstWithDigest(hist[1..], q.toDigest.value))
    else StepsBack(hist, q.steps)
  }

  datatype Answer =
    | NoHistory
    | Blocked(current: Release)
    | NoOp(current: Release)
    | RolledBack(current: Release, target: Release, head: Release)
    | IndexError

  predicate Ok(a: Answer) {
    a.NoOp? || a.RolledBack?
  }

  /** The new head: the target's image again, linked to what it replaces and what it goes back to. */
  function Head(cur: Release, target: Release, mint: Mint, created: string): Release {
    Release(mint(target.digest, created), target.branch, target.image, target.digest, target.workload,
            "rolled-back", "rollback", Some(cur.id), Some(target.id))
  }

  function Decide(hist: seq<Release>, q: Request, mint: Mint, created: string): Answer {
    if hist == [] then NoHistory
    else
      var cur := hist[0];
      match Resolve(hist, q)
      case OutOfRange => IndexError
      case Target(t) =>
        if t.None? || !Ran(t.value) then Blocked(cur)
        else if t.value.digest == cur.digest then NoOp(cur)
        else RolledBack(cur, t.value, Head(cur, t.value, mint, created))
  }

  function Appended(log: seq<Release>, a: Answer): seq<Release> {
    if a.RolledBack? then log + [a.head] else log
  }

  function NewestFirst<T>(s: seq<T>): (r: seq<T>)
    ensures |r| == |s| && forall i :: 0 <= i < |s| ==> r[i] == s[|s| - 1 - i]
  {
    seq(|s|, i requires 0 <= i < |s| => s[|s| - 1 - i])
  }

  // ----- the directory -----

  type Files = map<string, Release>

  function Lookups(files: Files, names: seq<string>): (rs: seq<Release>)
    requires forall n :: n in names ==> n in files
    ensures |rs| == |names| && forall i :: 0 <= i < |names| ==> rs[i] == files[names[i]]
  {
    seq(|names|, i requires 0 <= i < |names| => files[names[i]])
  }

  /** The directory holds the files written so far, the i-th numbered i. */
  ghost predicate Holds(files: Files, names: seq<string>) {
    && Numbered(names) && |files| == |names|
    && (forall n :: n in names ==> n in files)
    && (forall n :: n in files ==> n in names)
  }

  lemma SortedStaysIn(names: seq<string>)
    ensures |SortStrings(names)| == |names|
    ensures forall n :: n in SortStrings(names) <==> n in names
  {
    SortStringsCorrect(names);
    assert |multiset(SortStrings(names))| == |SortStrings(names)| && |multiset(names)| == |names|;
    forall n ensures n in SortStrings(names) <==> n in names {
      assert n in SortStrings(names) <==> n in multiset(SortStrings(names));
      assert n in names <==> n in multiset(names);
    }
  }

  /** What `history` reads: the files in reverse order of their names. */
  ghost function HistoryOf(files: Files, names: seq<string>): seq<Release>
    requires Holds(files, names)
  {
    SortedStaysIn(names);
    Lookups(files, NewestFirst(SortStrings(names)))
  }

  ghost function LogOf(files: Files, names: seq<string>): seq<Release>
    requires Holds(files, names)
  {
    Lookups(files, names)
  }

  /** For up to 10^8 releases, whatever the clock says and the ids are, history is the log backwards. */
  lemma HistoryIsLogBackwards(files: Files, names: seq<string>)
    requires Holds(files, names) && |names| <= LIMIT
    ensures HistoryOf(files, names) == NewestFirst(LogOf(files, names))
  {
    SortedIsWritten(names);
  }

  /** One release more, and the newest is no longer found at the head. */
  lemma HeadIsLostBeyondLimit(names: seq<string>)
    requires Numbered(names) && |names| == LIMIT + 1
    ensures NewestFirst(SortStrings(names)) != [] && NewestFirst(SortStrings(names))[0] != names[LIMIT]
  {
    hide Name, Before, SortStrings, Numbered;
    var m := LIMIT;
    OutOfOrder(names);
    SortStringsCorrect(names);
    SortedStaysIn(names);
    var sorted := SortStrings(names);
    assert names[m - 1] in sorted;
    var i :| 0 <= i < |sorted| && sorted[i] == names[m - 1];
    BeforeTotal(names[m - 1], names[m - 1]);
    assert i < m ==> Before(sorted[i], sorted[m]);
  }

  lemma NextNameIsNew(files: Files, names: seq<string>, stamp: string, id: string)
    requires Holds(files, names)
    ensures Name(|files|, stamp, id) !in files
    ensures Numbered(names + [Name(|files|, stamp, id)])
  {
    hide Name;
    var name := Name(|names|, stamp, id);
    assert IsName(name, |names|);
    forall i | 0 <= i < |names| + 1
      ensures IsName((names + [name])[i], i)
    {
    }
    NumberedDistinct(names + [name]);
    forall i | 0 <= i < |names|
      ensures names[i] != name
    {
      assert (names + [name])[i] != (names + [name])[|names|];
    }
  }

  /** The directory as a value. */
  datatype Store = Store(files: Files, names: seq<string>)

  /** Writing one more file. */
  function Put(s: Store, r: Release, stamp: string): Store {
    var name := Name(|s.files|, stamp, r.id);
    Store(s.files[name := r], s.names + [name])
  }

  lemma PutAppends(s: Store, r: Release, stamp: string)
    requires Holds(s.files, s.names)
    ensures var t := Put(s, r, stamp);
      Holds(t.files, t.names) && LogOf(t.files, t.names) == LogOf(s.files, s.names) + [r]
  {
    hide Name, Numbered;
    NextNameIsNew(s.files, s.names, stamp, r.id);
    var t := Put(s, r, stamp);
    assert LogOf(t.files, t.names) == LogOf(s.files, s.names) + [r];
  }

  class ReleaseLog {
    const mint: Mint
    var files: Files
    ghost var names: seq<string>

    ghost predicate Valid()
      reads this
    {
      Holds(files, names)
    }

    ghost function Dir(): Store
      reads this
    {
      Store(files, names)
    }

    ghost function Log(): seq<Release>
      reads this
      requires Valid()
    {
      LogOf(files, names)
    }

    constructor (mint: Mint)
      ensures Valid() && Log() == [] && this.mint == mint
    {
      this.mint, files, names := mint, map[], [];
    }

    /** Appends: the file is numbered by how many there are. */
    method Record(r: Release, stamp: string)
      requires Valid()
      modifies this
      ensures Valid() && Log() == old(Log()) + [r]
      ensures Dir() == Put(old(Dir()), r, stamp)
    {
      hide Name, Holds, LogOf;
      PutAppends(Dir(), r, stamp);
      var name := Name(|files|, stamp, r.id);
      files := files[name := r];
      names := names + [name];
    }

    /** Lists the directory in whatever order it comes, sorts the names, and reads the files newest first. */
    method History() returns (out: seq<Release>)
      requires Valid()
      ensures out == HistoryOf(files, names)
    {
      hide Numbered, SortStrings;
      NumberedDistinct(names);
      var left, listing := files.Keys, [];
      while left != {}
        invariant left <= files.Keys
        invariant forall n :: n in listing <==> n in files && n !in left
        invariant forall i, j :: 0 <= i < j < |listing| ==> listing[i] != listing[j]
      {
        var n :| n in left;
        left := left - {n};
        listing := listing + [n];
      }
      SameNames(listing, names);
      SortForgetsOrder(listing, names);
      SortedStaysIn(listing);
      var sorted := SortStrings(listing);
      out := [];
      for i := 0 to |sorted|
        invariant |out| == i && forall k :: 0 <= k < i ==> out[k] == files[sorted[|sorted| - 1 - k]]
      {
        out := out + [files[sorted[|sorted| - 1 - i]]];
      }
    }

    method Current() returns (r: Option<Release>)
      requires Valid()
      ensures var h := HistoryOf(files, names); r == if h == [] then None else Some(h[0])
      ensures |names| <= LIMIT ==> r == if Log() == [] then None else Some(Log()[|Log()| - 1])
    {
      var h := History();
      r := if h == [] then None else Some(h[0]);
      if |names| <= LIMIT {
        HistoryIsLogBackwards(files, names);
      }
    }

    /** Re-points the app to an earlier release; only an effective rollback writes, and then one entry. */
    method Rollback(q: Request, created: string, stamp: string) returns (a: Answer)
      requires Valid()
      modifies this
      ensures Valid()
      ensures a == Decide(HistoryOf(old(files), old(names)), q, mint, created)
      ensures Log() == Appended(old(Log()), a)
      ensures Dir() == if a.RolledBack? then Put(old(Dir()), a.head, stamp) else old(Dir())
    {
      var hist := History();
      if hist == [] {
        return NoHistory;
      }
      var cur := hist[0];
      var resolved := Resolve(hist, q);
      if resolved.OutOfRange? {
        return IndexError;
      }
      var target := resolved.release;
      if target.None? || !Ran(target.value) {
        return Blocked(cur);
      }
      if target.value.digest == cur.digest {
        return NoOp(cur);
      }
      var head := Head(cur, target.value, mint, created);
      Record(head, stamp);
      a := RolledBack(cur, target.value, head);
    }
  }

  lemma SameNames(a: seq<string>, b: seq<string>)
    requires forall i, j :: 0 <= i < j < |a| ==> a[i] != a[j]
    requires forall i, j :: 0 <= i < j < |b| ==> b[i] != b[j]
    requires forall n :: n in a <==> n in b
    ensures multiset(a) == multiset(b)
  {
    forall n
      ensures multiset(a)[n] == multiset(b)[n]
    {
      OnceEach(a, n);
      OnceEach(b, n);
    }
  }

  lemma {:induction false} OnceEach(s: seq<string>, n: string)
    requires forall i, j :: 0 <= i < j < |s| ==> s[i] != s[j]
    ensures multiset(s)[n] == if n in s then 1 else 0
  {
    if s == [] {
    } else {
      var k := |s| - 1;
      OnceEach(s[..k], n);
      assert s == s[..k] + [s[k]];
    }
  }
}
