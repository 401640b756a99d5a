/** tools/buildpack.py: which buildpack a source tree matches, and the image built from it. */
module Buildpack {
  import opened Options
  import opened Orders

  datatype Pack = Pack(language: string, signals: seq<string>, buildpack: string, web: string)

  const PACKS: seq<Pack> := [
    Pack("python", ["requirements.txt", "pyproject.toml", "Pipfile"], "paketo/python", "python app.py"),
    Pack("node", ["package.json"], "paketo/nodejs", "npm start"),
    Pack("go", ["go.mod"], "paketo/go", "./app"),
    Pack("rust", ["Cargo.toml"], "paketo-community/rust", "./target/release/app"),
    Pack("static", ["index.html", "public/index.html"], "paketo/web-servers", "serve")
  ]

  /** The hash of the sorted paths and the buildpack. */
  type Hash = (seq<string>, string) -> string

  datatype Build = NoMatch | Built(pack: Pack, image: string, digest: string)

  predicate Matches(p: Pack, files: seq<string>) {
    exists s :: s in p.signals && s in files
  }

  function Detect(packs: seq<Pack>, files: seq<string>): Option<Pack> {
    if packs == [] then None else if Matches(packs[0], files) then Some(packs[0]) else Detect(packs[1..], files)
  }

  function Prefix(s: string, n: nat): string {
    if |s| <= n then s else s[..n]
  }

  function BuildPlan(files: seq<string>, app: string, hash: Hash): Build {
    match Detect(PACKS, files)
    case None => NoMatch
    case Some(p) =>
      var digest := hash(SortStrings(files), p.buildpack);
      Built(p, app + "@sha256:" + Prefix(digest, 12), "sha256:" + digest)
  }

  function UpTo(s: string, c: char): string {
    if s == "" || s[0] == c then "" else [s[0]] + UpTo(s[1..], c)
  }

  /** The workload is named after the image: what stands before its first at-sign. */
  function WorkloadName(b: Build): string
    requires b.Built?
  {
    UpTo(b.image, '@')
  }

  /** Detection takes the first buildpack of the table with a signal among the files. */
  lemma {:induction false} DetectsFirst(packs: seq<Pack>, files: seq<string>)
    ensures Detect(packs, files).None? <==> forall i :: 0 <= i < |packs| ==> !Matches(packs[i], files)
    ensures Detect(packs, files).Some? ==>
      exists i :: 0 <= i < |packs| && packs[i] == Detect(packs, files).value && Matches(packs[i], files)
                  && forall j :: 0 <= j < i ==> !Matches(packs[j], files)
  {
    if packs == [] {
    } else {
      DetectsFirst(packs[1..], files);
      if Matches(packs[0], files) {
        assert packs[0] == Detect(packs, files).value;
      } else if Detect(packs[1..], files).Some? {
        var i :| 0 <= i < |packs[1..]| && packs[1..][i] == Detect(packs, files).value && Matches(packs[1..][i], files)
                 && forall j :: 0 <= j < i ==> !Matches(packs[1..][j], files);
        forall j | 0 <= j < i + 1 ensures !Matches(packs[j], files) {
          if j > 0 { assert packs[1..][j - 1] == packs[j]; }
        }
        assert packs[i + 1] == Detect(packs, files).value;
      } else {
        forall i | 0 <= i < |packs| ensures !Matches(packs[i], files) {
          if i > 0 { assert packs[1..][i - 1] == packs[i]; }
        }
      }
    }
  }

  lemma {:induction false} DetectIgnoresOrder(packs: seq<Pack>, files: seq<string>, others: seq<string>)
    requires forall s :: s in files <==> s in others
    ensures Detect(packs, files) == Detect(packs, others)
  {
    if packs == [] {
    } else {
      DetectIgnoresOrder(packs[1..], files, others);
    }
  }

  /** The same paths in any order build the same image. */
  lemma Reproducible(files: seq<string>, others: seq<string>, app: string, hash: Hash)
    requires multiset(files) == multiset(others)
    ensures BuildPlan(files, app, hash) == BuildPlan(others, app, hash)
  {
    forall s ensures s in files <==> s in others {
      assert s in multiset(files) <==> s in multiset(others);
    }
    DetectIgnoresOrder(PACKS, files, others);
    SortForgetsOrder(files, others);
  }

  /** The buildpack of the table that comes first among those with a signal among the files. */
  ghost predicate FirstSignalled(i: nat, files: seq<string>) {
    && i < |PACKS| && (exists s :: s in PACKS[i].signals && s in files)
    && forall j, s :: 0 <= j < i && s in PACKS[j].signals ==> s !in files
  }

  /** What is built: something exactly when some buildpack has a signal among the files; then with the first such, into
      an image named after the app and the first twelve digits of the hash of the sorted paths and that buildpack. */
  lemma BuildMeans(files: seq<string>, app: string, hash: Hash)
    ensures var b := BuildPlan(files, app, hash);
      && (b.Built? <==> exists i: nat :: FirstSignalled(i, files))
      && (b.Built? ==> exists i: nat, paths ::
            && FirstSignalled(i, files) && b.pack == PACKS[i]
            && Sorted(paths) && multiset(paths) == multiset(files)
            && var h := hash(paths, PACKS[i].buildpack);
               b.digest == "sha256:" + h && b.image == app + "@sha256:" + if |h| < 12 then h else h[..12])
  {
    DetectsFirst(PACKS, files);
    SortStringsCorrect(files);
    var p := Detect(PACKS, files);
    if p.Some? {
      var i: nat :| i < |PACKS| && PACKS[i] == p.value && Matches(PACKS[i], files)
        && forall j :: 0 <= j < i ==> !Matches(PACKS[j], files);
      hide SortStrings, Sorted, Detect;
      assert FirstSignalled(i, files);
      assert Sorted(SortStrings(files));
    } else {
      forall i: nat ensures !FirstSignalled(i, files) {
        assert i < |PACKS| ==> !Matches(PACKS[i], files);
      }
    }
  }

  /** Which manifest makes which build: the earlier lines win. */
  lemma ManifestsMean(files: seq<string>, app: string, hash: Hash)
    ensures var b := BuildPlan(files, app, hash);
      if "requirements.txt" in files || "pyproject.toml" in files || "Pipfile" in files then
        b.Built? && b.pack.language == "python" && b.pack.buildpack == "paketo/python"
      else if "package.json" in files then
        b.Built? && b.pack.language == "node" && b.pack.buildpack == "paketo/nodejs"
      else if "go.mod" in files then
        b.Built? && b.pack.language == "go" && b.pack.buildpack == "paketo/go"
      else if "Cargo.toml" in files then
        b.Built? && b.pack.language == "rust" && b.pack.buildpack == "paketo-community/rust"
      else if "index.html" in files || "public/index.html" in files then
        b.Built? && b.pack.language == "static" && b.pack.buildpack == "paketo/web-servers"
      else b == NoMatch
  {
    hide SortStrings, Prefix, Detect;
    DetectStep(PACKS, files);
    DetectStep(PACKS[1..], files);
    DetectStep(PACKS[2..], files);
    DetectStep(PACKS[3..], files);
    DetectStep(PACKS[4..], files);
    DetectStep(PACKS[5..], files);
    assert PACKS[1..][1..] == PACKS[2..] && PACKS[2..][1..] == PACKS[3..] && PACKS[3..][1..] == PACKS[4..];
    assert PACKS[4..][1..] == PACKS[5..] && PACKS[5..] == [];
    assert PACKS[0].signals[0] == "requirements.txt" && PACKS[0].signals[1] == "pyproject.toml";
    assert PACKS[0].signals[2] == "Pipfile" && PACKS[1].signals[0] == "package.json";
    assert PACKS[2].signals[0] == "go.mod" && PACKS[3].signals[0] == "Cargo.toml";
    assert PACKS[4].signals[0] == "index.html" && PACKS[4].signals[1] == "public/index.html";
  }

  lemma DetectStep(packs: seq<Pack>, files: seq<string>)
    ensures Detect(packs, files)
      == if packs == [] then None else if Matches(packs[0], files) then Some(packs[0]) else Detect(packs[1..], files)
  {
  }

  /** The hash tells these two builds apart, if they differ. */
  predicate TellsApart(hash: Hash, a: seq<string>, p: string, b: seq<string>, q: string) {
    hash(a, p) == hash(b, q) ==> a == b && p == q
  }

  /** With a hash that tells them apart, two builds have the same image digest exactly when their
      lists of paths are the same up to order: the app's name plays no part, and neither do the contents
      of the files, which the digest never sees. */
  lemma SameDigestIffSamePaths(files: seq<string>, others: seq<string>, app: string, app': string, hash: Hash)
    requires BuildPlan(files, app, hash).Built? && BuildPlan(others, app', hash).Built?
    requires TellsApart(hash, SortStrings(files), BuildPlan(files, app, hash).pack.buildpack,
                        SortStrings(others), BuildPlan(others, app', hash).pack.buildpack)
    ensures BuildPlan(files, app, hash).digest == BuildPlan(others, app', hash).digest
      <==> multiset(files) == multiset(others)
  {
    var b, c := BuildPlan(files, app, hash), BuildPlan(others, app', hash);
    if b.digest == c.digest {
      assert hash(SortStrings(files), b.pack.buildpack) == b.digest[7..];
      assert hash(SortStrings(others), c.pack.buildpack) == c.digest[7..];
      SortStringsCorrect(files);
      SortStringsCorrect(others);
    }
    if multiset(files) == multiset(others) {
      Reproducible(files, others, app, hash);
    }
  }

  lemma {:induction false} UpToStops(a: string, b: string, c: char)
    ensures UpTo(a + [c] + b, c) == UpTo(a, c)
    ensures c !in a <==> UpTo(a, c) == a
    ensures |UpTo(a, c)| <= |a|
  {
    if a == "" {
      assert a + [c] + b == [c] + b;
    } else {
      UpToStops(a[1..], b, c);
      assert a + [c] + b == [a[0]] + (a[1..] + [c] + b);
      assert a == [a[0]] + a[1..];
    }
  }

  /** The workload carries the app's name exactly when the name has no at-sign in it. */
  lemma NamedAfterApp(files: seq<string>, app: string, hash: Hash)
    requires BuildPlan(files, app, hash).Built?
    ensures WorkloadName(BuildPlan(files, app, hash)) == app <==> '@' !in app
  {
    var b := BuildPlan(files, app, hash);
    var digest := hash(SortStrings(files), b.pack.buildpack);
    assert b.image == app + ['@'] + ("sha256:" + Prefix(digest, 12));
    UpToStops(app, "sha256:" + Prefix(digest, 12), '@');
  }
}
