/** The worklist of the source counter: which Rust files it reads by following module declarations. */
module SourceWorklist {
  import opened Basics
  import opened Text

  /** A path relative to the repository, in parts. */
  type Name = seq<string>

  /** What reading and parsing one file yields: nothing usable, or masked text and its modules. */
  datatype Scan = Unusable | Parsed(text: string, modules: seq<Name>)

  datatype Repository = Repository(tracked: set<Name>, symlinks: set<Name>, scan: Name -> Scan)

  /** A module declaration resolves to exactly one tracked file, or its file is unusable. */
  ghost predicate Resolved(repo: Repository) {
    forall n, m :: repo.scan(n).Parsed? && m in repo.scan(n).modules ==> m in repo.tracked
  }

  const ROOTS: set<Name> := {
    ["src", "lib.rs"], ["src", "main.rs"], ["build.rs"], ["gui", "src", "main.rs"], ["gui", "build.rs"]
  }

  /** Where the last dot of a file name starts its suffix; names ending in a dot have none. */
  function LastDot(s: string): int {
    if s == "" then -1 else if s[|s| - 1] == '.' then |s| - 1 else LastDot(s[..|s| - 1])
  }

  function Stem(file: string): string {
    var i := LastDot(file);
    if 0 < i < |file| - 1 then file[..i] else file
  }

  predicate Generated(n: Name) {
    n != [] && EndsWith(Stem(n[|n| - 1]), "_generated")
  }

  predicate Owned(n: Name, test: bool) {
    || n in ROOTS
    || (2 <= |n| && n[0] == "src")
    || (3 <= |n| && n[0] == "gui" && n[1] == "src")
    || (test && 2 <= |n| && n[0] == "tests")
  }

  /** `tests/X.rs` or `tests/X/main.rs`. */
  predicate IntegrationRoot(n: Name) {
    || (|n| == 2 && n[0] == "tests" && 3 < |n[1]| && EndsWith(n[1], ".rs"))
    || (|n| == 3 && n[0] == "tests" && n[1] != "" && n[2] == "main.rs")
  }

  predicate IsRoot(repo: Repository, test: bool, n: Name) {
    n in repo.tracked && (n in ROOTS || (test && IntegrationRoot(n)))
  }

  /** The script accepts this file: owned, no parent steps, not a link, and it parses. */
  predicate Clean(repo: Repository, test: bool, n: Name) {
    Owned(n, test) && ".." !in n && n !in repo.symlinks && repo.scan(n).Parsed?
  }

  // ----- The same tests on paths as they are written -----

  /** Parts are what lies between slashes. */
  ghost predicate Plain(n: Name) {
    n != [] && forall part :: part in n ==> '/' !in part
  }

  function Written(n: Name): string
    requires n != []
  {
    if |n| == 1 then n[0] else n[0] + ['/'] + Written(n[1..])
  }

  lemma FirstPart(n: Name)
    requires Plain(n)
    ensures if |n| == 1 then Written(n) == n[0] && SplitOnce(Written(n), '/') == None
            else && Plain(n[1..]) && Written(n) == n[0] + ['/'] + Written(n[1..])
                 && SplitOnce(Written(n), '/') == Some((n[0], Written(n[1..])))
  {
    assert n[0] in n;
    if |n| > 1 {
      SplitAtFirst(n[0], '/', Written(n[1..]));
    } else {
      SplitOnceMeaning(Written(n), '/');
    }
  }

  /** A path is written in one way only. */
  lemma {:induction false} WrittenOnce(n: Name, m: Name)
    requires Plain(n) && Plain(m) && Written(n) == Written(m)
    ensures n == m
  {
    FirstPart(n);
    FirstPart(m);
    assert n == [n[0]] + n[1..] && m == [m[0]] + m[1..];
    hide SplitOnce, Written;
    if |n| > 1 {
      WrittenOnce(n[1..], m[1..]);
    }
  }

  lemma UnderFolder(n: Name, folder: string)
    requires Plain(n) && '/' !in folder
    ensures folder + ['/'] <= Written(n) <==> |n| >= 2 && n[0] == folder
    ensures |n| >= 2 ==> Plain(n[1..]) && Written(n) == n[0] + ['/'] + Written(n[1..])
  {
    FirstPart(n);
    SplitOnceMeaning(Written(n), '/');
    UnderPart(Written(n), folder);
    hide SplitOnce, Written;
  }

  lemma UnderPart(w: string, folder: string)
    requires '/' !in folder
    ensures folder + ['/'] <= w <==> SplitOnce(w, '/').Some? && SplitOnce(w, '/').value.0 == folder
  {
    SplitOnceMeaning(w, '/');
    if folder + ['/'] <= w {
      SplitAtFirst(folder, '/', w[|folder| + 1..]);
      assert w == folder + ['/'] + w[|folder| + 1..];
    }
    hide SplitOnce;
    if SplitOnce(w, '/').Some? && SplitOnce(w, '/').value.0 == folder {
      LongerPrefix(folder + ['/'], SplitOnce(w, '/').value.1, []);
    }
  }

  lemma UnderFolders(n: Name, outer: string, inner: string)
    requires Plain(n) && '/' !in outer && '/' !in inner
    ensures outer + ['/'] + (inner + ['/']) <= Written(n) <==> |n| >= 3 && n[0] == outer && n[1] == inner
  {
    UnderFolder(n, outer);
    hide Written;
    if |n| >= 2 && n[0] == outer {
      UnderFolder(n[1..], inner);
      LongerPrefix(outer + ['/'], inner + ['/'], Written(n[1..]));
    } else {
      PrefixOfPrefix(outer + ['/'], inner + ['/'], Written(n));
    }
  }

  lemma LongerPrefix(a: string, b: string, rest: string)
    ensures a + b <= a + rest <==> b <= rest
    ensures a <= a + b
  {
    assert (a + rest)[|a|..] == rest && (a + b)[|a|..] == b;
    if a + b <= a + rest {
      assert forall i :: 0 <= i < |b| ==> b[i] == (a + b)[|a| + i] == (a + rest)[|a| + i] == rest[i];
    }
  }

  lemma PrefixOfPrefix(a: string, b: string, s: string)
    ensures a + b <= s ==> a <= s
  {
    if a + b <= s {
      assert s == a + b + s[|a + b|..];
    }
  }

  /** The owned files are the five roots and whatever lies under the source directories. */
  lemma OwnedMeaning(n: Name, test: bool)
    requires Plain(n)
    ensures Owned(n, test) <==>
      || Written(n) in {"src/lib.rs", "src/main.rs", "build.rs", "gui/src/main.rs", "gui/build.rs"}
      || "src/" <= Written(n) || "gui/src/" <= Written(n) || (test && "tests/" <= Written(n))
  {
    UnderFolder(n, "src");
    UnderFolder(n, "tests");
    UnderFolders(n, "gui", "src");
    WrittenRoots(n);
    assert "src" + ['/'] == "src/" && "tests" + ['/'] == "tests/" && "gui" + ['/'] + ("src" + ['/']) == "gui/src/";
    hide Written, ROOTS;
  }

  lemma RootTexts()
    ensures Written(["src", "lib.rs"]) == "src/lib.rs" && Written(["src", "main.rs"]) == "src/main.rs"
    ensures Written(["build.rs"]) == "build.rs" && Written(["gui", "build.rs"]) == "gui/build.rs"
    ensures Written(["gui", "src", "main.rs"]) == "gui/src/main.rs"
  {
    assert ["gui", "src", "main.rs"][1..] == ["src", "main.rs"];
  }

  lemma WrittenRoots(n: Name)
    requires Plain(n)
    ensures Written(n) in {"src/lib.rs", "src/main.rs", "build.rs", "gui/src/main.rs", "gui/build.rs"} <==> n in ROOTS
  {
    RootTexts();
    forall root | root in ROOTS
      ensures Plain(root)
      ensures Written(n) == Written(root) <==> n == root
    {
      if Written(n) == Written(root) {
        WrittenOnce(n, root);
      }
    }
    hide Written;
  }

  /** An integration root is `tests/X.rs` or `tests/X/main.rs`, where X is a nonempty name. */
  lemma IntegrationRootMeaning(n: Name)
    requires Plain(n)
    ensures IntegrationRoot(n) <==> exists x ::
      x != "" && '/' !in x && (Written(n) == "tests/" + x + ".rs" || Written(n) == "tests/" + x + "/main.rs")
  {
    if IntegrationRoot(n) {
      assert n[1] in n;
      var x := if |n| == 2 then n[1][..|n[1]| - 3] else n[1];
      assert |n| == 2 ==> n[1] == x + ".rs" && forall c :: c in x ==> c in n[1];
      TestTexts(x);
      assert n == if |n| == 2 then ["tests", x + ".rs"] else ["tests", x, "main.rs"];
    }
    hide Written;
    if x :| x != "" && '/' !in x && (Written(n) == "tests/" + x + ".rs" || Written(n) == "tests/" + x + "/main.rs") {
      TestTexts(x);
      if Written(n) == "tests/" + x + ".rs" {
        WrittenOnce(n, ["tests", x + ".rs"]);
      } else {
        WrittenOnce(n, ["tests", x, "main.rs"]);
      }
    }
  }

  lemma TestTexts(x: string)
    requires '/' !in x
    ensures Plain(["tests", x + ".rs"]) && Written(["tests", x + ".rs"]) == "tests/" + x + ".rs"
    ensures Plain(["tests", x, "main.rs"]) && Written(["tests", x, "main.rs"]) == "tests/" + x + "/main.rs"
  {
    var file, folder := ["tests", x + ".rs"], ["tests", x, "main.rs"];
    assert file[1..] == [x + ".rs"] && folder[1..] == [x, "main.rs"] && folder[1..][1..] == ["main.rs"];
    assert Written(file[1..]) == x + ".rs" && Written(folder[1..]) == x + ['/'] + "main.rs";
    assert "tests" + ['/'] == "tests/" && ['/'] + "main.rs" == "/main.rs";
    assert x + ['/'] + "main.rs" == x + (['/'] + "main.rs");
  }

  lemma {:induction false} LastDotMeaning(s: string)
    ensures -1 <= LastDot(s) < |s|
    ensures LastDot(s) >= 0 ==> s[LastDot(s)] == '.'
    ensures forall i :: LastDot(s) < i < |s| ==> s[i] != '.'
  {
    if s != "" && s[|s| - 1] != '.' {
      LastDotMeaning(s[..|s| - 1]);
    }
  }

  /** The name before its last extension, where a leading dot starts none and a trailing one neither. */
  ghost predicate StemIs(file: string, stem: string) {
    || (exists extension :: file == stem + "." + extension && stem != "" && extension != "" && '.' !in extension)
    || (file == stem && (|file| < 2 || file[|file| - 1] == '.' || '.' !in file[1..]))
  }

  lemma StemMeaning(file: string, stem: string)
    ensures Stem(file) == stem <==> StemIs(file, stem)
  {
    LastDotMeaning(file);
    var i := LastDot(file);
    hide LastDot;
    if 0 < i < |file| - 1 {
      var extension := file[i + 1..];
      assert file == file[..i] + "." + extension;
      assert file[1..][i - 1] == '.';
      forall s, e | file == s + "." + e && s != "" && e != "" && '.' !in e
        ensures s == file[..i]
      {
        assert file[|s|] == '.' && forall k :: |s| < k < |file| ==> file[k] == e[k - |s| - 1];
      }
    } else {
      if |file| >= 2 && i <= 0 {
        assert forall k :: 0 <= k < |file| - 1 ==> file[1..][k] == file[k + 1];
      }
      forall s, e | file == s + "." + e && s != "" && e != ""
        ensures '.' in e
      {
        assert file[|s|] == '.';
        assert i == |file| - 1 && e[|e| - 1] == file[i];
      }
    }
  }

  /** A generated file's name ends in `_generated` before its last extension. */
  lemma GeneratedMeaning(n: Name)
    ensures Generated(n) <==> n != [] && exists x :: StemIs(n[|n| - 1], x + "_generated")
  {
    if n != [] {
      var file, mark := n[|n| - 1], "_generated";
      forall stem
        ensures Stem(file) == stem <==> StemIs(file, stem)
      {
        StemMeaning(file, stem);
      }
      hide Stem, StemIs;
      if Generated(n) {
        assert Stem(file) == Stem(file)[..|Stem(file)| - |mark|] + mark;
      }
    }
  }

  ghost predicate Edge(repo: Repository, a: Name, b: Name) {
    repo.scan(a).Parsed? && b in repo.scan(a).modules
  }

  /** From a root by module edges, never through or into a generated file. */
  ghost predicate Path(repo: Repository, test: bool, p: seq<Name>) {
    && p != [] && IsRoot(repo, test, p[0])
    && (forall i :: 0 <= i < |p| ==> !Generated(p[i]))
    && (forall i :: 0 <= i < |p| - 1 ==> Edge(repo, p[i], p[i + 1]))
  }

  ghost predicate Reachable(repo: Repository, test: bool, n: Name) {
    exists p :: Path(repo, test, p) && p[|p| - 1] == n
  }

  lemma ReachNext(repo: Repository, test: bool, a: Name, b: Name)
    requires Reachable(repo, test, a) && Edge(repo, a, b) && !Generated(b)
    ensures Reachable(repo, test, b)
  {
    var p :| Path(repo, test, p) && p[|p| - 1] == a;
    var q := p + [b];
    hide Generated, IsRoot, Edge;
    forall i | 0 <= i < |p|
      ensures Edge(repo, q[i], q[i + 1]) && !Generated(q[i])
    {
      assert q[i] == p[i];
      assert i < |p| - 1 ==> q[i + 1] == p[i + 1];
    }
    assert Path(repo, test, q) && q[|q| - 1] == b;
  }

  /** Everything still to do is in the queue: the files read so far lead nowhere else. */
  ghost predicate Closed(repo: Repository, test: bool, done: set<Name>, queue: seq<Name>) {
    && (forall n :: IsRoot(repo, test, n) ==> n in done || n in queue || Generated(n))
    && (forall a, b :: a in done && Edge(repo, a, b) ==> b in done || b in queue || Generated(b))
  }

  lemma {:induction false} ClosedHoldsPath(repo: Repository, test: bool, done: set<Name>, p: seq<Name>)
    requires Closed(repo, test, done, []) && Path(repo, test, p)
    ensures p[|p| - 1] in done
    decreases |p|
  {
    if |p| > 1 {
      var q := p[..|p| - 1];
      assert Path(repo, test, q);
      ClosedHoldsPath(repo, test, done, q);
      assert Edge(repo, p[|p| - 2], p[|p| - 1]);
    }
  }

  lemma ClosedIsReachable(repo: Repository, test: bool, done: set<Name>, n: Name)
    requires Closed(repo, test, done, []) && Reachable(repo, test, n)
    ensures n in done
  {
    var p :| Path(repo, test, p) && p[|p| - 1] == n;
    ClosedHoldsPath(repo, test, done, p);
  }

  lemma RootReachable(repo: Repository, test: bool, n: Name)
    requires IsRoot(repo, test, n) && !Generated(n)
    ensures Reachable(repo, test, n)
  {
    assert Path(repo, test, [n]) && [n][|[n]| - 1] == n;
  }

  /** Dropping an entry that is done or generated. */
  lemma ClosedSkip(repo: Repository, test: bool, done: set<Name>, rest: seq<Name>, name: Name)
    requires Closed(repo, test, done, rest + [name]) && (name in done || Generated(name))
    ensures Closed(repo, test, done, rest)
  {
  }

  /** Reading an entry and queueing its modules. */
  lemma ClosedRead(repo: Repository, test: bool, done: set<Name>, rest: seq<Name>, name: Name)
    requires Closed(repo, test, done, rest + [name]) && repo.scan(name).Parsed?
    ensures Closed(repo, test, done + {name}, rest + repo.scan(name).modules)
  {
  }

  /**
   Follows the modules from the roots, in any order of the roots and on any graph, cyclic or
   not. It succeeds exactly when every reachable file is acceptable, and then it has read
   exactly the reachable files, each once.
   */
  method RustSources(repo: Repository, test: bool, roots: seq<Name>)
    returns (result: Option<map<Name, string>>, ghost log: seq<Name>)
    requires Resolved(repo)
    requires forall n :: n in roots <==> IsRoot(repo, test, n)
    ensures result.Some? <==> forall n :: Reachable(repo, test, n) ==>
      Owned(n, test) && ".." !in n && n !in repo.symlinks && repo.scan(n).Parsed?
    ensures result.Some? ==> forall n :: n in result.value <==> Reachable(repo, test, n)
    ensures result.Some? ==> forall n :: n in result.value ==> repo.scan(n) == Parsed(result.value[n], repo.scan(n).modules)
    ensures forall i, j :: 0 <= i < j < |log| ==> log[i] != log[j]
  {
    hide Reachable, Generated, Closed, Owned;
    var sources: map<Name, string> := map[];
    var queue := roots;
    log := [];
    forall n | n in roots && !Generated(n)
      ensures Reachable(repo, test, n)
    {
      RootReachable(repo, test, n);
    }
    RootsClosed(repo, test, roots);
    assert sources.Keys == {};
    while queue != []
      invariant sources.Keys <= repo.tracked && forall n :: n in queue ==> n in repo.tracked
      invariant forall n :: n in sources || (n in queue && !Generated(n)) ==> Reachable(repo, test, n)
      invariant forall n :: n in sources ==> Clean(repo, test, n) && sources[n] == repo.scan(n).text
      invariant Closed(repo, test, sources.Keys, queue)
      invariant forall n :: n in log <==> n in sources
      invariant forall i, j :: 0 <= i < j < |log| ==> log[i] != log[j]
      decreases repo.tracked - sources.Keys, |queue|
    {
      var name := queue[|queue| - 1];
      var rest := queue[..|queue| - 1];
      assert queue == rest + [name];
      if name in sources || Generated(name) {
        ClosedSkip(repo, test, sources.Keys, rest, name);
        queue := rest;
        continue;
      }
      if !Clean(repo, test, name) {
        assert Reachable(repo, test, name);
        return None, log;
      }
      var scan := repo.scan(name);
      forall m | m in scan.modules && !Generated(m)
        ensures Reachable(repo, test, m)
      {
        ReachNext(repo, test, name, m);
      }
      ClosedRead(repo, test, sources.Keys, rest, name);
      ghost var before := sources.Keys;
      sources := sources[name := scan.text];
      assert sources.Keys == before + {name};
      log := log + [name];
      queue := rest + scan.modules;
    }
    forall n | Reachable(repo, test, n)
      ensures n in sources
    {
      ClosedIsReachable(repo, test, sources.Keys, n);
    }
    result := Some(sources);
  }

  lemma RootsClosed(repo: Repository, test: bool, roots: seq<Name>)
    requires forall n :: n in roots <==> IsRoot(repo, test, n)
    ensures Closed(repo, test, {}, roots)
  {
  }
}
