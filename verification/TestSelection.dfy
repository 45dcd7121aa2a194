/**
  Affected-test selection: reverse reachability over the import graph by a worklist, then the
  collapse of files into the package suites that already contain them.
*/
module TestSelection {
  import opened Common
  import opened TextOrder

  type Path = string
  type Graph = map<Path, set<Path>>

  const PACKAGES: set<string> := {"core", "merchant", "product", "bench"}

  function Of(g: Graph, p: Path): set<Path> { if p in g then g[p] else {} }

  /** The part of a path before its first slash. */
  function Top(p: Path): (t: Path)
    ensures '/' !in t
  {
    if p == "" || p[0] == '/' then "" else [p[0]] + Top(p[1..])
  }

  /** The part of a path after its last slash. */
  function Name(p: Path): Path {
    if p == "" then "" else if p[|p| - 1] == '/' then "" else Name(p[..|p| - 1]) + [p[|p| - 1]]
  }

  predicate IsTest(p: Path) { "test_" <= Name(p) }

  /** The package a path lies in, and what follows: the text before the first slash, if there is one. */
  lemma {:induction false} TopIsBeforeFirstSlash(d: Path, rest: Path)
    requires '/' !in d
    ensures Top(d) == d && Top(d + "/" + rest) == d
  {
    if d != "" {
      assert d[0] in d && forall c :: c in d[1..] ==> c in d;
      TopIsBeforeFirstSlash(d[1..], rest);
      assert d == [d[0]] + d[1..];
      assert (d + "/" + rest)[1..] == d[1..] + "/" + rest;
    }
  }

  lemma WithoutSlash(f: Path, n: nat)
    requires n < |f| && '/' !in f
    ensures f[n] != '/' && '/' !in f[..n]
  {
    assert f[n] in f && forall c :: c in f[..n] ==> c in f;
  }

  /** The last part of a path: the text after the last slash, if there is one. */
  lemma {:induction false} NameIsAfterLastSlash(dir: Path, f: Path)
    requires '/' !in f
    ensures Name(f) == f && Name(dir + "/" + f) == f
  {
    var p := dir + "/" + f;
    if f == "" {
      assert p[|p| - 1] == '/';
    } else {
      var n := |f| - 1;
      WithoutSlash(f, n);
      NameIsAfterLastSlash(dir, f[..n]);
      assert f == f[..n] + [f[n]];
      assert p[|p| - 1] == f[n] && p[..|p| - 1] == dir + "/" + f[..n];
    }
  }

  /** `package` is the text of `p` before its first slash, all of it when it has none. */
  ghost predicate LiesIn(p: Path, package: Path) {
    '/' !in package && (p == package || exists rest :: p == package + "/" + rest)
  }

  lemma {:induction false} LiesInTop(p: Path)
    ensures LiesIn(p, Top(p))
  {
    if p != "" && p[0] != '/' {
      LiesInTop(p[1..]);
      var t := Top(p[1..]);
      assert p == [p[0]] + p[1..];
      if p[1..] != t {
        var rest :| p[1..] == t + "/" + rest;
        assert p == Top(p) + "/" + rest;
      }
    } else if p != "" {
      assert p == "" + "/" + p[1..];
    }
  }

  lemma PackageIsTop(p: Path, package: Path)
    ensures LiesIn(p, package) <==> package == Top(p)
  {
    LiesInTop(p);
    if LiesIn(p, package) {
      if p == package {
        TopIsBeforeFirstSlash(package, "");
      } else {
        var rest :| p == package + "/" + rest;
        TopIsBeforeFirstSlash(package, rest);
      }
    }
  }

  /** The part of the path after its last slash begins with the prefix of tests. */
  ghost predicate NamesTest(p: Path) { exists dir, f :: TestIn(p, dir, f) }

  predicate TestIn(p: Path, dir: Path, f: Path) { '/' !in f && "test_" <= f && (p == f || p == dir + "/" + f) }

  lemma {:induction false} NameEnds(p: Path)
    ensures '/' !in Name(p) && (p == Name(p) || exists dir :: p == dir + "/" + Name(p))
  {
    if p != "" && p[|p| - 1] != '/' {
      var n := |p| - 1;
      NameEnds(p[..n]);
      assert p == p[..n] + [p[n]];
      if p[..n] != Name(p[..n]) {
        var dir :| p[..n] == dir + "/" + Name(p[..n]);
        assert p == dir + "/" + Name(p);
      }
    } else if p != "" {
      assert p == p[..|p| - 1] + "/" + "";
    }
  }

  lemma IsTestIff(p: Path)
    ensures IsTest(p) <==> NamesTest(p)
  {
    NameEnds(p);
    if IsTest(p) {
      var dir := if p == Name(p) then "" else var d :| p == d + "/" + Name(p); d;
      assert TestIn(p, dir, Name(p));
    }
    if NamesTest(p) {
      var dir, f :| TestIn(p, dir, f);
      NameIsAfterLastSlash(dir, f);
    }
  }

  // ---------------------------------------------------------------- what it means to be affected

  /** Each file of the chain is imported by the next. */
  predicate Chain(dependencies: Graph, s: seq<Path>) {
    s != [] && forall i :: 0 <= i < |s| - 1 ==> s[i] in Of(dependencies, s[i + 1])
  }

  /** `p` is the changed file or imports it through some chain. */
  ghost predicate Affects(dependencies: Graph, changed: Path, p: Path) {
    exists s: seq<Path> :: Chain(dependencies, s) && s[0] == changed && s[|s| - 1] == p
  }

  lemma AffectsItself(dependencies: Graph, changed: Path)
    ensures Affects(dependencies, changed, changed)
  {
    assert Chain(dependencies, [changed]);
  }

  lemma AffectsImporter(dependencies: Graph, changed: Path, p: Path, q: Path)
    requires Affects(dependencies, changed, p) && p in Of(dependencies, q)
    ensures Affects(dependencies, changed, q)
  {
    var s :| Chain(dependencies, s) && s[0] == changed && s[|s| - 1] == p;
    assert Chain(dependencies, s + [q]);
  }

  ghost predicate IsReverse(importers: Graph, dependencies: Graph) {
    forall p, q :: q in Of(importers, p) <==> p in Of(dependencies, q)
  }

  /** A set that holds the changed file and the importers of its members holds everything affected. */
  lemma {:induction false} ClosedHoldsChain(importers: Graph, dependencies: Graph, closed: set<Path>, s: seq<Path>)
    requires IsReverse(importers, dependencies) && Chain(dependencies, s) && s[0] in closed
    requires forall p :: p in closed ==> Of(importers, p) <= closed
    ensures s[|s| - 1] in closed
  {
    var n := |s| - 1;
    if n > 0 {
      assert Chain(dependencies, s[..n]);
      ClosedHoldsChain(importers, dependencies, closed, s[..n]);
      assert s[n - 1] in Of(dependencies, s[n - 1 + 1]);
      assert s[n] in Of(importers, s[n - 1]);
    }
  }

  // ---------------------------------------------------------------- the worklist

  method ListOf(s: set<Path>) returns (list: seq<Path>)
    ensures forall p :: p in list <==> p in s
  {
    list := [];
    var rest := s;
    while rest != {}
      invariant rest <= s
      invariant forall p :: p in list <==> p in s && p !in rest
      decreases rest
    {
      var p :| p in rest;
      list := list + [p];
      rest := rest - {p};
    }
  }

  method Reverse(dependencies: Graph) returns (importers: Graph)
    ensures IsReverse(importers, dependencies)
    ensures forall p :: Of(importers, p) <= dependencies.Keys
  {
    importers := map[];
    var rest := dependencies.Keys;
    while rest != {}
      invariant rest <= dependencies.Keys
      invariant forall p, q :: q in Of(importers, p) <==> q !in rest && p in Of(dependencies, q)
      decreases rest
    {
      var path :| path in rest;
      ghost var before := importers;
      importers := map p | p in importers.Keys + dependencies[path] ::
        Of(importers, p) + if p in dependencies[path] then {path} else {};
      assert forall p :: Of(importers, p) == Of(before, p) + if p in dependencies[path] then {path} else {};
      rest := rest - {path};
    }
  }

  /** Pop, mark, push what imports it; on any graph, cycles included, exactly the affected files are marked. */
  method Affected(importers: Graph, ghost dependencies: Graph, changed: Path) returns (affected: set<Path>)
    requires IsReverse(importers, dependencies)
    ensures forall p :: p in affected <==> Affects(dependencies, changed, p)
  {
    affected := {};
    var pending := [changed];
    ghost var universe := dependencies.Keys + {changed};
    AffectsItself(dependencies, changed);
    while pending != []
      invariant affected <= universe && forall p :: p in pending ==> p in universe
      invariant forall p :: p in affected || p in pending ==> Affects(dependencies, changed, p)
      invariant changed in affected || changed in pending
      invariant forall p, q :: p in affected && q in Of(importers, p) ==> q in affected || q in pending
      decreases universe - affected, |pending|
    {
      var path := pending[|pending| - 1];
      ghost var before := pending;
      pending := pending[..|pending| - 1];
      assert before == pending + [path];
      if path !in affected {
        ghost var remaining := universe - affected;
        affected := affected + {path};
        var more := ListOf(Of(importers, path) - affected);
        forall q | q in more ensures Affects(dependencies, changed, q) && q in universe {
          assert path in Of(dependencies, q);
          AffectsImporter(dependencies, changed, path, q);
        }
        pending := pending + more;
        assert universe - affected == remaining - {path} && path in remaining;
      }
    }
    forall p | Affects(dependencies, changed, p) ensures p in affected {
      var s :| Chain(dependencies, s) && s[0] == changed && s[|s| - 1] == p;
      ClosedHoldsChain(importers, dependencies, affected, s);
    }
  }

  // ---------------------------------------------------------------- the selection

  /** A test file runs by itself or with its whole package. */
  ghost predicate Covered(selection: set<Path>, test: Path) {
    test in selection || exists package :: package in selection && package in PACKAGES && LiesIn(test, package)
  }

  /** A source file named as a test that imports the changed file through some chain. */
  ghost predicate AffectedTest(dependencies: Graph, sources: set<Path>, changed: Path, t: Path) {
    t in sources && NamesTest(t) && Affects(dependencies, changed, t)
  }

  /** What one changed file asks for: the tests it affects, or its package when it affects none. */
  ghost predicate AskedFor(dependencies: Graph, sources: set<Path>, changed: Path, p: Path) {
    || AffectedTest(dependencies, sources, changed, p)
    || (LiesIn(changed, p) && forall t :: !AffectedTest(dependencies, sources, changed, t))
  }

  function Collapsed(selected: set<Path>): set<Path> {
    set p | p in selected && (p in PACKAGES || Top(p) !in selected * PACKAGES)
  }

  /**
    Affected tests are covered, a change that affects none asks for its package, nothing else is
    selected, and nothing runs both by itself and with its package.
  */
  ghost predicate Selects(sources: set<Path>, dependencies: Graph, changes: set<Path>, selection: set<Path>) {
    && (forall c, t :: c in changes && AffectedTest(dependencies, sources, c, t) ==> Covered(selection, t))
    && (forall c, p :: c in changes && LiesIn(c, p) && (forall t :: !AffectedTest(dependencies, sources, c, t)) ==>
          p in selection)
    && (forall p :: p in selection ==> exists c :: c in changes && AskedFor(dependencies, sources, c, p))
    && (forall p, q :: p in selection && q in selection && q in PACKAGES && LiesIn(p, q) ==> p == q)
  }

  /** The final selection, in order. */
  method Select(sources: set<Path>, dependencies: Graph, changes: set<Path>) returns (selection: seq<Path>)
    ensures Ascending(Less, selection) && Selects(sources, dependencies, changes, set p | p in selection)
  {
    var selected := SelectAll(sources, dependencies, changes);
    LessIsStrictOrder();
    selection := SortedSet(selected, Less);
    assert (set p | p in selection) == selected;
  }

  method SelectAll(sources: set<Path>, dependencies: Graph, changes: set<Path>) returns (selection: set<Path>)
    ensures Selects(sources, dependencies, changes, selection)
  {
    var importers := Reverse(dependencies);
    var selected: set<Path> := {};
    var rest := changes;
    while rest != {}
      invariant rest <= changes
      invariant forall p ::
                  p in selected <==> exists c :: c in changes && c !in rest && AskedFor(dependencies, sources, c, p)
      decreases rest
    {
      var changed :| changed in rest;
      var affected := Affected(importers, dependencies, changed);
      var tests := set p | p in affected && p in sources && IsTest(p);
      var asked := if tests != {} then tests else {Top(changed)};
      AskedExactly(dependencies, sources, changed, affected, tests, asked);
      ghost var before := rest;
      selected := selected + asked;
      rest := rest - {changed};
      forall p
        ensures p in selected <==> exists c :: c in changes && c !in rest && AskedFor(dependencies, sources, c, p) {
        if p in asked {
          assert changed in changes && changed !in rest && AskedFor(dependencies, sources, changed, p);
        }
      }
    }
    selection := Collapsed(selected);
    CollapseCovers(selected);
    forall c, t | c in changes && AffectedTest(dependencies, sources, c, t) ensures Covered(selection, t) {
      assert AskedFor(dependencies, sources, c, t);
    }
    forall c, p | c in changes && LiesIn(c, p) && (forall t :: !AffectedTest(dependencies, sources, c, t))
      ensures p in selection {
      assert AskedFor(dependencies, sources, c, p);
    }
    CollapseKeepsOnce(selected);
  }

  lemma CollapseKeepsOnce(selected: set<Path>)
    ensures forall p, q :: p in Collapsed(selected) && q in Collapsed(selected) * PACKAGES && LiesIn(p, q) ==> p == q
  {
    forall p, q | p in Collapsed(selected) && q in Collapsed(selected) * PACKAGES && LiesIn(p, q) ensures p == q {
      PackageIsTop(p, q);
      if p in PACKAGES {
        PackagesAreTops(p);
      }
    }
  }

  lemma PackageHasNoSlash(p: Path)
    requires p in PACKAGES
    ensures '/' !in p
  {
    if p == "core" {
      assert '/' !in "core";
    } else if p == "merchant" {
      assert '/' !in "merchant";
    } else if p == "product" {
      assert '/' !in "product";
    } else {
      assert p == "bench" && '/' !in "bench";
    }
  }

  lemma PackagesAreTops(p: Path)
    requires p in PACKAGES
    ensures '/' !in p && Top(p) == p
  {
    PackageHasNoSlash(p);
    TopIsBeforeFirstSlash(p, "");
  }

  lemma AskedExactly(dependencies: Graph, sources: set<Path>, changed: Path, affected: set<Path>, tests: set<Path>,
                     asked: set<Path>)
    requires forall p :: p in affected <==> Affects(dependencies, changed, p)
    requires tests == set p | p in affected && p in sources && IsTest(p)
    requires asked == if tests != {} then tests else {Top(changed)}
    ensures forall p :: p in asked <==> AskedFor(dependencies, sources, changed, p)
  {
    forall t ensures t in tests <==> AffectedTest(dependencies, sources, changed, t) {
      IsTestIff(t);
    }
    forall p ensures LiesIn(changed, p) <==> p == Top(changed) {
      PackageIsTop(changed, p);
    }
  }

  /** Collapsing drops a file only when its package stays, and keeps everything without a slash. */
  lemma CollapseCovers(selected: set<Path>)
    ensures forall p :: p in selected ==> Covered(Collapsed(selected), p)
    ensures forall p :: p in selected && '/' !in p ==> p in Collapsed(selected)
  {
    forall p | p in selected ensures Covered(Collapsed(selected), p) {
      if p !in Collapsed(selected) {
        LiesInTop(p);
        assert Top(p) in selected && Top(p) in PACKAGES;
      }
    }
    forall p | p in selected && '/' !in p ensures p in Collapsed(selected) {
      TopIsBeforeFirstSlash(p, "");
    }
  }
}
