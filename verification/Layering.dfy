/** The crate layering check (scripts/check-layering.py): only direct edges are tested. */
module Layering {
  datatype Package = Package(name: string, deps: seq<string>)

  /** The ranks crates have, those that must not name a vendor, and which names are vendor plugins. */
  datatype Table = Table(rank: string -> nat, free: set<string>, vendor: string -> bool)

  datatype Failure = Upward(crate: string, dep: string) | NamesVendor(crate: string, dep: string)

  predicate Member(packages: seq<Package>, name: string) {
    exists i | 0 <= i < |packages| :: packages[i].name == name
  }

  /** A dependency of one workspace crate on another. */
  predicate Edge(packages: seq<Package>, a: string, b: string) {
    Member(packages, b) && exists i | 0 <= i < |packages| :: packages[i].name == a && b in packages[i].deps
  }

  predicate Breaks(t: Table, packages: seq<Package>, f: Failure) {
    && Edge(packages, f.crate, f.dep)
    && match f
       case Upward(a, b) => t.rank(b) >= t.rank(a)
       case NamesVendor(a, b) => a in t.free && t.vendor(b)
  }

  ghost predicate Passes(t: Table, packages: seq<Package>) {
    forall f :: !Breaks(t, packages, f)
  }

  /** What one dependency of one package adds to the failures. */
  function Judge(t: Table, packages: seq<Package>, name: string, dep: string): seq<Failure> {
    if !Member(packages, dep) then []
    else (if t.rank(dep) >= t.rank(name) then [Upward(name, dep)] else []) +
         (if name in t.free && t.vendor(dep) then [NamesVendor(name, dep)] else [])
  }

  /** `f` is about one of the first `d` dependencies of `pkg`. */
  predicate Within(pkg: Package, d: nat, f: Failure) {
    d <= |pkg.deps| && f.crate == pkg.name && f.dep in pkg.deps[..d]
  }

  lemma JudgeFinds(t: Table, packages: seq<Package>, n: nat, d: nat)
    requires n < |packages| && d < |packages[n].deps|
    ensures var pkg := packages[n];
            forall f ::
              (f in Judge(t, packages, pkg.name, pkg.deps[d]) || (Breaks(t, packages, f) && Within(pkg, d, f))) <==>
              (Breaks(t, packages, f) && Within(pkg, d + 1, f))
  {
    var pkg := packages[n];
    assert pkg.deps[..d + 1] == pkg.deps[..d] + [pkg.deps[d]];
  }

  method Check(t: Table, packages: seq<Package>) returns (failures: seq<Failure>)
    ensures forall f :: f in failures <==> Breaks(t, packages, f)
    ensures failures == [] <==> Passes(t, packages)
  {
    failures := [];
    for n := 0 to |packages|
      invariant forall f :: f in failures <==>
          Breaks(t, packages, f) && exists i | 0 <= i < n :: Within(packages[i], |packages[i].deps|, f)
    {
      var pkg := packages[n];
      ghost var before := failures;
      for d := 0 to |pkg.deps|
        invariant forall f :: f in failures <==> f in before || (Breaks(t, packages, f) && Within(pkg, d, f))
      {
        JudgeFinds(t, packages, n, d);
        failures := failures + Judge(t, packages, pkg.name, pkg.deps[d]);
      }
      assert pkg.deps[..|pkg.deps|] == pkg.deps;
    }
    forall f | Breaks(t, packages, f)
      ensures f in failures
    {
      var i :| 0 <= i < |packages| && packages[i].name == f.crate && f.dep in packages[i].deps;
      assert packages[i].deps[..|packages[i].deps|] == packages[i].deps;
      assert Within(packages[i], |packages[i].deps|, f);
    }
    if failures != [] {
      assert failures[0] in failures;
    }
  }

  // A reported failure is between two packages of the workspace, the first of which
  // declares the second; whatever else is declared is ignored.
  lemma FailuresAreEdges(t: Table, packages: seq<Package>, a: string, b: string)
    ensures Breaks(t, packages, Upward(a, b)) <==>
            t.rank(b) >= t.rank(a) &&
            exists i, j | 0 <= i < |packages| && 0 <= j < |packages| ::
              packages[i].name == a && packages[j].name == b && b in packages[i].deps
    ensures Breaks(t, packages, NamesVendor(a, b)) <==>
            a in t.free && t.vendor(b) &&
            exists i, j | 0 <= i < |packages| && 0 <= j < |packages| ::
              packages[i].name == a && packages[j].name == b && b in packages[i].deps
  {
  }

  // ----- What passing means -----

  /** Each crate of the path depends directly on the next. */
  predicate Path(packages: seq<Package>, path: seq<string>) {
    forall i | 0 <= i < |path| - 1 :: Edge(packages, path[i], path[i + 1])
  }

  lemma {:induction false} RanksFall(t: Table, packages: seq<Package>, path: seq<string>, i: nat, j: nat)
    requires Passes(t, packages) && Path(packages, path) && i < j < |path|
    ensures t.rank(path[j]) < t.rank(path[i])
    decreases j
  {
    assert !Breaks(t, packages, Upward(path[j - 1], path[j]));
    if i < j - 1 {
      RanksFall(t, packages, path, i, j - 1);
    }
  }

  // A workspace that passes has no dependency cycle.
  lemma PassingIsAcyclic(t: Table, packages: seq<Package>, path: seq<string>)
    requires Passes(t, packages) && Path(packages, path) && |path| > 1
    ensures path[0] != path[|path| - 1]
  {
    RanksFall(t, packages, path, 0, |path| - 1);
  }

  /** No crate outside `free`, itself no vendor, lies strictly between a vendor and a vendor-free crate. */
  ghost predicate NothingBetween(t: Table) {
    forall f, x, v :: f in t.free && t.vendor(v) && !t.vendor(x) && t.rank(v) < t.rank(x) < t.rank(f) ==> x in t.free
  }

  ghost predicate Reaches(packages: seq<Package>, a: string, b: string) {
    exists path :: |path| > 1 && path[0] == a && path[|path| - 1] == b && Path(packages, path)
  }

  lemma FirstVendor(t: Table, path: seq<string>) returns (i: nat)
    requires |path| > 1 && t.vendor(path[|path| - 1])
    ensures 0 < i < |path| && t.vendor(path[i]) && forall j | 0 < j < i :: !t.vendor(path[j])
  {
    i := 1;
    while !t.vendor(path[i])
      invariant 0 < i < |path| && forall j | 0 < j < i :: !t.vendor(path[j])
      decreases |path| - i
    {
      i := i + 1;
    }
  }

  lemma NoPathToVendor(t: Table, packages: seq<Package>, path: seq<string>)
    requires Passes(t, packages) && NothingBetween(t)
    requires |path| > 1 && Path(packages, path) && path[0] in t.free
    ensures !t.vendor(path[|path| - 1])
  {
    if t.vendor(path[|path| - 1]) {
      var i := FirstVendor(t, path);
      var x, v := path[i - 1], path[i];
      assert !Breaks(t, packages, NamesVendor(x, v));
      RanksFall(t, packages, path, i - 1, i);
      if i > 1 {
        RanksFall(t, packages, path, 0, i - 1);
      }
    }
  }

  /** In every passing workspace no vendor-free crate reaches a vendor plugin. */
  ghost predicate KeepsVendorsOut(t: Table) {
    forall packages, f, v :: Passes(t, packages) && f in t.free && t.vendor(v) ==> !Reaches(packages, f, v)
  }

  lemma LeakThrough(t: Table, f: string, x: string, v: string)
    requires f in t.free && t.vendor(v) && !t.vendor(x) && t.rank(v) < t.rank(x) < t.rank(f) && x !in t.free
    ensures exists packages :: Passes(t, packages) && Reaches(packages, f, v)
  {
    var packages := [Package(f, [x]), Package(x, [v]), Package(v, [])];
    assert packages[0].name == f && packages[1].name == x && packages[2].name == v;
    forall a, b
      ensures Edge(packages, a, b) <==> (a == f && b == x) || (a == x && b == v)
    {
    }
    assert Passes(t, packages);
    var path := [f, x, v];
    assert Path(packages, path);
    assert Reaches(packages, f, v);
  }

  // Testing direct edges is enough for exactly the tables that leave no room
  // between vendors and vendor-free crates.
  lemma DirectEdgesSufficeExactlyWhen(t: Table)
    ensures KeepsVendorsOut(t) <==> NothingBetween(t)
  {
    if NothingBetween(t) {
      forall packages, f, v | Passes(t, packages) && f in t.free && t.vendor(v)
        ensures !Reaches(packages, f, v)
      {
        if Reaches(packages, f, v) {
          var path :| |path| > 1 && path[0] == f && path[|path| - 1] == v && Path(packages, path);
          NoPathToVendor(t, packages, path);
        }
      }
    } else {
      var f, x, v :| f in t.free && t.vendor(v) && !t.vendor(x) && t.rank(v) < t.rank(x) < t.rank(f) && x !in t.free;
      LeakThrough(t, f, x, v);
    }
  }
}

/** The table the repository ships. */
module CrateTable {
  import opened Layering

  const RANK: map<string, nat> := map[
    "keke-paths" := 0, "keke-protocol" := 1, "keke-tool" := 2, "keke-config-types" := 3, "keke-provider-api" := 3,
    "keke-auth-api" := 3, "keke-plugin-api" := 4, "keke-wire" := 5, "keke-image" := 5, "keke-catalog" := 6,
    "keke-fuzzy-file-search" := 7, "keke-oauth" := 8, "keke-sandbox" := 9, "keke-config" := 10,
    "keke-credentials" := 10, "keke-workspace" := 11, "keke-checkpoint" := 11, "keke-core" := 12, "keke-tasks" := 13,
    "keke-subagent" := 14, "keke-schedule" := 14, "keke-test-support" := 15, "keke-plugin" := 16, "keke-plan" := 20,
    "keke-acp" := 30, "keke-tui" := 31, "keke-cli" := 32]

  const PLUGIN_RANK: nat := 20

  const VENDOR_FREE: set<string> := {
    "keke-checkpoint", "keke-core", "keke-config", "keke-subagent", "keke-tasks", "keke-schedule", "keke-workspace",
    "keke-acp", "keke-tui"}

  function RankOf(name: string): nat {
    if name in RANK then RANK[name] else PLUGIN_RANK
  }

  predicate EndsInApi(name: string) {
    |name| >= 4 && name[|name| - 4..] == "-api"
  }

  predicate IsVendor(name: string) {
    ("keke-provider-" <= name || "keke-auth-" <= name) && !EndsInApi(name)
  }

  // A vendor plugin is named after what it provides, and is not one of the seams.
  lemma VendorNames(name: string)
    ensures IsVendor(name) <==>
            && (exists rest :: name == "keke-provider-" + rest || name == "keke-auth-" + rest)
            && !exists stem :: name == stem + "-api"
  {
    if "keke-provider-" <= name {
      assert name == "keke-provider-" + name[14..];
    }
    if "keke-auth-" <= name {
      assert name == "keke-auth-" + name[10..];
    }
    if EndsInApi(name) {
      assert name == name[..|name| - 4] + "-api";
    }
    if stem :| name == stem + "-api" {
      assert name[|name| - 4..] == "-api";
    }
  }

  const SHIPPED := Table(name => RankOf(name), VENDOR_FREE, name => IsVendor(name))

  lemma OneListedProvider(name: string)
    requires name in RANK && "keke-provider-" <= name
    ensures name == "keke-provider-api"
  {
    assert name[5] == 'p' && name[6] == 'r' && name[7] == 'o' && name[8] == 'v';
  }

  lemma OneListedAuth(name: string)
    requires name in RANK && "keke-auth-" <= name
    ensures name == "keke-auth-api"
  {
    assert name[5] == 'a' && name[6] == 'u';
  }

  lemma SeamsAreNoVendors()
    ensures !IsVendor("keke-provider-api") && !IsVendor("keke-auth-api")
  {
    var provider, auth := "keke-provider-api", "keke-auth-api";
    assert provider[13..] == "-api" && auth[9..] == "-api";
  }

  // A vendor plugin is never listed, so it ranks as a plugin.
  lemma VendorsAreUnlisted(name: string)
    requires IsVendor(name)
    ensures RankOf(name) == PLUGIN_RANK
  {
    SeamsAreNoVendors();
    if name in RANK {
      if "keke-provider-" <= name {
        OneListedProvider(name);
      } else {
        OneListedAuth(name);
      }
    }
  }

  lemma OnlySurfacesRankHigher(name: string)
    requires RankOf(name) > PLUGIN_RANK
    ensures name == "keke-acp" || name == "keke-tui" || name == "keke-cli"
  {
  }

  lemma FreeRanksAreBelowTheComposer(name: string)
    requires name in VENDOR_FREE
    ensures RankOf(name) <= 31
  {
  }

  // What a plugin may depend on without breaking the order: every listed crate but
  // the plan crate, which ranks with the plugins, and the three surfaces; and so
  // no other plugin.
  lemma PluginsDependOn(plugin: string, dep: string)
    requires plugin !in RANK
    ensures RankOf(dep) < RankOf(plugin) <==>
            dep in RANK && dep !in {"keke-plan", "keke-acp", "keke-tui", "keke-cli"}
  {
  }

  // And what the core may depend on.
  lemma CoreDependsOn(dep: string)
    ensures RankOf(dep) < RankOf("keke-core") <==>
            dep in {
              "keke-paths", "keke-protocol", "keke-tool", "keke-config-types", "keke-provider-api", "keke-auth-api",
              "keke-plugin-api", "keke-wire", "keke-image", "keke-catalog", "keke-fuzzy-file-search", "keke-oauth",
              "keke-sandbox", "keke-config", "keke-credentials", "keke-workspace", "keke-checkpoint"}
  {
  }

  // With the shipped table, passing means no vendor-free crate depends on a
  // vendor plugin by any path.
  lemma ShippedTableKeepsVendorsOut()
    ensures KeepsVendorsOut(SHIPPED)
  {
    forall f, x, v | f in VENDOR_FREE && IsVendor(v) && RankOf(v) < RankOf(x) < RankOf(f)
      ensures x in VENDOR_FREE
    {
      VendorsAreUnlisted(v);
      OnlySurfacesRankHigher(x);
      FreeRanksAreBelowTheComposer(f);
      assert RANK["keke-cli"] == 32;
    }
    assert NothingBetween(SHIPPED);
    DirectEdgesSufficeExactlyWhen(SHIPPED);
  }
}
