/**
 Two imports of one job that its guard turns away, with the workspace, the walk and the environments
 they happen in. Every part is computed: what the walk lists, what the closure ships and defers, and the
 names the workspace defines.
 */
module BlockedImports {
  import opened Text
  import opened ImportWalk
  import opened InstalledExtensions
  import opened ClosureGuard

  // ---- The workspace ----

  const JOB_FILE: Path := ["jobs", "job.py"]
  const PACKED: Path := ["src", "vendor", "pkg", "x.py"]
  const CONF: Path := ["src", "vendor", "conf.py"]
  const BARE: Path := ["src", "foo.py"]

  /** The job's own root, a distribution, and a distribution inside that one. */
  const ROOTS: seq<Path> := [["jobs"], ["src"], ["src", "vendor"]]
  const DISTRIBUTIONS: set<Path> := {["src"], ["src", "vendor"]}

  const NAMES: seq<string> := ["vendor.pkg.x", "pkg.x", "foo"]

  /** `jobs/job.py` imports one file by both of its names, and a bare module. */
  const WORKSPACE := Workspace(
    {JOB_FILE, PACKED, CONF, BARE},
    {["jobs"], ["src"], ["src", "vendor"], ["src", "vendor", "pkg"]},
    map[JOB_FILE := [Import(NAMES)], PACKED := [], CONF := [], BARE := []])

  const JOB := Module(JOB_FILE, ["jobs"])
  const X := Module(PACKED, ["src", "vendor"])
  const FOO := Module(BARE, ["src"])
  const WALK: seq<Module> := [JOB, X, FOO]

  /** The module files by what they import as, suffix dropped. */
  const STEMS: set<Path> := {["jobs", "job"], ["src", "vendor", "pkg", "x"], ["src", "vendor", "conf"], ["src", "foo"]}

  lemma NoInitializer(package: Path)
    ensures package + [INIT] !in WORKSPACE.files
  {
    var file := package + [INIT];
    assert file[|file| - 1] == INIT && |INIT| == 11;
    assert |JOB_FILE[1]| == 6 && |PACKED[3]| == 4 && |CONF[2]| == 7 && |BARE[1]| == 6;
  }

  lemma NamedPy(name: string, stem: string)
    requires name + ".py" == stem + ".py"
    ensures name == stem
  {
    assert name == (name + ".py")[..|name|] && stem == (stem + ".py")[..|stem|];
  }

  lemma StemsAreSources()
    ensures JOB_FILE == ["jobs"] + ["job" + ".py"] && PACKED == ["src", "vendor", "pkg"] + ["x" + ".py"]
    ensures CONF == ["src", "vendor"] + ["conf" + ".py"] && BARE == ["src"] + ["foo" + ".py"]
    ensures STEMS == {["jobs"] + ["job"], ["src", "vendor", "pkg"] + ["x"], ["src", "vendor"] + ["conf"], ["src"] + ["foo"]}
  {
    assert "job" + ".py" == "job.py" && "x" + ".py" == "x.py" && "conf" + ".py" == "conf.py" && "foo" + ".py" == "foo.py";
    assert ["jobs"] + ["job"] == ["jobs", "job"] && ["src", "vendor", "pkg"] + ["x"] == ["src", "vendor", "pkg", "x"];
    assert ["src", "vendor"] + ["conf"] == ["src", "vendor", "conf"] && ["src"] + ["foo"] == ["src", "foo"];
  }

  lemma SourceIff(base: Path, name: string)
    requires name != "" && '.' !in name
    ensures WithPy(base + [name]) in WORKSPACE.files <==> base + [name] in STEMS
  {
    hide WithPy, STEMS, JOB_FILE, PACKED, CONF, BARE;
    SourceOf(base, name);
    StemsAreSources();
    SameSource(base, name, ["jobs"], "job");
    SameSource(base, name, ["src", "vendor", "pkg"], "x");
    SameSource(base, name, ["src", "vendor"], "conf");
    SameSource(base, name, ["src"], "foo");
  }

  lemma SameSource(base: Path, name: string, other: Path, stem: string)
    ensures base + [name + ".py"] == other + [stem + ".py"] <==> base + [name] == other + [stem]
  {
    var one, two := base + [name + ".py"], other + [stem + ".py"];
    var three, four := base + [name], other + [stem];
    if one == two {
      assert one[..|one| - 1] == base && two[..|two| - 1] == other && one[|one| - 1] == two[|two| - 1];
      NamedPy(name, stem);
    }
    if three == four {
      assert three[..|three| - 1] == base && four[..|four| - 1] == other && three[|three| - 1] == four[|four| - 1];
    }
  }

  // ---- Resolving its names ----

  predicate Plain(name: string) {
    name != "" && '.' !in name
  }

  /** On the way down: on through a directory, nowhere without one. */
  lemma Down(base: Path, parts: seq<string>, depth: nat)
    requires depth + 1 < |parts| && forall part :: part in parts ==> Plain(part)
    ensures ChainFrom(WORKSPACE, base, parts, depth)
         == if base + parts[..depth + 1] in WORKSPACE.dirs then ChainFrom(WORKSPACE, base, parts, depth + 1) else None
  {
    hide WORKSPACE;
    assert forall part :: part in parts[..depth + 1] ==> part in parts;
    assert "" !in parts[..depth + 1] by { assert !Plain(""); }
    JoinedPlain(base, parts[..depth + 1]);
    NoInitializer(base + parts[..depth + 1]);
  }

  /** At the end: the module's file, when there is one. */
  lemma Bottom(base: Path, parts: seq<string>)
    requires parts != [] && (forall part :: part in parts ==> Plain(part)) && base + parts !in WORKSPACE.dirs
    ensures ChainFrom(WORKSPACE, base, parts, |parts| - 1) == if base + parts in STEMS then Some([WithPy(base + parts)]) else None
  {
    hide WORKSPACE, STEMS, WithPy;
    var n := |parts| - 1;
    assert parts[..n + 1] == parts && parts == parts[..n] + [parts[n]] && base + parts == base + parts[..n] + [parts[n]];
    assert "" !in parts by { assert !Plain(""); }
    JoinedPlain(base, parts);
    NoInitializer(base + parts);
    assert Plain(parts[n]) by { assert parts[n] in parts; }
    SourceIff(base + parts[..n], parts[n]);
  }

  lemma HoldsTop(root: Path, top: string)
    requires Plain(top)
    ensures Regular(WORKSPACE, Joined(root, [top])) <==> root + [top] in STEMS
  {
    hide WORKSPACE, STEMS, WithPy;
    JoinedPlain(root, [top]);
    NoInitializer(root + [top]);
    SourceIff(root, top);
  }

  lemma OneHolderAtMost(top: string)
    requires Plain(top) && (["jobs", top] !in STEMS && ["src", "vendor", top] !in STEMS)
    ensures |Holders(WORKSPACE, ROOTS, top)| <= 1
  {
    hide WORKSPACE, STEMS, Regular;
    HoldsTop(["jobs"], top);
    HoldsTop(["src"], top);
    HoldsTop(["src", "vendor"], top);
    assert ["jobs"] + [top] == ["jobs", top] && ["src", "vendor"] + [top] == ["src", "vendor", top];
    assert ROOTS[1..] == [["src"], ["src", "vendor"]] && ROOTS[1..][1..] == [["src", "vendor"]] && ROOTS[1..][1..][1..] == [];
    assert Holders(WORKSPACE, [["src", "vendor"]], top) == [];
  }

  /** Where each path the search looks at stands. */
  lemma Places()
    ensures ["jobs", "vendor"] !in WORKSPACE.dirs && ["jobs", "pkg"] !in WORKSPACE.dirs && ["src", "pkg"] !in WORKSPACE.dirs
    ensures ["src", "vendor"] in WORKSPACE.dirs && ["src", "vendor", "pkg"] in WORKSPACE.dirs
    ensures ["src", "vendor", "pkg", "x"] !in WORKSPACE.dirs && ["src", "vendor", "pkg", "x"] in STEMS
    ensures ["jobs", "foo"] !in WORKSPACE.dirs && ["jobs", "foo"] !in STEMS
    ensures ["src", "foo"] !in WORKSPACE.dirs && ["src", "foo"] in STEMS
  {
    assert "jobs" != "src" && "pkg" != "vendor" && "foo" != "vendor" by { assert |"jobs"| == 4 && |"src"| == 3 && |"pkg"| == 3 && |"vendor"| == 6; }
    assert "foo" != "job" by { assert "foo"[0] != "job"[0]; }
    var one, two: Path := ["src", "pkg"], ["src", "foo"];
    assert one[1] == "pkg" && two[1] == "foo";
    assert ["jobs", "foo"][1] == "foo" && ["jobs", "foo"][0] == "jobs";
  }

  lemma NoTops()
    ensures forall top | top in {"vendor", "pkg", "foo"} :: ["jobs", top] !in STEMS && ["src", "vendor", top] !in STEMS
  {
    assert "vendor" != "job" && "pkg" != "job" && "foo" != "job" by { assert |"vendor"| == 6 && "pkg"[0] == 'p' && "foo"[0] == 'f'; }
    assert "vendor" != "conf" && "pkg" != "conf" && "foo" != "conf" by { assert |"conf"| == 4; }
    forall top | top in {"vendor", "pkg", "foo"} ensures ["jobs", top] !in STEMS && ["src", "vendor", top] !in STEMS {
      assert ["jobs", top][1] == top && ["src", "vendor", top][2] == top;
    }
  }

  lemma Parts()
    ensures Split("vendor.pkg.x", '.') == ["vendor", "pkg", "x"] && Split("pkg.x", '.') == ["pkg", "x"] && Split("foo", '.') == ["foo"]
  {
    SplitPlain("foo", '.');
    SplitPlain("x", '.');
    SplitHead("pkg", "x", '.');
    SplitHead("vendor", "pkg.x", '.');
    assert "pkg" + ['.'] + "x" == "pkg.x" && "vendor" + ['.'] + "pkg.x" == "vendor.pkg.x";
    assert ["pkg"] + ["x"] == ["pkg", "x"] && ["vendor"] + ["pkg", "x"] == ["vendor", "pkg", "x"];
  }

  const LONG: seq<string> := ["vendor", "pkg", "x"]
  const SHORT: seq<string> := ["pkg", "x"]

  lemma PlainParts()
    ensures forall part :: part in LONG + SHORT + ["foo"] ==> Plain(part)
  {
  }

  /** `vendor.pkg.x` stands under the outer distribution, and not under the job's root. */
  lemma LongChain()
    ensures ChainFrom(WORKSPACE, ["jobs"], LONG, 0) == None && ChainFrom(WORKSPACE, ["src"], LONG, 0) == Some([PACKED])
  {
    hide WORKSPACE, STEMS, ChainFrom, WithPy;
    Places();
    PlainParts();
    assert LONG[..1] == ["vendor"] && LONG[..2] == ["vendor", "pkg"];
    assert ["jobs"] + ["vendor"] == ["jobs", "vendor"] && ["src"] + ["vendor"] == ["src", "vendor"];
    assert ["src"] + ["vendor", "pkg"] == ["src", "vendor", "pkg"] && ["src"] + LONG == ["src", "vendor", "pkg", "x"];
    Down(["jobs"], LONG, 0);
    Down(["src"], LONG, 0);
    Down(["src"], LONG, 1);
    Bottom(["src"], LONG);
    FileOfX();
  }

  lemma FileOfX()
    ensures WithPy(["src", "vendor", "pkg", "x"]) == PACKED
  {
    StemsAreSources();
    SourceOf(["src", "vendor", "pkg"], "x");
    assert ["src", "vendor", "pkg"] + ["x"] == ["src", "vendor", "pkg", "x"];
  }

  /** `pkg.x` stands under the inner one alone. */
  lemma ShortChain()
    ensures ChainFrom(WORKSPACE, ["jobs"], SHORT, 0) == None && ChainFrom(WORKSPACE, ["src"], SHORT, 0) == None
    ensures ChainFrom(WORKSPACE, ["src", "vendor"], SHORT, 0) == Some([PACKED])
  {
    hide WORKSPACE, STEMS, ChainFrom, WithPy;
    Places();
    PlainParts();
    assert SHORT[..1] == ["pkg"] && ["jobs"] + ["pkg"] == ["jobs", "pkg"] && ["src"] + ["pkg"] == ["src", "pkg"];
    assert ["src", "vendor"] + ["pkg"] == ["src", "vendor", "pkg"] && ["src", "vendor"] + SHORT == ["src", "vendor", "pkg", "x"];
    Down(["jobs"], SHORT, 0);
    Down(["src"], SHORT, 0);
    Down(["src", "vendor"], SHORT, 0);
    Bottom(["src", "vendor"], SHORT);
    FileOfX();
  }

  /** `foo` stands under the outer one. */
  lemma BareChain()
    ensures ChainFrom(WORKSPACE, ["jobs"], ["foo"], 0) == None && ChainFrom(WORKSPACE, ["src"], ["foo"], 0) == Some([BARE])
  {
    hide WORKSPACE, STEMS, ChainFrom, WithPy;
    Places();
    PlainParts();
    assert ["jobs"] + ["foo"] == ["jobs", "foo"] && ["src"] + ["foo"] == ["src", "foo"];
    Bottom(["jobs"], ["foo"]);
    Bottom(["src"], ["foo"]);
    assert WithPy(["src", "foo"]) == BARE by { StemsAreSources(); SourceOf(["src"], "foo"); assert ["src"] + ["foo"] == ["src", "foo"]; }
  }

  lemma ResolvesLong()
    ensures Resolve(WORKSPACE, ROOTS, "vendor.pkg.x") == Done([Module(PACKED, ["src"])])
  {
    hide WORKSPACE, STEMS, ChainFrom, Holders, Split;
    Parts();
    NoTops();
    PlainParts();
    OneHolderAtMost("vendor");
    LongChain();
    assert ROOTS[1..][0] == ["src"];
    assert FirstChain(WORKSPACE, ROOTS[1..], LONG) == [Module(PACKED, ["src"])];
  }

  lemma ResolvesShort()
    ensures Resolve(WORKSPACE, ROOTS, "pkg.x") == Done([X])
  {
    hide WORKSPACE, STEMS, ChainFrom, Holders, Split;
    Parts();
    NoTops();
    PlainParts();
    OneHolderAtMost("pkg");
    ShortChain();
    assert ROOTS[1..][0] == ["src"] && ROOTS[1..][1..][0] == ["src", "vendor"];
    assert FirstChain(WORKSPACE, ROOTS[1..][1..], SHORT) == [X];
    assert FirstChain(WORKSPACE, ROOTS[1..], SHORT) == [X];
  }

  lemma ResolvesBare()
    ensures Resolve(WORKSPACE, ROOTS, "foo") == Done([FOO])
  {
    hide WORKSPACE, STEMS, ChainFrom, Holders, Split;
    Parts();
    NoTops();
    PlainParts();
    OneHolderAtMost("foo");
    BareChain();
    assert ROOTS[1..][0] == ["src"];
    assert FirstChain(WORKSPACE, ROOTS[1..], ["foo"]) == [FOO];
  }

  // ---- What the walk lists ----

  lemma JobImports()
    ensures Imported(WORKSPACE, JOB) == Done(NAMES) && Imported(WORKSPACE, X) == Done([]) && Imported(WORKSPACE, FOO) == Done([])
  {
    var nodes := [Import(NAMES)];
    assert JOB_FILE != PACKED && JOB_FILE != CONF && JOB_FILE != BARE by { assert |JOB_FILE| == 2 && "jobs" != "src" by { assert |"jobs"| == 4; } }
    assert WORKSPACE.syntax[JOB_FILE] == nodes && nodes[1..] == [];
    forall package: string ensures AllNamed(nodes, package) == NAMES {
      assert AllNamed(nodes, package) == NAMES + [];
    }
  }

  lemma AllResolve()
    ensures ResolveAll(WORKSPACE, ROOTS, NAMES) == Done([Module(PACKED, ["src"]), X, FOO])
  {
    hide Resolve;
    ResolvesLong();
    ResolvesShort();
    ResolvesBare();
    assert NAMES[1..] == ["pkg.x", "foo"] && NAMES[1..][1..] == ["foo"] && NAMES[1..][1..][1..] == [];
    assert [FOO] + [] == [FOO] && ["pkg.x", "foo"][1..] == ["foo"] && ["foo"][1..] == [];
    assert ResolveAll(WORKSPACE, ROOTS, ["foo"]) == Done([FOO]);
    assert ResolveAll(WORKSPACE, ROOTS, ["pkg.x", "foo"]) == Done([X] + [FOO]);
    assert [Module(PACKED, ["src"])] + ([X] + [FOO]) == [Module(PACKED, ["src"]), X, FOO];
  }

  /** The file both names lead to is listed once, under the root of the last of them. */
  lemma ListedUnderTheLast()
    ensures Imported(WORKSPACE, JOB) == Done(NAMES) && ResolveAll(WORKSPACE, ROOTS, NAMES).Done?
    ensures Fresh(ResolveAll(WORKSPACE, ROOTS, NAMES).value, [JOB]) == [X, FOO]
  {
    hide ResolveAll, WORKSPACE, Imported;
    JobImports();
    AllResolve();
    var one, found := Module(PACKED, ["src"]), [Module(PACKED, ["src"]), X, FOO];
    assert found[..2] == [one, X] && [one, X][..1] == [one] && [one][..0] == [];
    assert PACKED != JOB_FILE && BARE != JOB_FILE && BARE != PACKED by { assert "src" != "jobs" by { assert |"jobs"| == 4; } }
    assert !Lists([JOB], PACKED) && !Lists([JOB], BARE);
    assert Fresh([one], [JOB]) == [one];
    assert Fresh([one, X], [JOB]) == Put([one], X) == [X];
    assert Put([X], FOO) == [X] + Put([], FOO);
  }

  lemma JobIsExpanded()
    ensures Expanded(WORKSPACE, ROOTS, JOB, WALK)
  {
    hide Resolve, WORKSPACE, Imported;
    JobImports();
    ResolvesLong();
    ResolvesShort();
    ResolvesBare();
    assert Lists(WALK, PACKED) by { assert WALK[1].path == PACKED; }
    assert Lists(WALK, BARE) by { assert WALK[2].path == BARE; }
    assert forall name :: name in NAMES ==> name == "vendor.pkg.x" || name == "pkg.x" || name == "foo";
  }

  lemma OthersAreExpanded()
    ensures Expanded(WORKSPACE, ROOTS, X, WALK) && Expanded(WORKSPACE, ROOTS, FOO, WALK)
  {
    hide Resolve, WORKSPACE, Imported;
    JobImports();
  }

  /** Nothing is left to list. */
  lemma WalkIsClosed()
    ensures Closed(WORKSPACE, ROOTS, WALK)
  {
    hide Expanded;
    JobIsExpanded();
    OthersAreExpanded();
    assert forall i :: 0 <= i < |WALK| ==> WALK[i] == JOB || WALK[i] == X || WALK[i] == FOO;
  }

  // ---- The environments ----

  /** An environment with one distribution, which declares `declared` and installed one extension of its own outside the workspace. */
  function OneExtension(name: string, declared: string): Environment {
    Environment([Distribution(name, [declared], [Entry(["_native.so"], None)])], [".py", ".so"], (text: string) => text)
  }

  lemma NativeIsAnExtension()
    ensures IsExtension(Entry(["_native.so"], None))
  {
    var file := "_native.so";
    assert "_native"[0] != '.' && "_native" + "." + "so" == file;
    StemOfSuffix("_native", "so");
    assert file[7..] == ".so";
  }

  /** Whatever it declares, the distribution claims its own name too, so a package called so defers. */
  lemma NamesakeDefers(s: Sources, name: string, declared: string, package: Path)
    requires s.env == OneExtension(name, declared) && package != [] && package[|package| - 1] == name
    ensures Outside(s, package)
  {
    hide Provides, CalledAfter, IsExtension;
    var entry, d := Entry(["_native.so"], None), s.env.distributions[0];
    assert CalledAfter(s.env, d, name) by { CalledSo(s.env, d); }
    assert Claimant(s.env, name) == Some(d);
    NativeIsAnExtension();
    assert ExtensionsOf([entry]) == [entry];
    assert Recorded(s, package)[0].None?;
  }

  lemma CalledSo(env: Environment, d: Distribution)
    ensures CalledAfter(env, d, d.name)
  {
  }

  /** Source discovery that keeps every file under a package. */
  function Discovery(env: Environment): (s: Sources)
    ensures s.env == env
  {
    Sources((package: Path) => (set file | file in WORKSPACE.files && package <= file), env)
  }

  /** An extension outside is built into no package. */
  lemma NothingBuilt(s: Sources, name: string, declared: string, package: Path)
    requires s.env == OneExtension(name, declared)
    ensures Inside(package, Recorded(s, package)) == {}
  {
    hide Claimant;
    forall i | 0 <= i < |Extensions(s.env, NameOf(package))| ensures Recorded(s, package)[i].None? {
      var entry := Extensions(s.env, NameOf(package))[i];
      FromItsRecord(s.env, NameOf(package), entry);
    }
  }

  lemma FromItsRecord(env: Environment, name: string, entry: Entry)
    requires |env.distributions| == 1 && entry in Extensions(env, name)
    ensures entry in env.distributions[0].record
  {
    var d := Claimant(env, name).value;
    assert d == env.distributions[0];
  }

  lemma Discovers(env: Environment)
    ensures Discovered(Discovery(env), WALK, DISTRIBUTIONS)
  {
    assert forall i :: 0 <= i < |WALK| ==> WALK[i].path in WORKSPACE.files;
  }

  // ---- What is turned away ----

  /** Neither file is kept with the other's package. */
  lemma KeptApart(env: Environment)
    ensures PACKED !in Discovery(env).kept(["src", "foo.py"]) && BARE !in Discovery(env).kept(["src", "vendor", "pkg"])
  {
    assert |BARE| == 2 && PACKED[1] == "vendor" && |"vendor"| == 6 && |"foo.py"| == 6 && "vendor"[0] != "foo.py"[0];
  }

  lemma Packages()
    ensures Placed(X) && PackageOf(X) == ["src", "vendor", "pkg"] && X.path[|X.root|] == "pkg"
    ensures Placed(FOO) && PackageOf(FOO) == ["src", "foo.py"] && FOO.path[|FOO.root|] == "foo.py"
    ensures JOB.root !in DISTRIBUTIONS && JOB_FILE != PACKED && JOB_FILE != BARE
  {
    assert "jobs" != "src" by { assert |"jobs"| == 4; }
    assert JOB.root[0] == "jobs" && JOB_FILE[0] == "jobs";
  }

  /** Where the package of the one file defers, nothing ships it, whatever the other does. */
  lemma XIsStranded(s: Sources, name: string, declared: string, others: set<Path>)
    requires s == Discovery(OneExtension(name, declared)) && Outside(s, ["src", "vendor", "pkg"]) && PACKED !in others
    ensures Stranded(s, WALK, DISTRIBUTIONS, others, PACKED, "vendor")
  {
    hide Outside, Recorded, Inside, Discovery;
    Packages();
    KeptApart(s.env);
    NothingBuilt(s, name, declared, ["src", "foo.py"]);
    assert s.kept == Discovery(s.env).kept;
    assert "vendor" != "pkg" && "vendor" != "foo.py" by { assert |"vendor"| == 6 && |"pkg"| == 3 && "vendor"[0] != "foo.py"[0]; }
    assert forall i :: 0 <= i < |WALK| ==> WALK[i] == JOB || WALK[i] == X || WALK[i] == FOO;
  }

  lemma FooIsStranded(s: Sources, name: string, declared: string, others: set<Path>)
    requires s == Discovery(OneExtension(name, declared)) && Outside(s, ["src", "foo.py"]) && BARE !in others
    ensures Stranded(s, WALK, DISTRIBUTIONS, others, BARE, "foo")
  {
    hide Outside, Recorded, Inside, Discovery;
    Packages();
    KeptApart(s.env);
    NothingBuilt(s, name, declared, ["src", "vendor", "pkg"]);
    assert "foo" != "pkg" && "foo" != "foo.py" by { assert |"foo"| == 3 && |"foo.py"| == 6 && "foo"[0] != "pkg"[0]; }
    assert forall i :: 0 <= i < |WALK| ==> WALK[i] == JOB || WALK[i] == X || WALK[i] == FOO;
  }

  /** The workspace defines `vendor`, a portion holding a module, and `foo`, a bare module. */
  lemma DefinesBoth()
    ensures "vendor" in FirstParty(WORKSPACE, ROOTS) && "foo" in FirstParty(WORKSPACE, ROOTS)
  {
    DefinesVendor();
    DefinesFoo();
    assert ROOTS[1] == ["src"];
  }

  lemma DefinesVendor()
    ensures "vendor" in Defined(WORKSPACE, ["src"])
  {
    var directory: Path := ["src", "vendor"];
    assert ChildOf(CONF, directory) && CONF in WORKSPACE.files;
    assert HasPySuffix(CONF) by { assert "conf"[0] != '.'; StemOfSource("conf"); assert "conf" + ".py" == "conf.py"; }
    assert IsPackage(WORKSPACE, directory);
    assert directory in WORKSPACE.dirs && ChildOf(directory, ["src"]) && IsIdentifier(directory[1]);
  }

  lemma DefinesFoo()
    ensures "foo" in Defined(WORKSPACE, ["src"])
  {
    assert "foo"[0] != '.';
    StemOfSource("foo");
    assert "foo" + ".py" == "foo.py" && Stem(BARE[1]) == "foo" && HasPySuffix(BARE) && ChildOf(BARE, ["src"]) && BARE in WORKSPACE.files;
  }

  /**
   The file was listed under the inner distribution, whose package defers as `pkg`. Its import by the
   outer one's name is turned away, unless the job's own files or its resources hold it.
   */
  lemma OtherNameIsBlocked(others: set<Path>)
    requires PACKED !in others
    ensures var s := Discovery(OneExtension("pkg", "pkg"));
            && Closed(WORKSPACE, ROOTS, WALK) && Discovered(s, WALK, DISTRIBUTIONS)
            && GuardOf(s, WALK, DISTRIBUTIONS, others, FirstParty(WORKSPACE, ROOTS)).FindSpec("vendor.pkg.x", Some(InTree(PACKED))) == Blocked
  {
    hide Outside, GuardOf, OneExtension, Closed, Stranded, Split, WORKSPACE, FirstParty, Discovered;
    var s := Discovery(OneExtension("pkg", "pkg"));
    WalkIsClosed();
    Discovers(s.env);
    Parts();
    NamesakeDefers(s, "pkg", "pkg", ["src", "vendor", "pkg"]);
    XIsStranded(s, "pkg", "pkg", others);
    DefinesBoth();
    BlockedExactly(s, WALK, DISTRIBUTIONS, others, FirstParty(WORKSPACE, ROOTS), PACKED, "vendor.pkg.x");
  }

  /** A distribution called `foo.py` holds an extension of its own, so the bare module defers under its file's name, and `import foo` is turned away. */
  lemma BareModuleIsBlocked(others: set<Path>)
    requires BARE !in others
    ensures var s := Discovery(OneExtension("foo.py", "foo"));
            && Closed(WORKSPACE, ROOTS, WALK) && Discovered(s, WALK, DISTRIBUTIONS)
            && GuardOf(s, WALK, DISTRIBUTIONS, others, FirstParty(WORKSPACE, ROOTS)).FindSpec("foo", Some(InTree(BARE))) == Blocked
  {
    hide Outside, GuardOf, OneExtension, Closed, Stranded, Split, WORKSPACE, FirstParty, Discovered;
    var s := Discovery(OneExtension("foo.py", "foo"));
    WalkIsClosed();
    Discovers(s.env);
    Parts();
    NamesakeDefers(s, "foo.py", "foo", ["src", "foo.py"]);
    FooIsStranded(s, "foo.py", "foo", others);
    DefinesBoth();
    BlockedExactly(s, WALK, DISTRIBUTIONS, others, FirstParty(WORKSPACE, ROOTS), BARE, "foo");
  }
}
