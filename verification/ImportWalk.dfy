/**
 Following imports from a job's file without running it. A workspace is its files and directories,
 by their parts, and the syntax nodes of each Python file that parses.
 */
module ImportWalk {
  import opened Text

  /** A workspace-relative path by its parts, empty for the workspace itself. */
  type Path = seq<string>

  const INIT := "__init__.py"

  /** The syntax nodes the walk reads: imports, and calls with the literal first argument they pass, if any. */
  datatype Node =
    | Import(names: seq<string>)
    | ImportFrom(base: string, level: nat, names: seq<string>)
    | Call(callee: string, literal: Option<string>)

  /** syntax: the nodes of every file that can be read and parsed. */
  datatype Workspace = Workspace(files: set<Path>, dirs: set<Path>, syntax: map<Path, seq<Node>>)

  /** A module by its file and the root it is imported from. */
  datatype Module = Module(path: Path, root: Path)

  datatype Outcome<+T> = Done(value: T) | Refused

  // ---- Names ----

  /** The absolute spelling of a name written with `level` dots, if it has one. */
  function Absolute(package: string, level: nat, name: string): Option<string> {
    if level == 0 then Some(name) else FromParts(Split(package, '.'), level, name)
  }

  /** The same, over the components of the importing module's spelling. */
  function FromParts(split: seq<string>, level: nat, name: string): Option<string>
    requires split != [] && level > 0
  {
    var parts := split[..|split| - 1];
    if level - 1 >= |parts| then None
    else
      var base := parts[..|parts| - (level - 1)];
      Some(Join(if name == "" then base else base + [name], '.'))
  }

  /** The literal a dynamic import names, empty for any other call and for a relative one. */
  function Dynamic(callee: string, literal: Option<string>): string {
    if callee !in {"import_module", "__import__"} || literal.None? then ""
    else if literal.value != "" && literal.value[0] == '.' then "" else literal.value
  }

  /** Each imported name under `base`, a star left out. */
  function Under(base: string, names: seq<string>): seq<string> {
    if names == [] then []
    else (if names[0] == "*" then [] else [base + "." + names[0]]) + Under(base, names[1..])
  }

  /** What a node names, the relative ones spelled out. */
  function NamedBy(node: Node, package: string): seq<string> {
    match node
    case Import(names) => names
    case ImportFrom(base, level, names) =>
      (match Absolute(package, level, base)
       case None => []
       case Some(absolute) => [absolute] + Under(absolute, names))
    case Call(callee, literal) =>
      var named := Dynamic(callee, literal);
      if named == "" then [] else [named]
  }

  function AllNamed(nodes: seq<Node>, package: string): seq<string> {
    if nodes == [] then [] else NamedBy(nodes[0], package) + AllNamed(nodes[1..], package)
  }

  /** Something other than dots. */
  predicate Stemmed(text: string) {
    exists i :: 0 <= i < |text| && text[i] != '.'
  }

  /** A file name up to its last suffix, as `with_suffix("")` of Python 3.14 leaves it. */
  function Stem(name: string): (stem: string)
    ensures stem <= name
  {
    StemAt(name, |name|)
  }

  function StemAt(name: string, end: nat): (stem: string)
    requires end <= |name|
    ensures stem <= name
  {
    if end == 0 then name
    else if name[end - 1] != '.' then StemAt(name, end - 1)
    else if Stemmed(name[..end - 1]) then name[..end - 1]
    else name
  }

  /** `dotted`: the module name a file is imported by from its root. */
  function Dotted(path: Path, root: Path): Option<string> {
    if !(root < path) then None
    else
      var inside := path[|root|..];
      var stem := Stem(inside[|inside| - 1]);
      var parts := inside[..|inside| - 1];
      Some(Join(if stem == "__init__" then parts else parts + [stem], '.'))
  }

  /** `imported`: every module name a module imports, an initializer keeping one component to drop. */
  function Imported(w: Workspace, m: Module): Outcome<seq<string>> {
    match Dotted(m.path, m.root)
    case None => Refused
    case Some(dotted) =>
      if m.path !in w.syntax then Refused
      else
        Done(AllNamed(w.syntax[m.path], if m.path[|m.path| - 1] == INIT then dotted + ".__init__" else dotted))
  }

  /**
   The package `levels` above `package`, section 5.7 of the Python Language Reference: one dot is the
   package itself, each further dot one parent more, and there is nothing above the top package.
   */
  ghost function Above(package: seq<string>, levels: nat): Option<seq<string>> {
    if package == [] then None
    else if levels == 0 then Some(package)
    else Above(package[..|package| - 1], levels - 1)
  }

  lemma {:induction false} AboveIsAPrefix(package: seq<string>, levels: nat)
    ensures Above(package, levels) == if levels >= |package| then None else Some(package[..|package| - levels])
  {
    assert package[..|package|] == package;
    if package != [] && levels > 0 {
      AboveIsAPrefix(package[..|package| - 1], levels - 1);
      assert levels < |package| ==> package[..|package| - 1][..|package| - levels] == package[..|package| - levels];
    }
  }

  predicate Plain(parts: seq<string>) {
    forall part :: part in parts ==> '.' !in part
  }

  /** What `from` with dots names, given the package it is relative to. */
  ghost function Relative(package: seq<string>, level: nat, name: string): Option<string>
    requires level > 0
  {
    match Above(package, level - 1)
    case None => None
    case Some(base) => Some(Join(if name == "" then base else base + [name], '.'))
  }

  /** The code drops the spelled module's last component and reads the rest as the package. */
  lemma DropsItsLastComponent(parts: seq<string>, level: nat, name: string)
    requires parts != [] && level > 0
    ensures FromParts(parts, level, name) == Relative(parts[..|parts| - 1], level, name)
  {
    AboveIsAPrefix(parts[..|parts| - 1], level - 1);
  }

  /** A module's relative names resolve from the package that holds it, as the language does, whatever the number of dots. */
  lemma ModuleNamesFollowTheLanguage(parts: seq<string>, level: nat, name: string)
    requires parts != [] && Plain(parts) && level > 0
    ensures Absolute(Join(parts, '.'), level, name) == Relative(parts[..|parts| - 1], level, name)
  {
    SplitJoin(parts, '.');
    DropsItsLastComponent(parts, level, name);
  }

  lemma SpelledInitializer(parts: seq<string>)
    requires parts != []
    ensures Join(parts + ["__init__"], '.') == Join(parts, '.') + ".__init__"
  {
    JoinAppend(parts, "__init__", '.');
    assert Join(parts, '.') + ['.'] + "__init__" == Join(parts, '.') + ".__init__";
  }

  lemma PlainInitializer(parts: seq<string>)
    requires Plain(parts)
    ensures Plain(parts + ["__init__"])
  {
    assert '.' !in "__init__";
  }

  /** Below its import root, an initializer's relative names resolve from its own package. */
  lemma PackageInitializer(parts: seq<string>, level: nat, name: string)
    requires parts != [] && Plain(parts) && level > 0
    ensures Absolute(Join(parts, '.') + ".__init__", level, name) == Relative(parts, level, name)
  {
    var all := parts + ["__init__"];
    PlainInitializer(parts);
    ModuleNamesFollowTheLanguage(all, level, name);
    SpelledInitializer(parts);
    assert all[..|all| - 1] == parts;
  }

  /** At its import root the code reads an empty component where there is no package. */
  lemma RootInitializer(level: nat, name: string)
    requires level > 0
    ensures Absolute(Join([], '.') + ".__init__", level, name) == Relative([""], level, name)
  {
    SplitHead("", "__init__", '.');
    SplitPlain("__init__", '.');
    assert "" + ['.'] + "__init__" == Join([], '.') + ".__init__" && [""] + ["__init__"] == ["", "__init__"];
    DropsItsLastComponent(["", "__init__"], level, name);
    assert ["", "__init__"][..1] == [""];
  }

  /**
   An initializer's relative names resolve as the language has them, whatever the number of dots, unless
   it stands at its own import root and names one dot: exactly then the two differ.
   */
  lemma InitializerNamesFollowTheLanguage(parts: seq<string>, level: nat, name: string)
    requires Plain(parts) && level > 0
    ensures Absolute(Join(parts, '.') + ".__init__", level, name) == Relative(parts, level, name)
       <==> parts != [] || level > 1
  {
    if parts == [] {
      RootInitializer(level, name);
      AboveIsAPrefix([""], level - 1);
    } else {
      PackageInitializer(parts, level, name);
    }
  }

  lemma {:induction false} JoinAppend(parts: seq<string>, last: string, separator: char)
    requires parts != []
    ensures Join(parts + [last], separator) == Join(parts, separator) + [separator] + last
  {
    if |parts| == 1 {
      assert parts + [last] == [parts[0], last];
      assert (parts + [last])[1..] == [last];
    } else {
      assert (parts + [last])[1..] == parts[1..] + [last];
      JoinAppend(parts[1..], last, separator);
    }
  }

  /** The one dot at an import root: an empty package, where the language has none. */
  lemma RootInitializerHasNoPackage()
    ensures Absolute(".__init__", 1, "x") == Some(".x") && Relative([], 1, "x") == None
  {
    RootInitializer(1, "x");
    assert Join([], '.') + ".__init__" == ".__init__";
    assert [""] + ["x"] == ["", "x"] && ["", "x"][1..] == ["x"] && "" + ['.'] + "x" == ".x";
  }

  // ---- Files ----

  lemma {:induction false} NoSuffix(name: string, end: nat)
    requires end <= |name| && '.' !in name[..end]
    ensures StemAt(name, end) == name
  {
    if end > 0 {
      assert name[end - 1] in name[..end];
      NoSuffix(name, end - 1);
    }
  }

  lemma StemOfPlain(name: string)
    requires '.' !in name
    ensures Stem(name) == name
  {
    NoSuffix(name, |name|);
  }

  /** A suffix is what follows the last dot, when something other than dots precedes it. */
  lemma StemOfSuffix(name: string, suffix: string)
    requires Stemmed(name) && '.' !in suffix
    ensures Stem(name + "." + suffix) == name
  {
    var file := name + "." + suffix;
    StemFrom(name, suffix, |file|);
  }

  lemma {:induction false} StemFrom(name: string, suffix: string, end: nat)
    requires Stemmed(name) && '.' !in suffix && |name| < end <= |name + "." + suffix|
    ensures StemAt(name + "." + suffix, end) == name
  {
    hide Stemmed;
    var file := name + "." + suffix;
    if end == |name| + 1 {
      assert file[..|name|] == name && file[|name|] == '.';
    } else {
      assert file[end - 1] == suffix[end - |name| - 2] && suffix[end - |name| - 2] in suffix;
      StemFrom(name, suffix, end - 1);
    }
  }

  /** Nothing else is taken off a name. */
  lemma StemTakesASuffix(name: string)
    requires Stem(name) != name
    ensures Stemmed(Stem(name)) && exists suffix :: '.' !in suffix && name == Stem(name) + "." + suffix
  {
    TakenAt(name, |name|);
  }

  lemma {:induction false} TakenAt(name: string, end: nat)
    requires end <= |name| && '.' !in name[end..] && StemAt(name, end) != name
    ensures Stemmed(StemAt(name, end)) && exists suffix :: '.' !in suffix && name == StemAt(name, end) + "." + suffix
  {
    hide Stemmed;
    if name[end - 1] == '.' {
      assert name == name[..end - 1] + "." + name[end..];
    } else {
      assert name[end - 1..] == [name[end - 1]] + name[end..];
      TakenAt(name, end - 1);
    }
  }

  lemma StemOfSource(name: string)
    requires Stemmed(name)
    ensures Stem(name + ".py") == name
  {
    assert "." + "py" == ".py" && name + "." + "py" == name + ".py";
    StemOfSuffix(name, "py");
  }

  /** `joinpath`, which drops an empty part. */
  function Joined(base: Path, parts: seq<string>): Path
    decreases |parts|
  {
    if parts == [] then base else Joined(if parts[0] == "" then base else base + [parts[0]], parts[1..])
  }

  /** `with_suffix(".py")`, nothing for the workspace itself, whose own name is not in it. */
  function WithPy(package: Path): Path {
    if package == [] then [] else package[..|package| - 1] + [Stem(package[|package| - 1]) + ".py"]
  }

  lemma SourceOf(base: Path, name: string)
    requires name != "" && '.' !in name
    ensures WithPy(base + [name]) == base + [name + ".py"]
  {
    StemOfPlain(name);
  }

  lemma {:induction false} JoinedPlain(base: Path, parts: seq<string>)
    requires "" !in parts
    ensures Joined(base, parts) == base + parts
    decreases |parts|
  {
    if parts != [] {
      JoinedPlain(base + [parts[0]], parts[1..]);
      assert base + [parts[0]] + parts[1..] == base + parts;
    }
  }

  predicate Regular(w: Workspace, package: Path) {
    package + [INIT] in w.files || WithPy(package) in w.files
  }

  /** The initializers and the last module met on the way down `parts`, from `depth` on; None at a part that is no directory. */
  function ChainFrom(w: Workspace, base: Path, parts: seq<string>, depth: nat): Option<seq<Path>>
    requires depth <= |parts|
    decreases |parts| - depth
  {
    if depth == |parts| then Some([])
    else
      var package := Joined(base, parts[..depth + 1]);
      var rest := ChainFrom(w, base, parts, depth + 1);
      if package + [INIT] in w.files then
        (match rest case None => None case Some(found) => Some([package + [INIT]] + found))
      else if depth + 1 == |parts| && WithPy(package) in w.files then Some([WithPy(package)])
      else if package !in w.dirs then None
      else rest
  }

  function Prepended(files: seq<Path>, rest: Option<seq<Path>>): Option<seq<Path>> {
    match rest case None => None case Some(found) => Some(files + found)
  }

  /** `__chain`, a loop appending the files it finds. */
  method Chain(w: Workspace, base: Path, parts: seq<string>) returns (found: Option<seq<Path>>)
    ensures found == ChainFrom(w, base, parts, 0)
  {
    var files: seq<Path> := [];
    assert forall rest: seq<Path> :: [] + rest == rest;
    for depth := 0 to |parts|
      invariant ChainFrom(w, base, parts, 0) == Prepended(files, ChainFrom(w, base, parts, depth))
    {
      var package := Joined(base, parts[..depth + 1]);
      ghost var rest := ChainFrom(w, base, parts, depth + 1);
      if package + [INIT] in w.files {
        assert rest.Some? ==> files + ([package + [INIT]] + rest.value) == files + [package + [INIT]] + rest.value;
        files := files + [package + [INIT]];
      } else if depth + 1 == |parts| && WithPy(package) in w.files {
        assert files + [WithPy(package)] + [] == files + [WithPy(package)];
        files := files + [WithPy(package)];
      } else if package !in w.dirs {
        return None;
      }
    }
    assert files + [] == files;
    return Some(files);
  }

  lemma {:induction false} ChainIsFiles(w: Workspace, base: Path, parts: seq<string>, depth: nat)
    requires depth <= |parts|
    ensures ChainFrom(w, base, parts, depth).Some? ==>
              forall i :: 0 <= i < |ChainFrom(w, base, parts, depth).value| ==> ChainFrom(w, base, parts, depth).value[i] in w.files
    decreases |parts| - depth
  {
    if depth < |parts| {
      ChainIsFiles(w, base, parts, depth + 1);
    }
  }

  /** The roots that hold a regular package or module of this top-level name. */
  function Holders(w: Workspace, roots: seq<Path>, top: string): seq<Path> {
    if roots == [] then []
    else (if Regular(w, Joined(roots[0], [top])) then [roots[0]] else []) + Holders(w, roots[1..], top)
  }

  function ModulesOf(files: seq<Path>, root: Path): (modules: seq<Module>)
    ensures |modules| == |files| && forall i :: 0 <= i < |files| ==> modules[i] == Module(files[i], root)
  {
    seq(|files|, i requires 0 <= i < |files| => Module(files[i], root))
  }

  /** The first root under which the whole chain of `parts` stands, nothing when none does. */
  function FirstChain(w: Workspace, roots: seq<Path>, parts: seq<string>): seq<Module> {
    if roots == [] then []
    else
      match ChainFrom(w, roots[0], parts, 0)
      case Some(files) => ModulesOf(files, roots[0])
      case None => FirstChain(w, roots[1..], parts)
  }

  /** `resolve`: the files `name` imports, refused when two roots hold its top-level package. */
  function Resolve(w: Workspace, roots: seq<Path>, name: string): Outcome<seq<Module>> {
    var parts := Split(name, '.');
    if |Holders(w, roots, parts[0])| > 1 then Refused else Done(FirstChain(w, roots, parts))
  }

  lemma {:induction false} FirstChainIsFiles(w: Workspace, roots: seq<Path>, parts: seq<string>)
    ensures forall i :: 0 <= i < |FirstChain(w, roots, parts)| ==> FirstChain(w, roots, parts)[i].path in w.files
  {
    if roots != [] {
      ChainIsFiles(w, roots[0], parts, 0);
      FirstChainIsFiles(w, roots[1..], parts);
    }
  }

  // ---- Which root answers ----

  predicate Distinct(roots: seq<Path>) {
    forall i, j :: 0 <= i < j < |roots| ==> roots[i] != roots[j]
  }

  /** The roots before `k` all break the chain. */
  predicate BrokenBefore(w: Workspace, roots: seq<Path>, parts: seq<string>, k: nat)
    requires k <= |roots|
  {
    forall j :: 0 <= j < k ==> ChainFrom(w, roots[j], parts, 0).None?
  }

  lemma {:induction false} FirstChainFrom(w: Workspace, roots: seq<Path>, parts: seq<string>, k: nat)
    requires k < |roots| && BrokenBefore(w, roots, parts, k)
    ensures ChainFrom(w, roots[k], parts, 0).Some? ==>
              FirstChain(w, roots, parts) == ModulesOf(ChainFrom(w, roots[k], parts, 0).value, roots[k])
  {
    if k > 0 {
      assert roots[1..][k - 1] == roots[k];
      FirstChainFrom(w, roots[1..], parts, k - 1);
    }
  }

  predicate AllUnder(modules: seq<Module>, root: Path) {
    forall i :: 0 <= i < |modules| ==> modules[i].root == root
  }

  lemma {:induction false} FirstChainEarlier(w: Workspace, roots: seq<Path>, parts: seq<string>, k: nat)
    requires k <= |roots| && !BrokenBefore(w, roots, parts, k)
    ensures exists j :: 0 <= j < k && AllUnder(FirstChain(w, roots, parts), roots[j])
  {
    if ChainFrom(w, roots[0], parts, 0).Some? {
      assert AllUnder(FirstChain(w, roots, parts), roots[0]);
    } else {
      assert forall j :: 0 < j < k ==> roots[1..][j - 1] == roots[j];
      assert !BrokenBefore(w, roots[1..], parts, k - 1);
      FirstChainEarlier(w, roots[1..], parts, k - 1);
      var j :| 0 <= j < k - 1 && AllUnder(FirstChain(w, roots[1..], parts), roots[1..][j]);
      assert roots[1..][j] == roots[j + 1];
    }
  }

  /** A name is answered by the root that holds it exactly when every root searched before that one breaks the chain. */
  lemma AnsweredByItsHolder(w: Workspace, roots: seq<Path>, name: string, k: nat)
    requires Distinct(roots) && k < |roots|
    requires Holders(w, roots, Split(name, '.')[0]) == [roots[k]]
    requires var chain := ChainFrom(w, roots[k], Split(name, '.'), 0); chain.Some? && chain.value != []
    ensures Resolve(w, roots, name) == Done(ModulesOf(ChainFrom(w, roots[k], Split(name, '.'), 0).value, roots[k]))
       <==> BrokenBefore(w, roots, Split(name, '.'), k)
  {
    var parts := Split(name, '.');
    if BrokenBefore(w, roots, parts, k) {
      FirstChainFrom(w, roots, parts, k);
    } else {
      FirstChainEarlier(w, roots, parts, k);
      var j :| 0 <= j < k && AllUnder(FirstChain(w, roots, parts), roots[j]);
      var found := ModulesOf(ChainFrom(w, roots[k], parts, 0).value, roots[k]);
      assert found[0].root == roots[k] && roots[j] != roots[k];
    }
  }

  /** A bare directory of that name under an earlier root hides the package: the walk finds nothing where Python imports it. */
  lemma BareDirectoryHidesThePackage()
    ensures var w := Workspace({["dist", "pkg", INIT]}, {["home"], ["home", "pkg"], ["dist"], ["dist", "pkg"]}, map[]);
            && Holders(w, [["home"], ["dist"]], "pkg") == [["dist"]]
            && Resolve(w, [["home"], ["dist"]], "pkg") == Done([])
  {
    var w := Workspace({["dist", "pkg", INIT]}, {["home"], ["home", "pkg"], ["dist"], ["dist", "pkg"]}, map[]);
    SplitPlain("pkg", '.');
    assert Joined(["home"], ["pkg"]) == ["home", "pkg"] && Joined(["dist"], ["pkg"]) == ["dist", "pkg"];
    assert ["home", "pkg"] + [INIT] == ["home", "pkg", INIT] && ["dist", "pkg"] + [INIT] == ["dist", "pkg", INIT];
    assert |WithPy(["home", "pkg"])| == 2;
    assert Holders(w, [["dist"]], "pkg") == [["dist"]];
    assert ["pkg"][..1] == ["pkg"];
    assert ChainFrom(w, ["home"], ["pkg"], 0) == Some([]);
  }

  // ---- What a name resolves to, over the files ----

  /** The directory `depth` parts of a name lead to under a root. */
  function At(base: Path, parts: seq<string>, depth: nat): Path
    requires depth <= |parts|
  {
    Joined(base, parts[..depth])
  }

  /** The way down stands at `depth`: an initializer, a directory, or at the end a module. */
  ghost predicate Stands(w: Workspace, base: Path, parts: seq<string>, depth: nat)
    requires depth <= |parts|
  {
    var package := At(base, parts, depth);
    package + [INIT] in w.files || package in w.dirs || (depth == |parts| && WithPy(package) in w.files)
  }

  /** A file on the way down: an initializer at any depth, or at the end, without one, the module. */
  ghost predicate OnTheWay(w: Workspace, base: Path, parts: seq<string>, depth: nat, file: Path)
    requires depth <= |parts|
  {
    var package := At(base, parts, depth);
    file in w.files && (file == package + [INIT] || (depth == |parts| && package + [INIT] !in w.files && file == WithPy(package)))
  }

  lemma {:induction false} ChainExactlyFrom(w: Workspace, base: Path, parts: seq<string>, from: nat, file: Path)
    requires from <= |parts|
    ensures ChainFrom(w, base, parts, from).Some? <==> forall d :: from < d <= |parts| ==> Stands(w, base, parts, d)
    ensures ChainFrom(w, base, parts, from).Some? ==>
              (file in ChainFrom(w, base, parts, from).value <==> exists d :: from < d <= |parts| && OnTheWay(w, base, parts, d, file))
    decreases |parts| - from
  {
    hide Joined, WithPy;
    if from < |parts| {
      ChainExactlyFrom(w, base, parts, from + 1, file);
      assert At(base, parts, from + 1) == Joined(base, parts[..from + 1]);
      assert Stands(w, base, parts, from + 1) || !Stands(w, base, parts, from + 1);
      assert OnTheWay(w, base, parts, from + 1, file) || !OnTheWay(w, base, parts, from + 1, file);
    }
  }

  /** A name stands under a root exactly when every step down does, and leads to every initializer on the way and the module at its end. */
  lemma ChainExactly(w: Workspace, base: Path, parts: seq<string>, file: Path)
    ensures ChainFrom(w, base, parts, 0).Some? <==> forall d :: 0 < d <= |parts| ==> Stands(w, base, parts, d)
    ensures ChainFrom(w, base, parts, 0).Some? ==>
              (file in ChainFrom(w, base, parts, 0).value <==> exists d :: 0 < d <= |parts| && OnTheWay(w, base, parts, d, file))
  {
    ChainExactlyFrom(w, base, parts, 0, file);
  }

  /** A root holds a package or a module of this name. */
  ghost predicate HoldsTop(w: Workspace, root: Path, top: string) {
    root + [top] + [INIT] in w.files || root + [top + ".py"] in w.files
  }

  lemma {:induction false} HoldersExactly(w: Workspace, roots: seq<Path>, top: string)
    requires top != "" && '.' !in top
    ensures |Holders(w, roots, top)| > 0 <==> exists i :: 0 <= i < |roots| && HoldsTop(w, roots[i], top)
    ensures |Holders(w, roots, top)| > 1 <==> exists i, j :: 0 <= i < j < |roots| && HoldsTop(w, roots[i], top) && HoldsTop(w, roots[j], top)
  {
    if roots != [] {
      var rest := roots[1..];
      JoinedPlain(roots[0], [top]);
      SourceOf(roots[0], top);
      HoldersExactly(w, rest, top);
      assert Regular(w, Joined(roots[0], [top])) <==> HoldsTop(w, roots[0], top);
      assert forall i :: 0 <= i < |rest| ==> rest[i] == roots[i + 1];
      if i :| 0 <= i < |rest| && HoldsTop(w, rest[i], top) {
        assert HoldsTop(w, roots[i + 1], top);
        if HoldsTop(w, roots[0], top) {
          assert 0 <= 0 < i + 1 < |roots|;
        }
      }
      if i, j :| 0 <= i < j < |rest| && HoldsTop(w, rest[i], top) && HoldsTop(w, rest[j], top) {
        assert 0 <= i + 1 < j + 1 < |roots| && HoldsTop(w, roots[i + 1], top) && HoldsTop(w, roots[j + 1], top);
      }
      if i, j :| 0 <= i < j < |roots| && HoldsTop(w, roots[i], top) && HoldsTop(w, roots[j], top) {
        assert HoldsTop(w, rest[j - 1], top) && (i > 0 ==> HoldsTop(w, rest[i - 1], top));
      }
    }
  }

  /** A name is refused exactly when two roots hold its top-level package. */
  lemma RefusedExactly(w: Workspace, roots: seq<Path>, name: string)
    requires Split(name, '.')[0] != ""
    ensures Resolve(w, roots, name).Refused?
       <==> exists i, j :: 0 <= i < j < |roots| && HoldsTop(w, roots[i], Split(name, '.')[0]) && HoldsTop(w, roots[j], Split(name, '.')[0])
  {
    SplitHoldsNone(name, '.');
    assert Split(name, '.')[0] in Split(name, '.');
    HoldersExactly(w, roots, Split(name, '.')[0]);
  }

  lemma {:induction false} NoChain(w: Workspace, roots: seq<Path>, parts: seq<string>)
    requires BrokenBefore(w, roots, parts, |roots|)
    ensures FirstChain(w, roots, parts) == []
  {
    if roots != [] {
      assert forall j :: 0 <= j < |roots[1..]| ==> roots[1..][j] == roots[j + 1];
      NoChain(w, roots[1..], parts);
    }
  }

  /** A name that is not refused is answered by the first root it stands under, and by none when there is none. */
  lemma ResolvedByTheFirst(w: Workspace, roots: seq<Path>, name: string, k: nat)
    requires k <= |roots| && BrokenBefore(w, roots, Split(name, '.'), k) && Resolve(w, roots, name).Done?
    ensures k == |roots| ==> Resolve(w, roots, name).value == []
    ensures k < |roots| && ChainFrom(w, roots[k], Split(name, '.'), 0).Some? ==>
              Resolve(w, roots, name).value == ModulesOf(ChainFrom(w, roots[k], Split(name, '.'), 0).value, roots[k])
  {
    if k == |roots| {
      NoChain(w, roots, Split(name, '.'));
    } else {
      FirstChainFrom(w, roots, Split(name, '.'), k);
    }
  }

  // ---- What a module imports, over its syntax ----

  /** A module that can be imported: under its root, in directories and a `.py` file whose names hold no dot. */
  ghost predicate Importable(m: Module) {
    m.root < m.path && exists stem :: Spelling(m, stem)
  }

  ghost predicate Spelling(m: Module, stem: string)
    requires m.root < m.path
  {
    Plain(DirectoriesOf(m) + [stem]) && stem != "" && m.path[|m.path| - 1] == stem + ".py"
  }

  /** The directories between a module's root and its file. */
  function DirectoriesOf(m: Module): seq<string>
    requires m.root < m.path
  {
    m.path[|m.root|..|m.path| - 1]
  }

  /** The package a module's relative imports start from, an initializer at its root reading an empty one. */
  ghost function HomePackage(m: Module): seq<string>
    requires m.root < m.path
  {
    if m.path == m.root + [INIT] then [""] else DirectoriesOf(m)
  }

  /** What stands before the names of an import-from: its base as written, or, with dots, relative to the package. */
  ghost predicate Base(m: Module, base: string, level: nat, spelled: string)
    requires m.root < m.path
  {
    if level == 0 then spelled == base else Relative(HomePackage(m), level, base) == Some(spelled)
  }

  /** A node of module `m` imports `name`. */
  ghost predicate NodeNames(m: Module, node: Node, name: string)
    requires m.root < m.path
  {
    match node
    case Import(names) => name in names
    case ImportFrom(base, level, names) =>
      exists spelled :: Base(m, base, level, spelled) && (name == spelled || exists n :: n in names && n != "*" && name == spelled + "." + n)
    case Call(callee, literal) =>
      (callee == "import_module" || callee == "__import__") && literal == Some(name) && name != "" && name[0] != '.'
  }

  /** Some node of `m` imports `name`. */
  ghost predicate Names(w: Workspace, m: Module, name: string) {
    m.root < m.path && m.path in w.syntax && exists i :: 0 <= i < |w.syntax[m.path]| && NodeNames(m, w.syntax[m.path][i], name)
  }

  lemma InitializerFile()
    ensures "__init__" + ".py" == INIT
  {
  }

  /** How a module's own spelling reads the dots of its imports. */
  lemma SpellingReads(m: Module, stem: string, level: nat, base: string)
    requires m.root < m.path && Spelling(m, stem) && level > 0
    ensures Dotted(m.path, m.root).Some?
    ensures var dotted := Dotted(m.path, m.root).value;
            Absolute(if m.path[|m.path| - 1] == INIT then dotted + ".__init__" else dotted, level, base) == Relative(HomePackage(m), level, base)
  {
    var directories, inside := DirectoriesOf(m), m.path[|m.root|..];
    assert inside == directories + [stem + ".py"] && inside[..|inside| - 1] == directories;
    assert '.' !in stem by { assert stem in directories + [stem]; }
    assert stem[0] in stem;
    StemOfSource(stem);
    InitializerFile();
    if stem == "__init__" {
      assert Plain(directories) by { assert forall part :: part in directories ==> part in directories + [stem]; }
      if directories == [] {
        assert m.path == m.root + [INIT];
        RootInitializer(level, base);
      } else {
        assert m.path != m.root + [INIT];
        PackageInitializer(directories, level, base);
      }
    } else {
      assert stem + ".py" != INIT by { OneStem(stem, "__init__"); }
      assert m.path != m.root + [INIT] by { assert (m.root + [INIT])[|m.root|] == INIT; }
      ModuleNamesFollowTheLanguage(directories + [stem], level, base);
      assert (directories + [stem])[..|directories|] == directories;
    }
  }

  lemma OneStem(one: string, two: string)
    ensures one + ".py" == two + ".py" ==> one == two
  {
    assert (one + ".py")[..|one + ".py"| - 3] == one && (two + ".py")[..|two + ".py"| - 3] == two;
  }

  lemma {:induction false} UnderExactly(base: string, names: seq<string>, name: string)
    ensures name in Under(base, names) <==> exists n :: n in names && n != "*" && name == base + "." + n
  {
    if names != [] {
      UnderExactly(base, names[1..], name);
      assert names == [names[0]] + names[1..];
    }
  }

  /** A node names exactly what its syntax imports. */
  lemma NodeExactly(m: Module, stem: string, node: Node, name: string)
    requires m.root < m.path && Spelling(m, stem)
    ensures Dotted(m.path, m.root).Some?
    ensures var dotted := Dotted(m.path, m.root).value;
            name in NamedBy(node, if m.path[|m.path| - 1] == INIT then dotted + ".__init__" else dotted) <==> NodeNames(m, node, name)
  {
    hide Absolute, Relative, Dotted, HomePackage, Spelling, Under;
    SpellingReads(m, stem, 1, "");
    match node
    case Import(_) =>
    case Call(callee, literal) =>
    case ImportFrom(base, level, names) =>
      var dotted := Dotted(m.path, m.root).value;
      var absolute := Absolute(if m.path[|m.path| - 1] == INIT then dotted + ".__init__" else dotted, level, base);
      if level > 0 {
        SpellingReads(m, stem, level, base);
      } else {
        NoDots(if m.path[|m.path| - 1] == INIT then dotted + ".__init__" else dotted, base);
      }
      assert forall spelled :: Base(m, base, level, spelled) <==> absolute == Some(spelled);
      if absolute.Some? {
        UnderExactly(absolute.value, names, name);
      }
  }

  lemma NoDots(package: string, base: string)
    ensures Absolute(package, 0, base) == Some(base)
  {
  }

  lemma {:induction false} AllNamedExactly(m: Module, stem: string, nodes: seq<Node>, name: string)
    requires m.root < m.path && Spelling(m, stem)
    ensures Dotted(m.path, m.root).Some?
    ensures var dotted := Dotted(m.path, m.root).value;
            name in AllNamed(nodes, if m.path[|m.path| - 1] == INIT then dotted + ".__init__" else dotted)
            <==> exists i :: 0 <= i < |nodes| && NodeNames(m, nodes[i], name)
  {
    hide Dotted, Spelling, NamedBy, NodeNames;
    NodeExactly(m, stem, Import([]), name);
    if nodes != [] {
      NodeExactly(m, stem, nodes[0], name);
      AllNamedExactly(m, stem, nodes[1..], name);
      if i :| 0 <= i < |nodes[1..]| && NodeNames(m, nodes[1..][i], name) {
        assert nodes[i + 1] == nodes[1..][i];
      }
      if i :| 0 < i < |nodes| && NodeNames(m, nodes[i], name) {
        assert nodes[1..][i - 1] == nodes[i];
      }
    }
  }

  /** The names read off a module are exactly those its syntax imports. */
  lemma ImportedExactly(w: Workspace, m: Module, name: string)
    requires Importable(m)
    ensures Imported(w, m).Done? <==> m.path in w.syntax
    ensures m.path in w.syntax ==> (name in Imported(w, m).value <==> Names(w, m, name))
  {
    hide Dotted, Spelling, NodeNames, AllNamed;
    var stem :| Spelling(m, stem);
    AllNamedExactly(m, stem, if m.path in w.syntax then w.syntax[m.path] else [], name);
  }

  lemma {:induction false} JoinedDirectories(base: Path, parts: seq<string>) returns (directories: seq<string>)
    requires Plain(parts)
    ensures Joined(base, parts) == base + directories && Plain(directories) && "" !in directories
    decreases |parts|
  {
    if parts == [] {
      directories := [];
    } else {
      assert Plain(parts[1..]);
      var next := if parts[0] == "" then base else base + [parts[0]];
      directories := JoinedDirectories(next, parts[1..]);
      if parts[0] != "" {
        assert base + [parts[0]] + directories == base + ([parts[0]] + directories);
        directories := [parts[0]] + directories;
      }
    }
  }

  /** What a name leads to, when it lies under its root, can be imported. */
  lemma FileIsImportable(w: Workspace, base: Path, parts: seq<string>, depth: nat, file: Path)
    requires Plain(parts) && depth <= |parts| && OnTheWay(w, base, parts, depth, file) && base < file
    ensures Importable(Module(file, base))
  {
    hide Joined;
    assert Plain(parts[..depth]);
    var directories := JoinedDirectories(base, parts[..depth]);
    var package, m := base + directories, Module(file, base);
    InitializerFile();
    if file == package + [INIT] {
      assert DirectoriesOf(m) == directories;
      PlainInitializer(directories);
      assert Spelling(m, "__init__");
    } else {
      var n := |directories| - 1;
      assert |WithPy(package)| == |package|;
      assert directories != [];
      var stem := directories[n];
      assert package == base + directories[..n] + [stem] && stem in directories;
      SourceOf(base + directories[..n], stem);
      assert DirectoriesOf(m) == directories[..n] && directories[..n] + [stem] == directories;
      assert Spelling(m, stem);
    }
  }

  /** What a chain of imports leads to and can be spelled can be imported, when the start can. */
  lemma ResolvedIsImportable(w: Workspace, roots: seq<Path>, parts: seq<string>, i: nat)
    requires Plain(parts) && i < |FirstChain(w, roots, parts)| && FirstChain(w, roots, parts)[i].root < FirstChain(w, roots, parts)[i].path
    ensures Importable(FirstChain(w, roots, parts)[i])
  {
    hide Importable, ChainFrom;
    if ChainFrom(w, roots[0], parts, 0).Some? {
      var files := ChainFrom(w, roots[0], parts, 0).value;
      assert FirstChain(w, roots, parts)[i] == Module(files[i], roots[0]) && files[i] in files;
      ChainExactly(w, roots[0], parts, files[i]);
      var d :| 0 < d <= |parts| && OnTheWay(w, roots[0], parts, d, files[i]);
      FileIsImportable(w, roots[0], parts, d, files[i]);
    } else {
      ResolvedIsImportable(w, roots[1..], parts, i);
    }
  }

  // ---- The walk ----

  ghost function Paths(modules: seq<Module>): set<Path> {
    set i | 0 <= i < |modules| :: modules[i].path
  }

  predicate Lists(modules: seq<Module>, path: Path) {
    exists i :: 0 <= i < |modules| && modules[i].path == path
  }

  predicate EachOnce(modules: seq<Module>) {
    forall i, j :: 0 <= i < j < |modules| ==> modules[i].path != modules[j].path
  }

  /** A dictionary entry under the module's path: a new key goes last, an old one keeps its place. */
  function Put(modules: seq<Module>, m: Module): seq<Module> {
    if modules == [] then [m]
    else if modules[0].path == m.path then [m] + modules[1..]
    else [modules[0]] + Put(modules[1..], m)
  }

  /** `found` by path, less what was `reached` before. */
  function Fresh(found: seq<Module>, reached: seq<Module>): seq<Module> {
    if found == [] then []
    else
      var before, last := Fresh(found[..|found| - 1], reached), found[|found| - 1];
      if Lists(reached, last.path) then before else Put(before, last)
  }

  /** Every file the names import, refused as soon as one of them is. */
  function ResolveAll(w: Workspace, roots: seq<Path>, names: seq<string>): Outcome<seq<Module>> {
    if names == [] then Done([])
    else
      match Resolve(w, roots, names[0])
      case Refused => Refused
      case Done(found) =>
        match ResolveAll(w, roots, names[1..])
        case Refused => Refused
        case Done(rest) => Done(found + rest)
  }

  /** `m` imports a name that resolves to `target`. */
  ghost predicate Imports(w: Workspace, roots: seq<Path>, m: Module, target: Module) {
    && Imported(w, m).Done?
    && exists name :: name in Imported(w, m).value && Resolve(w, roots, name).Done? && target in Resolve(w, roots, name).value
  }

  /** A chain of `length` imports leads from `start` to `m`. */
  ghost predicate Leads(w: Workspace, roots: seq<Path>, start: Module, m: Module, length: nat)
    decreases length
  {
    if length == 0 then m == start
    else exists via :: Leads(w, roots, start, via, length - 1) && Imports(w, roots, via, m)
  }

  ghost predicate Reachable(w: Workspace, roots: seq<Path>, start: Module, m: Module) {
    exists length: nat :: Leads(w, roots, start, m, length)
  }

  /** `m` can be read, and every name it imports resolves, to listed paths only. */
  ghost predicate Expanded(w: Workspace, roots: seq<Path>, m: Module, listed: seq<Module>) {
    && Imported(w, m).Done?
    && forall name :: name in Imported(w, m).value ==>
         && Resolve(w, roots, name).Done?
         && forall i :: 0 <= i < |Resolve(w, roots, name).value| ==> Lists(listed, Resolve(w, roots, name).value[i].path)
  }

  /** `m` cannot be read, or imports a name two roots hold. */
  ghost predicate Stuck(w: Workspace, roots: seq<Path>, m: Module) {
    Imported(w, m).Refused? || exists name :: name in Imported(w, m).value && Resolve(w, roots, name).Refused?
  }

  lemma {:induction false} PutFrom(modules: seq<Module>, m: Module)
    ensures forall i :: 0 <= i < |Put(modules, m)| ==> Put(modules, m)[i] == m || Put(modules, m)[i] in modules
  {
    if modules != [] && modules[0].path != m.path {
      PutFrom(modules[1..], m);
    }
  }

  lemma {:induction false} PutLists(modules: seq<Module>, m: Module, path: Path)
    ensures Lists(Put(modules, m), path) <==> path == m.path || Lists(modules, path)
  {
    var put := Put(modules, m);
    if modules == [] {
      assert put[0] == m;
    } else if modules[0].path == m.path {
      assert put == [m] + modules[1..] && modules == [modules[0]] + modules[1..];
      ListsEither([m], modules[1..], path);
      ListsEither([modules[0]], modules[1..], path);
      assert [m][0] == m && [modules[0]][0] == modules[0];
    } else {
      PutLists(modules[1..], m, path);
      assert put == [modules[0]] + Put(modules[1..], m) && modules == [modules[0]] + modules[1..];
      ListsEither([modules[0]], Put(modules[1..], m), path);
      ListsEither([modules[0]], modules[1..], path);
    }
  }

  lemma {:induction false} PutOnce(modules: seq<Module>, m: Module)
    requires EachOnce(modules)
    ensures EachOnce(Put(modules, m))
  {
    if modules != [] && modules[0].path != m.path {
      var rest := Put(modules[1..], m);
      PutOnce(modules[1..], m);
      PutFrom(modules[1..], m);
      assert Put(modules, m) == [modules[0]] + rest;
      forall i | 0 <= i < |rest| ensures rest[i].path != modules[0].path {
        if rest[i] != m {
          var k :| 0 <= k < |modules[1..]| && modules[1..][k] == rest[i];
          assert modules[k + 1] == rest[i];
        }
      }
    }
  }

  lemma PutHolds(modules: seq<Module>, m: Module)
    requires EachOnce(modules)
    ensures EachOnce(Put(modules, m))
    ensures Lists(Put(modules, m), m.path)
    ensures forall path :: Lists(modules, path) ==> Lists(Put(modules, m), path)
    ensures forall i :: 0 <= i < |Put(modules, m)| ==> Put(modules, m)[i] == m || Put(modules, m)[i] in modules
  {
    hide Put, Lists, EachOnce;
    PutOnce(modules, m);
    PutFrom(modules, m);
    PutLists(modules, m, m.path);
    forall path | Lists(modules, path) ensures Lists(Put(modules, m), path) {
      PutLists(modules, m, path);
    }
  }

  /** What a turn of the walk adds: what it found that was not listed, each path once, and nothing else. */
  lemma {:induction false} FreshHolds(found: seq<Module>, reached: seq<Module>)
    ensures EachOnce(Fresh(found, reached))
    ensures forall i :: 0 <= i < |Fresh(found, reached)| ==> Fresh(found, reached)[i] in found && !Lists(reached, Fresh(found, reached)[i].path)
    ensures forall i :: 0 <= i < |found| ==> Lists(reached, found[i].path) || Lists(Fresh(found, reached), found[i].path)
  {
    if found != [] {
      var n := |found| - 1;
      FreshHolds(found[..n], reached);
      if !Lists(reached, found[n].path) {
        PutHolds(Fresh(found[..n], reached), found[n]);
      }
      forall i | 0 <= i < |found| ensures Lists(reached, found[i].path) || Lists(Fresh(found, reached), found[i].path) {
        assert i < n ==> found[..n][i] == found[i];
      }
    }
  }

  lemma {:induction false} ResolveAllHolds(w: Workspace, roots: seq<Path>, names: seq<string>)
    ensures ResolveAll(w, roots, names).Refused? <==> exists name :: name in names && Resolve(w, roots, name).Refused?
    ensures ResolveAll(w, roots, names).Done? ==>
              forall m :: m in ResolveAll(w, roots, names).value <==>
                exists name :: name in names && Resolve(w, roots, name).Done? && m in Resolve(w, roots, name).value
  {
    if names != [] {
      ResolveAllHolds(w, roots, names[1..]);
    }
  }

  lemma ResolvesToFiles(w: Workspace, roots: seq<Path>, name: string)
    ensures Resolve(w, roots, name).Done? ==>
              forall i :: 0 <= i < |Resolve(w, roots, name).value| ==> Resolve(w, roots, name).value[i].path in w.files
  {
    FirstChainIsFiles(w, roots, Split(name, '.'));
  }

  lemma ExpandedStays(w: Workspace, roots: seq<Path>, m: Module, listed: seq<Module>, more: seq<Module>)
    requires Expanded(w, roots, m, listed)
    ensures Expanded(w, roots, m, listed + more)
  {
    forall path | Lists(listed, path) ensures Lists(listed + more, path) {
      var i :| 0 <= i < |listed| && listed[i].path == path;
      assert (listed + more)[i] == listed[i];
    }
  }

  /** The turn over `m`: what it adds, and that with it `m` is expanded and everything added has a chain. */
  lemma TurnHolds(w: Workspace, roots: seq<Path>, start: Module, m: Module, reached: seq<Module>)
    requires Imported(w, m).Done? && ResolveAll(w, roots, Imported(w, m).value).Done?
    requires Reachable(w, roots, start, m)
    ensures var added := Fresh(ResolveAll(w, roots, Imported(w, m).value).value, reached);
            && Expanded(w, roots, m, reached + added)
            && forall i :: 0 <= i < |added| ==> Reachable(w, roots, start, added[i]) && added[i].path in w.files
  {
    var names := Imported(w, m).value;
    var found := ResolveAll(w, roots, names).value;
    var added := Fresh(found, reached);
    ResolveAllHolds(w, roots, names);
    FreshHolds(found, reached);
    forall name | name in names
      ensures Resolve(w, roots, name).Done?
      ensures forall i :: 0 <= i < |Resolve(w, roots, name).value| ==> Lists(reached + added, Resolve(w, roots, name).value[i].path)
    {
      forall i | 0 <= i < |Resolve(w, roots, name).value| ensures Lists(reached + added, Resolve(w, roots, name).value[i].path) {
        var f := Resolve(w, roots, name).value[i];
        assert f in found;
        ListsEither(reached, added, f.path);
      }
    }
    var length: nat :| Leads(w, roots, start, m, length);
    forall i | 0 <= i < |added| ensures Reachable(w, roots, start, added[i]) && added[i].path in w.files {
      assert added[i] in found;
      var name :| name in names && Resolve(w, roots, name).Done? && added[i] in Resolve(w, roots, name).value;
      ResolvesToFiles(w, roots, name);
      assert Imports(w, roots, m, added[i]);
      assert Leads(w, roots, start, added[i], length + 1);
    }
  }

  lemma ListsEither(one: seq<Module>, two: seq<Module>, path: Path)
    ensures Lists(one + two, path) <==> Lists(one, path) || Lists(two, path)
  {
    var all := one + two;
    if i :| 0 <= i < |one| && one[i].path == path {
      assert all[i] == one[i];
    }
    if i :| 0 <= i < |two| && two[i].path == path {
      assert all[|one| + i] == two[i];
    }
  }

  /** What the walk has so far: the start first, each path once and a file, and a chain of imports to every module. */
  ghost predicate Walked(w: Workspace, roots: seq<Path>, start: Module, reached: seq<Module>) {
    && reached != [] && reached[0] == start
    && EachOnce(reached)
    && (forall i :: 0 <= i < |reached| ==> Reachable(w, roots, start, reached[i]) && reached[i].path in w.files + {start.path})
  }

  lemma WalkedOn(w: Workspace, roots: seq<Path>, start: Module, m: Module, reached: seq<Module>)
    requires Walked(w, roots, start, reached) && Reachable(w, roots, start, m)
    requires Imported(w, m).Done? && ResolveAll(w, roots, Imported(w, m).value).Done?
    ensures Walked(w, roots, start, reached + Fresh(ResolveAll(w, roots, Imported(w, m).value).value, reached))
  {
    var found := ResolveAll(w, roots, Imported(w, m).value).value;
    TurnHolds(w, roots, start, m, reached);
    FreshHolds(found, reached);
    var added := Fresh(found, reached);
    forall i, j | 0 <= i < j < |reached + added| ensures (reached + added)[i].path != (reached + added)[j].path {
      if i < |reached| <= j {
        assert !Lists(reached, added[j - |reached|].path);
      }
    }
  }

  /** Everything a walk lists can be imported, when its start can. */
  lemma ListedIsImportable(w: Workspace, roots: seq<Path>, start: Module, m: Module, length: nat)
    requires Importable(start) && Leads(w, roots, start, m, length) && Imported(w, m).Done?
    ensures Importable(m)
  {
    hide Importable, Leads, Resolve, FirstChain;
    assert m.root < m.path;
    LedIsImportable(w, roots, start, m, length);
  }

  lemma LedIsImportable(w: Workspace, roots: seq<Path>, start: Module, m: Module, length: nat)
    requires Importable(start) && Leads(w, roots, start, m, length) && m.root < m.path
    ensures Importable(m)
  {
    hide Importable, FirstChain, Imported;
    if length > 0 {
      var via :| Leads(w, roots, start, via, length - 1) && Imports(w, roots, via, m);
      var name :| name in Imported(w, via).value && Resolve(w, roots, name).Done? && m in Resolve(w, roots, name).value;
      var parts := Split(name, '.');
      SplitHoldsNone(name, '.');
      var i :| 0 <= i < |FirstChain(w, roots, parts)| && FirstChain(w, roots, parts)[i] == m;
      ResolvedIsImportable(w, roots, parts, i);
    }
  }

  /** Every name the syntax of a listed module imports resolves, to listed paths only. */
  ghost predicate ClosedOverSyntax(w: Workspace, roots: seq<Path>, walk: seq<Module>) {
    forall i, name :: 0 <= i < |walk| && Names(w, walk[i], name) ==>
      && Resolve(w, roots, name).Done?
      && forall k :: 0 <= k < |Resolve(w, roots, name).value| ==> Lists(walk, Resolve(w, roots, name).value[k].path)
  }

  lemma WalkClosesOverSyntax(w: Workspace, roots: seq<Path>, start: Module, walk: seq<Module>)
    requires Walked(w, roots, start, walk) && Importable(start)
    requires forall i :: 0 <= i < |walk| ==> Expanded(w, roots, walk[i], walk)
    ensures ClosedOverSyntax(w, roots, walk)
    ensures forall i :: 0 <= i < |walk| ==> Importable(walk[i])
  {
    hide Importable, Names, Resolve, Imported;
    forall i | 0 <= i < |walk| ensures Importable(walk[i]) {
      assert Expanded(w, roots, walk[i], walk);
      var length: nat :| Leads(w, roots, start, walk[i], length);
      ListedIsImportable(w, roots, start, walk[i], length);
    }
    forall i, name | 0 <= i < |walk| && Names(w, walk[i], name)
      ensures Resolve(w, roots, name).Done?
      ensures forall k :: 0 <= k < |Resolve(w, roots, name).value| ==> Lists(walk, Resolve(w, roots, name).value[k].path)
    {
      assert Expanded(w, roots, walk[i], walk);
      ImportedExactly(w, walk[i], name);
    }
  }

  /** One import of a chain, over syntax: some node names what the target answers to. */
  lemma ImportsBySyntax(w: Workspace, roots: seq<Path>, m: Module, target: Module)
    requires Importable(m)
    ensures Imports(w, roots, m, target)
       <==> exists name :: Names(w, m, name) && Resolve(w, roots, name).Done? && target in Resolve(w, roots, name).value
  {
    hide Importable, Names, Resolve, Imported;
    ImportedExactly(w, m, "");
    if Imports(w, roots, m, target) {
      var name :| name in Imported(w, m).value && Resolve(w, roots, name).Done? && target in Resolve(w, roots, name).value;
      ImportedExactly(w, m, name);
    }
    if name :| Names(w, m, name) && Resolve(w, roots, name).Done? && target in Resolve(w, roots, name).value {
      NamesAreRead(w, m, name);
      ImportedExactly(w, m, name);
    }
  }

  lemma NamesAreRead(w: Workspace, m: Module, name: string)
    requires Names(w, m, name)
    ensures m.path in w.syntax
  {
  }

  /** How many files the walk has still to list. */
  ghost function Unlisted(w: Workspace, start: Module, reached: seq<Module>): nat {
    |w.files + {start.path} - Paths(reached)|
  }

  lemma ListsMore(w: Workspace, start: Module, reached: seq<Module>, added: seq<Module>)
    requires added != [] && added[0].path in w.files && !Lists(reached, added[0].path)
    ensures Unlisted(w, start, reached + added) < Unlisted(w, start, reached)
  {
    var all := reached + added;
    var left, before := w.files + {start.path} - Paths(all), w.files + {start.path} - Paths(reached);
    assert added[0].path in before;
    assert added[0].path in Paths(all) by { assert all[|reached|] == added[0]; }
    assert Paths(reached) <= Paths(all) by {
      forall path | path in Paths(reached) ensures path in Paths(all) {
        var i :| 0 <= i < |reached| && reached[i].path == path;
        assert all[i].path == path;
      }
    }
    assert left < before;
    SmallerSet(left, before);
  }

  lemma SmallerSet(small: set<Path>, large: set<Path>)
    requires small < large
    ensures |small| < |large|
  {
    var extra :| extra in large && extra !in small;
    assert small <= large - {extra};
    SubsetSize(small, large - {extra});
  }

  lemma {:induction false} SubsetSize(small: set<Path>, large: set<Path>)
    requires small <= large
    ensures |small| <= |large|
  {
    if small != {} {
      var p :| p in small;
      SubsetSize(small - {p}, large - {p});
    }
  }

  /** The walk under way: every module listed is still pending or has all its imports listed. */
  ghost predicate Walking(w: Workspace, roots: seq<Path>, start: Module, reached: seq<Module>, pending: seq<Module>) {
    && Walked(w, roots, start, reached)
    && (forall i :: 0 <= i < |pending| ==> pending[i] in reached)
    && (forall i :: 0 <= i < |reached| ==> reached[i] in pending || Expanded(w, roots, reached[i], reached))
  }

  lemma WalkingOn(w: Workspace, roots: seq<Path>, start: Module, reached: seq<Module>, pending: seq<Module>, m: Module, added: seq<Module>)
    requires Walking(w, roots, start, reached, pending + [m])
    requires Imported(w, m).Done? && ResolveAll(w, roots, Imported(w, m).value).Done?
    requires added == Fresh(ResolveAll(w, roots, Imported(w, m).value).value, reached)
    ensures Walking(w, roots, start, reached + added, pending + added)
    ensures added != [] ==> Unlisted(w, start, reached + added) < Unlisted(w, start, reached)
  {
    var all := reached + added;
    assert (pending + [m])[|pending|] == m;
    TurnHolds(w, roots, start, m, reached);
    WalkedOn(w, roots, start, m, reached);
    FreshHolds(ResolveAll(w, roots, Imported(w, m).value).value, reached);
    if added != [] {
      ListsMore(w, start, reached, added);
    }
    forall i | 0 <= i < |pending + added| ensures (pending + added)[i] in all {
      assert i < |pending| ==> (pending + [m])[i] in reached;
    }
    forall i | 0 <= i < |all| ensures all[i] in pending + added || Expanded(w, roots, all[i], all) {
      if i < |reached| && reached[i] !in pending && reached[i] != m {
        ExpandedStays(w, roots, reached[i], reached, added);
      }
    }
  }

  lemma WalkingStarts(w: Workspace, roots: seq<Path>, start: Module)
    ensures Walking(w, roots, start, [start], [start])
  {
    assert Leads(w, roots, start, start, 0);
  }

  lemma WalkingLed(w: Workspace, roots: seq<Path>, start: Module, reached: seq<Module>, pending: seq<Module>, m: Module)
    requires Walking(w, roots, start, reached, pending) && m in pending
    ensures Reachable(w, roots, start, m)
  {
  }

  lemma StopsStuck(w: Workspace, roots: seq<Path>, m: Module)
    requires Imported(w, m).Refused? || ResolveAll(w, roots, Imported(w, m).value).Refused?
    ensures Stuck(w, roots, m)
  {
    if Imported(w, m).Done? {
      ResolveAllHolds(w, roots, Imported(w, m).value);
    }
  }

  lemma WalkingEnds(w: Workspace, roots: seq<Path>, start: Module, reached: seq<Module>)
    requires Walking(w, roots, start, reached, [])
    ensures Walked(w, roots, start, reached) && forall i :: 0 <= i < |reached| ==> Expanded(w, roots, reached[i], reached)
  {
  }

  /**
   The worklist over a dictionary and a stack: everything a chain of imports leads to from `file`.

   It refuses only when some module a chain of imports leads to cannot be read or imports a name that
   two roots hold.
   */
  method Reach(w: Workspace, home: Path, roots: seq<Path>, file: Path) returns (walk: Outcome<seq<Module>>)
    ensures walk.Done? ==> Walked(w, roots, Module(file, home), walk.value)
    ensures walk.Done? ==> forall i :: 0 <= i < |walk.value| ==> Expanded(w, roots, walk.value[i], walk.value)
    ensures walk.Done? && Importable(Module(file, home)) ==> ClosedOverSyntax(w, roots, walk.value)
    ensures walk.Refused? ==> exists m :: Reachable(w, roots, Module(file, home), m) && Stuck(w, roots, m)
  {
    hide Walking, Walked, Expanded, Imported, ResolveAll, Fresh, Unlisted, Importable, Reachable, Stuck, ClosedOverSyntax;
    var first := Module(file, home);
    var reached, pending := [first], [first];
    WalkingStarts(w, roots, first);
    while pending != []
      invariant Walking(w, roots, first, reached, pending)
      decreases Unlisted(w, first, reached), |pending|
    {
      var m := pending[|pending| - 1];
      assert pending == pending[..|pending| - 1] + [m];
      WalkingLed(w, roots, first, reached, pending, m);
      var names := Imported(w, m);
      if names.Refused? {
        StopsStuck(w, roots, m);
        return Refused;
      }
      var found := ResolveAll(w, roots, names.value);
      if found.Refused? {
        StopsStuck(w, roots, m);
        return Refused;
      }
      var added := Fresh(found.value, reached);
      WalkingOn(w, roots, first, reached, pending[..|pending| - 1], m, added);
      assert added == [] ==> reached + added == reached;
      reached := reached + added;
      pending := pending[..|pending| - 1] + added;
    }
    WalkingEnds(w, roots, first, reached);
    if Importable(first) {
      WalkClosesOverSyntax(w, roots, first, reached);
    }
    return Done(reached);
  }
}
