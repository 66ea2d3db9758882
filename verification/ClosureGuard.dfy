/**
 A job's closure, the files that ship with it, and the import finder that holds the running job to it.
 */
module ClosureGuard {
  import opened Text
  import opened ImportWalk
  import opened InstalledExtensions

  // ---- What ships ----

  /**
   Where the shipped files come from.

   kept: the source files discovery keeps under a package directory.
   env: the target's installed distributions.
   */
  datatype Sources = Sources(kept: Path -> set<Path>, env: Environment)

  /** files: what ships; built: the extensions among it; deferred: top-level names left to the environment. */
  datatype Shipment = Shipment(files: set<Path>, built: set<Path>, deferred: set<string>)

  /** Whether a module's file lies under its root, which its package is read from. */
  predicate Placed(m: Module) {
    m.root < m.path
  }

  /** `__package`: the top-level package directory a module belongs to under its root. */
  function PackageOf(m: Module): (package: Path)
    requires Placed(m)
    ensures m.root < package <= m.path && |package| == |m.root| + 1
  {
    m.root + [m.path[|m.root|]]
  }

  /** The top-level name a module is imported under from its root. */
  function TopOf(m: Module): string
    requires Placed(m)
  {
    var first := m.path[|m.root|];
    if |m.path| == |m.root| + 1 then Stem(first) else first
  }

  /** A module that is a file of its own directly under its root. */
  predicate Bare(m: Module)
    requires Placed(m)
  {
    |m.path| == |m.root| + 1
  }

  function NameOf(package: Path): string {
    if package == [] then "" else package[|package| - 1]
  }

  /** An extension by its path under `package`, None for one that is not inside. */
  function Placing(entry: Entry, package: Path): Option<Path> {
    if entry.at.Some? && package <= entry.at.value then Some(entry.at.value[|package|..]) else None
  }

  /** The extensions recorded for a package, asked for by its directory's name. */
  function Recorded(s: Sources, package: Path): (recorded: seq<Option<Path>>)
    ensures |recorded| == |Extensions(s.env, NameOf(package))|
  {
    var extensions := Extensions(s.env, NameOf(package));
    seq(|extensions|, i requires 0 <= i < |extensions| => Placing(extensions[i], package))
  }

  predicate Outside(s: Sources, package: Path) {
    exists i :: 0 <= i < |Recorded(s, package)| && Recorded(s, package)[i].None?
  }

  /** The extensions that ship inside a package, as workspace paths. */
  function Inside(package: Path, recorded: seq<Option<Path>>): set<Path> {
    set i | 0 <= i < |recorded| && recorded[i].Some? :: package + recorded[i].value
  }

  /** A package defers exactly when some extension recorded under its directory's name is not a file inside it. */
  lemma OutsideExactly(s: Sources, package: Path)
    requires package != []
    ensures Outside(s, package) <==>
              exists entry :: entry in Extensions(s.env, package[|package| - 1]) && !(entry.at.Some? && package <= entry.at.value)
  {
    hide Extensions;
    var extensions := Extensions(s.env, package[|package| - 1]);
    if i :| 0 <= i < |extensions| && Recorded(s, package)[i].None? {
      assert extensions[i] in extensions;
    }
    if entry :| entry in extensions && !(entry.at.Some? && package <= entry.at.value) {
      var i :| 0 <= i < |extensions| && extensions[i] == entry;
      assert Recorded(s, package)[i].None?;
    }
  }

  /** What is built into a package are the files its extensions lead to inside it. */
  lemma InsideExactly(s: Sources, package: Path, path: Path)
    requires package != []
    ensures path in Inside(package, Recorded(s, package)) <==>
              package <= path && exists entry :: entry in Extensions(s.env, package[|package| - 1]) && entry.at == Some(path)
  {
    hide Extensions;
    var extensions, recorded := Extensions(s.env, package[|package| - 1]), Recorded(s, package);
    if path in Inside(package, recorded) {
      var i :| 0 <= i < |recorded| && recorded[i].Some? && package + recorded[i].value == path;
      var at := extensions[i].at.value;
      assert at == package + at[|package|..];
      assert extensions[i] in extensions && extensions[i].at == Some(path);
    }
    if entry :| entry in extensions && entry.at == Some(path) && package <= path {
      var i :| 0 <= i < |extensions| && extensions[i] == entry;
      assert recorded[i] == Some(path[|package|..]) && package + path[|package|..] == path;
    }
  }

  /** `__compiled`: stops at the first extension outside the package; without one, all of them are its own. */
  method Compiled(s: Sources, package: Path) returns (outside: bool, extensions: set<Path>)
    ensures outside == Outside(s, package)
    ensures extensions == if outside then {} else Inside(package, Recorded(s, package))
  {
    var files := RecordedExtensions(s.env, NameOf(package));
    ghost var recorded := Recorded(s, package);
    extensions := {};
    for i := 0 to |files|
      invariant forall j :: 0 <= j < i ==> recorded[j].Some?
      invariant extensions == Inside(package, recorded[..i])
    {
      var relative := Placing(files[i], package);
      assert recorded[i] == relative;
      if relative.None? {
        return true, {};
      }
      assert recorded[..i + 1] == recorded[..i] + [recorded[i]];
      InsideAppend(package, recorded[..i], recorded[i]);
      extensions := extensions + {package + relative.value};
    }
    assert recorded[..|recorded|] == recorded;
    return false, extensions;
  }

  lemma InsideAppend(package: Path, recorded: seq<Option<Path>>, last: Option<Path>)
    requires last.Some?
    ensures Inside(package, recorded + [last]) == Inside(package, recorded) + {package + last.value}
  {
    var all := recorded + [last];
    forall path | path in Inside(package, recorded) + {package + last.value} ensures path in Inside(package, all) {
      if path == package + last.value {
        assert all[|recorded|] == last;
      } else {
        var i :| 0 <= i < |recorded| && recorded[i].Some? && path == package + recorded[i].value;
        assert all[i] == recorded[i];
      }
    }
  }

  /** The files of the reached modules that are the node's own, which ship one by one. */
  function OwnFiles(reached: seq<Module>, distributions: set<Path>): set<Path> {
    set i | 0 <= i < |reached| && reached[i].root !in distributions :: reached[i].path
  }

  /** The top-level packages of the reached modules that a distribution holds, which ship whole. */
  function Drawn(reached: seq<Module>, distributions: set<Path>): set<Path> {
    set i | 0 <= i < |reached| && reached[i].root in distributions && Placed(reached[i]) :: PackageOf(reached[i])
  }

  function ExtensionsIn(s: Sources, packages: set<Path>): set<Path> {
    set package, file | package in packages && !Outside(s, package) && file in Inside(package, Recorded(s, package)) :: file
  }

  function KeptIn(s: Sources, packages: set<Path>): set<Path> {
    set package, file | package in packages && !Outside(s, package) && file in s.kept(package) :: file
  }

  function DeferredIn(s: Sources, packages: set<Path>): set<string> {
    set package | package in packages && package != [] && Outside(s, package) :: package[|package| - 1]
  }

  /** What the node's `own` files and whole `packages` ship, less the packages left to the environment. */
  function Shipping(s: Sources, own: set<Path>, packages: set<Path>): Shipment {
    Shipment(own + KeptIn(s, packages) + ExtensionsIn(s, packages), ExtensionsIn(s, packages), DeferredIn(s, packages))
  }

  function ShipmentOf(s: Sources, reached: seq<Module>, distributions: set<Path>): Shipment {
    Shipping(s, OwnFiles(reached, distributions), Drawn(reached, distributions))
  }

  lemma DrawnHasAName(reached: seq<Module>, distributions: set<Path>)
    ensures [] !in Drawn(reached, distributions)
  {
  }

  /** What one more package adds: its name to the deferred, or its sources and its extensions to the files. */
  lemma PackageShips(s: Sources, own: set<Path>, packages: set<Path>, package: Path)
    requires package != []
    ensures var before, after := Shipping(s, own, packages), Shipping(s, own, packages + {package});
            after == if Outside(s, package) then before.(deferred := before.deferred + {package[|package| - 1]})
                     else before.(files := before.files + s.kept(package) + Inside(package, Recorded(s, package)),
                                  built := before.built + Inside(package, Recorded(s, package)))
  {
    hide Outside, Inside, Recorded, KeptIn, ExtensionsIn, DeferredIn;
    KeptAdds(s, packages, package);
    ExtensionsAdd(s, packages, package);
    DeferredAdds(s, packages, package);
  }

  lemma KeptAdds(s: Sources, packages: set<Path>, package: Path)
    ensures KeptIn(s, packages + {package}) == KeptIn(s, packages) + if Outside(s, package) then {} else s.kept(package)
  {
    hide Outside, Inside, Recorded;
  }

  lemma ExtensionsAdd(s: Sources, packages: set<Path>, package: Path)
    ensures ExtensionsIn(s, packages + {package})
         == ExtensionsIn(s, packages) + if Outside(s, package) then {} else Inside(package, Recorded(s, package))
  {
    hide Outside, Inside, Recorded;
  }

  lemma DeferredAdds(s: Sources, packages: set<Path>, package: Path)
    requires package != []
    ensures DeferredIn(s, packages + {package})
         == DeferredIn(s, packages) + if Outside(s, package) then {package[|package| - 1]} else {}
  {
    hide Outside, Inside, Recorded;
  }

  lemma NoPackages(s: Sources, own: set<Path>)
    ensures Shipping(s, own, {}) == Shipment(own, {}, {})
  {
    assert KeptIn(s, {}) == {} && ExtensionsIn(s, {}) == {} && DeferredIn(s, {}) == {};
  }

  /** One turn of `__shipped`: the package's name is deferred, or its files join. */
  method ShipPackage(s: Sources, ghost own: set<Path>, ghost packages: set<Path>, package: Path, before: Shipment) returns (after: Shipment)
    requires package != [] && before == Shipping(s, own, packages)
    ensures after == Shipping(s, own, packages + {package})
  {
    var outside, extensions := Compiled(s, package);
    PackageShips(s, own, packages, package);
    if outside {
      after := before.(deferred := before.deferred + {package[|package| - 1]});
    } else {
      after := before.(files := before.files + s.kept(package) + extensions, built := before.built + extensions);
    }
  }

  /** Three sets grown package by package. */
  method ShipAll(s: Sources, own: set<Path>, all: set<Path>) returns (shipped: Shipment)
    requires [] !in all
    ensures shipped == Shipping(s, own, all)
  {
    hide Shipping;
    var left := all;
    shipped := Shipment(own, {}, {});
    NoPackages(s, own);
    assert all - left == {};
    while left != {}
      invariant left <= all
      invariant shipped == Shipping(s, own, all - left)
      decreases |left|
    {
      var package :| package in left;
      shipped := ShipPackage(s, own, all - left, package, shipped);
      assert all - left + {package} == all - (left - {package});
      left := left - {package};
    }
    assert all - left == all;
  }

  /** `__shipped`: the shipment of a walk. */
  method Shipped(s: Sources, reached: seq<Module>, distributions: set<Path>) returns (shipped: Shipment)
    ensures shipped == ShipmentOf(s, reached, distributions)
  {
    DrawnHasAName(reached, distributions);
    shipped := ShipAll(s, OwnFiles(reached, distributions), Drawn(reached, distributions));
  }

  // ---- The finder ----

  /** Where a module's file was found: nowhere for a namespace portion, in the pinned tree, in an installed distribution, or elsewhere. */
  datatype Origin = NoFile | InTree(path: Path) | Installed | Elsewhere

  datatype Answer = NotMine | Admitted | Blocked

  /** names: every top-level name some import root of the workspace has. */
  datatype Guard = Guard(names: set<string>, shipped: set<Path>, deferred: set<string>) {
    predicate Guards(fullname: string) {
      var top := Split(fullname, '.')[0];
      top in names && top !in deferred
    }

    /** The closure ships the file a module was found at. */
    predicate Holds(origin: Origin) {
      match origin
      case NoFile => true
      case InTree(path) => path in shipped
      case Installed => true
      case Elsewhere => false
    }

    /** `find_spec`: steps aside for what is not guarded, and refuses what is not found or not held. */
    function FindSpec(fullname: string, found: Option<Origin>): Answer {
      if !Guards(fullname) then NotMine
      else if found.Some? && Holds(found.value) then Admitted else Blocked
    }

    /** `judged`: the rewrite hook's spec, refused under the same rule. */
    function Judged(fullname: string, origin: Origin): Answer {
      if Guards(fullname) && !Holds(origin) then Blocked else Admitted
    }
  }

  /** The finder steps aside exactly for a name that is not the workspace's or is deferred. */
  lemma StepsAsideExactly(guard: Guard, fullname: string, found: Option<Origin>)
    ensures guard.FindSpec(fullname, found) == NotMine
       <==> Split(fullname, '.')[0] !in guard.names || Split(fullname, '.')[0] in guard.deferred
  {
  }

  /** Of the others it refuses exactly what it does not find, finds in the tree and not in the closure, or finds neither in the tree nor installed. */
  lemma RefusesExactly(guard: Guard, fullname: string, found: Option<Origin>)
    requires Split(fullname, '.')[0] in guard.names && Split(fullname, '.')[0] !in guard.deferred
    ensures guard.FindSpec(fullname, found) == Blocked <==>
              found.None? || found == Some(Elsewhere) || exists path :: found == Some(InTree(path)) && path !in guard.shipped
    ensures found.Some? ==> (guard.Judged(fullname, found.value) == Blocked <==> guard.FindSpec(fullname, found) == Blocked)
  {
  }

  // ---- What the workspace defines ----

  predicate IsLetter(c: char) {
    'a' <= c <= 'z' || 'A' <= c <= 'Z' || c == '_'
  }

  /** `isidentifier`, over ASCII. */
  predicate IsIdentifier(name: string) {
    name != "" && IsLetter(name[0]) && forall c :: c in name ==> IsLetter(c) || IsDigit(c)
  }

  /** A letter or the underscore, by its ASCII code. */
  ghost predicate LetterCode(code: int) {
    65 <= code <= 90 || 97 <= code <= 122 || code == 95
  }

  /** An identifier is not empty, has letters, underscores and digits only, and no digit first. */
  lemma IdentifierExactly(name: string)
    ensures IsIdentifier(name) <==>
              && name != "" && !(48 <= name[0] as int <= 57)
              && forall i :: 0 <= i < |name| ==> LetterCode(name[i] as int) || 48 <= name[i] as int <= 57
  {
    if IsIdentifier(name) {
      forall i | 0 <= i < |name| ensures LetterCode(name[i] as int) || 48 <= name[i] as int <= 57 {
        assert name[i] in name;
      }
    }
  }

  predicate ChildOf(path: Path, directory: Path) {
    directory < path && |path| == |directory| + 1
  }

  predicate HasPySuffix(path: Path) {
    path != [] && var name := path[|path| - 1]; name[|Stem(name)|..] == ".py"
  }

  /** A directory that imports as a package: by its initializer, or as a portion by what it holds. */
  predicate IsPackage(w: Workspace, directory: Path) {
    directory + [INIT] in w.files
    || exists child :: child in w.files + w.dirs && ChildOf(child, directory) && (HasPySuffix(child) || child + [INIT] in w.files)
  }

  /** `_defined`: what can be imported from a root, its packages and its bare modules. */
  function Defined(w: Workspace, root: Path): set<string> {
    (set directory | directory in w.dirs && ChildOf(directory, root) && IsIdentifier(directory[|root|]) && IsPackage(w, directory)
       :: directory[|root|])
    + set file | file in w.files && ChildOf(file, root) && HasPySuffix(file) :: Stem(file[|root|])
  }

  /** `root` holds a directory that imports as the package `name`. */
  ghost predicate HasPackage(w: Workspace, root: Path, name: string) {
    && root + [name] in w.dirs && IsIdentifier(name)
    && (root + [name] + [INIT] in w.files
        || exists child :: (root + [name] + [child] in w.files || root + [name] + [child] in w.dirs)
                           && (root + [name] + [child] + [INIT] in w.files || exists stem :: Stemmed(stem) && child == stem + ".py"))
  }

  /** A name is defined by a package's directory or by the file of a bare module, and by nothing else. */
  lemma DefinedExactly(w: Workspace, root: Path, name: string)
    ensures name in Defined(w, root) <==> HasPackage(w, root, name) || (Stemmed(name) && root + [name + ".py"] in w.files)
  {
    hide IsIdentifier, IsPackage, HasPySuffix;
    var directory := root + [name];
    assert ChildOf(directory, root) && directory[|root|] == name;
    PackageExactly(w, directory);
    assert forall d :: ChildOf(d, root) && d[|root|] == name ==> d == directory;
    if Stemmed(name) && root + [name + ".py"] in w.files {
      var file := root + [name + ".py"];
      PySuffixExactly(file);
      StemOfSource(name);
      assert ChildOf(file, root) && file[|root|] == name + ".py";
    }
    if file :| file in w.files && ChildOf(file, root) && HasPySuffix(file) && Stem(file[|root|]) == name {
      PySuffixExactly(file);
      assert file == root + [file[|root|]];
    }
  }

  lemma PySuffixExactly(path: Path)
    requires path != []
    ensures HasPySuffix(path) <==> exists stem :: Stemmed(stem) && path[|path| - 1] == stem + ".py"
    ensures HasPySuffix(path) ==> Stemmed(Stem(path[|path| - 1])) && path[|path| - 1] == Stem(path[|path| - 1]) + ".py"
  {
    var name := path[|path| - 1];
    assert name == Stem(name) + name[|Stem(name)|..];
    if HasPySuffix(path) {
      StemTakesASuffix(name);
    }
    if stem :| Stemmed(stem) && name == stem + ".py" {
      StemOfSource(stem);
    }
  }

  lemma PackageExactly(w: Workspace, directory: Path)
    ensures IsPackage(w, directory) <==>
              directory + [INIT] in w.files
              || exists child :: (directory + [child] in w.files || directory + [child] in w.dirs)
                                 && (directory + [child] + [INIT] in w.files || exists stem :: Stemmed(stem) && child == stem + ".py")
  {
    hide HasPySuffix;
    if path :| path in w.files + w.dirs && ChildOf(path, directory) && (HasPySuffix(path) || path + [INIT] in w.files) {
      PySuffixExactly(path);
      var child := path[|directory|];
      assert path == directory + [child];
    }
    if child :| (directory + [child] in w.files || directory + [child] in w.dirs)
                && (directory + [child] + [INIT] in w.files || exists stem :: Stemmed(stem) && child == stem + ".py") {
      var path := directory + [child];
      PySuffixExactly(path);
      assert ChildOf(path, directory) && path[|path| - 1] == child;
    }
  }

  /** What the roots of a closure define together. */
  function FirstParty(w: Workspace, roots: seq<Path>): set<string> {
    set i, name | 0 <= i < |roots| && name in Defined(w, roots[i]) :: name
  }

  lemma FirstPartyExactly(w: Workspace, roots: seq<Path>, name: string)
    ensures name in FirstParty(w, roots) <==>
              exists i :: 0 <= i < |roots| && (HasPackage(w, roots[i], name) || (Stemmed(name) && roots[i] + [name + ".py"] in w.files))
  {
    hide Defined, HasPackage;
    forall i | 0 <= i < |roots|
      ensures name in Defined(w, roots[i]) <==> HasPackage(w, roots[i], name) || (Stemmed(name) && roots[i] + [name + ".py"] in w.files)
    {
      DefinedExactly(w, roots[i], name);
    }
  }

  /** The guard a job runs under: the whole closure's files, the node's own and its resources among them. */
  function GuardOf(s: Sources, reached: seq<Module>, distributions: set<Path>, others: set<Path>, names: set<string>): Guard {
    var shipped := ShipmentOf(s, reached, distributions);
    Guard(names, shipped.files + others, shipped.deferred)
  }

  /** Source discovery keeps the file of every reached module of a distribution. */
  predicate Discovered(s: Sources, reached: seq<Module>, distributions: set<Path>) {
    forall i :: 0 <= i < |reached| && reached[i].root in distributions && Placed(reached[i]) ==>
      reached[i].path in s.kept(PackageOf(reached[i]))
  }

  /** A module of a distribution whose package is left whole to the environment. */
  predicate Defers(s: Sources, distributions: set<Path>, m: Module) {
    m.root in distributions && Placed(m) && Outside(s, PackageOf(m))
  }

  /** A file that ships because the walk reached `m`: its own, or one of the package it draws when that does not defer. */
  predicate ShipsFrom(s: Sources, distributions: set<Path>, m: Module, path: Path) {
    if m.root !in distributions then m.path == path
    else
      && Placed(m) && !Outside(s, PackageOf(m))
      && (path in s.kept(PackageOf(m)) || path in Inside(PackageOf(m), Recorded(s, PackageOf(m))))
  }

  lemma ShipsExactly(s: Sources, reached: seq<Module>, distributions: set<Path>, path: Path)
    ensures path in ShipmentOf(s, reached, distributions).files
       <==> exists i :: 0 <= i < |reached| && ShipsFrom(s, distributions, reached[i], path)
  {
    hide Outside, Inside;
    var own, drawn := OwnFiles(reached, distributions), Drawn(reached, distributions);
    if path in own {
      var i :| 0 <= i < |reached| && reached[i].root !in distributions && reached[i].path == path;
      assert ShipsFrom(s, distributions, reached[i], path);
    } else if path in KeptIn(s, drawn) + ExtensionsIn(s, drawn) {
      var package :| package in drawn && !Outside(s, package) && (path in s.kept(package) || path in Inside(package, Recorded(s, package)));
      var i :| 0 <= i < |reached| && reached[i].root in distributions && Placed(reached[i]) && PackageOf(reached[i]) == package;
      assert ShipsFrom(s, distributions, reached[i], path);
    }
    if i :| 0 <= i < |reached| && ShipsFrom(s, distributions, reached[i], path) {
      if reached[i].root in distributions {
        assert PackageOf(reached[i]) in drawn;
      } else {
        assert path in own;
      }
    }
  }

  /** What is marked as built is exactly the extensions inside the packages that ship. */
  lemma BuiltExactly(s: Sources, reached: seq<Module>, distributions: set<Path>, path: Path)
    ensures path in ShipmentOf(s, reached, distributions).built <==>
              exists i :: 0 <= i < |reached| && reached[i].root in distributions && Placed(reached[i])
                          && !Outside(s, PackageOf(reached[i])) && path in Inside(PackageOf(reached[i]), Recorded(s, PackageOf(reached[i])))
  {
    hide Outside, Inside;
    var drawn := Drawn(reached, distributions);
    if path in ExtensionsIn(s, drawn) {
      var package :| package in drawn && !Outside(s, package) && path in Inside(package, Recorded(s, package));
      var i :| 0 <= i < |reached| && reached[i].root in distributions && Placed(reached[i]) && PackageOf(reached[i]) == package;
    }
    if i :| 0 <= i < |reached| && reached[i].root in distributions && Placed(reached[i])
            && !Outside(s, PackageOf(reached[i])) && path in Inside(PackageOf(reached[i]), Recorded(s, PackageOf(reached[i]))) {
      assert PackageOf(reached[i]) in drawn;
    }
  }

  lemma DefersExactly(s: Sources, reached: seq<Module>, distributions: set<Path>, name: string)
    ensures name in ShipmentOf(s, reached, distributions).deferred
       <==> exists i :: 0 <= i < |reached| && Defers(s, distributions, reached[i]) && reached[i].path[|reached[i].root|] == name
  {
    hide Outside;
    var drawn := Drawn(reached, distributions);
    if name in DeferredIn(s, drawn) {
      var package :| package in drawn && package != [] && Outside(s, package) && package[|package| - 1] == name;
      var i :| 0 <= i < |reached| && reached[i].root in distributions && Placed(reached[i]) && PackageOf(reached[i]) == package;
      assert Defers(s, distributions, reached[i]) && reached[i].path[|reached[i].root|] == name;
    }
    if i :| 0 <= i < |reached| && Defers(s, distributions, reached[i]) && reached[i].path[|reached[i].root|] == name {
      var package := PackageOf(reached[i]);
      assert package in drawn && package[|package| - 1] == name;
    }
  }

  /** Nothing reached ships `path`, nothing else does, and no package that defers is called `top`. */
  ghost predicate Stranded(s: Sources, reached: seq<Module>, distributions: set<Path>, others: set<Path>, path: Path, top: string) {
    && path !in others
    && (forall i :: 0 <= i < |reached| ==> !ShipsFrom(s, distributions, reached[i], path))
    && (forall i :: 0 <= i < |reached| && Defers(s, distributions, reached[i]) ==> reached[i].path[|reached[i].root|] != top)
  }

  /** Both hooks turn a file away, under a name, exactly when the workspace defines the name's top and the closure strands the file. */
  lemma BlockedExactly(s: Sources, reached: seq<Module>, distributions: set<Path>, others: set<Path>, names: set<string>, path: Path, fullname: string)
    ensures var guard, top := GuardOf(s, reached, distributions, others, names), Split(fullname, '.')[0];
            && (guard.FindSpec(fullname, Some(InTree(path))) == Blocked
                <==> top in names && Stranded(s, reached, distributions, others, path, top))
            && (guard.Judged(fullname, InTree(path)) == Blocked <==> guard.FindSpec(fullname, Some(InTree(path))) == Blocked)
  {
    hide ShipsFrom, Defers, ShipmentOf, Split;
    ShipsExactly(s, reached, distributions, path);
    DefersExactly(s, reached, distributions, Split(fullname, '.')[0]);
  }

  /** The name a module is imported by begins with its top-level name. */
  predicate ImportsAs(fullname: string, m: Module) {
    Placed(m) && Split(fullname, '.')[0] == TopOf(m)
  }

  /** A module of the walk that is not shipped belongs to a package that defers. */
  lemma StrandedDefers(s: Sources, reached: seq<Module>, distributions: set<Path>, others: set<Path>, top: string, i: nat)
    requires Discovered(s, reached, distributions) && i < |reached| && Placed(reached[i])
    requires Stranded(s, reached, distributions, others, reached[i].path, top)
    ensures Defers(s, distributions, reached[i]) && reached[i].path[|reached[i].root|] != top
  {
    assert !ShipsFrom(s, distributions, reached[i], reached[i].path);
  }

  /**
   A module the walk reached is let in by the guard built from its closure, under either hook, unless it
   is a bare module whose package defers and that nothing else ships or defers: exactly then it is not.
   */
  lemma EveryReachedModuleIsAdmitted(s: Sources, reached: seq<Module>, distributions: set<Path>, others: set<Path>, names: set<string>, i: nat, fullname: string)
    requires Discovered(s, reached, distributions)
    requires i < |reached| && ImportsAs(fullname, reached[i])
    ensures var guard, m := GuardOf(s, reached, distributions, others, names), reached[i];
            && (guard.FindSpec(fullname, Some(InTree(m.path))) == Blocked
                <==> TopOf(m) in names && Bare(m) && Defers(s, distributions, m)
                     && Stranded(s, reached, distributions, others, m.path, TopOf(m)))
            && (guard.Judged(fullname, InTree(m.path)) == Blocked <==> guard.FindSpec(fullname, Some(InTree(m.path))) == Blocked)
  {
    hide Stranded, Defers, GuardOf, Stem;
    BlockedExactly(s, reached, distributions, others, names, reached[i].path, fullname);
    if Stranded(s, reached, distributions, others, reached[i].path, TopOf(reached[i])) {
      StrandedDefers(s, reached, distributions, others, TopOf(reached[i]), i);
    }
  }

  /** A bare module defers only where some distribution of the environment claims its file's own name, suffix and all. */
  lemma BareModuleNeedsAClaim(s: Sources, distributions: set<Path>, m: Module)
    requires Placed(m) && Bare(m) && Defers(s, distributions, m)
    ensures Claimed(s.env, m.path[|m.path| - 1])
  {
    ExtensionsNeedAClaim(s.env, m.path[|m.path| - 1]);
  }

  // ---- The walk places its modules ----

  lemma {:induction false} JoinedExtends(base: Path, parts: seq<string>)
    ensures base <= Joined(base, parts)
    ensures (exists i :: 0 <= i < |parts| && parts[i] != "") ==> base < Joined(base, parts)
    decreases |parts|
  {
    if parts != [] {
      JoinedExtends(if parts[0] == "" then base else base + [parts[0]], parts[1..]);
      if i :| 0 < i < |parts| && parts[i] != "" {
        assert parts[1..][i - 1] != "";
      }
    }
  }

  /** A file under `base` that is imported from there as `top` or as something in it. */
  predicate NamedUnder(file: Path, base: Path, top: string) {
    base < file && TopOf(Module(file, base)) == top
  }

  /** A chain's files are imported under the name's first component. */
  lemma {:induction false} ChainIsNamed(w: Workspace, base: Path, parts: seq<string>, depth: nat)
    requires depth <= |parts| && parts != [] && parts[0] != "" && '.' !in parts[0]
    ensures var chain := ChainFrom(w, base, parts, depth);
            chain.Some? ==> forall i :: 0 <= i < |chain.value| ==> NamedUnder(chain.value[i], base, parts[0])
    decreases |parts| - depth
  {
    if depth < |parts| {
      ChainIsNamed(w, base, parts, depth + 1);
      FilesAreNamed(base, parts[..depth + 1]);
    }
  }

  lemma JoinedStartsWith(base: Path, parts: seq<string>)
    requires parts != [] && parts[0] != ""
    ensures base + [parts[0]] <= Joined(base, parts)
  {
    JoinedExtends(base + [parts[0]], parts[1..]);
  }

  /** Both files a package path may be found at, its initializer and its module, are of its first component. */
  lemma FilesAreNamed(base: Path, parts: seq<string>)
    requires parts != [] && parts[0] != "" && '.' !in parts[0]
    ensures var package := Joined(base, parts);
            NamedUnder(package + [INIT], base, parts[0]) && NamedUnder(WithPy(package), base, parts[0])
  {
    var package := Joined(base, parts);
    JoinedStartsWith(base, parts);
    assert package[|base|] == parts[0];
    var file := WithPy(package);
    assert file[..|package| - 1] == package[..|package| - 1] && base == package[..|base|];
    if |package| == |base| + 1 {
      StemOfPlain(parts[0]);
      StemOfSource(parts[0]);
    } else {
      assert file[|base|] == parts[0];
    }
  }

  lemma {:induction false} FirstChainIsNamed(w: Workspace, roots: seq<Path>, parts: seq<string>)
    requires parts != [] && parts[0] != "" && '.' !in parts[0]
    ensures forall i :: 0 <= i < |FirstChain(w, roots, parts)| ==>
              Placed(FirstChain(w, roots, parts)[i]) && TopOf(FirstChain(w, roots, parts)[i]) == parts[0]
  {
    if roots != [] {
      FirstChainIsNamed(w, roots[1..], parts);
      var chain := ChainFrom(w, roots[0], parts, 0);
      if chain.Some? {
        ChainIsNamed(w, roots[0], parts, 0);
        forall i | 0 <= i < |chain.value|
          ensures Placed(Module(chain.value[i], roots[0])) && TopOf(Module(chain.value[i], roots[0])) == parts[0]
        {
          assert NamedUnder(chain.value[i], roots[0], parts[0]);
        }
        assert FirstChain(w, roots, parts) == ModulesOf(chain.value, roots[0]);
      }
    }
  }

  /** Every file an absolute name resolves to lies under the root that answered and is imported under the name's top. */
  lemma ResolvedUnderItsName(w: Workspace, roots: seq<Path>, name: string, target: Module)
    requires Resolve(w, roots, name).Done? && target in Resolve(w, roots, name).value
    requires Split(name, '.')[0] != ""
    ensures ImportsAs(name, target)
  {
    SplitHoldsNone(name, '.');
    assert Split(name, '.')[0] in Split(name, '.');
    FirstChainIsNamed(w, roots, Split(name, '.'));
  }

  /** A walk that lists every import of what it lists: what `reach` answers. */
  ghost predicate Closed(w: Workspace, roots: seq<Path>, walk: seq<Module>) {
    forall i :: 0 <= i < |walk| ==> Expanded(w, roots, walk[i], walk)
  }

  /** Every module of a walk lies under its root, else its own name could not be spelled. */
  lemma WalkedIsPlaced(w: Workspace, roots: seq<Path>, walk: seq<Module>, i: nat)
    requires Closed(w, roots, walk) && i < |walk|
    ensures Placed(walk[i])
  {
    assert Expanded(w, roots, walk[i], walk);
  }

  /**
   From the walk to the running job: whatever name a listed module imports, each file that name leads
   to is listed, and the guard lets it in under that name and every parent package of it, unless the
   package it was listed in defers, under a name that is not the import's: because it was listed under
   another root or is a bare module. Exactly then, with nothing else shipping it or deferring the name, it
   is turned away.
   */
  lemma EveryImportOfTheWalkIsAdmitted(w: Workspace, roots: seq<Path>, walk: seq<Module>, s: Sources, distributions: set<Path>, others: set<Path>,
                                       names: set<string>, m: Module, name: string, target: Module, fullname: string) returns (i: nat)
    requires Closed(w, roots, walk) && Discovered(s, walk, distributions)
    requires m in walk && name in Imported(w, m).value && target in Resolve(w, roots, name).value
    requires Split(name, '.')[0] != "" && Split(fullname, '.')[0] == Split(name, '.')[0]
    ensures i < |walk| && walk[i].path == target.path
    ensures var guard, top := GuardOf(s, walk, distributions, others, names), Split(name, '.')[0];
            guard.FindSpec(fullname, Some(InTree(target.path))) == Blocked
            <==> && top in names && Defers(s, distributions, walk[i]) && (walk[i].root != target.root || Bare(walk[i]))
                 && Stranded(s, walk, distributions, others, target.path, top)
  {
    hide Imported, Resolve, GuardOf, Defers, Stranded, Discovered, Stem;
    var top, found := Split(name, '.')[0], Resolve(w, roots, name).value;
    var k :| 0 <= k < |found| && found[k] == target;
    assert Lists(walk, found[k].path);
    i :| 0 <= i < |walk| && walk[i].path == target.path;
    WalkedIsPlaced(w, roots, walk, i);
    ResolvedUnderItsName(w, roots, name, target) by { assert Expanded(w, roots, m, walk); }
    BlockedExactly(s, walk, distributions, others, names, target.path, fullname);
    if Stranded(s, walk, distributions, others, target.path, top) {
      StrandedDefers(s, walk, distributions, others, top, i);
    }
  }

  // ---- Needs ----

  /** Some need is a proper parent of this one. */
  predicate Beneath(need: Path, needs: seq<Path>) {
    exists i :: 0 <= i < |needs| && needs[i] < need
  }

  function Outermost(needs: seq<Path>): seq<Path> {
    Topmost(needs, needs)
  }

  /** Of `left`, each once, those no need lies above. */
  function Topmost(left: seq<Path>, needs: seq<Path>): seq<Path> {
    if left == [] then []
    else
      var rest, last := Topmost(left[..|left| - 1], needs), left[|left| - 1];
      if last in left[..|left| - 1] || Beneath(last, needs) then rest else rest + [last]
  }

  ghost predicate Covers(needs: seq<Path>, path: Path) {
    exists i :: 0 <= i < |needs| && needs[i] <= path
  }

  lemma {:induction false} TopmostHolds(left: seq<Path>, needs: seq<Path>, need: Path)
    ensures need in Topmost(left, needs) <==> need in left && !Beneath(need, needs)
  {
    if left != [] {
      TopmostHolds(left[..|left| - 1], needs, need);
      assert left == left[..|left| - 1] + [left[|left| - 1]];
    }
  }

  /** Above every need stands one that no need lies above. */
  lemma {:induction false} HasATop(needs: seq<Path>, need: Path)
    requires need in needs
    ensures exists top :: top in needs && top <= need && !Beneath(top, needs)
    decreases |need|
  {
    if Beneath(need, needs) {
      var i :| 0 <= i < |needs| && needs[i] < need;
      HasATop(needs, needs[i]);
    }
  }

  lemma BeneathFewer(need: Path, fewer: seq<Path>, needs: seq<Path>)
    requires forall other :: other in fewer ==> other in needs
    ensures Beneath(need, fewer) ==> Beneath(need, needs)
  {
    if i :| 0 <= i < |fewer| && fewer[i] < need {
      assert fewer[i] in needs;
      var k :| 0 <= k < |needs| && needs[k] == fewer[i];
    }
  }

  /** The needs kept cover what all the needs cover, and none of them lies beneath another. */
  lemma OutermostCovers(needs: seq<Path>, path: Path)
    ensures Covers(Outermost(needs), path) <==> Covers(needs, path)
    ensures forall need :: need in Outermost(needs) ==> need in needs && !Beneath(need, Outermost(needs))
  {
    forall need ensures need in Outermost(needs) <==> need in needs && !Beneath(need, needs) {
      TopmostHolds(needs, needs, need);
    }
    forall need | need in Outermost(needs) ensures !Beneath(need, Outermost(needs)) {
      BeneathFewer(need, Outermost(needs), needs);
    }
    if i :| 0 <= i < |needs| && needs[i] <= path {
      HasATop(needs, needs[i]);
      var top :| top in needs && top <= needs[i] && !Beneath(top, needs);
      assert top in Outermost(needs) && top <= path;
      var k :| 0 <= k < |Outermost(needs)| && Outermost(needs)[k] == top;
    }
    if i :| 0 <= i < |Outermost(needs)| && Outermost(needs)[i] <= path {
      assert Outermost(needs)[i] in Outermost(needs);
      var k :| 0 <= k < |needs| && needs[k] == Outermost(needs)[i];
    }
  }

  /** A file at or under a need, as the text `need/` reads: the workspace itself is spelled `.` and begins no file's text. */
  predicate Shadows(need: Path, file: Path) {
    need != [] && need <= file
  }

  predicate Admissible(needs: seq<Path>, files: set<Path>) {
    forall i, file :: 0 <= i < |needs| && file in files ==> !Shadows(needs[i], file)
  }

  /** Needs are admitted exactly when no shipped file is or lies under one of them, the workspace itself aside. */
  lemma AdmittedExactly(needs: seq<Path>, files: set<Path>)
    ensures Admissible(needs, files) <==> !exists need, file :: need in needs && need != [] && file in files && need <= file
  {
    if need, file :| need in needs && need != [] && file in files && need <= file {
      var i :| 0 <= i < |needs| && needs[i] == need;
      assert Shadows(needs[i], file);
    }
    if i, file :| 0 <= i < |needs| && file in files && Shadows(needs[i], file) {
      assert needs[i] in needs;
    }
  }

  /** Admitted needs sit over no shipped file, exactly when none of them is the workspace itself or nothing ships. */
  lemma AdmittedNeedsSitOverNoCode(needs: seq<Path>, files: set<Path>)
    requires Admissible(needs, files)
    ensures (forall file :: file in files ==> !Covers(needs, file)) <==> [] !in needs || files == {}
  {
    if [] in needs && files != {} {
      var file :| file in files;
      var i :| 0 <= i < |needs| && needs[i] == [];
      assert Covers(needs, file);
    }
  }
}
