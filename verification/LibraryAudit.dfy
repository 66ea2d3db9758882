/** The dynamic loader's search replayed from library to library, and the verdict on what it finds. */
module LibraryAudit {
  import opened Text

  type Path = string
  type Family = string
  type Release = seq<nat>

  /**
   What the loader reads from one library.

   needed: the sonames it links against.
   openable: the names it carries and may open, versions appended.
   */
  datatype Elf = Elf(needed: seq<string>, openable: seq<string>, rpath: seq<Path>, runpath: seq<Path>)

  /** The machine: which files exist, where a spelling leads, what each holds, and the family of a soname. */
  datatype Machine = Machine(
    present: Path -> bool,
    resolved: Path -> Path,
    elf: Path -> Elf,
    family: string -> Option<Family>,
    reals: set<Path>)

  /** The machine has finitely many real files. */
  ghost predicate Finite(m: Machine) {
    forall path :: m.present(path) ==> m.resolved(path) in m.reals
  }

  // ---- The loader ----

  datatype Rule = Rpath | LibraryPath | Runpath | Cache | Default

  datatype Found = Found(path: Path, via: Rule)

  datatype Loader = Loader(libraryPath: seq<Path>, cache: map<string, Path>, trusted: seq<Path>)

  function Sought(directories: seq<Path>, soname: string, rule: Rule): seq<Found> {
    seq(|directories|, i requires 0 <= i < |directories| => Found(directories[i] + "/" + soname, rule))
  }

  /** Every place a name is looked for, in the loader's order; the RPATH of a library with a RUNPATH is left out. */
  function Places(loader: Loader, soname: string, elf: Elf): seq<Found> {
    Sought(if elf.runpath == [] then elf.rpath else [], soname, Rpath)
    + Sought(loader.libraryPath, soname, LibraryPath)
    + Sought(elf.runpath, soname, Runpath)
    + (if soname in loader.cache then [Found(loader.cache[soname], Cache)] else [])
    + Sought(loader.trusted, soname, Default)
  }

  function FirstPresent(m: Machine, places: seq<Found>): (found: Option<Found>)
    ensures found.None? <==> forall i :: 0 <= i < |places| ==> !m.present(places[i].path)
    ensures found.Some? ==> exists i :: 0 <= i < |places| && found == Some(places[i]) && m.present(places[i].path)
                                        && forall j :: 0 <= j < i ==> !m.present(places[j].path)
  {
    if places == [] then None
    else if m.present(places[0].path) then Some(places[0]) else FirstPresent(m, places[1..])
  }

  /** `find`: the rules tried one after another, each only when those before it found nothing. */
  method Find(m: Machine, loader: Loader, soname: string, elf: Elf) returns (found: Option<Found>)
    ensures found == FirstPresent(m, Places(loader, soname, elf))
    ensures ByPrecedence(m, loader, soname, elf, found)
  {
    hide Sought, Places, FirstPresent, ByPrecedence;
    FoundByPrecedence(m, loader, soname, elf);
    InTurn(m, loader, soname, elf);
    var rpath := if elf.runpath == [] then elf.rpath else [];
    found := Search(m, rpath, soname, Rpath);
    if found.None? {
      found := Search(m, loader.libraryPath, soname, LibraryPath);
    }
    if found.None? {
      found := Search(m, elf.runpath, soname, Runpath);
    }
    if found.None? && soname in loader.cache && m.present(loader.cache[soname]) {
      found := Some(Found(loader.cache[soname], Cache));
    }
    if found.None? {
      found := Search(m, loader.trusted, soname, Default);
    }
  }

  lemma CachedFirst(m: Machine, loader: Loader, soname: string)
    ensures FirstPresent(m, if soname in loader.cache then [Found(loader.cache[soname], Cache)] else [])
         == if soname in loader.cache && m.present(loader.cache[soname]) then Some(Found(loader.cache[soname], Cache)) else None
  {
    if soname in loader.cache {
      assert [Found(loader.cache[soname], Cache)][1..] == [];
    }
  }

  /** The places are tried in turn, each only when none before it has the name. */
  lemma InTurn(m: Machine, loader: Loader, soname: string, elf: Elf)
    ensures var first := FirstPresent(m, Sought(if elf.runpath == [] then elf.rpath else [], soname, Rpath));
            var second := FirstPresent(m, Sought(loader.libraryPath, soname, LibraryPath));
            var third := FirstPresent(m, Sought(elf.runpath, soname, Runpath));
            var fourth := if soname in loader.cache && m.present(loader.cache[soname]) then Some(Found(loader.cache[soname], Cache)) else None;
            FirstPresent(m, Places(loader, soname, elf))
            == if first.Some? then first
               else if second.Some? then second
               else if third.Some? then third
               else if fourth.Some? then fourth
               else FirstPresent(m, Sought(loader.trusted, soname, Default))
  {
    hide Sought, FirstPresent;
    CachedFirst(m, loader, soname);
    var cached := if soname in loader.cache then [Found(loader.cache[soname], Cache)] else [];
    var first := Sought(if elf.runpath == [] then elf.rpath else [], soname, Rpath);
    var second, third := Sought(loader.libraryPath, soname, LibraryPath), Sought(elf.runpath, soname, Runpath);
    FirstOfTwo(m, first + second + third + cached, Sought(loader.trusted, soname, Default));
    FirstOfTwo(m, first + second + third, cached);
    FirstOfTwo(m, first + second, third);
    FirstOfTwo(m, first, second);
  }

  method Search(m: Machine, directories: seq<Path>, soname: string, rule: Rule) returns (found: Option<Found>)
    ensures found == FirstPresent(m, Sought(directories, soname, rule))
  {
    ghost var places := Sought(directories, soname, rule);
    for i := 0 to |directories|
      invariant FirstPresent(m, places) == FirstPresent(m, places[i..])
    {
      assert places[i..][0] == places[i] && places[i..][1..] == places[i + 1..];
      if m.present(directories[i] + "/" + soname) {
        return Some(Found(directories[i] + "/" + soname, rule));
      }
    }
    return None;
  }

  lemma {:induction false} FirstOfTwo(m: Machine, one: seq<Found>, two: seq<Found>)
    ensures FirstPresent(m, one + two) == if FirstPresent(m, one).Some? then FirstPresent(m, one) else FirstPresent(m, two)
  {
    if one == [] {
      assert one + two == two;
    } else {
      assert (one + two)[1..] == one[1..] + two;
      FirstOfTwo(m, one[1..], two);
    }
  }

  /** Some directory has the name. */
  ghost predicate Has(m: Machine, directories: seq<Path>, soname: string) {
    exists i :: 0 <= i < |directories| && m.present(directories[i] + "/" + soname)
  }

  /** The answer is the first of the directories that has the name, by this rule. */
  ghost predicate FirstOf(m: Machine, directories: seq<Path>, soname: string, rule: Rule, found: Option<Found>) {
    exists i :: 0 <= i < |directories| && found == Some(Found(directories[i] + "/" + soname, rule)) && m.present(directories[i] + "/" + soname)
                && forall j :: 0 <= j < i ==> !m.present(directories[j] + "/" + soname)
  }

  /**
   The loader's precedence: the RPATH of a library without a RUNPATH, the library path, the RUNPATH, the
   cache, the default directories; each only where none before it has the name, and none where none has.
   */
  ghost predicate ByPrecedence(m: Machine, loader: Loader, soname: string, elf: Elf, found: Option<Found>) {
    if elf.runpath == [] && Has(m, elf.rpath, soname) then FirstOf(m, elf.rpath, soname, Rpath, found)
    else if Has(m, loader.libraryPath, soname) then FirstOf(m, loader.libraryPath, soname, LibraryPath, found)
    else if Has(m, elf.runpath, soname) then FirstOf(m, elf.runpath, soname, Runpath, found)
    else if soname in loader.cache && m.present(loader.cache[soname]) then found == Some(Found(loader.cache[soname], Cache))
    else if Has(m, loader.trusted, soname) then FirstOf(m, loader.trusted, soname, Default, found)
    else found.None?
  }

  lemma SoughtFirst(m: Machine, directories: seq<Path>, soname: string, rule: Rule)
    ensures var found := FirstPresent(m, Sought(directories, soname, rule));
            if Has(m, directories, soname) then FirstOf(m, directories, soname, rule, found) else found.None?
  {
    var places := Sought(directories, soname, rule);
    assert forall i :: 0 <= i < |directories| ==> places[i] == Found(directories[i] + "/" + soname, rule);
    if i :| 0 <= i < |directories| && m.present(directories[i] + "/" + soname) {
      assert m.present(places[i].path);
    }
    if FirstPresent(m, places).Some? {
      var k :| 0 <= k < |places| && FirstPresent(m, places) == Some(places[k]) && m.present(places[k].path)
               && forall j :: 0 <= j < k ==> !m.present(places[j].path);
      assert m.present(directories[k] + "/" + soname);
      assert forall j :: 0 <= j < k ==> !m.present(directories[j] + "/" + soname) by {
        forall j | 0 <= j < k ensures !m.present(directories[j] + "/" + soname) {
          assert places[j].path == directories[j] + "/" + soname;
        }
      }
    }
  }

  /** What the places give is what the precedence does, and nothing else is. */
  lemma FoundByPrecedence(m: Machine, loader: Loader, soname: string, elf: Elf)
    ensures ByPrecedence(m, loader, soname, elf, FirstPresent(m, Places(loader, soname, elf)))
  {
    hide FirstPresent, Sought, Has, FirstOf, Places;
    var rpath := if elf.runpath == [] then elf.rpath else [];
    InTurn(m, loader, soname, elf);
    SoughtFirst(m, rpath, soname, Rpath);
    SoughtFirst(m, loader.libraryPath, soname, LibraryPath);
    SoughtFirst(m, elf.runpath, soname, Runpath);
    SoughtFirst(m, loader.trusted, soname, Default);
    HasNone(m, soname);
  }

  lemma HasNone(m: Machine, soname: string)
    ensures !Has(m, [], soname)
  {
  }

  /** The precedence gives one answer. */
  lemma OneByPrecedence(m: Machine, loader: Loader, soname: string, elf: Elf, found: Option<Found>)
    ensures ByPrecedence(m, loader, soname, elf, found) <==> found == FirstPresent(m, Places(loader, soname, elf))
  {
    hide FirstPresent, Places, Has;
    FoundByPrecedence(m, loader, soname, elf);
  }

  // ---- The worklist ----

  /** A question to the loader and its answer: who asked for what, and whether it links it or may open it. */
  datatype Resolution = Resolution(soname: string, requester: Path, found: Option<Found>, linked: bool)

  /** The family sonames among `names`. */
  function OfFamilies(m: Machine, names: seq<string>): seq<string> {
    if names == [] then []
    else (if m.family(names[0]).Some? then [names[0]] else []) + OfFamilies(m, names[1..])
  }

  function Asked(m: Machine, loader: Loader, path: Path, names: seq<string>, linked: bool): (answers: seq<Resolution>)
    ensures |answers| == |names|
    ensures forall i :: 0 <= i < |names| ==>
              answers[i] == Resolution(names[i], path, FirstPresent(m, Places(loader, names[i], m.elf(path))), linked)
  {
    seq(|names|, i requires 0 <= i < |names| => Resolution(names[i], path, FirstPresent(m, Places(loader, names[i], m.elf(path))), linked))
  }

  /** `_answers`: what the library at `path` links against, then what it may open by name. */
  function Answers(m: Machine, loader: Loader, path: Path): seq<Resolution> {
    Asked(m, loader, path, OfFamilies(m, m.elf(path).needed), true)
    + Asked(m, loader, path, OfFamilies(m, m.elf(path).openable), false)
  }

  function AllAnswers(m: Machine, loader: Loader, read: seq<Path>): seq<Resolution> {
    if read == [] then [] else AllAnswers(m, loader, read[..|read| - 1]) + Answers(m, loader, read[|read| - 1])
  }

  function FoundPaths(answers: seq<Resolution>): seq<Path> {
    if answers == [] then []
    else (if answers[0].found.Some? then [answers[0].found.value.path] else []) + FoundPaths(answers[1..])
  }

  /** A library asks exactly for the family names it links against and those it may open, and each is answered by precedence. */
  lemma AnswersExactly(m: Machine, loader: Loader, path: Path, answer: Resolution)
    ensures answer in Answers(m, loader, path) <==>
              && answer.requester == path && m.family(answer.soname).Some?
              && answer.soname in (if answer.linked then m.elf(path).needed else m.elf(path).openable)
              && ByPrecedence(m, loader, answer.soname, m.elf(path), answer.found)
  {
    hide ByPrecedence, FirstPresent, Places;
    OneByPrecedence(m, loader, answer.soname, m.elf(path), answer.found);
    AskedExactly(m, loader, path, m.elf(path).needed, true, answer);
    AskedExactly(m, loader, path, m.elf(path).openable, false, answer);
  }

  lemma AskedExactly(m: Machine, loader: Loader, path: Path, names: seq<string>, linked: bool, answer: Resolution)
    ensures answer in Asked(m, loader, path, OfFamilies(m, names), linked) <==>
              && answer.requester == path && m.family(answer.soname).Some? && answer.soname in names && answer.linked == linked
              && answer.found == FirstPresent(m, Places(loader, answer.soname, m.elf(path)))
  {
    hide FirstPresent, Places;
    var asked := OfFamilies(m, names);
    OfFamiliesHolds(m, names, answer.soname);
    if answer.soname in asked {
      var i :| 0 <= i < |asked| && asked[i] == answer.soname;
      assert Asked(m, loader, path, asked, linked)[i].soname == answer.soname;
    }
    if answer in Asked(m, loader, path, asked, linked) {
      var i :| 0 <= i < |asked| && Asked(m, loader, path, asked, linked)[i] == answer;
      assert asked[i] in asked;
    }
  }

  lemma {:induction false} FoundExactly(answers: seq<Resolution>, path: Path)
    ensures path in FoundPaths(answers) <==> exists i :: 0 <= i < |answers| && answers[i].found.Some? && answers[i].found.value.path == path
  {
    if answers != [] {
      FoundExactly(answers[1..], path);
      if i :| 0 <= i < |answers[1..]| && answers[1..][i].found.Some? && answers[1..][i].found.value.path == path {
        assert answers[i + 1] == answers[1..][i];
      }
      if i :| 0 < i < |answers| && answers[i].found.Some? && answers[i].found.value.path == path {
        assert answers[1..][i - 1] == answers[i];
      }
    }
  }

  /** The library at `path` was read, under this spelling or another. */
  ghost predicate Covered(m: Machine, read: seq<Path>, path: Path) {
    exists i :: 0 <= i < |read| && m.resolved(read[i]) == m.resolved(path)
  }

  /** No real file is read twice. */
  ghost predicate OncePerFile(m: Machine, read: seq<Path>) {
    forall i, j :: 0 <= i < j < |read| ==> m.resolved(read[i]) != m.resolved(read[j])
  }

  /** `path` answers something that a library read before position `n` asks for. */
  ghost predicate FoundBefore(m: Machine, loader: Loader, read: seq<Path>, n: nat, path: Path) {
    exists i :: 0 <= i < n && i < |read| && path in FoundPaths(Answers(m, loader, read[i]))
  }

  /** Every library read was installed, or was found by one read before it. */
  ghost predicate Grounded(m: Machine, loader: Loader, installed: seq<Path>, read: seq<Path>) {
    forall k :: 0 <= k < |read| ==> read[k] in installed || FoundBefore(m, loader, read, k, read[k])
  }

  /** Everything found by a library that was read is itself read. */
  ghost predicate Complete(m: Machine, loader: Loader, read: seq<Path>) {
    forall i, path :: 0 <= i < |read| && path in FoundPaths(Answers(m, loader, read[i])) ==> Covered(m, read, path)
  }

  /** Every path the queue is still to visit, and every one visited, by how it got there. */
  ghost predicate Pending(m: Machine, loader: Loader, installed: seq<Path>, read: seq<Path>, queue: seq<Path>) {
    && (forall path :: path in queue ==> path in installed || FoundBefore(m, loader, read, |read|, path))
    && (forall path :: path in installed ==> path in queue || Covered(m, read, path))
    && (forall i, path :: 0 <= i < |read| && path in FoundPaths(Answers(m, loader, read[i])) ==> path in queue || Covered(m, read, path))
  }

  lemma {:induction false} FoundPathsAppend(one: seq<Resolution>, two: seq<Resolution>)
    ensures FoundPaths(one + two) == FoundPaths(one) + FoundPaths(two)
  {
    if one == [] {
      assert one + two == two;
    } else {
      assert (one + two)[1..] == one[1..] + two;
      FoundPathsAppend(one[1..], two);
    }
  }

  lemma {:induction false} FoundIsPresent(m: Machine, loader: Loader, answers: seq<Resolution>)
    requires forall i :: 0 <= i < |answers| ==> answers[i].found.Some? ==> m.present(answers[i].found.value.path)
    ensures forall path :: path in FoundPaths(answers) ==> m.present(path)
  {
    if answers != [] {
      FoundIsPresent(m, loader, answers[1..]);
    }
  }

  lemma AnswersArePresent(m: Machine, loader: Loader, path: Path)
    ensures forall other :: other in FoundPaths(Answers(m, loader, path)) ==> m.present(other)
  {
    FoundIsPresent(m, loader, Answers(m, loader, path));
  }

  lemma CoveredStays(m: Machine, read: seq<Path>, more: Path, path: Path)
    ensures Covered(m, read, path) || m.resolved(more) == m.resolved(path) ==> Covered(m, read + [more], path)
    ensures Covered(m, read + [more], path) ==> Covered(m, read, path) || m.resolved(more) == m.resolved(path)
  {
    var all := read + [more];
    if i :| 0 <= i < |read| && m.resolved(read[i]) == m.resolved(path) {
      assert all[i] == read[i];
    }
    if m.resolved(more) == m.resolved(path) {
      assert all[|read|] == more;
    }
  }

  lemma FoundBeforeStays(m: Machine, loader: Loader, read: seq<Path>, more: Path, n: nat, path: Path)
    requires n <= |read| && FoundBefore(m, loader, read, n, path)
    ensures FoundBefore(m, loader, read + [more], n, path) && FoundBefore(m, loader, read + [more], |read| + 1, path)
  {
    var i :| 0 <= i < n && path in FoundPaths(Answers(m, loader, read[i]));
    assert (read + [more])[i] == read[i];
  }

  /** Reading one more library keeps the account of the worklist. */
  lemma ReadsOne(m: Machine, loader: Loader, installed: seq<Path>, read: seq<Path>, queue: seq<Path>, path: Path)
    requires Pending(m, loader, installed, read, [path] + queue) && Grounded(m, loader, installed, read)
    ensures Pending(m, loader, installed, read + [path], queue + FoundPaths(Answers(m, loader, path)))
    ensures Grounded(m, loader, installed, read + [path])
  {
    var all, found := read + [path], FoundPaths(Answers(m, loader, path));
    assert path in [path] + queue;
    forall k | 0 <= k < |all| ensures all[k] in installed || FoundBefore(m, loader, all, k, all[k]) {
      if k < |read| {
        if read[k] !in installed {
          FoundBeforeStays(m, loader, read, path, k, read[k]);
        }
      } else if path !in installed {
        FoundBeforeStays(m, loader, read, path, |read|, path);
      }
    }
    forall other | other in queue + found ensures other in installed || FoundBefore(m, loader, all, |all|, other) {
      if other in found {
        assert all[|read|] == path;
      } else {
        assert other in [path] + queue;
        if other !in installed {
          FoundBeforeStays(m, loader, read, path, |read|, other);
        }
      }
    }
    forall other | other in installed ensures other in queue + found || Covered(m, all, other) {
      CoveredStays(m, read, path, other);
    }
    forall i, other | 0 <= i < |all| && other in FoundPaths(Answers(m, loader, all[i])) ensures other in queue + found || Covered(m, all, other) {
      CoveredStays(m, read, path, other);
      if i < |read| {
        assert all[i] == read[i];
      }
    }
  }

  /** The visited set is the real files of what was read, each read once. */
  ghost predicate Visited(m: Machine, read: seq<Path>, visited: set<Path>) {
    && (forall i :: 0 <= i < |read| ==> m.resolved(read[i]) in visited)
    && (forall file :: file in visited ==> exists i :: 0 <= i < |read| && m.resolved(read[i]) == file)
    && visited <= m.reals
    && OncePerFile(m, read)
  }

  lemma VisitsAnother(m: Machine, read: seq<Path>, visited: set<Path>, path: Path)
    requires Visited(m, read, visited) && m.resolved(path) in m.reals - visited
    ensures Visited(m, read + [path], visited + {m.resolved(path)})
  {
    var all := read + [path];
    forall file | file in visited + {m.resolved(path)} ensures exists i :: 0 <= i < |all| && m.resolved(all[i]) == file {
      if file in visited {
        var i :| 0 <= i < |read| && m.resolved(read[i]) == file;
        assert all[i] == read[i];
      } else {
        assert all[|read|] == path;
      }
    }
  }

  /** The worklist under way. */
  ghost predicate Auditing(m: Machine, loader: Loader, installed: seq<Path>, read: seq<Path>, queue: seq<Path>) {
    && (forall path :: path in queue ==> m.present(path))
    && Grounded(m, loader, installed, read) && Pending(m, loader, installed, read, queue)
  }

  lemma SkipsOne(m: Machine, loader: Loader, installed: seq<Path>, read: seq<Path>, queue: seq<Path>, path: Path)
    requires Auditing(m, loader, installed, read, [path] + queue) && Covered(m, read, path)
    ensures Auditing(m, loader, installed, read, queue)
  {
    assert forall other :: other in queue ==> other in [path] + queue;
  }

  lemma TakesOne(m: Machine, loader: Loader, installed: seq<Path>, read: seq<Path>, queue: seq<Path>, path: Path)
    requires Auditing(m, loader, installed, read, [path] + queue)
    ensures m.present(path)
    ensures Auditing(m, loader, installed, read + [path], queue + FoundPaths(Answers(m, loader, path)))
  {
    var found := FoundPaths(Answers(m, loader, path));
    assert path in [path] + queue;
    ReadsOne(m, loader, installed, read, queue, path);
    AnswersArePresent(m, loader, path);
    forall other | other in queue + found ensures m.present(other) {
      assert other in found || other in [path] + queue;
    }
  }

  /** An empty queue leaves every installed library and every answer read. */
  lemma NothingPending(m: Machine, loader: Loader, installed: seq<Path>, read: seq<Path>)
    requires Auditing(m, loader, installed, read, [])
    ensures Grounded(m, loader, installed, read) && Complete(m, loader, read)
    ensures forall path :: path in installed ==> Covered(m, read, path)
  {
  }

  lemma AllAnswersAppend(m: Machine, loader: Loader, read: seq<Path>, path: Path)
    ensures AllAnswers(m, loader, read + [path]) == AllAnswers(m, loader, read) + Answers(m, loader, path)
  {
    assert (read + [path])[..|read|] == read;
  }

  // ---- The order of reading ----

  /** Everything the queue ever held: what is installed, then what each library read in turn finds. */
  function Queued(m: Machine, loader: Loader, installed: seq<Path>, read: seq<Path>): seq<Path> {
    installed + FoundPaths(AllAnswers(m, loader, read))
  }

  /** Of `paths`, the first spelling of each real file. */
  ghost function FirstSpellings(m: Machine, paths: seq<Path>): seq<Path> {
    if paths == [] then []
    else
      var before, last := FirstSpellings(m, paths[..|paths| - 1]), paths[|paths| - 1];
      if Covered(m, before, last) then before else before + [last]
  }

  /** `path` is in `paths`, with no other spelling of its file before it. */
  ghost predicate ComesFirst(m: Machine, paths: seq<Path>, path: Path) {
    exists i :: 0 <= i < |paths| && paths[i] == path && forall j :: 0 <= j < i ==> m.resolved(paths[j]) != m.resolved(path)
  }

  lemma FirstSpellingsNext(m: Machine, paths: seq<Path>, last: Path)
    ensures FirstSpellings(m, paths + [last])
         == if Covered(m, FirstSpellings(m, paths), last) then FirstSpellings(m, paths) else FirstSpellings(m, paths) + [last]
  {
    assert (paths + [last])[..|paths|] == paths;
  }

  lemma ComesFirstNext(m: Machine, paths: seq<Path>, last: Path, path: Path)
    ensures ComesFirst(m, paths + [last], path) <==> ComesFirst(m, paths, path) || (path == last && !Covered(m, paths, last))
  {
    var all := paths + [last];
    assert forall i :: 0 <= i < |paths| ==> all[i] == paths[i];
    if path == last && !Covered(m, paths, last) {
      assert all[|paths|] == path;
    }
    if i :| 0 <= i < |paths| && paths[i] == path && forall j :: 0 <= j < i ==> m.resolved(paths[j]) != m.resolved(path) {
      assert all[i] == path;
    }
  }

  /** The first spellings cover what the paths cover, each is one that comes first, and no file has two. */
  lemma {:induction false} FirstSpellingsAreFirst(m: Machine, paths: seq<Path>, path: Path)
    ensures path in FirstSpellings(m, paths) <==> ComesFirst(m, paths, path)
    ensures Covered(m, FirstSpellings(m, paths), path) <==> Covered(m, paths, path)
  {
    if paths != [] {
      var n := |paths| - 1;
      assert paths == paths[..n] + [paths[n]];
      FirstSpellingsAreFirst(m, paths[..n], path);
      FirstSpellingsAreFirst(m, paths[..n], paths[n]);
      FirstSpellingsNext(m, paths[..n], paths[n]);
      ComesFirstNext(m, paths[..n], paths[n], path);
      CoveredStays(m, paths[..n], paths[n], path);
      CoveredStays(m, FirstSpellings(m, paths[..n]), paths[n], path);
      if m.resolved(paths[n]) == m.resolved(path) {
        SameFileCovered(m, FirstSpellings(m, paths[..n]), paths[n], path);
      }
    }
  }

  lemma SameFileCovered(m: Machine, read: seq<Path>, one: Path, two: Path)
    requires m.resolved(one) == m.resolved(two)
    ensures Covered(m, read, one) == Covered(m, read, two)
  {
  }

  /**
   `resolutions`: a queue of paths and a set of real files. A path whose file was visited is dropped, any
   other is read under this spelling and what it finds joins the queue.
   */
  method Resolutions(m: Machine, loader: Loader, installed: seq<Path>) returns (resolutions: seq<Resolution>, read: seq<Path>)
    requires Finite(m) && forall path :: path in installed ==> m.present(path)
    ensures resolutions == AllAnswers(m, loader, read)
    ensures ReadInTurn(m, loader, installed, read)
    ensures OncePerFile(m, read) && Complete(m, loader, read) && forall path :: path in installed ==> Covered(m, read, path)
  {
    hide Auditing, Visited, Covered, Grounded, Complete, OncePerFile, FoundPaths, Answers, AllAnswers, InOrder, ReadInTurn;
    var queue, visited: set<Path> := installed, {};
    resolutions, read := [], [];
    ghost var taken: seq<Path> := [];
    NothingRead(m, loader, installed);
    while queue != []
      invariant Auditing(m, loader, installed, read, queue) && Visited(m, read, visited)
      invariant resolutions == AllAnswers(m, loader, read)
      invariant InOrder(m, loader, installed, read, taken, queue)
      decreases |m.reals - visited|, |queue|
    {
      var path := queue[0];
      assert queue == [path] + queue[1..];
      if m.resolved(path) in visited {
        VisitedIsCovered(m, read, visited, path);
        SkipsOne(m, loader, installed, read, queue[1..], path);
        SkipsInOrder(m, loader, installed, read, taken, queue[1..], path);
        taken, queue := taken + [path], queue[1..];
      } else {
        UnvisitedIsNot(m, read, visited, path);
        TakesOne(m, loader, installed, read, queue[1..], path);
        VisitsAnother(m, read, visited, path);
        VisitsMore(m.reals, visited, m.resolved(path));
        TakesInOrder(m, loader, installed, read, taken, queue[1..], path);
        AllAnswersAppend(m, loader, read, path);
        var answers := Answers(m, loader, path);
        visited := visited + {m.resolved(path)};
        read := read + [path];
        resolutions := resolutions + answers;
        taken, queue := taken + [path], queue[1..] + FoundPaths(answers);
      }
    }
    NothingPending(m, loader, installed, read);
    AllInOrder(m, loader, installed, read, taken);
    VisitedOnce(m, read, visited);
  }

  /** Read in the queue's order: the first spelling of every file the queue held, each installed or found by one read before. */
  ghost predicate ReadInTurn(m: Machine, loader: Loader, installed: seq<Path>, read: seq<Path>) {
    read == FirstSpellings(m, Queued(m, loader, installed, read)) && Grounded(m, loader, installed, read)
  }

  /** The queue under way: what it held is taken or still in it, and of the taken the first spellings are read. */
  ghost predicate InOrder(m: Machine, loader: Loader, installed: seq<Path>, read: seq<Path>, taken: seq<Path>, queue: seq<Path>) {
    taken + queue == Queued(m, loader, installed, read) && read == FirstSpellings(m, taken)
  }

  lemma SkipsInOrder(m: Machine, loader: Loader, installed: seq<Path>, read: seq<Path>, taken: seq<Path>, queue: seq<Path>, path: Path)
    requires InOrder(m, loader, installed, read, taken, [path] + queue) && Covered(m, read, path)
    ensures InOrder(m, loader, installed, read, taken + [path], queue)
  {
    hide Covered, Queued, FirstSpellings;
    FirstSpellingsNext(m, taken, path);
    assert taken + [path] + queue == taken + ([path] + queue);
  }

  lemma TakesInOrder(m: Machine, loader: Loader, installed: seq<Path>, read: seq<Path>, taken: seq<Path>, queue: seq<Path>, path: Path)
    requires InOrder(m, loader, installed, read, taken, [path] + queue) && !Covered(m, read, path)
    ensures InOrder(m, loader, installed, read + [path], taken + [path], queue + FoundPaths(Answers(m, loader, path)))
  {
    hide Covered, Queued, FirstSpellings, FoundPaths, Answers;
    var found := FoundPaths(Answers(m, loader, path));
    FirstSpellingsNext(m, taken, path);
    QueuedNext(m, loader, installed, read, path);
    assert taken + [path] + (queue + found) == taken + ([path] + queue) + found;
  }

  lemma AllInOrder(m: Machine, loader: Loader, installed: seq<Path>, read: seq<Path>, taken: seq<Path>)
    requires InOrder(m, loader, installed, read, taken, []) && Grounded(m, loader, installed, read)
    ensures ReadInTurn(m, loader, installed, read)
  {
    assert taken + [] == taken;
  }

  lemma QueuedNext(m: Machine, loader: Loader, installed: seq<Path>, read: seq<Path>, path: Path)
    ensures Queued(m, loader, installed, read + [path]) == Queued(m, loader, installed, read) + FoundPaths(Answers(m, loader, path))
  {
    hide AllAnswers, Answers, FoundPaths;
    AllAnswersAppend(m, loader, read, path);
    FoundPathsAppend(AllAnswers(m, loader, read), Answers(m, loader, path));
  }

  lemma UnvisitedIsNot(m: Machine, read: seq<Path>, visited: set<Path>, path: Path)
    requires Visited(m, read, visited) && m.resolved(path) !in visited
    ensures !Covered(m, read, path)
  {
  }

  lemma NothingRead(m: Machine, loader: Loader, installed: seq<Path>)
    requires forall path :: path in installed ==> m.present(path)
    ensures Auditing(m, loader, installed, [], installed) && Visited(m, [], {})
    ensures AllAnswers(m, loader, []) == [] && InOrder(m, loader, installed, [], [], installed)
  {
  }

  lemma VisitedIsCovered(m: Machine, read: seq<Path>, visited: set<Path>, path: Path)
    requires Visited(m, read, visited) && m.resolved(path) in visited
    ensures Covered(m, read, path)
  {
  }

  lemma VisitedOnce(m: Machine, read: seq<Path>, visited: set<Path>)
    requires Visited(m, read, visited)
    ensures OncePerFile(m, read)
  {
  }

  lemma VisitsMore(all: set<Path>, visited: set<Path>, next: Path)
    requires next in all && next !in visited
    ensures |all - (visited + {next})| < |all - visited|
  {
    assert all - (visited + {next}) == (all - visited) - {next};
  }

  // ---- The findings ----

  /** One library file a package of the environment installed. */
  datatype Provided = Provided(path: Path, family: Family, release: Release, wheelMajor: Option<string>)

  datatype Kind = Outside | Missing | Split

  datatype Verdict = Pass | Warn | Fail

  datatype Finding = Finding(kind: Kind, family: Family, verdict: Verdict)

  /** Neither contradicts the other: as far as both go they are equal. */
  predicate Agree(first: Release, second: Release) {
    forall i :: 0 <= i < |first| && i < |second| ==> first[i] == second[i]
  }

  /** Nothing answers a linked name, or the host answers any. */
  predicate Clashes(resolution: Resolution, inside: Path -> bool) {
    if resolution.found.None? then resolution.linked else !inside(resolution.found.value.path)
  }

  /** Every linked name is found, and everything found is inside. */
  predicate Clean(resolutions: seq<Resolution>, inside: Path -> bool) {
    forall i :: 0 <= i < |resolutions| ==>
      (resolutions[i].found.None? ==> !resolutions[i].linked) && (resolutions[i].found.Some? ==> inside(resolutions[i].found.value.path))
  }

  /** The first clash of each soname, in order. */
  function Clashing(resolutions: seq<Resolution>, inside: Path -> bool): seq<Resolution> {
    if resolutions == [] then []
    else
      var before, last := Clashing(resolutions[..|resolutions| - 1], inside), resolutions[|resolutions| - 1];
      if Clashes(last, inside) && forall i :: 0 <= i < |before| ==> before[i].soname != last.soname then before + [last] else before
  }

  /** `_unresolved`: a finding for each name that clashes, by its first clash. */
  function Unresolved(m: Machine, resolutions: seq<Resolution>, inside: Path -> bool): seq<Finding> {
    var clashing := Clashing(resolutions, inside);
    seq(|clashing|, i requires 0 <= i < |clashing| =>
      Finding(if clashing[i].found.Some? then Outside else Missing,
              if m.family(clashing[i].soname).Some? then m.family(clashing[i].soname).value else "",
              if clashing[i].found.Some? then Warn else Fail))
  }

  /** The releases of a family in play, each once: true for one only the host supplies. */
  type Supplied = map<Release, bool>

  function SuppliedByUs(libraries: seq<Provided>, family: Family): Supplied {
    map i | 0 <= i < |libraries| && libraries[i].family == family :: libraries[i].release := false
  }

  /** The major a release states, empty when it states none. */
  function Major(release: Release): Release {
    if release == [] then [] else release[..1]
  }

  /** The host's file joins the family's releases when its major is one the environment uses. */
  function WithHost(m: Machine, supplied: Supplied, resolution: Resolution, family: Family, inside: Path -> bool, named: Path -> Release): Supplied {
    if resolution.found.None? || m.family(resolution.soname) != Some(family) || inside(resolution.found.value.path) then supplied
    else
      var host := named(m.resolved(resolution.found.value.path));
      if host in supplied || forall ours :: ours in supplied ==> Major(ours) != Major(host) then supplied else supplied[host := true]
  }

  function InPlay(m: Machine, supplied: Supplied, resolutions: seq<Resolution>, family: Family, inside: Path -> bool, named: Path -> Release): Supplied {
    if resolutions == [] then supplied
    else WithHost(m, InPlay(m, supplied, resolutions[..|resolutions| - 1], family, inside, named), resolutions[|resolutions| - 1], family, inside, named)
  }

  predicate Uniform(supplied: Supplied) {
    forall first, second :: first in supplied && second in supplied ==> Agree(first, second)
  }

  function Families(libraries: seq<Provided>): seq<Family> {
    if libraries == [] then []
    else
      var before, last := Families(libraries[..|libraries| - 1]), libraries[|libraries| - 1].family;
      if last in before then before else before + [last]
  }

  /** `_splits`: a finding for each family whose releases in play contradict one another, failing when one of them is only the host's. */
  function Splits(m: Machine, libraries: seq<Provided>, families: seq<Family>, resolutions: seq<Resolution>, inside: Path -> bool, named: Path -> Release): seq<Finding> {
    if families == [] then []
    else
      var supplied := InPlay(m, SuppliedByUs(libraries, families[0]), resolutions, families[0], inside, named);
      (if Uniform(supplied) then []
       else [Finding(Split, families[0], if exists release :: release in supplied && supplied[release] then Fail else Warn)])
      + Splits(m, libraries, families[1..], resolutions, inside, named)
  }

  /** `_majors`: wheels for different CUDA majors share the prefix. */
  function Majors(libraries: seq<Provided>): seq<Finding> {
    if exists i, j :: 0 <= i < |libraries| && 0 <= j < |libraries| && libraries[i].wheelMajor.Some? && libraries[j].wheelMajor.Some?
                      && libraries[i].wheelMajor != libraries[j].wheelMajor
    then [Finding(Split, "CUDA", Fail)] else []
  }

  function Findings(m: Machine, libraries: seq<Provided>, resolutions: seq<Resolution>, inside: Path -> bool, named: Path -> Release): seq<Finding> {
    Unresolved(m, resolutions, inside) + Splits(m, libraries, Families(libraries), resolutions, inside, named) + Majors(libraries)
  }

  /** `section`: the audit as one verdict. */
  function Section(findings: seq<Finding>): Verdict {
    if findings == [] then Pass
    else if exists i :: 0 <= i < |findings| && findings[i].verdict == Fail then Fail else Warn
  }

  // ---- What a PASS means ----

  lemma {:induction false} ClashingHolds(resolutions: seq<Resolution>, inside: Path -> bool)
    ensures Clashing(resolutions, inside) == [] <==> forall i :: 0 <= i < |resolutions| ==> !Clashes(resolutions[i], inside)
  {
    if resolutions != [] {
      var n := |resolutions| - 1;
      ClashingHolds(resolutions[..n], inside);
      assert forall i :: 0 <= i < n ==> resolutions[..n][i] == resolutions[i];
    }
  }

  lemma {:induction false} NoHostInPlay(m: Machine, supplied: Supplied, resolutions: seq<Resolution>, family: Family, inside: Path -> bool, named: Path -> Release)
    requires forall i :: 0 <= i < |resolutions| && resolutions[i].found.Some? ==> inside(resolutions[i].found.value.path)
    ensures InPlay(m, supplied, resolutions, family, inside, named) == supplied
  {
    if resolutions != [] {
      NoHostInPlay(m, supplied, resolutions[..|resolutions| - 1], family, inside, named);
    }
  }

  lemma {:induction false} FamiliesHold(libraries: seq<Provided>)
    ensures forall family :: family in Families(libraries) <==> exists i :: 0 <= i < |libraries| && libraries[i].family == family
  {
    if libraries != [] {
      var n := |libraries| - 1;
      FamiliesHold(libraries[..n]);
      assert forall i :: 0 <= i < n ==> libraries[..n][i] == libraries[i];
      forall family ensures family in Families(libraries) <==> exists i :: 0 <= i < |libraries| && libraries[i].family == family {
        if family == libraries[n].family {
          assert 0 <= n < |libraries|;
        }
      }
    }
  }

  lemma {:induction false} NoSplits(m: Machine, libraries: seq<Provided>, families: seq<Family>, resolutions: seq<Resolution>, inside: Path -> bool, named: Path -> Release)
    ensures Splits(m, libraries, families, resolutions, inside, named) == [] <==>
              forall family :: family in families ==> Uniform(InPlay(m, SuppliedByUs(libraries, family), resolutions, family, inside, named))
  {
    if families != [] {
      NoSplits(m, libraries, families[1..], resolutions, inside, named);
    }
  }

  /** Of any two releases of a family one begins with the other. */
  predicate FamiliesAgree(libraries: seq<Provided>) {
    forall i, j :: 0 <= i < |libraries| && 0 <= j < |libraries| && libraries[i].family == libraries[j].family ==>
      libraries[i].release <= libraries[j].release || libraries[j].release <= libraries[i].release
  }

  /** Two releases agree exactly when one begins with the other. */
  lemma AgreeIsPrefix(first: Release, second: Release)
    ensures Agree(first, second) <==> first <= second || second <= first
  {
  }

  predicate MajorsAgree(libraries: seq<Provided>) {
    forall i, j :: 0 <= i < |libraries| && 0 <= j < |libraries| && libraries[i].wheelMajor.Some? && libraries[j].wheelMajor.Some? ==>
      libraries[i].wheelMajor == libraries[j].wheelMajor
  }

  lemma UniformFamily(libraries: seq<Provided>, family: Family)
    requires FamiliesAgree(libraries)
    ensures Uniform(SuppliedByUs(libraries, family))
  {
    hide Agree;
    var supplied := SuppliedByUs(libraries, family);
    forall first, second | first in supplied && second in supplied ensures Agree(first, second) {
      var i :| 0 <= i < |libraries| && libraries[i].family == family && libraries[i].release == first;
      var j :| 0 <= j < |libraries| && libraries[j].family == family && libraries[j].release == second;
      AgreeIsPrefix(first, second);
    }
  }

  lemma UniformIsAgreement(libraries: seq<Provided>)
    ensures FamiliesAgree(libraries) <==> forall family :: family in Families(libraries) ==> Uniform(SuppliedByUs(libraries, family))
  {
    hide Agree;
    FamiliesHold(libraries);
    if FamiliesAgree(libraries) {
      forall family | family in Families(libraries) ensures Uniform(SuppliedByUs(libraries, family)) {
        UniformFamily(libraries, family);
      }
    } else {
      var i, j :| 0 <= i < |libraries| && 0 <= j < |libraries| && libraries[i].family == libraries[j].family
                  && !(libraries[i].release <= libraries[j].release || libraries[j].release <= libraries[i].release);
      var supplied := SuppliedByUs(libraries, libraries[i].family);
      assert libraries[i].release in supplied && libraries[j].release in supplied;
      AgreeIsPrefix(libraries[i].release, libraries[j].release);
      assert !Uniform(supplied);
    }
  }

  /** No finding means no clash, families that agree and one CUDA major; and those three leave no finding. */
  lemma PassesExactlyWhenClean(m: Machine, libraries: seq<Provided>, resolutions: seq<Resolution>, inside: Path -> bool, named: Path -> Release)
    ensures Section(Findings(m, libraries, resolutions, inside, named)) == Pass <==>
              Clean(resolutions, inside) && FamiliesAgree(libraries) && MajorsAgree(libraries)
  {
    hide Clashing, InPlay, SuppliedByUs, Uniform, FamiliesAgree, Splits;
    ClashingHolds(resolutions, inside);
    NoSplits(m, libraries, Families(libraries), resolutions, inside, named);
    UniformIsAgreement(libraries);
    if forall i :: 0 <= i < |resolutions| ==> !Clashes(resolutions[i], inside) {
      forall family ensures InPlay(m, SuppliedByUs(libraries, family), resolutions, family, inside, named) == SuppliedByUs(libraries, family) {
        NoHostInPlay(m, SuppliedByUs(libraries, family), resolutions, family, inside, named);
      }
    }
  }

  // ---- What a FAIL means ----

  /** Resolution `i` is the first of its name that clashes: linked and found nowhere, or found outside. */
  ghost predicate FirstClash(resolutions: seq<Resolution>, inside: Path -> bool, i: int) {
    && 0 <= i < |resolutions|
    && (if resolutions[i].found.None? then resolutions[i].linked else !inside(resolutions[i].found.value.path))
    && forall j :: 0 <= j < i && resolutions[j].soname == resolutions[i].soname ==>
         if resolutions[j].found.None? then !resolutions[j].linked else inside(resolutions[j].found.value.path)
  }

  /** Some resolution of this name clashes. */
  ghost predicate NameClashes(resolutions: seq<Resolution>, inside: Path -> bool, name: string) {
    exists i :: 0 <= i < |resolutions| && resolutions[i].soname == name && Clashes(resolutions[i], inside)
  }

  ghost predicate Among(found: seq<Resolution>, name: string) {
    exists i :: 0 <= i < |found| && found[i].soname == name
  }

  lemma {:induction false} ClashingNames(resolutions: seq<Resolution>, inside: Path -> bool, name: string)
    ensures Among(Clashing(resolutions, inside), name) <==> NameClashes(resolutions, inside, name)
  {
    hide Clashes;
    if resolutions != [] {
      var n := |resolutions| - 1;
      var clashing, all := Clashing(resolutions[..n], inside), Clashing(resolutions, inside);
      ClashingNames(resolutions[..n], inside, name);
      ClashingNames(resolutions[..n], inside, resolutions[n].soname);
      assert forall i :: 0 <= i < n ==> resolutions[..n][i] == resolutions[i];
      assert forall i :: 0 <= i < |clashing| ==> all[i] == clashing[i];
      assert NameClashes(resolutions, inside, name)
        <==> NameClashes(resolutions[..n], inside, name) || (resolutions[n].soname == name && Clashes(resolutions[n], inside));
      if all != clashing {
        assert all[|clashing|] == resolutions[n];
      }
    }
  }

  /** The clashes kept are the first of each name. */
  lemma {:induction false} ClashingExactly(resolutions: seq<Resolution>, inside: Path -> bool, r: Resolution)
    ensures r in Clashing(resolutions, inside) <==> exists i :: FirstClash(resolutions, inside, i) && resolutions[i] == r
  {
    hide Clashes, FirstClash, NameClashes;
    if resolutions == [] {
      NoClash(inside);
    } else {
      var n := |resolutions| - 1;
      ClashingExactly(resolutions[..n], inside, r);
      ClashingNames(resolutions[..n], inside, resolutions[n].soname);
      LastClashes(resolutions, inside);
      forall i: int ensures FirstClash(resolutions, inside, i) <==> FirstClash(resolutions[..n], inside, i) || (i == n && FirstClash(resolutions, inside, n)) {
        EarlierClashes(resolutions, inside, i);
      }
      forall i: int | FirstClash(resolutions[..n], inside, i) ensures 0 <= i < n && resolutions[..n][i] == resolutions[i] {
        EarlierClashes(resolutions, inside, i);
      }
    }
  }

  lemma NoClash(inside: Path -> bool)
    ensures forall i :: !FirstClash([], inside, i)
  {
  }

  lemma EarlierClashes(resolutions: seq<Resolution>, inside: Path -> bool, i: int)
    requires resolutions != []
    ensures var n := |resolutions| - 1;
            && (FirstClash(resolutions, inside, i) <==> FirstClash(resolutions[..n], inside, i) || (i == n && FirstClash(resolutions, inside, n)))
            && (FirstClash(resolutions[..n], inside, i) ==> 0 <= i < n)
  {
    var n := |resolutions| - 1;
    assert forall k :: 0 <= k < n ==> resolutions[..n][k] == resolutions[k];
  }

  lemma LastClashes(resolutions: seq<Resolution>, inside: Path -> bool)
    requires resolutions != []
    ensures var n := |resolutions| - 1;
            FirstClash(resolutions, inside, n) <==> Clashes(resolutions[n], inside) && !NameClashes(resolutions[..n], inside, resolutions[n].soname)
  {
    var n := |resolutions| - 1;
    assert forall i :: 0 <= i < n ==> resolutions[..n][i] == resolutions[i];
  }

  /** Two releases have the same first number, or neither has one. */
  ghost predicate SameMajor(one: Release, two: Release) {
    (one == [] && two == []) || (one != [] && two != [] && one[0] == two[0])
  }

  /** The host supplies `release`: some name of the family is found outside, in a file named so, of a major the environment has too. */
  ghost predicate Hosted(m: Machine, supplied: Supplied, resolutions: seq<Resolution>, family: Family, inside: Path -> bool, named: Path -> Release, release: Release) {
    exists i :: 0 <= i < |resolutions| && HostedBy(m, supplied, resolutions[i], family, inside, named, release)
  }

  ghost predicate HostedBy(m: Machine, supplied: Supplied, resolution: Resolution, family: Family, inside: Path -> bool, named: Path -> Release, release: Release) {
    && resolution.found.Some? && m.family(resolution.soname) == Some(family) && !inside(resolution.found.value.path)
    && release == named(m.resolved(resolution.found.value.path))
    && exists ours :: ours in supplied && SameMajor(ours, release)
  }

  /** What is in play of a family is what the environment has and what the host supplies, told apart. */
  lemma {:induction false} InPlayExactly(m: Machine, supplied: Supplied, resolutions: seq<Resolution>, family: Family, inside: Path -> bool, named: Path -> Release)
    ensures var play := InPlay(m, supplied, resolutions, family, inside, named);
            forall release ::
              && (release in play <==> release in supplied || Hosted(m, supplied, resolutions, family, inside, named, release))
              && (release in supplied ==> play[release] == supplied[release])
              && (release in play && release !in supplied ==> play[release])
  {
    if resolutions != [] {
      var n := |resolutions| - 1;
      var before, last := resolutions[..n], resolutions[n];
      InPlayExactly(m, supplied, before, family, inside, named);
      forall release ensures Hosted(m, supplied, resolutions, family, inside, named, release)
                        <==> Hosted(m, supplied, before, family, inside, named, release) || HostedBy(m, supplied, last, family, inside, named, release)
      {
        assert forall i :: 0 <= i < n ==> before[i] == resolutions[i];
      }
      if last.found.Some? {
        SameMajors(m, supplied, before, last, family, inside, named);
      }
    }
  }

  /** A file of the host joins what is in play exactly when its major is one the environment has. */
  lemma SameMajors(m: Machine, supplied: Supplied, before: seq<Resolution>, last: Resolution, family: Family, inside: Path -> bool, named: Path -> Release)
    requires var play := InPlay(m, supplied, before, family, inside, named);
             forall release :: release in play <==> release in supplied || Hosted(m, supplied, before, family, inside, named, release)
    requires last.found.Some?
    ensures var play, host := InPlay(m, supplied, before, family, inside, named), named(m.resolved(last.found.value.path));
            (exists ours :: ours in play && Major(ours) == Major(host)) <==> exists ours :: ours in supplied && SameMajor(ours, host)
  {
    hide InPlay;
    var play, host := InPlay(m, supplied, before, family, inside, named), named(m.resolved(last.found.value.path));
    forall one, two ensures Major(one) == Major(two) <==> SameMajor(one, two) {
      MajorIsFirst(one, two);
    }
    if ours :| ours in play && Major(ours) == Major(host) && ours !in supplied {
      var i :| 0 <= i < |before| && HostedBy(m, supplied, before[i], family, inside, named, ours);
      var mine :| mine in supplied && SameMajor(mine, ours);
      assert SameMajor(mine, host);
    }
  }

  lemma MajorIsFirst(one: Release, two: Release)
    ensures Major(one) == Major(two) <==> SameMajor(one, two)
  {
    if one != [] && two != [] {
      assert one[..1] == [one[0]] && two[..1] == [two[0]];
    }
  }

  ghost predicate Failing(findings: seq<Finding>) {
    exists i :: 0 <= i < |findings| && findings[i].verdict == Fail
  }

  lemma FailingEither(one: seq<Finding>, two: seq<Finding>)
    ensures Failing(one + two) <==> Failing(one) || Failing(two)
  {
    var all := one + two;
    if i :| 0 <= i < |one| && one[i].verdict == Fail {
      assert all[i] == one[i];
    }
    if i :| 0 <= i < |two| && two[i].verdict == Fail {
      assert all[|one| + i] == two[i];
    }
  }

  /** What is said of a clash: missing and failing when nothing answers the name, outside and a warning when the host does. */
  ghost predicate ReportsClash(m: Machine, clash: Resolution, finding: Finding) {
    && (clash.found.None? ==> finding.kind == Missing && finding.verdict == Fail)
    && (clash.found.Some? ==> finding.kind == Outside && finding.verdict == Warn)
    && match m.family(clash.soname) { case Some(family) => finding.family == family case None => finding.family == "" }
  }

  lemma UnresolvedExactly(m: Machine, resolutions: seq<Resolution>, inside: Path -> bool, finding: Finding)
    ensures finding in Unresolved(m, resolutions, inside) <==> exists i :: FirstClash(resolutions, inside, i) && ReportsClash(m, resolutions[i], finding)
  {
    hide Clashing;
    var clashing := Clashing(resolutions, inside);
    if finding in Unresolved(m, resolutions, inside) {
      var k :| 0 <= k < |clashing| && finding == Unresolved(m, resolutions, inside)[k];
      ClashingExactly(resolutions, inside, clashing[k]);
    }
    if i :| FirstClash(resolutions, inside, i) && ReportsClash(m, resolutions[i], finding) {
      ClashingExactly(resolutions, inside, resolutions[i]);
      var k :| 0 <= k < |clashing| && clashing[k] == resolutions[i];
      assert Unresolved(m, resolutions, inside)[k] == finding;
    }
  }

  /** Some two releases of a family in play contradict one another. */
  ghost predicate Contradicted(m: Machine, libraries: seq<Provided>, resolutions: seq<Resolution>, family: Family, inside: Path -> bool, named: Path -> Release) {
    var play := InPlay(m, SuppliedByUs(libraries, family), resolutions, family, inside, named);
    exists one, two :: one in play && two in play && !(one <= two || two <= one)
  }

  lemma {:induction false} SplitsExactly(m: Machine, libraries: seq<Provided>, families: seq<Family>, resolutions: seq<Resolution>, inside: Path -> bool, named: Path -> Release, finding: Finding)
    ensures finding in Splits(m, libraries, families, resolutions, inside, named) <==>
              && finding.family in families && finding.kind == Split
              && Contradicted(m, libraries, resolutions, finding.family, inside, named)
              && finding.verdict == if SplitByHost(m, libraries, resolutions, finding.family, inside, named) then Fail else Warn
  {
    hide Uniform, InPlay, SuppliedByUs;
    if families != [] {
      var play := InPlay(m, SuppliedByUs(libraries, families[0]), resolutions, families[0], inside, named);
      SplitsExactly(m, libraries, families[1..], resolutions, inside, named, finding);
      NotUniform(play);
      assert Contradicted(m, libraries, resolutions, families[0], inside, named) <==> !Uniform(play);
      assert families == [families[0]] + families[1..];
    }
  }

  /** The findings are these and no others: one of each first clash, of each family that contradicts itself, and of wheels of several CUDA majors. */
  lemma FindingsExactly(m: Machine, libraries: seq<Provided>, resolutions: seq<Resolution>, inside: Path -> bool, named: Path -> Release, finding: Finding)
    ensures finding in Findings(m, libraries, resolutions, inside, named) <==>
              || (exists i :: FirstClash(resolutions, inside, i) && ReportsClash(m, resolutions[i], finding))
              || (&& (exists k :: 0 <= k < |libraries| && libraries[k].family == finding.family) && finding.kind == Split
                  && Contradicted(m, libraries, resolutions, finding.family, inside, named)
                  && finding.verdict == if SplitByHost(m, libraries, resolutions, finding.family, inside, named) then Fail else Warn)
              || (finding == Finding(Split, "CUDA", Fail) && !MajorsAgree(libraries))
  {
    hide Unresolved, Splits, SplitByHost, Contradicted, FirstClash, ReportsClash;
    UnresolvedExactly(m, resolutions, inside, finding);
    SplitsExactly(m, libraries, Families(libraries), resolutions, inside, named, finding);
    FamiliesHold(libraries);
  }

  /** A family's releases in play contradict one another, and the host supplies one of them. */
  ghost predicate SplitByHost(m: Machine, libraries: seq<Provided>, resolutions: seq<Resolution>, family: Family, inside: Path -> bool, named: Path -> Release) {
    var play := InPlay(m, SuppliedByUs(libraries, family), resolutions, family, inside, named);
    && (exists release :: release in play && play[release])
    && exists one, two :: one in play && two in play && !(one <= two || two <= one)
  }

  lemma NotUniform(supplied: Supplied)
    ensures Uniform(supplied) <==> !exists one, two :: one in supplied && two in supplied && !(one <= two || two <= one)
  {
    hide Agree;
    if !Uniform(supplied) {
      var one, two :| one in supplied && two in supplied && !Agree(one, two);
      AgreeIsPrefix(one, two);
    }
    if one, two :| one in supplied && two in supplied && !(one <= two || two <= one) {
      AgreeIsPrefix(one, two);
    }
  }

  lemma {:induction false} SplitsFail(m: Machine, libraries: seq<Provided>, families: seq<Family>, resolutions: seq<Resolution>, inside: Path -> bool, named: Path -> Release)
    ensures Failing(Splits(m, libraries, families, resolutions, inside, named)) <==>
              exists family :: family in families && SplitByHost(m, libraries, resolutions, family, inside, named)
  {
    hide Uniform, InPlay, SuppliedByUs;
    if families != [] {
      var play := InPlay(m, SuppliedByUs(libraries, families[0]), resolutions, families[0], inside, named);
      var head := if Uniform(play) then [] else [Finding(Split, families[0], if exists release :: release in play && play[release] then Fail else Warn)];
      SplitsFail(m, libraries, families[1..], resolutions, inside, named);
      FailingEither(head, Splits(m, libraries, families[1..], resolutions, inside, named));
      NotUniform(play);
      if head != [] {
        assert head[0].verdict == Fail <==> exists release :: release in play && play[release];
      }
      assert Failing(head) <==> SplitByHost(m, libraries, resolutions, families[0], inside, named);
      assert families == [families[0]] + families[1..];
    }
  }

  lemma UnresolvedFails(m: Machine, resolutions: seq<Resolution>, inside: Path -> bool)
    ensures Failing(Unresolved(m, resolutions, inside)) <==> exists i :: FirstClash(resolutions, inside, i) && resolutions[i].found.None?
  {
    hide Clashing;
    var clashing := Clashing(resolutions, inside);
    if k :| 0 <= k < |clashing| && clashing[k].found.None? {
      assert Unresolved(m, resolutions, inside)[k].verdict == Fail;
      ClashingExactly(resolutions, inside, clashing[k]);
    }
    if i :| FirstClash(resolutions, inside, i) && resolutions[i].found.None? {
      ClashingExactly(resolutions, inside, resolutions[i]);
      var k :| 0 <= k < |clashing| && clashing[k] == resolutions[i];
      assert Unresolved(m, resolutions, inside)[k].verdict == Fail;
    }
  }

  /** The audit fails exactly when the first clash of some name is a linked one found nowhere, the host splits a family, or two CUDA majors are named. */
  lemma FailsExactly(m: Machine, libraries: seq<Provided>, resolutions: seq<Resolution>, inside: Path -> bool, named: Path -> Release)
    ensures Section(Findings(m, libraries, resolutions, inside, named)) == Fail <==>
              || (exists i :: FirstClash(resolutions, inside, i) && resolutions[i].found.None?)
              || (exists k :: 0 <= k < |libraries| && SplitByHost(m, libraries, resolutions, libraries[k].family, inside, named))
              || !MajorsAgree(libraries)
  {
    hide Unresolved, Splits, SplitByHost, FirstClash;
    var one, two, three := Unresolved(m, resolutions, inside), Splits(m, libraries, Families(libraries), resolutions, inside, named), Majors(libraries);
    FailingEither(one + two, three);
    FailingEither(one, two);
    UnresolvedFails(m, resolutions, inside);
    SplitsFail(m, libraries, Families(libraries), resolutions, inside, named);
    FamiliesHold(libraries);
    assert Failing(three) <==> !MajorsAgree(libraries) by {
      if three != [] {
        assert three[0].verdict == Fail;
      }
    }
  }

  lemma {:induction false} OfFamiliesHolds(m: Machine, names: seq<string>, soname: string)
    ensures soname in OfFamilies(m, names) <==> soname in names && m.family(soname).Some?
  {
    if names != [] {
      OfFamiliesHolds(m, names[1..], soname);
    }
  }

  lemma {:induction false} AnswersAreAmongAll(m: Machine, loader: Loader, read: seq<Path>, i: nat, answer: Resolution)
    requires i < |read| && answer in Answers(m, loader, read[i])
    ensures answer in AllAnswers(m, loader, read)
  {
    hide Answers;
    var n := |read| - 1;
    assert AllAnswers(m, loader, read) == AllAnswers(m, loader, read[..n]) + Answers(m, loader, read[n]);
    if i < n {
      assert read[..n][i] == read[i];
      AnswersAreAmongAll(m, loader, read[..n], i, answer);
    }
  }

  /** The answer a library gets for a family soname it links against is one of its resolutions. */
  lemma LinkedIsAnswered(m: Machine, loader: Loader, path: Path, soname: string)
    requires soname in m.elf(path).needed && m.family(soname).Some?
    ensures Resolution(soname, path, FirstPresent(m, Places(loader, soname, m.elf(path))), true) in Answers(m, loader, path)
  {
    OfFamiliesHolds(m, m.elf(path).needed, soname);
    var names := OfFamilies(m, m.elf(path).needed);
    var i :| 0 <= i < |names| && names[i] == soname;
    assert Asked(m, loader, path, names, true)[i] in Asked(m, loader, path, names, true);
  }

  /** The library at `path` gets everything it links against, of any family, from inside the environment. */
  ghost predicate LoadsInside(m: Machine, loader: Loader, path: Path, inside: Path -> bool) {
    forall soname, found ::
      soname in m.elf(path).needed && m.family(soname).Some? && ByPrecedence(m, loader, soname, m.elf(path), found) ==>
        found.Some? && inside(found.value.path)
  }

  /** A PASS is sound: every library the worklist read loads its families from the environment, whose releases agree. */
  lemma PassIsSound(m: Machine, loader: Loader, libraries: seq<Provided>, read: seq<Path>, inside: Path -> bool, named: Path -> Release)
    requires Section(Findings(m, libraries, AllAnswers(m, loader, read), inside, named)) == Pass
    ensures forall i :: 0 <= i < |read| ==> LoadsInside(m, loader, read[i], inside)
    ensures FamiliesAgree(libraries) && MajorsAgree(libraries)
  {
    PassesExactlyWhenClean(m, libraries, AllAnswers(m, loader, read), inside, named);
    hide ByPrecedence, Section, Findings;
    forall i, soname, found | 0 <= i < |read| && soname in m.elf(read[i]).needed && m.family(soname).Some?
                              && ByPrecedence(m, loader, soname, m.elf(read[i]), found)
      ensures found.Some? && inside(found.value.path)
    {
      OneByPrecedence(m, loader, soname, m.elf(read[i]), found);
      LinkedIsAnswered(m, loader, read[i], soname);
      AnswersAreAmongAll(m, loader, read, i, Resolution(soname, read[i], FirstPresent(m, Places(loader, soname, m.elf(read[i]))), true));
    }
  }

  /** A chain of answers of this length leads from an installed library to `path`. */
  ghost predicate LoadedFrom(m: Machine, loader: Loader, installed: seq<Path>, path: Path, length: nat)
    decreases length
  {
    if length == 0 then path in installed
    else exists via :: LoadedFrom(m, loader, installed, via, length - 1) && path in FoundPaths(Answers(m, loader, via))
  }

  // ---- What a process can reach ----

  /** The first `n` libraries reached, each real file by its first spelling: the next is the first that has not been. */
  ghost function Explored(m: Machine, loader: Loader, installed: seq<Path>, n: nat): seq<Path> {
    if n == 0 then []
    else
      var before := Explored(m, loader, installed, n - 1);
      var spelled := FirstSpellings(m, Queued(m, loader, installed, before));
      if |before| < |spelled| then before + [spelled[|before|]] else before
  }

  /** `path` is the spelling its file is first reached under. */
  ghost predicate Reached(m: Machine, loader: Loader, installed: seq<Path>, path: Path) {
    exists n: nat :: path in Explored(m, loader, installed, n)
  }

  /** A chain of answers leads to `path`, each library on it asked by the spelling its file is first reached under. */
  ghost predicate LoadedFirst(m: Machine, loader: Loader, installed: seq<Path>, path: Path, length: nat)
    decreases length
  {
    if length == 0 then path in installed
    else exists via, first :: LoadedFirst(m, loader, installed, via, length - 1) && m.resolved(first) == m.resolved(via)
                              && Reached(m, loader, installed, first) && path in FoundPaths(Answers(m, loader, first))
  }

  lemma {:induction false} FirstSpellingsPrefix(m: Machine, paths: seq<Path>, more: seq<Path>)
    ensures FirstSpellings(m, paths) <= FirstSpellings(m, paths + more)
    decreases |more|
  {
    if more == [] {
      assert paths + more == paths;
    } else {
      var n := |more| - 1;
      assert paths + more == paths + more[..n] + [more[n]];
      FirstSpellingsPrefix(m, paths, more[..n]);
      FirstSpellingsNext(m, paths + more[..n], more[n]);
    }
  }

  lemma {:induction false} AnswersOfPrefix(m: Machine, loader: Loader, read: seq<Path>, n: nat)
    requires n <= |read|
    ensures AllAnswers(m, loader, read[..n]) <= AllAnswers(m, loader, read)
  {
    if n < |read| {
      AnswersOfPrefix(m, loader, read[..|read| - 1], n);
      assert read[..|read| - 1][..n] == read[..n];
    } else {
      assert read[..n] == read;
    }
  }

  /** What a part of the reading queued begins what all of it did. */
  lemma QueuedPrefix(m: Machine, loader: Loader, installed: seq<Path>, read: seq<Path>, n: nat)
    requires n <= |read|
    ensures Queued(m, loader, installed, read[..n]) <= Queued(m, loader, installed, read)
  {
    hide AllAnswers, FoundPaths;
    var part, all := AllAnswers(m, loader, read[..n]), AllAnswers(m, loader, read);
    AnswersOfPrefix(m, loader, read, n);
    assert all == part + all[|part|..];
    FoundPathsAppend(part, all[|part|..]);
  }

  lemma {:induction false} FoundIsQueued(m: Machine, loader: Loader, read: seq<Path>, i: nat, path: Path)
    requires i < |read| && path in FoundPaths(Answers(m, loader, read[i]))
    ensures path in FoundPaths(AllAnswers(m, loader, read))
  {
    var n := |read| - 1;
    FoundPathsAppend(AllAnswers(m, loader, read[..n]), Answers(m, loader, read[n]));
    if i < n {
      FoundIsQueued(m, loader, read[..n], i, path);
    }
  }

  /** The next library read was queued by those before it. */
  lemma NextIsQueued(m: Machine, loader: Loader, installed: seq<Path>, read: seq<Path>, n: nat)
    requires Grounded(m, loader, installed, read) && n < |read|
    ensures read[n] in Queued(m, loader, installed, read[..n])
  {
    if read[n] !in installed {
      assert FoundBefore(m, loader, read, n, read[n]);
      var i :| 0 <= i < n && read[n] in FoundPaths(Answers(m, loader, read[i]));
      assert read[..n][i] == read[i];
      FoundIsQueued(m, loader, read[..n], i, read[n]);
    }
  }

  lemma {:induction false} FirstSpellingsOnce(m: Machine, paths: seq<Path>)
    ensures OncePerFile(m, FirstSpellings(m, paths))
  {
    if paths != [] {
      FirstSpellingsOnce(m, paths[..|paths| - 1]);
    }
  }

  /** The first spellings of what a part of the reading queued begin the reading. */
  lemma SpelledBegins(m: Machine, loader: Loader, installed: seq<Path>, read: seq<Path>, n: nat)
    requires ReadInTurn(m, loader, installed, read) && n <= |read|
    ensures FirstSpellings(m, Queued(m, loader, installed, read[..n])) <= read
  {
    hide Queued, FirstSpellings, Grounded;
    var queued, all := Queued(m, loader, installed, read[..n]), Queued(m, loader, installed, read);
    QueuedPrefix(m, loader, installed, read, n);
    assert all == queued + all[|queued|..];
    FirstSpellingsPrefix(m, queued, all[|queued|..]);
  }

  /** The exploration goes through the reading, library by library. */
  lemma {:induction false} ExploredIsRead(m: Machine, loader: Loader, installed: seq<Path>, read: seq<Path>, n: nat)
    requires ReadInTurn(m, loader, installed, read)
    ensures Explored(m, loader, installed, n) == if n < |read| then read[..n] else read
  {
    hide ReadInTurn, Queued, FirstSpellings;
    if n > 0 {
      ExploredIsRead(m, loader, installed, read, n - 1);
      var k := if n - 1 < |read| then n - 1 else |read|;
      assert Explored(m, loader, installed, n - 1) == read[..k];
      SpelledBegins(m, loader, installed, read, k);
      if k < |read| {
        NextIsSpelled(m, loader, installed, read, k);
      }
    }
  }

  lemma NextIsSpelled(m: Machine, loader: Loader, installed: seq<Path>, read: seq<Path>, n: nat)
    requires ReadInTurn(m, loader, installed, read) && n < |read|
    requires FirstSpellings(m, Queued(m, loader, installed, read[..n])) <= read
    ensures n < |FirstSpellings(m, Queued(m, loader, installed, read[..n]))|
  {
    hide FirstSpellings, Queued;
    var queued := Queued(m, loader, installed, read[..n]);
    var spelled := FirstSpellings(m, queued);
    NextIsQueued(m, loader, installed, read, n);
    FirstSpellingsAreFirst(m, queued, read[n]);
    assert Covered(m, queued, read[n]);
    var i :| 0 <= i < |spelled| && m.resolved(spelled[i]) == m.resolved(read[n]);
    FirstSpellingsOnce(m, Queued(m, loader, installed, read));
    assert read[i] == spelled[i];
  }

  /** Reached, in whatever order a machine is explored, is exactly read. */
  lemma ReachedIsRead(m: Machine, loader: Loader, installed: seq<Path>, read: seq<Path>, path: Path)
    requires ReadInTurn(m, loader, installed, read)
    ensures Reached(m, loader, installed, path) <==> path in read
  {
    if n: nat :| path in Explored(m, loader, installed, n) {
      ExploredIsRead(m, loader, installed, read, n);
    }
    ExploredIsRead(m, loader, installed, read, |read|);
  }

  /** A chain leads to every library reached. */
  lemma {:induction false} ReachedIsLoaded(m: Machine, loader: Loader, installed: seq<Path>, read: seq<Path>, k: nat)
    requires ReadInTurn(m, loader, installed, read) && k < |read|
    ensures exists length: nat :: LoadedFirst(m, loader, installed, read[k], length)
  {
    hide FirstSpellings, Queued, FoundPaths, Answers;
    if read[k] in installed {
      assert LoadedFirst(m, loader, installed, read[k], 0);
    } else {
      assert FoundBefore(m, loader, read, k, read[k]);
      var i :| 0 <= i < k && read[k] in FoundPaths(Answers(m, loader, read[i]));
      ReachedIsLoaded(m, loader, installed, read, i);
      var length: nat :| LoadedFirst(m, loader, installed, read[i], length);
      ReachedIsRead(m, loader, installed, read, read[i]);
      assert LoadedFirst(m, loader, installed, read[k], length + 1);
    }
  }

  /** The file at `path` was reached, and under its first spelling it loads its families inside. */
  ghost predicate ReachedInside(m: Machine, loader: Loader, installed: seq<Path>, path: Path, inside: Path -> bool) {
    exists first :: Reached(m, loader, installed, first) && m.resolved(first) == m.resolved(path) && LoadsInside(m, loader, first, inside)
  }

  /** Reading in turn reads everything: what is installed, and what anything read finds. */
  lemma ReadInTurnIsComplete(m: Machine, loader: Loader, installed: seq<Path>, read: seq<Path>)
    requires ReadInTurn(m, loader, installed, read)
    ensures Complete(m, loader, read) && forall path :: path in installed ==> Covered(m, read, path)
  {
    hide FirstSpellings, FoundPaths, Answers, AllAnswers;
    var queued := Queued(m, loader, installed, read);
    forall path | path in queued ensures Covered(m, read, path) {
      FirstSpellingsAreFirst(m, queued, path);
      var i :| 0 <= i < |queued| && queued[i] == path;
      assert Covered(m, queued, path);
    }
    forall i, path | 0 <= i < |read| && path in FoundPaths(Answers(m, loader, read[i])) ensures Covered(m, read, path) {
      FoundIsQueued(m, loader, read, i, path);
    }
  }

  /** Whatever a chain leads to was read, under the spelling first reached. */
  lemma LoadedIsRead(m: Machine, loader: Loader, installed: seq<Path>, read: seq<Path>, path: Path, length: nat)
    requires ReadInTurn(m, loader, installed, read) && LoadedFirst(m, loader, installed, path, length)
    ensures Covered(m, read, path)
  {
    hide FirstSpellings, FoundPaths, Answers, Reached;
    ReadInTurnIsComplete(m, loader, installed, read);
    if length > 0 {
      var via, first :| LoadedFirst(m, loader, installed, via, length - 1) && m.resolved(first) == m.resolved(via)
                        && Reached(m, loader, installed, first) && path in FoundPaths(Answers(m, loader, first));
      ReachedIsRead(m, loader, installed, read, first);
    }
  }

  /** After a PASS every library that a chain leads to, each file by the spelling first reached, loads inside under that spelling. */
  lemma PassCoversEveryReachableLibrary(m: Machine, loader: Loader, installed: seq<Path>, libraries: seq<Provided>, read: seq<Path>,
                                        inside: Path -> bool, named: Path -> Release, path: Path, length: nat)
    requires ReadInTurn(m, loader, installed, read)
    requires Section(Findings(m, libraries, AllAnswers(m, loader, read), inside, named)) == Pass
    requires LoadedFirst(m, loader, installed, path, length)
    ensures ReachedInside(m, loader, installed, path, inside)
  {
    hide LoadsInside, Section, Findings, FoundPaths, Answers, AllAnswers, ReadInTurn, LoadedFirst, Reached;
    PassIsSound(m, loader, libraries, read, inside, named);
    LoadedIsRead(m, loader, installed, read, path, length);
    var i :| 0 <= i < |read| && m.resolved(read[i]) == m.resolved(path);
    ReachedIsRead(m, loader, installed, read, read[i]);
    assert LoadsInside(m, loader, read[i], inside);
  }

  // ---- Every spelling a process may load ----

  /** Two spellings of one file that a process may load say the same to the loader. */
  ghost predicate SpellingBlind(m: Machine, loader: Loader, installed: seq<Path>) {
    forall one, two, j: nat, k: nat ::
      LoadedFrom(m, loader, installed, one, j) && LoadedFrom(m, loader, installed, two, k) && m.resolved(one) == m.resolved(two) ==>
        m.elf(one) == m.elf(two)
  }

  lemma SameFileSameFinds(m: Machine, loader: Loader, one: Path, two: Path)
    requires m.elf(one) == m.elf(two)
    ensures FoundPaths(Answers(m, loader, one)) == FoundPaths(Answers(m, loader, two))
  {
    FoundPathsByFound(Answers(m, loader, one), Answers(m, loader, two));
  }

  lemma {:induction false} FoundPathsByFound(one: seq<Resolution>, two: seq<Resolution>)
    requires |one| == |two| && forall i :: 0 <= i < |one| ==> one[i].found == two[i].found
    ensures FoundPaths(one) == FoundPaths(two)
  {
    if one != [] {
      FoundPathsByFound(one[1..], two[1..]);
    }
  }

  /** Every library read is one a process may load. */
  lemma {:induction false} ReadIsLoaded(m: Machine, loader: Loader, installed: seq<Path>, read: seq<Path>, k: nat)
    requires Grounded(m, loader, installed, read) && k < |read|
    ensures exists length: nat :: LoadedFrom(m, loader, installed, read[k], length)
  {
    hide FoundPaths, Answers;
    if read[k] in installed {
      assert LoadedFrom(m, loader, installed, read[k], 0);
    } else {
      assert FoundBefore(m, loader, read, k, read[k]);
      var i :| 0 <= i < k && read[k] in FoundPaths(Answers(m, loader, read[i]));
      ReadIsLoaded(m, loader, installed, read, i);
      var length: nat :| LoadedFrom(m, loader, installed, read[i], length);
      assert LoadedFrom(m, loader, installed, read[k], length + 1);
    }
  }

  /** A spelling a process may load says what the one read says. */
  lemma SaysTheSame(m: Machine, loader: Loader, installed: seq<Path>, read: seq<Path>, path: Path, length: nat) returns (i: nat)
    requires SpellingBlind(m, loader, installed) && Grounded(m, loader, installed, read)
    requires LoadedFrom(m, loader, installed, path, length) && Covered(m, read, path)
    ensures i < |read| && m.resolved(read[i]) == m.resolved(path) && m.elf(read[i]) == m.elf(path)
  {
    hide LoadedFrom, Grounded;
    i :| 0 <= i < |read| && m.resolved(read[i]) == m.resolved(path);
    ReadIsLoaded(m, loader, installed, read, i);
    var k: nat :| LoadedFrom(m, loader, installed, read[i], k);
  }

  lemma {:induction false} ReachableIsRead(m: Machine, loader: Loader, installed: seq<Path>, read: seq<Path>, path: Path, length: nat)
    requires SpellingBlind(m, loader, installed) && ReadInTurn(m, loader, installed, read)
    requires LoadedFrom(m, loader, installed, path, length)
    ensures Covered(m, read, path)
    decreases length
  {
    hide SpellingBlind, Covered, FoundPaths, Answers, FirstSpellings, Grounded;
    ReadInTurnIsComplete(m, loader, installed, read);
    if length > 0 {
      var via :| LoadedFrom(m, loader, installed, via, length - 1) && path in FoundPaths(Answers(m, loader, via));
      ReachableIsRead(m, loader, installed, read, via, length - 1);
      var i := SaysTheSame(m, loader, installed, read, via, length - 1);
      SameFileSameFinds(m, loader, read[i], via);
    }
  }

  /** Where two spellings a process may load never differ to the loader, the same of every spelling it may load. */
  lemma PassCoversEverySpelling(m: Machine, loader: Loader, installed: seq<Path>, libraries: seq<Provided>, read: seq<Path>,
                                inside: Path -> bool, named: Path -> Release, path: Path, length: nat)
    requires SpellingBlind(m, loader, installed) && ReadInTurn(m, loader, installed, read)
    requires Section(Findings(m, libraries, AllAnswers(m, loader, read), inside, named)) == Pass
    requires LoadedFrom(m, loader, installed, path, length)
    ensures LoadsInside(m, loader, path, inside)
  {
    hide Section, Findings, FoundPaths, Answers, AllAnswers, SpellingBlind, LoadedFrom, FirstSpellings, Grounded;
    PassIsSound(m, loader, libraries, read, inside, named);
    ReachableIsRead(m, loader, installed, read, path, length);
    var i := SaysTheSame(m, loader, installed, read, path, length);
    assert LoadsInside(m, loader, read[i], inside);
  }

  // ---- Why spelling matters ----

  const NO_RULES := Loader([], map[], [])

  /** `l`, linked in two directories, looks for `k` beside the spelling it was found under; only one of them has it. */
  const TWO_SPELLINGS := Machine(
    (path: Path) => path in {"a/l", "b/l", "a/k", "c"},
    (path: Path) => if path == "b/l" then "a/l" else path,
    (path: Path) => if path == "c" then Elf(["l"], [], [], ["b"])
                    else if path == "a/l" then Elf(["k"], [], [], ["a"])
                    else if path == "b/l" then Elf(["k"], [], [], ["b"])
                    else Elf([], [], [], []),
    (soname: string) => Some("cuda"),
    {"a/l", "a/k", "c"})

  /** What a library that links one name and has one search directory is answered. */
  lemma OneAnswer(path: Path, soname: string, directory: Path)
    requires TWO_SPELLINGS.elf(path) == Elf([soname], [], [], [directory])
    ensures var place := Found(directory + "/" + soname, Runpath);
            Answers(TWO_SPELLINGS, NO_RULES, path)
            == [Resolution(soname, path, if TWO_SPELLINGS.present(place.path) then Some(place) else None, true)]
  {
    var m, elf, place := TWO_SPELLINGS, TWO_SPELLINGS.elf(path), Found(directory + "/" + soname, Runpath);
    assert Places(NO_RULES, soname, elf) == [place];
    assert [place][1..] == [] && FirstPresent(m, [place]) == if m.present(place.path) then Some(place) else None;
    assert OfFamilies(m, [soname]) == [soname] by { assert [soname][1..] == []; }
  }

  lemma NoAnswer(path: Path)
    requires TWO_SPELLINGS.elf(path) == Elf([], [], [], [])
    ensures Answers(TWO_SPELLINGS, NO_RULES, path) == []
  {
  }

  lemma FoundPathsOfOne(answer: Resolution)
    ensures FoundPaths([answer]) == if answer.found.Some? then [answer.found.value.path] else []
  {
    assert [answer][1..] == [];
  }

  const INSTALLED: seq<Path> := ["a/l", "c"]
  const READ: seq<Path> := ["a/l", "c", "a/k"]

  /** What each file read is answered. */
  lemma EachAnswer()
    ensures Answers(TWO_SPELLINGS, NO_RULES, "a/l") == [Resolution("k", "a/l", Some(Found("a/k", Runpath)), true)]
    ensures Answers(TWO_SPELLINGS, NO_RULES, "c") == [Resolution("l", "c", Some(Found("b/l", Runpath)), true)]
    ensures Answers(TWO_SPELLINGS, NO_RULES, "a/k") == []
  {
    hide Answers;
    assert "a" + "/" + "k" == "a/k" && "b" + "/" + "l" == "b/l";
    OneAnswer("a/l", "k", "a");
    OneAnswer("c", "l", "b");
    NoAnswer("a/k");
  }

  lemma NothingClashes()
    ensures Clean(AllAnswers(TWO_SPELLINGS, NO_RULES, READ), _ => true)
  {
    hide Answers;
    EachAnswer();
    assert READ[..2] == ["a/l", "c"] && READ[..2][..1] == ["a/l"] && ["a/l"][..0] == [];
    assert AllAnswers(TWO_SPELLINGS, NO_RULES, ["a/l"]) == Answers(TWO_SPELLINGS, NO_RULES, "a/l");
  }

  lemma EachIsFound()
    ensures FoundPaths(Answers(TWO_SPELLINGS, NO_RULES, "a/l")) == ["a/k"]
    ensures FoundPaths(Answers(TWO_SPELLINGS, NO_RULES, "c")) == ["b/l"]
    ensures FoundPaths(Answers(TWO_SPELLINGS, NO_RULES, "a/k")) == []
  {
    hide Answers, FoundPaths;
    EachAnswer();
    FoundPathsOfOne(Resolution("k", "a/l", Some(Found("a/k", Runpath)), true));
    FoundPathsOfOne(Resolution("l", "c", Some(Found("b/l", Runpath)), true));
    NothingFound();
  }

  /** What the queue held, in its order: `l` comes first by the spelling beside `k`. */
  lemma EverythingIsQueued()
    ensures Queued(TWO_SPELLINGS, NO_RULES, INSTALLED, READ) == ["a/l", "c", "a/k", "b/l"]
  {
    hide Answers, FoundPaths;
    EachIsFound();
    var one, two, three := Answers(TWO_SPELLINGS, NO_RULES, "a/l"), Answers(TWO_SPELLINGS, NO_RULES, "c"), Answers(TWO_SPELLINGS, NO_RULES, "a/k");
    assert READ[..2] == ["a/l", "c"] && READ[..2][..1] == ["a/l"] && ["a/l"][..0] == [];
    assert AllAnswers(TWO_SPELLINGS, NO_RULES, ["a/l"]) == one;
    assert AllAnswers(TWO_SPELLINGS, NO_RULES, READ) == one + two + three;
    FoundPathsAppend(one + two, three);
    FoundPathsAppend(one, two);
    assert ["a/k"] + ["b/l"] + [] == ["a/k", "b/l"] && INSTALLED + ["a/k", "b/l"] == ["a/l", "c", "a/k", "b/l"];
  }

  lemma EverythingIsRead()
    ensures ReadInTurn(TWO_SPELLINGS, NO_RULES, INSTALLED, READ)
  {
    hide Answers, FoundPaths, AllAnswers, Queued, FirstSpellings;
    EverythingIsQueued();
    EachIsSpelled();
    EachIsFound();
    assert READ[2] in FoundPaths(Answers(TWO_SPELLINGS, NO_RULES, READ[0]));
    assert FoundBefore(TWO_SPELLINGS, NO_RULES, READ, 2, READ[2]);
  }

  lemma RealFiles()
    ensures TWO_SPELLINGS.resolved("a/l") == "a/l" == TWO_SPELLINGS.resolved("b/l")
    ensures TWO_SPELLINGS.resolved("c") == "c" && TWO_SPELLINGS.resolved("a/k") == "a/k"
    ensures "a/l" != "c" && "a/l" != "a/k" && "c" != "a/k"
  {
    assert "a/l"[2] != "a/k"[2] && |"c"| == 1;
  }

  lemma EachIsSpelled()
    ensures FirstSpellings(TWO_SPELLINGS, ["a/l", "c", "a/k", "b/l"]) == READ
  {
    hide FirstSpellings, TWO_SPELLINGS;
    var m := TWO_SPELLINGS;
    RealFiles();
    assert FirstSpellings(m, []) == [] by { NothingSpelled(m); }
    assert FirstSpellings(m, ["a/l"]) == ["a/l"] by { FirstSpellingsNext(m, [], "a/l"); assert [] + ["a/l"] == ["a/l"]; }
    assert FirstSpellings(m, ["a/l", "c"]) == ["a/l", "c"] by {
      FirstSpellingsNext(m, ["a/l"], "c");
      assert ["a/l"] + ["c"] == ["a/l", "c"];
    }
    assert FirstSpellings(m, READ) == READ by {
      FirstSpellingsNext(m, ["a/l", "c"], "a/k");
      assert ["a/l", "c"] + ["a/k"] == READ;
    }
    FirstSpellingsNext(m, READ, "b/l");
    assert READ + ["b/l"] == ["a/l", "c", "a/k", "b/l"];
    assert m.resolved(READ[0]) == m.resolved("b/l");
  }

  lemma NothingSpelled(m: Machine)
    ensures FirstSpellings(m, []) == []
  {
  }

  /** Everything was read in turn and nothing clashes, and yet a process that loads `c` gets the other `l`, which finds no `k`. */
  lemma OtherSpellingIsLeftOut()
    ensures ReadInTurn(TWO_SPELLINGS, NO_RULES, INSTALLED, READ) && Clean(AllAnswers(TWO_SPELLINGS, NO_RULES, READ), _ => true)
    ensures LoadedFrom(TWO_SPELLINGS, NO_RULES, INSTALLED, "b/l", 1) && !LoadsInside(TWO_SPELLINGS, NO_RULES, "b/l", _ => true)
  {
    hide Answers, FoundPaths, LoadsInside, Clean, AllAnswers, ReadInTurn;
    NothingClashes();
    EverythingIsRead();
    EachIsFound();
    assert LoadedFrom(TWO_SPELLINGS, NO_RULES, INSTALLED, "c", 0);
    MissesBesideB();
  }

  lemma NothingFound()
    ensures FoundPaths([]) == []
  {
  }

  lemma MissesBesideB()
    ensures !LoadsInside(TWO_SPELLINGS, NO_RULES, "b/l", _ => true)
  {
    var elf := TWO_SPELLINGS.elf("b/l");
    var place := Found("b" + "/" + "k", Runpath);
    assert Places(NO_RULES, "k", elf) == [place] && "b" + "/" + "k" == "b/k";
    assert FirstPresent(TWO_SPELLINGS, [place]) == None;
    assert "k" in elf.needed;
    OneByPrecedence(TWO_SPELLINGS, NO_RULES, "k", elf, None);
  }

  /**
   The whole audit of an environment whose packages installed `libraries` and, beside them, `others`.

   What it read is what a process can reach, each file under its first spelling. PASS is exactly no clash
   in that, releases that agree and one CUDA major, and means that every library a chain leads to loads
   its families from inside the environment.
   */
  method Audit(m: Machine, loader: Loader, libraries: seq<Provided>, others: seq<Path>, inside: Path -> bool, named: Path -> Release)
    returns (verdict: Verdict, read: seq<Path>)
    requires Finite(m) && forall path :: path in PathsOf(libraries) + others ==> m.present(path)
    ensures OncePerFile(m, read) && ReadInTurn(m, loader, PathsOf(libraries) + others, read)
    ensures forall path :: Reached(m, loader, PathsOf(libraries) + others, path) <==> path in read
    ensures verdict == Pass <==> Clean(AllAnswers(m, loader, read), inside) && FamiliesAgree(libraries) && MajorsAgree(libraries)
    ensures verdict == Pass ==>
              forall path, length: nat :: LoadedFirst(m, loader, PathsOf(libraries) + others, path, length) ==>
                ReachedInside(m, loader, PathsOf(libraries) + others, path, inside)
  {
    hide Section, Findings, AllAnswers, FamiliesAgree, MajorsAgree, Complete, OncePerFile, LoadedFirst, ReachedInside, Reached, ReadInTurn;
    var installed := PathsOf(libraries) + others;
    var resolutions;
    resolutions, read := Resolutions(m, loader, installed);
    forall path ensures Reached(m, loader, installed, path) <==> path in read {
      ReachedIsRead(m, loader, installed, read, path);
    }
    verdict := Section(Findings(m, libraries, resolutions, inside, named));
    PassesExactlyWhenClean(m, libraries, resolutions, inside, named);
    if verdict == Pass {
      forall path, length: nat | LoadedFirst(m, loader, installed, path, length)
        ensures ReachedInside(m, loader, installed, path, inside)
      {
        PassCoversEveryReachableLibrary(m, loader, installed, libraries, read, inside, named, path, length);
      }
    }
  }

  function PathsOf(libraries: seq<Provided>): seq<Path> {
    seq(|libraries|, i requires 0 <= i < |libraries| => libraries[i].path)
  }
}
