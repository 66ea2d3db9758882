/** Which compiled extensions a target environment records for an import name, read off its installed distributions. */
module InstalledExtensions {
  import opened Text
  import opened ImportWalk

  /** A file a distribution recorded: its path under the site it is installed in, and where in the workspace it leads, None when outside. */
  datatype Entry = Entry(path: Path, at: Option<Path>)

  /** declared: the names its `top_level.txt` gives, empty when there is none. */
  datatype Distribution = Distribution(name: string, declared: seq<string>, record: seq<Entry>)

  /**
   distributions: in the order of their names.
   suffixes: those an import strips from a file name, the longest first.
   fold: `str.casefold`.
   */
  datatype Environment = Environment(distributions: seq<Distribution>, suffixes: seq<string>, fold: string -> string)

  predicate EndsWith(text: string, suffix: string) {
    |suffix| <= |text| && text[|text| - |suffix|..] == suffix
  }

  /** `getmodulename`: a file's name without the first suffix it ends with. */
  function ModuleName(file: string, suffixes: seq<string>): Option<string> {
    if suffixes == [] then None
    else if EndsWith(file, suffixes[0]) then Some(file[..|file| - |suffixes[0]|])
    else ModuleName(file, suffixes[1..])
  }

  /** `_record_root`: the top-level name a recorded path provides, if any. */
  function RecordRoot(path: Path, suffixes: seq<string>): Option<string> {
    if path == [] || ".." in path || EndsWith(path[0], ".dist-info") then None
    else if |path| > 1 then Some(path[0])
    else ModuleName(path[0], suffixes)
  }

  /** `_import_roots`: the declared names, or those the record provides. */
  function ImportRoots(d: Distribution, suffixes: seq<string>): set<string> {
    if d.declared != [] then set name | name in d.declared
    else
      set i | 0 <= i < |d.record| && RecordRoot(d.record[i].path, suffixes).Some? && RecordRoot(d.record[i].path, suffixes).value != ""
        :: RecordRoot(d.record[i].path, suffixes).value
  }

  predicate IsExtension(entry: Entry) {
    entry.path != [] &&
    var file := entry.path[|entry.path| - 1];
    file[|Stem(file)|..] in {".pyd", ".so"}
  }

  /** `_recorded`: the extensions among a distribution's files, in their order. */
  function ExtensionsOf(record: seq<Entry>): (extensions: seq<Entry>)
    ensures forall entry :: entry in extensions <==> entry in record && IsExtension(entry)
  {
    if record == [] then []
    else (if IsExtension(record[0]) then [record[0]] else []) + ExtensionsOf(record[1..])
  }

  /** The distribution provides `name`, by what it declares or recorded. */
  predicate Provides(env: Environment, d: Distribution, name: string) {
    name in ImportRoots(d, env.suffixes)
  }

  /** The distribution is itself called `name`. */
  predicate CalledAfter(env: Environment, d: Distribution, name: string) {
    env.fold(d.name) == env.fold(name)
  }

  /** The distribution `name` maps to: the first that provides it, else the first called so. */
  function Claimant(env: Environment, name: string): Option<Distribution> {
    var provider := First(env.distributions, Providing(env, name));
    if provider.Some? then provider else First(env.distributions, Calling(env, name))
  }

  function Providing(env: Environment, name: string): Distribution -> bool {
    (d: Distribution) => Provides(env, d, name)
  }

  function Calling(env: Environment, name: string): Distribution -> bool {
    (d: Distribution) => CalledAfter(env, d, name)
  }

  function Extensions(env: Environment, name: string): seq<Entry> {
    var claimant := Claimant(env, name);
    if claimant.None? then [] else ExtensionsOf(claimant.value.record)
  }

  /** `recorded_extensions`: one pass for a provider, then one for a namesake. */
  method RecordedExtensions(env: Environment, name: string) returns (extensions: seq<Entry>)
    ensures extensions == Extensions(env, name)
  {
    for i := 0 to |env.distributions|
      invariant First(env.distributions, Providing(env, name)) == First(env.distributions[i..], Providing(env, name))
    {
      assert env.distributions[i..][1..] == env.distributions[i + 1..];
      if Provides(env, env.distributions[i], name) {
        return ExtensionsOf(env.distributions[i].record);
      }
    }
    for i := 0 to |env.distributions|
      invariant First(env.distributions, Calling(env, name)) == First(env.distributions[i..], Calling(env, name))
    {
      assert env.distributions[i..][1..] == env.distributions[i + 1..];
      if CalledAfter(env, env.distributions[i], name) {
        return ExtensionsOf(env.distributions[i].record);
      }
    }
    return [];
  }

  /** Some distribution provides `name` or is called so. */
  ghost predicate Claimed(env: Environment, name: string) {
    exists i :: 0 <= i < |env.distributions| && (Provides(env, env.distributions[i], name) || CalledAfter(env, env.distributions[i], name))
  }

  /** A name nothing claims has no extensions; one that is claimed has its claimant's. */
  lemma ExtensionsNeedAClaim(env: Environment, name: string)
    ensures Claimant(env, name).Some? <==> Claimed(env, name)
    ensures !Claimed(env, name) ==> Extensions(env, name) == []
  {
    var provider, namesake := Providing(env, name), Calling(env, name);
    if i :| 0 <= i < |env.distributions| && Provides(env, env.distributions[i], name) {
      assert provider(env.distributions[i]);
    }
    if i :| 0 <= i < |env.distributions| && CalledAfter(env, env.distributions[i], name) {
      assert namesake(env.distributions[i]);
    }
  }

  // ---- The same over the files and names themselves ----

  /** A lone recorded file imports as `name`: the name and the first of the suffixes it ends with. */
  ghost predicate LoneImportsAs(file: string, name: string, suffixes: seq<string>) {
    exists i :: 0 <= i < |suffixes| && file == name + suffixes[i] && forall j :: 0 <= j < i ==> !EndsWith(file, suffixes[j])
  }

  /** A recorded path gives `name`: as its top directory, or as a lone module; one outside the site or of the metadata gives none. */
  ghost predicate PathGives(path: Path, name: string, suffixes: seq<string>) {
    && path != [] && ".." !in path && !EndsWith(path[0], ".dist-info")
    && (if |path| > 1 then path[0] == name else LoneImportsAs(path[0], name, suffixes))
  }

  /** A distribution gives what it declares, and only where it declares nothing what its record does. */
  ghost predicate Gives(env: Environment, d: Distribution, name: string) {
    if d.declared != [] then name in d.declared
    else name != "" && exists i :: 0 <= i < |d.record| && PathGives(d.record[i].path, name, env.suffixes)
  }

  lemma {:induction false} ModuleNameExactly(file: string, suffixes: seq<string>, name: string)
    ensures ModuleName(file, suffixes) == Some(name) <==> LoneImportsAs(file, name, suffixes)
  {
    if suffixes != [] {
      var rest := suffixes[1..];
      ModuleNameExactly(file, rest, name);
      assert forall i :: 0 <= i < |rest| ==> rest[i] == suffixes[i + 1];
      if EndsWith(file, suffixes[0]) {
        var stem := file[..|file| - |suffixes[0]|];
        assert file == stem + suffixes[0];
        if file == name + suffixes[0] {
          assert name == stem;
        }
      } else {
        if i :| 0 <= i < |rest| && file == name + rest[i] && forall j :: 0 <= j < i ==> !EndsWith(file, rest[j]) {
          assert file == name + suffixes[i + 1];
        }
        assert file != name + suffixes[0];
      }
    }
  }

  lemma ProvidesExactly(env: Environment, d: Distribution, name: string)
    ensures Provides(env, d, name) <==> Gives(env, d, name)
  {
    if d.declared == [] {
      forall i | 0 <= i < |d.record|
        ensures RecordRoot(d.record[i].path, env.suffixes) == Some(name) <==> PathGives(d.record[i].path, name, env.suffixes)
      {
        if |d.record[i].path| == 1 {
          ModuleNameExactly(d.record[i].path[0], env.suffixes, name);
        }
      }
    }
  }

  /** Distribution `i` is the one asked for `name`: the first that gives it, and where none does the first called so. */
  ghost predicate IsClaimant(env: Environment, name: string, i: int) {
    && 0 <= i < |env.distributions|
    && if Gives(env, env.distributions[i], name) then forall j :: 0 <= j < i ==> !Gives(env, env.distributions[j], name)
       else
         && env.fold(env.distributions[i].name) == env.fold(name)
         && (forall j :: 0 <= j < |env.distributions| ==> !Gives(env, env.distributions[j], name))
         && forall j :: 0 <= j < i ==> env.fold(env.distributions[j].name) != env.fold(name)
  }

  lemma ClaimantExactly(env: Environment, name: string, i: int)
    requires IsClaimant(env, name, i)
    ensures Claimant(env, name) == Some(env.distributions[i])
  {
    hide Gives, Provides, First;
    forall k | 0 <= k < |env.distributions| ensures Provides(env, env.distributions[k], name) <==> Gives(env, env.distributions[k], name) {
      ProvidesExactly(env, env.distributions[k], name);
    }
    var provider, namesake := Providing(env, name), Calling(env, name);
    if Gives(env, env.distributions[i], name) {
      assert provider(env.distributions[i]);
      FirstIs(env.distributions, provider, i);
    } else {
      assert forall k :: 0 <= k < |env.distributions| ==> !provider(env.distributions[k]);
      assert namesake(env.distributions[i]);
      FirstIs(env.distributions, namesake, i);
    }
  }

  lemma FirstIs(distributions: seq<Distribution>, wanted: Distribution -> bool, i: nat)
    requires i < |distributions| && wanted(distributions[i]) && forall j :: 0 <= j < i ==> !wanted(distributions[j])
    ensures First(distributions, wanted) == Some(distributions[i])
  {
    var k :| 0 <= k < |distributions| && First(distributions, wanted) == Some(distributions[k]) && wanted(distributions[k])
             && forall j :: 0 <= j < k ==> !wanted(distributions[j]);
  }

  /** A file that something other than dots precedes `.so` or `.pyd` in. */
  ghost predicate NamedAsExtension(file: string) {
    exists stem :: Stemmed(stem) && (file == stem + "." + "so" || file == stem + "." + "pyd")
  }

  lemma ExtensionExactly(entry: Entry)
    ensures IsExtension(entry) <==> entry.path != [] && NamedAsExtension(entry.path[|entry.path| - 1])
  {
    if entry.path != [] {
      var file := entry.path[|entry.path| - 1];
      assert "." + "so" == ".so" && "." + "pyd" == ".pyd";
      if IsExtension(entry) {
        var stem := Stem(file);
        assert file == stem + file[|stem|..];
        StemTakesASuffix(file);
        assert file == stem + "." + "so" || file == stem + "." + "pyd";
      }
      if stem :| Stemmed(stem) && (file == stem + "." + "so" || file == stem + "." + "pyd") {
        if file == stem + "." + "so" {
          StemOfSuffix(stem, "so");
          assert file[|stem|..] == "." + "so";
        } else {
          StemOfSuffix(stem, "pyd");
          assert file[|stem|..] == "." + "pyd";
        }
      }
    }
  }

  /** What is recorded for a name: of its claimant's files those named as extensions, and nothing where nothing claims it. */
  lemma RecordedExactly(env: Environment, name: string, entry: Entry)
    ensures entry in Extensions(env, name) <==>
              exists i :: IsClaimant(env, name, i) && entry in env.distributions[i].record
                          && entry.path != [] && NamedAsExtension(entry.path[|entry.path| - 1])
  {
    hide NamedAsExtension, IsExtension, Claimant, Gives;
    ExtensionExactly(entry);
    if i :| IsClaimant(env, name, i) && entry in env.distributions[i].record {
      ClaimantExactly(env, name, i);
    }
    if Claimant(env, name).Some? {
      var i := HasClaimant(env, name);
      ClaimantExactly(env, name, i);
    }
  }

  lemma HasClaimant(env: Environment, name: string) returns (i: nat)
    requires Claimant(env, name).Some?
    ensures IsClaimant(env, name, i)
  {
    hide Gives, Provides, First;
    forall k | 0 <= k < |env.distributions| ensures Provides(env, env.distributions[k], name) <==> Gives(env, env.distributions[k], name) {
      ProvidesExactly(env, env.distributions[k], name);
    }
    var provider, namesake := Providing(env, name), Calling(env, name);
    assert forall k :: 0 <= k < |env.distributions| ==> (provider(env.distributions[k]) <==> Provides(env, env.distributions[k], name));
    if First(env.distributions, provider).Some? {
      i := PlaceOfFirst(env.distributions, provider);
    } else {
      i := PlaceOfFirst(env.distributions, namesake);
      assert forall k :: 0 <= k < |env.distributions| ==> !provider(env.distributions[k]);
    }
  }

  lemma PlaceOfFirst(distributions: seq<Distribution>, wanted: Distribution -> bool) returns (i: nat)
    requires First(distributions, wanted).Some?
    ensures i < |distributions| && wanted(distributions[i]) && forall j :: 0 <= j < i ==> !wanted(distributions[j])
  {
    i :| 0 <= i < |distributions| && First(distributions, wanted) == Some(distributions[i]) && wanted(distributions[i])
         && forall j :: 0 <= j < i ==> !wanted(distributions[j]);
  }
}
