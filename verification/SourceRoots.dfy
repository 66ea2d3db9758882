/** Workspace roots as text, and the listing of a workspace's nested repositories narrowed to them. */
module SourceRoots {
  import opened Text

  /** `text.startswith(prefix)`. */
  predicate StartsWith(text: string, prefix: string) {
    prefix <= text
  }

  /** `path` is `root` or lies below it. */
  predicate Under(path: string, root: string) {
    path == root || StartsWith(path, root + "/")
  }

  predicate UnderAny(path: string, roots: seq<string>) {
    exists i :: 0 <= i < |roots| && Under(path, roots[i])
  }

  /** `root.strip("/")`. */
  function Strip(root: string): string {
    if root == "" then ""
    else if root[0] == '/' then Strip(root[1..])
    else if root[|root| - 1] == '/' then Strip(root[..|root| - 1])
    else root
  }

  predicate AllSlashes(text: string) {
    forall c :: c in text ==> c == '/'
  }

  /** Stripping takes slashes off both ends, and all of them. */
  lemma {:induction false} StripsSlashes(root: string) returns (before: string, after: string)
    ensures root == before + Strip(root) + after && AllSlashes(before) && AllSlashes(after)
    ensures Strip(root) != "" ==> Strip(root)[0] != '/' && Strip(root)[|Strip(root)| - 1] != '/'
  {
    before, after := "", "";
    if root != "" {
      if root[0] == '/' {
        before, after := StripsSlashes(root[1..]);
        before := ['/'] + before;
        assert root == ['/'] + root[1..];
      } else if root[|root| - 1] == '/' {
        before, after := StripsSlashes(root[..|root| - 1]);
        after := after + ['/'];
        assert root == root[..|root| - 1] + ['/'];
      }
    }
  }

  /** Lying under a root, as text, is lying under it part by part. */
  lemma UnderIsByParts(path: string, root: string)
    ensures Under(path, root) <==> Split(root, '/') <= Split(path, '/')
  {
    var parts, roots := Split(path, '/'), Split(root, '/');
    if StartsWith(path, root + "/") {
      var rest := path[|root| + 1..];
      assert path == root + ['/'] + rest;
      SplitAt(root, rest, '/');
    }
    if roots <= parts {
      JoinSplit(path, '/');
      JoinSplit(root, '/');
      if |roots| == |parts| {
        assert roots == parts;
      } else {
        var rest := parts[|roots|..];
        assert parts == roots + rest;
        JoinAt(roots, rest, '/');
        assert path == root + ['/'] + Join(rest, '/');
        assert path[..|root| + 1] == root + "/";
      }
    }
  }

  function Spelled(roots: seq<string>): (spelled: seq<string>)
    ensures |spelled| == |roots| && forall i :: 0 <= i < |roots| ==> spelled[i] == Strip(roots[i])
  {
    seq(|roots|, i requires 0 <= i < |roots| => Strip(roots[i]))
  }

  /** The two spellings of the whole workspace. */
  predicate Whole(root: string) {
    root == "" || root == "."
  }

  /** Another root holds this one. */
  predicate HeldByAnother(spelled: seq<string>, root: string) {
    exists k :: 0 <= k < |spelled| && spelled[k] != root && (Whole(spelled[k]) || StartsWith(root, spelled[k] + "/"))
  }

  function KeptFrom(spelled: seq<string>, i: nat): seq<string>
    requires i <= |spelled|
    decreases |spelled| - i
  {
    if i == |spelled| then []
    else (if spelled[i] in spelled[..i] || HeldByAnother(spelled, spelled[i]) then [] else [spelled[i]]) + KeptFrom(spelled, i + 1)
  }

  /** `outermost`: each spelling once, where it first comes, unless another root holds it. */
  function Outermost(roots: seq<string>): seq<string> {
    KeptFrom(Spelled(roots), 0)
  }

  /** What a walk from the roots visits: everything when one of them is the workspace itself. */
  ghost predicate Reaches(roots: seq<string>, path: string) {
    exists i :: 0 <= i < |roots| && (Whole(roots[i]) || Under(path, roots[i]))
  }

  lemma {:induction false} KeptHolds(spelled: seq<string>, i: nat, root: string)
    requires i <= |spelled|
    ensures root in KeptFrom(spelled, i) <==> root in spelled[i..] && root !in spelled[..i] && !HeldByAnother(spelled, root)
    decreases |spelled| - i
  {
    hide HeldByAnother;
    if i < |spelled| {
      KeptHolds(spelled, i + 1, root);
      assert spelled[i..] == [spelled[i]] + spelled[i + 1..] && spelled[..i + 1] == spelled[..i] + [spelled[i]];
    }
  }

  lemma {:induction false} KeptOnce(spelled: seq<string>, i: nat)
    requires i <= |spelled|
    ensures forall k, l :: 0 <= k < l < |KeptFrom(spelled, i)| ==> KeptFrom(spelled, i)[k] != KeptFrom(spelled, i)[l]
    decreases |spelled| - i
  {
    if i < |spelled| {
      KeptOnce(spelled, i + 1);
      KeptHolds(spelled, i + 1, spelled[i]);
      assert spelled[i] in spelled[..i + 1];
    }
  }

  lemma OutermostHolds(roots: seq<string>, root: string)
    ensures root in Outermost(roots) <==> root in Spelled(roots) && !HeldByAnother(Spelled(roots), root)
  {
    var spelled := Spelled(roots);
    KeptHolds(spelled, 0, root);
    assert spelled[0..] == spelled;
  }

  /** The kept roots stand in the order their spellings first come in. */
  lemma {:induction false} KeptInOrder(spelled: seq<string>, i: nat, k: nat, l: nat)
    requires i <= |spelled| && k < l < |KeptFrom(spelled, i)|
    ensures exists a, b :: i <= a < b < |spelled| && spelled[a] == KeptFrom(spelled, i)[k] && spelled[b] == KeptFrom(spelled, i)[l]
                           && spelled[a] !in spelled[..a] && spelled[b] !in spelled[..b]
    decreases |spelled| - i
  {
    var rest, kept := KeptFrom(spelled, i + 1), KeptFrom(spelled, i);
    if kept == rest {
      KeptInOrder(spelled, i + 1, k, l);
    } else {
      assert kept == [spelled[i]] + rest;
      var b := KeptStands(spelled, i + 1, l - 1);
      if k == 0 {
        assert kept[0] == spelled[i];
      } else {
        KeptInOrder(spelled, i + 1, k - 1, l - 1);
      }
    }
  }

  lemma {:induction false} KeptStands(spelled: seq<string>, i: nat, k: nat) returns (a: nat)
    requires i <= |spelled| && k < |KeptFrom(spelled, i)|
    ensures i <= a < |spelled| && spelled[a] == KeptFrom(spelled, i)[k] && spelled[a] !in spelled[..a]
    decreases |spelled| - i
  {
    var rest, kept := KeptFrom(spelled, i + 1), KeptFrom(spelled, i);
    if kept == rest {
      a := KeptStands(spelled, i + 1, k);
    } else if k == 0 {
      a := i;
    } else {
      a := KeptStands(spelled, i + 1, k - 1);
    }
  }

  /** No kept root lies under another, and none is kept twice. */
  lemma KeptRootsStandApart(roots: seq<string>)
    ensures forall i, j :: 0 <= i < |Outermost(roots)| && 0 <= j < |Outermost(roots)| && i != j ==>
              !Under(Outermost(roots)[i], Outermost(roots)[j])
  {
    var kept := Outermost(roots);
    KeptOnce(Spelled(roots), 0);
    forall i, j | 0 <= i < |kept| && 0 <= j < |kept| && i != j ensures !Under(kept[i], kept[j]) {
      OutermostHolds(roots, kept[i]);
      OutermostHolds(roots, kept[j]);
      assert kept[i] in kept && kept[j] in kept && kept[i] != kept[j];
      var k :| 0 <= k < |Spelled(roots)| && Spelled(roots)[k] == kept[j];
    }
  }

  /** Among roots none of which is the whole workspace, each lies under one that no other holds. */
  lemma {:induction false} HeldByAKeptOne(spelled: seq<string>, root: string)
    requires root in spelled && forall i :: 0 <= i < |spelled| ==> !Whole(spelled[i])
    ensures exists top :: top in spelled && !HeldByAnother(spelled, top) && Under(root, top)
    decreases |root|
  {
    if HeldByAnother(spelled, root) {
      var k :| 0 <= k < |spelled| && spelled[k] != root && StartsWith(root, spelled[k] + "/");
      HeldByAKeptOne(spelled, spelled[k]);
      var top :| top in spelled && !HeldByAnother(spelled, top) && Under(spelled[k], top);
      UnderIsTransitive(root, spelled[k], top);
    }
  }

  lemma UnderIsTransitive(path: string, root: string, top: string)
    requires Under(path, root) && Under(root, top)
    ensures Under(path, top)
  {
    if path != root && root != top {
      assert path[..|top| + 1] == root[..|top| + 1] == top + "/";
    }
  }

  /** A walk without version control loses nothing to the dropped roots, exactly when the workspace is not spelled both ways at once. */
  lemma OutermostKeepsTheReach(roots: seq<string>)
    ensures (forall path :: Reaches(Outermost(roots), path) <==> Reaches(Spelled(roots), path))
       <==> !("" in Spelled(roots) && "." in Spelled(roots))
  {
    var spelled, kept := Spelled(roots), Outermost(roots);
    if "" in spelled && "." in spelled {
      BothSpellings(roots);
    } else {
      forall path ensures Reaches(kept, path) <==> Reaches(spelled, path) {
        ReachKept(roots, path);
      }
    }
  }

  /** Both spellings of the workspace drop each other, and everything with them. */
  lemma BothSpellings(roots: seq<string>)
    requires "" in Spelled(roots) && "." in Spelled(roots)
    ensures Outermost(roots) == []
    ensures Reaches(Spelled(roots), "") && !Reaches(Outermost(roots), "")
  {
    var spelled := Spelled(roots);
    var i :| 0 <= i < |spelled| && spelled[i] == "";
    var j :| 0 <= j < |spelled| && spelled[j] == ".";
    forall root | root in spelled ensures HeldByAnother(spelled, root) {
      assert if root == "" then spelled[j] != root else spelled[i] != root;
    }
    if Outermost(roots) != [] {
      OutermostHolds(roots, Outermost(roots)[0]);
    }
  }

  lemma ReachKept(roots: seq<string>, path: string)
    requires !("" in Spelled(roots) && "." in Spelled(roots))
    ensures Reaches(Outermost(roots), path) <==> Reaches(Spelled(roots), path)
  {
    var spelled, kept := Spelled(roots), Outermost(roots);
    KeptIsSpelled(roots);
    if i :| 0 <= i < |kept| && (Whole(kept[i]) || Under(path, kept[i])) {
      var k :| 0 <= k < |spelled| && spelled[k] == kept[i];
    }
    if i :| 0 <= i < |spelled| && Whole(spelled[i]) {
      assert !HeldByAnother(spelled, spelled[i]);
      OutermostHolds(roots, spelled[i]);
      var k :| 0 <= k < |kept| && kept[k] == spelled[i];
    } else if i :| 0 <= i < |spelled| && Under(path, spelled[i]) {
      KeptOneHolds(roots, path, i);
      var k :| 0 <= k < |kept| && Under(path, kept[k]);
    }
  }

  lemma KeptIsSpelled(roots: seq<string>)
    ensures forall i :: 0 <= i < |Outermost(roots)| ==> Outermost(roots)[i] in Spelled(roots)
  {
    forall i | 0 <= i < |Outermost(roots)| ensures Outermost(roots)[i] in Spelled(roots) {
      OutermostHolds(roots, Outermost(roots)[i]);
    }
  }

  /** Where no root is the whole workspace, a path under a root is under a kept one. */
  lemma KeptOneHolds(roots: seq<string>, path: string, i: nat)
    requires i < |roots| && Under(path, Spelled(roots)[i])
    requires forall k :: 0 <= k < |roots| ==> !Whole(Spelled(roots)[k])
    ensures UnderAny(path, Outermost(roots))
  {
    var spelled, kept := Spelled(roots), Outermost(roots);
    HeldByAKeptOne(spelled, spelled[i]);
    var top :| top in spelled && !HeldByAnother(spelled, top) && Under(spelled[i], top);
    UnderIsTransitive(path, spelled[i], top);
    OutermostHolds(roots, top);
    var k :| 0 <= k < |kept| && kept[k] == top;
  }

  // ---- The same over a listing, which reads every root as text ----

  /** Every root that is the whole workspace holds `path`, as text. */
  predicate UnderEveryWhole(path: string, spelled: seq<string>) {
    forall i :: 0 <= i < |spelled| && Whole(spelled[i]) ==> Under(path, spelled[i])
  }

  /** A root that is the whole workspace drops all that are spelled otherwise, and is itself kept unless spelled both ways. */
  lemma WholeStandsAlone(roots: seq<string>, w: nat)
    requires w < |roots| && Whole(Spelled(roots)[w])
    ensures forall root :: root in Outermost(roots) ==> root == Spelled(roots)[w]
    ensures (forall i :: 0 <= i < |roots| && Whole(Spelled(roots)[i]) ==> Spelled(roots)[i] == Spelled(roots)[w])
       ==> Spelled(roots)[w] in Outermost(roots)
  {
    var spelled := Spelled(roots);
    forall root | root in Outermost(roots) ensures root == spelled[w] {
      OutermostHolds(roots, root);
      assert root != spelled[w] ==> HeldByAnother(spelled, root);
    }
    OutermostHolds(roots, spelled[w]);
  }

  /** As text, the kept roots hold exactly the paths that some root holds and every whole one does. */
  lemma KeptTextCovers(roots: seq<string>, path: string)
    ensures UnderAny(path, Outermost(roots)) <==> UnderAny(path, Spelled(roots)) && UnderEveryWhole(path, Spelled(roots))
  {
    var spelled, kept := Spelled(roots), Outermost(roots);
    KeptIsSpelled(roots);
    if i :| 0 <= i < |kept| && Under(path, kept[i]) {
      var k :| 0 <= k < |spelled| && spelled[k] == kept[i];
    }
    if w :| 0 <= w < |spelled| && Whole(spelled[w]) {
      WholeStandsAlone(roots, w);
      forall i | 0 <= i < |spelled| && UnderAny(path, kept) && Whole(spelled[i]) ensures Under(path, spelled[i]) {
        WholeStandsAlone(roots, i);
        var k :| 0 <= k < |kept| && Under(path, kept[k]);
        assert kept[k] in kept;
      }
      if UnderEveryWhole(path, spelled) {
        forall i | 0 <= i < |spelled| && Whole(spelled[i]) ensures spelled[i] == spelled[w] {
          OneTextIsWhole(path, spelled[i], spelled[w]);
        }
        var k :| 0 <= k < |kept| && kept[k] == spelled[w];
      }
    } else if i :| 0 <= i < |spelled| && Under(path, spelled[i]) {
      KeptOneHolds(roots, path, i);
    }
  }

  /** No path lies under both spellings of the workspace. */
  lemma OneTextIsWhole(path: string, one: string, two: string)
    requires Whole(one) && Whole(two) && Under(path, one) && Under(path, two)
    ensures one == two
  {
    StartsOf(path, one);
    StartsOf(path, two);
  }

  lemma StartsOf(path: string, root: string)
    requires Under(path, root)
    ensures path == root || path[0] == (root + "/")[0]
  {
  }

  /** A listing loses nothing to the dropped roots, exactly when every root lies, as text, under each that is the whole workspace. */
  lemma OutermostKeepsTheCover(roots: seq<string>)
    ensures (forall path :: UnderAny(path, Outermost(roots)) <==> UnderAny(path, Spelled(roots)))
       <==> forall j :: 0 <= j < |roots| ==> UnderEveryWhole(Spelled(roots)[j], Spelled(roots))
  {
    var spelled, kept := Spelled(roots), Outermost(roots);
    if forall j :: 0 <= j < |roots| ==> UnderEveryWhole(spelled[j], spelled) {
      forall path ensures UnderAny(path, kept) <==> UnderAny(path, spelled) {
        KeptTextCovers(roots, path);
        if j :| 0 <= j < |spelled| && Under(path, spelled[j]) {
          forall i | 0 <= i < |spelled| && Whole(spelled[i]) ensures Under(path, spelled[i]) {
            UnderIsTransitive(path, spelled[j], spelled[i]);
          }
        }
      }
    } else {
      var j :| 0 <= j < |roots| && !UnderEveryWhole(spelled[j], spelled);
      KeptTextCovers(roots, spelled[j]);
      assert Under(spelled[j], spelled[j]) && UnderAny(spelled[j], spelled);
    }
  }

  lemma OnlyWhole(roots: seq<string>, root: string)
    requires Whole(root) && root in Spelled(roots)
    requires forall i :: 0 <= i < |roots| && Whole(Spelled(roots)[i]) ==> Spelled(roots)[i] == root
    ensures Outermost(roots) == [root]
  {
    var w :| 0 <= w < |roots| && Spelled(roots)[w] == root;
    var kept := Outermost(roots);
    var second := if |kept| > 1 then kept[1] else "";
    assert |kept| > 1 ==> second in kept && kept[0] in kept;
    WholeStandsAlone(roots, w);
    KeptOnce(Spelled(roots), 0);
  }

  lemma ShortSpellings()
    ensures Spelled([".", "a"]) == [".", "a"]
  {
    assert Strip(".") == "." && Strip("a") == "a";
  }

  /** The workspace beside one of its directories: the directory goes, and nothing listed lies under what stays. */
  lemma WorkspaceBesideADirectory()
    ensures Outermost([".", "a"]) == ["."]
    ensures UnderAny("a/x", Spelled([".", "a"])) && !UnderAny("a/x", Outermost([".", "a"]))
  {
    hide Spelled, Outermost, Strip;
    ShortSpellings();
    OnlyWhole([".", "a"], ".");
    assert Under("a/x", [".", "a"][1]) by { assert "a" + "/" == "a/x"[..2]; }
    if Under("a/x", ".") {
      StartsOf("a/x", ".");
    }
  }

  /** A listing under the outermost roots holds every path a walk from all of them visits, exactly when none of them is the whole workspace. */
  lemma ListingReachesWhatAWalkDoes(roots: seq<string>)
    ensures (forall path :: UnderAny(path, Outermost(roots)) <==> Reaches(Spelled(roots), path))
       <==> forall i :: 0 <= i < |roots| ==> !Whole(Spelled(roots)[i])
  {
    var spelled := Spelled(roots);
    if i :| 0 <= i < |roots| && Whole(spelled[i]) {
      KeptTextCovers(roots, "a");
      assert !Under("a", spelled[i]) by {
        if Under("a", spelled[i]) {
          StartsOf("a", spelled[i]);
        }
      }
      assert Reaches(spelled, "a");
    } else {
      forall path ensures UnderAny(path, Outermost(roots)) <==> Reaches(spelled, path) {
        KeptTextCovers(roots, path);
      }
    }
  }

  /** The workspace alone: a walk visits `a`, a listing holds nothing of that name. */
  lemma WorkspaceListsNothing()
    ensures Outermost(["."]) == ["."] && Reaches(["."], "a") && !UnderAny("a", ["."])
  {
    hide Spelled, Outermost, Strip;
    assert Spelled(["."]) == ["."] by { DotIsSpelled(); }
    OnlyWhole(["."], ".");
    assert Whole(["."][0]);
    if Under("a", ".") {
      StartsOf("a", ".");
    }
  }

  lemma DotIsSpelled()
    ensures Spelled(["."]) == ["."]
  {
    assert Strip(".") == ".";
  }

  // ---- Narrowing a nested repository ----

  /** The roots strictly inside `repository`, by what is left of them there. */
  function Inside(repository: string, roots: seq<string>): seq<string> {
    if roots == [] then []
    else
      (if StartsWith(roots[0], repository + "/") then [roots[0][|repository| + 1..]] else []) + Inside(repository, roots[1..])
  }

  /** `_within`: the pathspecs that narrow a repository to the roots; none when a root holds it whole, None when no root reaches it. */
  function Within(repository: string, roots: seq<string>): Option<seq<string>> {
    if repository == "" then Some(roots)
    else if UnderAny(repository, roots) then Some([])
    else
      var inside := Inside(repository, roots);
      if inside == [] then None else Some(inside)
  }

  /** `_joined`. */
  function Joined(repository: string, path: string): string {
    if repository == "" then path else repository + "/" + path
  }

  /** A listing narrowed to `specs` shows `path`: no spec narrows nothing. */
  predicate Shown(specs: seq<string>, path: string) {
    specs == [] || UnderAny(path, specs)
  }

  lemma {:induction false} InsideHolds(repository: string, roots: seq<string>, spec: string)
    ensures spec in Inside(repository, roots) <==> exists i :: 0 <= i < |roots| && roots[i] == repository + "/" + spec
  {
    if roots != [] {
      InsideHolds(repository, roots[1..], spec);
      if StartsWith(roots[0], repository + "/") {
        assert roots[0] == repository + "/" + roots[0][|repository| + 1..];
      }
      if roots[0] == repository + "/" + spec {
        assert roots[0][..|repository| + 1] == repository + "/" && roots[0][|repository| + 1..] == spec;
      }
      if i :| 0 < i < |roots| && roots[i] == repository + "/" + spec {
        assert roots[1..][i - 1] == roots[i];
      }
      if i :| 0 <= i < |roots[1..]| && roots[1..][i] == repository + "/" + spec {
        assert roots[i + 1] == roots[1..][i];
      }
    }
  }

  lemma ShorterRootHolds(repository: string, path: string, root: string)
    requires Under(repository + "/" + path, root) && |root| <= |repository|
    ensures Under(repository, root)
  {
    var full := repository + "/" + path;
    assert full[..|root| + 1] == root + "/";
    if |root| == |repository| {
      assert root == full[..|root|] == repository;
    } else {
      assert repository[..|root| + 1] == full[..|root| + 1];
    }
  }

  /** A root above a path of the repository either holds the repository or lies inside it. */
  lemma RootsOfAPath(repository: string, path: string, root: string)
    requires Under(repository + "/" + path, root) && !Under(repository, root)
    ensures StartsWith(root, repository + "/") && Under(path, root[|repository| + 1..])
  {
    var full, slash := repository + "/" + path, |repository| + 1;
    if |root| <= |repository| {
      ShorterRootHolds(repository, path, root);
    } else {
      assert root[..slash] == full[..slash] == repository + "/";
      assert full[slash..] == path;
      if full != root {
        assert path[..|root| - slash + 1] == full[slash..|root| + 1] == (root + "/")[slash..];
      }
    }
  }

  lemma PathsUnderASpec(repository: string, path: string, spec: string)
    ensures Under(path, spec) ==> Under(repository + "/" + path, repository + "/" + spec)
  {
    if StartsWith(path, spec + "/") {
      assert (repository + "/" + path)[..|repository| + 1 + |spec| + 1] == repository + "/" + path[..|spec| + 1];
    }
  }

  /** A path of a nested repository lies under the roots exactly when the repository is asked and its pathspecs show the path. */
  lemma NarrowingIsExact(repository: string, roots: seq<string>, path: string)
    requires repository != ""
    ensures UnderAny(Joined(repository, path), roots)
       <==> Within(repository, roots).Some? && Shown(Within(repository, roots).value, path)
  {
    var full := repository + "/" + path;
    if UnderAny(repository, roots) {
      var i :| 0 <= i < |roots| && Under(repository, roots[i]);
      assert Under(full, repository);
      UnderIsTransitive(full, repository, roots[i]);
    } else {
      var inside := Inside(repository, roots);
      if i :| 0 <= i < |roots| && Under(full, roots[i]) {
        RootsOfAPath(repository, path, roots[i]);
        var spec := roots[i][|repository| + 1..];
        assert roots[i] == repository + "/" + spec;
        InsideHolds(repository, roots, spec);
        var k :| 0 <= k < |inside| && inside[k] == spec;
      }
      if k :| 0 <= k < |inside| && Under(path, inside[k]) {
        InsideHolds(repository, roots, inside[k]);
        var i :| 0 <= i < |roots| && roots[i] == repository + "/" + inside[k];
        PathsUnderASpec(repository, path, inside[k]);
      }
    }
  }

  /** For the workspace itself the same holds exactly when there are roots: none at all narrows nothing, though no path lies under it. */
  lemma NarrowingTheWorkspace(roots: seq<string>)
    ensures (forall path :: UnderAny(Joined("", path), roots) <==> Within("", roots).Some? && Shown(Within("", roots).value, path))
       <==> roots != []
  {
    if roots == [] {
      assert !UnderAny(Joined("", "a"), roots);
    }
  }

  // ---- Listing a workspace of nested repositories ----

  /** A nested repository where its parent links it. */
  datatype Link = Link(at: string, repo: Repository)

  /**
   One repository: what its index tracks, the untracked files it would call source, and the
   repositories nested in it.
   */
  datatype Repository = Repository(indexed: set<string>, others: set<string>, nested: seq<Link>)

  /** A repository where the walk found it in the workspace. */
  datatype Place = Place(at: string, repo: Repository)

  predicate LinkedAt(links: seq<Link>, path: string) {
    exists i :: 0 <= i < |links| && Under(path, links[i].at)
  }

  /** The specs that do not reach into a nested repository. */
  function Narrowed(specs: seq<string>, links: seq<Link>): seq<string> {
    if specs == [] then []
    else (if LinkedAt(links, specs[0]) then [] else [specs[0]]) + Narrowed(specs[1..], links)
  }

  /** `__repository`: everything its index tracks, and the untracked files its narrowed listing shows. */
  function FilesOf(place: Place, specs: seq<string>): set<string> {
    var narrowed := Narrowed(specs, place.repo.nested);
    (set path | path in place.repo.indexed :: Joined(place.at, path))
    + (set path | path in place.repo.others && (specs == [] || UnderAny(path, narrowed)) :: Joined(place.at, path))
  }

  function NestedIn(at: string, links: seq<Link>): seq<Place> {
    if links == [] then [] else [Place(Joined(at, links[0].at), links[0].repo)] + NestedIn(at, links[1..])
  }

  /** The next level: what is nested in the repositories some root reaches. */
  function NextLevel(level: seq<Place>, roots: seq<string>): seq<Place> {
    if level == [] then []
    else
      (if Within(level[0].at, roots).None? then [] else NestedIn(level[0].at, level[0].repo.nested)) + NextLevel(level[1..], roots)
  }

  function FilesAt(level: seq<Place>, roots: seq<string>): set<string> {
    if level == [] then {}
    else
      (if Within(level[0].at, roots).None? then {} else FilesOf(level[0], Within(level[0].at, roots).value)) + FilesAt(level[1..], roots)
  }

  /** How many repositories these places hold, nested ones included. */
  ghost function Size(repo: Repository): nat
    decreases repo, 1
  {
    1 + SizeOfLinks(repo.nested)
  }

  ghost function SizeOfLinks(links: seq<Link>): nat
    decreases links, 0
  {
    if links == [] then 0 else Size(links[0].repo) + SizeOfLinks(links[1..])
  }

  ghost function SizeOfLevel(level: seq<Place>): nat {
    if level == [] then 0 else Size(level[0].repo) + SizeOfLevel(level[1..])
  }

  /** `file` is a source file of the repository at `at`, or of one nested in it. */
  ghost predicate Source(at: string, repo: Repository, file: string)
    decreases repo, 1
  {
    || (exists path :: path in repo.indexed + repo.others && file == Joined(at, path))
    || SourceOfLinks(at, repo.nested, file)
  }

  ghost predicate SourceOfLinks(at: string, links: seq<Link>, file: string)
    decreases links, 0
  {
    links != [] && (Source(Joined(at, links[0].at), links[0].repo, file) || SourceOfLinks(at, links[1..], file))
  }

  ghost predicate SourceOfLevel(level: seq<Place>, file: string) {
    level != [] && (Source(level[0].at, level[0].repo, file) || SourceOfLevel(level[1..], file))
  }

  /** Version control as it is: no nested repository is linked at the repository itself, and no untracked file lies inside one. */
  ghost predicate Sane(repo: Repository)
    decreases repo, 1
  {
    && (forall path :: path in repo.others ==> !LinkedAt(repo.nested, path))
    && SaneLinks(repo.nested)
  }

  ghost predicate SaneLinks(links: seq<Link>)
    decreases links, 0
  {
    links == [] || (links[0].at != "" && Sane(links[0].repo) && SaneLinks(links[1..]))
  }

  ghost predicate SaneLevel(level: seq<Place>) {
    level == [] || (Sane(level[0].repo) && SaneLevel(level[1..]))
  }

  /** Leaving out the specs that reach into a nested repository hides no file of this one. */
  lemma {:induction false} NarrowedShowsTheSame(specs: seq<string>, links: seq<Link>, path: string)
    requires !LinkedAt(links, path)
    ensures UnderAny(path, Narrowed(specs, links)) <==> UnderAny(path, specs)
  {
    if specs != [] {
      NarrowedShowsTheSame(specs[1..], links, path);
      UnderAnySplit(path, specs);
      if LinkedAt(links, specs[0]) {
        if Under(path, specs[0]) {
          var i :| 0 <= i < |links| && Under(specs[0], links[i].at);
          UnderIsTransitive(path, specs[0], links[i].at);
        }
        assert [] + Narrowed(specs[1..], links) == Narrowed(specs[1..], links);
      } else {
        var narrowed := Narrowed(specs, links);
        UnderAnySplit(path, narrowed);
        assert narrowed[1..] == Narrowed(specs[1..], links);
      }
    }
  }

  lemma UnderAnySplit(path: string, roots: seq<string>)
    requires roots != []
    ensures UnderAny(path, roots) <==> Under(path, roots[0]) || UnderAny(path, roots[1..])
  {
    if i :| 0 < i < |roots| && Under(path, roots[i]) {
      assert roots[1..][i - 1] == roots[i];
    }
    if i :| 0 <= i < |roots[1..]| && Under(path, roots[1..][i]) {
      assert roots[i + 1] == roots[1..][i];
    }
  }

  /** What the walk takes of one repository is what of its own files lies under the roots. */
  lemma RepositoryIsExact(place: Place, roots: seq<string>, path: string)
    requires Sane(place.repo)
    requires path in place.repo.indexed + place.repo.others && UnderAny(Joined(place.at, path), roots)
    ensures Within(place.at, roots).Some? && Joined(place.at, path) in FilesOf(place, Within(place.at, roots).value)
  {
    if place.at != "" {
      NarrowingIsExact(place.at, roots, path);
    }
    if path !in place.repo.indexed {
      var specs := Within(place.at, roots).value;
      if specs != [] {
        NarrowedShowsTheSame(specs, place.repo.nested, path);
      }
    }
  }

  /** A repository no root reaches holds nothing under the roots, however deep. */
  lemma {:induction false} UnreachedHoldsNothing(at: string, repo: Repository, roots: seq<string>, file: string)
    requires at != "" && Within(at, roots).None? && Source(at, repo, file)
    ensures !UnderAny(file, roots)
  {
    SourceIsBelow(at, repo, file);
    var path := file[|at| + 1..];
    assert file == Joined(at, path);
    NarrowingIsExact(at, roots, path);
  }

  lemma {:induction false} SourceIsBelow(at: string, repo: Repository, file: string)
    requires at != "" && Source(at, repo, file)
    ensures StartsWith(file, at + "/")
    decreases repo, 1
  {
    if SourceOfLinks(at, repo.nested, file) {
      LinkedSourceIsBelow(at, repo.nested, file);
    }
  }

  lemma {:induction false} LinkedSourceIsBelow(at: string, links: seq<Link>, file: string)
    requires at != "" && SourceOfLinks(at, links, file)
    ensures StartsWith(file, at + "/")
    decreases links, 0
  {
    if Source(Joined(at, links[0].at), links[0].repo, file) {
      var inner := Joined(at, links[0].at);
      SourceIsBelow(inner, links[0].repo, file);
      assert file[..|at| + 1] == inner[..|at| + 1] == at + "/";
    } else {
      LinkedSourceIsBelow(at, links[1..], file);
    }
  }

  lemma {:induction false} NestedSources(at: string, links: seq<Link>, file: string)
    ensures SourceOfLevel(NestedIn(at, links), file) <==> SourceOfLinks(at, links, file)
    ensures SaneLinks(links) ==> SaneLevel(NestedIn(at, links))
    ensures SizeOfLevel(NestedIn(at, links)) == SizeOfLinks(links)
  {
    if links != [] {
      NestedSources(at, links[1..], file);
    }
  }

  lemma {:induction false} LevelAppend(one: seq<Place>, two: seq<Place>, file: string)
    ensures SourceOfLevel(one + two, file) <==> SourceOfLevel(one, file) || SourceOfLevel(two, file)
    ensures SaneLevel(one + two) <==> SaneLevel(one) && SaneLevel(two)
    ensures SizeOfLevel(one + two) == SizeOfLevel(one) + SizeOfLevel(two)
  {
    if one == [] {
      assert one + two == two;
    } else {
      assert (one + two)[1..] == one[1..] + two;
      LevelAppend(one[1..], two, file);
    }
  }

  /** One level: what lies under the roots is listed there or nested one level deeper, and nothing else is listed. */
  lemma {:induction false} LevelIsExact(level: seq<Place>, roots: seq<string>, file: string)
    requires SaneLevel(level)
    ensures SourceOfLevel(level, file) && UnderAny(file, roots) ==> file in FilesAt(level, roots) || SourceOfLevel(NextLevel(level, roots), file)
    ensures file in FilesAt(level, roots) || SourceOfLevel(NextLevel(level, roots), file) ==> SourceOfLevel(level, file)
    ensures SaneLevel(NextLevel(level, roots))
    ensures SizeOfLevel(NextLevel(level, roots)) + |level| <= SizeOfLevel(level)
  {
    if level != [] {
      var place := level[0];
      LevelIsExact(level[1..], roots, file);
      NestedSources(place.at, place.repo.nested, file);
      if Within(place.at, roots).Some? {
        LevelAppend(NestedIn(place.at, place.repo.nested), NextLevel(level[1..], roots), file);
        PlaceIsExact(place, roots, file);
      } else {
        assert [] + NextLevel(level[1..], roots) == NextLevel(level[1..], roots);
        if Source(place.at, place.repo, file) {
          UnreachedHoldsNothing(place.at, place.repo, roots, file);
        }
      }
    }
  }

  lemma PlaceIsExact(place: Place, roots: seq<string>, file: string)
    requires Sane(place.repo) && Within(place.at, roots).Some?
    ensures Source(place.at, place.repo, file) && UnderAny(file, roots) ==>
              file in FilesOf(place, Within(place.at, roots).value) || SourceOfLinks(place.at, place.repo.nested, file)
    ensures file in FilesOf(place, Within(place.at, roots).value) ==> Source(place.at, place.repo, file)
  {
    if Source(place.at, place.repo, file) && UnderAny(file, roots) && !SourceOfLinks(place.at, place.repo.nested, file) {
      var path :| path in place.repo.indexed + place.repo.others && file == Joined(place.at, path);
      RepositoryIsExact(place, roots, path);
    }
  }

  /**
   `tracked`: the files of a workspace's repositories under the roots, level after level of nesting, asking
   only those some root reaches. It lists exactly the source files under the roots.
   */
  method Tracked(workspace: Repository, roots: seq<string>) returns (files: set<string>)
    requires Sane(workspace)
    ensures forall file :: file in files <==> Source("", workspace, file) && UnderAny(file, roots)
  {
    var found: set<string> := {};
    var level := [Place("", workspace)];
    while level != []
      invariant SaneLevel(level)
      invariant forall file :: Source("", workspace, file) && UnderAny(file, roots) ==> file in found || SourceOfLevel(level, file)
      invariant forall file :: file in found || SourceOfLevel(level, file) ==> Source("", workspace, file)
      decreases SizeOfLevel(level)
    {
      var listed, next := FilesAt(level, roots), NextLevel(level, roots);
      forall file
        ensures SourceOfLevel(level, file) && UnderAny(file, roots) ==> file in listed || SourceOfLevel(next, file)
        ensures file in listed || SourceOfLevel(next, file) ==> SourceOfLevel(level, file)
      {
        LevelIsExact(level, roots, file);
      }
      LevelIsExact(level, roots, "");
      found, level := found + listed, next;
    }
    files := set file | file in found && UnderAny(file, roots);
  }

  /**
   `scope`'s listing: the outermost roots, then the files tracked under them. A source file is listed
   exactly when some root holds it and every root that is the whole workspace does, as text.
   */
  method Scoped(workspace: Repository, roots: seq<string>) returns (files: set<string>)
    requires Sane(workspace)
    ensures forall file :: file in files <==>
              Source("", workspace, file) && UnderAny(file, Spelled(roots)) && UnderEveryWhole(file, Spelled(roots))
  {
    files := Tracked(workspace, Outermost(roots));
    forall file ensures UnderAny(file, Outermost(roots)) <==> UnderAny(file, Spelled(roots)) && UnderEveryWhole(file, Spelled(roots)) {
      KeptTextCovers(roots, file);
    }
  }
}
