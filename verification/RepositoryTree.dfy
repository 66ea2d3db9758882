/** The workspace repository and its submodules, acted on bottom-up with every parent of a stuck one held. */
module RepositoryTree {

  /** initialized: checked out; ours: this workspace's by its remote. */
  datatype Repo = Repo(name: string, initialized: bool, ours: bool, children: seq<Repo>)

  datatype Outcome = Completed | Current | Held | Failed {
    /** Nothing above this repository need wait. */
    predicate Settled() {
      Completed? || Current?
    }
  }

  datatype Step = Step(repo: string, outcome: Outcome)

  /** A turn of the loop: its step, and whether the verb acted on the repository or it was held back. */
  datatype Turn = Turn(step: Step, acted: bool)

  /** What the verb does to a repository, given everything done before it. */
  type Act = (Repo, seq<Turn>) -> Outcome

  predicate Ours(repo: Repo) {
    repo.initialized && repo.ours
  }

  /** `_descend`: a repository before its submodules, through owned checkouts only. */
  function Descend(repo: Repo): seq<Repo>
    decreases repo, 1
  {
    if !Ours(repo) then [] else [repo] + DescendAll(repo.children)
  }

  function DescendAll(repos: seq<Repo>): seq<Repo>
    decreases repos, 0
  {
    if repos == [] then [] else Descend(repos[0]) + DescendAll(repos[1..])
  }

  /** The owned repositories strictly below one. */
  function Below(repo: Repo): seq<Repo> {
    DescendAll(repo.children)
  }

  function Reversed(repos: seq<Repo>): (turned: seq<Repo>)
    ensures |turned| == |repos| && forall i :: 0 <= i < |repos| ==> turned[i] == repos[|repos| - 1 - i]
  {
    seq(|repos|, i requires 0 <= i < |repos| => repos[|repos| - 1 - i])
  }

  /** The repositories that did not get there. */
  function Stuck(turns: seq<Turn>): set<string> {
    set i | 0 <= i < |turns| && !turns[i].step.outcome.Settled() :: turns[i].step.repo
  }

  predicate Blocked(repo: Repo, stuck: set<string>, hold: bool) {
    hold && exists i :: 0 <= i < |repo.children| && repo.children[i].name in stuck
  }

  function Take(repo: Repo, before: seq<Turn>, hold: bool, act: Act): Turn {
    if Blocked(repo, Stuck(before), hold) then Turn(Step(repo.name, Held), false)
    else Turn(Step(repo.name, act(repo, before)), true)
  }

  function Turns(order: seq<Repo>, hold: bool, act: Act): (turns: seq<Turn>)
    ensures |turns| == |order|
  {
    if order == [] then []
    else
      var before := Turns(order[..|order| - 1], hold, act);
      before + [Take(order[|order| - 1], before, hold, act)]
  }

  /** `upward`: one turn per repository in the reversed descent, with the stuck names kept in a set. */
  method Upward(root: Repo, hold: bool, act: Act) returns (turns: seq<Turn>)
    ensures turns == Turns(Reversed(Descend(root)), hold, act)
  {
    var order := Reversed(Descend(root));
    turns := [];
    var stuck: set<string> := {};
    for i := 0 to |order|
      invariant turns == Turns(order[..i], hold, act) && stuck == Stuck(turns)
    {
      assert order[..i + 1][..i] == order[..i];
      var repo := order[i];
      var turn := if Blocked(repo, stuck, hold) then Turn(Step(repo.name, Held), false)
                  else Turn(Step(repo.name, act(repo, turns)), true);
      StuckAppend(turns, turn);
      if !turn.step.outcome.Settled() {
        stuck := stuck + {repo.name};
      }
      turns := turns + [turn];
    }
    assert order[..|order|] == order;
  }

  lemma StuckAppend(turns: seq<Turn>, turn: Turn)
    ensures Stuck(turns + [turn]) == Stuck(turns) + if turn.step.outcome.Settled() then {} else {turn.step.repo}
  {
    var all := turns + [turn];
    forall name | name in Stuck(turns) ensures name in Stuck(all) {
      var i :| 0 <= i < |turns| && !turns[i].step.outcome.Settled() && turns[i].step.repo == name;
      assert all[i] == turns[i];
    }
    assert all[|turns|] == turn;
  }

  /** Turn by turn: each is taken over exactly the turns before it. */
  lemma {:induction false} TurnAt(order: seq<Repo>, hold: bool, act: Act, i: nat)
    requires i < |order|
    ensures Turns(order, hold, act)[i] == Take(order[i], Turns(order[..i], hold, act), hold, act)
    ensures Turns(order[..i], hold, act) == Turns(order, hold, act)[..i]
  {
    var n := |order| - 1;
    if i < n {
      TurnAt(order[..n], hold, act, i);
      assert order[..n][..i] == order[..i];
    } else {
      assert order[..n] == order[..i];
    }
  }

  // ---- Where a descendant stands ----

  /** From a repository's place in the list on, the list goes on with everything below it. */
  lemma {:induction false} BlockAt(repo: Repo, i: nat)
    requires i < |Descend(repo)|
    ensures var list := Descend(repo);
            && Ours(list[i]) && i + |Descend(list[i])| <= |list|
            && list[i..i + |Descend(list[i])|] == Descend(list[i])
    decreases repo, 1
  {
    if i > 0 {
      BlockAmong(repo.children, i - 1);
      var list, rest := Descend(repo), DescendAll(repo.children);
      var size := |Descend(rest[i - 1])|;
      assert list[i..i + size] == rest[i - 1..i - 1 + size];
    } else {
      assert Descend(repo)[0..|Descend(repo)|] == Descend(repo);
    }
  }

  lemma {:induction false} BlockAmong(repos: seq<Repo>, i: nat)
    requires i < |DescendAll(repos)|
    ensures var list := DescendAll(repos);
            && Ours(list[i]) && i + |Descend(list[i])| <= |list|
            && list[i..i + |Descend(list[i])|] == Descend(list[i])
    decreases repos, 0
  {
    var first, rest := Descend(repos[0]), DescendAll(repos[1..]);
    if i < |first| {
      BlockAt(repos[0], i);
      SliceOfTwo(first, rest, i, |Descend(first[i])|);
    } else {
      BlockAmong(repos[1..], i - |first|);
      SliceOfTwo(first, rest, i, |Descend(rest[i - |first|])|);
    }
  }

  /** A slice that lies within one of two joined lists is that list's. */
  lemma SliceOfTwo(one: seq<Repo>, two: seq<Repo>, i: nat, size: nat)
    ensures i + size <= |one| ==> (one + two)[i..i + size] == one[i..i + size]
    ensures |one| <= i && i + size <= |one| + |two| ==> (one + two)[i..i + size] == two[i - |one|..i - |one| + size]
  {
    var all := one + two;
    if i + size <= |one| {
      var here, there := all[i..i + size], one[i..i + size];
      assert forall k :: 0 <= k < size ==> here[k] == there[k];
    }
    if |one| <= i && i + size <= |one| + |two| {
      var here, there := all[i..i + size], two[i - |one|..i - |one| + size];
      assert forall k :: 0 <= k < size ==> here[k] == there[k];
    }
  }

  /** Bottom-up, everything below a repository comes before it. */
  lemma BelowComesBefore(root: Repo, i: nat, below: Repo)
    requires i < |Descend(root)| && below in Below(Reversed(Descend(root))[i])
    ensures exists j :: 0 <= j < i && Reversed(Descend(root))[j] == below
  {
    var list, order := Descend(root), Reversed(Descend(root));
    var at := |list| - 1 - i;
    var repo := order[i];
    BlockAt(root, at);
    var k :| 0 <= k < |Below(repo)| && Below(repo)[k] == below;
    assert Descend(repo)[k + 1] == below;
    assert list[at..at + |Descend(repo)|][k + 1] == list[at + k + 1];
    assert order[|list| - 1 - (at + k + 1)] == below;
  }

  /** What lies below some repositories is one of them, owned, or lies below one of them that is owned. */
  lemma {:induction false} BelowSplits(repos: seq<Repo>, below: Repo)
    requires below in DescendAll(repos)
    ensures exists i :: 0 <= i < |repos| && Ours(repos[i]) && (below == repos[i] || below in Below(repos[i]))
  {
    if below in Descend(repos[0]) {
      assert Ours(repos[0]);
    } else {
      BelowSplits(repos[1..], below);
      var i :| 0 <= i < |repos[1..]| && Ours(repos[1..][i]) && (below == repos[1..][i] || below in Below(repos[1..][i]));
      assert repos[1..][i] == repos[i + 1];
    }
  }

  lemma {:induction false} ChildIsBelow(repos: seq<Repo>, i: nat)
    requires i < |repos| && Ours(repos[i])
    ensures repos[i] in DescendAll(repos)
  {
    if i == 0 {
      assert Descend(repos[0])[0] == repos[0];
    } else {
      ChildIsBelow(repos[1..], i - 1);
    }
  }

  // ---- What holding gives ----

  /** No two owned repositories share a name. */
  predicate Unique(repos: seq<Repo>) {
    forall i, j :: 0 <= i < j < |repos| ==> repos[i].name != repos[j].name
  }

  lemma NamesInOrder(order: seq<Repo>, hold: bool, act: Act)
    ensures forall i :: 0 <= i < |order| ==> Turns(order, hold, act)[i].step.repo == order[i].name
  {
    forall i | 0 <= i < |order| ensures Turns(order, hold, act)[i].step.repo == order[i].name {
      TurnAt(order, hold, act, i);
    }
  }

  /** Every owned repository below `order[i]` was acted on before it, and settled. */
  ghost predicate GroundReady(order: seq<Repo>, turns: seq<Turn>, i: nat)
    requires i < |order| == |turns|
  {
    forall below :: below in Below(order[i]) ==>
      exists j :: 0 <= j < i && order[j] == below && turns[j].acted && (turns[j].step.outcome == Completed || turns[j].step.outcome == Current)
  }

  /** A verb acts on a repository only when each owned child was acted on before and settled. */
  lemma ChildrenSettled(root: Repo, act: Act, i: nat, c: nat)
    requires i < |Descend(root)| && c < |Reversed(Descend(root))[i].children| && Ours(Reversed(Descend(root))[i].children[c])
    requires Turns(Reversed(Descend(root)), true, act)[i].acted
    ensures var order, turns := Reversed(Descend(root)), Turns(Reversed(Descend(root)), true, act);
            exists j :: 0 <= j < i && order[j] == order[i].children[c] && turns[j].acted
                        && (turns[j].step.outcome == Completed || turns[j].step.outcome == Current)
  {
    hide Descend, DescendAll, Reversed, Turns;
    var order := Reversed(Descend(root));
    var turns := Turns(order, true, act);
    var child := order[i].children[c];
    ChildIsBelow(order[i].children, c);
    BelowComesBefore(root, i, child);
    var j :| 0 <= j < i && order[j] == child;
    TurnAt(order, true, act, i);
    TurnAt(order, true, act, j);
    assert turns[..i][j] == turns[j];
  }

  /** A verb acts on a repository only after acting on everything owned below it, all of it settled. */
  lemma {:induction false} ActsOnSettledGround(root: Repo, act: Act, i: nat)
    requires i < |Descend(root)| && Turns(Reversed(Descend(root)), true, act)[i].acted
    ensures GroundReady(Reversed(Descend(root)), Turns(Reversed(Descend(root)), true, act), i)
  {
    hide Descend, DescendAll, Reversed, Turns;
    var order := Reversed(Descend(root));
    var turns := Turns(order, true, act);
    forall below | below in Below(order[i])
      ensures exists j :: 0 <= j < i && order[j] == below && turns[j].acted && (turns[j].step.outcome == Completed || turns[j].step.outcome == Current)
    {
      BelowSplits(order[i].children, below);
      var c :| 0 <= c < |order[i].children| && Ours(order[i].children[c])
               && (below == order[i].children[c] || below in Below(order[i].children[c]));
      ChildrenSettled(root, act, i, c);
      var j :| 0 <= j < i && order[j] == order[i].children[c] && turns[j].acted
               && (turns[j].step.outcome == Completed || turns[j].step.outcome == Current);
      if below != order[j] {
        ActsOnSettledGround(root, act, j);
        assert GroundReady(order, turns, j);
      }
    }
  }

  lemma SameName(repos: seq<Repo>, i: nat, j: nat)
    requires Unique(repos) && i < |repos| && j < |repos| && repos[i].name == repos[j].name
    ensures i == j
  {
  }

  /** Below a repository that was acted on, every owned one settled. */
  lemma SettledBelowTheActed(root: Repo, act: Act, i: nat, j: nat)
    requires i < |Descend(root)| && j < |Descend(root)| && Unique(Reversed(Descend(root)))
    requires Reversed(Descend(root))[j] in Below(Reversed(Descend(root))[i])
    requires Turns(Reversed(Descend(root)), true, act)[i].acted
    ensures var outcome := Turns(Reversed(Descend(root)), true, act)[j].step.outcome; outcome == Completed || outcome == Current
  {
    var order := Reversed(Descend(root));
    var turns := Turns(order, true, act);
    ActsOnSettledGround(root, act, i);
    var k :| 0 <= k < i && order[k] == order[j] && (turns[k].step.outcome == Completed || turns[k].step.outcome == Current);
    SameName(order, k, j);
  }

  /** Every owned ancestor of a repository that did not settle is held, and the verb never acts on it. */
  lemma AncestorsOfTheUnsettledAreHeld(root: Repo, act: Act, i: nat, j: nat)
    requires i < |Descend(root)| && j < |Descend(root)| && Unique(Reversed(Descend(root)))
    requires Reversed(Descend(root))[j] in Below(Reversed(Descend(root))[i])
    requires var outcome := Turns(Reversed(Descend(root)), true, act)[j].step.outcome; outcome == Held || outcome == Failed
    ensures Turns(Reversed(Descend(root)), true, act)[i] == Turn(Step(Reversed(Descend(root))[i].name, Held), false)
  {
    TurnAt(Reversed(Descend(root)), true, act, i);
    if Turns(Reversed(Descend(root)), true, act)[i].acted {
      SettledBelowTheActed(root, act, i, j);
    }
  }

  /** A repository whose children's names are no stuck repository's is acted on: nothing is held without a reason. */
  lemma HeldOnlyOverAStuckChild(root: Repo, act: Act, i: nat)
    requires i < |Descend(root)| && !Turns(Reversed(Descend(root)), true, act)[i].acted
    ensures var order, turns := Reversed(Descend(root)), Turns(Reversed(Descend(root)), true, act);
            exists c, j :: 0 <= c < |order[i].children| && 0 <= j < i
                           && order[j].name == order[i].children[c].name
                           && (turns[j].step.outcome == Held || turns[j].step.outcome == Failed)
  {
    var order := Reversed(Descend(root));
    var turns := Turns(order, true, act);
    TurnAt(order, true, act, i);
    NamesInOrder(order, true, act);
    var c :| 0 <= c < |order[i].children| && order[i].children[c].name in Stuck(turns[..i]);
    var j :| 0 <= j < |turns[..i]| && !turns[..i][j].step.outcome.Settled() && turns[..i][j].step.repo == order[i].children[c].name;
    assert turns[..i][j] == turns[j];
  }

  /** Acted on, a repository has the outcome the verb gave it over the turns before; not acted on, it is held. */
  lemma ActedHasItsOutcome(order: seq<Repo>, hold: bool, act: Act, i: nat)
    requires i < |order|
    ensures var turns := Turns(order, hold, act);
            turns[i].step.outcome == if turns[i].acted then act(order[i], turns[..i]) else Held
  {
    TurnAt(order, hold, act, i);
  }

  /** Without holding, the verb acts on every repository, whatever became of its submodules. */
  lemma NothingHeldWithoutHolding(order: seq<Repo>, act: Act, i: nat)
    requires i < |order|
    ensures Turns(order, false, act)[i].acted
  {
    TurnAt(order, false, act, i);
  }

  /** A chain of `length` submodules leads from `root` to `repo`, every one of them checked out and owned. */
  ghost predicate OwnedBelow(root: Repo, repo: Repo, length: nat)
    decreases length
  {
    && root.initialized && root.ours
    && if length == 0 then repo == root else exists c :: 0 <= c < |root.children| && OwnedBelow(root.children[c], repo, length - 1)
  }

  ghost predicate Owned(root: Repo, repo: Repo) {
    exists length: nat :: OwnedBelow(root, repo, length)
  }

  lemma OwnedSplits(root: Repo, repo: Repo)
    ensures Owned(root, repo) <==>
              root.initialized && root.ours && (repo == root || exists c :: 0 <= c < |root.children| && Owned(root.children[c], repo))
  {
    if length: nat :| OwnedBelow(root, repo, length) {
      if length > 0 {
        var shorter: nat := length - 1;
        var c :| 0 <= c < |root.children| && OwnedBelow(root.children[c], repo, shorter);
        assert Owned(root.children[c], repo);
      }
    }
    if root.initialized && root.ours {
      assert OwnedBelow(root, root, 0);
      if c :| 0 <= c < |root.children| && Owned(root.children[c], repo) {
        var length: nat :| OwnedBelow(root.children[c], repo, length);
        assert OwnedBelow(root, repo, length + 1);
      }
    }
  }

  /** The owned repositories are exactly those such a chain leads to. */
  lemma {:induction false} OwnedExactly(root: Repo, repo: Repo)
    ensures repo in Descend(root) <==> Owned(root, repo)
    decreases root, 1
  {
    hide Owned;
    OwnedSplits(root, repo);
    OwnedAmong(root.children, repo);
  }

  lemma {:induction false} OwnedAmong(repos: seq<Repo>, repo: Repo)
    ensures repo in DescendAll(repos) <==> exists c :: 0 <= c < |repos| && Owned(repos[c], repo)
    decreases repos, 0
  {
    hide Owned;
    if repos != [] {
      OwnedExactly(repos[0], repo);
      OwnedAmong(repos[1..], repo);
      assert forall c :: 0 <= c < |repos[1..]| ==> repos[1..][c] == repos[c + 1];
      if c :| 0 < c < |repos| && Owned(repos[c], repo) {
        assert Owned(repos[1..][c - 1], repo);
      }
    }
  }

  /** Each owned repository gets exactly one step, in the one place its order gives it. */
  lemma OneStepEach(root: Repo, hold: bool, act: Act, i: nat)
    requires i < |Descend(root)| && Unique(Reversed(Descend(root)))
    ensures var order, turns := Reversed(Descend(root)), Turns(Reversed(Descend(root)), hold, act);
            && |turns| == |Descend(root)|
            && forall j :: 0 <= j < |turns| ==> (turns[j].step.repo == order[i].name <==> j == i)
  {
    NamesInOrder(Reversed(Descend(root)), hold, act);
  }
}
