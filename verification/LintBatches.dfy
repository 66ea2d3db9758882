/** How a lint tool's files are packed into commands: greedily, in order, by the characters they take. */
module LintBatches {
  import opened Text

  /** The budget of a batch, in characters. */
  const BATCH := 24_000

  /** A matched file by its name inside its owner, and whether it still exists. */
  datatype Matched = Matched(name: string, present: bool)

  /** The names that still exist, in order. */
  function Existing(matched: seq<Matched>): seq<string> {
    if matched == [] then []
    else Existing(matched[..|matched| - 1]) + if matched[|matched| - 1].present then [matched[|matched| - 1].name] else []
  }

  ghost function Presents(matched: seq<Matched>): set<int> {
    set i | 0 <= i < |matched| && matched[i].present
  }

  /** They are as many as the files that exist. */
  lemma {:induction false} ExistingCounted(matched: seq<Matched>)
    ensures |Existing(matched)| == |Presents(matched)|
  {
    if matched != [] {
      var n := |matched| - 1;
      var before := Presents(matched[..n]);
      ExistingCounted(matched[..n]);
      assert Presents(matched) == if matched[n].present then before + {n} else before;
    }
  }

  lemma {:induction false} ExistingExtends(matched: seq<Matched>, k: nat)
    requires k <= |matched|
    ensures Existing(matched[..k]) <= Existing(matched)
  {
    var n := |matched| - 1;
    if k <= n {
      ExistingExtends(matched[..n], k);
      assert matched[..n][..k] == matched[..k];
    } else {
      assert matched[..k] == matched;
    }
  }

  /** And each stands after exactly those before it. */
  lemma ExistingExactly(matched: seq<Matched>, i: nat)
    requires i < |matched| && matched[i].present
    ensures |Presents(matched[..i])| < |Presents(matched)| == |Existing(matched)|
    ensures Existing(matched)[|Presents(matched[..i])|] == matched[i].name
  {
    hide Presents;
    ExistingCounted(matched);
    ExistingCounted(matched[..i]);
    ExistingExtends(matched, i + 1);
    assert matched[..i + 1][..i] == matched[..i];
    assert Existing(matched[..i + 1]) == Existing(matched[..i]) + [matched[i].name];
  }

  function Flat(batches: seq<seq<string>>): seq<string> {
    if batches == [] then [] else Flat(batches[..|batches| - 1]) + batches[|batches| - 1]
  }

  /** The characters of a batch, one more after each name. */
  function Width(batch: seq<string>): nat {
    if batch == [] then 0 else Width(batch[..|batch| - 1]) + |batch[|batch| - 1]| + 1
  }

  /** It is one more than the characters of the names with a space between each two. */
  lemma {:induction false} WidthIsTheLine(batch: seq<string>)
    requires batch != []
    ensures Width(batch) == |Join(batch, ' ')| + 1
  {
    var n := |batch| - 1;
    if n > 0 {
      WidthIsTheLine(batch[..n]);
      JoinedLength(batch[..n], batch[n]);
      assert batch == batch[..n] + [batch[n]];
    }
  }

  lemma {:induction false} JoinedLength(batch: seq<string>, name: string)
    requires batch != []
    ensures |Join(batch + [name], ' ')| == |Join(batch, ' ')| + 1 + |name|
  {
    assert (batch + [name])[1..] == batch[1..] + [name];
    if |batch| > 1 {
      JoinedLength(batch[1..], name);
    }
  }

  /** More than one file goes in a batch exactly when their names, with a space between each two, are under 24000 characters. */
  lemma ObeysExactly(batch: seq<string>)
    ensures Obeys(batch) <==> |batch| <= 1 || |Join(batch, ' ')| < 24_000
  {
    if batch != [] {
      WidthIsTheLine(batch);
    }
  }

  /** Within the budget: a name alone always is, more of them when they and the spaces between them are fewer than the budget. */
  predicate Obeys(batch: seq<string>) {
    |batch| <= 1 || Width(batch) - 1 < BATCH
  }

  /** An order-preserving split of `names` whose every batch obeys the budget. */
  ghost predicate Splits(batches: seq<seq<string>>, names: seq<string>) {
    Flat(batches) == names && forall i :: 0 <= i < |batches| ==> batches[i] != [] && Obeys(batches[i])
  }

  function Last(batches: seq<seq<string>>): seq<string>
    requires batches != []
  {
    batches[|batches| - 1]
  }

  /** No split of the same names is shorter, and none as short ends in fewer names. */
  ghost predicate Fewest(batches: seq<seq<string>>, names: seq<string>) {
    forall other :: Splits(other, names) ==>
      |batches| < |other| || (|batches| == |other| && (batches != [] ==> |Last(batches)| <= |Last(other)|))
  }

  lemma WidthAppend(batch: seq<string>, name: string)
    ensures Width(batch + [name]) == Width(batch) + |name| + 1
  {
    assert (batch + [name])[..|batch|] == batch;
  }

  lemma FlatAppend(batches: seq<seq<string>>, batch: seq<string>)
    ensures Flat(batches + [batch]) == Flat(batches) + batch
  {
    assert (batches + [batch])[..|batches|] == batches;
  }

  /** The names of some batches and then of others, and of one batch its own. */
  lemma {:induction false} FlatJoins(some: seq<seq<string>>, others: seq<seq<string>>, batch: seq<string>)
    ensures Flat(some + others) == Flat(some) + Flat(others)
    ensures Flat([batch]) == batch
  {
    assert Flat([] + [batch]) == [] + batch by { FlatAppend([], batch); }
    assert [] + [batch] == [batch];
    if others == [] {
      assert some + others == some;
    } else {
      var n := |others| - 1;
      FlatJoins(some, others[..n], batch);
      assert some + others == some + others[..n] + [others[n]];
      FlatAppend(some + others[..n], others[n]);
    }
  }

  lemma {:induction false} WidthOfSuffix(batch: seq<string>, k: nat)
    requires k <= |batch|
    ensures Width(batch[k..]) <= Width(batch)
  {
    if k < |batch| {
      var n := |batch| - 1;
      WidthOfSuffix(batch[..n], k);
      assert batch[k..] == batch[..n][k..] + [batch[n]];
      WidthAppend(batch[..n][k..], batch[n]);
    }
  }

  /** A split of `names + [name]` is a split of `names` and the name, alone in a new batch or added to the last. */
  lemma Shorten(other: seq<seq<string>>, names: seq<string>, name: string) returns (shorter: seq<seq<string>>)
    requires Splits(other, names + [name])
    ensures Splits(shorter, names) && other != []
    ensures Last(other) == [name] ==> other == shorter + [[name]]
    ensures Last(other) != [name] ==> shorter != [] && |shorter| == |other| && Last(other) == Last(shorter) + [name]
  {
    var n := |other| - 1;
    assert other != [] by { assert Flat([]) == []; }
    var front, last := other[..n], other[n];
    var all := names + [name];
    assert Flat(front) + last == all;
    assert last[|last| - 1] == all[|all| - 1] == name;
    var rest := last[..|last| - 1];
    assert last == rest + [name];
    assert Flat(front) + rest == names by { assert Flat(front) + rest == (Flat(front) + last)[..|all| - 1]; }
    if rest == [] {
      shorter := front;
      assert other == front + [[name]];
    } else {
      shorter := front + [rest];
      FlatAppend(front, rest);
      WidthAppend(rest, name);
    }
  }

  /** Greedy packing of one more name stays shortest, with the shortest last batch. */
  lemma PackingStaysFewest(batches: seq<seq<string>>, names: seq<string>, name: string, packed: seq<seq<string>>)
    requires Splits(batches, names) && Fewest(batches, names)
    requires packed == if batches == [] || Width(Last(batches)) + |name| >= BATCH then batches + [[name]]
                       else batches[..|batches| - 1] + [Last(batches) + [name]]
    ensures Splits(packed, names + [name]) && Fewest(packed, names + [name])
  {
    var opens := batches == [] || Width(Last(batches)) + |name| >= BATCH;
    if opens {
      FlatAppend(batches, [name]);
    } else {
      FlatAppend(batches[..|batches| - 1], Last(batches) + [name]);
      WidthAppend(Last(batches), name);
      assert Flat(batches) + [name] == Flat(batches[..|batches| - 1]) + (Last(batches) + [name]);
    }
    forall other | Splits(other, names + [name])
      ensures |packed| < |other| || (|packed| == |other| && |Last(packed)| <= |Last(other)|)
    {
      var shorter := Shorten(other, names, name);
      if opens && Last(other) != [name] && |batches| == |shorter| {
        NoRoom(batches, shorter, names, name);
      }
    }
  }

  /** Where the greedy last batch has no room for a name, no longer last batch of the same names has. */
  lemma NoRoom(batches: seq<seq<string>>, other: seq<seq<string>>, names: seq<string>, name: string)
    requires batches != [] && other != [] && Flat(batches) == names && Flat(other) == names
    requires |Last(batches)| <= |Last(other)| && Last(other) != []
    requires Width(Last(batches)) + |name| >= BATCH
    ensures !Obeys(Last(other) + [name])
  {
    var k := |Last(other)| - |Last(batches)|;
    assert Last(batches) == names[|names| - |Last(batches)|..];
    assert Last(other) == names[|names| - |Last(other)|..];
    assert Last(other)[k..] == Last(batches);
    WidthOfSuffix(Last(other), k);
    WidthAppend(Last(other), name);
  }

  lemma NothingToPack()
    ensures Splits([], []) && Fewest([], [])
  {
  }

  /**
   `_batches`: greedy packing. A check without file arguments is one command; otherwise the names that
   exist are split in order, into as few batches as any split within the budget has.
   */
  method Batches(wholeOwner: bool, matched: seq<Matched>) returns (batches: seq<seq<string>>)
    ensures wholeOwner ==> batches == [[]]
    ensures !wholeOwner ==> Splits(batches, Existing(matched)) && Fewest(batches, Existing(matched))
  {
    hide Splits, Fewest, Flat, Obeys;
    if wholeOwner {
      return [[]];
    }
    batches := [];
    NothingToPack();
    var width := BATCH;
    for i := 0 to |matched|
      invariant Splits(batches, Existing(matched[..i])) && Fewest(batches, Existing(matched[..i]))
      invariant width == if batches == [] then BATCH else Width(Last(batches))
    {
      assert matched[..i + 1][..i] == matched[..i];
      if matched[i].present {
        var name := matched[i].name;
        ghost var before := batches;
        if width + |name| >= BATCH {
          batches := batches + [[]];
          width := 0;
        }
        WidthAppend(Last(batches), name);
        batches := batches[|batches| - 1 := Last(batches) + [name]];
        width := width + |name| + 1;
        PackingStaysFewest(before, Existing(matched[..i]), name, batches);
      } else {
        assert Existing(matched[..i + 1]) == Existing(matched[..i]);
      }
    }
    assert matched[..|matched|] == matched;
  }
}
