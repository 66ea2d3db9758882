/** Counterbalanced lane orders: the permutations of an experiment's lanes, cycled block by block. */
module LaneOrders {

  function Factorial(n: nat): (f: nat)
    ensures f >= 1
  {
    if n == 0 then 1 else n * Factorial(n - 1)
  }

  function Without<T>(s: seq<T>, i: nat): seq<T>
    requires i < |s|
  {
    s[..i] + s[i + 1..]
  }

  function Prepended<T>(x: T, tails: seq<seq<T>>): (lists: seq<seq<T>>)
    ensures |lists| == |tails| && forall i :: 0 <= i < |tails| ==> lists[i] == [x] + tails[i]
  {
    seq(|tails|, i requires 0 <= i < |tails| => [x] + tails[i])
  }

  /** `itertools.permutations`: by the position of the first element, then of the next. */
  function Permutations<T>(s: seq<T>): seq<seq<T>>
    decreases |s|, |s| + 1
  {
    if s == [] then [[]] else StartingFrom(s, 0)
  }

  /** The permutations whose first element stands at `i` or later. */
  function StartingFrom<T>(s: seq<T>, i: nat): seq<seq<T>>
    requires i <= |s|
    decreases |s|, |s| - i
  {
    if i == |s| then [] else Prepended(s[i], Permutations(Without(s, i))) + StartingFrom(s, i + 1)
  }

  lemma {:induction false} HowMany<T>(s: seq<T>)
    ensures |Permutations(s)| == Factorial(|s|)
    decreases |s|, |s| + 1
  {
    if s != [] {
      HowManyFrom(s, 0);
      TimesIsProduct(|s|, Factorial(|s| - 1));
    }
  }

  lemma {:induction false} HowManyFrom<T>(s: seq<T>, i: nat)
    requires s != [] && i <= |s|
    ensures |StartingFrom(s, i)| == Times(|s| - i, Factorial(|s| - 1))
    decreases |s|, |s| - i
  {
    if i < |s| {
      HowMany(Without(s, i));
      HowManyFrom(s, i + 1);
    }
  }

  /** `f` taken `times` times. */
  function Times(times: nat, f: nat): nat {
    if times == 0 then 0 else f + Times(times - 1, f)
  }

  lemma {:induction false} TimesIsProduct(times: nat, f: nat)
    ensures Times(times, f) == times * f
  {
    if times > 0 {
      TimesIsProduct(times - 1, f);
    }
  }

  /** `orders`: the permutation of the lanes for a trial block. */
  function Orders<T>(lanes: seq<T>, block: int): seq<T> {
    HowMany(lanes);
    var permutations := Permutations(lanes);
    permutations[block % |permutations|]
  }

  // ---- The permutations are all of them, each once ----

  predicate Distinct<T(==)>(s: seq<T>) {
    forall i, j :: 0 <= i < j < |s| ==> s[i] != s[j]
  }

  lemma WithoutIsOneLess<T>(s: seq<T>, i: nat)
    requires i < |s|
    ensures multiset(s) == multiset(Without(s, i)) + multiset{s[i]}
  {
    assert s == s[..i] + [s[i]] + s[i + 1..];
  }

  lemma {:induction false} EachIsAPermutation<T>(s: seq<T>)
    ensures forall k :: 0 <= k < |Permutations(s)| ==> multiset(Permutations(s)[k]) == multiset(s)
    decreases |s|, |s| + 1
  {
    if s != [] {
      EachFromIsAPermutation(s, 0);
    }
  }

  lemma {:induction false} EachFromIsAPermutation<T>(s: seq<T>, i: nat)
    requires i <= |s|
    ensures forall k :: 0 <= k < |StartingFrom(s, i)| ==>
              StartingFrom(s, i)[k] != [] && StartingFrom(s, i)[k][0] in s[i..] && multiset(StartingFrom(s, i)[k]) == multiset(s)
    decreases |s|, |s| - i
  {
    if i < |s| {
      var tails := Permutations(Without(s, i));
      var here, rest := Prepended(s[i], tails), StartingFrom(s, i + 1);
      EachIsAPermutation(Without(s, i));
      EachFromIsAPermutation(s, i + 1);
      WithoutIsOneLess(s, i);
      forall k | 0 <= k < |here + rest|
        ensures (here + rest)[k] != [] && (here + rest)[k][0] in s[i..] && multiset((here + rest)[k]) == multiset(s)
      {
        if k < |here| {
          assert here[k] == [s[i]] + tails[k] && s[i..][0] == s[i];
        } else {
          assert rest[k - |here|][0] in s[i + 1..] && s[i..] == [s[i]] + s[i + 1..];
        }
      }
    }
  }

  lemma {:induction false} EveryPermutationIsThere<T>(s: seq<T>, p: seq<T>)
    requires multiset(p) == multiset(s)
    ensures p in Permutations(s)
    decreases |s|
  {
    SameLength(p, s);
    if s != [] {
      assert p[0] in multiset(s);
      var i :| 0 <= i < |s| && s[i] == p[0];
      assert p == [p[0]] + p[1..];
      WithoutIsOneLess(s, i);
      assert multiset(p[1..]) == multiset(Without(s, i)) by {
        assert multiset(p) == multiset{p[0]} + multiset(p[1..]);
        assert multiset(p) - multiset{p[0]} == multiset(p[1..]);
      }
      EveryPermutationIsThere(Without(s, i), p[1..]);
      FoundFrom(s, 0, i, p[1..]);
    }
  }

  lemma SameLength<T>(p: seq<T>, s: seq<T>)
    requires multiset(p) == multiset(s)
    ensures |p| == |s|
  {
    assert |multiset(p)| == |p| && |multiset(s)| == |s|;
  }

  lemma {:induction false} FoundFrom<T>(s: seq<T>, j: nat, i: nat, tail: seq<T>)
    requires j <= i < |s| && tail in Permutations(Without(s, i))
    ensures [s[i]] + tail in StartingFrom(s, j)
    decreases i - j
  {
    if j < i {
      FoundFrom(s, j + 1, i, tail);
    } else {
      var tails := Permutations(Without(s, i));
      var k :| 0 <= k < |tails| && tails[k] == tail;
      assert Prepended(s[i], tails)[k] in Prepended(s[i], tails);
    }
  }

  lemma {:induction false} NoneTwice<T>(s: seq<T>)
    requires Distinct(s)
    ensures Distinct(Permutations(s))
    decreases |s|, |s| + 1
  {
    if s != [] {
      NoneTwiceFrom(s, 0);
    }
  }

  lemma {:induction false} NoneTwiceFrom<T>(s: seq<T>, i: nat)
    requires Distinct(s) && i <= |s|
    ensures Distinct(StartingFrom(s, i))
    decreases |s|, |s| - i
  {
    if i < |s| {
      var tails := Permutations(Without(s, i));
      var here, rest := Prepended(s[i], tails), StartingFrom(s, i + 1);
      NoneTwice(Without(s, i));
      NoneTwiceFrom(s, i + 1);
      EachFromIsAPermutation(s, i + 1);
      forall k, l | 0 <= k < l < |here + rest| ensures (here + rest)[k] != (here + rest)[l] {
        if l < |here| {
          assert here[k][1..] == tails[k] && here[l][1..] == tails[l];
        } else if k < |here| {
          assert here[k][0] == s[i] && rest[l - |here|][0] in s[i + 1..];
        }
      }
    }
  }

  // ---- In the order of their positions ----

  /** `p` comes before `q`: where they first differ, `p` has the lane that is declared earlier. */
  ghost predicate Before<T>(s: seq<T>, p: seq<T>, q: seq<T>) {
    exists d, a, b :: DiffersAt(s, p, q, d, a, b)
  }

  ghost predicate DiffersAt<T>(s: seq<T>, p: seq<T>, q: seq<T>, d: int, a: int, b: int) {
    0 <= d < |p| && d < |q| && p[..d] == q[..d] && 0 <= a < b < |s| && s[a] == p[d] && s[b] == q[d]
  }

  lemma BeforeFromLess<T>(s: seq<T>, i: nat, p: seq<T>, q: seq<T>)
    requires i < |s| && Before(Without(s, i), p, q)
    ensures Before(s, [s[i]] + p, [s[i]] + q)
  {
    var d, a, b :| DiffersAt(Without(s, i), p, q, d, a, b);
    var one, two := [s[i]] + p, [s[i]] + q;
    assert one[..d + 1] == [s[i]] + p[..d] && two[..d + 1] == [s[i]] + q[..d];
    assert DiffersAt(s, one, two, d + 1, if a < i then a else a + 1, if b < i then b else b + 1);
  }

  lemma {:induction false} InOrder<T>(s: seq<T>, k: nat, l: nat)
    requires k < l < |Permutations(s)|
    ensures Before(s, Permutations(s)[k], Permutations(s)[l])
    decreases |s|, |s| + 1
  {
    if s != [] {
      InOrderFrom(s, 0, k, l);
    }
  }

  lemma {:induction false} StartsLater<T>(s: seq<T>, i: nat, k: nat) returns (a: nat)
    requires i <= |s| && k < |StartingFrom(s, i)|
    ensures i <= a < |s| && StartingFrom(s, i)[k] != [] && StartingFrom(s, i)[k][0] == s[a]
    decreases |s| - i
  {
    var here := Prepended(s[i], Permutations(Without(s, i)));
    if k < |here| {
      a := i;
    } else {
      a := StartsLater(s, i + 1, k - |here|);
    }
  }

  /** The orders come as their lanes are declared: by the first lane, then by the next. */
  lemma {:induction false} InOrderFrom<T>(s: seq<T>, i: nat, k: nat, l: nat)
    requires i <= |s| && k < l < |StartingFrom(s, i)|
    ensures Before(s, StartingFrom(s, i)[k], StartingFrom(s, i)[l])
    decreases |s|, |s| - i
  {
    var tails := Permutations(Without(s, i));
    var here, rest := Prepended(s[i], tails), StartingFrom(s, i + 1);
    assert StartingFrom(s, i) == here + rest;
    if l < |here| {
      InOrder(Without(s, i), k, l);
      BeforeFromLess(s, i, tails[k], tails[l]);
    } else if k < |here| {
      var a := StartsLater(s, i + 1, l - |here|);
      assert DiffersAt(s, here[k], rest[l - |here|], 0, i, a);
    } else {
      InOrderFrom(s, i + 1, k - |here|, l - |here|);
    }
  }

  /** The first order is the declared one. */
  lemma {:induction false} FirstIsDeclared<T>(s: seq<T>)
    ensures |Permutations(s)| > 0 && Permutations(s)[0] == s
  {
    if s != [] {
      FirstIsDeclared(Without(s, 0));
      assert Without(s, 0) == s[1..] && s == [s[0]] + s[1..];
    }
  }

  // ---- Any full round of blocks ----

  /** The orders of `count` consecutive blocks. */
  function Round<T>(lanes: seq<T>, block: int, count: nat): seq<seq<T>> {
    seq(count, k => Orders(lanes, block + k))
  }

  lemma ShiftedRemainder(block: int, k: nat, n: nat)
    requires 0 < n && k < n
    ensures (block + k) % n == if block % n + k < n then block % n + k else block % n + k - n
  {
    var q, r := block / n, block % n;
    assert block == q * n + r;
    if r + k < n {
      RemainderOf(q, n, r + k);
    } else {
      assert block + k == (q + 1) * n + (r + k - n);
      RemainderOf(q + 1, n, r + k - n);
    }
  }

  lemma SmallMultiple(e: int, n: int)
    requires 0 < n && -n < e * n < n
    ensures e == 0
  {
  }

  lemma RemainderOf(q: int, n: nat, r: nat)
    requires r < n
    ensures (q * n + r) % n == r
  {
    var x := q * n + r;
    var d, m := x / n, x % n;
    assert x == d * n + m;
    assert (q - d) * n == m - r;
    SmallMultiple(q - d, n);
  }

  /** A full round of blocks, wherever it starts, is the permutations turned to start there. */
  lemma RoundIsARotation<T>(lanes: seq<T>, block: int)
    ensures var permutations := Permutations(lanes);
            |permutations| == Factorial(|lanes|) && var turn := block % |permutations|;
            Round(lanes, block, |permutations|) == permutations[turn..] + permutations[..turn]
  {
    hide Permutations, Orders;
    HowMany(lanes);
    var permutations := Permutations(lanes);
    var n, turn := |permutations|, block % |permutations|;
    var round, turned := Round(lanes, block, n), permutations[turn..] + permutations[..turn];
    forall k | 0 <= k < n ensures round[k] == turned[k] {
      TurnedOrder(lanes, block, k);
      TurnedAt(permutations, turn, k);
    }
    assert round == turned;
  }

  lemma TurnedOrder<T>(lanes: seq<T>, block: int, k: nat)
    requires k < |Permutations(lanes)|
    ensures var permutations := Permutations(lanes);
            var n, turn := |permutations|, block % |permutations|;
            Orders(lanes, block + k) == permutations[if turn + k < n then turn + k else turn + k - n]
  {
    hide Permutations, Factorial;
    HowMany(lanes);
    ShiftedRemainder(block, k, |Permutations(lanes)|);
  }

  /** A list turned to start at `turn`. */
  lemma TurnedAt<T>(list: seq<T>, turn: nat, k: nat)
    requires turn < |list| && k < |list|
    ensures (list[turn..] + list[..turn])[k] == list[if turn + k < |list| then turn + k else turn + k - |list|]
  {
  }

  /** Any n! consecutive blocks use every permutation of n distinct lanes exactly once. */
  lemma EveryRoundUsesEachOrderOnce<T>(lanes: seq<T>, block: int)
    requires Distinct(lanes)
    ensures var round := Round(lanes, block, Factorial(|lanes|));
            && Distinct(round)
            && forall p :: p in round <==> multiset(p) == multiset(lanes)
  {
    RoundIsARotation(lanes, block);
    NoneTwice(lanes);
    var permutations := Permutations(lanes);
    var round, turn := Round(lanes, block, |permutations|), block % |permutations|;
    assert permutations == permutations[..turn] + permutations[turn..];
    forall p ensures p in round <==> multiset(p) == multiset(lanes) {
      assert p in round <==> p in permutations;
      if p in permutations {
        EachIsAPermutation(lanes);
      }
      if multiset(p) == multiset(lanes) {
        EveryPermutationIsThere(lanes, p);
      }
    }
  }

  // ---- Each lane in each position ----

  /** How many of the orders have `lane` at `position`. */
  function CountAt<T(==)>(orders: seq<seq<T>>, position: nat, lane: T): nat {
    if orders == [] then 0
    else (if position < |orders[0]| && orders[0][position] == lane then 1 else 0) + CountAt(orders[1..], position, lane)
  }

  lemma {:induction false} CountAppend<T>(one: seq<seq<T>>, two: seq<seq<T>>, position: nat, lane: T)
    ensures CountAt(one + two, position, lane) == CountAt(one, position, lane) + CountAt(two, position, lane)
  {
    if one == [] {
      assert one + two == two;
    } else {
      assert (one + two)[1..] == one[1..] + two;
      CountAppend(one[1..], two, position, lane);
    }
  }

  lemma {:induction false} CountPrepended<T>(x: T, tails: seq<seq<T>>, position: nat, lane: T)
    ensures CountAt(Prepended(x, tails), position, lane)
         == if position == 0 then (if x == lane then |tails| else 0) else CountAt(tails, position - 1, lane)
  {
    if tails != [] {
      var lists := Prepended(x, tails);
      assert lists[1..] == Prepended(x, tails[1..]);
      assert lists[0] == [x] + tails[0];
      CountPrepended(x, tails[1..], position, lane);
    }
  }

  lemma {:induction false} CountOfNone<T>(orders: seq<seq<T>>, position: nat, lane: T)
    requires forall k :: 0 <= k < |orders| ==> lane !in orders[k]
    ensures CountAt(orders, position, lane) == 0
  {
    if orders != [] {
      CountOfNone(orders[1..], position, lane);
    }
  }

  lemma DistinctWithout<T>(s: seq<T>, i: nat)
    requires Distinct(s) && i < |s|
    ensures Distinct(Without(s, i)) && s[i] !in Without(s, i)
  {
    var rest := Without(s, i);
    assert forall k :: 0 <= k < |rest| ==> rest[k] == s[if k < i then k else k + 1];
  }

  /** Among all permutations of n distinct lanes, each lane stands in each position (n-1)! times. */
  lemma {:induction false} EachLaneInEachPosition<T>(s: seq<T>, position: nat, lane: T)
    requires Distinct(s) && position < |s| && lane in s
    ensures CountAt(Permutations(s), position, lane) == Factorial(|s| - 1)
    decreases |s|, |s| + 3
  {
    AllAhead(s, lane);
    if position == 0 {
      FirstFrom(s, 0, lane);
    } else {
      LaterFrom(s, 0, position, lane);
      TimesIsProduct(|s| - 1, Factorial(|s| - 2));
    }
  }

  lemma AllAhead<T>(s: seq<T>, lane: T)
    requires lane in s
    ensures Ahead(s, 0, lane) == 1 && Permutations(s) == StartingFrom(s, 0)
  {
    assert s[0..] == s;
  }

  /** A lane is at one place or later. */
  function Ahead<T(==)>(s: seq<T>, i: nat, lane: T): nat
    requires i <= |s|
  {
    if lane in s[i..] then 1 else 0
  }

  lemma AheadSplits<T>(s: seq<T>, i: nat, lane: T)
    requires Distinct(s) && i < |s|
    ensures Ahead(s, i, lane) == Ahead(s, i + 1, lane) + if s[i] == lane then 1 else 0
  {
    assert s[i..] == [s[i]] + s[i + 1..];
    assert s[i] !in s[i + 1..];
  }

  lemma {:induction false} FirstFrom<T>(s: seq<T>, i: nat, lane: T)
    requires Distinct(s) && s != [] && i <= |s|
    ensures CountAt(StartingFrom(s, i), 0, lane) == if lane in s[i..] then Factorial(|s| - 1) else 0
    decreases |s| - i
  {
    if i < |s| {
      FirstHere(s, i, lane);
      AheadSplits(s, i, lane);
      FirstFrom(s, i + 1, lane);
    }
  }

  lemma FirstHere<T>(s: seq<T>, i: nat, lane: T)
    requires i < |s|
    ensures CountAt(StartingFrom(s, i), 0, lane)
         == (if lane == s[i] then Factorial(|s| - 1) else 0) + CountAt(StartingFrom(s, i + 1), 0, lane)
  {
    hide Factorial;
    var tails := Permutations(Without(s, i));
    CountAppend(Prepended(s[i], tails), StartingFrom(s, i + 1), 0, lane);
    CountPrepended(s[i], tails, 0, lane);
    HowMany(Without(s, i));
  }

  lemma {:induction false} LaterFrom<T>(s: seq<T>, i: nat, position: nat, lane: T)
    requires Distinct(s) && 0 < position < |s| && lane in s && i <= |s|
    ensures CountAt(StartingFrom(s, i), position, lane) == Times(|s| - i - Ahead(s, i, lane), Factorial(|s| - 2))
    decreases |s|, |s| - i + 2
  {
    if i < |s| {
      LaterHere(s, i, position, lane);
      AheadSplits(s, i, lane);
      LaterFrom(s, i + 1, position, lane);
    }
  }

  lemma {:induction false} LaterHere<T>(s: seq<T>, i: nat, position: nat, lane: T)
    requires Distinct(s) && 0 < position < |s| && lane in s && i < |s|
    ensures CountAt(StartingFrom(s, i), position, lane)
         == (if lane == s[i] then 0 else Factorial(|s| - 2)) + CountAt(StartingFrom(s, i + 1), position, lane)
    decreases |s|, 1
  {
    var tails := Permutations(Without(s, i));
    CountAppend(Prepended(s[i], tails), StartingFrom(s, i + 1), position, lane);
    CountPrepended(s[i], tails, position, lane);
    HeadCount(s, i, position, lane);
  }

  /** With `s[i]` first, another lane stands at a later position (n-2)! times, and `s[i]` itself never. */
  lemma {:induction false} HeadCount<T>(s: seq<T>, i: nat, position: nat, lane: T)
    requires Distinct(s) && 0 < position < |s| && lane in s && i < |s|
    ensures CountAt(Permutations(Without(s, i)), position - 1, lane) == if lane == s[i] then 0 else Factorial(|s| - 2)
    decreases |s|, 0
  {
    var rest := Without(s, i);
    DistinctWithout(s, i);
    if lane == s[i] {
      EachIsAPermutation(rest);
      forall k | 0 <= k < |Permutations(rest)| ensures lane !in Permutations(rest)[k] {
        assert lane !in multiset(rest);
        assert lane !in multiset(Permutations(rest)[k]);
      }
      CountOfNone(Permutations(rest), position - 1, lane);
    } else {
      var k :| 0 <= k < |s| && s[k] == lane;
      assert rest[if k < i then k else k - 1] == lane;
      EachLaneInEachPosition(rest, position - 1, lane);
    }
  }

  /** Over any n! consecutive blocks each of n distinct lanes sits in each position exactly (n-1)! times. */
  lemma EveryRoundIsBalanced<T>(lanes: seq<T>, block: int, position: nat, lane: T)
    requires Distinct(lanes) && position < |lanes| && lane in lanes
    ensures CountAt(Round(lanes, block, Factorial(|lanes|)), position, lane) == Factorial(|lanes| - 1)
  {
    RoundIsARotation(lanes, block);
    var permutations := Permutations(lanes);
    var turn := block % |permutations|;
    assert permutations == permutations[..turn] + permutations[turn..];
    CountAppend(permutations[..turn], permutations[turn..], position, lane);
    CountAppend(permutations[turn..], permutations[..turn], position, lane);
    EachLaneInEachPosition(lanes, position, lane);
  }
}
