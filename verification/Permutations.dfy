/** The model checker's in-place schedule generator. */
module Permutations {
  import opened Arithmetic

  type Event = string

  function Swap(s: seq<Event>, i: nat, j: nat): (r: seq<Event>)
    requires i < |s| && j < |s|
    ensures |r| == |s|
  {
    s[i := s[j]][j := s[i]]
  }

  /** The lists appended by a call at `index` that finds `s` in the list. */
  function Schedules(s: seq<Event>, index: nat): seq<seq<Event>>
    decreases |s| - index, 1, 0
  {
    if index == |s| then [s] else SchedulesFrom(s, index, index)
  }

  /** ... and by its loop from position `i` on. */
  function SchedulesFrom(s: seq<Event>, index: nat, i: nat): seq<seq<Event>>
    requires index <= i
    decreases |s| - index, 0, |s| - i
  {
    if i >= |s| then [] else Schedules(Swap(s, index, i), index + 1) + SchedulesFrom(s, index, i + 1)
  }

  /** The `output` list, grown by the recursion. */
  class Output {
    var lists: seq<seq<Event>>

    constructor ()
      ensures lists == []
    {
      lists := [];
    }
  }

  method SwapCells(values: array<Event>, i: nat, j: nat)
    requires i < values.Length && j < values.Length
    modifies values
    ensures values[..] == Swap(old(values[..]), i, j)
  {
    var tmp := values[i];
    values[i] := values[j];
    values[j] := tmp;
  }

  method Generate(values: array<Event>, index: nat, output: Output)
    modifies values, output
    ensures values[..] == old(values[..])
    ensures output.lists == old(output.lists) + Schedules(old(values[..]), index)
    decreases values.Length - index
  {
    ghost var s, before := values[..], output.lists;
    if index == values.Length {
      output.lists := output.lists + [values[..]];
      return;
    }
    var i := index;
    while i < values.Length
      invariant index <= i
      invariant values[..] == s
      invariant output.lists + SchedulesFrom(s, index, i) == before + Schedules(s, index)
    {
      ghost var soFar := output.lists;
      SwapCells(values, index, i);
      assert values[..] == Swap(s, index, i);
      Generate(values, index + 1, output);
      assert output.lists == soFar + Schedules(Swap(s, index, i), index + 1);
      SwapCells(values, index, i);
      SwapTwice(s, index, i);
      LoopStep(soFar, s, index, i);
      i := i + 1;
    }
  }

  lemma LoopStep(soFar: seq<seq<Event>>, s: seq<Event>, index: nat, i: nat)
    requires index <= i < |s|
    ensures soFar + SchedulesFrom(s, index, i) ==
            soFar + Schedules(Swap(s, index, i), index + 1) + SchedulesFrom(s, index, i + 1)
  {}

  lemma SwapKeepsMultiset(s: seq<Event>, i: nat, j: nat)
    requires i < |s| && j < |s|
    ensures multiset(Swap(s, i, j)) == multiset(s)
  {}

  lemma SwapTwice(s: seq<Event>, i: nat, j: nat)
    requires i < |s| && j < |s|
    ensures Swap(Swap(s, i, j), i, j) == s
  {}

  // ---------------------------------------------------------------- which lists, and how many

  function Factorial(n: nat): nat {
    if n == 0 then 1 else n * Factorial(n - 1)
  }

  /** A reordering of `s` that keeps its first `index` cells. */
  ghost predicate Rearranges(p: seq<Event>, s: seq<Event>, index: nat)
    requires index <= |s|
  {
    |p| == |s| && p[..index] == s[..index] && multiset(p) == multiset(s)
  }

  ghost predicate NoRepeats<T>(s: seq<T>) {
    forall i, j :: 0 <= i < j < |s| ==> s[i] != s[j]
  }

  lemma {:induction false} CountFrom(s: seq<Event>, index: nat, i: nat)
    requires index <= i <= |s| && index < |s|
    ensures |SchedulesFrom(s, index, i)| == (|s| - i) * Factorial(|s| - index - 1)
    decreases |s| - index, 0, |s| - i
  {
    if i < |s| {
      var each := Factorial(|s| - index - 1);
      Count(Swap(s, index, i), index + 1);
      CountFrom(s, index, i + 1);
      assert |SchedulesFrom(s, index, i)| == each + |SchedulesFrom(s, index, i + 1)|;
      OneMore(|s| - i, each);
    }
  }

  /** Exactly (n - index)! lists are appended. */
  lemma {:induction false} Count(s: seq<Event>, index: nat)
    requires index <= |s|
    ensures |Schedules(s, index)| == Factorial(|s| - index)
    decreases |s| - index, 1, 0
  {
    if index < |s| {
      CountFrom(s, index, index);
    }
  }

  /** What a list keeps of the branch it comes out of. */
  lemma BranchHead(s: seq<Event>, index: nat, i: nat, p: seq<Event>)
    requires index <= i < |s| && Rearranges(p, Swap(s, index, i), index + 1)
    ensures p[index] == s[i] && p[..index] == s[..index]
  {
    var first := Swap(s, index, i);
    assert p[index] == p[..index + 1][index] == first[index];
    assert p[..index] == p[..index + 1][..index] == first[..index + 1][..index] == s[..index];
  }

  lemma {:induction false} SoundFrom(s: seq<Event>, index: nat, i: nat, p: seq<Event>)
    requires index <= i && index < |s| && p in SchedulesFrom(s, index, i)
    ensures Rearranges(p, s, index)
    ensures exists j :: i <= j < |s| && p[index] == s[j] && p in Schedules(Swap(s, index, j), index + 1)
    decreases |s| - index, 0, |s| - i
  {
    var first := Swap(s, index, i);
    if p in Schedules(first, index + 1) {
      Sound(first, index + 1, p);
      SwapKeepsMultiset(s, index, i);
      BranchHead(s, index, i, p);
    } else {
      SoundFrom(s, index, i + 1, p);
    }
  }

  /** Every appended list is a rearrangement that keeps the prefix. */
  lemma {:induction false} Sound(s: seq<Event>, index: nat, p: seq<Event>)
    requires index <= |s| && p in Schedules(s, index)
    ensures Rearranges(p, s, index)
    decreases |s| - index, 1, 0
  {
    if index < |s| {
      SoundFrom(s, index, index, p);
    }
  }

  lemma {:induction false} CompleteFrom(s: seq<Event>, index: nat, i: nat, j: nat, p: seq<Event>)
    requires index <= i <= j < |s| && p in Schedules(Swap(s, index, j), index + 1)
    ensures p in SchedulesFrom(s, index, i)
    decreases j - i
  {
    if i < j {
      CompleteFrom(s, index, i + 1, j, p);
    }
  }

  /** Equal multisets with equal prefixes have equal suffix multisets. */
  lemma SuffixMultisets(p: seq<Event>, s: seq<Event>, index: nat)
    requires index <= |s| && Rearranges(p, s, index)
    ensures multiset(p[index..]) == multiset(s[index..])
  {
    assert p == p[..index] + p[index..];
    assert s == s[..index] + s[index..];
    assert multiset(p[index..]) == multiset(p) - multiset(p[..index]);
    assert multiset(s[index..]) == multiset(s) - multiset(s[..index]);
  }

  /** No rearrangement is missing. */
  lemma {:induction false} Complete(s: seq<Event>, index: nat, p: seq<Event>)
    requires index <= |s| && Rearranges(p, s, index)
    ensures p in Schedules(s, index)
    decreases |s| - index
  {
    if index == |s| {
      assert p == p[..index] == s[..index] == s;
    } else {
      SuffixMultisets(p, s, index);
      assert p[index..][0] in multiset(p[index..]);
      assert p[index] in s[index..];
      var j :| index <= j < |s| && s[j] == p[index];
      var swapped := Swap(s, index, j);
      assert p[..index + 1] == p[..index] + [p[index]];
      assert swapped[..index + 1] == s[..index] + [s[j]];
      SwapKeepsMultiset(s, index, j);
      Complete(swapped, index + 1, p);
      CompleteFrom(s, index, index, j, p);
    }
  }

  // ---------------------------------------------------------------- when they are pairwise different

  lemma NoRepeatsJoined<T>(a: seq<T>, b: seq<T>)
    requires NoRepeats(a) && NoRepeats(b) && (forall x :: x in a ==> x !in b)
    ensures NoRepeats(a + b)
  {
    var c := a + b;
    forall i, j | 0 <= i < j < |c|
      ensures c[i] != c[j]
    {
      if i < |a| <= j {
        assert c[i] in a && c[j] in b;
      }
    }
  }

  lemma NoRepeatsParts<T>(a: seq<T>, b: seq<T>)
    requires NoRepeats(a + b)
    ensures NoRepeats(a) && NoRepeats(b)
  {
    var c := a + b;
    forall i, j | 0 <= i < j < |a| ensures a[i] != a[j] {
      assert c[i] == a[i] && c[j] == a[j];
    }
    forall i, j | 0 <= i < j < |b| ensures b[i] != b[j] {
      assert c[|a| + i] == b[i] && c[|a| + j] == b[j];
    }
  }

  lemma NoRepeatsApart<T>(a: seq<T>, b: seq<T>, x: T)
    requires NoRepeats(a + b) && x in a
    ensures x !in b
  {
    var c := a + b;
    var i :| 0 <= i < |a| && a[i] == x;
    forall j | 0 <= j < |b| ensures b[j] != x {
      assert c[i] != c[|a| + j];
    }
  }

  lemma NoRepeatsConcat<T>(a: seq<T>, b: seq<T>)
    ensures NoRepeats(a + b) <==> NoRepeats(a) && NoRepeats(b) && (forall x :: x in a ==> x !in b)
  {
    if NoRepeats(a + b) {
      NoRepeatsParts(a, b);
      forall x | x in a ensures x !in b {
        NoRepeatsApart(a, b, x);
      }
    } else if NoRepeats(a) && NoRepeats(b) && (forall x :: x in a ==> x !in b) {
      NoRepeatsJoined(a, b);
    }
  }

  lemma {:induction false} DifferentFrom(s: seq<Event>, index: nat, i: nat)
    requires index <= i && index < |s| && NoRepeats(s[index..])
    ensures NoRepeats(SchedulesFrom(s, index, i))
    decreases |s| - index, 0, |s| - i
  {
    if i < |s| {
      SwapKeepsNoRepeats(s, index, i);
      Different(Swap(s, index, i), index + 1);
      DifferentFrom(s, index, i + 1);
      var first, rest := Schedules(Swap(s, index, i), index + 1), SchedulesFrom(s, index, i + 1);
      forall p | p in first
        ensures p !in rest
      {
        if p in rest {
          BranchesDiffer(s, index, i, p);
        }
      }
      NoRepeatsConcat(first, rest);
    }
  }

  /** A list cannot come out of two loop positions that hold different events. */
  lemma BranchesDiffer(s: seq<Event>, index: nat, i: nat, p: seq<Event>)
    requires index <= i < |s|
    requires p in Schedules(Swap(s, index, i), index + 1) && p in SchedulesFrom(s, index, i + 1)
    ensures !NoRepeats(s[index..])
  {
    var swapped := Swap(s, index, i);
    SoundFrom(s, index, i + 1, p);
    Sound(swapped, index + 1, p);
    var j :| i + 1 <= j < |s| && p[index] == s[j];
    BranchHead(s, index, i, p);
    assert s[index..][i - index] == s[index..][j - index];
  }

  lemma SwapKeepsNoRepeats(s: seq<Event>, index: nat, i: nat)
    requires index <= i < |s| && NoRepeats(s[index..])
    ensures NoRepeats(Swap(s, index, i)[index + 1..])
  {
    var t, u := Swap(s, index, i)[index + 1..], s[index..];
    assert forall a :: 0 <= a < |t| ==> t[a] == if index + 1 + a == i then u[0] else u[a + 1];
  }

  lemma {:induction false} Different(s: seq<Event>, index: nat)
    requires index <= |s| && NoRepeats(s[index..])
    ensures NoRepeats(Schedules(s, index))
    decreases |s| - index, 1, 0
  {
    if index < |s| {
      DifferentFrom(s, index, index);
    }
  }

  /** A repeated event is swapped with its twin, or is repeated further on: some list comes out twice. */
  lemma {:induction false} RepeatsShow(s: seq<Event>, index: nat)
    requires index <= |s| && !NoRepeats(s[index..])
    ensures !NoRepeats(Schedules(s, index))
    decreases |s| - index
  {
    assert index < |s|;
    var first, rest := Schedules(s, index + 1), SchedulesFrom(s, index, index + 1);
    FirstBranch(s, index);
    NoRepeatsConcat(first, rest);
    if s[index] in s[index + 1..] {
      var j :| index < j < |s| && s[j] == s[index];
      assert Swap(s, index, j) == s;
      Complete(s, index + 1, s);
      CompleteFrom(s, index, index + 1, j, s);
    } else {
      NoRepeatsConcat([s[index]], s[index + 1..]);
      assert s[index..] == [s[index]] + s[index + 1..];
      RepeatsShow(s, index + 1);
    }
  }

  lemma FirstBranch(s: seq<Event>, index: nat)
    requires index < |s|
    ensures Schedules(s, index) == Schedules(s, index + 1) + SchedulesFrom(s, index, index + 1)
  {
    assert Swap(s, index, index) == s;
  }

  /** The lists are pairwise different exactly when the events being permuted are. */
  lemma DifferentExactly(s: seq<Event>, index: nat)
    requires index <= |s|
    ensures NoRepeats(Schedules(s, index)) <==> NoRepeats(s[index..])
  {
    if NoRepeats(s[index..]) {
      Different(s, index);
    } else {
      RepeatsShow(s, index);
    }
  }

  /** The whole contract of one call, over the list it found. */
  lemma SchedulesExactly(s: seq<Event>, index: nat)
    requires index <= |s|
    ensures |Schedules(s, index)| == Factorial(|s| - index)
    ensures forall p :: p in Schedules(s, index) <==> Rearranges(p, s, index)
    ensures NoRepeats(Schedules(s, index)) <==> NoRepeats(s[index..])
  {
    Count(s, index);
    DifferentExactly(s, index);
    forall p
      ensures p in Schedules(s, index) <==> Rearranges(p, s, index)
    {
      if p in Schedules(s, index) {
        Sound(s, index, p);
      }
      if Rearranges(p, s, index) {
        Complete(s, index, p);
      }
    }
  }

  /** Two equal events: one list, appended twice. */
  lemma TwinsRepeat(e: Event)
    ensures Schedules([e, e], 0) == [[e, e], [e, e]]
  {
    var s := [e, e];
    assert Swap(s, 0, 0) == s && Swap(s, 0, 1) == s && Swap(s, 1, 1) == s;
    assert Schedules(s, 2) == [s];
    assert SchedulesFrom(s, 1, 1) == Schedules(s, 2) + SchedulesFrom(s, 1, 2);
    assert Schedules(s, 1) == [s];
    assert SchedulesFrom(s, 0, 1) == Schedules(s, 1) + SchedulesFrom(s, 0, 2);
    assert SchedulesFrom(s, 0, 0) == Schedules(s, 1) + SchedulesFrom(s, 0, 1);
  }

  // ---------------------------------------------------------------- in which order

  /** A block of `each` lists and what comes after it. */
  lemma AfterBlock(block: seq<seq<Event>>, rest: seq<seq<Event>>, each: nat, place: nat)
    requires |block| == each
    ensures place < each ==> (block + rest)[place] == block[place]
    ensures each <= place < each + |rest| ==> (block + rest)[place] == rest[place - each]
  {}

  /** Place r after so many blocks. */
  function Place(blocks: nat, each: nat, r: nat): nat {
    if blocks == 0 then r else each + Place(blocks - 1, each, r)
  }

  lemma {:induction false} PlaceIs(blocks: nat, each: nat, r: nat)
    ensures Place(blocks, each, r) == blocks * each + r
  {
    if blocks > 0 {
      PlaceIs(blocks - 1, each, r);
      OneMore(blocks, each);
    }
  }

  lemma {:induction false} BlockFrom(s: seq<Event>, index: nat, i: nat, j: nat, r: nat, each: nat)
    requires index <= i <= j < |s| && r < each && each == Factorial(|s| - index - 1)
    ensures Place(j - i, each, r) < |SchedulesFrom(s, index, i)| && r < |Schedules(Swap(s, index, j), index + 1)|
    ensures SchedulesFrom(s, index, i)[Place(j - i, each, r)] == Schedules(Swap(s, index, j), index + 1)[r]
    decreases j - i
  {
    var block, rest := Schedules(Swap(s, index, i), index + 1), SchedulesFrom(s, index, i + 1);
    Count(Swap(s, index, i), index + 1);
    if i < j {
      BlockFrom(s, index, i + 1, j, r, each);
    }
    AfterBlock(block, rest, each, Place(j - i, each, r));
  }

  /**
   * The lists come in blocks of equal length, one for each position from `index` on, in order: block j holds what the
   * rest of the recursion makes of the list with the event of that position in front.
   */
  lemma BlockAt(s: seq<Event>, index: nat, j: nat, r: nat)
    requires index <= j < |s| && r < Factorial(|s| - index - 1)
    ensures 0 <= (j - index) * Factorial(|s| - index - 1) + r < |Schedules(s, index)|
    ensures var list := Schedules(s, index)[(j - index) * Factorial(|s| - index - 1) + r];
            |list| == |s| && list[..index] == s[..index] && list[index] == s[j]
    ensures r < |Schedules(Swap(s, index, j), index + 1)|
    ensures Schedules(s, index)[(j - index) * Factorial(|s| - index - 1) + r] ==
            Schedules(Swap(s, index, j), index + 1)[r]
  {
    BlockFrom(s, index, index, j, r, Factorial(|s| - index - 1));
    PlaceIs(j - index, Factorial(|s| - index - 1), r);
    var list := Schedules(Swap(s, index, j), index + 1)[r];
    assert list in Schedules(Swap(s, index, j), index + 1);
    Sound(Swap(s, index, j), index + 1, list);
    BranchHead(s, index, j, list);
  }

  /** The first list is the one the array started with. */
  lemma {:induction false} FirstIsItself(s: seq<Event>, index: nat)
    requires index <= |s|
    ensures Schedules(s, index) != [] && Schedules(s, index)[0] == s
    decreases |s| - index
  {
    if index < |s| {
      FirstIsItself(s, index + 1);
      FirstBranch(s, index);
    }
  }
}
