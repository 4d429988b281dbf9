/** Shared helpers: the random index drawn from `Math.random()`, the in-place
    Fisher-Yates shuffle and the PROTECTOR test on a field. */
module Utils {
  import opened Cards

  /** A sequence of `Math.random()` results: each lies in [0, 1). */
  predicate ValidRolls(rolls: seq<real>) {
    forall k :: 0 <= k < |rolls| ==> 0.0 <= rolls[k] < 1.0
  }

  /** `Math.floor(rand * n)` for a `rand` drawn by `Math.random()`. */
  function RandomIndex(rand: real, n: nat): (i: nat)
    requires 0.0 <= rand < 1.0 && n > 0
    ensures i < n
    ensures i as real <= rand * n as real < i as real + 1.0
  {
    assert 0.0 <= rand * n as real < n as real;
    (rand * n as real).Floor
  }

  /** Every index 0 <= i < n is the result of some roll: the choice ranges
      over the whole eligible set. */
  lemma RandomIndexCovers(i: nat, n: nat)
    requires i < n
    ensures 0.0 <= i as real / n as real < 1.0
    ensures RandomIndex(i as real / n as real, n) == i
  {
    var r := i as real / n as real;
    assert r * n as real == i as real;
  }

  function Swap<T>(s: seq<T>, i: nat, j: nat): (r: seq<T>)
    requires i < |s| && j < |s|
    ensures |r| == |s| && r[i] == s[j] && r[j] == s[i]
    ensures forall k :: 0 <= k < |s| && k != i && k != j ==> r[k] == s[k]
  {
    s[i := s[j]][j := s[i]]
  }

  /** The Fisher-Yates loop of `shuffleDeck` from position `i` down to 1;
      the iteration at position `i` uses roll number |s|-1-i. */
  function ShuffleFrom<T>(s: seq<T>, i: int, rolls: seq<real>): seq<T>
    requires i < |s|
    requires ValidRolls(rolls) && |rolls| >= |s| - 1
    decreases i
  {
    if i <= 0 then s
    else ShuffleFrom(Swap(s, i, RandomIndex(rolls[|s| - 1 - i], i + 1)), i - 1, rolls)
  }

  /** The whole shuffle, from the last position down. */
  function Shuffled<T>(s: seq<T>, rolls: seq<real>): seq<T>
    requires ValidRolls(rolls) && |rolls| >= |s| - 1
  {
    ShuffleFrom(s, |s| - 1, rolls)
  }

  lemma SwapPermutation<T>(s: seq<T>, i: nat, j: nat)
    requires i < |s| && j < |s|
    ensures multiset(Swap(s, i, j)) == multiset(s)
  {
    if i != j {
      var t := s[i := s[j]];
      assert multiset(t) == multiset(s) - multiset{s[i]} + multiset{s[j]};
      assert multiset(t[j := s[i]]) == multiset(t) - multiset{t[j]} + multiset{s[i]};
    }
  }

  /** The shuffle keeps the length and the multiset of its input: it only swaps. */
  lemma {:induction false} ShufflePermutation<T>(s: seq<T>, i: int, rolls: seq<real>)
    requires i < |s|
    requires ValidRolls(rolls) && |rolls| >= |s| - 1
    ensures |ShuffleFrom(s, i, rolls)| == |s|
    ensures multiset(ShuffleFrom(s, i, rolls)) == multiset(s)
    decreases i
  {
    if i > 0 {
      var j := RandomIndex(rolls[|s| - 1 - i], i + 1);
      SwapPermutation(s, i, j);
      ShufflePermutation(Swap(s, i, j), i - 1, rolls);
    }
  }

  /** Positions above `i` are never touched by the remaining iterations. */
  lemma {:induction false} ShuffleKeepsAbove<T>(s: seq<T>, i: int, rolls: seq<real>, k: nat)
    requires i < k < |s|
    requires ValidRolls(rolls) && |rolls| >= |s| - 1
    ensures |ShuffleFrom(s, i, rolls)| == |s|
    ensures ShuffleFrom(s, i, rolls)[k] == s[k]
    decreases i
  {
    ShufflePermutation(s, i, rolls);
    if i > 0 {
      var j := RandomIndex(rolls[|s| - 1 - i], i + 1);
      ShuffleKeepsAbove(Swap(s, i, j), i - 1, rolls, k);
    }
  }

  /** Once the iteration at position `i` has swapped `s[i]` with `s[j]`
      (j in [0, i]), every position at or above `i` holds its final value. */
  lemma ShuffleFinality<T>(s: seq<T>, i: nat, rolls: seq<real>)
    requires 0 < i < |s|
    requires ValidRolls(rolls) && |rolls| >= |s| - 1
    ensures RandomIndex(rolls[|s| - 1 - i], i + 1) <= i
    ensures |ShuffleFrom(s, i, rolls)| == |s|
    ensures forall k :: i <= k < |s| ==>
      ShuffleFrom(s, i, rolls)[k] == Swap(s, i, RandomIndex(rolls[|s| - 1 - i], i + 1))[k]
  {
    var t := Swap(s, i, RandomIndex(rolls[|s| - 1 - i], i + 1));
    ShufflePermutation(s, i, rolls);
    forall k | i <= k < |s|
      ensures ShuffleFrom(s, i, rolls)[k] == t[k]
    {
      ShuffleKeepsAbove(t, i - 1, rolls, k);
    }
  }

  /** An array of length 0 or 1 is left as it is. */
  lemma ShuffleShort<T>(s: seq<T>, rolls: seq<real>)
    requires |s| <= 1
    requires ValidRolls(rolls)
    ensures Shuffled(s, rolls) == s
  {
  }

  /** `shuffleDeck`: Fisher-Yates in place; roll number m drives the m-th swap. */
  method ShuffleDeck<T>(a: array<T>, rolls: seq<real>)
    requires ValidRolls(rolls) && |rolls| >= a.Length - 1
    modifies a
    ensures a[..] == Shuffled(old(a[..]), rolls)
  {
    var i := a.Length - 1;
    while i > 0
      invariant -1 <= i < a.Length
      invariant a.Length > 0 ==> i >= 0
      invariant ShuffleFrom(a[..], i, rolls) == Shuffled(old(a[..]), rolls)
    {
      var j := RandomIndex(rolls[a.Length - 1 - i], i + 1);
      ghost var before := a[..];
      a[i], a[j] := a[j], a[i];
      assert a[..] == Swap(before, i, j);
      assert ShuffleFrom(before, i, rolls) == ShuffleFrom(a[..], i - 1, rolls);
      i := i - 1;
    }
  }

  /** `hasProtector` on a field entry list: some non-null entry is a
      PROTECTOR Monstre. */
  function AnyProtector(entries: seq<Option<Card>>): (r: bool)
    ensures r <==> exists k :: 0 <= k < |entries| && entries[k].Some? && IsProtector(entries[k].value)
  {
    if |entries| == 0 then false
    else (entries[0].Some? && IsProtector(entries[0].value)) || AnyProtector(entries[1..])
  }

  /** `hasProtector(field)`: `None` stands for null or a value that is not an array. */
  function HasProtector(field: Option<seq<Option<Card>>>): (r: bool)
    ensures field.None? ==> !r
    ensures field.Some? ==>
      (r <==> exists k :: 0 <= k < |field.value| && field.value[k].Some? && IsProtector(field.value[k].value))
  {
    field.Some? && AnyProtector(field.value)
  }

  /** A field as the array of (non-null) cards that the engine passes. */
  function Entries(cards: seq<Card>): (e: seq<Option<Card>>)
    ensures |e| == |cards| && forall k :: 0 <= k < |cards| ==> e[k] == Some(cards[k])
  {
    seq(|cards|, k requires 0 <= k < |cards| => Some(cards[k]))
  }

  /** `hasProtector` applied to a field of cards. */
  function FieldHasProtector(cards: seq<Card>): (r: bool)
    ensures r <==> exists c :: c in cards && IsProtector(c)
    ensures cards == [] ==> !r
  {
    var e := Entries(cards);
    assert forall k :: 0 <= k < |cards| ==> e[k].Some? && e[k].value == cards[k];
    HasProtector(Some(e))
  }
}
