/**
 * The category filter: the toggle of one category name and the test whether
 * a joke's categories meet the filter.
 */
module Categories {

  /** `s.indexOf(x)`: the index of the first occurrence of `x`, or -1 when there is none. */
  function IndexOf<T(==)>(s: seq<T>, x: T): (i: int)
    ensures -1 <= i < |s|
    ensures i == -1 <==> x !in s
    ensures 0 <= i ==> s[i] == x && x !in s[..i]
  {
    if s == [] then -1
    else if s[0] == x then 0
    else
      var j := IndexOf(s[1..], x);
      assert x in s <==> x in s[1..];
      if j == -1 then -1
      else
        assert s[..j + 1] == [s[0]] + s[1..][..j];
        j + 1
  }

  /**
   * The filter after `toggleCategory(c)`: when `c` is in the filter its first
   * occurrence is spliced out of a copy; otherwise `c` is appended.
   */
  function Toggled(filter: seq<string>, c: string): (r: seq<string>)
    ensures c !in filter ==> r == filter + [c]
    ensures c in filter ==>
              exists i :: 0 <= i < |filter| && filter[i] == c && c !in filter[..i] &&
                          r == filter[..i] + filter[i + 1..]
  {
    if c in filter then
      var i := IndexOf(filter, c);
      filter[..i] + filter[i + 1..]
    else
      filter + [c]
  }

  /** Some category of the joke is in the filter. */
  predicate MatchesFilter(jokeCategories: seq<string>, filter: seq<string>)
  {
    exists i :: 0 <= i < |jokeCategories| && jokeCategories[i] in filter
  }

  /**
   * Toggling changes the filter by exactly one occurrence of `c`: a present
   * category loses one occurrence, an absent one gains one; no other name is
   * affected.
   */
  lemma ToggledMultiset(filter: seq<string>, c: string)
    ensures c in filter ==> multiset(Toggled(filter, c)) == multiset(filter) - multiset{c}
    ensures c !in filter ==> multiset(Toggled(filter, c)) == multiset(filter) + multiset{c}
    ensures forall d :: d != c ==> (d in Toggled(filter, c) <==> d in filter)
  {
    if c in filter {
      var i := IndexOf(filter, c);
      assert filter == filter[..i] + [c] + filter[i + 1..];
      assert multiset(filter) == multiset(filter[..i]) + multiset{c} + multiset(filter[i + 1..]);
    }
  }

  /** Toggling an absent category twice restores the filter exactly. */
  lemma ToggleAbsentTwice(filter: seq<string>, c: string)
    requires c !in filter
    ensures Toggled(Toggled(filter, c), c) == filter
  {
    var f := filter + [c];
    var i := IndexOf(f, c);
    assert c !in f[..|filter|];
    assert i == |filter|;
    assert f[..i] == filter;
  }

  /**
   * Toggling a category that occurs once, twice, restores the filter as a
   * multiset (so every name's membership), though `c` moves to the end.
   */
  lemma TogglePresentTwice(filter: seq<string>, c: string)
    requires multiset(filter)[c] == 1
    ensures multiset(Toggled(Toggled(filter, c), c)) == multiset(filter)
    ensures c in Toggled(Toggled(filter, c), c)
  {
    ToggledMultiset(filter, c);
    var once := Toggled(filter, c);
    assert c !in once by {
      assert multiset(once)[c] == 0;
    }
    ToggledMultiset(once, c);
  }

  /** Only the first occurrence is removed: a category listed twice stays in the filter after one toggle. */
  lemma ToggleDuplicateStays(filter: seq<string>, c: string)
    requires multiset(filter)[c] >= 2
    ensures c in Toggled(filter, c)
  {
    ToggledMultiset(filter, c);
    assert multiset(Toggled(filter, c))[c] >= 1;
  }

  /** Toggling a known category keeps the filter within the known categories. */
  lemma ToggleKeepsWithin(filter: seq<string>, categories: seq<string>, c: string)
    requires forall d :: d in filter ==> d in categories
    requires c in categories
    ensures forall d :: d in Toggled(filter, c) ==> d in categories
  {
    ToggledMultiset(filter, c);
  }
}
