/**
 * Jokes as the API delivers them, and the list operations the like and
 * unlike handlers perform on them: `find` by id, `filter` by id, and the
 * insertion of a newly liked joke at the front of the liked list.
 */
module Jokes {
  import opened Wrappers

  /** One joke of a fetched batch; immutable once fetched. */
  datatype Joke = Joke(id: int, text: string, categories: seq<string>)

  /** Some entry of `s` carries `id`. */
  predicate HasId(s: seq<Joke>, id: int)
  {
    exists x :: x in s && x.id == id
  }

  /** No two entries of `s` carry the same id. */
  predicate DistinctIds(s: seq<Joke>)
  {
    forall i, j :: 0 <= i < j < |s| ==> s[i].id != s[j].id
  }

  /** Distinct ids, stated one entry at a time: the head's id does not recur in the tail. */
  lemma DistinctIdsCons(s: seq<Joke>)
    requires s != []
    ensures DistinctIds(s) <==> DistinctIds(s[1..]) && !HasId(s[1..], s[0].id)
  {
    if DistinctIds(s[1..]) && !HasId(s[1..], s[0].id) {
      forall i, j | 0 <= i < j < |s| ensures s[i].id != s[j].id {
        assert s[j] == s[1..][j - 1];
        if i > 0 {
          assert s[i] == s[1..][i - 1];
        }
      }
    }
    if DistinctIds(s) {
      forall x | x in s[1..] ensures x.id != s[0].id {
        var k :| 0 <= k < |s[1..]| && s[1..][k] == x;
        assert s[k + 1] == x;
      }
      forall i, j | 0 <= i < j < |s[1..]| ensures s[1..][i].id != s[1..][j].id {
        assert s[1..][i] == s[i + 1] && s[1..][j] == s[j + 1];
      }
    }
  }

  /** `s[j]` is the first entry of `s` that carries `id`. */
  predicate FirstWithId(s: seq<Joke>, id: int, j: int)
  {
    0 <= j < |s| && s[j].id == id && !HasId(s[..j], id)
  }

  /** `r` can be obtained from `s` by deleting entries; the order of what is kept is unchanged. */
  predicate IsSubsequence<T(==)>(r: seq<T>, s: seq<T>)
  {
    if r == [] then true
    else if s == [] then false
    else if r[0] == s[0] then IsSubsequence(r[1..], s[1..])
    else IsSubsequence(r, s[1..])
  }

  /** How many entries of `s` carry `id`. */
  function CountId(s: seq<Joke>, id: int): (n: nat)
    ensures n <= |s|
    ensures n == 0 <==> !HasId(s, id)
  {
    if s == [] then 0
    else
      assert forall i :: 0 < i < |s| ==> s[i] == s[1..][i - 1];
      (if s[0].id == id then 1 else 0) + CountId(s[1..], id)
  }

  /** `s.find(joke => joke.id === id)`: the first entry carrying `id`, or nothing. */
  function FindById(s: seq<Joke>, id: int): (r: Option<Joke>)
    ensures r.Some? <==> HasId(s, id)
    ensures r.Some? ==> exists j :: FirstWithId(s, id, j) && s[j] == r.value
  {
    if s == [] then None
    else if s[0].id == id then
      assert FirstWithId(s, id, 0);
      Some(s[0])
    else
      var r := FindById(s[1..], id);
      assert forall i :: 0 < i < |s| ==> s[i] == s[1..][i - 1];
      assert r.Some? ==> exists j :: FirstWithId(s, id, j) && s[j] == r.value by {
        if r.Some? {
          var j :| FirstWithId(s[1..], id, j) && s[1..][j] == r.value;
          assert s[..j + 1] == [s[0]] + s[1..][..j];
          assert FirstWithId(s, id, j + 1);
        }
      }
      r
  }

  /** `s.filter(joke => joke.id !== id)`: every entry carrying `id` dropped, the rest kept in order. */
  function WithoutId(s: seq<Joke>, id: int): (r: seq<Joke>)
    ensures !HasId(r, id)
    ensures IsSubsequence(r, s)
    ensures |r| == |s| - CountId(s, id)
    ensures forall x :: x in r <==> x in s && x.id != id
  {
    if s == [] then []
    else
      var rest := WithoutId(s[1..], id);
      assert forall x :: x in s <==> x == s[0] || x in s[1..];
      if s[0].id == id then
        assert rest != [] ==> rest[0] != s[0] by {
          if rest != [] { assert rest[0] in rest; }
        }
        rest
      else
        assert ([s[0]] + rest)[1..] == rest;
        [s[0]] + rest
  }

  /**
   * The liked list after `likeJoke(id)`: unchanged when an entry with `id` is
   * already liked; otherwise the first entry of `shown` carrying `id`, in
   * front of the old liked list.
   */
  function Like(liked: seq<Joke>, shown: seq<Joke>, id: int): (r: seq<Joke>)
    requires HasId(liked, id) || HasId(shown, id)
    ensures HasId(liked, id) ==> r == liked
    ensures !HasId(liked, id) ==>
              |r| == |liked| + 1 && r[1..] == liked &&
              r[0].id == id && exists j :: FirstWithId(shown, id, j) && shown[j] == r[0]
  {
    match FindById(liked, id)
    case Some(_) => liked
    case None => [FindById(shown, id).value] + liked
  }

  /** Liking twice is liking once. */
  lemma LikeIdempotent(liked: seq<Joke>, shown: seq<Joke>, id: int)
    requires HasId(liked, id) || HasId(shown, id)
    ensures Like(Like(liked, shown, id), shown, id) == Like(liked, shown, id)
  {
    var r := Like(liked, shown, id);
    if !HasId(liked, id) {
      assert r[0].id == id;
    }
  }

  /** Liking keeps the liked list free of duplicate ids. */
  lemma LikeKeepsDistinctIds(liked: seq<Joke>, shown: seq<Joke>, id: int)
    requires HasId(liked, id) || HasId(shown, id)
    requires DistinctIds(liked)
    ensures DistinctIds(Like(liked, shown, id))
  {
    var r := Like(liked, shown, id);
    if !HasId(liked, id) {
      forall i, j | 0 <= i < j < |r| ensures r[i].id != r[j].id {
        assert r[j] == liked[j - 1];
        if i > 0 {
          assert r[i] == liked[i - 1];
        }
      }
    }
  }

  /** Unliking an id that no entry carries leaves the list as it was. */
  lemma {:induction false} WithoutIdAbsent(s: seq<Joke>, id: int)
    requires !HasId(s, id)
    ensures WithoutId(s, id) == s
  {
    if s != [] {
      assert s[0].id != id;
      assert forall x :: x in s[1..] ==> x in s;
      WithoutIdAbsent(s[1..], id);
    }
  }

  /** Unliking keeps the liked list free of duplicate ids. */
  lemma {:induction false} WithoutIdKeepsDistinctIds(s: seq<Joke>, id: int)
    requires DistinctIds(s)
    ensures DistinctIds(WithoutId(s, id))
  {
    if s != [] {
      DistinctIdsCons(s);
      WithoutIdKeepsDistinctIds(s[1..], id);
      var rest := WithoutId(s[1..], id);
      if s[0].id != id {
        var r := [s[0]] + rest;
        assert r[1..] == rest;
        assert forall x :: x in rest ==> x in s[1..];
        DistinctIdsCons(r);
      }
    }
  }

  /** Unfolding hint: a list free of `id` has a tail free of `id` and a head with another id. */
  lemma NoIdSplit(r: seq<Joke>, id: int)
    requires r != [] && !HasId(r, id)
    ensures r[0].id != id && !HasId(r[1..], id)
  {
  }

  /** Unfolding hint: counting the ids of a non-empty list, the head and then the tail. */
  lemma CountIdCons(s: seq<Joke>, id: int)
    requires s != []
    ensures CountId(s, id) == (if s[0].id == id then 1 else 0) + CountId(s[1..], id)
  {
  }

  /** A subsequence of `s` without `id` has at most as many entries as `s` has entries without `id`. */
  lemma {:induction false} SubsequenceWithoutIdBound(r: seq<Joke>, s: seq<Joke>, id: int)
    requires IsSubsequence(r, s) && !HasId(r, id)
    ensures |r| <= |s| - CountId(s, id)
  {
    if r != [] {
      assert s != [];
      NoIdSplit(r, id);
      CountIdCons(s, id);
      if r[0] == s[0] {
        SubsequenceWithoutIdBound(r[1..], s[1..], id);
      } else {
        SubsequenceWithoutIdBound(r, s[1..], id);
      }
    }
  }

  /**
   * The three facts `WithoutId` ensures determine its result: any subsequence
   * of `s` free of `id` that is that long is the filtered list.
   */
  lemma {:induction false} WithoutIdUnique(r: seq<Joke>, s: seq<Joke>, id: int)
    requires IsSubsequence(r, s) && !HasId(r, id)
    requires |r| == |s| - CountId(s, id)
    ensures r == WithoutId(s, id)
  {
    if s == [] {
    } else if r == [] {
      assert |WithoutId(s, id)| == 0;
    } else {
      NoIdSplit(r, id);
      CountIdCons(s, id);
      if r[0] == s[0] {
        assert IsSubsequence(r[1..], s[1..]);
        WithoutIdUnique(r[1..], s[1..], id);
        assert WithoutId(s, id) == [s[0]] + WithoutId(s[1..], id);
        assert r == [r[0]] + r[1..];
      } else if s[0].id == id {
        assert IsSubsequence(r, s[1..]);
        WithoutIdUnique(r, s[1..], id);
      } else {
        SubsequenceWithoutIdBound(r, s[1..], id);
      }
    }
  }

  /**
   * Unliking an id and liking it again, while a joke with that id is shown,
   * leaves exactly one entry with that id, at the front.
   */
  lemma UnlikeThenLike(liked: seq<Joke>, shown: seq<Joke>, id: int)
    requires HasId(shown, id)
    ensures var r := Like(WithoutId(liked, id), shown, id);
            r[0].id == id && r[1..] == WithoutId(liked, id) && CountId(r, id) == 1
  {
    var w := WithoutId(liked, id);
    var r := Like(w, shown, id);
    assert r[1..] == w;
    assert CountId(w, id) == 0;
  }
}
