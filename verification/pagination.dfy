/**
 * Client-side pagination over an already fetched joke list: the visible
 * window is a prefix of the list that grows by one page per load-more
 * trigger and is clamped at the list's end.
 */
module Pagination {

  /** Jokes revealed by the first install and by each load-more step. */
  const PageSize: nat := 10

  function Min(a: int, b: int): int
  {
    if a <= b then a else b
  }

  /** `s.slice(0, n)` for `n >= 0`: the longest prefix of `s` of length at most `n`, never padded. */
  function Take<T>(s: seq<T>, n: nat): (r: seq<T>)
    ensures r <= s
    ensures |r| == Min(n, |s|)
  {
    s[..Min(n, |s|)]
  }

  /** The window the load-more timer callback installs: one more page of `jokes` than is shown. */
  function NextWindow<T>(jokes: seq<T>, shown: seq<T>): (r: seq<T>)
  {
    Take(jokes, |shown| + PageSize)
  }

  /** The window after `k` load-more steps starting from `shown`. */
  function Paginated<T>(jokes: seq<T>, shown: seq<T>, k: nat): seq<T>
  {
    if k == 0 then shown else NextWindow(jokes, Paginated(jokes, shown, k - 1))
  }

  /**
   * A window that is a prefix of the list stays one after a load-more step,
   * never shrinks, grows by a full page unless the list ends first, and
   * stops growing exactly when the whole list is shown.
   */
  lemma NextWindowExtends<T>(jokes: seq<T>, shown: seq<T>)
    requires shown <= jokes
    ensures var r := NextWindow(jokes, shown);
            shown <= r <= jokes &&
            |r| == Min(|shown| + PageSize, |jokes|) &&
            (r == shown <==> shown == jokes)
  {
    var r := NextWindow(jokes, shown);
    assert shown == jokes[..|shown|];
    assert r == jokes[..|r|];
    assert shown == r[..|shown|];
  }

  /** A load-more step from a window of `n` requested jokes gives the window of `n + PageSize`. */
  lemma NextWindowOfTake<T>(jokes: seq<T>, n: nat)
    ensures NextWindow(jokes, Take(jokes, n)) == Take(jokes, n + PageSize)
  {
  }

  /** After the first install and `k` load-more steps, the window holds min(|jokes|, 10 + 10k) jokes. */
  lemma {:induction false} WindowAfterLoads<T>(jokes: seq<T>, k: nat)
    ensures Paginated(jokes, Take(jokes, PageSize), k) == Take(jokes, PageSize + PageSize * k)
    ensures |Paginated(jokes, Take(jokes, PageSize), k)| == Min(|jokes|, PageSize + PageSize * k)
  {
    if k > 0 {
      WindowAfterLoads(jokes, k - 1);
      NextWindowOfTake(jokes, PageSize + PageSize * (k - 1));
    }
  }

  /** With 25 jokes the window shows 10, then 20, then all 25 (clamped, not 30). */
  lemma TwentyFiveJokes<T>(jokes: seq<T>)
    requires |jokes| == 25
    ensures |Take(jokes, PageSize)| == 10
    ensures |Paginated(jokes, Take(jokes, PageSize), 1)| == 20
    ensures Paginated(jokes, Take(jokes, PageSize), 2) == jokes
  {
    WindowAfterLoads(jokes, 1);
    WindowAfterLoads(jokes, 2);
  }
}
