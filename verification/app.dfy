/**
 * The state of the `App` component and the handlers that move it from one
 * snapshot to the next. Each handler reads the current field values (its
 * render's closure) and installs the new ones in one step.
 */
module JokeApp {
  import opened Wrappers
  import opened Jokes
  import opened Pagination
  import opened Categories

  /** The names the jokes request is made for. */
  datatype NameQuery = NameQuery(firstName: string, lastName: string)

  /**
   * Submitting the name form: no request when either name is the empty
   * string (no trimming: a name of blanks is sent), otherwise a jokes
   * request for exactly the submitted names.
   */
  function ChangeName(firstName: string, lastName: string): (request: Option<NameQuery>)
    ensures request.None? <==> firstName == "" || lastName == ""
    ensures request.Some? ==> request.value.firstName == firstName && request.value.lastName == lastName
  {
    if firstName == "" || lastName == "" then None else Some(NameQuery(firstName, lastName))
  }

  /** An empty first name blocks the request; a blank one does not. */
  lemma ChangeNameExamples()
    ensures ChangeName("", "Norris") == None
    ensures ChangeName(" ", "Norris") == Some(NameQuery(" ", "Norris"))
  {
  }

  class App {
    var jokes: seq<Joke>
    var jokesToShow: seq<Joke>
    var likedJokes: seq<Joke>
    var categories: seq<string>
    var filterCategories: seq<string>
    var loading: bool

    /** The window is a prefix of the fetched list; no id is liked twice. */
    ghost predicate Valid()
      reads this
    {
      jokesToShow <= jokes && DistinctIds(likedJokes)
    }

    /** Every selected category is a known one. */
    ghost predicate FilterWithinCategories()
      reads this
    {
      forall c :: c in filterCategories ==> c in categories
    }

    /** The initial state: everything empty, not loading. */
    constructor ()
      ensures Valid() && FilterWithinCategories()
      ensures jokes == [] && jokesToShow == [] && likedJokes == []
      ensures categories == [] && filterCategories == [] && !loading
    {
      jokes, jokesToShow, likedJokes := [], [], [];
      categories, filterCategories := [], [];
      loading := false;
    }

    /** The mount effect: the loading indicator is raised before both fetches are issued. */
    method Mount()
      modifies this`loading
      ensures loading
    {
      loading := true;
    }

    /**
     * A jokes batch arrives: the whole batch becomes the list and its first
     * page the window; likes, categories, filter and loading are untouched.
     */
    method FetchData(batch: seq<Joke>)
      requires Valid()
      modifies this`jokes, this`jokesToShow
      ensures Valid()
      ensures jokes == batch && jokesToShow == Take(batch, PageSize)
      ensures |jokesToShow| == Min(PageSize, |batch|)
    {
      jokes := batch;
      jokesToShow := Take(batch, PageSize);
    }

    /** The category list arrives: it becomes both the known categories and the filter, and loading ends. */
    method FetchCategories(list: seq<string>)
      modifies this`categories, this`filterCategories, this`loading
      ensures categories == list && filterCategories == list && !loading
      ensures FilterWithinCategories()
    {
      categories := list;
      filterCategories := list;
      loading := false;
    }

    /**
     * Liking `id`: nothing changes when it is already liked; otherwise the
     * first shown joke with that id is put in front of the liked list.
     */
    method LikeJoke(id: int)
      requires Valid()
      requires HasId(likedJokes, id) || HasId(jokesToShow, id)
      modifies this`likedJokes
      ensures Valid()
      ensures likedJokes == Like(old(likedJokes), jokesToShow, id)
      ensures old(HasId(likedJokes, id)) ==> likedJokes == old(likedJokes)
      ensures !old(HasId(likedJokes, id)) ==> |likedJokes| == old(|likedJokes|) + 1
    {
      if FindById(likedJokes, id).Some? {
        return;
      }
      var likedJoke := FindById(jokesToShow, id);
      LikeKeepsDistinctIds(likedJokes, jokesToShow, id);
      likedJokes := [likedJoke.value] + likedJokes;
    }

    /** Unliking `id`: every entry with that id is dropped, the others keep their order. */
    method UnlikeJoke(id: int)
      requires Valid()
      modifies this`likedJokes
      ensures Valid()
      ensures likedJokes == WithoutId(old(likedJokes), id)
      ensures !HasId(likedJokes, id)
      ensures !old(HasId(likedJokes, id)) ==> likedJokes == old(likedJokes)
    {
      WithoutIdKeepsDistinctIds(likedJokes, id);
      if !HasId(likedJokes, id) {
        WithoutIdAbsent(likedJokes, id);
      }
      likedJokes := WithoutId(likedJokes, id);
    }

    /**
     * One load-more trigger with its timer callback: the window becomes the
     * prefix of the list one page longer than before, clamped at the list's
     * end; it never shrinks, and loading ends false.
     */
    method AddMoreJokes()
      requires Valid()
      modifies this`jokesToShow, this`loading
      ensures Valid() && !loading
      ensures jokesToShow == NextWindow(jokes, old(jokesToShow))
      ensures |jokesToShow| == Min(old(|jokesToShow|) + PageSize, |jokes|)
      ensures old(jokesToShow) <= jokesToShow
    {
      loading := true;
      NextWindowExtends(jokes, jokesToShow);
      jokesToShow := Take(jokes, |jokesToShow| + PageSize);
      loading := false;
    }

    /**
     * Toggling a category checkbox: the filter loses the first occurrence of
     * the name or gains it at the end; a known name keeps the filter within
     * the known categories.
     */
    method ToggleCategory(category: string)
      modifies this`filterCategories
      ensures filterCategories == Toggled(old(filterCategories), category)
      ensures old(FilterWithinCategories()) && category in categories ==> FilterWithinCategories()
    {
      if FilterWithinCategories() && category in categories {
        ToggleKeepsWithin(filterCategories, categories, category);
      }
      if category in filterCategories {
        var filterCategoriesCopy := filterCategories;
        var categoryIndex := IndexOf(filterCategoriesCopy, category);
        filterCategoriesCopy := filterCategoriesCopy[..categoryIndex] + filterCategoriesCopy[categoryIndex + 1..];
        filterCategories := filterCategoriesCopy;
      } else {
        filterCategories := filterCategories + [category];
      }
    }

    /** Whether some category of the joke is selected, scanning in order and stopping at the first hit. */
    method CategoryMatch(jokeCategories: seq<string>) returns (matched: bool)
      ensures matched <==> MatchesFilter(jokeCategories, filterCategories)
    {
      var i := 0;
      while i < |jokeCategories|
        invariant 0 <= i <= |jokeCategories|
        invariant forall k :: 0 <= k < i ==> jokeCategories[k] !in filterCategories
      {
        if jokeCategories[i] in filterCategories {
          return true;
        }
        i := i + 1;
      }
      return false;
    }
  }
}
