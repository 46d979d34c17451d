# Joke feed controller, modelled in Dafny

This project models the state machine inside the `App` component of a small
React jokes application. The component keeps six pieces of state:

- the fetched joke list `jokes`;
- the visible window `jokesToShow`;
- the liked list `likedJokes`;
- the known `categories`;
- the selected `filterCategories`;
- the `loading` flag.

A handful of handlers move this state from one snapshot to the next. The
model is the class `JokeApp.App`: one field per piece of state and one
method per handler. Each method reads the current field values, as the
handler's render closure does, and installs the new ones in a single step.

The list operations inside the handlers (`slice`, `find`, `filter`,
`indexOf`/`splice`) are pure functions in three modules. Each function is
specified by what it means, and lemmas prove the properties the
application relies on:

- `Jokes`: the `Joke` value, lookup by id, removal by id and the liking step.
- `Pagination`: the clamped prefix window and its growth per load-more step.
- `Categories`: the category toggle and the category-match predicate.
- `Wrappers`: the `Option` type, for a lookup that can find nothing.

Three invariants are kept in the model (the first one relies on the
load-more step being atomic; see Left out):

- `jokesToShow` is always a prefix of `jokes`.
- `likedJokes` never holds two entries with the same id.
- Toggling only known category names keeps `filterCategories` within `categories`.

Three behaviours of the code that a reader might not expect:

- Liking an id that is neither liked nor shown prepends `undefined` (src/App.js:126-127). The model excludes that case by precondition (see Left out).
- The name guard rejects only the empty string; nothing is trimmed.
- The load-more handler never reads `loading`, so nothing guards it against running twice.

## Model

| member | source | states |
|---|---|---|
| Jokes.FindById | src/App.js:125-126 | The result is present exactly when some entry has the id. It is then the first such entry. |
| Jokes.WithoutId | src/App.js:132 | The result has no entry with the id and is a subsequence of the input (order kept). Its length is the input length minus the number of entries with the id. It holds exactly the input's entries with other ids. |
| Jokes.WithoutIdUnique | src/App.js:132 | Any list with the three properties of `WithoutId` is equal to its result. So those properties fully specify the filter. |
| Jokes.SubsequenceWithoutIdBound | src/App.js:132 | A subsequence with no entry for the id is at most as long as the number of entries with other ids. |
| Jokes.WithoutIdAbsent | src/App.js:131-133 | Unliking an id that no entry has leaves the liked list as it was. |
| Jokes.WithoutIdKeepsDistinctIds | src/App.js:131-133 | Unliking keeps the liked ids distinct. |
| Jokes.Like | src/App.js:124-129 | If the id is already liked, the liked list is unchanged. Otherwise it grows by exactly one: the first shown joke with that id, in front of the old list. |
| Jokes.LikeIdempotent | src/App.js:125 | Liking twice gives the same list as liking once. |
| Jokes.LikeKeepsDistinctIds | src/App.js:124-127 | Liking keeps the liked ids distinct. |
| Jokes.UnlikeThenLike | src/App.js:124-135 | Unliking and then liking a shown id leaves exactly one entry with that id. That entry is at the front, and the rest is the unliked list. |
| Jokes.DistinctIdsCons | src/App.js:127 | A list has distinct ids exactly when its tail has distinct ids and the head's id is not in the tail. |
| Jokes.CountId | src/App.js:132 | The count of entries with an id is zero exactly when no entry has that id. It never exceeds the list length. |
| Pagination.Take | src/App.js:99 | `slice(0, n)`: a prefix of the list of length min(n, list length). The list is clamped, never padded. |
| Pagination.NextWindowExtends | src/App.js:140 | A window that is a prefix stays a prefix after a load-more step and never shrinks. Its new length is min(old length + 10, list length). It stays unchanged exactly when the whole list is already shown. |
| Pagination.NextWindowOfTake | src/App.js:140 | One load-more step from the window for n gives the window for n + 10. |
| Pagination.WindowAfterLoads | src/App.js:137-143 | After the first install and k load-more steps, the window is the prefix of length min(list length, 10 + 10k). |
| Pagination.TwentyFiveJokes | src/App.js:137-143 | With 25 jokes the window holds 10, then 20, then all 25 (not 30). |
| Categories.IndexOf | src/App.js:175 | `indexOf` returns -1 exactly when the name is absent. Otherwise it returns the position of the name's first occurrence. |
| Categories.Toggled | src/App.js:169-182 | An absent name is appended at the end. A present name has its first occurrence spliced out, and the rest keep their order. |
| Categories.ToggledMultiset | src/App.js:172-180 | A toggle removes or adds exactly one occurrence of the name. Membership of every other name is unchanged. |
| Categories.ToggleAbsentTwice | src/App.js:178-180 | Toggling an absent name twice restores the filter exactly. |
| Categories.TogglePresentTwice | src/App.js:172-180 | Toggling a name that occurs once, twice, restores the filter as a multiset. So membership is restored, though not necessarily position. |
| Categories.ToggleDuplicateStays | src/App.js:175-176 | Only the first occurrence is removed: a name listed twice is still selected after one toggle. |
| Categories.ToggleKeepsWithin | src/App.js:169-182 | Toggling a known category keeps the filter within the known categories. |
| JokeApp.ChangeName | src/App.js:191-195 | No request is made when either name is the empty string. Otherwise the request is for exactly the submitted names. |
| JokeApp.ChangeNameExamples | src/App.js:193 | ("", "Norris") makes no request. (" ", "Norris") makes one, because nothing is trimmed. |
| JokeApp.App.constructor | src/App.js:79-87 | Initially all lists are empty and loading is false. |
| JokeApp.App.Mount | src/App.js:118-122 | Mounting raises the loading flag before both fetches are issued. |
| JokeApp.App.FetchData | src/App.js:98-99 | The list becomes the batch and the window becomes its first min(10, batch length) jokes. Likes, categories, filter and loading are untouched. |
| JokeApp.App.FetchCategories | src/App.js:110-112 | The known categories and the filter both become the fetched list, and loading ends. Nothing else changes. |
| JokeApp.App.LikeJoke | src/App.js:124-129 | The liked list becomes `Like` of the old one. It is unchanged if the id was already liked, and otherwise grows by one. Only the liked list changes. |
| JokeApp.App.UnlikeJoke | src/App.js:131-135 | The liked list becomes `WithoutId` of the old one, with no entry for the id left. It is the identity when the id is absent. Only the liked list changes. |
| JokeApp.App.AddMoreJokes | src/App.js:137-143 | The window becomes the prefix of length min(old length + 10, list length), extending the old window, and loading ends false. The list itself is unchanged. |
| JokeApp.App.ToggleCategory | src/App.js:169-182 | The filter becomes `Toggled` of the old one. Toggling a known name keeps the filter within the known categories. |
| JokeApp.App.CategoryMatch | src/App.js:184-189 | Returns true exactly when some category of the joke is selected. |

## Left out

- Network I/O is not modelled: `fetch`, `response.json()`, the URLs, the `console.log` calls and the swallowed errors (src/App.js:93-102, 106-115). A fetch that succeeds is the call of `FetchData` or `FetchCategories` with the parsed list. A fetch that fails before any setter runs causes no transition, so loading can stay raised. Partial failures are not represented: when the jokes response has no `value` array, `jokes` has already been set (src/App.js:98) before the `slice` on line 99 throws, so the window may no longer be a prefix of the list; and `fetchCategories` installs a non-array `value` without throwing (src/App.js:110-112). The model's batches and category lists are always lists.
- The 500 ms `setTimeout` in `addMoreJokes` is not modelled. Raising the flag and the timer callback are one atomic step, `AddMoreJokes`, so the stale closure and its timing are not represented. In the code, a name-change fetch that lands during the delay is overwritten by the callback's `jokes.slice(0, jokesToShow.length + 10)` of the old closure (src/App.js:140): the window then stops being a prefix of the new `jokes`, and a later load-more can shrink it. The prefix invariant and the never-shrinks promise of `AddMoreJokes` hold only for the atomic step the model uses.
- React's asynchronous, batched state setters are not modelled.
- The browser-driven pagination trigger is not modelled: `IntersectionObserver`, `observeElement` and `document.getElementById` (src/App.js:145-167).
- Rendering is not modelled: `ScrollTop`, `Spinner`, `useStyles`, `currentTab`, the tabs and badge, and the `JokeCard` component. `JokeCard` is not part of this model.
- The name text fields and their `onChange` setters are presentation. The current names enter `ChangeName` as parameters, and the reload it requests is `FetchData` on success.
- The commented-out `localStorage` lines (src/App.js:128, 134) are not modelled.
- JokeApp.App.LikeJoke: the source does not check that the id is shown. With an id neither liked nor shown, `find` returns `undefined` and the handler prepends it (src/App.js:126-127). The model requires the id to be liked already or shown. That is what its callers guarantee, because every `JokeCard` is rendered from `jokesToShow` or `likedJokes`. The `undefined` entry is not represented.
- JokeApp.App.ToggleCategory: it does not require the name to be a known category. The containment invariant is promised only for known names, because the checkboxes are rendered from `categories`.
- `categoryMatch` is modelled as written, even though the rendering never calls it.
