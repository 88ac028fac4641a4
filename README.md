# AtCoder recommender, modelled in Dafny

The GNOME Shell extension `atcoder-recommender` shows a panel icon that
recommends an unsolved AtCoder problem close to the user's rating. This project
models its recommendation pipeline in `extension.js` and proves what each step
promises:

- the solved set derived from the submission feed (`solved.dfy`);
- the candidate filter: drop solved, unrated, zero-difficulty and experimental
  problems, attach the distance to the rating, stable-sort by distance, keep ten
  (`candidates.dfy`, with the stable sort in `ranking.dfy`);
- the selector, which draws among the three closest candidates (`selector.dfy`);
- the paginated read of the submission feed (`pagination.dfy`);
- the exclusion window that sets the feed's first cursor (`window.dfy`);
- the conversion of the rating captured from the profile page (`rating.dfy`);
- the indicator's state machine: current problem, icon state, menu label
  (`recommender.dfy`);
- the records involved (`domain.dfy`) and one worked case (`scenarios.dfy`).

Inputs from the outside world are parameters. The clock is `nowMs`. The random
draw is a real `u` in [0, 1). The submission feed is a page source from cursor
to page, or `None` for a failed request. The other three requests form one
`FetchOutcome`: `Failure`, or the rating capture and the two catalogs.

The stable sort is given an independent specification, `Ranking.IsStableSortOf`:
the result is non-decreasing in `diff`, and for every distance the candidates at
that distance keep their input order. `Ranking.StableSortUnique` shows that this
specification has one solution, so the candidate pool is the first min(10, n)
elements of *any* stable sort of the n eligible candidates.

The feed reader stops only if the feed does. `Pagination.FiniteSource` states
when it does, with a ghost bound `horizon`:

- full pages are served only for cursors up to `horizon`;
- a full page ends no earlier than its cursor.

The loop's termination measure is `horizon + 1 - cursor`.
`Pagination.PaginateHorizonIrrelevant` shows that which bound is used does not
change the result.

## Behaviour worth noting

- The cursor moves one second past the *last* element of a page, not past its
  latest epoch. The two differ only if a page is out of time order
  (extension.js:221). `Pagination.NextCursor` does the same.
- An error changes only the icon. `_currentProblem` and the menu keep their
  previous values, so the previous problem stays selectable
  (extension.js:290-293). `Recommender.Indicator.FetchRecommendation` states
  that both are left unchanged, and `Indicator.Valid` cannot tie a held problem
  to the ready state.

## Model

| member | source | states |
|---|---|---|
| `SolvedSet.SolvedProblemIds` | extension.js:236-242 | an id is solved iff some submission for it has verdict "AC"; the empty feed gives the empty set |
| `SolvedSet.AcceptedIds` | extension.js:238-240 | the filtered-and-mapped list is no longer than the feed, and each id in it belongs to an accepted submission |
| `SolvedSet.AcceptedIdsMembers` | extension.js:238-240 | the filtered-and-mapped id list holds exactly the ids of accepted submissions |
| `SolvedSet.SolvedOfConcat` | extension.js:218 | the solved set of joined pages is the union of the pages' solved sets |
| `SolvedSet.SolvedOrderIndependent` | extension.js:236-242 | the solved set depends only on the multiset of submissions, not their order |
| `Ranking.SortByDiff` | extension.js:251 | the result is sorted by `diff` and is a permutation of its input |
| `Ranking.SortByDiffIsStable` | extension.js:251 | the sort is a stable sort by `diff` (sorted, ties in input order) and a permutation of its input |
| `Ranking.StableSortUnique` | extension.js:251 | any two stable sorts of the same input are equal |
| `Ranking.StableSortIsSortByDiff` | extension.js:251 | every stable sort of the input is the one the model computes |
| `CandidateFilter.Eligible` | extension.js:246 | a problem passes when it is unsolved, has a model, its difficulty is present and non-zero, and it is not flagged experimental (a missing flag counts as not experimental) |
| `CandidateFilter.EligibleCandidates` | extension.js:245-250 | every element is a catalog problem, unchanged, that passes all exclusion rules, with `diff = abs(difficulty - rating)` |
| `CandidateFilter.EligibleCandidatesConcat` | extension.js:245-250 | the filter and map steps keep catalog order: a split catalog gives the two results joined |
| `CandidateFilter.EligibleCandidatesComplete` | extension.js:246 | every eligible catalog problem appears among the eligible candidates with its distance |
| `CandidateFilter.FilterCandidates` | extension.js:244-253 | length is min(10, number eligible); every element is an eligible, unchanged problem with its distance; sorted by distance; it is the prefix of every stable sort of the eligible candidates |
| `CandidateFilter.AllEligibleKeptWhenFew` | extension.js:252 | with at most ten eligible problems, every one of them is in the pool |
| `CandidateFilter.SkippedAreNoCloser` | extension.js:251-252 | an eligible candidate cut off by the slice is at least as far from the rating as every kept one |
| `Selector.SelectionIndex` | extension.js:256-257 | floor(u * k) is an index below k, with u * k between it and it plus one |
| `Selector.SelectRandomProblem` | extension.js:255-258 | the choice is among the first min(3, n) candidates, and is the only candidate when n is 1 |
| `Selector.EveryTopCandidateReachable` | extension.js:255-258 | each of the first min(3, n) candidates is chosen by some draw in [0, 1) |
| `Selector.SelectedIsAmongClosest` | extension.js:255-258 | on a pool sorted by distance, the choice is no farther than any candidate past the third |
| `Pagination.NextCursor` | extension.js:221 | the next cursor is past the page's last element, and past every element when the page is in time order |
| `Pagination.FetchAllSubmissions` | extension.js:208-225 | the first request uses `fromSecond`; each later cursor is the previous full page's last epoch plus one; reading stops at the first page that is empty, short or failed; on success the result is all pages joined in order, and a failed request fails the read |
| `Pagination.PaginateHorizonIrrelevant` | extension.js:212-222 | the result of reading does not depend on the bound used to prove that the loop ends |
| `Pagination.FullPagesHoldExactlyTheLimit` | extension.js:219 | for a feed that honours the 500 page size, every page before the last holds exactly 500 |
| `ExclusionWindow.ExcludeDaysFromFilter` | extension.js:227-230 | index 0 means the whole history (-1 days); every other index gives at least 7 days |
| `ExclusionWindow.CalculateFromSecond` | extension.js:232-234 | -1 gives 0; otherwise the result is the floor of (nowMs - days * 86400000) / 1000 |
| `ExclusionWindow.FromSecondIsWholeDaysBack` | extension.js:233 | the cursor is exactly `days * 86400` seconds before the current whole second |
| `ExclusionWindow.WiderWindowStartsEarlier` | extension.js:15 | a later entry of the day table gives an earlier or equal cursor |
| `RatingExtractor.ParseRating` | extension.js:203-206 | no match gives 0; a match gives the decimal value of its digits |
| `RatingExtractor.DecimalRoundTrip` | extension.js:205 | reading the decimal rendering of n gives n |
| `RatingExtractor.ParseRatingReadsRendered` | extension.js:205 | a rating rendered in the page's digits is read back as itself |
| `RatingExtractor.LeadingZeroIgnored` | extension.js:205 | a leading zero does not change the value read |
| `Recommender.ComputeRecommendation` | extension.js:267-287 | the cycle's decision (error, a problem, or none) is the feed read from the window's cursor, then ranked and picked |
| `Recommender.RecommendedProblemQualifies` | extension.js:277-283 | a recommended problem is in the catalog, unsolved, eligible, and one of the three closest candidates |
| `Recommender.IdleExactlyWhenNothingEligible` | extension.js:279-287 | a successful cycle finds no problem exactly when no catalog problem passes the exclusion rules |
| `Recommender.ProblemText` | extension.js:108-112 | the menu label: a prompt to set the username, the held problem's title, or a no-problem notice |
| `Recommender.Indicator.constructor` | extension.js:42-53 | the new indicator holds no problem, has shown nothing, and its menu is built for the username |
| `Recommender.Indicator.UpdateDisplay` | extension.js:154-171 | the icon state becomes the given one and is appended to the record of shown states |
| `Recommender.Indicator.BuildMenu` | extension.js:82-106 | the problem item is labelled from the username and the held problem |
| `Recommender.Indicator.FetchRecommendation` | extension.js:260-294 | without a username nothing changes; otherwise loading is shown first, then: ready with the chosen problem, idle with none, or error with the previous problem and menu unchanged |
| `Recommender.Indicator.ResetState` | extension.js:134-138 | the problem is cleared, the no-username state is shown and the menu is rebuilt |
| `Recommender.Indicator.HandleRefresh` | extension.js:125-132 | with a username it runs a cycle, without one it resets |
| `Recommender.Indicator.InitializeState` | extension.js:73-80 | the first state: a cycle with a username, otherwise the no-username icon |
| `Scenarios.SolvedProblemIsNotOffered` | extension.js:236-258 | having solved abc1 at rating 1000, the pool is exactly abc2 at distance 200, and abc2 is chosen |

## Left out

- The HTTP requests, UTF-8 decoding and `JSON.parse` (extension.js:173-201) are I/O into libraries that are not shown. Their results are inputs to the model, and their failures are `Failure` or a `None` page.
- The regular expression in `_parseRating` (extension.js:204) is not modelled. Its captured digit string, or no match, is the model's input.
- `parseInt` is read exactly. The loss of precision above 2^53 is not modelled.
- Difficulties and ratings are integers. The floating-point distance and comparator are not modelled.
- `Promise.all` and the asynchronous suspension (extension.js:270-275) are modelled as one atomic step. Overlapping refreshes, whose results could interleave, are not modelled.
- `Math.random` and `Date.now` are parameters. Neither the uniform distribution of the draw nor the passing of time is modelled.
- Settings indices outside 0..6 give `undefined` at extension.js:229. `Recommender.ValidConfig` excludes them.
- The panel widgets are not modelled: icon names, the "AC" label, the menu items other than the problem item, that item's `reactive` flag, and launching URLs (extension.js:28-71, 114-123, 140-171). Of `_buildMenu` (extension.js:82-106) only the problem item's label is modelled.
- The spread `{...p, diff}` copies every field of the catalog entry. The model's `Problem` keeps the id, the contest id and the title. The held problem drops `diff`, which nothing reads afterwards.
- Lookups in the `models` object treat every key as a plain catalog key. Inherited object properties are not modelled.
- `log` (extension.js:291) and `prefs.js` are not modelled. `prefs.js` only edits the two settings.
- `_init` builds the indicator and then calls `_initializeState`. The model splits this into the constructor and `InitializeState`.
- `Pagination.FetchAllSubmissions`: it requires `FiniteSource`. A feed that keeps serving full pages makes the original loop run forever, and that run is not modelled.
- `Selector.SelectRandomProblem`: it does not state that every index in the slice is equally likely. `Selector.EveryTopCandidateReachable` states only that each one can be drawn.
