# BookWorm client logic in Dafny

BookWorm is a book-tracking web application. This project models the decision logic of its
Next.js client: the helper library, the reader dashboard, the catalogue browser, the review
moderation page and the route guard.

- The helper library covers text truncation, avatar initials, the reading-progress
  percentage, and the shelf label and colour tables.
- The reader dashboard derives the yearly goal bar, the "goal achieved" banner and the data
  handed to the genre and monthly charts.
- The catalogue browser holds the filter state, the handlers that change it, the query it
  sends and the pagination buttons.
- The review moderation page covers the status filter and its request, the buttons offered
  for each review status, the status badge and the pending count.
- The route guard decides between a spinner, a redirect and the protected page.

Each file is one module:

| file | module | models |
|---|---|---|
| `types.dfy` | `Types` | the closed enumerations (role, review status, shelf), the user record, and `Option` for optional fields |
| `strings.dfy` | `Strings` | the JavaScript string operations the code relies on, stated on `seq<char>`: `indexOf`, `split`, `join`, `substring`, ASCII `toUpperCase` and `Number.prototype.toString` on naturals |
| `utils.dfy` | `Utils` | `src/lib/utils.ts` |
| `dashboard.dfy` | `Dashboard` | `src/app/dashboard/page.tsx` |
| `browse.dfy` | `Browse` | `src/app/browse/page.tsx`; the page's state is the class `BrowseFilters`, whose handlers are methods that update its fields |
| `reviews.dfy` | `AdminReviews` | `src/app/admin/reviews/page.tsx` |
| `route_guard.dfy` | `RouteGuard` | `src/components/route/ProtectedRoute.tsx` |

JavaScript semantics are written out where the code depends on them:

- Falsiness. `!text` holds only for the empty string. `targetBooks || 12` falls back only on 0; a negative target is truthy and is used.
- `substring` clamps both ends to the string and swaps them when they are reversed.
- `split(" ")` keeps empty parts.
- `undefined` concatenated to a string becomes the text "undefined".
- `Math.round(x)` is `floor(x + 1/2)`, for negative values too.

The dashboard's percentages use exact rationals (`real`). The helper library's percentage is an integer computation that rounds the exact quotient half up, as `Math.round` would on an exact value; the source rounds the floating-point product instead (see "## Left out").

`calculateReadingProgress` caps the percentage at 100 but has no lower clamp (src/lib/utils.ts:37), so a negative page count gives a negative percentage. The model states non-negativity only for non-negative page counts.

## Model

| member | source | states |
|---|---|---|
| Types.ParseShelf | src/types/index.ts:55 | reading a shelf back from its key gives that shelf; every other string is no shelf |
| Types.ParseStatus | src/types/index.ts:47 | reading a review status back from its name gives that status; every other string is no status |
| Strings.IndexOf | src/lib/utils.ts:25 | the result is the first position of the character, or the length when it is absent |
| Strings.Split | src/lib/utils.ts:25 | at least one part; the first part is the text before the first separator; two or more parts exactly when the separator occurs |
| Strings.SplitPartsFree | src/lib/utils.ts:25 | no part of a split contains the separator |
| Strings.JoinSplit | src/lib/utils.ts:25 | joining the parts of a split with the same separator restores the string |
| Strings.SplitJoin | src/app/browse/page.tsx:60-61 | splitting a join of separator-free parts restores the parts |
| Strings.SplitCons | src/lib/utils.ts:25 | a split cuts at the first separator |
| Strings.SplitAppend | src/lib/utils.ts:25 | a separator splits a string into the parts before it followed by the parts after it |
| Strings.Join | src/app/browse/page.tsx:61 | the join starts with the first part; for separator-free parts it holds a separator exactly when there are two or more parts |
| Strings.Substring | src/lib/utils.ts:20 | in-range arguments give the slice; a negative start reads from 0; a negative end gives ""; an end past the string is clamped |
| Strings.UpperChar | src/lib/utils.ts:27 | the result is never a lower-case ASCII letter; only lower-case letters change, each to the capital at the same place in the alphabet; letters stay letters |
| Strings.Upper | src/lib/utils.ts:27 | the result has the same length and upper-cases each character |
| Strings.UpperIdempotentAndAppend | src/lib/utils.ts:27 | upper-casing twice equals upper-casing once, and upper-casing distributes over concatenation |
| Strings.NatToString | src/app/browse/page.tsx:65 | a non-empty string of decimal digits with no leading zero |
| Strings.ParseNatToString | src/app/browse/page.tsx:65 | parsing the decimal form of a natural gives the natural back |
| Utils.TruncateText | src/lib/utils.ts:17-21 | the empty text stays empty and a text that fits is unchanged. A longer text keeps its first `maxLength` characters followed by "...", and a negative limit leaves only "..." |
| Utils.TruncateTextDefault | src/lib/utils.ts:17 | with the default limit, texts of up to 150 characters are kept; a longer text becomes 153 characters and keeps its first 150 |
| Utils.GetInitialsAsWritten | src/lib/utils.ts:23-30 | the empty name gives "U"; a name without a space gives its first two characters upper-cased |
| Utils.GetInitialsAsWrittenTwoParts | src/lib/utils.ts:26-27 | two non-empty space-free words, followed by nothing or by more text after a space, give the upper-cased first letters of the two words ("Mary Ann Lee" gives "MA") |
| Utils.GetInitialsTrailingSpace | src/lib/utils.ts:25-27 | the name "Ann " gives "AUNDEFINED" |
| Utils.GetInitialsLoneSpace | src/lib/utils.ts:25-27 | the name " " throws a TypeError |
| Utils.NonEmpty | src/lib/utils.ts:25 | no empty part remains, and a list without empty parts is kept as it is |
| Utils.NonEmptyKeepsParts | src/lib/utils.ts:25 | every non-empty part is kept as often as it occurs |
| Utils.NonEmptyAppend | src/lib/utils.ts:25 | dropping empty parts keeps the order: it distributes over concatenation |
| Utils.Words | src/lib/utils.ts:25 | the words of a name are non-empty and contain no space |
| Utils.WordsOfWord | src/lib/utils.ts:25 | a non-empty space-free name is one word; the empty name has none |
| Utils.WordsAppend | src/lib/utils.ts:25 | the words around a space are the words before it followed by the words after it |
| Utils.WordsLeadingSpace | src/lib/utils.ts:25 | a leading space adds no word |
| Utils.WordsTrailingSpace | src/lib/utils.ts:25 | a trailing space adds no word |
| Utils.WordsDoubleSpace | src/lib/utils.ts:25 | a doubled space adds no word |
| Utils.GetInitials | src/lib/utils.ts:23-30 | the corrected initials: one or two characters, never a space, and "U" for a name without words |
| Utils.InitialsOfWords | src/lib/utils.ts:26-29 | initials of a word list are one or two characters, never a space, and "U" for no words |
| Utils.GetInitialsOfWords | src/lib/utils.ts:26-29 | for words joined by single spaces: two or more words give the upper-cased first letters of the first two ("Mary Ann Lee" gives "MA"); one word gives its first two letters upper-cased ("bob" gives "BO") |
| Utils.GetInitialsIgnoresExtraSpaces | src/lib/utils.ts:25-27 | a leading, trailing or doubled space does not change the corrected initials |
| Utils.GetInitialsTrailingSpaceCorrected | src/lib/utils.ts:25-27 | the corrected initials of "Ann " are those of "Ann": "AN" |
| Utils.GetInitialsAgrees | src/lib/utils.ts:23-30 | when the name has no empty part, the code as written returns the corrected initials |
| Utils.GetInitialsOfFullName | src/lib/utils.ts:26-27 | "first last" gives the two upper-cased first letters |
| Utils.RoundDiv | src/lib/utils.ts:37 | the result is the quotient rounded half up, for either sign of the divisor |
| Utils.RoundHalfUpMonotone | src/lib/utils.ts:37 | rounding is monotone in the numerator |
| Utils.RoundHalfUpAtLeast | src/lib/utils.ts:37 | the rounded value reaches m exactly when twice the numerator reaches (2m - 1) times the divisor |
| Utils.RoundHalfUpUnique | src/lib/utils.ts:37 | the rounded value is unique |
| Utils.CalculateReadingProgress | src/lib/utils.ts:32-38 | 0 for zero pages and never above 100. Below 100 it is the rounded percentage. With positive total pages it is 100 exactly when at least 99.5% has been read, and it is non-negative for non-negative progress |
| Utils.GetShelfLabel | src/lib/utils.ts:40-47 | a string is returned unchanged exactly when it is not a shelf key, and no label is itself a shelf key |
| Utils.ShelfLabelIdempotent | src/lib/utils.ts:40-47 | labelling a label changes nothing |
| Utils.ShelfLabelsDistinct | src/lib/utils.ts:41-45 | the three shelves have three different labels |
| Utils.GetShelfColor | src/lib/utils.ts:49-56 | gray exactly for strings that are not shelf keys |
| Utils.ShelfColorsDistinct | src/lib/utils.ts:50-54 | the three shelves have three different colours |
| Dashboard.GoalTarget | src/app/dashboard/page.tsx:99 | never 0; a non-zero goal target is used; a missing or zero target falls back to 12 |
| Dashboard.GoalFormTarget | src/app/dashboard/page.tsx:57-72 | the value set at line 57 or stored by `fetchData` at line 72 is never 0. It is 12 or the target of the user the fetch saw, and 12 before the fetch or when that user has no target |
| Dashboard.GoalFormMatchesBar | src/app/dashboard/page.tsx:72 | when the fetch saw the current user, the form holds the target the goal bar divides by (line 99) |
| Dashboard.GoalFormStaleBeforeSession | src/app/dashboard/page.tsx:60-72 | when the fetch ran before the session was restored, the form holds 12 while the bar divides by the user's own target |
| Dashboard.GoalProgress | src/app/dashboard/page.tsx:97-103 | at most 100; 0 before the statistics load; non-negative for a positive target. Below the cap it is exactly 100 times books read over target, the bar width of line 297 |
| Dashboard.GoalAchievedIff | src/app/dashboard/page.tsx:301 | the banner is never shown before loading; with a positive target it is shown exactly when the books read reach the target |
| Dashboard.GoalProgressExamples | src/app/dashboard/page.tsx:97-103 | with a target of 12, 6 books give 50 and 15 books give 100 |
| Dashboard.DisplayedPercent | src/app/dashboard/page.tsx:291 | the printed percentage is at most 100, and 0 before loading |
| Dashboard.DisplayedPercentIsReadingProgress | src/app/dashboard/page.tsx:291 | the printed percentage equals the helper library's reading-progress percentage of books read over target |
| Dashboard.GenreData | src/app/dashboard/page.tsx:105-123 | no chart before loading or for an empty breakdown; otherwise the labels and values pair up into the breakdown, in order |
| Dashboard.MonthlyData | src/app/dashboard/page.tsx:125-151 | present exactly when the statistics are loaded: the labels are exactly the twelve month abbreviations Jan to Dec in order, pairwise distinct, with the monthly counts as the series |
| Browse.RemoveAll | src/app/browse/page.tsx:82 | the id is gone, every other id keeps its multiplicity, and the order is kept |
| Browse.Toggled | src/app/browse/page.tsx:80-84 | the genre is selected afterwards exactly when it was not before. Other genres are untouched, an absent genre is appended, and a present one is removed keeping the order |
| Browse.RemoveAllAbsent | src/app/browse/page.tsx:82 | removing an absent id changes nothing |
| Browse.ToggledNoDup | src/app/browse/page.tsx:80-84 | toggling keeps a selection free of duplicates |
| Browse.ToggleTwice | src/app/browse/page.tsx:80-84 | toggling the same genre twice restores a duplicate-free selection exactly when the genre was absent or last |
| Browse.GenreBadgeVariant | src/app/browse/page.tsx:207-211 | a badge is filled exactly when its genre is selected |
| Browse.ToggleFlipsOneBadge | src/app/browse/page.tsx:207-213 | clicking a badge flips that badge and no other |
| Browse.Query | src/app/browse/page.tsx:58-66 | every query ends with the page number and limit=12 |
| Browse.AppendIf | src/app/browse/page.tsx:59 | a guarded append adds the pair exactly when its condition holds |
| Browse.QueryKeysAscending | src/app/browse/page.tsx:58-66 | keys appear in the page's order, each at most once |
| Browse.KeyNamesDistinct | src/app/browse/page.tsx:59-66 | the seven parameter names are pairwise different |
| Browse.QueryNamesDistinct | src/app/browse/page.tsx:58-66 | no parameter name occurs twice in the query |
| Browse.QueryKeySet | src/app/browse/page.tsx:59-66 | each filter key is present exactly when its filter is non-empty; page and limit are always present |
| Browse.QueryValues | src/app/browse/page.tsx:59-64 | each set filter is sent with its value; the genres are sent joined by commas |
| Browse.QueryReadBack | src/app/browse/page.tsx:60-65 | the page parameter parses back to the page number; comma-free genre ids split back into the selection |
| Browse.BrowseFilters.constructor | src/app/browse/page.tsx:30-36 | the page starts with empty filters, "newest", page 1 and one page |
| Browse.BrowseFilters.ToggleGenre | src/app/browse/page.tsx:79-86 | the selection is toggled, the page returns to 1, and nothing else changes |
| Browse.BrowseFilters.SetSearchTerm | src/app/browse/page.tsx:123-126 | the new term is set, the page returns to 1, and nothing else changes |
| Browse.BrowseFilters.SetMinRating | src/app/browse/page.tsx:142-145 | the new minimum is set, the page returns to 1, and nothing else changes |
| Browse.BrowseFilters.SetMaxRating | src/app/browse/page.tsx:159-162 | the new maximum is set, the page returns to 1, and nothing else changes |
| Browse.BrowseFilters.SetSortBy | src/app/browse/page.tsx:174-177 | the new order is set, the page returns to 1, and nothing else changes |
| Browse.BrowseFilters.ClearFilters | src/app/browse/page.tsx:88-95 | every filter and the page return to their initial values; the page count stays |
| Browse.BrowseFilters.ReceiveTotalPages | src/app/browse/page.tsx:70 | the page count becomes the server's count |
| Browse.BrowseFilters.ShownBarHasEnabledButton | src/app/browse/page.tsx:239-256 | whenever the pagination bar is drawn (more than one page), Previous and Next are not both disabled, and on page 1 Next is enabled |
| Browse.BrowseFilters.ClickPrevious | src/app/browse/page.tsx:241-247 | one page back unless on page 1; the page never drops below 1 |
| Browse.BrowseFilters.ClickNext | src/app/browse/page.tsx:251-257 | one page on unless on the last page, and a page within range stays within range |
| Browse.BrowseFilters.QueryParams | src/app/browse/page.tsx:58-66 | building the query step by step yields `Query` of the current state |
| AdminReviews.FetchPath | src/app/admin/reviews/page.tsx:31-32 | the path is "/reviews" exactly for "all"; otherwise "/reviews?status=" followed by the status |
| AdminReviews.FetchPathRoundTrip | src/app/admin/reviews/page.tsx:31-32 | the filter can be read back from its path, so different tabs send different requests |
| AdminReviews.InitialFetchPath | src/app/admin/reviews/page.tsx:21-23 | the first request asks for the pending reviews |
| AdminReviews.Actions | src/app/admin/reviews/page.tsx:135-183 | Delete is last and is the only non-status button. No button targets pending or the review's own status, no two buttons share a target, and Approve comes first. Each caption is fixed by the move: "Approve" to approved, "Reject" from pending, "Unapprove" otherwise |
| AdminReviews.ActionTargets | src/app/admin/reviews/page.tsx:136-175 | a review can be moved to exactly the non-pending statuses other than its own, with one button per target plus Delete |
| AdminReviews.NoActionToPending | src/app/admin/reviews/page.tsx:42-45 | no button sends a review back to pending |
| AdminReviews.ActionLabels | src/app/admin/reviews/page.tsx:136-175 | "Approve" goes to approved; "Reject" appears only on pending reviews and "Unapprove" only on approved ones |
| AdminReviews.StatusBadge | src/app/admin/reviews/page.tsx:91-99 | default exactly for approved, secondary exactly for pending, destructive exactly for rejected |
| AdminReviews.PendingCount | src/app/admin/reviews/page.tsx:191 | at most the number of reviews, and 0 exactly when none is pending |
| AdminReviews.PendingCountIsMultiplicity | src/app/admin/reviews/page.tsx:191 | the count is the multiplicity of "pending" among the statuses |
| AdminReviews.PendingCountAppend | src/app/admin/reviews/page.tsx:191 | counts over two lists add up |
| AdminReviews.PendingCountOfPendingTab | src/app/admin/reviews/page.tsx:191 | on a list of pending reviews, every review counts |
| AdminReviews.PendingBadgeShownIff | src/app/admin/reviews/page.tsx:218-225 | the tab badge is shown exactly when some review is pending |
| AdminReviews.EmptyMessage | src/app/admin/reviews/page.tsx:243 | the empty notice names the filter's status, and nothing for "all" |
| AdminReviews.Content | src/app/admin/reviews/page.tsx:233-246 | a spinner exactly while loading; cards exactly when loaded and non-empty, in order; otherwise the empty notice |
| RouteGuard.RedirectTarget | src/components/route/ProtectedRoute.tsx:20-28 | no redirect while loading; /login without a user; /my-library for a non-admin when an admin is required; no redirect exactly when loading or permitted |
| RouteGuard.Rendered | src/components/route/ProtectedRoute.tsx:30-45 | a spinner exactly while loading; the children exactly when loaded and the user is permitted |
| RouteGuard.RedirectIffNothing | src/components/route/ProtectedRoute.tsx:20-45 | the guard renders nothing exactly when it redirects, and never shows the children while redirecting |
| RouteGuard.DefaultGuardAdmitsEveryUser | src/components/route/ProtectedRoute.tsx:15 | with the default, every signed-in user sees the page and is not redirected |
| RouteGuard.RequireAdminIsStricter | src/components/route/ProtectedRoute.tsx:24-25 | requiring an admin never grants a page the default guard refuses, and keeps its redirects |

## Left out

- Network requests, the authentication context, toasts, `confirm` dialogs, routing calls, JSX layout, Chart.js configuration and the chart palette are out of scope. The model takes the server's data and the signed-in user as parameters.
- `cn` and `formatDate` in src/lib/utils.ts are not modelled: they call into `clsx`, `tailwind-merge` and the locale-dependent `toLocaleDateString`.
- Numbers are integers (`int`) or exact rationals (`real`), not IEEE doubles. NaN, `undefined` and fractional page counts are not modelled.
- Utils.CalculateReadingProgress: rounds the exact quotient. The source rounds the double `(pagesRead / totalPages) * 100`, which can fall just below a half. For 23 of 40 pages the double is 57.49999999999999 and the source gives 57 where the model gives 58. For 29 of 200 pages the double is 14.499999999999998 and the source gives 14 where the model gives 15.
- Utils.CalculateReadingProgress: `!totalPages` is true for NaN as well as for 0. Only 0 is modelled.
- Strings.Upper: `toUpperCase` is modelled for ASCII letters only. Unicode case mapping is not modelled.
- Strings.Substring: JavaScript's `length`, `substring` and `s[0]` count UTF-16 code units, while a Dafny `char` is a Unicode scalar value. On text with characters outside the Basic Multilingual Plane (emoji, say), `truncateText` and `getInitials` cut at different places in the source, which can split a surrogate pair. The model does not capture this.
- Dashboard.GoalFormTarget: the goal input's change handler (src/app/dashboard/page.tsx:256-259) is not modelled. It stores `parseInt` of the typed text, which is 0 for "0" and NaN for an empty field, so the form can hold values other than those stated.
- Dashboard.GoalFormTarget: the user seen by `fetchData` is a parameter. Which user that is depends on React's effect order, which is not modelled. On a fresh load the page's effect runs before the authentication provider restores the session, so the fetch sees no user; Dashboard.GoalFormStaleBeforeSession states the consequence.
- AdminReviews.Content: the loading flag is a parameter. In the source, `fetchReviews` never sets it back to true (src/app/admin/reviews/page.tsx:29-40). So the spinner shows only on the first load. After a tab switch, the previous list, or the new filter's empty notice, shows until the response arrives. The model does not capture this sequencing.
- Utils.GetShelfLabel and Utils.GetShelfColor: inherited object keys such as "toString" are not modelled. The source's lookup tables would return functions for those keys.
- Browse.BrowseFilters.QueryParams: the query is a list of key/value pairs. Percent-encoding by `URLSearchParams.toString` is not modelled.
- Dashboard.GenreData: the breakdown record is taken as an ordered list of entries. The reordering of integer-like keys by `Object.keys` is not modelled.
- Browse.BrowseFilters.ClickNext: the Next button is disabled only when `page === totalPages`, as in the source. The model proves only that a page within range stays within range.
- The dashboard's `handleUpdateGoal` is not modelled. It parses the form value with `parseInt` and sends it to the server.
- The dashboard's stat cards and the "x / y books" caption are not modelled. They are display-only.
- The browse page's skeleton grid and its "No books found" notice are not modelled. They are display-only.
- The reviews page's star row and book line are not modelled. They are display-only.
- The reviews page's `handleUpdateStatus` and `handleDelete` are modelled only as the buttons that trigger them (`AdminReviews.Action`). Their server calls and the refetch are not modelled.

## Findings

| source | as written | input that shows it | evidently intended | confidence | as-written member | corrected member |
|---|---|---|---|---|---|---|
| src/lib/utils.ts:25-27 | `name.split(" ")` keeps empty parts, and `parts[1][0]` is then `undefined`. For "Ann " this yields "AUNDEFINED". For " " it adds two `undefined` values, giving NaN, and NaN has no `toUpperCase`, so the call throws a TypeError (Utils.GetInitialsLoneSpace) | "Ann " | the initials of the name's words, with empty parts skipped: "AN" for "Ann ", as for "Ann" (Utils.GetInitialsTrailingSpaceCorrected, Utils.GetInitialsIgnoresExtraSpaces) | not executed | Utils.GetInitialsTrailingSpace | Utils.GetInitials |
