# CodeSphere client logic in Dafny

CodeSphere is a competitive-programming companion. It fetches a user's Codeforces profile,
rating history and submissions, compares two handles, analyses one handle, and keeps a
personal list of problems. This project models the data transformations of its web client
and proves what they compute:

- the statistics record built for each of two compared handles, and the shared chart axes;
- the single-handle analysis: verdict, level and tag histograms and the solved set;
- the rating-band helpers, initials and e-mail validation;
- the friend card's background band and placeholder choice;
- the contest card's binary decoration;
- the problem list: form validation, tag editing, tag extraction, delete, the four-way filter, and the sort.

Modules follow the client's files:

- `CompareResult` for `frontend/cp_help/src/pages/Compare/CompareResult.jsx`;
- `ViewAnalysis` for `frontend/cp_help/src/pages/ViewAnalysis/ViewAnalysis.jsx`;
- `Helper` for `frontend/cp_help/src/utils/helper.js`;
- `FriendCard` for `frontend/cp_help/src/components/Cards/FriendCard.jsx`;
- `Contests` for `frontend/cp_help/src/pages/Contests/Contests.jsx`;
- `Problems` for `frontend/cp_help/src/pages/Problems/Problems.jsx`.

Shared modules model the JavaScript built-ins these files rely on:

- `Seqs`: `Set` insertion order and `Array.prototype.filter`;
- `Sorting`: `Array.prototype.sort` with a consistent comparator, as a stable insertion sort;
- `Text`: `trim`, `\s`, ASCII case mapping, `includes`, `split(" ")` and string `<`;
- `Histogram`: an object used as a dictionary of counters, `c[k] = (c[k] || 0) + 1`, with its keys in insertion order;
- `Codeforces`: the API records, JavaScript truthiness, and the `${contestId}-${index}` key.

The client's loops become methods, each proved equal to a specification function of its inputs. Lemmas then state what those functions mean. Examples are counts per bucket, totals, subset and membership facts, sortedness, permutation and stability.

Where a value comes from outside it is a parameter:

- the current time `now` (integer seconds);
- the profile, rating history and submission lists;
- the server's answer to adding a problem.

## Model

| member | source | states |
|---|---|---|
| CompareResult.SafeProcess | frontend/cp_help/src/pages/Compare/CompareResult.jsx:125-208 | an absent profile gives the fixed default record; otherwise every field of the record is the profile field or its default, the contest count is the history length, the last date is the last history entry's time, and the solved, recent and histogram fields are the specification functions below |
| CompareResult.CountAccepted | frontend/cp_help/src/pages/Compare/CompareResult.jsx:145-153 | the accepted count is the number of OK submissions with a truthy contest id and index, and the seen set is the duplicate-free list of their keys in first-seen order |
| CompareResult.CountRecent | frontend/cp_help/src/pages/Compare/CompareResult.jsx:156-168 | the recent set is the duplicate-free list of keys of counted submissions created at or after the cutoff |
| CompareResult.CountBuckets | frontend/cp_help/src/pages/Compare/CompareResult.jsx:176-188 | the rating and tag counters are the counters of the representatives' ratings and tags, one solved key after another |
| CompareResult.CountedKeysMember | frontend/cp_help/src/pages/Compare/CompareResult.jsx:147-152 | a key is counted exactly when some submission is OK, has truthy contest id and index, and has that key |
| CompareResult.SolvedMember | frontend/cp_help/src/pages/Compare/CompareResult.jsx:145-153 | a key is in the solved set exactly when some counted submission has it |
| CompareResult.SolvedCount | frontend/cp_help/src/pages/Compare/CompareResult.jsx:149-153 | the solved count is the number of distinct counted keys, and solvedCount <= acCount <= number of submissions |
| CompareResult.Acceptance | frontend/cp_help/src/pages/Compare/CompareResult.jsx:154 | 0 for no submissions; otherwise the rational 100·ac/n rounded half up, exactly; with ac <= n it lies in 0..100 |
| CompareResult.LastDate | frontend/cp_help/src/pages/Compare/CompareResult.jsx:171-174 | absent exactly when the rating history is empty; otherwise the last entry's update time |
| CompareResult.RecentKeysMember | frontend/cp_help/src/pages/Compare/CompareResult.jsx:159-168 | a key is recent exactly when some counted submission with that key was created at or after the cutoff |
| CompareResult.RecentWithinSolved | frontend/cp_help/src/pages/Compare/CompareResult.jsx:156-168 | every recent key is solved, so the recent count is at most the solved count |
| CompareResult.FindIndex | frontend/cp_help/src/pages/Compare/CompareResult.jsx:179-182 | the first submission whose key matches, or none when no submission matches |
| CompareResult.SolvedRepresentative | frontend/cp_help/src/pages/Compare/CompareResult.jsx:178-183 | for every solved key the search finds a submission, and its problem carries that key |
| CompareResult.RepRatings | frontend/cp_help/src/pages/Compare/CompareResult.jsx:183 | one rating per solved key |
| CompareResult.RatingCountsTotal | frontend/cp_help/src/pages/Compare/CompareResult.jsx:176-184 | the rating counters sum to the solved count |
| CompareResult.RatingBucket | frontend/cp_help/src/pages/Compare/CompareResult.jsx:183-184 | each rating bucket counts the solved keys whose representative has that rating, a missing or zero rating counting as 0 |
| CompareResult.RatingMultiplicity | frontend/cp_help/src/pages/Compare/CompareResult.jsx:183-184 | the ratings listed per solved key hold each rating as often as there are keys rated so |
| CompareResult.TagBucket | frontend/cp_help/src/pages/Compare/CompareResult.jsx:185-187 | with duplicate-free tag lists, each tag counter is the number of solved keys whose representative carries the tag |
| CompareResult.TagMultiplicity | frontend/cp_help/src/pages/Compare/CompareResult.jsx:185-187 | with duplicate-free tag lists, each tag occurs in the tag list once per solved key tagged with it |
| CompareResult.LastWithHandle | frontend/cp_help/src/pages/Compare/CompareResult.jsx:243-246 | the profile found has the lowercased handle asked for and no later profile has that handle, so it is the last one; none is found only when no profile's lowercased handle matches |
| CompareResult.IndexByHandle | frontend/cp_help/src/pages/Compare/CompareResult.jsx:243-246 | the keys of the handle map are exactly the lowercased handles, each mapped to the last profile with that handle |
| CompareResult.ProfileFor | frontend/cp_help/src/pages/Compare/CompareResult.jsx:248-249 | the profile looked up for a typed handle is the last one whose lowercased handle equals the lowercased input |
| CompareResult.RatingAxisSpec | frontend/cp_help/src/pages/Compare/CompareResult.jsx:314-317 | the rating axis is strictly increasing, and a rating is on it exactly when either user has a bucket for it |
| CompareResult.TagAxisSpec | frontend/cp_help/src/pages/Compare/CompareResult.jsx:348-354 | the tag axis is duplicate-free and holds exactly the tags of either user, in non-increasing combined count, ties kept in first-seen order |
| Histogram.Series | frontend/cp_help/src/pages/Compare/CompareResult.jsx:323-328 | one value per axis entry: the stored count, with 0 exactly where the user lacks the key |
| Histogram.OfGet | frontend/cp_help/src/pages/Compare/CompareResult.jsx:184 | each counter is the number of times its key was bumped |
| Histogram.OfOrder | frontend/cp_help/src/pages/Compare/CompareResult.jsx:184 | the counter keys are listed in order of first bump, once each |
| Histogram.OfTotal | frontend/cp_help/src/pages/Compare/CompareResult.jsx:184 | the counters sum to the number of bumps |
| Histogram.Entries | frontend/cp_help/src/pages/ViewAnalysis/ViewAnalysis.jsx:163 | the entries are the key/count pairs in key order |
| ViewAnalysis.Aggregate | frontend/cp_help/src/pages/ViewAnalysis/ViewAnalysis.jsx:85-107 | fails exactly when some submission has no problem (the loop reads `sub.problem` unguarded); otherwise yields the solved set and the three histograms of the specification |
| ViewAnalysis.Step | frontend/cp_help/src/pages/ViewAnalysis/ViewAnalysis.jsx:90-107 | one pass of the loop: a new credited key is added with its level and tags bumped, and the verdict is bumped for every submission |
| ViewAnalysis.FirstSolves | frontend/cp_help/src/pages/ViewAnalysis/ViewAnalysis.jsx:94-95 | every first solve is OK with a truthy rating |
| ViewAnalysis.SolvedSetSpec | frontend/cp_help/src/pages/ViewAnalysis/ViewAnalysis.jsx:94-95 | the solved set is duplicate-free and holds a key exactly when some OK submission of a rated problem has it |
| ViewAnalysis.FirstSolvesKeys | frontend/cp_help/src/pages/ViewAnalysis/ViewAnalysis.jsx:94-95 | the first solves, one per key, are the solved set in order |
| ViewAnalysis.VerdictTotal | frontend/cp_help/src/pages/ViewAnalysis/ViewAnalysis.jsx:106 | the verdict counters sum to the number of submissions |
| ViewAnalysis.VerdictBucket | frontend/cp_help/src/pages/ViewAnalysis/ViewAnalysis.jsx:106 | each verdict counter is the number of submissions with that verdict |
| ViewAnalysis.VerdictMultiplicity | frontend/cp_help/src/pages/ViewAnalysis/ViewAnalysis.jsx:106 | the verdict list holds each verdict once per submission with it |
| ViewAnalysis.LevelTotal | frontend/cp_help/src/pages/ViewAnalysis/ViewAnalysis.jsx:97 | the level counters sum to the size of the solved set, the displayed "Problems Solved" |
| ViewAnalysis.LevelBucket | frontend/cp_help/src/pages/ViewAnalysis/ViewAnalysis.jsx:94-97 | each level counter is the number of first solves at that rating; level 0 (unrated) is never counted |
| ViewAnalysis.LevelMultiplicity | frontend/cp_help/src/pages/ViewAnalysis/ViewAnalysis.jsx:97 | the level list holds each rating once per first solve rated so |
| ViewAnalysis.TagBucket | frontend/cp_help/src/pages/ViewAnalysis/ViewAnalysis.jsx:99-103 | with duplicate-free tag lists, each tag counter is the number of first solves carrying the tag |
| ViewAnalysis.TagMultiplicity | frontend/cp_help/src/pages/ViewAnalysis/ViewAnalysis.jsx:99-103 | with duplicate-free tag lists, each tag occurs once per first solve carrying it |
| ViewAnalysis.CalculateTotal | frontend/cp_help/src/pages/ViewAnalysis/ViewAnalysis.jsx:158-160 | the sum of an empty dictionary is 0 (the totals above are proved of it) |
| ViewAnalysis.TopTagsSpec | frontend/cp_help/src/pages/ViewAnalysis/ViewAnalysis.jsx:162-167 | at most five entries (fewer only when there are fewer tags), each a tag with its own count, in non-increasing count; the entries shown are distinct entries of the histogram (a sub-multiset of `Object.entries`) |
| ViewAnalysis.TopTagsStable | frontend/cp_help/src/pages/ViewAnalysis/ViewAnalysis.jsx:162-167 | the stable sort keeps equal counts in `Object.entries` order: the entries shown with a given count are the first ones of that count |
| ViewAnalysis.TopTagsBest | frontend/cp_help/src/pages/ViewAnalysis/ViewAnalysis.jsx:162-167 | a tag left out has no more solves than any tag shown |
| ViewAnalysis.FormatVerdictSpec | frontend/cp_help/src/pages/ViewAnalysis/ViewAnalysis.jsx:123-138 | a known code gets its label, and a verdict is returned unchanged exactly when it is not one of the ten codes |
| ViewAnalysis.ContestLabel | frontend/cp_help/src/pages/ViewAnalysis/ViewAnalysis.jsx:81 | a name of at most 20 characters is its own label; a longer one becomes its first 20 characters followed by "...", 23 in all |
| ViewAnalysis.ContestLabelFixed | frontend/cp_help/src/pages/ViewAnalysis/ViewAnalysis.jsx:81 | the label equals the name exactly when the name has at most 20 characters, or has 23 ending in "..." |
| ViewAnalysis.ContestLabels | frontend/cp_help/src/pages/ViewAnalysis/ViewAnalysis.jsx:81 | one label per contest, in order |
| ViewAnalysis.LevelAxisSpec | frontend/cp_help/src/pages/ViewAnalysis/ViewAnalysis.jsx:338 | the level axis holds exactly the stored levels, strictly increasing |
| Helper.ValidateEmailIff | frontend/cp_help/src/utils/helper.js:1-4 | the closed-form check (no white space, one '@' with text before it, then a '.' with text on both sides) accepts exactly the strings the regular expression matches: three non-empty runs without white space or '@', joined by '@' and '.' |
| Helper.ValidEmailMatches | frontend/cp_help/src/utils/helper.js:1-4 | an address the check accepts has a match of the regular expression, with its first '@' |
| Helper.MatchValidEmail | frontend/cp_help/src/utils/helper.js:1-4 | every placement of '@' and '.' that the regular expression admits passes the check |
| Helper.ValidEmailOneAt | frontend/cp_help/src/utils/helper.js:1-4 | an accepted address holds exactly one '@' |
| Helper.GetInitials | frontend/cp_help/src/utils/helper.js:5-13 | the loop computes the initials function |
| Helper.InitialsEmpty | frontend/cp_help/src/utils/helper.js:6 | an absent or empty name has no initials |
| Helper.InitialsOfWords | frontend/cp_help/src/utils/helper.js:7-12 | when the first two words are non-empty, the initials are their upper-cased first characters, at most two |
| Helper.AppendedFirstChars | frontend/cp_help/src/utils/helper.js:8-10 | when the counted words are non-empty, the loop appends exactly one first character per word, at most two |
| Helper.InitialsDoubleSpace | frontend/cp_help/src/utils/helper.js:7-12 | the name "a  b" gets the initials "AUNDEFINED" |
| Helper.CorrectedInitialsSpec | frontend/cp_help/src/utils/helper.js:7-12 | skipping empty words, the initials are at most two upper-cased first characters of words |
| Helper.CorrectedInitialsDoubleSpace | frontend/cp_help/src/utils/helper.js:7-12 | skipping empty words, "a  b" gets "AB" |
| Helper.RankTitleTable | frontend/cp_help/src/utils/helper.js:27-38 | an absent or zero rating is "Unrated"; any other rating gets the title of its band over 1200/1400/1600/1900/2100/2300/2400/3000 |
| Helper.RankTitleMonotone | frontend/cp_help/src/utils/helper.js:27-38 | a higher rating never gets an earlier title |
| Helper.ColorTables | frontend/cp_help/src/utils/helper.js:15-50 | both colour helpers are tables over the same bands, gray for an absent, zero or sub-1200 rating |
| Helper.SameThresholds | frontend/cp_help/src/utils/helper.js:15-50 | two ratings get the same text colour exactly when they get the same background |
| Helper.BandMonotone | frontend/cp_help/src/utils/helper.js:27-38 | the band of a rating never decreases as the rating grows |
| Helper.BandBounds | frontend/cp_help/src/utils/helper.js:27-38 | the band is the number of thresholds reached: the threshold below is reached, the one above is not |
| FriendCard.CardBands | frontend/cp_help/src/components/Cards/FriendCard.jsx:19-42 | gray for an absent, zero or sub-1200 rating, then green, cyan, blue, purple, orange up to 2400 and red from 2400 |
| FriendCard.CardBackgroundTable | frontend/cp_help/src/components/Cards/FriendCard.jsx:19-42 | the background is the gradient of the rating's band |
| FriendCard.GradientsDistinct | frontend/cp_help/src/components/Cards/FriendCard.jsx:19-42 | the seven gradients are distinct, so every rating has exactly one |
| FriendCard.CardBackgroundMonotone | frontend/cp_help/src/components/Cards/FriendCard.jsx:19-42 | a higher rating never gets an earlier gradient |
| FriendCard.View | frontend/cp_help/src/components/Cards/FriendCard.jsx:45-85 | the loading placeholder exactly when loading or the data is falsy, the error card exactly when not loading and the data is not an object, otherwise the card with the rating's background |
| FriendCard.ShowCount | frontend/cp_help/src/components/Cards/FriendCard.jsx:139-146 | '...' exactly when the count is undefined |
| Contests.FirstUnitOnly | frontend/cp_help/src/pages/Contests/Contests.jsx:12-16 | the empty text gives ""; otherwise the result is the first 8 digits of the first code unit's padded binary |
| Contests.TextToBinaryShape | frontend/cp_help/src/pages/Contests/Contests.jsx:12-16 | the result is empty for empty text and 8 binary digits otherwise |
| Contests.SameFirstCharacter | frontend/cp_help/src/pages/Contests/Contests.jsx:12-16 | two texts with the same first character give the same result |
| Contests.SmallFirstCharacter | frontend/cp_help/src/pages/Contests/Contests.jsx:12-16 | for a first character below 256 the result is that code written as 8 binary digits |
| Contests.BinaryRoundTrip | frontend/cp_help/src/pages/Contests/Contests.jsx:14 | reading back `toString(2)` gives the number |
| Contests.GeneratePattern | frontend/cp_help/src/pages/Contests/Contests.jsx:18-26 | the pattern is always one of the eight precomputed ones |
| Contests.CodeSumPermutation | frontend/cp_help/src/pages/Contests/Contests.jsx:24 | names with the same characters in any order have the same code sum |
| Contests.PatternOfPermutation | frontend/cp_help/src/pages/Contests/Contests.jsx:18-25 | the index argument is ignored, and rearranged names get the same pattern |
| Problems.ValidateForm | frontend/cp_help/src/pages/Problems/Problems.jsx:89-95 | one error per failing field with its message; the link's error is present exactly when it does not start with "http", and is then always the scheme message; no errors exactly when the form is valid |
| Problems.TrimsToEmpty | frontend/cp_help/src/pages/Problems/Problems.jsx:90-95 | `!s.trim()` holds exactly for white-space-only text |
| Problems.BlankNotHttp | frontend/cp_help/src/pages/Problems/Problems.jsx:93-94 | a blank link fails the scheme test too, so "Question link is required" is always overwritten |
| Problems.HandleAddProblem | frontend/cp_help/src/pages/Problems/Problems.jsx:87-139 | a submit happens exactly when the form is valid; on success the problem goes first, the form and tag input reset, and the form's tags join the tag list; otherwise only the errors change; in every case the page's errors are exactly the validation errors of the form, field by field with their messages |
| Problems.ExtractTags | frontend/cp_help/src/pages/Problems/Problems.jsx:66-73 | the loop computes the duplicate-free list of all tags of all problems in first-seen order |
| Problems.AddAll | frontend/cp_help/src/pages/Problems/Problems.jsx:120-122 | adding a list to a set gives the set of the concatenation |
| Problems.AllTagsMember | frontend/cp_help/src/pages/Problems/Problems.jsx:66-73 | the extracted list is duplicate-free and holds exactly the tags of the problems |
| Problems.AddTag | frontend/cp_help/src/pages/Problems/Problems.jsx:173-181 | an empty input or a tag already present changes nothing; otherwise the input is appended and cleared |
| Problems.AddTagSpec | frontend/cp_help/src/pages/Problems/Problems.jsx:173-181 | the tag list stays duplicate-free, keeps its old tags in front, and holds a non-empty input |
| Problems.RemoveTag | frontend/cp_help/src/pages/Problems/Problems.jsx:184-189 | the removed tag is gone, every other tag stays, nothing new appears |
| Problems.RemoveTagSpec | frontend/cp_help/src/pages/Problems/Problems.jsx:184-189 | the other tags keep their order and their number of copies, and a duplicate-free list stays so |
| Problems.AddThenRemove | frontend/cp_help/src/pages/Problems/Problems.jsx:173-189 | removing a tag just added gives back the old list |
| Problems.DeleteProblem | frontend/cp_help/src/pages/Problems/Problems.jsx:147 | no problem with the id is left, and every other problem stays |
| Problems.DeleteKeepsOrder | frontend/cp_help/src/pages/Problems/Problems.jsx:147 | the rest keep their order and their number of copies |
| Problems.FilterProblemsSpec | frontend/cp_help/src/pages/Problems/Problems.jsx:192-205 | the filtered list keeps the order of the list and holds exactly the problems passing all four tests, each as many times as in the list |
| Problems.NoFiltersKeepAll | frontend/cp_help/src/pages/Problems/Problems.jsx:192-205 | with an empty search, "All"/"All" and no tag filter nothing is filtered out |
| Problems.RequestSort | frontend/cp_help/src/pages/Problems/Problems.jsx:225-231 | the new key is the one asked for, descending exactly when it was already the ascending key |
| Problems.RequestSortToggles | frontend/cp_help/src/pages/Problems/Problems.jsx:225-231 | asking for the same column twice flips the direction |
| Problems.BeforeWeak | frontend/cp_help/src/pages/Problems/Problems.jsx:208-222 | the comparator is consistent for every key and direction |
| Problems.SortProblemsSpec | frontend/cp_help/src/pages/Problems/Problems.jsx:208-222 | the sorted list is a permutation of the filtered list, ordered by the chosen key and direction, equal rows keeping their filtered order |
| Problems.DifficultyOrder | frontend/cp_help/src/pages/Problems/Problems.jsx:215-220 | difficulty sorts as text: "Easy" before "Hard" before "Medium" |

## Left out

- Fetching: the requests to the Codeforces API, the contests API and the CodeSphere backend, and their status checks. The aggregators take already-fetched lists.
- Clock: `Date.now()` becomes the parameter `now`, in integer seconds. `new Date(...)` conversions are not modelled, so `lastDate` is the raw update time.
- `avg45`: `toFixed(2)` is floating-point text formatting. The model keeps the recent count it is computed from.
- The tooltip percentage in the analysis view is floating point and is not modelled.
- CompareResult.Acceptance: rounds the exact rational 100·ac/n. The floating-point product of JavaScript can differ at exact halves, and that is not modelled.
- Text: case mapping (`Text.ToLower`, `Text.ToUpper`) covers ASCII letters only, and JavaScript `<` on strings is modelled as code-point order. This matches JavaScript for Codeforces handles, which are ASCII. It does not match for user-entered text with non-ASCII letters, and for characters outside the Basic Multilingual Plane the string order can differ.
- Problems.Matches, Problems.FilterProblems and Problems.FilterProblemsSpec: on titles, notes, tags or search text with non-ASCII letters the model differs from the program. For example, a problem titled "Éclair" searched with "é" is kept by the program and dropped by the model.
- Helper.Initials, Helper.GetInitials and Helper.CorrectedInitials: a full name with non-ASCII letters is upper-cased differently. For example, JavaScript turns "ß" into "SS", while the model keeps "ß".
- Contests counts UTF-16 code units, as JavaScript does. The other modules treat characters outside the Basic Multilingual Plane as one character.
- Histogram: `Object.keys` puts integer-like keys first in ascending order. Counters keyed by rating are sorted before use anyway. Tags are taken to be non-numeric text, so their counters keep insertion order.
- CompareResult.SafeProcess: a profile is taken to always carry its handle, so the `handle = "N/A"` default for a profile without one is not modelled. Codeforces returns the handle with every profile, and the handle map lower-cases it (`u.handle.toLowerCase()`), which would fail without one.
- Histogram.Get and CompareResult.LastWithHandle: counter keys (tags, ratings, verdicts) and handle keys are assumed not to name `Object.prototype` members such as "constructor" or "toString". For such a key, `obj[key] || 0` reads an inherited function rather than 0. Codeforces tags, verdicts and handles never take those names.
- FriendCard.ShowCount: a count of `null` (as opposed to `undefined`) is not distinguished from a number.
- ViewAnalysis.FormatVerdictSpec: verdict strings naming inherited object properties (such as "constructor") are not modelled.
- ViewAnalysis.TagBucket, ViewAnalysis.TagMultiplicity, CompareResult.TagBucket and CompareResult.TagMultiplicity: require a problem's tag list to be duplicate-free. A repeated tag would be counted once per repetition, and the lemmas do not describe that case.
- Problems: a problem whose `tags` is missing or not an array contributes no tags, so tags are typed as a list. The form's `tags` is always a list.
- Problems.HandleAddProblem: the server's answer is a parameter, `None` standing for a refused or failed request. The success flag, the delayed form hiding, the error messages and the submitting flag are not modelled.
- React state, effects, navigation, `localStorage`, modals, charts and markup.
- The rest of the client (Home, Login, SignUp, Navbar, ProfileInfo, SearchBar, App, Profile, and Compare's trim-and-navigate step) is not part of this model.
- The backend, its models and its index migration are not part of this model.

## Findings

| source | as written | input that shows it | evidently intended | confidence | as-written member | corrected member |
|---|---|---|---|---|---|---|
| frontend/cp_help/src/utils/helper.js:7-12 | `name.split(" ")` keeps empty words, and `words[index][0]` of an empty word is `undefined`, which the concatenation turns into the text "undefined" | the name "a  b" (two spaces) gives "AUNDEFINED" | the initials of the first two words, "AB" | not executed | Helper.InitialsDoubleSpace | Helper.CorrectedInitialsDoubleSpace |
