# PMInternship recommendation scorer, in Dafny

This project models the one piece of the PMInternship backend that has
logic of its own: the internship recommendation scorer
(`getInternshipRecommendations` in `server.js`). It also models the simulated
bank-account verification rule.

The scorer takes a requester's preference record and an ordered catalog of
internship postings. For each posting it:

- adds 10 points for every required skill found among the requester's
  technical and soft skills, and records that skill as matching;
- adds 5 if the lower-cased location, or the wildcard `"any"`, is among the
  preferred cities;
- adds 3 if the work modes are equal or the requester's mode is `"any"`;
- adds 5 if the sector is among the sector interests;
- adds 2 if the education levels are equal.

It then drops the postings that scored 0, sorts the rest by score from high
to low with a stable sort, and returns the first five.

Files:

- `sequences.dfy` (module `Sequences`): an order-preserving `Filter` on
  sequences and its laws (concatenation, membership, element counts,
  subsequence). The scorer uses it for the matching skills, the score filter
  and the per-score views used to state stability.
- `scoring.dfy` (module `Scoring`): the preference, posting and scored-entry
  records, the additive rule as functions, and `ScorePosting`. That method
  keeps the source's running total and growing skill list in a loop, and is
  proved equal to the rule.
- `ranking.dfy` (module `Ranking`): the filter / stable sort / take-five
  pipeline as functions, with lemmas for permutation, order, stability,
  uniqueness of the stable sort, length and top-five selection.
- `recommender.dfy` (module `Recommender`): the entry point. It scores the
  catalog in order and ranks the result, with lemmas stated in terms of the
  catalog.
- `catalog.dfy` (module `Catalog`): the five hard-wired postings
  (`SampleInternships`, server.js:316-382) and a worked example that scores
  and ranks them.
- `bank_verification.dfy` (module `BankVerification`): the verification rule
  as a transition on a user store.

The catalog is a parameter (`seq<Posting>`). The source's five records are
the constant `Catalog.SampleInternships`. Skills, cities and sectors are
sequences, not sets, because the source works on arrays. In particular, a
required skill listed twice is matched, scored and reported twice.

The model follows the code where it is narrower than a set-based reading
of the rule:

- Skill collections read naturally as sets, and the combined skills as a
  union. The code concatenates arrays and walks `requiredSkills` with
  `forEach`, so duplicates count.
- Discarding postings with score ≤ 0 and keeping those with `score > 0`
  (the code) are the same thing here. Scores are never negative (`Scoring.Score`).

`Array.prototype.sort` has been required to be stable since the 2019 edition
of ECMA-262 (section 22.1.3.27 of that edition). The model sorts with a
stable insertion sort. `Ranking.SortIsTheStableSort` proves that every
arrangement that is sorted by descending score and keeps the input order of
equal scores equals this one. So the result does not depend on which stable
algorithm an engine uses.

## Model

| member | source | states |
|---|---|---|
| `Scoring.ScorePosting` | server.js:385-423 | The step-by-step score and skill list equal the additive rule: the posting is unchanged, the matching skills are the required skills found in technical++soft skills, and the score is 10 per matching skill plus 5/3/5/2 for city, mode, sector and education. |
| `Scoring.MatchingSkillsExact` | server.js:387-396 | The matching skills are exactly the required skills the requester has. Each such skill appears as often as it is required, no other skill appears, and they come in required-skill order (a subsequence). |
| `Scoring.Score` | server.js:386-417 | A score is at least 0 and at most 10·\|requiredSkills\| + 15. |
| `Scoring.Scored` | server.js:386-423 | The emitted entry carries the posting unchanged. Every reported skill is both required and one of the requester's skills. The score exceeds 10 per reported skill by exactly the city (5), mode (3), sector (5) and education (2) bonuses that apply. |
| `Scoring.ScorePositiveIff` | server.js:386-417 | A posting scores above zero exactly when some required skill is among the requester's skills, or the city, mode, sector or education criterion holds. |
| `Scoring.ToLower` | server.js:399 | Lower-casing keeps the length, leaves no upper-case ASCII letter, shifts each upper-case letter by 32 and keeps every other character. |
| `Ranking.Insert` | server.js:429 | Inserting one entry into a list adds exactly one element, and the head is either the new entry or the old head. |
| `Ranking.InsertPermutes` | server.js:429 | Inserting an entry adds exactly that entry to the multiset of entries. |
| `Ranking.InsertSorted` | server.js:429 | Inserting into a list sorted by descending score keeps it sorted. |
| `Ranking.InsertStable` | server.js:429 | For every score, the inserted entry comes before the list's entries of that score, which keep their order. |
| `Ranking.SortByScore` | server.js:429 | The sort returns a permutation of its input (same multiset, same length) ordered from highest to lowest score. |
| `Ranking.SortStable` | server.js:429 | For every score, the entries with that score keep their input order through the sort. |
| `Ranking.SortIsTheStableSort` | server.js:429 | Any arrangement that is sorted by descending score and keeps the order of equal scores equals the modelled sort. |
| `Ranking.EligibleWithScore` | server.js:428 | The `score > 0` filter keeps every entry of each positive score in order, and none of score 0 or below. |
| `Ranking.Eligible` | server.js:428 | An entry survives the filter iff it is one of the scored entries and its score is above zero; the filter never lengthens the list. |
| `Ranking.Take` | server.js:430 | Taking the first n entries gives a prefix of the list, of length n, or the whole list when it is no longer than n. |
| `Ranking.Rank` | server.js:427-430 | The ranked output has at most 5 entries and at most as many as scored above zero. It has exactly 5 when at least 5 did, and it is empty iff none did. |
| `Ranking.RankSound` | server.js:427-430 | Every output entry scored above zero and is one of the input entries. No entry is output more often than it occurs in the input. |
| `Ranking.RankSorted` | server.js:429-430 | The output is non-increasing by score. |
| `Ranking.RankStable` | server.js:428-430 | For each score, the output's entries of that score are a prefix of the input's entries of that score, in input order. There are none for scores ≤ 0. |
| `Ranking.RankKeepsBest` | server.js:427-430 | Every positive entry is either returned or dropped. A dropped entry never outscores a returned one, and nothing is dropped while fewer than 5 are returned. |
| `Recommender.GetInternshipRecommendations` | server.js:314-431 | Scoring the catalog posting by posting and ranking gives the recommendation function. The result has at most 5 entries, is sorted by score, and each entry has a positive score and is a catalog posting scored by the rule. |
| `Recommender.RecommendFaithful` | server.js:419-423 | Each recommendation carries a catalog posting unchanged, plus the score and matching skills the rule gives it, and its score is positive. |
| `Recommender.ScoreCatalog` | server.js:385-424 | The scored list has one entry per catalog posting, in catalog order, and entry i is posting i as scored by the rule. |
| `Recommender.Recommend` | server.js:385-430 | At most 5 recommendations, and at most the number of postings with a positive score. There are exactly 5 when at least 5 postings scored. |
| `Recommender.RecommendOrder` | server.js:429 | Recommendations are ordered by descending score. For each score, the recommended postings are the first catalog postings with that score, in catalog order. |
| `Recommender.RecommendEmptyIff` | server.js:385-430 | There are no recommendations exactly when every catalog posting scores 0. |
| `Recommender.NoMatchNoRecommendations` | server.js:386-430 | No recommendations are returned when no posting matches on skills, city, mode, sector or education, and neither wildcard is given. |
| `Catalog.ExampleScores` | server.js:316-417 | Preferences programming / bangalore / hybrid / technology / bachelor score the five hard-wired postings 25, 17, 2, 2 and 10. |
| `Catalog.ExampleRanking` | server.js:316-430 | With those preferences the recommendations are postings 1, 2, 5, 3, 4, in that order. The two postings that tie keep catalog order. |
| `BankVerification.VerifyBankAccount` | server.js:196-211 | An unknown user gives "not found". Otherwise the answer is "verified" iff the supplied Aadhaar number equals the stored one. Only a success changes the store, and it sets only that user's bank-account status to "verified". |
| `BankVerification.ReplyStatus` | server.js:206-211 | A successful verification replies with status "verified" and a failed one with "failed"; "verified" appears exactly for a success. |
| `BankVerification.VerifyIdempotent` | server.js:204-207 | After a successful verification, repeating it succeeds again and leaves the store as it is. |
| `BankVerification.VerifiedStaysVerified` | server.js:204-211 | No verification attempt resets an account that is already verified. |

## Left out

- HTTP routing, middleware, static serving and server start-up
  (server.js:11-18, 58-61, 433-435): framework plumbing with no logic here.
- The document store (schemas, `find`/`save`/`update`/`delete` calls,
  server.js:20-54, 64-244, 247-280, 294-298). Only the bank verification's
  lookup and update are modelled, as a map from user id to record. Storage
  failures and their generic 500 reply are not modelled. In particular a user
  id that is not a well-formed document id makes the lookup throw, so the
  source answers with the 500 of server.js:212-213, not a 404;
  `BankVerification.VerifyBankAccount` answers `UserNotFound` for every id
  that is not in the map.
- Password hashing and token signing/verification (server.js:75, 90, 120, 126,
  289-291): opaque library calls. The other routes are short sequences of
  storage calls with no logic of their own and are not modelled: register
  (`findOne` then `save`, server.js:69, 87), login (`findOne` then the
  password comparison, server.js:114, 120), insurance (`findByIdAndUpdate`
  then `save`, server.js:151, 160), dashboard (`findById` then `findOne`,
  server.js:171, 176) and delete (`findById`, `deleteMany`,
  `findByIdAndDelete`, server.js:223, 229, 232).
- The preference upsert done by the recommendations route when a token is
  present (server.js:287-299): a storage side effect outside scoring.
- Missing list-valued preferences (`technicalSkills`, `softSkills`,
  `preferredCities`, `sectorInterest`), which make the source throw at
  server.js:390, 399 and 410: every list-valued preference is a sequence,
  possibly empty.
- Missing `workMode` or `educationLevel`: the source does not throw, the
  comparisons at server.js:405 and 415 are simply false. The model's
  `string` fields cover this case: an absent value behaves like a string that
  equals no posting's value and is not `"any"`.
- The `cgpa`, `fieldOfStudy`, `duration` and `stipend` preferences: the
  scorer never reads them (and `cgpa` is a float).
- `Scoring.ToLower`: lower-cases ASCII letters only, not the full Unicode
  mapping of `toLowerCase`.
- The scorer is `async` but never awaits; the model is synchronous.
- `BankVerification.VerifyBankAccount`: the lookup (server.js:198) and the
  update (server.js:207) are two separate awaited storage calls, modelled as
  one atomic step, so interleaving with other requests is not captured. For
  example, a delete (server.js:232) landing between them leaves no record,
  the update matches nothing, and the reply at server.js:208 still says
  "verified"; the model promises the user is present and marked verified.
- The reply messages of the verification route (only the outcome and the
  status string are modelled). A supplied Aadhaar number that is absent or
  not a string is `None`, which never equals the stored string.
