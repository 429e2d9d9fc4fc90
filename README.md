# Quotes service: votes, quote lifecycle and listing

This project models `QuotesService`, the core of a small quotes backend, in Dafny. The service keeps two
stores:

- a **quotes** store, mapping an id to `{text, author, upvotes, downvotes}`;
- a **votes** store, holding records `{userId, quoteId, voteType}` where `voteType` is `upvote` or
  `downvote`.

On these stores it offers the following operations:

- **`upvote` / `downvote`** form a three-way state machine on the caller's existing vote for the quote:
  - no vote: create one and raise the matching counter;
  - a vote in the same direction: reject;
  - a vote in the opposite direction: flip it, lower the old counter (floored at 0) and raise the new
    one.
- **`create`, `update`, `delete`**: input validation, author defaulting, and removal of a deleted
  quote's votes.
- **`findAll`**: page and limit defaulting, `skip`, `totalPages`, and the sort and filter it hands to
  the database.

Files:

- `wrappers.dfy`: `Option` and `Result`.
- `text.dfy`: JavaScript's `trim` and the characters it strips.
- `model.dfy`: the records, the errors and their messages, counting of vote records, `findOne` and
  `deleteMany` on the votes store, the store invariant and the counting lemmas.
- `voting.dfy`: `upvote` and `downvote` as the function `Cast` of the two stores, and the lemmas
  about it.
- `editing.dfy`: the validation and defaulting of `create` and `update`.
- `querying.dfy`: the parameter arithmetic of `findAll`.
- `service.dfy`: class `QuotesService`. Its fields `quotes: map` and `votes: seq` are the two stores.
  Its methods change these fields step by step, as the service does, and are proved against the
  functions above.
- `scenarios.dfy`: concrete runs of the model. The two vote flips come from the service's unit tests. The others are further edge cases: counter drift, voting after a delete, the page count over 25 matches, and a negative page.

The votes store is a sequence, and `findOne` returns the first matching record. The database enforces
no uniqueness, so "at most one vote per (user, quote)" is an invariant the service has to keep.
`Model.Consistent` bundles it with two more facts:

- every counter equals its number of vote records;
- every vote is on an existing quote.

The vote methods do not assume this invariant. They work on any stores, the floor included, and
promise to keep the invariant when it held before (`old(Consistent()) ==> Consistent()`). Under the
invariant the `Math.max(0, …)` floor never clips (`Voting.FloorNeverClips`). When the counters
have drifted, the floor does mask the drift (`Scenarios.FloorMasksDrift`).

Behaviour of the code worth knowing:

- **Error kinds.** Every error is a `BadRequestException` told apart only by its message.
  `Model.Error` has one constructor per message, and `Error.Message` gives the exact text.
- **`page` and `limit`.** These are not coerced to positive integers. `Number(x) || d` keeps any
  nonzero number, negatives included, and only an absent value or 0 falls back to the default.
  A page below 1 with a positive limit, or a page above 1 with a negative limit, gives a negative
  `skip`. The database refuses a negative skip, so `findAll` throws for those queries; the model's
  `FindAll` returns `None` exactly then (`Scenarios.NegativePageRejected`).
- **The `voted` filter.** `filter = 'voted'` selects quotes with `upvotes > 0`, and `'not_voted'`
  selects quotes with `downvotes > 0`. This holds whoever cast the votes; the caller's `userId` plays
  no part (`Querying.FilterSelects`).
- **Empty `author`.** `create` replaces an empty author with "Unknown", but `update` stores an empty
  author as given.

## Model

| member | source | states |
|---|---|---|
| `Text.TrimStart` | src/quotes/quotes.service.ts:65 | the leading-whitespace half of `trim`: never longer than its input |
| `Text.TrimStartDropsBlankPrefix` | src/quotes/quotes.service.ts:65 | `TrimStart` keeps a suffix of its input; everything removed is whitespace and what is kept starts at a non-whitespace character |
| `Text.TrimEnd` | src/quotes/quotes.service.ts:83 | the trailing-whitespace half of `trim`: never longer than its input |
| `Text.TrimEndDropsBlankSuffix` | src/quotes/quotes.service.ts:83 | `TrimEnd` keeps a prefix of its input; everything removed is whitespace and what is kept ends at a non-whitespace character |
| `Text.Trim` | src/quotes/quotes.service.ts:65 | `s.trim()` is never longer than `s` |
| `Text.TrimLeavesNoOuterWhitespace` | src/quotes/quotes.service.ts:65 | a non-empty `s.trim()` neither starts nor ends with whitespace |
| `Text.TrimEmptyIffBlank` | src/quotes/quotes.service.ts:65 | `s.trim() === ''` holds exactly when every character of `s` is JavaScript whitespace |
| `Model.FindVote` | src/quotes/quotes.service.ts:107-110 | `findOne({quoteId, userId})`: returns the position of the first vote by that user on that quote, or None exactly when no such vote exists |
| `Model.WithoutQuote` | src/quotes/quotes.service.ts:195 | `deleteMany({quoteId})`: keeps exactly the votes on other quotes |
| `Model.CountAppend` | src/quotes/quotes.service.ts:131-136 | saving a new vote raises the count of its (quote, type) by one and leaves every other count alone |
| `Model.CountUpdate` | src/quotes/quotes.service.ts:118-119 | rewriting one vote record moves its tally from the old type to the new one and changes no other count |
| `Model.CountPositive` | src/quotes/quotes.service.ts:122 | a quote with some vote of type t has a count of at least 1 for t |
| `Model.CountAbsent` | src/quotes/quotes.service.ts:70-75 | a quote that no vote is on has counts 0, matching the counters a new quote starts with |
| `Model.CountWithoutQuote` | src/quotes/quotes.service.ts:188-195 | after the cascade the deleted quote's counts are 0 and every other quote's counts are unchanged |
| `Model.CountConcat` | src/quotes/quotes.service.ts:195 | counting distributes over concatenation of vote sequences |
| `Model.WithoutQuoteKeepsOnePerPair` | src/quotes/quotes.service.ts:195 | removing a quote's votes keeps at most one vote per (user, quote) |
| `Model.AddQuoteKeepsConsistency` | src/quotes/quotes.service.ts:70-75 | storing a new quote with both counters 0 under an unused id keeps the invariant |
| `Model.SameCountersKeepConsistency` | src/quotes/quotes.service.ts:87-91 | replacing a quote by one with the same counters (what `update` does) keeps the invariant |
| `Model.Error.Message` | src/quotes/quotes.service.ts:66-191 | each error carries the exact, non-empty message the service throws it with |
| `Model.MessagesDistinct` | src/quotes/quotes.service.ts:66-191 | two different errors never share a message, so the message alone identifies the error |
| `Voting.Max` | src/quotes/quotes.service.ts:122 | `Math.max(a, b)`: one of its arguments, and not below either |
| `Voting.Cast` | src/quotes/quotes.service.ts:100-186 | `upvote`/`downvote` as a function of the stores: it never adds or removes quotes and changes no other quote; a failure changes nothing; a success returns the stored quote, and afterwards the caller holds a vote of that direction on it; it adds at most one vote record |
| `Voting.CastKeepsCountersNonNegative` | src/quotes/quotes.service.ts:116-141 | on any stores, drifted ones included, a vote keeps non-negative counters non-negative, because the only decrement is floored at 0 |
| `Voting.RejectedExactlyWhen` | src/quotes/quotes.service.ts:101-115 | with at most one vote per pair, a vote fails exactly when the quote is missing ("Quote not found") or the user already holds a vote of that direction ("User already upvoted/downvoted"); a failed vote changes neither store |
| `Voting.FirstVote` | src/quotes/quotes.service.ts:130-141 | a first vote succeeds and appends exactly one record of its direction, keeping every existing record; it raises only that counter, by 1, and leaves the other counter, text, author and other quotes unchanged |
| `Voting.FloorNeverClips` | src/quotes/quotes.service.ts:122 | under the invariant, the counter lowered on a flip is at least 1, so `Math.max(0, c - 1) == c - 1` |
| `Voting.FlipVote` | src/quotes/quotes.service.ts:116-126 | a flip rewrites only the caller's record to the new direction and adds no quote; the new counter rises by 1, the old counter becomes `max(0, old - 1)`, exactly `old - 1` under the invariant, and the record counts move by one |
| `Voting.CastPreservesConsistency` | src/quotes/quotes.service.ts:100-186 | every upvote or downvote keeps counters equal to the vote-record counts, at most one vote per (user, quote), votes on existing quotes, and all counters non-negative |
| `Voting.FirstVoteKeepsConsistency` | src/quotes/quotes.service.ts:130-141 | the first-vote branch keeps the invariant |
| `Voting.FlipKeepsConsistency` | src/quotes/quotes.service.ts:160-170 | the flip branch keeps the invariant |
| `Editing.NewQuote` | src/quotes/quotes.service.ts:63-77 | `create` fails ("Quote text is required") exactly when the text is absent or whitespace-only; otherwise it keeps the text as given, the author as given or "Unknown" when absent or empty, and starts both counters at 0 |
| `Editing.UpdateTextError` | src/quotes/quotes.service.ts:83-85 | `update` rejects ("Quote text cannot be empty") exactly a text that is given and whitespace-only |
| `Editing.Patch` | src/quotes/quotes.service.ts:87-91 | `$set` replaces the fields given and keeps the others, both counters included |
| `Querying.NumberOr` | src/quotes/quotes.service.ts:24-25 | JavaScript `Number(x)` or-defaulted to `d`: a nonzero value is kept, negatives included; absent or 0 gives `d`; the result is nonzero when `d` is |
| `Querying.PageOf` | src/quotes/quotes.service.ts:24 | `Number(page) or 1`: a nonzero page as given, negatives included; 1 when absent or 0; never 0 |
| `Querying.LimitOf` | src/quotes/quotes.service.ts:25 | `Number(limit) or 10`: a nonzero limit as given, negatives included; 10 when absent or 0; never 0, so the page count is defined |
| `Querying.Skip` | src/quotes/quotes.service.ts:26 | `(page - 1) * limit`: 0 on page 1, non-negative on later pages with a positive limit, and negative exactly for a page below 1 with a positive limit or a page above 1 with a negative limit |
| `Querying.CeilDiv` | src/quotes/quotes.service.ts:59 | `Math.ceil(total / limit)`: the least integer not below the quotient, for either sign of limit |
| `Querying.SortOf` | src/quotes/quotes.service.ts:28-29 | the sort field is `sortBy`, or "upvotes" when absent or empty; the direction is 1 exactly when `order === 'asc'`, and -1 otherwise |
| `Querying.FilterOf` | src/quotes/quotes.service.ts:31-43 | a text pattern exactly when `search` is non-empty, and it is the search; the positive counter is upvotes exactly for 'voted' and downvotes exactly for 'not_voted' |
| `Querying.FilterSelects` | src/quotes/quotes.service.ts:31-43 | the built filter selects a quote exactly when a non-empty search matches its text, 'voted' implies `upvotes > 0` and 'not_voted' implies `downvotes > 0` |
| `Querying.PagesCoverAll` | src/quotes/quotes.service.ts:26 | with a positive limit, the k-th match lies on page `k / limit + 1`, inside 1..totalPages and within that page's skip window; the last page is not empty |
| `Querying.ListingOf` | src/quotes/quotes.service.ts:24-60 | the page, limit, sort and filter are those computed from the query, page and limit are nonzero, `skip = (page - 1) * limit`, and `totalPages` is the ceiling of `total / limit` |
| `Quotes.QuotesService.constructor` | src/quotes/quotes.service.ts:10-13 | both stores start empty and consistent |
| `Quotes.QuotesService.Create` | src/quotes/quotes.service.ts:63-77 | on failure nothing changes; on success the quote from `NewQuote` is stored under a fresh id and the votes are untouched; the invariant is kept |
| `Quotes.QuotesService.Update` | src/quotes/quotes.service.ts:79-98 | a blank text is rejected first and a missing id second, each changing nothing; otherwise only that quote is patched and the votes are untouched |
| `Quotes.QuotesService.CastVote` | src/quotes/quotes.service.ts:100-186 | the stores and the returned quote or error after the step-by-step update equal `Cast` of the old stores; the invariant is kept, and so are non-negative counters on any stores |
| `Quotes.QuotesService.Upvote` | src/quotes/quotes.service.ts:100-142 | `Cast` with direction upvote, keeping the invariant and non-negative counters |
| `Quotes.QuotesService.Downvote` | src/quotes/quotes.service.ts:144-186 | `Cast` with direction downvote, keeping the invariant and non-negative counters |
| `Quotes.QuotesService.Delete` | src/quotes/quotes.service.ts:188-198 | a missing id fails and changes nothing; otherwise it removes the quote and exactly its votes, returns `deleted: true`, and keeps the invariant |
| `Quotes.QuotesService.FindAll` | src/quotes/quotes.service.ts:15-61 | nothing is returned exactly when the skip is negative, which the database rejects so the service throws; otherwise it returns the defaulted page and limit, a non-negative skip, the sort and filter; `total` is the number of stored quotes the filter selects, and `totalPages` is the ceiling of `total / limit` |
| `Scenarios.FlipThenRepeat` | src/quotes/quotes.service.spec.ts:139-169 | upvoting a (2, 1) quote on which the caller holds a downvote gives (3, 0); upvoting again fails and changes nothing |
| `Scenarios.DownvoteFlip` | src/quotes/quotes.service.spec.ts:220-238 | downvoting a (1, 0) quote on which the caller holds an upvote gives (0, 1) |
| `Scenarios.FloorMasksDrift` | src/quotes/quotes.service.ts:122 | an extra edge case, not from the tests: with counters drifted to (0, 0), a flip yields (1, 0), not (1, -1) |
| `Scenarios.VoteAfterDelete` | src/quotes/quotes.service.ts:188-198 | an extra edge case, not from the tests: after a quote is deleted its votes are gone and voting on it fails with "Quote not found" |
| `Scenarios.PageCounts` | src/quotes/quotes.service.ts:24-59 | page 1 of 10 gives skip 0; 1 match makes 1 page, as the unit test expects; 25 matches make 3 pages, an extra case |
| `Scenarios.NegativePageRejected` | src/quotes/quotes.service.ts:24-50 | an extra edge case, not from the tests: page -1 with the default limit asks for a skip of -20, and `findAll` lists nothing |

## Left out

- Quotes.QuotesService.FindAll: does not return the page of documents (`data`). When the database rejects a negative skip, the service throws the driver's error; the model returns `None` and does not model that error's type or message. The sort, skip and limit are executed by the database, and the model only computes the parameters it passes.
- Search: the case-insensitive `$regex` match is the database's regular-expression engine. It is a parameter `textMatches` of `FindAll` and `FilterSelects`.
- `sortBy: 'createdAt'`: it is passed through as a field name like any other. A quote has no timestamp, so what ordering it yields is not modelled.
- Concurrency and atomicity: the read-modify-write in `upvote`/`downvote` takes no lock, and the vote and the quote are saved separately. The model runs one request at a time with no crash between the two saves, and claims no atomicity.
- JavaScript `Number()` coercion: coercion of arbitrary query strings and NaN is not modelled. `page` and `limit` are optional integers, where absent or 0 selects the default.
- JavaScript numbers: the counters are unbounded integers. Floating-point precision beyond 2^53 is not modelled.
- Ids: ids are natural numbers, and the database's fresh `ObjectId` is a `nextId` counter. The cast error for a malformed id string is not modelled.
- The `createdAt` and `updatedAt` timestamps of votes are not modelled; nothing in the service reads them.
- The `userId` that `findAll` receives is not modelled: the service never uses it.
- Authentication, HTTP routing, dependency-injection wiring and server bootstrap are external collaborators and are not modelled. This covers src/auth/auth.service.ts, src/auth/auth.controller.ts, src/quotes/quotes.controller.ts, src/quotes/quotes.module.ts, src/app.module.ts and src/main.ts. The caller's identity arrives as an already-resolved `userId`.
