# Real-time poll rooms: poll creation and display, modelled in Dafny

This project models the deterministic logic around creating and showing a
poll in the poll-rooms web application:

- **Poll creation on the server** (`POST /api/polls`, module `CreatePoll`,
  `create_poll.dfy`). The request body's `question`, `options` and
  `expiresIn` fields are modelled as JSON values. Missing fields and JavaScript
  truthiness are modelled too, and so is destructuring a body that is not an
  object. The model covers the three 400 refusals and the 500 answer. That
  answer comes from a body that is `null` or not JSON, from a `.trim()` on a
  non-string, or from an expiry beyond the JavaScript Date range. It also
  covers the optional absolute expiry, the trimmed question, and option rows
  numbered `0..n-1` and returned sorted by position.
- **The creation form** (module `PollForm`, `poll_form.dfy`). Its state is a
  class `Form` with the question, the option list, the expiry choice and the
  in-flight flag. Its handlers `AddOption`, `RemoveOption`, `UpdateOption`
  and `HandleSubmit` are methods. The submit-time validation is the pure
  function `CheckSubmission`. `SentPayloadAccepted` proves that every request
  the form sends passes the server model's validation. With an expiry inside
  the Date range it yields the non-blank options the user typed, trimmed and
  in order.
- **The poll card** (module `PollCard`, `poll_card.dfy`). It covers the
  expiry test, the "N units ago" caption and the vote/button labels.
- **JavaScript string behaviour** the three rely on (module `JsText`,
  `js_text.dfy`). This is `trim` with the ECMAScript whitespace set, the
  `filter(s => s.trim())` idiom, and decimal rendering of integers with its
  inverse.

Times are integer milliseconds. The clock (`Date.now()`, `new Date()`) and
the database-assigned poll id are parameters.

The card (components/poll-card.tsx:38) compares strictly: a poll is expired
only once `expiresAt < now`, so it is still open at its exact expiry instant.
`PollCard.ExpiryBoundary` proves this.

## Model

| member | source | states |
|---|---|---|
| `JsText.Trim` | app/api/polls/route.ts:11 | the result is the slice of the input after its leading whitespace; it neither starts nor ends with whitespace; everything cut off is whitespace; it is empty exactly when the input is all whitespace |
| `JsText.TrimIdempotent` | app/api/polls/route.ts:55 | trimming an already trimmed text changes nothing |
| `JsText.TrimUnchanged` | app/api/polls/route.ts:50 | a text with no whitespace at either end is its own trim |
| `JsText.BlankIffTrimEmpty` | components/poll-form.tsx:40 | a text is blank (falsy after `trim()`) exactly when its trim is empty, exactly when it is all whitespace |
| `JsText.TrimNotBlank` | app/api/polls/route.ts:50 | the trim of a non-blank text is non-empty and non-blank |
| `JsText.NonBlank` | components/poll-form.tsx:49 | `filter(opt => opt.trim())` keeps no blank entry and never grows the list |
| `JsText.NonBlankMembers` | components/poll-form.tsx:49 | an entry is kept exactly when it is in the list and not blank |
| `JsText.NonBlankAppend` | components/poll-form.tsx:49 | the filter distributes over concatenation, so kept entries stay in their original order |
| `JsText.NonBlankUnchanged` | components/poll-form.tsx:49 | a list without blank entries passes the filter unchanged |
| `JsText.NonBlankIdempotent` | components/poll-form.tsx:69 | filtering the already filtered options again changes nothing |
| `JsText.NatToDecimal` | components/poll-card.tsx:20 | a number renders as at least one decimal digit, with no leading zero |
| `JsText.DecimalRoundTrip` | components/poll-card.tsx:20 | reading the rendered digits back gives the number |
| `JsText.IntRoundTrip` | components/poll-card.tsx:60 | a rendered integer, negative ones included, reads back as itself |
| `CreatePoll.Status` | app/api/polls/route.ts:11-32 | the validation refusals answer 400 and only the caught exception answers 500 |
| `CreatePoll.ValidOptions` | app/api/polls/route.ts:26 | the option filter throws exactly when some entry is truthy but not a string; otherwise it keeps at most as many entries as given |
| `CreatePoll.ValidOptionsNonBlank` | app/api/polls/route.ts:26 | no blank string survives the option filter |
| `CreatePoll.ValidOptionsOne` | app/api/polls/route.ts:26 | on a single entry the filter throws, keeps the string, or drops it (falsy or blank) |
| `CreatePoll.ValidOptionsAppend` | app/api/polls/route.ts:26 | the filter works entry by entry, so its result is the kept strings in original order |
| `CreatePoll.ValidOptionsOfStrings` | app/api/polls/route.ts:26 | on an array of strings the server filter equals the form's `filter(opt => opt.trim())` |
| `CreatePoll.ExpiresAt` | app/api/polls/route.ts:34-38 | an expiry exists exactly when `expiresIn` is a positive number, and then lies `expiresIn * 1000` ms after now (whether that time is a valid Date is decided by `Create`) |
| `CreatePoll.NumberOptions` | app/api/polls/route.ts:54-58 | row `i` carries the trimmed `i`-th valid text, position `i` and the new poll's id |
| `CreatePoll.NumberedSorted` | app/api/polls/route.ts:54-58 | the numbered rows are already in position order |
| `CreatePoll.InsertByPosition` | app/api/polls/route.ts:76 | inserting into position-sorted rows keeps them sorted and adds exactly the one row |
| `CreatePoll.SortByPosition` | app/api/polls/route.ts:76 | the sort by position returns a sorted permutation of the rows |
| `CreatePoll.SortSortedUnchanged` | app/api/polls/route.ts:76 | rows already in position order come back from the (stable) sort in the same order |
| `CreatePoll.Create` | app/api/polls/route.ts:5-79 | a created poll carries the database-assigned id and at least two options |
| `CreatePoll.Field` | app/api/polls/route.ts:8 | destructuring yields the field's value when the body is an object holding that key, and `undefined` otherwise |
| `CreatePoll.Post` | app/api/polls/route.ts:7-8 | a body that is not JSON, or is `null`, ends in the 500 answer; an object body is answered by the handler on its three fields; only an object body can create a poll |
| `CreatePoll.NonObjectBody` | app/api/polls/route.ts:8-16 | a number, string, boolean or array body has none of the three fields and is answered like a missing question |
| `CreatePoll.CreateValidated` | app/api/polls/route.ts:34-79 | once every validation passes, the request fails only (with the 500) on an expiry outside the Date range; otherwise the poll holds the trimmed question, the expiry and the surviving options numbered in order |
| `CreatePoll.QuestionRequiredExactly` | app/api/polls/route.ts:11-16 | 400 "Question is required" is answered exactly for a missing, empty or whitespace-only question |
| `CreatePoll.OptionsRequiredExactly` | app/api/polls/route.ts:18-23 | with a usable question, 400 "At least 2 options are required" is answered exactly for a non-array `options` or fewer than two raw entries |
| `CreatePoll.ValidOptionsRequiredExactly` | app/api/polls/route.ts:26-32 | past the shape checks, 400 "At least 2 valid options are required" is answered exactly when fewer than two entries survive the filter, however many raw entries there were |
| `CreatePoll.InternalErrorExactly` | app/api/polls/route.ts:86-91 | 500 "Failed to create poll" is answered exactly when `.trim()` reaches a truthy non-string question or option entry, or a valid request asks for an expiry beyond the Date range |
| `CreatePoll.RefusalIndependentOfDatabase` | app/api/polls/route.ts:10-38 | every failure is the same for any database-assigned poll id, and every 400 refusal is also the same at any time |
| `CreatePoll.CreatedQuestionAndExpiry` | app/api/polls/route.ts:35-50 | a created poll stores the trimmed, non-blank question and expires `expiresIn` seconds after now exactly when `expiresIn` is a positive number; that expiry is a valid Date |
| `CreatePoll.CreatedOptions` | app/api/polls/route.ts:54-76 | the returned option `i` has position `i`, the trimmed `i`-th valid text and the poll's id, so the order is that of the valid options |
| `CreatePoll.CreatedPositionsDistinct` | app/api/polls/route.ts:54-58 | the positions of a created poll's options are strictly increasing, hence distinct |
| `PollForm.ExpirySeconds` | components/poll-form.tsx:128-131 | `parseInt` of each select choice is the number it spells: "0" is 0 (never), "3600" is 3600, "86400" is 86400, "604800" is 604800 |
| `PollForm.ChoiceValues` | components/poll-form.tsx:70 | each select choice is a digit string whose value is the number of seconds it names |
| `PollForm.CheckSubmission` | components/poll-form.tsx:39-57 | a request is sent exactly when the question is not blank and at least two options are; the blank-question message takes precedence; the request carries exactly the non-blank options in order |
| `PollForm.SentPayloadAccepted` | components/poll-form.tsx:67-71 | every request the form sends passes the server's validation; it creates a poll exactly when the expiry is a valid Date (otherwise the answer is the 500), with the trimmed question, the chosen expiry, and one option per sent option, trimmed and numbered in order |
| `PollForm.PayloadAccepted` | app/api/polls/route.ts:11-79 | a body with a non-blank question and at least two non-blank string options passes every validation; the answer is the poll with the trimmed question, the expiry and the options numbered in order, or the 500 when the expiry is not a valid Date |
| `PollForm.Body` | components/poll-form.tsx:66-70 | the posted JSON is an object whose `question`, `options` and `expiresIn` fields hold the question, the options as strings and the expiry in seconds |
| `PollForm.BodyAccepted` | components/poll-form.tsx:61-70 | the body the form posts, read by the handler from the top, gets the poll with the trimmed question, the expiry and the options numbered in order, or the 500 when the expiry is not a valid Date |
| `PollForm.ChoiceStorable` | components/poll-form.tsx:128-131 | every expiry the select offers is a valid Date for any clock reading from 1970 to a week before the end of the Date range |
| `PollForm.Form.constructor` | components/poll-form.tsx:15-18 | the form starts with an empty question, exactly two empty options, expiry "0" (never) and no request in flight |
| `PollForm.Form.SetQuestion` | components/poll-form.tsx:114 | the question becomes the typed text |
| `PollForm.Form.SetExpiresIn` | components/poll-form.tsx:125 | the expiry becomes the chosen select value |
| `PollForm.Form.AddOption` | components/poll-form.tsx:20-22 | the list grows by exactly one empty entry at the end; earlier entries are unchanged; at least two entries remain |
| `PollForm.Form.RemoveOption` | components/poll-form.tsx:24-28 | with more than two entries, exactly the entry at the index is removed and the rest keep their order; otherwise nothing changes, so the list never drops below two |
| `PollForm.Form.UpdateOption` | components/poll-form.tsx:30-34 | the length is kept, the slot at the index becomes the value, every other slot is unchanged |
| `PollForm.Form.HandleSubmit` | components/poll-form.tsx:36-59 | the outcome is the validation of the current state; the form is marked as creating exactly when a request is sent |
| `PollForm.Form.FinishSubmit` | components/poll-form.tsx:93-95 | when the request settles the form is no longer creating |
| `PollCard.IsExpired` | components/poll-card.tsx:38 | a poll without an expiry is never expired; one with an expiry is expired exactly when that expiry lies strictly before now |
| `PollCard.ExpiredStaysExpired` | components/poll-card.tsx:38 | once expired, a poll stays expired as the clock moves on |
| `PollCard.ExpiryBoundary` | components/poll-card.tsx:38 | at its exact expiry instant a poll is not expired; one millisecond later it is |
| `PollCard.CreatedPollExpiry` | components/poll-card.tsx:38 | a freshly created poll shows as expired exactly once more than `expiresIn` seconds have passed, and never when it has no expiry |
| `PollCard.ElapsedSeconds` | components/poll-card.tsx:17 | the elapsed seconds are the elapsed milliseconds divided by 1000 and rounded down, also for a creation time in the future |
| `PollCard.TimeAgo` | components/poll-card.tsx:16-35 | the unit is the largest one, from years down to minutes, whose length the seconds strictly exceed (seconds otherwise); the amount is the seconds divided by it, rounded down, and at least 1 for any unit but seconds |
| `PollCard.TimeAgoBounded` | components/poll-card.tsx:22-34 | below years the amount is at most 12 months, 30 days, 24 hours, 60 minutes or 60 seconds |
| `PollCard.TimeAgoAtThreshold` | components/poll-card.tsx:28-32 | exactly at a threshold the next smaller unit is used: 3600 s reads "60 minutes ago", 3601 s is 1 hour |
| `PollCard.FormatTimeAgo` | components/poll-card.tsx:20-34 | the caption ends with " <unit> ago" and the number in front of it is the amount written in canonical decimal (no leading zeros), reading back as the amount |
| `PollCard.VoteLabel` | components/poll-card.tsx:60 | "Vote Now" without a count; otherwise the text ends with " Votes" and its number is the count written in canonical decimal, reading back as the count |
| `PollCard.Card` | components/poll-card.tsx:37-63 | the "Expired" badge, the "View Results" button and the secondary button style appear together, exactly when the poll is expired; otherwise the button reads "Vote" |

## Left out

- Vote submission is not part of this model. This covers the duplicate-vote checks, per-option tallies and real-time broadcast (app/api/polls/[pollId]/vote/route.ts and the poll page). Only poll creation and display are modelled.
- Database plumbing (lib/db.ts, lib/supabase.ts, the init and diagnose scripts) and the transaction in app/api/polls/route.ts:41-85 are left out. That means BEGIN/COMMIT/ROLLBACK, client release, and storage failures that end in the 500 answer. The per-option INSERT loop is assumed to return each row as given, so the rows sorted at line 76 are the numbered options. Database-assigned option ids and the poll's `createdAt` column are not modelled.
- Reading the request text is not modelled: `CreatePoll.Post` takes the body already parsed, or `None` when it is not JSON.
- `CreatePoll.Json`: numbers are integers only, so a fractional `expiresIn` such as 1.5 cannot be expressed. The handler accepts it and creates a poll expiring 1500 ms later; the model has no such input. Neither is NaN modelled.
- `CreatePoll.ExpiresAt`: the rounding of JSON integers beyond 2^53, and the Infinity that parsing a literal such as `1e400` gives, are not modelled. Such an `expiresIn` is already past the Date range for any clock reading after 1970, so it ends in the 500 answer either way. Whenever the computed expiry lies inside the Date range, its product and sum stay below 2^53 and are exact.
- `CreatePoll.StorableExpiry`: an expiry is taken as storable exactly when it is a valid Date. PostgreSQL's own earliest timestamp (4713 BC) is not modelled; an expiry always lies after the clock reading, so it matters only for a clock set before that year.
- `PollForm.ExpirySeconds`: `parseInt` is modelled only on the four values the expiry select offers.
- `PollForm.Form.UpdateOption`: an index past the end, which would make JavaScript grow a sparse array, is excluded. The only caller passes the index of an existing entry.
- `PollForm.Form`: the `disabled={isCreating}` guards are markup, so the handlers are not blocked while a request is in flight.
- The network request is not modelled. That covers `fetch`, the "Failed to create poll. Please try again." toast on a failed response, `router.push`, toasts, and all JSX markup and styling.
- app/page.tsx is not modelled: its vote counts and newest-first limit of 20 are computed in SQL. app/layout.tsx is not modelled either.
- `JsText.Trim`: JavaScript strings are UTF-16 code units and Dafny characters are Unicode scalar values. Every character `trim` strips lies in the Basic Multilingual Plane, so the two agree on what is stripped.
