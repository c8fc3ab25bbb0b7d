# Volunteer client: a Dafny model

This project models the browser client of a volunteer-management site. It is a
React application where organizers post volunteer needs and volunteers browse
them and request to join.

The model covers these pages:
- the post details page: closed-post rules, request modal, local slot count after a request;
- the create and edit forms for a post: validation, payloads, seeding the edit form;
- registration: the error map and the user records it saves;
- the profile page: provider detection, form seeding, the saved record;
- the home page's upcoming needs: filter, sort, first six, days-left badge, link ids;
- the all-posts search;
- the organizer's "My Posts" table and the volunteer's "My Requests" table: loading, deleting/cancelling, their cells;
- the home banner carousel.

The JavaScript semantics the pages rely on are written out as functions:
- truthiness, `||`, `??`, `===`, `String(...)`;
- `Number(...)` on decimal numerals (sign, digits, point, exponent), giving `NaN`, an integer or an exact decimal fraction;
- `trim`, `toLowerCase` and `toUpperCase`, UTF-16 `length`;
- `encodeURIComponent` over UTF-8, with the matching decoder;
- the stable `Array.prototype.sort`, `filter` and `slice`;
- `setHours` to the start or end of a day, `Math.ceil`.

Module layout:
- `text.dfy`, `numbers.dfy`, `uri.dfy`, `js_values.dfy`, `dates.dfy`, `seqs.dfy`: the runtime pieces.
- `records.dfy`: JSON rows, the identifier chains and removal by id.
- `users.dfy`: the account and the stored user record.
- One file per page: `post_details.dfy`, `post_form.dfy` (create page), `update_post.dfy`,
  `register.dfy`, `profile.dfy`, `upcoming.dfy`, `all_posts.dfy`, `my_posts.dfy`,
  `requests.dfy`, `banner.dfy`.

How pages are modelled:
- Page state that React holds in `useState` is a class. Each handler is a method whose `modifies` clause is the page.
- Network responses, the browser's `confirm`, the authentication provider's outcomes and the current time are method parameters.

## Model

| member | source | states |
|---|---|---|
| PostDetails.Normalize | src/pages/PostDetails.jsx:454-469 | every text member is the row's text or ""; a non-empty status is kept and a missing or empty one reads "open"; `needed` is `Records.NeededCount` of the row (absent or null reads 0, a number is kept, a string is read as a numeral); an absent deadline denotes no date; the id is a truthy `id`, else a truthy `_id`, else undefined |
| Records.NeededCount | src/pages/PostDetails.jsx:462 | `Number(needed ?? 0)`: absent or null gives 0, a number is kept, a string is read as a JavaScript numeral, a boolean gives 1 or 0, an object gives NaN |
| JsValues.ToNumber | src/pages/PostDetails.jsx:462 | `Number(v)`: a number is kept, null gives 0, undefined and objects give NaN, a boolean gives 1 or 0, a string is read by `Numbers.ParseNumber` |
| PostDetails.ClosedStatusCloses | src/pages/PostDetails.jsx:80 | a row sent with a status that lower-cases to "closed" normalises to a post the page reports closed |
| Records.NeededCountOfNumeral | src/pages/MyPosts.jsx:106 | a count sent as a numeral string reads as the number it prints |
| PostDetails.Pretty | src/pages/PostDetails.jsx:450-453 | same length; every "-" becomes a space and every other character is kept; "" is returned unchanged |
| PostDetails.IsClosed | src/pages/PostDetails.jsx:72-82 | without a post the page counts as closed; a post is closed exactly when its count is at most 0, its deadline's calendar day is before today, or its status is "closed" in any case; a deadline that is no date never closes it |
| Dates.EndOfDayBeforeIffEarlierDay | src/pages/PostDetails.jsx:74-79 | the end of the deadline's day is before now exactly when the deadline's day is an earlier day |
| PostDetails.MissingStatusNeverCloses | src/pages/PostDetails.jsx:467 | a post without a status is never closed by its status |
| PostDetails.StatusClosedIgnoresCase | src/pages/PostDetails.jsx:80 | the status test gives the same answer for a status and its lower-cased form |
| PostDetails.ReasonOf | src/pages/PostDetails.jsx:102-107 | no post reads as "filled"; the reason is "filled" exactly when the count is at most 0, "closed" exactly when slots remain and the status says closed, "deadline" exactly when neither holds |
| PostDetails.ReasonFollowsPriority | src/pages/PostDetails.jsx:100-107 | for a closed post, the reason "deadline" means the deadline's day has passed and "closed" means the status says closed |
| PostDetails.ReasonTexts | src/pages/PostDetails.jsx:299-306 | each reason has its own toast and its own inline message; the inline message matches the toast except for filled slots |
| PostDetails.DetailsPage.OpenModal | src/pages/PostDetails.jsx:100-113 | a closed post only yields the toast for its reason; an open one clears the suggestion and opens the modal; the post and the loading and submitting flags are never changed |
| PostDetails.NeededAfter | src/pages/PostDetails.jsx:143-151 | a number from the server is taken as is; otherwise the count drops by one and never below 0: a positive integer loses one, a count at most 0 becomes 0, a fraction loses one from its whole part or becomes 0, and NaN stays NaN |
| PostDetails.AfterAccepted | src/pages/PostDetails.jsx:143-151 | an accepted request changes the post's `needed` and nothing else |
| PostDetails.LastSlotCloses | src/pages/PostDetails.jsx:143-151 | taking the last slot closes the post, with the reason "filled" |
| PostDetails.SlotsRemainAfterAccept | src/pages/PostDetails.jsx:143-151 | with more than one slot, the post stays open as far as slots go |
| PostDetails.RequestFor | src/pages/PostDetails.jsx:127-133 | the request carries the post id, the suggestion, the status "requested", the email, and the display name, else the name, else "" |
| PostDetails.DetailsPage.SubmitRequest | src/pages/PostDetails.jsx:115-161 | a request is sent exactly when a signed-in email and, before the call, a post exist, and it is built from the post and suggestion held before the call; acceptance updates only the count and closes the modal; failure or refusal leaves post and modal unchanged; the suggestion and loading flag never change |
| PostDetails.DetailsPage.constructor | src/pages/PostDetails.jsx:9-16 | the page starts with no post, loading, and the modal closed and empty |
| PostDetails.FoundPost | src/pages/PostDetails.jsx:52-55 | the first row carrying the id in `id`, `_id` or `_id.$oid`; failing that, the first whose printed `_id` is the id; nothing exactly when no row passes either test |
| Seqs.FindIndex | src/pages/PostDetails.jsx:53-55 | the position of the first element that passes, or -1 exactly when none does |
| PostDetails.FindsByOid | src/pages/PostDetails.jsx:54 | a row whose `_id` object has the id as `$oid` is found |
| PostDetails.FindsByPrintedId | src/pages/PostDetails.jsx:55 | a row whose numeric `_id` prints as the id is found |
| PostDetails.DetailsPage.Load | src/pages/PostDetails.jsx:31-70 | no id: nothing changes; an ok response gives its normalised body (none for a null body); otherwise the list is searched and the found row is normalised; every failure leaves no post; loading ends |
| PostForm.Validate | src/pages/VolunteerNeed.jsx:25-34 | the result is the first failing check in the order title, description, category, location, needed, deadline, each given as an if-and-only-if; no error exactly when all pass |
| PostForm.TrimmedChecks | src/pages/VolunteerNeed.jsx:26-29 | the title, description and location checks hold exactly when the trimmed text is non-empty |
| Text.TrimEmptyIffBlank | src/pages/VolunteerNeed.jsx:26 | `trim()` yields "" exactly when the text is all white space |
| PostForm.BlankTitleFailsBlankCategoryPasses | src/pages/VolunteerNeed.jsx:26-28 | a white-space title is rejected while a white-space category passes, since the category is not trimmed |
| PostForm.NeededOkForNumeral | src/pages/VolunteerNeed.jsx:30-31 | for an integer numeral the needed check passes exactly when the number is positive |
| PostForm.NeededOkForPointed | src/pages/VolunteerNeed.jsx:30-31 | for a numeral with a decimal point the check passes exactly when there is no minus sign and some digit is not 0 ("0.0" and "-0.5" fail) |
| PostForm.NeededOkForExponent | src/pages/VolunteerNeed.jsx:30-31 | for a numeral in exponent form the check passes exactly when there is no minus sign and some digit before the `e` is not 0 ("-1e3" fails) |
| Numbers.ParsePointed | src/pages/VolunteerNeed.jsx:30 | `Number` reads a signed numeral with a decimal point as its digits with the point after the integer part |
| Numbers.ParseExponentForm | src/pages/VolunteerNeed.jsx:30 | `Number` reads a signed numeral in exponent form as its digits with the point moved by the exponent |
| Numbers.ComposeSign | src/pages/VolunteerNeed.jsx:30 | a decimal numeral reads as at most 0 exactly when it is negative or all its digits are 0, and as positive otherwise |
| Numbers.ReadsPointZero | src/pages/VolunteerNeed.jsx:30 | `Number("0.0")` is 0 |
| Numbers.ReadsHalf | src/pages/VolunteerNeed.jsx:30 | `Number("0.5")` and `Number("-0.5")` are the fractions ±0.5 |
| Numbers.ReadsExponentForm | src/pages/VolunteerNeed.jsx:30 | `Number("-1e3")` is -1000 |
| PostForm.CreatePayload | src/pages/VolunteerNeed.jsx:44-56 | the payload keeps the typed fields untrimmed, reads `needed` as a number, carries the picked deadline and the creation time given, takes the organizer from the user (or ""), and has status "open" |
| PostForm.ValidPayloadNeededPositive | src/pages/VolunteerNeed.jsx:30-31 | a payload built from a validated form carries a positive count or NaN, never one at most 0 |
| PostForm.CreatePage.HandleSubmit | src/pages/VolunteerNeed.jsx:36-87 | an error stops the submission with nothing sent or changed; otherwise the payload is sent, and a server success resets every field and the deadline |
| UpdatePost.NormalizeForEdit | src/pages/UpdatePost.jsx:31-46 | a null post gives all-empty members with count 0; otherwise each text member is the row's text or "", the count is `Number(needed ?? 0)` and the deadline is kept |
| UpdatePost.SeedForm | src/pages/UpdatePost.jsx:56-63 | the text fields are copied; a count of 0 or NaN seeds "", any other count is printed |
| UpdatePost.SeededNeededOkIffPositive | src/pages/UpdatePost.jsx:62 | the seeded count passes validation exactly when the stored count is positive |
| UpdatePost.SeededNeededRoundTrip | src/pages/UpdatePost.jsx:62 | printing a count other than 0 or NaN and reading it back gives the count |
| JsValues.NumberOfPrintedNumber | src/pages/UpdatePost.jsx:62 | `Number(String(n))` gives back `n` for every number, fractions and NaN included |
| Numbers.ParsePrintedInt | src/pages/UpdatePost.jsx:62 | an integer printed and read back is the same integer |
| Numbers.ParsePrintedDecimal | src/pages/UpdatePost.jsx:62 | a fraction printed and read back is the same fraction |
| UpdatePost.BuildUpdate | src/pages/UpdatePost.jsx:128-136 | an update exists exactly when the deadline denotes an instant, and then it carries the form's fields, the numeric count and that instant |
| UpdatePost.UneditedSaveRoundTrip | src/pages/UpdatePost.jsx:49-136 | loading a post with a positive count and a dated deadline and saving it unedited sends back its members, its count and its deadline |
| UpdatePost.EditPage.constructor | src/pages/UpdatePost.jsx:15-28 | loading starts set exactly when no post came with the navigation |
| UpdatePost.EditPage.Seed | src/pages/UpdatePost.jsx:53-64 | the form and the deadline become those seeded from the normalised post; the flags are kept |
| UpdatePost.EditPage.Load | src/pages/UpdatePost.jsx:49-101 | a navigation post seeds the form without a fetch; a fetched post seeds it; a failed fetch leaves it; loading ends in every case |
| UpdatePost.EditPage.OnSubmit | src/pages/UpdatePost.jsx:117-159 | validation runs first; a valid form sends the update built from form and deadline; the form is never changed |
| UpdatePost.InvalidDeadlineNeverSent | src/pages/UpdatePost.jsx:113 | a deadline that denotes no date passes validation but is never sent |
| Register.Validate | src/pages/Register.jsx:27-44 | the map reports the form: each field's error is present exactly when its check fails, with the message the code assigns (the invalid-email message overriding "required", the two letter messages joined by a space); the map is empty exactly when every check passes |
| Register.ReportsIsComplete | src/pages/Register.jsx:27-44 | the report fixes the whole map: two maps that report the same form are equal |
| Register.WhitespaceEmailIsInvalid | src/pages/Register.jsx:30-32 | a non-empty white-space email fails the pattern, so it ends with "Enter a valid email." |
| Register.PasswordRecord | src/pages/Register.jsx:79-86 | the saved record copies the form, is stamped with the current time and has provider "password" |
| Register.RegisterPage.HandleRegister | src/pages/Register.jsx:60-97 | the shown map reports the form and is empty exactly when it is valid; a record is saved exactly when the form is valid and both account steps succeed |
| Register.GoogleRecord | src/pages/Register.jsx:104-111 | the record takes the account's name, email and photo (or ""), an empty bio, the current time and provider "google" |
| Profile.Provider | src/pages/Profile.jsx:21-25 | "password" without provider entries, else the first entry's id or "password"; never empty |
| Profile.AuthProviderOf | src/pages/Profile.jsx:121 | "google" exactly when the provider contains "google", else "password" |
| Profile.NoProviderDataMeansPassword | src/pages/Profile.jsx:21-25 | an account without provider entries is saved as a password account |
| Profile.SeedFromStored | src/pages/Profile.jsx:50-54 | name and photo come from the record, else the account, else ""; the bio comes from the record only |
| Profile.SeedFromAccount | src/pages/Profile.jsx:60-64 | name and photo come from the account, and the bio is "" |
| Profile.EmptyRecordFallsBackToAccount | src/pages/Profile.jsx:50-64 | a record with nothing set seeds what the account alone seeds |
| Profile.ProfilePage.Load | src/pages/Profile.jsx:31-85 | no email: no record, form kept; a found record is kept and seeds the form; otherwise the account seeds it; loading ends |
| Profile.SavePayload | src/pages/Profile.jsx:116-123 | name, photo and bio are trimmed; the email is the account's; the provider maps to google or password; the stored `createdAt` is kept, else the current time |
| Profile.SaveTrimIdempotent | src/pages/Profile.jsx:93-95 | saving the saved fields again sends the same record |
| Profile.AsStored | src/pages/Profile.jsx:136 | the record the page keeps after a save without a server copy has every member it sent set |
| Profile.ProfilePage.OnSave | src/pages/Profile.jsx:87-144 | refused exactly when there is no email or the trimmed name is empty, and then nothing is sent and the refusal's message is toasted; otherwise the record is sent and the page keeps the server's copy or, failing that, its own, and a save toasts "Profile updated!" |
| Upcoming.SelectUpcoming | src/components/VolunteerNeedHome.jsx:58-64 | at most six posts, as many as there are upcoming ones up to six, sorted by deadline, each from the input with a deadline at or after now |
| Upcoming.SelectUpcomingCorrect | src/components/VolunteerNeedHome.jsx:58-64 | the selection is the first part of all upcoming posts in deadline order, so no post left out has an earlier deadline than one shown |
| Upcoming.ShownPosts | src/components/VolunteerNeedHome.jsx:36-68 | a failed load or a body that is no array shows nothing; otherwise it shows exactly `SelectUpcoming` of the body: the (up to) six upcoming rows with the earliest deadlines, sorted by deadline |
| Seqs.SortByCorrect | src/components/VolunteerNeedHome.jsx:60-63 | the sort orders by key, is a permutation, and keeps the order of equal keys |
| Upcoming.FewUpcomingAllShown | src/components/VolunteerNeedHome.jsx:58-64 | with six or fewer upcoming posts, every one is shown |
| Upcoming.DaysLeft | src/components/VolunteerNeedHome.jsx:22-31 | the days left are the number of calendar days from today to the deadline's day; NaN for a deadline that is no date |
| Upcoming.Badge | src/components/VolunteerNeedHome.jsx:125-133 | "N days left" with N printed above 1, "1 day left" at exactly 1, "Due today" otherwise (NaN included) |
| Upcoming.ShownBadge | src/components/VolunteerNeedHome.jsx:58-133 | every shown post counts non-negative days, and its badge reads "Due today" exactly when the deadline is today |
| Upcoming.LinkId | src/components/VolunteerNeedHome.jsx:135-139 | the link id is always truthy: a truthy `id`, else the printed `_id` when non-empty (numbers and objects printed too), else a non-empty slug, else the encoded title or `post-<idx>` |
| Uri.EncodeUriComponent | src/components/VolunteerNeedHome.jsx:139 | every character of the encoding is unreserved or a `%` of an escape; a text of unreserved characters is left unchanged; the encoding is never shorter |
| Uri.DecodeEncode | src/components/VolunteerNeedHome.jsx:139 | decoding the encoding of a text gives back its code points |
| AllPosts.SearchResults | src/pages/Allposts.jsx:58-66 | the results keep the posts' order; an empty key gives every post; otherwise a post is in the results exactly when its lower-cased title contains the key, with as many copies as the list has |
| Seqs.FilterIsSubseq | src/pages/Allposts.jsx:61-65 | filtering only removes elements and never reorders them |
| Seqs.FilterCounts | src/pages/Allposts.jsx:61-65 | filtering keeps every copy of an element that passes and none of one that fails |
| AllPosts.BlankQueryShowsAll | src/pages/Allposts.jsx:59-60 | a white-space query shows every post |
| AllPosts.MissingTitleNeverMatches | src/pages/Allposts.jsx:61-65 | a post without a title never matches a non-blank query |
| AllPosts.SearchIgnoresQueryCase | src/pages/Allposts.jsx:59 | the results do not depend on the case of the query |
| Text.TrimLower | src/pages/Allposts.jsx:59 | trimming and lower-casing commute |
| AllPosts.CardKey | src/pages/Allposts.jsx:103 | the card key is the post's truthy id (corrected chain), else its index printed; never empty |
| Records.RowsOf | src/pages/Allposts.jsx:43 | an array body gives its rows; a failed load or a body that is no array gives none |
| Records.TitleCell | src/pages/MyPosts.jsx:94 | the title when non-empty, else a dash; never empty |
| Records.CategoryCell | src/pages/MyPosts.jsx:96-100 | the category character by character with every "-" shown as a space, or a dash when there is none; never empty |
| Records.IdText | src/pages/MyPosts.jsx:31 | null and undefined give undefined; every other value is printed, a string as itself |
| Records.IdOfAsWritten | src/pages/MyPosts.jsx:29-32 | as written: a truthy `id`, else the printed `_id` when non-empty, else undefined when `_id` is absent |
| Records.OidStepUnreachable | src/pages/MyPosts.jsx:29-32 | as written, a row without `id` whose `_id` is an object is named "[object Object]", whatever its `$oid` |
| Records.DistinctOidsCollideAsWritten | src/pages/MyPosts.jsx:29-32 | as written, two rows with different `$oid`s get the same identifier |
| Records.RemoveByIdAsWritten | src/pages/MyPosts.jsx:85 | as written: the rows kept are, in order and with their copies, exactly those whose written identifier differs from the id |
| Records.DeleteTakesSiblingAsWritten | src/pages/MyPosts.jsx:85 | as written, deleting one of two such rows removes both from the table |
| Records.IdOf | src/pages/MyPosts.jsx:29-32 | corrected chain: a truthy `id`, else a non-empty string `_id`, else a truthy `$oid` |
| Records.DistinctOidsStayDistinct | src/pages/MyPosts.jsx:29-32 | with the corrected chain, rows with different `$oid`s have different identifiers |
| Records.IdOfAgreesOnPrimitiveIds | src/pages/MyPosts.jsx:29-32 | the corrected chain agrees with the written one whenever `_id` is not an object |
| Records.IdOrEmpty | src/pages/Allposts.jsx:11-15 | the identifier (corrected chain) when truthy, else "" |
| Records.RemoveById | src/pages/MyPosts.jsx:85 | the rows kept are, in order and with their copies, exactly those whose identifier differs from the id |
| Records.RemoveByIdRemovesTarget | src/pages/MyPosts.jsx:85 | the row acted on is gone afterwards |
| Records.DeleteKeepsSibling | src/pages/MyPosts.jsx:85 | with the corrected chain, deleting one of two rows with different `$oid`s keeps the other |
| Records.RemoveAbsentId | src/pages/MyPosts.jsx:85 | removing an id no row carries changes nothing |
| MyPosts.MyPostsPage.Load | src/pages/MyPosts.jsx:34-58 | no organizer email: no rows; otherwise the rows received, none on failure; loading ends |
| MyPosts.MyPostsPage.OnDelete | src/pages/MyPosts.jsx:65-90 | no truthy id: refused; declined: nothing; deleted: exactly the rows with that id leave, in order; a failure leaves the rows |
| Requests.StatusCell | src/pages/Request.jsx:96-100 | the status, or "requested", character by character with each ASCII lower-case letter made upper case; never empty |
| Requests.MissingStatusShowsRequested | src/pages/Request.jsx:99 | a request without a status shows "REQUESTED" |
| Requests.StatusIgnoresCase | src/pages/Request.jsx:99 | statuses that differ only in case are shown the same |
| Requests.RequestsPage.Load | src/pages/Request.jsx:32-55 | no volunteer email: no rows; otherwise the rows received, none on failure; loading ends |
| Requests.RequestsPage.OnCancel | src/pages/Request.jsx:62-84 | no truthy id: refused; declined: nothing; cancelled: exactly the rows with that id leave, in order; a failure leaves the rows |
| Banner.NextIndex | src/components/Banner.jsx:44 | the next slide is in range: one further, or the first after the last |
| Banner.PrevIndex | src/components/Banner.jsx:45 | the previous slide is in range: one back, or the last before the first |
| Banner.NextPrevInverse | src/components/Banner.jsx:44-45 | previous undoes next and next undoes previous |
| Banner.NextCycles | src/components/Banner.jsx:44 | any number k of steps forward from slide i lands on slide (i + k) mod len |
| Banner.FullRoundReturns | src/components/Banner.jsx:49-55 | a full round of autoplay steps returns to the same slide |
| Banner.Carousel.constructor | src/components/Banner.jsx:39-40 | the carousel starts on the first of its three slides, not hovered |
| Banner.Carousel.Next | src/components/Banner.jsx:44 | the index moves to the next slide and stays in range |
| Banner.Carousel.Prev | src/components/Banner.jsx:45 | the index moves to the previous slide and stays in range |
| Banner.Carousel.GoTo | src/components/Banner.jsx:46 | the index becomes the chosen dot's slide |
| Banner.Carousel.SetHovered | src/components/Banner.jsx:62-63 | the hover flag follows the mouse and the slide stays |
| Banner.Carousel.Tick | src/components/Banner.jsx:51-53 | an autoplay step advances one slide unless the mouse is over the carousel |

## Left out

- Fetching, JSON parsing, toasts, navigation and the `cancelled` guards of the effects: network and UI effects, represented by outcome parameters. The `cancelled` flag only drops updates after the page has gone away.
- What the server guarantees is outside the client and not modelled: that taking a slot decrements `needed` atomically, that a second request for the same post is refused, and that cancelling a request gives its slot back. The client only reflects the count the server returns.
- The details page's `info` rows, including `(post.status || "open").toUpperCase()`, and `fmtDate` in every table: locale-dependent display text.
- `handleChange` on every form: the model sets form fields as a whole.
- The edit page's normalised `id` (src/pages/UpdatePost.jsx:32-36): computed but never read.
- The `?? 1` default of the details page's client-side decrement: the count is already a number after `normalize`, so the default never applies.
- The home page's two-request load (src/components/VolunteerNeedHome.jsx:36-56) collapses into one load result, and the card key `${p.title}-${idx}` is not modelled.
- The autoplay timer's period and the interval's re-creation: time is modelled as discrete `Tick` calls.
- The categories list, the stats counters and the other context components: static markup.
- Dates are milliseconds in one local time zone. Daylight-saving shifts are not modelled, and date strings are taken as already parsed.
- Records.Row: the text members (`title`, `category`, `status` and the rest) are modelled as strings or absent. A number, boolean or object in one of them, which the pages would print or compare, is not represented.
- PostDetails.Normalize: the body is taken to be an object; a `null` body, on which `normalize` throws, is handled by the page's load as "no post".
- Numbers.ParseNumber: `Infinity`, hexadecimal, octal and binary numerals (`0x`, `0o`, `0b`) are not modelled and read as NaN; numbers are exact decimals, so double precision, range and the exponent form `String` uses for very large or small values are not modelled.
- Requests.StatusCell: upper-cases ASCII letters only (Text.ToUpper). JavaScript also maps other scripts and can lengthen a string ("ß" becomes "SS"), so the cell's character-by-character, same-length contract describes the source only for statuses without such letters.
- Text.ToLower: maps ASCII letters only; other scripts are unchanged.
- Uri.EncodeUriComponent: a lone surrogate, on which JavaScript throws, is not representable, since strings here are sequences of code points.
- MyPosts.MyPostsPage.OnDelete: uses the corrected identifier chain Records.IdOf. As written, see Records.IdOfAsWritten and Records.RemoveByIdAsWritten: two rows without `id` whose `_id`s are `{ $oid: "65a1" }` and `{ $oid: "65b2" }` share the identifier "[object Object]", and deleting one removes both.
- Requests.RequestsPage.OnCancel: uses the corrected identifier chain Records.IdOf. As written, see Records.IdOfAsWritten and Records.RemoveByIdAsWritten: with the same two rows, cancelling one removes both from the table.
- AllPosts.CardKey: uses the corrected identifier chain Records.IdOf. As written, see Records.IdOfAsWritten: the same two rows get the same key "[object Object]".
- Records.IdOrEmpty: uses the corrected identifier chain Records.IdOf. As written, see Records.IdOfAsWritten: the same two rows both give "[object Object]".
- Records.RemoveById: uses the corrected identifier chain Records.IdOf. As written, see Records.RemoveByIdAsWritten: with the same two rows, removing the first one's identifier removes both.
- Profile.ProfilePage.OnSave: a failed save toasts the server's error text or a fixed fallback; the server's text is not modelled, so the model yields no toast there.
- Profile.ProfilePage.Load: a `null` body from the stored-record request is modelled as a record with nothing set, so the page keeps that empty record where the source keeps `null`; both seed the same form and save the same record.
- Banner.Carousel.GoTo: requires an index in range, since the dots only pass slide indices.

## Findings

| source | as written | input that shows it | evidently intended | confidence | as-written member | corrected member |
|---|---|---|---|---|---|---|
| src/pages/MyPosts.jsx:29-32 (also src/pages/Request.jsx:27-30, src/pages/Allposts.jsx:11-15) | `_id?.toString?.()` runs before `_id?.$oid`, so an extended-JSON `_id` object is named "[object Object]" | two rows without `id`, with `_id` `{ $oid: "65a1" }` and `{ $oid: "65b2" }`: deleting the first removes both from the table | a `$oid` names the row | not executed | Records.DeleteTakesSiblingAsWritten | Records.DeleteKeepsSibling |
