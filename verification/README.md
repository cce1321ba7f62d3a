# careable core, modelled in Dafny

This project models the decision logic at the core of careable. careable is a Next.js
application for a care organisation. Volunteers, caregivers and participants sign up for
events. Staff review and publish events extracted from calendar uploads. Attendance is
taken by scanning a single-use QR code.

The model covers:

- **Single-use QR attendance** (`QrAttendance`, `QrLifecycle`).
  - The signups table is an immutable map from signup id to a record with `event_id`,
    `attendee_name`, an optional `qr_token_hash` and an optional `checked_in_at`.
  - The table's unique constraint on `qr_token_hash` is the invariant `UniqueHashes`. Both
    operations require it and keep it.
  - Issuing a ticket stores the token's digest and the event id.
  - Verifying a token is a three-way state machine: `invalid`, `already_checked_in`, or `ok`.
    Only `ok` writes, and it writes the check-in time.
  - SHA-256 is a function parameter `hash` of the operations. Where a property needs distinct
    tokens to have distinct digests, the lemma requires `Injective(hash)`. The PNG renderer
    and the base64 encoder are likewise parameters (`QrCodec`).
- **The two QR routes** (`QrIssueRoute`, `QrVerifyRoute`). Each is a pure function from the
  parsed request body and the table to a response (status and JSON body) and the table after
  the request.
- **The route guard** (`RouteGuard`). The middleware's decision is a function from
  (user id, resolved role, path) to `SignIn`, `Redirect(path)` or `Next`, with a proof that
  redirects come to rest for the application's roles.
- **The staff review page's event list** (`EventReview`) and the batch publishing route
  (`BatchRoute`).
- **Calendar-extraction post-processing** (`CalendarExtractor`): the MIME-type check, fence
  stripping, the event comparator and a stable sort using it, and the metadata stamp.
- **Display preferences**: the cycling buttons (`PreferenceToggles`), the client-side role
  hook (`UserRole`), and the server actions that read and write preferences
  (`PreferenceActions`).

JavaScript semantics that the handlers depend on are written out in `Json`: truthiness,
member lookup on parsed JSON, and the TypeError thrown when destructuring `null` or
`undefined`. Integers are unbounded. No handler's arithmetic gets near 2^53.

## Model

| member | source | states |
|---|---|---|
| QrAttendance.FindByHash | src/lib/qrAttendance.ts:11-18 | Under the unique-digest constraint, a lookup by digest finds nothing exactly when no record holds that digest. Otherwise it finds the one record that holds it. |
| QrAttendance.VerifyPayload | src/lib/qrAttendance.ts:82 | The payload always ends with the token. Without a base URL (or with an empty one) it is the token itself. Otherwise it is the base URL, then `?token=`, then the token. |
| QrAttendance.Issue | src/lib/qrAttendance.ts:61-99 | Issue fails on an unknown signup id. For a known signup it fails exactly when another record already holds the token's digest (the unique constraint), and otherwise it succeeds. On success: the record gets the token's digest and the new event id; every other record and the set of ids are unchanged; the constraint still holds; `qrBase64` starts with the `data:image/png;base64,` prefix of RFC 2397 followed by the PNG's base64. |
| QrAttendance.Verify | src/lib/qrAttendance.ts:113-152 | A falsy or non-string token, or one whose digest no record holds, gives `invalid` and leaves the table unchanged. A matched record already checked in gives `already_checked_in` and leaves the table unchanged. Otherwise the result is `ok` with that record's id, attendee name and event id and the time `now`. Only that record's `checked_in_at` changes, to `now`. The unique constraint is kept. |
| QrLifecycle.IssueThenVerify | src/lib/qrAttendance.ts:70-79 | Scanning a token right after issuing it finds the signup it was issued for. The scan checks the attendee in, or reports `already_checked_in` if they were checked in before. |
| QrLifecycle.OneShot | src/lib/qrAttendance.ts:134-143 | After a successful scan, the second scan of the same token is `already_checked_in` and changes nothing, and so is the third. |
| QrLifecycle.FreshTicketScenario | src/lib/qrAttendance.ts:61-152 | For a fresh ticket, three scans give `ok`, `already_checked_in`, `already_checked_in`. Any other token is `invalid`. |
| QrLifecycle.UnknownStaysInvalid | src/lib/qrAttendance.ts:125-131 | A token that matches no record is `invalid` on every scan. |
| QrLifecycle.SpentStaysSpent | src/lib/qrAttendance.ts:134-136 | A token whose record is checked in is `already_checked_in` on every scan. |
| QrLifecycle.RepeatedScans | src/lib/qrAttendance.ts:113-152 | However often a token is scanned in sequence, every scan after the first repeats `invalid` if the first was invalid, and is `already_checked_in` otherwise. |
| QrLifecycle.ReissueInvalidatesPrevious | src/lib/qrAttendance.ts:73-79 | After a second issue for the same signup, the first token is `invalid` and leaves the table unchanged. The second token finds the signup. |
| QrLifecycle.VerifyKeepsDigests | src/lib/qrAttendance.ts:139-143 | A scan writes only the check-in time, so every stored digest is still the digest of a token handed out. |
| QrLifecycle.IssueAccountsForDigests | src/lib/qrAttendance.ts:70-79 | Every stored digest remains the digest of a token handed out so far. |
| QrLifecycle.UnissuedTokenIsInvalid | src/lib/qrAttendance.ts:122-131 | With an injective hash, a token never handed out is `invalid` and changes nothing. |
| QrLifecycle.IssueStoresOnlyDigest | src/lib/qrAttendance.ts:70-79 | The table after issuing depends on the token only through its digest, so the raw token is never stored. |
| QrLifecycle.CheckInTimeIsFinal | src/lib/qrAttendance.ts:134-143 | A recorded check-in time is never changed or cleared, by a scan or by a re-issue. |
| QrVerifyRoute.ResponseFor | app/api/qr/verify/route.ts:24-43 | `ok` gives 200 with `status: 'ok'`, `verified: true` and the result's `signupId` and `eventId`. `already_checked_in` gives 409 with `status: 'already_checked_in'` and the error `This QR code has already been used.`. `invalid` gives 401 with `status: 'invalid'` and the error `Invalid or expired QR token.`. |
| QrVerifyRoute.StatusIdentifiesOutcome | app/api/qr/verify/route.ts:24-43 | The three outcomes get three different statuses, none of them 400 or 500, so the status alone tells the outcome. |
| QrVerifyRoute.HandleVerify | app/api/qr/verify/route.ts:11-51 | An unreadable body or a null body gives 500. A missing or falsy token gives 400 and the table is unchanged. A verifier that throws gives 500. Otherwise the response is the one `ResponseFor` gives for the verifier's result on that token, and the table becomes the verifier's table, which differs from the old one only on 200. |
| QrVerifyRoute.ScanRequest | app/api/qr/verify/route.ts:13-31 | A request carrying a token string, with the store reachable, is answered with the verifier's outcome, and the table becomes the verifier's table. |
| QrVerifyRoute.MissingTokenSkipsVerifier | app/api/qr/verify/route.ts:15-20 | A body without a truthy token is answered 400 whatever the table holds, and nothing is written. |
| QrIssueRoute.CallIssuer | app/api/qr/issue/route.ts:25-28 | The route calls the issuer without a base URL. The issuer succeeds exactly when both ids are strings and the table accepts the write, and then the payload is the raw token. |
| QrIssueRoute.HandleIssue | app/api/qr/issue/route.ts:11-42 | An unreadable or null body gives 500. A falsy `signupId` or `eventId` gives 400 with the table unchanged. With both ids truthy, a failed or throwing issuer gives 500 with the table unchanged, and a successful one gives 200 with the issuer's table. A 200 needs the store to be reachable. Success gives `status: 'ok'`, `qrCode` equal to the issuer's `qrBase64`, and `token` equal to its payload. |
| QrIssueRoute.IssueRequest | app/api/qr/issue/route.ts:11-34 | A request with two non-empty id strings and the store reachable, that the issuer accepts, is answered 200. It carries the raw token, and the table becomes the issuer's table. |
| QrIssueRoute.IssueRouteReturnsRawToken | app/api/qr/issue/route.ts:25-34 | A successful issue response carries the raw token itself as `token`, not a URL. Its `qrCode` is a PNG data URL. |
| QrIssueRoute.IssueThenScanThroughRoutes | app/api/qr/verify/route.ts:22-38 | The token returned by the issue route, posted to the verify route, gives 200 with the signup's id and event id. Posting it again gives 409. |
| RouteGuard.DashboardPath | proxy.ts:42-45 | A portal role's dashboard is exactly `/dashboard`. Any other role's is exactly `/` + role + `/dashboard`, so it starts with `/{role}` and ends with `/dashboard`. |
| RouteGuard.PathGroupRole | proxy.ts:58-59 | Finds the first of `admin` and `staff` that the path starts with, after a `/`. Prefix semantics, so `/staffing` counts as a staff path. |
| RouteGuard.GroupPrefixesExclusive | proxy.ts:58-59 | No path starts with both `/admin` and `/staff`, so the order of the search does not matter. |
| RouteGuard.OldPortalPrefix | proxy.ts:68-69 | Finds the old portal prefix (`/volunteer/`, `/participant/`, `/caregiver/`, `/portal/`) that the path starts with, if any. |
| RouteGuard.OldPortalPrefixesExclusive | proxy.ts:68-69 | A path starts with at most one of the old portal prefixes. |
| RouteGuard.CollapseOldPortal | proxy.ts:73-74 | Replacing the old prefix with `/` gives a shorter path that starts with `/`. Putting the prefix back gives the original path. |
| RouteGuard.RouteMatchIgnoresCase | proxy.ts:5-6 | The public-route and onboarding matchers ignore the case of the path's letters: a path and its lower-cased form match alike. |
| RouteGuard.MixedCaseRoutes | proxy.ts:5-55 | A signed-out user may open `/Sign-In`. A volunteer on `/ONBOARDING` is redirected to `/dashboard`. |
| RouteGuard.Decide | proxy.ts:23-81 | Signed out: public paths pass and others go to sign-in. Signed in without a role: `/onboarding` passes and others redirect there. The public and onboarding patterns match in any letter case. Signed in with a role: public and onboarding paths redirect to the role's dashboard; an `/admin` or `/staff` path of another role redirects to the dashboard; a portal role on an old portal path redirects to the collapsed path. A request passes exactly when none of these applies. |
| RouteGuard.CrossGroupRedirect | proxy.ts:58-64 | A signed-in user with a role, on an ordinary path under another group's prefix, is redirected to their own dashboard. |
| RouteGuard.FollowStaysNext | proxy.ts:81 | Once following redirects reaches a page that passes, more allowed steps reach it too. |
| RouteGuard.DashboardPathShape | proxy.ts:42-45 | The dashboard of an application role is not public, not onboarding, not an old portal path, and not another group's path. |
| RouteGuard.LandingPagesPass | proxy.ts:34-64 | A signed-in user's own dashboard passes. A signed-in user without a role passes on `/onboarding`. So the guard's redirects land on pages it lets through. |
| RouteGuard.RedirectTarget | proxy.ts:34-76 | A signed-in user without a role is redirected only to `/onboarding`. A signed-in user with a role is redirected to their dashboard, or from an old portal path to the collapsed path, which is strictly shorter. |
| RouteGuard.GuardSettles | proxy.ts:23-81 | For a signed-in user with an application role or none, every path passes, or redirects to a page that passes, or redirects to a shorter path. |
| RouteGuard.ChaseSettles | proxy.ts:81 | For any decision procedure under which every path settles in that sense, following the path's length plus two redirects comes to rest. |
| RouteGuard.NoRedirectLoops | proxy.ts:23-81 | For the application's roles (or none), a signed-in user reaches a page that passes from any path within the path's length plus two redirects. |
| RouteGuard.UnknownRoleCanLoop | proxy.ts:42-64 | A role outside the application's set, such as `staffing`, is redirected to `/staffing/dashboard` from that same path, forever. |
| EventReview.SetField | app/staff/review/page.tsx:39 | Setting a field gives that field the new value. Every other field and the id are kept. |
| EventReview.UpdateField | app/staff/review/page.tsx:37-41 | The list keeps its length and ids. Events with another id are unchanged. Events with the id get the new value in that field only. Editing any other field keeps their optional description as it was, absent included. |
| EventReview.Delete | app/staff/review/page.tsx:43-45 | The result holds exactly the events whose id differs. Its length is the old length minus the events removed. It keeps the order of the rest, as a subsequence. |
| EventReview.NewId | app/staff/review/page.tsx:48 | The new id is 1 for an empty list. Otherwise it is one more than the largest id: above every id, and one more than some id. |
| EventReview.AddEvent | app/staff/review/page.tsx:47-58 | Adding appends exactly one blank event (empty name, date, time, location, description) whose id no event has. Existing events keep their values and order. |
| EventReview.AddKeepsIdsDistinct | app/staff/review/page.tsx:47-58 | If all ids are distinct, they stay distinct after adding. |
| EventReview.DeleteAbsent | app/staff/review/page.tsx:43-45 | Deleting an id that no event has leaves the list unchanged. |
| EventReview.DeleteAppend | app/staff/review/page.tsx:43-45 | Deleting from a concatenation deletes from each part. |
| EventReview.DeleteUndoesAdd | app/staff/review/page.tsx:43-58 | Deleting the event just added gives back the list as it was. |
| EventReview.DeleteIdempotent | app/staff/review/page.tsx:43-45 | Deleting an id twice is the same as deleting it once. |
| EventReview.DeleteAfterUpdate | app/staff/review/page.tsx:37-45 | Editing an event and then deleting it is the same as deleting it. |
| EventReview.PageCountsMatchBatchRoute | app/staff/review/page.tsx:60-70 | Posting the list to the batch route gives 200, with `eventCount` equal to the list's length and `formCount` equal to the page's displayed form count (two per event, line 214). |
| EventReview.PublishEnabledIffEvents | app/staff/review/page.tsx:219 | Publishing is enabled exactly when no publish is running and the batch route would report a non-zero event count. |
| BatchRoute.HandleBatch | app/api/events/batch/route.ts:3-38 | An unreadable or null body gives 500 with `success: false` and the error text. A body with a length n (an array's element count, or a string's count of UTF-16 code units) gives 200 with `success: true`, `eventCount` n and `formCount` 2n. A body without a length still gives 200, with no `eventCount` and a null `formCount`. The status is 200 exactly when `success` is true. |
| BatchRoute.MessageStatesCount | app/api/events/batch/route.ts:25 | The message starts with `Successfully processed `, then digits that read back as the event count. The word "events" is plural exactly when the count is not 1. The message ends with ` signup forms)`. |
| Strings.Utf16Length | app/api/events/batch/route.ts:8 | A string's JavaScript `length` is its number of UTF-16 code units: between its character count and twice it, and equal to its character count exactly when no character lies outside the Basic Multilingual Plane. |
| Strings.Utf16LengthOfAstral | app/api/events/batch/route.ts:8 | An emoji outside the Basic Multilingual Plane has length 2, the same as the two-letter string `ab`. |
| Strings.NatToStringRoundTrip | app/api/events/batch/route.ts:25 | The decimal rendering of a count reads back as that count. |
| CalendarExtractor.NormalizeMime | src/lib/calendarExtractor.ts:52-55 | The normalised type has no upper-case letters. An input that lower-cases to `image/jpg` becomes `image/jpeg`, so the result is never `image/jpg`. Any other input becomes its lower-cased self. |
| CalendarExtractor.NormalizeMimeCanonical | src/lib/calendarExtractor.ts:52-55 | Normalising is idempotent and ignores the input's letter case. |
| CalendarExtractor.Preflight | src/lib/calendarExtractor.ts:52-62 | Preflight succeeds exactly for a supported normalised type together with a non-empty API key. An unsupported type is reported as "file type not supported" before the key is looked at. On success the result is the normalised type that is uploaded. |
| CalendarExtractor.SupportedTypes | src/lib/calendarExtractor.ts:38-45 | After normalisation, exactly PNG, JPEG, WebP, PDF and PPTX pass, and `image/jpg` in any letter case is accepted. |
| CalendarExtractor.SkipSpaces | src/lib/calendarExtractor.ts:132 | From a position, the first position that is not JavaScript white space, or the end; everything skipped is white space. |
| CalendarExtractor.BackOverSpaces | src/lib/calendarExtractor.ts:132 | Going back from a position, the first end point not preceded by white space, never below the lower bound; everything passed is white space. |
| CalendarExtractor.Trim | src/lib/calendarExtractor.ts:132 | `trim()` returns the contiguous slice of its input left after removing the leading and the trailing white space (all 25 characters of ECMAScript's WhiteSpace and LineTerminator sets). The result neither starts nor ends with white space. |
| CalendarExtractor.TrimEmptyIffBlank | src/lib/calendarExtractor.ts:132 | Trimming gives "" exactly for input made only of white space. |
| CalendarExtractor.TrimIdempotent | src/lib/calendarExtractor.ts:132 | Trimming twice is trimming once. |
| CalendarExtractor.DropOpeningFence | src/lib/calendarExtractor.ts:132 | `/^```json\n?/`: a reply starting with the fence and a newline loses both. One starting with the fence but no newline loses the fence only. Any other reply is unchanged. |
| CalendarExtractor.DropClosingFence | src/lib/calendarExtractor.ts:132 | `/\n?```$/`: a text ending with a newline and the fence loses both. One ending with the fence but no newline before it loses the fence only. Any other text is unchanged. |
| CalendarExtractor.StripFences | src/lib/calendarExtractor.ts:132 | The result is the trimmed text left after removing the opening fence and then the closing fence, each as its own contract states. Whatever the reply, the text handed to the JSON parser neither starts nor ends with white space. |
| CalendarExtractor.OpeningFenceOnly | src/lib/calendarExtractor.ts:132 | A reply with an opening fence and newline, and no closing fence, gives back the trimmed content. |
| CalendarExtractor.ClosingFenceOnly | src/lib/calendarExtractor.ts:132 | A reply with no opening fence that ends with a newline and the closing fence gives back the trimmed content. |
| CalendarExtractor.SameLineFences | src/lib/calendarExtractor.ts:132 | A reply with both fences and no newline next to either gives back the trimmed content. |
| CalendarExtractor.OpeningLineClosingSameLine | src/lib/calendarExtractor.ts:132 | An opening fence with a newline, then content not ending in a newline, then the closing fence, gives back the trimmed content. |
| CalendarExtractor.OpeningSameLineClosingLine | src/lib/calendarExtractor.ts:132 | An opening fence without a newline, then content, then a newline and the closing fence, gives back the trimmed content. |
| CalendarExtractor.ClosingSameLineOnly | src/lib/calendarExtractor.ts:132 | A reply without an opening fence that ends in the closing fence with no newline before it gives back the trimmed text. |
| CalendarExtractor.OpeningSameLineOnly | src/lib/calendarExtractor.ts:132 | A reply that opens a fence with no newline and never closes it gives back the trimmed text. |
| CalendarExtractor.UnfencedReplyIsTrimmed | src/lib/calendarExtractor.ts:132 | A reply with no opening `json` fence and no closing fence is only trimmed. |
| CalendarExtractor.FencedReplyRoundTrip | src/lib/calendarExtractor.ts:132 | A reply of the form `json` fence, newline, content, newline, fence gives back the trimmed content, whatever the content. |
| CalendarExtractor.StrCmp | src/lib/calendarExtractor.ts:139-140 | The comparison is -1, 0 or 1, and it is 0 exactly for equal strings. |
| CalendarExtractor.StrCmpAntisymmetric | src/lib/calendarExtractor.ts:139-140 | Swapping the strings negates the comparison. |
| CalendarExtractor.StrCmpTransitive | src/lib/calendarExtractor.ts:139-140 | The string comparison is transitive. |
| CalendarExtractor.Compare | src/lib/calendarExtractor.ts:137-145 | A dated event sorts before an undated one, and two undated events compare equal. Dated events order by date, and equal dates order by start time, with a missing start time read as "". |
| CalendarExtractor.CompareAntisymmetric | src/lib/calendarExtractor.ts:137-145 | Swapping the two events negates the comparison. |
| CalendarExtractor.CompareTransitive | src/lib/calendarExtractor.ts:137-145 | The comparison is transitive, so it is a total preorder, as `Array.prototype.sort` needs. |
| CalendarExtractor.Sort | src/lib/calendarExtractor.ts:136-146 | The sorted events are a permutation of the input (the same multiset), ordered by the comparator. |
| CalendarExtractor.InsertSorted | src/lib/calendarExtractor.ts:136-146 | Inserting an event into a sorted list keeps it sorted. |
| CalendarExtractor.SortStable | src/lib/calendarExtractor.ts:136-146 | The sort is stable. Events that compare equal, in particular all undated events, keep the order the model returned them in. |
| CalendarExtractor.InsertAfterAll | src/lib/calendarExtractor.ts:136-146 | An event no smaller than every event of a sorted list is inserted at its end, after the events it ties with. |
| CalendarExtractor.SortOfSorted | src/lib/calendarExtractor.ts:136-146 | Sorting an already sorted list changes nothing. |
| CalendarExtractor.StampMeta | src/lib/calendarExtractor.ts:149-153 | The metadata gains `source_filename` and `source_mime` with the given values. Every other field is kept. |
| CalendarExtractor.Finish | src/lib/calendarExtractor.ts:136-155 | The metadata is stamped. An `events` array is replaced by a sorted permutation of it. Any other `events` value is left as it is. |
| CalendarExtractor.FinishKeepsOriginalMime | src/lib/calendarExtractor.ts:149-153 | `source_mime` is the type as the caller gave it. For `image/jpg` in any case, this differs from the normalised type that was uploaded. |
| CalendarExtractor.FinishIdempotent | src/lib/calendarExtractor.ts:136-155 | Post-processing a finished result again changes nothing. |
| PreferenceToggles.IndexOf | components/PreferenceToggles.tsx:14 | `indexOf` gives -1 exactly for an absent value. Otherwise it gives a position holding the value, with no earlier one. |
| PreferenceToggles.CycleNext | components/PreferenceToggles.tsx:14-15 | The next value is always an entry of the list, and a value not in the list moves to the first entry. |
| PreferenceToggles.IndexOfDistinct | components/PreferenceToggles.tsx:14 | In a list without repeats, `indexOf` finds each entry at its own position. |
| PreferenceToggles.CycleStep | components/PreferenceToggles.tsx:14-15 | In a list without repeats, each entry moves to the following entry, and the last entry moves to the first. |
| PreferenceToggles.FullCycle | components/PreferenceToggles.tsx:12-25 | Pressing a cycling button once per entry brings back the starting value. |
| PreferenceToggles.CycleLanguage | components/PreferenceToggles.tsx:12-17 | The language after a press is always one of en, zh, ms. |
| PreferenceToggles.LanguageOrder | components/PreferenceToggles.tsx:13-16 | The language cycles en → zh → ms → en. |
| PreferenceToggles.UnknownLanguageMovesToFirst | components/PreferenceToggles.tsx:14-15 | A stored language outside the list moves to en. |
| PreferenceToggles.LanguageFullCycle | components/PreferenceToggles.tsx:13-16 | Three presses of the language button bring back the language shown. |
| PreferenceToggles.CycleFontSize | components/PreferenceToggles.tsx:20-25 | The size after a press is always one of small, medium, large. |
| PreferenceToggles.FontSizeOrder | components/PreferenceToggles.tsx:21-24 | The font size cycles small → medium → large → small. |
| PreferenceToggles.UnknownFontSizeMovesToFirst | components/PreferenceToggles.tsx:22-23 | A stored size outside the list moves to small. |
| PreferenceToggles.FontSizeFullCycle | components/PreferenceToggles.tsx:21-24 | Three presses of the font-size button bring back the size shown. |
| PreferenceToggles.ToggleTheme | components/PreferenceToggles.tsx:80 | `light` becomes `dark`, and every other stored value, `dark` included, becomes `light`. So the new theme is never the current one. |
| PreferenceToggles.ToggleThemeInvolution | components/PreferenceToggles.tsx:80 | Two presses restore the theme exactly when it was `light` or `dark`. |
| PreferenceToggles.LookUp | components/PreferenceToggles.tsx:34 | Reading a key of an object literal gives its own member when it has one. Otherwise it gives the member inherited from `Object.prototype` when the key names one (`constructor`, `toString`, `__proto__` and the rest). Otherwise it gives `undefined`. |
| PreferenceToggles.CurrentFlag | components/PreferenceToggles.tsx:28-35 | A flag of the page's own is shown exactly for en, zh and ms. A stored language naming an `Object.prototype` member reads that inherited member. Any other language reads `undefined`. |
| PreferenceToggles.FlagsDistinct | components/PreferenceToggles.tsx:29-33 | Different languages show different flags. |
| PreferenceToggles.FontSizeIndicator | components/PreferenceToggles.tsx:38-45 | An indicator of the page's own is shown exactly for small, medium and large. A stored size naming an `Object.prototype` member reads that inherited member. Any other size reads `undefined`. |
| PreferenceToggles.PrototypeKeysReadInherited | components/PreferenceToggles.tsx:29-44 | The stored values `constructor` and `__proto__` read inherited members as flags, and `toString` reads one as a size indicator. An unknown language such as `fr` reads `undefined`. |
| PreferenceToggles.IndicatorIsInitial | components/PreferenceToggles.tsx:39-43 | Each indicator is the capitalised first letter of its size. |
| UserRole.Name | hooks/useUserRole.ts:50-52 | Every portal role's name is one of the portal role names the route guard uses. |
| UserRole.NameBijective | hooks/useUserRole.ts:50-52 | A string is a portal role name exactly when some role has that name, and no two roles share a name. |
| UserRole.PortalRoleOf | hooks/useUserRole.ts:47-52 | A user whose metadata role is a portal role name is shown as that role. No user, no metadata, a missing or empty role, and any other value are all shown as participant. |
| UserRole.GroupRolesShownAsParticipant | hooks/useUserRole.ts:50-52 | Admin and staff accounts are shown as participants on the client. |
| UserRole.RoleResolution | hooks/useUserRole.ts:44-52 | Concrete cases of the resolution: a named portal role passes through, and a signed-out user, empty metadata or an empty role give participant. |
| UserRole.ThemeGradient | hooks/useUserRole.ts:9-37 | Each role's gradient runs from its primary colour to its dark colour. |
| UserRole.ThemeLabel | hooks/useUserRole.ts:9-37 | Each role's label is its capitalised name. |
| UserRole.ThemeIdentifiesRole | hooks/useUserRole.ts:9-37 | Different roles have different primary colours. |
| UserRole.UseUserRole | hooks/useUserRole.ts:43-62 | Each flag is true exactly when the resolved role is its role. The theme is the role's theme. `isLoaded` is passed through. |
| UserRole.ExactlyOneFlag | hooks/useUserRole.ts:56-59 | Exactly one of the three flags is set, and `isVolunteer` agrees with the theme's label. |
| PreferenceActions.ColumnOr | app/actions/preferences.ts:40-42 | A column reads as its value when present and non-empty, and as the fallback otherwise. |
| PreferenceActions.GetUserPreferences | app/actions/preferences.ts:11-45 | No user id gives `Unauthorized`. A database error gives its message. A user without a profile row gives the single-row error. Otherwise the result is the row's three preferences, with null or empty columns read as en, medium and light. |
| PreferenceActions.FreshProfileDefaults | app/actions/preferences.ts:40-42 | A row with no preference columns reads as en, medium, light. |
| PreferenceActions.ApplyUpdate | app/actions/preferences.ts:150-153 | An update overwrites the written columns of the user's row and keeps its other columns. Other rows are unchanged. A user without a row matches nothing. |
| PreferenceActions.Update | app/actions/preferences.ts:50-72 | No user id gives `Unauthorized` with the table unchanged. A database error gives its message with the table unchanged. Otherwise the action succeeds and the record is applied to the user's row. |
| PreferenceActions.UpdateLanguage | app/actions/preferences.ts:50-72 | The action succeeds exactly when signed in and the database is up. Failure changes nothing. Success writes the language and `updated_at` to the user's row, keeps its other columns, and leaves other rows alone. |
| PreferenceActions.UpdateFontSize | app/actions/preferences.ts:77-99 | The same as the language action, for `font_size`. |
| PreferenceActions.UpdateTheme | app/actions/preferences.ts:104-126 | The same as the language action, for `theme`. |
| PreferenceActions.ChangeRecord | app/actions/preferences.ts:141-147 | The record always holds `updated_at`. It holds each preference column exactly when that field is provided and non-empty, with the given value, and nothing else. |
| PreferenceActions.UpdateAllPreferences | app/actions/preferences.ts:131-162 | The action succeeds exactly when signed in and the database is up. Failure leaves the table unchanged. Success applies the change record (the provided, non-empty fields plus `updated_at`) to the user's row, and to nothing else. |
| PreferenceActions.UpdateAllThenGet | app/actions/preferences.ts:11-45 | After a successful combined update, each provided field reads back as its new value, and each omitted field reads as before. |
| PreferenceActions.UpdateAllRoundTrip | app/actions/preferences.ts:131-162 | Setting all three preferences reads back exactly what was set. |
| PreferenceActions.SingleUpdatesAreCombinedUpdates | app/actions/preferences.ts:50-147 | For a non-empty value, each single-field action is the combined action with only that field provided. |
| PreferenceActions.UpdateWithoutProfile | app/actions/preferences.ts:150-161 | For a user without a profile row, an update reports success and writes nothing, and a later read still fails. |

## Left out

- Token generation (`crypto.randomBytes` with base64url encoding) is left out. The token is an input of `Issue`.
- SHA-256 is a function parameter, not an implementation. Injectivity (no collisions) is a precondition of the lemmas that need it, not a proved fact.
- PNG rendering by the `qrcode` library and base64 encoding are opaque parameters. A rendering failure after the database write is not modelled.
- The mock database object (src/lib/qrAttendance.ts:23-43) returns canned data. The model follows the table contract described in its comments instead.
- Concurrency is out of scope. Verification reads and then writes, so two simultaneous scans of one token could both succeed. The one-shot lemmas cover sequential scans only.
- QrIssueRoute.HandleIssue: truthy ids that are not strings are assumed to make the typed table write throw, giving 500.
- RouteGuard.Decide takes the role as already resolved. The role is `metadata.role || app_role`, and the fallback lookup at the identity provider (proxy.ts:14-19) is left out.
- RouteGuard.Decide matches `/` and `/onboarding` as whole paths and the `(.*)` patterns as string prefixes, ignoring the case of ASCII letters, as the route matcher does. It does not model the matcher's tolerance of a trailing slash, or its decoding of percent-escapes. The `/admin`, `/staff` and old-portal checks are plain `startsWith` calls and stay case-sensitive.
- The middleware's `config.matcher` (proxy.ts:84-91), which decides which requests reach the guard at all, is left out.
- BatchRoute.HandleBatch: a posted object carrying its own `length` member is not modelled. Objects are treated as having no length.
- Extraction upload, polling, the model call and temporary-file handling (src/lib/calendarExtractor.ts:61-130, 156-163) are left out. So are JSON parsing of the reply and the response schema.
- The second copy of the extraction tail (src/lib/calendarExtractor.ts:165-212) sits after the function's closing brace and does not parse. Only the copy inside `extractCalendarEvents` is modelled.
- CalendarExtractor.StrCmp stands in for `localeCompare` with ordinal order. This agrees for the ISO dates and HH:MM times the extractor asks for, but not for arbitrary text under every locale.
- Strings.ToLower lowers ASCII letters only. The MIME types compared are ASCII.
- CalendarExtractor.Finish models `meta` as an object and the events as records matching the schema. A non-object `meta` and array elements that are not event objects are not modelled.
- PreferenceActions.GetUserPreferences uses the PostgREST client's error text for a missing row, "JSON object requested, multiple (or no) rows returned". The source only passes the client's message on.
- `revalidatePath('/')` after an update is a cache side effect and is left out.
- The toggles' `setLanguage`/`setFontSize`/`setTheme` calls and the role hook's `useUser` are provider glue. The model works on the values they read and write.
- PreferenceToggles.CurrentFlag and PreferenceToggles.FontSizeIndicator identify which inherited `Object.prototype` member a lookup reads. What the page then shows is left out, because it depends on React's rendering. React rejects an object child such as `Object.prototype`, and the `title` template renders a function's source text.
- Other user-interface files and the identity-provider sync routes are not part of this model.
- Integers are unbounded. JavaScript numbers are doubles, but no count here comes near 2^53.
