# insightboard — a Dafny model of its plain logic

insightboard is a Next.js dashboard that analyses YouTube videos. A user
signs up or logs in against accounts kept in the browser's `localStorage`.
They paste a video URL or id into a form. The form extracts the id and asks
the app's own `/api/youtube` endpoint for the video. That endpoint calls the
YouTube Data API and normalises the reply into a metadata record. The user
can then save the video into a per-user collection, also kept in
`localStorage`.

This project models the logic behind that flow and proves properties of it:

- `Duration`: `formatDuration`. It turns the time part of an ISO 8601
  duration in the designator format (section 4.4.3.2 of ISO 8601:2004),
  such as `PT1H2M3S`, into `H:MM:SS` or `M:SS`, the way the regular
  expression `PT(\d+H)?(\d+M)?(\d+S)?` reads it.
- `Route`: the rest of the endpoint (`src/app/api/youtube/route.ts`).
  - `fetchVideoStats` takes the API key and the provider's reply as inputs
    and builds the record from the first item: a thumbnail fallback chain
    and counters that default to 0.
  - `GET` validates the id against `^[a-zA-Z0-9_-]{11}$` and maps error
    messages to HTTP statuses by substring tests, in order.
- `YouTube`: the client helpers of `src/lib/youtube.ts`.
  - `extractVideoId` is modelled as a leftmost-position scanner over the
    three alternatives of the URL pattern, in the order the pattern tries
    them, with the greedy capture `[^&\n?#]+`, and then the anchored bare-id
    pattern.
  - `fetchVideoMetadata` takes the endpoint's `Response` as its input.
- `Storage`: `localStorage` as a class over a `map` from key to stored
  value. The value is what the app wrote, the empty string, or text that
  `JSON.parse` rejects (`Corrupt`).
- `Db`: the saved-video store of `src/lib/db.ts`, keyed `videos_<userId>`.
- `Accounts`, `Auth`, `AuthStore`:
  - the `User` and stored `Account` records and the credential scan;
  - the storage helpers of `src/lib/auth.ts`;
  - the session store of `src/store/useAuth.ts`, as a class whose methods
    update `user` and `isAuthenticated` and write the `user` key.
- `Signup`, `Login`: the `handleSubmit` logic of the sign-up and login
  pages, as classes over the form fields and the session store.
- `VideoForm`, `FormMessages`: the video form's pre-checks and its ordered
  classification of error texts, with the setup-guide hint. `FormMessages`
  proves how each text the endpoint can send reaches the user.

JavaScript details that the model makes explicit:

- `||` and `!` treat the empty string as false. So an empty thumbnail url
  is skipped, an empty API key counts as missing, and the empty `user`
  value means signed out.
- `String.prototype.match` reports the leftmost position where the pattern
  matches. At that position it tries the alternatives in order.
- `extractVideoId` is a total function. It cannot fail, which is the
  model's form of the source's catch-all that returns `null`.

## Model

| member | source | states |
|---|---|---|
| Duration.FormatDuration | src/app/api/youtube/route.ts:24-36 | whatever the input, the result is two or three ':'-separated fields of digits; an input without "PT" gives "0:00"; its value on a designator followed by any text is stated by `Duration.DesignatorRoundTrip` |
| Duration.ReadTime | src/app/api/youtube/route.ts:28-35 | the text after "PT", read group by group, always formats as such a clock text; its value, with or without text after the groups, is stated by `Duration.ReadPartsThen` |
| Duration.FindDesignator | src/app/api/youtube/route.ts:25-26 | a match is found exactly when the input contains "PT", and it is at the leftmost "PT" |
| Duration.NoDesignatorIsZero | src/app/api/youtube/route.ts:25-26 | an input without "PT" anywhere formats as "0:00" |
| Duration.TakeComponent | src/app/api/youtube/route.ts:25-30 | one optional group `(\d+U)?`: a text that does not start with a digit is returned whole with value 0; the group is taken exactly when some non-empty digit run at the start, zero-padded or not, is followed by the unit letter; when it is taken, the rest is the suffix after the unit letter and the value is the number of the non-empty digit run before it; an untaken group reads as 0 |
| Duration.FormatClock | src/app/api/youtube/route.ts:32-35 | the clock text ends in ':' followed by the seconds padded to two digits |
| Duration.ClockShape | src/app/api/youtube/route.ts:32-35 | the clock text splits at ':' into two fields without hours and three with hours; every field is a non-empty digit string; the first field has no leading zero; later fields have at least two digits, exactly two below 100 and without a leading zero when wider; each field reads back as its number |
| Duration.DesignatorRoundTrip | src/app/api/youtube/route.ts:25-35 | a designator `PT[nH][nM][nS]` after any text without "PT", and followed by any text that starts no further group, formats as the clock of its components, with an absent component counting as 0: the match is not anchored at either end |
| Duration.DesignatorRead | src/app/api/youtube/route.ts:25-35 | a duration that is just a designator formats as the clock of its components |
| Duration.ReadPartsThen | src/app/api/youtube/route.ts:25-35 | each optional group takes its own component and skips the later ones, an absent group reads as 0, and text after the groups that starts no further group is ignored |
| Duration.NonDigitNoGroup | src/app/api/youtube/route.ts:25-26 | text that is empty or does not start with a digit starts no group, so the match ends before it |
| Duration.ReadParts | src/app/api/youtube/route.ts:28-30 | each optional group takes its own component and skips the later ones; an absent group reads as 0 |
| Duration.ClockExamples | src/app/api/youtube/route.ts:32-35 | the clocks of (1,2,3), (0,10,45) and (0,5,0) are "1:02:03", "10:45" and "5:00" |
| Duration.ExampleWithHours | src/app/api/youtube/route.ts:32-33 | "PT1H2M3S" formats as "1:02:03" |
| Duration.ExampleMinutesSeconds | src/app/api/youtube/route.ts:21-22 | "PT10M45S" formats as "10:45" |
| Duration.ExampleMinutesOnly | src/app/api/youtube/route.ts:35 | "PT5M" and "PT0H5M" both format as "5:00": an explicit zero hour is not shown |
| Duration.ExampleFractionalSeconds | src/app/api/youtube/route.ts:25-30 | "PT1M30.5S" formats as "1:00": the seconds group cannot take "30.5S", and the rest is ignored |
| Duration.ExampleTrailingDesignator | src/app/api/youtube/route.ts:25-30 | "PT5M PT3M" formats as "5:00": only the leftmost designator is read |
| Duration.ExampleGarbage | src/app/api/youtube/route.ts:26 | "garbage" formats as "0:00" |
| Duration.DayDurationIsZero | src/app/api/youtube/route.ts:25-26 | a duration with a day component, "P1DT2H3M4S", holds no "PT" and formats as "0:00" |
| Strings.NatToString | src/app/api/youtube/route.ts:33-35 | `String(n)` is a non-empty digit string without a leading zero that parses back to `n` |
| Strings.ParseZeroRun | src/app/api/youtube/route.ts:78-80 | zeros in front of a digit string do not change the value read from it |
| Strings.SplitHead | src/app/api/youtube/route.ts:73 | the first field of `split(sep)` is the longest prefix without `sep` |
| Strings.SplitTwo | src/app/api/youtube/route.ts:35 | the proof partner of the `:` join of the clock without hours (the source splits nothing here): two separator-free fields joined by the separator split back into those two |
| Strings.SplitThree | src/app/api/youtube/route.ts:33 | the proof partner of the `:` join of the clock with hours (the source splits nothing here): three separator-free fields joined by the separator split back into those three |
| Strings.PadStart2 | src/app/api/youtube/route.ts:33-35 | `padStart(2, '0')` gives at least two digits and keeps the value; a string of two or more digits is unchanged; a shorter one gets leading zeros |
| Strings.IsBlank | src/components/VideoForm.tsx:22 | `!url.trim()`: the text is blank exactly when every character is white space, the empty text included |
| Route.BestThumbnail | src/app/api/youtube/route.ts:74 | maxres when it is filled, else high when it is filled, else default as it is (absent or empty); the result is filled exactly when one of the three is |
| Route.IsFilled | src/app/api/youtube/route.ts:74-80 | JavaScript truthiness of an optional string, as the `||` operands and the `|| '0'` fallbacks test it: present and not empty |
| Route.Counter | src/app/api/youtube/route.ts:78-80 | an absent or empty counter is 0; the decimal text of `n` is `n` |
| Route.CounterLeadingZeros | src/app/api/youtube/route.ts:78-80 | the decimal text of `n` after any run of '0's still counts `n`, as `parseInt("007")` is 7 |
| Route.Normalize | src/app/api/youtube/route.ts:64-93 | the record carries the requested id and the item's title, channel and description; counters go through `Counter`, the thumbnail through `BestThumbnail`, the duration through `formatDuration` and the date through `UploadDate` |
| Route.IsVideoIdFormat | src/app/api/youtube/route.ts:117 | an accepted id holds no white-space character and none of the URL delimiters `& ? # = / % +`, so it stands in the query string unencoded |
| Route.UploadDate | src/app/api/youtube/route.ts:73 | the upload date is the longest prefix of `publishedAt` without 'T' |
| Route.UploadDateOfTimestamp | src/app/api/youtube/route.ts:73 | the upload date of a UTC timestamp `date"T"time` is `date` |
| Route.FetchVideoStats | src/app/api/youtube/route.ts:43-93 | a missing or empty key fails with the key message whatever the reply is; a provider error passes its message through; no items or an empty list fails with "Video not found"; it succeeds exactly when the key is set and an item exists, with the record of the first item |
| Route.ErrorResponse | src/app/api/youtube/route.ts:127-155 | status 404 exactly when the message contains "Video not found"; otherwise 500 when it contains "API key"; otherwise 429 when it contains "quotaExceeded"; otherwise 500; each case with its fixed text, or the raw message for the last |
| Route.Get | src/app/api/youtube/route.ts:104-157 | a missing or empty id gives 400 "videoId parameter is required"; an id not of the 11-character format gives 400 "Invalid video ID format"; status 200 comes exactly with a record |
| Route.RejectedIdSkipsFetch | src/app/api/youtube/route.ts:109-122 | for a rejected id the response is 400 and depends on neither the key nor the provider's reply, so the provider is never consulted |
| Route.KeyMessageRule | src/app/api/youtube/route.ts:138-142 | the missing-key message selects the 500 not-configured rule and skips the not-found rule before it |
| Route.NotFoundMessageRule | src/app/api/youtube/route.ts:131-135 | "Video not found" selects the 404 rule |
| Route.MissingKeyIs500 | src/app/api/youtube/route.ts:45-46 | a well-formed id without a key gives 500 with the not-configured text, whatever the provider would answer |
| Route.NoItemsIs404 | src/app/api/youtube/route.ts:60-61 | an absent or empty `items` list gives 404 with the not-found text |
| Route.ProviderErrorClassified | src/app/api/youtube/route.ts:127-155 | a provider error is classified by its message alone |
| Route.SuccessRecord | src/app/api/youtube/route.ts:74-93 | on success the status is 200 and the record is the normalised first item: its id is the requested id, absent and empty counters are 0, the thumbnail is maxres, else high, else default, and the duration is the formatted one |
| Route.OmittedViewCount | src/app/api/youtube/route.ts:78 | a reply without `viewCount` is a success with 0 views |
| YouTube.CaptureRun | src/lib/youtube.ts:10 | the greedy capture is the longest prefix without `&`, `?`, `#` or newline: it is a prefix, holds none of them, and stops only at one of them or at the end |
| YouTube.CaptureOf | src/lib/youtube.ts:10 | the capture of `id + rest` is `id` when `id` has no stop character and `rest` starts with one or is empty |
| YouTube.Opening | src/lib/youtube.ts:10 | the alternatives are tried in order: the result is the first one that opens the text, and None means none does |
| YouTube.MarkerAtHead | src/lib/youtube.ts:10 | an alternative matches only at a 'y', and it is followed by at least one capture character |
| YouTube.MarkerIsAlternative | src/lib/youtube.ts:10 | the pattern matches at the head of the text exactly when one of its three alternatives, followed by a capture character, opens the text; the match spans that alternative |
| YouTube.MarkerOfHead | src/lib/youtube.ts:10 | each of the three alternatives, followed by a capture character, is the one matched at the head |
| YouTube.FirstMarker | src/lib/youtube.ts:15 | the scan returns the leftmost position where the per-position test (`MarkerAtHead` for the URL pattern) matches, and None exactly when it matches at no position |
| YouTube.UrlMatch | src/lib/youtube.ts:14-18 | the URL pattern fails exactly when no alternative matches at any position; a capture it returns is non-empty and free of stop characters |
| YouTube.CaptureAfterAlternative | src/lib/youtube.ts:10 | after a prefix where no alternative opens, the `k`-th alternative followed by an id and a stop character (or the end) captures exactly that id |
| YouTube.ExtractVideoId | src/lib/youtube.ts:6-25 | the URL pattern is tried first and wins when it matches; otherwise the input is returned exactly when it is an 11-character id; any result is non-empty and free of stop characters |
| YouTube.NoMarkerWithoutY | src/lib/youtube.ts:10 | a string without 'y' never matches the URL pattern |
| YouTube.UrlForm | src/lib/youtube.ts:10-18 | the id after the leftmost alternative, up to the first stop character, is extracted, whatever precedes it so long as no alternative opens at an earlier position |
| YouTube.BareInput | src/lib/youtube.ts:11 | input without '.' cannot match the URL pattern, so it is returned exactly when it is an 11-character id |
| YouTube.BareIdUnchanged | src/lib/youtube.ts:11-18 | an 11-character id from `[A-Za-z0-9_-]` is returned unchanged |
| YouTube.ShortLinkExample | src/lib/youtube.ts:10 | "https://youtu.be/abc123XYZ_-?t=5" yields "abc123XYZ_-" |
| YouTube.WatchLinkExample | src/lib/youtube.ts:10 | "https://www.youtube.com/watch?v=dQw4w9WgXcQ&t=42" yields "dQw4w9WgXcQ" |
| YouTube.ShortIdAccepted | src/lib/youtube.ts:9-18 | the URL pattern does not check the length: "youtu.be/abc" yields "abc" |
| YouTube.TenCharactersRejected | src/lib/youtube.ts:11-21 | a bare 10-character string yields nothing |
| YouTube.PaddedIdRejected | src/lib/youtube.ts:11-21 | a bare id with surrounding spaces yields nothing |
| YouTube.LoneYRejected | src/lib/youtube.ts:9-21 | "y.z" opens no alternative and is not an 11-character id, so it yields nothing |
| YouTube.FromMetadata | src/lib/youtube.ts:43-44 | the endpoint's record read as `VideoStats` keeps every one of its ten fields unchanged and has no `savedAt` |
| YouTube.FetchVideoMetadata | src/lib/youtube.ts:33-53 | a 2xx response gives the record; any other gives its error text, or "Failed to fetch video metadata" when that text is empty, so an error is never empty |
| YouTube.GetWellFormed | src/lib/youtube.ts:38-43 | every response of the endpoint is 2xx exactly when it carries a record |
| YouTube.FetchedIdMatches | src/lib/youtube.ts:36-44 | fetching an id the endpoint accepts, with a key and an item, gives a record with that id |
| Db.VideosKey | src/lib/db.ts:10 | the template `` `videos_${userId}` ``: the prefix `videos_` followed by the user id |
| Db.HasVideo | src/lib/db.ts:14 | `some(v => v.id === video.id)`: some entry of the list carries the id |
| Db.Stamp | src/lib/db.ts:17-20 | the spread copy carries `savedAt: now`, keeps the id, and differs from the video in no other field |
| Db.VideosKeyInjective | src/lib/db.ts:10 | different users have different keys, and no video key is the `user` or `users` key |
| Db.Without | src/lib/db.ts:54 | the filter removes every entry with the id and keeps every other entry; a list without the id is unchanged |
| Db.WithoutConcat | src/lib/db.ts:54 | the filter distributes over concatenation, so survivors keep their relative order |
| Db.First | src/lib/db.ts:70 | `find` succeeds exactly when some entry has the id, and returns the first such entry |
| Db.GetVideoById | src/lib/db.ts:67-75 | a video is found exactly when the user's saved list has an entry with the id; what is found has that id and is in the list |
| Db.GetSavedVideos | src/lib/db.ts:34-43 | the stored list is returned; an absent, empty or unreadable value gives `[]` |
| Db.AfterSave | src/lib/db.ts:8-27 | saving touches only the user's key and keeps every key's value of its own shape; an unreadable list is left untouched, since the thrown parse is caught |
| Db.AfterRemove | src/lib/db.ts:50-59 | removing touches only the user's key and keeps every key's value of its own shape; an unreadable list is left untouched, since the thrown parse is caught before any write |
| Db.AfterClear | src/lib/db.ts:81-87 | clearing deletes the user's key and touches no other key |
| Db.SaveVideo | src/lib/db.ts:8-27 | the storage afterwards is `AfterSave` of the storage before |
| Db.RemoveVideo | src/lib/db.ts:50-59 | the storage afterwards is `AfterRemove` of the storage before |
| Db.ClearAllVideos | src/lib/db.ts:81-87 | the storage afterwards is `AfterClear` of the storage before |
| Db.SaveAppendsNew | src/lib/db.ts:16-22 | saving a new id gives the old list plus the video stamped with `now`, at the end |
| Db.SaveExistingIsNoOp | src/lib/db.ts:14-16 | saving an id already stored, or into an unreadable list, leaves the storage unchanged, so the stored `savedAt` stays |
| Db.SaveIdempotent | src/lib/db.ts:14-22 | a second save of the same video changes nothing |
| Db.SaveTwiceKeepsOne | src/lib/db.ts:14-22 | two saves into an empty collection leave one entry, stamped by the first save |
| Db.SaveKeepsIdsUnique | src/lib/db.ts:14-22 | saving keeps the ids of a user's list pairwise distinct |
| Db.RemoveFilters | src/lib/db.ts:53-55 | removing stores the filtered list, which no longer has the id; an absent key becomes `[]` |
| Db.RemoveAbsentKeepsList | src/lib/db.ts:53-55 | removing an id that is not stored writes the same list back |
| Db.ClearEmpties | src/lib/db.ts:84 | after clearing, the user's list reads as `[]` and no video is found |
| Db.FindAfterSave | src/lib/db.ts:67-75 | after saving a new id, `getVideoById` returns the stamped video |
| Db.OtherUsersUntouched | src/lib/db.ts:10 | each operation on one user leaves every other user's list as it was, and leaves the `user` and `users` keys present or absent as before, with the same values |
| Accounts.FirstMatch | src/lib/auth.ts:33 | the scan returns the first account whose email and password both match, and None exactly when none does |
| Accounts.FirstMatchIsLeast | src/lib/auth.ts:33 | a matching position with no match before it is the one the scan returns |
| Accounts.AppendKeepsDistinct | src/app/signup/page.tsx:54-61 | appending an account whose email is not taken keeps the emails pairwise distinct |
| Accounts.AppendedIsFound | src/app/signup/page.tsx:54-60 | an account appended with an untaken email is the first match for its own email and password |
| Accounts.Matches | src/lib/auth.ts:33 | the `find` callback: both the email and the password are equal |
| Accounts.EmailTaken | src/app/signup/page.tsx:54 | `some(u => u.email === email)`: some stored account has the email |
| Accounts.Public | src/app/signup/page.tsx:64 | the `{id, name, email}` view of an account that `login` receives, without the password |
| Auth.ValidateCredentials | src/lib/auth.ts:19-56 | an empty email or a password under 6 characters fails with "Invalid credentials" before storage is read; an unreadable list gives "Authentication failed"; a readable list with no matching account gives "Invalid credentials"; success holds exactly when a stored account matches both, and returns the first match without its password |
| Auth.ValidateReadsOnlyUsers | src/lib/auth.ts:32 | only the `users` key is consulted |
| Auth.IsAuthenticated | src/lib/auth.ts:62-66 | a session is reported exactly when `getCurrentUser()` would not return null, so never for an absent or empty `user` value |
| Auth.GetCurrentUser | src/lib/auth.ts:72-76 | no `user` key, or the empty text under it, gives null; a stored user is returned as it is; on well-shaped storage the read fails exactly when the stored text does not parse |
| Auth.Logout | src/lib/auth.ts:81-85 | the `user` key is removed and nobody is signed in afterwards |
| Auth.StoredSessionRead | src/lib/auth.ts:62-76 | a stored session user counts as signed in and is read back unchanged |
| Auth.RemovedSessionRead | src/lib/auth.ts:62-76 | without the `user` key nobody is signed in |
| Auth.ReadersAgree | src/lib/auth.ts:62-76 | the two readers agree, except that an unreadable value counts as signed in while reading it fails |
| Storage.LoadVideos | src/lib/db.ts:11 | an absent key or the empty text reads as `[]` and a stored list is read back; on well-shaped storage a video key fails to read exactly when it holds text that does not parse |
| Storage.LoadAccounts | src/lib/auth.ts:32 | an absent `users` key or the empty text reads as `[]` and a stored list is read back; on well-shaped storage the read fails exactly when the text does not parse |
| Storage.LocalStorage.SetItem | src/lib/db.ts:22 | the key holds the new value and every other key is unchanged |
| Storage.LocalStorage.RemoveItem | src/lib/db.ts:84 | the key is gone and every other key is unchanged |
| AuthStore.AuthState.constructor | src/store/useAuth.ts:12-14 | the initial state holds no user and is not signed in; storage is not read |
| AuthStore.AuthState.Login | src/store/useAuth.ts:16-24 | the state holds `u` and is signed in; the `user` key holds `u`, which both readers report |
| AuthStore.AuthState.Logout | src/store/useAuth.ts:26-34 | the state holds no user and is signed out; the `user` key is removed |
| AuthStore.AuthState.SetUser | src/store/useAuth.ts:36-44 | the state holds `x` and is signed in exactly when `x` is a user; storage is written only for a user, and `setUser(null)` leaves the stored key in place |
| Signup.AllFilled | src/app/signup/page.tsx:25 | `!name || !email || !password || !confirmPassword` fails: all four fields are non-empty |
| Signup.FormCheck | src/app/signup/page.tsx:25-41 | the checks run in order (empty field, then mismatch, then length under 6) and the first that fails gives its message; None exactly when all pass |
| Signup.Register | src/app/signup/page.tsx:25-61 | a form failure gives its message; otherwise an unreadable list gives the sign-up failure and a taken email gives "Email already registered"; an account `{newId, name, email, password}` is created exactly when all checks pass |
| Signup.SignupPage.HandleSubmit | src/app/signup/page.tsx:18-71 | a refusal shows its message and changes neither storage nor session; a creation appends the account to `users`, logs in its `{id, name, email}` and redirects to /analyzer |
| Signup.RegisteredAppends | src/app/signup/page.tsx:60-64 | `users` grows by exactly the new account at the end, and the session holds its public view |
| Signup.AfterRegister | src/app/signup/page.tsx:60-64 | the storage after a creation: `users` holds the old list with the account pushed at the end, and `user` holds its public view |
| Signup.RegisterKeepsEmailsDistinct | src/app/signup/page.tsx:54-61 | registration keeps the stored emails pairwise distinct |
| Signup.CreatedAccountValidates | src/app/signup/page.tsx:44-64 | `validateCredentials` then accepts the created account with its email and password |
| Signup.TakenEmailRefused | src/app/signup/page.tsx:52-58 | a taken email is refused with "Email already registered" |
| Login.Authenticate | src/app/login/page.tsx:21-39 | an empty field gives "Please fill in all fields"; an unreadable list gives the login failure; sign-in holds exactly when an account matches both, with the first match's `{id, name, email}`; no match gives "Invalid email or password" |
| Login.LoginPage.HandleSubmit | src/app/login/page.tsx:16-43 | a refusal shows its message and changes neither storage nor session; a sign-in writes only the `user` key, sets the session and redirects to /analyzer, so `users` is never written |
| Login.AgreesWithValidate | src/app/login/page.tsx:29-30 | for passwords of at least 6 characters the page and `validateCredentials` accept the same credentials and return the same user |
| Login.ShortPasswordDiffers | src/app/login/page.tsx:22-33 | the page has no length check: an account with a short password signs in there but fails `validateCredentials` |
| Login.SignupThenLogin | src/app/login/page.tsx:29-33 | whoever registered through the sign-up page can sign in with the same email and password |
| VideoForm.Classify | src/components/VideoForm.tsx:42-55 | the rules are tried in order ("not configured", "not found", "quota", "disabled") and the first match decides; text matching no rule is shown as it is |
| VideoForm.Submit | src/components/VideoForm.tsx:21-55 | blank input gives the enter-URL message, and an input with no id gives the invalid-URL message, both without a fetch; a delivered record has the extracted id |
| VideoForm.VideoForm.HandleSubmit | src/components/VideoForm.tsx:16-59 | a shown error keeps the input; a delivered record is handed out, the input is cleared and no error is shown |
| VideoForm.ShowsSetupHint | src/components/VideoForm.tsx:80-84 | a text that shows the hint is never empty, so the hint always sits inside the error box, which is drawn only for a non-empty error |
| FormMessages.NotFoundBodyWords | src/app/api/youtube/route.ts:133 | the 404 text contains "not found" and not "not configured" |
| FormMessages.NotFoundBodyShown | src/components/VideoForm.tsx:45-48 | the 404 text is shown as the form's not-found message |
| FormMessages.NotConfiguredBodyWords | src/app/api/youtube/route.ts:140 | the not-configured text contains "not configured" |
| FormMessages.NotConfiguredBodyShown | src/components/VideoForm.tsx:45-46 | the not-configured text is shown as the setup message |
| FormMessages.QuotaBodyWords | src/app/api/youtube/route.ts:147 | the 429 text contains "quota" and neither "not configured" nor "not found" |
| FormMessages.QuotaBodyShown | src/components/VideoForm.tsx:45-50 | the 429 text is shown as the form's quota message |
| FormMessages.InvalidFormatBodyNamesNoFault | src/app/api/youtube/route.ts:119 | the invalid-format text contains neither "not configured" nor "not found" |
| FormMessages.InvalidFormatBodyNamesNoLimit | src/app/api/youtube/route.ts:119 | the invalid-format text contains neither "quota" nor "disabled" |
| FormMessages.InvalidFormatBodyRaw | src/components/VideoForm.tsx:53-55 | the invalid-format text is shown as it is |
| FormMessages.RequiredBodyWords | src/app/api/youtube/route.ts:111 | the missing-id text contains none of "not configured", "not found" and "disabled" |
| FormMessages.NoQuotaInRequired | src/app/api/youtube/route.ts:111 | the missing-id text does not contain "quota" |
| FormMessages.RequiredBodyRaw | src/components/VideoForm.tsx:53-55 | the missing-id text is shown as it is |
| FormMessages.SetupMessageHinted | src/components/VideoForm.tsx:84 | the setup message shows the setup-guide hint |
| FormMessages.NotFoundMessageUnhinted | src/components/VideoForm.tsx:84 | the not-found message shows no hint |
| FormMessages.QuotaMessageUnhinted | src/components/VideoForm.tsx:84 | the quota message shows no hint |
| FormMessages.DisabledMessageUnhinted | src/components/VideoForm.tsx:84 | the disabled message shows no hint |
| FormMessages.SetupHintIff | src/components/VideoForm.tsx:84 | the hint is shown exactly when the error text that reached the form contains "not configured" |
| FormMessages.MissingKeyShowsSetup | src/components/VideoForm.tsx:38-46 | a valid id without a key configured ends with the setup message and its hint |
| FormMessages.UnknownVideoShowsNotFound | src/components/VideoForm.tsx:38-48 | a provider without the video ends with the form's not-found message |
| FormMessages.ProviderFailureShown | src/components/VideoForm.tsx:38-55 | a provider failure with a non-empty message, for a well-formed id and a configured key, is shown as the form's classification of the endpoint's classified error text |
| FormMessages.FetchFailedRaw | src/lib/youtube.ts:40 | the fetch's fallback text names none of the form's rule words and is shown as it is |
| FormMessages.EmptyProviderFailureShown | src/components/VideoForm.tsx:38-55 | a provider failure with an empty message, for a well-formed id and a configured key, ends with the fetch's fallback "Failed to fetch video metadata" shown as it is |
| FormMessages.QuotaExceededShown | src/components/VideoForm.tsx:49-50 | a provider message naming "quotaExceeded" (and neither an absent video nor the API key) is shown as the form's quota message |
| FormMessages.MalformedIdShowsFormatError | src/components/VideoForm.tsx:29-55 | any extracted id that fails the endpoint's format check ends with the endpoint's 400 text shown as it is, whatever the key and the provider |
| FormMessages.ShortIdShowsFormatError | src/components/VideoForm.tsx:29-55 | "youtu.be/abc" passes extraction but not the endpoint's format check, and the endpoint's 400 text is shown as it is |
| FormMessages.FoundVideoDelivered | src/components/VideoForm.tsx:38-40 | a provider reply with an item delivers the record built from it under the extracted id |

## Left out

- Network: the axios call to the YouTube Data API and the client `fetch` to `/api/youtube` are inputs. They are the `ProviderReply` and the endpoint's `Response`. Timeouts and transport errors other than a provider message are not modelled.
- The clock: `new Date().toISOString()` in `saveVideo` is the parameter `now`.
- Date parsing: `publishedAt` is taken to be a UTC timestamp, whose date is the part before `T`. Time-zone conversion and the `RangeError` of an invalid date are not modelled.
- JSON text: storage holds values, not text. Text that `JSON.parse` rejects, and a value of the wrong shape under a key, are both read as `Corrupt`.
- Route.Counter: a counter is a digit string or absent. `parseInt` of other text (NaN) is not modelled. The count is an exact natural number; a JavaScript number rounds counts above 2^53.
- Duration.FormatDuration: components are exact natural numbers. A JavaScript number rounds a component above 2^53, and `String(n)` writes 1e21 and above in exponent form. `Duration.TakeComponent` and `Duration.FormatClock` share this.
- Signup.SignupPage.HandleSubmit: the random id of `Math.random().toString(36)` is the parameter `newId`. `password.length` counts characters, not UTF-16 code units.
- Auth.ValidateCredentials: the password length counts characters, not UTF-16 code units.
- Signup.FormCheck: the password length counts characters, not UTF-16 code units. `Signup.Register` shares this.
- YouTube.FetchVideoMetadata: it requires a well-formed response, meaning 2xx exactly with a record. `YouTube.GetWellFormed` proves that every response of the endpoint is one. A 2xx response with an error body, or a non-2xx one with a record, cannot come from the endpoint and is not modelled.
- Auth.GetCurrentUser: a `JSON.parse` that throws is the result `Unreadable`, not an exception.
- Duration: only the time part `PT…` is read, as the regular expression does. A day or week component makes the text hold no "PT", which gives "0:00".
- React rendering, routing (the redirect is returned as a path), the `loading` flags, `setTimeout` delays and `console.error` logging.
- The `typeof window` guards: the model assumes a browser.
- The zustand library: the session store is a plain class. Nothing rehydrates it from storage.
- The mock endpoints `src/app/api/metrics/route.ts` and `src/app/api/activity/route.ts`, and the floating-point display helpers in `src/components/VideoStats.tsx` and `src/components/SavedVideos.tsx`.
- URL encoding of the `videoId` query parameter: the endpoint receives the extracted id as it is.
- A provider item without `snippet`, `statistics` or `contentDetails`: `fetchVideoStats` would throw a TypeError, which `GET` turns into a 500 with the raw message. The `Route.Item` datatype always holds the three parts, so this path is not modelled.
- Storage.LocalStorage.SetItem: a `setItem` that throws (storage quota exceeded) is not modelled; the model's write always succeeds. In `saveVideo` (src/lib/db.ts:9-26) and `removeVideo` (src/lib/db.ts:51-58) such a throw is caught and the write dropped, so `Db.SaveVideo` and `Db.RemoveVideo` would leave storage as it was. Elsewhere the throw is not caught where it happens, and the members below do not show its outcome.
- Signup.SignupPage.HandleSubmit: a throw from the `users` write (src/app/signup/page.tsx:61), or from the `user` write inside `login` (src/store/useAuth.ts:18, called at src/app/signup/page.tsx:64), reaches the page's catch (src/app/signup/page.tsx:66-67). The page then shows "Sign up failed. Please try again." and does not redirect. In the second case `users` already holds the new account. The model always creates and redirects.
- Login.LoginPage.HandleSubmit: a throw from `login` (src/app/login/page.tsx:33) shows "Login failed. Please try again." (src/app/login/page.tsx:38-39). The model always signs in.
- AuthStore.AuthState.Login: a throw from the `user` write (src/store/useAuth.ts:18) leaves the session state unset and propagates to the caller. `AuthStore.AuthState.SetUser` (src/store/useAuth.ts:38) shares this.
