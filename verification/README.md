# Rental marketplace: request handling and form logic in Dafny

This project models the decision logic of a short-term rental marketplace: an
Express/Mongoose REST backend (listings, users, bearer-token authentication) and a
React frontend (public dashboard search bar, host console, authentication modal).
Every operation is a pure function over immutable values:

- the listing collection and the user collection are `map<Id, _>` stores, and a
  handler returns a `Step` holding the new store and the reply (status and JSON body);
- the listing schema's constraints are the predicate `ListingModel.ValidListing`;
  casting a body into a document (title trimming, defaults) is `FromBody` and
  `ApplyPatch`;
- token verification (`jwt.verify`), signing (`jwt.sign`), password hashing and
  password comparison are function parameters with no interpretation;
- the frontend handlers are transitions on records of their component state.

The model keeps the behaviour of the code as written, including these quirks, each
stated as a property:

- `createListing` builds the document but never saves it: the store never changes and
  no validator runs (`ListingController.CreateListing`).
- `getListings` computes its page and then calls `Math.cell`, which does not exist, so
  every search replies 500 (`ListingController.GetListings`). The filter and the page
  window are still modelled and proved on their own (`BuildFilter`, `Paginate`,
  `SearchPage`).
- `updateListing` stores the update but replies with the handler function itself, which
  serialises to no body (`ListingController.UpdateListing` replies `NoBody`).
- The delete confirmation's key is spelled `messgage`.
- The check-in handler's guard compares the new date with itself, so a check-out date is
  never cleared (`SearchBar.CheckInKeepsCheckOut`).
- Neither page passes `setAuthError` to the modal, so a mode change cannot clear the
  server error; `AuthForm.ChangeMode` takes that as a flag.
- A listing update may replace the listing's host, because the body is applied as is.
- The listing schema (`backend/models/ListingModel.js:30-33`) requires a url on each
  image but no image at all; only the host console's form insists on one
  (`FromBodyValidity`, `PrepareCreate`).

Modules: `Wrappers` (Option, Result), `Text` (the JavaScript string functions used),
`Seqs` (`splice(i, 1)` and `filter`), `Http` (replies), `Accounts`
(`backend/controllers/userController.js` and `backend/routes/userRoutes.js`), `Auth`
(`backend/middleware/auth.js`), `ListingModel` (`backend/models/ListingModel.js`),
`ListingController` (`backend/controllers/listingController.js`), `SearchBar`
(`Dashboard.jsx`), `HostConsole` (`HostDashboard.jsx`) and `AuthForm` (`AuthModal.jsx`).

## Model

| member | source | states |
|---|---|---|
| Text.Trim | backend/middleware/auth.js:12 | `trim` leaves no white space at either end, gives the empty string exactly when the input is all white space, and leaves a trimmed string unchanged |
| Text.TrimValue | backend/models/ListingModel.js:7 | the trimmed string is the input with a blank prefix and a blank suffix cut off; with `Trim` leaving no white space at either end this fixes the value |
| Text.TrimIdempotent | backend/models/ListingModel.js:7 | trimming a stored, already trimmed title again changes nothing |
| Text.ReplacePrefix | backend/middleware/auth.js:12 | `replace('Bearer ', '')` on a header that starts with the prefix removes exactly that prefix |
| Text.IndexOfFromFirst | backend/middleware/auth.js:12 | `replace` with a string pattern acts on the first occurrence: the search skips no earlier position holding the pattern |
| Text.ReplaceAbsent | backend/middleware/auth.js:12 | `replace` with a pattern that does not occur returns the input |
| Text.ContainsIgnoringCaseMeans | backend/controllers/listingController.js:24-25 | the case-insensitive pattern test holds exactly when the lower-cased pattern occurs at some position of the lower-cased text |
| Text.JoinSplit | frontend/src/pages/admin/dashboard/HostDashboard.jsx:979 | splitting on a character and joining back with it gives the original input |
| Text.SplitJoin | frontend/src/pages/admin/dashboard/HostDashboard.jsx:991 | pieces free of the separator are recovered exactly by splitting their join |
| Text.NatToStringRoundTrip | frontend/src/pages/admin/dashboard/Dashboard.jsx:200 | the decimal text of a count reads back as the count |
| Seqs.RemoveAt | frontend/src/pages/admin/dashboard/HostDashboard.jsx:192-193 | `splice(i, 1)` on a copy removes index i for an index in range, keeping the others in order; an index past the end changes nothing; a negative index removes the element at that offset from the end (the first one when it reaches before the start) |
| Seqs.RemoveAtLockStep | frontend/src/pages/admin/dashboard/HostDashboard.jsx:189-196 | splicing the same index from two lists of equal length keeps them equal in length and pairwise aligned |
| Seqs.Filter | frontend/src/pages/admin/dashboard/HostDashboard.jsx:356 | `filter` keeps exactly the elements that pass, with their multiplicities, in their original order |
| Seqs.FilterAll | frontend/src/pages/admin/dashboard/HostDashboard.jsx:979 | filtering with a test every element passes returns the sequence unchanged |
| Seqs.FilterMembership | frontend/src/pages/admin/dashboard/HostDashboard.jsx:143-145 | an element is in the filtered list exactly when it is in the list and passes |
| Seqs.FilterExtensional | backend/controllers/listingController.js:23-34 | two tests that agree on every element select the same listings in the same order |
| Accounts.Expose | backend/controllers/userController.js:26-27 | the user sent back keeps id, username, email and role; the reply type has no password field |
| Accounts.Register | backend/controllers/userController.js:16-22 | refused exactly when some user has the email or the username; otherwise exactly one user is added with the default role and the hashed password, nobody else changes, and uniqueness of emails and usernames is kept |
| Accounts.AddFreshKeepsWellformed | backend/controllers/userController.js:16-22 | a user stored under a fresh id with a free email and a free username keeps emails and usernames unique |
| Accounts.FindByEmail | backend/controllers/userController.js:43 | with unique emails, the lookup finds the user with that email, or reports that none has it |
| Accounts.CheckCredentials | backend/controllers/userController.js:43-51 | succeeds exactly when a user has that email and the password matches its stored hash |
| Accounts.Signup | backend/controllers/userController.js:12-37 | a taken email or username gives 400 and an unchanged store; otherwise the store is the old one plus exactly the new user (form username and email, hashed password, role "guest") under the new id, and the reply is 201 with that user without password and a token for its id; uniqueness is kept |
| Accounts.SignupRoute | backend/routes/userRoutes.js:6-24 | the mounted signup: 400 and no change for a taken email or username, otherwise the old store plus exactly the new user, and 201 with that user without password |
| Accounts.Login | backend/controllers/userController.js:39-66 | the store is unchanged; 200 exactly when a user with the email has a matching password, with that user without password and its token; every failure is the same 401 "Invalid credentials" |
| Accounts.LoginRoute | backend/routes/userRoutes.js:26-46 | the mounted login: 200 exactly for matching credentials, the same 401 otherwise, store unchanged |
| Accounts.RoutesAgreeWithController | backend/routes/userRoutes.js:15-20 | the mounted signup and login agree with the controller's in status, store and user; only the token is missing |
| Accounts.LoginFailuresIndistinguishable | backend/controllers/userController.js:43-51 | an unknown email and a wrong password for a known one give identical replies |
| Accounts.BecomeHost | backend/controllers/userController.js:68-91 | a missing user gives 404 and no change; otherwise that user's role becomes "host", no other user changes, and uniqueness is kept |
| Accounts.BecomeHostOnlyRole | backend/controllers/userController.js:77-78 | the upgrade keeps the user's username, email and password |
| Accounts.BecomeHostIdempotent | backend/controllers/userController.js:77-78 | upgrading twice is the same as upgrading once, in store and reply |
| Accounts.GetProfile | backend/controllers/userController.js:93-101 | 200 with the user without password, or with null for an unknown id |
| Accounts.ProfileHidesPasswords | backend/controllers/userController.js:95 | the profile reply does not change when any stored password changes |
| Auth.BearerToken | backend/middleware/auth.js:6-16 | a token is found exactly when the header starts with "Bearer " and the rest is not blank; it is that rest trimmed, never empty |
| Auth.BearerRoundTrip | backend/middleware/auth.js:8-16 | "Bearer " followed by a non-empty trimmed token yields that token |
| Auth.Admit | backend/middleware/auth.js:18-38 | with a token in hand: `next()` exactly for a verified token whose user exists, with that user minus password; 401 "Invalid token" exactly for a malformed token or a missing user; 401 "Token expired" exactly for an expired one; 500 exactly for other failures |
| Auth.Authenticate | backend/middleware/auth.js:4-39 | no usable token gives 401 "Access denied, No token provided"; `next` is reached exactly for a verified token whose user exists, with that user minus password; 401 "Invalid token" exactly for a malformed token or a verified one whose user is gone; 401 "Token expired" exactly for an expired one; 500 exactly for other verification errors |
| Auth.Authorize | backend/middleware/auth.js:41-54 | 401 without a user, 403 with the list of roles when the role is not allowed, and passes exactly when the role is in the allowed list |
| Auth.Protect | backend/middleware/auth.js:4-54 | `authenticate` then `authorize(...roles)`: an authentication refusal is passed on unchanged; the request passes exactly when authentication passes and the user's role is allowed, with the same user |
| Auth.ProtectedRoute | backend/middleware/auth.js:21-26 | behind a successful authentication the role gate passes exactly when the stored user's role is allowed and otherwise gives 403, never 401 |
| Auth.AuthorizeMonotone | backend/middleware/auth.js:47 | allowing more roles never refuses a user a smaller list let through |
| ListingModel.CastTitle | backend/models/ListingModel.js:4-9 | the stored title is the given one trimmed, as `Text.TrimValue` describes: no white space at either end, no longer, and empty exactly when the given one is blank |
| ListingModel.CastWindowsDefaults | backend/models/ListingModel.js:59-63 | each cast availability window keeps its dates, and is unavailable exactly when the body says `available: false`; it defaults to available |
| ListingModel.FromBody | backend/controllers/listingController.js:5-10 | the built document's host is the given id whatever the body says; the title is the given one trimmed; description, price, property type and counts are stored as given; address, amenities, images, rules and availability windows are stored as given (windows cast) and default to empty when absent |
| ListingModel.FromBodyValidity | backend/models/ListingModel.js:3-67 | a built document satisfies the schema exactly when the body supplies a non-blank title of at most 100 characters after trimming, a description of at most 1000, all five address parts, price and counts within their minimums, a known property type and a url on each image; no image is required |
| ListingModel.CreateIsPatchOfEmpty | backend/controllers/listingController.js:5-10 | building a document from a body is patching an empty document with the caller as host: create and update cast a body alike |
| ListingModel.ApplyPatch | backend/controllers/listingController.js:80-84 | for every field, a value the body supplies is stored (a title trimmed, windows cast, an address as a whole) and an absent field keeps its stored value; the host is among the fields a body may replace |
| ListingModel.ValidListing | backend/models/ListingModel.js:3-67 | the schema's validators together: a non-empty title of at most 100 characters, a non-empty description of at most 1000, all five address parts, price and bedroom and bathroom counts at least 0, at least one guest, a url on each image, a listed property type |
| ListingModel.PatchValid | backend/controllers/listingController.js:80-84 | the update validators: only the paths the body sets are checked, each against its schema validator (`PatchValidity` ties this to `ValidListing`) |
| ListingModel.PatchValidity | backend/controllers/listingController.js:80-84 | for a valid stored listing, validating only the updated paths decides exactly whether the updated listing is valid |
| ListingController.CreateListing | backend/controllers/listingController.js:3-17 | the store never changes; the reply is 201 with exactly the document `FromBody` builds from the body with the caller as host, so every supplied field is sent back (the title trimmed) and the host is the caller |
| ListingController.CreateIgnoresBodyHost | backend/controllers/listingController.js:5-8 | the host named in the body has no effect on create |
| ListingController.Truthy | backend/controllers/listingController.js:24-26 | a query value is used exactly when present and not empty |
| ListingController.BuildFilter | backend/controllers/listingController.js:23-32 | city, country and type constraints appear only for non-empty values; a price object appears exactly when some bound is given and holds exactly the given bounds |
| ListingController.FilterMeansQuery | backend/controllers/listingController.js:23-34 | a listing matches the built filter exactly when it satisfies each supplied query constraint independently (case-insensitive city and country, exact type, price at least min and at most max) |
| ListingController.Paginate | backend/controllers/listingController.js:36-37 | a negative skip fails; otherwise the result is the items from `(page - 1) * limit` on, in order, and its length is what remains when the limit is 0 or at least what remains, and the limit's absolute value otherwise: a partial last page holds the rest, and past the end the page is empty |
| ListingController.SearchPage | backend/controllers/listingController.js:21-38 | the page is exactly the `Paginate` window (page 1 and limit 10 by default) of the listings, in store order, that the query asks for (`Wanted`) |
| ListingController.SearchPageSound | backend/controllers/listingController.js:21-38 | every listing on a page comes from the collection and satisfies the query, and a page holds at most `limit` listings |
| ListingController.GetListings | backend/controllers/listingController.js:19-51 | every search replies 500, because of the call to `Math.cell` |
| ListingController.GetListing | backend/controllers/listingController.js:53-66 | the stored listing with 200, or 404 "Listing not found"; `GetAfterCreate`, `GetAfterUpdate` and `GetAfterDelete` tie it to the other handlers |
| ListingController.GetAfterCreate | backend/controllers/listingController.js:3-17 | since create never saves, every fetch by id answers after a create exactly as before |
| ListingController.UpdateListing | backend/controllers/listingController.js:68-90 | 404 for a missing id and 403 for a caller neither owner nor admin, both with no change; an authorized update whose set paths fail their validators gets 400 with no change; only an authorized valid update changes the store, and then only that id, to the patched listing, with an empty reply body |
| ListingController.UpdateKeepsValid | backend/controllers/listingController.js:80-84 | an accepted update of a valid listing leaves it valid |
| ListingController.GetAfterUpdate | backend/controllers/listingController.js:68-90 | after an accepted update the listing is fetched as the patched stored listing, and every other id as before |
| ListingController.DeleteListing | backend/controllers/listingController.js:92-109 | 404 and 403 leave the store unchanged; the store changes exactly for an owner or admin, and then exactly that id is removed and every other listing is untouched |
| ListingController.GetAfterDelete | backend/controllers/listingController.js:92-109 | after an accepted delete the id is fetched as 404, every other id as before; a refused delete changes no fetch |
| ListingController.SameGuard | backend/controllers/listingController.js:76-78 | update and delete refuse with 403 for the same callers, and never refuse an admin |
| ListingController.MayModify | backend/controllers/listingController.js:76-78 | the owner-or-admin rule: the caller's id is the listing's host, or the caller's role is "admin" |
| SearchBar.ChangeCount | frontend/src/pages/admin/dashboard/Dashboard.jsx:181-190 | "increase" adds exactly one to the named counter; anything else subtracts one from a positive count and leaves 0 at 0 (`Math.max(0, n - 1)`); the other counter is unchanged |
| SearchBar.TotalGuests | frontend/src/pages/admin/dashboard/Dashboard.jsx:192-194 | the number of guests is adults plus children |
| SearchBar.GuestsText | frontend/src/pages/admin/dashboard/Dashboard.jsx:196-201 | "Add Guests" for no guests, "1 guest" for one, otherwise the decimal total and " guests" |
| SearchBar.GuestsTextShowsCount | frontend/src/pages/admin/dashboard/Dashboard.jsx:192-200 | for two or more guests the text begins with digits that read back as adults plus children |
| SearchBar.DropdownsExclusive | frontend/src/pages/admin/dashboard/Dashboard.jsx:171-179 | opening either dropdown closes the other and leaves the calendars as they were |
| SearchBar.CalendarsExclusive | frontend/src/pages/admin/dashboard/Dashboard.jsx:244-255 | opening either calendar closes the other calendar and both dropdowns |
| SearchBar.CheckInKeepsCheckOut | frontend/src/pages/admin/dashboard/Dashboard.jsx:257-264 | choosing a check-in date sets it and closes its calendar but never clears the check-out date |
| SearchBar.Step | frontend/src/pages/admin/dashboard/Dashboard.jsx:166-269 | one handler per event; its effects are stated by `DropdownsExclusive`, `CalendarsExclusive`, `CheckInKeepsCheckOut` and `StepCoherent` |
| SearchBar.StepCoherent | frontend/src/pages/admin/dashboard/Dashboard.jsx:166-269 | every handler keeps the dropdowns exclusive, the calendars exclusive and both counters non-negative |
| SearchBar.RunCoherent | frontend/src/pages/admin/dashboard/Dashboard.jsx:166-269 | any sequence of user actions keeps those three facts |
| SearchBar.InitialCoherent | frontend/src/pages/admin/dashboard/Dashboard.jsx:75-78 | the initial bar has both counters at zero, nothing open, and shows "Add Guests" |
| HostConsole.ImagesOf | frontend/src/pages/admin/dashboard/HostDashboard.jsx:257-260 | one image record per uploaded preview, in order, with the preview as url and the file name as caption |
| HostConsole.RequiredFilled | frontend/src/pages/admin/dashboard/HostDashboard.jsx:245-250 | title, description, price, street, city and country are non-empty; state and zip code are not required |
| HostConsole.PrepareCreate | frontend/src/pages/admin/dashboard/HostDashboard.jsx:245-276 | refused with the required-fields alert when title, description, price, street, city or country is empty (state and zip code are not checked), then refused when no image was uploaded; otherwise the request carries the form, the user as host, and exactly `ImagesOf` the uploads: the previews in upload order, each captioned with its file name |
| HostConsole.AfterCreate | frontend/src/pages/admin/dashboard/HostDashboard.jsx:293-323 | on success the created listing is appended and the form and both image lists are reset; on failure nothing changes (`AfterCreateResets` gives the consequence) |
| HostConsole.AfterCreateResets | frontend/src/pages/admin/dashboard/HostDashboard.jsx:245-323 | after a successful create the reset form is refused with "Please fill in all required fields" before anything is sent; after a failed one the same request is prepared again |
| HostConsole.RemoveImage | frontend/src/pages/admin/dashboard/HostDashboard.jsx:189-196 | both image lists lose the same index, so equal lengths stay equal; form and listings are untouched |
| HostConsole.RemoveImageKeepsPairs | frontend/src/pages/admin/dashboard/HostDashboard.jsx:189-196 | the preview and file pairs that remain are the old pairs with the one at the index removed |
| HostConsole.DeleteReservation | frontend/src/pages/admin/dashboard/HostDashboard.jsx:338-342 | the reservation at the index is removed and the others keep their order |
| HostConsole.AfterDeleteListing | frontend/src/pages/admin/dashboard/HostDashboard.jsx:355-358 | after a successful delete exactly the listings with a different id remain, in order, with their multiplicities; otherwise nothing changes |
| HostConsole.Trims | frontend/src/pages/admin/dashboard/HostDashboard.jsx:979 | every piece trimmed, position by position |
| HostConsole.CleanMembership | frontend/src/pages/admin/dashboard/HostDashboard.jsx:979 | a string is among the parsed items exactly when it is non-empty and the trim of some piece |
| HostConsole.CleanItems | frontend/src/pages/admin/dashboard/HostDashboard.jsx:979 | every parsed item is non-empty and trimmed |
| HostConsole.CleanOrder | frontend/src/pages/admin/dashboard/HostDashboard.jsx:979 | the kept items are the non-empty trimmed pieces in their order, each as often as it occurs among the trimmed pieces |
| HostConsole.CleanKeeps | frontend/src/pages/admin/dashboard/HostDashboard.jsx:979 | every piece that is not blank is kept, trimmed |
| HostConsole.CleanAvoids | frontend/src/pages/admin/dashboard/HostDashboard.jsx:979 | pieces free of a character give items free of it |
| HostConsole.TrimsOfTrimmed | frontend/src/pages/admin/dashboard/HostDashboard.jsx:979 | trimming already trimmed pieces changes nothing |
| HostConsole.CleanOfClean | frontend/src/pages/admin/dashboard/HostDashboard.jsx:979 | items already non-empty and trimmed are kept as they are |
| HostConsole.TrimInside | frontend/src/pages/admin/dashboard/HostDashboard.jsx:979 | trimming never introduces a separator |
| HostConsole.ParseList | frontend/src/pages/admin/dashboard/HostDashboard.jsx:979 | the items are the trimmed pieces of the input split at the separator with the empty ones dropped, in order and with duplicates kept (a subsequence with the same count of each non-empty string); a string is an item exactly when it is such a piece; items are trimmed and free of the separator |
| HostConsole.ParseAmenities | frontend/src/pages/admin/dashboard/HostDashboard.jsx:979 | the amenities: the non-empty trimmed comma-separated pieces, in order, duplicates kept; items are trimmed and free of commas |
| HostConsole.ParseRules | frontend/src/pages/admin/dashboard/HostDashboard.jsx:991 | the house rules: the non-empty trimmed lines, in order, duplicates kept; rules are trimmed and free of line breaks |
| HostConsole.ParseListOfJoin | frontend/src/pages/admin/dashboard/HostDashboard.jsx:991 | clean items joined with the separator parse back to the same items |
| HostConsole.HostedBy | frontend/src/pages/admin/dashboard/HostDashboard.jsx:143-145 | a fetched listing belongs to the user when its host is the user's id or a populated host document with that id |
| HostConsole.HostListings | frontend/src/pages/admin/dashboard/HostDashboard.jsx:143-145 | exactly the fetched listings whose host id or populated host's id is the user's, in fetched order |
| HostConsole.Preview | frontend/src/pages/admin/dashboard/HostDashboard.jsx:660-662 | a description over 100 characters shows its first 100 and "..."; a missing or empty one shows "No description"; any other is shown whole |
| AuthForm.ValidatePassword | frontend/src/pages/auth/AuthModal.jsx:55-62 | fails exactly in signup mode for a password under 6 characters, setting that message; otherwise clears the local error; nothing else changes |
| AuthForm.InputChange | frontend/src/pages/auth/AuthModal.jsx:45-53 | the edited field takes the value and the other two fields are kept; a password edit sets or clears the local error by the length rule; other edits keep it |
| AuthForm.Submit | frontend/src/pages/auth/AuthModal.jsx:64-78 | ignored exactly while loading; in signup a blank username is refused with "Username is required", and otherwise a password under 6 characters is refused with the password message; the fields reach `onAuthSubmit` exactly when not loading and, in signup, the username is not blank and the password has 6 characters |
| AuthForm.Settle | frontend/src/pages/auth/AuthModal.jsx:76-83 | loading ends whether the promise of `onAuthSubmit` resolved or was rejected; the fields are cleared only when it resolved |
| AuthForm.ChangeMode | frontend/src/pages/auth/AuthModal.jsx:39-43 | a mode change empties all three fields and the local error; the server error is cleared only if the parent gave the callback |
| AuthForm.ShownError | frontend/src/pages/auth/AuthModal.jsx:110-111 | the server error is shown in preference to the local one; nothing is shown when both are empty (`ModeChangeKeepsServerError` and `ServerErrorPersists` give the consequences) |
| AuthForm.ModeChangeKeepsServerError | frontend/src/pages/auth/AuthModal.jsx:39-43 | without `setAuthError` a mode change leaves a server error shown over the emptied form; with it nothing is shown afterwards |
| AuthForm.ServerErrorPersists | frontend/src/pages/auth/AuthModal.jsx:39-111 | once the parent reports an error it stays the shown message through every edit, submit and mode change that cannot clear it, hiding the local checks' messages; in the running page a sent submit is followed by the parent's `setAuthError("")` (`frontend/src/pages/admin/dashboard/Dashboard.jsx:99`), which clears it |
| AuthForm.SubmitDisabled | frontend/src/pages/auth/AuthModal.jsx:155-161 | the button is disabled while loading, for a blank username in signup mode, an empty email or password, or a pending local error |
| AuthForm.ActConsistent | frontend/src/pages/auth/AuthModal.jsx:45-84 | every action keeps a short signup password paired with a local error |
| AuthForm.ReplayConsistent | frontend/src/pages/auth/AuthModal.jsx:39-84 | every modal reached from a fresh one has that property |
| AuthForm.ReplayFrom | frontend/src/pages/auth/AuthModal.jsx:39-84 | the property survives any sequence of actions |
| AuthForm.Act | frontend/src/pages/auth/AuthModal.jsx:39-84 | one user or parent action; `ActConsistent` states what each keeps |
| AuthForm.EnabledSubmitIsSent | frontend/src/pages/auth/AuthModal.jsx:155-161 | when the button is enabled on a reachable modal, pressing it always reaches `onAuthSubmit` |
| AuthForm.LoginAcceptsAnyPassword | frontend/src/pages/auth/AuthModal.jsx:56-61 | in login mode every password passes and the local error is cleared |

## Left out

- The document store itself: `populate`, the sort by creation date, `countDocuments`,
  indexes, database and cast errors (the 500 and 400 replies they cause) are not
  modelled. `SearchPage` takes the listings already in store order.
- The user schema (`backend/models/User.js`) is not part of this model: its validators,
  the hashing hook and `comparePassword` are parameters (`hash`, `matches`), and a
  signup rejected by its validators is not modelled. Emails and usernames are assumed
  unique, as its unique indexes make them; `Login` requires unique emails for that reason.
- JWT signing and verification are parameters (`sign`, `verify`); the 7-day expiry and
  the missing-secret error are not modelled.
- `new RegExp(city, 'i')` is modelled as a case-insensitive substring test with ASCII
  case folding; regular-expression metacharacters in the query are not handled.
- Numbers: `parseInt`, `parseFloat`, NaN and floating point are left out. Prices and
  counts are integers; query bounds, page and limit arrive already parsed, and the
  create form's price stays text. The `totalPages` value is never computed by the code.
- ListingModel.PatchValidity: an address in an update body replaces the whole address
  and all five parts are validated, which is stricter than path-by-path update
  validation of a partial address.
- Mongoose's exact validation-error message text is replaced by one constant.
- Dates are abstract integers; `addDays`, the calendar bounds and date formatting are
  left out.
- I/O and environment: `fetch`, `localStorage`, `FileReader`, `window.confirm`,
  `alert`, navigation and server start-up are left out; the outcome of a request is a
  parameter (`ok`, `resolved`).
- Text.IsSpace: covers the ASCII white space and the common Unicode separators, not every
  Unicode space character `trim` removes. String lengths count characters, where
  JavaScript counts UTF-16 code units.
- `backend/routes/listings.js` (fixed-message stubs), the styled-component files, the
  theme, the footer links, routing and the static components are presentation only.
- Concurrent requests and the ordering of asynchronous React state updates are left out.
