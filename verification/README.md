# Claims portal client: the decision rules, modelled in Dafny

This project models the client of a claims portal. Providers use it to
sign up, log in with a one-time password, keep their W9 tax form current,
manage their provider numbers, and browse, filter, export and watch their
claims. Administrators use it to approve W9 forms and pending providers.

The model covers the logic inside the React components, not the rendering:
- the search, filter, sort and pagination pipeline of the claims list;
- the validation rules of the registration, login and password forms;
- the step machines of the password-recovery flow, the OTP login and the new-provider sign-up;
- how two W9 statuses are combined into one approval gate;
- the rules for adding, removing and promoting provider numbers;
- the admin status changes with their loading slots;
- the texts, colours and badges derived from all of the above.

Each component is one Dafny module. Component state is an immutable
datatype, and each handler is a pure function from the old state (plus
the server's reply, passed as a parameter) to the new state, applied as
one step to the state its button was clicked in. The
JavaScript idioms the code relies on are defined once, in `Text`:
- `||` on possibly-missing strings, truthiness, and `undefined` in a template literal;
- `trim`, ASCII `toLowerCase`, `includes`, `split` and `join`;
- `parseInt`, and `replace(/\D/g, "")`.

`Sorting` holds the stable sort that stands in for `Array.prototype.sort`
with a string comparator.

Modules:
- `Text`, `Sorting`, `Providers`, `Profile`: shared definitions.
- `ClaimsList` (TotalClaimsFound), `ClaimsInfo` (TotalClaimsInfo), `DownloadReport`, `Watchlist`, `MemberScreen`.
- `Register`, `ProviderLogin`, `ForgotPassword` (ForgotPasswordFlow), `NewProviderRegister`.
- `FirstVerification` (FirstVerificationScreen), `AccountVerification`, `W9Submission` (W9FromSubmission), `ProviderSettings`.
- `AdminValidations`, `AdminNewProviderAdd`, `AdminPasswordReset` (AdminPasswordResetModal).

## Model

| member | source | states |
|---|---|---|
| Text.OrElse | src/components/TotalClaimsInfo.jsx:224-229 | `a \|\| b` on possibly-missing strings: the first operand when it is present and non-empty, otherwise the second |
| Text.OrDefault | src/components/W9FromSubmission.jsx:56-58 | `a \|\| "default"`: the value when it is present and non-empty, otherwise the default |
| Text.Trim | src/components/TotalClaimsFound.jsx:145-149 | `trim()` removes exactly a blank prefix and a blank suffix; the result neither starts nor ends with white space |
| Text.TrimSplits | src/components/Watchlist.jsx:229 | every string is its trimmed text with white space before and after it |
| Text.TrimEmptyIffBlank | src/components/AdminNewProviderAdd.jsx:72-80 | a string trims to "" exactly when every character is white space |
| Text.TrimOfPadded | src/components/Watchlist.jsx:229 | trimming a word padded with white space on both sides gives back the word |
| Text.Lower | src/components/TotalClaimsFound.jsx:145-149 | `toLowerCase()` keeps the length and maps each character; only A-Z change, each to its lower-case letter |
| Text.LowerIdempotent | src/components/TotalClaimsFound.jsx:145-149 | lower-casing twice is the same as lower-casing once |
| Text.Includes | src/components/TotalClaimsFound.jsx:145-149 | `includes(t)` holds exactly when `t` occurs at some position |
| Text.IncludesEmpty | src/components/TotalClaimsFound.jsx:145-149 | every string includes the empty query |
| Text.Split | src/components/FirstVerificationScreen.jsx:157 | `split(sep)` gives at least one piece, no piece contains `sep`, and joining the pieces with `sep` gives back the input |
| Text.SplitJoin | src/components/FirstVerificationScreen.jsx:157 | splitting the join of pieces free of `sep` gives back the pieces |
| Text.DecimalRoundTrip | src/components/FirstVerificationScreen.jsx:214-220 | the decimal text of a number reads back as that number |
| Text.ParseInt | src/components/FirstVerificationScreen.jsx:214-220 | `parseInt(s, 10)` is NaN exactly when no digit follows the leading white space and the optional sign; otherwise it is the value of that digit run, negated after a minus |
| Text.ParseIntReadsLeadingDigits | src/components/FirstVerificationScreen.jsx:214-220 | white space, a sign, a digit run and a tail that does not start with a digit read as the run's signed value, so " 12abc" is 12 and "+007" is 7 |
| Text.ParseIntReadsDecimal | src/components/FirstVerificationScreen.jsx:214-220 | `parseInt` of a number's decimal text, signed or not, is that number |
| Text.TrimIsIncluded | src/components/Watchlist.jsx:229 | a string includes its own trimmed text |
| Text.KeepDigits | src/components/ProviderLogin.jsx:266 | `replace(/\D/g, "")` keeps only digits, drawn from the input, and leaves a digit string unchanged |
| Text.KeepDigitsConcat | src/components/ProviderLogin.jsx:266 | stripping non-digits distributes over concatenation |
| Sorting.InOrderTransitive | src/components/TotalClaimsFound.jsx:130-137 | the comparator's order is transitive in both directions |
| Sorting.SortBy | src/components/TotalClaimsFound.jsx:106-139 | the sort returns a permutation of its input, ordered by the key in the requested direction |
| Sorting.InsertKeepsTies | src/components/TotalClaimsFound.jsx:106-139 | inserting a row into sorted rows puts it before the rows with its key and keeps every key's rows in their order |
| Sorting.SortByStable | src/components/TotalClaimsFound.jsx:106-139 | the sort is stable: the rows with any one key come out in their input order |
| Sorting.Keep | src/components/TotalClaimsFound.jsx:144-162 | `filter` keeps exactly the elements satisfying the predicate, and keeps everything when all satisfy it |
| Sorting.KeepConcat | src/components/TotalClaimsFound.jsx:144-162 | `filter` keeps order and multiplicity: filtering a concatenation filters each part, in order |
| Sorting.Reverse | src/components/AdminValidations.jsx:341 | `reverse()` puts the element at `i` at position `n-1-i` |
| Sorting.ReverseFlipsOrder | src/components/AdminValidations.jsx:341 | rows sorted in one direction, reversed, are sorted in the other |
| Providers.Find | src/components/ProviderLogin.jsx:144 | `find(p)` returns an element satisfying `p`, or nothing exactly when no element does |
| Providers.FindIsFirst | src/components/ProviderLogin.jsx:144 | `find(p)` returns the first element satisfying `p` |
| Providers.ApprovedOnly | src/components/ProviderSettings.jsx:84 | the approved providers are exactly the list's providers whose status is "approved" |
| Providers.ApprovedOnlyConcat | src/components/ProviderSettings.jsx:84 | filtering a concatenation filters each part, in order |
| Profile.FirstName | src/components/FirstVerificationScreen.jsx:157-158 | the first name is the first dot-piece of the local part, or "User" when that piece is empty |
| Profile.LastName | src/components/AccountVerification.jsx:32-34 | the last name is the second dot-piece of the local part, or "" when there is only one |
| Profile.NameOfDottedAddress | src/components/FirstVerificationScreen.jsx:157-159 | `first.last@domain` yields first name `first` and last name `last` |
| Profile.NameOfUndottedAddress | src/components/AccountVerification.jsx:32-34 | `local@domain` yields `local` (or "User" if empty) and no last name |
| ClaimsList.AnyKeyMatches | src/components/TotalClaimsFound.jsx:145-150 | `keys.some(...)` holds exactly when some listed column is present and matches |
| ClaimsList.FilteredData | src/components/TotalClaimsFound.jsx:143-166 | a claim is listed exactly when it was fetched, matches the search and passes the status and month filters; no data gives no rows |
| ClaimsList.FilteredDataConcat | src/components/TotalClaimsFound.jsx:143-166 | both filter stages keep fetch order: the rows of two batches are the first batch's rows followed by the second's |
| ClaimsList.NoFiltersKeepsEverything | src/components/TotalClaimsFound.jsx:153-161 | with neither filter set, the second stage keeps every search hit |
| ClaimsList.BothFiltersSelectExactly | src/components/TotalClaimsFound.jsx:153-158 | with both filters set, exactly the claims with that status and that month pass |
| ClaimsList.SearchCharacterised | src/components/TotalClaimsFound.jsx:144-151 | a claim is found exactly when one of the six columns, lower-cased and trimmed, includes the trimmed lower-cased query |
| ClaimsList.BlankQueryKeepsClaimsWithAColumn | src/components/TotalClaimsFound.jsx:144-151 | a blank query keeps exactly the claims that have one of the six columns |
| Sorting.RequestSort | src/components/TotalClaimsFound.jsx:84-90 | the clicked column becomes the key; the direction turns descending exactly when that column was already ascending (also the W9 panel's header clicks, src/components/AdminValidations.jsx:260-316) |
| Sorting.RequestSortTwiceFlips | src/components/TotalClaimsFound.jsx:84-90 | a second click on the same column always reverses the direction the first set |
| ClaimsList.SortedData | src/components/TotalClaimsFound.jsx:106-139 | without a key the rows stay as they are; with one they are a permutation ordered by that column |
| ClaimsList.Slice | src/components/TotalClaimsFound.jsx:227-235 | `slice(start, end)` clamps to the length and is empty past the end |
| ClaimsList.PageItems | src/components/TotalClaimsFound.jsx:227-235 | page `p` holds the rows `8(p-1)` onwards, at most 8 of them, full except on the last page |
| ClaimsList.TotalPages | src/components/TotalClaimsFound.jsx:227-235 | the page count is the least number of 8-row pages that holds every row |
| ClaimsList.PagesUpToIsPrefix | src/components/TotalClaimsFound.jsx:227-235 | pages 1..n read in turn are the first `8n` rows |
| ClaimsList.PagesCoverAllRows | src/components/TotalClaimsFound.jsx:227-235 | reading every page shows every sorted row exactly once, in order |
| ClaimsList.ToggleRow | src/components/TotalClaimsFound.jsx:29-34 | the clicked row's flag flips (a missing flag reads as false); no other row changes |
| ClaimsList.ToggleRowTwice | src/components/TotalClaimsFound.jsx:29-34 | toggling a row twice restores every row's flag |
| ClaimsList.RowClick | src/components/TotalClaimsFound.jsx:75-78 | clicking the open row closes it and clears the selection; clicking another opens it with its claim |
| ClaimsList.RowClickTwiceCollapses | src/components/TotalClaimsFound.jsx:75-78 | clicking a row twice leaves nothing open and nothing selected |
| ClaimsList.CurrentItems | src/components/TotalClaimsFound.jsx:143-166 | every row on screen is a fetched claim that matches the search and the filters, and there are at most 8 |
| ClaimsList.PageChange | src/components/TotalClaimsFound.jsx:633-636 | the page becomes `selected + 1` and the expanded row closes; nothing else changes |
| ClaimsList.Reset | src/components/TotalClaimsFound.jsx:240-250 | reset empties the search, filters and dates, removes the sort and returns to page 1 |
| ClaimsList.ResetShowsAllClaims | src/components/TotalClaimsFound.jsx:240-250 | after a reset every fetched claim with a searchable column is listed, in fetch order |
| ClaimsList.StatusLabel | src/components/TotalClaimsFound.jsx:195-207 | exactly the eleven known codes have a label, each three or four letters long |
| ClaimsList.StatusLabelInjective | src/components/TotalClaimsFound.jsx:195-207 | different known codes have different labels, so an exported label names its code |
| ClaimsList.ExportStatus | src/components/TotalClaimsFound.jsx:209-217 | the exported status is the code's label, else the raw code, else "-" |
| ClaimsInfo.Field | src/components/TotalClaimsInfo.jsx:204-206 | `data?.[key]` is present exactly when the record exists and has the key |
| ClaimsInfo.Merge | src/components/TotalClaimsInfo.jsx:26-29 | the merged record has the keys of both; a member field overrides a claim field with the same key |
| ClaimsInfo.MergeReadsMemberFirst | src/components/TotalClaimsInfo.jsx:26-29 | reading a merged field gives the member's value if it has one, else the claim's |
| ClaimsInfo.Persist | src/components/TotalClaimsInfo.jsx:31-38 | with both records selected, their merge is stored under the claim number's key; no other key changes |
| ClaimsInfo.StorageKeyInjective | src/components/TotalClaimsInfo.jsx:33-35 | different claim numbers get different storage keys |
| ClaimsInfo.PersistedRecordIsReadBack | src/components/TotalClaimsInfo.jsx:31-42 | the stored read for the same claim number gives back the merged record; other claim numbers are unaffected |
| ClaimsInfo.FetchClaimNo | src/components/TotalClaimsInfo.jsx:68-70 | the request uses the route's claim number when truthy, else the prop's |
| ClaimsInfo.Shown | src/components/TotalClaimsInfo.jsx:202-221 | a field shows the stored value if truthy, else the other record's if truthy, else the default |
| ClaimsInfo.ShownFallsBack | src/components/TotalClaimsInfo.jsx:202-221 | without a stored record the fallback shows; a non-empty stored value always wins |
| ClaimsInfo.SsnText | src/components/TotalClaimsInfo.jsx:222-230 | the SSN line is the member's `emssn \|\| dpdssn` directly followed by the stored record's; with only one record it is that record's SSN, or "" |
| ClaimsInfo.SsnShownTwiceWithBothRecords | src/components/TotalClaimsInfo.jsx:222-230 | a member and a stored record with the same SSN show it twice in a row |
| ClaimsInfo.FormatDob | src/components/TotalClaimsInfo.jsx:46-53 | the employee's `m-d-y` when all three parts are truthy, else the dependant's, else "" |
| ClaimsInfo.DobSplitsBack | src/components/TotalClaimsInfo.jsx:46-53 | splitting the formatted date at "-" gives back month, day and year |
| ClaimsInfo.DobText | src/components/TotalClaimsInfo.jsx:237-244 | the DOB line formats the stored record when there is one, else the member |
| ClaimsInfo.SlotValue | src/components/TotalClaimsInfo.jsx:181-196 | each diagnosis slot takes the stored code if truthy, else the claim's |
| ClaimsInfo.KeptCodes | src/components/TotalClaimsInfo.jsx:197 | the kept codes are exactly the present, non-blank ones, none of them blank |
| ClaimsInfo.KeptCodesConcat | src/components/TotalClaimsInfo.jsx:197 | the filter keeps slot order and multiplicity: it distributes over concatenation |
| ClaimsInfo.BlankSlotIsSkipped | src/components/TotalClaimsInfo.jsx:197 | a missing or blank slot contributes nothing: the codes are those of the slots without it |
| ClaimsInfo.KeptCodesEmptyIff | src/components/TotalClaimsInfo.jsx:197 | nothing is kept exactly when every present value is blank |
| ClaimsInfo.JoinCommaAppend | src/components/TotalClaimsInfo.jsx:199 | `join(", ")` of one more part appends ", " and that part |
| ClaimsInfo.JoinCommaEmptyIff | src/components/TotalClaimsInfo.jsx:199 | joining non-empty codes gives "" exactly when there are none |
| ClaimsInfo.SlotValues | src/components/TotalClaimsInfo.jsx:181-196 | the five slots' values in display order, each the stored code if truthy, else the claim's |
| ClaimsInfo.DiagnosisText | src/components/TotalClaimsInfo.jsx:180-200 | the diagnosis line is empty exactly when every slot is missing or blank |
| ClaimsInfo.DiagnosisCodeListed | src/components/TotalClaimsInfo.jsx:180-200 | a code is listed exactly when some slot shows it and it is not blank |
| ClaimsInfo.DiagnosisTextOfFullSlots | src/components/TotalClaimsInfo.jsx:180-200 | with all five slots filled, the line is the five codes in slot order, separated by ", " |
| DownloadReport.FormatDateForApi | src/components/DownloadReport.jsx:28-32 | an empty date stays empty and nothing else becomes empty |
| DownloadReport.FormatDateReorders | src/components/DownloadReport.jsx:28-32 | `y-m-d` becomes `m/d/y` |
| DownloadReport.FormatDateWithoutDashes | src/components/DownloadReport.jsx:28-32 | a date without dashes becomes `undefined/undefined/<date>` |
| DownloadReport.HandleChange | src/components/DownloadReport.jsx:101-104 | only the named filter takes the typed value |
| DownloadReport.ResetEmptiesEveryFilter | src/components/DownloadReport.jsx:184-190 | reset leaves every filter empty |
| DownloadReport.PairText | src/components/DownloadReport.jsx:46-55 | an empty filter contributes nothing to the query string |
| DownloadReport.QueryString | src/components/DownloadReport.jsx:40-55 | the query string always opens with `ssn=` |
| DownloadReport.JoinPair | src/components/DownloadReport.jsx:46-55 | adding a pair appends `&name=value` when the value is set, else nothing |
| DownloadReport.QueryStringShape | src/components/DownloadReport.jsx:40-55 | the query string is `ssn=...` followed by one `&name=value` per set filter, dates reformatted |
| DownloadReport.ResetQueryIsSsnOnly | src/components/DownloadReport.jsx:46-55 | after a reset the query string carries only the SSN |
| DownloadReport.ExportStatusLabel | src/components/DownloadReport.jsx:87-90 | exactly the codes A, D, O and R have an export label |
| DownloadReport.ExportRow | src/components/DownloadReport.jsx:69-96 | one cell per header; every cell but the status is non-empty text; the status cell is `false` exactly for an unlabelled code |
| DownloadReport.ProviderNameCell | src/components/DownloadReport.jsx:84 | the provider cell is never empty: "-" for a missing name, otherwise the trimmed name unless that is blank |
| DownloadReport.ProviderNameCellTrims | src/components/DownloadReport.jsx:84 | the provider name is exported trimmed, or "-" when blank |
| Watchlist.AddToWatchlist | src/components/Watchlist.jsx:17-51 | a missing input only sets the prompt; otherwise the post is made, and success prepends the new item and clears the inputs while failure keeps the list |
| Watchlist.AddPrependsAndKeepsTheRest | src/components/Watchlist.jsx:35-45 | a successful add puts the new item first and shifts the rest down unchanged |
| Watchlist.AddNeverLosesItems | src/components/Watchlist.jsx:17-51 | no add removes an item, and a failed add changes nothing in the list |
| Watchlist.FetchItems | src/components/Watchlist.jsx:54-69 | the fetched items replace the list; a failed fetch leaves it empty with the failure message |
| Watchlist.MessageIsGreen | src/components/Watchlist.jsx:161 | the message is green exactly when "Success" occurs in it at some position |
| Watchlist.NoCapitalSMeansRed | src/components/Watchlist.jsx:161 | a message without a capital S is drawn red |
| Watchlist.SuccessMessageIsGreen | src/components/Watchlist.jsx:161 | the success message is drawn green |
| Watchlist.FailureMessagesAreRed | src/components/Watchlist.jsx:161 | each of the three failure messages is drawn red |
| Watchlist.BadgeIsGreen | src/components/Watchlist.jsx:229 | a green badge has a status, and that status contains "ID Found" |
| Watchlist.GreenBadgeIsPadded | src/components/Watchlist.jsx:229 | a green badge's status is "ID Found" with white space around it |
| Watchlist.PaddedBadgeIsGreen | src/components/Watchlist.jsx:229 | "ID Found" with any white space around it gives a green badge |
| Watchlist.NewItemIsYellow | src/components/Watchlist.jsx:35-45 | an item just added shows a yellow badge |
| MemberScreen.ProviderNo | src/components/MemberScreen.jsx:25 | the active provider's number when truthy, else the user's |
| MemberScreen.AutoSwitch | src/components/MemberScreen.jsx:28-35 | a switch happens exactly when the active provider's W9 is not cleared and a cleared provider exists, and it goes to the first |
| MemberScreen.NoSwitchWhenCleared | src/components/MemberScreen.jsx:28-35 | an active provider with a cleared W9 is never switched away from |
| MemberScreen.SwitchSettles | src/components/MemberScreen.jsx:28-35 | after one switch to a cleared provider the effect does not switch again |
| MemberScreen.CellStatus | src/components/MemberScreen.jsx:153-213 | only the total cell clears the status filter |
| MemberScreen.CellStatusInjective | src/components/MemberScreen.jsx:153-213 | different count cells set different status filters |
| MemberScreen.ClickCell | src/components/MemberScreen.jsx:146-213 | a cell click sets its status and its table's month |
| MemberScreen.ClickedCellSelects | src/components/MemberScreen.jsx:146-213 | after a cell click, the claims list shows exactly the claims of that month and status |
| Register.Set | src/components/Register.jsx:87-89 | storing a field changes that field only |
| Register.ValidateProviderFields | src/components/Register.jsx:95-104 | the first step passes exactly when the provider number is not blank, else its one message is set |
| Register.EmailPatternShape | src/components/Register.jsx:110 | a matching e-mail has no white space and exactly one `@`, not at the start |
| Register.PatternsNotBlank | src/components/Register.jsx:108-118 | a value matching either pattern is never blank |
| Register.MatchEmail | src/components/Register.jsx:110 | the left-to-right scan accepts exactly the strings the e-mail pattern describes |
| Register.EmailCheck | src/components/Register.jsx:108-112 | the e-mail check passes exactly when the pattern matches |
| Register.PhoneCheck | src/components/Register.jsx:114-118 | the phone check passes exactly when the pattern matches |
| Register.FieldChecks | src/components/Register.jsx:105-134 | each field's check passes exactly when its pattern or rule holds |
| Register.ValidateForm | src/components/Register.jsx:105-134 | one message per failing field and none for passing ones; the form is valid exactly when there are none |
| Register.ValidFormCharacterised | src/components/Register.jsx:105-134 | the form passes exactly when e-mail and phone match and the password is at least 3 characters and confirmed |
| Register.RequiredBeforeFormat | src/components/Register.jsx:108-130 | a blank field gets the required message, and a filled but ill-formed one the format message |
| Register.PaddedPhoneFails | src/components/Register.jsx:116 | a valid phone number with a space before or after it is refused |
| Register.HandleChange | src/components/Register.jsx:87-94 | typing stores the value and blanks that field's message when it had one |
| Register.HandleChangeClearsOnlyThatField | src/components/Register.jsx:87-94 | typing adds no message and changes no other field's message |
| ProviderLogin.InitialStep | src/components/ProviderLogin.jsx:49-63 | the OTP step resumes exactly when both a token and an e-mail are stored; otherwise the session is cleared |
| ProviderLogin.LoginErrors | src/components/ProviderLogin.jsx:75-85 | the e-mail message is set exactly for a blank e-mail, the password message exactly for an empty password |
| ProviderLogin.FormValidIff | src/components/ProviderLogin.jsx:75-85 | the login form is valid exactly when the e-mail is not blank and a password is typed |
| ProviderLogin.HandleLogin | src/components/ProviderLogin.jsx:88-121 | the OTP step is reached exactly when the form is valid and the reply carries a token, which is then stored with the e-mail |
| ProviderLogin.OtpInput | src/components/ProviderLogin.jsx:263-268 | the OTP field holds only digits, at most six, and keeps digit input as typed |
| ProviderLogin.PrimaryProvider | src/components/ProviderLogin.jsx:143-144 | the chosen provider comes from the list, and there is none exactly when the list is missing or empty |
| ProviderLogin.PrimaryProviderIsFirstPrimary | src/components/ProviderLogin.jsx:144 | the first primary provider is chosen |
| ProviderLogin.PrimaryProviderDefaultsToFirst | src/components/ProviderLogin.jsx:144 | with no primary the first provider is chosen |
| ProviderLogin.ActiveProviderNo | src/components/ProviderLogin.jsx:145 | the chosen provider's number when truthy, else the user's, else "" |
| ProviderLogin.ActiveProviderId | src/components/ProviderLogin.jsx:146 | the chosen provider's id when truthy, else null |
| ProviderLogin.NoProviderNumbers | src/components/ProviderLogin.jsx:143-146 | a user without provider numbers keeps their own number and gets no active id |
| ProviderLogin.HandleVerifyOtp | src/components/ProviderLogin.jsx:124-170 | an OTP not of length 6 is refused without a request; sign-in happens exactly when the reply carries a token, then clears the OTP state and routes admins to /admin and others to /verify |
| ProviderLogin.SixDigitsPassTheLengthCheck | src/components/ProviderLogin.jsx:125-128 | six typed digits always pass the length check |
| ForgotPassword.FailureText | src/components/ForgotPasswordFlow.jsx:44-73 | a failed request shows the server's error when given, else the handler's fallback; a thrown one shows the network message |
| ForgotPassword.SendOtp | src/components/ForgotPasswordFlow.jsx:44-73 | a successful send moves to step 2 with 300 seconds on the clock; a failure keeps the step and sets the error |
| ForgotPassword.VerifyOtp | src/components/ForgotPasswordFlow.jsx:75-107 | a successful verify moves to step 3, keeps the reset token and stops the clock at 0 |
| ForgotPassword.ResetPassword | src/components/ForgotPasswordFlow.jsx:109-144 | mismatching passwords only set the error; otherwise the reply decides between step 4 and an error |
| ForgotPassword.ResetFlow | src/components/ForgotPasswordFlow.jsx:146-157 | resetting returns to step 1 with every field emptied |
| ForgotPassword.ResetFlowIsStart | src/components/ForgotPasswordFlow.jsx:146-157 | resetting from a resting state gives the initial state |
| ForgotPassword.StepOf | src/components/ForgotPasswordFlow.jsx:44-144 | each request's button belongs to one of the steps 1 to 3 |
| ForgotPassword.StepAdvancesByOne | src/components/ForgotPasswordFlow.jsx:44-144 | applied to the state its button was clicked in, a request advances exactly one step when it succeeds; otherwise the step stays and an error shows |
| ForgotPassword.ResendDuringVerifyJumpsToThree | src/components/ForgotPasswordFlow.jsx:94-98 | "Resend OTP" (lines 295-300) returns to step 1; a verify reply that lands afterwards moves the flow to step 3 with the e-mail emptied |
| ForgotPassword.StepStaysInRange | src/components/ForgotPasswordFlow.jsx:44-157 | no handler moves the step outside 1..4 |
| ForgotPassword.Tick | src/components/ForgotPasswordFlow.jsx:31-36 | the countdown decrements only a positive value |
| ForgotPassword.TicksFloorAtZero | src/components/ForgotPasswordFlow.jsx:31-36 | after n ticks from t the clock reads `max(t - n, 0)` |
| ForgotPassword.PadStart2Digits | src/components/ForgotPasswordFlow.jsx:41 | padding seconds to two digits keeps their value |
| ForgotPassword.FormatTime | src/components/ForgotPasswordFlow.jsx:38-42 | the clock text is digits, a colon, and exactly two digits |
| ForgotPassword.FormatTimeRoundTrip | src/components/ForgotPasswordFlow.jsx:38-42 | the clock text splits at ":" into minutes and two-digit seconds that add back up to the input |
| ForgotPassword.FormatTimeOfStart | src/components/ForgotPasswordFlow.jsx:38-42 | the countdown starts at "5:00" |
| ForgotPassword.SanitiseOtp | src/components/ForgotPasswordFlow.jsx:271 | the OTP field holds the first six of the typed digits |
| ForgotPassword.SanitiseOtpIdempotent | src/components/ForgotPasswordFlow.jsx:271 | sanitising a sanitised OTP changes nothing |
| ForgotPassword.SendEnabled | src/components/ForgotPasswordFlow.jsx:250 | "Send OTP" is enabled exactly when its `disabled` expression is false |
| ForgotPassword.VerifyEnabled | src/components/ForgotPasswordFlow.jsx:290 | "Verify OTP" is enabled exactly when its `disabled` expression is false |
| ForgotPassword.ResetEnabled | src/components/ForgotPasswordFlow.jsx:365 | "Reset Password" is enabled exactly when its `disabled` expression is false |
| ForgotPassword.VerifyClosesWhenTimeRunsOut | src/components/ForgotPasswordFlow.jsx:290 | once 300 seconds have passed, Verify is disabled |
| ForgotPassword.SanitisedOtpEnablesVerify | src/components/ForgotPasswordFlow.jsx:271-290 | six typed digits, time left and nothing loading enable Verify |
| ForgotPassword.SendOpensVerify | src/components/ForgotPasswordFlow.jsx:63-290 | after a successful send, a six-character OTP can be verified at once |
| NewProviderRegister.FormKeysListEveryKeyOnce | src/components/NewProviderRegister.jsx:44-48 | the form lists each of the thirteen fields once |
| NewProviderRegister.KeyNameInjective | src/components/NewProviderRegister.jsx:44-48 | different fields are sent under different names |
| NewProviderRegister.EmptyFormIsComplete | src/components/NewProviderRegister.jsx:44-48 | the initial form has a value for every field |
| NewProviderRegister.HandleChange | src/components/NewProviderRegister.jsx:32-34 | only the named field takes the typed value, and the form stays complete |
| NewProviderRegister.Payload | src/components/NewProviderRegister.jsx:44-52 | every field in order under its name with its value, then the W9 file when one was chosen |
| NewProviderRegister.PayloadSendsEachFieldOnce | src/components/NewProviderRegister.jsx:44-52 | every field is sent, and no two parts share a name |
| NewProviderRegister.Continue | src/components/NewProviderRegister.jsx:98-101 | the form's submit moves to the preview |
| NewProviderRegister.Back | src/components/NewProviderRegister.jsx:266 | "Back to Edit" returns to the form |
| NewProviderRegister.Submit | src/components/NewProviderRegister.jsx:62-70 | only an ok reply reaches the success step with its message; otherwise nothing changes |
| NewProviderRegister.StepMachine | src/components/NewProviderRegister.jsx:62-101 | going back and forth keeps the form and preview steps, and the success step is final |
| NewProviderRegister.Preview | src/components/NewProviderRegister.jsx:257-261 | one line per field, in order, with its value or "―" when it is empty |
| FirstVerification.FetchedStatus | src/components/FirstVerificationScreen.jsx:50-77 | a fetched status is the server's when truthy, otherwise "not_submitted" |
| FirstVerification.Combined | src/components/FirstVerificationScreen.jsx:91-103 | the combined status follows the priority: DB2 cleared, app decided, DB2 pending, then the app status |
| FirstVerification.IsW9Approved | src/components/FirstVerificationScreen.jsx:111 | the gate opens on exactly the statuses DB2 reports as cleared, "approved" and "W9_form_uploaded" |
| FirstVerification.ApprovedWhenDb2Recognised | src/components/FirstVerificationScreen.jsx:91-111 | when DB2 reports a known value, the gate opens exactly when DB2 is cleared or the app approved |
| FirstVerification.ApprovedExactly | src/components/FirstVerificationScreen.jsx:91-111 | the gate opens exactly when DB2 is cleared, or the app approved, or the app reports "W9_form_uploaded" while DB2 reports no pending value |
| FirstVerification.BothFetchesFailed | src/components/FirstVerificationScreen.jsx:55-111 | two failed fetches give "not_submitted" and a closed gate |
| FirstVerification.InitialSelection | src/components/FirstVerificationScreen.jsx:22-27 | an existing selection is kept; otherwise one of the approved providers is chosen |
| FirstVerification.InitialSelectionPrefersActive | src/components/FirstVerificationScreen.jsx:22-27 | without a selection, the first approved provider with the active provider's id is chosen |
| FirstVerification.InitialSelectionDefaultsToFirst | src/components/FirstVerificationScreen.jsx:22-27 | without a selection and without an approved provider with the active id, the first approved provider is chosen |
| FirstVerification.CurrentProviderNo | src/components/FirstVerificationScreen.jsx:29 | the selected provider's number, else the active one's, else the user's |
| FirstVerification.CurrentProviderNoFallsBackToUser | src/components/FirstVerificationScreen.jsx:29 | without truthy provider numbers, the user's number is used |
| FirstVerification.ProviderChange | src/components/FirstVerificationScreen.jsx:214-220 | the selection is unchanged or becomes an approved provider whose id is the parsed value |
| FirstVerification.ProviderChangeToOption | src/components/FirstVerificationScreen.jsx:214-220 | choosing an option's id selects the first approved provider with that id |
| FirstVerification.ProviderChangeIgnoresNonNumbers | src/components/FirstVerificationScreen.jsx:214-220 | a value that parses to NaN leaves the selection unchanged |
| FirstVerification.StatusLabel | src/components/FirstVerificationScreen.jsx:161-176 | each label names exactly one status, and "Not Submitted" covers exactly the statuses neither cleared nor reviewed |
| FirstVerification.StatusText | src/components/FirstVerificationScreen.jsx:178-195 | the text is empty exactly off the six known statuses, and asks for an upload exactly for the two pending ones |
| FirstVerification.StatusColor | src/components/FirstVerificationScreen.jsx:197-212 | green exactly where the gate opens, red exactly for "declined", yellow exactly for "W9_form_not_uploaded" and "in_progress", grey otherwise |
| FirstVerification.StatusDisplayAgreesWithGate | src/components/FirstVerificationScreen.jsx:161-212 | the colour is green exactly when the gate is open; the text is empty exactly for unknown statuses |
| AccountVerification.AfterFetch | src/components/AccountVerification.jsx:45-58 | a reply body sets the status, defaulting to "not_submitted"; a failure only sets the error |
| AccountVerification.FetchedStatusIsTruthy | src/components/AccountVerification.jsx:45-58 | a fetched status is never empty |
| AccountVerification.StatusLabel | src/components/AccountVerification.jsx:60-71 | each review state has its own label, and "Not Submitted" covers exactly the other statuses |
| AccountVerification.StatusText | src/components/AccountVerification.jsx:73-86 | the text is empty exactly off the three review states and "not_submitted", and asks for an upload exactly for "not_submitted" (W9FromSubmission.jsx:109-122 repeats the table) |
| AccountVerification.StatusColor | src/components/AccountVerification.jsx:88-99 | grey exactly off the review states; green, red and yellow exactly for approved, declined and in progress (W9FromSubmission.jsx:124-135 repeats the table) |
| AccountVerification.StatusDisplay | src/components/AccountVerification.jsx:60-99 | the label reads "Not Submitted", and the colour is grey, exactly when the status is not one of the three reviewed ones |
| ProviderSettings.AddProvider | src/components/ProviderSettings.jsx:31-62 | a request is made exactly for a non-blank number that DB2 knows and the portal has not registered; success clears the input |
| ProviderSettings.UnknownNumberRefused | src/components/ProviderSettings.jsx:31-62 | a number DB2 does not know is refused as invalid |
| ProviderSettings.OpenRemoveConfirm | src/components/ProviderSettings.jsx:86-93 | removal is refused exactly when the provider is the last approved one |
| ProviderSettings.Removed | src/components/ProviderSettings.jsx:95-112 | the list the server returns after the DELETE is taken to be the old list without its first entry carrying the id, or the old list when none carries it |
| ProviderSettings.HandleRemove | src/components/ProviderSettings.jsx:95-112 | a completed removal stores the refetched list and shows "Provider removed"; a thrown one keeps the list and shows the server's error, else "Failed to remove provider" |
| ProviderSettings.ApprovedCountAround | src/components/ProviderSettings.jsx:84 | the approved count splits around any position |
| ProviderSettings.AcceptedRemovalKeepsAnApproved | src/components/ProviderSettings.jsx:86-112 | a removal the guard lets through leaves at least one approved provider, whether it completes or throws |
| ProviderSettings.ShowsW9Needed | src/components/ProviderSettings.jsx:187-205 | "W9 Needed" and "Upload W9" show exactly on approved rows whose W9 status keeps the W9 gate closed |
| ProviderSettings.ShowsPrimary | src/components/ProviderSettings.jsx:181-185 | the "Primary" badge shows only on approved primary rows |
| ProviderSettings.ShowsSetPrimary | src/components/ProviderSettings.jsx:207-215 | "Set Primary" shows only on approved rows, never next to the "Primary" badge |
| ProviderSettings.ShowsRemove | src/components/ProviderSettings.jsx:216-224 | "Remove" shows only for a numeric id and never on the only approved entry |
| ProviderSettings.RowBadges | src/components/ProviderSettings.jsx:181-207 | an approved row shows exactly one of "Primary" and "Set Primary"; other rows show neither and no W9 badge |
| ProviderSettings.ShownRemoveIsAccepted | src/components/ProviderSettings.jsx:216 | a shown remove button always opens the confirmation |
| ProviderSettings.AfterSetPrimary | src/components/ProviderSettings.jsx:114-126 | the active provider stays, or becomes a primary provider of the refreshed list |
| ProviderSettings.SetPrimarySwitchesToFirstPrimary | src/components/ProviderSettings.jsx:123-124 | the first primary provider of the refreshed list becomes active |
| ProviderSettings.SetPrimaryWithoutPrimaryKeepsActive | src/components/ProviderSettings.jsx:123-124 | without a primary in the refreshed list the active provider stays |
| W9Submission.OpenDialog | src/components/W9FromSubmission.jsx:26-53 | opening the dialog starts both requests, which mark the DB2 check as running and clear the error before waiting |
| W9Submission.AfterStatusFetch | src/components/W9FromSubmission.jsx:50-65 | a reply body sets status, file URL and remark with their defaults; only a failure touches the error, setting the fetch-failure text |
| W9Submission.AfterDb2Fetch | src/components/W9FromSubmission.jsx:26-41 | the DB2 check always ends; a reply body sets the DB2 status as sent; only a failure touches the error |
| W9Submission.FetchesCommute | src/components/W9FromSubmission.jsx:26-65 | the two replies lead to the same dialog state whichever lands first |
| W9Submission.ErrorShowsIffAFetchFailed | src/components/W9FromSubmission.jsx:26-65 | after the dialog opens, an error shows exactly when either request failed, in either order of the replies |
| W9Submission.ChooseFile | src/components/W9FromSubmission.jsx:67-83 | a file is taken exactly when it is a PDF of at most 5 MB; the type check comes first |
| W9Submission.ChooseFileAccepts | src/components/W9FromSubmission.jsx:67-83 | an acceptable file is taken with its preview URL and the error cleared |
| W9Submission.ChooseFileBoundary | src/components/W9FromSubmission.jsx:69-76 | exactly 5 MB is accepted and one byte more refused; a file of the wrong type gets the type message whatever its size |
| W9Submission.Submit | src/components/W9FromSubmission.jsx:85-107 | without a file nothing happens; an upload clears the file, a failure keeps it and sets the error |
| W9Submission.FailedSubmitKeepsFile | src/components/W9FromSubmission.jsx:85-107 | a failed upload keeps the file for another try |
| W9Submission.ProgressWidth | src/components/W9FromSubmission.jsx:137-142 | the bar has a width exactly for the four known statuses; it is empty exactly before a submission and full exactly after a decision |
| W9Submission.ProgressColor | src/components/W9FromSubmission.jsx:144-149 | the bar has a colour exactly for the four known statuses, and it is green, red or amber exactly when the status text is |
| W9Submission.ProgressDefinedOnKnownStatuses | src/components/W9FromSubmission.jsx:109-150 | the bar, its colour and the status text are defined on the same four statuses |
| W9Submission.BodyAsWritten | src/components/W9FromSubmission.jsx:175-186 | the body as written: "already uploaded" whenever DB2 does not report "W9_form_uploaded" |
| W9Submission.NotUploadedIsToldUploaded | src/components/W9FromSubmission.jsx:175-186 | as written, a provider DB2 reports as not uploaded is told the form is uploaded and gets no upload area |
| W9Submission.DisplayedBody | src/components/W9FromSubmission.jsx:175-186 | while checking, the checking body shows |
| W9Submission.DisplayedBodyMatchesDb2 | src/components/W9FromSubmission.jsx:175-186 | corrected: "already uploaded" exactly when DB2 has the form, the upload area exactly when it lacks it and the app status is not approved |
| AdminValidations.FilteredList | src/components/AdminValidations.jsx:135-139 | a user is listed exactly when the e-mail or the provider number, lower-cased, includes the lower-cased query |
| AdminValidations.FilteredListConcat | src/components/AdminValidations.jsx:135-139 | the search keeps list order and multiplicity: it distributes over concatenation |
| AdminValidations.EmptyQueryKeepsUsersWithAColumn | src/components/AdminValidations.jsx:135-139 | an empty query keeps every user with an e-mail or a provider number |
| AdminValidations.ThreeClicksFromElsewhere | src/components/AdminValidations.jsx:260-316 | three clicks on a new column go ascending, descending, ascending |
| AdminValidations.SortedData | src/components/AdminValidations.jsx:143-167 | without a key the list stays as it is; with one it is a permutation ordered by that column |
| AdminValidations.DisplayedRows | src/components/AdminValidations.jsx:341 | the table shows the sorted list reversed |
| AdminValidations.DescIsReversedAsc | src/components/AdminValidations.jsx:163-165 | the descending comparison is the ascending one with its arguments swapped |
| AdminValidations.DisplayedOrderIsOpposite | src/components/AdminValidations.jsx:143-167 | because of the reversal, the rows appear in the order opposite to the chosen direction |
| AdminValidations.StatusLabel | src/components/AdminValidations.jsx:109-133 | the three known statuses get their labels |
| AdminValidations.StatusLabelDefault | src/components/AdminValidations.jsx:109-133 | every other status, missing included, reads "Not Submitted" |
| AdminValidations.StartAction | src/components/AdminValidations.jsx:47-50 | "approved" fills the approve slot, anything else the decline slot; the other slot is kept |
| AdminValidations.ApplyStatusChange | src/components/AdminValidations.jsx:62-75 | on a 200 reply the matching users take the new status; otherwise the list is unchanged |
| AdminValidations.HandleStatusChange | src/components/AdminValidations.jsx:45-91 | the whole handler leaves both loading slots empty and the list's length unchanged |
| AdminValidations.StatusChangeIdempotent | src/components/AdminValidations.jsx:62-75 | applying the same change twice equals applying it once |
| AdminValidations.ActionsOffered | src/components/AdminValidations.jsx:389 | Approve and Decline are offered exactly on the rows whose badge reads "In Progress" |
| AdminValidations.ApprovedRowOffersNoActions | src/components/AdminValidations.jsx:389 | an approved user no longer offers Approve or Decline |
| AdminValidations.DeclineRemarkCellAsWritten | src/components/AdminValidations.jsx:472 | as written, the remark cell shows "-" for every user with a status |
| AdminValidations.DeclineRemarkCell | src/components/AdminValidations.jsx:472 | corrected: the user's own remark, or "-" |
| AdminValidations.DeclineRemarkIsLost | src/components/AdminValidations.jsx:472 | a declined user's remark "blurred scan" shows as "-" as written and as the remark when corrected |
| AdminNewProviderAdd.ApproveCaption | src/components/AdminNewProviderAdd.jsx:186-188 | the caption reads "Approving..." exactly when the approve slot holds this card's id |
| AdminNewProviderAdd.StartActionAsWritten | src/components/AdminNewProviderAdd.jsx:41 | as written, the slot named by the posted action word takes the id |
| AdminNewProviderAdd.ApprovingIsNeverShown | src/components/AdminNewProviderAdd.jsx:41-188 | as written, an approve in flight fills an `approved` slot and the caption stays "Approve" |
| AdminNewProviderAdd.StartAction | src/components/AdminNewProviderAdd.jsx:41 | corrected: the slot the render reads for the action takes the id; other slots are kept |
| AdminNewProviderAdd.ApprovingIsShownWhileInFlight | src/components/AdminNewProviderAdd.jsx:41-188 | corrected: an approve in flight shows "Approving..." on its own card only |
| AdminNewProviderAdd.HandleAction | src/components/AdminNewProviderAdd.jsx:39-62 | the request carries the id, the action word and the remark; afterwards both slots are empty |
| AdminNewProviderAdd.FirstToFinishClearsTheOther | src/components/AdminNewProviderAdd.jsx:39-62 | with two approvals in flight on different cards, the first to finish empties both slots, so the other card shows "Approve" again while its request is still out |
| AdminNewProviderAdd.SlotsEmptyAfterEveryAction | src/components/AdminNewProviderAdd.jsx:59-61 | after any action both slots are null and every caption is back to "Approve" |
| AdminNewProviderAdd.OpenDeclineModal | src/components/AdminNewProviderAdd.jsx:65-69 | opening the dialog empties the remark and remembers the provider |
| AdminNewProviderAdd.ConfirmDecline | src/components/AdminNewProviderAdd.jsx:72-80 | a decline is requested exactly when the remark is not blank, for the remembered provider, and closes the dialog; a blank remark only raises the alert |
| AdminNewProviderAdd.DeclineGoesToTheOpenedProvider | src/components/AdminNewProviderAdd.jsx:65-80 | confirming at once is refused; confirming a typed remark declines exactly the provider the dialog was opened for |
| AdminNewProviderAdd.ZipText | src/components/AdminNewProviderAdd.jsx:143-147 | the ZIP line shows ZIP5, then ` - ZIP4` and ` (ZIP2)` when those are set |
| AdminNewProviderAdd.Zip2TailReadsBack | src/components/AdminNewProviderAdd.jsx:146 | the ` (ZIP2)` part reads back as the ZIP2 shown |
| AdminNewProviderAdd.Zip4TailReadsBack | src/components/AdminNewProviderAdd.jsx:145-146 | the ` - ZIP4` part reads back as the ZIP4 shown, leaving the ZIP2 part |
| AdminNewProviderAdd.ZipTextReadsBack | src/components/AdminNewProviderAdd.jsx:143-147 | for digit-only parts, reading the line back gives ZIP5 and exactly the parts shown |
| AdminNewProviderAdd.StatusColor | src/components/AdminNewProviderAdd.jsx:156-162 | green exactly for approved, red exactly for declined, yellow otherwise |
| AdminNewProviderAdd.ShowsButtons | src/components/AdminNewProviderAdd.jsx:156-180 | a card with Approve and Decline buttons is drawn yellow |
| AdminNewProviderAdd.ButtonsOnlyOnYellowCards | src/components/AdminNewProviderAdd.jsx:156-180 | cards with buttons are yellow, and decided cards have none |
| AdminPasswordReset.FailureText | src/components/AdminPasswordResetModal.jsx:53-61 | the server's `detail`, else its `message`, else a generic text; without a response, the network message |
| AdminPasswordReset.Submit | src/components/AdminPasswordResetModal.jsx:13-65 | a request is made exactly when both inputs are filled and equal; otherwise the required or mismatch message shows, in that order |
| AdminPasswordReset.ExactlyOneMessage | src/components/AdminPasswordResetModal.jsx:15-61 | every submit leaves exactly one of the error and success lines showing |
| AdminPasswordReset.RequiredCheckFirst | src/components/AdminPasswordResetModal.jsx:18-26 | two empty inputs are reported as missing, not as a match |
| AdminPasswordReset.ResubmitAfterSuccessIsRefused | src/components/AdminPasswordResetModal.jsx:47-51 | a success empties both inputs, so submitting again is refused without a request |

## Left out

- Network requests, `localStorage` and `sessionStorage` are not performed. Each reply is a parameter of the handler that receives it. Browser storage appears only where a component reads back what it wrote: the map `ClaimsInfo.Storage`.
- Navigation, toasts, `alert`, `console.log`, modals opening and closing, and building the Excel workbook are out: they show values, they do not decide them. The cell contents of an export row are modelled (`DownloadReport.ExportRow`); writing the file is not.
- Each handler is applied as one step to the state its button was clicked in. Requests that overlap are not modelled as interleavings. Two such races are stated as lemmas instead:
  - `ForgotPassword.ResendDuringVerifyJumpsToThree`: "Resend OTP" stays enabled while Verify is loading, and a verify reply that lands after it moves the flow from step 1 to step 3 with the e-mail emptied.
  - `AdminNewProviderAdd.FirstToFinishClearsTheOther`: the `finally` of whichever action finishes first empties both loading slots while another action is still in flight.
- ForgotPassword.StepAdvancesByOne: promises one step per success only for a reply applied to the state its button was clicked in (see the line above).
- ProviderSettings.Removed: the list the server returns after the DELETE is not a parameter. It is taken to be the old list without its first entry carrying the id. `ProviderSettings.HandleRemove` stores whatever list comes back, and `ProviderSettings.AcceptedRemovalKeepsAnApproved` holds under that assumption.
- Timers are left out. The countdown's effect is `ForgotPassword.Tick`, taken one firing at a time. The periodic refresh in FirstVerificationScreen.jsx:138-145 is left out.
- `URL.createObjectURL` is a parameter of `W9Submission.ChooseFile`.
- ClaimsList.SortedData: the `parseFloat` and date branches of the comparator (src/components/TotalClaimsFound.jsx:114-127) are not modelled. Rows are ordered by the string comparison of lines 130-137, taken on code points. The contract promises a permutation in that order, not the source's mixed numeric, date and string order.
- AdminValidations.SortedData: the `parseFloat` and date branches (src/components/AdminValidations.jsx:150-161) are not modelled, and `localeCompare` is taken as code-point order.
- Text.Lower: only ASCII letters are lower-cased. `toLowerCase` also maps other alphabets.
- Text.Trim: strings are sequences of code points, not UTF-16 units. The white-space set is the one `trim` uses.
- Every length is counted in code points, while JavaScript's `.length` and `maxLength` count UTF-16 units. This affects `|password| < 3` (Register.ValidateForm), `|otp| == 6` (ForgotPassword.VerifyEnabled, ProviderLogin.HandleVerifyOtp) and the six-character limit (ProviderLogin.OtpInput). The three agree on text without characters outside the Basic Multilingual Plane.
- Text.ParseInt: `parseInt("-0")` is `-0` in JavaScript; the model has no negative zero and reads it as 0.
- Fields the server sends as numbers are modelled as their decimal text, the way `toString()` shows them.
- DownloadReport.ExportRow: a numeric 0 (or NaN) is falsy for `||`, but its text "0" is truthy in the model. For a claim whose `CHMM$` or `BHCAMT` is 0, DownloadReport.jsx:91-92 exports "$0.00" where the model exports "$0"; a `CHCLM$` of 0 exports "$-" where the model exports "$0". The same gap applies to every `||` or `?:` fallback on a field that may arrive as a number: `ClaimsInfo.Shown`, `MemberScreen.ProviderNo`, `ProviderLogin.ActiveProviderNo`, `FirstVerification.CurrentProviderNo` and `AdminNewProviderAdd.ZipText`. They agree with the source whenever such a field is not 0 or NaN.
- `watchlistItems?.reverse()` in src/components/Watchlist.jsx:217 reverses the state array in place on every render. The stored list therefore flips with each render, and the list a successful add prepends to is in an order that depends on how many renders came before. The model keeps the list in the order it was fetched and added to: `Watchlist.AddToWatchlist` and its lemmas state that unmutated order.
- ProviderLogin.OtpInput requires at most six typed characters. That is what the input's `maxLength="6"` lets through, so longer input is not modelled.
- The IP-address lookup and the field-change handler of ProviderLogin.jsx are left out. They store values that no rule here reads.
- Register.jsx:138-213 (the registration requests) is left out. It sends the validated form and reports the reply.
- AdminNewProviderAdd.jsx:22-36 (`fetchPending`) only stores the fetched list (`pending_providers || []`).
- TotalClaimsInfo.jsx:79-110 (the Excel download) is left out because it does floating-point subtraction.
- TotalClaimsTable, ViewEOBDownload, LoginLogsTable, MemberScreenNavbar, ProviderSwitcher and LoadingMessage only lay out values computed elsewhere.
- AdminValidations.StartAction: DeclineRemarkModal.jsx:10 calls `onDecline(remark)` with the remark alone, and AdminValidations.jsx:487-489 forwards its arguments as `handleStatusChange(userId, status, remark)`. So the page's W9 decline posts the remark text as `user_id`, with no `status` and an empty `decline_remark`. The decline slot then holds the remark, and a 200 reply changes no row. `AdminValidations.StartAction`, `AdminValidations.ApplyStatusChange` and `AdminValidations.HandleStatusChange` with "declined" describe the handler as called with a user id and a status, which only the approve buttons do. The modal itself is not modelled.
- W9Submission.DisplayedBody: its contract only fixes the checking case. The lemma `W9Submission.DisplayedBodyMatchesDb2` states the rest.

## Findings

| source | as written | input that shows it | evidently intended | confidence | as-written member | corrected member |
|---|---|---|---|---|---|---|
| src/components/AdminValidations.jsx:472 | the decline-remark cell reads `user.status.decline_remark`, a field of the status string, which never exists | a declined user whose `decline_remark` is "blurred scan" | show `user.decline_remark`, or "-" | high; not executed | AdminValidations.DeclineRemarkCellAsWritten (with AdminValidations.DeclineRemarkIsLost) | AdminValidations.DeclineRemarkCell |
| src/components/W9FromSubmission.jsx:175-186 | the "already uploaded" message shows whenever DB2 does not report "W9_form_uploaded" | DB2 status "W9_form_not_uploaded": the provider is told the form is already uploaded and gets no upload area | "already uploaded" exactly when DB2 reports "W9_form_uploaded" | medium; not executed | W9Submission.BodyAsWritten (with W9Submission.NotUploadedIsToldUploaded) | W9Submission.DisplayedBody (with W9Submission.DisplayedBodyMatchesDb2) |
| src/components/AdminNewProviderAdd.jsx:41 | the busy slot is keyed by the posted word (`approved`), but the caption at line 186 reads the `approve` slot | an approve click on provider 5: the caption stays "Approve" while the request is in flight | the `approve` slot takes the id, so "Approving..." shows | high; not executed | AdminNewProviderAdd.StartActionAsWritten (with AdminNewProviderAdd.ApprovingIsNeverShown) | AdminNewProviderAdd.StartAction (with AdminNewProviderAdd.ApprovingIsShownWhileInFlight) |
