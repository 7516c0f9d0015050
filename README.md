# CTF-Dashboard core, modelled in Dafny

CTF-Dashboard is a capture-the-flag training platform: a Flask backend with challenges, answer checking and scoring, per-user progress, password resets, file attachments and a hardened first-admin setup, and a React frontend whose forms validate input before calling it. This project models the deterministic core of both halves and proves what they promise.

- **Leaderboard timeline.** The backend groups a challenge's submissions into per-user blocks: a start entry, then numbered attempts with running correct points (`ChallengeTimeline`). The chart turns that log into one row per step, carrying each user's last value forward (`LeaderboardChart`). Lemmas tie the two together.
- **Answer checking and scoring.** Structured questions in single-key and all-questions modes, the legacy fallback, the points formula with hint penalty and speed bonus, the completion rule behind the 409 reply, and hint dispensing (`ChallengeScoring`).
- **Domain rows.**
  - The `UserProgress` state machine (`ProgressModel`).
  - User statistics, rankings and `to_dict` (`UserModel`).
  - Challenge defaults and `to_dict` (`ChallengeModel`).
  - Single-use reset tokens (`PasswordResetModel`).
- **Routes.** Check order and replies of `auth`, `admin`, `password_reset`, `progress` and `files` (`AuthRoutes`, `AdminRoutes`, `ResetRoutes`, `ProgressRoutes`, `FileRoutes`), and the attachment migration script (`FixAttachments`).
- **Admin-setup security.** The IP allow-list and flag parsing (`SecurityConfig`). The sliding-window limiters over the in-memory store, the password, agent, referer, CSRF and input screens, and the gate order of both decorators (`SetupSecurity`).
- **Frontend reducers and validators.**
  - The create and edit challenge modals (`ChallengeForm`, `CreateChallengeModal`, `EditChallengeModal`).
  - The question derivation and answer handling of the challenge page (`ChallengeDetail`).
  - The admin list filters (`UserManagementModal`, `ChallengeManagementModal`).
  - The login, setup, user-creation and password-reset forms (`FormValidation`, `AuthPage`, `AdminSetupPage`, `CreateUserModal`, `ResetPasswordPage`, `ForgotPasswordPage`).

`Wrappers`, `Strings`, `Sequences` and `Json` are shared helpers:
- ASCII whitespace and case;
- Python's `split`, `strip` and `str(int)`;
- order-preserving filters;
- JSON values, with objects as ordered key/value lists where a later key wins.

The database, the clock, password hashing, random tokens, `secure_filename`, Python's `re` and `json` calls become parameters or inputs. A table is a sequence of row objects. Where the source mutates rows in place, the model has a `class` whose methods state the new state against a pure function of the old one. Routes that only decide return a reply datatype. Errors that the source lets escape as exceptions (a `KeyError`, an `AttributeError` on a non-dict body, a `TypeError` from `len` or from the hashing library on a password that is not a string, a list bound as a query parameter) appear as explicit `Raised` or `None` results, or as the route's own 500 reply where a route catches them. The hashing parameters therefore only ever see strings.

## Model

| member | source | states |
|---|---|---|
| AdminRoutes.RequireAdmin | backend/routes/admin.py:15-26 | the request passes exactly when the caller's row exists and is an administrator; otherwise the reply is 403 `Admin privileges required` |
| AdminRoutes.AdminExists | backend/routes/admin.py:28-39 | true exactly when some user row is an administrator (the `admin_exists` / `setup_required` pair) |
| AdminRoutes.SetupAdmin | backend/routes/admin.py:41-94 | refused with 400 once an administrator exists; an accepted account is an administrator and verified, has the five required fields, and holds the text of the body's e-mail and username, neither of them registered; a list or dict e-mail answers 500 before the username is looked up |
| AdminRoutes.SetupAdminAccepts | backend/routes/admin.py:41-94 | a setup request is accepted exactly when no administrator exists, the five required fields are given, name and e-mail are scalars (a number or boolean counts as its text), the password is a string, the other columns can be written, and neither the e-mail's nor the username's text is registered |
| AdminRoutes.SetupUnbindableEmailFails | backend/routes/admin.py:56-58 | an e-mail that cannot be bound fails its lookup with 500, even when the username is taken |
| AdminRoutes.InsertAccount | backend/routes/admin.py:66-81 | the table grows by one fresh row holding the account's columns, the hashed password and `is_active` |
| AdminRoutes.SetupAdminRoute | backend/routes/admin.py:41-94 | a refusal returns its reply and leaves the table; an acceptance answers 201 and appends one fresh row holding every column of the accepted account (username and e-mail as text, the names and bio, the hash of the password), active, verified and an administrator, so that `AdminExists` becomes true |
| AdminRoutes.SetupOnce | backend/routes/admin.py:45-47 | with an administrator present every setup request is refused with `Admin account already exists` |
| AdminRoutes.CreateUser | backend/routes/admin.py:386-440 | an accepted account has the three required fields, a free e-mail and username text, a string e-mail matching the format and a password of at least 6 characters, and stores the username as its text; it is unverified and its role is `is_admin` as the strict Boolean column reads it |
| AdminRoutes.CreateUserAccepts | backend/routes/admin.py:386-440 | a request is accepted exactly when the three required fields are given, the e-mail and password as strings and the username as a scalar, neither the e-mail nor the username's text is registered, the e-mail matches the format, the password has 6 characters or more, the text columns can be written and the role is one the Boolean column holds |
| AdminRoutes.StrictBool | backend/models/user.py:20 | the Boolean column holds a boolean as itself, 0 and 1 as false and true, and null as its default false, and refuses every other value |
| AdminRoutes.StringRoleRefused | backend/routes/admin.py:424-440 | a role given as a string, even `"true"`, creates no account |
| AdminRoutes.EmailTakenFirst | backend/routes/admin.py:400-402 | a registered e-mail is the reply whatever the e-mail format check would say |
| AdminRoutes.UnbindableUsernameFails | backend/routes/admin.py:400-405 | with the e-mail free, a list or dict username fails its lookup with 500, whatever the format and the password |
| AdminRoutes.NumericUsernameStored | backend/routes/admin.py:418-420 | a number accepted as the username is stored as its decimal text |
| AdminRoutes.ShortPasswordLast | backend/routes/admin.py:413-415 | with a bindable username, the names free and a well-formed e-mail, a password under 6 characters is refused with its message |
| AdminRoutes.CreateUserRoute | backend/routes/admin.py:386-440 | a refusal, a role the Boolean column refuses or an unbindable lookup included, leaves the table; an acceptance answers 201 and appends one fresh active, unverified row holding every column of the accepted account: the username's text, the e-mail, the names and bio, the hash of the password and the role the column reads |
| AdminRoutes.ToggleUserActive | backend/routes/admin.py:442-469 | only `is_active` and `updated_at` of the named row may change; 404 without a user; 403 and neither changes for another administrator; otherwise `is_active` flips, `updated_at` is the clock and the message names the new state |
| AdminRoutes.ToggleUserAdmin | backend/routes/admin.py:471-500 | only `is_admin` and `updated_at` of the named row may change; 404 without a user; 403 and neither changes when an administrator would demote themself; otherwise `is_admin` flips, `updated_at` is the clock and the message names the new state |
| AdminRoutes.CreateCategory | backend/routes/admin.py:155-188 | a category is created exactly when the body is an object with a truthy, bindable name whose text no category has and bindable description, icon and colour; it holds that name as text, the id and no published challenges; 409 exactly when the name's text is already taken |
| AdminRoutes.CategoryDefaults | backend/routes/admin.py:171-176 | description, icon and colour default to `''`, `folder` and `#3B82F6` |
| AdminRoutes.NumericNameDuplicate | backend/routes/admin.py:167-169 | the number 7 as a name is a duplicate of the stored name "7": 409 |
| AdminRoutes.QuestionProblem | backend/routes/admin.py:205-212 | no error exactly when every question from position `i` is complete; otherwise the error is that of the first incomplete one, by its 1-based number |
| AdminRoutes.QuestionProblemAt | backend/routes/admin.py:207-212 | the loop stops at the first incomplete question and reports it |
| AdminRoutes.NewChallengeColumns | backend/routes/admin.py:219-246 | the new row keeps the body's `questions` (default `[]`) and any `is_published` that is not null; the publishing flags and points are never null |
| AdminRoutes.Inserted | backend/models/challenge.py:48-66 | a column with a default holds the given value unless it is null, and is null only when the default is |
| AdminRoutes.NullsTakeDefaults | backend/models/challenge.py:48-66 | an explicit null `points`, `is_published` or `is_featured` inserts 100, false and false |
| AdminRoutes.CreateChallenge | backend/routes/admin.py:190-252 | an accepted challenge has every required field, only complete questions and a category its id names under integer affinity, its columns are those the body gives, and every column can hold its value |
| AdminRoutes.CreateChallengeAccepts | backend/routes/admin.py:190-252 | a challenge is accepted exactly when the six required fields are given, every question of a non-empty list has its text and answer, the category id names a category, and every column can hold its value (JSON columns anything, Boolean columns what `StrictBool` accepts, the others a bindable scalar) |
| AdminRoutes.CategoryIdSpellings | backend/routes/admin.py:214-217 | a category is found by its id as a number, as decimal text, and id 1 also by `true` |
| AdminRoutes.TextPublishFlagRefused | backend/routes/admin.py:241-252 | a text `is_published`, even "yes", creates no challenge |
| AdminRoutes.PublishColumn | backend/routes/admin.py:242 | a text publishing flag reaches the new row, where the Boolean column cannot hold it |
| AdminRoutes.ListTitleFails | backend/routes/admin.py:219-252 | a list title passes the required-field check and then fails the commit with 500 |
| AdminRoutes.TitleColumn | backend/routes/admin.py:219-221 | a list title leaves a column of the new row that cannot be written |
| AdminRoutes.FirstBadQuestionReported | backend/routes/admin.py:205-217 | an incomplete question is reported by its position before the category is looked at |
| AdminRoutes.CreateChallengeRoute | backend/routes/admin.py:190-261 | a refusal, a column that cannot hold its value included, is returned as is; an accepted challenge is a fresh row with those columns, created by the caller, with a publish date exactly when it is published |
| AdminRoutes.CopyColumns | backend/routes/admin.py:284-286 | every listed column the body carries is copied and every other column keeps its value |
| AdminRoutes.UpdateChallenge | backend/routes/admin.py:263-302 | 404 without a row; 500 and no change for a body that is not an object, or that sets a whitelisted column to a value it cannot hold or a NOT NULL column to null; otherwise only the whitelisted columns are overwritten, the publish date is set on first publishing and `updated_at` is the clock |
| AdminRoutes.UnlistedKeysWritable | backend/routes/admin.py:284-286 | keys outside the whitelist are ignored and never make the commit fail |
| AdminRoutes.ProtectedColumns | backend/routes/admin.py:276-282 | questions, author, series, suggested tools and operating system are not in the update whitelist |
| AdminRoutes.QuestionsAuthorNotUpdatable | backend/routes/admin.py:276-282 | questions and author are not in the update whitelist |
| AdminRoutes.SeriesToolsNotUpdatable | backend/routes/admin.py:276-282 | series and suggested tools are not in the update whitelist |
| AdminRoutes.SystemNotUpdatable | backend/routes/admin.py:276-282 | the operating system is not in the update whitelist |
| AdminRoutes.SubmissionCount | backend/routes/admin.py:314-316 | at most the number of submissions, and zero exactly when none is for the challenge |
| AdminRoutes.ChallengeById | backend/routes/admin.py:310-312 | a found row is in the table with that id; `None` only when no row has it |
| AdminRoutes.Without | backend/routes/admin.py:321-322 | the table minus the row: nothing else is lost and nothing is added |
| AdminRoutes.DeleteChallenge | backend/routes/admin.py:304-328 | 200 exactly when the row exists and has no submissions, and then only that row is removed; otherwise the table is unchanged, with the 400 message counting the submissions |
| AdminRoutes.CategorySuccessRate | backend/routes/admin.py:502-515 | 0 without attempts, otherwise successes over attempts times 100 (before rounding) |
| AdminRoutes.SumsOrdered | backend/routes/admin.py:507-509 | summed counters keep successes between 0 and attempts |
| AdminRoutes.CategoryRateBounds | backend/routes/admin.py:502-515 | the category rate is between 0 and 100 |
| AdminSetupPage.Expected | frontend/src/pages/AdminSetup.jsx:56-89 | each field has an error exactly when its rule fails (trimmed names, anchored e-mail pattern, 6-character password, matching confirmation), with the missing-value message before the malformed one; the bio never has one |
| AdminSetupPage.ExpectedEmptyIff | frontend/src/pages/AdminSetup.jsx:56-92 | no error is recorded exactly when the form satisfies the validation rule |
| AdminSetupPage.ValidateForm | frontend/src/pages/AdminSetup.jsx:56-92 | the errors built block by block are the expected ones, and the result is true exactly when the form is valid |
| AdminSetupPage.ValidEmailIsTrimmed | frontend/src/pages/AdminSetup.jsx:64-68 | an e-mail that passes the anchored pattern has no surrounding whitespace |
| AdminSetupPage.HandleInputChange | frontend/src/pages/AdminSetup.jsx:40-54 | the named field takes the value and its error is cleared; every other field and error is unchanged |
| AdminSetupPage.Payload | frontend/src/pages/AdminSetup.jsx:104 | the posted data carries every field but the confirmation |
| AdminSetupPage.PayloadDropsOnlyConfirmation | frontend/src/pages/AdminSetup.jsx:104 | two forms post the same data exactly when they differ at most in the confirmation |
| AdminSetupPage.FailureMessage | frontend/src/pages/AdminSetup.jsx:115 | the server's non-empty message, otherwise the default; never empty |
| AuthPage.Expected | frontend/src/pages/Auth.jsx:34-63 | each field has an error exactly when its rule fails in the current mode (username and confirmation only when registering, the 6-character minimum only when registering), with the missing-value message first |
| AuthPage.ExpectedEmptyIff | frontend/src/pages/Auth.jsx:34-66 | no error is recorded exactly when the form is valid for the mode |
| AuthPage.ValidateForm | frontend/src/pages/Auth.jsx:34-67 | the errors filled block by block are the expected ones; the result is true exactly when the form is valid |
| AuthPage.LoginIgnoresRegisterFields | frontend/src/pages/Auth.jsx:37-63 | a login form is valid exactly when the e-mail matches and a password is typed, whatever username and confirmation it holds |
| AuthPage.RegisterIsStricter | frontend/src/pages/Auth.jsx:34-63 | a form valid for registering is valid for logging in |
| AuthPage.HandleChange | frontend/src/pages/Auth.jsx:19-32 | the typed field takes the value and its error is cleared; the mode and every other field and error are unchanged |
| AuthPage.ToggleMode | frontend/src/pages/Auth.jsx:100-109 | the mode flips, every field is emptied and every error is dropped |
| AuthPage.ToggleTwice | frontend/src/pages/Auth.jsx:100-109 | toggling twice restores the mode and otherwise equals one toggle |
| AuthPage.SubmitRequest | frontend/src/pages/Auth.jsx:69-82 | no request for an invalid form; a login request with e-mail and password, or a register request with username, e-mail and password |
| AuthPage.Submit | frontend/src/pages/Auth.jsx:69-82 | the errors shown are the validator's and a request goes out exactly when there are none |
| AuthPage.RegisterRequestShape | frontend/src/pages/Auth.jsx:53-82 | a register request carries a password of at least 6 characters equal to the confirmation |
| AuthPage.AfterResult | frontend/src/pages/Auth.jsx:84-97 | a successful registration switches to login keeping only the e-mail; any other result changes nothing |
| AuthPage.RegisteredCanLogIn | frontend/src/pages/Auth.jsx:84-97 | after a valid registration, typing any password makes the login form valid |
| AuthRoutes.Register | backend/routes/auth.py:13-50 | an accepted registration has a stripped username of at least 3 characters, a password of at least 6, and a username and e-mail no row holds |
| AuthRoutes.RegisterChecked | backend/routes/auth.py:29-50 | an accepted registration carries the normalised username and e-mail it was given, with the length and uniqueness rules met |
| AuthRoutes.RegisterCheckedAccepts | backend/routes/auth.py:29-50 | after normalisation a registration is accepted exactly when the username has 3 characters or more, the password is a string of 6 or more, both names are free and the optional names are strings |
| AuthRoutes.RegisterAccepts | backend/routes/auth.py:13-50 | a registration is accepted exactly when the three required fields are strings, the stripped username has 3 characters or more, the password 6 or more, neither the username nor the normalised e-mail is taken, and the optional names are strings |
| AuthRoutes.RequiredPresent | backend/routes/auth.py:19-23 | no field of three is missing exactly when all three are truthy |
| AuthRoutes.RegisterNormalises | backend/routes/auth.py:25-27 | the stored username is the stripped one and the stored e-mail the stripped, lower-cased one |
| AuthRoutes.LengthsBeforeDuplicates | backend/routes/auth.py:29-41 | a short username is refused before the table is consulted, whatever the table holds |
| AuthRoutes.RegisterNamesMissing | backend/routes/auth.py:19-23 | a missing username is refused with `username is required` |
| AuthRoutes.RegisterRoute | backend/routes/auth.py:13-66 | a refusal leaves the table; an acceptance answers 201 and appends one fresh active, non-admin row with the normalised names and the hashed password |
| AuthRoutes.NewRow | backend/routes/auth.py:44-50 | the new row holds the registration's names, the hash, stripped first and last names, no admin role and the active flag |
| AuthRoutes.Login | backend/routes/auth.py:68-103 | a login succeeds only for an active row of the table whose hash accepts the password, which is a string |
| AuthRoutes.LoginAccepts | backend/routes/auth.py:68-88 | a login succeeds exactly when the e-mail is a string naming an active row and the password a non-empty string that row's hash accepts; the user logged in is that row |
| AuthRoutes.LoginDoesNotLeak | backend/routes/auth.py:80-87 | for a string e-mail and password, an unknown e-mail and a wrong password give the same 401 reply; the deactivated reply comes only after the password matched |
| AuthRoutes.NonStringPasswordRevealsAccount | backend/routes/auth.py:80-103 | a truthy password that is not a string gets the 500 `Login failed` for a registered address and the 401 for an unknown one |
| AuthRoutes.LoginRoute | backend/routes/auth.py:68-103 | only `last_login` may change; a refusal is the reply; a success answers 200 and sets that user's `last_login` to the clock, and every other user's stays |
| AuthRoutes.GetProfile | backend/routes/auth.py:105-119 | 200 exactly when the row exists, otherwise 404 `User not found` |
| AuthRoutes.ValidateToken | backend/routes/auth.py:200-217 | 200 exactly when the row exists and is active, otherwise 401 |
| AuthRoutes.ProfileReply | backend/routes/auth.py:121-163 | the reply is 200, 400, 409 or the 500; a success on a dict had bindable profile values and a string username; 400 only for a string username too short once stripped; 409 only when the profile values are bindable and another row holds the stripped name |
| AuthRoutes.ProfileAccepts | backend/routes/auth.py:131-163 | the update succeeds exactly for a dict whose profile values can be bound and whose username, if given, is a string, long enough once stripped and free or the caller's own, or for a non-dict body in which none of the five names is found |
| AuthRoutes.UnbindableProfileValueFails | backend/routes/auth.py:135-163 | a list or dict in a profile column answers the 500, unless a short username is refused first |
| AuthRoutes.NonDictBodies | backend/routes/auth.py:131-138 | null and a number raise at `in`, a list holding "username" and a string containing "bio" raise at indexing, and an empty list commits |
| AuthRoutes.KeepOwnUsername | backend/routes/auth.py:146-151 | resubmitting one's own username with storable profile values is accepted |
| AuthRoutes.SetProfileField | backend/routes/auth.py:138 | the named profile column takes the value and the other three keep theirs |
| AuthRoutes.Committed | backend/routes/auth.py:135-138 | a profile column the body names holds the text of the body's value as stored, null staying null; one it does not name keeps its value |
| AuthRoutes.CopyProfileFields | backend/routes/auth.py:135-138 | each of the four profile columns takes the stored form of the body's value when present and keeps its own otherwise |
| AuthRoutes.UpdateProfile | backend/routes/auth.py:121-163 | the reply is `ProfileReply`'s; on success the profile columns of a dict body are committed, the username becomes the stripped value and `updated_at` the clock; any refusal leaves the stored row as it was |
| AuthRoutes.ApplyProfile | backend/routes/auth.py:135-153 | the committed writes: the columns and stripped username of a dict body, and the clock |
| AuthRoutes.ChangePassword | backend/routes/auth.py:165-198 | a success needs a string current password that the stored hash accepts and a string new password of at least 6 characters |
| AuthRoutes.ChangePasswordAccepts | backend/routes/auth.py:177-193 | the change succeeds exactly when the current password is a non-empty string the stored hash accepts and the new one a string of 6 or more characters |
| AuthRoutes.WrongCurrentFirst | backend/routes/auth.py:181-183 | with both fields given, a wrong current password is refused with 401 before the new one's length is looked at |
| AuthRoutes.NonStringCurrentFails | backend/routes/auth.py:181-198 | a current password that is not a string ends in the 500 reply, before the new one is looked at |
| AuthRoutes.ChangePasswordRoute | backend/routes/auth.py:165-198 | the reply is the validation's, 500 for a current password that is not a string; on success the hash becomes that of the new password and `updated_at` the clock; otherwise neither changes |
| ChallengeDetail.QuestionKey | frontend/src/pages/ChallengeDetail.jsx:230 | a structured question's key is `question_` followed by its id |
| ChallengeDetail.FromStored | frontend/src/pages/ChallengeDetail.jsx:229-237 | a stored question is shown under its id's key and number, with its answer format or `text`, its points or 0 and its hints or none |
| ChallengeDetail.SingleAnswer | frontend/src/pages/ChallengeDetail.jsx:260-269 | the fallback is one question keyed `answer`, numbered 1, with no hints |
| ChallengeDetail.GetQuestions | frontend/src/pages/ChallengeDetail.jsx:226-272 | the list is never empty: the stored questions one for one when there are any, otherwise the questions parsed from non-empty instructions when that yields any, otherwise the single-answer fallback |
| ChallengeDetail.StructuredKeysDistinct | frontend/src/pages/ChallengeDetail.jsx:228-237 | stored questions with distinct ids are shown under distinct keys |
| ChallengeDetail.AnswerChange | frontend/src/pages/ChallengeDetail.jsx:115-120 | the edited key takes the new value; every other answer is unchanged |
| ChallengeDetail.ToggleHint | frontend/src/pages/ChallengeDetail.jsx:122-127 | the toggled question's hints flip between shown and hidden; every other question's stay as they were |
| ChallengeDetail.ToggleTwice | frontend/src/pages/ChallengeDetail.jsx:122-127 | toggling the same question twice restores what every question shows |
| ChallengeDetail.SubmitPayload | frontend/src/pages/ChallengeDetail.jsx:129-141 | nothing is sent exactly when the answer is missing or blank after trimming; otherwise the payload names the question and carries the trimmed answer as a one-entry object under that key, which the page sends as JSON text |
| ChallengeDetail.PayloadTrimmed | frontend/src/pages/ChallengeDetail.jsx:130-141 | the answer sent is the trimmed answer, and trimming it again changes nothing |
| ChallengeDetail.WrongAnswerNeedsAllBefore | frontend/src/pages/ChallengeDetail.jsx:158-161 | after a wrong answer the all-correct test holds exactly when every question was already answered correctly |
| ChallengeDetail.LastAnswerSolves | frontend/src/pages/ChallengeDetail.jsx:158-163 | after a correct answer the challenge counts as solved exactly when every other question was already answered correctly |
| ChallengeDetail.RequestHint | frontend/src/pages/ChallengeDetail.jsx:181-191 | a used hint is not requested and changes nothing; a new one is recorded exactly when the server accepts `useHint`, and a rejected call leaves the list unchanged |
| ChallengeDetail.RequestHintIdempotent | frontend/src/pages/ChallengeDetail.jsx:181-191 | once a hint is recorded, asking again changes nothing whatever the server answers, and a request adds at most one entry |
| ChallengeDetail.ToolIcon | frontend/src/pages/ChallengeDetail.jsx:275-285 | a tool whose lower-cased name is in the icon table gets that icon; any other gets the wrench |
| ChallengeDetail.ToolIconIgnoresCase | frontend/src/pages/ChallengeDetail.jsx:283 | the icon does not depend on the letter case of the tool's name |
| ChallengeForm.BlankQuestion | frontend/src/components/CreateChallengeModal.jsx:181-188 | a new question starts with the given id, one empty hint, 10 points and the `text` format |
| ChallengeForm.BlankForm | frontend/src/components/CreateChallengeModal.jsx:11-36 | the blank form has one empty hint, one empty tool, question 1, 100 points, the given category, published and not featured |
| ChallengeForm.ApplyEdit | frontend/src/components/CreateChallengeModal.jsx:202-207 | an edit changes the one named field of the question; its id and hints are kept |
| ChallengeForm.NonBlankIsTrim | frontend/src/components/CreateChallengeModal.jsx:261-268 | a string counts as non-blank exactly when its trim is not empty |
| ChallengeForm.Cleaned | frontend/src/components/CreateChallengeModal.jsx:261-262 | the cleaned list is an in-order sublist of the input holding only non-blank entries, and it keeps every non-blank entry |
| ChallengeForm.MaxId | frontend/src/components/CreateChallengeModal.jsx:180 | the result is at least every question's id and is the id of some question |
| ChallengeForm.AppendFresh | frontend/src/components/CreateChallengeModal.jsx:179-193 | appending a question whose id is above every existing id keeps the ids distinct |
| FormValidation.Cleared | frontend/src/pages/Auth.jsx:25-31 | afterwards the entry is not set; it stays present exactly when it was present, and an entry that was not set is left alone |
| FormValidation.ClearedIdempotent | frontend/src/pages/Auth.jsx:25-31 | clearing an error twice is the same as clearing it once |
| FormValidation.Rule | frontend/src/components/CreateUserModal.jsx:42-46 | a field has no message exactly when neither check fails, and the missing-value message wins over the malformed one |
| FormValidation.StrictIsLoose | frontend/src/pages/AdminSetup.jsx:66 | every address the anchored pattern accepts, the unanchored one accepts too |
| FormValidation.LooseAcceptsDoubleAt | frontend/src/components/CreateUserModal.jsx:44 | `a@@b.c` passes the unanchored pattern and fails the anchored one |
| FormValidation.EmailIsNonBlank | frontend/src/pages/Auth.jsx:45-49 | an address either pattern accepts is not blank, so the required-field check never fires for it |
| FormValidation.StrictIsTrimmed | frontend/src/pages/ForgotPassword.jsx:23 | an address the anchored pattern accepts equals its own trim |
| FormValidation.ServerMessage | frontend/src/pages/AdminSetup.jsx:115 | the server's message when it sent a non-empty one, and otherwise the fallback |
| ChallengeManagementModal.Filtered | frontend/src/components/ChallengeManagementModal.jsx:91-102 | the list shown is an in-order sublist of the loaded challenges, each shown one passes all three filters, and every loaded challenge that passes them is shown |
| ChallengeManagementModal.FilteredIff | frontend/src/components/ChallengeManagementModal.jsx:91-102 | a challenge is shown exactly when it is loaded and matches the case-insensitive search, the status filter and the difficulty filter |
| ChallengeManagementModal.EmptySearchListsAll | frontend/src/components/ChallengeManagementModal.jsx:91-99 | with an empty search and both filters on `all`, every loaded challenge is shown in order |
| ChallengeManagementModal.StatusesPartition | frontend/src/components/ChallengeManagementModal.jsx:95-97 | under `all` a challenge is shown exactly when it is shown under `published` or `unpublished`, and never under both |
| ChallengeManagementModal.ConfirmMentionsAttempts | frontend/src/components/ChallengeManagementModal.jsx:48-50 | a challenge with attempts gets the warning that names its submission count; only one without attempts gets the plain question; both name the title |
| ChallengeManagementModal.WarningMessage | frontend/src/components/ChallengeManagementModal.jsx:49 | the warning starts with the quoted title, not with the plain question, and names the title and the count |
| ChallengeManagementModal.PlainMessage | frontend/src/components/ChallengeManagementModal.jsx:50 | the plain message starts with the question and names the title |
| ChallengeManagementModal.ConfirmMessage | frontend/src/components/ChallengeManagementModal.jsx:48-50 | the delete confirmation names the submissions when the challenge has any, otherwise just the title |
| ChallengeModel.CategoryDict | backend/models/challenge.py:20-28 | a category's dict has its six keys in order, with the count of its published challenges as `challenge_count` |
| ChallengeModel.OrEmptyList | backend/models/challenge.py:96-121 | a truthy column is returned as it is; an unset or empty one becomes `[]` |
| ChallengeModel.CalculateSuccessRate | backend/models/challenge.py:132-136 | 0 with no attempts; otherwise the rate times the attempts is the successes times 100 |
| ChallengeModel.SuccessRatesAgree | backend/models/challenge.py:115-136 | the rate `to_dict` reports and `calculate_success_rate` agree when there has been an attempt, and with no attempts when there are no successes either |
| ChallengeModel.SuccessRatesDiffer | backend/models/challenge.py:115-136 | with no attempts but a non-zero success counter, `to_dict` reports the successes times 100 while `calculate_success_rate` reports 0 |
| ChallengeModel.SuccessRateBounds | backend/models/challenge.py:115-136 | when the successes are between 0 and the attempts, both rates lie between 0 and 100 |
| ChallengeModel.Challenge.constructor | backend/models/challenge.py:30-80 | a new row holds the given columns, and otherwise the column defaults: 100 points, unpublished, not featured, no attempts, no publish date |
| ChallengeModel.Challenge.SetColumn | backend/routes/admin.py:284-286 | the named column takes the value; every other column is unchanged |
| ChallengeModel.Challenge.ToDict | backend/models/challenge.py:88-130 | the dict has the public keys in order, without `success_rate`, then the sensitive ones exactly when asked for, each with its column's value (lists defaulting to `[]`, the category's own dict) |
| ChallengeModel.HintsAnswerNotPublic | backend/models/challenge.py:90-128 | `hints` and `correct_answer` are not among the public keys |
| ChallengeModel.RegexImageNotPublic | backend/models/challenge.py:90-128 | `validation_regex` and `docker_image` are not among the public keys |
| ChallengeModel.PublishedNotPublic | backend/models/challenge.py:90-128 | `is_published` is not among the public keys |
| ChallengeModel.AuthorUpdateNotPublic | backend/models/challenge.py:90-128 | `created_by` and `updated_at` are not among the public keys |
| ChallengeModel.KeySetsDisjoint | backend/models/challenge.py:90-128 | no sensitive key is a public one |
| ChallengeModel.ToDictHidesSensitive | backend/models/challenge.py:119-128 | a sensitive key is in the dict exactly when sensitive output was asked for |
| ChallengeModel.ToDictGet | backend/models/challenge.py:88-130 | looking up any key of the dict gives that key's entry |
| ChallengeModel.ToDictListDefaults | backend/models/challenge.py:96-105 | `questions`, `file_attachments` and `suggested_tools` are reported as their columns, or `[]` when unset or empty |
| ChallengeModel.ToDictSensitiveValues | backend/models/challenge.py:121-122 | with sensitive output, `hints` is the column or `[]` and `correct_answer` is the column |
| ChallengeScoring.QuestionKey | backend/routes/challenges.py:557 | a question has a key exactly when it is a dict with an `id`, and the key starts with `question_` |
| ChallengeScoring.CheckQuestion | backend/routes/challenges.py:561-578 | checking a question yields a verdict exactly when the submitted answer, the stored answer and the answer format are all strings; otherwise the comparison raises |
| ChallengeScoring.FindQuestion | backend/routes/challenges.py:555-559 | a found question is the first in the list with the wanted key, and every earlier one has some other key; not found means every question has a key and none is the wanted one; a search error means a question without a key comes before any match |
| ChallengeScoring.FindQuestionLoop | backend/routes/challenges.py:555-559 | the search loop returns what the first-match search over the whole list defines |
| ChallengeScoring.QuestionStep | backend/routes/challenges.py:583-608 | one round of the all-questions loop never decides "correct" on its own: it either goes on or stops with a failure, a raise or the legacy fallback |
| ChallengeScoring.PassesMeans | backend/routes/challenges.py:584-603 | a question passes exactly when its key is among the answers, it has a correct answer, and its check says true |
| ChallengeScoring.AllQuestionsIff | backend/routes/challenges.py:581-610 | with a dict of answers, all-questions mode says correct exactly when every question passes |
| ChallengeScoring.PassesCons | backend/routes/challenges.py:583-608 | every question passes exactly when the first one does and every later one does |
| ChallengeScoring.AllQuestionsLoop | backend/routes/challenges.py:582-610 | the `all_correct` loop returns what the all-questions definition gives for the whole list |
| ChallengeScoring.StructuredLoop | backend/routes/challenges.py:545-614 | the structured attempt decodes the answers, picks single-key mode when the question key is given and present and all-questions mode otherwise, and returns exactly what the structured definition gives |
| ChallengeScoring.ValidateAnswer | backend/routes/challenges.py:527-651 | the verdict, or the exception, is the one `validate_answer` defines: structured mode for a non-empty question list, legacy mode when that falls through |
| ChallengeScoring.LegacyCheck | backend/routes/challenges.py:618-627 | without a stored correct answer the legacy check says false |
| ChallengeScoring.LegacyCompare | backend/routes/challenges.py:618-651 | without a stored correct answer the comparison says false, whatever the answer type |
| ChallengeScoring.LegacyWhen | backend/routes/challenges.py:544-616 | legacy validation decides when the question list is not a non-empty list, and also when the given key is present but names no question with a correct answer |
| ChallengeScoring.SingleKeyDecides | backend/routes/challenges.py:553-578 | in single-key mode the found question's check alone is the verdict |
| ChallengeScoring.TextFormatsIgnoreCase | backend/routes/challenges.py:568-578 | every format except `number` compares case-insensitively |
| ChallengeScoring.FormatAcceptsOwnAnswer | backend/routes/challenges.py:568-578 | every format accepts the stored answer itself, unless the format is `number` and the answer parses as NaN |
| ChallengeScoring.NaNAnswerMatchesNothing | backend/routes/challenges.py:572-576 | a stored `number` answer that parses as NaN matches no submitted answer, since NaN equals nothing |
| ChallengeScoring.LegacyAcceptsOwnAnswer | backend/routes/challenges.py:618-651 | legacy validation accepts the stored answer itself, unless a text challenge hands the decision to its regex |
| ChallengeScoring.LegacyIgnoresPadding | backend/routes/challenges.py:623-627 | whitespace around a submitted answer never changes the legacy verdict, the regex match included |
| ChallengeScoring.Trunc | backend/routes/challenges.py:277 | Python's `int()` on a float truncates toward zero |
| ChallengeScoring.PointsAwarded | backend/routes/challenges.py:270-271 | a wrong answer is awarded 0 points |
| ChallengeScoring.HintPenaltyBounds | backend/routes/challenges.py:272-277 | with hints the award lies between half the points and the full points and loses at most 30%; without hints it is the full points; a small penalty takes 10 points per hint, down to half the points |
| ChallengeScoring.SpeedBonusRule | backend/routes/challenges.py:279-281 | the 20% bonus (truncated) applies exactly when the time is within half the limit; it never lowers the award, and the award never exceeds the points plus a fifth |
| ChallengeScoring.CompletionRules | backend/routes/challenges.py:223-244 | a challenge the 409 rule calls complete also counts as fully completed; undecodable data gives no 409 yet counts as fully completed |
| ChallengeScoring.DictSizeBounds | backend/routes/challenges.py:233 | the number of answers in a dict is at most its number of entries, and equal when the keys are distinct |
| ChallengeScoring.CompletedWhenAllAnswered | backend/routes/challenges.py:231-236 | a dict with at least as many distinct keys as questions counts as all answered |
| ChallengeScoring.CompletionOfDict | backend/routes/challenges.py:231-236 | for a dict of answers and a list of questions, all answered means the dict's size reaches the number of questions (1 when there are none) |
| ChallengeScoring.NoQuestionsAnyAnswer | backend/routes/challenges.py:232-233 | without questions, any earlier answer that is neither a dict nor a string counts as complete |
| ChallengeScoring.Merge | backend/routes/challenges.py:294-295 | the merged answers hold every key of either dict, and a key the new answers give takes their value |
| ChallengeScoring.NextHint | backend/routes/challenges.py:436-471 | a hint is handed out exactly when there are hints, a progress record, no correct submission and unused hints; it is the next unused one, numbered from 1, with the remaining count after it |
| ChallengeScoring.HintsInOrder | backend/routes/challenges.py:459-464 | asking k times from a fresh record hands out the first k hints in order, and asking once more after all are used is refused with 404 |
| ChallengeScoring.GetHint | backend/routes/challenges.py:436-471 | the outcome is the one the hint rules define; a hint handed out counts one more hint on the progress record, and a refusal leaves the record unchanged |
| ChallengeScoring.Validate | backend/routes/challenges.py:527-651 | `validate_answer`: structured mode for a non-empty question list, the legacy comparison when that falls through, `Raised` for what escapes |
| ChallengeScoring.StructuredCheck | backend/routes/challenges.py:545-614 | the `try` block of structured mode: decode the answers, then single-key mode when the question key is given and present, all-questions mode otherwise; a decoding failure falls back to legacy |
| ChallengeScoring.SingleKey | backend/routes/challenges.py:553-578 | single-key mode: the question with the key decides through its own check; no such question with an answer falls back to legacy |
| ChallengeScoring.AllQuestions | backend/routes/challenges.py:581-610 | all-questions mode: every question in order must have its answer among the submitted ones and pass its check; the first failure decides |
| ChallengeScoring.FormatMatch | backend/routes/challenges.py:568-578 | the comparison by `answer_format`: `number` compares the parsed floats, where NaN equals nothing, and the text when either side does not parse; every other format ignores case |
| ChallengeScoring.CompletionOf | backend/routes/challenges.py:223-244 | the completion rule: the number of stored answers (1 unless a dict) against the number of questions (1 without questions); complete when it is at least that, and a parse error when decoding or counting fails |
| ChallengeScoring.HintAdjusted | backend/routes/challenges.py:272-277 | the points after the hint penalty: 10 per hint used, at most 30% of the points, truncated as Python's `int()` does, and never below half the points |
| ChallengeScoring.HintAvailable | backend/routes/challenges.py:410-413 | a wrong answer offers a hint exactly when hints exist and some are still unused |
| ChallengeTimeline.UserIds | backend/routes/challenges.py:777-778 | one user id per submission row, in row order |
| ChallengeTimeline.FirstRowOf | backend/routes/challenges.py:780-785 | the row that created a user's group is one of the user's rows |
| ChallengeTimeline.Progressions | backend/routes/challenges.py:776-791 | there is a group exactly for each user with a submission |
| ChallengeTimeline.NoAttemptsWithoutRows | backend/routes/challenges.py:776-791 | a user without rows has no attempts |
| ChallengeTimeline.ProgressionsContent | backend/routes/challenges.py:780-791 | a user's group holds all of that user's attempts in time order, under the name and avatar of the user's first row |
| ChallengeTimeline.GroupStep | backend/routes/challenges.py:777-791 | one row either appends to its user's existing group or opens a new group, adding the user to the first-seen order |
| ChallengeTimeline.GroupByUser | backend/routes/challenges.py:776-791 | the grouping loop yields the first-seen user order and the groups that the grouping definition gives |
| ChallengeTimeline.BlockPrefix | backend/routes/challenges.py:814-829 | after k submissions a user's block has k + 1 entries |
| ChallengeTimeline.Block | backend/routes/challenges.py:797-829 | a user's block has one entry more than the user has submissions |
| ChallengeTimeline.AppendUserEntries | backend/routes/challenges.py:799-829 | the inner loop appends exactly the user's block to the timeline |
| ChallengeTimeline.BlocksStep | backend/routes/challenges.py:797-829 | taking one more user in order appends that user's block, numbered by its position |
| ChallengeTimeline.EmitBlocks | backend/routes/challenges.py:794-829 | the outer loop yields every user's block in first-seen order, users numbered from 1 |
| ChallengeTimeline.BuildTimeline | backend/routes/challenges.py:775-829 | the two passes yield exactly the timeline the definition gives |
| ChallengeTimeline.BlockPrefixAt | backend/routes/challenges.py:802-829 | entry 0 of a block is the start entry and entry m is the m-th submission's |
| ChallengeTimeline.BlockShape | backend/routes/challenges.py:802-829 | a block opens with a start entry at submission 0 with 0 points; every entry carries the user, its user index and name, and is numbered by its position; later entries are not starts and carry their submission's points and correctness |
| ChallengeTimeline.BlockCumulative | backend/routes/challenges.py:799-824 | cumulative points start at 0, grow by a submission's points only when it is correct, and end at the sum of the correct submissions' points |
| ChallengeTimeline.CorrectPointsMonotone | backend/routes/challenges.py:815-816 | with non-negative points the sum of correct points never decreases as submissions are added |
| ChallengeTimeline.BlockNonDecreasing | backend/routes/challenges.py:814-824 | with non-negative points the cumulative points within a block never decrease |
| ChallengeTimeline.BlocksLength | backend/routes/challenges.py:797-829 | the timeline has one start per user plus one entry per attempt |
| ChallengeTimeline.AttemptTotalAppend | backend/routes/challenges.py:787-791 | one more row adds one attempt exactly when its user is among the ones counted |
| ChallengeTimeline.AttemptTotalCoversRows | backend/routes/challenges.py:776-791 | every row is counted as an attempt of exactly one user |
| ChallengeTimeline.TimelineLength | backend/routes/challenges.py:775-829 | the timeline has as many entries as users plus rows |
| ChallengeTimeline.BlocksUserIndex | backend/routes/challenges.py:797-811 | every entry's user index lies between 1 and the number of users and names its own user's position |
| ChallengeTimeline.TimelineUserIndex | backend/routes/challenges.py:797-811 | every timeline entry's user index names that entry's user in first-seen order |
| ChallengeTimeline.EntriesOfConcat | backend/routes/challenges.py:797-829 | the entries of one user in two joined timelines are that user's entries of each, joined |
| ChallengeTimeline.EntriesOfUniform | backend/routes/challenges.py:797-829 | a timeline part holding only one user's entries is all of that user's entries |
| ChallengeTimeline.EntriesOfNone | backend/routes/challenges.py:797-829 | a timeline part without a user's entries contributes none of them |
| ChallengeTimeline.EntriesOfLastBlock | backend/routes/challenges.py:797-829 | appending a block adds entries for a user exactly when it is that user's block |
| ChallengeTimeline.EntriesOfBlocks | backend/routes/challenges.py:797-829 | a user outside the order has no entries; a user in it has exactly its own block, numbered by its position |
| ChallengeTimeline.TimelineEntriesOf | backend/routes/challenges.py:775-829 | every submitting user's entries in the timeline are exactly that user's block, contiguous and in order |
| ChallengeTimeline.UserIndex | backend/routes/challenges.py:795-798 | a submitting user's index lies between 1 and the number of users and names that user in first-seen order |
| ChallengeTimeline.Position | backend/routes/challenges.py:795-798 | the position of a user in the order is its first occurrence, counted from 1 |
| ChallengeTimeline.Timeline | backend/routes/challenges.py:775-829 | the timeline of the leaderboard: per user in order of first submission, a start entry and then the numbered attempts with running correct points |
| ChallengeTimeline.UserOrder | backend/routes/challenges.py:776-791 | the key order of `user_progressions`: each user once, by first submission |
| ChallengeTimeline.AttemptsOf | backend/routes/challenges.py:780-791 | one user's submissions, in the order of the query |
| CreateChallengeModal.SetHint | frontend/src/components/CreateChallengeModal.jsx:144-148 | the hint at the index takes the value; every other hint and every other field is unchanged |
| CreateChallengeModal.AddHint | frontend/src/components/CreateChallengeModal.jsx:150-155 | one empty hint is appended; nothing else changes |
| CreateChallengeModal.RemoveHint | frontend/src/components/CreateChallengeModal.jsx:157-162 | the last remaining hint is never removed; otherwise the hint at the index is dropped |
| CreateChallengeModal.AddTool | frontend/src/components/CreateChallengeModal.jsx:164-169 | one empty tool is appended; nothing else changes |
| CreateChallengeModal.RemoveTool | frontend/src/components/CreateChallengeModal.jsx:171-176 | the last remaining tool is never removed; otherwise the tool at the index is dropped |
| CreateChallengeModal.AddQuestion | frontend/src/components/CreateChallengeModal.jsx:179-193 | a blank question is appended whose id is one above the largest, so above every existing id |
| CreateChallengeModal.RemoveQuestion | frontend/src/components/CreateChallengeModal.jsx:195-200 | the last remaining question is never removed; otherwise every question with the id is dropped |
| CreateChallengeModal.UpdateQuestion | frontend/src/components/CreateChallengeModal.jsx:202-207 | the question with the id gets the edit; every other question and field is unchanged |
| CreateChallengeModal.AddQuestionHint | frontend/src/components/CreateChallengeModal.jsx:209-214 | the question with the id gets one more empty hint; every other question is unchanged |
| CreateChallengeModal.RemoveQuestionHint | frontend/src/components/CreateChallengeModal.jsx:216-225 | the question with the id loses the hint at the index unless it is its last one; every other question is unchanged |
| CreateChallengeModal.UpdateQuestionHint | frontend/src/components/CreateChallengeModal.jsx:227-237 | the question with the id has the hint at the index replaced; every other question is unchanged |
| CreateChallengeModal.BlankWellFormed | frontend/src/components/CreateChallengeModal.jsx:11-36 | the blank form has a hint, a tool and a question, every question has a hint, and the ids are distinct |
| CreateChallengeModal.ListHandlersKeepWellFormed | frontend/src/components/CreateChallengeModal.jsx:144-176 | the hint and tool handlers keep every list non-empty and the question ids distinct |
| CreateChallengeModal.AddQuestionKeepsWellFormed | frontend/src/components/CreateChallengeModal.jsx:179-193 | adding a question keeps the ids distinct and every question with a hint |
| CreateChallengeModal.RemoveQuestionKeepsWellFormed | frontend/src/components/CreateChallengeModal.jsx:195-200 | removing a question leaves at least one, with distinct ids and a hint each |
| CreateChallengeModal.QuestionEditsKeepWellFormed | frontend/src/components/CreateChallengeModal.jsx:202-225 | editing a question and adding or removing one of its hints keep the form well formed |
| CreateChallengeModal.RemoveQuestionKeepsOne | frontend/src/components/CreateChallengeModal.jsx:195-198 | with distinct ids, removing by id drops at most one question |
| CreateChallengeModal.Errors | frontend/src/components/CreateChallengeModal.jsx:239-250 | there is an error for the title, scenario and instructions exactly when they are blank, for the category exactly when none is selected, and for the points exactly when they are below 1 |
| CreateChallengeModal.ValidIff | frontend/src/components/CreateChallengeModal.jsx:239-250 | the form passes validation exactly when all five rules hold |
| CreateChallengeModal.CleanedQuestion | frontend/src/components/CreateChallengeModal.jsx:265-267 | only the hints change; they become a subsequence of the old ones that keeps every non-blank hint and no blank one |
| CreateChallengeModal.PayloadClean | frontend/src/components/CreateChallengeModal.jsx:260-285 | the payload's description is the scenario; its hints and tools are non-blank; each question sent is complete, has only non-blank hints and is the cleaned form of a form question; every complete question is sent; title, points and category are kept |
| CreateChallengeModal.Reset | frontend/src/components/CreateChallengeModal.jsx:292-318 | after success the form is blank again, with the first category selected or none when there are no categories |
| CreateChallengeModal.ResetIsBlank | frontend/src/components/CreateChallengeModal.jsx:292-318 | the reset form is well formed and would fail validation, at least on the title and the scenario |
| CreateChallengeModal.Payload | frontend/src/components/CreateChallengeModal.jsx:260-285 | the data sent: the form with the scenario as description, empty hints and tools dropped, and only questions with text and an answer, their empty hints dropped |
| EditChallengeModal.TextOr | frontend/src/components/EditChallengeModal.jsx:43-46 | a loaded text field is kept when it is a non-empty string, and replaced by the default otherwise |
| EditChallengeModal.NumberOr | frontend/src/components/EditChallengeModal.jsx:61-64 | a loaded number is kept unless it is missing or 0, which the default replaces |
| EditChallengeModal.ListOr | frontend/src/components/EditChallengeModal.jsx:47-56 | a loaded list is kept when it has an entry, and replaced by the default otherwise |
| EditChallengeModal.Load | frontend/src/components/EditChallengeModal.jsx:39-67 | the loaded form always has a hint, a tool and a question, non-zero points defaulting to 100, the category or none, flags that are true only when the challenge's are, and the text defaults |
| EditChallengeModal.LoadDefaults | frontend/src/components/EditChallengeModal.jsx:48-61 | a challenge with 0 points and no questions loads as 100 points and the blank question 1 |
| EditChallengeModal.ArrayInputChange | frontend/src/components/EditChallengeModal.jsx:103-110 | the item at the index of the named list takes the value; the list keeps its length and nothing else changes |
| EditChallengeModal.AddArrayItem | frontend/src/components/EditChallengeModal.jsx:112-117 | the named list gets one more empty item; nothing else changes |
| EditChallengeModal.RemoveArrayItem | frontend/src/components/EditChallengeModal.jsx:119-124 | the item at the index of the named list is dropped, with no one-item minimum; nothing else changes |
| EditChallengeModal.RemoveLastHintEmpties | frontend/src/components/EditChallengeModal.jsx:119-124 | removing the only hint leaves the hint list empty |
| EditChallengeModal.QuestionChange | frontend/src/components/EditChallengeModal.jsx:126-133 | the question at the index gets the edit; every other question and field is unchanged |
| EditChallengeModal.NextId | frontend/src/components/EditChallengeModal.jsx:136 | the new id is at least 1 and above every existing id, and 1 when there are no questions |
| EditChallengeModal.AddQuestion | frontend/src/components/EditChallengeModal.jsx:135-148 | one blank question is appended after the old ones, with an id larger than every old id; nothing else changes |
| EditChallengeModal.AddQuestionFresh | frontend/src/components/EditChallengeModal.jsx:135-148 | adding a question keeps the ids distinct, and on an empty list adds question 1 |
| EditChallengeModal.RemoveQuestion | frontend/src/components/EditChallengeModal.jsx:150-155 | the question at the index is dropped, so the list shrinks by one when the index is in range |
| EditChallengeModal.KeyTextInjective | frontend/src/components/EditChallengeModal.jsx:190-217 | two different error keys never have the same text, so no error overwrites another |
| EditChallengeModal.KeyTextShape | frontend/src/components/EditChallengeModal.jsx:206-216 | the texts of question keys, answer keys and field keys start differently: only `questions` among the fields starts with `q`, and it is not of the `question_<i>` form |
| EditChallengeModal.QuestionErrors | frontend/src/components/EditChallengeModal.jsx:211-218 | every question at a position has a text error exactly when its text is blank and an answer error exactly when its answer is blank; there are no other keys |
| EditChallengeModal.FieldErrors | frontend/src/components/EditChallengeModal.jsx:190-208 | there is an error for the title, description and instructions exactly when they are blank, for the category exactly when none is selected, and for the questions exactly when there are none |
| EditChallengeModal.Errors | frontend/src/components/EditChallengeModal.jsx:187-221 | the errors are the field errors together with the per-question ones, and every key names a field or an existing question |
| EditChallengeModal.ValidIff | frontend/src/components/EditChallengeModal.jsx:187-221 | the form passes validation exactly when the fields are filled, a category is selected, and there is at least one question, each complete |
| EditChallengeModal.Payload | frontend/src/components/EditChallengeModal.jsx:234-240 | only the questions, hints and tools change; each becomes a subsequence of the old list that keeps every complete question (non-blank entry) and nothing else |
| EditChallengeModal.SubmittedQuestionsUnchanged | frontend/src/components/EditChallengeModal.jsx:227-240 | after validation passes the question filter keeps every question, and the hints and tools sent are non-blank |
| FileRoutes.LastDot | backend/routes/files.py:29 | the position found is a `.` with no `.` after it; none is found exactly when the name has no `.` |
| FileRoutes.Extension | backend/routes/files.py:28-29 | there is an extension exactly when the name has a `.`; it holds no `.` and the name ends with `.` and it |
| FileRoutes.TrailingDotRejected | backend/routes/files.py:26-29 | a name ending in `.` has an empty extension and is refused |
| FileRoutes.UpperCaseAllowed | backend/routes/files.py:26-29 | `notes.PDF` is allowed: the extension is lower-cased before the whitelist lookup |
| FileRoutes.MixedCaseAllowed | backend/routes/files.py:26-29 | `a.Zip` is allowed |
| FileRoutes.DropSeparators | backend/routes/files.py:110 | the name with `.`, `-` and `_` removed keeps exactly its other characters |
| FileRoutes.SafeFilenameChars | backend/routes/files.py:110 | a filename is accepted exactly when it has an alphanumeric character and every character is alphanumeric, `.`, `-` or `_` |
| FileRoutes.NoPathSeparators | backend/routes/files.py:110 | a filename with a `/` or a space is refused |
| FileRoutes.Upload | backend/routes/files.py:40-74 | a file is stored only for an admin, with a file part, a non-empty and allowed name; the original name is the secured one and the stored name is the hex id, a `.` and the secured name's own extension lower-cased |
| FileRoutes.UploadReplies | backend/routes/files.py:40-74 | a file is stored exactly when an admin sends a file part with a non-empty, allowed name whose secured form keeps a `.`; otherwise a non-admin gets 403, a missing file part 400 `No file provided`, a disallowed name 400, and a secured name without `.` 500 `Failed to upload file` |
| FileRoutes.LowerEndsWith | backend/routes/files.py:65 | lower-casing a name keeps a suffix, lower-cased, a suffix |
| FileRoutes.LowerNoDot | backend/routes/files.py:65 | lower-casing adds no `.` |
| FileRoutes.FirstMatch | backend/routes/files.py:129-132 | a found name is the shown name of some attachment that names the file; not found means every attachment is a dict not naming it; a raise means some attachment is not a dict |
| FileRoutes.LookupOriginalName | backend/routes/files.py:123-132 | the lookup loop over all challenges returns what the download-name definition gives |
| FileRoutes.NoneSticks | backend/routes/files.py:126-132 | once a lookup has raised, the whole lookup raises |
| FileRoutes.NoMatchKeepsFilename | backend/routes/files.py:123-132 | when no challenge names the file, the download name is the stored filename |
| FileRoutes.LastMatchWins | backend/routes/files.py:126-132 | the `break` leaves only the inner loop, so the last challenge that names the file gives the download name |
| FileRoutes.Download | backend/routes/files.py:100-142 | a file is sent exactly when the user exists, the filename is safe, the file is on disk and the lookup does not raise; it is sent under the looked-up name |
| FileRoutes.Others | backend/routes/files.py:208-211 | the attachments kept are an in-order sublist, none of which names the file |
| FileRoutes.FilterStep | backend/routes/files.py:209-211 | one more attachment is kept exactly when it does not name the file, and an attachment that is not a dict makes the filtering raise |
| FileRoutes.FilterAttachments | backend/routes/files.py:208-211 | the filtering loop returns what the kept-attachments definition gives |
| FileRoutes.Kept | backend/routes/files.py:208-211 | the filtering succeeds exactly when every attachment is a dict, and then keeps an in-order sublist of dicts none of which names the file |
| FileRoutes.KeptIdempotent | backend/routes/files.py:208-211 | filtering the kept attachments again changes nothing |
| FileRoutes.KeptAllKept | backend/routes/files.py:208-211 | when no attachment names the file, all are kept |
| FileRoutes.OthersAllKept | backend/routes/files.py:208-211 | when no attachment names the file, the kept list is the whole list |
| FileRoutes.PrunedIsKept | backend/routes/files.py:207-214 | a pruned column is the kept list, whether or not the length guard let the write happen |
| FileRoutes.PrunedRemovesFile | backend/routes/files.py:207-214 | after pruning no attachment names the file, and pruning again changes nothing |
| FileRoutes.FirstFailure | backend/routes/files.py:205-215 | every column before the first one that raises is pruned without raising |
| FileRoutes.AttachmentColumns | backend/routes/files.py:205-207 | one `file_attachments` column per challenge, in order |
| FileRoutes.PruneAttachments | backend/routes/files.py:207-215 | a challenge's attachments are pruned when the pruning does not raise, and left as they were when it does; no other column changes |
| FileRoutes.PruneAll | backend/routes/files.py:205-215 | every challenge before the first failure is pruned and every later one is left as it was; success means no challenge failed; no other column changes |
| FileRoutes.DeleteFile | backend/routes/files.py:180-220 | a non-admin gets 403, an unsafe name 400 and a missing file 404, with nothing changed; otherwise the challenges before the first failure are pruned, and the answer is 200 when none failed and 500 otherwise |
| FileRoutes.AllowedFile | backend/routes/files.py:26-29 | a name is allowed when it has a `.` and the lower-cased text after the last one is a whitelisted extension |
| FileRoutes.SafeFilename | backend/routes/files.py:110 | a name is safe when what is left after removing `.`, `-` and `_` is non-empty and alphanumeric |
| FileRoutes.OriginalName | backend/routes/files.py:123-132 | the download name: the last challenge with a matching attachment decides, because `break` leaves only the inner loop; the stored name otherwise; `None` when a lookup raises |
| FileRoutes.ColumnMatch | backend/routes/files.py:126-132 | one challenge's `file_attachments`: skipped when falsy, the first attachment with the filename otherwise, a raise for anything but a list of dicts |
| FileRoutes.Pruned | backend/routes/files.py:207-214 | one `file_attachments` column after `delete_file`: the attachments with another filename, in order; `None` when the iteration raises |
| FixAttachments.Attachment | backend/fix_challenge_files.py:44-59 | a migrated attachment has the keys `name`, `filename`, `size` and `url` in that order, and its name and filename read back as given |
| FixAttachments.Element | backend/fix_challenge_files.py:41-62 | every element kept has a `filename`; an element that already has one is kept as it is |
| FixAttachments.Converted | backend/fix_challenge_files.py:39-64 | the converted list is no longer than the old one and every entry has a `filename` |
| FixAttachments.FirstElementDecides | backend/fix_challenge_files.py:31-36 | a list whose first element has both `filename` and `name` is left untouched, whatever follows it |
| FixAttachments.StringConverted | backend/fix_challenge_files.py:42-49 | a bare filename becomes a dict with the four keys, named and stored under that filename |
| FixAttachments.OldDictConverted | backend/fix_challenge_files.py:50-59 | an old-style dict without `filename` becomes a dict with the four keys whose name and filename are its `name`, or `Unknown` |
| FixAttachments.ConvertedSingle | backend/fix_challenge_files.py:41-62 | a string or dict element is converted in place, and any other element is dropped |
| FixAttachments.ConvertedAppend | backend/fix_challenge_files.py:41-62 | converting two joined lists is joining their conversions, so the conversion keeps the order |
| FixAttachments.ConvertedFixedPoint | backend/fix_challenge_files.py:50-62 | a list whose every element has a `filename` is converted to itself |
| FixAttachments.FixedIdempotent | backend/fix_challenge_files.py:17-68 | running the migration twice gives the same column as running it once |
| FixAttachments.FixOne | backend/fix_challenge_files.py:26-68 | one challenge's attachments become the migrated column; no other column changes |
| FixAttachments.FixChallengeFiles | backend/fix_challenge_files.py:17-76 | every challenge's attachments become the migrated column; no other column changes |
| FixAttachments.Fixed | backend/fix_challenge_files.py:26-68 | a column already in the new format, or not a list, is untouched; otherwise each entry is converted |
| FixAttachments.FromName | backend/fix_challenge_files.py:42-49 | a bare filename becomes a dict with that name and filename, an unknown size and the download URL |
| FixAttachments.FromOldDict | backend/fix_challenge_files.py:50-59 | an old dict becomes one with the name falling back to the filename and back, an unknown size by default, and the URL of the filename |
| Json.Truthy | backend/routes/admin.py:52-55 | Python truthiness of a decoded value: null, false, 0, and the empty string, list and dict are falsy |
| Json.PyStr | backend/routes/challenges.py:627 | Python's `str()` of a decoded value; a string is itself |
| Json.PyIn | backend/routes/auth.py:136 | Python's `in` with a string key: key membership on a dict, element membership on a list; `None` exactly for the raise on null, a number or a boolean |
| Json.PyLen | backend/routes/auth.py:33 | Python's `len()`: the length of a string, list or dict; `None` for the raise on a number, a boolean or null |
| Json.ColumnText | backend/models/user.py:8-9 | the text a TEXT column holds for a scalar: a string as itself, a number as its decimal text, a boolean as 1 or 0; nothing exactly for null, lists and dicts |
| Json.StoredText | backend/models/user.py:8-15 | a bindable value read back from a TEXT column is null or a string with the same text |
| Json.IntegerKey | backend/models/challenge.py:7 | the integer an INTEGER primary key compares a scalar as: a number as itself, a boolean as 1 or 0, text that reads as an integer as that integer |
| LeaderboardChart.Points | frontend/src/components/ChallengeLeaderboard.jsx:117-121 | one chart point per timeline entry, in order, stepped by its submission number and valued by its cumulative points |
| LeaderboardChart.TimelineIds | frontend/src/components/ChallengeLeaderboard.jsx:99 | one user id per timeline entry, in order |
| LeaderboardChart.UserData | frontend/src/components/ChallengeLeaderboard.jsx:112-122 | there is a series exactly for each user in the timeline |
| LeaderboardChart.UserDataContent | frontend/src/components/ChallengeLeaderboard.jsx:112-122 | a user's series is the points of that user's entries, in timeline order |
| LeaderboardChart.EntriesHaveIds | frontend/src/components/ChallengeLeaderboard.jsx:112-122 | a user with entries is among the timeline's ids |
| LeaderboardChart.NoEntriesWithoutIds | frontend/src/components/ChallengeLeaderboard.jsx:112-122 | a user not among the ids has no entries |
| LeaderboardChart.GroupByUser | frontend/src/components/ChallengeLeaderboard.jsx:112-122 | the grouping loop yields exactly the series the definition gives |
| LeaderboardChart.Longest | frontend/src/components/ChallengeLeaderboard.jsx:126 | the longest series length bounds every series, is reached by one of them, and is 0 without users |
| LeaderboardChart.MaxSteps | frontend/src/components/ChallengeLeaderboard.jsx:126 | the number of steps is at least 1 |
| LeaderboardChart.FirstAtStep | frontend/src/components/ChallengeLeaderboard.jsx:135 | the point found is the first one at the step; none is found exactly when no point is at the step |
| LeaderboardChart.LastBefore | frontend/src/components/ChallengeLeaderboard.jsx:144 | the point found is before the step and every later point is not; none is found exactly when no point is before the step |
| LeaderboardChart.RowStep | frontend/src/components/ChallengeLeaderboard.jsx:133-147 | one more user adds that user's cell to the row, and its details exactly when it has a point at the step |
| LeaderboardChart.BuildRow | frontend/src/components/ChallengeLeaderboard.jsx:130-149 | the per-user loop yields exactly the row the definition gives |
| LeaderboardChart.RowsSnoc | frontend/src/components/ChallengeLeaderboard.jsx:129-150 | the rows for one more step are the rows so far followed by that step's row |
| LeaderboardChart.BuildRows | frontend/src/components/ChallengeLeaderboard.jsx:129-150 | the step loop yields exactly the rows for steps 1 to the number of steps |
| LeaderboardChart.BuildChartData | frontend/src/components/ChallengeLeaderboard.jsx:112-155 | the chart data built is exactly what the chart definition gives |
| LeaderboardChart.IdsHaveData | frontend/src/components/ChallengeLeaderboard.jsx:99-122 | every user id has a series |
| LeaderboardChart.RowsShape | frontend/src/components/ChallengeLeaderboard.jsx:129-150 | row i is step i + 1; it has a value for exactly the given users, their cell at that step, and details exactly for those with a point at the step |
| LeaderboardChart.ChartShape | frontend/src/components/ChallengeLeaderboard.jsx:125-155 | the chart has one row per step, at least one; each row has a value for exactly the timeline's users and details exactly for those with a point at that step |
| LeaderboardChart.EmptyTimelineChart | frontend/src/components/ChallengeLeaderboard.jsx:125-155 | an empty timeline gives one empty row at step 1, so the step-0 fallback never fires |
| LeaderboardChart.ConsecutiveCell | frontend/src/components/ChallengeLeaderboard.jsx:135-146 | for a series numbered from its start without gaps, a step's cell is the point at that step, or the last point once the series has ended |
| LeaderboardChart.CellMonotone | frontend/src/components/ChallengeLeaderboard.jsx:135-146 | for such a series with non-decreasing points, the cells never decrease along the steps and stay at the last point after the series ends |
| LeaderboardChart.HueHalfDegrees | frontend/src/components/ChallengeLeaderboard.jsx:104 | the hue, counted in half degrees, is below 360 degrees |
| LeaderboardChart.HuePeriod | frontend/src/components/ChallengeLeaderboard.jsx:104 | the hues repeat every 144 users |
| LeaderboardChart.HueDistinct | frontend/src/components/ChallengeLeaderboard.jsx:104 | the first 144 users all get different hues |
| LeaderboardChart.Colors | frontend/src/components/ChallengeLeaderboard.jsx:99-105 | there is a colour exactly for each user id |
| LeaderboardChart.UserColors | frontend/src/components/ChallengeLeaderboard.jsx:103-105 | the colour loop yields exactly the colours the definition gives |
| LeaderboardChart.ColorsAt | frontend/src/components/ChallengeLeaderboard.jsx:103-105 | with distinct ids, the user at position k gets the k-th hue |
| LeaderboardChart.Names | frontend/src/components/ChallengeLeaderboard.jsx:107-109 | there is a name exactly for each user id |
| LeaderboardChart.UserNames | frontend/src/components/ChallengeLeaderboard.jsx:107-109 | the name loop yields exactly the names the definition gives |
| LeaderboardChart.NamesLastWins | frontend/src/components/ChallengeLeaderboard.jsx:107-109 | a user's name is the one on that user's last entry |
| LeaderboardChart.TooltipRecoversKey | frontend/src/components/ChallengeLeaderboard.jsx:63 | stripping `user_` and the `_points` suffix recovers the key, unless the key itself ends in `_points` |
| LeaderboardChart.TooltipRecoversId | frontend/src/components/ChallengeLeaderboard.jsx:63 | the tooltip recovers the user id from the series key |
| LeaderboardChart.Tooltip | frontend/src/components/ChallengeLeaderboard.jsx:62-67 | a tooltip line shows the row's username when the user has details, `Unknown` with nothing else when it has none, and the value or 0 |
| LeaderboardChart.BlockSeries | frontend/src/components/ChallengeLeaderboard.jsx:117-121 | a backend block becomes a series numbered from 0 without gaps, whose point m is the correct points of the first m attempts |
| LeaderboardChart.SeriesOfEntries | frontend/src/components/ChallengeLeaderboard.jsx:112-122 | a user with entries has a series made of those entries |
| LeaderboardChart.BackendUserData | frontend/src/components/ChallengeLeaderboard.jsx:112-122 | on a backend timeline a submitting user's series is the points of that user's block |
| LeaderboardChart.BackendSeries | frontend/src/components/ChallengeLeaderboard.jsx:112-122 | on a backend timeline a user's series is numbered from 0 without gaps and holds the running correct points |
| LeaderboardChart.TimelineUsers | frontend/src/components/ChallengeLeaderboard.jsx:99 | every user in the backend timeline is a submitting user |
| LeaderboardChart.BackendChart | frontend/src/components/ChallengeLeaderboard.jsx:125-150 | on a backend timeline the chart has one more step than the largest attempt count, and exactly one step when there are no submissions |
| LeaderboardChart.RunningTotalCell | frontend/src/components/ChallengeLeaderboard.jsx:135-146 | a running-total series' cell at a step is the correct points of the attempts up to that step |
| LeaderboardChart.BackendCell | frontend/src/components/ChallengeLeaderboard.jsx:125-150 | on a backend timeline every submitting user has a value in every row, equal to the correct points of that user's attempts up to the row's step |
| LeaderboardChart.Chart | frontend/src/components/ChallengeLeaderboard.jsx:112-155 | the chart data: one row per step up to the longest series, at least one |
| LeaderboardChart.Rows | frontend/src/components/ChallengeLeaderboard.jsx:129-150 | the rows of steps 1 to n, each carrying every user's value at that step |
| ForgotPasswordPage.Guard | frontend/src/pages/ForgotPassword.jsx:17-27 | a submit is stopped with `Email is required` exactly when the trimmed address is empty, goes on exactly when the address as typed matches the strict pattern, and is otherwise stopped with `Please enter a valid email address` |
| ForgotPasswordPage.Request | frontend/src/pages/ForgotPassword.jsx:17-33 | a request is sent exactly when the guards pass, with the trimmed address |
| ForgotPasswordPage.StartSubmit | frontend/src/pages/ForgotPassword.jsx:17-30 | a stopped submit only shows the guard's message; one that goes on starts the spinner and clears the message; the address and the confirmation screen stay |
| ForgotPasswordPage.FinishSubmit | frontend/src/pages/ForgotPassword.jsx:32-42 | the spinner stops; success shows the confirmation, failure the server's message or `Failed to send reset email`, never an empty message |
| ForgotPasswordPage.BlankSendsNothing | frontend/src/pages/ForgotPassword.jsx:17-20 | a blank address shows `Email is required`, sends nothing and does not start the spinner |
| ForgotPasswordPage.PaddedAddressRefused | frontend/src/pages/ForgotPassword.jsx:23-33 | an address with surrounding whitespace is refused although its trimmed form is what would be sent |
| ForgotPasswordPage.SentAsTyped | frontend/src/pages/ForgotPassword.jsx:24-33 | an address that passes the guards is sent exactly as typed |
| ForgotPasswordPage.FailureAlwaysExplained | frontend/src/pages/ForgotPassword.jsx:29-42 | a request that goes out starts with no message and a spinner, and a failed one ends with a non-empty message and no confirmation screen change |
| ForgotPasswordPage.SendAnother | frontend/src/pages/ForgotPassword.jsx:72-75 | "Send Another Email" leaves the confirmation screen and clears the address, and nothing else |
| ForgotPasswordPage.SendAnotherNeedsNewAddress | frontend/src/pages/ForgotPassword.jsx:17-75 | after a successful send and "Send Another Email", a submit is stopped with `Email is required` |
| ResetPasswordPage.OnLoad | frontend/src/pages/ResetPassword.jsx:26-34 | the page redirects with `Invalid reset link` exactly when the link has no token or an empty one, and otherwise checks that token |
| ResetPasswordPage.AfterCheck | frontend/src/pages/ResetPassword.jsx:36-48 | the token counts as valid exactly when the server accepted it, with the user it returned and no toast; a rejection shows the server's message or `Invalid or expired reset token`, never an empty one |
| ResetPasswordPage.Expected | frontend/src/pages/ResetPassword.jsx:66-80 | the new password has an error exactly when it is shorter than 6 (`New password is required` when empty, else the length message); the confirmation has one exactly when it is empty or differs (`Please confirm your password` when empty, else `Passwords do not match`) |
| ResetPasswordPage.ExpectedEmptyIff | frontend/src/pages/ResetPassword.jsx:66-83 | there are no errors exactly when the form is valid |
| ResetPasswordPage.ValidateForm | frontend/src/pages/ResetPassword.jsx:66-83 | the errors set are the expected ones, and the result says whether there are none, that is whether the form is valid |
| ResetPasswordPage.ValidMeetsServerRules | backend/routes/password_reset.py:72-83 | a form the page accepts also passes the server's checks on the new password and its confirmation |
| ResetPasswordPage.HandleChange | frontend/src/pages/ResetPassword.jsx:50-64 | typing sets exactly the edited field and clears only that field's error |
| ResetPasswordPage.Submit | frontend/src/pages/ResetPassword.jsx:85-99 | a submit shows the expected errors and sends a request exactly when the form is valid, with the link's token, the password and its confirmation |
| ResetPasswordPage.FailureMessage | frontend/src/pages/ResetPassword.jsx:103 | a failed reset always shows a non-empty message, the server's own when it gave one |
| PasswordResetModel.PasswordReset.constructor | backend/models/password_reset.py:18-21 | a new token belongs to the user, is unused and expires the given number of hours after it is issued |
| PasswordResetModel.PasswordReset.MarkAsUsed | backend/models/password_reset.py:32-35 | a used token is never valid again, at any instant |
| PasswordResetModel.FreshTokenWindow | backend/models/password_reset.py:18-30 | a fresh token with the default expiry is valid at exactly the instants before 86400 seconds have passed |
| PasswordResetModel.ResetStore.constructor | backend/models/password_reset.py:5-13 | the table starts empty, with distinct token texts |
| PasswordResetModel.ResetStore.FindValidToken | backend/models/password_reset.py:50-56 | a token found holds the text and is valid now; when none is found, no row holding the text is valid now |
| PasswordResetModel.ResetStore.FindFrom | backend/models/password_reset.py:53-56 | the same for the rows from a given position on |
| PasswordResetModel.ResetStore.CreateResetToken | backend/models/password_reset.py:37-48 | every earlier unused token of the user is marked used and nothing else changes; a new unused token is appended, which is then the user's only unused one; other users' unused tokens stay as they were; token texts stay distinct |
| ResetRoutes.ForgotPassword | backend/routes/password_reset.py:12-53 | a token is issued only for a JSON object whose email, trimmed and lower-cased, has the accepted format and belongs to a user, and then the answer is the neutral 200 message |
| ResetRoutes.NoEnumeration | backend/routes/password_reset.py:27-49 | the answer to a forgot-password request is the same whether or not the address belongs to a user |
| ResetRoutes.ForgotAccepts | backend/routes/password_reset.py:18-49 | a request with an email of the accepted format gets the neutral 200 message and issues a token exactly for the user owning the address |
| ResetRoutes.EmailNormalised | backend/routes/password_reset.py:21 | surrounding whitespace and letter case make no difference to the address looked up |
| ResetRoutes.ParseResetRequest | backend/routes/password_reset.py:58-83 | a rejected reset request is answered with 400, or 500 when the body is not an object |
| ResetRoutes.ResetRequestAccepts | backend/routes/password_reset.py:61-83 | a reset request passes validation exactly when it is an object with a token, a new password equal to its confirmation and at least 6 characters long; the token and the password passed on are the request's |
| ResetRoutes.MismatchBeforeLength | backend/routes/password_reset.py:78-83 | a password that differs from its confirmation is refused with `Passwords do not match` whatever its length |
| ResetRoutes.ValidRow | backend/routes/password_reset.py:85-88 | the row found for a token is in the table, valid now, and holds the token as the text column compares it (numbers and booleans as their text); for such a token it is the first valid row with that text |
| ResetRoutes.ResetReply | backend/routes/password_reset.py:85-114 | a rejected request keeps its answer; an accepted one succeeds exactly when the token can be bound, its row is valid, its user exists and the password is a string; a list or dict token gets the 500 reply, an invalid token `Invalid or expired reset token` |
| ResetRoutes.TokenKeyOf | backend/routes/password_reset.py:86 | a string token is compared as itself, a number or boolean as its SQLite text, null as no row, and only a list or a dict cannot be bound |
| ResetRoutes.ListPasswordFails | backend/routes/password_reset.py:72-114 | a list of six or more items given as both passwords passes the form checks and then never resets: with a valid token and an existing user the reply is the 500 |
| ResetRoutes.ResetPassword | backend/routes/password_reset.py:55-114 | the answer is the one the validation gives; on success the user's hash is that of the new password, the update time is now, the token is never valid again, and no other token row or user changes; on failure nothing changes |
| ResetRoutes.StoreFindSpent | backend/routes/password_reset.py:86-100 | a token once marked used is not found again |
| ResetRoutes.ValidateResetToken | backend/routes/password_reset.py:116-136 | a token is reported valid, with 200 and its user, exactly when a valid row holds it; otherwise 400 and no user |
| ResetRoutes.ForgotPasswordRoute | backend/routes/password_reset.py:12-53 | the answer is the one the validation gives; the table changes only when a token is issued, and then gains one valid row holding the fresh text, the user's only unused one |
| ProgressModel.Fresh | backend/models/progress.py:12-28 | a new record is not started, with no attempts, hints or time, no flags set, and neither a start nor a completion time |
| ProgressModel.Start | backend/models/progress.py:53-59 | a record not yet started becomes in progress, started and accessed now, with nothing else changed; any other record is left alone |
| ProgressModel.Complete | backend/models/progress.py:61-76 | a completed record is completed and accessed now; first-attempt success exactly when asked for and there was exactly one attempt; the time is the given completion time when it is non-zero; the speed bonus once earned stays, and is earned when a non-zero time is at most half a non-zero limit; counters, start time and bookmark stay |
| ProgressModel.WithAttempt | backend/models/progress.py:78-82 | one more attempt, accessed now, nothing else changed |
| ProgressModel.WithHint | backend/models/progress.py:84-88 | one more hint, accessed now, nothing else changed |
| ProgressModel.WithTime | backend/models/progress.py:90-94 | the time grows by the amount added, accessed now, nothing else changed |
| ProgressModel.FreshValid | backend/models/progress.py:12-28 | a new record has non-negative counters and one of the statuses the methods produce |
| ProgressModel.TransitionsPreserveValid | backend/models/progress.py:53-94 | every transition keeps the counters non-negative and the status among those the methods produce, given non-negative times |
| ProgressModel.StartIdempotent | backend/models/progress.py:53-59 | starting twice is starting once: the first start time is kept |
| ProgressModel.CompletionIsSticky | backend/models/progress.py:55-74 | completing never takes away a speed bonus, and starting a completed record changes nothing |
| ProgressModel.AttemptHintCommute | backend/models/progress.py:78-88 | an attempt and a hint at the same instant give the same record in either order |
| ProgressModel.AttemptsCount | backend/models/progress.py:78-82 | k attempts add k to the count and leave hints, status and time alone |
| ProgressModel.UserProgress.constructor | backend/models/progress.py:4-28 | a new row takes the column defaults |
| ProgressModel.UserProgress.Started | backend/routes/challenges.py:148-154 | the row the start route creates is in progress and started now, with the other defaults |
| ProgressModel.UserProgress.StartChallenge | backend/models/progress.py:53-59 | the row's new state is the start transition of its old one |
| ProgressModel.UserProgress.CompleteChallenge | backend/models/progress.py:61-76 | the row's new state is the completion transition of its old one |
| ProgressModel.UserProgress.AddAttempt | backend/models/progress.py:78-82 | the row's new state is the attempt transition of its old one |
| ProgressModel.UserProgress.UseHint | backend/models/progress.py:84-88 | the row's new state is the hint transition of its old one |
| ProgressModel.UserProgress.UpdateTimeSpent | backend/models/progress.py:90-94 | the row's new state is the time transition of its old one |
| ProgressRoutes.PerPage | backend/routes/progress.py:19 | the page size is the one requested, capped at 100 |
| ProgressRoutes.BuildLeaderboard | backend/routes/progress.py:51-54 | one entry per listed user, in order: the user's public dictionary, then its rank, then its recent points unless the timeframe is `all` |
| ProgressRoutes.RankKeyNew | backend/routes/progress.py:53-54 | `rank` is not a key of the public user dictionary, so adding it overrides nothing |
| ProgressRoutes.LeaderboardRanks | backend/routes/progress.py:52-54 | entry i on page p has rank (p - 1) * per_page + 1 + i, one more than the entry before |
| ProgressRoutes.LeaderboardOrder | backend/routes/progress.py:23-44 | in the listed order a higher score comes first, and every listed user is active with a positive score |
| ProgressRoutes.CalculateActivityStreak | backend/routes/progress.py:278-303 | the loop computes the streak the recurrence defines |
| ProgressRoutes.StreakFrom | backend/routes/progress.py:296-301 | the loop adds at most one per date to the streak |
| ProgressRoutes.StreakNeedsToday | backend/routes/progress.py:290-301 | the streak is 0 with no dates or when the latest date is not today, at least 1 when it is, and never more than the number of dates |
| ProgressRoutes.StreakRecurrence | backend/routes/progress.py:293-301 | for distinct dates in descending order, a positive streak starts today and date i extends it exactly when it is date i - 1 minus i days |
| ProgressRoutes.StreaksAgreeOnTwoDays | backend/routes/progress.py:296-301 | today and yesterday count as a streak of at least 2 in the code as written and as intended |
| ProgressRoutes.IntendedStreak | backend/routes/progress.py:278-303 | the number of leading dates that are today, yesterday, the day before and so on |
| ProgressRoutes.FindProgress | backend/routes/progress.py:206-209 | the record found belongs to the user and the challenge; none is found exactly when no record does |
| ProgressRoutes.ToggleBookmark | backend/routes/progress.py:193-228 | an unpublished challenge gets 404 and nothing changes; without a record a new bookmarked one is appended; otherwise the record's bookmark flips and it is accessed now; the answer says which; no other record changes |
| SecurityConfig.FlagSpellings | backend/config.py:15-43 | an unset flag takes its default; a flag holds exactly when its value spells `true` in any letter case, so `yes` and `1` do not count |
| SecurityConfig.IntOf | backend/config.py:19-40 | a setting is read as a number exactly when it is a non-empty run of digits, and then (without a leading zero) prints back as the same text |
| SecurityConfig.DigitsRoundTrip | backend/config.py:19-40 | reading a digit run without leading zero and printing it back gives the text |
| SecurityConfig.Load | backend/config.py:7-45 | the configuration loads exactly when every integer setting, or its default, is a number; then each of the thirteen fields holds its setting: the numbers, the comma-split whitelist and the flags as spelled |
| SecurityConfig.Defaults | backend/config.py:7-45 | with nothing set: a whitelist of one empty entry, no HTTPS, rate limiting on at 50 requests a minute, 3 setup attempts in 15 minutes, 12-character passwords with every character class required, 32-character CSRF tokens |
| SecurityConfig.DefaultFlags | backend/config.py:15-43 | with nothing set, every flag with default `true` holds and every flag with default `false` does not |
| SecurityConfig.DefaultNumbers | backend/config.py:19-40 | the default numbers read as 50, 1, 3, 15, 12 and 32 |
| SecurityConfig.AllowedIps | backend/config.py:47-49 | the allowed addresses are the whitelist's entries stripped, blank ones dropped, never more than the entries |
| SecurityConfig.AllowedIpsMembers | backend/config.py:47-49 | an address is allowed-listed exactly when it is non-empty and some entry strips to it |
| SecurityConfig.IpAllowedIff | backend/config.py:51-57 | an address is refused exactly when some entry is non-blank and no entry strips to the address |
| SecurityConfig.DefaultAllowsEveryone | backend/config.py:9-12 | with no whitelist set every address is allowed |
| SecurityConfig.WhitelistStripsEntries | backend/config.py:9-57 | with the whitelist `a, b` exactly the addresses a and b are allowed: the space after the comma is stripped |
| SecurityConfig.IsIpAllowed | backend/config.py:51-57 | every address is allowed when the cleaned whitelist is empty; otherwise exactly the listed ones |
| SetupSecurity.ClientIp | backend/security/admin_setup_security.py:45-51 | the client is the first `X-Forwarded-For` entry stripped when that header is given, else `X-Real-IP` when given, else the socket address |
| SetupSecurity.ForwardedForDecides | backend/security/admin_setup_security.py:45-57 | a forwarded-for header naming a listed address passes the allow-list whatever the socket address is |
| SetupSecurity.UserAgentIff | backend/security/admin_setup_security.py:73-98 | an agent passes exactly when, lower-cased, it mentions no scanner pattern and is 10 to 500 characters long |
| SetupSecurity.MissingUserAgentRefused | backend/security/admin_setup_security.py:75-92 | a request without an agent is refused |
| SetupSecurity.StripTrailingSlashes | backend/security/admin_setup_security.py:110 | the site root loses exactly its trailing slashes: a prefix of it not ending in `/` |
| SetupSecurity.RefererLookalikeAccepted | backend/security/admin_setup_security.py:100-114 | the referer check accepts any referer that starts with the site root, including another host whose name merely extends the site's |
| SetupSecurity.SameSiteRefusesLookalike | backend/security/admin_setup_security.py:105-111 | a same-site test that requires the root itself or a path under it refuses such a host and still accepts pages under the root |
| SetupSecurity.CsrfOk | backend/security/admin_setup_security.py:178-188 | a token is accepted only when a session token exists and the token equals it; a missing or empty token is refused |
| SetupSecurity.PasswordStrength | backend/security/admin_setup_security.py:190-221 | a password is accepted exactly when it meets every rule the configuration enables and is not a common password, with `Password is strong`; a short one gets the length message |
| SetupSecurity.UppercaseReportedBeforeDigits | backend/security/admin_setup_security.py:200-207 | a long enough password without an upper-case letter is told about that first, whatever else it lacks |
| SetupSecurity.CommonListUnreachable | backend/security/admin_setup_security.py:212-219 | with a minimum length of 12 or more the common-password rule never refuses, as no listed password is longer than 11 |
| SetupSecurity.FirstFlagged | backend/security/admin_setup_security.py:235-240 | the field found is flagged and no earlier field is; none is found exactly when no field is flagged |
| SetupSecurity.SqlReportedBeforeScript | backend/security/admin_setup_security.py:228-253 | the first field matching an SQL pattern is the one reported, even when an earlier field holds a script |
| SetupSecurity.NonTextPasses | backend/security/admin_setup_security.py:235-255 | a dict without text values always passes the screen |
| SetupSecurity.ApostropheRefused | backend/security/admin_setup_security.py:229-240 | a name with an apostrophe is refused |
| SetupSecurity.ValidateInputSanitization | backend/security/admin_setup_security.py:223-255 | the loops reach the verdict and message of the screen |
| SetupSecurity.FindPattern | backend/security/admin_setup_security.py:236-240 | the pattern loop finds a hit exactly when the value is flagged |
| SetupSecurity.FirstFlaggedIs | backend/security/admin_setup_security.py:235-240 | the first flagged field is the one found |
| SetupSecurity.Recent | backend/security/admin_setup_security.py:123-126 | pruning keeps exactly the stamps after the window start |
| SetupSecurity.RecentAppend | backend/security/admin_setup_security.py:123-135 | a stamp inside the window survives the next pruning at the end of the list |
| SetupSecurity.RecentTwice | backend/security/admin_setup_security.py:123-126 | pruning at an early and then a later window start is pruning at the later one |
| SetupSecurity.RateStep | backend/security/admin_setup_security.py:116-136 | the limiter raises exactly on a record without a request list; otherwise it allows exactly when fewer than the limit of requests remain in the window, keeps only those, and appends the new stamp when it allows; the attempts are untouched |
| SetupSecurity.RateStepBounded | backend/security/admin_setup_security.py:130-135 | a request list within the limit stays within it |
| SetupSecurity.BurstRefused | backend/security/admin_setup_security.py:130-135 | with one slot left, a request is allowed and a second one at the same instant is refused |
| SetupSecurity.SetupCheckStep | backend/security/admin_setup_security.py:138-160 | the attempt check allows exactly when fewer than the maximum of attempts remain in the window and keeps only those; the requests are untouched |
| SetupSecurity.RecordStep | backend/security/admin_setup_security.py:162-172 | recording appends the stamp to the attempts and leaves the requests alone |
| SetupSecurity.RecordThenCheck | backend/security/admin_setup_security.py:138-172 | a recorded attempt counts in the next check's window |
| SetupSecurity.SecurityStorage.constructor | backend/security/admin_setup_security.py:43 | the store starts empty |
| SetupSecurity.SecurityStorage.RateLimitCheck | backend/security/admin_setup_security.py:116-136 | the store's record for the address becomes the one the limiter step gives, and the answer is its verdict, or none when it raises |
| SetupSecurity.SecurityStorage.SetupAttemptCheck | backend/security/admin_setup_security.py:138-160 | the store's record becomes the one the attempt check gives, and the answer is its verdict |
| SetupSecurity.SecurityStorage.RecordSetupAttempt | backend/security/admin_setup_security.py:162-172 | the store's record becomes the one recording gives |
| SetupSecurity.HeaderGate | backend/security/admin_setup_security.py:277-295 | the first four gates let a request through exactly when its address is allowed, HTTPS is satisfied, and its agent and referer pass |
| SetupSecurity.PostGate | backend/security/admin_setup_security.py:307-319 | a CSRF or input-screen gate that stops a POST never lets it through |
| SetupSecurity.AttemptGate | backend/security/admin_setup_security.py:302-323 | the store after the attempt gates holds the checked record, with the attempt recorded exactly when a POST passes; passing needs room in the attempt window |
| SetupSecurity.SetupGate | backend/security/admin_setup_security.py:274-325 | a request refused by the first four gates gets that refusal and leaves the store alone; otherwise the limiters decide |
| SetupSecurity.AttemptGates | backend/security/admin_setup_security.py:302-323 | the calls on the store produce the gate and store the definition gives |
| SetupSecurity.SecureAdminSetup | backend/security/admin_setup_security.py:271-327 | the decorator produces the gate and store the definition gives |
| SetupSecurity.SetupGateKeepsTracked | backend/security/admin_setup_security.py:116-172 | when every record has a request list, the decorator keeps it so and its limiter never raises |
| SetupSecurity.SetupGateKeepsBounded | backend/security/admin_setup_security.py:116-136 | no request list grows beyond the rate limit |
| SetupSecurity.AttemptRecordedOnlyOnPass | backend/security/admin_setup_security.py:302-323 | the attempts counted in the window grow by one exactly when a POST passes every gate |
| SetupSecurity.FullWindowLocksOut | backend/security/admin_setup_security.py:302-305 | with the attempt window full, a request that passes the earlier gates gets `Maximum setup attempts exceeded` |
| SetupSecurity.CheckGate | backend/security/admin_setup_security.py:329-342 | the setup-check decorator refuses a suspicious agent without touching the store, and passes only an allowed agent within the rate limit |
| SetupSecurity.SecureAdminSetupCheck | backend/security/admin_setup_security.py:329-344 | the setup-check decorator produces the gate and store the definition gives |
| SetupSecurity.HttpsOk | backend/security/admin_setup_security.py:66-71 | a request passes when HTTPS is not required, or it is secure, or it was forwarded as `https` |
| SetupSecurity.UserAgentOk | backend/security/admin_setup_security.py:73-98 | an agent passes when it names no suspicious tool and no generic client, and its length is within the bounds |
| SetupSecurity.RefererOk | backend/security/admin_setup_security.py:100-114 | a request passes with no referer and no origin, a referer that starts with the site root, or an origin equal to it |
| SetupSecurity.MeetsPolicy | backend/security/admin_setup_security.py:190-221 | a password meets the policy when it is long enough and has each character class the configuration asks for, and is not a common password |
| SetupSecurity.Screen | backend/security/admin_setup_security.py:223-255 | the input screen: a non-dict body is refused, then every field is checked against the SQL patterns before any is checked against the script patterns |
| SetupSecurity.CsrfGate | backend/security/admin_setup_security.py:307-312 | the CSRF gate: the header token, else the body's `csrf_token`, checked against the session; `None` when reading the body raises |
| SetupSecurity.LimitGate | backend/security/admin_setup_security.py:298-323 | the request limiter, the attempt limiter, the CSRF and input gates in that order, with the store each leaves; an attempt is recorded only by a POST that passes |
| CreateUserModal.Expected | frontend/src/components/CreateUserModal.jsx:33-58 | the username has an error exactly when it is blank or shorter than 3, the email exactly when the loose pattern fails, the password exactly when it is shorter than 6, the confirmation exactly when it is empty or differs; each with the empty-field message first |
| CreateUserModal.ExpectedEmptyIff | frontend/src/components/CreateUserModal.jsx:33-61 | there are no errors exactly when the form is valid |
| CreateUserModal.ValidateForm | frontend/src/components/CreateUserModal.jsx:33-62 | the errors set are the expected ones, and the result says whether there are none, that is whether the form is valid |
| CreateUserModal.PaddedUsernamePasses | frontend/src/components/CreateUserModal.jsx:36-40 | the length rule counts the untrimmed name, so ` a ` passes although its trimmed form has one letter |
| CreateUserModal.HandleChange | frontend/src/components/CreateUserModal.jsx:20-31 | a text change sets exactly its field, the checkbox sets exactly the admin flag, and only the changed input's error is cleared |
| CreateUserModal.Payload | frontend/src/components/CreateUserModal.jsx:73 | the request carries every field of the form except the confirmation |
| CreateUserModal.PayloadDropsOnlyConfirmation | frontend/src/components/CreateUserModal.jsx:73 | two forms give the same request exactly when they differ at most in the confirmation |
| CreateUserModal.CheckboxDecidesRole | frontend/src/components/CreateUserModal.jsx:20-25 | the admin checkbox alone decides the role sent |
| CreateUserModal.AfterSuccess | frontend/src/components/CreateUserModal.jsx:80-90 | after a success every text field is empty and the admin flag is off |
| UserManagementModal.Filtered | frontend/src/components/UserManagementModal.jsx:68-82 | the list shown keeps the users' order and holds exactly the users that match the search and the role filter |
| UserManagementModal.FilteredIff | frontend/src/components/UserManagementModal.jsx:68-82 | a user is shown exactly when the lower-cased name or email contains the lower-cased search and the user's role fits the filter |
| UserManagementModal.EmptySearchListsAll | frontend/src/components/UserManagementModal.jsx:68-82 | with no search and the `all` filter every user is shown, in order |
| UserManagementModal.RolesPartition | frontend/src/components/UserManagementModal.jsx:74-81 | a matching user is shown under exactly one of `admin` and `regular`, and under `all` exactly when under one of them |
| UserManagementModal.ToggleAdmin | frontend/src/components/UserManagementModal.jsx:36-40 | the users with the id get the opposite of the status shown on the button; every other user stays |
| UserManagementModal.ToggleActive | frontend/src/components/UserManagementModal.jsx:55-59 | the same for the active flag |
| UserManagementModal.ToggleAdminTwice | frontend/src/components/UserManagementModal.jsx:36-40 | demoting an admin and promoting it back restores the list |
| UserManagementModal.Counts | frontend/src/components/UserManagementModal.jsx:231-233 | the totals count the users shown, and neither the admins nor the active users exceed it |
| UserManagementModal.AdminFilterCountsAll | frontend/src/components/UserManagementModal.jsx:74-76 | under the `admin` filter every user shown is counted as an admin |
| UserModel.Correct | backend/models/user.py:69 | the correct submissions are exactly the submissions marked correct, never more than all of them |
| UserModel.CorrectAppend | backend/models/user.py:69-71 | the correct submissions and the score of two lists joined are those of each list joined and added |
| UserModel.StatsAfterSubmission | backend/models/user.py:67-71 | one more submission adds one completed challenge and its points when it is correct, and nothing otherwise |
| UserModel.ScoreNonNegative | backend/models/user.py:71 | with no negative points the score is never negative |
| UserModel.User.constructor | backend/models/user.py:7-31 | a new user is active, neither admin nor verified, with no score, no completions, no rank, no last login and empty profile columns, created and updated now |
| UserModel.User.ToDict | backend/models/user.py:40-65 | the dictionary has exactly the public keys, and the sensitive ones when asked for, in that order, each with its column's value |
| UserModel.User.UpdateStats | backend/models/user.py:67-72 | the completed count is the number of correct submissions and the score the sum of their points, a missing award counting 0 |
| UserModel.ToDictGet | backend/models/user.py:40-65 | looking a listed key up in the dictionary gives that key's entry |
| UserModel.HashNotListed | backend/models/user.py:42-63 | the password hash is neither a public nor a sensitive key |
| UserModel.ToDictHidesSecrets | backend/models/user.py:40-65 | the dictionary never carries the password hash, and carries the email only when sensitive data is asked for (`None` otherwise) |
| UserModel.ToDictSensitiveKeys | backend/models/user.py:58-63 | admin flag, active flag and update time are present exactly when sensitive data is asked for |
| UserModel.ToDictStats | backend/models/user.py:44-55 | the name, score, completed count and rank are always those of the user |
| UserModel.ByEmail | backend/models/user.py:9 | the user found has the email; none is found exactly when no user has it |
| UserModel.ByUsername | backend/models/user.py:8 | the user found has the name; none is found exactly when no user has it |
| UserModel.ById | backend/models/user.py:7 | the user found has the id; none is found exactly when no user has it |
| UserModel.RanksFollowScores | backend/models/user.py:74-79 | when ranks are positions in a list ordered by descending score, a higher score always has a better rank |
| UserModel.UpdateAllRankings | backend/models/user.py:74-80 | every scoring user gets its position in the descending order as rank, a higher score gets a better rank, and the other users keep theirs |
| UserModel.Score | backend/models/user.py:71 | the total score: the sum of the points of the correct submissions, where missing points and 0 add nothing |
| ProgressRoutes.StreakThreeConsecutiveDays | backend/routes/progress.py:293-301 | today, yesterday and the day before give a streak of 2 under the code as written |
| ProgressRoutes.IntendedThreeConsecutiveDays | backend/routes/progress.py:278-303 | the same three days give 3 under the intended count of consecutive days |
| ProgressRoutes.ActivityStreak | backend/routes/progress.py:278-303 | the streak of `calculate_activity_streak` over the distinct submission dates, newest first; 0 without dates |
| Strings.Split | backend/config.py:9-12 | `str.split(',')`: at least one part, none holding the separator |
| Strings.SplitJoinRoundTrip | backend/config.py:9-12 | joining the parts with the separator gives the text back |
| Strings.Trim | backend/config.py:49 | `str.strip()`: the result starts and ends with no whitespace and is never longer |
| Strings.TrimIdempotent | backend/config.py:49 | stripping twice is stripping once |
| Strings.IntegerText | backend/models/challenge.py:7 | a text reads as an integer only when it is an optional sign and digits |
| Strings.IntegerTextRoundTrip | backend/models/challenge.py:7 | the decimal text of any integer reads back as that integer |

## Left out

- Database and ORM: queries, pagination and commits are replaced by sequences of rows and by query results passed in. The unique constraints become preconditions on distinct rows and fresh token texts.
- Network, sessions and browser plumbing: API calls, toasts, navigation, localStorage, and file upload and download streaming. A page's reply from the server is an input.
- The wall clock: every `datetime.utcnow()` and `time.time()` is a `now` parameter. Dates are integer day numbers, and stamps are integer or real seconds.
- Library calls, modelled as parameters:
  - werkzeug hashing and `secure_filename`;
  - `uuid` and `secrets`;
  - JWT identity;
  - Python `re` (the e-mail formats and `validation_regex`);
  - `json.loads` and `float()`;
  - the free-text instruction parser of the challenge page.
- Floating point:
  - success-rate rounding;
  - the `number` answer format: `float()` is a parameter whose result is a real, an infinity or NaN; two finite values compare as exact reals rather than doubles;
  - `formatFileSize`, `get_file_size_mb` and `time_display`.
  - 0.3, 1.2 and 0.5 are exact rationals, with Python's `int()` truncation written out.
- Unicode: trimming, `\s` and case folding are over ASCII only. `Strings.IsSpace` is the whitespace both languages share: Python's `str.strip()` also removes the ASCII separators `\x1c` to `\x1f`, which JavaScript's `trim()` keeps, so a backend value padded with them is stripped by the source and not by the model.
- `FileRoutes.SafeFilenameChars`, `FileRoutes.SafeFilename`: the alphanumeric test is ASCII letters and digits. Python's `str.isalnum` in the filename filters (backend/routes/files.py lines 110 and 190) also accepts Unicode letters and digits, so such a name is refused by the model and accepted by the source.
- `SecurityConfig.IntOf`: only plain digit runs are read as numbers. A sign, surrounding whitespace or an underscore between digits (`"1_0"`), which Python's `int()` also accepts, is treated as the `ValueError` case.
- The fallback configuration used when `config.py` fails to import, and the unused `SESSION_*`, `CSRF_ENABLED`, `LOG_LEVEL` and `SECURITY_LOGGING` settings: the modelled gates never read them.
- `security_event` logging, `print` and `current_app.logger`: output only.
- `generate_csrf_token`: random output only. Its check, `validate_csrf_token`, is modelled.
- Concurrency: the shared `security_storage` dictionary and parallel requests are modelled one request at a time.
- JSON objects with duplicate keys, and the key order of `dict.update` results beyond "the later key wins".
- `list_files` and the read-only listing routes (`get_categories`, `get_challenges`, `get_challenge`, `start_challenge`, `get_my_progress`, `get_recent_solves`, the admin dashboard and lists, `get_user_stats`, `get_bookmarks`, `update_notes`): only presentation of stored rows. `start_challenge`'s new row is the `UserProgress.Started` constructor.
- The `Achievement` and `UserAchievement` tables, and `PasswordReset.to_dict`: nothing in the core reads them.
- Presentation-only pages and components (App, Navbar, Home, Dashboard, Leaderboard, Challenges, Profile, AdminDashboard, AdminSetupCheck) and all JSX rendering.
- The setup page's redirect check on load (AdminSetup.jsx lines 22-38) and the initial data load of the challenge page: network orchestration.
- The JavaScript coercions of `parseInt`, and the category-id `0` versus `''` distinction of the challenge forms: the category is an optional integer.
- The challenge modals' file uploads and their generic `handleChange` / `handleInputChange`: the uploads are network calls, and the change handlers are plain field replacements covered by the field records.
- Stale React closures and the batching of state updates: each handler is a function from the old state to the new one.
- `CreateChallengeModal.SetHint`, `CreateChallengeModal.UpdateQuestionHint`: require the edited index to be inside the list. JavaScript would also write past the end, but the page only offers existing indices.
- `CreateChallengeModal.AddQuestion`: requires a non-empty question list. The remove handler keeps at least one question, so `Math.max` of no ids never happens.
- `ChallengeScoring.CheckQuestion`: requires the question to carry `correct_answer`. Both callers test for it first.
- `PasswordResetModel.ResetStore.CreateResetToken`, `ResetRoutes.ForgotPasswordRoute`: require the drawn token text to be new. The randomness of `token_urlsafe` is not modelled.
- `ProgressModel.Complete`: `time_spent` and the completion time are reals, not IEEE doubles.
- `LeaderboardChart.BuildRows`: the JavaScript `forEach` order of `Object.keys` (numeric ids in ascending order) is not modelled. Rows are maps, and with distinct ids the order of writes cannot change them.
- The chart's `chartData.length === 0` fallback (ChallengeLeaderboard.jsx lines 152-155) is part of `LeaderboardChart.BuildChartData`, and `EmptyTimelineChart` and `ChartShape` show that it never fires: at least one row is always built.
- The ForgotPassword input handler (`setEmail` on change): a single field replacement.
- `Json.Value`: a JSON number is an integer. A fraction in a request body (an answer of 3.5, which the legacy check turns into text with `str()`, backend/routes/challenges.py lines 623-627) cannot be represented.
- `ChallengeModel.Challenge.ToDict`: omits the `success_rate` key that `to_dict` always includes (backend/models/challenge.py line 115). A JSON number here is an integer and cannot hold the rounded real; `ChallengeModel.SuccessRateShown` and `SuccessRateBounds` state that value instead.
- `ProgressRoutes.CalculateActivityStreak`: takes the query's dates as day numbers. `db.func.date` has no declared result type, so on the default SQLite database each result is text, no comparison with a `date` succeeds, and the source's streak would be 0 (backend/routes/progress.py lines 281-297). The model runs the loop's own recurrence over dates.
- `AdminRoutes.CreateChallenge`, `AdminRoutes.UpdateChallenge`: a number or boolean written to a text column, or a numeric text written to an integer column, is kept as given in the row and in the reply, where SQLite reads it back converted (7 as "7", "7" as 7).
- `AuthRoutes.UpdateProfile`, `AuthRoutes.ApplyProfile`: the state is the row as stored. After a 400 or 409 the request's session object still holds the copied profile columns until the request ends and the session is discarded; that in-memory copy is not modelled.
- `AdminRoutes.CreateChallenge`, `AdminRoutes.CreateChallengeAccepts`, `AdminRoutes.CreateChallengeRoute`: a list or dict `category_id` is answered 500. `Query.get` would read `[id]` and `{"id": id}` as a primary-key identifier, so such an id naming no category gets 400 "Invalid category" in the source (one naming a category still fails the commit with 500). A text id is read as an integer only when it is an optional sign and digits. SQLite also reads `"1.0"`, `"1e0"` and padded digits as integers.
- `AdminRoutes.SetupAdmin`, `AdminRoutes.SetupAdminAccepts`, `AdminRoutes.SetupAdminRoute`, `AdminRoutes.CreateUser`, `AdminRoutes.CreateUserAccepts`, `AdminRoutes.CreateUserRoute`, `AdminRoutes.CreateCategory`: an integer outside 64 bits counts as bindable, although the SQLite driver refuses to bind it (its OverflowError would give the 500).
- `ChallengeDetail.ToolIcon`: looks names up in the icon table only. In JavaScript a lower-cased name such as `constructor` also finds a key inherited by the table object, and that tool would not get the wrench.

## Findings

| source | as written | input that shows it | evidently intended | confidence | as-written member | corrected member |
|---|---|---|---|---|---|---|
| backend/routes/progress.py:297 | a date extends the streak when it equals the last accepted date minus `streak` days, so each step must skip further back | submissions today, yesterday and the day before give a streak of 2 | consecutive days count one each, giving 3 | not executed | ProgressRoutes.StreakThreeConsecutiveDays | ProgressRoutes.IntendedThreeConsecutiveDays |
