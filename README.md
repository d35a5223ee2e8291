# Smart Dictionary: credential store, session state machine and lookup display

A Dafny model of the logic inside `juniorsaidictionaryhelper.py`, a Streamlit app
for looking up English words. The app has three pieces of logic. Everything else in
the file is rendering.

- **Credential store** (`Credentials`). `users.json` is a table from user name to the
  hex SHA-256 digest of that user's password. `register_user`, `verify_user` and
  `change_password` read the whole table and, when they change it, write it all back.
  The table is a `map<string, Hash>`, so user names are unique by construction. The
  class `UserFile` holds the file's contents in a field that its methods reassign; a
  missing file gives an empty table. The digest function is a `const` of the class
  (and a parameter of the pure functions), so every result holds for any
  deterministic digest. No result assumes the digest is injective. A property about a
  wrong password says what holds unless the two digests collide.
- **Session and page state machine** (`Session`). The session holds `authenticated`,
  `username` and `page`. Each script run stores the page chosen in the sidebar
  unconditionally, then runs the handler of whichever button was pressed: Logout (shown
  only while logged in), Login, Register (stopped while logged in), or Update Password
  in Settings (stopped while anonymous). Pure functions give the state after each
  transition. The class `App` reassigns its three fields as the script does, and is
  proved to follow those functions. `Step`/`Run` replay a sequence of user actions with
  the handlers as written; the invariant `Inv` holds after any sequence.
- **Lookup display** (`Lookup`). The typed word is stripped and lower-cased. A blank
  word means no lookup. The service's decoded reply becomes the list of lines the page
  shows. Definitions are numbered from 1 within each meaning. Examples, synonyms and
  antonyms appear only when their check box is on and they are present. Synonyms and
  antonyms are cut to their first ten.
- **Strings** (`Text`). Python's `str.strip()` uses Python's own whitespace set. Also
  modelled: `str.lower()` and `str.capitalize()`.

Behaviours of the code worth knowing, all modelled as the code has them:

- An anonymous visitor who picks Dictionary or Settings stays on that page. The code
  stores the choice unconditionally and only withholds the content behind a
  warning. It does not hold the visitor at the current page or redirect to Login.
  `ScreenFor` and `RegisterLoginLogoutScenario` state this.
- `change_password` writes `users[username]` without checking that the user exists.
  For an absent name it adds an entry (`Credentials.ChangePassword`). Only a
  logged-in session reaches it, and `SessionInv` ensures that the session's user
  exists, so in the application the key set never changes.
- The session's user name is the stripped input, not the input as typed.
- The code has no rename operation, so none is modelled.

## Model

| member | source | states |
|---|---|---|
| `Text.Strip` | juniorsaidictionaryhelper.py:134 | the stripped input has no whitespace (Python's set) at either end and is no longer than the input |
| `Text.StripIsSlice` | juniorsaidictionaryhelper.py:155 | strip keeps exactly the slice between leading and trailing whitespace and cuts only whitespace; the result is empty iff the input is all whitespace |
| `Text.StrippedIsFixed` | juniorsaidictionaryhelper.py:136 | stripping a string with no surrounding whitespace changes nothing |
| `Text.StripIdempotent` | juniorsaidictionaryhelper.py:134-136 | stripping twice equals stripping once |
| `Text.TrimLeftIsSuffix` | juniorsaidictionaryhelper.py:134 | removing leading whitespace keeps a suffix and cuts only whitespace |
| `Text.TrimRightIsPrefix` | juniorsaidictionaryhelper.py:134 | removing trailing whitespace keeps a prefix and cuts only whitespace |
| `Text.Lower` | juniorsaidictionaryhelper.py:182 | lower-casing keeps the length and maps each character on its own |
| `Text.LowerKeepsShape` | juniorsaidictionaryhelper.py:182-184 | lower-casing leaves no upper-case letter, keeps a stripped word stripped and a non-empty one non-empty, and is idempotent |
| `Text.Capitalize` | juniorsaidictionaryhelper.py:195 | a lower-case first letter becomes upper case and any other first character is kept; no later character is upper case: later upper-case letters become lower case and everything else is kept |
| `Text.CapitalizeSameLetters` | juniorsaidictionaryhelper.py:195 | capitalising changes only case: the capitalised word lower-cases to the word lower-cased |
| `Text.CapitalizeIdempotent` | juniorsaidictionaryhelper.py:195 | capitalising a capitalised word changes nothing |
| `Credentials.RegisterUser` | juniorsaidictionaryhelper.py:57-65 | an empty name or password fails with the empty-field message; a taken name fails with the duplicate message; either failure leaves the table (and that user's digest) unchanged; success adds exactly that name, mapped to the password's digest, and keeps every other entry |
| `Credentials.VerifyUser` | juniorsaidictionaryhelper.py:67-69 | true only for a name in the table whose digest equals the password's; an unknown name and a wrong password both give false |
| `Credentials.ChangePassword` | juniorsaidictionaryhelper.py:71-74 | the user's entry becomes the new password's digest, every other entry is kept, and the key set gains at most that name |
| `Credentials.RegisterThenVerify` | juniorsaidictionaryhelper.py:63-69 | after a successful registration the same name and password verify, and they did not before |
| `Credentials.RegisterKeepsOtherUsers` | juniorsaidictionaryhelper.py:60-64 | a registration never changes whether another user's login verifies |
| `Credentials.ChangePasswordThenVerify` | juniorsaidictionaryhelper.py:71-74 | after a change the new password verifies; the old one fails when the digests differ; an existing user's change keeps the key set |
| `Credentials.UserFile.Missing` | juniorsaidictionaryhelper.py:47-49 | a missing users file is an empty table |
| `Credentials.UserFile.Load` | juniorsaidictionaryhelper.py:50-51 | an existing users file is the table it holds |
| `Credentials.UserFile.Register` | juniorsaidictionaryhelper.py:57-65 | the file afterwards, the success flag and the message are those of `RegisterUser` |
| `Credentials.UserFile.UpdatePassword` | juniorsaidictionaryhelper.py:71-74 | the file afterwards is `ChangePassword` of the file before |
| `Session.ScreenFor` | juniorsaidictionaryhelper.py:129-244 | Login is always shown; Register's form only while anonymous; Dictionary and Settings content only while logged in, otherwise their warning, on the page chosen |
| `Session.Selected` | juniorsaidictionaryhelper.py:80-85 | the sidebar choice becomes the page whatever the state; login status and user name are kept |
| `Session.LoggedIn` | juniorsaidictionaryhelper.py:133-141 | with a stripped name and password that verify: logged in as the stripped name (a registered user), on Dictionary; otherwise the state is unchanged |
| `Session.SignedUp` | juniorsaidictionaryhelper.py:147-161 | never logs in; while logged in nothing changes; otherwise the table and message are those of registering the stripped inputs, and only a success moves to Login |
| `Session.ChangedPasswordAsWritten` | juniorsaidictionaryhelper.py:240-262 | as written: nothing while anonymous; an empty new password is refused; any other is stored unstripped under the session's user |
| `Session.ChangedPassword` | juniorsaidictionaryhelper.py:257-262 | corrected (not used by `Step` or `App`): nothing while anonymous; a new password that strips to empty is refused; otherwise its stripped form is stored under the session's user |
| `Session.LogoutIsFresh` | juniorsaidictionaryhelper.py:87-92 | logout resets to anonymous, no user name, Login page, and leaves the table alone |
| `Session.UpdatePasswordStep` | juniorsaidictionaryhelper.py:240-262 | within a script run, Update Password never changes the session; on Settings while logged in, a non-empty new password replaces the user's digest by the digest of the input as typed; otherwise the store is unchanged |
| `Session.StepKeepsInv` | juniorsaidictionaryhelper.py:80-262 | every action keeps the invariant: a logged-in session's user is in the table under a stripped name, an anonymous session has no name, every stored name is non-empty and stripped |
| `Session.RunKeepsInv` | juniorsaidictionaryhelper.py:18-25 | any sequence of actions keeps the invariant |
| `Session.DictionaryNeedsAccount` | juniorsaidictionaryhelper.py:166-171 | starting from a missing users file, whenever the dictionary is shown, its "logged in as" name is a registered, non-empty user |
| `Session.RegisterLoginLogoutScenario` | juniorsaidictionaryhelper.py:87-168 | register ada/lovelace1, log in, reach Dictionary; log out, choose Dictionary: the page is kept but withholds its content |
| `Session.SettingsScenario` | juniorsaidictionaryhelper.py:129-244 | Settings withholds its content while anonymous and shows it after a login with a padded user name |
| `Session.LockedOutAsWritten` | juniorsaidictionaryhelper.py:257-259 | as written, a new password with surrounding whitespace is accepted; the stripped password Login compares is never that password, so a later login as that user succeeds only on a digest collision |
| `Session.LockedOutBySpace` | juniorsaidictionaryhelper.py:258-259 | a new password of a single space is accepted and stored; no typed password strips to " ", so a later login as that user succeeds only on a digest collision with " " |
| `Session.ChangedPasswordLogsIn` | juniorsaidictionaryhelper.py:257-262 | corrected: an accepted new password logs the user in with that same input, for any digest function, and the key set is unchanged |
| `Session.App.constructor` | juniorsaidictionaryhelper.py:18-25 | a new session is anonymous, has no user name, is on Login, and satisfies the invariant |
| `Session.App.SelectPage` | juniorsaidictionaryhelper.py:80-85 | the fields afterwards are `Selected` of the fields before |
| `Session.App.Logout` | juniorsaidictionaryhelper.py:87-92 | the three fields are reset to the fresh-session values |
| `Session.App.SubmitLogin` | juniorsaidictionaryhelper.py:133-141 | returns the verification of the stripped inputs; the fields afterwards are `LoggedIn` of the fields before |
| `Session.App.SubmitRegistration` | juniorsaidictionaryhelper.py:147-161 | the fields, the file and the notice afterwards are those of `SignedUp` |
| `Session.App.SubmitPasswordChange` | juniorsaidictionaryhelper.py:240-262 | the file and the notice afterwards are those of the handler as written, `ChangedPasswordAsWritten`; the invariant is kept |
| `Lookup.Take` | juniorsaidictionaryhelper.py:230 | `xs[:n]`: the first `min(len(xs), n)` items |
| `Lookup.NormalizedWord` | juniorsaidictionaryhelper.py:182-184 | no word exactly when the input strips to empty; otherwise the stripped input with each character lower-cased, which is non-empty, stripped and has no upper-case letter |
| `Lookup.Render` | juniorsaidictionaryhelper.py:186-235 | only the "No Definitions Found" reply gives the not-found notice; any other object, an empty list or a failed request gives the error line; an entry's page starts with its capitalised word |
| `Lookup.LookupPage` | juniorsaidictionaryhelper.py:182-192 | a blank word shows nothing and asks the service nothing; otherwise the page is the rendered reply for the normalised word |
| `Lookup.DefinitionNumbering` | juniorsaidictionaryhelper.py:218-225 | each definition of a meaning appears once, in order, the k-th numbered start+k (or bulleted in the minimal style) |
| `Lookup.MeaningNumberedFromOne` | juniorsaidictionaryhelper.py:216-223 | in the detailed style a meaning's definitions are numbered 1..n under its part of speech ("" when absent) |
| `Lookup.HeadlinesAppend` | juniorsaidictionaryhelper.py:218 | the definition lines of two runs of lines are those of the first followed by those of the second |
| `Lookup.BlockHeadlines` | juniorsaidictionaryhelper.py:218-232 | one definition contributes exactly one definition line |
| `Lookup.RenderRespects` | juniorsaidictionaryhelper.py:196-232 | every phonetic, audio, example, synonym and antonym line appears only with its option on; audio only when non-empty; every synonym or antonym list shown has 1 to 10 items |
| `Lookup.ListsShown` | juniorsaidictionaryhelper.py:227-232 | a definition shows its example exactly when examples are on and it has one, and then that example; synonyms (antonyms) exactly when the option is on and its list is non-empty, and then that list's first ten |
| `Lookup.PhoneticShown` | juniorsaidictionaryhelper.py:197-204 | a phonetic entry shows its text exactly when it has one, and then that text; its audio exactly when audio is on and the URL is non-empty, and then that URL |

## Findings

| source | as written | input that shows it | evidently intended | confidence | as-written member | corrected member |
|---|---|---|---|---|---|---|
| juniorsaidictionaryhelper.py:257-259 | Update Password checks `if new_pass` and stores `new_pass` unstripped, while Login strips the typed password (line 134) | logged in as "ada", new password " " (one space): accepted and stored; every later login strips the typed password, so the password Login compares is never the stored one, and a login succeeds only on a SHA-256 collision | strip the new password, as Register does (line 155), refuse it when blank, and store the stripped form | not executed; medium | `Session.LockedOutAsWritten` | `Session.ChangedPasswordLogsIn` |

`Step`, `Run` and `App.SubmitPasswordChange` follow the code as written, so `StepKeepsInv`, `RunKeepsInv` and `DictionaryNeedsAccount` hold for the program as it is. The corrected handler is `Session.ChangedPassword`.

## Left out

- Streamlit itself is not modelled: widgets, `st.stop`, `st.experimental_rerun`, and the success, error, info and caption messages. Only their effect on the session state and on what a page shows is modelled.
- Theming is not modelled (lines 27-39, 97-124, 246-252): the theme, the brightness slider (a float), font size and colours are cosmetic.
- The HTTP request, JSON decoding and the exception text (lines 186-187, 234-235) are outside the model. The service is a parameter that returns an already-decoded `Reply`, and the error line carries no message.
- In the model an entry always has `word` and a definition always has `definition`. Without `word` the code raises at line 195 before anything of the entry is shown, so only the error line appears. Without `definition` it raises at line 221 or 225 part-way through the page, so the lines already shown stay above the error line. Neither case is modelled.
- Real file I/O is not modelled. A `users.json` that fails to parse, and several processes writing the file at once, are outside the model; the file is the `users` field.
- SHA-256 is a parameter. No property depends on its internals.
- Audio playback format, HTML spans, the two-column layout option and `", ".join` are presentation only. A synonym or antonym line carries the list it joins.
- Text.Lower: lower-cases only the ASCII letters. Python's `str.lower()` also maps other Unicode letters, and modelling the Unicode case tables is out of scope.
- Text.Capitalize: upper-cases only an ASCII first letter, for the same reason.
- Step: a button that the current state does not show has no effect. The class methods instead require the page their button sits on.
