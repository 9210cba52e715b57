# Little Lemon: a Dafny model of the app's logic

Little Lemon is a small React Native restaurant app. A new user onboards with a first name and an email. The Home screen shows the restaurant's menu. The menu is fetched once from a remote feed and kept in a local SQLite table. It can be filtered by category chips and searched by name. On the Profile screen the user edits a nine-field profile, validates it, saves it to the device's key-value storage, or signs out.

This project models that logic in Dafny and proves what the code promises:

- `text.dfy`: character classes as JavaScript's regular expressions define them, ASCII case mapping, substring containment, and `split`/`join` on one character, with their round trips.
- `validators.dfy`: the three anchored patterns of `utils/validators.js`. Each pattern is a hand-written parser over the groups of the regular expression. Its language is stated independently as "the rendering of some well-formed parts". Round-trip lemmas tie the parser to that rendering.
- `database.dfy`: the `menu` table of `utils/database.js` as a class. It holds the rows in rowid order, whether the table exists, and the next rowid. Each SQL statement is replaced by its logical effect.
- `home.dfy`: the Home screen's sections, selection vector, active-category rule and image mapping, plus the screen as a class whose effects drive the store.
- `user_profile.dfy`: the profile record, the partial objects that JavaScript's object spread merges over it, single-field updates, the Save-button gate and the error map of `validateForm`.
- `storage.dfy`: AsyncStorage as a class mapping keys to saved users.
- `profile.dfy`: the Profile screen as a class, including the module-level `initialProfile` that loading overwrites.
- `session.dfy`: the reducer of `App.js`, the startup effect, `signIn`/`signOut` and screen selection.
- `onboarding.dfy`, `profile_image.dfy`, `filters.dfy`: the Next-button gate and payload, the avatar-or-initials rule, and the category chips.

Two choices of representation:

- Failures of storage reads and writes and the outcome of the network fetch are parameters of the methods that meet them.
- Prices are whole numbers of cents.

Searching by name uses SQLite's default `LIKE`, which ignores the case of ASCII letters; `Database.SaladAmongMains` shows a lower-case query finding a capitalised name.

Three constants need no row of their own, because the lemmas and constructors that use them state what they are:
- `Home.Sections` (screens/Home.js:25) is stated by `Home.SectionsQuoteFree` and `Filters.HomeChips`.
- `UserProfile.InitialProfile` (screens/Profile.js:19-29 and App.js:17-27, the same record) is stated by `UserProfile.DefaultsRejected`, `UserProfile.DefaultsWithValidIdentity` and `Onboarding.SignedUpProfile`.
- `Session.InitialState` (App.js:50-53) is stated by `Session.App.constructor`.

## Model

| member | source | states |
|---|---|---|
| `Text.Contains` | utils/database.js:61 | containment holds exactly when the needle occurs at some position of the text (the `%query%` pattern) |
| `Text.Lower` | utils/database.js:61 | ASCII case folding keeps the length and folds each character independently, as LIKE compares |
| `Text.JoinSplit` | utils/validators.js:4 | joining the pieces of a split at a character gives back the text |
| `Text.SplitJoin` | utils/validators.js:4 | splitting a join of separator-free pieces gives back the pieces |
| `Text.SplitAround` | utils/validators.js:4 | splitting at one separator occurrence splits each side independently |
| `Text.JoinSnoc` | utils/validators.js:4 | appending a last piece to a join adds the separator and that piece |
| `Text.JoinAvoids` | utils/validators.js:4 | a join of pieces that avoid a character avoids it too |
| `Validators.LettersOnly` | utils/validators.js:9 | the recogniser accepts exactly the texts made only of ASCII letters |
| `Validators.ValidateName` | utils/validators.js:9 | a name is accepted iff it is non-empty and every character is A-Z or a-z |
| `Validators.ValidatePhone` | utils/validators.js:25 | the validator is the parser's success; `Validators.PhoneLanguage`, `Validators.TenDigits` and the samples state what it accepts |
| `Validators.ParsePhone` | utils/validators.js:25 | every parse is well-formed and renders back to the input |
| `Validators.ParsePhoneText` | utils/validators.js:25 | every well-formed phone number parses back into its own parts |
| `Validators.PhoneLanguage` | utils/validators.js:25 | a phone number is accepted iff it is the rendering of well-formed parts: optional `+1`/`+01` and one white-space character, optional `(`, three digits, optional `)`, optional separator, three digits, optional separator, four digits |
| `Validators.AcceptsPhone` | utils/validators.js:25 | any rendering of well-formed parts is accepted |
| `Validators.BodyHasTenDigits` | utils/validators.js:25 | a well-formed number has exactly ten digits outside the country code |
| `Validators.TenDigits` | utils/validators.js:25 | every accepted number has exactly ten digits after its optional country code |
| `Validators.DigitCountAppend` | utils/validators.js:25 | the digit count of a concatenation is the sum of the counts |
| `Validators.DigitCountAllDigits` | utils/validators.js:25 | a text of digits has as many digits as characters |
| `Validators.PhoneSampleDigits` | utils/validators.js:18 | `1234567890` is accepted |
| `Validators.PhoneSampleDashes` | utils/validators.js:19 | `123-456-7890` is accepted |
| `Validators.PhoneSampleParentheses` | utils/validators.js:20 | `(123) 456-7890` is accepted |
| `Validators.PhoneSampleSpaces` | utils/validators.js:21 | `123 456 7890` is accepted |
| `Validators.PhoneSampleDots` | utils/validators.js:22 | `123.456.7890` is accepted |
| `Validators.PhoneSampleCountryCode` | utils/validators.js:23 | `+1 (123) 456-7890` is accepted |
| `Validators.OpenParenthesisAlone` | utils/validators.js:25 | parentheses need not balance: `(1234567890` is accepted |
| `Validators.CloseParenthesisAlone` | utils/validators.js:25 | parentheses need not balance: `123)456-7890` is accepted |
| `Validators.ValidateEmail` | utils/validators.js:4 | the validator is the parser's success; `Validators.EmailLanguage` and the lemmas below state what it accepts |
| `Validators.ParseLocal` | utils/validators.js:4 | a parsed local part is well-formed (dotted atoms or a quoted string) and renders back to the input |
| `Validators.ParseDomain` | utils/validators.js:4 | a parsed domain is well-formed (a bracketed quad of 1-3 digit groups, or labels and a top-level domain of at least two letters) and renders back to the input |
| `Validators.ParseEmail` | utils/validators.js:4 | every parse is well-formed and renders back to the input, split at the last `@` |
| `Validators.ParseLocalText` | utils/validators.js:4 | every well-formed local part parses back into itself |
| `Validators.ParseDomainText` | utils/validators.js:4 | every well-formed domain parses back into itself and holds no `@` |
| `Validators.ParseEmailText` | utils/validators.js:4 | every well-formed address parses back into its own parts |
| `Validators.EmailLanguage` | utils/validators.js:4 | an email is accepted iff it is the rendering of a well-formed local part, `@` and a well-formed domain |
| `Validators.DottedLocalHasNoStrayDots` | utils/validators.js:4 | an unquoted local part never starts or ends with a dot and never holds two dots in a row |
| `Validators.LettersAreAtoms` | utils/validators.js:4 | a non-empty word of letters is an atom of the local part |
| `Validators.LettersAreLabel` | utils/validators.js:4 | a non-empty word of letters is a domain label |
| `Validators.AcceptsDottedAddress` | utils/validators.js:4 | two dot-joined words of letters, `@`, a word of letters, a dot and a top-level domain of at least two letters is accepted |
| `Validators.AcceptsQuotedAddress` | utils/validators.js:4 | a quoted local part of any text free of line terminators is accepted before such a host name |
| `Validators.AcceptsAddressLiteral` | utils/validators.js:4 | any four groups of one to three digits in brackets form an accepted domain |
| `Validators.EmailSampleDotted` | utils/validators.js:4 | `little.lemon@example.com` is accepted |
| `Validators.EmailSampleQuoted` | utils/validators.js:4 | a quoted local part may hold a space |
| `Validators.EmailSampleAddressLiteral` | utils/validators.js:4 | `chef@[999.1.2.3]` is accepted: there is no 0-255 range check |
| `Validators.OneCharTldRejected` | utils/validators.js:4 | a top-level domain of one character is rejected, whatever that character other than `@`, whatever the local part, and whatever the host (dots and brackets included) as long as it holds no `@` |
| `Validators.EmailRejectsShortTld` | utils/validators.js:4 | `a@b.c` is rejected: the top-level domain needs two letters |
| `Validators.DotlessDomainRejected` | utils/validators.js:4 | a domain without a dot is rejected, whatever the local part |
| `Validators.EmailRejectsBareHost` | utils/validators.js:4 | `a@localhost` is rejected |
| `Validators.EmptyRejected` | utils/validators.js:4-25 | the empty text is rejected by all three validators |
| `Database.FormatPrice` | utils/database.js:34 | the stored price text is whole units without leading zeros, a dot, and exactly two digits: it starts with `0` only below one unit, and then as `0.` |
| `Database.PriceRoundTrip` | utils/database.js:34 | the stored price text denotes exactly the amount the feed gave |
| `Database.DecimalValue` | utils/database.js:34 | the decimal numeral of a number denotes that number |
| `Database.NewRows` | utils/database.js:29-35 | one row per item, in input order, each copying its item under consecutive rowids |
| `Database.InsertedDishes` | utils/database.js:33-34 | the inserted rows' contents are the feed items' fields with the price formatted |
| `Database.DishesOfAppend` | utils/database.js:19-27 | the contents of concatenated rows are the concatenated contents |
| `Database.InsertTwiceDuplicates` | utils/database.js:29-35 | inserting the same items twice stores each item twice after the earlier rows: insertion is not an upsert |
| `Database.Select` | utils/database.js:44-72 | the filter never returns more rows than the table holds |
| `Database.SelectMembers` | utils/database.js:44-72 | a row is in the result iff it is in the table and matches the WHERE clause |
| `Database.SelectIdsAbove` | utils/database.js:44-72 | the result holds only rows of the table: a lower bound on all rowids bounds the result's |
| `Database.SelectKeepsOrder` | utils/database.js:44-72 | the result keeps table order: rowids still increase along it |
| `Database.SelectAllCategories` | utils/database.js:46-51 | with no query and every row's category active, the filter returns the whole table |
| `Database.NameLike` | utils/database.js:61 | the `name like '%query%'` test: containment after folding ASCII case |
| `Database.NameLikeIgnoresCase` | utils/database.js:61 | the name search gives the same answer after folding the name and the query to lower case: it ignores ASCII case |
| `Database.SaladInName` | utils/database.js:61 | an instance: the lower-case query `salad` finds the name `Lemon Salad Chicken` |
| `Database.Matches` | utils/database.js:49-63 | the WHERE clause: the category is one of the active ones and, for a non-empty query, the name is LIKE it; `Database.SelectMembers` states the filter by it |
| `Database.SaladAmongMains` | utils/database.js:59-63 | searching "salad" among mains finds only the main named with "Salad" |
| `Database.NextRowId` | utils/database.js:10 | the next rowid is at least 1 and above every rowid present when rowids increase |
| `Database.IdsUnique` | utils/database.js:10 | rowids are unique among the current rows |
| `Database.MenuDb.constructor` | utils/database.js:3 | a fresh database has no `menu` table |
| `Database.MenuDb.CreateTable` | utils/database.js:5-17 | afterwards the table exists; an existing table keeps its rows and next rowid |
| `Database.MenuDb.GetMenuItems` | utils/database.js:19-27 | every current row when the table exists, a promise that never settles otherwise; the table is not modified |
| `Database.MenuDb.InsertAllDishes` | utils/database.js:29-41 | appends exactly the new rows for the items and keeps rowids increasing; a missing table rejects a non-empty batch and changes nothing, while an empty batch resolves |
| `Database.MenuDb.FilterByQueryAndCategories` | utils/database.js:44-72 | rejects on a missing table or an empty category list; otherwise, for quote- and wildcard-free text, the matching rows; read-only |
| `Database.MenuDb.DeleteAllDishes` | utils/database.js:74-84 | the table stays but is empty and rowids restart at 1; a missing table rejects |
| `Database.MenuDb.DeleteMenuTable` | utils/database.js:86-92 | the table is gone with its rows |
| `Home.InitialSelections` | screens/Home.js:38-41 | one cleared slot per section |
| `Home.Toggle` | screens/Home.js:140-144 | flips exactly the chosen slot and keeps the length and every other slot |
| `Home.ToggleTwice` | screens/Home.js:140-144 | flipping a slot twice restores the vector |
| `Home.ActiveCategories` | screens/Home.js:110-116 | all sections when nothing is selected, otherwise exactly the selected sections, always in section order |
| `Home.ActiveNeverEmpty` | screens/Home.js:110-121 | with one slot per section the active list is never empty, so the store's empty-list failure is unreachable |
| `Home.SectionsQuoteFree` | screens/Home.js:25 | every active category is free of quotes, so it stays a plain SQL string literal |
| `Home.FetchImage` | screens/Home.js:146-157 | the two bundled images map to local assets, every other one to the image repository's URL for that name |
| `Home.FetchImageInjective` | screens/Home.js:146-157 | different image names never share a source |
| `Home.HomeScreen.constructor` | screens/Home.js:35-41 | empty menu, empty search, no section selected |
| `Home.HomeScreen.Mount` | screens/Home.js:43-67 | fetches iff the store is empty; stored rows are shown without a fetch; a fetched menu is inserted and shown as fetched; a failed fetch is alerted and leaves the store empty |
| `Home.HomeScreen.RefreshMenu` | screens/Home.js:108-127 | shows the store's rows matching the query and the active categories; a rejected filter is only alerted |
| `Home.HomeScreen.HandleFiltersChange` | screens/Home.js:140-144 | the selection vector is toggled at the index |
| `Home.HomeScreen.HandleSearchChange` | screens/Home.js:129-138 | the search bar and the query become the typed text |
| `UserProfile.Overlay` | screens/Profile.js:54 | for every one of the nine keys, a key present in the merged object wins and an absent key keeps the base value |
| `UserProfile.OverlayAll` | App.js:77 | merging a complete record gives that record |
| `UserProfile.OverlayNothing` | screens/Profile.js:54 | merging `null` or an empty object changes nothing |
| `UserProfile.OverlayTwice` | screens/Profile.js:54 | merging the same object twice is merging it once |
| `UserProfile.WithText` | screens/Profile.js:73-78 | sets one text field and leaves every other field unchanged |
| `UserProfile.Toggled` | screens/Profile.js:80-84 | negates one preference and leaves every other field unchanged |
| `UserProfile.ToggledTwice` | screens/Profile.js:80-84 | toggling a preference twice restores the profile |
| `UserProfile.WithOwnText` | screens/Profile.js:73-78 | writing a field's own text back changes nothing |
| `UserProfile.WithAvatar` | screens/Profile.js:110-121 | sets the avatar and leaves every other field unchanged |
| `UserProfile.SaveEnabled` | screens/Profile.js:362-363 | the Save gate: email and first name valid, and last name and phone each empty or valid |
| `UserProfile.FormErrors` | screens/Profile.js:124-158 | the error object of a profile, from its own validator verdicts; `UserProfile.ErrorsEmptyIffSaveEnabled` ties it to the Save gate |
| `UserProfile.ErrorsFor` | screens/Profile.js:126-151 | given the validators' verdicts, which keys the error object holds: a required name or email missing, or a filled-in field that fails its validator |
| `UserProfile.ErrorMessages` | screens/Profile.js:126-151 | each key carries the message shown under its field; an empty email is reported as required, an invalid one as invalid |
| `UserProfile.ErrorsForEmpty` | screens/Profile.js:126-151 | the error object is empty iff both required fields are filled in and every check passes |
| `UserProfile.ErrorsEmptyIffSaveEnabled` | screens/Profile.js:124-158 | the error object of a profile is empty iff the Save button is enabled for it |
| `UserProfile.DefaultsWithValidIdentity` | screens/Profile.js:362-363 | the defaults with a valid first name and email can be saved |
| `UserProfile.DefaultsRejected` | screens/Profile.js:19-29 | the blank defaults cannot be saved; their errors are exactly "first name required" and "email required" |
| `Storage.KeyValueStore.constructor` | App.js:59 | a fresh store is empty |
| `Storage.KeyValueStore.GetItem` | App.js:59 | the stored value, `null` for an absent key, or a failed read |
| `Storage.KeyValueStore.SetItem` | App.js:77 | on success the key maps to the value; on failure nothing changes |
| `Storage.KeyValueStore.RemoveItem` | App.js:85 | on success the key is absent; on failure nothing changes |
| `ProfileForm.ProfileDefaults.constructor` | screens/Profile.js:19-29 | the module-level defaults start blank |
| `ProfileForm.ProfileScreen.constructor` | screens/Profile.js:37-39 | the form starts from the module-level defaults, with no errors and not valid |
| `ProfileForm.ProfileScreen.Load` | screens/Profile.js:49-70 | a saved user replaces both the defaults and the form; nothing saved or a failed read changes neither |
| `ProfileForm.ProfileScreen.UpdateForm` | screens/Profile.js:73-78 | one text field replaced |
| `ProfileForm.ProfileScreen.UpdatePreference` | screens/Profile.js:80-84 | one preference negated |
| `ProfileForm.ProfileScreen.PickImage` | screens/Profile.js:99-115 | a picked uri becomes the avatar; a cancelled pick changes nothing |
| `ProfileForm.ProfileScreen.RemoveImage` | screens/Profile.js:117-122 | the avatar becomes `null`, so the initials show |
| `ProfileForm.ProfileScreen.ResetProfile` | screens/Profile.js:169-171 | the form becomes the last loaded profile |
| `ProfileForm.ProfileScreen.ValidateForm` | screens/Profile.js:124-158 | the errors are the error map of the profile and the form is valid iff Save is enabled |
| `ProfileForm.BuildErrors` | screens/Profile.js:126-151 | the field-by-field construction yields the error map |
| `ProfileForm.ProfileScreen.SaveUpdate` | screens/Profile.js:160-167 | on success the whole current profile is stored under `'user'` |
| `Session.Reduce` | App.js:30-54 | SIGN_IN and SIGN_OUT set only the onboarding flag, STOP_LOADING clears only the loading flag, any other action yields `undefined` |
| `Session.ReduceIdempotent` | App.js:33-47 | each known action is idempotent |
| `Session.StopLoadingCommutes` | App.js:33-47 | signing in or out commutes with stopping the loading |
| `Session.LastSignWins` | App.js:33-42 | of two sign-in/sign-out actions the last one decides |
| `Session.Screens` | App.js:97-131 | Splash iff loading; Home and Profile iff loaded and onboarded; Onboarding iff loaded and not onboarded |
| `Session.App.constructor` | App.js:50-53 | loading and not onboarded |
| `Session.App.Startup` | App.js:56-70 | onboarded afterwards iff it was before or a user is saved and readable; loading always ends |
| `Session.App.SignIn` | App.js:75-82 | on a successful write the defaults merged with the object are saved and the user is onboarded; a failed write changes nothing |
| `Session.App.SignOut` | App.js:83-90 | on a successful removal no user is saved and the user is signed out; a failure changes nothing |
| `Onboarding.SetFirstName` | screens/Onboarding.js:66 | overwrites only the first name |
| `Onboarding.SetEmail` | screens/Onboarding.js:76 | overwrites only the email |
| `Onboarding.SettersCommute` | screens/Onboarding.js:66-76 | the two inputs are independent |
| `Onboarding.Payload` | screens/Onboarding.js:85 | exactly the keys `firstName` and `email` |
| `Onboarding.NextEnabled` | screens/Onboarding.js:86 | the Next gate: first name and email both valid; `Onboarding.SignedUpProfile` shows it implies the Save gate |
| `Onboarding.InitiallyDisabled` | screens/Onboarding.js:14-17 | Next starts disabled |
| `Onboarding.SignedUpProfile` | screens/Onboarding.js:85-86 | the saved user is the defaults with the two entered fields, and it passes the Profile screen's Save gate whenever Next was enabled |
| `ProfileImage.Initial` | components/ProfileImage.js:36 | empty for an empty name, else one character: the name's first, upper-cased |
| `ProfileImage.Initials` | components/ProfileImage.js:36 | one character per non-empty name, none of them a lower-case letter, led by the first name's initial and ended by the last name's, so equal initials are both kept |
| `ProfileImage.Render` | components/ProfileImage.js:3-39 | a picture with the avatar's uri iff the avatar is truthy, otherwise the initials |
| `ProfileImage.InitialsOfLetters` | components/ProfileImage.js:36 | names of ASCII letters give initials of ASCII capitals |
| `ProfileImage.NoPictureWithoutUri` | components/ProfileImage.js:4 | a removed or default avatar shows the initials |
| `Filters.Capitalize` | components/Filters.js:25 | same length, first character upper-cased, the rest unchanged; empty for an empty section |
| `Filters.CapitalizeIdempotent` | components/Filters.js:25 | capitalising twice is capitalising once |
| `Filters.Chips` | components/Filters.js:6-25 | one chip per section in order, carrying its own index; highlighted colours iff its slot is selected |
| `Filters.PressFlipsOwnSection` | components/Filters.js:8-10 | pressing a chip flips its own section's slot and changes its background, and leaves every other slot alone |
| `Filters.HomeChips` | components/Filters.js:6-25 | the Home screen starts with idle chips labelled Starters, Mains and Desserts |

## Left out

- The HTTP fetch and JSON parsing of the feed: the feed is an input, either its `menu` array or a failure.
- The SQL text, its parser and injection: each statement is modelled by its logical effect. A quote in the query or in a category changes the statement's meaning, and so do `%` and `_` in the query, which LIKE reads as wildcards; categories are compared with `=`, where `%` and `_` are plain characters. The filter's contract promises its rows only for a query free of all three and categories free of quotes.
- Database.MenuDb.FilterByQueryAndCategories: states its result only for a query without quotes, `%` or `_` and categories without quotes, because the SQL built from other text is not modelled.
- Home.HomeScreen.RefreshMenu: states the shown rows only when the query has no quote, `%` or `_`, because the SQL built from other text is not modelled; the categories it passes are always quote-free.
- Database.MenuDb.CreateTable: a failing `create table` (disk or engine errors) is not modelled; creation always succeeds.
- Mid-batch insert failures: the only failure modelled is a missing table, which fails the first insert of a non-empty batch and rolls back the whole transaction; an empty batch issues no statement and resolves.
- Database.FormatPrice: models `toFixed(2)` on prices given in whole cents; binary floating point and its rounding are not modelled. A price is a natural number of cents, so a negative feed price, which `toFixed(2)` would store as text such as `-1.50`, cannot be represented.
- Home: the feed's numeric prices are shown as given on first launch and as stored text afterwards; this display difference and all layout are not modelled.
- Debouncing, `useUpdateEffect`/`useFocusEffect` timing, the `isActive` flag and promise interleaving: each effect runs to completion when its method is called; `Home.HomeScreen.HandleSearchChange` sets the query at once.
- The Home and Profile headers that re-read the saved user and render its avatar; they only display.
- `ImagePicker`, `MaskedTextInput` masking and `Alert`: a pick is an input, an alert is a returned flag.
- AsyncStorage JSON serialisation: the stored value is the profile record itself. Every write stores a whole profile, so a saved user carries all nine keys.
- Text.UpperChar: models `toUpperCase` on ASCII letters only; other characters are left unchanged, though JavaScript maps some to other or longer text.
- Unicode beyond the explicit white-space and line-terminator sets of JavaScript regular expressions.
- Home.HomeScreen.HandleFiltersChange: requires an index within the selection vector, the only indices the chips pass; JavaScript would extend the array otherwise.
- Font loading, the splash screen, styles, navigation options, and the button, logo and splash components: display plumbing.
