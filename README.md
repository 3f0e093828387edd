# Resume builder core, modelled in Dafny

This project models the logic of a resume-builder web application and proves
properties of it. It covers the front end's resume editor, the contact form and
two small widgets, and the back end's in-memory user registry.

- **Resume editor** (`src/components/ResumeBuilder.tsx`):
  - the completeness validator, which turns a resume record into an ordered list of
    messages, and the completeness test built on it;
  - adding, updating and removing experience and education entries by id;
  - adding, removing and bulk-parsing skills;
  - the export gate: the refusal message, the PDF filename, the two flags
    `isExportingPDF` and `showSuccessCelebration`, and the export button;
  - the template gallery filter and its count caption;
  - the live preview's rules for which blocks and placeholders appear.
- **Authentication server** (`server/server.js`):
  - the `users` array;
  - signup and signin;
  - the `authenticateToken` middleware;
  - the `/api/auth/me`, `/api/auth/refresh` and `/api/user/profile` lookups.
- **Contact form** (`src/components/ContactSection.tsx`): input editing, and the
  Gmail compose link with its `encodeURIComponent` percent-encoding. The encoding is
  UTF-8 bytes as `%XX` with the unreserved set of ECMA-262 `encodeURIComponent`,
  following section 2.1 of RFC 3986. A decoder is written beside it as its partner.
- **Trial banner** (`src/components/TrialBanner.tsx`): the countdown split of
  milliseconds into days, hours, minutes and seconds.
- **Navigation bar** (`src/components/Navigation.tsx`): `getUserInitials`.

## Files and modules

One module per file:

- `wrappers.dfy`: `Option`.
- `text.dfy`: JavaScript's `trim`, `toLowerCase`, `toUpperCase`, `includes`, `split`,
  `join` and number-to-string, over ASCII.
- `lists.dfy`: `map` and `filter`, with their laws.
- `resume_model.dfy`: the resume record and its initial value.
- `validation.dfy`, `sections.dfy`, `export.dfy`, `gallery.dfy`, `preview.dfy`: the
  editor.
- `auth_server.dfy`: the server.
- `percent_encoding.dfy` and `contact.dfy`: the contact form.
- `countdown.dfy`: the trial banner.
- `initials.dfy`: the navigation initials.

## How the model is built

- **Validator.** `validateResumeData` pushes onto a local array inside loops, so it is
  the method `Validation.ValidateResumeData`, with loops and invariants. Its result
  equals `Messages(Issues(d))`:
  - `Issues(d)` is a list of structured `Issue` values, one per failed check, in the
    source's order;
  - `Message` gives each issue the exact text the source pushes.

  The properties are proved about `Issues`, and `Message` is proved injective, so
  they carry over to the strings.
- **List, skill, filter and preview code.** This code rebuilds records with spread,
  `map` and `filter`, so it is modelled as functions on values.
- **Flags and registry.** The export flags and the server's `users` array are changed
  in place, so they are fields of the classes `ExportGate.Exporter` and
  `AuthServer.UserRegistry`. Their methods state the new state.
- **Server handlers.** Each handler's decision is also a function (`SignupOutcome`, which
  is `SignupRefusal` followed by `SignupCommit`,
  `SigninReply`, `AccountReply`, `RefreshReply`). The lemmas that relate several
  requests are proved on those functions.
- **Parameters instead of hidden inputs.** These become parameters of the model:
  - ids (`Date.now()`) and timestamps;
  - the bcrypt `hash` and `compare`, and the JWT `sign` and `verify`, as
    uninterpreted functions;
  - the current time of the trial banner;
  - whether the preview element is mounted.
- **Request bodies.** Body fields are `Option<string>`. A field is JavaScript-truthy
  when it is present and not empty.
- **Password length.** A password's length is counted in UTF-16 code units
  (`Utf16Length`), as JavaScript's `length` counts it.

## Model

| member | source | states |
|---|---|---|
| `Validation.ValidateResumeData` | src/components/ResumeBuilder.tsx:257-320 | The loops build exactly the messages of `Issues(d)`, in order: the five personal checks, the experience section, the education section, then skills. |
| `Validation.PersonalErrors` | src/components/ResumeBuilder.tsx:260-275 | Yields the messages for name, email, phone, location and summary whose trimmed value is empty, in that order. |
| `Validation.ExperienceErrors` | src/components/ResumeBuilder.tsx:277-295 | Yields one "At least one work experience" message for an empty list. Otherwise yields each entry's messages in list order, numbered from 1. |
| `Validation.ExperienceEntryErrors` | src/components/ResumeBuilder.tsx:281-294 | Yields one entry's company, position, duration and description messages for the blank fields, carrying the entry's number. |
| `Validation.EducationErrors` | src/components/ResumeBuilder.tsx:297-312 | Yields one "At least one education entry" message for an empty list. Otherwise yields each entry's messages, numbered from 1. |
| `Validation.EducationEntryErrors` | src/components/ResumeBuilder.tsx:301-311 | Yields one entry's institution, degree and year messages for the blank fields. |
| `Validation.IsResumeComplete` | src/components/ResumeBuilder.tsx:322-324 | True exactly when the record is `Complete`: five non-blank personal fields, non-empty experience and education lists with every checked field non-blank, and at least one skill. |
| `Validation.IssuesEmptyIff` | src/components/ResumeBuilder.tsx:257-324 | The validator reports nothing if and only if the record is `Complete` (both directions). |
| `Validation.IssuesIgnoreUncheckedFields` | src/components/ResumeBuilder.tsx:257-319 | The result does not depend on linkedin, gmail, title, website, instagram, certifications, projects, awards, publications or keywords. |
| `Validation.IssueMembership` | src/components/ResumeBuilder.tsx:261-317 | An issue is reported if and only if its condition holds. Per-entry issues occur only for a non-empty list, with a number between 1 and the list's length. |
| `Validation.IssuesOrdered` | src/components/ResumeBuilder.tsx:261-317 | Issues are strictly ordered: by section (personal fields in order, experience, education, skills), then by entry number, then by field. |
| `Validation.SectionsOrdered` | src/components/ResumeBuilder.tsx:257-319 | Appending the personal, experience, education and skill sections, each ordered within its ranks, gives an ordered list. |
| `Validation.OrderedUnique` | src/components/ResumeBuilder.tsx:257-319 | Two strictly ordered lists of issues with the same members are equal. |
| `Validation.IssuesDetermined` | src/components/ResumeBuilder.tsx:257-319 | Any strictly ordered list holding exactly the issues whose condition holds is the validator's result. |
| `Validation.MessageInjective` | src/components/ResumeBuilder.tsx:262-316 | Different issues have different message texts, so the message list determines the issue list. |
| `Validation.MessageIsListItem` | src/components/ResumeBuilder.tsx:262-316 | Every message is non-empty, trimmed and comma-free, and does not end with a period. |
| `Validation.KindOfEachMessage` | src/components/ResumeBuilder.tsx:262-316 | From a message text alone the kind of check that produced it can be recovered. |
| `Validation.InitialIssues` | src/components/ResumeBuilder.tsx:217-238 | The editor's initial record yields the five personal messages, then the experience, education and skills messages, and no per-entry message. |
| `Validation.FilledRecordHasNoIssues` | src/components/ResumeBuilder.tsx:257-319 | A record with one filled experience, one filled education and one skill passes. |
| `Sections.AddExperience` | src/components/ResumeBuilder.tsx:327-339 | Appends exactly one entry, with the given id and empty text fields, at the end. Earlier entries and the rest of the record are unchanged. |
| `Sections.SetExperienceField` | src/components/ResumeBuilder.tsx:345 | The named field takes the value and every other field keeps its old value. |
| `Sections.UpdateExperience` | src/components/ResumeBuilder.tsx:341-348 | Keeps the length. Entries with the id change only the named field, and other entries and the rest of the record are unchanged. |
| `Sections.RemoveExperience` | src/components/ResumeBuilder.tsx:350-355 | The result holds no entry with the id, only entries of the old list, and every old entry with another id. |
| `Sections.RemoveExperienceKeepsOrder` | src/components/ResumeBuilder.tsx:353 | The kept entries are a subsequence of the old list, each with its old multiplicity. |
| `Sections.UpdateUnknownExperience` | src/components/ResumeBuilder.tsx:341-348 | Updating an id no entry has changes nothing. |
| `Sections.RemoveUnknownExperience` | src/components/ResumeBuilder.tsx:350-355 | Removing an id no entry has changes nothing. |
| `Sections.UpdateExperienceIdempotent` | src/components/ResumeBuilder.tsx:341-348 | Repeating an update changes nothing more. |
| `Sections.RemoveAddedExperience` | src/components/ResumeBuilder.tsx:327-355 | Removing the entry just added under a fresh id restores the record. |
| `Sections.ExperienceUpToPrefix` | src/components/ResumeBuilder.tsx:281-294 | The messages of the first k entries do not depend on the entries after them. |
| `Sections.AddExperienceIssues` | src/components/ResumeBuilder.tsx:327-339 | After an add, the experience messages are the old ones (minus the empty-list message) followed by the four blank-field messages of the new entry, numbered one past the old length. |
| `Sections.AddEducation` | src/components/ResumeBuilder.tsx:358-369 | Appends exactly one entry, with the given id and empty fields, at the end. Everything else is unchanged. |
| `Sections.SetEducationField` | src/components/ResumeBuilder.tsx:375 | The named field takes the value and the others keep theirs. |
| `Sections.UpdateEducation` | src/components/ResumeBuilder.tsx:371-378 | Keeps the length. Entries with the id change only the named field, and the rest is unchanged. |
| `Sections.RemoveEducation` | src/components/ResumeBuilder.tsx:380-385 | No entry with the id remains, only old entries remain, and every entry with another id is kept. |
| `Sections.RemoveEducationKeepsOrder` | src/components/ResumeBuilder.tsx:383 | The kept entries are a subsequence of the old list, each with its old multiplicity. |
| `Sections.UpdateUnknownEducation` | src/components/ResumeBuilder.tsx:371-378 | Updating an unknown id changes nothing. |
| `Sections.RemoveUnknownEducation` | src/components/ResumeBuilder.tsx:380-385 | Removing an unknown id changes nothing. |
| `Sections.UpdateEducationIdempotent` | src/components/ResumeBuilder.tsx:371-378 | Repeating an update changes nothing more. |
| `Sections.RemoveAddedEducation` | src/components/ResumeBuilder.tsx:358-385 | Removing the entry just added under a fresh id restores the record. |
| `Sections.EducationUpToPrefix` | src/components/ResumeBuilder.tsx:301-311 | The messages of the first k entries do not depend on later entries. |
| `Sections.AddEducationIssues` | src/components/ResumeBuilder.tsx:358-369 | After an add, the education messages are the old ones (minus the empty-list message) followed by the three blank-field messages of the new entry. |
| `Sections.AddSkill` | src/components/ResumeBuilder.tsx:401-408 | A blank skill, or one whose trimmed text is already present, leaves the record unchanged. Otherwise the skills become the old ones followed by the trimmed skill, and nothing else changes. |
| `Sections.AddSkillIdempotent` | src/components/ResumeBuilder.tsx:401-408 | Adding the same skill twice equals adding it once. |
| `Sections.AddSkillKeepsNoDuplicates` | src/components/ResumeBuilder.tsx:401-408 | A duplicate-free skill list stays duplicate-free. |
| `Sections.RemoveSkill` | src/components/ResumeBuilder.tsx:410-415 | Removes every exact match and keeps the multiplicity of every other skill. |
| `Sections.RemoveSkillKeepsOrder` | src/components/ResumeBuilder.tsx:413 | The kept skills are a subsequence of the old ones. |
| `Sections.RemoveSkillIdempotent` | src/components/ResumeBuilder.tsx:410-415 | Removing the same skill twice equals removing it once. |
| `Sections.RemoveSkillKeepsNoDuplicates` | src/components/ResumeBuilder.tsx:413 | A duplicate-free skill list stays duplicate-free after a removal. |
| `Sections.RemoveAddedSkill` | src/components/ResumeBuilder.tsx:401-415 | Removing a skill just added (trimmed) restores the record. |
| `Sections.ParseSkills` | src/components/ResumeBuilder.tsx:390-393 | Every parsed skill is non-empty, has no surrounding whitespace and holds no comma. |
| `Sections.UpdateSkills` | src/components/ResumeBuilder.tsx:388-399 | Replaces only the skills, with a list of such items. |
| `Sections.ParseJoinedSkills` | src/components/ResumeBuilder.tsx:390-393 | Parsing skills joined by ", " gives them back when each is trimmed, non-empty and comma-free. |
| `Sections.UpdateSkillsWithShownText` | src/components/ResumeBuilder.tsx:970-971 | Re-submitting the text area's shown value (`skills.join(', ')`) leaves the record unchanged. |
| `Sections.ParseKeepsDuplicates` | src/components/ResumeBuilder.tsx:390-393 | The parser keeps duplicates: "s, s" parses to two copies. |
| `ExportGate.Listed` | src/components/ResumeBuilder.tsx:424 | The listed errors are the first three, or all of them when there are fewer. |
| `ExportGate.IncompleteMessageRoundTrip` | src/components/ResumeBuilder.tsx:424 | The refusal text can be parsed back into the listed errors and whether more than three exist. |
| `ExportGate.RefusalListsFirstMessages` | src/components/ResumeBuilder.tsx:419-427 | For any incomplete record, the refusal text names the record's first three messages and says "and more..." exactly when it has more than three. |
| `ExportGate.MessagesListable` | src/components/ResumeBuilder.tsx:424 | Every validator message can be listed in the refusal text without being confused with the separators. |
| `ExportGate.Underscored` | src/components/ResumeBuilder.tsx:452 | The result has no whitespace and is no longer than the input. |
| `ExportGate.UnderscoredKeepsPlainText` | src/components/ResumeBuilder.tsx:452 | Text without whitespace is unchanged. |
| `ExportGate.UnderscoredRun` | src/components/ResumeBuilder.tsx:452 | A whole run of whitespace between two non-whitespace parts becomes a single underscore. |
| `ExportGate.UnderscoredLeadingRun` | src/components/ResumeBuilder.tsx:452 | A leading run of whitespace becomes a single underscore. |
| `ExportGate.Filename` | src/components/ResumeBuilder.tsx:452 | The filename has no whitespace and ends in "_Resume.pdf". |
| `ExportGate.FilenameOfBlankName` | src/components/ResumeBuilder.tsx:452 | An empty name gives "_Resume.pdf", with no fallback, and a run of spaces gives one more underscore. |
| `ExportGate.FilenameOfTwoWords` | src/components/ResumeBuilder.tsx:452 | "Ada", a space and a tab, then "Kay" gives "Ada_Kay_Resume.pdf". |
| `ExportGate.Exporter.constructor` | src/components/ResumeBuilder.tsx:253-254 | Both flags start false. |
| `ExportGate.Exporter.ExportResume` | src/components/ResumeBuilder.tsx:418-432 | With errors: refuses with the shortened message and leaves both flags unchanged. Without a preview: does nothing. Otherwise: raises `isExportingPDF` and starts the save under `Filename(name)`. |
| `ExportGate.Exporter.OnSaved` | src/components/ResumeBuilder.tsx:457-459 | After success, no export is running and the celebration shows. |
| `ExportGate.Exporter.OnSaveFailed` | src/components/ResumeBuilder.tsx:470-471 | After failure, no export is running and the celebration is untouched. |
| `ExportGate.Exporter.OnCelebrationTimeout` | src/components/ResumeBuilder.tsx:466-468 | The timer hides the celebration and leaves the export flag alone. |
| `ExportGate.Exporter.Dismiss` | src/components/ResumeBuilder.tsx:1129 | The close button hides the celebration and leaves the export flag alone. |
| `ExportGate.Exporter.ExportDisabled` | src/components/ResumeBuilder.tsx:1043 | The button is disabled if and only if an export is running or the record is not `Complete`. |
| `ExportGate.Exporter.ButtonLabel` | src/components/ResumeBuilder.tsx:1052-1067 | The label is "Export as PDF" exactly when the button is enabled, and "Processing PDF..." exactly while exporting, and "Complete Resume to Export" exactly when no export is running and the record is incomplete. |
| `Gallery.Templates` | src/components/ResumeBuilder.tsx:97-210 | There are sixteen templates, numbered 1 to 16 in order. |
| `Gallery.Featured` | src/components/ResumeBuilder.tsx:498 | The featured row is the first three templates. |
| `Gallery.FilteredTemplates` | src/components/ResumeBuilder.tsx:589-595 | The shown templates are a subsequence of the table. A template is shown if and only if its category matches ("All" matches every one) and the search is empty or a case-insensitive substring of its name, description or category. |
| `Gallery.ClearedFiltersShowAll` | src/components/ResumeBuilder.tsx:589-595 | Category "All" with an empty search shows all sixteen templates in order. |
| `Gallery.CategoryFilter` | src/components/ResumeBuilder.tsx:590 | With an empty search and a category other than "All", exactly the templates of that category are shown. |
| `Gallery.EmptySearchTestRedundant` | src/components/ResumeBuilder.tsx:591-594 | The empty-search test changes nothing, because the empty string occurs in every text. |
| `Gallery.SearchIgnoresCase` | src/components/ResumeBuilder.tsx:591-594 | Upper- or lower-casing the search term does not change which templates match. |
| `Gallery.CaptionMatchesGrid` | src/components/ResumeBuilder.tsx:569-578 | The caption's count is the number of cards in the grid, out of 16. |
| `Gallery.CountCaptionInjective` | src/components/ResumeBuilder.tsx:577 | Different counts give different captions. |
| `Preview.Blocks` | src/components/ResumeBuilder.tsx:1169-1235 | At most four blocks, in strictly increasing rank: summary, skills, experience, education. |
| `Preview.BlockPresence` | src/components/ResumeBuilder.tsx:1170-1220 | Each block appears if and only if its content is non-empty. |
| `Preview.ExperienceCardsFollowEntries` | src/components/ResumeBuilder.tsx:1197-1217 | A non-empty experience list shows one card per entry, in order. |
| `Preview.CompleteRecordShowsNoPlaceholder` | src/components/ResumeBuilder.tsx:1158-1235 | A record that passes the validator shows its own header values and entry texts, with no placeholder. |
| `Preview.BlankNameShownAsIs` | src/components/ResumeBuilder.tsx:1160 | Placeholders replace only empty text: a name of spaces is shown as spaces although the validator rejects it. |
| `Preview.InitialPage` | src/components/ResumeBuilder.tsx:1158-1167 | A fresh session shows the four header placeholders and no block. |
| `AuthServer.Utf16Length` | server/server.js:58 | A password's length in code units lies between its character count and twice that. |
| `AuthServer.PasswordLengthInCodeUnits` | server/server.js:58 | Three astral characters count as six, so they pass the length check; "abcde" counts five. |
| `AuthServer.FindIndex` | server/server.js:65 | `find` returns the first match, or nothing exactly when no element matches. |
| `AuthServer.SignupStatus` | server/server.js:51-68 | Signup gives 400 exactly when a field is missing or the password is short, 409 exactly when the fields are valid and the email is taken, and 201 otherwise. Each holds in both directions. |
| `AuthServer.SignupEffect` | server/server.js:51-92 | A refused signup leaves `users` unchanged and answers with a message. A successful one appends exactly one user, with the given name and email and the password's hash, and returns a token and that user without the password. |
| `AuthServer.SignupRefusal` | server/server.js:51-68 | The checks before the hash refuse with 400 or 409 and a message. When they let a request through, all three fields are present, the password has at least six code units, and no user has the email. |
| `AuthServer.SignupKeepsEmailsUnique` | server/server.js:65-83 | If no two users share an email before a signup that runs alone, none do after it. |
| `AuthServer.RegisteredEmailsUnique` | server/server.js:47-97 | Emails stay unique over any sequence of signups, each running alone, starting from such a registry. |
| `AuthServer.InterleavedSignupsStoreEmailTwice` | server/server.js:65-83 | When two signups for the same new email both pass their checks before either pushes, both answer 201 and the registry holds that email twice. |
| `AuthServer.SecondSignupConflicts` | server/server.js:64-68 | A valid signup with an email just registered gets 409 "User already exists with this email". |
| `AuthServer.SigninStatus` | server/server.js:100-135 | Signin gives 400 exactly when email or password is missing and 404 exactly when the email is unknown. Its status is 200, 400, 401 or 404, and a 200 returns the token and password-free data of a user whose hash matches. When the fields are present and `find` returns a user, the reply is 401 exactly when `compare` rejects the password against that user's hash, and otherwise 200 with that user's token and data. |
| `AuthServer.SigninAfterSignup` | server/server.js:100-130 | Right after a successful signup, signing in with the same email and password gives 200 and a session holding the same user data as the signup reply. |
| `AuthServer.AuthenticateStatus` | server/server.js:24-39 | A request is admitted if and only if a token is present and verifies. A missing token gives 401 and a failed verification 403, and an admitted request carries the verified claims. |
| `AuthServer.TokenAfterScheme` | server/server.js:26 | In "scheme token", the token is the part after the space. |
| `AuthServer.TokenWithoutScheme` | server/server.js:26-30 | A header without a space has no second field, so it gives 401 "Access token required". |
| `AuthServer.LookupStatus` | server/server.js:138-185 | `/auth/me` and `/auth/refresh` give 404 exactly when the token's user id is unknown. A 200 carries that user without the password (refresh adds a new token). |
| `AuthServer.AccountAfterSignup` | server/server.js:138-146 | With a token for a freshly signed-up user's id, `/auth/me` returns that user. |
| `AuthServer.UserRegistry.constructor` | server/server.js:21 | The registry starts empty. |
| `AuthServer.UserRegistry.CheckSignup` | server/server.js:51-68 | Answers as `SignupRefusal` on the registry as it is when the request arrives, and changes nothing. |
| `AuthServer.UserRegistry.CommitSignup` | server/server.js:71-92 | Pushes the new user onto the registry as it is after the hash, and replies as `SignupCommit`. |
| `AuthServer.UserRegistry.Signup` | server/server.js:47-97 | For a signup with no request in between its two steps, the reply and the new `users` are those of `SignupOutcome`, and unique emails are preserved. |
| `AuthServer.UserRegistry.Signin` | server/server.js:100-135 | Answers as `SigninReply` and leaves `users` unchanged. |
| `AuthServer.UserRegistry.Me` | server/server.js:138-151 | Answers as `AccountReply`: the middleware's reply, 404 for an unknown id, or the user without the password. |
| `AuthServer.UserRegistry.Refresh` | server/server.js:169-185 | Answers as `RefreshReply`, with a fresh token for the found user. |
| `AuthServer.UserRegistry.Profile` | server/server.js:197-205 | Answers as `AccountReply`, like `/auth/me`. |
| `AuthServer.UserRegistry.Lookup` | server/server.js:198-204 | Finding the token's user by id and stripping the password gives `AccountReply`. |
| `Contact.WithInput` | src/components/ContactSection.tsx:19-24 | The edited input takes the typed value and the other three keep theirs. |
| `Contact.InputEditsOverwrite` | src/components/ContactSection.tsx:19-24 | The last edit of an input wins, and re-typing the current value changes nothing. |
| `Contact.BuildGmailUrl` | src/components/ContactSection.tsx:26-56 | The step-by-step reassignments produce `GmailUrl(form)`. |
| `Contact.DefaultBodyIff` | src/components/ContactSection.tsx:36-38 | The body is the fixed greeting if and only if name, email and message are all empty. |
| `Contact.ComposedBodyEnds` | src/components/ContactSection.tsx:39-48 | A set name opens the composed body with its line, and a set message ends it. |
| `Contact.ComposeUrlSplit` | src/components/ContactSection.tsx:55 | The link splits on "&" into the base's fields followed by exactly `su=…` and `body=…`. |
| `Contact.ComposeUrlFields` | src/components/ContactSection.tsx:52-55 | The last two fields' values decode back to the subject and the body. |
| `Contact.GmailUrlFields` | src/components/ContactSection.tsx:27-55 | The Gmail link's `su` and `body` values decode to the chosen subject (typed, or the default) and body. |
| `Contact.GmailUrlStartsWithBase` | src/components/ContactSection.tsx:27-55 | The link always starts with the fixed compose base. |
| `Contact.InitialFormUrl` | src/components/ContactSection.tsx:11-16 | An untouched form links with the default subject and the greeting. |
| `PercentEncoding.Utf8` | src/components/ContactSection.tsx:52-53 | A character encodes to one to four bytes. |
| `PercentEncoding.Encode` | src/components/ContactSection.tsx:52-53 | The output holds only unreserved characters and "%", so no "&", "=" or space. |
| `PercentEncoding.EncodeConcat` | src/components/ContactSection.tsx:52-53 | Encoding distributes over concatenation. |
| `PercentEncoding.EncodeIdentityIff` | src/components/ContactSection.tsx:52-53 | Text is left unchanged if and only if all its characters are unreserved. |
| `PercentEncoding.DecodeOctets` | src/components/ContactSection.tsx:52-53 | The decoder reads one well-formed UTF-8 sequence of `%XX` triples and consumes at least one triple. |
| `PercentEncoding.DecodeEncode` | src/components/ContactSection.tsx:52-53 | Decoding the encoding of any text gives that text back. |
| `TrialCountdown.CountdownRanges` | src/components/TrialBanner.tsx:25-34 | Hours lie in [0,24), minutes and seconds in [0,60), and days are non-negative. |
| `TrialCountdown.CountdownRecomposes` | src/components/TrialBanner.tsx:27-30 | For a positive distance, the fields add back up to the distance less its sub-second remainder. |
| `TrialCountdown.CountdownAtZero` | src/components/TrialBanner.tsx:25-34 | Every field is 0 for a distance below one second, which includes every distance at or past the end. |
| `TrialCountdown.CountdownOfFullTrial` | src/components/TrialBanner.tsx:17-31 | A distance of exactly fourteen days splits into 14 days, 0 hours, 0 minutes and 0 seconds. |
| `TrialCountdown.FirstTickBelowTrial` | src/components/TrialBanner.tsx:21-35 | Any tick after mount shows at most 13 days, 23 hours, 59 minutes and 59 seconds. |
| `TrialCountdown.MillisOrder` | src/components/TrialBanner.tsx:27-30 | For in-range fields, fewer milliseconds read as an earlier (days, hours, minutes, seconds) tuple. |
| `TrialCountdown.CountdownMonotone` | src/components/TrialBanner.tsx:25-34 | A larger distance never shows a lexicographically smaller tuple. |
| `TrialCountdown.TickNeverRises` | src/components/TrialBanner.tsx:21-34 | As time passes the countdown never goes up. |
| `Initials.UserInitials` | src/components/Navigation.tsx:47-54 | The result has at most two characters. |
| `Initials.JoinedFirstChars` | src/components/Navigation.tsx:50-52 | Joining the words' first characters skips empty words. |
| `Initials.InitialsOfWords` | src/components/Navigation.tsx:47-54 | The result is the upper-cased first characters of the non-empty space-separated words, in order, cut to two. |
| `Initials.EmptyNameHasNoInitials` | src/components/Navigation.tsx:47-54 | An empty name gives "". |
| `Initials.LeadingSpaceIgnored` | src/components/Navigation.tsx:49-52 | A leading space changes nothing. |
| `Initials.OneWord` | src/components/Navigation.tsx:49 | A name without a space is one word and gives its one upper-cased first character. |
| `Initials.TabDoesNotSeparate` | src/components/Navigation.tsx:49 | "ada\tlovelace" gives "A": a tab does not separate words. |
| `Initials.TwoWords` | src/components/Navigation.tsx:47-54 | Two words separated by one space give both upper-cased first characters. |

## Left out

### Resume editor

- `updateSkills` keeps duplicates, and the model keeps them too.
- The filename has no "Resume" fallback (ResumeBuilder.tsx:452), and the model has none either. The `|| 'Resume'` at line 462 is only toast text.
- `sectionOrder` (ResumeBuilder.tsx:240-250) is declared but never read or updated, and the preview order is fixed. It is not modelled.
- The record types certifications, projects, awards and publications, and the keywords list, are carried in the record, but they have no mutation or rendering code to model.
- `html2pdf` is a foreign library: it renders, paginates and writes the PDF. A started save is an outcome. Its success and failure are the event methods `OnSaved` and `OnSaveFailed`.
- Toasts and timers are timing, not logic:
  - the processing toasts and the one-second toast timer are not modelled;
  - the five-second celebration timer is the event `OnCelebrationTimeout`, and the close button is `Dismiss`;
  - the success and failure toast texts are not modelled.
- Sequential model: `addSkill` reads the skills of the current render but appends to the pending state (`prev`). In a sequential model these are the same list.
- Ids come from `Date.now()` and are parameters. Nothing assumes they are unique.
- The personal-information inputs are inline JSX handlers that replace one field. Their effect is covered by the record update functions, and no separate operation is modelled.
- JSX markup, styling and routing carry no logic. The category select's fixed option list is markup, and the template card colours are kept only as data.
- `trim`, the whitespace class `\s`, `toLowerCase` and `toUpperCase` are modelled over ASCII: space, tab, line feed, vertical tab, form feed and carriage return, and the letters A to Z. Unicode whitespace and case folding are not modelled.

### Authentication server

- The `try`/`catch` 500 replies, express, cors, dotenv and console logging are not modelled.
- Non-string request body fields are not modelled: the fields are strings or absent.
- bcrypt and jsonwebtoken are uninterpreted function parameters, and token expiry (`7d`) is not modelled, because it depends on time.
- `AuthServer.SigninAfterSignup`: `sign` is modelled as a function of the user id only. jsonwebtoken also stamps the time of issue (`iat`, `exp`), so two tokens for the same user generally differ, and the lemma says nothing about the token.
- `AuthServer.SignupKeepsEmailsUnique`, `AuthServer.RegisteredEmailsUnique` and `AuthServer.UserRegistry.Signup` hold only for signups that run one after another. The handler awaits `bcrypt.hash` (server.js:71) between its `find` (line 65) and its `push` (line 83). When two requests for the same email interleave there, both are stored, as `InterleavedSignupsStoreEmailTwice` shows. `CheckSignup` and `CommitSignup` model the two steps, but the event loop's scheduling is not modelled.
- The health endpoint, signout, the Google OAuth placeholder and the resume placeholders return fixed replies. They are not modelled.
- `src/hooks/use-auth.tsx`, `src/lib/api.ts` and `src/components/AuthModal.tsx` are not part of this model: they are client storage, transport and form-library schemas.

### Contact form

- `PercentEncoding.Encode`: characters are Unicode scalar values, so the `URIError` that `encodeURIComponent` throws on a lone surrogate cannot arise in the model.
- The link is rendered as the `href` of the send button (ContactSection.tsx:134). Opening it is a browser action and is not modelled.

### Trial banner

- `TrialCountdown.CountdownOfFullTrial`: the end date is modelled as exactly fourteen days of milliseconds after mount. `setDate(getDate() + 14)` can differ by an hour across a daylight-saving change.
- `TrialCountdown.CountdownOfFullTrial`: the banner never displays this value. Its state starts at all zeros (TrialBanner.tsx:8-13), and the first tick comes one interval (1000 ms) after mount (line 35), when less than fourteen days remain. The all-zero first render is state initialisation and is not modelled as an operation.
- The `setInterval`, its cleanup and the current time (a parameter) are not modelled.

### Navigation bar

- `Initials.UserInitials`: `n[0]` and `slice` work on UTF-16 code units, while the model takes the first character of each word and the first two characters. The two agree for text without astral characters. `toUpperCase` is modelled over ASCII only (see the `trim` and case line under "Resume editor"), so a word starting with a non-ASCII letter keeps that letter's case: "élodie" gives "é", where JavaScript gives "É".
- `handleNavClick`, which routes and scrolls the page, is not modelled.
