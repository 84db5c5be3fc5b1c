# Business-card app composables in Dafny

This project models the pure logic inside the five composables of a Nuxt
business-card application and proves properties of it:

- **the tracking-script sanitizer** (`useTrackingScript.js`). A user pastes
  an analytics snippet. It is accepted only if it holds exactly one
  `<script>` tag with a quoted `src`. The `src` host must be on an
  allow-list. Only twelve attribute names are carried over. The provider is
  labelled by ordered substring tests. The one head-script entry is built
  from those checked parts.
- **the card utilities** (`useCard.js`). These are the vCard 3.0 serialiser,
  the email, phone and URL validators, `validateCard`, and the record
  `saveCard` writes.
- **the theme state machine** (`useTheme.js`). It has three modes and two
  brand colours, with transitions and derived values.
- **the login and registration pre-checks** (`useAuth.js`). These form an
  ordered chain of checks. Login and `register` are called only when every
  check before them passes. `validateUsername` is part of this piece.
- **the public card lookup** (`usePublicCard.js`). This covers the request
  built from a username, the shaping of the returned record, the image and
  share URLs, and the visibility test.

The two regular expressions of the sanitizer are written as scanners:
`TagScanner.TagAt`, `TagScanner.AllTags` and `TagScanner.QuotedValue`. Each
is proved equal to a declarative statement of what the JavaScript
expression matches:

- alternation order;
- lazy and greedy repetition;
- ASCII-only case folding under the `i` flag;
- leftmost, non-overlapping global matching.

The validators' regular expressions are written as predicates over
`seq<char>`, and the scanning functions are proved equivalent to them.

JavaScript values that a record or form may leave unset are `JsValues.JsValue`.
The model spells out truthiness, `||`, `&&`, template interpolation and
`?.trim()` explicitly. Calls into code outside the composables are
parameters:

- `hostOf` stands for the host name that `new URL(...)` yields.
- `urlParses` says whether `new URL(...)` accepts a string.
- The backend's answers are values such as `Outcome`, `Lookup` and
  `Response`.

Files:

| file | module | contents |
|---|---|---|
| wrappers.dfy | Wrappers | `Option` |
| strings.dfy | Strings | whitespace, `trim`, ASCII lower-casing, substring search, `join` and `split` |
| js_values.dfy | JsValues | JavaScript values and coercions |
| records.dfy | Records | the `cards` record |
| tag_scanner.dfy | TagScanner | the script-tag and quoted-attribute patterns |
| tracking_script.dfy | TrackingScript | `useTrackingScript.js` |
| vcard.dfy | VCard | `generateVCard` |
| card_validation.dfy | CardValidation | `validateCard` and its validators; the `errors` object is keyed by the field datatype `CardField`, whose `Key` gives the property name |
| card_store.dfy | CardStore | the `saveData` merge and `saveCard` |
| theme.dfy | Theme | `useTheme.js` |
| auth.dfy | Auth | `useAuth.js` |
| public_card.dfy | PublicCard | `usePublicCard.js` |

## Model

| member | source | states |
|---|---|---|
| TagScanner.TagAtIsPreferredMatch | composables/useTrackingScript.js:17 | The scanner finds a tag match at a position exactly when the pattern matches there. Alternation is taken into account: the paired form `<script…>…</script>` with the shortest body is preferred, and the self-closing form is the fallback. |
| TagScanner.Scan | composables/useTrackingScript.js:17-18 | For any pattern, the global match list lies in the scanned range, in increasing order, with no overlaps. |
| TagScanner.ScanAreMatches | composables/useTrackingScript.js:17-18 | Every listed pair is a match the pattern reports at its start. |
| TagScanner.ScanCoversEveryMatch | composables/useTrackingScript.js:17-18 | Every position where the pattern matches is either a listed match or lies inside one. So the list has the leftmost-first, non-overlapping matches that `String.prototype.match` returns with the `g` flag. |
| TagScanner.AllTags | composables/useTrackingScript.js:17-18 | The script-tag matches lie in the text, in increasing order, with no overlaps. |
| TagScanner.AllTagsAreMatches | composables/useTrackingScript.js:17-18 | Every listed script-tag match is a genuine match of the pattern at its start. |
| TagScanner.AllTagsCoverEveryMatch | composables/useTrackingScript.js:17-18 | No script-tag match is skipped: each lies inside a listed one. |
| TagScanner.NoOpenTagNoMatch | composables/useTrackingScript.js:17-20 | Text without a case-insensitive `<script` has no match, so it is rejected. |
| TagScanner.QuotedAtIsMatch | composables/useTrackingScript.js:25 | The quoted-value scanner reads a value at a position exactly when `name=`, a quote, one or more non-quote characters and a quote occur there, with the name compared case-insensitively. |
| TagScanner.QuotedValue | composables/useTrackingScript.js:25-28 | The value captured at the leftmost position where `name="…"` (or `'…'`) matches: no earlier position matches. It is non-empty, free of quotes and taken from the tag text, and it exists exactly when the pattern matches somewhere. The match can also sit inside a longer name such as `data-src=`. |
| TrackingScript.IsAllowedAnalyticsDomain | composables/useTrackingScript.js:70-101 | False when URL parsing fails. Otherwise true exactly when the host equals one of the ten listed domains or ends with `.` plus one of them. |
| TrackingScript.DetectProvider | composables/useTrackingScript.js:108-125 | The provider chosen is the first of Google Analytics, Umami, Plausible, Simple Analytics and Hotjar whose substring occurs in `src`, and the generic one otherwise, as stated by the table `ProviderTable`. |
| TrackingScript.UmamiCloudLabel | composables/useTrackingScript.js:112-114 | A Umami cloud URL is labelled `Umami`. |
| TrackingScript.NoLetterAIsOther | composables/useTrackingScript.js:108-125 | A source without the letter `a` falls through every test and gets the generic provider, since every provider substring has an `a`. |
| TrackingScript.FullStoryLabel | composables/useTrackingScript.js:108-125 | An allow-listed FullStory URL is labelled `Analytics`. |
| TrackingScript.ExtractAttributes | composables/useTrackingScript.js:37-52 | The keys are a subset of the twelve safe names. A name is present exactly when it has a quoted value, or when it is `defer`/`async` and occurs anywhere in the tag. Quoted values win. Only `defer`/`async` can hold `true`, and every other value is a captured string. |
| TrackingScript.SingleTag | composables/useTrackingScript.js:17-22 | A tag is returned exactly when the global match yields one match, and then it is the text of that first and only match. |
| TrackingScript.ParseTrackingScript | composables/useTrackingScript.js:12-63 | Returns `None` for blank input and when the tag count is not 1. Otherwise it succeeds exactly when the tag has a quoted `src` whose host is allowed. Then `src` is that value, the provider is the one detected from it, and the attributes are exactly those the safe-attribute loop extracts from the tag. |
| TrackingScript.ValidateTrackingScript | composables/useTrackingScript.js:160-179 | Three outcomes. Blank input is valid with no provider. A failed parse is invalid with the fixed message. Otherwise the input is valid with the parsed provider's label. |
| TrackingScript.InjectTrackingScript | composables/useTrackingScript.js:131-150 | Nothing is registered when the parse fails. Otherwise exactly one script entry is registered. |
| TrackingScript.EntryFor | composables/useTrackingScript.js:140-149 | The entry's keys are `src`, `async`, `defer` and the parsed attributes. `async` defaults to `true`, `defer` defaults to `false`, and every other attribute is copied. |
| TrackingScript.InjectedEntryIsSafe | composables/useTrackingScript.js:131-150 | The registered entry is built only from checked data. Its `src` is the allow-listed parsed source, which the spread cannot replace. Other keys are safe names holding the parsed values. `async` is always truthy and `defer` is the parsed value or `false`. |
| TrackingScript.InjectedValuesFromInput | composables/useTrackingScript.js:25-52 | Every string value of the registered entry occurs in the pasted input and holds no quote. |
| VCard.LinesShape | composables/useCard.js:171-188 | The vCard lines are, in order: BEGIN, VERSION, FN, N, the line of each truthy optional field (ORG, TITLE, EMAIL, TEL;TYPE=CELL, TEL;TYPE=WORK, URL, NOTE), then END. |
| VCard.LineCount | composables/useCard.js:172-185 | There are five fixed lines plus one per truthy optional field. |
| VCard.GenerateVCard | composables/useCard.js:171-188 | For every card, the text starts with `BEGIN:VCARD`, a line feed, `VERSION:3.0` and a line feed, and ends with a line feed and `END:VCARD`. |
| VCard.LinesSingle | composables/useCard.js:171-184 | When no printed field contains a line feed, no line of the vCard does. |
| VCard.SplitRecoversLines | composables/useCard.js:185 | When no field contains a line feed, splitting the text on line feeds gives back exactly its lines. |
| VCard.StructuredNameComponents | composables/useCard.js:176 | The N value splits on `;` into family name, given name and three empty components, as section 3.1.2 of RFC 2426 requires, whenever the names contain no `;`. |
| VCard.FormattedName | composables/useCard.js:175 | The FN line starts with `FN:`. |
| VCard.FormattedNameParts | composables/useCard.js:175 | When the first name has no space, the FN value splits at its first space into the interpolated first name and the interpolated last name. |
| CardValidation.ValidateEmail | composables/useCard.js:268-271 | Accepts exactly the strings of the pattern: one `@`, no whitespace, a non-empty local part, and a domain with a `.` that has a character on each side. `useAuth.js` (lines 128-131) checks with the same pattern. |
| CardValidation.ValidatePhone | composables/useCard.js:278-281 | Accepts exactly an optional leading `+` followed by ten or more characters that are digits, whitespace, `-`, `(` or `)`. |
| CardValidation.ValidateUrl | composables/useCard.js:288-295 | A string starting with `http` is parsed as it is; any other string is parsed with an `https://` prefix. |
| CardValidation.ValidateCard | composables/useCard.js:226-261 | Valid exactly when there are no errors. Each of the seven fields is reported exactly when its check fails, with that check's message, and nothing else is reported. |
| CardValidation.ValidIffNoFieldError | composables/useCard.js:257-260 | The card is valid exactly when none of the seven checks fails. |
| CardValidation.RequiredFieldChecks | composables/useCard.js:229-239 | `first_name`, `last_name` and `company` are each reported exactly when unset or blank after trimming. |
| CardValidation.OptionalFieldChecks | composables/useCard.js:241-255 | `email`, `mobile`, `office` and `website` are each reported exactly when set and rejected by their validator. |
| CardValidation.EmptyOptionalFieldsAreValid | composables/useCard.js:241-260 | A card with its three required fields filled and no optional field set is valid. |
| CardStore.SaveData | composables/useCard.js:82-86 | The record has the form's keys plus `user_id` and `is_active`. `is_active` is always `true`. `user_id` comes from the form when the form has it and is the user's id otherwise. Every other form field is unchanged. |
| CardStore.SaveCard | composables/useCard.js:69-106 | With no user, the flow fails with `User not authenticated` and sends nothing. Otherwise it updates the existing card by id, or creates one when none exists, with the merged record. It returns a record exactly when the write succeeds, and `isLoading` ends false. |
| Theme.ParseMode | composables/useTheme.js:82 | Only the three mode names are accepted, and each is read as the mode it names. |
| Theme.CurrentPrimaryColor | composables/useTheme.js:23-25 | The dark colour in dark mode, the light colour otherwise. |
| Theme.IsDarkMode | composables/useTheme.js:18-21 | Light is never dark and dark always is. Auto follows the system preference. |
| Theme.ThemeLabel | composables/useTheme.js:27-33 | Light shows `Light`, dark shows `Dark` and auto shows `Auto`, each exactly for its mode; lower-cased, the label is the mode's name. |
| Theme.ThemeLabelIdentifiesMode | composables/useTheme.js:27-33 | Two states show the same label exactly when they have the same mode. |
| Theme.SetTheme | composables/useTheme.js:81-87 | Any value other than a mode name leaves the state unchanged. A mode name becomes the mode, and nothing else changes. |
| Theme.ToggleTheme | composables/useTheme.js:92-100 | Light goes to dark, dark to auto and auto to light. The colours and the system preference do not change. |
| Theme.ToggleCycle | composables/useTheme.js:92-100 | Three toggles return to the starting state. |
| Theme.SetCustomColors | composables/useTheme.js:106-113 | Each colour is replaced only by a truthy new value and kept otherwise. Mode and preference are unchanged. |
| Theme.ResetColors | composables/useTheme.js:118-125 | The colours become those of the initial state, `#2563eb` and `#60a5fa`. |
| Theme.InitTheme | composables/useTheme.js:38-49 | The reported system preference is adopted. A saved mode is adopted only when it is a mode name. The colours are unchanged. |
| Theme.SystemPreferenceChanged | composables/useTheme.js:66-68 | Only the system preference changes. |
| Theme.LoadColorsFromCard | composables/useTheme.js:173-180 | No-op for a missing card or one with neither colour set. Otherwise each set colour replaces the current one. |
| Theme.GetColorsForCard | composables/useTheme.js:186-191 | Both colours are reported as strings. |
| Theme.LoadGetRoundTrip | composables/useTheme.js:173-191 | Loading the colours just read off the state changes nothing. After loading a card with both colours set, reading gives the card's colours. |
| Theme.ColorsStaySet | composables/useTheme.js:12-15 | Both colours start non-empty and no modelled transition can clear them. |
| Auth.LoginUser | composables/useAuth.js:20-41 | A missing email or password fails with `Email and password are required`, before any login call. Otherwise the result is that of the login, with its message on failure. `isLoading` ends false. |
| Auth.CheckUsernameAvailability | composables/useAuth.js:96-106 | Available exactly when the lookup succeeded and found nobody. |
| Auth.FirstFailure | composables/useAuth.js:59-75 | The message of the earliest failing check, or none when all pass. |
| Auth.RegisterUser | composables/useAuth.js:53-89 | Success means no error and a `register` call. `isLoading` ends false. |
| Auth.RegisterReportsFirstFailure | composables/useAuth.js:59-77 | The error reported is that of the first failing check, in this order: required fields, password confirmation, length, availability. `register` is called exactly when all four pass. |
| Auth.PasswordLengthBoundary | composables/useAuth.js:67-69 | A seven-character password fails the length check. An eight-character one gets through to `register` when the username is free. |
| Auth.FailedLookupMeansTaken | composables/useAuth.js:72-75 | A failed availability lookup is reported exactly like a taken username. |
| Auth.ValidateUsername | composables/useAuth.js:138-142 | Accepts exactly the strings of length 3 to 20 made of ASCII letters, digits and `_`. |
| PublicCard.PublicCardRequest | composables/usePublicCard.js:18-28 | The request goes to the cards list with `expand=user_id` and `perPage=1`. The username read back from its filter is the lower-cased username, followed only by `is_active=true`. Names that a quoted filter literal cannot carry are refused (see Findings). |
| PublicCard.WithUserExpand | composables/usePublicCard.js:40-51 | The result always has `expand.user_id`. An existing one is kept unchanged, and otherwise it is `{id: user_id, username}`. Nothing else changes. |
| PublicCard.FetchPublicCard | composables/usePublicCard.js:12-69 | The request as written is always sent. A card is returned exactly when the response lists one, and it always carries `expand.user_id`. |
| PublicCard.FetchPublicCardResult | composables/usePublicCard.js:18-53 | For every username, the request depends on it only through its lower-cased form. A card is returned exactly when the response lists one, and it is the first listed card with only its `expand` filled in. |
| PublicCard.FirstCard | composables/usePublicCard.js:32-69 | A card is taken from a response exactly when it lists one. It is the first listed card with only `expand` changed, and it carries `expand.user_id`. |
| PublicCard.FetchPublicCardCorrected | composables/usePublicCard.js:18-53 | The lookup with the corrected request: a card is returned only when the name can be carried by the filter literal, and it carries `expand.user_id`. |
| PublicCard.CorrectedFetchAgrees | composables/usePublicCard.js:18-53 | For a name without quote or backslash, the corrected lookup sends the request as written and returns the same card. For any other name it returns none. |
| PublicCard.GetPublicImageUrl | composables/usePublicCard.js:76-93 | The empty string exactly when the card, its image or its id is missing. |
| PublicCard.ImageUrlRoundTrip | composables/usePublicCard.js:86 | The image URL is the base, `/api/files/cards/`, the id, `/` and the file name. Both id and file name are read back from it when the id has no `/`. |
| PublicCard.GetPublicShareUrl | composables/usePublicCard.js:100-103 | The site URL, then `/users/`, then the interpolated username. |
| PublicCard.IsValidPublicCard | composables/usePublicCard.js:110-120 | False for a missing card. Otherwise the result is truthy exactly when `first_name`, `last_name`, `is_active` and `username` are all truthy. |
| PublicCard.AsWrittenRequest | composables/usePublicCard.js:18-28 | The request as the code builds it: the cards list with `expand=user_id` and `perPage=1`, and a filter that opens with `username='` and closes with `' && is_active=true`. |
| PublicCard.QuoteClosesLiteral | composables/usePublicCard.js:24 | With the filter as written, a quote as the second character of the name closes the literal after the first character, and the rest of the name is read as filter syntax. |
| PublicCard.QuoteEndsLiteralEarly | composables/usePublicCard.js:24 | With the filter as written, a username that closes the quote after `x` and then adds an `is_active=false` alternative is read back as `x`. The rest of the name becomes filter syntax. |

## Left out

- The `URL` constructor is a parameter, because it is the platform's WHATWG parser: `hostOf` gives the host name (`None` when it throws) and `urlParses` says whether it accepts a string.
- Backend calls are left out as network I/O. This covers the record-store client, login, register, the availability lookup, `$fetch`, and `getUserCard`, `getCardByUsername`, `uploadProfileImage`, `deleteCard` and `getProfileImageUrl`. Their results are inputs where the modelled logic depends on them.
- Logging, `navigateTo`, `logoutUser` and `clearError` are left out; they have no logic worth stating.
- `applyTheme`, `saveTheme`, `saveCustomColors`, the `initTheme` listener registration and the `watch`/mount hooks are left out as DOM and storage effects.
- Theme.ColorsStaySet: the `initTheme` merge of colours saved as JSON can replace a colour with any saved value, including an empty one; that step is outside the model (see the next line).
- Theme.InitTheme: the merge of colours saved as JSON in `localStorage` is not modelled, because JSON parsing is outside the model; the mode and preference steps are.
- `useHead` is not modelled; only the descriptor handed to it is.
- `generateVCardDownloadUrl` is left out because Blob and object URLs are platform objects.
- `getCardShareUrl` in `useCard.js` is not modelled separately; it builds the same URL as `PublicCard.GetPublicShareUrl`, from the runtime configuration.
- VCard.GenerateVCard: values are written without the escaping of section 4 of RFC 2426 (`\`, `,`, `;` and line feeds), exactly as the code does. The read-back lemmas therefore require fields without line feeds (`VCard.SplitRecoversLines`) or without `;` (`VCard.StructuredNameComponents`).
- CardValidation.ValidateCard: the `errors` object is keyed by the datatype `CardField` rather than by strings; `CardValidation.Key` gives each field's property name, so the keys and messages are those of the code.
- `toLowerCase` is modelled on ASCII letters only; other characters are left unchanged, whereas JavaScript also lower-cases non-ASCII letters.
- Strings are sequences of UTF-16 code units, as JavaScript's `length` and indexing see them. The characters that the `\s` class and `trim()` treat as whitespace are listed explicitly.
- Record fields are strings or unset. Numbers, arrays and nested objects that a malformed record could hold are not modelled, and neither are the `TypeError`s they would raise.
- `expand` is modelled only through its `user_id` entry.
- Middleware, plugins, configuration and build scripts are left out; they are framework plumbing with no logic of their own.

## Findings

| source | as written | input that shows it | evidently intended | confidence | as-written member | corrected member |
|---|---|---|---|---|---|---|
| composables/usePublicCard.js:24 | The lower-cased username is pasted between single quotes into the filter, with no escaping. | A username that closes the quote after `x` and then adds an `is_active=false` alternative (the exact string is in `PublicCard.QuoteEndsLiteralEarly`). The literal is read as `x`, and the rest of the name becomes filter syntax that admits inactive cards. | The filter compares `username` with the whole lower-cased name. A name that a single-quoted literal cannot carry (one with `'` or `\`) finds no card. | medium, not executed | PublicCard.AsWrittenRequest, PublicCard.FetchPublicCard, PublicCard.QuoteClosesLiteral, PublicCard.QuoteEndsLiteralEarly | PublicCard.PublicCardRequest, PublicCard.FetchPublicCardCorrected, PublicCard.CorrectedFetchAgrees |
