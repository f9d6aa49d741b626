# R-LINKS bookmark manager — decision logic in Dafny

This project models the part of the R-LINKS bookmark manager (`script.js`) that makes decisions. The DOM and `localStorage` code around it is not modelled. The modelled parts are:

- **Keyword classifier.** `detectCategory` lowercases a URL and tests six ordered keyword rules: Stream, AI Chatbot, Dev, Work, Cloud, Social. The first rule with a keyword that is a substring of the lowercased URL wins. If no rule fires, the result is `Other`/`bg-other`.
- **Badge lookup.** Two object literals map a category label to a badge class, one in `addLink` and one in `saveEdit`. `|| "bg-other"` is the fallback.
- **Link store.** The store is an immutable `seq<Link>`, newest first. The operations are:
  - Add: trim the URL and reject it if blank, resolve the category (manual or auto), resolve the name, then prepend the record.
  - Delete: filter out records by id, once the user confirms.
  - Edit session: `currentEditId` is an `Option<int>`, with open, close and save.
- **Views.** The recent list is the first five records. The full list is filtered by a case-insensitive search term over name, URL and category.

The browser becomes parameters:
- the form field values are plain arguments;
- `Date.now()` and `new Date().toISOString()` become `id` and `date`;
- `confirm(...)` becomes a boolean;
- the `alert` on a blank URL becomes the status `MissingUrl`;
- `new URL(url).hostname` becomes `parseHost: string -> Option<string>`, where None means the constructor threw.

Modules:
- `Wrappers`: `Option`.
- `Text`: `trim`, `toLowerCase`, `includes`, `indexOf`, and `replace` with a string pattern and an empty replacement.
- `Sequences`: `filter`, and what an order-preserving subsequence is.
- `Classifier`: `detectCategory`.
- `Badges`: the badge lookup, both as written and corrected.
- `LinkStore`: add, delete and the edit session.
- `Views`: the recent and search lists.

Some behaviours of the code are easy to misread; the model follows the code:
- The name derivation removes the FIRST occurrence of `"www."` anywhere in the hostname. This is JavaScript's `String.prototype.replace` with a string pattern and the replacement `''`. It is not restricted to a leading `"www."`.
- `deleteLink` removes every record with the id, not only one.
- `saveEdit` on an id that is no longer in the store changes nothing, and leaves the session open. `closeEditModal` is only called on the success path.
- `saveEdit` tests `!currentEditId`. So a session opened on the id `0` never saves, because 0 is falsy in JavaScript.
- The Cloud keyword "onedrive" contains the Work keyword "drive", and the Work rule is tested first. So a URL containing "onedrive" is never classified Cloud.

The one deliberate departure is the badge lookup. Add and Save use the corrected lookup, which reads only the table's own entries; see "## Findings".

## Model

| member | source | states |
|---|---|---|
| Text.Trim | script.js:74 | The result is the slice of the input with only whitespace before and after it, and it neither starts nor ends with whitespace. It is empty exactly when the input is all whitespace. |
| Text.ContainsIff | script.js:29-32 | `includes` holds exactly when the keyword occurs at some position of the string. |
| Text.ContainsLower | script.js:29-32 | An occurrence of `k` in `s` gives an occurrence of lowercase `k` in lowercase `s`. This is why lowercasing before `includes` matches case-insensitively. |
| Text.Lower | script.js:29 | The result has the input's length, and each character is the lowercase of the character at the same position (ASCII letters only). No uppercase letter remains. |
| Text.RemoveFirst | script.js:94 | If the pattern does not occur, the string is unchanged. Otherwise only the first occurrence is cut out, and the text before and after it is kept. |
| Sequences.Filter | script.js:127 | The result holds exactly the elements that satisfy the predicate, each as often as in the input, in the input's order. If every element satisfies it, the result is the input. |
| Classifier.FirstRule | script.js:31-59 | Gives the index of the first rule at or after `from` that fires: every rule between `from` and it fails. None means no remaining rule fires. |
| Classifier.Detect | script.js:28-63 | The result is `Other` exactly when no keyword of any rule occurs in the lowercased URL. Otherwise it is the category of the earliest rule that fires. |
| Classifier.DetectCaseInsensitive | script.js:29 | Classifying a URL and classifying its lowercase form give the same result. |
| Classifier.DetectPrecedence | script.js:31-59 | If a keyword of rule i occurs and no earlier rule fires, the result is rule i's category, whatever later rules would say. |
| Classifier.YoutubeIsStream | script.js:29-33 | Any URL containing "youtube" in any mix of cases is classified Stream/bg-stream. |
| Classifier.StreamBeatsDev | script.js:31-44 | "github.com/youtube-dl" contains the Dev keyword "github", but it is classified Stream because the Stream rule comes first. |
| Classifier.OnedriveNeverCloud | script.js:45-53 | A URL whose lowercase form contains "onedrive" is never classified Cloud. It gets the category of the Work rule or of an earlier rule, because "onedrive" contains the Work keyword "drive". |
| Badges.Lookup | script.js:85 | A name that is a key with a non-empty class gets that class. A name that is not a key gets bg-other. The result is always either bg-other or the key's own entry. |
| Badges.Badge | script.js:81-85 | Each of the six known labels gets its own class from the table, and every label gets one of the seven badge classes. A label gets bg-other exactly when it is not one of the six known labels. The `saveEdit` table, which adds "Other", gives the same answer for every label. |
| Badges.RuleBadgeAgrees | script.js:31-59 | Each classifier rule returns the badge class that the lookup assigns to its label. |
| Badges.DetectAgreesWithBadge | script.js:33-62 | Every pair `detectCategory` returns agrees with the badge lookup, including `Other`/`bg-other`. |
| Badges.JsGet | script.js:85 | An object-literal property read gives the table's own string exactly for the table's keys. For the other `Object.prototype` keys it gives the inherited member of that name. Every other name gives `undefined`. |
| Badges.BadgeAsWritten | script.js:162-166 | The lookup as written always gives a truthy value. Off the prototype keys, it gives the string that the own-entry lookup gives. For every `Object.prototype` key outside the table, it gives the inherited member of that name instead of bg-other. |
| Badges.AsWrittenAgreesOffPrototype | script.js:81-85 | For every label that is not an `Object.prototype` member, both literal lookups give the corrected badge. |
| Badges.PrototypeLabelLeaks | script.js:166 | With the label "toString", both literal lookups give the inherited member instead of bg-other. The corrected lookup gives bg-other. |
| LinkStore.ResolveCategory | script.js:78-88 | A selector value other than "Auto" is kept verbatim as the label. "Auto" gives the classifier's verdict. Either way the badge class is the lookup's class for the label. |
| LinkStore.ResolveName | script.js:90-99 | A non-blank manual name is used trimmed. Otherwise the name is the parsed host with its first "www." removed, or "Link" when parsing fails. |
| LinkStore.Add | script.js:69-110 | A blank URL raises the alert and leaves the store unchanged. Otherwise the store grows by one: the new record is at index 0 and the old store is exactly the tail. The new record has the trimmed non-empty URL, the given id and date, the resolved name and category, and a consistent badge class. |
| LinkStore.AddPreservesConsistency | script.js:101-110 | If every stored badge class agrees with the lookup before Add, it still does after Add. |
| LinkStore.StripWww | script.js:94 | A host without "www." is kept unchanged. Otherwise the first occurrence of "www.", wherever it is, is cut out and the text before and after it is kept; a host starting with "www." loses exactly that prefix. |
| LinkStore.AddUnpadded | script.js:74-104 | A URL with no whitespace at either end is stored as typed, under the name resolved from it. |
| LinkStore.NameFromExampleHost | script.js:91-95 | With no manual name, a URL whose host parses as "www.example.com" (such as "https://www.example.com/page") is named "example.com". |
| LinkStore.NameFallsBackToLink | script.js:93-98 | With no manual name, a URL the parser rejects (such as "not a url") is named "Link". |
| LinkStore.Delete | script.js:125-132 | On confirmation the result is exactly the records whose id differs, with the same multiplicities and in the original order. A declined confirmation, or an absent id, leaves the store unchanged. |
| LinkStore.DeletePreservesConsistency | script.js:127 | Deleting keeps every remaining badge class consistent with the lookup. |
| LinkStore.FindIndex | script.js:169 | Gives the first position holding the id. None means no record has it. |
| LinkStore.OpenEdit | script.js:137-147 | For a present id, the session opens on that id and the form shows the first matching record's name, URL and category. An absent id leaves the session as it was. |
| LinkStore.CloseEdit | script.js:149-152 | Closing leaves no session, whatever was open. |
| LinkStore.SessionActive | script.js:155 | A session counts as open only when it holds an id, and the id 0 never counts: `!currentEditId` is true for `null` and for 0. Every other id counts. |
| LinkStore.SaveEdit | script.js:154-181 | With an active session on a present id, only the first matching record's name, URL, category and badge class change, the badge comes from the lookup, and the session closes. Its id and date stay, and so does every other record. With no active session, or an absent id, the store and the session are unchanged. |
| LinkStore.EditPreservesConsistency | script.js:161-174 | Saving an edit keeps every badge class consistent with the lookup. |
| LinkStore.OpenThenSaveUnchanged | script.js:137-181 | Opening the editor on a present non-zero id, then saving the values it shows, leaves a consistent store unchanged and closes the session. |
| LinkStore.ZeroIdNeverSaves | script.js:155 | A session on the id 0 saves nothing and stays open. |
| Views.Recent | script.js:194 | The recent list is a prefix of the store of at most five records. It is the whole store when the store has fewer than five. |
| Views.RecentAfterAdd | script.js:110 | After an Add of a non-blank URL, the new link heads the recent list. The previous recent list follows it, minus its last entry when it was full. |
| Views.Matches | script.js:210-212 | A record matches exactly when the term occurs in the lowercase form of its name, URL or category. The empty term matches every record. |
| Views.Search | script.js:204-213 | The result is an order-preserving subsequence of the store. It holds a record exactly when the lowercased term occurs in the lowercased name, URL or category, with that record's multiplicity. An empty term gives the whole store. |
| Views.SearchIgnoresTermCase | script.js:206 | Searching with a term and with its lowercase form gives the same list. |
| Views.SearchFindsByCategory | script.js:212 | The term "stream", in any case, finds every Stream record whatever its name and URL. |

## Left out

- DOM access and rendering are not modelled. This covers `getElementById`, `innerHTML`, class toggling, `createRowHTML`, navigation (`enterDashboard`, `exitApp`, `toggleOptions`) and the overlay controls. They only draw the sequences that `Views.Recent` and `Views.Search` compute.
- Resetting the form after Add is not modelled. It is user-interface state.
- Persistence is not modelled: the `localStorage` load at startup, `saveDB` and the `JSON.parse(...) || []` fallback. The store is an in-memory sequence. A malformed stored blob makes `JSON.parse` throw uncaught, which the model does not represent.
- The clock is not modelled. `Date.now()` and `new Date().toISOString()` are the parameters `id` and `date`. Nothing makes ids unique, and the source does not either.
- The browser dialogs `alert` and `confirm` are not modelled as dialogs. They are the `MissingUrl` status and the `confirmed` argument.
- `new URL(url).hostname` is not modelled. The WHATWG URL parser is the parameter `parseHost`.
- Text.Lower: lowercases only the ASCII letters A–Z. JavaScript's `toLowerCase` uses full Unicode case mapping, which can also change the string's length.
- Text.RemoveFirst: models `replace` only with the empty replacement `''`, the only one the application uses. The `$`-pattern expansion that JavaScript applies to a non-empty replacement is not modelled.
- Ids are modelled as mathematical integers. Stored data whose ids are not integers (strings, fractions, NaN) is not represented.
- The edit form's category control is taken as a free string. The page's markup is not part of this model, so whether a `<select>` limits the values cannot be seen.
- LinkStore.Add, LinkStore.SaveEdit: these use the own-entry lookup `Badges.Badge`. So a category label that names an `Object.prototype` member (such as "toString") gets bg-other. The source would store the inherited member as the badge class instead. `Badges.BadgeAsWritten` models that behaviour; see "## Findings".

## Findings

| source | as written | input that shows it | evidently intended | confidence | as-written member | corrected member |
|---|---|---|---|---|---|---|
| script.js:85, script.js:166 | `map[label] \|\| "bg-other"` reads a plain object literal, so labels naming `Object.prototype` members find an inherited, truthy function or object | category label "toString" (also "constructor", "valueOf", "__proto__", ...) | every label outside the table gets "bg-other" | low: not executed; reachable only if the category controls accept such a label | Badges.BadgeAsWritten (shown by Badges.PrototypeLabelLeaks) | Badges.Badge (used by LinkStore.Add and LinkStore.SaveEdit) |
