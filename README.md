# noglinks — a Dafny model of the link-page worker

noglinks is a small Cloudflare-worker "link in bio" page. It is built with the
Hono framework and a key-value namespace (`KV`). The public page (`GET /`) renders
header fields and a list of links from a configuration snapshot read out of
the store. An administrator logs in with a user name and an HMAC-hashed
password (`POST /login`), receives a signed JWT in the `auth_token` cookie,
and edits every field in a form (`GET /admin`) whose script names the link
inputs `links-<i>-text` / `links-<i>-url`. The submit handler (`POST /admin`)
rebuilds the links array from those flat keys, writes every other field to
the store, and stores the serialised array under `links`.

The model covers, in modules that follow the worker's pieces:

- `KvStore` — the namespace as a class over a `map<string, string>`, with a
  ghost log of every put.
- `Config` — `fetchData`: a loop reading the twelve schema keys, with `value || ""`.
- `FormKeys` — `key.split("-")`, and the ECMAScript test of whether a
  property name is an array index (canonical decimal below 2^32 − 1).
- `Links` — the `reduce` that rebuilds the links array: holes, index order,
  the fields that were submitted, the `length` index that throws; and the
  keys the admin script generates.
- `PublicPage` — the parse fallback and the `links.map(…)` of `GET /`, as
  written and corrected (see Findings).
- `Session` — the gate (`authMiddleware`), the framework's 500 for a throwing
  handler, login, logout.
- `Admin` — `GET /admin` and `POST /admin`: the filter, the reduce and the
  write loop as methods over the store, and what a submission leaves in it.
- `EditCycle` — the cycle edit form → submit → public page.

JWT signing/verification, the HMAC, and `JSON.parse` / `JSON.stringify` are
function parameters. What the model needs of them is stated as lemma
hypotheses:

- `SoundJwt`: a signed token verifies to its claims until `exp`.
- `RejectsEmpty`: "" does not verify.
- `RoundTrips`: parse undoes stringify.

The current time is a parameter, in seconds.

Behaviour of the code that the model reproduces:

- A gap in the submitted indices is padded with a hole, which is serialised
  as `null`. It is not skipped.
- A missing field is not defaulted to "".
- `links` is written once per body entry, not once per submission.
- A stored `links` value that parses to something other than a list is not
  turned into an empty list: the page throws. So does a list holding null,
  or a `url` or `text` value that has no string conversion.
- A handler that throws behind the gate is answered by Hono's error handler
  with a 500. It is not redirected to `/login`, because Hono's dispatch
  catches the error before `next()` returns, so the gate's `catch` only sees
  a failed `jwt.verify`. `Session.Gate` models the gate as written
  (`next()` rejecting gives `/login`). `Session.RunHandler` models the
  framework in between.
- The submit handler does not always redirect to `/admin`: a link key whose
  index is `length` makes the reduce throw, and nothing is written (other
  throwing keys are listed under "Left out").

## Model

| member | source | states |
|---|---|---|
| KvStore.Lookup | src/index.js:32 | `KV.get` yields a value exactly when the key is stored, and then the stored string |
| KvStore.Store.Get | src/index.js:32 | a read returns the stored string when present and null (None) otherwise, and changes nothing |
| KvStore.Store.Put | src/index.js:281-283 | a put replaces exactly that key's value and appends the put to the write log |
| Config.OrEmpty | src/index.js:33 | `value \|\| ""` is "" exactly for null or "", and otherwise the stored string |
| Config.FetchData | src/index.js:25-36 | the snapshot has exactly the twelve schema keys; a value is "" iff the key is absent or stored as ""; any other value is the stored one; the store is only read |
| Config.Snapshot | src/index.js:25-36 | the snapshot of a store's contents: exactly the twelve schema keys, "" iff the key is absent or stored as "", the stored string otherwise |
| Config.EmptyStoreSnapshot | src/index.js:25-36 | with nothing stored every schema key reads "", none is missing |
| Config.SnapshotReadsOnlySchema | src/index.js:26-33 | the snapshot depends only on the schema keys (the stored credentials never reach a page) |
| FormKeys.IsLinkKey | src/index.js:269 | defined as `startsWith("links-")`; what a link key splits into is stated by `FormKeys.LinkKeySplit` and `FormKeys.KeyPieces` |
| FormKeys.IndexText | src/index.js:271 | defined as the second piece of `split("-")`, or "undefined" when missing; its meaning is stated by `FormKeys.KeyPieces` |
| FormKeys.FieldName | src/index.js:271 | defined as the third piece of `split("-")`, or "undefined" when missing; its meaning is stated by `FormKeys.KeyPieces` |
| FormKeys.KeyPieces | src/index.js:271 | in a link key the index is the text right after `links-` up to the next dash, and neither index nor field contains a dash |
| FormKeys.Split | src/index.js:271 | `split("-")` returns at least one piece |
| FormKeys.JoinSplit | src/index.js:271 | the pieces of `split("-")` contain no dash and join back to the key |
| FormKeys.SplitJoin | src/index.js:271 | splitting a join of dash-free pieces returns those pieces |
| FormKeys.LinkKeySplit | src/index.js:269-271 | a key that starts with `links-` splits into "links" followed by the pieces of the rest |
| FormKeys.DecimalString | src/index.js:235 | defined as `${index}` for a non-negative integer; its meaning is stated by `FormKeys.DecimalStringValue` and `FormKeys.CanonicalDecimalString` |
| FormKeys.DecimalStringValue | src/index.js:235-236 | the decimal text of an index is canonical and reads back as that index |
| FormKeys.CanonicalDecimalString | src/index.js:272-275 | a canonical decimal text is the decimal text of its value |
| FormKeys.ArrayIndex | src/index.js:272-275 | defined as the array-index test behind `acc[index]`: canonical decimal text whose value is below 2^32 − 1; its meaning is stated by `FormKeys.ArrayIndexIsDecimal` |
| FormKeys.ArrayIndexIsDecimal | src/index.js:272-275 | a property name is an array index n iff n < 2^32 − 1 and the name is n's decimal text |
| Links.LinkEntries | src/index.js:269 | the filtered keys are body entries that start with `links-`, and no more than the body holds |
| Links.LinkEntriesComplete | src/index.js:269 | every body entry that starts with `links-` is kept by the filter |
| Links.LinkEntriesAppend | src/index.js:269 | the filter keeps the body's order: filtering a concatenation concatenates the filtered parts |
| Links.Assign | src/index.js:275 | defined as setting the field, except that `__proto__` is ignored; its effect inside a step is stated by `Links.StepEffect` |
| Links.Step | src/index.js:271-276 | defined as one call of the reduce callback; its meaning is stated by `Links.StepEffect` |
| Links.StepEffect | src/index.js:271-276 | a callback throws iff the index is `length`; a non-index leaves the array; index i makes slot i an object that gains the field and keeps its other fields, grows the array with holes up to i, and leaves every other slot |
| Links.KeyStep | src/index.js:270-277 | appending one key for slot i to a body runs exactly one callback on the array the body rebuilds |
| Links.Fold | src/index.js:270-277 | defined as the reduce, stopping at the first throw; its meaning is stated by `Links.ReconstructFails`, `ReconstructSlots` and `ReconstructFields` |
| Links.Reconstruct | src/index.js:269-277 | defined as the reduce over the filtered link keys; its meaning is stated by `Links.ReconstructFails`, `ReconstructSlots` and `ReconstructFields` |
| Links.LinksJson | src/index.js:283 | the serialised value is a list as long as the array, with null exactly at the holes |
| Links.SlotJson | src/index.js:283 | a hole serialises as null and a link object as an object with the same fields, all strings |
| Links.SlotOf | src/index.js:271-275 | defined as the array index named by the key's index piece, if any; used by `Links.StepEffect`, `Links.ReconstructSlots` and `Links.LinkKeyParts` |
| Links.SetSlot | src/index.js:273-275 | storing at index i sets slot i, leaves other slots, and pads the array with holes up to i |
| Links.ReconstructSnoc | src/index.js:270-277 | the reduce over a body is the reduce over its prefix followed by one callback on the last link key |
| Links.ReconstructFails | src/index.js:270-277 | the reduce throws iff some link key has the index `length` |
| Links.ReconstructSlots | src/index.js:270-277 | without a `length` index: slot i holds an object iff some link key names array index i, and the last slot is not a hole, so the length is the largest index + 1 and the unnamed lower slots are holes |
| Links.ReconstructFields | src/index.js:270-277 | each object holds exactly the fields submitted for its index (`__proto__` excepted), none defaulted, each with the value of the last key that named it |
| Links.LinksJsonSnoc | src/index.js:283 | the serialised array is the serialised prefix followed by the last slot (a hole as null) |
| Links.LinkKey | src/index.js:235-236 | defined as the template `links-${index}-${field}`; its meaning is stated by `Links.LinkKeyParts` |
| Links.LinkKeyParts | src/index.js:235-236 | a generated key `links-${i}-${field}` is a link key whose index is i and whose field is `field` |
| Links.ClientForm | src/index.js:233-237 | the script produces two inputs per link |
| Links.ClientFormShaped | src/index.js:233-237 | the script names the inputs of link i `links-i-text` and `links-i-url`, in order, with the edited values |
| Links.FormShapedRoundTrip | src/index.js:269-277 | a body of text/url keys for indices 0..n−1 rebuilds the list it carries, in order and without holes |
| Links.ClientFormRoundTrip | src/index.js:233-237 | the array rebuilt from the script's inputs is the edited list |
| Links.SingleKey | src/index.js:270-277 | one key for slot i rebuilds i holes followed by an object with that one field |
| Links.AppendEntry | src/index.js:270-277 | a text key and a url key for the next index append one object holding both |
| Links.ArrivalOrderIrrelevant | src/index.js:269-277 | when no two keys fill the same field of the same slot, the rebuilt array (or the throw) does not depend on arrival order |
| Links.GapIsPadded | src/index.js:270-277 | keys for indices 0 and 2 rebuild three slots with a hole in the middle: gaps are padded, not skipped |
| Links.GapArrivalOrder | src/index.js:269-277 | those keys sent in another order rebuild the same array |
| PublicPage.PublicLinks | src/index.js:45-50 | a failed parse gives the empty list; a successful one gives the parsed value |
| PublicPage.Property | src/index.js:128 | `link.url` / `link.text` is defined iff the element is an object with that field |
| PublicPage.Views | src/index.js:128 | one view per element, in order |
| PublicPage.StrThrows | src/index.js:128 | defined as the `${…}` conversion throwing: an object with its own `toString` key (not callable, and `valueOf` gives the object back), or an array holding such a value; used by `PublicPage.RenderLinks` and `PublicPage.UnprintableUrlBreaksHome` |
| PublicPage.LinkError | src/index.js:128 | defined as what rendering one element raises: reading `url` from null, or converting an unprintable `url` or `text`; its meaning is stated by `PublicPage.FirstError`, `PublicPage.RenderLinks` and `PublicPage.StoredLinkErrors` |
| PublicPage.FirstError | src/index.js:128 | the scan finds an error iff some element throws, and then it is the error of the first element that does |
| PublicPage.RenderLinks | src/index.js:128 | as written, the map succeeds iff the parsed value is a list none of whose elements throws (null, or a `url`/`text` value without string conversion), and then shows one view per element; otherwise it fails with the first element's error, or with "not an array" |
| PublicPage.HomeLinks | src/index.js:42-50 | defined as the render (the `links.map` of line 128) of the parsed `links` snapshot value; `PublicPage.Home` computes it, and `HoleBreaksHome`, `NonListBreaksHome` and `EntriesShown` state what it gives |
| PublicPage.Home | src/index.js:42-50 | the public page's list is the render of the parsed snapshot value, and never longer than that list |
| PublicPage.UnparsableLinksRenderNothing | src/index.js:45-50 | unparsable stored text renders no links and does not fail |
| PublicPage.AbsentLinksRenderNothing | src/index.js:44-50 | an absent or empty `links` (the "" of the snapshot) renders no links and does not fail |
| PublicPage.SlotView | src/index.js:128 | a stored link object renders with its own `url` and `text` |
| PublicPage.StoredLinksParsed | src/index.js:47 | the page parses back exactly the array the submit handler serialised |
| PublicPage.StoredLinkErrors | src/index.js:128 | in a stored array the elements that throw are exactly the holes, and they throw reading from null |
| PublicPage.StoredObjectRenders | src/index.js:128 | a stored link object holds only strings and renders without throwing |
| PublicPage.HoleIsNull | src/index.js:283 | the serialised array contains null iff the rebuilt array has a hole |
| PublicPage.HoleBreaksHome | src/index.js:128 | as written, any hole in the stored array makes the page throw |
| PublicPage.UnprintableUrlBreaksHome | src/index.js:128 | as written, a stored `[{"url": {"toString": 0}}]` makes the page throw converting `link.url` |
| PublicPage.NonListBreaksHome | src/index.js:128 | as written, a stored JSON value that is not a list makes the page throw |
| PublicPage.GapSubmissionBreaksHome | src/index.js:270-283 | the body `links-1-text=a` stores `[null, {"text":"a"}]`, and the page then throws |
| PublicPage.Renderable | src/index.js:128 | keeps exactly the elements that render without throwing (every one of them, and nothing else), and changes nothing when none throws |
| PublicPage.RenderableAppend | src/index.js:128 | skipping distributes over concatenation, so the kept elements stay in their order |
| PublicPage.RenderPresentLinks | src/index.js:128 | the corrected render agrees with the page as written whenever that one succeeds, and shows nothing for a non-list |
| PublicPage.RenderableOfStored | src/index.js:128 | skipping what cannot be rendered of a serialised array shows exactly the array's objects in index order |
| PublicPage.PresentLinksRoundTrip | src/index.js:128 | whatever the submit handler stored, the corrected page shows its link objects in index order |
| PublicPage.EntriesShown | src/index.js:128 | a stored list without holes shows, on the page as written, as its (url, text) pairs in order |
| Session.Authenticate | src/index.js:9-16 | the gate admits claims only for a present, non-empty cookie that verifies, and then they are the verified claims |
| Session.Gate | src/index.js:8-23 | the handler runs exactly once, with the verified claims, iff the cookie authenticates; otherwise the answer is a redirect to `/login` |
| Session.RunHandler | src/index.js:18 | `next()` always resolves: a returned response passes through, and a throw becomes a 500 |
| Session.Guarded | src/index.js:8-23 | a guarded route redirects to `/login` without running the handler unless the cookie authenticates; otherwise the handler runs once with the claims and its response is returned, or a 500 if it throws |
| Session.HandlerErrorIsServerError | src/index.js:15-22 | behind the framework, a handler error reaches the client as a 500, not as a `/login` redirect |
| Session.NoCookieNoHandler | src/index.js:11-13 | a missing or empty cookie redirects to `/login` without running the handler |
| Session.LoginResponse | src/index.js:160-180 | a 500 iff no password is sent; `/admin` iff the password's HMAC and the user match the stored credentials, with a token for the stored user expiring 7200 s after issue; otherwise `/login` without a cookie |
| Session.PostLogin | src/index.js:154-181 | the login handler reads `rootUser` and `rootPw` from the store and answers with the credential check's response |
| Session.CredentialsMatch | src/index.js:165 | defined as both stored credentials present, the posted user equal to the stored one and the stored hash equal to the HMAC of the posted password; its meaning is stated by `Session.LoginOutcomes` and `Session.AbsentCredentialsNeverMatch` |
| Session.LoginOutcomes | src/index.js:157-180 | a 500 iff no password is sent; on a full match, `/admin` with a token for the stored user expiring 7200 s after issue; otherwise `/login` with no cookie |
| Session.AbsentCredentialsNeverMatch | src/index.js:165 | with no stored user or password, no login succeeds |
| Session.Logout | src/index.js:289-296 | logout redirects to `/` and sets the cookie to "" |
| Session.LoginThenGate | src/index.js:165-177 | a successful login's token admits the stored user's claims for two hours, and afterwards the gate turns it away |
| Session.LogoutLocksOut | src/index.js:289-296 | after logout the gate redirects to `/login` without running the handler |
| Admin.FieldsOf | src/index.js:203-211 | the form lists every key but `links`, each with its snapshot value, and nothing else |
| Admin.FormFields | src/index.js:203-211 | the textareas are the schema keys other than `links`, each with its snapshot value, every such key present |
| Admin.AdminPage | src/index.js:203-211 | defined as the handler that answers the edit form of `Admin.FormFields`; `Admin.GetAdmin` puts it behind the gate |
| Admin.GetAdmin | src/index.js:183-211 | `GET /admin` is the gate in front of the edit form filled from the snapshot; the form is only shown to an authenticated request |
| Admin.SubmitWrites | src/index.js:279-285 | the puts of the write loop: at least one per body entry |
| Admin.SubmitWritesOnly | src/index.js:279-285 | every put writes either the serialised array to `links` or a body entry that is not a link key, and the last put of a non-empty body writes `links` |
| Admin.SubmitResult | src/index.js:266-287 | the handler throws iff some link key has the index `length`, and otherwise redirects to `/admin` |
| Admin.FoldFailureStays | src/index.js:270-277 | once a callback has thrown, the whole reduce throws |
| Admin.FilterLinkKeys | src/index.js:269 | the filter loop keeps exactly the link keys, in order |
| Admin.ReduceLinks | src/index.js:270-277 | the reduce loop computes the rebuilt array, or the throw |
| Admin.WriteLoop | src/index.js:279-285 | the loop puts each entry that is not a link key, then `links`, per body entry, and the store becomes those puts replayed |
| Admin.Submit | src/index.js:266-287 | on a throw nothing is written; otherwise the store receives exactly the write loop's puts, and the handler redirects to `/admin` |
| Admin.PostAdmin | src/index.js:266-287 | behind the gate: no write unless authenticated and the reduce succeeds; a throw is a 500 |
| Admin.StoreAfterWrites | src/index.js:279-285 | replaying the loop's puts gives the store built entry by entry |
| Admin.SubmitStoreEffect | src/index.js:279-285 | `links` ends with the serialised array for a non-empty body and is untouched for an empty one; other non-link keys hold their submitted values; link keys and keys outside the body keep their old values |
| Admin.LinksWrittenPerEntry | src/index.js:279-285 | `links` is written once per body entry (once more for a plain `links` field) |
| EditCycle.ParamListShape | src/index.js:26-29 | the schema keys are distinct and none starts with `links-` |
| EditCycle.FormShapedKeys | src/index.js:233-237 | the script's input names are distinct link keys |
| EditCycle.PlainFieldsIgnored | src/index.js:269 | keys that are not link keys do not affect the rebuilt array |
| EditCycle.FormFieldsShape | src/index.js:203-211 | the form's fields are non-empty, distinct, and none is a link key |
| EditCycle.ResubmitKeepsSnapshot | src/index.js:266-287 | when every textarea value posts back unchanged (no `&`, `<`, CR, LF or NUL), posting the form back as loaded keeps every snapshot field and stores the edited list under `links`, in order and without holes |
| EditCycle.EditCycleShowsLinks | src/index.js:128 | under the same condition, after that submission the public page as written shows the edited list's (url, text) pairs in order |
| EditCycle.SubmitThenHome | src/index.js:266-287 | after a successful non-empty submission the corrected page shows the rebuilt array's objects; the page as written renders iff the array has no hole |
| EditCycle.GapExample | src/index.js:269-277 | `links-0-text, links-0-url, links-2-text, links-2-url` rebuild `[{A,B}, null, {C,D}]` in either arrival order |

## Left out

- HTML rendering: the templates of `GET /`, `GET /login` and `GET /admin` are not modelled. The public page is modelled up to the list of (url, text) values its `<li>` elements interpolate. The admin page is modelled up to its list of (field, value) textareas.
- The browser script of the admin page is not modelled as DOM code. Only the names `updateNames` gives the inputs (`Links.ClientForm`) are modelled. In particular `const links = ${params.links};` is a syntax error when `links` is "", which is left out.
- `src/admin.js` is not modelled: it has no logic. `delay(50)` is an unawaited timer with no effect on the result.
- Concurrency and `async`: `KV.get` / `KV.put` are sequential map operations. Store failures are not modelled; every read and write succeeds.
- JWT, HMAC-SHA256 and JSON parse/stringify are parameters. Their properties are lemma hypotheses, not proved facts.
- Cookie plumbing and attributes are not modelled. This includes `maxAge: 3600`, which drops the cookie after one hour while the token lasts two.
- EditCycle.SubmitThenHome: proved for a non-empty body only. An empty body writes nothing, so `links` keeps its old value and the page shows the old list, as `Admin.SubmitStoreEffect` states.
- Session.LoginOutcomes: `user` and `pw` are strings or absent. A `File` value from a multipart body is not modelled.
- Links.ReconstructFails: the iff holds only for indices that are array indices or plain names. An index naming an inherited member is not modelled: `links-map-name`, `links-constructor-prototype` and `links-__proto__-length` throw in the source (strict-mode writes to read-only properties, or a bad array length), but the model drops them. Conversely, `links-length-__proto__` after a filled slot does not throw in the source (the `__proto__` setter ignores a number receiver), but the model throws. With any other field, or before any slot is filled, both throw. Modelling them means modelling writes into the shared prototypes.
- Links.ArrivalOrderIrrelevant and Admin.SubmitResult rest on the same simplification of the index `length`.
- EditCycle.ResubmitKeepsSnapshot and EditCycle.EditCycleShowsLinks: a textarea value containing `&`, `<`, CR, LF or NUL does not post back unchanged (character references are decoded, `</textarea>` ends the element, a leading newline is dropped, line breaks become CRLF, NUL becomes U+FFFD). The browser's parsing is not modelled, so these lemmas require values without those characters.
- Links.ReconstructFields: a named property that is not an array index (`links-01-text`, `links-map-url`) is treated as dropped. Writing through an inherited name such as `__proto__` or `constructor` (prototype pollution) is not modelled.
- PublicPage.RenderLinks: parsed numbers are integers; JSON floats and object field order are not modelled.
- Links.Reconstruct: `Object.keys` enumerates integer-like keys before other keys. The body is modelled as a sequence in enumeration order, so that ordering is taken as given, not derived.
- Links.ArrivalOrderIrrelevant: proved only when no two keys fill the same field of the same slot. When two do (`links-0-text` and `links-0-text-x`), the later one wins, and order then matters.
- Links.Step, Links.Fold, Links.Reconstruct, Links.Assign, FormKeys.IsLinkKey, FormKeys.IndexText and FormKeys.FieldName carry no contract of their own. Their meaning is stated by the lemmas named in their rows, so the reduce's proofs stay small.

## Findings

| source | as written | input that shows it | evidently intended | confidence | as-written member | corrected member |
|---|---|---|---|---|---|---|
| src/index.js:128 | `links.map(link => …${link.url}…)` reads `url` of every element. The submit handler (src/index.js:270-283) stores `null` for every hole of the rebuilt array, and reading a property of `null` throws, so the public page answers 500. A stored value that is not a list throws the same way, and so does a `url` or `text` value without string conversion. | a `POST /admin` body with the single field `links-1-text=a` stores `[null,{"text":"a"}]`; the next `GET /` throws | holes, non-list values and elements that cannot be rendered show no link, and the remaining link objects show in index order | not executed | PublicPage.GapSubmissionBreaksHome | PublicPage.PresentLinksRoundTrip |
