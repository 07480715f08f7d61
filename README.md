# Products catalogue: query translation, item routes, authentication and client string logic

This project models, in Dafny, the decision logic of a small Express and MongoDB product
catalogue with session-based sign-in and a browser client:

- **Query translator** (`QueryTranslator`, query.dfy). `GET /api/items` turns the parsed query
  string into a store query:
  - an equality or `$in` condition for every non-reserved key, with `"true"`/`"false"` and
    numeric strings coerced;
  - a sort object built by assigning `1`/`-1` per segment, in JavaScript property order;
  - an inclusion-only projection;
  - in all three objects, assigning the name `__proto__` runs the setter inherited from
    `Object.prototype` and creates no key, so `?fields=__proto__` gives no projection and
    `?sort=-__proto__` no sort;
  - `limit` and `skip` clamped as the route clamps them.
- **Item routes** (`Items`, items.dfy). Create validation and the stored document, the partial
  update of `PUT`, and the status decisions of `GET /:id`, `POST`, `PUT` and `DELETE`. The
  collection is a class holding a map from object id to document, which the handlers update in
  place.
- **Authentication routes** (`Auth`, auth.dfy). Registration covers its checks in order,
  username normalisation and the duplicate check. Login covers its single generic 401 and the
  session writes. Also modelled: `sanitizeUser`, `/me` and logout. Users live in a class
  holding a sequence, so `findOne` returns the first match in natural order.
- **Browser client** (`Client`, client.dfy):
  - `escapeHtml` as its chain of five `replaceAll` calls;
  - the name search of `renderRows`;
  - `buildItemsQuery` with `URLSearchParams` form encoding.
- **Shared support**:
  - `Js` (js.dfy): JavaScript values, truthiness, `String(v)` and `Number(v)`.
  - `Text` (text.dfy): `trim` with the exact ECMAScript white-space set, ASCII `toLowerCase`,
    `split`/`join`, `includes`, `replaceAll`, and UTF-16 `length`.
  - `Http` (http.dfy): responses and the session.
  - `Wrappers` (wrappers.dfy): `Option` and `Result`.

Every signed-in user may create, update and delete every item. The routes check only that the
session holds a user id. They store no owner on an item, give users no role and never answer
403, so the model has no ownership check, no role and no 403. Create
stores exactly name, price, category, inStock and createdAt. Fields such as `brand` and `sku`
that the client sends are dropped on create and ignored on update.

The host's number parsing and formatting and its date formatting are opaque functions in a
`Js.Runtime` value, which every operation that needs them receives. bcrypt is an opaque
`Auth.Bcrypt` pair `hash`/`compare`. The only assumption about it, `Auth.Sound`, is used only by
the register-then-login lemma. Clock readings (`now`) and the ids the driver generates
(`newId`) are parameters.

## Model

| member | source | states |
|---|---|---|
| QueryTranslator.CoerceValue | routes/items.routes.js:53-61 | "true"/"false" become booleans before any numeric parsing; a value whose string form is not blank and parses as a number becomes that number; a blank string, a NaN parse and anything else come back unchanged |
| QueryTranslator.InList | routes/items.routes.js:69 | the `$in` list has one element per comma-separated piece, empty pieces included, each the coercion of the trimmed piece; `Text.JoinSplit` shows the pieces join back to the value |
| Text.JoinSplit | routes/items.routes.js:69 | joining the pieces of `split(",")` with "," gives the string back |
| Text.SplitJoin | routes/items.routes.js:69 | splitting a join of comma-free pieces gives the pieces back |
| Text.TrimEmptyIffBlank | routes/items.routes.js:58 | `String(v).trim() !== ""` holds exactly when the string has a character outside the ECMAScript white-space set |
| QueryTranslator.FilterCondition | routes/items.routes.js:68-72 | a string containing a comma becomes exactly `{$in: list}` (and only such a string becomes an object); any other value is coerced once |
| QueryTranslator.BuildFilterFromQuery | routes/items.routes.js:63-75 | the filter has exactly the query keys other than sort/fields/limit/skip and `__proto__` (whose assignment creates no own key), each mapped to its condition |
| QueryTranslator.NonEmptyTrimmed | routes/items.routes.js:28-31 | the kept names are never empty and are no more than the pieces |
| QueryTranslator.NonEmptyTrimmedMembers | routes/items.routes.js:28-31 | a name is kept exactly when it is the non-empty trim of some piece |
| QueryTranslator.AssignKeys | routes/items.routes.js:35-36 | assigning a sort property appends the key only when it is new and not `__proto__`; an existing key keeps its place |
| QueryTranslator.AssignLookup | routes/items.routes.js:35-36 | after `sort[k] = d`, the own property `k` reads `d` unless `k` is `__proto__`, and every other own property is unchanged |
| QueryTranslator.PropertyNamesMembers | routes/items.routes.js:34-37 | the property names created by the assignments are exactly the fields named, except `__proto__` |
| QueryTranslator.SortOfKeys | routes/items.routes.js:33-37 | the sort object's keys are the distinct field names other than `__proto__`, in order of first appearance |
| QueryTranslator.SortOfLookup | routes/items.routes.js:33-37 | `__proto__` is never an own property of the sort; for every other field the last segment naming it decides its direction |
| QueryTranslator.SortFrom | routes/items.routes.js:33-37 | the `for` loop builds the same sort object as the assignment fold over all the segments, `__proto__` segments adding nothing |
| QueryTranslator.ParseSort | routes/items.routes.js:26-39 | absent or empty input gives `{}`; otherwise the result is the assignment fold over the trimmed non-empty segments (`-f` gives -1, `f` gives 1), its keys are the distinct fields other than `__proto__` in first-appearance order, `__proto__` has no own entry, and the last occurrence decides every other direction |
| QueryTranslator.ProtoOnlySortIsEmpty | routes/items.routes.js:33-37 | segments that all name `__proto__`, such as `-__proto__`, give the empty sort object |
| QueryTranslator.ProjectionOf | routes/items.routes.js:48-50 | the loop builds a map whose keys are exactly the listed field names other than `__proto__`, each mapped to 1 |
| QueryTranslator.ParseProjection | routes/items.routes.js:41-51 | absent or empty input gives `{}`; otherwise the keys are exactly the trimmed non-empty field names other than `__proto__`, all mapped to 1 |
| QueryTranslator.ProjectionOption | routes/items.routes.js:110 | an empty projection is not passed to the store; a non-empty one is passed as is |
| QueryTranslator.Limit | routes/items.routes.js:106 | defaults to 50 for a falsy parameter, is never above 200, equals the parsed number when that is at most 200, and is NaN exactly when the parse is |
| QueryTranslator.Skip | routes/items.routes.js:107 | defaults to 0, is never below 0, equals the parsed number when that is non-negative, and is NaN exactly when the parse is |
| QueryTranslator.BuildListQuery | routes/items.routes.js:102-114 | the store query has the filter of the non-reserved keys; a projection exactly when some listed field is not `__proto__`, whose keys are those fields, each 1; a sort exactly when some sort field is not `__proto__`, the parsed one; and the clamped skip and limit |
| Items.IsValidObjectId | routes/items.routes.js:10-12 | an id is accepted exactly when it is 24 lower-case hexadecimal digits, the strings that `ObjectId.isValid` accepts and that equal their own canonical form |
| Items.ValidObjectIdIsCanonical | routes/items.routes.js:11 | an accepted id is unchanged by lower-casing: it is written in canonical lower-case hex |
| Items.NormalizeId | routes/items.routes.js:14-17 | the document keeps every field and gains `_id` as a string |
| Items.RequireAuth | routes/items.routes.js:19-24 | the request passes exactly when the session holds a non-empty user id; otherwise 401 "Unauthorized" |
| Items.ValidateItemBody | routes/items.routes.js:77-92 | a body is accepted iff it is an object with a string name of trimmed length at least 2 and a non-NaN number price; each failure gives its own message, in the source's order |
| Items.CategoryOf | routes/items.routes.js:166 | a string category is stored trimmed, anything else as "general" |
| Items.InStockOf | routes/items.routes.js:167 | a boolean inStock is stored as given, anything else as true |
| Items.CreateDoc | routes/items.routes.js:163-169 | the stored document has exactly name (trimmed), price, category (trimmed string or "general"), inStock (boolean or true) and createdAt; no other body field |
| Items.CreatedDocIsValid | routes/items.routes.js:163-169 | a stored document passes the create validation again |
| Items.FirstInvalid | routes/items.routes.js:198-224 | names the first provided field, in the order name, price, category, inStock, that fails its type check; none exactly when every provided field passes |
| Items.Updates | routes/items.routes.js:196-224 | the update has exactly the provided updatable fields, strings trimmed |
| Items.NoUpdates | routes/items.routes.js:200-228 | no update field is collected iff none of `name`, `price`, `category`, `inStock` is provided |
| Items.UpdateFor | routes/items.routes.js:192-230 | "Body is required" for an empty or non-object body; otherwise the first invalid field's message; otherwise "No valid fields to update" when no field is provided; a `$set` exists iff all provided fields pass and one is provided, and then it holds exactly those fields and `updatedAt` |
| Items.CheckField | routes/items.routes.js:198-224 | one field block: an invalid provided field ends with its message, otherwise the field is added when provided |
| Items.UpdateFromBody | routes/items.routes.js:192-230 | the field-by-field checks compute exactly `UpdateFor` |
| Items.ItemStore.InsertOne | routes/items.routes.js:171 | the new document is stored under the fresh, well-formed id and nothing else changes; every key stays a well-formed object id |
| Items.ItemStore.FindOneAndUpdate | routes/items.routes.js:235-241 | only the matched document changes, by the `$set`, and it is returned; an unknown id changes nothing; every key stays a well-formed object id |
| Items.ItemStore.FindOneAndDelete | routes/items.routes.js:264-265 | only the matched document is removed, and it is returned; every key stays a well-formed object id |
| Items.GetItem | routes/items.routes.js:129-148 | 400 "Invalid id" iff the id is malformed, 404 "Not Found" iff it is well formed and unknown, otherwise 200 with the normalised document |
| Items.StoredItemIsFound | routes/items.routes.js:129-148 | in a store whose keys are all well-formed ids, every stored document is answered by `GET /:id` with 200 and its normalised form |
| Items.ListResponse | routes/items.routes.js:116-119 | every listed document is sent with its `_id` as a string, in the store's order |
| Items.CreateItem | routes/items.routes.js:153-179 | 401 without a session and 400 with the validation message, both without a write; otherwise the built document is inserted and answered with 201, and a later GET of the id returns it; every key of the store stays a well-formed object id |
| Items.UpdateItem | routes/items.routes.js:184-248 | 401, then 400 for a malformed id, then 400 for a refused body, all without a write; 404 for an unknown id; otherwise only that document changes, by the `$set`, and is returned; every key of the store stays a well-formed object id |
| Items.DeleteItem | routes/items.routes.js:253-272 | 401, 400 and 404 without a change; otherwise exactly that document is removed and answered as `{deleted: true, item}`, and a later GET gives 404; every key of the store stays a well-formed object id |
| Auth.UserDoc | routes/auth.routes.js:36-40 | a stored user has exactly `_id`, username, passwordHash and createdAt, and no role |
| Auth.SanitizeUser | routes/auth.routes.js:9-14 | null for no user; otherwise every field except passwordHash is kept and `_id` is stringified |
| Auth.SanitizeStoredUser | routes/auth.routes.js:9-14 | a sanitised stored user is its id, username and creation time, never its hash |
| Auth.Normalize | routes/auth.routes.js:31 | the normalised username has no ASCII upper-case letter and is no longer than the input |
| Auth.NormalizeIsNormalized | routes/auth.routes.js:37 | `trim().toLowerCase()` yields a name with no edge white space and no upper case |
| Auth.NormalizedIsFixed | routes/auth.routes.js:37 | a name in normal form is its own normalisation |
| Auth.NormalizeIdempotent | routes/auth.routes.js:37 | normalising twice is normalising once |
| Auth.FindIndex | routes/auth.routes.js:31 | the lookup position is the first user with that username, or the end |
| Auth.FindByUsername | routes/auth.routes.js:31 | `findOne` finds nothing iff no user has the name; otherwise the first such user in natural order |
| Auth.FindStoredUser | routes/auth.routes.js:64-65 | in a store without duplicate usernames a user is found by its own username |
| Auth.RegisterOutcome | routes/auth.routes.js:17-50 | 400 for a bad username, then 400 for a bad password, then 409 for a taken normalised name, all leaving the users unchanged; 201 iff all checks pass, appending exactly a user with the normalised name and the password's hash, answered with its public view |
| Auth.AppendKeepsUsernames | routes/auth.routes.js:31-42 | appending a user whose normalised name is not taken keeps usernames unique and normalised |
| Auth.RegisterKeepsUsernames | routes/auth.routes.js:31-42 | registration keeps usernames unique and in normal form |
| Auth.LoginUser | routes/auth.routes.js:54-68 | sign-in succeeds iff both fields are truthy, the first user with the normalised name exists, and compare accepts the password; the user signed in is that user |
| Auth.LoginResponse | routes/auth.routes.js:57-74 | every failure is the same 401 "Invalid credentials"; success is 200 `{ok: true, user}` with the public view |
| Auth.RegisterThenLogin | routes/auth.routes.js:31-68 | after a successful registration, logging in with the same body signs in exactly the new user |
| Auth.LoginFindsStoredUser | routes/auth.routes.js:59-68 | a stored user signs in with any spelling of the name that normalises to it and any password its hash accepts |
| Auth.MeResponse | routes/auth.routes.js:88-93 | `{user: null}` iff the session's user id is falsy; otherwise `{id, username}` taken from the session only, with username present iff it is set |
| Auth.UserStore.InsertUser | routes/auth.routes.js:36-42 | inserting a normalised, unused username appends exactly that user and keeps names unique and normalised and ids well formed |
| Auth.UserStore.Register | routes/auth.routes.js:17-50 | the response and the new users are those of `RegisterOutcome`, and uniqueness and normalisation of usernames are kept |
| Auth.SignIn | routes/auth.routes.js:69-71 | the session's `userId` becomes the string form of the user's `_id` and `username` its name, so `/me` sees a signed-in user |
| Auth.UserStore.Login | routes/auth.routes.js:52-79 | answers `LoginResponse`; on success sets exactly `session.userId` to the user's id and `session.username` to its name, after which `/me` reports a user; on failure the session is unchanged |
| Auth.Logout | routes/auth.routes.js:81-86 | always 200 `{ok: true}`, clears the `sid` cookie, and leaves the client signed out |
| Client.EscapeText | public/app.js:53-58 | the five `replaceAll` calls, `&` first, leave no `<`, `>`, `"` or `'` in the output |
| Client.EscapeHtml | public/app.js:52-59 | null and undefined render as ""; every other value, string, number, boolean, object, array or date, goes through `String(v)` and then the replacement chain |
| Client.EscapeChar | public/app.js:54-58 | each special character maps to its entity, any other character to itself |
| Client.FlatEscape | public/app.js:52-59 | a one-pass escape never contains `<`, `>`, `"` or `'` |
| Client.EscapeConcat | public/app.js:53-58 | the replacement chain distributes over concatenation |
| Client.EscapePlain | public/app.js:53-59 | a string with none of the five special characters is returned unchanged |
| Client.EscapeOne | public/app.js:54-58 | on one character the chain gives exactly that character's entity, so later replacements never touch an inserted entity |
| Client.EscapeTextIsFlat | public/app.js:53-58 | the chain of five `replaceAll` calls, `&` first, equals the one-pass escape |
| Client.FlatAmpersands | public/app.js:54-58 | in a one-pass escape every `&` begins one of the five entities |
| Client.EscapeAmpersands | public/app.js:54-58 | in the output of `escapeHtml` every `&` begins `&amp;`, `&lt;`, `&gt;`, `&quot;` or `&#039;` |
| Client.UnescapeStep | public/app.js:54-58 | decoding an entity or plain character in front of any text gives that character back |
| Client.UnescapeFlat | public/app.js:54-58 | decoding a one-pass escape gives the original text |
| Client.UnescapeEscape | public/app.js:52-59 | decoding the five entities of the output gives the input back: nothing is lost or escaped twice |
| Client.SearchTerm | public/app.js:144 | the search term is empty iff the input is absent or blank |
| Client.Filter | public/app.js:147 | the result has no more items than given |
| Client.FilterMembers | public/app.js:147 | a value is in the result iff it is one of the items and its lower-cased name contains the term |
| Client.FilterConcat | public/app.js:147 | filtering keeps the original order |
| Client.FilterEmptyTerm | public/app.js:146-148 | an empty term keeps every item |
| Client.SearchRows | public/app.js:143-148 | an absent or blank search keeps all items; otherwise an item is kept iff its lower-cased name contains the trimmed, lower-cased search, in the original order |
| Client.Utf8 | public/app.js:86-88 | a character encodes as one to four bytes |
| Client.PercentBytes | public/app.js:86-88 | the encoding is three characters per byte, each `%` or an unreserved character |
| Client.PercentBytesAt | public/app.js:86-88 | byte `i` is written at positions `3*i` to `3*i+2` as `%` followed by its two upper-case hexadecimal digits |
| Client.FormEncodeChar | public/app.js:86-88 | an encoded character is never empty and uses only unreserved characters, `+` and `%` |
| Client.FormEncode | public/app.js:86-88 | the encoded value uses only unreserved characters, `+` and `%` |
| Client.FormEncodeUnreserved | public/app.js:86-88 | a value of unreserved characters is sent unchanged |
| Client.BuildItemsQuery | public/app.js:83-90 | "" when no sort is selected, otherwise `?sort=` and the encoded value, which holds no `&`, `=`, `#` or space |

## Left out

- Express routing, middleware, static serving, bootstrap and the 500 answers to store failures are not modelled.
- The store is not modelled: which documents a filter matches, the order a sort produces, and how skip and limit cut the result. `GET /api/items` is modelled up to the query it hands the store (`BuildListQuery`) and from the documents it receives (`ListResponse`).
- QueryTranslator.Limit: states the value handed to the driver; the driver's reading of a limit of 0 as "no limit" is store behaviour and not modelled.
- Items.ItemStore.FindOneAndUpdate: takes the driver's `result.value` to be the matched document. The package manifest that fixes the driver version is not part of this model; with a driver that returns the document itself, PUT and DELETE would answer 404 after writing.
- Items.IsValidObjectId: `ObjectId.isValid` and the canonical-string comparison are stated by their combined outcome, exactly 24 lower-case hexadecimal digits.
- `Number(string)`, number-to-string and date-to-string are opaque fields of `Js.Runtime`. IEEE details are abstracted: -0, the infinities and rounding. NaN is kept.
- Text.ToLower: maps only ASCII A-Z; `toLowerCase` on other scripts is not modelled, and neither are Auth.Normalize and Client.SearchTerm, which use it.
- Strings are sequences of Unicode scalar values; lone UTF-16 surrogates cannot be represented.
- QueryTranslator.AssignKeys: JavaScript places integer-like property names before the others; the sort object keeps plain insertion order.
- QueryTranslator.BuildFilterFromQuery: a `__proto__` query key creates no own filter key, as modelled; when its condition is an object (an `$in` list) the source also replaces the filter's prototype, and neither that prototype nor what the driver makes of inherited properties is modelled.
- Js.Prop: reads only own members of JSON objects; inherited and array properties are not modelled.
- bcrypt is the opaque `Auth.Bcrypt` pair; hashing's random salt is folded into the given `hash` function.
- Real concurrency is not modelled: two simultaneous registrations of one name can both pass the duplicate check. Session-store persistence, TTL and cookie settings are not modelled either.
- Client: `money`/`toFixed`, the row template of `renderRows`, DOM updates, `fetch` and event handlers are not modelled.
- Client.SearchRows: requires no `null` item, since reading `name` of `null` throws in the source.
- The seed scripts and the database connection module are not part of this model.
