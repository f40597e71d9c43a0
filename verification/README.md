# Fauna storage adapter for Auth.js, modelled in Dafny

This project models the storage adapter that an authentication framework
(NextAuth / Auth.js) uses to keep users, linked accounts, sessions and
verification tokens in a Fauna document store
(`assets/js/customFaunaAdapter.js`). It covers the adapter's three parts:

- **the codec** (`format.to`, `format.from`): a shallow, key-by-key copy of a
  record. On the way in it turns every `Date` into a store time. On the way
  out it turns every value with a truthy string `.value` into a `Date`.
- **the `query` wrapper**: a document becomes `{...data, id: ref.id}`, passed
  through `from`. A falsy answer becomes `null`. So does an error named
  `NotFound`, and so does an error whose description contains
  `Number or numeric String expected`. Every other error is re-thrown unchanged.
- **the adapter operations**: each one is a composite store expression over
  four collections and six indexes: create, get by reference, get by index
  key, update, and lookup-then-delete. `deleteUser` is a cascade run as one
  transaction. `useVerificationToken` consumes a token once.

Modules:

- `Values`: JavaScript values with their truthiness and `.value` property. A record is a `map<string, Value>`.
- `Format`: the codec. `ToStore` and `FromStore` are specification functions. `To` and `From` are the loop methods.
- `RefIds`: decimal reference ids. `Ref(collection, id)` accepts a non-negative number or a non-empty digit string.
- `Query`: the store envelope, the store's errors, and `Normalize`, the `query` wrapper.
- `Store`: the store as a class `Database`. It holds the state (four collections keyed by reference, plus the next reference) and the primitive expressions. Its invariant is that each collection's unique index holds.
- `Paging`: `Paginate` without a size, which gives the first 64 references in reference order.
- `Adapter`: class `Adapter`, closed over the store `f`, with one method per operation. Also the cascade and the `deleteUser` finding.

The network round trip is a deterministic transition on `Database`.
A rejected promise is a `Failure` / `Fail` result. `null` is `None`.

## Model

| member | source | states |
|---|---|---|
| `Format.ToStore` | assets/js/customFaunaAdapter.js:46-57 | `to` keeps exactly the input's keys and leaves no `Date` in the result |
| `Format.FromStore` | assets/js/customFaunaAdapter.js:59-70 | `from` keeps exactly the input's keys and leaves no value that still passes its time test |
| `Format.To` | assets/js/customFaunaAdapter.js:46-57 | the `for…in` copy loop builds exactly `ToStore(record)`: each `Date` becomes `Time(iso)`, every other value is copied |
| `Format.From` | assets/js/customFaunaAdapter.js:59-70 | the `for…in` copy loop builds exactly `FromStore(record)`: a value is replaced by `Date(value.value)` only when it is truthy and has a truthy string `.value` |
| `Format.FromToRoundTrip` | assets/js/customFaunaAdapter.js:44-71 | a framework record with no time-like field and non-empty ISO texts, stored through `to` and read back through `from`, comes back unchanged |
| `Format.ToFromRoundTrip` | assets/js/customFaunaAdapter.js:44-71 | a store record whose time-like fields are all store times survives `from` then `to` unchanged |
| `Format.ConversionsIdempotent` | assets/js/customFaunaAdapter.js:44-71 | applying `to` twice equals applying it once, and the same for `from` |
| `Format.FromConvertsExactlyTimeLike` | assets/js/customFaunaAdapter.js:63-64 | `from` turns a non-Date value into a Date iff it is a store time with non-empty text, or any object whose `value` key holds a non-empty string |
| `Format.FromKeepsEmptyValue` | assets/js/customFaunaAdapter.js:63 | every value whose `.value` is the empty string is copied unchanged by `from` |
| `RefIds.IdString` | assets/js/customFaunaAdapter.js:82 | `ref.id` is a non-empty string of decimal digits |
| `RefIds.ParseIdString` | assets/js/customFaunaAdapter.js:82 | reading back the decimal text of a reference gives the reference |
| `RefIds.IdStringInjective` | assets/js/customFaunaAdapter.js:82 | distinct references have distinct `id` texts |
| `RefIds.ResolveRef` | assets/js/customFaunaAdapter.js:110 | `Ref(Users, id)` resolves exactly a non-negative number or a non-empty digit string |
| `RefIds.ResolveIdString` | assets/js/customFaunaAdapter.js:158 | an `id` the adapter handed out resolves back to its reference |
| `Query.Normalize` | assets/js/customFaunaAdapter.js:77-94 | a document becomes its fields through `from`, with `id` (written last) equal to the ref's text; a falsy answer, a `NotFound` error or a numeric-expected error yields null; every other error is re-thrown unchanged |
| `Query.ReturnedIdResolves` | assets/js/customFaunaAdapter.js:82 | the `id` of a returned record is the ref's text, whatever `id` the stored data held, and resolves back to the document |
| `Query.StoreErrorsClassified` | assets/js/customFaunaAdapter.js:84-91 | the store's not-found errors and its bad-reference error become null; its not-unique error is re-thrown |
| `Store.UniqueIndex` | assets/js/customFaunaAdapter.js:31-42 | each collection has one unique index over its own documents |
| `Store.MatchSet` | assets/js/customFaunaAdapter.js:111 | `Match(index, key)` lists only documents of the indexed collection |
| `Store.MatchAtMostOne` | assets/js/customFaunaAdapter.js:111 | on a unique index a key matches at most one document |
| `Store.Database.Create` | assets/js/customFaunaAdapter.js:109 | `Create` stores the data under a fresh reference and answers with it; if the unique index would break, it raises not-unique and changes nothing |
| `Store.Database.Get` | assets/js/customFaunaAdapter.js:110 | `Get(Ref(c, id))` answers with a document of `c`, or raises the bad-reference or not-found error |
| `Store.Database.GetMatch` | assets/js/customFaunaAdapter.js:111 | `Get(Match(index, key))` on a unique index raises not-found when nothing matches; otherwise it answers with the one matching document |
| `Store.Database.Update` | assets/js/customFaunaAdapter.js:127-128 | `Update` merges the fields into an existing document; if the document is missing or the unique index would break, it raises and changes nothing |
| `Store.Database.Delete` | assets/js/customFaunaAdapter.js:166 | `Delete` removes an existing document and answers with it; for a missing one it raises not-found and changes nothing |
| `Store.Database.DeleteEach` | assets/js/customFaunaAdapter.js:132-139 | a `Foreach` deleting each listed reference removes exactly the listed documents from the collection |
| `Store.Database.Restore` | assets/js/customFaunaAdapter.js:130-142 | an aborted transaction leaves the store exactly as it was saved before it began, still valid |
| `Paging.FirstPage` | assets/js/customFaunaAdapter.js:133 | `Paginate` gives at most a page of references: a subset of the set, with min(size, set size) elements, each smaller than every reference left out |
| `Paging.FirstPageOfSmallSet` | assets/js/customFaunaAdapter.js:137 | a set that fits on one page is its own first page |
| `Paging.FirstPageLeavesSome` | assets/js/customFaunaAdapter.js:133 | a set larger than a page keeps some reference off the first page |
| `Adapter.UserById` | assets/js/customFaunaAdapter.js:110 | the user for an id exists iff the id resolves to a stored user's reference, and its `id` field is that reference's text |
| `Adapter.CascadePages` | assets/js/customFaunaAdapter.js:129-143 | the transaction deletes the given sessions and accounts and the user, and touches nothing else |
| `Adapter.Cascade` | assets/js/customFaunaAdapter.js:129-143 | after the full cascade, no session or account is indexed under the user id, the user is gone, and every other document is kept as it was |
| `Adapter.ShownPlainRecord` | assets/js/customFaunaAdapter.js:109 | a plain record given to a create call comes back as it was, plus the `id` of its new reference |
| `Adapter.ShownWithoutId` | assets/js/customFaunaAdapter.js:169-172 | with `id` stripped, the returned token no longer depends on the store reference and has no `id` key |
| `Adapter.ConsumedTokenIsGone` | assets/js/customFaunaAdapter.js:179 | once the matched token is deleted, nothing matches its `[identifier, token]` key |
| `Adapter.Adapter.constructor` | assets/js/customFaunaAdapter.js:96 | the adapter is bound to the store client it is given |
| `Adapter.Adapter.CreateUser` | assets/js/customFaunaAdapter.js:109 | inserts `to(data)` under the next reference and returns it flattened; rejects with not-unique, store unchanged, if the email is taken |
| `Adapter.Adapter.GetUser` | assets/js/customFaunaAdapter.js:110 | never rejects, and returns exactly `UserById`: null for a malformed or unknown id |
| `Adapter.Adapter.GetUserByEmail` | assets/js/customFaunaAdapter.js:111 | never rejects; null when no user has the email, otherwise that user, whose `email` field is the key |
| `Adapter.Adapter.GetUserByAccount` | assets/js/customFaunaAdapter.js:112-126 | never rejects; null when no account has `[provider, providerAccountId]`; otherwise the user whose reference the account's stored `userId` names (null if none) |
| `Adapter.Adapter.UpdateUser` | assets/js/customFaunaAdapter.js:127-128 | null with the store unchanged for a malformed or unknown `data.id`; otherwise merges `to(data)` into that user and returns it, or rejects with not-unique and changes nothing |
| `Adapter.Adapter.DeleteUser` | assets/js/customFaunaAdapter.js:129-143 | succeeds iff the id names a stored user, and then the store is `Cascade` of the old one; otherwise rejects with the store's own error and deletes nothing |
| `Adapter.Adapter.LinkAccount` | assets/js/customFaunaAdapter.js:144 | inserts `to(data)` into accounts and returns it flattened; rejects with not-unique, store unchanged, if the provider pair is taken |
| `Adapter.Adapter.UnlinkAccount` | assets/js/customFaunaAdapter.js:145-152 | always resolves; deletes the account matching the provider pair, and changes nothing if there is none |
| `Adapter.Adapter.CreateSession` | assets/js/customFaunaAdapter.js:153-154 | inserts `to(data)` into sessions and returns it flattened; rejects with not-unique, store unchanged, if the token is taken |
| `Adapter.Adapter.GetSessionAndUser` | assets/js/customFaunaAdapter.js:155-160 | never rejects; for an unknown token returns null; otherwise returns the session and the lookup of its `userId` (possibly null) |
| `Adapter.Adapter.UpdateSession` | assets/js/customFaunaAdapter.js:161-164 | null with the store unchanged when no session has `data.sessionToken`; otherwise merges `to(data)` into it and returns it |
| `Adapter.Adapter.DeleteSession` | assets/js/customFaunaAdapter.js:165-167 | always resolves; deletes the session with the token, and changes nothing if there is none |
| `Adapter.Adapter.CreateVerificationToken` | assets/js/customFaunaAdapter.js:168-173 | inserts `to(data)` and returns `from` of it without any `id` key; rejects with not-unique, store unchanged, if the key is taken |
| `Adapter.Adapter.UseVerificationToken` | assets/js/customFaunaAdapter.js:174-182 | null with the store unchanged when `[identifier, token]` is absent; otherwise deletes exactly that token and returns its fields without `id`; afterwards nothing matches the key |
| `Adapter.UseVerificationTokenTwice` | assets/js/customFaunaAdapter.js:174-182 | consuming the same key twice: the first call finds the token iff it existed, and the second returns null |
| `Adapter.DeleteUserAsWritten` | assets/js/customFaunaAdapter.js:129-143 | `deleteUser` as written fails exactly when the id does not name a stored user; otherwise it deletes only the first page of sessions and accounts |
| `Adapter.DeleteUserAsWrittenLeavesOrphans` | assets/js/customFaunaAdapter.js:133 | with more than 64 sessions, the code as written leaves a session of the deleted user behind |
| `Adapter.DeleteUserAsWrittenWithinOnePage` | assets/js/customFaunaAdapter.js:129-143 | with at most 64 sessions and 64 accounts, the code as written equals the full cascade |

## Left out

- The faunadb client, the network and `async`/`await`. A round trip is a deterministic transition of `Database`. The store model raises only its own not-found, bad-reference and not-unique errors. Transport and permission errors are not produced, but `Query.Normalize` is proved for every error.
- The FQL expression trees (`Create`, `Match`, `Let`, …). Each composite expression is modelled by its meaning: `Database` methods, composed inside the adapter methods.
- Real dates. A `Date` is the text `toISOString()` gives, and `new Date(text)` is taken to give back that text. An invalid `Date`, for which `toISOString()` throws, is not modelled. The store's rewriting of timestamp texts is not modelled either.
- `Store.Database.Update`: merges the new fields over the old ones one level deep. Fauna's nested-object merge and its removal of fields set to `null` are not modelled.
- Fauna drops `null` and `undefined` fields when it stores a document. Here they are stored as given.
- JavaScript details: the key order of objects, inherited enumerable keys in `for…in`, and numbers that are not integers (NaN, fractions).
- Fauna's 64-bit limit on reference ids. References are unbounded naturals.
- `Select(['data', 'userId'], …)` on an account without `userId` raises a `NotFound` "value not found" error. The wrapper turns that error into null, as it does the other not-found errors.
- `Get(Match(…))` is only used on the four unique indexes. So the model keeps index uniqueness as an invariant and does not model which document Fauna returns first when a key has several matches.
- Races between two concurrent `useVerificationToken` calls. Its two calls run one after the other in the model.
- The test-mode `console.error` logging. It does not change control flow.
- `nuxt.config.js` and `server/api/auth/[...].js`. They are configuration and wiring with no logic of their own.
- Which round trips an operation makes. The model states each operation's result and new store, not how many calls it makes to the store. The short-circuit of `getSessionAndUser` and `useVerificationToken` shows only as their null result with the store unchanged.
- In `Time`, the query expression that `to` builds and the timestamp the store sends back are one variant. So `Format.FromToRoundTrip` is about a record that goes through the store between `to` and `from`. It does not apply to `from(to(x))` with no store in between, where `from` would leave the expression as it is.

## Behaviour of the code the model keeps

- `updateUser` merges the given fields into the stored ones (`Update`), including the `id` key of `data`.
- `useVerificationToken` makes two round trips: `Get(Match(…))`, then `Delete(Select('ref', …))`, which evaluates the match again.
- `deleteUser` as written deletes only the first page of sessions and accounts. `Adapter.DeleteUserAsWritten` models that, and `Adapter.DeleteUserAsWrittenLeavesOrphans` shows the sessions it leaves behind. The adapter method `Adapter.Adapter.DeleteUser` is the corrected full cascade (see Findings).

## Findings

| source | as written | input that shows it | evidently intended | confidence | as-written member | corrected member |
|---|---|---|---|---|---|---|
| assets/js/customFaunaAdapter.js:133-139 | `Foreach(Paginate(Match(SessionsByUser, userId)), …)` and the same for accounts delete only the first page, 64 references by default | a user with 65 sessions: after `deleteUser`, one session still names the deleted user | every session and account of the user is deleted, so none outlives its user | medium, not executed | `Adapter.DeleteUserAsWrittenLeavesOrphans` | `Adapter.Adapter.DeleteUser` |

The corrected `Adapter.Adapter.DeleteUser` deletes every matching reference.
`Adapter.Cascade` proves that no session or account is left under the user id.
`Adapter.DeleteUserAsWrittenWithinOnePage` proves that, for up to 64 sessions and 64 accounts, the code as written does the same.
