# Snippet sharing: a verified model

This project models the core of a small code-snippet sharing application.
The server is a Spring application:

- the `snippets` table and its JPA entity;
- the repository's derived queries;
- the service that creates, shares, updates, deletes and sends snippets to named recipients;
- the REST controller that maps the service's answers onto HTTP status codes.

The browser client is an AngularJS application. The model covers its session in `localStorage`, the sign-in and sign-out effects, the registration error message, the highlighter alias table, and the main view-model.

Two support modules come first, then one module per source file:

- `Base`: `Option` and `Result`.
- `JavaStrings`: the string semantics the server relies on.
  - `String.isBlank` (`Character.isWhitespace`).
  - Hibernate's `@NotBlank` (`trim().length() > 0`).
  - ASCII `toLowerCase`/`LOWER`.
  - Substring search.
  - SQL `LIKE` with `%` and `_`.
- `Entity` (`SnippetEntity.java`):
  - the `Language` enum;
  - the class `SnippetEntity` with its fields, its constructors and one setter per field;
  - the column constraints;
  - the stored `Row` value.
- `Repository` (`SnippetJpaRepository.java`):
  - every derived query, as a filter followed by a sort newest first;
  - `searchSnippets`;
  - the class `SnippetTable`, the table keyed by id, with `save`, `findById`, `existsById` and `deleteById`.
- `Service` (`SnippetService.java`): the class `SnippetService`. It holds the table, the users and the recipient records.
- `Controller` (`SnippetController.java`): the class `SnippetController`, one member per handler.
- `SnippetApp` (`app.js`):
  - the class `LocalStorage`;
  - the classes `LoginCtrl` and `MainCtrl`;
  - the pure helpers.

Modelling choices:

- **Ids and time.** Ids are natural numbers drawn from a counter. A key handed out on insert is therefore never in use, which stands in for random UUIDs. `createdAt` is an integer `now` passed to every operation that may insert.
- **Failed saves.** A save the entity's constraints reject returns `Err` and changes nothing. An example is a title over 120 UTF-16 units, which passes the request's own validation. The controller maps such a failure to 500.
- **The client's `$http`.** It is modelled as an outbox. Issuing a request appends it to `requests`. Each success callback is a separate method that receives the response data.

## Model

| member | source | states |
|---|---|---|
| JavaStrings.NotBlankIffVisibleChar | SnippetEntity.java:22-29 | `@NotBlank` on a string holds exactly when some character lies above U+0020. |
| JavaStrings.NotBlankAndIsBlankDiffer | SnippetController.java:38 | The controller's `isBlank` check and the entity's `@NotBlank` disagree. U+2000 passes `@NotBlank` yet is blank to `isBlank`. |
| JavaStrings.LikeSurroundedIsContains | SnippetJpaRepository.java:33-34 | For a query without `%`, `_` or a backslash, `s LIKE '%q%'` holds exactly when `s` contains `q`. |
| JavaStrings.ContainsIffOccurs | SnippetJpaRepository.java:33-34 | Substring containment holds exactly when the query occurs at some index. |
| Entity.RowOf | SnippetEntity.java:18-51 | The column mapping from entity to row, under the given id and creation time. Its contract lists the mapped fields. The property that matters, the write-then-load round trip, is `Entity.StoredThenLoaded`. |
| JavaStrings.Utf16LengthBounds | SnippetEntity.java:23 | The length `@Size` measures is the number of UTF-16 units. It equals the character count exactly when every character lies in the Basic Multilingual Plane, and never exceeds twice that count. |
| Entity.StoredThenLoaded | SnippetEntity.java:22-38 | Writing an entity and loading it back yields the same entity with its id and `createdAt` filled in. A row meets the column constraints exactly when its entity does. |
| Entity.SnippetEntity.Empty | SnippetEntity.java:54 | The JPA constructor leaves every reference null and `isShared` false. |
| Entity.SnippetEntity.constructor | SnippetEntity.java:56-60 | Sets title, code and language. There is no owner and no sender, and `isShared` defaults to false. |
| Entity.SnippetEntity.WithUser | SnippetEntity.java:62-67 | As the three-argument constructor, and also sets the owner. |
| Entity.SnippetEntity.SetId | SnippetEntity.java:74-76 | Changes the id and no other field. |
| Entity.SnippetEntity.SetTitle | SnippetEntity.java:82-84 | Changes the title and no other field. |
| Entity.SnippetEntity.SetCode | SnippetEntity.java:90-92 | Changes the code and no other field. |
| Entity.SnippetEntity.SetLanguage | SnippetEntity.java:98-100 | Changes the language and no other field. |
| Entity.SnippetEntity.SetCreatedAt | SnippetEntity.java:106-108 | Changes `createdAt` and no other field. |
| Entity.SnippetEntity.SetUser | SnippetEntity.java:114-116 | Changes the owner and no other field. |
| Entity.SnippetEntity.SetIsShared | SnippetEntity.java:122-124 | Changes `isShared` and no other field. |
| Entity.SnippetEntity.SetSharedByUser | SnippetEntity.java:130-132 | Changes the sender and no other field. |
| Repository.InsertByCreatedAtDesc | SnippetJpaRepository.java:18 | Inserting a row into a list sorted newest first keeps it sorted. It adds exactly that row. |
| Repository.SortByCreatedAtDesc | SnippetJpaRepository.java:18 | `ORDER BY createdAt DESC` yields a permutation of its input, sorted by non-increasing `createdAt`. |
| Repository.Select | SnippetJpaRepository.java:22-30 | A `WHERE` clause keeps every row satisfying the condition as often as it occurs, and no other row. |
| Repository.FindAllByOrderByCreatedAtDesc | SnippetJpaRepository.java:18 | Every row, each exactly once, sorted newest first. |
| Repository.FindByLanguageOrderByCreatedAtDesc | SnippetJpaRepository.java:22 | Exactly the rows in the given language, sorted newest first. |
| Repository.FindByUserIdOrderByCreatedAtDesc | SnippetJpaRepository.java:24 | Exactly the rows whose owner has the given id, sorted newest first. |
| Repository.FindByUserIsNullOrderByCreatedAtDesc | SnippetJpaRepository.java:26 | Exactly the rows without an owner, sorted newest first. |
| Repository.FindByIsSharedTrueOrderByCreatedAtDesc | SnippetJpaRepository.java:28 | Exactly the rows marked shared, sorted newest first. |
| Repository.FindBySharedByUserIdOrderByCreatedAtDesc | SnippetJpaRepository.java:30 | Exactly the rows whose sender has the given id, sorted newest first. |
| Repository.SearchSnippets | SnippetJpaRepository.java:32-36 | Corrected search: exactly the rows whose lower-cased title or code contains the lower-cased query as a substring, sorted newest first. |
| Repository.SearchSnippetsAsWritten | SnippetJpaRepository.java:32-36 | Search as the JPQL is written: exactly the rows whose lower-cased title or code matches the `LIKE` pattern `%query%`, sorted newest first. |
| Repository.SearchAsWrittenAgreesWithoutWildcards | SnippetJpaRepository.java:32-36 | For every query free of `%`, `_` and the backslash, the written query returns exactly the intended result. |
| Repository.SearchAsWrittenTreatsUnderscoreAsWildcard | SnippetJpaRepository.java:33-34 | The query `_` finds a snippet titled `x` with code `y`, although neither contains `_`. |
| Repository.RowsBelow | SnippetJpaRepository.java:16 | Lists each stored row with a key below the bound exactly once. |
| Repository.SnippetTable.constructor | SnippetJpaRepository.java:16 | The table starts empty and consistent. |
| Repository.SnippetTable.Rows | SnippetJpaRepository.java:18 | The table as a sequence holds each stored row exactly once and nothing else. |
| Repository.SnippetTable.FindById | SnippetJpaRepository.java:16 | Present exactly when the id is stored, and then the stored row. |
| Repository.SnippetTable.ExistsById | SnippetJpaRepository.java:16 | True exactly when `findById` would find a row. |
| Repository.SnippetTable.Load | SnippetJpaRepository.java:16 | `null` exactly for an unknown id. Otherwise a fresh entity holding the stored row's fields. |
| Repository.SnippetTable.Save | SnippetEntity.java:18-38 | Success holds exactly when the column constraints hold, and a rejected save changes nothing. A known id overwrites its row and keeps the original `createdAt`. Otherwise the entity is inserted under a fresh id stamped with `now`, and the entity receives both. No other row changes. |
| Repository.SnippetTable.DeleteById | SnippetJpaRepository.java:16 | Removes exactly that key. |
| Service.ValidRequest | SnippetService.java:127-131 | A valid request has a language. Together with a title of at most 120 UTF-16 units, validity is exactly the entity's column constraints for the request's fields. |
| Service.FindUserByName | SnippetService.java:35 | Any user found is in the user table and matches the name ignoring case. None is found exactly when no user's name matches. |
| Service.FindUserByNameUnique | SnippetService.java:35-36 | With names unique ignoring case, as the service's invariant requires, the user found is the only user matching. |
| Service.ResolveUser | SnippetService.java:34-37 | A user is resolved exactly when the name is present, not blank and matches a user ignoring case. |
| Service.RecipientsFor | SnippetService.java:111-115 | The records the loop writes: never more than there are names. |
| Service.RecipientsForOne | SnippetService.java:111-115 | One name yields one record if it designates a user, none otherwise. |
| Service.RecipientsForAppend | SnippetService.java:111-115 | The records for a list are those for each part in turn. A name given twice is recorded twice. |
| Service.RecipientsForSound | SnippetService.java:111-115 | There are never more records than names. Each record is for this snippet and for a known user that some name designates. With no resolvable name there are no records. |
| Service.RecipientsForComplete | SnippetService.java:111-115 | Every name that designates a user yields a record for that user. |
| Service.MarkShared | SnippetService.java:105-108 | The row becomes shared. An existing sender is never overwritten. A missing sender becomes the owner, which may itself be absent. Nothing else changes. |
| Service.RecipientSnippets | SnippetService.java:118-125 | Every snippet returned belongs to a record for that user. Every such record whose snippet still exists contributes its snippet. |
| Service.SnippetService.constructor | SnippetService.java:26-30 | The service holds the given table, users and recipient records. |
| Service.SnippetService.Create | SnippetService.java:32-39 | Succeeds exactly when the entity constraints hold, and on failure nothing changes. On success one new row is added under a fresh id, with the request's fields, time `now`, no sharing, and as owner the resolved user, if any. |
| Service.SnippetService.Get | SnippetService.java:41-43 | Present exactly when the id is stored, and then that row. |
| Service.SnippetService.List | SnippetService.java:45-47 | Every stored row exactly once, newest first. |
| Service.SnippetService.ListGuest | SnippetService.java:49-51 | Exactly the stored rows without an owner, newest first. |
| Service.SnippetService.ListForUserName | SnippetService.java:53-58 | Empty when the name designates nobody. Otherwise exactly the rows owned by that user, newest first. |
| Service.SnippetService.Delete | SnippetService.java:60-66 | True exactly when the id was stored, and afterwards the id is absent. When false, the table is unchanged. |
| Service.SnippetService.Share | SnippetService.java:68-77 | As `Create`, but the new row is shared, has no owner, and records the resolved user as sender. |
| Service.SnippetService.ListShared | SnippetService.java:79-81 | Exactly the stored rows marked shared, newest first. |
| Service.SnippetService.ListSharedForUser | SnippetService.java:83-88 | Empty when the name designates nobody. Otherwise exactly the rows that user sent, newest first. |
| Service.SnippetService.Update | SnippetService.java:90-98 | Empty, with nothing changed, when the id is absent. Otherwise it succeeds exactly when the new fields meet the constraints. Then only title, code and language change. The id, `createdAt`, owner and sharing fields are kept. |
| Service.SnippetService.ShareToRecipients | SnippetService.java:100-116 | An unknown id changes nothing. Otherwise the row is marked shared as `MarkShared` states, and one recipient record is appended per resolvable name, in order. |
| Service.SnippetService.ListSharedWithUser | SnippetService.java:118-125 | Empty when the name designates nobody. Every snippet returned is a stored one that a recipient record sent to the user. Every stored snippet sent to the user is among them. |
| Controller.EveryLanguageListed | SnippetController.java:44-47 | The list of constants contains every `Language` value. |
| Controller.SnippetController.constructor | SnippetController.java:22-24 | The controller delegates to the given service. |
| Controller.SnippetController.ListMe | SnippetController.java:36-42 | 400 with no body exactly when the header is missing or blank. Otherwise 200 with the named user's list. |
| Controller.SnippetController.Languages | SnippetController.java:44-47 | Every enum value, each exactly once. |
| Controller.SnippetController.Get | SnippetController.java:49-54 | 404 exactly when the id is not stored. Otherwise 200 with the row. |
| Controller.SnippetController.Create | SnippetController.java:56-61 | 400 with nothing changed for a request failing its own constraints. For a valid request, 201 exactly when the title fits 120 UTF-16 units, with one row added. Otherwise 500 with no body and nothing changed. |
| Controller.SnippetController.Delete | SnippetController.java:63-74 | 204 exactly when the snippet was stored, otherwise 404. Afterwards the id is absent. |
| Controller.SnippetController.Share | SnippetController.java:76-81 | As `Create`: 400, 201 or 500 under the same conditions. The stored row is shared and ownerless. |
| Controller.SnippetController.ListSharedForUser | SnippetController.java:90-99 | 400 exactly when the header is missing or blank. Otherwise 200 with the snippets sent to that user. |
| Controller.SnippetController.Update | SnippetController.java:101-107 | 400 exactly for an invalid request. For a valid one, 404 exactly when the id is absent. For a stored id, 200 exactly when the title fits 120 UTF-16 units, and 500 otherwise. 200 carries the row with only title, code and language replaced. Any status but 200 leaves the table unchanged. |
| Controller.SnippetController.ShareToUsers | SnippetController.java:111-119 | 400 exactly for a missing body, a missing list or an empty list, and then nothing changes. Otherwise 204. An unknown id changes nothing. A stored id's row is marked shared as `MarkShared` states, and one recipient record is appended per resolvable name. The user table never changes. |
| SnippetApp.SessionReadsStorage | app.js:7-8 | Storing `isLoggedIn` opens the session exactly when the stored value is the string `"true"`, and removing it closes the session. A stored `userName` is read back as is, and a missing one reads as `""`. `load` and `create` read the session the same way (app.js:137-138, 182-183). |
| SnippetApp.LocalStorage.SetItem | app.js:106-107 | Sets one key and leaves every other key as it was. |
| SnippetApp.LocalStorage.RemoveItem | app.js:38-39 | Removes one key and leaves every other key as it was. |
| SnippetApp.SignOutEndsSession | app.js:36-39 | After sign-out the client is not logged in and remembers no name. Every other storage key keeps its value. |
| SnippetApp.LoginStartsSession | app.js:104-107 | After a successful login the client is logged in under the submitted name. It acts as that user exactly when the name is non-empty. Every other storage key keeps its value. |
| SnippetApp.SignOut | app.js:36-44 | Removes both session keys and nothing else. The message names the user exactly when a non-empty name was stored. |
| SnippetApp.UserHeader | app.js:181-184 | An `X-User-Name` header is attached exactly when the stored flag is `"true"` and the stored name is non-empty. It then carries that name. |
| SnippetApp.LoadRequests | app.js:147-163 | `load` issues two or three requests: first the guest list, last the languages. It issues three exactly when acting as a named user. |
| SnippetApp.LoadFetchesUserListIffActingAsUser | app.js:136-164 | `load` always requests the guest list and the languages. It requests the user's list exactly when logged in with a non-empty name. Any header it sends is the one `create` would send. |
| SnippetApp.RegisterFailureMessage | app.js:122-125 | The alert always begins `Registration failed: `, followed by the server's message when it is non-empty and by the fixed hint otherwise. |
| SnippetApp.PrismAlias | app.js:166-171 | The alias is never empty. It is `clike` exactly when the name is missing from the table, so no table entry maps to the fallback. |
| SnippetApp.PrismAliasOfLanguage | app.js:166-171 | Each of the 13 language names maps to its own highlighter alias (e.g. `HTML` to `markup`, `SHELL` to `bash`), never to the fallback. |
| SnippetApp.PrismAliasFallsBackOnUnknown | app.js:166-171 | The fallback `clike` is returned exactly for a string that names no language. |
| SnippetApp.SortByCreatedAtDesc | app.js:142-144 | Sorting in place leaves a permutation of the array, ordered by non-increasing `createdAt`. |
| SnippetApp.LoginCtrl.constructor | app.js:103 | The login form starts empty. |
| SnippetApp.LoginCtrl.Login | app.js:104-105 | Posts the form to `/api/auth/login`. |
| SnippetApp.LoginCtrl.OnLoginSuccess | app.js:105-107 | Sets `isLoggedIn` to `"true"` and `userName` to the submitted name, so the session is open. |
| SnippetApp.MainCtrl.constructor | app.js:129-134 | Empty lists, the form `("", "", "JAVA")`, then one `load`. The merged list is consistent. |
| SnippetApp.MainCtrl.UpdateAll | app.js:140-145 | The merged list is a permutation of guest ++ own, with length the sum of the two, sorted by non-increasing `createdAt`. Nothing else changes. |
| SnippetApp.MainCtrl.Load | app.js:136-164 | Issues the requests `LoadRequests` lists. When not acting as a named user it empties the own list and re-merges. Otherwise it leaves the lists for the callbacks. The merged list stays a sorted permutation. |
| SnippetApp.MainCtrl.OnGuestLoaded | app.js:147-150 | A non-array response empties the guest list, an array replaces it. Then the lists are re-merged. |
| SnippetApp.MainCtrl.OnUserLoaded | app.js:153-157 | A non-array response empties the own list, an array replaces it. Then the lists are re-merged. |
| SnippetApp.MainCtrl.OnLanguagesLoaded | app.js:163 | Takes the language data as it is, with no other effect. |
| SnippetApp.MainCtrl.Create | app.js:179-185 | Posts the form, with the user header exactly as `UserHeader` states. Nothing else changes. |
| SnippetApp.MainCtrl.OnCreateSuccess | app.js:185-189 | Clears title and code, keeps the language, then reloads as `Load` does. |
| SnippetApp.MainCtrl.Remove | app.js:196-197 | Requests `DELETE /api/snippets/<id>`. Nothing else changes. |
| SnippetApp.MainCtrl.OnRemoveSuccess | app.js:198-201 | Reloads as `Load` does. |

## Left out

- Persistence machinery is not modelled:
  - JPA and Hibernate, `@Transactional` and lazy loading;
  - UUID generation, for which a counter of natural numbers stands in;
  - the `@CreationTimestamp` clock, for which a parameter `now` stands in.
- The Jakarta validation and Spring request-binding machinery is not modelled. Only the validity predicates they express are kept, and a failing `@Valid` body shows up as status 400.
- Java `null` strings are not modelled. Absent text is `""`, which fails `@NotBlank` and `isBlank` just as `null` does. A `null` `Boolean isShared` is not modelled.
- Case folding covers ASCII letters only. Locale-specific and non-ASCII `toLowerCase` rules are left out.
- `Language.java` is not part of this model. The enum is taken to have the 13 constants, in the order the client's alias table lists them.
- `UserJpaRepository`, `SnippetRecipientRepository`, `UserEntity`, `SnippetRecipient` and `SnippetDto` are not part of this model:
  - users are a sequence of `(id, name)` values;
  - recipient records are a sequence of `(snippetId, user)` values;
  - `findByNameIgnoreCase` returns the first match. The service's invariant requires names to be unique ignoring case, so there is at most one match;
  - `SnippetDto` is the row itself.
- Cascades and foreign keys between recipients and deleted snippets are left out. A recipient record whose snippet is gone yields nothing.
- The `Pageable` overload of `findAllByOrderByCreatedAtDesc` is left out as paging infrastructure.
- The pass-through handlers `list`, `listGuest` and `listShared` of the controller are left out. Their service members are modelled.
- The logging in the controller's `delete` is left out.
- `Repository.SortByCreatedAtDesc` fixes one order for rows with equal `createdAt`, which SQL leaves unspecified. Every stated contract holds for any such order.
- `Service.SnippetService.ListSharedWithUser` and `Service.RecipientSnippets` state membership in both directions and a length bound. They do not state how often a snippet appears, which is once per matching record, or the order, which is record order.
- `Service.SnippetService.Valid` requires user names to be unique ignoring case. Against a user table where two names differ only in case (`alice`, `Alice`), `findByNameIgnoreCase` throws `IncorrectResultSizeDataAccessException` and the request fails with 500. That failure is not modelled for `create`, `share`, `listForUserName`, `listSharedForUser`, `shareToRecipients` or `listSharedWithUser`.
- `JavaStrings.Like` has no escape character, as in standard SQL. Databases whose `LIKE` escapes with a backslash by default read a `\` in the query differently. `JavaStrings.NoWildcards` therefore also excludes the backslash, so `Repository.SearchAsWrittenAgreesWithoutWildcards` holds under either reading. What a backslash does on those databases is not modelled.
- `SnippetApp.MainCtrl.UpdateAll` states sortedness and permutation only, not the stability that ECMAScript 2019 requires of `Array.prototype.sort` for equal timestamps.
- `createdAt` on the client is a number. Date parsing and `NaN` from an invalid date are left out.
- Client I/O is left out:
  - `alert` and `console` output;
  - `$location` navigation;
  - the route table;
  - the carousel;
  - the navbar display toggling;
  - `Prism.highlight` and `$sce.trustAsHtml`.
- The asynchronous completion order of `$http` requests is left out. Each callback is a method, to be run in whatever order the responses arrive.
- Failure callbacks of `$http` are left out, since they only alert. `RegisterCtrl`'s message is the exception, and it is modelled.
- `encodeURIComponent` in `remove` is treated as the identity, which it is on the id characters of a UUID.
- A non-string `err.data.message` is left out. JavaScript object-prototype keys such as `toString` passed to `prismAlias` are left out as well.
- `vm.snippetsGuest || []` guards against `null` lists. The model's lists are never `null`.

## Findings

| source | as written | input that shows it | evidently intended | confidence | as-written member | corrected member |
|---|---|---|---|---|---|---|
| SnippetJpaRepository.java:32-36 | The search query is pasted into the pattern `'%' + query + '%'` of a `LIKE` without escaping, so `%` and `_` in the query act as wildcards. | The query `_` against a snippet titled `x` with code `y`: it is returned, although neither field contains `_`. | Case-insensitive substring search on title or code. | not executed | Repository.SearchAsWrittenTreatsUnderscoreAsWildcard | Repository.SearchSnippets |
