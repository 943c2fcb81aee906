# Contact book — a Dafny model

The contact book has two parts. A REST service keeps a collection of contacts (name, phone, email). It lists them newest first, one page at a time, creates them and deletes them. A one-page browser client holds a validated add-contact form, the visible page of contacts and Prev/Next pagination. This project models both parts and proves what each operation does.

- `jsstring.dfy` (module `JsString`): the JavaScript string rules both parts use. These are the whitespace class shared by `trim` and the regular-expression classes `\s`/`\S`, the digit class `\d`, `trim` itself, and the falsiness of a string.
- `contacts.dfy` (module `Contacts`): the `Contact` record and its abstract identifier. It also states the collection's two invariants: creation stamps strictly increase along insertion order, and identifiers are unique.
- `server.dfy` (module `Server`): the three handlers on `/api/contacts`.
  - `ListContacts` is the GET handler, a pure function of the collection, the query and a store fault.
  - `ContactStore` is a class holding the collection as a `seq<Contact>` in insertion order, with the `Create` (POST) and `Delete` (DELETE) methods.
  - A store failure is the parameter `fault: Option<string>`. `Some(msg)` means the store call throws with message `msg`, and the handler answers 500 with that message.
- `client.dfy` (module `Client`): the validators as predicates over character sequences, and the component as the class `App`. `App` has the fields `contacts`, `status`, `form`, `errors`, `currentPage` and `totalPages`, and one method per handler.
  - A listing request's reply is `Server.ListContacts` applied to `served`, the collection at the moment the request is served, and to `fault`, which covers any failure: a 500 or no reply at all.
  - The replies to create and delete requests are success flags.
  - The effect that refetches when `currentPage` changes is part of `Prev`, `Next` and `HandleDelete`. The fetch on first render is a call of `FetchContacts(1, …)` after the constructor.

Two behaviours of the code that the model keeps as written:

- **Blank fields on create.** The create handler refuses with 400 only a field that is absent or the empty string (JavaScript falsiness, `backend/server.js:45`). A whitespace-only field passes that test. The schema's `trim` then turns it into `""`, the schema's `required` rule fails on save, and the handler answers 500, not 400. `Server.ContactStore.Create` and `Server.BlankFieldPassesFalsinessTest` state this.
- **Next on an empty book.** With no contacts the service reports `totalPages == 0`. Page 1 then differs from the page count, so the Next button is enabled. `Client.EmptyBookLeavesNextEnabled` states this.

## Model

| member | source | states |
|---|---|---|
| `JsString.Trim` | backend/server.js:19-21 | the trimmed value is an infix of the input with only whitespace cut from both ends; it is empty iff the input is all whitespace, and otherwise starts and ends with a non-whitespace character |
| `JsString.TrimIdempotent` | backend/server.js:19-21 | trimming a trimmed field changes nothing |
| `Server.NewestFirst` | backend/server.js:32 | the listing order has the same length as the collection and puts the i-th newest record at position i |
| `Server.NewestFirstIsOrdered` | backend/server.js:32 | with increasing creation stamps, that order has strictly decreasing `createdAt` |
| `Server.NewestFirstIsPermutation` | backend/server.js:32 | that order is a permutation of the collection |
| `Server.OrderedArrangementUnique` | backend/server.js:32 | two newest-first arrangements of the same records are equal |
| `Server.SortIsNewestFirst` | backend/server.js:32 | any permutation of the collection sorted by `createdAt` descending is exactly `NewestFirst` |
| `Server.Window` | backend/server.js:32 | skip-then-limit yields `min(limit, max(0, n - offset))` records, the ones from `offset` on, in order |
| `Server.CeilDiv` | backend/server.js:36 | the page count is the least number of pages of `limit` records that holds all `total` records |
| `Server.ListContacts` | backend/server.js:28-40 | with no fault: 200; the window of the newest-first collection at offset `(page-1)*limit` with `min(limit, max(0, n - offset))` records, empty when the offset is at or past `n`; `totalPages = ceil(n/limit)`; `currentPage` = requested page; page 1 and size 5 when absent. With a fault: 500 and the failure message, no records |
| `Server.TotalPagesIndependentOfPage` | backend/server.js:34-36 | the page count does not depend on the page requested |
| `Server.EveryContactOnItsPage` | backend/server.js:31-36 | the k-th newest record is at place `k % limit` of page `k / limit + 1`, and that page is within the page count |
| `Server.ThreeContactsTwoPerPage` | backend/server.js:28-36 | A, B, C created in order with two per page: page 1 is [C, B], page 2 is [A], page 3 is empty, `totalPages = 2` |
| `Server.DefaultQueryIsFirstFive` | backend/server.js:30 | a query without `page` and `limit` is page 1 of size 5 |
| `Server.NewestIsFirstOnPageOne` | backend/server.js:32 | a record appended after all others is the first record of page 1 |
| `Server.BlankFieldPassesFalsinessTest` | backend/server.js:45 | a whitespace-only name passes the falsiness test but fails the schema's required rule after trimming |
| `Server.IndexOf` | backend/server.js:58 | finds a position holding the identifier iff some record has it |
| `Server.Without` | backend/server.js:58 | keeps exactly the records whose identifier differs from the deleted one |
| `Server.RemoveAtIsWithout` | backend/server.js:58-62 | with unique identifiers, removing the one matching record keeps all others in their order and shrinks the collection by one |
| `Server.WithoutAbsent` | backend/server.js:58-61 | removing an identifier no record has leaves the collection as it is |
| `Server.RemoveAtKeepsOrder` | backend/server.js:58 | removing one record keeps stamps increasing and identifiers unique |
| `Server.AppendNewest` | backend/server.js:48-49 | appending a record with a new identifier and the newest stamp keeps both invariants |
| `Server.ContactStore.Create` | backend/server.js:42-54 | 400 iff a field is absent or empty, and then nothing is written; 201 iff additionally all trimmed fields are non-empty and the store works, and then exactly one record is appended: the trimmed fields, an identifier no record had, a stamp newer than all others. It is returned. Otherwise 500 with the validation or store message, nothing written |
| `Server.ContactStore.Delete` | backend/server.js:56-66 | store fault: 500, nothing changes; unknown identifier: 404, nothing changes; otherwise 200 and the collection is the old one without exactly that record, one shorter |
| `Client.Form.With` | frontend/src/App.js:42 | editing sets the named field and leaves the others |
| `Client.NameOkIff` | frontend/src/App.js:51 | the name rule holds iff the name has a non-whitespace character |
| `Client.FirstAt` | frontend/src/App.js:53 | the first position from a start that holds a character, or none |
| `Client.LastBefore` | frontend/src/App.js:53 | the last position before a bound that holds a character, or none |
| `Client.EmailOkIffPattern` | frontend/src/App.js:53 | the email check accepts exactly the strings of the form A@B.C with A, B, C non-empty and free of whitespace, as `^\S+@\S+\.\S+$` does |
| `Client.PhoneExamples` | frontend/src/App.js:52 | "12345" is refused, "1234567890" accepted |
| `Client.EmailExamples` | frontend/src/App.js:53 | "a@b.c" is accepted, "abc" refused |
| `Client.NameExamples` | frontend/src/App.js:51 | "" and "  " are refused, " Ann " accepted |
| `Client.ListReplyShape` | frontend/src/App.js:28-33 | a listing reply resolves iff the service works, and then echoes the requested page, holds at most 5 contacts and gives the page count of the whole collection |
| `Client.EmptyBookLeavesNextEnabled` | frontend/src/App.js:166 | for an empty collection the page count is 0, so page 1 is not the last page |
| `Client.App.constructor` | frontend/src/App.js:7-12 | starts with no contacts, an empty form, no errors, no banner, page 1 of 1 |
| `Client.App.FetchContacts` | frontend/src/App.js:28-38 | a resolved reply replaces the list, page count and current page, and the page becomes the one requested; a failed one leaves them and sets the load-failure banner |
| `Client.App.HandleChange` | frontend/src/App.js:40-47 | only the edited field changes; the set of error keys is unchanged; the edited field's shown error is blanked; other errors are unchanged |
| `Client.App.Validate` | frontend/src/App.js:49-57 | errors are replaced by one message for exactly each failing field; the result is true iff name, phone and email all pass |
| `Client.App.HandleSubmit` | frontend/src/App.js:59-72 | a request carrying the form is sent iff the form is valid; an invalid form stays unchanged; a successful create clears the form and refetches the same page; a failed one keeps the form and shows the save-failure banner; the page never changes |
| `Client.App.PageAfterDelete` | frontend/src/App.js:80-81 | the page after a delete is one less iff the visible page held one contact and was not page 1, else the same |
| `Client.App.HandleDelete` | frontend/src/App.js:74-88 | a declined confirmation sends nothing and changes nothing; a failed delete only shows the error banner; a successful one moves to `PageAfterDelete` and fetches that page; form and errors never change |
| `Client.App.Prev` | frontend/src/App.js:160 | enabled only when not on page 1 (`PrevDisabled` iff `currentPage == 1`); moves one page back and fetches it: a resolved reply replaces list and count and keeps the banner, a failed one keeps list and count and sets the load-failure banner |
| `Client.App.Next` | frontend/src/App.js:166 | enabled only when not on the last known page (`NextDisabled` iff `currentPage == totalPages`); moves one page on and fetches it: a resolved reply replaces list and count and keeps the banner, a failed one keeps list and count and sets the load-failure banner |

## Left out

- Process start-up: the database connection, `dotenv`, CORS, the JSON body parser, `app.listen`, and the exit on a failed connection. These are I/O and configuration.
- The document store itself. Identifiers are an abstract `nat` issued by a counter. A malformed identifier's cast error (a 500 from the delete handler) is not modelled.
- Real timestamps. The creation stamp is a logical clock that strictly increases, so two records never tie in the sort. `updatedAt` and the version key are not modelled.
- The exact text of the schema's validation-failure message. The constant `RequiredValidationFailed` stands in for it.
- Body fields that are not strings, such as numbers or objects.
- `parseInt` and query-string coercion, including `NaN` and zero or negative pages. `page` and `limit` are positive integers when present.
- Floating-point `Math.ceil(total / limit)`. It is integer ceiling division here.
- Concurrent requests and out-of-order replies. Each reply is applied when its request is made. The GET handler's find and count read the same collection.
- The 3-second timer that clears the status banner, and all `console.log` calls.
- The JSX rendering and the CSS classes. `window.confirm` is the boolean `confirmed`.
- The HTTP calls themselves. The client's create and delete replies are success flags, not linked to `Server.ContactStore`.
