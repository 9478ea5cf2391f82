# Book store and gateway, modelled in Dafny

This project models the two Spring services in the repository and the record they share:

- **`Book`** (`Books`): a record with a `Long` id, three nullable strings (title, author, isbn) and an `int` publication year. It has two constructors, one setter per field, structural `equals` and a fixed `toString` layout. The record's value is the datatype `Book`. The Java object with its setters is the class `BookObject`.
- **The store** (`Core.BookController`): an in-memory map from id to book, plus a counter that mints ids. It offers create, list, get, update and delete, answering 201/200/204 or 404. It is a class whose methods change the map and the counter in place. Its object invariant `Valid` says three things: every key is the id of the book stored under it, every key lies between 1 and the counter, and the ghost set of ids ever issued is exactly 1 to the counter.
- **The gateway** (`Gateway`): forwards each operation to the store and translates the result. The outbound HTTP call is not modelled; its result is an `Outcome`:
  - `Answered(status, body)`: the store's response came back.
  - `ClientError(status, text)`: the call raised an `HttpClientErrorException`, which means a 4xx status.
  - `Failed(message)`: the call raised any other exception. This covers both transport errors and upstream 5xx.

  Each handler is then a total function from the outcome to the gateway's response. The only configuration is the store's base URL, so a handler's answer depends on nothing but its inputs and what the store says to the one request it sends (`Forward`).
- **Both together** (`Deployment`): the store's answers are carried back through the gateway.

Shared support modules:
- `Options`: optional values, standing for Java `null`.
- `Decimal`: Java's decimal rendering of `long`/`int`, and reading such text back.
- `Http`: statuses and response bodies.

Two behaviours of the code worth noting:
- An upstream 5xx is not relayed. It becomes the gateway's own 500, whose body is the operation's message prefix followed by the exception's message. Only `HttpClientErrorException` (4xx) is forwarded.
- The diagnostic body of that 500 does include the raw exception message, printed as `null` when the message is null.

## Model

| member | source | states |
|---|---|---|
| `Books.BookObject.Empty` | core/core/src/main/java/com/example/core/Book.java:13-14 | the no-argument constructor leaves id, title, author and isbn null and the year 0 |
| `Books.BookObject.constructor` | core/core/src/main/java/com/example/core/Book.java:16-22 | the five-argument constructor stores each argument in its own field (the fields are what the getters return) |
| `Books.BookObject.SetId` | core/core/src/main/java/com/example/core/Book.java:29-31 | the record afterwards is the old one with only the id replaced |
| `Books.BookObject.SetTitle` | core/core/src/main/java/com/example/core/Book.java:37-39 | only the title changes; the other four fields keep their values |
| `Books.BookObject.SetAuthor` | core/core/src/main/java/com/example/core/Book.java:45-47 | only the author changes; the other four fields keep their values |
| `Books.BookObject.SetIsbn` | core/core/src/main/java/com/example/core/Book.java:53-55 | only the isbn changes; the other four fields keep their values |
| `Books.BookObject.SetPublicationYear` | core/core/src/main/java/com/example/core/Book.java:61-63 | only the year changes; the other four fields keep their values |
| `Books.NullSafeEquals` | core/core/src/main/java/com/example/core/Book.java:72-75 | `Objects.equals` on nullable fields holds exactly when both are null or both hold equal values |
| `Books.Equals` | core/core/src/main/java/com/example/core/Book.java:66-76 | `equals` is true exactly for the receiver itself or a Book whose five fields, id included, all equal the receiver's; it is false for null and for another class |
| `Books.EqualsIsEquivalence` | core/core/src/main/java/com/example/core/Book.java:66-76 | `equals` is reflexive, symmetric and transitive, and false against null and other classes |
| `Books.ShownId` | core/core/src/main/java/com/example/core/Book.java:86 | the printed id ("null" or a decimal number) never contains a comma |
| `Books.Middle` | core/core/src/main/java/com/example/core/Book.java:87-89 | the title/author/isbn part of `toString` starts right after the id with a comma |
| `Books.ToString` | core/core/src/main/java/com/example/core/Book.java:83-92 | the text opens with "Book{id=" and closes with "}" |
| `Books.ReadIdOfToString` | core/core/src/main/java/com/example/core/Book.java:83-92 | the id in `toString` output reads back as exactly the book's id (or null), whatever the title, author and isbn contain |
| `Books.ReadYearOfToString` | core/core/src/main/java/com/example/core/Book.java:83-92 | the year at the end of `toString` output reads back as exactly the book's year, whatever the text fields contain |
| `Decimal.NatToString` | core/core/src/main/java/com/example/core/Book.java:90 | the decimal text of a non-negative number is non-empty, all digits, and starts with '0' only for zero |
| `Decimal.DigitsValueOfNatToString` | core/core/src/main/java/com/example/core/Book.java:90 | the digits read back as the number they render |
| `Decimal.IntToString` | core/core/src/main/java/com/example/core/Book.java:86 | Java's rendering of a `long`/`int`: non-empty, digits only apart from a leading minus |
| `Decimal.ParseDecimalOfIntToString` | gateway/src/main/java/com/example/gateway/ApiGatewayController.java:71 | every number's decimal text reads back as that number, so distinct ids give distinct texts |
| `Core.Revised` | core/core/src/main/java/com/example/core/BookController.java:50-58 | after an update the stored book equals the request with the stored id kept, so the request's id is ignored |
| `Core.BookController.constructor` | core/core/src/main/java/com/example/core/BookController.java:18-19 | a new store is empty, its counter is 0 and no id has been issued |
| `Core.BookController.CreateBook` | core/core/src/main/java/com/example/core/BookController.java:22-28 | the counter grows by exactly one and the new value is the id, so the first id is 1; this id was never issued before and exceeds every id issued before; the request is stored under it with its own id replaced; the answer is 201 with the stored book; the invariant is kept |
| `Core.BookController.GetAllBooks` | core/core/src/main/java/com/example/core/BookController.java:31-34 | status 200 and a list as long as the map; every stored book is in it; every listed book is the one stored under its id; no book appears twice |
| `Core.ListedOnce` | core/core/src/main/java/com/example/core/BookController.java:33 | a listing that has passed every key has the map's size, holds every stored book and repeats none |
| `Core.BookController.GetBookById` | core/core/src/main/java/com/example/core/BookController.java:37-45 | 200 exactly when the id is stored, with the book stored there, whose id is the one asked for; otherwise 404 with no body |
| `Core.BookController.UpdateBook` | core/core/src/main/java/com/example/core/BookController.java:48-62 | an absent id gives 404 and changes nothing; a present one gets title, author, isbn and year from the request and keeps its id; every other key, the counter and the issued ids are untouched; the answer is 200 with the revised book |
| `Core.BookController.DeleteBook` | core/core/src/main/java/com/example/core/BookController.java:65-73 | only that key is removed; the answer is 204 if it was present and 404 otherwise; the counter and the issued ids are untouched, so the id is never minted again |
| `Core.CreateThenGet` | core/core/src/main/java/com/example/core/BookController.java:22-45 | a create followed by a read of the new id gives 200 and the request with that id filled in |
| `Core.DeleteIsFinal` | core/core/src/main/java/com/example/core/BookController.java:65-73 | after a delete, a second delete and a read both give 404, and the next create mints an id larger than every id issued before |
| `Gateway.ByIdUrl` | gateway/src/main/java/com/example/gateway/ApiGatewayController.java:71 | base + "/" + id: the id can be read back from the URL |
| `Gateway.RequestFor` | gateway/src/main/java/com/example/gateway/ApiGatewayController.java:32-121 | create posts, the two reads get, update puts and delete deletes; create and list target the base URL unchanged; the three by-id operations target a URL naming their id; only create and update send a book, namely the caller's |
| `Gateway.CreateReply` | gateway/src/main/java/com/example/gateway/ApiGatewayController.java:34-44 | the status is the store's own, or 500 when the call failed; a book body is only ever the one the store sent |
| `Gateway.GetAllReply` | gateway/src/main/java/com/example/gateway/ApiGatewayController.java:51-66 | the status is the store's own, or 500 when the call failed; a list body is only ever the one the store sent |
| `Gateway.GetByIdReply` | gateway/src/main/java/com/example/gateway/ApiGatewayController.java:73-86 | the status is the store's own, or 500 when the call failed; a book body is only ever the one the store sent |
| `Gateway.UpdateReply` | gateway/src/main/java/com/example/gateway/ApiGatewayController.java:93-111 | the status is the store's own, or 500 when the call failed; a book body is only ever the one the store sent |
| `Gateway.DeleteReply` | gateway/src/main/java/com/example/gateway/ApiGatewayController.java:118-136 | the status is the store's own, or 500 when the call failed; the body is empty or text, never a book |
| `Gateway.Reply` | gateway/src/main/java/com/example/gateway/ApiGatewayController.java:30-137 | for every operation the gateway never originates a book or a list, and the status is the upstream one or 500 |
| `Gateway.Forward` | gateway/src/main/java/com/example/gateway/ApiGatewayController.java:30-137 | one request to the store, translated: the status is the store's answer to that request, or 500 when it failed, and any book or list returned is the one the store sent |
| `Gateway.ForwardDependsOnlyOnRequest` | gateway/src/main/java/com/example/gateway/ApiGatewayController.java:21-28 | the gateway holds no mutable state: two upstreams that answer the operation's request alike give the same result, whatever they do with other requests |
| `Gateway.ForwardRelaysStore` | gateway/src/main/java/com/example/gateway/ApiGatewayController.java:30-137 | when the store answers the request built from the base URL and the operation, the gateway's caller receives exactly that answer |
| `Gateway.SuccessRelayed` | gateway/src/main/java/com/example/gateway/ApiGatewayController.java:30-137 | on an answered call, create, list, get and update return the store's status and body verbatim; delete returns the store's status with no body |
| `Gateway.CollectionErrorsForwarded` | gateway/src/main/java/com/example/gateway/ApiGatewayController.java:38-62 | create and list forward every 4xx with the store's body text, with no special case for 404 |
| `Gateway.ByIdNotFoundNormalized` | gateway/src/main/java/com/example/gateway/ApiGatewayController.java:77-132 | get, update and delete turn a 404 into a 404 with no body, whatever body the store sent, and forward every other 4xx with its body |
| `Gateway.FailureReported` | gateway/src/main/java/com/example/gateway/ApiGatewayController.java:41-135 | any failure other than a 4xx gives 500 with the operation's prefix followed by the exception message |
| `Gateway.ServerErrorIffFailed` | gateway/src/main/java/com/example/gateway/ApiGatewayController.java:30-137 | for outcomes the call can produce, the gateway answers 500 exactly when the call failed, so a store error and a failed call are distinguishable |
| `Gateway.PrefixNamesHandler` | gateway/src/main/java/com/example/gateway/ApiGatewayController.java:43-135 | each of the five handlers has its own failure prefix: two operations share a prefix exactly when they go to the same handler |
| `Gateway.PrefixFree` | gateway/src/main/java/com/example/gateway/ApiGatewayController.java:43-135 | for two different handlers, neither failure prefix begins the other |
| `Gateway.ReadFailurePrefixOf` | gateway/src/main/java/com/example/gateway/ApiGatewayController.java:43-135 | the operation's prefix can be read back from any failure message |
| `Gateway.FailureNamesOperation` | gateway/src/main/java/com/example/gateway/ApiGatewayController.java:43-135 | two failure bodies are equal only if they come from the same handler with the same printed message (a null message prints as "null"; the by-id handlers do not print the id) |
| `Gateway.GatewayIsTransparent` | gateway/src/main/java/com/example/gateway/ApiGatewayController.java:30-137 | every answer the store can give reaches the caller through the gateway unchanged: same status, same body, 404 included |
| `Deployment.Route` | core/core/src/main/java/com/example/core/BookController.java:14-66 | a request the store accepts as an operation carries that operation's verb, and its URL is the base URL (create, list) or names the operation's id (get, update, delete) |
| `Deployment.RouteOfRequestFor` | core/core/src/main/java/com/example/core/BookController.java:14-66 | the store reads back from the request the gateway builds exactly the operation the gateway's caller asked for |
| `Deployment.Through` | gateway/src/main/java/com/example/gateway/ApiGatewayController.java:30-137 | the gateway builds the operation's request, the store reads the operation back from it and carries it out, and the caller gets exactly the store's answer through `Forward`. Per operation, the store's own contract holds with the caller's book and id: create mints counter+1 and stores the book with that id (201); list is 200 with every stored book once; get is 200 with the stored book exactly when the id is present, else 404; update stores `Revised` and answers 200 when present, else 404 with nothing changed; delete removes only that id (204 or 404). Only create moves the counter |
| `Deployment.DuneScenario` | core/core/src/main/java/com/example/core/BookController.java:22-73 | each step sent through `Through` on a fresh store: create "Dune" gives 201 with id 1; the list holds exactly that book; an update to 1966 gives 200 with id still 1; a delete gives 204; a read then gives 404 with no body |

## Left out

- `Book.hashCode` (Book.java:78-81) delegates to the library function `Objects.hash`. It is not modelled, and the fact that equal books hash alike is not stated, because it could only be taken as an axiom.
- Core.BookController.CreateBook: does not model the wrap-around of the 64-bit `AtomicLong` after 2^63 − 1 creations; ids and the counter are unbounded integers here, so "never reused" holds only below that bound in the source.
- Concurrency: the store's `ConcurrentHashMap` and `AtomicLong` give atomic steps. The model is sequential, and each operation is one atomic step.
- Object aliasing. `createBook` sets the id on the caller's object and stores that very object. `updateBook` mutates the stored object in place and puts it back. The map here holds values, and both operations go through a `BookObject` and its setters. Sequentially the observable results are the same.
- The getters are not separate members: they are the fields of `BookObject` and the field selectors of `Book`.
- The HTTP transport: `RestTemplate` calls, JSON (de)serialisation, and Spring's dispatch machinery. `Deployment.Route` states only which verb, URL shape and body each request mapping accepts; the `/books` path segment is folded into the base URL, and ids are read with `ParseDecimal` rather than Spring's `Long` conversion. The outbound call is the `Outcome` input. `Transmit` states how the store's own answers arrive: a 4xx with an empty error body, anything else answered.
- The text of exception messages and of `getResponseBodyAsString()`. Both are opaque strings.
- All logging calls, the gateway constructor's log line included. They only have side effects.
- `ParseDecimal`, `IdInUrl`, `ReadId`, `ReadYear` and `ReadFailurePrefix` are not part of the source. They read rendered text back in order to state that the rendering loses nothing. `ParseDecimal` is not an exact model of `Long.parseLong`: it ignores the 64-bit range and does not accept a leading '+'.
- CoreApplication.java is Spring Boot start-up only and is not part of this model.
