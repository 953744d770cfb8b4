# Task API (REST_e_bancoDeDados): a Dafny model

The service is a small HTTP API over one table, `tarefa`. Each row is a task
(`Tarefa`) with an integer key `Id`, a nullable description `Descricao` and a
completion flag `Concluida`. Six handlers in `Program.cs` do all the work:

- GET `/api/tarefas/{id}` finds one row.
- GET `/api/tarefas` lists rows. It takes two optional filters, a description
  substring `descricao` and `Somente_pendentes`, which keeps pending rows and
  orders them by id, largest first.
- POST inserts a row.
- PUT replaces a row's description and flag.
- PATCH `/{id}/concluir` marks a row completed.
- DELETE removes a row.

The model has these modules:

- `Model`: the row, the table (`map<int, Tarefa>`), the responses (Ok with an
  empty or single-row body, Created with its URL, BadRequest with its message,
  NotFound); the list query is represented by its list alone.
- `Strings`: `String.IsNullOrEmpty` and the substring test `Contains`, proved
  equal to "occurs at some position".
- `Routes`: the `Location` URL `/api/tarefas/{id}` built with the decimal
  formatting of `int`, and its inverse, proved to read the id back.
- `Queries`: the two read-only handlers, as functions over the table.
  `OrderByDescending` is an insertion sort, proved to be a permutation
  that is ordered by id.
- `Handlers`: the four writing handlers, as functions from the store's state
  (the table and its auto-increment counter) to the new state and the response.
  This module also holds the lemmas that relate several requests.
- `Context`: the class `TarefasContext`. Its fields are the table and the
  counter, and its methods change them in place as the handlers do through
  `Add`, `Remove`, field assignments and `SaveChanges`. Each method is proved
  to leave the state and return the response that the `Handlers` function of
  the same name specifies.

Two behaviours of the code are worth stating outright:

- `String.IsNullOrEmpty` (Program.cs:111, 148) refuses only null and "", so a
  whitespace-only description is accepted: the contract of
  `Strings.IsNullOrEmpty` makes it false for every non-empty string, and
  `Handlers.BlankDescricaoAccepted` shows POST and PUT taking a description
  made only of spaces.
- `HasMaxLength(200)` (db/TarefasContext.cs:37) is checked by no handler.

## Model

| member | source | states |
|---|---|---|
| `Strings.IsNullOrEmpty` | Program.cs:111 | true exactly for null and the empty string; every other description, blank ones included, passes |
| `Strings.Contains` | Program.cs:90-92 | `Contains` holds exactly when the substring occurs at some position of the description |
| `Queries.GetById` | Program.cs:39-51 | NotFound exactly when no row has the id; otherwise Ok with the stored row; the table is not changed (a function of it) |
| `Wrappers.Option.GetOr` | Program.cs:86 | `x ?? default`: the value when there is one, `default` otherwise |
| `Queries.FiltrarPendentes` | Program.cs:86 | the pending filter is on exactly when `Somente_pendentes` is present and true; absent means off |
| `Queries.Matches` | Program.cs:91 | a row matches exactly when its description is non-null and contains the substring |
| `Queries.Where` | Program.cs:91-95 | keeps exactly the elements satisfying the predicate and adds none (sub-multiset of the input) |
| `Queries.Rows` | Program.cs:88 | the unfiltered query yields every row of the table once, each under its own key |
| `Queries.FilterDescricao` | Program.cs:90-92 | with a non-null, non-empty `descricao`, keeps exactly the rows whose non-null description contains it; otherwise keeps every row; never adds a row |
| `Queries.OrderByIdDescending` | Program.cs:96 | the result is a permutation of its input, ordered by id from largest to smallest |
| `Queries.FilterPendentes` | Program.cs:94-97 | when the pending filter is on, keeps exactly the rows not completed and orders them by id descending; when off, keeps every row and imposes no order |
| `Queries.List` | Program.cs:82-101 | every returned row is a row of the table and satisfies every active filter; every row satisfying them is returned; no row twice; with `Somente_pendentes` true the ids strictly decrease |
| `Queries.ListDefaults` | Program.cs:86-92 | an absent `Somente_pendentes` acts as false; a null `descricao` acts as an empty one; with neither filter the whole table comes back in the store's order |
| `Routes.IntToString` | Program.cs:126 | `int` formatting: a minus sign exactly for negative ids, then a non-empty run of digits with no leading zero except for "0" |
| `Routes.ParseIntToString` | Program.cs:126 | the decimal text written for any id reads back as that id |
| `Routes.Location` | Program.cs:126 | the URL `/api/tarefas/{id}` routes back to that id |
| `Handlers.Post` | Program.cs:106-133 | BadRequest with the table unchanged exactly when the description is null or empty; otherwise Created: one row added under a fresh key, with the body's description and flag; other rows unchanged; the URL is exactly `/api/tarefas/` followed by the new key's decimal text and routes back to it; the store invariant is kept |
| `Handlers.Put` | Program.cs:138-166 | id mismatch checked first, then an empty description, then existence; each failure leaves the store unchanged; on success only that row's description and flag are replaced, its id and the other rows are kept |
| `Handlers.Concluir` | Program.cs:171-190 | NotFound when the row is absent, BadRequest with the store unchanged when it is already completed; otherwise only that row's flag becomes true |
| `Handlers.Delete` | Program.cs:193-206 | NotFound exactly when absent, Ok exactly when present; on Ok exactly that key is removed, every other row is kept, and the body is empty |
| `Handlers.GetAfterPost` | Program.cs:117-130 | GET on the id read from the Created URL returns the row just created |
| `Handlers.BlankDescricaoAccepted` | Program.cs:111 | a non-empty description made only of spaces, on any id, passes the POST and PUT description checks |
| `Handlers.PostIgnoresBodyId` | Program.cs:117-120 | the outcome of POST does not depend on the body's id |
| `Handlers.GetAfterPut` | Program.cs:154-165 | after a successful PUT, GET on the id returns exactly the body sent |
| `Handlers.ConcluirTwice` | Program.cs:180-187 | a second PATCH on a row just completed gives BadRequest and changes nothing |
| `Handlers.GetAfterDelete` | Program.cs:196-205 | after a successful DELETE, GET and a second DELETE on the id give NotFound |
| `Handlers.BuyMilkScenario` | Program.cs:106-190 | on an empty store, POST gives row 1 at `/api/tarefas/1`; completing it succeeds once, then gives BadRequest |
| `Context.TarefasContext.constructor` | db/TarefasContext.cs:11-16 | a session opened over the store sees exactly the rows and the next key the store holds |
| `Context.TarefasContext.Post` | Program.cs:110-132 | the in-place insert leaves exactly the state and response `Handlers.Post` specifies and keeps the store invariant |
| `Context.TarefasContext.Put` | Program.cs:141-165 | the in-place update leaves exactly the state and response `Handlers.Put` specifies |
| `Context.TarefasContext.Concluir` | Program.cs:173-189 | the in-place flag update leaves exactly the state and response `Handlers.Concluir` specifies |
| `Context.TarefasContext.Delete` | Program.cs:195-205 | the in-place removal leaves exactly the state and response `Handlers.Delete` specifies |

## Left out

- Host bootstrap, dependency injection, the connection string, server-version detection and Swagger (Program.cs:5-25, 208): process wiring and I/O.
- The commented-out earlier handlers (Program.cs:29-34, 52-79): dead code.
- The object-relational mapping (table and column names, character set, `HasMaxLength(200)`): configuration of a store this model does not see. A description over 200 characters would make `SaveChanges` fail in the store; the handlers never check it.
- The case-insensitive collation `utf8mb3_general_ci`: `Contains` is modelled as an exact, case-sensitive substring test.
- `SaveChanges` failures, an unreachable store, and exhaustion of the 32-bit key: the auto-increment counter is an unbounded integer and every write succeeds.
- JSON (de)serialisation and HTTP rendering: responses are values, and the BadRequest message object is its message string. The list query always answers `Results.Ok(tarefas)` and is represented by the list alone.
- Concurrent requests racing on one row: each operation is one atomic step.
- The store's natural row order: `Queries.List` takes it as a parameter (`storeOrder`, any duplicate-free listing of the keys); with the pending filter off, its contract says nothing about order.
- Entity tracking and aliasing: a row is a value, and PUT and PATCH replace the map entry instead of assigning fields of a tracked object.
- `Routes.RouteId` is only the inverse of the URL formatting; it does not model ASP.NET's route matching or its parsing of `int` route values.
- Per-request sessions: a `Context.TarefasContext` is one session, opened over the store's state; a client that runs several requests opens a new session over the state the previous one left, so what one session saves is what the next one sees.
- `Context.TarefasContext` methods require the store invariant (every key below the counter, every row with a description), which the constructor requires of the state it opens and every method keeps. A table populated by other means, for example with null descriptions, is covered only by the functions in `Queries` and by `Handlers.Put`, `Handlers.Concluir` and `Handlers.Delete`, which accept any table. `Handlers.Post` requires only that rows sit under their own key and every key lies below the counter (`Handlers.KeysBelowCounter`), because that is how the store guarantees a fresh key; it keeps that property, and it keeps the whole invariant when given it.
