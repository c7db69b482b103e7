# Tournament and match backend: entity lifecycle core

A Dafny model of the route handlers of a Flask backend that organises game
sessions ("matches") and brackets ("tournaments") around a catalogue of
games. The model covers:

- the three public-code generators (`generate_uuid` in the tournament, match
  and game routes);
- the collision-avoiding code loop of `create_tournament` and `create_match`:
  the length starts at 6 and grows by one after every 10 consecutive
  collisions;
- game resolution for a new tournament (by id, then by trimmed
  case-insensitive name, then a new game);
- find-or-create, lookup, rename and delete of games;
- the creator-only and the unrestricted tournament delete;
- the five error-envelope builders of `errors.py`.

The database session is a `Store` object (`entities.dfy`) with one table per
entity. A table is the sequence of its rows in primary-key order, so
`query.filter(p).first()` is the first matching row. `Store.Valid()` keeps
the keys strictly increasing and below the next key each table issues.
Inserts, renames and deletes are `Store` methods. The handlers are methods
that take the store and say exactly how each table changes. A request that
fails on a missing key changes nothing, because the session is never
committed.

Randomness is an oracle. `rand(k)(i)` picks the alphabet character (modulo
62) for position `i` of the candidate drawn on attempt `k`. The code loop is
proved to terminate for every oracle: each colliding candidate is no longer
than the longest code in the table, and the candidate length keeps growing.
`AttemptsBounded` turns this into an explicit cap on the number of attempts,
which the source does not state.

The logged-in user (`auth.get_logged_user()`) is an input to the handlers.

Behaviour of the code worth knowing, which the model keeps as it is:

- Match codes carry no prefix and are `uuid_len` characters long. The `m`
  generator in routes/game.py is never called.
- `create_game` is idempotent only for names without surrounding whitespace.
  The lookup trims the name but the row stores it untrimmed
  (`PaddedNameInsertedTwice`).
- Neither handler sets a default `max_participants` or `start_date_tz`.
  Columns left unset keep their column default, written `None` here.
- The join, disjoin and edit actions and the participant rosters do not
  exist in the code: `get_match`, `patch_match` and `delete_match` are empty.

## Model

| member | source | states |
|---|---|---|
| `Text.Choices` | routes/tournament.py:104-105 | `random.choices(chars, k=n)` yields max(n, 0) characters, each from the 62-character alphabet |
| `Text.TrimStart` | routes/game.py:34 | the leading part of `strip()`: a suffix of the input, only whitespace removed, result does not start with whitespace |
| `Text.TrimEnd` | routes/game.py:34 | the trailing part of `strip()`: a prefix of the input, only whitespace removed, result does not end with whitespace |
| `Text.LeadingSpace` | routes/game.py:34 | the count of leading whitespace: every character before it is whitespace and the one at it, if any, is not |
| `Text.Trim` | routes/tournament.py:44 | `strip()` returns the slice of the input that starts after its leading whitespace, is followed only by whitespace, and neither starts nor ends with whitespace |
| `Text.TrimFixesUnpadded` | routes/game.py:34 | `strip()` leaves a name unchanged exactly when it has no surrounding whitespace |
| `Text.TrimIdempotent` | routes/tournament.py:44 | a stripped name has no surrounding whitespace, so stripping again changes nothing |
| `Text.Lower` | routes/game.py:34 | lower-casing keeps the length and lower-cases each character |
| `Text.ILike` | routes/game.py:34 | two names match case-insensitively exactly when they have the same length and agree character by character up to ASCII letter case |
| `Query.FirstIndex` | routes/game.py:47 | `filter(p).first()`: an index whose row satisfies p with no earlier row satisfying it, or None exactly when no row does |
| `Query.First` | routes/tournament.py:63 | `filter(p).first()` returns a row of the table satisfying p, or None exactly when none does |
| `Query.RemoveAt` | routes/game.py:70 | deleting the i-th row keeps the rows before it and shifts the rows after it down by one |
| `Query.RemoveDropsKey` | routes/game.py:70 | with unique keys, after deleting the row with key k no row with key k remains |
| `Query.RemoveKeepsKeys` | routes/tournament.py:88 | deleting a row keeps primary keys strictly increasing |
| `Query.AppendKeepsKeys` | routes/tournament.py:47-48 | inserting a row with the next key keeps keys strictly increasing and advances the next key |
| `Query.UpdateKeepsKeys` | routes/game.py:60 | assigning a column other than the key keeps keys strictly increasing |
| `Query.KeyIsUnique` | routes/game.py:47 | with strictly increasing keys, two rows with the same key are the same row |
| `Entities.GameWithId` | routes/game.py:47 | the lookup by id finds a game with that id, or None exactly when no game has it |
| `Entities.TournamentWithId` | routes/tournament.py:83 | the lookup by id finds a tournament with that id, or None exactly when no tournament has it |
| `Entities.GameNamed` | routes/game.py:34 | the `ilike` lookup finds the first game whose name matches case-insensitively, or None exactly when none matches |
| `Entities.GameNamedAfterAppend` | routes/game.py:34-40 | after inserting a game whose name matches, a lookup that found nothing before finds exactly the inserted row |
| `Entities.Store.AddGame` | routes/tournament.py:46-48 | inserting a game appends one row with the next key and the given name and changes no other table |
| `Entities.Store.RenameGameAt` | routes/game.py:59-60 | renaming changes only that row's name |
| `Entities.Store.DeleteGameAt` | routes/game.py:70 | deleting removes exactly that row |
| `Entities.Store.AddTournament` | routes/tournament.py:74-75 | inserting a tournament appends it with the next key and changes no other table |
| `Entities.Store.DeleteTournamentAt` | routes/tournament.py:88 | deleting removes exactly that row |
| `Entities.Store.AddMatch` | routes/match.py:48 | inserting a match appends it with the next key and changes no other table |
| `Errors.StringOf` | errors.py:10-11 | `str(error)`: a text is its own string form; a NotFound exception's is "404 Not Found: " followed by its description |
| `Errors.Stringified` | errors.py:10-12 | a NotFound argument becomes a text with the same string form; a text argument is kept as it is |
| `Errors.BadRequestError` | errors.py:5-6 | body has success false and error 400, the status is 400, the message is the argument unchanged |
| `Errors.UnauthorizedError` | errors.py:9-12 | body has success false and error 401, the status is 401; a NotFound argument becomes its string form, any other argument is the message |
| `Errors.ForbiddenError` | errors.py:15-18 | body has success false and error 403, the status is 403; a NotFound argument becomes its string form, any other argument is the message |
| `Errors.NotFoundError` | errors.py:21-24 | body has success false and error 404, the status is 404; a NotFound argument becomes its string form, any other argument is the message |
| `Errors.ServerError` | errors.py:27-28 | body has success false and error 500, the status is 500, the message is the argument unchanged |
| `Errors.BuildContract` | errors.py:5-28 | for every builder and argument, the body's error field equals the returned status, success is false, and the status follows the table 400/401/403/404/500 |
| `Errors.DefaultContract` | errors.py:5-27 | called without an argument, each builder's message is 'Bad request', 'Unauthorized', 'Forbidden', 'Resource not found' or 'Server Error' |
| `Errors.StatusIdentifiesKind` | errors.py:5-28 | no two builders share a status |
| `CodeLoop.Step` | routes/tournament.py:57-61 | after the increment `tries` is in 1..10; below 10 the length stays and tries grows by one, at 10 the length grows by one and tries restarts at 1 |
| `CodeLoop.Schedule` | routes/tournament.py:52-62 | the first ten attempts use length 6, and the length never decreases from one attempt to a later one |
| `CodeLoop.AttemptsForLength` | routes/tournament.py:57-62 | an attempt of length at most L is attempt number at most 10 * (L - 5) |
| `TournamentRoutes.GenerateUuid` | routes/tournament.py:103-105 | 't' followed by exactly n alphabet characters, length n + 1 |
| `TournamentRoutes.Candidate` | routes/tournament.py:62 | attempt k draws a code of length 1 + 6 + (k - 1) div 10 starting with 't' |
| `TournamentRoutes.MaxCodeLength` | routes/tournament.py:63 | no code in the tournament table is longer than this bound |
| `TournamentRoutes.CodeTaken` | routes/tournament.py:63 | the intended existence check finds a row exactly when the candidate is an existing tournament code |
| `TournamentRoutes.CodeTakenAsWritten` | routes/tournament.py:63 | the check as written compares the unsaved instance's uuid (None) and never finds a row |
| `TournamentRoutes.TakenCodeIsShort` | routes/tournament.py:63 | a code the check finds is no longer than the table's longest code |
| `TournamentRoutes.MintCode` | routes/tournament.py:52-64 | the loop returns candidate n, which no tournament holds, after candidates 1..n-1 all collided |
| `TournamentRoutes.MintCodeAsWritten` | routes/tournament.py:52-64 | with the check as written the loop always stops after the first candidate, whatever the table holds |
| `TournamentRoutes.AsWrittenRepeatsCode` | routes/tournament.py:63 | when a tournament already holds the first candidate, the check as written misses it and the intended check finds it |
| `TournamentRoutes.AttemptsBounded` | routes/tournament.py:57-62 | the number of attempts is at most 1 + 10 * (longest existing code length - 6) |
| `TournamentRoutes.ResolveGame` | routes/tournament.py:42-48 | a missing gameId key fails with "gameId"; a game with that id wins when one exists; otherwise (also for a null gameId) the first game matching the trimmed gameName case-insensitively, and no game holds the id; otherwise a new game named with the untrimmed gameName; a missing gameName key fails with "gameName" exactly when no game holds the id; every other request succeeds |
| `TournamentRoutes.IdWins` | routes/tournament.py:42-43 | in a valid table, the row holding the requested id is chosen whatever gameName says |
| `TournamentRoutes.MissingKey` | routes/tournament.py:42-66 | no key is reported exactly when the game resolves and name and maxParticipants are present; otherwise the first missing key in read order is reported: gameId, gameName, name, maxParticipants |
| `TournamentRoutes.CreateTournament` | routes/tournament.py:38-77 | on a missing key nothing changes; otherwise exactly one tournament is appended with the request's name and maxParticipants, startDate and startDateTz only when present, creator the logged user, and the resolved game's id, the game being inserted only when it is new; the tournament key counter advances by one, the game key counter only when a game is inserted, the match key counter never; its code comes from the loop with the intended column check (`MintCode`), so it is fresh, while the check as written yields the first candidate (`MintCodeAsWritten`) |
| `TournamentRoutes.DeleteTournament` | routes/tournament.py:82-90 | an unknown id gives the 404 envelope and changes nothing; the creator's delete removes that tournament and answers 204; anyone else gets the 403 envelope and nothing is removed |
| `TournamentRoutes.DeleteTournamentAsWritten` | routes/tournament.py:82-90 | as written, the non-creator branch returns no response and removes nothing |
| `TournamentRoutes.DeleteAnyTournament` | routes/tournament.py:95-100 | an unknown id gives the 404 envelope; otherwise that tournament is removed, no row with its id remains, and the answer is 204 |
| `MatchRoutes.GenerateUuid` | routes/match.py:67-69 | exactly n alphabet characters with no prefix |
| `MatchRoutes.Candidate` | routes/match.py:41 | attempt k draws a code of length 6 + (k - 1) div 10 |
| `MatchRoutes.MaxCodeLength` | routes/match.py:42 | no code in the match table is longer than this bound |
| `MatchRoutes.CodeTaken` | routes/match.py:42 | the existence check finds a row exactly when the candidate is an existing match code |
| `MatchRoutes.TakenCodeIsShort` | routes/match.py:42 | a code the check finds is no longer than the table's longest code |
| `MatchRoutes.MintCode` | routes/match.py:31-43 | the loop returns candidate n, which no match holds, after candidates 1..n-1 all collided |
| `MatchRoutes.AttemptsBounded` | routes/match.py:36-41 | the number of attempts is at most 1 + 10 * (longest existing code length - 5) |
| `MatchRoutes.CreateMatch` | routes/match.py:27-48 | exactly one match is appended, with a fresh code from the loop; is_private is the request's value when the key is present and the default otherwise; the match key counter advances by one and the game and tournament counters do not; the tournament lookup changes nothing |
| `GameRoutes.GenerateUuid` | routes/game.py:74-81 | 'm' followed by n - 1 alphabet characters, length n; a length below 1 still gives "m" |
| `GameRoutes.CreateGame` | routes/game.py:31-42 | if a game's name matches the trimmed input case-insensitively: nothing is inserted, status 303, Location that game's id; otherwise exactly one game named with the raw input is inserted, only the game key counter advances, and the status is 201 |
| `GameRoutes.CreateGameIdempotent` | routes/game.py:34-42 | for a name without surrounding whitespace, the lookup of a second call finds the game the first call inserted |
| `GameRoutes.PaddedNameInsertedTwice` | routes/game.py:34-40 | for a name with surrounding whitespace, the second call's lookup misses the inserted game, so a duplicate is inserted |
| `GameRoutes.GetGame` | routes/game.py:46-50 | a 404 exactly when no game has the id; otherwise status 200 with a game of that id |
| `GameRoutes.PatchGame` | routes/game.py:54-62 | an unknown id gives 404 and no change; otherwise only that game's name changes, and only when the key is present; all other games are unchanged |
| `GameRoutes.DeleteGame` | routes/game.py:66-71 | an unknown id gives 404 and no change; otherwise exactly that game is removed, no game with its id remains, and the answer is 204 |

## Findings

| source | as written | input that shows it | evidently intended | confidence | as-written member | corrected member |
|---|---|---|---|---|---|---|
| routes/tournament.py:63 | `filter(tournament.uuid == uuid)` compares the new, unsaved instance's `uuid` (None) with the candidate in Python. The filter is constant false and the loop stops after one attempt. | the tournament table already holds the first candidate drawn | `filter(Tournament.uuid == uuid)`, the column check that routes/match.py:42 uses | high; not executed | `TournamentRoutes.MintCodeAsWritten` | `TournamentRoutes.MintCode` |
| routes/tournament.py:90 | `errors.forbidden_error(...)` is called but not returned. The handler returns None, which Flask rejects as a response. | an existing tournament whose `creator_id` differs from the logged user's id | `return errors.forbidden_error(...)`, a 403 envelope | high; not executed | `TournamentRoutes.DeleteTournamentAsWritten` | `TournamentRoutes.DeleteTournament` |

## Left out

- Randomness: `random.choices` is an oracle. The model proves termination for every oracle and says nothing about probabilities.
- Authentication: `auth.requires_auth` and `auth.get_logged_user` are not part of this model. The logged user's id is a parameter. The decorator order of the two delete routes (which share one URL) is routing wiring.
- Listing endpoints: `get_games` in routes/tournament.py and routes/game.py, and `get_matches` in routes/match.py, build a query and call the library's `paginate`.
- Entities.GameNamed: the queries have no `order_by`, so when several rows match, the database may return any of them. The model always picks the row with the lowest key. This applies to `GameNamed`, the 303 Location of `CreateGame` and the by-name choice of `ResolveGame`. Several games can share a name up to case, because `patch_game` renames freely and `create_game` stores names untrimmed.
- TournamentRoutes.CreateTournament: uses the corrected code loop (`MintCode`). The literal handler can reuse an existing code; `MintCodeAsWritten` models that behaviour (see Findings).
- Entities.GameNamed: `ilike` also treats '%' and '_' in the name as wildcards and `\` as their escape character (PostgreSQL's default); the model compares names for equality up to ASCII letter case. So `CreateGameIdempotent` holds in the model for every unpadded name, while in the database a name holding `\` (or a wildcard matching another row first) can miss its own row.
- Concurrency: requests are modelled one at a time. The freshness of the codes that `MintCode`, `CreateTournament` and `CreateMatch` promise holds for each request against the table it reads; two concurrent requests can both pass the check and insert the same code, and no uniqueness constraint on the code columns is modelled.
- Text.TrimStart: whitespace is Python's `str.isspace()` set written out by code point; no Unicode database is consulted.
- Persistence: flush, commit and rollback are atomic in-memory changes, and autoincrement keys are the table's next key. JSON serialisation (`short()`, `long()`) is not modelled; a reply carries the row itself.
- Request typing: JSON values are assumed to have the types the handlers expect. A `gameName` that is JSON null, or a non-string name, would raise before the point the model reaches.
- Uncaught exceptions: a missing key (`KeyError`) is reported as the key's name. The application registers no handler for it, so Flask answers with its generic 500.
- MatchRoutes.CreateMatch: the `name` column (set to the whole request body), the creator (`User.first()`), and the return value (the handler returns None) are not modelled. The `tournament_id` lookup uses `.filters`, which does not exist on a query object; the model treats it as a lookup whose result is discarded.
- The match handlers `get_match`, `patch_match` and `delete_match` are empty in the source. Rosters, join/disjoin/edit actions and capacity checks do not exist in the code.
- models.py and app.py (database setup, the `Person` class, CORS headers, blueprint registration) are plumbing.
- Errors: `str()` of a werkzeug `NotFound` is modelled as "404 Not Found: " followed by its description. The message is otherwise passed on as it is, even where `jsonify` could not serialise it.
