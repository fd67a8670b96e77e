# Ecoleta collection points: registry and registration form

A Dafny model of the two pieces of logic at the heart of the Ecoleta recycling
collection-point registry (NextLevelWeek1):

- **The points controller** (`backend/src/controllers/PointsController.ts`). The database is a
  `Store` class holding three tables as sequences of rows: `points`, `items` and the join
  table `point_item`.
  - `Store.Create` (`POST /points`) appends one point row with the fixed placeholder image and
    a freshly generated id. It then appends one join row per requested item id and answers the
    point with its id.
  - `Store.Show` (`GET /points/:id`) answers `NotFound("Point not found.")` or the point with the
    titles of its linked items.
  - `Store.Index` (`GET /points?city=&uf=&items=`) parses the comma-separated item ids
    (module `ItemQuery`: `split`, `trim`, `Number`). It joins points with the join table, filters
    by wanted item id, city and state code (UF), and removes duplicates (`Collections.Distinct`).
- **The create-point form** (`frontend/src/pages/CreatePoint/index.tsx`). A `FormState` class
  holds the component state (selected UF, city, map position, selected items, the three text
  fields). It has one method per handler. The values the handlers compute are pure functions:
  `Toggle` for selecting an item and `WithField` for a text input. `Submit` builds the payload
  posted to `/points`.

Module layout: `wrappers.dfy` (Option), `coordinates.dfy` (the coordinate type),
`collections.dfy` (no-duplicates and distinct),
`item_query.dfy` (the `items` query parser), `points_controller.dfy`, `create_point.dfy`.

Modelling choices:
- A new point's id (`insertedIds[0]`) is `FreshId(points)`: the larger of 1 and one more than
  the largest id in use. So it is at least 1, greater than every id in use, and used by no
  existing point.
- SQL leaves result order unspecified. The model fixes one order. `Titles` follows join-table
  order. `Index` follows point order, then join-table order. `Distinct` keeps first occurrences.
- Latitude and longitude are `real`s that are only copied.
- `Number()` on a trimmed segment gives `Some(0)` for the empty string, as JavaScript does.
  An optional sign followed by decimal digits gives that integer. Anything else gives `None`
  (NaN), which matches no item id. So an empty `items` query parses to `[Some(0)]`, not to `[]`.
- A text input whose name is none of `name`, `email`, `whatsapp` leaves the three fields
  unchanged. JavaScript's spread would add an extra key, but nothing reads it at submit.

## Model

| member | source | states |
|---|---|---|
| `PointsController.Store.Create` | backend/src/controllers/PointsController.ts:5-24 | the store stays valid; exactly one point row is appended; its id is fresh; its image is the placeholder whatever the request says; its other fields are copied from the request; the join rows are `JoinRows(items, id)`; `items` is unchanged; the answer is the inserted row with its id |
| `PointsController.FreshId` | backend/src/controllers/PointsController.ts:12-15 | the generated id is positive and larger than every existing point id, so no existing point uses it |
| `PointsController.JoinRows` | backend/src/controllers/PointsController.ts:16-19 | N requested item ids give exactly N join rows, in list order, row k being (items[k], point id) |
| `PointsController.Store.Show` | backend/src/controllers/PointsController.ts:26-35 | NotFound iff no point has the id, with message "Point not found."; otherwise the point has that id; its titles are `Titles` of the point (so `TitlesPerRow` applies to them); a title is in the answer iff a join row of the point names an item carrying it |
| `PointsController.FirstWithId` | backend/src/controllers/PointsController.ts:28 | `.where('id', id).first()`: none iff no point has the id; otherwise a stored point with that id |
| `PointsController.LinkedRows` | backend/src/controllers/PointsController.ts:31 | holds exactly the join rows whose point id is the requested one, each as many times as it occurs in the table |
| `PointsController.TitlesOf` | backend/src/controllers/PointsController.ts:29-30 | the join of one `point_item` row with `items`; no ensures of its own, described by TitlesOfMembership and TitlesOfUnique |
| `PointsController.Titles` | backend/src/controllers/PointsController.ts:29-32 | the title query of `show`; no ensures of its own, described by TitlesMembership and TitlesPerRow |
| `PointsController.TitlesOfMembership` | backend/src/controllers/PointsController.ts:29-30 | a title comes from an item id iff some item with that id carries the title |
| `PointsController.TitlesOfUnique` | backend/src/controllers/PointsController.ts:29-30 | with unique item ids, an id in the table names exactly one title and an absent id names none |
| `PointsController.TitlesMembership` | backend/src/controllers/PointsController.ts:29-32 | a title is among the point's titles iff some join row of the point names an item with that title |
| `PointsController.TitlesPerRow` | backend/src/controllers/PointsController.ts:29-32 | with unique item ids and every join row of the point naming an existing item (rows of other points are unconstrained): one title per join row of the point, in order, each the title of the item that row names |
| `PointsController.Store.Index` | backend/src/controllers/PointsController.ts:37-52 | no duplicate points; a point is in the answer iff it is stored, has the queried city and UF, and a join row links it to a parsed item id |
| `PointsController.JoinedCopies` | backend/src/controllers/PointsController.ts:43-45 | the join rows one point contributes to the search; no ensures of its own, described by JoinedCopiesMembership |
| `PointsController.Joined` | backend/src/controllers/PointsController.ts:43-47 | the join and the three filters of `index`, before DISTINCT; no ensures of its own, described by JoinedMembership |
| `PointsController.JoinedCopiesMembership` | backend/src/controllers/PointsController.ts:43-45 | the join yields copies of a point only, and at least one exactly when a join row links it to a wanted item |
| `PointsController.JoinedMembership` | backend/src/controllers/PointsController.ts:43-47 | before DISTINCT, the joined rows are exactly the stored points passing all three filters |
| `Collections.Distinct` | backend/src/controllers/PointsController.ts:48 | the result has no duplicates, has the same elements as the input, and is no longer |
| `Collections.DistinctOfDistinct` | backend/src/controllers/PointsController.ts:48 | on a list without duplicates DISTINCT changes nothing |
| `ItemQuery.ParseItems` | backend/src/controllers/PointsController.ts:39-41 | one entry per comma-separated segment, so the comma count plus one; entry k is segment k trimmed and read as a number |
| `ItemQuery.Split` | backend/src/controllers/PointsController.ts:40 | the comma count plus one pieces, none containing the separator |
| `ItemQuery.JoinOfSplit` | backend/src/controllers/PointsController.ts:40 | splitting loses nothing: joining the pieces with the separator gives back the string |
| `ItemQuery.SplitOfJoin` | backend/src/controllers/PointsController.ts:40 | pieces free of the separator, joined and split again, give back the pieces |
| `ItemQuery.TrimStart` | backend/src/controllers/PointsController.ts:41 | the result is a suffix of the input; it does not start with whitespace; everything removed is whitespace |
| `ItemQuery.TrimEnd` | backend/src/controllers/PointsController.ts:41 | the result is a prefix of the input; it does not end with whitespace; everything removed is whitespace |
| `ItemQuery.Trim` | backend/src/controllers/PointsController.ts:41 | the trimmed segment neither starts nor ends with whitespace; a segment whose ends are not whitespace is unchanged |
| `ItemQuery.TrimIsInfix` | backend/src/controllers/PointsController.ts:41 | trimming removes the surrounding whitespace and nothing else: the result is a contiguous part of the segment with only whitespace before and after it |
| `ItemQuery.ParseNumber` | backend/src/controllers/PointsController.ts:41 | the empty segment reads as 0; a digit string reads as its decimal value; "+" or "-" followed by digits reads as that value with the sign |
| `ItemQuery.ParseNumberNaN` | backend/src/controllers/PointsController.ts:41 | a non-empty segment reads as no number (NaN) exactly when it is not an integer literal (optional sign, then one or more digits) |
| `ItemQuery.IntLiteralShapes` | backend/src/controllers/PointsController.ts:41 | an integer literal is exactly a digit string or a sign followed by a digit string |
| `ItemQuery.DigitsValueLeadingZero` | backend/src/controllers/PointsController.ts:41 | leading zeros do not change the value read, so "007" reads as 7 |
| `ItemQuery.ParseNumberOfInt` | backend/src/controllers/PointsController.ts:41 | `Number` reads back every integer written in decimal |
| `ItemQuery.ParseItemsOfFormatted` | backend/src/controllers/PointsController.ts:39-41 | a query `items=a,b,c` built from a list of ids parses to exactly those ids, in order |
| `CreatePointForm.FormState.constructor` | frontend/src/pages/CreatePoint/index.tsx:29-39 | initially no items are selected, UF and city are the sentinel "0", the position is (0, 0) and the three text fields are empty |
| `CreatePointForm.FormState.SelectItem` | frontend/src/pages/CreatePoint/index.tsx:83-90 | the selection becomes `Toggle(old selection, id)`, stays free of duplicates, and nothing else changes |
| `CreatePointForm.FindIndex` | frontend/src/pages/CreatePoint/index.tsx:84 | -1 iff the id is not selected; otherwise the first position holding it |
| `CreatePointForm.Without` | frontend/src/pages/CreatePoint/index.tsx:86 | the id no longer occurs and every other id is present iff it was |
| `CreatePointForm.Toggle` | frontend/src/pages/CreatePoint/index.tsx:84-89 | a selected id is filtered out, an unselected id is appended at the end; membership of the id flips and every other id's membership is unchanged |
| `CreatePointForm.WithoutAppend` | frontend/src/pages/CreatePoint/index.tsx:86 | filtering distributes over concatenation, so the remaining elements keep their order |
| `CreatePointForm.WithoutAbsent` | frontend/src/pages/CreatePoint/index.tsx:86 | filtering out an absent id changes nothing |
| `CreatePointForm.WithoutCounts` | frontend/src/pages/CreatePoint/index.tsx:86 | filtering removes every occurrence of the id and keeps every other element as often as before |
| `CreatePointForm.ToggleTwice` | frontend/src/pages/CreatePoint/index.tsx:83-90 | toggling an unselected id twice gives back the original selection |
| `CreatePointForm.WithoutNoDuplicates` | frontend/src/pages/CreatePoint/index.tsx:86 | filtering keeps a list free of duplicates |
| `CreatePointForm.ToggleNoDuplicates` | frontend/src/pages/CreatePoint/index.tsx:84-89 | a selection without duplicates stays without duplicates after a toggle |
| `CreatePointForm.WithField` | frontend/src/pages/CreatePoint/index.tsx:79-82 | the named field takes the value, every other field keeps its value, and an unknown name changes nothing |
| `CreatePointForm.FormState.InputChange` | frontend/src/pages/CreatePoint/index.tsx:79-82 | the form data becomes `WithField(old form data, name, value)` and the rest of the state is unchanged |
| `CreatePointForm.FormState.SelectUF` | frontend/src/pages/CreatePoint/index.tsx:67-69 | only the selected UF changes, to the chosen value |
| `CreatePointForm.FormState.SelectCity` | frontend/src/pages/CreatePoint/index.tsx:70-72 | only the selected city changes, to the chosen value |
| `CreatePointForm.FormState.MapClick` | frontend/src/pages/CreatePoint/index.tsx:73-78 | only the selected position changes, to the clicked coordinates |
| `CreatePointForm.FormState.Submit` | frontend/src/pages/CreatePoint/index.tsx:91-99 | the payload takes latitude and longitude from the selected position, name, email and whatsapp from the form data, items from the selection, and city and UF from the selections |

## Left out

- The SQL engine, the query builder and the Express request and response objects are replaced
  by sequences of rows, result datatypes and plain parameters.
- Transactions (begin, commit, rollback) are left out. `Create` is one atomic step, and the
  source handles no failure.
- The shape and order of SQL results are left out. `Show` and `Index` fix one order (see above),
  and a `Found` answer does not carry the database's row representation.
- `Store`'s constructor starts from an empty database with seeded items whose ids are unique, as
  the `items` table's primary key makes them. Migrations and seeds are not part of this model.
- `ItemQuery.ParseNumber`: does not model JavaScript `Number()` on decimals, exponents, hex,
  binary or octal literals, or `Infinity`; these all read as `None` here, where JavaScript gives
  a number.
- `ItemQuery.ParseNumber`: reads digit strings of any length exactly, where `Number()` rounds
  values above 2^53 to the nearest double.
- `String(items)` for a missing or repeated `items` parameter is left out. The query is taken as
  a string, so a missing parameter is the string "undefined", which parses to `[None]`.
- The path id of `show` is taken as an integer. A non-numeric path id is not modelled.
- The `items` field of the create request is taken to be a list of integers. A missing list,
  which makes `items.map` throw, is not modelled.
- Referential integrity of `point_item.item_id` against `items` is not enforced by the source
  (`create` inserts whatever ids the request names), so `Store.Valid` does not include it.
  `TitlesPerRow` assumes it only for the join rows of the point it is about.
- Everything React and browser specific is left out: rendering, the `items`, `UFs`, `cities`
  and `initialPosition` state that only feeds rendering, effects, geolocation, the map widget,
  the IBGE geography requests, the `api.post` call, `alert` and navigation. `Submit` stops at the
  payload.
- Asynchrony is left out. Each handler is one sequential step.
- The Unicode whitespace set of `trim` is written out by code point, as two lists: the ASCII
  ones and the rest. Strings are sequences of
  Unicode scalar values, with no normalisation.
