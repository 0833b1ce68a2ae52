# ParkEase in Dafny

ParkEase is a small parking web application: an Express/Mongoose user
service (registration and listing), a Next.js client (a dashboard with
statistics and booking tabs, and a clickable parking map) and a static
HTML page whose rows are assigned and released by click handlers. This
project models the parts of it with behaviour worth stating and proves that
behaviour:

- **The user schema** (`UserModel`, `EmailPattern`):
  - the seven required string fields;
  - the email pattern, as a hand-written left-to-right recognizer proved equal to a declarative description of the pattern's language;
  - the ten-digit mobile rule and the vehicle-type enumeration;
  - the pre-save hook, which refuses mismatched passwords and clears `passwordConfirm`;
  - the unique email index;
  - the `users` collection, as a class over a `seq` of documents whose `Save` is all or nothing.
- **The two handlers** (`UserControllers`): `getAllUsers` (500 / 404 / 200) and `createUser` (500 / 201, with the dead 400 branch), plus the two-line router.
- **The dashboard** (`Dashboard`, `ArrayOps`):
  - the available, active and occupancy-rate cards;
  - the two booking tabs;
  - the load-time token gate that either redirects to `/login` or fetches the data.
- **The parking map** (`ParkingMap`):
  - the spot-click, book and dialog state of the component;
  - the sample 3 × 5 grid it shows when it is given no spots.
- **The static table page** (`ParkingTable`): the page as rows of cells of nodes. Page load attaches a listener to each Assign/Release button. A click runs the button's listener, which rewrites cells 1–3 of its row and removes the button.

Effects outside the program are parameters:
- `fault` stands for an unreachable database;
- `token`, `spots` and `bookings` stand for what `localStorage` and the two fetches return;
- the outcome of the booking request and the value of `Math.random()` are nondeterministic choices (`:|`);
- `draw` gives each sample spot's random occupancy.

The decimal rendering of numbers (`'User ' + n`, `` `Spot ${n}` ``) is modelled in `Decimal`, with its inverse.

## Model

| member | source | states |
|---|---|---|
| Decimal.Show | script.js:5 | the decimal text of `n`: non-empty, only ASCII digits, and no leading zero unless `n` is 0 |
| Decimal.ValueShow | script.js:5 | the decimal text of any `n` reads back as `n` |
| Decimal.ShowInjective | components/parking-map.jsx:55 | different numbers get different decimal texts |
| EmailPattern.FindAt | Model/UserModel.js:10 | the position of the first `@`, or none when the string has no `@` |
| EmailPattern.ScanClassify | Model/UserModel.js:10 | after any prefix, the recognizer's state is the declarative classification of that prefix (inside or after the local part, run length of the last domain segment, last separator) |
| EmailPattern.Recognize | Model/UserModel.js:10 | the schema's `match` test holds exactly for the addresses of the pattern's language (`ValidEmail`) |
| EmailPattern.RecognizeCorrect | Model/UserModel.js:10 | the scanner ends in an accepting state on exactly the language of the pattern: a local part of `\w`-runs joined by single `.`/`-`, one `@`, and a domain of the same shape whose last separator is `.` followed by 2 or 3 word characters |
| EmailPattern.ValidEmailOneAt | Model/UserModel.js:10 | an address of the pattern contains exactly one `@` |
| EmailPattern.AcceptsPlainAddress | Model/UserModel.js:10 | `alice@example.com` is accepted |
| EmailPattern.RejectsOneLetterTld | Model/UserModel.js:10 | `a@b.c` is refused: the final segment is shorter than 2 |
| EmailPattern.RejectsFourLetterTld | Model/UserModel.js:10 | `a@b.info` is refused: the final segment is longer than 3 |
| EmailPattern.RejectsDoubledSeparator | Model/UserModel.js:10 | `a..b@c.com` is refused: two separators in a row |
| EmailPattern.RejectsSecondAt | Model/UserModel.js:10 | `a@b@c.com` is refused: a second `@` |
| UserModel.ParseVehicleKind | Model/UserModel.js:20 | yields the kind whose name is exactly the string, and nothing when no kind has that name |
| UserModel.ParseKindName | Model/UserModel.js:20 | every enumeration name is accepted as its own kind |
| UserModel.VehicleNames | Model/UserModel.js:20 | the vehicle type is accepted iff it is one of "Car", "Bike", "Truck", "Bus", "Other" |
| UserModel.VehicleKindCaseSensitive | Model/UserModel.js:20 | the comparison is case-sensitive ("car", "BUS" are refused) |
| UserModel.IsMobileNumber | Model/UserModel.js:17 | the mobile rule `^\d{10}$` holds exactly for strings of ten ASCII digits |
| UserModel.CountDigits | Model/UserModel.js:17 | the count equals the length iff every character is an ASCII digit |
| UserModel.ValidationErrors | Model/UserModel.js:5-20 | email passes iff present and of the pattern; mobile passes iff exactly 10 ASCII digits; vehicle type iff one of the five names; the other four paths iff present and non-empty; only schema paths are reported |
| UserModel.AcceptableIffNoErrors | Model/UserModel.js:5-29 | validation and the hook both pass iff every field is present and non-empty, each field rule holds and the two passwords are equal |
| UserModel.NoErrorsAcceptable | Model/UserModel.js:5-25 | no validation error and equal passwords imply the document is acceptable |
| UserModel.AcceptableNoErrors | Model/UserModel.js:5-20 | an acceptable document has no validation error |
| UserModel.Stripped | Model/UserModel.js:27 | the stored document has no `passwordConfirm` and every other field as given |
| UserModel.SaveOutcome | Model/UserModel.js:4-29 | a save succeeds iff the document is acceptable, the store is reachable and the email is not yet stored; on success it stores the stripped document; a password mismatch always fails; a validation failure names at least one path |
| UserModel.SaveKeepsUnique | Model/UserModel.js:9 | a successful save keeps the stored emails pairwise distinct |
| UserModel.DuplicateRefused | Model/UserModel.js:9 | a document whose email is already stored is refused whatever its other fields |
| UserModel.UserStore.constructor | Model/UserModel.js:31 | the collection starts empty and valid |
| UserModel.UserStore.Find | Controllers/UserControllers.js:7 | a fault gives the store-unavailable error; otherwise exactly the stored sequence |
| UserModel.UserStore.Save | Model/UserModel.js:23-29 | the result is `SaveOutcome` of the old collection; success appends exactly the stored document, failure leaves the collection as it was; emails stay unique and no stored document has `passwordConfirm` |
| UserControllers.Key | Controllers/UserControllers.js:22 | each schema path is read from a non-empty body key |
| UserControllers.KeyInjective | Controllers/UserControllers.js:22 | different paths are read from different keys |
| UserControllers.Field | Controllers/UserControllers.js:22 | a key absent from the body gives `undefined`, a present one its value |
| UserControllers.FromBody | Controllers/UserControllers.js:22-34 | every path of the new document holds the body's value under that path's key, or `undefined` |
| UserControllers.FromBodyIgnoresOtherKeys | Controllers/UserControllers.js:22 | keys outside the schema do not change the document |
| UserControllers.ListResponse | Controllers/UserControllers.js:4-18 | the listing answers 200 exactly when the read succeeds and the collection is non-empty, and then with exactly the stored users; the status is 200, 404 or 500 |
| UserControllers.CreateResponse | Controllers/UserControllers.js:21-46 | the create answers 201 exactly when the save succeeds, and then with the stripped document; otherwise 500 "Error creating user" |
| UserControllers.GetAllUsers | Controllers/UserControllers.js:4-18 | 500 "Error fetching users" on a fault; 404 "No users found" on an empty collection; otherwise 200 with exactly the stored users; the response is `ListResponse` of the collection, which is not modified |
| UserControllers.CreateUser | Controllers/UserControllers.js:21-46 | 201 with the stored user (no `passwordConfirm`) and the collection grown by exactly that record iff the body is acceptable, the store is reachable and the email is new; otherwise 500 "Error creating user" and the collection unchanged; never 400; the response is `CreateResponse` of the old collection |
| UserControllers.Route | Route/UserRoutes.js:6-7 | GET is answered with `ListResponse` of the collection, POST with `CreateResponse`, the collection growing by the stripped document exactly on 201; only POST can change the collection; HEAD gets `ListResponse`'s status with no body; any other verb is not answered here |
| UserControllers.CreateThenList | Controllers/UserControllers.js:13-45 | one successful create on an empty collection, then a listing, answers 201 and then 200 with exactly that one record |
| UserControllers.CreateTwice | Model/UserModel.js:9 | posting the same acceptable body twice answers 201 then 500 and leaves one record |
| UserControllers.AliceEmail | Model/UserModel.js:10 | `alice@example.com` is of the pattern |
| UserControllers.AliceMobile | Model/UserModel.js:17 | `1234567890` is ten digits |
| UserControllers.AliceAcceptable | Model/UserModel.js:5-29 | the Alice registration passes every rule and the hook |
| UserControllers.AliceScenario | Controllers/UserControllers.js:21-46 | Alice is created with 201, her stored email as sent and no `passwordConfirm`; any later body with her email gets 500 and the collection still holds one record |
| ArrayOps.Filter | app/dashboard/page.jsx:72 | the result is no longer than the input, holds only satisfying elements, and holds every satisfying element |
| ArrayOps.FilterMultiset | app/dashboard/page.jsx:137-141 | each satisfying element occurs in the result as often as in the input, any other not at all |
| ArrayOps.FilterAppend | app/dashboard/page.jsx:137-141 | filtering a concatenation is the concatenation of the filtered parts, so input order is kept |
| ArrayOps.MatchingSnoc | app/dashboard/page.jsx:72 | the satisfying indices of `s + [x]` are those of `s`, plus the last index when `x` satisfies |
| ArrayOps.FilterLength | app/dashboard/page.jsx:72 | the filtered length is the number of satisfying indices |
| ArrayOps.FilterSplit | app/dashboard/page.jsx:72-102 | two complementary filters have lengths summing to the input length |
| Dashboard.AvailableCount | app/dashboard/page.jsx:72-74 | the number of spots with `occupied` false, never more than the total shown beside it |
| Dashboard.OccupiedCount | app/dashboard/page.jsx:102 | the number of spots with `occupied` true |
| Dashboard.AvailablePlusOccupied | app/dashboard/page.jsx:72-102 | available and occupied spots add up to all spots |
| Dashboard.ActiveCount | app/dashboard/page.jsx:87 | the number of bookings whose status is "active" |
| Dashboard.RoundHalfUp | app/dashboard/page.jsx:102 | the nearest integer to `num/den`, halves rounded up |
| Dashboard.OccupancyRate | app/dashboard/page.jsx:101-103 | 0 without spots; otherwise 100·occupied/total rounded half up; always within 0..100 |
| Dashboard.OccupancyExtremes | app/dashboard/page.jsx:101-103 | a fully occupied lot shows 100, a lot with nothing occupied shows 0 |
| Dashboard.ActiveBookings | app/dashboard/page.jsx:137-141 | the tab holds only active bookings of the list, and every one of them |
| Dashboard.HistoryBookings | app/dashboard/page.jsx:178-182 | the tab holds only completed bookings of the list, and every one of them |
| Dashboard.TabsKeepOrder | app/dashboard/page.jsx:137-182 | both tabs keep the list's order and each booking's multiplicity |
| Dashboard.TabsPartition | app/dashboard/page.jsx:137-182 | no booking is on both tabs; a booking with any other status is on neither |
| Dashboard.ActiveCountIsTabLength | app/dashboard/page.jsx:87-141 | the Your Bookings card counts exactly the rows of the Your Bookings tab |
| Dashboard.Render | app/dashboard/page.jsx:42-182 | a spinner exactly while loading; otherwise the cards show `AvailableCount`, the number of spots, `ActiveCount` and `OccupancyRate` of the data, the tabs are `ActiveBookings` and `HistoryBookings`, and the map gets the spots; hence available ≤ total, a rate within 0..100 and an active count equal to the tab's length |
| Dashboard.DashboardPage.constructor | app/dashboard/page.jsx:15-17 | no spots, no bookings, loading |
| Dashboard.DashboardPage.CheckAuthAndFetchData | app/dashboard/page.jsx:20-37 | a missing or empty token redirects to `/login`, requests nothing and leaves loading on; otherwise spots then bookings are requested, stored as returned, and loading ends |
| Dashboard.OpenWithoutToken | app/dashboard/page.jsx:21-25 | without a token the page shows the spinner, has been sent to `/login` and has requested nothing |
| Dashboard.OpenWithToken | app/dashboard/page.jsx:27-36 | with a token the page shows the cards and tabs of exactly the fetched data |
| ParkingMap.SampleSpot | components/parking-map.jsx:53-58 | the sample spot at `index` has id `index+1`, the name "Spot " followed by the decimal text of its id, its drawn occupancy, and type "handicap" exactly when `index mod 3 = 0`, else "standard" |
| ParkingMap.FallbackGrid | components/parking-map.jsx:44-58 | `rows*cols` = 15 spots; spot `i` has id `i+1`, name "Spot `i+1`", its random occupancy, and type "handicap" iff `(id−1) mod 3 = 0`, else "standard" |
| ParkingMap.FallbackDistinct | components/parking-map.jsx:53-55 | the sample spots have pairwise distinct ids and names |
| ParkingMap.FallbackNameNumber | components/parking-map.jsx:55 | the number in a sample spot's name is its id |
| ParkingMap.FallbackHandicap | components/parking-map.jsx:57 | the handicap sample spots are ids 1, 4, 7, 10 and 13 |
| ParkingMap.DisplayedSpots | components/parking-map.jsx:48-58 | a non-empty `spots` is shown as is; an empty one is replaced by exactly the sample grid `FallbackGrid(draw)`, the 15 spots with ids 1..15 |
| ParkingMap.MapState.constructor | components/parking-map.jsx:16-18 | nothing selected, dialog closed, not loading |
| ParkingMap.MapState.HandleSpotClick | components/parking-map.jsx:20-25 | a free spot becomes the selection and opens the dialog; an occupied spot changes nothing |
| ParkingMap.MapState.HandleBookSpot | components/parking-map.jsx:27-41 | without a selection nothing happens; otherwise the selected id is requested once, the dialog closes on success and stays as it was on failure, and loading is false afterwards |
| ParkingMap.MapState.CloseDialog | components/parking-map.jsx:136 | Cancel closes the dialog and changes nothing else |
| ParkingTable.UserCell | script.js:5 | the user cell is one text node reading "User " followed by exactly `Show(n)`, the decimal text of the number drawn, which reads back as `n` |
| ParkingTable.ListenerFor | script.js:1-11 | class `assign-btn` gets the Assign listener, `release-btn` the Release listener, any other none |
| ParkingTable.Attach | script.js:1-19 | page load keeps the markup's shape and gives each button the listener its class selects |
| ParkingTable.AttachListeners | script.js:1-19 | after load a button keeps its class and caption and carries its class's listener; every other node is unchanged |
| ParkingTable.Removed | script.js:7 | removing node `k` keeps the nodes before it and shifts the ones after it |
| ParkingTable.Rewrite | script.js:3-17 | cells 1, 2, 3 receive the new markup in order, stopping at the first missing cell; with all four cells present the button leaves its cell; no other cell changes |
| ParkingTable.ClickEffect | script.js:2-17 | a node without a listener changes nothing; other rows are untouched and the row keeps its length; Assign writes "Occupied" and "User n", Release "Available" and "None" into cells 1 and 2 |
| ParkingTable.AssignEffect | script.js:3-7 | Assign leaves cell 1 "Occupied", cell 2 "User n", cell 3 a Release button, and the clicked button gone |
| ParkingTable.ReleaseEffect | script.js:13-17 | Release leaves cell 1 "Available", cell 2 "None", cell 3 an Assign button, whatever they held, and the clicked button gone |
| ParkingTable.ClickIsLocal | script.js:4-16 | a click changes only cells 1–3 of its own row and the cell its button sat in; all other rows are untouched |
| ParkingTable.CreatedButtonsInert | script.js:1-16 | the cells a listener writes carry no listener, so clicking the button it created does nothing |
| ParkingTable.Page.Load | script.js:1-19 | the loaded page is the markup with the listeners attached |
| ParkingTable.Page.Click | script.js:1-19 | the page becomes the click's effect; a number is drawn, within 0..999, exactly when an Assign listener reaches the user cell |

## Left out

- Mongoose casting: a request body is modelled as a map from keys to strings. Numbers or booleans that Mongoose would cast to strings are not modelled, and neither are values it would refuse to cast.
- Stored documents carry no `_id` or `__v`, and nothing models timestamps.
- The unique email index is modelled as a sequential check inside `Save`. Concurrent inserts and index atomicity are not modelled.
- Validation, the pre-save hook and the insert are modelled in that fixed order.
- `console.log` is not modelled.
- Passwords are stored in plain text, as the source does; no hashing is added.
- The source answers every failure of `createUser` with 500, including validation failures, password mismatches and duplicate emails.
- The model distinguishes the save errors (validation, mismatch, unreachable store, duplicate) only inside `UserModel`. The response is the same for all of them.
- UserControllers.Route: verbs other than GET, HEAD and POST are answered by Express's default handler, which is outside this model. HEAD's headers (such as `Content-Length`) are not modelled, only its status.
- UserControllers.GetAllUsers: `User.find()` has no sort, so MongoDB returns documents in its natural order, which is not guaranteed; the model takes the listing order to be insertion order.
- app.js (the database connection and `listen`) is not part of this model.
- lib/api.js is not part of this model. Its fetches are the `spots`/`bookings` parameters and the nondeterministic booking outcome. When a fetch fails, the source's helpers return `undefined` and the dashboard then fails while rendering; that crash is not modelled.
- Dashboard.RoundHalfUp: integer round-half-up of occupied·100/total. The floating-point error of `Math.round` on the quotient is not modelled.
- Dates are not modelled: the booking start and end times, `toLocaleString`, and the two-hour window of the booking dialog.
- Rendering, CSS, app/page.jsx, the layouts and components/dashboard-header.jsx (which includes logout) are not modelled.
- ParkingMap.MapState.HandleBookSpot: the request in flight is one atomic step. The interval while `loading` is true is not a separate state; in the source the Confirm button is disabled during that interval.
- ParkingMap.FallbackGrid: the random occupancy is a parameter. The source draws it afresh on every render.
- ParkingTable: listeners are modelled on buttons only, each with a single class. `querySelectorAll` would also match other elements carrying these classes, and elements with several classes.
- ParkingTable: the HTML each handler writes with `innerHTML` is a fixed node list, and buttons sit directly in a row's cells. A button nested deeper, whose grandparent is not the row, is not modelled.
