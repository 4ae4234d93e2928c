# Report and technician management — a Dafny model

This project models the logic of a small maintenance-report application.

- **Frontend.** A React single-page app keeps reports and technicians in memory. It gates pages by the logged-in user's role, generates display ids such as `RPT-001` and `TECH-001`, and filters lists by a search term. It also computes dashboard statistics and header initials.
- **Backend.** An Express API over a relational store logs users in and out with 24-hour hexadecimal tokens. It authenticates bearer headers, provisions technicians in a fixed sequence of store steps, creates and lists reports, and seeds the two roles.

The model reads as follows:

- Pure code is written as functions over datatypes.
- The store is a class, `Store.Database`. Each table is a `seq` field. The role, user, specialization, technician and report tables each have an auto-increment counter, starting at 1. The session and contact tables have none, because their rows carry no generated id.
- The backend operations are methods that change exactly the tables they write.
- Each method that changes the store carries the integrity invariant `Valid()`:
  - role, specialization and e-mail values are unique;
  - every id lies below its table's counter;
  - every user's role exists;
  - every session's and every contact's user exists;
  - every technician's user and specialization exist.
- HTTP answers are a `Response(status, body)` datatype.
- Hashing, randomness, the clock and the network are parameters:
  - a `verify` predicate stands for the password-hash comparison;
  - a `hashedPassword` string stands for the salted hash;
  - 30 `random` bytes stand for the token's random source;
  - `now` and `today` stand for the clock;
  - an `answer` option stands for the technician screen's fetch.

Modules follow the source files:

| source file | module |
|---|---|
| `App.tsx` | `App` |
| `ReportManagement.tsx` | `ReportManagement` |
| `TechnicianManagement.tsx` | `TechnicianManagement` |
| `Dashboard.tsx` | `Dashboard` |
| `Header.tsx` | `Header` |
| `authentication.service.ts` | `AuthenticationService` |
| `middleware/auth.ts` | `AuthMiddleware` |
| `auth.controller.ts` | `AuthController` |
| `technician.service.ts` | `TechnicianService` |
| `technician.controller.ts` | `TechnicianController` |
| `report.controller.ts` | `ReportController` |
| `prisma/seed.ts` | `Seed` |

Shared modules:

| module | content |
|---|---|
| `Seqs` | filter, count, first match, subsequence |
| `Text` | ASCII case mapping, `indexOf`, `replace` of the first match, `split` and `join`, `slice` |
| `Ids` | decimal rendering and parsing, `padStart`, the sequential ids |
| `Hex` | lowercase Base16, section 8 of RFC 4648 |
| `Store` | tables, queries, integrity |
| `Http` | responses |
| `Wrappers` | `Option`, `Result` |

## Model

| member | source | states |
|---|---|---|
| App.AddReport | frontend/src/App.tsx:120-122 | the result is the old list followed by the new report; the length grows by exactly one |
| App.UpdateReport | frontend/src/App.tsx:124-126 | same length and order; each position holds the updated report when its id matches, else the old element |
| App.DeleteReport | frontend/src/App.tsx:128-130 | an order-preserving subsequence; no kept report has the id; every report with another id is kept, as many times as it occurs; an absent id leaves the list unchanged |
| App.DeleteReportIdempotent | frontend/src/App.tsx:128-130 | deleting the same id twice equals deleting it once |
| App.AddTechnician | frontend/src/App.tsx:132-134 | the old roster followed by exactly one new technician |
| App.ShouldShowPage | frontend/src/App.tsx:144-163 | `reports` iff role is `technician` or `admin`; `technicians` iff role is `admin`; home, statistics and settings always; any other page never |
| App.SeededRoleNamesAreDenied | frontend/src/App.tsx:148-152 | the capitalised role names `Admin` and `Technician` that the seed creates are refused both restricted pages |
| App.RenderCurrentPage | frontend/src/App.tsx:166-213 | access-restricted iff the gate refuses; the technician screen iff page is technicians and role is `admin`; the report screen iff the gate admits `reports`; the `null` branch is never reached |
| ReportManagement.ResetForm | frontend/src/components/ReportManagement.tsx:40-49 | all text fields empty, status `Pendente`, no report under edit, other state untouched |
| ReportManagement.OpenDialog | frontend/src/components/ReportManagement.tsx:51-65 | the dialog opens; for a report, the form is filled from it and it is under edit; otherwise the form is reset |
| ReportManagement.NewReportIdShape | frontend/src/components/ReportManagement.tsx:77 | the new id starts with `RPT-`; its digits read back as count+1; it has 7 characters iff count < 999 |
| ReportManagement.EditMerge | frontend/src/components/ReportManagement.tsx:70-74 | the merged report keeps the edited id and takes every other field from the form |
| ReportManagement.HandleSubmit | frontend/src/components/ReportManagement.tsx:67-85 | an edit goes through UpdateReport with the merge, a creation through AddReport with the count-based id; afterwards the form is reset and the dialog closed |
| ReportManagement.EditKeepsIds | frontend/src/components/ReportManagement.tsx:70-74 | an edit submit keeps the length and the id at every position |
| ReportManagement.EditWithoutChangesIsIdentity | frontend/src/components/ReportManagement.tsx:51-74 | opening a report with an unshared id and submitting the unchanged form leaves the list equal |
| ReportManagement.CreateAppends | frontend/src/components/ReportManagement.tsx:76-80 | a creation appends one report with id NewReportId(length) and the form's fields, the old list being a prefix |
| ReportManagement.FilteredReports | frontend/src/components/ReportManagement.tsx:87-91 | an order-preserving subsequence; a report is kept iff the lower-cased term occurs in its lower-cased title, technician or id; every copy of a matching report is kept |
| ReportManagement.EmptySearchKeepsAll | frontend/src/components/ReportManagement.tsx:87-91 | the empty term keeps every report |
| ReportManagement.GetStatusBadge | frontend/src/components/ReportManagement.tsx:93-100 | the two non-default labels map to their styles; every other string gets the `Pendente` style |
| ReportManagement.StatusBadgesDistinct | frontend/src/components/ReportManagement.tsx:93-100 | the three statuses get pairwise distinct styles |
| ReportManagement.IdCollisionAfterDelete | frontend/src/components/ReportManagement.tsx:77 | after [RPT-001, RPT-002] loses RPT-001, the next generated id is RPT-002, which is still present |
| ReportManagement.MaxReportNumber | frontend/src/components/ReportManagement.tsx:77 | bounds the number of every `RPT-` id in the list |
| ReportManagement.FreshReportId | frontend/src/components/ReportManagement.tsx:77 | the corrected generator: `RPT-` followed by at least three digits, numbered one past the largest `RPT-` number in use (its freshness is FreshReportIdUnused) |
| ReportManagement.FreshReportIdUnused | frontend/src/components/ReportManagement.tsx:77 | the corrected generator's id is carried by no report of the list |
| TechnicianManagement.ResetForm | frontend/src/components/TechnicianManagement.tsx:46-57 | all eight fields are the empty string |
| TechnicianManagement.BuildPayload | frontend/src/components/TechnicianManagement.tsx:67-77 | the form's five fields are copied; there are exactly two contacts, personal (`Pessoal`) first and work (`Trabalho`) second, even when empty |
| TechnicianManagement.NewTechnicianIdShape | frontend/src/components/TechnicianManagement.tsx:95 | the id starts with `TECH-`; its digits read back as count+1; it has 8 characters iff count < 999 |
| TechnicianManagement.ToTechnician | frontend/src/components/TechnicianManagement.tsx:94-99 | the entry's name is the saved user's name, its role the form's specialization, its contact the saved user's e-mail |
| TechnicianManagement.HandleSubmit | frontend/src/components/TechnicianManagement.tsx:59-109 | mismatched passwords send nothing and change nothing; otherwise the payload is sent; a failed reply changes nothing; a success appends one entry, resets the form and closes the dialog |
| TechnicianManagement.SubmitGrowsRosterByAtMostOne | frontend/src/components/TechnicianManagement.tsx:59-109 | the old roster stays a prefix; it grows by one iff the passwords match and the reply succeeds, and otherwise stays the same |
| TechnicianManagement.FilteredTechnicians | frontend/src/components/TechnicianManagement.tsx:111-116 | an order-preserving subsequence; an entry is kept iff the lower-cased term occurs in its lower-cased name, role or contact; every copy of a matching entry is kept |
| TechnicianManagement.EmptySearchKeepsAll | frontend/src/components/TechnicianManagement.tsx:111-116 | the empty term keeps every entry |
| TechnicianManagement.AvatarInitials | frontend/src/components/TechnicianManagement.tsx:314-318 | the first two word starts of the name; at most two characters, each a non-space character of the name |
| Dashboard.TodayReports | frontend/src/components/Dashboard.tsx:13-14 | the number of positions whose report's date string equals today's; so at most the number of reports, and zero iff no date matches |
| Dashboard.PendingReports | frontend/src/components/Dashboard.tsx:15 | the number of positions holding a report in status Pendente |
| Dashboard.CompletedReports | frontend/src/components/Dashboard.tsx:16 | the number of positions holding a report in status Concluído |
| Dashboard.BarChartData | frontend/src/components/Dashboard.tsx:19-23 | three bars in the order Pendente, Em Progresso, Concluído; the first and last equal the pending and completed counts |
| Dashboard.StatusCountsSum | frontend/src/components/Dashboard.tsx:15-23 | the three status counts add up to the number of reports |
| Dashboard.BarsSumToReports | frontend/src/components/Dashboard.tsx:19-23 | the bar counts add up to the number of reports |
| Dashboard.DistinctTechnicians | frontend/src/components/Dashboard.tsx:26-29 | pairwise distinct names; a name is listed iff some report has it |
| Dashboard.Bump | frontend/src/components/Dashboard.tsx:27 | the bumped name's value is its old value plus one, or one when new; all other keys and values are unchanged |
| Dashboard.TechnicianReportCounts | frontend/src/components/Dashboard.tsx:26-29 | the keys are the distinct technician names in order of first occurrence; each value is that name's number of reports |
| Dashboard.DistinctCountsSum | frontend/src/components/Dashboard.tsx:26-29 | the per-technician counts of the distinct names add up to the number of reports |
| Dashboard.PieChartData | frontend/src/components/Dashboard.tsx:31-34 | one slice per key, in key order, carrying that key's value |
| Dashboard.PieChart | frontend/src/components/Dashboard.tsx:26-34 | one slice per distinct technician with that technician's count; the values add up to the number of reports |
| Dashboard.RecentReports | frontend/src/components/Dashboard.tsx:166 | the first min(5, n) reports, in order |
| Dashboard.SliceColor | frontend/src/components/Dashboard.tsx:36 | the colour is always one of the four palette entries; below four it is the i-th |
| Dashboard.SliceColorPeriodic | frontend/src/components/Dashboard.tsx:143 | slice i and slice i+4 get the same colour |
| Header.GetInitials | frontend/src/components/Header.tsx:19-26 | the upper-cased first two word starts of the name; at most two characters, none a space, all upper case |
| Header.InitialsOfTwoWords | frontend/src/components/Header.tsx:19-26 | for `first last` the result is the two upper-cased first letters |
| Header.GetRoleLabel | frontend/src/components/Header.tsx:29-35 | `admin` becomes `Administrador`, `technician` becomes `Técnico`, every other string is returned unchanged |
| Header.RoleLabelIdempotent | frontend/src/components/Header.tsx:29-35 | applying the label twice equals applying it once |
| Header.AvatarColour | frontend/src/components/Header.tsx:55-57 | purple iff the role is `admin` |
| Header.ModeIndicator | frontend/src/components/Header.tsx:81-88 | shown iff a user is present; `admin` gives purple and `Modo Administrador`; any other role gives blue and `Modo Técnico` |
| Text.Lower | frontend/src/components/ReportManagement.tsx:88-90 | `toLowerCase`: same length; each character is lower-cased when it is an ASCII capital, and kept otherwise |
| Text.Upper | frontend/src/components/Header.tsx:24 | `toUpperCase`: same length; each character is upper-cased when it is an ASCII small letter, and kept otherwise |
| Text.Split | frontend/src/components/Header.tsx:21 | `split(' ')`: at least one part, and no part contains the separator (with SplitJoin, this pins the split down) |
| Text.IndexOf | frontend/src/components/ReportManagement.tsx:88-90 | the position of the first occurrence of the pattern, or none iff it occurs nowhere |
| Text.ReplaceFirst | backend/src/middleware/auth.ts:8 | with no occurrence the string is unchanged; otherwise exactly the first occurrence is replaced |
| Text.SplitJoin | frontend/src/components/Header.tsx:20-23 | joining the parts of a split with the same separator gives the string back |
| Text.FirstCharsOfSplit | frontend/src/components/Header.tsx:20-23 | the first characters of the split parts are exactly the word starts of the string, with empty parts contributing nothing |
| Ids.Decimal | frontend/src/components/ReportManagement.tsx:77 | `String(n)`: at least one character, all digits, with no leading zero (ParseDecimalOfDecimal is its inverse) |
| Ids.PadStart | frontend/src/components/ReportManagement.tsx:77 | `padStart(width, fill)`: the result is as long as the width or the string, whichever is longer; it ends with the string and is filled before it |
| Ids.ParseDecimalOfDecimal | frontend/src/components/ReportManagement.tsx:77 | the decimal rendering of n parses back to n |
| Ids.SequentialIdNumber | frontend/src/components/ReportManagement.tsx:77 | the digits after the prefix of a generated id read back as count+1, despite the zero padding |
| Ids.SequentialIdInjective | frontend/src/components/TechnicianManagement.tsx:95 | two generated ids are equal iff their counts are equal |
| Hex.Encode | backend/src/services/authentication.service.ts:23 | two lowercase hexadecimal characters per byte |
| Hex.DecodeEncode | backend/src/services/authentication.service.ts:23 | decoding the hexadecimal text gives the bytes back |
| Hex.EncodeInjective | backend/src/services/authentication.service.ts:23 | distinct byte strings give distinct tokens |
| AuthenticationService.LoginDecision | backend/src/services/authentication.service.ts:7-46 | a login succeeds iff the store answers, the e-mail is known, the password verifies and the token is not yet stored; an unreachable store gives the store's error; an unknown e-mail or a wrong password gives `Credenciais inválidas.`; a token already stored gives the store's duplicate error; a failure happens iff no session is written; a session carries the hex token of the random bytes and expires at now plus 24 hours |
| AuthenticationService.UnknownEmailLikeWrongPassword | backend/src/services/authentication.service.ts:14-21 | an unknown e-mail and a wrong password give the same failure, `Credenciais inválidas.`, and no session |
| AuthenticationService.SuccessfulLogin | backend/src/services/authentication.service.ts:23-41 | on success the result's token is the stored token; the session's user is the found user and it expires after 86 400 000 ms; the result has id, name, e-mail and the role's name, and no password |
| AuthenticationService.Login | backend/src/services/authentication.service.ts:7-46 | applies the decision; the session table gains exactly that session on success and is unchanged on every failure |
| AuthenticationService.TokenShape | backend/src/services/authentication.service.ts:23 | a login token has 60 characters, all in `0-9a-f`, and decodes back to the 30 random bytes |
| AuthenticationService.RemoveSessions | backend/src/services/authentication.service.ts:47-50 | every session with the token is removed; every other session is kept, in order and as many times as it occurs |
| AuthenticationService.RemoveSessionsIdempotent | backend/src/services/authentication.service.ts:47-53 | logging out the same token twice leaves the table as once |
| AuthenticationService.RemoveSessionsAbsent | backend/src/services/authentication.service.ts:47-53 | an unknown token leaves the table unchanged |
| AuthenticationService.Logout | backend/src/services/authentication.service.ts:47-53 | always answers the same message when the store answers, deleting the token's sessions; a store failure changes nothing |
| AuthMiddleware.ExtractToken | backend/src/middleware/auth.ts:8 | no header gives no token; otherwise the header with only the first `Bearer ` removed, wherever it stands |
| AuthMiddleware.ExtractTokenFromBearerHeader | backend/src/middleware/auth.ts:8 | `Bearer t` gives `t` |
| AuthMiddleware.BareBearerIsNoToken | backend/src/middleware/auth.ts:8-12 | the header `Bearer ` leaves an empty token, which counts as missing |
| AuthMiddleware.UserOfSession | backend/src/middleware/auth.ts:14-17 | the session's user row together with its role |
| AuthMiddleware.Authenticate | backend/src/middleware/auth.ts:6-30 | missing token gives 401 `Token não fornecido.`; a store failure gives 401 `Autorização falhou.`; an unknown or expired (`expiresAt < now`) session gives 401 `Token inválido ou expirado.`; otherwise `next` runs with the session's user and role |
| AuthMiddleware.LoginSessionWindow | backend/src/middleware/auth.ts:19 | a session made by a login at time t is accepted iff now <= t + 24 hours, the boundary instant included |
| AuthMiddleware.LoggedOutTokenRejected | backend/src/middleware/auth.ts:14-21 | after logout the same bearer header is refused as invalid |
| AuthController.LoginResponse | backend/src/controllers/auth.controller.ts:15-22 | a success is 200 with the service's result unchanged; a failure is 400 with the error's message |
| AuthController.LoginUser | backend/src/controllers/auth.controller.ts:4-23 | a missing or empty e-mail or password gives 400 `Email e password são obrigatórios.` and no session; otherwise the service's decision mapped by LoginResponse |
| AuthController.SameResponseForBothCredentialFailures | backend/src/controllers/auth.controller.ts:19-22 | an unknown e-mail and a wrong password give the identical response |
| AuthController.LogoutUser | backend/src/controllers/auth.controller.ts:25-36 | no usable token gives 401 `Token ausente.` and no change; otherwise 200 with the logout message and the token's sessions deleted; a store failure gives 400 |
| TechnicianService.RoleLookupName | backend/src/services/technician.service.ts:38 | a non-empty given role is used; a missing or empty one falls back to `Technician` |
| TechnicianService.ContactRows | backend/src/services/technician.service.ts:52-60 | one row per input contact, in order, each owned by the new user with the contact's phone and type |
| TechnicianService.UpsertedSpecialization | backend/src/services/technician.service.ts:30-34 | the specialization has the name; an existing one is returned as it is; a new one gets the next id |
| TechnicianService.UpsertLeavesExactlyOne | backend/src/services/technician.service.ts:30-34 | after the upsert exactly one specialization has the name, the table stays valid, and a second upsert changes nothing |
| TechnicianService.UpsertSpecialization | backend/src/services/technician.service.ts:30-34 | the table becomes the upserted table; an existing record is not modified; the counter advances only on creation; the returned row is in the table |
| TechnicianService.InsertTechnician | backend/src/services/technician.service.ts:42-72 | appends the user, its contact rows and one technician row linking the user id to the specialization id; the user and technician counters each advance by one; integrity, new foreign keys included, is kept |
| TechnicianService.InsertKeepsIntegrity | backend/src/services/technician.service.ts:42-72 | the new user with a fresh e-mail and an existing role, its contacts and its link to an existing specialization keep the user, session, contact and technician tables valid |
| TechnicianService.CreateTechnician | backend/src/services/technician.service.ts:20-75 | see below |
| TechnicianController.ContactsFromPhone | backend/src/controllers/technician.controller.ts:9-11 | a truthy phone gives exactly one `Principal` contact; a missing or empty phone gives none |
| TechnicianController.RoleIsAlwaysDefault | backend/src/controllers/technician.controller.ts:13-19 | whatever role the request body names, none is forwarded, so the service always looks up `Technician` |
| TechnicianController.ForwardedInput | backend/src/controllers/technician.controller.ts:13-19 | name, e-mail, password and specialization are forwarded unchanged; contacts are adapted; no role is forwarded |
| TechnicianController.ContactRowsOfBody | backend/src/controllers/technician.controller.ts:9-19 | a truthy phone writes one contact row; otherwise none is written |
| TechnicianController.AddTechnician | backend/src/controllers/technician.controller.ts:4-26 | 201 with the created record or 400 `{error}` with the service's message; the store effects, counters included, are those of the service with the default role looked up |
| ReportController.GetReports | backend/src/controllers/report.controller.ts:7-14 | 200 with every stored report, unfiltered and in order; 500 `Erro ao buscar relatórios.` when the store fails |
| ReportController.NewReportRow | backend/src/controllers/report.controller.ts:25-27 | the stored row has the next id, the body's title and status, and nothing else |
| ReportController.OtherFieldsIgnored | backend/src/controllers/report.controller.ts:19 | two bodies that agree on title and status store the same row |
| ReportController.CreateReport | backend/src/controllers/report.controller.ts:17-36 | a missing or empty title or status gives 400 `Título e status são obrigatórios.` and no write; a store failure gives 500 `Erro ao criar relatório.`; otherwise one appended row, the counter advanced by one, and 201 with the message and the row |
| Seed.UpsertedRoles | backend/prisma/seed.ts:6-22 | an existing role name leaves the table unchanged; otherwise one row with the name and description is appended |
| Seed.UpsertRoleFacts | backend/prisma/seed.ts:6-22 | after an upsert the role is found and the table stays valid; a created role has the seed's description; other found roles are unchanged |
| Seed.SeedFindsBothRoles | backend/prisma/seed.ts:6-22 | after the seed both roles are found and earlier rows are a prefix; newly created roles carry their descriptions |
| Seed.SeedCreatesBothRoles | backend/prisma/seed.ts:6-22 | after the seed `Technician` and `Admin` each exist exactly once; a store that has both already is left unchanged |
| Seed.SeedTwiceChangesNothing | backend/prisma/seed.ts:6-22 | a second run of the seed leaves the role table as the first run left it |
| Seed.UpsertRole | backend/prisma/seed.ts:6-13 | the role table becomes the upserted table, with the counter advanced only on creation |
| Seed.SeedRoles | backend/prisma/seed.ts:6-22 | the two upserts in order: the role table becomes the seeded table, the counter becomes the seeded counter (advanced once per created role), and integrity is kept |
| Seed.Seed | backend/prisma/seed.ts:5-25 | an unreachable store is left unchanged; otherwise the roles become the seeded table and the counter the seeded counter |

`TechnicianService.CreateTechnician` states:

- An unreachable store or an e-mail already in use gives an error and leaves the store unchanged.
- Otherwise the specialization upsert happens and leaves exactly one specialization with that name. The specialization counter advances only when the row is created.
- A missing role gives `Role 'Technician' não encontrada. Insira na tabela Role.`. No user, contact or technician row is written and the user and technician counters stay, but the specialization stays.
- On success:
  - exactly one user (name, e-mail, hash, role id) is appended;
  - its contact rows are appended;
  - exactly one technician row is appended;
  - the user and technician counters each advance by one;
  - the record holding them is returned.

## Left out

- The JSX rendering, the Sidebar, Settings and Login screens, and the fetch of the login screen are not modelled. They hold no logic beyond what is modelled here.
- Routing wiring is not modelled:
  - `backend/src/server.ts:19-20` mounts the report and technician routers only, so the auth controller is never reached over HTTP.
  - The auth middleware is attached to no route.
  - `backend/src/routes/technician.routes.ts` calls the service directly with the raw body and answers 400 `{ message }`, bypassing the controller.
  - These are facts of composition, and each piece is modelled on its own.
- Not present in the code, so not modelled: role-filtered report listing, forcing a technician's report onto themself, and an admin-only delete.
- Network, I/O and the clock are parameters:
  - the reply of the technician screen's fetch is the `answer` option;
  - `new Date().toISOString().split('T')[0]`, the date part of the current instant, is the `today` string;
  - `Date.now()` is `now`.
- Hashing and randomness are parameters:
  - `bcrypt.compare` is the `verify` predicate;
  - `bcrypt.hash` is the `hashedPassword` argument;
  - `crypto.randomBytes(30)` is the `random` bytes.
- Store failures:
  - A store failure is modelled as `reachable == false`, detected at the operation's first query.
  - A failure midway through a sequence of writes is not modelled. There are no transactions, and concurrent requests are not modelled.
  - The error text of a failed store call belongs to the data-access client. It is modelled as the constant `Store.StoreFailure`, and a duplicate token as `AuthenticationService.DuplicateToken`.
- Only the table columns the core reads or writes are modelled.
- Scalar body fields are strings or absent. Non-string values in them (numbers, objects, `null`) are not modelled.
- TechnicianService.CreateTechnician: `contacts` is either a list or absent. A `null` list is not modelled. In the source, `null` escapes the `= []` default (backend/src/services/technician.service.ts:21). Reading its length at line 52 then throws, after the user row was created at line 42.
- TechnicianController.AddTechnician: `name`, `email`, `password` and `specialization` are always present strings. A body without one of them is not modelled. In the source the missing value is forwarded as `undefined` (backend/src/controllers/technician.controller.ts:6). The store call or the hash that receives it then throws, and the controller answers 400. When the hash throws (backend/src/services/technician.service.ts:37), the specialization row has already been written.
- Text.Lower: maps ASCII letters only; Unicode case tables are outside the model.
- Text.Upper: maps ASCII letters only, for the same reason.
- Header.GetInitials: upper-cases ASCII letters only, for the same reason.
- ReportManagement.FilteredReports: compares with ASCII lower-casing only, for the same reason.
- TechnicianManagement.FilteredTechnicians: compares with ASCII lower-casing only, for the same reason.
- ReportManagement.GetStatusBadge: the lookup table is modelled as holding only its three keys, so every other string gets the Pendente style. In the source the parameter is any string (frontend/src/components/ReportManagement.tsx:93), and an inherited property name such as `toString` looks up a function there. A function is truthy, so that string does not get the Pendente style, which the model does not capture.
- Header.GetInitials: a name part's first character is one Dafny character. JavaScript's `n[0]` takes one UTF-16 code unit, so a part that starts with a character outside the Basic Multilingual Plane (an emoji) gives half a surrogate pair there.
- TechnicianManagement.AvatarInitials: the same holds for `n[0]`, and `slice(0, 2)` also counts UTF-16 code units (frontend/src/components/TechnicianManagement.tsx:314-318).
- Header.GetRoleLabel: the lookup table is modelled as holding only its two keys. In JavaScript an inherited property name such as `constructor` would yield a non-string.
- Dashboard.TechnicianReportCounts: the tally is modelled as a map with no inherited keys. In the source the accumulator is the plain object `{}` (frontend/src/components/Dashboard.tsx:26-29). A technician named `constructor` (or any other `Object.prototype` property) starts from that property's value, not 0, so its entry becomes a string. A technician named `__proto__` is never recorded. The model counts both names like any other.
- Dashboard.PieChartData: inherits the plain-object edge cases of Dashboard.TechnicianReportCounts. In the source `Object.entries` never yields a `__proto__` slice, because the tally never records that key; the model yields one.
- Dashboard.PieChart: inherits the same plain-object edge cases.
- Dashboard.PieChart: keys keep insertion order. `Object.entries` lists integer-like keys first in numeric order, which is not modelled.
- Dashboard.PieChart: the percentage labels are floating point and are left out.
- The date formatting of the report screen and the `isDialogOpen` flag of the report screen are not modelled beyond the submit's reset.
- `createTechnician` returns the stored user row, password hash included. The model returns it as the source does.
- Two behaviours of the code are modelled as they are, not in a stricter form:
  - `ReportController.CreateReport` requires `title` and `status` only. A report body without a description, technician or date is stored.
  - `AuthMiddleware.Authenticate` rejects only when `expiresAt < now`, so a session is still accepted at its expiry instant.

## Findings

| source | as written | input that shows it | evidently intended | confidence | as-written member | corrected member |
|---|---|---|---|---|---|---|
| frontend/src/components/ReportManagement.tsx:77 | the new id is `RPT-` plus the current list length plus one | reports [RPT-001, RPT-002]; delete RPT-001; the next id is RPT-002, which is still in the list | a new id differs from every id in the list | not executed | ReportManagement.IdCollisionAfterDelete | ReportManagement.FreshReportIdUnused |

The corrected generator is `ReportManagement.FreshReportId`: one past the largest `RPT-` number in use. `ReportManagement.HandleSubmit` keeps the as-written generator, so the screen is modelled as the code behaves. The same count-based scheme generates `TECH-` ids (frontend/src/components/TechnicianManagement.tsx:95). Technicians cannot be deleted, so there the scheme does not collide.
