# Social-assistance portal: a Dafny model of its store, routes and page logic

The system is a municipal social-assistance application. A small Express
API keeps beneficiaries, programs, enrolments and appointments in SQLite.
React pages sit on top of it: a server's kanban board, a secretary's
dashboard, a beneficiary portal and a login form. A client-side router
decides which page each role sees.

This project models that core in Dafny as immutable data and pure
functions:

- **Store** (`schema.dfy`). The four tables are sequences of rows in rowid
  order, plus the AUTOINCREMENT counters. The constraints the schema makes
  SQLite enforce are the invariant `Schema.Valid`. Foreign keys are declared
  but never switched on, so they are not part of it.
- **Routes** (`beneficiaries.dfy`, `programs.dfy`, `appointments.dfy`,
  `reports.dfy`). Each HTTP handler is a function from a store and a request
  to a `Reply`: the new store and either a value or a `DbError`.
  - Constraint errors follow SQLite's order: NOT NULL checks in column
    order, then UNIQUE.
  - An UPDATE or DELETE that matches no row reports 0 changes and checks
    no constraint.
  - Request fields follow JavaScript truthiness where the handler tests
    them (`if (!name)`, `if (search)`): an empty string counts as absent.
  - Driver failures are an explicit parameter only where they change what
    happens: the program delete's two statements (`ProgramRoutes.DeleteFault`)
    and the report's four sub-queries (`ReportRoutes.Stats`).
- **Route interplay** (`interplay.dfy`). Deleting a beneficiary cascades
  nothing. Its appointments stay in the table and keep counting in the
  report's total, but the listing's inner join hides them. A program delete
  changes no other program's figure.
- **Pages** (`serverdashboard.dfy`, `secretarydashboard.dfy`,
  `portal.dfy`, `loginform.dfy`, `approuter.dfy`). Each handler or derived
  list is a pure function of the page state. Whether a request succeeded is
  a parameter.
- **Helpers** (`wrappers.dfy`, `seqs.dfy`, `text.dfy`, `sorting.dfy`,
  `numerals.dfy`). These hold `Option`/`Result`, an order-keeping `Filter`
  with a complete contract, substring search, code-point string order (the
  BINARY collation), an insertion sort, and decimal numerals.

Two client/server mismatches are stated as lemmas rather than reconciled:

- The kanban board's create form sends no `time`. The API's `time` column
  is NOT NULL, so every appointment the form submits is refused
  (`ServerDashboard.DashboardCreateIsRefused`).
- The role type also admits `coordenador`, but the router has no branch for
  it. Such a user is redirected from every path to `/`, and from `/` to `/`
  again (`AppRouter.UnknownRoleNeverSettles`).

The board also patches `/appointments/:id/status` and fetches
`/appointments/server`, and the API has neither route. The board's requests
are therefore modelled only as the requests it sends.

The beneficiary portal imports six client functions from `services/api.ts`
that the file does not define: the course, forum and job fetches, the
enrolment, the post creation and the job application. As written, those
requests cannot complete, and each handler's failure path is the one taken.
The portal model takes each request's outcome as a parameter, so its success
branches describe the behaviour once those client functions exist.

The API checks no token. The only enrolment writes are the program
delete's cleanup. New appointments get `Agendado`. The listing orders by
date and time.

## Model

| member | source | states |
|---|---|---|
| Schema.EmptyStoreValid | api/index.js:20-71 | A freshly created database meets every constraint of the schema |
| BeneficiaryRoutes.Search | api/index.js:75-95 | With no term or an empty term the whole table is listed; otherwise exactly the rows whose name or cpf contains the term, each as often as stored, in table order |
| BeneficiaryRoutes.Get | api/index.js:98-112 | Succeeds exactly when a row has the key and returns that row; otherwise answers not-found |
| BeneficiaryRoutes.Create | api/index.js:115-129 | A missing name, then a missing cpf, then a cpf some row already holds each fail and leave the store unchanged; a body with name and cpf whose cpf no row holds always succeeds; a success appends exactly the body's row under the next key and changes nothing else |
| BeneficiaryRoutes.Update | api/index.js:132-155 | An unknown id changes nothing and reports 0; a missing name or cpf, or a cpf held by another row, fails with the store unchanged; an existing id with name and cpf present and the cpf free among the other rows always reports 1, and then exactly that row is rewritten with the body and nothing else changes |
| BeneficiaryRoutes.Delete | api/index.js:158-168 | Never fails; removes exactly the rows with that key, keeps the others in order, reports how many went, and touches no other table |
| BeneficiaryRoutes.CreatePreservesValid | api/index.js:20-28 | A create keeps keys ascending and cpfs unique |
| BeneficiaryRoutes.CreateThenGet | api/index.js:115-129 | Fetching the key a successful create returned reads back the row the body described |
| BeneficiaryRoutes.UpdatePreservesValid | api/index.js:132-155 | An update keeps keys in place and cpfs unique |
| BeneficiaryRoutes.DeletePreservesValid | api/index.js:158-168 | A delete keeps every constraint |
| BeneficiaryRoutes.DeleteReportsOneChange | api/index.js:158-168 | On a valid store a delete reports 1 exactly when the key existed, and a later fetch of it is not-found |
| ProgramRoutes.List | api/index.js:174-186 | Every program exactly as often as stored, sorted by name in code-point order |
| ProgramRoutes.Create | api/index.js:189-205 | A missing or empty name is refused before the store is read; a name another program holds is refused; any other name always succeeds, appending one program with that name under the next key and changing nothing else |
| ProgramRoutes.Rename | api/index.js:208-226 | The name guard comes first, even for an unknown id; an unknown id then reports 0 with no change; a name another program holds is refused; an existing id with a name no other program holds always reports 1, and exactly that program is renamed |
| ProgramRoutes.WithoutEnrolmentsOf | api/index.js:232 | Exactly the enrolments of other programs remain, in order |
| ProgramRoutes.WithoutProgram | api/index.js:237-238 | Exactly the programs with another key remain, in order |
| ProgramRoutes.Delete | api/index.js:229-246 | If the cleanup fails nothing changes; otherwise the program's enrolments go and all others stay; if the row delete then fails the programs are untouched; otherwise the program goes and the count removed is reported; beneficiaries and appointments never change |
| ProgramRoutes.CreatePreservesValid | api/index.js:31-34 | A create keeps program keys ascending and names unique |
| ProgramRoutes.RenamePreservesValid | api/index.js:31-34 | A rename keeps keys in place and names unique |
| ProgramRoutes.DeletePreservesValid | api/index.js:229-246 | Whichever step fails, a program delete leaves a store meeting every constraint |
| ProgramRoutes.DeleteReportsOneChange | api/index.js:229-246 | On a valid store a completed delete reports 1 exactly when the program existed |
| AppointmentRoutes.Create | api/index.js:368-382 | A missing beneficiary id, date or time fails in that order with the store unchanged; otherwise the row built from the body's beneficiary id, server id, date, time and reason is appended under the next key with status `Agendado`, whatever status the body carries; the beneficiary is never looked up, and the reply echoes the body |
| AppointmentRoutes.UpdateStatus | api/index.js:385-400 | Writes the given status, or NULL, into the row with that key and into no other column or row; reports 1 exactly when the key exists |
| AppointmentRoutes.SlotLeIsTotalPreorder | api/index.js:356 | Ordering by date and then time is total and transitive |
| AppointmentRoutes.ShownAppointments | api/index.js:343-354 | Keeps exactly the appointments in scope whose beneficiary row exists, each as often as stored |
| AppointmentRoutes.ShownRows | api/index.js:338-345 | One joined row per kept appointment, at the same position, carrying its beneficiary's name and id |
| AppointmentRoutes.List | api/index.js:336-365 | The joined rows are sorted by date and then time and are a permutation of the kept appointments' rows; every kept appointment appears and nothing else does |
| AppointmentRoutes.ServerScopeWins | api/index.js:348-354 | Once a server id is given, the beneficiary id has no effect on the listing |
| AppointmentRoutes.CreatePreservesValid | api/index.js:62-71 | A create keeps appointment keys ascending and under the counter |
| AppointmentRoutes.UpdateStatusPreservesValid | api/index.js:385-400 | A status update keeps every constraint |
| ReportRoutes.Bump | api/index.js:409 | Counting one more row adds one to its status's group, or opens a group of one, and keeps groups distinct |
| ReportRoutes.GroupByStatus | api/index.js:409 | One group per status value present, NULL included; no empty group; each group's count is the number of rows with that status; the counts sum to the row count |
| ReportRoutes.CountEnrolledIsDistinctBeneficiaries | api/index.js:37-43 | Under the composite key, a program's enrolment count equals its number of distinct enrolled beneficiaries |
| ReportRoutes.ProgramCounts | api/index.js:410-415 | One entry per program with that program's name and number of enrolment rows |
| ReportRoutes.FirstFailure | api/index.js:422-429 | Picks a sub-query that actually failed |
| ReportRoutes.Stats | api/index.js:405-445 | A report exists exactly when no sub-query fails, and any failure is an error naming a failing sub-query; the two totals are the row counts; the status groups and the per-program figures are as above |
| ReportRoutes.ProgramFiguresCountBeneficiaries | api/index.js:410-415 | On a valid store each program's figure is its number of distinct enrolled beneficiaries |
| ReportRoutes.UnenrolledProgramReportsZero | api/index.js:410-415 | A program nobody is enrolled in is still reported, with 0 |
| RouteInterplay.BeneficiaryDeleteOrphansAppointments | api/index.js:158-168 | Deleting a beneficiary leaves the appointment table and total unchanged, yet no listed row belongs to them any more |
| RouteInterplay.CleanupKeepsOtherCounts | api/index.js:232 | Removing one program's enrolments changes no other program's count |
| RouteInterplay.ProgramDeleteKeepsOtherFigures | api/index.js:229-246 | After a completed program delete, that program is gone and every remaining program has the same figure as before |
| ServerDashboard.Column | pages/ServerDashboardPage.tsx:282-284 | A column holds exactly the tasks with its status, each as often as fetched, in fetched order |
| ServerDashboard.Unplaced | pages/ServerDashboardPage.tsx:282-284 | The tasks whose status is none of the three, each as often as fetched |
| ServerDashboard.Columns | pages/ServerDashboardPage.tsx:282-284 | The three columns hold exactly their statuses' tasks in fetched order, are pairwise disjoint, and a task with any other status is in none |
| ServerDashboard.BadgesAccountForEveryTask | pages/ServerDashboardPage.tsx:111 | The three badges plus the unplaced tasks add up to the number of fetched tasks |
| ServerDashboard.MoveOptions | pages/ServerDashboardPage.tsx:79-81 | The menu offers exactly the three statuses other than the current one, in column order (Pendente, Em Andamento, Realizado): two for a task in a column, three for any other |
| ServerDashboard.StatusChange | pages/ServerDashboardPage.tsx:26-39 | Without a token nothing happens; with one, exactly the status patch for that task is sent, the board refetches only on success, and the menu closes |
| ServerDashboard.ToNumber | pages/ServerDashboardPage.tsx:158 | The empty value converts to 0 and a run of digits to its value |
| ServerDashboard.OptionValueConvertsBack | pages/ServerDashboardPage.tsx:188 | A beneficiary option's value, the id written out, converts back to that id |
| ServerDashboard.CreatePayload | pages/ServerDashboardPage.tsx:150-162 | Nothing is sent without a token; otherwise the form's fields, with the beneficiary id converted to a number |
| ServerDashboard.ApiBody | pages/ServerDashboardPage.tsx:156-160 | The payload as the create route reads it has no time, and a beneficiary id exactly when the conversion gave a number |
| ServerDashboard.DashboardCreateIsRefused | pages/ServerDashboardPage.tsx:150-162 | The create route refuses every payload the form sends and leaves the store unchanged; with a numeric id the error is the missing time |
| ServerDashboard.Preview | pages/ServerDashboardPage.tsx:87 | The text before the card's always-appended "...": a prefix of the description of at most 70 characters, the whole description when it is that short |
| SecretaryDashboard.GroupCountIsFirstMatch | pages/SecretaryDashboardPage.tsx:63 | The completed figure is the count of the first group with that status, and 0 when none has it |
| SecretaryDashboard.Project | pages/SecretaryDashboardPage.tsx:59-68 | Totals pass through; a missing family count or engagement reads 0; the completed figure is the first `Realizado` group's count or 0; both lists map element-wise in order, and a missing list becomes empty |
| SecretaryDashboard.Received | api/index.js:433-441 | The report reaches the page with its four keys and none of the optional ones |
| SecretaryDashboard.CardsReflectStore | pages/SecretaryDashboardPage.tsx:113-116 | Against a successful report the cards show the beneficiary count, no families, the number of `Realizado` appointments and, through the left join, the number of programs |
| AppRouter.Route | App.tsx:14-50 | A page is shown exactly at its own path and only to its own audience; nobody signed in is sent to `/login`; a signed-in user at `/login` goes to `/`; a known role at `/` goes to its page; anything else goes to `/` |
| AppRouter.Home | App.tsx:23-40 | Each known role, and nobody, has a page whose audience it is |
| AppRouter.EveryPathSettles | App.tsx:16-47 | From any path, nobody and every known role reach their own page within two redirects |
| AppRouter.UnknownRoleNeverSettles | App.tsx:41 | A role without a branch is redirected to `/` however many redirects are followed |
| LoginForm.DigitsOnly | pages/LoginPage.tsx:48 | The result is the input's digits in order: only digits, each digit as often as in the input, a subsequence no longer than the input, an all-digit input unchanged |
| LoginForm.DigitsOnlyIdempotent | pages/LoginPage.tsx:48 | Filtering twice is filtering once |
| LoginForm.CpfField | pages/LoginPage.tsx:48-51 | The stored CPF is the digits, in order, of the first 11 characters typed: digits only, at most 11 of them, a subsequence of what was typed |
| LoginForm.BeginSubmit | pages/LoginPage.tsx:12-17 | A submit clears the error and shows loading, sending the fields as they are |
| LoginForm.FinishSubmit | pages/LoginPage.tsx:16-22 | Loading always ends; a rejection shows the fixed message and a sign-in leaves the error as it was |
| LoginForm.FailureMessageIgnoresCause | pages/LoginPage.tsx:12-23 | After a whole submit, what the user reads does not depend on why the sign-in failed |
| BeneficiaryPortal.EnrolledCourses | pages/BeneficiaryPortalPage.tsx:90 | Exactly the fetched courses whose id is enrolled, each as often as fetched, in fetched order |
| BeneficiaryPortal.AvailableCourses | pages/BeneficiaryPortalPage.tsx:91 | Exactly the fetched courses whose id is not enrolled, each as often as fetched, in fetched order |
| BeneficiaryPortal.CoursesPartition | pages/BeneficiaryPortalPage.tsx:90-91 | Every fetched course is in exactly one of the two lists, and their lengths add up |
| BeneficiaryPortal.Record | pages/BeneficiaryPortalPage.tsx:78-87 | With a token and a successful request the id is appended; otherwise the list is unchanged |
| BeneficiaryPortal.EnrolMovesOneCourse | pages/BeneficiaryPortalPage.tsx:78-91 | A successful enrolment moves that course from available to enrolled and leaves every other course where it was |
| BeneficiaryPortal.Unlocked | pages/BeneficiaryPortalPage.tsx:30-56 | An achievement shows unlocked exactly when the level reaches its threshold, so the unlocked ones form a prefix |
| BeneficiaryPortal.UnlockedMonotone | pages/BeneficiaryPortalPage.tsx:56 | A higher level never locks an achievement |
| BeneficiaryPortal.ButtonFor | pages/BeneficiaryPortalPage.tsx:212-213 | A job's button is disabled and reads "Candidatura Enviada" exactly when the job was applied to |
| BeneficiaryPortal.ApplyDisablesOnlyThatJob | pages/BeneficiaryPortalPage.tsx:187-213 | After a successful application that job's button is disabled and every other job's is unchanged |
| BeneficiaryPortal.SubmitPost | pages/BeneficiaryPortalPage.tsx:141-150 | With a token, a title and content, the created post goes first and the inputs clear; otherwise, or when the request fails, nothing changes |
| BeneficiaryPortal.SubmitKeepsEveryPost | pages/BeneficiaryPortalPage.tsx:141-150 | A submit applied to the current list never loses a post: the earlier posts stay in order and at most one is added |
| BeneficiaryPortal.OverlappingSubmitsLoseAPost | pages/BeneficiaryPortalPage.tsx:141-147 | Two submits from the same render: the first write shows its post, and the second write, built from the same rendered list, no longer contains it |
| BeneficiaryPortal.SubmitBeforeFetchDropsFetched | pages/BeneficiaryPortalPage.tsx:139-147 | A submit rendered before the mount fetch answered leaves only the new post, dropping every fetched one |
| BeneficiaryPortal.Displayed | pages/BeneficiaryPortalPage.tsx:247 | The first tab whose id is the active one decides the view, and none is shown when no tab has that id |
| BeneficiaryPortal.TabsShowTheirViews | pages/BeneficiaryPortalPage.tsx:223-247 | The portal opens on the profile, and each tab shows its own view |

## Left out

- BeneficiaryRoutes.Search: SQLite `LIKE` folds ASCII case and treats `%` and `_` in the term as wildcards; the model matches plain substrings.
- ReportRoutes.GroupByStatus: lists groups in order of first appearance. SQL does not fix the order of `GROUP BY` output, so the contract states contents and counts only.
- ReportRoutes.Stats: lists program figures in table order; SQLite usually emits `GROUP BY p.name` groups in name order. Names are unique, so the contents are the same either way.
- ReportRoutes.Stats: the four sub-queries run concurrently and the first error to arrive is answered. The model picks a failing sub-query deterministically.
- ServerDashboard.ToNumber: only the empty string and runs of decimal digits are modelled. Other strings `Number` accepts (signs, spaces, decimals, exponents, hex) are NaN here; a `<select>` of ids never produces them.
- BeneficiaryPortal.SubmitPost: each submit is one step from the state the page was rendered with, because the write uses the rendered `posts` rather than an updater. Overlapping submits, or a submit sent before the mount fetch answers, can lose posts; the two lemmas after SubmitKeepsEveryPost exhibit both.
- ServerDashboard.Preview: counts code points; JavaScript's `substring` counts UTF-16 units.
- LoginForm.CpfField: models the browser's `maxLength` as keeping the first 11 characters of what was typed.
- AppRouter.Route: paths match exactly; the router's case-insensitive matching and trailing-slash tolerance are not modelled.
- BeneficiaryRoutes.Create: the reply is `{ id: lastID, ...req.body }`, so a body carrying its own `id` key overrides the new key in the reply; the store is unaffected. The body type holds only the columns the handler reads, so the modelled reply is always the new key.
- AppointmentRoutes.Create: the same spread means a body with an `id` key overrides the new key in the echoed reply. The body type has no `id` field, so `Created.id` is always the new key.
- Error texts: SQLite's messages are reduced to the failing column (`DbError`). HTTP status codes and the JSON envelopes are not modelled.
- Driver failures other than the program delete's two statements and the report's sub-queries: every other route then answers an error with the store unchanged, which is not stated separately.
- The news routes, the CadÚnico lookup and the seed data in api/index.js (lines 249-330 and 448-523): no constraint beyond NOT NULL or a keyed lookup.
- server/index.js is not part of this model: it is an older subset of the same schema with one list route.
- Sign-in, sessions and tokens (the auth context and the API client): I/O and local storage. A token is a parameter, and "has a token" is JavaScript truthiness of it.
- Data fetching on mount, toasts, the click-outside handler, form validation, rendering, animation and charts.
- The progress bar's percentage and the schedule page's date arithmetic: floating point and a date library.
- The other admin and schedule pages: they are forms over the routes modelled here.
