# Leave tracker: a Dafny model

This project models the core of LMS, an employee leave-request tracker with an Express/Mongoose
backend and a React frontend. Employees apply for leave. HR approves or rejects each pending
request exactly once. Dashboards count requests by status and list who is on approved leave today.

The model covers:

- **The leave record** (`backend/models/Leave.js`): the datatype `LeaveModel.Leave`, its three
  enumerations, the `duration` minimum of 0.5, the trimmed text fields, and the defaults of `status`,
  the review fields and `appliedAt`. The `durationUnit` default of `days` never applies to a
  record created through the route, because the route's validator refuses a missing unit
  (backend/routes/leaves.js:22-24); the model has no separate default for it.
- **The leave routes** (`backend/routes/leaves.js`):
  - the create validator chain, in which every failing check is reported in chain order;
  - the date checks that follow the chain;
  - approval and rejection, which are one-way and leave every other record alone;
  - the access rule for reading one record;
  - the `my-leaves`, `all` and `today` queries.

  The database is the class `Leaves.LeaveStore`, a map from id to record. Its methods
  `Create`, `Approve` and `Reject` are proved against the pure functions `NewLeave`,
  `ApproveRecord` and `RejectRecord`. They keep the store invariant `StoreValid`: ids are handed
  out in order, and every record is well formed. A record is well formed when:
  - the schema accepts it;
  - its start comes before its end;
  - its reviewer and review time are set exactly when it has left `pending`;
  - it has no HR comment while it is `pending` (a decided record may have none);
  - a rejection reason exists exactly on rejected records.
- **The statistics routes** (`backend/routes/users.js`): personal and organisation-wide counts,
  today's approved leaves, and the password-free employee listing sorted by name.
- **Registration and login** (`backend/routes/auth.js`): the validators, the duplicate check on
  email and employee ID (the table `Auth.UserTable` keeps both unique), the role default, and
  the single "invalid credentials" answer.
- **The client pages**:
  - `ApplyLeave.tsx` and its copy in `frontend/js/app.js`: the inclusive day count and the
    ordered submit checks;
  - `app.js`: the register page's password checks and payload, `getStatusText`, and the
    admin pending queue;
  - `ManageLeaves.tsx`: tabs, counters and the rejection dialog.

Times are integers (milliseconds since the epoch). "Now" and "local midnight today" are
parameters.

Four behaviours of the code are easy to miss, and the model states them as the code has them:

- There is no edit route and no cancel route. The only status changes are pending → approved
  and pending → rejected.
- The server stores the duration the client sends. It never recomputes it and never converts
  days to hours (`NewLeave`, `ApplyLeaveForm.NoHoursConversion`).
- The "today" window of `/today` and `/admin-stats` is the single instant of local midnight.
  The `tomorrow` value the routes compute is never used, so a leave that starts later that day
  is not listed (`Leaves.TodayMissesLeaveStartingAfterMidnight`).
- The past-date check compares the start with the current instant, not with the start of the
  day (`ApplyLeaveForm.TodayRefusedAfterMidnight`).

## Model

| member | source | states |
|---|---|---|
| LeaveModel.ParseLeaveType | backend/models/Leave.js:10-14 | a string is accepted as a leave type exactly when it names one of sick, vacation, personal, emergency, other, and the accepted type has that name |
| LeaveModel.ParseDurationUnit | backend/models/Leave.js:28-32 | exactly "hours" and "days" are accepted as a duration unit |
| LeaveModel.Fresh | backend/models/Leave.js:38-61 | a newly built record has the default status `pending`, no comment, rejection reason, reviewer or review time, and `appliedAt` equal to the creation instant |
| LeaveModel.OptionTrimmed | backend/models/Leave.js:43-50 | an optional text field is acceptable exactly when the schema's trim leaves it as it is |
| LeaveModel.SchemaValid | backend/models/Leave.js:23-50 | the schema accepts a record exactly when its duration is at least 0.5, its reason is non-empty, and trimming the reason, the comment and the rejection reason changes none of them |
| LeaveModel.StatusCountsSum | backend/models/Leave.js:38-42 | since every record has exactly one of the three statuses, the three status counts of any list add up to its length |
| Leaves.FieldErrors | backend/routes/leaves.js:15-35 | every check of the validator chain runs; the reported errors are exactly the failing checks, and the list is empty exactly when the request passes the whole chain |
| Leaves.NewLeave | backend/routes/leaves.js:32-66 | outcomes in route order: validation errors, then "end date must be after start date" iff start ≥ end, then "cannot apply in the past" iff start < now, then a server error iff duration < 0.5; otherwise a pending record owned by the caller with the client's type, dates, duration and unit unchanged, the reason trimmed, `appliedAt` = now, and well formed |
| Leaves.ApprovedLeave | backend/routes/leaves.js:162-165 | approval writes status `approved`, the trimmed comment, the reviewer and the time, changes no other field, and keeps a well-formed pending record well formed |
| Leaves.RejectedLeave | backend/routes/leaves.js:215-219 | rejection writes status `rejected`, the reason, the trimmed comment, the reviewer and the time, changes no other field, and keeps a well-formed pending record well formed when the reason is trimmed and at least 5 long |
| Leaves.ApproveRecord | backend/routes/leaves.js:149-165 | not found iff the id is absent; "already processed" iff the record is not pending; otherwise the same keys, and only that record changes, to `approved` with the trimmed comment, the reviewer and the review time |
| Leaves.RejectRecord | backend/routes/leaves.js:189-219 | the trimmed reason is checked first (shorter than 5 fails before any lookup); then not found, then "already processed"; otherwise only that record changes, to `rejected` with the trimmed reason, comment, reviewer and time |
| Leaves.InsertPreservesStore | backend/routes/leaves.js:56-66 | inserting a well-formed record under the next id keeps the store invariant |
| Leaves.ApprovePreservesStore | backend/routes/leaves.js:162-167 | a successful approval keeps every record well formed and the ids unchanged |
| Leaves.RejectPreservesStore | backend/routes/leaves.js:215-221 | a successful rejection keeps every record well formed and the ids unchanged |
| Leaves.DecidedRecordsAreFinal | backend/routes/leaves.js:156-160 | a record that has left `pending` is unchanged by any approval or rejection of any record |
| Leaves.SecondDecisionFails | backend/routes/leaves.js:209-213 | after a successful decision, every later approval of that record, and every later rejection with a valid reason, fails as already processed |
| Leaves.ViewLeave | backend/routes/leaves.js:245-257 | not found iff the id is absent; the record is returned iff it exists and the caller is HR or the record's employee; otherwise access is denied |
| Leaves.MyLeaves | backend/routes/leaves.js:85-88 | exactly the caller's records, each as often as stored, newest `appliedAt` first |
| Leaves.AllLeaves | backend/routes/leaves.js:102-105 | every record, as often as stored, newest `appliedAt` first |
| Leaves.TodayLeaves | backend/routes/leaves.js:119-130 | exactly the approved records with start ≤ T ≤ end for T = local midnight, each as often as stored, earliest start first |
| Leaves.TodayMissesLeaveStartingAfterMidnight | backend/routes/leaves.js:119-128 | an approved leave starting one millisecond after midnight is not in today's list, since the window is one instant |
| Leaves.LeaveStore.Records | backend/routes/leaves.js:102 | the stored records as a list, one per id handed out, holding exactly the records of the store |
| Leaves.AllListsEveryStoredRecord | backend/routes/leaves.js:102-105 | `/all` over the store lists exactly the stored records, one entry per id handed out |
| Leaves.LeaveStore.Create | backend/routes/leaves.js:56-66 | the store gains the record `NewLeave` builds under the next id on success and is unchanged on error; the invariant is kept |
| Leaves.LeaveStore.Approve | backend/routes/leaves.js:149-167 | the store becomes what `ApproveRecord` gives, or stays as it was on error; the returned record is the stored one; the invariant is kept |
| Leaves.LeaveStore.Reject | backend/routes/leaves.js:197-221 | the store becomes what `RejectRecord` gives, or stays as it was on error; the returned record is the stored one; the invariant is kept |
| Users.Stats | backend/routes/users.js:29-50 | the total counts the caller's records only, and each status counter counts the caller's records with that status |
| Users.PersonalStatsSum | backend/routes/users.js:31-43 | the caller's total equals approved + pending + rejected |
| Users.OthersLeavesNotCounted | backend/routes/users.js:31-43 | adding another employee's record changes none of the caller's counters |
| Users.OwnLeaveCounted | backend/routes/users.js:31-43 | adding one of the caller's records adds one to the total and one to the counter of its status |
| Users.AdminStats | backend/routes/users.js:62-88 | counts employees by role `employee` only and records by status; today's details are exactly the approved records with start ≤ T and end ≥ T, and `todayLeaves` is their number |
| Users.AdminStatsSum | backend/routes/users.js:63-66 | the organisation-wide total equals pending + approved + rejected |
| Users.AdminTodayMatchesTodayListing | backend/routes/users.js:69-78 | the dashboard's today details hold the same records as the `/today` route, as often each; only the order may differ |
| Users.Listed | backend/routes/users.js:13-14 | a listed user carries every field of the account except the password |
| Users.ByNameIsTotalPreorder | backend/routes/users.js:15 | ordering by name is total and transitive, so sorting by it is well defined |
| Users.Employees | backend/routes/users.js:13-15 | the listing is a permutation of the password-free employees, all with role `employee`, in ascending order of name |
| Users.EmployeesListsEveryEmployee | backend/routes/users.js:13-15 | every user with role `employee` is listed, and the listing has as many entries as the dashboard's employee counter |
| Auth.RegisterFieldErrors | backend/routes/auth.js:18-35 | every validator runs; the messages are exactly the failing checks: trimmed name < 2, email format, password < 6, and empty trimmed department, position or employee ID |
| Auth.RoleOrDefault | backend/routes/auth.js:66 | an absent or empty role becomes `employee`; any other role is kept |
| Auth.NewUser | backend/routes/auth.js:58-67 | the stored account has the trimmed name, department, position and employee ID, the email and password as sent, and the defaulted role |
| Auth.RegisterUser | backend/routes/auth.js:32-69 | validation errors iff some check fails; "already exists" iff the checks pass and some account has the same email or the same trimmed employee ID; otherwise the new account is appended |
| Auth.RegisterKeepsKeysUnique | backend/routes/auth.js:48-56 | a successful registration keeps emails unique and employee IDs unique across the table |
| Auth.RegisterRoleDefault | backend/routes/auth.js:66 | the stored role is `employee` when none is sent, and the sent role otherwise |
| Auth.Public | backend/routes/auth.js:73-83 | the response carries id, name, email, role, department, position and employee ID, and no password |
| Auth.UserTable.Register | backend/routes/auth.js:30-84 | the table becomes what `RegisterUser` gives, or stays as it was on error; the reply is the password-free view of the new account; uniqueness is kept |
| Auth.FindByEmail | backend/routes/auth.js:107 | finds nothing iff no account has the email; otherwise an account with that email |
| Auth.Login | backend/routes/auth.js:100-130 | validation errors iff the email is malformed or the password is missing; success only for an account with that email whose password matches, answering with its password-free view |
| Auth.LoginSucceedsWithMatchingPassword | backend/routes/auth.js:107-130 | with emails unique, a valid email and the right password of an existing account log that account in, answering with its password-free view |
| Auth.LoginFailureIsUniform | backend/routes/auth.js:107-115 | an unknown email and a wrong password both get the same "invalid credentials" answer |
| ApplyLeaveForm.InitialForm | frontend/src/components/ApplyLeave.tsx:7-14 | the form starts empty with unit `days` |
| ApplyLeaveForm.DayCount | frontend/src/components/ApplyLeave.tsx:32-35 | the count is the least d ≥ 1 with (d − 1) whole days covering the gap between the dates (the same formula as frontend/js/app.js:879-882) |
| ApplyLeaveForm.DayCountSymmetric | frontend/src/components/ApplyLeave.tsx:34 | the count does not depend on which date comes first |
| ApplyLeaveForm.DayCountWholeDays | frontend/src/components/ApplyLeave.tsx:34-35 | dates d whole days apart count d + 1 days |
| ApplyLeaveForm.WithDuration | frontend/src/components/ApplyLeave.tsx:30-37 | the duration field gets the day count's decimal text only when both dates are set; otherwise the form is unchanged (the same in frontend/js/app.js:877-885) |
| ApplyLeaveForm.SentDuration | frontend/src/components/ApplyLeave.tsx:78 | the sent duration is the number the field's text parses to, and no number when it does not start with a digit |
| ApplyLeaveForm.RequestOf | frontend/src/components/ApplyLeave.tsx:76-79 | the request is the form with the duration parsed; type, dates, unit and reason are unchanged |
| ApplyLeaveForm.Submit | frontend/src/components/ApplyLeave.tsx:45-79 | checks in order: a required field empty; then untrimmed reason < 10; then start ≥ end; then start < now; each is reported iff the earlier ones pass; otherwise the request is sent (the same order in frontend/js/app.js:892-926) |
| ApplyLeaveForm.ComputedDurationIsSent | frontend/src/components/ApplyLeave.tsx:36 | a computed duration reaches the server as exactly the day count |
| ApplyLeaveForm.NoHoursConversion | frontend/src/components/ApplyLeave.tsx:76-79 | choosing hours sends the same number as choosing days; the unit is sent as chosen |
| ApplyLeaveForm.UncomputedDurationRefusedByServer | frontend/src/components/ApplyLeave.tsx:78 | a form whose duration was never computed passes the page, but the server reports "duration must be a number" and creates nothing |
| ApplyLeaveForm.BlankReasonPassesPageFailsServer | frontend/src/components/ApplyLeave.tsx:55-58 | ten spaces pass the page's untrimmed length check but fail the server's trimmed one |
| ApplyLeaveForm.PageDateChecksMatchServer | frontend/src/components/ApplyLeave.tsx:60-71 | what the page sends never fails the server's date checks at the same instant |
| ApplyLeaveForm.TodayRefusedAfterMidnight | frontend/src/components/ApplyLeave.tsx:68-71 | a leave starting at today's midnight is refused as "in the past" once midnight has passed, by the page and by the server |
| ApplyLeaveForm.ApplyLeavePage.CalculateDuration | frontend/src/components/ApplyLeave.tsx:30-37 | the form becomes `WithDuration` of the old form; the message is unchanged |
| ApplyLeaveForm.ApplyLeavePage.constructor | frontend/src/components/ApplyLeave.tsx:7-15 | the page opens on the initial form with no message |
| ApplyLeaveForm.ApplyLeavePage.HandleSubmit | frontend/src/components/ApplyLeave.tsx:40-79 | the form is unchanged; the message is the first failing check and nothing is sent, or the message is cleared and the request of `Submit` is sent |
| AppViews.InitialRegisterForm | frontend/js/app.js:427-437 | the register form starts empty with role `employee` |
| AppViews.Payload | frontend/js/app.js:467 | the payload carries every field of the form except the confirmation |
| AppViews.PayloadDropsOnlyConfirmation | frontend/js/app.js:467-468 | putting the confirmation back gives the form, and dropping it again gives the payload |
| AppViews.CheckRegister | frontend/js/app.js:454-468 | mismatched passwords are reported first, whatever their length; then a password shorter than 6; otherwise the payload is sent |
| AppViews.RequestOf | frontend/js/app.js:467-468 | the server receives the payload's fields, with phone and role always present |
| AppViews.PagePasswordCheckMatchesServer | frontend/js/app.js:459-462 | a payload the page sends never fails the server's password length check |
| AppViews.StatusText | frontend/js/app.js:1113-1115 | the label has the status's length, its first character upper-cased and the rest unchanged |
| AppViews.StatusTexts | frontend/js/app.js:1113-1115 | the three statuses are labelled Pending, Approved and Rejected |
| AppViews.StatusTextIdempotent | frontend/js/app.js:1113-1115 | labelling a label changes nothing |
| AppViews.PendingQueue | frontend/js/app.js:1287-1291 | the queue holds exactly the pending records of `/all`, as many as the list's pending count (its order is `PendingQueueSnoc`) |
| AppViews.PendingQueueSnoc | frontend/js/app.js:1287-1291 | the queue keeps the order of `/all`: an appended record joins the end of the queue exactly when it is pending |
| AppViews.PendingQueueMatchesCounter | frontend/js/app.js:1280-1291 | the queue built from `/all` is as long as the `/admin-stats` pending counter over the same records |
| ManageLeaves.FilteredLeaves | frontend/src/components/ManageLeaves.tsx:114-116 | the shown rows are exactly the records whose status is the active tab |
| ManageLeaves.FilteredLeavesSnoc | frontend/src/components/ManageLeaves.tsx:114-116 | appending a record appends it to its own tab only, so each tab keeps the list's order |
| ManageLeaves.Counts | frontend/src/components/ManageLeaves.tsx:118-124 | each counter counts the records of its own status |
| ManageLeaves.CountsSum | frontend/src/components/ManageLeaves.tsx:118-124 | the three counters add up to the number of records |
| ManageLeaves.OffersDecision | frontend/src/components/ManageLeaves.tsx:216 | on a well-formed record, the approve and reject buttons are shown exactly when nobody has reviewed it yet |
| ManageLeaves.FilteredLengthIsTabCount | frontend/src/components/ManageLeaves.tsx:114-124 | the active tab shows as many rows as its counter says |
| ManageLeaves.OfferedExactlyWhenDecidable | frontend/src/components/ManageLeaves.tsx:216-244 | the buttons are shown on a row exactly when the server would approve that stored record; on any other row it answers "already processed" |
| ManageLeaves.SendsReject | frontend/src/components/ManageLeaves.tsx:72-75 | the rejection is sent exactly when the reason holds a character that is not white space (the same guard in frontend/js/app.js:1311) |
| ManageLeaves.BlockedReasonRefusedByServer | frontend/src/components/ManageLeaves.tsx:72-75 | a whitespace-only reason, which the dialog does not send, would also be refused by the server (the same guard in frontend/js/app.js:1310-1314) |
| ManageLeaves.ShortReasonSentButRefused | frontend/src/components/ManageLeaves.tsx:72-81 | the dialog's guard is weaker than the server's: a four-letter reason is sent and refused |
| ManageLeaves.ManageLeavesView.constructor | frontend/src/components/ManageLeaves.tsx:34-39 | the page opens on the pending tab with the dialog closed and empty |
| ManageLeaves.ManageLeavesView.Shown | frontend/src/components/ManageLeaves.tsx:127 | the table shows exactly the records of the active tab |
| ManageLeaves.ManageLeavesView.SelectTab | frontend/src/components/ManageLeaves.tsx:142-169 | a tab button changes the active tab and nothing else |
| ManageLeaves.ManageLeavesView.OpenRejectDialog | frontend/src/components/ManageLeaves.tsx:229-233 | a pending row's reject button selects that record and changes nothing else |
| ManageLeaves.ManageLeavesView.CancelReject | frontend/src/components/ManageLeaves.tsx:280-284 | cancelling closes the dialog and clears the reason and comment |
| ManageLeaves.ManageLeavesView.HandleReject | frontend/src/components/ManageLeaves.tsx:67-91 | a request is sent iff the reason is not blank, carrying the selected id, reason and comment; after success the list is refreshed and the selection, reason and comment are cleared; otherwise nothing changes |
| Text.TrimEmptyIffBlank | frontend/src/components/ManageLeaves.tsx:72 | `trim` gives the empty string exactly for whitespace-only text |
| Text.Trim | backend/routes/leaves.js:26 | the trimmed text has no white space at either end and is no longer than the input |
| Text.TrimIsInfix | backend/routes/leaves.js:191 | `trim` returns an infix of its input with only white space removed around it |
| Text.TrimFixesExactlyTrimmed | backend/models/Leave.js:36 | the strings `trim` leaves unchanged are exactly those with no white space at either end |
| Text.TrimIdempotent | backend/models/Leave.js:33-37 | trimming an already trimmed reason (the validator's trim, then the schema's) changes nothing |
| Text.DecimalRoundTrip | frontend/src/components/ApplyLeave.tsx:36 | parsing the decimal text of a whole number gives the number back |
| Text.LexLeTotal | backend/routes/users.js:15 | any two names are ordered one way or the other |
| Text.LexLeTransitive | backend/routes/users.js:15 | the order of names chains |
| Text.LexLeAntisymmetric | backend/routes/users.js:15 | two names each ordered before the other are equal |
| Sorting.SortBy | backend/routes/leaves.js:88 | a sort on one key yields a sorted permutation of its input |

## Left out

- Express routing, the MongoDB connection, `populate`, and the `createdAt`/`updatedAt` timestamps
  are left out: they are I/O, or fields no rule reads. The database is an in-memory map (leaves)
  and a sequence (users).
- JWT issuance, the password hashing and comparison, and the email format check are left out
  because they are calls into libraries. The comparison and the email check are the parameters
  `matches` and `isEmail`. The `auth` and `adminAuth` middleware and the User schema file are
  not part of this model. The caller is the `Actor` parameter; its role is whatever the
  account stores.
- Leaves.ViewLeave: the caller's HR status is read from the role string; the middleware that
  admits callers is not part of this model.
- Dates are millisecond integers. Local time zones, `setHours(0,0,0,0)` and date parsing are
  left out: "local midnight today" is a parameter, and an invalid ISO 8601 date is an absent
  date.
- ApplyLeaveForm.DayCount: computed exactly on integers. JavaScript divides in floating point,
  which gives the same result for any realistic dates.
- Text.ParseFloat: models `parseFloat` only on text that begins with unsigned decimal digits.
  That covers everything the read-only duration field can hold: the empty string, or the
  decimal text of a day count.
- Text.UpperChar: maps only the ASCII letters. The full Unicode `toUpperCase` is left out; the
  status names are ASCII.
- String lengths count characters, not UTF-16 code units.
- Concurrency is left out: the parallel fetches, and the race between two simultaneous
  approvals of one record. Each route is modelled as one atomic step.
- `alert`, `prompt` and the delayed navigation after submitting are left out as presentation.
  The approve button's optional comment is the `adminComment` parameter of `Approve`.
- Ids are natural numbers, so a malformed id is never looked up. In the code, `findById` with
  a string that is not an ObjectId throws, and approve, reject and `GET /:id` then answer 500
  instead of 404.
- Users.AdminStats: the order of `todayLeavesDetails` is taken to be the stored order. The
  database gives no order without a sort, so only the content is stated against `/today`.
- ManageLeaves.ManageLeavesView.HandleReject: a refresh that fails after a successful
  rejection is not modelled. Success always supplies the refetched list.
- Route guards, navigation, the landing, login, sidebar, dashboard and employee pages, and the
  token storage in the auth context are left out: they are presentation or browser storage.
