# TaskHub core, modelled in Dafny

TaskHub is a small project board. Each **project** holds an ordered list of
**groups**, each group holds **columns**, and each column holds **tasks**.

The Express server (`Actions`) does the following:

- registers users and logs them in with a 15-minute bearer token;
- creates projects and lists or opens them behind a membership check;
- creates and deletes groups, columns and tasks by walking down the id path.

Each server operation loads one project document, checks the ancestors in a
fixed order, edits the loaded copy with a `push` or a `filter`, sets the
`updatedAt` stamps and saves the whole document. Every route except
registration and login first passes through the `verifyToken` middleware.

The React project page keeps a local copy of the project. After the server
answers, the page patches that copy with pure tree transforms instead of
fetching it again. A separate banner counts down the token's lifetime and
offers a refresh in the last five minutes.

The model has seven modules:

- `Common` (common.dfy): ids, instants in milliseconds, optional values, and
  the `Result`/`Error` type of the handlers' answers. `Status` maps each
  error to its HTTP code: 400 missing field or bad credentials, 403 non-member,
  404 missing document, 500 failed save.
- `KeyedSeq` (keyed_seq.dfy): lists of sub-documents addressed by `_id`:
  - lookup `IndexOf`, as in Mongoose's `groups.id(x)`;
  - the deletion filter `RemoveAll`;
  - the page's `map` replacements `MapWhere` and `Replace`.
- `ProjectSchema` (project_schema.dfy): the stored documents as datatypes,
  and the schemas' required and default fields as validity predicates and
  constructors.
- `ProjectTree` (project_tree.dfy): the edits of a loaded project. These are
  new project and group, push of a group, column or task, and filters at
  each level, together with the stamps they set. The lemmas show that each
  edit keeps ids fresh and unique and the document valid.
- `Session` (session.dfy): token claims at login and refresh, the
  `Authorization` header's `split(' ')`, and `verifyToken` as a pure function
  that answers Unauthorized (401), Forbidden (403) or Pass(claims).
  `Guarded` runs a handler behind it, which sees the caller only as the
  decoded claims; the `Api` handlers' `caller` parameter is that user's id.
- `Api` (actions.dfy): the class `Actions`, holding the user and project
  collections as maps plus the id generator. It has one method per handler.
  Each method's contract states the error for each failing check, in the
  code's check order; that a request passing every check succeeds; and the
  whole new store. The class invariant `Valid` is kept by every method.
- `ProjectDetails` (project_details.dfy): the page state (loaded project,
  selected group and column) and its handlers as pure functions. Mirror
  lemmas show that the page's copy follows the server's edit, up to the
  group stamp the page never updates.
- `ExpirationWarning` (expiration_warning.dfy): the class
  `TokenExpirationWarning`. Its `Tick` method is proved against the pure
  `Step` function, and the lemmas cover runs of many ticks.

External services are parameters:

- `bcrypt.hash` and `bcrypt.compare` are `hash` and `compare`;
- `jwt.sign` and `jwt.verify` are `sign` and `verify`;
- `Date.now()` is `now`, read once per request;
- the outcome of the refresh call in `handleRefreshToken` is `success`
  (see "Left out" for the missing import).

ObjectIds are natural numbers drawn from a counter. Absent, `null` or empty
request strings are all the empty string, because `!name` treats them alike.

Where the code and the design notes disagree, the model follows the code:

- A column without a name, or a task without a title, is not rejected up
  front with 400. The code first pushes it and then `save()` fails schema
  validation, so the answer is 500 (`SaveFailed`) and nothing is stored.
- The checks run in the code's order. `createGroup` checks the name before
  the project. `createColumn` and `createTask` check the project, the group,
  the column and then the save.
- `getProject` compares the caller with the *populated* members. A member id
  without a user document is dropped by `populate`, so such a member is
  refused. The creator gets no separate way in.

## Model

| member | source | states |
|---|---|---|
| Common.StartOfDay | backend/api/actions.js:115 | the day stamp is at or before the instant, less than a day before it, and a whole number of days |
| Common.StartOfDayIdempotent | backend/api/actions.js:115 | stamping an already stamped day changes nothing |
| KeyedSeq.IndexOf | backend/api/actions.js:198 | `groups.id(x)`: Some(i) gives the first element with that id, and None holds exactly when no element has it |
| KeyedSeq.RemoveAll | backend/api/actions.js:248 | the filter keeps exactly the elements with a different id and adds none |
| KeyedSeq.RemoveAllAppend | backend/api/actions.js:248 | the filter distributes over concatenation, so the survivors keep their relative order |
| KeyedSeq.RemoveAllAbsent | backend/api/actions.js:248 | filtering an id that no element has returns the list unchanged |
| KeyedSeq.RemoveAllIdempotent | backend/api/actions.js:248 | deleting twice is the same as deleting once |
| KeyedSeq.RemoveAllLeavesNone | backend/api/actions.js:248 | after the filter, a lookup of the removed id finds nothing |
| KeyedSeq.RemoveAllKeepsAbsentKey | backend/api/actions.js:273 | the filter does not bring in a key the list lacked |
| KeyedSeq.RemoveAllKeepsKeys | backend/api/actions.js:304 | the filter keeps keys fresh and pairwise distinct |
| KeyedSeq.AppendFresh | backend/api/actions.js:181 | pushing an element with the next fresh id keeps ids fresh and distinct, and a lookup of that id finds the pushed element last |
| KeyedSeq.KeysBelowMono | backend/api/actions.js:181 | keys below one bound stay below any larger bound |
| KeyedSeq.IndexOfUpdate | backend/api/actions.js:201-203 | overwriting an element with one of the same id leaves every lookup unchanged |
| KeyedSeq.IndexOfDistinct | backend/api/actions.js:198 | with distinct ids, looking up the id of element i finds i |
| KeyedSeq.MapWhere | frontend/src/pages/project/projectDetails.tsx:82-86 | same length; elements with the id are mapped and all others are kept |
| KeyedSeq.Replace | frontend/src/pages/project/projectDetails.tsx:238-240 | same length; elements with the item's id become the item and all others are kept |
| KeyedSeq.ReplaceIsUpdate | frontend/src/pages/project/projectDetails.tsx:238-240 | with distinct ids, replacing by id is an update at the one matching index |
| ProjectSchema.NewTask | backend/db/models/project.js:3-8 | the task carries the given fields, `createdAt` defaults to now, and the task is valid exactly when it has a title |
| ProjectSchema.NewColumn | backend/db/models/project.js:10-13 | the new column has the name and an empty task list, and it is valid exactly when the name is non-empty |
| ProjectSchema.ProfileOf | backend/api/actions.js:90 | `select('-password')` keeps every user field except the password hash |
| ProjectTree.IdsOkMono | backend/api/actions.js:181 | fresh and unique ids stay so as the id generator advances |
| ProjectTree.NewProject | backend/api/actions.js:105-117 | the caller is creator and only member, there are no groups, `createdAt` is the day stamp and is at or before `updatedAt` = now, and the project is valid exactly when it has a name |
| ProjectTree.NewGroup | backend/api/actions.js:172-180 | the group has no columns and no settings, and a single "group created" log entry by the caller at now |
| ProjectTree.AddGroup | backend/api/actions.js:181-182 | one more group, last, the others untouched, and only the project's `updatedAt` set |
| ProjectTree.AddColumn | backend/api/actions.js:201-203 | the column is pushed onto group gi only; that group's and the project's `updatedAt` are set and nothing else changes |
| ProjectTree.AddTask | backend/api/actions.js:226-228 | the task is pushed onto column ci of group gi only; the group's and the project's `updatedAt` are set and nothing else changes |
| ProjectTree.RemoveGroup | backend/api/actions.js:248-249 | no group with the id is left, and only the project's `updatedAt` changes besides the filter |
| ProjectTree.RemoveColumn | backend/api/actions.js:273-275 | no column with the id is left in group gi, other groups are untouched, and both stamps are set |
| ProjectTree.RemoveTask | backend/api/actions.js:304-306 | no task with the id is left in the column, other columns and groups are untouched, and both stamps are set |
| ProjectTree.AddGroupKeeps | backend/api/actions.js:181-183 | a new group keeps ids fresh and unique and the document valid, and a lookup of its id finds it in last place |
| ProjectTree.AddColumnKeeps | backend/api/actions.js:201-204 | ids stay fresh and unique, and the saved document is valid exactly when the column has a name |
| ProjectTree.AddTaskKeeps | backend/api/actions.js:226-229 | ids stay fresh and unique, and the saved document is valid exactly when the task has a title |
| ProjectTree.AddedColumnIsFound | backend/api/actions.js:198-206 | after the push, the group's id still leads to the group and the new column's id leads to the new column, which is the last one |
| ProjectTree.AddedTaskIsFound | backend/api/actions.js:221-231 | after the push, the group and column ids still lead to them and the new task's id leads to the new task, which is the last one |
| ProjectTree.RemoveGroupKeeps | backend/api/actions.js:248-250 | deleting keeps ids unique and the document valid; an absent id changes only the stamp |
| ProjectTree.RemoveColumnKeeps | backend/api/actions.js:273-276 | deleting keeps ids unique and the document valid; an absent id changes only the stamps |
| ProjectTree.RemoveTaskKeeps | backend/api/actions.js:304-307 | deleting keeps ids unique and the document valid; an absent id changes only the stamps |
| Session.IssueClaims | backend/api/actions.js:39-43 | claims with the user's id and login, issued-at the current second, expiring 900 seconds (15 minutes) later |
| Session.RefreshClaims | backend/api/actions.js:52-59 | a refresh keeps the presented id and login and expires 15 minutes after the refresh |
| Session.RefreshIgnoresPresentedExpiry | backend/api/actions.js:55-59 | two presented tokens with the same identity refresh to the same claims, however old either one is |
| Session.Split | backend/middleware/verifyToken.js:4 | `split(' ')` gives at least one piece and no piece holds a space |
| Session.JoinSplit | backend/middleware/verifyToken.js:4 | joining the pieces with single spaces gives the header back |
| Session.SplitJoin | backend/middleware/verifyToken.js:4 | splitting undoes joining space-free pieces |
| Session.SplitWord | backend/middleware/verifyToken.js:4 | a space-free word followed by a space splits off as the first piece |
| Session.SplitSpaceless | backend/middleware/verifyToken.js:4 | a space-free string is one piece |
| Session.BearerTokenOf | backend/middleware/verifyToken.js:4 | the token is the second word whatever the scheme word is, and pieces after it are ignored |
| Session.VerifyToken | backend/middleware/verifyToken.js:3-17 | 401 exactly when the second piece is missing or empty; 403 exactly when a present token fails verification; otherwise pass with exactly the decoded claims |
| Session.SchemeAloneIsUnauthorized | backend/middleware/verifyToken.js:4-8 | the header `Bearer` alone gives 401 |
| Session.DoubleSpaceIsUnauthorized | backend/middleware/verifyToken.js:4-8 | `Bearer` followed by two spaces gives 401 whatever follows |
| Session.WellFormedHeaderPasses | backend/middleware/verifyToken.js:11-13 | a well-formed header whose token verifies passes with those claims |
| Session.Guarded | backend/routers/api.js:9-28 | a guarded route answers 401 exactly when the token piece is missing or empty, 403 exactly when it fails verification, and otherwise the handler's answer for exactly the decoded claims |
| Session.GuardedRunsAsCaller | backend/middleware/verifyToken.js:11-13 | behind a well-formed header whose token verifies, the handler runs with that user's claims |
| Api.StoredMono | backend/api/actions.js:181 | stored projects keep their invariant as the id generator advances |
| Api.StoreProject | backend/api/actions.js:183 | saving a project that satisfies the invariant keeps the invariant of the whole collection |
| Api.Populated | backend/api/actions.js:148 | `populate` keeps exactly the member ids that have a user document |
| Api.Edited | backend/api/actions.js:72-76 | each given profile field is set, every absent one keeps its value, and identity and password are untouched |
| Api.ListedIffOpenable | backend/api/actions.js:130-132 | for a registered user, a stored project is listed exactly when it opens, because the creator is always a member |
| Api.Actions.constructor | backend/api/actions.js:7 | an empty store satisfies the invariant |
| Api.Actions.SaveWithNewId | backend/api/actions.js:183 | saving an edited project whose new sub-document took the next id stores exactly that project, advances the generator by one and keeps the invariant |
| Api.Actions.Registration | backend/api/actions.js:11-21 | 400 for a missing field or a taken login, with no user created; a request with every field and a free login succeeds, with exactly one new user with a fresh id and the hashed password |
| Api.Actions.Login | backend/api/actions.js:31-44 | 400 for missing fields; success exactly when some user has the login and the password matches, and then the token is signed over that user's claims; an unknown login and a wrong password give the same answer |
| Api.Actions.GetProfile | backend/api/actions.js:89-93 | 404 for an unknown caller, otherwise the caller's profile without the password hash |
| Api.Actions.EditProfile | backend/api/actions.js:70-79 | 404 for an unknown caller; otherwise only the caller's user changes, by exactly the given fields |
| Api.Actions.CreateProject | backend/api/actions.js:103-119 | 400 with nothing stored for a missing name; otherwise exactly one new project under a fresh id, built as NewProject |
| Api.Actions.GetUserProjects | backend/api/actions.js:129-135 | exactly the projects the caller created or is a member of, unchanged |
| Api.Actions.GetProject | backend/api/actions.js:145-154 | 404 for an unknown id; 403 unless the caller is a populated member, with no exception for the creator; otherwise the project |
| Api.Actions.CreateGroup | backend/api/actions.js:164-184 | 400 for a missing name even for an unknown project, then 404; no membership check; a named group for a stored project succeeds, and the new group is appended last and returned |
| Api.Actions.CreateColumn | backend/api/actions.js:194-207 | 404 at the first missing ancestor, 500 for a missing name, and the store unchanged on every error; with both ancestors present and a name it succeeds, and the project becomes AddColumn of the returned column |
| Api.Actions.CreateTask | backend/api/actions.js:217-232 | 404 at the first missing ancestor, 500 for a missing title, and the store unchanged on every error; with all three ancestors present and a title it succeeds, and the project becomes AddTask of the returned task, created now |
| Api.Actions.DeleteGroup | backend/api/actions.js:242-252 | 404 only for a missing project; otherwise every group with the id is filtered out and the requested id is returned whether or not one existed |
| Api.Actions.DeleteColumn | backend/api/actions.js:262-278 | 404 for a missing project or group; with both present the requested id is returned, and the filter is applied in that group |
| Api.Actions.DeleteTask | backend/api/actions.js:288-309 | 404 for a missing project, group or column; with all three present the requested id is returned, and the filter is applied in that column |
| ProjectDetails.MapSelected | frontend/src/pages/project/projectDetails.tsx:82-86 | only the element whose id is the selection is mapped; with no selection nothing changes |
| ProjectDetails.HandleColumnAdded | frontend/src/pages/project/projectDetails.tsx:78-88 | only the selected group gets the new column, with no tasks, appended; the group count and everything else stay the same |
| ProjectDetails.ClientTask | frontend/src/pages/project/projectDetails.tsx:97-102 | the page's task has no assignee and takes the client clock when `createdAt` is missing |
| ProjectDetails.HandleTaskAdded | frontend/src/pages/project/projectDetails.tsx:90-118 | only the selected column of the selected group gets the task appended |
| ProjectDetails.OnDeleteGroup | frontend/src/pages/project/projectDetails.tsx:129-142 | no change unless the answer is ok; then the group is filtered out and a selection of it is cleared |
| ProjectDetails.OnDeleteColumn | frontend/src/pages/project/projectDetails.tsx:144-161 | no change unless the answer is ok; then the column is filtered out of the selected group only |
| ProjectDetails.OnDeleteTask | frontend/src/pages/project/projectDetails.tsx:163-191 | no change unless the answer is ok; then the task is filtered out of the given column of the selected group only |
| ProjectDetails.OnGroupUpdated | frontend/src/pages/project/projectDetails.tsx:233-245 | the groups are replaced by id and nothing else on the page changes |
| ProjectDetails.OnColumnUpdated | frontend/src/pages/project/projectDetails.tsx:255-274 | columns are replaced by id inside the selected group only |
| ProjectDetails.OnTaskUpdated | frontend/src/pages/project/projectDetails.tsx:285-313 | tasks are replaced by id inside the selected column of the selected group only |
| ProjectDetails.ColumnAddedMirrorsServer | frontend/src/pages/project/projectDetails.tsx:78-88 | with unique group ids, the page's groups after the append equal the server's AddColumn, up to the group's `updatedAt` |
| ProjectDetails.TaskAddedMirrorsServer | frontend/src/pages/project/projectDetails.tsx:90-118 | with unique ids, the page's groups after appending an unassigned task equal the server's AddTask, up to the group's `updatedAt` |
| ProjectDetails.GroupDeletedMirrorsServer | frontend/src/pages/project/projectDetails.tsx:133-140 | the page's groups after the delete equal the server's RemoveGroup |
| ProjectDetails.ColumnDeletedMirrorsServer | frontend/src/pages/project/projectDetails.tsx:149-158 | with unique group ids, the page's groups equal the server's RemoveColumn, up to the group's `updatedAt` |
| ProjectDetails.TaskDeletedMirrorsServer | frontend/src/pages/project/projectDetails.tsx:169-189 | with unique ids, the page's groups equal the server's RemoveTask, up to the group's `updatedAt` |
| ProjectDetails.GroupUpdatedInPlace | frontend/src/pages/project/projectDetails.tsx:233-245 | with unique ids, the edited group takes the place of the one it edits, and length, order and the other groups are kept |
| ProjectDetails.UnknownGroupUpdateIsNoOp | frontend/src/pages/project/projectDetails.tsx:233-245 | an edited group whose id the page does not hold leaves the page unchanged |
| ProjectDetails.ColumnUpdatedInPlace | frontend/src/pages/project/projectDetails.tsx:255-274 | with unique ids, the edited column takes the place of the one it edits, inside the selected group only |
| ProjectDetails.FindLogin | frontend/src/pages/project/projectDetails.tsx:193-198 | the first member with the id gives the login; failing that, the creator's login if the id is the creator's; failing that, the id itself |
| ProjectDetails.FindLoginShowsKnownUser | frontend/src/pages/project/projectDetails.tsx:193-198 | a login is shown exactly when a member or the creator has the id, and it is then that user's login |
| ExpirationWarning.SecondsLeft | frontend/src/components/tokenExpirationWarning.tsx:16-17 | the floor of the milliseconds left divided by 1000 |
| ExpirationWarning.Step | frontend/src/components/tokenExpirationWarning.tsx:14-29 | a tick stores the seconds left; the warning comes on at 300 seconds or less, stays on while time is left, and goes off at expiry; ticking stops exactly at expiry, and a cleared interval changes nothing |
| ExpirationWarning.StepKeepsConsistent | frontend/src/components/tokenExpirationWarning.tsx:19-28 | a shown warning always has a positive count behind it, after every tick |
| ExpirationWarning.RunKeepsConsistent | frontend/src/components/tokenExpirationWarning.tsx:14-29 | any run of ticks keeps that invariant |
| ExpirationWarning.StoppedStaysStopped | frontend/src/components/tokenExpirationWarning.tsx:25-28 | after `clearInterval` the state never changes again |
| ExpirationWarning.ExpiryIsFinal | frontend/src/components/tokenExpirationWarning.tsx:25-28 | a tick that finds no time left hides the warning and stops the countdown for good |
| ExpirationWarning.WarningStaysOn | frontend/src/components/tokenExpirationWarning.tsx:21-28 | once on, the warning stays on through every tick that still finds time left |
| ExpirationWarning.JsRemainder | frontend/src/components/tokenExpirationWarning.tsx:49 | JavaScript's `%`: agrees with the mathematical remainder for a dividend that is not negative, and takes the dividend's sign otherwise |
| ExpirationWarning.Display | frontend/src/components/tokenExpirationWarning.tsx:49 | for t >= 0, 60 * minutes + seconds == t with 0 <= seconds < 60 |
| ExpirationWarning.Rendered | frontend/src/components/tokenExpirationWarning.tsx:44-50 | a banner is shown exactly when the warning is on and a count exists, and it shows that count |
| ExpirationWarning.RenderedIsPositiveClock | frontend/src/components/tokenExpirationWarning.tsx:44-49 | a banner shown in a consistent state is a positive time split correctly into minutes and seconds |
| ExpirationWarning.Mounted | frontend/src/components/tokenExpirationWarning.tsx:5-13 | after mount there is no count and no warning, and an interval only when `exp` is present and non-zero |
| ExpirationWarning.NoExpiryNoBanner | frontend/src/components/tokenExpirationWarning.tsx:9-11 | without `exp` no timer starts and nothing is ever rendered |
| ExpirationWarning.TokenExpirationWarning.constructor | frontend/src/components/tokenExpirationWarning.tsx:8-13 | the mount effect gives the Mounted state and counts down to `exp * 1000` |
| ExpirationWarning.TokenExpirationWarning.Tick | frontend/src/components/tokenExpirationWarning.tsx:14-29 | the callback's new state is exactly Step of the old one, and the invariant is kept |
| ExpirationWarning.TokenExpirationWarning.HandleRefresh | frontend/src/components/tokenExpirationWarning.tsx:34-42 | a successful refresh hides the warning; a failed one changes nothing |
| ExpirationWarning.TokenExpirationWarning.Unmount | frontend/src/components/tokenExpirationWarning.tsx:31 | the cleanup clears the interval and changes nothing else |

## Left out

- The project schema mismatch: `backend/db/models/project.js:15-21` declares a
  project-level `columns` and no `groups`, `createdAt` or `updatedAt`. The
  handlers in `backend/api/actions.js` read and write `groups` and both stamps
  throughout. The model follows the handlers and validates the columns and
  tasks inside groups with `ColumnSchema` and `TaskSchema`. Under Mongoose's
  strict mode the declared schema would drop `groups` on save, and that is not
  modelled.
- Network and database I/O, Express wiring and the React rendering: each
  request is one call on the store, with the JSON bodies as parameters and
  results. From `backend/routers/api.js` only the fact that `verifyToken`
  guards every route but registration and login is kept, as `Guarded`; the
  paths and HTTP verbs are not modelled.
- Concurrency: two requests that load, edit and save the same project can
  overwrite each other. Each handler is modelled as atomic.
- Malformed ids: an ObjectId that does not parse makes `findById` throw, which
  gives 500. The model's ids are numbers, so that path does not arise.
- `bcrypt`, `jwt.sign`, `jwt.verify` and `jwtDecode` are function parameters. The
  model does not state what they compute, only that they are consulted.
  `frontend/src/utils/auth.ts` returns only login and sex from the token, so
  `exp` is always absent when that helper decodes it, and no timer starts. `NoExpiryNoBanner`
  covers that case.
- Populated display data: `populate` also brings in logins and names. The
  model keeps only which member ids survive (`Populated`), and the page's
  `UserShort` keeps id and login.
- Api.Actions.GetUserProjects: returns a map from id to project, so the
  order of the query's results and the populated fields are not modelled.
- Api.Actions.CreateGroup: the source answers with the plain literal it
  pushed, which has no `_id`. The model returns the stored group, id included.
- Api.Actions.Login: the token is `sign` applied to the claims. The signing
  secret and the encoding are not modelled.
- Session.RefreshClaims: models the claims of the refreshed token and not
  the handler's 500 path. `req.user` always exists after `verifyToken`, so
  that path is unreachable.
- Common.StartOfDay: `setHours(0,0,0,0)` takes local midnight. The model
  takes UTC midnight, so timezones and daylight saving are not modelled.
- Clock reads: every `new Date()` within one request is the same `now`.
- Time stamps are integers of milliseconds, and the client's ISO strings for
  `createdAt` are the same integers. An empty `createdAt` string is treated
  as missing.
- Registration's and the handlers' `catch` paths for other thrown errors
  (500) are not modelled, except the failed validation on save.
- The page's other state (`loading`, confirmation dialog, open modals,
  `selectedTask`, the editing flags) and the navigation on load failure are
  not modelled. Handlers read the page state at the moment they run, so
  React's stale closures over an older `project` are not modelled.
- ExpirationWarning.TokenExpirationWarning.HandleRefresh: the component
  imports `refreshToken` from `frontend/src/utils/auth.ts`, which does not
  export it. As written, the call throws before either branch runs, so
  neither the success nor the failure branch is reachable. The model takes
  the refresh outcome as a given `success` value, as if the helper existed.
- Api.Edited: keeps the old value of a field absent from the body. That
  holds only if Mongoose drops `undefined` keys from `$set`
  (`backend/api/actions.js:74`), which it does from version 7 on. The
  Mongoose version is not part of this model; an older one would clear such
  a field. The only client, `frontend/src/pages/profile/editProfile.tsx`,
  always sends all four fields as strings, so the case does not arise from it.
- `handleRefreshToken` also reloads the page on success and shows an alert
  on failure. Both are I/O and are left out.
- `createTask`'s response task keeps its `assignedTo`, but the page's copy
  drops it. So `TaskAddedMirrorsServer` is stated for unassigned tasks only.
