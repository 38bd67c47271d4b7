# Task lifecycle engine: a Dafny model

This project models the task lifecycle engine of a small task-management application, and proves properties of the model.

- **Tasks.** A task has a title, a description, a category, a priority, a status, a due date and timestamps. Its status moves only forward: `Pending` → `In Progress` → `Completed`.
- **Controller.** The server controller creates, updates, lists and deletes tasks. Creating and deleting a task each append one entry to an append-only activity log. An update appends a Status Changed entry when the status really changes, then an Updated entry when other keys were sent, so zero, one or two entries.
- **Client rules.** The client has a few pure rules around the engine:
  - the task form's field validation and submit gate;
  - the card's "advance status" button and past-due marks;
  - how the task modal renders a log entry;
  - the offline title suggester.
- **Login.** A login function checks credentials against a fixed table and mints a mock token.

## Modules

- `Wrappers`: `Option` and `Result`.
- `JsString`: the JavaScript string operations the core relies on.
  - `trim` (ECMAScript white space and line terminators);
  - `toLowerCase` (ASCII letters);
  - `includes`;
  - `length` in UTF-16 code units;
  - the decimal rendering of `${n}`.
- `Domain`: status, priority and action type, each with its wire name and parser.
- `ActivityLogModel`: the activity-log record schema, as a validator from raw fields to a record.
- `StatusMachine`: the transition table, `isValidStatusTransition`, and the rejection message.
- `TaskStore`: the two collections (tasks and log entries) as one value `Db`.
  - Each controller operation is a function from `Db` to a `Step`: the new `Db` and the reply.
  - Store time is a counter that advances by one with each write that stamps a time: saving a task or appending a log entry. Removing a task does not advance it.
  - Task ids are handed out in increasing order.
- `TaskController`: a class holding the stores as fields.
  - Its methods perform the writes one at a time, in the controller's order.
  - Each method is proved to end in the state, and give the reply, that the `TaskStore` function describes.
  - Each method is proved to keep the store invariant.
- `LifecycleProperties`: lemmas over `TaskStore`.
  - The store invariant is preserved.
  - Creates and deletes write one log entry each. An update writes a Status Changed entry for a real status change, then an Updated entry when other keys were sent. A failed save keeps the Status Changed entry and changes no task.
  - A rejected transition writes nothing.
  - Status never moves backward.
  - Deletion keeps the log.
  - The activity listing's order and cap.
- `TaskForm`: field validation and the submit gate, as functions and a loop method; the form's state as a class.
- `TaskCard`: the next-status button, its agreement with the server's table, and the past-due marks.
- `ViewTaskModal`: `formatActivityText`.
- `AiService`: the keyword-rule title suggester and the suggestion entry point.
- `LoginHandler`: the login function's decision: status code, body and headers.

## How the model treats the code

- **Status Changed entry on a failed save.** On update, the Status Changed entry is written before the task is saved, and there is no rollback. If the save then fails schema validation, the entry stays and the reply is an error. There is no transaction around the two writes. The model follows the code (`TaskStore.UpdateTask`, `LifecycleProperties.UpdateAppendsInOrder`).
- **Unknown update keys.** Keys of an update body that the task record does not store are kept in `Patch.extraKeys`. The store ignores them, but they still make the update append its `Updated` entry, as `Object.keys(otherFields).length > 0` does.

## Model

| member | source | states |
|---|---|---|
| Domain.ParseStatus | server/models/ActivityLog.js:15-22 | a status word parses only to the status whose wire name it is |
| Domain.ParseAction | server/models/ActivityLog.js:10-14 | an action word parses only to the action type whose wire name it is ("Status Changed" included) |
| Domain.WireNamesRoundTrip | server/models/ActivityLog.js:10-22 | parsing the wire name of every status, priority and action type gives it back |
| ActivityLogModel.OptionalStatus | server/models/ActivityLog.js:15-22 | an optional status field is accepted when absent or a listed status, and rejected otherwise |
| ActivityLogModel.ValidateLog | server/models/ActivityLog.js:4-30 | a record is created iff taskId and a listed actionType are present and any statuses given are listed; both timestamps are the creation time |
| ActivityLogModel.ValidateRoundTrip | server/models/ActivityLog.js:4-30 | a validated record carries exactly the given fields, and every record with equal timestamps is the validation of its own fields |
| StatusMachine.TransitionTable | server/controllers/taskController.js:4-8 | the table has an entry exactly for the three status words; each lists at most one successor, a status one step ahead |
| StatusMachine.IsValidStatusTransition | server/controllers/taskController.js:10-14 | the same word is always valid; a valid change of word goes between two statuses, exactly one step forward |
| StatusMachine.RejectionMessage | server/controllers/taskController.js:76-80 | the message is "Invalid status transition: old → new. Allowed: " followed by the allowed successor, or "none" when there is none |
| StatusMachine.TransitionsStepForward | server/controllers/taskController.js:4-14 | a transition is valid iff it keeps the status or moves exactly one step forward; the only real moves are Pending→In Progress and In Progress→Completed |
| StatusMachine.TransitionTableOnStrings | server/controllers/taskController.js:10-14 | on arbitrary strings: same word, or listed in the table; Completed and words that are not a status (other than the inherited `Object.prototype` names, see Left out) allow nothing else |
| StatusMachine.AcceptedTargetIsStatus | server/controllers/taskController.js:10-14 | any target the predicate accepts from a real status is itself a status, at most one step ahead |
| StatusMachine.RejectionListsSuccessors | server/controllers/taskController.js:76-80 | the rejection message names the old and new status and the allowed successors, or "none" for Completed |
| TaskStore.CreateTask | server/controllers/taskController.js:16-31 | a rejected record is ValidationFailed with no write; otherwise the task is stored under the next id and exactly one entry is appended, the earlier entries kept |
| TaskStore.Merge | server/controllers/taskController.js:92-95 | every supplied field replaces the stored one, every other field is kept, the id, status and timestamps are kept, and a patch with no supplied field changes nothing |
| TaskStore.UpdateTask | server/controllers/taskController.js:64-111 | a missing id is NotFound with no write |
| TaskStore.UpdateTaskEffects | server/controllers/taskController.js:64-111 | an update changes at most the one task, keeping its id; a failed update leaves the tasks as they were; the log keeps every earlier entry and gains at most two |
| TaskStore.DeleteTask | server/controllers/taskController.js:113-131 | a missing id is NotFound with no write; otherwise the task is removed and exactly one entry is appended, the earlier entries kept |
| TaskStore.TargetStatus | server/controllers/taskController.js:93-95 | the status stored for an accepted request is the one its string names |
| TaskStore.GetTaskById | server/controllers/taskController.js:52-62 | found iff the id is stored, returning that task; otherwise NotFound |
| TaskStore.BuildTaskFilter | server/controllers/taskController.js:35-43 | a query parameter filters the listing iff it is truthy, and then by its exact value |
| TaskStore.NewestTasks | server/controllers/taskController.js:45 | the stored tasks below an id bound that match the filter: all of them, only them, in strictly decreasing creation time |
| TaskStore.GetTasks | server/controllers/taskController.js:33-50 | the listing holds exactly the stored tasks matching the truthy query parameters, newest first |
| TaskStore.NewestLogs | server/controllers/taskController.js:138-141 | walking the log from its newest end gives the reversed matching entries cut to the limit |
| TaskStore.FilterSnoc | server/controllers/taskController.js:136-138 | filtering a log extended by one entry extends the filtered log by that entry iff it matches |
| TaskStore.GetActivityLogs | server/controllers/taskController.js:133-147 | the activity listing is the matching entries, reversed, cut to at most 100 |
| LifecycleProperties.AppendKeepsInvariant | server/controllers/taskController.js:21-25 | appending a well-formed entry for an id already handed out keeps the store invariant |
| LifecycleProperties.CreatePreservesInvariant | server/controllers/taskController.js:16-31 | create keeps the store invariant (ids, timestamps, well-formed and ordered log) |
| LifecycleProperties.UpdatePreservesInvariant | server/controllers/taskController.js:64-111 | update keeps the store invariant on every path, a failed save included |
| LifecycleProperties.DeletePreservesInvariant | server/controllers/taskController.js:113-131 | delete keeps the store invariant |
| LifecycleProperties.MissingIdChangesNothing | server/controllers/taskController.js:54-57 | a missing id is NotFound for get, update and delete, and nothing is written |
| LifecycleProperties.CreateWritesTaskThenEntry | server/controllers/taskController.js:16-31 | a created task gets a fresh id, the given fields and the defaults, then exactly one Created entry naming its title; a rejected record writes nothing |
| LifecycleProperties.RejectedTransitionWritesNothing | server/controllers/taskController.js:74-81 | the transition is rejected iff a truthy, different status is not a listed successor; then the reply is the message and no store changes |
| LifecycleProperties.UpdateAppendsInOrder | server/controllers/taskController.js:74-105 | an update past the status check saves iff the schema accepts `SavedRecord` (the merged task with the requested status, stamped after the Status Changed entry), and then replies with exactly that record; it appends one Status Changed entry per real change, then one Updated entry iff other keys were sent; a failed save keeps the Status Changed entry and no task changes |
| LifecycleProperties.UpdateMergesSuppliedKeys | server/controllers/taskController.js:92-97 | a saved update copies exactly the supplied fields, sets the status only when truthy, and touches no other task |
| LifecycleProperties.StatusNeverMovesBackward | server/controllers/taskController.js:64-111 | after any update the stored status is unchanged or exactly one step forward |
| LifecycleProperties.DeleteKeepsLogs | server/controllers/taskController.js:113-131 | delete removes only that task and appends one Deleted entry naming its title; every earlier entry stays |
| LifecycleProperties.FilterKeepsOrder | server/controllers/taskController.js:136-138 | filtering keeps exactly the matching entries and their creation order |
| LifecycleProperties.ActivityListingNewestFirst | server/controllers/taskController.js:133-147 | the listing has at most 100 matching entries, newest first; it holds every match, or is full and each left-out match is older than all listed |
| TaskController.Controller.AppendLog | server/controllers/taskController.js:21-25 | `ActivityLog.create` appends the validated entry and advances store time |
| TaskController.Controller.CreateTask | server/controllers/taskController.js:16-31 | the imperative create keeps the invariant and ends in the state and reply that `TaskStore.CreateTask` describes |
| TaskController.Controller.UpdateTask | server/controllers/taskController.js:64-111 | the imperative update keeps the invariant and ends in the state and reply that `TaskStore.UpdateTask` describes |
| TaskController.Controller.DeleteTask | server/controllers/taskController.js:113-131 | the imperative delete keeps the invariant and ends in the state and reply that `TaskStore.DeleteTask` describes |
| TaskForm.ValidateField | client/src/components/TaskForm.jsx:44-57 | title, description and category give "Title is required", "Description is required", "Category is required" iff blank after trimming, else ""; dueDate gives "Due date is required" iff empty, else ""; other names never fail |
| TaskForm.FormDefaults | client/src/components/TaskForm.jsx:4-13 | the initial form has the six fields; without a task, priority Medium, status Pending and the rest empty; with a task, each non-empty task value is copied and an empty or missing one falls back to the same defaults |
| TaskForm.CanSubmit | client/src/components/TaskForm.jsx:90 | submitting is allowed only when every required field is non-empty |
| TaskForm.CanSubmitIff | client/src/components/TaskForm.jsx:77-102 | the form submits iff no required field fails validation |
| TaskForm.BlankFormFailsEveryRequiredField | client/src/components/TaskForm.jsx:31-38 | an empty form fails every required field |
| TaskForm.ErrorsOfStep | client/src/components/TaskForm.jsx:82-88 | checking one more field adds it, with its message, exactly when its message is non-empty |
| TaskForm.ErrorsOfData | client/src/components/TaskForm.jsx:80-88 | errors built from the validation messages are exactly the failing fields, each with its message |
| TaskForm.CollectErrors | client/src/components/TaskForm.jsx:80-88 | the loop collects exactly the failing required fields, each with its message |
| TaskForm.FormState.constructor | client/src/components/TaskForm.jsx:4-16 | initial form data from the task, nothing touched, no errors |
| TaskForm.FormState.Reset | client/src/components/TaskForm.jsx:18-42 | a new task resets the data to its defaults and clears touched fields and errors |
| TaskForm.FormState.HandleChange | client/src/components/TaskForm.jsx:59-68 | a change stores the value and re-validates only a touched field that shows an error |
| TaskForm.FormState.HandleBlur | client/src/components/TaskForm.jsx:70-75 | a blur marks the field touched and records its validation message |
| TaskForm.FormState.HandleSubmit | client/src/components/TaskForm.jsx:77-102 | submits the data unchanged iff it can submit; otherwise the errors map is exactly the failing required fields, each with its validation message, and the touched set is exactly the required fields |
| TaskCard.NextStatus | client/src/components/TaskCard.jsx:17-21 | a next status exists iff the status is Pending or In Progress, and it is the status one step ahead |
| TaskCard.NextStatusAgreesWithServer | client/src/components/TaskCard.jsx:17-21 | the card's next status is exactly the server's one allowed successor, and none for Completed |
| TaskCard.AdvanceButton | client/src/components/TaskCard.jsx:64-71 | the advance button is shown iff the task is not Completed, and requests a different status for that task |
| TaskCard.AdvanceButtonIsAccepted | client/src/components/TaskCard.jsx:67 | the server accepts the button's request, logs one Status Changed entry, and stores the next status when the save succeeds |
| TaskCard.PastDue | client/src/components/TaskCard.jsx:26-59 | the card and the "(Past Due)" marker show iff past due and not Completed; the due text is marked whenever past due |
| ViewTaskModal.FormatActivityText | client/src/components/ViewTaskModal.jsx:28-33 | a Status Changed entry with both statuses non-empty renders "old → new"; any other entry renders its details when they are non-empty, else its action type; the text is non-empty whenever the action type is |
| ViewTaskModal.ServerEntryText | client/src/components/ViewTaskModal.jsx:28-33 | every entry the controller writes renders as "old → new" for status changes and as its details otherwise |
| ViewTaskModal.IncompleteStatusChangeFallsBack | client/src/components/ViewTaskModal.jsx:29-32 | a status change missing either status falls back to details, then the action type |
| AiService.GetMockTitle | client/src/services/aiService.js:4-36 | the suggestion is always one of the rules' titles or the default title |
| AiService.FirstMatch | client/src/services/aiService.js:7-35 | the first matching rule's title, else the default title |
| AiService.FiveRules | client/src/services/aiService.js:7-35 | the first-match lookup over five rules is the chain of five tests in table order |
| AiService.MockTitleIsFirstMatch | client/src/services/aiService.js:4-36 | the if-chain is the first-matching-rule lookup over the five keyword rules |
| AiService.FirstMatchIsFirstMatchingRule | client/src/services/aiService.js:7-35 | rule k's title is returned iff rule k matches and no earlier rule does; the default iff no rule matches |
| AiService.MockTitleFollowsRuleOrder | client/src/services/aiService.js:4-36 | on lower-cased text, a rule's title is chosen iff its keywords occur and no earlier rule's do |
| AiService.RuleTitlesDistinct | client/src/services/aiService.js:7-35 | the five rule titles differ from each other and from the default title |
| AiService.MockTitleIgnoresCase | client/src/services/aiService.js:5 | lower-casing the description first does not change the suggestion |
| AiService.ThreeKeywords | client/src/services/aiService.js:7-25 | a three-keyword rule matches iff one of its keywords occurs |
| AiService.TwoKeywords | client/src/services/aiService.js:27-33 | a two-keyword rule matches iff one of its keywords occurs |
| AiService.TooShort | client/src/services/aiService.js:40 | a refused description is missing or trims to fewer than 10 code units: one of at least 10 characters is never refused, and a blank one always is |
| AiService.SuggestTaskTitle | client/src/services/aiService.js:39-92 | an error iff the description is missing or under 10 code units after trimming; the mock title without a key or when the remote call fails; else the trimmed remote reply |
| AiService.SuggestionNeverFailsPastGuard | client/src/services/aiService.js:39-92 | past the length check, a suggestion always succeeds; without a key it ignores the remote and is a fixed title |
| LoginHandler.Fields | lambda/login/index.js:18-19 | the fields are read unless the body is malformed JSON or null; an object gives its username and password; a missing or empty body, and any JSON value that is not an object, gives two missing (falsy) fields |
| LoginHandler.Handler | lambda/login/index.js:1-76 | every reply has the fixed headers and status 200, 400, 401 or 500; `{}` iff OPTIONS; a success has role "user", the token for its username, and that username is the string the request body sent |
| LoginHandler.ValidCredentials | lambda/login/index.js:38 | a pair passes only when the lower-cased username is admin, user or test and the password is a non-empty string |
| LoginHandler.MintToken | lambda/login/index.js:41 | the token is `mock-jwt-token-`, the time's digits, a dash and the username, in that order |
| LoginHandler.LoginSucceedsIff | lambda/login/index.js:21-55 | login succeeds iff a non-empty string username and truthy password are sent and they match an account or the override is exactly "true" |
| LoginHandler.FailureReasons | lambda/login/index.js:21-74 | 400 "Username and password are required" iff a field is falsy; 500 "Internal server error" iff the body cannot be parsed or destructured, or both fields are truthy and the username is not a string; 401 "Invalid credentials" iff both fields are truthy, the username is a string, and neither the credentials match nor the any-login override is "true" |
| LoginHandler.ValidCredentialsAreTheMockAccounts | lambda/login/index.js:32-38 | the accepted pairs are admin/admin123, user/user123, test/test123, with the username matched in any letter case |
| LoginHandler.CredentialsIgnoreCase | lambda/login/index.js:38 | lower-casing the username first does not change the check |
| LoginHandler.NonStringPasswordRejected | lambda/login/index.js:38-40 | without the override, a non-string password never logs in |
| LoginHandler.TokenRoundTrip | lambda/login/index.js:41 | the token `mock-jwt-token-<time>-<username>` reads back to the time and the username exactly as sent |
| LoginHandler.StampRoundTrip | lambda/login/index.js:41 | the time part of the token is split off at the first non-digit and reads back as its value |
| LoginHandler.DigitRun | lambda/login/index.js:41 | the length of the leading digit run: all digits before it, a non-digit after it |
| JsString.Trim | client/src/components/TaskForm.jsx:47 | `trim` keeps one slice of the string with only white space before and after it; the result is empty iff the string is all white space, otherwise it starts and ends with a non-white-space character |
| JsString.TrimBothEnds | client/src/components/TaskForm.jsx:47 | cutting the leading, then the trailing white space leaves a slice with only white space around it, non-white-space at both ends |
| JsString.SliceOfSlice | client/src/components/TaskForm.jsx:47 | a prefix of a suffix, each cut at white space, is a slice of the string with white space around it |
| JsString.OrElse | client/src/components/TaskForm.jsx:5-12 | `v \|\| fallback`: the value when it is a non-empty string, else the fallback |
| JsString.ToLower | client/src/services/aiService.js:5 | lower-casing keeps the length and maps each character |
| JsString.ToLowerIdempotent | client/src/services/aiService.js:5 | lower-casing twice is lower-casing once |
| JsString.IncludesMeansOccurs | client/src/services/aiService.js:7 | `includes` holds iff the substring occurs at some position |
| JsString.Utf16Length | client/src/services/aiService.js:40 | `length` counts UTF-16 code units: one character counts two iff it is above U+FFFF, else one; the count equals the character count iff no character is above U+FFFF, and twice it iff all are |
| JsString.Utf16LengthAppend | client/src/services/aiService.js:40 | the count of a concatenation is the sum of the counts, so with the one-character case it gives the exact count of every string |
| JsString.Decimal | lambda/login/index.js:41 | `${n}` renders decimal digits with no leading zero |
| JsString.DecimalRoundTrip | lambda/login/index.js:41 | reading back the rendered digits gives the number |

## Left out

- Persistence: MongoDB and Mongoose queries, `populate("taskId", "title")` on the activity listing, and ObjectId cast errors. The stores are one in-memory value; the listing returns entries without the joined title.
- The Task schema (`server/models/Task.js`) is not part of this model. Whether a task record passes schema validation on save is the parameter `accept`. A create request's string fields are taken as given (a missing one as the empty string).
- HTTP plumbing: routes, status codes and JSON bodies of the controller. Replies are `Result` values with `NotFound`, `InvalidTransition(message)` or `ValidationFailed`.
- Clock: wall-clock timestamps are a counter that each write that stamps a time (saving a task, appending a log entry) advances by one, so no two such writes share a time; removing a task does not advance it. Mongoose's handling of `updatedAt` on an unchanged save is not modelled: every saved update gets a new time.
- Concurrency: interleaved requests are not modelled; each operation runs alone.
- JsString.ToLower: only ASCII letters are lower-cased. JavaScript's `toLowerCase` maps other characters as well, and some of them map to ASCII text. U+0130 "İ" becomes "i" plus a combining dot, so in JavaScript `"QUİCK TASK NOW"` contains "ui" and gets "Improve task list UI", while `AiService.GetMockTitle` gives "Update task functionality". U+212A (Kelvin sign) becomes "k". The login lookup is not affected: no account name is reached this way.
- StatusMachine.TransitionTableOnStrings: the transition table is a plain JavaScript object, so an old status such as "toString", "constructor" or "__proto__" finds an inherited member instead of nothing. Then `.includes` is not a function and the check throws a TypeError, while the model answers false. `updateTask` never reaches this case, because its old status is always a stored status.
- Date handling: `formatDate` and `isPastDue` live in a date utility that is not part of this model, and past-due is an input to `TaskCard.PastDue`. The form cuts a task's due date to its ISO calendar date inline (client/src/components/TaskForm.jsx:10 and :26); the model takes the due date already cut.
- The remote title service: the OpenAI request is the parameter `remote` of `AiService.SuggestTaskTitle`, a returned text or a failure.
- Environment: `VITE_OPENAI_API_KEY` and `ALLOW_ANY_LOGIN` are parameters.
- JSON parsing: the login body is given already parsed (`LoginHandler.Payload`). Non-string JSON values are kept only by their truthiness.
- React rendering, component callbacks and the status and priority colour tables.
