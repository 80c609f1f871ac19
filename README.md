# Task manager web client, modelled in Dafny

This project models the Angular client of a small task manager. Users
register, log in with a bearer token, and keep a list of tasks. A task has a
server-assigned id, a title, an optional description and a status that is
PENDING or COMPLETED. The modelled parts are:

- **The task list page (`TasksComponent`).** This is the main part. Its
  view state is eight fields: the loaded tasks, a loading flag, an error
  message, the draft being edited, two dialog flags, the edited task and the
  task awaiting deletion.
  - Module `TasksView` states every user action and every server reply as a
    pure step from the old view to the new view plus the service call issued
    (`Call`). It also holds the collection helpers: the duplicate-title test,
    `findIndex`, first-match replacement and filtering. It holds the paste
    computation too.
  - Module `TasksViewProperties` proves what those steps promise.
  - Class `TasksComponent.TasksComponent` has the same eight fields. Its
    methods assign them step by step, as the component does. Each method's
    contract equates the new fields, and the call it returns, with the
    matching `TasksView` step of the old fields.
- **The auth client (`AuthService`).** A class whose single field `store` is
  the browser's `localStorage['token']` slot. Its operations are:
  - login, which stores and returns `type + " " + token`;
  - logout, `isLoggedIn` and `getToken`;
  - the error mapping shared by login and register.
- **The task client's error mapping (`TaskService`).** The strings a failed
  delete and every other failed call turn into, and the fixed confirmation
  of a successful delete.
- **The request interceptor (`AuthInterceptor`).** It attaches the stored
  credential as the `Authorization` header, or passes the request through
  untouched.
- **The sign-up form (`RegisterComponent`).** Angular's `required`,
  `minLength` and `maxLength` validators on the two controls, and the
  submit handler with its two reply callbacks.

Server replies and thrown errors are parameters of the reply methods: an
issuing method returns the call it makes, and a separate method handles each
possible reply. The module `Flows` relates the task client's delete error to
what the list page then shows.

Strings are `seq<char>`. `trim` removes the ECMAScript white-space and
line-terminator characters (module `JsStrings`). `toLowerCase` is modelled
on ASCII letters. The `Task` record follows `frontend/src/app/models/task.ts`.

## Model

| member | source | states |
|---|---|---|
| JsStrings.IsWhitespace | frontend/src/app/tasks/tasks.component.ts:113 | the characters `trim()` removes: the ECMAScript WhiteSpace code points (tab, vertical tab, form feed, space, no-break space, the byte order mark and the Unicode space separators) and the LineTerminator code points (line feed, carriage return, line and paragraph separators) |
| JsStrings.TrimStart | frontend/src/app/tasks/tasks.component.ts:113 | the result is a suffix of the input that does not start with white space, and every dropped character is white space |
| JsStrings.TrimEnd | frontend/src/app/tasks/tasks.component.ts:113 | the result is a prefix of the input that does not end with white space, and every dropped character is white space |
| JsStrings.Trim | frontend/src/app/tasks/tasks.component.ts:113 | `trim()` is no longer than its input and, when non-empty, neither starts nor ends with white space |
| JsStrings.TrimIsSlice | frontend/src/app/tasks/tasks.component.ts:113-127 | `trim()` keeps one contiguous slice with only white space outside it, and is empty exactly when the input is all white space |
| JsStrings.TrimIdempotent | frontend/src/app/tasks/tasks.component.ts:113-134 | trimming an already trimmed title or description changes nothing |
| JsStrings.TrimPadded | frontend/src/app/tasks/tasks.component.ts:113 | trimming white space + core + white space gives the core, when the core has no white space at its ends |
| JsStrings.TrimStartPadded | frontend/src/app/tasks/tasks.component.ts:113 | removing leading white space from white space + core gives the core, when the core is non-empty and does not start with white space |
| JsStrings.TrimEndPadded | frontend/src/app/tasks/tasks.component.ts:113 | removing trailing white space from core + white space gives the core, when the core is non-empty and does not end with white space |
| JsStrings.LowerChar | frontend/src/app/tasks/tasks.component.ts:74 | ASCII upper-case letters move up by 32 (to their lower-case code points), and every other character is kept |
| JsStrings.ToLower | frontend/src/app/tasks/tasks.component.ts:74 | `toLowerCase()` keeps the length and lower-cases each character in place |
| JsStrings.LowerKeepsWhitespace | frontend/src/app/tasks/tasks.component.ts:74 | lower-casing never makes a character white space or stops it being white space |
| JsStrings.LowerCommutesWithTrimStart | frontend/src/app/tasks/tasks.component.ts:74 | lower-casing and removing leading white space commute |
| JsStrings.LowerCommutesWithTrimEnd | frontend/src/app/tasks/tasks.component.ts:74 | lower-casing and removing trailing white space commute |
| JsStrings.LowerCommutesWithTrim | frontend/src/app/tasks/tasks.component.ts:74 | `s.trim().toLowerCase()` equals `s.toLowerCase().trim()` |
| JsStrings.Prefix | frontend/src/app/tasks/tasks.component.ts:281 | `slice(0, n)` and `substring(0, n)` give the first `n` characters, or the whole string when it is shorter |
| JsStrings.SuffixFrom | frontend/src/app/tasks/tasks.component.ts:298 | `substring(n)` gives what follows the first `n` characters, or "" when the string is shorter |
| JsStrings.DigitsValue | frontend/src/app/tasks/tasks.component.ts:311 | the reference reading of a digit string, most significant digit first, against which `NatToString` is proved |
| JsStrings.NatToString | frontend/src/app/tasks/tasks.component.ts:311 | `${maxLength}` renders a non-empty string of decimal digits with no leading zero whose value (`DigitsValue`) is the number itself |
| TaskModel.Flip | frontend/src/app/tasks/tasks.component.ts:245 | the toggled status always differs from the old one |
| TaskModel.FlipInvolution | frontend/src/app/tasks/tasks.component.ts:245 | toggling the status twice restores it |
| TasksView.TitleKey | frontend/src/app/tasks/tasks.component.ts:74 | the comparison key is the trimmed lower-cased title, and is never longer than the title |
| TasksView.Clashes | frontend/src/app/tasks/tasks.component.ts:74-75 | the `.some` callback of `isTitleDuplicate`: the task has the same trimmed lower-cased title and an id different from the excluded one |
| TasksView.IsTitleDuplicate | frontend/src/app/tasks/tasks.component.ts:72-77 | true exactly when some loaded task has the same key and an id different from the excluded one |
| TasksView.DuplicateWithoutExclusion | frontend/src/app/tasks/tasks.component.ts:72-77 | with no excluded id, exactly the loaded tasks that have an id and the same key count |
| TasksView.FindIndex | frontend/src/app/tasks/tasks.component.ts:157 | `findIndex` gives -1 exactly when no entry has the id; otherwise it gives the first entry with it |
| TasksView.ReplaceFirst | frontend/src/app/tasks/tasks.component.ts:157-160 | the first entry with the id becomes the given task, and the length and every other entry are unchanged |
| TasksView.RemoveId | frontend/src/app/tasks/tasks.component.ts:219 | a task survives `filter` exactly when it was listed and has a different id |
| TasksView.RemoveIdAppend | frontend/src/app/tasks/tasks.component.ts:219 | filtering works piecewise over a concatenation, so the survivors keep their order |
| TasksView.RemoveIdAbsent | frontend/src/app/tasks/tasks.component.ts:219 | filtering out an id that no entry has leaves the list unchanged |
| TasksView.LoadIdempotent | frontend/src/app/tasks/tasks.component.ts:36-44 | loading the same list twice in a row gives the same view as loading it once |
| TasksView.Toggled | frontend/src/app/tasks/tasks.component.ts:243-246 | the task sent by a toggle has the same id, title and description, with the status flipped |
| TasksView.Initial | frontend/src/app/tasks/tasks.component.ts:17-24 | the fields as constructed: no tasks, `loading` true, no message, the blank draft, both dialogs closed; `TasksComponent.TasksComponent.constructor` is proved to produce it |
| TasksView.LoadTasks | frontend/src/app/tasks/tasks.component.ts:36-40 | raises `loading`, clears the message and lists; `LoadIdempotent` and `FailureMessagesClearedByReload` rely on it clearing the message |
| TasksView.OnLoadOk | frontend/src/app/tasks/tasks.component.ts:41-44 | the list reply replaces the collection and lowers `loading`; loading the same list twice gives the same view (`LoadIdempotent`) |
| TasksView.OnLoadErr | frontend/src/app/tasks/tasks.component.ts:45-48 | the list failure sets its fixed text and lowers `loading`, keeping the old list |
| TasksView.ToggleAddForm | frontend/src/app/tasks/tasks.component.ts:53-64 | opening starts a blank, non-editing draft and closing changes only the flag (`FormModes`) |
| TasksView.StartEditing | frontend/src/app/tasks/tasks.component.ts:66-70 | opens the form on a copy of the task and makes its id the one the next submit updates (`FormModes`, `CreateIssuesCall`) |
| TasksView.ShowTemporaryError | frontend/src/app/tasks/tasks.component.ts:81-82 | the immediate effect of the temporary message: only the message changes |
| TasksView.TrimmedDraft | frontend/src/app/tasks/tasks.component.ts:125-134 | the title and the description (absent made empty) are trimmed, and trimming again changes nothing (`TrimmedDraftIdempotent`) |
| TasksView.EditedId | frontend/src/app/tasks/tasks.component.ts:72-77 | the id the duplicate check excludes and the update reply looks up: the edited task's, or none |
| TasksView.CreateTask | frontend/src/app/tasks/tasks.component.ts:107-176 | the three refusals and the two calls of `createTask`, as the `CreateRejectsBlankTitle`, `CreateRejectsLongTitle`, `CreateRejectsDuplicate`, `CreateIssuesCall` and `CreateSendsOnlyValidTitles` lemmas state them |
| TasksView.OnUpdateOk | frontend/src/app/tasks/tasks.component.ts:155-165 | with a task being edited, replaces only its first entry, toggles the form and reloads (`UpdateOkReplacesEditedEntry`); with none and a non-empty list, nothing changes |
| TasksView.OnUpdateErr | frontend/src/app/tasks/tasks.component.ts:166-172 | sets the update failure text and reloads, which clears it at once (`FailureMessagesClearedByReload`) |
| TasksView.OnCreateOk | frontend/src/app/tasks/tasks.component.ts:177-188 | closes the form, resets the draft and reloads (`CreateOkResetsForm`) |
| TasksView.OnCreateErr | frontend/src/app/tasks/tasks.component.ts:189-193 | sets the create failure text and does not reload, so the message stays (`FailureMessagesClearedByReload`) |
| TasksView.OpenDeleteModal | frontend/src/app/tasks/tasks.component.ts:198-202 | records the target and opens the modal (`CancelUndoesOpen`) |
| TasksView.CancelDelete | frontend/src/app/tasks/tasks.component.ts:204-208 | closes the modal and forgets the target, undoing any opening (`CancelUndoesOpen`) |
| TasksView.DeleteTarget | frontend/src/app/tasks/tasks.component.ts:211-215 | `taskToDelete?.id`: the target's id, or none without a target |
| TasksView.NoDeleteTarget | frontend/src/app/tasks/tasks.component.ts:211 | the guard of `confirmDelete`: no target, no id, or the falsy id 0 |
| TasksView.ConfirmDelete | frontend/src/app/tasks/tasks.component.ts:210-216 | nothing without a truthy target id (`ConfirmDeleteWithoutTarget`), otherwise the delete of that id (`ConfirmDeleteIssuesCall`) |
| TasksView.OnDeleteOk | frontend/src/app/tasks/tasks.component.ts:217-227 | removes exactly the entries with the target id, closes the modal and reloads (`DeleteOkRemovesTarget`) |
| TasksView.OnDeleteErr | frontend/src/app/tasks/tasks.component.ts:228-238 | keeps the list, closes the modal and reloads, which clears the message (`DeleteErrClosesModal`) |
| TasksView.ToggleTaskStatus | frontend/src/app/tasks/tasks.component.ts:242-254 | writes the flipped task at its first entry and sends it (`ToggleFlipsFirstEntry`); a second toggle restores the view (`ToggleTwiceRestores`) |
| TasksView.OnToggleOk | frontend/src/app/tasks/tasks.component.ts:255-263 | writes the server's task at the first entry of the toggled id, then reloads (`ToggleOkWritesResponse`) |
| TasksView.OnToggleErr | frontend/src/app/tasks/tasks.component.ts:264-269 | sets the status failure text and reloads, which clears it at once (`FailureMessagesClearedByReload`) |
| TasksView.Paste | frontend/src/app/tasks/tasks.component.ts:281-310 | the clipped value, the cursor after the inserted text and the warning flag (`PasteClips`, `PasteIntoEmpty`) |
| TasksView.FieldValue | frontend/src/app/tasks/tasks.component.ts:284 | the current field value as `handlePaste` reads it: the title, or the description with an absent one read as "" |
| TasksView.WithField | frontend/src/app/tasks/tasks.component.ts:301 | writes only the chosen field of the draft (`HandlePasteWritesField`) |
| TasksView.TrimWarning | frontend/src/app/tasks/tasks.component.ts:311 | the warning text, whose middle is the decimal rendering of the bound (`TrimWarningNamesBound`) |
| TasksView.HandlePaste | frontend/src/app/tasks/tasks.component.ts:273-313 | writes only the chosen field and warns exactly when the paste was cut (`HandlePasteWritesField`) |
| TasksViewProperties.CreateRejectsBlankTitle | frontend/src/app/tasks/tasks.component.ts:113-117 | a blank trimmed title sets 'Task title is required', changes nothing else and makes no call |
| TasksViewProperties.CreateRejectsLongTitle | frontend/src/app/tasks/tasks.component.ts:119-123 | a trimmed title over 200 characters sets 'Task title cannot exceed 200 characters', changes nothing else and makes no call |
| TasksViewProperties.CreateRejectsDuplicate | frontend/src/app/tasks/tasks.component.ts:125-147 | a duplicate title makes no call, but the draft has already been rewritten with its trimmed title and description |
| TasksViewProperties.CreateIssuesCall | frontend/src/app/tasks/tasks.component.ts:149-176 | an accepted draft raises `loading`, clears the message and is sent trimmed: as an update of the edited id when editing, as a create otherwise |
| TasksViewProperties.CreateSendsOnlyValidTitles | frontend/src/app/tasks/tasks.component.ts:107-176 | `createTask` never changes the list, and any task it sends has a trimmed, non-blank title of at most 200 characters that clashes with no loaded task |
| TasksViewProperties.UpdateOkReplacesEditedEntry | frontend/src/app/tasks/tasks.component.ts:155-165 | the update reply replaces only the first entry with the edited id, keeps the length, toggles the form and issues a reload |
| TasksViewProperties.CreateOkResetsForm | frontend/src/app/tasks/tasks.component.ts:177-188 | the create reply closes the form and resets the draft to the blank PENDING task before reloading |
| TasksViewProperties.FailureMessagesClearedByReload | frontend/src/app/tasks/tasks.component.ts:166-193 | the update, status and delete failures end with an empty message because their reload clears it; the create failure keeps its message |
| TasksViewProperties.ConfirmDeleteWithoutTarget | frontend/src/app/tasks/tasks.component.ts:211 | with no target, no target id or the id 0, `confirmDelete` changes nothing and makes no call |
| TasksViewProperties.ConfirmDeleteIssuesCall | frontend/src/app/tasks/tasks.component.ts:211-216 | with a truthy target id, `confirmDelete` raises `loading`, clears the message and deletes that id |
| TasksViewProperties.DeleteOkRemovesTarget | frontend/src/app/tasks/tasks.component.ts:217-227 | the delete reply keeps exactly the entries with another id, closes the modal, clears the target and reloads |
| TasksViewProperties.DeleteErrClosesModal | frontend/src/app/tasks/tasks.component.ts:228-238 | a failed delete keeps the list, closes the modal, clears the target and reloads |
| TasksViewProperties.ToggleFlipsFirstEntry | frontend/src/app/tasks/tasks.component.ts:242-254 | the toggle writes the flipped task at the first entry with its id, leaves the other entries and fields unchanged and sends the flipped task |
| TasksViewProperties.ToggleTwiceRestores | frontend/src/app/tasks/tasks.component.ts:242-254 | toggling a listed task and then its shown copy restores the view, and the second call sends the original task |
| TasksViewProperties.ToggleOkWritesResponse | frontend/src/app/tasks/tasks.component.ts:255-263 | the toggle reply writes the server's task at the first entry with the toggled id, keeps the length and every other entry and field, and reloads |
| TasksViewProperties.PasteClips | frontend/src/app/tasks/tasks.component.ts:281-310 | the new value is the first `maxLength` characters of before + clipped paste + after; the cursor goes after the inserted text; a warning is raised exactly when the paste was cut |
| TasksViewProperties.PasteIntoEmpty | frontend/src/app/tasks/tasks.component.ts:281-301 | pasting into an empty field gives the clipped paste, which is the first `maxLength` characters when the paste is longer |
| TasksViewProperties.HandlePasteWritesField | frontend/src/app/tasks/tasks.component.ts:273-313 | only the chosen field of the draft changes, and the warning message is set exactly when the paste was cut |
| TasksViewProperties.FormModes | frontend/src/app/tasks/tasks.component.ts:53-70 | opening the form gives a blank non-editing draft, closing changes only the flag, and editing opens the form on the task's id |
| TasksViewProperties.TrimmedDraftIdempotent | frontend/src/app/tasks/tasks.component.ts:125-134 | trimming an already trimmed draft changes nothing |
| TasksViewProperties.CancelUndoesOpen | frontend/src/app/tasks/tasks.component.ts:198-208 | the modal records the task it was opened for, and cancelling forgets it whatever was opened |
| TasksViewProperties.TrimWarningNamesBound | frontend/src/app/tasks/tasks.component.ts:311 | between its fixed words the warning carries digits that denote `maxLength` |
| TasksViewProperties.BuyMilkTrimmed | frontend/src/app/tasks/tasks.component.ts:113 | the title "  Buy milk  " trims to "Buy milk" |
| TasksViewProperties.BuyMilkUntouched | frontend/src/app/tasks/tasks.component.ts:113 | "Buy milk" and "buy milk" are already trimmed |
| TasksViewProperties.BuyMilkLowered | frontend/src/app/tasks/tasks.component.ts:74 | "Buy milk" and "buy milk" lower-case to "buy milk" |
| TasksViewProperties.BuyMilkSameKey | frontend/src/app/tasks/tasks.component.ts:74 | "Buy milk" and "buy milk" have the same comparison key |
| TasksViewProperties.BuyMilkCreated | frontend/src/app/tasks/tasks.component.ts:113-176 | creating "  Buy milk  " sends a create whose title is "Buy milk" |
| TasksViewProperties.BuyMilkRejectedAgain | frontend/src/app/tasks/tasks.component.ts:136-147 | once "Buy milk" is listed under an id, creating "buy milk" is refused as a duplicate with no call |
| TasksViewProperties.KeyClash | frontend/src/app/tasks/tasks.component.ts:72-77 | a listed task with an id and the same key makes a title a duplicate when nothing is excluded |
| TasksComponent.TasksComponent.constructor | frontend/src/app/tasks/tasks.component.ts:17-24 | the fields start empty, with `loading` true and the blank draft |
| TasksComponent.TasksComponent.NgOnInit | frontend/src/app/tasks/tasks.component.ts:32-34 | initialisation performs the `loadTasks` step |
| TasksComponent.TasksComponent.LoadTasks | frontend/src/app/tasks/tasks.component.ts:36-40 | raises `loading`, clears the message, changes nothing else and lists the tasks |
| TasksComponent.TasksComponent.OnLoadOk | frontend/src/app/tasks/tasks.component.ts:41-44 | the list reply replaces the collection and lowers `loading` |
| TasksComponent.TasksComponent.OnLoadErr | frontend/src/app/tasks/tasks.component.ts:45-48 | the list failure sets 'Failed to load tasks. Please try again.' and lowers `loading` |
| TasksComponent.TasksComponent.ToggleAddForm | frontend/src/app/tasks/tasks.component.ts:53-64 | opening the form resets the draft and stops editing; closing it changes only the flag |
| TasksComponent.TasksComponent.StartEditing | frontend/src/app/tasks/tasks.component.ts:66-70 | the edited task and the draft become copies of the task, and the form opens |
| TasksComponent.TasksComponent.ShowTemporaryError | frontend/src/app/tasks/tasks.component.ts:81-82 | sets the error message and nothing else |
| TasksComponent.TasksComponent.CreateTask | frontend/src/app/tasks/tasks.component.ts:107-123 | the fields and the call after `createTask` are the `TasksView.CreateTask` step of the old fields |
| TasksComponent.TasksComponent.SubmitDraft | frontend/src/app/tasks/tasks.component.ts:125-176 | after the length checks, trims the draft in place, refuses a duplicate and otherwise issues the update or create, as the `TasksView.CreateTask` step says |
| TasksComponent.TasksComponent.OnUpdateOk | frontend/src/app/tasks/tasks.component.ts:155-165 | the update reply performs the `TasksView.OnUpdateOk` step, including the throw when no task is being edited |
| TasksComponent.TasksComponent.OnUpdateErr | frontend/src/app/tasks/tasks.component.ts:166-172 | the update failure sets its message, lowers `loading` and then reloads |
| TasksComponent.TasksComponent.OnCreateOk | frontend/src/app/tasks/tasks.component.ts:177-188 | the create reply closes the form, resets the draft and reloads |
| TasksComponent.TasksComponent.OnCreateErr | frontend/src/app/tasks/tasks.component.ts:189-193 | the create failure sets 'Failed to create task. Please try again.', lowers `loading` and does not reload |
| TasksComponent.TasksComponent.OpenDeleteModal | frontend/src/app/tasks/tasks.component.ts:198-202 | records the target and opens the modal |
| TasksComponent.TasksComponent.CancelDelete | frontend/src/app/tasks/tasks.component.ts:204-208 | clears the target and closes the modal |
| TasksComponent.TasksComponent.ConfirmDelete | frontend/src/app/tasks/tasks.component.ts:210-216 | performs the `TasksView.ConfirmDelete` step: nothing without a truthy target id, otherwise the delete of that id |
| TasksComponent.TasksComponent.OnDeleteOk | frontend/src/app/tasks/tasks.component.ts:217-227 | filters out the current target's id, closes the modal, clears the target and reloads |
| TasksComponent.TasksComponent.OnDeleteErr | frontend/src/app/tasks/tasks.component.ts:228-238 | shows the thrown string or the fallback text, closes the modal, clears the target and reloads |
| TasksComponent.TasksComponent.ToggleTaskStatus | frontend/src/app/tasks/tasks.component.ts:242-254 | writes the flipped task in place at its first index and sends it |
| TasksComponent.TasksComponent.OnToggleOk | frontend/src/app/tasks/tasks.component.ts:255-263 | writes the server's task at the first index of the toggled id, then reloads |
| TasksComponent.TasksComponent.OnToggleErr | frontend/src/app/tasks/tasks.component.ts:264-269 | sets 'Failed to update task status. Please try again.' and reloads |
| TasksComponent.TasksComponent.HandlePaste | frontend/src/app/tasks/tasks.component.ts:273-313 | writes the clipped value into the field and returns the cursor position, as the `TasksView.HandlePaste` step says |
| TasksComponent.TasksComponent.Logout | frontend/src/app/tasks/tasks.component.ts:315-318 | logging out from the task page leaves no credential stored |
| TasksComponent.ToggleAndDeleteScenario | frontend/src/app/tasks/tasks.component.ts:198-254 | a scenario on the class: after loading two tasks, toggling one twice restores the fields, and deleting the other issues its delete and leaves only the first |
| AuthService.Credential | frontend/src/app/shared/auth.service.ts:28 | the credential is the token type, one space, then the token |
| AuthService.LoggedIn | frontend/src/app/shared/auth.service.ts:41 | `!!token`: a stored, non-empty value; every stored credential passes (`CredentialLogsIn`) |
| AuthService.HandleError | frontend/src/app/shared/auth.service.ts:48-57 | the three cases of the auth error mapping (`HandleErrorCases`), empty only for an empty text body (`HandleErrorEmpty`) |
| AuthService.CredentialLogsIn | frontend/src/app/shared/auth.service.ts:28-41 | a stored credential always counts as logged in |
| AuthService.HandleErrorCases | frontend/src/app/shared/auth.service.ts:48-57 | an ErrorEvent gives its message, or 'An error occurred' when the message is empty; a text body gives that text; any other body gives 'Invalid username or password' |
| AuthService.HandleErrorEmpty | frontend/src/app/shared/auth.service.ts:50-54 | the mapped message is empty only when the body is the empty text |
| AuthService.BearerScenario | frontend/src/app/shared/auth.service.ts:28 | type "Bearer" and token "abc123" compose to "Bearer abc123" |
| AuthService.AuthService.constructor | frontend/src/app/shared/auth.service.ts:11-14 | the service starts over whatever the browser has persisted |
| AuthService.AuthService.OnLoginOk | frontend/src/app/shared/auth.service.ts:26-31 | login stores exactly the credential, overwriting any earlier one, returns it, and leaves the user logged in |
| AuthService.AuthService.OnAuthError | frontend/src/app/shared/auth.service.ts:16-20 | a failed login or register throws the mapped string and leaves the store unchanged |
| AuthService.AuthService.Logout | frontend/src/app/shared/auth.service.ts:36-38 | after logout nothing is stored, `isLoggedIn()` is false and `getToken()` is null |
| AuthService.AuthService.IsLoggedIn | frontend/src/app/shared/auth.service.ts:40-42 | true exactly when a non-empty value is stored |
| AuthService.AuthService.GetToken | frontend/src/app/shared/auth.service.ts:44-46 | the stored value, verbatim |
| AuthService.SessionScenario | frontend/src/app/shared/auth.service.ts:16-46 | a scenario on the class: a login stores "Bearer abc123", a second login overwrites it, a failed login keeps it and logout removes it |
| TaskService.DeleteSucceeded | frontend/src/app/shared/task.service.ts:46 | a successful delete always emits 'Task deleted successfully', whatever the body |
| TaskService.DeleteFailed | frontend/src/app/shared/task.service.ts:47-52 | 404 gives the not-found text whatever the body (`DeleteNotFoundIgnoresBody`); otherwise the body's message or the fallback (`DeleteFailedOtherwise`); never empty (`MappedErrorsNonEmpty`) |
| TaskService.HandleError | frontend/src/app/shared/task.service.ts:56-59 | the first non-empty of the body's and the response's message, else 'Server error' (`HandleErrorChain`); never empty (`MappedErrorsNonEmpty`) |
| TaskService.DeleteNotFoundIgnoresBody | frontend/src/app/shared/task.service.ts:48-49 | a 404 always reads 'Task not found or already deleted', even when the body has a message |
| TaskService.DeleteFailedOtherwise | frontend/src/app/shared/task.service.ts:51 | any other failed delete gives the body's message when it is non-empty, else 'Failed to delete task' |
| TaskService.HandleErrorChain | frontend/src/app/shared/task.service.ts:56-59 | the other calls give the first non-empty of the body's message and the response message, else 'Server error' |
| TaskService.MappedErrorsNonEmpty | frontend/src/app/shared/task.service.ts:47-58 | every mapped error string is non-empty |
| Http.BodyMessage | frontend/src/app/shared/task.service.ts:51 | `error.error?.message` is present for an ErrorEvent and for a JSON body with a message, and absent otherwise |
| Http.FirstNonEmpty | frontend/src/app/shared/task.service.ts:58 | a chain of JavaScript "or" operands gives the first present, non-empty candidate, or the fallback when there is none |
| Http.Truthy | frontend/src/app/shared/task.service.ts:58 | a JavaScript "or" operand that is selected: present and non-empty |
| AuthInterceptor.SetHeader | frontend/src/app/shared/auth.interceptor.ts:11 | `headers.set` makes the header's only value the given one and leaves every other header unchanged |
| AuthInterceptor.SetHeaderTwice | frontend/src/app/shared/auth.interceptor.ts:11 | setting the same header to the same value twice is the same as setting it once |
| AuthInterceptor.Forward | frontend/src/app/shared/auth.interceptor.ts:5-16 | a non-empty token is attached as Authorization and nothing else changes (`ForwardAttaches`); no token forwards the request as is (`ForwardWithoutToken`); forwarding twice is forwarding once (`ForwardIdempotent`) |
| AuthInterceptor.ForwardAttaches | frontend/src/app/shared/auth.interceptor.ts:9-13 | with a non-empty token, Authorization is exactly the token, and every other header and field is unchanged |
| AuthInterceptor.ForwardWithoutToken | frontend/src/app/shared/auth.interceptor.ts:9-16 | with no token or an empty one, the request is forwarded unchanged |
| AuthInterceptor.ForwardIdempotent | frontend/src/app/shared/auth.interceptor.ts:11 | forwarding an already augmented request changes nothing |
| AuthInterceptor.LoginCredentialAttached | frontend/src/app/shared/auth.interceptor.ts:5-13 | after a login, requests carry `type + " " + token` as their Authorization header |
| RegisterComponent.IsEmptyInput | frontend/src/app/auth/register/register.component.ts:26-27 | what Angular's validators treat as empty: `null` or "" |
| RegisterComponent.Required | frontend/src/app/auth/register/register.component.ts:26-27 | `Validators.required` refuses exactly an empty value |
| RegisterComponent.MinLength | frontend/src/app/auth/register/register.component.ts:26-27 | `Validators.minLength(n)` passes an empty value and any value of at least `n` characters |
| RegisterComponent.MaxLength | frontend/src/app/auth/register/register.component.ts:26-27 | `Validators.maxLength(n)` passes an empty value and any value of at most `n` characters |
| RegisterComponent.UsernameValid | frontend/src/app/auth/register/register.component.ts:26 | the username control's three validators together: present with 3 to 20 characters (`FormValidIff`) |
| RegisterComponent.PasswordValid | frontend/src/app/auth/register/register.component.ts:27 | the password control's three validators together: present with 6 to 40 characters (`FormValidIff`) |
| RegisterComponent.FormValid | frontend/src/app/auth/register/register.component.ts:25-28 | the group is valid when both controls are, one length window per field (`FormValidIff`); a blank form is invalid (`BlankFormInvalid`) |
| RegisterComponent.FormValidIff | frontend/src/app/auth/register/register.component.ts:25-28 | the form is valid exactly when both fields are present, the username has 3 to 20 characters and the password 6 to 40 |
| RegisterComponent.BlankFormInvalid | frontend/src/app/auth/register/register.component.ts:25-28 | neither a freshly built form nor a reset one is valid |
| RegisterComponent.ErrorText | frontend/src/app/auth/register/register.component.ts:59 | a thrown string is shown verbatim; anything else shows 'Registration failed. Please try again.' |
| RegisterComponent.AuthErrorShownVerbatim | frontend/src/app/auth/register/register.component.ts:58-59 | an error thrown by the auth client is always shown as the client mapped it |
| RegisterComponent.RegisterComponent.constructor | frontend/src/app/auth/register/register.component.ts:15-28 | the form starts with both controls empty, no messages and not loading |
| RegisterComponent.RegisterComponent.Invalid | frontend/src/app/auth/register/register.component.ts:39 | `registerForm.invalid` holds exactly when a field is missing or outside its length window |
| RegisterComponent.RegisterComponent.NgOnInit | frontend/src/app/auth/register/register.component.ts:31-36 | the page navigates to the task list exactly when the user is logged in |
| RegisterComponent.RegisterComponent.OnSubmit | frontend/src/app/auth/register/register.component.ts:38-49 | an invalid form sends nothing and changes nothing; otherwise `loading` is set, both messages are cleared and the field values are sent |
| RegisterComponent.RegisterComponent.OnRegisterOk | frontend/src/app/auth/register/register.component.ts:50-53 | success shows the server text, resets both fields to null and lowers `loading` |
| RegisterComponent.RegisterComponent.OnRegisterErr | frontend/src/app/auth/register/register.component.ts:58-61 | failure shows the error text, lowers `loading` and keeps the field values |
| RegisterComponent.RegisterScenario | frontend/src/app/auth/register/register.component.ts:38-61 | a scenario on the class: an empty form is refused, an error is shown as the auth client mapped it, a retry succeeds and empties the form |
| Flows.DeleteFailureNotShown | frontend/src/app/shared/task.service.ts:47-52 | a failed delete (for a 404, the not-found text) reaches the list page, but the page ends with an empty message, the modal closed and a reload issued |

## Left out

- Timers and the DOM. The model leaves out:
  - the 3-second timer and fade-out class in `showTemporaryError` (only the immediate assignment is modelled);
  - the `document.body.style.overflow` writes;
  - the deferred `setSelectionRange` (the paste returns the cursor position instead);
  - the 2-second redirect after registering;
  - `ngOnDestroy`.
- Transport: HttpClient, RxJS Observables, `console.error` logging and router navigation. Replies are method arguments. The register `ngOnInit` returns whether it navigates.
- Overlapping reloads: replies are handled one at a time, in the order given.
- The backend controllers, the JPA entity, routing and dependency injection are not part of this model. The auth guard is not part of this model.
- `createTask` begins by replacing a missing draft with a blank one (`!this.newTask`). In the model the draft is a `Task` value that is never missing.
- String semantics:
  - `toLowerCase` is modelled on ASCII letters only.
  - Lengths count code points, not UTF-16 code units.
  - The model assumes the `maxLength` of a paste is a non-negative integer (a `nat`). `handlePaste` declares it only as a `number`, so a negative or fractional bound is not modelled.
  - Selection offsets are non-negative, as the browser reports them.
  - Header names: `HttpHeaders` files each header under its lower-cased name. The model writes the Authorization header under the fixed key "authorization" and does not compute the lower-casing.
- TasksComponent.TasksComponent.SubmitDraft: the second half of `createTask` is a separate method. This only keeps the proof small; the source has a single method.
- The fade-out timer would later clear an error message. The model therefore states the message only immediately after each step.

## Notes on the source

Behaviours of the code that the lemmas above make explicit:

- Update, status-toggle and delete failures set a message and then
  immediately call `loadTasks()`, which clears it
  (`TasksViewProperties.FailureMessagesClearedByReload`). The user never
  sees those messages; in particular, the 404 text of a failed delete is
  overwritten at once (`Flows.DeleteFailureNotShown`). Only the create
  failure keeps its message.
- The update reply reads `this.editingTask!.id` inside the `findIndex`
  callback. If the form was reopened meanwhile (`editingTask` is null) and
  the list is not empty, the callback throws and the reply changes nothing.
  The delete reply filters by the target recorded when the reply arrives.
- The register error fallback text is never reached. The auth client always
  throws a string: `AuthService.AuthService.OnAuthError` ensures the thrown
  value is the mapped message. The form then shows that string as it is
  (`RegisterComponent.AuthErrorShownVerbatim`).
