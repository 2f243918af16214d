# Student records: a Dafny model

This project models the core of a small student-records application. A Java
REST service at `/students` stores records of the form (id, name, email,
department). A single browser page lists the records, and creates, edits and
deletes them through a form and a confirmation dialog. The model covers:

- **The `Student` entity.** A class with four nullable fields, three
  constructors and setters that each change one field. Its `toString` format
  is proved against a parser that reads the text back.
- **The persistence layer.** The JPA repository's code is not visible, so it
  is modelled as an abstract finite map from id to stored record, plus an
  identity counter for generated ids.
- **The service rules.** Update copies three fields and keeps the stored id.
  Delete checks that the id exists first and reports whether it did.
- **The controller.** A decision table from service results to the HTTP
  statuses 201, 200, 204 and 404, with their bodies.
- **The page's validator.** Fields are trimmed with ECMA-262 whitespace,
  every field must be non-empty, and the email must match the pattern
  `^[^\s@]+@[^\s@]+\.[^\s@]+$`.
- **The page's mutable state.** The edit-mode flag, the pending action, the
  dialog, the theme and the table. The pending action is a tagged command
  (`Create`, `Update`, `Delete`), not a closure.

Modules, one concern each:

| module | file | models |
|---|---|---|
| `Wrappers` | wrappers.dfy | `Option`: Java `null`/`Optional`, JavaScript `null` |
| `Strings` | strings.dfy | searching and splitting text |
| `Decimal` | decimal.dfy | decimal text of integers and its inverse |
| `Entity` | entity.dfy | `Student.java` |
| `Store` | store.dfy | the repository, as a map |
| `Service` | service.dfy | `StudentService.java` |
| `Controller` | controller.dfy | `StudentController.java` |
| `Validation` | validation.dfy | trimming and the email test in `script.js` |
| `Theme` | theme.dfy | the theme rules in `script.js` |
| `Commands` | commands.dfy | pending actions and the requests they issue |
| `Page` | page.dfy | the page's global state and handlers in `script.js` |
| `Integration` | integration.dfy | how the page's request paths reach the controller's routes |

Modelling conventions:

- Java's `null`, in `Integer` and `String` fields, is `None`.
- An input's `value` property turns an assigned `null` into `""`, and so does
  `textContent`; the model writes both conversions out.
- Asynchronous completions (a fetch's result, or its failure) are separate
  methods that take the outcome as a parameter. Examples are
  `EditStudentLoaded`, `ActionCompleted` and `LoadStudentsCompleted`.
- Each page method's `modifies` clause names only the fields it changes.
  That frame is the statement that nothing else changes.

Behaviour of the code that a reader might expect to be otherwise:

- The stored theme does not always equal the applied one. With nothing
  stored, `initializeTheme` applies `'dark'` but stores nothing until the
  first toggle.
- The fallback is `||`, so a stored empty string also gives `'dark'`. The
  invariant that holds is therefore "applied == `InitialTheme(saved)`"
  (`Page.StudentPage.Valid`).
- A failed list load hides the table and shows the empty state, but it keeps
  the old rows and the old count (`LoadStudentsCompleted`).
- Edit mode does not by itself guarantee a non-empty id field. The code
  copies whatever id the fetched record has, so the field is non-empty only
  for records that carry an id. `EditStudentLoaded` states it under that
  condition. Records served from the store always carry their id
  (`Store.Repository.Valid`).

## Model

| member | source | states |
|---|---|---|
| `Entity.Student.constructor` | src/main/java/com/example/studentcrud/entity/Student.java:32-33 | the no-argument constructor leaves all four fields null |
| `Entity.Student.Of` | src/main/java/com/example/studentcrud/entity/Student.java:38-42 | name, email and department are stored as given; the id stays null |
| `Entity.Student.WithId` | src/main/java/com/example/studentcrud/entity/Student.java:47-52 | all four values are stored unchanged |
| `Entity.Student.SetId` | src/main/java/com/example/studentcrud/entity/Student.java:59-68 | only the id changes (frame `this`id`), and the getter then returns the value set |
| `Entity.Student.SetName` | src/main/java/com/example/studentcrud/entity/Student.java:73-82 | only the name changes, and the getter then returns the value set |
| `Entity.Student.SetEmail` | src/main/java/com/example/studentcrud/entity/Student.java:87-96 | only the email changes, and the getter then returns the value set |
| `Entity.Student.SetDepartment` | src/main/java/com/example/studentcrud/entity/Student.java:101-110 | only the department changes, and the getter then returns the value set |
| `Entity.Student.GetId` | src/main/java/com/example/studentcrud/entity/Student.java:59-61 | returns the id component of the record the fields hold, which the constructors and SetId set |
| `Entity.Student.GetName` | src/main/java/com/example/studentcrud/entity/Student.java:73-75 | returns the name component of the record, which the constructors and SetName set |
| `Entity.Student.GetEmail` | src/main/java/com/example/studentcrud/entity/Student.java:87-89 | returns the email component of the record, which the constructors and SetEmail set |
| `Entity.Student.GetDepartment` | src/main/java/com/example/studentcrud/entity/Student.java:101-103 | returns the department component of the record, which the constructors and SetDepartment set |
| `Entity.Student.ToString` | src/main/java/com/example/studentcrud/entity/Student.java:116-123 | the text starts with `Student{id=` and, whenever the format is unambiguous (text fields set and free of single quotes), reads back to the entity's fields |
| `Entity.Describe` | src/main/java/com/example/studentcrud/entity/Student.java:116-123 | the text starts with `Student{id=`, carries the id text right after it, and ends with `'}` |
| `Entity.DescribeRoundTrip` | src/main/java/com/example/studentcrud/entity/Student.java:116-123 | `Student{id=<id>, name='<name>', email='<email>', department='<department>'}` reads back to the same record, whenever the text fields are set and contain no single quote |
| `Entity.IdTextReads` | src/main/java/com/example/studentcrud/entity/Student.java:118 | the `id=` part (`null` or decimal) contains no comma and reads back to the id |
| `Decimal.DecimalRoundTrip` | src/main/java/com/example/studentcrud/entity/Student.java:118 | reading the decimal text of any integer gives that integer back |
| `Decimal.ParseDecimalIff` | src/main/java/com/example/studentcrud/entity/Student.java:118 | a text reads as n exactly when it is n's decimal text, so the canonical text is unique |
| `Decimal.NatText` | src/main/java/com/example/studentcrud/entity/Student.java:118 | the digits of a natural number have no leading zero unless the number is 0 |
| `Store.Repository.constructor` | src/main/java/com/example/studentcrud/repository/StudentRepository.java:12-13 | an empty store whose first generated id is 1 |
| `Store.Repository.FindById` | src/main/java/com/example/studentcrud/repository/StudentRepository.java:16 | a fresh entity with the stored values when the id is present, and empty otherwise |
| `Store.Repository.ExistsById` | src/main/java/com/example/studentcrud/service/StudentService.java:81 | in a valid store, true exactly when some stored record carries that id |
| `Store.Repository.FindAll` | src/main/java/com/example/studentcrud/repository/StudentRepository.java:17 | exactly the stored records, each once, in ascending id order |
| `Store.Repository.Save` | src/main/java/com/example/studentcrud/repository/StudentRepository.java:15 | an entity without an id gets a newly generated id that was not in use, and is then stored; one with a stored id replaces that record; the same entity is returned |
| `Store.Repository.DeleteById` | src/main/java/com/example/studentcrud/repository/StudentRepository.java:18 | removes the id and keeps every other record |
| `Service.StudentService.constructor` | src/main/java/com/example/studentcrud/service/StudentService.java:28-30 | the service works on the repository it is given |
| `Service.StudentService.GetAllStudents` | src/main/java/com/example/studentcrud/service/StudentService.java:37-39 | returns all stored records and changes nothing |
| `Service.StudentService.GetStudentById` | src/main/java/com/example/studentcrud/service/StudentService.java:47-49 | returns the stored record iff the id is present, and empty otherwise |
| `Service.StudentService.CreateStudent` | src/main/java/com/example/studentcrud/service/StudentService.java:51-59 | returns the saved entity, now carrying a generated id that was free before; all other records are unchanged |
| `Service.StudentService.UpdateStudent` | src/main/java/com/example/studentcrud/service/StudentService.java:64-72 | missing id: empty result, store unchanged; existing id: name, email and department are taken from the body and the stored id is kept, whatever id the body carries; the saved record is returned and every other record is untouched |
| `Service.StudentService.DeleteStudent` | src/main/java/com/example/studentcrud/service/StudentService.java:80-86 | returns true iff the id existed beforehand; afterwards the id is absent and every other record is unchanged |
| `Controller.CreatedResponse` | src/main/java/com/example/studentcrud/controller/StudentController.java:25-29 | POST always answers 201 with the created student |
| `Controller.ListResponse` | src/main/java/com/example/studentcrud/controller/StudentController.java:32-36 | GET on the collection always answers 200 with the list |
| `Controller.FoundResponse` | src/main/java/com/example/studentcrud/controller/StudentController.java:39-44 | 200 with the record iff the service returned one, else 404 with no body |
| `Controller.DeletedResponse` | src/main/java/com/example/studentcrud/controller/StudentController.java:55-61 | 204 iff the service deleted, else 404; never a body |
| `Controller.RouteId` | src/main/java/com/example/studentcrud/controller/StudentController.java:40-56 | a path yields an id only when it is `/students/` followed by that id's canonical decimal text |
| `Controller.RouteRoundTrip` | src/main/java/com/example/studentcrud/controller/StudentController.java:39-40 | the path `/students/<decimal text of n>` routes to id n |
| `Controller.SuccessMeansFound` | src/main/java/com/example/studentcrud/controller/StudentController.java:25-61 | a client that tests for a 2xx status sees success for create and list, and for get/update/delete exactly when the service found or deleted the record |
| `Controller.StudentController.constructor` | src/main/java/com/example/studentcrud/controller/StudentController.java:19-22 | the controller works on the service it is given |
| `Controller.StudentController.CreateStudent` | src/main/java/com/example/studentcrud/controller/StudentController.java:25-29 | 201 with the stored student under its generated id |
| `Controller.StudentController.GetAllStudents` | src/main/java/com/example/studentcrud/controller/StudentController.java:32-36 | 200 with exactly the stored records |
| `Controller.StudentController.GetStudentById` | src/main/java/com/example/studentcrud/controller/StudentController.java:39-44 | 200 with the stored record iff the id is present, else 404 with no body |
| `Controller.StudentController.UpdateStudent` | src/main/java/com/example/studentcrud/controller/StudentController.java:47-52 | 200 with the merged record iff the id existed, else 404 with the rows unchanged; the id counter never changes |
| `Controller.StudentController.DeleteStudent` | src/main/java/com/example/studentcrud/controller/StudentController.java:55-61 | 204 iff the id existed, else 404; the id is gone afterwards |
| `Validation.TrimStart` | src/main/resources/static/script.js:225-227 | strips exactly the leading whitespace: a suffix of the input, only whitespace removed, no whitespace left at the front |
| `Validation.TrimEnd` | src/main/resources/static/script.js:225-227 | strips exactly the trailing whitespace: the mirror image of TrimStart |
| `Validation.Trim` | src/main/resources/static/script.js:225-227 | the result is no longer than the input and neither starts nor ends with whitespace |
| `Validation.TrimIsCut` | src/main/resources/static/script.js:225-227 | the result is the input with its leading and trailing ECMA-262 whitespace and line terminators cut off (TrimmedAt) |
| `Validation.TrimmedAtUnique` | src/main/resources/static/script.js:225-227 | the description of a trim fits only one result, so Trim is fully specified |
| `Validation.TrimIdempotent` | src/main/resources/static/script.js:225-227 | trimming twice equals trimming once |
| `Validation.TrimEmptyIffAllSpace` | src/main/resources/static/script.js:231 | a trimmed field is empty exactly when the field held only whitespace |
| `Validation.EmailShaped` | src/main/resources/static/script.js:237-238 | the email test is true exactly when `^[^\s@]+@[^\s@]+\.[^\s@]+$` matches (MatchesEmailPattern) |
| `Validation.EmailShapedIffPattern` | src/main/resources/static/script.js:237-238 | the test from the first `@` accepts exactly the texts `^[^\s@]+@[^\s@]+\.[^\s@]+$` matches: no whitespace, one `@` with a non-empty part before it, and a `.` that is neither the first nor the last character after it |
| `Validation.Validate` | src/main/resources/static/script.js:224-241 | fields are trimmed; "missing" iff a trimmed field is empty; otherwise "invalid email" iff the trimmed email does not match the pattern; an accepted draft is the trimmed fields |
| `Validation.BlankFieldIsMissing` | src/main/resources/static/script.js:231-234 | the form is reported as missing a field exactly when at least one of the three fields is whitespace only |
| `Validation.AcceptsPlainAddress` | src/main/resources/static/script.js:237 | `ada@example.com` matches |
| `Validation.RejectsDotlessDomain` | src/main/resources/static/script.js:237 | `a@b` does not match |
| `Validation.RejectsMissingAt` | src/main/resources/static/script.js:237 | `not-an-email` does not match |
| `Validation.RejectsInnerSpace` | src/main/resources/static/script.js:237 | `a b@c.de` does not match |
| `Validation.RejectsTwoAts` | src/main/resources/static/script.js:237 | `a@b@c.de` does not match |
| `Theme.InitialTheme` | src/main/resources/static/script.js:74-77 | the stored theme is applied, or `'dark'` when none (or an empty one) is stored |
| `Theme.Toggled` | src/main/resources/static/script.js:79-81 | `'dark'` becomes `'light'`; anything else, including no theme, becomes `'dark'` |
| `Theme.ToggleTwice` | src/main/resources/static/script.js:79-84 | two toggles restore `'dark'` and `'light'` |
| `Theme.ToggleTwiceOther` | src/main/resources/static/script.js:79-84 | any other theme is not restored: two toggles end at `'light'` |
| `Theme.ToggledIsRestored` | src/main/resources/static/script.js:74-84 | a toggled theme, once stored, is the one the next start-up applies |
| `Commands.Invoke` | src/main/resources/static/script.js:243-259 | create posts the draft to `/students`; update puts the draft to `/students/` followed by the id field; delete sends no body to `/students/` followed by its id; the verb identifies the command |
| `Commands.OnlyUpdateReadsIdField` | src/main/resources/static/script.js:248 | only an update depends on the id field at the time it runs, and different id fields give different targets |
| `Commands.FetchOneRequest` | src/main/resources/static/script.js:292-294 | a GET with no body of the same path a delete of that id targets |
| `Page.IdFieldValue` | src/main/resources/static/script.js:303 | a record's id fills the id field with text that reads back as that id; a null id leaves it empty |
| `Page.RowOf` | src/main/resources/static/script.js:191-200 | the name, email and department cells show the record's text (empty for null); the id cell is `#` and the id text; both triggers pass the same id text, which reads back to the record's id (`null` when it has none); the delete trigger passes the name shown |
| `Page.StudentPage.constructor` | src/main/resources/static/script.js:33-35 | start in create mode with no pending action, no open dialog and an empty form |
| `Page.StudentPage.FillForm` | src/main/resources/static/script.js:13-15 | the user's typing sets the three text inputs |
| `Page.StudentPage.InitializeTheme` | src/main/resources/static/script.js:74-77 | applies InitialTheme of the stored value and stores nothing |
| `Page.StudentPage.ToggleTheme` | src/main/resources/static/script.js:79-84 | applies the toggled theme, and the stored value equals the applied one |
| `Page.StudentPage.ShowModal` | src/main/resources/static/script.js:120-132 | records the action as the only pending one and opens the dialog; danger styling is `btn btn-danger` labelled "Delete", otherwise `btn btn-primary` labelled "Confirm" |
| `Page.StudentPage.HideModal` | src/main/resources/static/script.js:134-138 | clears the pending action, closes the dialog and releases the page scroll, whatever the earlier dialog state |
| `Page.StudentPage.ConfirmAction` | src/main/resources/static/script.js:140-145 | issues the request of the pending action once, and only if there is one; the cell is cleared and the dialog closed afterwards |
| `Page.StudentPage.OverlayClicked` | src/main/resources/static/script.js:57-61 | a click on the backdrop dismisses like Cancel; a click inside the dialog changes nothing |
| `Page.StudentPage.KeyDown` | src/main/resources/static/script.js:64-68 | Escape dismisses like Cancel; other keys change nothing |
| `Page.StudentPage.HandleFormSubmit` | src/main/resources/static/script.js:221-260 | a missing field or a bad email gives a warning and leaves the pending action, the dialog and the button styling as they were; a valid draft records Update (edit mode) or Create of the trimmed draft, in primary style |
| `Page.StudentPage.Dispatch` | src/main/resources/static/script.js:231-259 | for any verdict: a missing field or a bad email gives its warning and leaves the dialog, the pending action and the button styling unchanged; an accepted draft records Update (edit mode) or Create of it, in primary style |
| `Page.StudentPage.ResetForm` | src/main/resources/static/script.js:387-394 | empties the id field and the inputs and clears edit mode |
| `Page.StudentPage.EditStudentLoaded` | src/main/resources/static/script.js:292-322 | a fetched record fills all four fields and sets edit mode, and its id makes the id field non-empty; a failed fetch leaves the form state unchanged |
| `Page.StudentPage.ConfirmDeleteStudent` | src/main/resources/static/script.js:353-361 | the pending action is `Delete(id, name)`, in danger style |
| `Page.StudentPage.ActionCompleted` | src/main/resources/static/script.js:265-382 | a successful create or update empties the form and leaves edit mode ("Student Added" / "Student Updated"); a successful delete or a failure ("Error") leaves the form as it was; every success, and only success, issues the list fetch GET /students again |
| `Page.StudentPage.ToggleTableVisibility` | src/main/resources/static/script.js:150-158 | exactly one of the table and the empty state is visible, and it is the table iff there is data |
| `Page.StudentPage.RenderStudents` | src/main/resources/static/script.js:185-207 | one row per record, in the order received, and nothing else |
| `Page.StudentPage.LoadStudentsCompleted` | src/main/resources/static/script.js:163-180 | a fetched list replaces rows and count and shows the table iff it is non-empty; a failure shows the empty state and keeps the old rows and count |
| `Integration.EditedUpdateTargetsLoadedRecord` | src/main/resources/static/script.js:303-329 | an update confirmed after loading record n for editing is routed by the server to record n |
| `Integration.RowTriggersTargetRecord` | src/main/resources/static/script.js:197-200 | a row's edit and delete triggers both reach that row's record |
| `Integration.RowWithoutIdTargetsNothing` | src/main/resources/static/script.js:197-200 | a record without an id renders edit and delete triggers whose paths name no id |

## Left out

- HTTP transport, JSON encoding, `async` ordering and races between responses are not modelled. A fetch's outcome is a parameter of the method that handles its completion.
- Toasts are reduced to the notice a handler returns (severity and title). Their markup, timers and animations are purely visual.
- Row markup, titles, button texts, the dialog's icon and message, and `scrollIntoView` are presentation and are not modelled.
- `escapeHtml` is a browser serialiser call. Rows hold the field text itself, which is what the escaped markup displays.
- Names that contain a quote or a backslash would break the inline delete handler. Because `escapeHtml` is not modelled, this is not modelled either.
- `localStorage` is the single field `savedTheme`.
- `form.reset()` restores the inputs' default values, which come from markup that is not part of this model. The model assumes they are empty.
- The initial visibility of the table and the empty state also comes from that markup, so it is a constructor parameter.
- Page.StudentPage.constructor: assumes markup that is not part of this model. It assumes the page starts with no `data-theme` attribute (`appliedTheme` is None), the cancel button hidden and the id field empty.
- Characters are Unicode scalar values, not UTF-16 code units. The validator's results are the same, because every whitespace character is in the Basic Multilingual Plane.
- Service.StudentService.CreateStudent and Controller.StudentController.CreateStudent: require a body without an id, as the page's create request sends. JPA's merge of a body that carries an id is not modelled.
- Store.Repository.Save: requires that an entity with an id is already stored, for the same reason.
- Store.Repository.FindAll: fixes ascending id order, which a primary-key scan gives. JPA itself promises no order.
- Store.Repository.FindById: returns a fresh entity on every call. The identity of managed entities within one persistence context, where two loads return the same instance, is not modelled.
- Ids are unbounded integers. Overflow of the 32-bit `Integer` identity column is not modelled.
- Spring's conversion of path variables also accepts texts other than canonical decimals (for example leading zeros). `Controller.RouteId` reads canonical decimal text only.
- The application bootstrap (StudentCrudApplication.java), the framework annotations and CORS are not part of this model.
