# TeamFlow in-memory stores, modelled in Dafny

This project models three small in-memory record stores from the BackendPractice repository. It proves that their error rules, defaults and invariants hold.

- **User directory** (`userService` and class `User`, `week2-express-fundamentals/src/models/User.js`). It holds a list of users and a monotonic `nextId` counter. `create` refuses an email that an active user already has. `update` copies a patch except `id` and `createdAt`. When the email changes to a non-empty value, `update` first re-checks that the email is unique. `delete` is a soft delete: it clears `isActive` and keeps the record. Every read skips inactive users.
- **Project registry** (`projectService` and class `Project`, `week2-express-fundamentals/src/models/Project.js`). It holds a list of projects and a `nextId` counter. The member list starts as `[ownerId]`. `addMember` appends only an absent id. `removeMember` ignores the owner and otherwise drops every occurrence of the id. `update` copies a patch except `id`, `createdAt` and `ownerId`, and it may replace `members` wholesale. `delete` removes the record for good.
- **Todo list** (class `TodoApp`, `week1-nodejs-basics/todo-app.js`). It covers adding, completing, deleting and clearing todos, and the completed/total summary that `listTodos` prints.

Layout:

- `common.dfy` (module `Common`): `Option`, `Result`, and `Filter`/`FindIndex`, which model `Array.prototype.filter`/`findIndex`. It also holds the sequence facts the stores rely on: subsequence order, no duplicates, increasing keys, and partition.
- `user_directory.dfy` (module `UserDirectory`), `project_registry.dfy` (module `ProjectRegistry`), `todo_list.dfy` (module `TodoList`): one module per source file.

How the model maps onto the source:

- Each service is a class. Its fields are the storage sequence and the counter, as in the source's module-level `let users = []; let nextId = 1`. `Valid()` is the store's invariant:
  - ids lie in `[1, nextId)` and strictly increase in storage order;
  - for users, no two active users share a non-empty email.
- The state-changing operations are methods. Their `ensures` give the whole new state in terms of the old one.
- The read operations are pure functions over the storage sequence.
- Records are datatypes. The source mutates a record object in place (`User.update`, `Project.addMember`, ...). Here that is a member function that returns the new record, and the service stores the result at the same index.
- A thrown error becomes `Err(e)`. `e.Message()` gives the exact text the source throws.
- Clock readings (`new Date().toISOString()`) are a `now: nat` parameter. The todo id (`Date.now()`) is an `id` parameter.
- Ids are `int`. The source turns string ids into numbers with `parseInt`. A non-numeric id becomes `NaN`, which matches no record. Here that is an id that no record has.

## Model

| member | source | states |
|---|---|---|
| `UserDirectory.NewRecord` | week2-express-fundamentals/src/models/User.js:3-11 | a new user is active, stamped now, role defaults to "member" and avatar to null |
| `UserDirectory.User.Update` | week2-express-fundamentals/src/models/User.js:14-21 | a patch never changes `id` or `createdAt`, always stamps `updatedAt`; name, email, role, avatar and isActive each take the patch's value when the patch has that key and keep the old one otherwise; an empty patch only stamps |
| `UserDirectory.GetAll` | week2-express-fundamentals/src/models/User.js:58-60 | exactly the active users, as a subsequence of storage (order kept) |
| `UserDirectory.GetById` | week2-express-fundamentals/src/models/User.js:63-65 | absent iff no active user has the id; otherwise an active stored user with that id |
| `UserDirectory.GetByEmail` | week2-express-fundamentals/src/models/User.js:68-70 | absent iff no active user has exactly that email; otherwise the first active stored user with it |
| `UserDirectory.GetByRole` | week2-express-fundamentals/src/models/User.js:116-118 | exactly the active users with that role, order kept |
| `UserDirectory.Search` | week2-express-fundamentals/src/models/User.js:121-129 | exactly the active users whose lower-cased name or email contains the lower-cased query, order kept |
| `UserDirectory.IncludesIsSubstring` | week2-express-fundamentals/src/models/User.js:125-126 | the `includes` test holds iff the needle occurs at some position of the text |
| `UserDirectory.SearchIgnoresQueryCase` | week2-express-fundamentals/src/models/User.js:122 | searching for the lower-cased query gives the same list as the query itself |
| `UserDirectory.SearchEmptyIsGetAll` | week2-express-fundamentals/src/models/User.js:121-129 | an empty query returns exactly `getAll()` |
| `UserDirectory.ViewsKeepIdOrder` | week2-express-fundamentals/src/models/User.js:116-129 | in a well-formed directory, getAll, getByRole and search list users by strictly increasing id |
| `UserDirectory.IdsUnique` | week2-express-fundamentals/src/models/User.js:79 | two stored users never share an id |
| `UserDirectory.CreateKeepsWf` | week2-express-fundamentals/src/models/User.js:73-81 | appending a user whose email no active user has keeps the invariant; the new id exceeds every stored id |
| `UserDirectory.UpdateKeepsWf` | week2-express-fundamentals/src/models/User.js:91-99 | a patch that passes the email check keeps ids and active-email uniqueness |
| `UserDirectory.DeleteKeepsWf` | week2-express-fundamentals/src/models/User.js:104-113 | a soft delete keeps the invariant, hides the id from getById, and frees a non-empty email for getByEmail |
| `UserDirectory.SoftDeleteScenario` | week2-express-fundamentals/src/models/User.js:73-113 | a created user is an active member; its email then blocks a second create; after its soft delete getAll and getById no longer return it and its email is free |
| `UserDirectory.UserService.constructor` | week2-express-fundamentals/src/models/User.js:37-53 | the four sample users get ids 1 to 4, `nextId` becomes 5, the invariant holds |
| `UserDirectory.UserService.Create` | week2-express-fundamentals/src/models/User.js:73-82 | fails with "User with this email already exists", changing nothing, iff an active user has the email; else appends the new record with id = old `nextId`, `nextId` + 1 |
| `UserDirectory.UserService.Update` | week2-express-fundamentals/src/models/User.js:85-101 | "User not found" for a missing or inactive id; "Email already exists", changing nothing, for a non-empty new email held by an active user; else patches only that record, keeping `id` and `createdAt` |
| `UserDirectory.UserService.Delete` | week2-express-fundamentals/src/models/User.js:104-113 | "User not found" iff no active user has the id; else only that record changes (`isActive` false, `updatedAt`), length kept; afterwards getById is absent (so a second delete fails) and the email is free |
| `ProjectRegistry.NewRecord` | week2-express-fundamentals/src/models/Project.js:3-15 | members are `[ownerId]`, status defaults to "planning", dates and budget null, stamped now |
| `ProjectRegistry.Project.Update` | week2-express-fundamentals/src/models/Project.js:17-24 | a patch never changes `id`, `createdAt` or `ownerId`, always stamps `updatedAt`; name, description, status, members, startDate, endDate and budget each take the patch's value when present and keep the old one otherwise (so `members` may be replaced wholesale) |
| `ProjectRegistry.Project.AddMember` | week2-express-fundamentals/src/models/Project.js:26-31 | the user ends up a member; an existing member changes nothing (no stamp); otherwise appended and stamped; owner membership and absence of duplicates are kept |
| `ProjectRegistry.Project.RemoveMember` | week2-express-fundamentals/src/models/Project.js:33-38 | the owner changes nothing; any other user loses every occurrence, every other member keeps all its copies in their order, `updatedAt` is stamped; owner membership and absence of duplicates are kept |
| `Common.FilterCounts` | week2-express-fundamentals/src/models/Project.js:35 | `filter` keeps every copy of an element that passes the test and no copy of one that fails |
| `ProjectRegistry.AddMemberIdempotent` | week2-express-fundamentals/src/models/Project.js:26-31 | adding the same user twice equals adding once |
| `ProjectRegistry.RemoveMemberIdempotent` | week2-express-fundamentals/src/models/Project.js:33-38 | removing the same user twice leaves the same members as removing once |
| `ProjectRegistry.MembershipScenario` | week2-express-fundamentals/src/models/Project.js:3-38 | a project owned by user 1 starts with members [1] and status "planning"; adding 2 gives [1, 2]; removing the owner changes nothing; removing 2 gives [1] |
| `ProjectRegistry.UpdateMayDropOwner` | week2-express-fundamentals/src/models/Project.js:17-24 | a patch replacing `members` by `[]` removes the owner: owner membership is not an invariant of `update` |
| `ProjectRegistry.GetAll` | week2-express-fundamentals/src/models/Project.js:77-79 | every stored project, nothing filtered |
| `ProjectRegistry.GetById` | week2-express-fundamentals/src/models/Project.js:82-84 | absent iff no stored project has the id; otherwise a stored project with that id |
| `ProjectRegistry.GetByOwner` | week2-express-fundamentals/src/models/Project.js:87-89 | exactly the projects with that owner, order kept |
| `ProjectRegistry.GetByStatus` | week2-express-fundamentals/src/models/Project.js:92-94 | exactly the projects with that status, order kept |
| `ProjectRegistry.ViewsKeepIdOrder` | week2-express-fundamentals/src/models/Project.js:87-94 | in a well-formed registry, getByOwner and getByStatus list projects by strictly increasing id |
| `ProjectRegistry.CreateKeepsWf` | week2-express-fundamentals/src/models/Project.js:97-107 | appending the new record keeps the invariant; its id exceeds every stored id |
| `ProjectRegistry.ReplaceKeepsWf` | week2-express-fundamentals/src/models/Project.js:110-118 | replacing a record by one with the same id keeps the invariant |
| `ProjectRegistry.DeleteKeepsWf` | week2-express-fundamentals/src/models/Project.js:121-130 | splicing out a record keeps the invariant and leaves no project with its id |
| `ProjectRegistry.ProjectService.constructor` | week2-express-fundamentals/src/models/Project.js:57-72 | the three sample projects get ids 1 to 3, `nextId` becomes 4, the invariant holds |
| `ProjectRegistry.ProjectService.Create` | week2-express-fundamentals/src/models/Project.js:97-107 | appends the new record with id = old `nextId`, larger than every stored id; `nextId` + 1 |
| `ProjectRegistry.ProjectService.Update` | week2-express-fundamentals/src/models/Project.js:110-118 | "Project not found" iff absent, changing nothing; else only that record is patched, `id`, `createdAt` and `ownerId` kept, `updatedAt` stamped |
| `ProjectRegistry.ProjectService.Delete` | week2-express-fundamentals/src/models/Project.js:121-130 | "Project not found" iff absent; else exactly that record is spliced out, the others keep their order, and getById is absent afterwards |
| `ProjectRegistry.ProjectService.AddMember` | week2-express-fundamentals/src/models/Project.js:133-141 | "Project not found" iff absent, changing nothing; else only that record changes, by `Project.AddMember` |
| `ProjectRegistry.ProjectService.RemoveMember` | week2-express-fundamentals/src/models/Project.js:144-152 | "Project not found" iff absent, changing nothing; else only that record changes, by `Project.RemoveMember` |
| `TodoList.Trim` | week1-nodejs-basics/todo-app.js:35 | `trim` yields the stretch of the text between leading and trailing white space; empty iff the text is all white space |
| `TodoList.TrimIdempotent` | week1-nodejs-basics/todo-app.js:42 | a stored todo text is already trimmed |
| `TodoList.Completed` | week1-nodejs-basics/todo-app.js:63 | exactly the completed todos, order kept |
| `TodoList.Pending` | week1-nodejs-basics/todo-app.js:109 | exactly the incomplete todos, order kept |
| `TodoList.CompletedPlusPending` | week1-nodejs-basics/todo-app.js:102-109 | completed and incomplete counts add up to the list length |
| `TodoList.NothingCompletedKeepsAll` | week1-nodejs-basics/todo-app.js:104-107 | with no completed todo, the incomplete todos are the whole list |
| `TodoList.Summary` | week1-nodejs-basics/todo-app.js:52-65 | nothing for an empty list; otherwise completed ≤ total = length, completed = length minus incomplete |
| `TodoList.TodoApp.constructor` | week1-nodejs-basics/todo-app.js:12-24 | the list is the saved one, or empty when loading failed |
| `TodoList.TodoApp.AddTodo` | week1-nodejs-basics/todo-app.js:34-50 | adds iff the text has a non-white-space character; then appends one incomplete todo with the trimmed text, existing todos unchanged; otherwise nothing changes |
| `TodoList.TodoApp.CompleteTodo` | week1-nodejs-basics/todo-app.js:68-85 | not found / already done change nothing; otherwise only the first todo with the id becomes completed, length and order kept |
| `TodoList.TodoApp.DeleteTodo` | week1-nodejs-basics/todo-app.js:87-99 | no todo with the id changes nothing; otherwise exactly the first match is removed, length drops by one, order kept |
| `TodoList.TodoApp.ClearCompleted` | week1-nodejs-basics/todo-app.js:101-112 | reports the number completed before; keeps exactly the incomplete todos in order; no change when that number is 0 |

## Left out

- Controllers (`userController.js`, `projectController.js`) are not part of this model. They check that fields are present, validate the role and status enums and the email format, and build the JSON envelopes. The services do not demand any of this, so no service member requires it.
- Routes, `app.js` and the error middleware are not modelled. They are framework wiring and response writing.
- `calculator.js`, `async-examples.js` and `index.js` are not modelled. They are floating-point arithmetic, timers and file I/O demonstrations.
- Todo persistence is not modelled: `loadTodos`, `saveTodos`, the `todos.json` file, `main`'s argument dispatch, `showHelp` and all console output. The constructor takes the loaded list as a parameter (`None` when reading or parsing failed).
- Clocks are not modelled. Every timestamp is the `now` parameter, so the model does not claim that `updatedAt` grows over time. Todo ids from `Date.now()` are a parameter too.
- `parseInt` coercion and loose comparisons between string and number ids are not modelled. Ids are integers. A non-numeric id is an id that no record has. Member ids that are not numbers (a `NaN` pushed by `addMember`) are not modelled.
- Patches are records of optional fields: the keys a caller can usefully send, plus `id`, `createdAt` (and `ownerId`) to show that they are ignored. Other keys, and `null` or non-string values for string fields, are not modelled. So an email is falsy only when it is `""`.
- `ProjectRegistry.Project.Update`: the budget is modelled as an integer (`Option<int>`). The source stores whatever JSON number is sent, so a fractional budget such as `1500.5` is not representable here.
- Returned records are values. The source returns the stored object itself, so a caller that mutates it changes storage. That aliasing is not modelled.
- `toJSON` is not modelled. It is serialisation only.
- `UserDirectory.Search`: `toLowerCase` is modelled for the letters A–Z only. Other letters compare case-sensitively here, while JavaScript also folds non-ASCII letters.
- `Project.addMember` refreshes `updatedAt` only when it actually adds (`Project.js:27-30`); `removeMember` refreshes it for every non-owner id, even one that was not a member. The model keeps both behaviours.
- Presence of name and email is checked in the controller (`userController.js:63`), not in `create`; the model's service does not check it.
- The email check in `update` is guarded by a truthy email (`User.js:92`). An update to `""` therefore skips it. Active-email uniqueness (`ActiveEmailsUnique`) is stated and proved only for non-empty emails.
