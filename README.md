# Code River, modelled in Dafny

Code River is a VS Code extension for code review inside the editor. A reviewer puts an *issue* on a
line of a file. Issues carry a status (open, fixed, won't fix, approved) and a thread of replies. They
live in one JSON file in the extension's global storage.

A user's *role* decides what they may do with an issue. The roles are admin, reviewer, file author and
regular user. Admins and reviewers are names listed in the `codeRiver` configuration. File authors are
the names `git log` reports for the file.

Two views show issues:
- "My issues": issues the user raised, plus issues on files the user authored.
- "Review issues": every issue, shown only to admins and reviewers.

Each view has a flag that a change sets and a sync clears. A sync writes a per-file snapshot of the
issues into `.code-river/` in the workspace. It also keeps `.gitignore` from hiding that directory and
stages the full list with `git add`.

The model has one module per source file:

| file | module | models |
|---|---|---|
| `user_role.dfy` | `Roles` | the roles and the permission table |
| `code_review_issue.dfy` | `Issues` | issue, reply and status; the status label and icon |
| `issue_storage.dfy` | `Storage` | the JSON store as a class over its backing file; insert-or-replace and delete |
| `settings.dfy` | `Settings` | the shared `codeRiver` configuration section |
| `user_service.dfy` | `Users` | role resolution, the author cache, the admin and reviewer lists |
| `git_user_service.dfy` | `GitUsers` | the git user name and e-mail; the list of contributors |
| `git_service.dfy` | `GitSync` | the sync to the workspace; the unused comment-insertion helper |
| `issue_provider.dfy` | `IssueTree` | tree items and the tree of all issues |
| `my_issues_provider.dfy` | `MyIssues` | the "my issues" view |
| `review_issues_provider.dfy` | `ReviewIssues` | the "review issues" view |
| `extension.dfy` | `Commands` | activation and every command |

Three support files sit underneath:
- `wrappers.dfy`: `Option`.
- `text.dfy`: the JavaScript string and array built-ins the code uses (trim, split/join, `indexOf`,
  `replace`, `filter`, `[...new Set()]`, number formatting).
- `workspace.dfy`: `Env`, which holds the outside world as a value. That is the open folders, the
  files that exist, and the output of each `git` command.

The source mutates some objects in place: the store, the user service, the views' flags, the shared
configuration and the files a sync writes. Each of these is a class whose methods state their new
state. Everything that only computes is a function.

## Model

| member | source | states |
|---|---|---|
| Roles.RolePermissions | src/models/userRole.ts:16-45 | every role may create and reply; only an admin may delete; resolving needs admin or author; approving needs admin or reviewer |
| Roles.RoleValueInjective | src/models/userRole.ts:1-6 | the four role strings are distinct |
| Roles.AdminDominates | src/models/userRole.ts:16-45 | an admin has every permission any role has, and every role has a regular user's |
| Issues.ParseStatus | src/models/codeReviewIssue.ts:3 | a status string is recognised only when it is the string of that status |
| Issues.ParseStatusValue | src/models/codeReviewIssue.ts:3 | every status's string parses back to that status |
| Issues.GetStatusLabel | src/models/codeReviewIssue.ts:24-37 | an unknown status is shown as itself; a known one gets a label different from its raw string |
| Issues.GetStatusIcon | src/models/codeReviewIssue.ts:39-52 | the fallback icon `$(question)` is used exactly for unknown statuses |
| Issues.StatusPresentationInjective | src/models/codeReviewIssue.ts:24-52 | distinct statuses get distinct labels and distinct icons |
| Storage.Load | src/services/issueStorage.ts:33-45 | a missing or unparsable file reads as no issues; otherwise the stored list |
| Storage.FindIndex | src/services/issueStorage.ts:23 | `findIndex` by id: the first index with that id, or -1 when no issue has it |
| Storage.UpsertReplaces | src/services/issueStorage.ts:20-31 | saving an issue whose id is stored replaces the first issue with that id, in place |
| Storage.UpsertAppends | src/services/issueStorage.ts:20-31 | saving an issue with a new id appends it |
| Storage.UpsertStores | src/services/issueStorage.ts:20-31 | after saving, the issue is stored; the list grows by one only for a new id |
| Storage.UpsertIdempotent | src/services/issueStorage.ts:20-31 | saving the same issue twice is saving it once |
| Storage.UpsertKeepsIdsUnique | src/services/issueStorage.ts:20-31 | saving keeps ids unique when they were |
| Storage.WithoutIdMembers | src/services/issueStorage.ts:47-51 | after a delete, an issue is stored iff it was stored before and has a different id |
| Storage.WithoutAbsentId | src/services/issueStorage.ts:47-51 | deleting an id that is not stored changes nothing |
| Storage.WithoutStoredId | src/services/issueStorage.ts:47-51 | with unique ids, deleting removes exactly the one issue with that id and keeps the rest in order |
| Storage.DeleteAfterSave | src/services/issueStorage.ts:20-51 | deleting an id right after saving an issue with that id is the same as deleting it without the save |
| Storage.IssueStorage.GetIssues | src/services/issueStorage.ts:33-45 | returns the issues the backing file holds |
| Storage.IssueStorage.SaveIssue | src/services/issueStorage.ts:20-31 | the file afterwards holds the previous list with the issue inserted or replaced |
| Storage.IssueStorage.DeleteIssue | src/services/issueStorage.ts:47-51 | the file afterwards holds the previous list without the issues of that id |
| Users.ResolveRole | src/services/userService.ts:78-104 | Admin iff the name is set and listed as admin; Reviewer iff it is set, not an admin, and listed as reviewer; Author iff it is set, on neither list, a file was given and the name is among its authors |
| Users.RolePrecedence | src/services/userService.ts:78-104 | an unset name is Regular; without a file nobody is Author; a listed name's role does not depend on the file |
| Users.AuthorsOfLinesMembers | src/services/userService.ts:157 | the parsed authors have no repeats, and a name is among them iff it is non-empty and some line trims to it |
| Users.AuthorsOfLinesExtends | src/services/userService.ts:157 | lines read later only append authors: the authors of a prefix of the lines are a prefix of the authors of all of them, so authors are listed in order of first appearance |
| Users.AuthorsOfLinesTrimmed | src/services/userService.ts:157 | every parsed author is non-empty with no white space at either end |
| Users.FileAuthors | src/services/userService.ts:128-163 | a file has authors only with a folder open, for a saved file under the first folder, inside a work tree, when `git log` succeeds |
| Users.Cached | src/services/userService.ts:111-126 | the cache gains the path and keeps every existing entry; a new path gets the file's current authors |
| Users.CachedOnce | src/services/userService.ts:114-118 | once a path is cached it is never recomputed, even after the repository changes |
| Users.AuthorsFor | src/services/userService.ts:96-101 | authors are looked up only for a non-empty path, from the cache when the path is cached |
| Users.AuthorsForStable | src/services/userService.ts:111-126 | filling the cache for one path changes no lookup of any path, and keeps a coherent cache coherent |
| Users.CoherentAuthors | src/services/userService.ts:111-126 | with a coherent cache, a lookup gives the file's current authors |
| Users.BootstrapAdmins | src/services/userService.ts:18-42 | the configured admin list is kept when non-empty; an empty one becomes the configured user alone, if set |
| Users.BootstrapMakesUserAdmin | src/services/userService.ts:29-41 | with no admin configured, the configured user resolves to Admin, and nobody else is added |
| Users.AddedMembers | src/services/userService.ts:45-76 | adding keeps every entry in order and contributes only the new, non-empty name |
| Users.AddedIdempotent | src/services/userService.ts:45-76 | adding a name twice is adding it once, and a list without repeats keeps none |
| Users.UserService.constructor | src/services/userService.ts:13-16 | constructing loads the configuration, with an empty author cache |
| Users.UserService.LoadConfiguration | src/services/userService.ts:18-42 | the lists are reloaded; a bootstrapped admin list is written back to the configuration |
| Users.UserService.AddAdmin | src/services/userService.ts:45-59 | true iff the name is non-empty and new; the admin list becomes the added list and is written back only then |
| Users.UserService.AddReviewer | src/services/userService.ts:62-76 | the same for the reviewer list |
| Users.UserService.InviteReviewer | src/services/userService.ts:166-183 | reloads the configuration, then adds a non-empty new name to the reviewers |
| Users.UserService.IsFileAuthor | src/services/userService.ts:111-126 | true iff the name is among the file's authors in the filled cache |
| Users.UserService.GetCurrentUserRole | src/services/userService.ts:78-104 | returns the resolved role; the cache is filled only when the authors were consulted |
| Users.UserService.GetUserPermissions | src/services/userService.ts:106-109 | returns the permissions of the current role |
| Users.UserService.GetReviewers | src/services/userService.ts:186-188 | returns the reviewer list |
| Users.UserService.IsReviewer | src/services/userService.ts:191-193 | true iff the name is a reviewer |
| GitUsers.GetGitUserName | src/services/gitUserService.ts:10-29 | no name without a folder; otherwise the trimmed `git config user.name` output, or null when it is blank or the command fails |
| GitUsers.GetGitUserEmail | src/services/gitUserService.ts:34-53 | the same for `git config user.email` |
| GitUsers.Md5 | src/services/gitUserService.ts:106-110 | the stand-in hash is always 32 zeros |
| GitUsers.AvatarUrlIgnoresEmail | src/services/gitUserService.ts:99-103 | so every e-mail gets the same avatar URL |
| GitUsers.ParseUserLineFields | src/services/gitUserService.ts:81-82 | a parsed line has a non-empty name and e-mail, neither holding `\|`, and the line starts with name, `\|`, e-mail; a line without `\|` is skipped |
| GitUsers.Collected | src/services/gitUserService.ts:78-91 | at most one user per log line, and no two users share a name |
| GitUsers.CollectedExtends | src/services/gitUserService.ts:82 | more log lines never change the users already found: the first line with a name wins |
| GitUsers.CollectedKeys | src/services/gitUserService.ts:80-91 | a name is listed iff some log line parsed with that name |
| GitUsers.GetAllGitUsers | src/services/gitUserService.ts:56-96 | returns the contributors, at most one per log line, and none without a folder, outside a work tree or when `git log` fails |
| GitSync.ValidIssuesMembers | src/services/gitService.ts:42-59 | an issue is valid iff its file exists; the valid issues keep the stored order |
| GitSync.FilterValidIssues | src/services/gitService.ts:42-59 | the loop returns exactly the valid issues |
| GitSync.GroupMembers | src/services/gitService.ts:89-96 | a relative path is a key iff some issue has it, and its group is that path's issues in order |
| GitSync.GroupByRelativePath | src/services/gitService.ts:82-96 | the loop builds exactly that grouping |
| GitSync.GroupAsWrittenFails | src/services/gitService.ts:82-96 | the loop on a plain object fails iff some relative path is an inherited property name, and otherwise agrees with the grouping |
| GitSync.ConstructorFileBreaksGrouping | src/services/gitService.ts:92-95 | a file named `constructor` at the root breaks the loop on a plain object, but has its own group in a dictionary |
| GitSync.DropCodeRiverLinesLines | src/services/gitService.ts:114-117 | the rewritten `.gitignore` is the lines whose trimmed form does not start with `.code-river`, in order |
| GitSync.DropCodeRiverLinesIdempotent | src/services/gitService.ts:114-117 | no line of the result starts with `.code-river`, so rewriting twice is rewriting once |
| GitSync.RewriteGitignore | src/services/gitService.ts:109-120 | a missing `.gitignore` stays missing; one that never mentions `.code-river` is left as it is |
| GitSync.ClampLine | src/services/gitService.ts:191-192 | the line is the issue's line, or the last line when the document is shorter |
| GitSync.ExpandTemplateWithoutPlaceholders | src/services/gitService.ts:200-204 | a template without placeholders is unchanged |
| GitSync.DefaultTemplateExpands | src/services/gitService.ts:197-204 | the default template yields description, file name, one-based line and status, in their places |
| GitSync.CommentOutLines | src/services/gitService.ts:205-207 | the comment has one line per template line: the indentation, `// `, then that line |
| GitSync.SyncIssuesToGit | src/services/gitService.ts:11-39 | succeeds iff a valid issue exists and a folder is open, writing nothing otherwise; on success it writes the snapshot of the valid issues under the root (grouped as intended, see Findings), the README only if missing, the cleaned `.gitignore`, and the full list, and stages the list when `git add` succeeds |
| IssueTree.IssueDescriptionParts | src/views/issueProvider.ts:30 | an issue item's description is the path, a colon, then the decimal line number, which reads back to the line |
| IssueTree.ContextValueOfIssue | src/views/issueProvider.ts:31 | an issue's context value is its status followed by `Issue`: never `reply`, and distinct for distinct statuses |
| IssueTree.IconAlwaysDefault | src/views/issueProvider.ts:45-58 | the unused icon helper compares against capitalised names, so every stored status gets the default icon |
| IssueTree.RootState | src/views/issueProvider.ts:96-98 | an issue item is collapsible exactly when the issue has a reply |
| IssueTree.RootItemsShown | src/views/issueProvider.ts:75-100 | the root lists shown issues in store order; an issue is shown iff it is stored and the filter is off, no folder is open, or its path starts with a folder's path |
| IssueTree.ReplyItems | src/views/myIssuesProvider.ts:75-81 | an issue's reply items are its replies in order, each pointing back to the issue |
| IssueTree.Children | src/views/issueProvider.ts:101-108 | an issue item's children are its reply items; a reply item has none |
| MyIssues.MyIssuesMembers | src/views/myIssuesProvider.ts:51-73 | the view keeps store order; with a name set, an issue is listed iff it is stored and the user raised it or resolves to Author for its file |
| MyIssues.ListedUsersSeeOwnIssues | src/views/myIssuesProvider.ts:64-69 | an admin or reviewer is never Author, so sees exactly the issues they raised |
| MyIssues.CachedAlongContents | src/views/myIssuesProvider.ts:62-70 | after the walk, the author cache keeps every old entry and adds exactly the files whose role the two lists leave open, each holding its authors in the walk's environment |
| MyIssues.CachedAlongSameLookups | src/views/myIssuesProvider.ts:62-70 | filling the cache during the walk changes no lookup in the same environment |
| MyIssues.MyIssuesProvider.GetMyIssues | src/views/myIssuesProvider.ts:51-73 | the loop returns the items of the user's issues, judged against the cache it started with; the cache afterwards is unchanged for an empty user name, and otherwise the cache after looking up each issue's file in store order, which answers every lookup in the same environment as before |
| MyIssues.MyIssuesProvider.GetChildren | src/views/myIssuesProvider.ts:40-49 | below the root, an element's children with the cache unchanged; at the root, the user's issues and the cache that GetMyIssues leaves |
| MyIssues.MyIssuesProvider.SetHasChanges | src/views/myIssuesProvider.ts:25-29 | sets the flag |
| MyIssues.MyIssuesProvider.HasChanges | src/views/myIssuesProvider.ts:32-34 | reads the flag |
| ReviewIssues.ReviewVisibility | src/views/reviewIssuesProvider.ts:51-61 | the review view lists every stored issue to an admin or reviewer, and nothing to anybody else |
| ReviewIssues.ReviewIssuesProvider.GetReviewIssues | src/views/reviewIssuesProvider.ts:51-61 | returns collapsed items of the issues visible to the current role, and leaves the author cache as it was |
| ReviewIssues.ReviewIssuesProvider.GetChildren | src/views/reviewIssuesProvider.ts:40-49 | below the root, an element's children; at the root, the review issues |
| ReviewIssues.ReviewIssuesProvider.SetHasChanges | src/views/reviewIssuesProvider.ts:25-29 | sets the flag |
| ReviewIssues.ReviewIssuesProvider.HasChanges | src/views/reviewIssuesProvider.ts:32-34 | reads the flag |
| Commands.UserNameForCases | src/extension.ts:47-98 | the name is never empty; it is `SETTING` only when the user went to settings or that is the configured or git name; a dismissed prompt gives the placeholder; an adopted git name is stored |
| Commands.UpdatesKeepIdentity | src/extension.ts:318-325 | a reply grows the thread by one at the end and keeps earlier replies; resolve and approve keep the thread; each saves over the stored issue in place |
| Commands.PermissionGates | src/models/userRole.ts:16-45 | resolving needs an admin, or a file author who is not a reviewer; approving needs an admin or reviewer; deleting needs an admin |
| Commands.OpenIssueLocation | src/extension.ts:485-509 | nothing opens when the file is missing; otherwise the cursor goes to the issue's line, or to the last line of a shorter document |
| Commands.Extension.constructor | src/extension.ts:15-45 | activation shares one configuration and one store among the services and views, with both flags clear and an empty author cache; the bootstrapped admins are loaded and written back to the configuration, the reviewers are loaded unchanged, and then the git name is offered |
| Commands.Extension.CheckAndSetUserName | src/extension.ts:443-482 | with no name configured, the git name is stored when the user chooses to use it |
| Commands.Extension.EnsureUserNameSet | src/extension.ts:47-98 | returns the decided name and stores an adopted git name |
| Commands.Extension.AddIssue | src/extension.ts:145-195 | with an editor, a name that is not `SETTING` and a non-empty description, stores a new open issue at the cursor and marks both views; otherwise nothing is stored |
| Commands.Extension.ResolveIssue | src/extension.ts:214-244 | on an issue item, and only with permission to resolve for its file, stores it as fixed and marks both views; the author cache gains the file's authors exactly when the permission check had to look them up |
| Commands.Extension.ApproveIssue | src/extension.ts:247-277 | the same with the approve permission, storing it as approved, with the same author-cache update |
| Commands.Extension.ReplyToIssue | src/extension.ts:280-338 | without a permission check, appends a non-empty reply to the item's issue, or to the parent issue of a reply item, and marks both views |
| Commands.Extension.DeleteIssue | src/extension.ts:341-380 | on an issue item, with permission to delete and the answer `确定`, deletes its id and marks both views; the author cache gains the file's authors exactly when the permission check had to look them up |
| Commands.Extension.SetAdmin | src/extension.ts:383-399 | a non-empty entered name is added to the admins and, when new, written back to the configuration; the reviewers, the author cache and the configured name stay as they were |
| Commands.Extension.SetReviewer | src/extension.ts:402-418 | a non-empty entered name is added to the reviewers and, when new, written back to the configuration; the admins, the author cache and the configured name stay as they were |
| Commands.Extension.SyncMyIssues | src/extension.ts:104-112 | syncs the whole store, leaving the workspace files as the sync states (snapshot, README, `.gitignore`, `issues.json`, staging, or nothing on failure), and clears the view's flag whatever the sync returned |
| Commands.Extension.SyncReviewIssues | src/extension.ts:114-122 | the same for the review view's flag |
| Commands.Extension.SyncWithGit | src/extension.ts:203-211 | syncs the whole store with the same effect on the workspace files and returns whether the sync succeeded; no flag changes |
| Text.Trim | src/services/gitUserService.ts:23 | `trim()` is the text with a blank prefix and a blank suffix cut off, leaves no white space at either end and is empty exactly for blank text |
| Text.SplitJoin | src/services/gitService.ts:114-117 | splitting a join of separator-free pieces gives the pieces back |
| Text.DedupDistinct | src/services/userService.ts:157 | `[...new Set(xs)]` of a list without repeats is that list |
| Text.DedupExtends | src/services/userService.ts:157 | `[...new Set(xs)]` of a prefix is a prefix of `[...new Set(xs)]`: elements keep the order of their first occurrence |
| Text.DecimalRoundTrip | src/views/issueProvider.ts:30 | a line number's decimal string reads back to the number |

## Left out

- `src/views/createdByMeProvider.ts` is not part of this model. So the "created by me" view, its changes flag and the `code-river.syncCreatedByMe` command are not modelled. Every command that sets flags sets only the two modelled views' flags.
- The invite panel (`src/views/inviteUserPanel.ts`, a webview) and the `code-river.inviteReviewer` command that opens it are left out as UI. `Users.UserService.InviteReviewer`, which the panel calls, is modelled.
- `code-river.viewIssues` only focuses a view. It is left out as UI.
- Messages, prompts, refresh events and `setContext` are left out. A dialog's answer is a parameter of the command (`Option<string>`, None when dismissed).
- Tree item labels and tooltips are left out, and so is the reply item's description, which formats a date with the locale.
- Asynchrony is left out: each command runs to completion before the next one starts. Commands interleaving at their `await` points is not modelled.
- The JSON encoding of the store and of the snapshot is left out: a file holds a value. A store file that parses to something other than an array is not modelled.
- File-system and process failures are not modelled beyond what the code tests: writes always succeed. A failed `git` command is a missing value in `Env`, as are a failed `git add` and a missing file.
- `Date.now()` is one `now` parameter per command. The source reads the clock up to three times, so its id, `createdAt` and `updatedAt` can differ by a millisecond.
- Commands.Extension.ResolveIssue: the source mutates the tree item's issue object in place before saving, so the item keeps the new status until the view refreshes. The model builds a new issue value, so aliasing between views and the store is not captured. The same holds for ApproveIssue and ReplyToIssue.
- `path.relative` and `path.basename` are parameters: a function from path to relative path, and a file name.
- `String.prototype.trim` is modelled on the ECMAScript white space set, and `toLowerCase` only on ASCII letters. Statuses are ASCII, so nothing the model uses depends on other letters.
- GitSync.SyncIssuesToGit: the snapshot is grouped with the intended dictionary (`GitSync.Group`), not with the plain-object loop of `src/services/gitService.ts:82-95`. When a valid issue under the root has an inherited property name (`constructor`, `toString`, …) as its relative path, the code as written throws. The sync then catches the error and returns false without writing the snapshot or `issues.json`, but the model returns true and writes both. The code as written is `GitSync.GroupAsWritten`, and `GitSync.GroupAsWrittenFails` states exactly when it fails (see Findings).
- Commands.Extension.SyncMyIssues: it inherits the success condition of `GitSync.SyncIssuesToGit`, so it too writes the files where the code as written fails on an inherited-name relative path.
- Commands.Extension.SyncReviewIssues: the same as SyncMyIssues.
- Commands.Extension.SyncWithGit: its `ok` is true where the code as written returns false on an inherited-name relative path, for the reason given for `GitSync.SyncIssuesToGit`.
- GitSync.ExpandTemplate: `String.prototype.replace` is modelled with a literal replacement. `$`-patterns in the substituted values are not interpreted.
- GitSync.ExpandTemplateWithoutPlaceholders: the expansion is stated only for a template without placeholders and, through `GitSync.DefaultTemplateExpands`, for the default template with values that contain no `{`.
- The `codeRiver.gitIntegration.syncMethod` setting and `syncAsIssues` only show a message, so they are left out. `syncAsComments` is never called and is left out too.
- `addCommentToFile` is never called. Its text is modelled (`GitSync.CommentFor`), but inserting it into the document is not.
- The configuration's `update` takes effect at once. The source's pending promise, and its failure path that only logs, are not modelled.
- `codeRiver.showOnlyWorkspaceIssues` and the open folders are parameters of the tree of all issues.

## Findings

| source | as written | input that shows it | evidently intended | confidence | as-written member | corrected member |
|---|---|---|---|---|---|---|
| src/services/gitService.ts:82-95 | issues are grouped in a plain object `{}`, and `!newComments[relativePath]` decides whether to start a group | an issue on a file named `constructor` (or `toString`, `valueOf`, …) at the workspace root: the inherited property is truthy, so no array is made and `.push` throws; `syncIssuesToGit` catches the error and returns false, and neither the snapshot nor `issues.json` is written (`GitSync.GroupAsWritten` gives None). `GitSync.SyncIssuesToGit` uses the corrected grouping and succeeds there | every relative path gets its own group | not executed | GitSync.GroupAsWritten, GitSync.ConstructorFileBreaksGrouping | GitSync.Group, GitSync.GroupMembers |
