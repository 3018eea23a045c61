# Project registry and kanban drag handling, modelled in Dafny

This project models two pieces of a kanban web application that runs coding
agents in terminal sessions.

- **Project registry** (`src/app/actions/project.ts`): the server actions that
  register a git repository as a project (`registerProject`), delete one
  (`deleteProject`), list its branches (`getProjectBranches`), and register every
  repository found under a directory in one go (`scanAndRegisterProjects`, with
  its inner `resolveProjectName`). A bulk scan walks the discovered paths in
  order. It skips a path whose `"<host>:<path>"` key is already registered. For
  any other path it looks up the default branch, picks a display name that is not
  taken yet and saves the project. Every path ends up in exactly one of the
  `registered`, `skipped` or `errors` lists of the `ScanResult`.
- **Board** (`src/components/Board.tsx`): the `COLUMNS` table and the `setTasks`
  updater of `handleDragEnd`. The updater moves a card within a column or from
  one column to another. It also fires `reorderTasks` or `updateTaskStatus`.

Modules:

| file | module | contents |
|---|---|---|
| `wrappers.dfy` | `Wrappers` | `Option` and `Result` |
| `node_path.dfy` | `NodePath` | `path.basename` and `path.dirname`, following Node's POSIX algorithm |
| `project_naming.dfy` | `ProjectNaming` | `resolveProjectName`, written as a method with its `while` loop, and the function `ResolvedName` that specifies it |
| `projects.dfy` | `Projects` | the `Project` record, the skip key, and `ProjectStore`, a class that stands in for the project table |
| `scan_spec.dfy` | `ScanSpec` | `ScanUpTo`, the state of a bulk scan after its first `k` paths, and the lemmas about it |
| `project_actions.dfy` | `ProjectActions` | the four server actions as methods over a `ProjectStore` |
| `board.dfy` | `Board` | the column table and `HandleDragEnd` |

The git helpers and `repo.save` are parameters of the server actions:

- `validateGitRepo` is a boolean.
- `getDefaultBranch` is a `Result` that may carry a thrown value.
- `repo.save` is a `SaveOutcome`.
- `listBranches` is a function parameter.
- `scanGitRepos` is given as its result, the list `repoPaths`.

In a bulk scan, the i-th entries of `branchLookups` and `saves` answer the calls
made for the i-th path, if those calls are made. `ScanAndRegisterProjects` is
proved equal to `ScanUpTo`: same result lists, same rows appended to the store,
same next id. The lemmas in `ScanSpec` state what the scan promises about that
function.

## Model

| member | source | states |
|---|---|---|
| NodePath.TrimmedEndDropsSlashes | src/app/actions/project.ts:108 | `TrimmedEnd` drops exactly the trailing run of '/': everything dropped is '/', and what is left does not end in '/' |
| NodePath.AfterLastSlashFindsSegment | src/app/actions/project.ts:108 | `AfterLastSlash` is the start of the last segment: no '/' from there to the end, and a '/' just before it unless it is 0 |
| NodePath.BaseNameHasNoSlash | src/app/actions/project.ts:108 | `BaseName` (`path.basename`) returns a single segment: it contains no '/' |
| NodePath.BaseNameOfJoin | src/app/actions/project.ts:108 | for `d/b` with a non-empty last segment `b` without '/', the base name is `b`, whatever `d` is |
| NodePath.BaseNameIgnoresTrailingSlash | src/app/actions/project.ts:108 | a trailing '/' does not change the base name |
| NodePath.DirEndFindsSegmentStart | src/app/actions/project.ts:114 | once a non-'/' character has been met, the `dirname` scan stops at the nearest '/' to its left, which ends the directory part |
| NodePath.DirEndSkipsTrailingSlashes | src/app/actions/project.ts:114 | before any non-'/' character, the scan passes over trailing '/' characters |
| NodePath.DirEndWithoutSlash | src/app/actions/project.ts:114 | with no '/' after index 0, the scan finds no directory part |
| NodePath.DirName | src/app/actions/project.ts:114 | `path.dirname` is ".", "/", "//", or a proper prefix of the path |
| NodePath.DirNameOfJoin | src/app/actions/project.ts:114 | for `d/b` with a non-empty last segment `b` without '/', the directory is `d`, unless `d` is the root "/" |
| NodePath.DirNameIgnoresTrailingSlash | src/app/actions/project.ts:114 | a trailing '/' does not change the directory of a non-empty path |
| NodePath.DirNameOfSegment | src/app/actions/project.ts:114 | a name with no '/' has directory "." |
| ProjectNaming.TwoSegmentPath | src/app/actions/project.ts:108-115 | for `/a/b`, the base name is `b`, the directory is `/a`, and the `parent/base` name is `a/b` |
| ProjectNaming.CombinedNameOfJoin | src/app/actions/project.ts:114-115 | `CombinedName` (`parent/base`) of a path ending in segments `a/b`, neither containing '/', is `a/b`, whatever precedes them |
| ProjectNaming.Digit | src/app/actions/project.ts:122 | a digit below 10 prints as a character between '0' and '9' |
| ProjectNaming.DecimalString | src/app/actions/project.ts:122 | the printed counter is never empty, and is a single character exactly when the counter is below 10 |
| ProjectNaming.DecimalStringDigits | src/app/actions/project.ts:122 | every character of the printed counter is a decimal digit |
| ProjectNaming.NumberedShape | src/app/actions/project.ts:122-125 | `Numbered` (`${baseName}-${counter}`) is the base name, a '-', and one or more decimal digits |
| ProjectNaming.DecimalStringInjective | src/app/actions/project.ts:122-125 | two counters that print the same are equal |
| ProjectNaming.NumberedInjective | src/app/actions/project.ts:122-125 | two counters give the same `base-n` name only when they are equal |
| ProjectNaming.NumberedNotTakenBelow | src/app/actions/project.ts:121-124 | `base-n` differs from `base-k` for every k below n, so each counter step rules out one more name of the finite set and the search ends |
| ProjectNaming.FirstFreeSuffix | src/app/actions/project.ts:121-125 | the counter found is at least the start value; its `base-n` is free; every smaller counter from the start is taken |
| ProjectNaming.ResolvedName | src/app/actions/project.ts:107-128 | the chosen name is never in the running set of taken names |
| ProjectNaming.ResolveProjectName | src/app/actions/project.ts:107-128 | the result is absent from the running set, which then becomes the old set plus that name; precedence: the base name if free, else `parent/base` if free, else `base-n` for the least free n >= 2 |
| ProjectNaming.NamingExamples | src/app/actions/project.ts:107-127 | for `/w/x`, the names go `x`, then `w/x`, then `x-2`, then `x-3` as the running set fills up |
| Projects.NormalizeHost | src/app/actions/project.ts:59 | `sshHost \|\| null`: an absent or empty host is stored as null; any other host is kept as given |
| Projects.PathKeyOfNormalizedHost | src/app/actions/project.ts:102 | a stored project gives the same skip key as the host and path it was registered with |
| Projects.PathKeyNotInjective | src/app/actions/project.ts:131 | the skip key is a plain string: the pairs (`a`, `b:/c`) and (`a:b`, `/c`) share one key |
| Projects.PathKeyInjectiveWithoutColon | src/app/actions/project.ts:131 | `PathKey`, the skip key: when neither host contains ':', equal keys mean the same host text and the same path |
| Projects.FindByName | src/app/actions/project.ts:48 | a project is found exactly when the name is taken, and the one found has that name |
| Projects.FindById | src/app/actions/project.ts:70 | a project is found exactly when the id exists, and the one found has that id |
| Projects.WithoutIdMembers | src/app/actions/project.ts:73 | `WithoutId`, the rows left by a delete: exactly the rows whose id differs |
| Projects.WithoutIdRemovesOne | src/app/actions/project.ts:73 | when ids are distinct, removing by id takes out exactly that one row and keeps the others in order |
| Projects.WithoutIdAbsent | src/app/actions/project.ts:71 | removing an id that no row carries changes nothing |
| Projects.DeleteIndexKeepsDistinct | src/app/actions/project.ts:73 | removing a row keeps ids and names pairwise distinct |
| Projects.ProjectStore.Save | src/app/actions/project.ts:55-62 | saving a new name appends exactly one row, with a fresh id and the given fields; the store stays valid |
| Projects.ProjectStore.Remove | src/app/actions/project.ts:73 | the rows become those with a different id; the store stays valid |
| ScanSpec.StepFilesPathOnce | src/app/actions/project.ts:130-155 | `Step`, one loop iteration, files its path in exactly one list and leaves the others alone: `skipped` exactly when the key was taken; `registered` (with the resolved name) exactly when the branch lookup and the save both succeed; otherwise an error entry for that path |
| ScanSpec.StepOnlyAppends | src/app/actions/project.ts:130-155 | one iteration only appends to the lists and saved rows, and only adds to the running key and name sets |
| ScanSpec.ScanOnlyAppends | src/app/actions/project.ts:130-156 | `ScanUpTo`, the state after the first paths: the lists and rows after `j` paths are prefixes of those after any later `k`, and the running sets only grow |
| ScanSpec.ErrorEntryNamesPath | src/app/actions/project.ts:152-154 | `ErrorEntry`/`ThrownText`: an error entry is the path, ": ", then the error's message, or "등록 실패" when the thrown value is not an `Error` |
| ScanSpec.StartTracks | src/app/actions/project.ts:100-104 | the running key and name sets start as the keys and names of the stored projects |
| ScanSpec.StepTracks | src/app/actions/project.ts:130-156 | one iteration keeps the running sets in line with the stored projects plus those saved so far, and keeps `registered` equal to the names saved |
| ScanSpec.SavedStepTracks | src/app/actions/project.ts:139-150 | after a successful save, the new key, the new name and the new row are recorded together |
| ScanSpec.ScanTracks | src/app/actions/project.ts:130-156 | after any number of paths, the keys are those of stored and saved rows; taken names cover both; saved names are disjoint from stored ones; `registered` lists the saved names in order |
| ScanSpec.ScanNamesCoverStore | src/app/actions/project.ts:104 | every name in the store during a scan is in the running name set |
| ScanSpec.ScanAccountsForEveryPath | src/app/actions/project.ts:130-156 | after k paths, the registered, skipped and error lists hold k entries in total: each path is counted exactly once |
| ScanSpec.StepKeepsNamesDistinct | src/app/actions/project.ts:139-150 | one iteration keeps the names saved by the scan pairwise distinct |
| ScanSpec.ScanAddsDistinctNames | src/app/actions/project.ts:139-150 | the projects saved by one scan have pairwise distinct names |
| ScanSpec.ScanRegistersFreshNames | src/app/actions/project.ts:104 | the registered names are pairwise distinct and none belonged to a stored project; the i-th saved row carries the i-th registered name |
| ScanSpec.ScanKeepsNamesDistinct | src/app/actions/project.ts:148-150 | stored projects and newly saved ones together still have pairwise distinct names |
| ScanSpec.ScanOfRegisteredPathsSkipsAll | src/app/actions/project.ts:130-135 | when every path's key is taken, each path is appended to `skipped` and nothing else changes |
| ScanSpec.ScanKeysCoverPaths | src/app/actions/project.ts:131-150 | if a scan adds no error, every scanned path's key is in the running key set afterwards |
| ScanSpec.ScanErrorsGrow | src/app/actions/project.ts:149-155 | the error list and the key set only grow during a scan |
| ScanSpec.RescanSkipsEverything | src/app/actions/project.ts:100-103 | re-running an error-free scan on the same paths, against the store it left, registers nothing, reports no errors and skips every path |
| ScanSpec.FailedSaveConsumesName | src/app/actions/project.ts:138-155 | a save that throws still takes its name: the next `x` repository becomes `w/x`, and the error reads `/a/x: 등록 실패` |
| ScanSpec.FailedBranchLookupKeepsName | src/app/actions/project.ts:138-139 | a branch lookup that throws comes before naming, so the next `x` repository still gets `x` |
| ProjectActions.RegisterProject | src/app/actions/project.ts:32-65 | rejections, in order: an empty name or path (required-field message), an invalid repository, a taken name; a throw from branch lookup or save passes through; in all of these the store is unchanged. Registration happens exactly when every guard passes and both calls succeed, and then one row is appended with the looked-up branch and the normalised host |
| ProjectActions.DeleteProject | src/app/actions/project.ts:68-76 | returns true exactly when the id exists; false leaves the store unchanged; true removes exactly that row, so the store shrinks by one |
| ProjectActions.GetProjectBranches | src/app/actions/project.ts:163-169 | an unknown id gives `[]`; otherwise the answer of `listBranches` for the project's path and host, including a throw |
| ProjectActions.ScanAndRegisterProjects | src/app/actions/project.ts:88-160 | an empty scan returns three empty lists and leaves the store alone; otherwise the result, the rows appended and the next id are those of `ScanUpTo` over all paths; the store stays valid |
| Board.ColumnsListEveryStatusOnce | src/components/Board.tsx:22-27 | the columns are Todo, Progress, Review, Done, in that order; every status appears, and none twice |
| Board.TotalAfterUpdate | src/components/Board.tsx:62-81 | replacing one column keeps all four columns and changes the total by the difference in length |
| Board.InsertPosition | src/components/Board.tsx:68 | `splice(i, 0, x)` inserts at `i`, or at the end when `i` is past it |
| Board.RemoveAt | src/components/Board.tsx:64-65 | `splice(i, 1)` shortens the column by one |
| Board.RemoveAtShifts | src/components/Board.tsx:65 | elements before `i` stay in place and later ones move down by one: the others keep their relative order |
| Board.RemoveAtMultiset | src/components/Board.tsx:65 | exactly the element at `i` is taken out |
| Board.InsertAt | src/components/Board.tsx:68 | the column grows by one and holds the inserted card at the insertion point |
| Board.InsertAtShifts | src/components/Board.tsx:78 | elements before the insertion point stay in place and the rest move up by one |
| Board.InsertAtMultiset | src/components/Board.tsx:78 | exactly the inserted card is added |
| Board.MoveWithinColumnPermutes | src/components/Board.tsx:64-69 | a same-column move is a permutation of the column |
| Board.MoveAcrossColumnsConserves | src/components/Board.tsx:75-81 | a cross-column move: the two columns together lose the picked card and gain its copy with the new status |
| Board.RemoveInserted | src/components/Board.tsx:64-68 | removing at the insertion point undoes an insertion |
| Board.ReinsertRemoved | src/components/Board.tsx:64-68 | dropping a card back where it was picked up leaves the column as it was |
| Board.TaskIdsOfRemoveAt | src/components/Board.tsx:65-73 | `TaskIds` (`tasks.map((t) => t.id)`) of a column with a card taken out is the id list with that id taken out at the same index |
| Board.TaskIdsOfInsertAt | src/components/Board.tsx:68-73 | the id list of a column with a card inserted has the card's id at the same position |
| Board.ReorderedIdsArePermutation | src/components/Board.tsx:71-74 | the ids sent to `reorderTasks` are the column's ids with the moved id relocated: the same ids, in the new order |
| Board.HandleDragEnd | src/components/Board.tsx:53-87 | no destination: the board is unchanged and nothing is called. Otherwise every column is still present, the total card count is kept, and every column other than source and destination is untouched. Same column: the card is removed from the source index and inserted at the destination index, and `reorderTasks` gets the new id order. Different columns: the source loses the card; the destination gains a copy with only `status` changed, at the destination index; `updateTaskStatus(draggableId, destStatus)` is called |

## Left out

- `scanGitRepos`, `validateGitRepo`, `getDefaultBranch` and `listBranches` run git locally or over SSH. They are parameters here: the list of found paths, a boolean, and per-item outcomes that may be a throw. For the same reason, `rootPath` is not a parameter of `ScanAndRegisterProjects`; only the paths `scanGitRepos` returns for it are.
- ProjectActions.ScanAndRegisterProjects: requires one branch-lookup outcome and one save outcome per scanned path. The entries for skipped paths are never consulted.
- The ORM and the database are left out: `getProjectRepository`, `find`, `findOneBy`, `create`, `save`, `remove`, and the foreign-key cascade that clears `projectId` on tasks when a project is deleted. `ProjectStore` is an in-memory sequence of rows.
  - Generated uuid primary keys are a counter `nextId`, and ids are `nat`.
  - `createdAt` and the `order: createdAt ASC` of `getAllProjects` are not modelled, and neither are `getAllProjects` and `getProjectById` themselves. They are plain reads with no logic beyond the query.
- ProjectActions.GetProjectBranches: requires the store invariant `Valid()` (among other things, distinct ids), which the constructor establishes and every operation preserves. With duplicate ids, `findOneBy` could return any of the matching rows, and the model does not say which.
- Projects.ProjectStore.Save: requires the name to be free. Both callers guarantee this: `registerProject` through its duplicate-name guard, and the scan through `resolveProjectName`. A save that fails for other reasons is the `SaveThrew` outcome.
- `registerProject` does not check whether the same host and path are already registered, and neither does the model. Such a repository can be registered twice under two names.
- `revalidatePath("/")` and the JSON `serialize` round trip are left out. They are framework cache and serialisation glue.
- Async/await ordering and concurrent server-action calls are left out. So are the fire-and-forget `reorderTasks` and `updateTaskStatus` calls from `handleDragEnd` (they are returned as a value instead) and React running an updater twice in strict mode.
- Board.HandleDragEnd: requires that the source index lies inside the source column and that `draggableId` is the moved card's id. The drag library guarantees the first. `TaskCard` sets `draggableId={task.id}` (src/components/TaskCard.tsx:21), which guarantees the second.
- Board.HandleDragEnd: works on values (`map` and `seq`), not on the copied JavaScript arrays that the updater mutates with `splice`. The copies make aliasing impossible in the source, so nothing is lost. Both splice effects are modelled: removal at an index, and insertion with the index clamped to the end.
- The rest of `Board.tsx` (rendering, modals, context menu, mount flag), the other UI components, `src/app/actions/auth.ts` and the kanban server actions in `@/app/actions/kanban` are not part of this model.
- `path.basename` and `path.dirname` are modelled for POSIX paths only. The Windows variants are not part of this model.
