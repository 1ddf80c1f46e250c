# UEK 295 backend: access rules, identity resolution and ERD generators in Dafny

This project models the core of a NestJS/TypeORM REST backend for todos, articles and users, plus its documentation scripts. It covers:

- **Services.** The todo, article and user services are classes over an in-memory table (a `map` from id to record).
  - The todo service enforces the admin/owner policy:
    - closed todos are hidden from their owner;
    - users cannot reopen a todo;
    - only admins delete.
  - The article service guards `replace` with an optimistic-concurrency check (version first, then id).
  - The user service:
    - lowercases usernames;
    - rejects a duplicate username with `Conflict`;
    - lets only `isAdmin` be patched;
    - answers a missed read with "nothing" rather than an error.
- **Authentication guard.** A fixed decision sequence: public route, then the `Authorization: Bearer <token>` header, then token verification, then user lookup. On success the user is attached to the request.
- **Mermaid ERD generators.** Two serialisers from entity metadata to `erDiagram` text:
  - the per-module generator, with external-table de-duplication;
  - the global export.
- **String helpers.** The heading-anchor slug generator `toAnchorId` and the platform mapping `normalizeCommand`.

## How the model is built

Modules follow the program's structure:

| file | module | what it holds |
|---|---|---|
| `common.dfy` | `Common` | `Option`, `Result`, the five error kinds, and the version-column contract of the store |
| `todo.dfy`, `article.dfy`, `user.dfy` | `Todo`, `Article`, `User` | one service class each, and the pure overlays the services apply (`Object.assign`, object spreads) |
| `auth.dfy` | `Auth` | JavaScript `split`, header parsing, the `Request` class and the guard |
| `erd.dfy` | `Erd` | what both ERD scripts share: `toTableName`, the column and relation lines, the cardinality table |
| `erd_per_module.dfy`, `erd_export.dfy` | `ErdPerModule`, `ErdExport` | one ERD script each |
| `util.dfy` | `Util` | the two string helpers |

### Services

- A service method's contract gives the whole new table and the returned value for every branch.
- `save` writes the record under its id.
- The version stamp comes from a `VersionColumn` parameter, as an assumption about the store. `Common.Stamped` gives the version `save` writes:
  - a new row with no version gets `initial`;
  - a record whose version differs from the stored one (or that lands under a new key) keeps it, as TypeORM writes a changed version column as given;
  - a record that still carries the stored version gets `bump` of it.

### ERD generators

The generators accumulate a string `out` in nested loops. The model keeps those loops as methods and proves that each builder prints exactly the text of a specification function:

- `DiagramText(ModuleItems(...))` for the per-module generator;
- `ExportText(...)` for the global export.

The diagram properties are then proved about those functions:

- which relations get a line;
- which tables are rendered;
- that an external table appears once at most.

## Model

| member | source | states |
|---|---|---|
| Todo.AssignUpdate | src/modules/todo/todo.service.ts:115 | `Object.assign` with an update payload changes only title, description and isClosed; id, version, creator and updater are kept |
| Todo.AssignReplace | src/modules/todo/todo.service.ts:150 | `Object.assign` with a replace payload takes id and version from the payload and keeps creator and updater |
| Todo.UsersCannotReopen | src/modules/todo/todo.service.ts:108-115 | a non-admin update that passes the checks never leaves a closed todo open |
| Todo.Listed | src/modules/todo/todo.service.ts:53-59 | the visibility rule of `findAll` and `findOne`: all rows for an admin, the caller's open rows otherwise; `FindAll` and `FindOne` state that they follow it |
| Todo.UpdateAllowed | src/modules/todo/todo.service.ts:108-113 | the permission rule of `update`: admins always, owners unless they reopen a closed todo; `Update`, `UsersCannotReopen` and `AdminMayReopen` state its consequences |
| Todo.AdminMayReopen | src/modules/todo/todo.service.ts:108-115 | an admin passes the checks with `isClosed: false`, and the result is open |
| Todo.AssignUpdateIdempotent | src/modules/todo/todo.service.ts:115 | applying the same partial update twice equals applying it once |
| Todo.TodoService.Save | src/modules/todo/todo.service.ts:118 | the row is written under its id; its version is bumped when it still carries the stored one and kept as given otherwise; ids stay fresh |
| Todo.TodoService.Insert | src/modules/todo/todo.service.ts:39 | an inserted row gets the next unused id and the initial version; nothing else in the table changes |
| Todo.TodoService.Create | src/modules/todo/todo.service.ts:33-39 | the stored todo has the payload's title and description, `isClosed = false`, and `createdById = updatedById = userId`, whatever the payload |
| Todo.TodoService.FindAll | src/modules/todo/todo.service.ts:53-59 | an admin gets every row; a non-admin gets exactly the rows they created that are open, each unchanged |
| Todo.TodoService.FindOne | src/modules/todo/todo.service.ts:73-92 | the checks run in source order: an absent id gives `NotFound` for everyone; a non-owner non-admin gets `Forbidden`; an owner of a closed todo gets `NotFound`; otherwise the row; returns Ok exactly when the row is listed |
| Todo.TodoService.Update | src/modules/todo/todo.service.ts:105-118 | covers `NotFound`, `Forbidden` for a non-owner, and `Forbidden` for a user reopening; succeeds iff `UpdateAllowed`; on success the row is overlaid with the payload, `updatedById = userId` and the version is bumped; on error the table is unchanged |
| Todo.TodoService.UpdateAdmin | src/modules/todo/todo.service.ts:131-137 | no role check; `NotFound` on an absent id; otherwise only `isClosed` and the version change; `updatedById` is kept |
| Todo.TodoService.Replace | src/modules/todo/todo.service.ts:148-153 | no role, id or version check; the row is overlaid with every payload field including id and version, and written under the payload's id; the stored version is the payload's when the payload's id holds another version or no row, and its bump when it holds that version |
| Todo.TodoService.Delete | src/modules/todo/todo.service.ts:171 | the repository removal: the row leaves the table and nothing else changes |
| Todo.TodoService.Remove | src/modules/todo/todo.service.ts:165-176 | a non-admin gets `Forbidden` before any lookup; an absent id gives `NotFound`; otherwise the row leaves the table and the returned copy carries `updatedById = userId` |
| Article.EntityToDto | src/modules/article/service/article.service.ts:39-51 | the projection every method returns; `EntityToDtoRoundTrip` states that it loses no modelled field |
| Article.EntityToDtoRoundTrip | src/modules/article/service/article.service.ts:39-51 | the projection copies every modelled field unchanged: reading it back gives the entity |
| Article.MergeReplace | src/modules/article/service/article.service.ts:126-131 | the spread keeps `createdById`, takes the payload's version, sets `updatedById = userId` and `id` = the path id |
| Article.MergeUpdate | src/modules/article/service/article.service.ts:151-156 | the spread keeps `createdById` and the stored version, sets `updatedById = userId` and `id` = the path id |
| Article.ReplaceConflict | src/modules/article/service/article.service.ts:116-125 | the guard of `replace`: a version mismatch or an id mismatch; `ArticleService.Replace` states that it fails with `Conflict` exactly then |
| Article.ReplaceKeepsIdentity | src/modules/article/service/article.service.ts:116-131 | a replace that passes the guard changes only the payload's three data fields and `updatedById` |
| Article.ReplayedReplaceConflicts | src/modules/article/service/article.service.ts:116-131 | once a replace is applied, the same payload conflicts with the row it wrote, provided the store's bump never returns its argument |
| Article.ReplayedReplace | src/modules/article/service/article.service.ts:113-132 | the same replace sent twice to the service: if the first succeeds, the second returns `Conflict` and the table stays as the first left it; if the first fails, the second fails the same way and nothing is written |
| Article.ArticleService.Save | src/modules/article/service/article.service.ts:126 | a stored row is written back under its id; its version is bumped when the record still carries the stored one and kept as given otherwise |
| Article.ArticleService.Create | src/modules/article/service/article.service.ts:66-70 | the new article gets the next id, the initial version, and `createdById = updatedById = userId` |
| Article.ArticleService.FindAll | src/modules/article/service/article.service.ts:78-83 | the projection of every stored article, keyed by id |
| Article.ArticleService.FindOne | src/modules/article/service/article.service.ts:92-95 | `NotFound` on an absent id, otherwise the projection of the row |
| Article.ArticleService.Replace | src/modules/article/service/article.service.ts:113-132 | `NotFound` on an absent id; `Conflict` on a version mismatch or an id mismatch; succeeds iff neither; on error nothing is written; on success the merged row is stored with a bumped version and returned |
| Article.ArticleService.Update | src/modules/article/service/article.service.ts:149-157 | `NotFound` on an absent id (table unchanged), otherwise always succeeds, with no version comparison, storing the merged row |
| Article.ArticleService.Remove | src/modules/article/service/article.service.ts:168-171 | `NotFound` on an absent id; otherwise the row leaves the table and its projection is returned |
| User.ToReturnUserDto | src/user/dto/return-user.dto.ts:32-42 | the projection every user method returns; `ProjectionHidesHash` and `ProjectionDeterminesAllButHash` state what it keeps and what it drops |
| User.ProjectionHidesHash | src/user/dto/return-user.dto.ts:32-42 | the returned user does not depend on the password hash |
| User.ProjectionDeterminesAllButHash | src/user/dto/return-user.dto.ts:32-42 | the projection copies every other modelled field: two users with the same projection differ at most in their hash |
| User.UserService.Create | src/user/user.service.ts:20-40 | a taken lowercased username gives `Conflict`; any other store failure gives `InternalError`; Ok iff neither; on error the table is unchanged; on success a row with the lowercased name, the hash, `isAdmin = false` and version 1 is added, and usernames stay unique |
| User.UserService.FindAll | src/user/user.service.ts:44-48 | the projection of every stored user, keyed by id |
| User.UserService.FindOne | src/user/user.service.ts:51-56 | `None` (the source's `null`) on an absent id, otherwise the projection |
| User.UserService.FindByUsername | src/user/user.service.ts:59-62 | the row whose username equals the argument exactly, `None` iff there is none |
| User.UserService.Update | src/user/user.service.ts:65-76 | `NotFound` on an absent id; otherwise only `isAdmin` changes, and only when the payload holds it |
| User.UserService.Remove | src/user/user.service.ts:79-86 | `NotFound` on an absent id; otherwise the row leaves the table and its projection is returned |
| Auth.Split | src/auth/auth.guard.ts:96 | `split(' ')` returns at least one piece; `SplitJoin` and `SplitHead` state the rest |
| Auth.SplitJoin | src/auth/auth.guard.ts:96 | `split(' ')` loses nothing: joining the pieces gives the header back, and no piece holds a space |
| Auth.SplitHead | src/auth/auth.guard.ts:96 | the first piece is the text before the first space, and the rest is the split of what follows it |
| Auth.ExtractTokenFromHeader | src/auth/auth.guard.ts:95-98 | no header gives no token; `ExtractBearerToken` and `ExtractedTokenShape` state exactly which headers give which token |
| Auth.ExtractBearerToken | src/auth/auth.guard.ts:95-98 | every header `Bearer <token>`, with or without further space-separated text, yields that token |
| Auth.ExtractedTokenShape | src/auth/auth.guard.ts:95-98 | a header yields a token only when it starts with `Bearer ` followed by that token, which runs to the next space or the end |
| Auth.AuthGuard.ValidateTokenAndFetchUser | src/auth/auth.guard.ts:65-93 | a verifier rejection gives `Unauthorized`; a subject with no stored user gives `Unauthorized`; otherwise the user's projection |
| Auth.AuthGuard.CanActivate | src/auth/auth.guard.ts:25-63 | a public route passes without touching the request; a missing or empty token gives `Unauthorized`; otherwise it succeeds iff the subject resolves to a stored user, which is then attached to the request; it never returns false, and every denial is `Unauthorized` |
| Erd.ReplaceNonWord | scripts/generate-erd-per-module.mjs:19 | same length; only `[A-Za-z0-9_]`; those characters are kept in place and every other character becomes `_` |
| Erd.ToTableName | scripts/generate-erd-per-module.mjs:17-21 | the table name has the input's length and only `[A-Z0-9_]`; `ToTableNameChars` states what becomes of each character |
| Erd.ToUpperCase | scripts/generate-erd-per-module.mjs:20 | keeps the length; each `a`-`z` becomes its upper-case letter and every other character is kept |
| Erd.ToTableNameChars | scripts/generate-erd-per-module.mjs:17-21 | character by character: a lower-case ASCII letter becomes its upper-case letter, `[A-Z0-9_]` is kept, and every other character becomes `_` |
| Erd.ToTableNameIdempotent | scripts/generate-erd-per-module.mjs:17-21 | sanitising a sanitised name changes nothing |
| Erd.ToTableNameFixedPoints | scripts/erd-export.ts:7-9 | a name comes through unchanged iff it is made of `[A-Z0-9_]` |
| Erd.ToTableNameIgnoresCase | scripts/erd-export.ts:7-9 | upper-casing a name first does not change its table name |
| Erd.ToTableNameCaseInsensitive | scripts/erd-export.ts:7-9 | two names that differ only in the letter case of some ASCII letters give the same table name |
| Erd.Cardinality | scripts/generate-erd-per-module.mjs:127-150 | the left marker is `}o` exactly for many-to-one and many-to-many, the right marker `o{` exactly for one-to-many and many-to-many, and the double bar otherwise |
| ErdPerModule.UniqueColumnsMembers | scripts/generate-erd-per-module.mjs:33-40 | a column is in `uniqueCols` iff some unique constraint lists it |
| ErdPerModule.CompositeUniques | scripts/generate-erd-per-module.mjs:42-47 | every composite entry has more than one column |
| ErdPerModule.CompositeUniquesMembers | scripts/generate-erd-per-module.mjs:42-47 | the composite list holds exactly the constraints over more than one column, with their name and columns |
| ErdPerModule.CompositeUniquesAppend | scripts/generate-erd-per-module.mjs:42-47 | the filter keeps the input order |
| ErdPerModule.UniqueInfoForMeta | scripts/generate-erd-per-module.mjs:31-50 | the loops compute exactly the unique-column set and the composite list |
| ErdPerModule.BlockRows | scripts/generate-erd-per-module.mjs:64-69 | one row per column in order; a row carries `PK` iff its column is primary and `UK` iff some unique constraint lists it; a missing type prints as `unknown` |
| ErdPerModule.ModuleErd.RenderTable | scripts/generate-erd-per-module.mjs:53-79 | appends exactly the table block: external marker, opening line, rows, closing line, composite-unique comments |
| ErdPerModule.ModuleErd.RenderColumns | scripts/generate-erd-per-module.mjs:64-69 | appends one line per column, in order |
| ErdPerModule.ModuleErd.RenderCompositeUniques | scripts/generate-erd-per-module.mjs:74-78 | appends one comment per composite constraint, in order |
| ErdPerModule.ModuleErd.RenderExternalTable | scripts/generate-erd-per-module.mjs:87-94 | a table of the module or one already rendered prints nothing; otherwise the table is recorded and its external block appended |
| ErdPerModule.ModuleErd.RenderRelation | scripts/generate-erd-per-module.mjs:104-152 | appends exactly the items of one relation step and records its external table |
| ErdPerModule.ModuleErd.RenderRelationsOf | scripts/generate-erd-per-module.mjs:100-153 | the inner relations loop appends the relations fold of one entity |
| ErdPerModule.ModuleErd.RenderModuleTables | scripts/generate-erd-per-module.mjs:82 | the first loop appends the module's own table blocks in order |
| ErdPerModule.ModuleErd.RenderModuleRelations | scripts/generate-erd-per-module.mjs:99-154 | the second loop appends the relations fold of all entities |
| ErdPerModule.SwitchCardinality | scripts/generate-erd-per-module.mjs:127-150 | the `switch` computes the fixed cardinality table |
| ErdPerModule.BuildErdForEntityMetas | scripts/generate-erd-per-module.mjs:23-158 | prints exactly the diagram of the module's items |
| ErdPerModule.DiagramTextFrame | scripts/generate-erd-per-module.mjs:28 | the diagram starts with `erDiagram\n` and ends with `\n` |
| ErdPerModule.RelationStep | scripts/generate-erd-per-module.mjs:104-152 | one pass of the relations loop, as items and the updated set of external tables; `RelationStepShape` states its behaviour |
| ErdPerModule.ModuleItems | scripts/generate-erd-per-module.mjs:81-154 | the module's table blocks, then the relations fold; `ModuleEdges`, `ModuleTables` and `ModuleExternals` state which items it holds |
| ErdPerModule.DiagramText | scripts/generate-erd-per-module.mjs:28-157 | header, items, final newline; `DiagramTextFrame` states the frame and `BuildErdForEntityMetas` that the builder prints it |
| ErdPerModule.RelationStepShape | scripts/generate-erd-per-module.mjs:104-152 | one relation prints its edge exactly when it is emitted, and at most one new external table, which is neither a module table nor rendered before |
| ErdPerModule.RelationsFoldEdges | scripts/generate-erd-per-module.mjs:103-153 | the inner loop prints the edge of exactly the emitted relations |
| ErdPerModule.RelationsFoldExternals | scripts/generate-erd-per-module.mjs:87-94 | the inner loop prints no external table twice, none of the module's or of those before it, and records exactly those it printed |
| ErdPerModule.MetasFoldEdges | scripts/generate-erd-per-module.mjs:99-154 | the outer loop prints the edge of exactly the emitted relations of all entities |
| ErdPerModule.MetasFoldExternals | scripts/generate-erd-per-module.mjs:85-94 | across all entities, no external table twice and none of the module's |
| ErdPerModule.ModuleEdges | scripts/generate-erd-per-module.mjs:104-120 | the diagram has a relation line iff the relation has a target, is on the owning side (`isOwning` or `joinColumnsCount > 0`), and its target is in the module unless external relations are included |
| ErdPerModule.ModuleTables | scripts/generate-erd-per-module.mjs:81-94 | the non-external blocks are exactly the module's entities; external blocks appear only with external relations included |
| ErdPerModule.ModuleExternals | scripts/generate-erd-per-module.mjs:87-94 | every external table is rendered once at most, never for a table of the module, and never with external relations off |
| ErdPerModule.ModuleEdgesStayInside | scripts/generate-erd-per-module.mjs:115-118 | with `includeExternalRelations = false` every relation line targets a table of the module |
| ErdExport.SqlTypeFromColumn | scripts/erd-export.ts:11-20 | a string type is returned as it is; a function gives `string` iff its name is `string`; anything else gives `unknown` |
| ErdExport.StringConstructorIsUnknown | scripts/erd-export.ts:17-19 | a column typed by the `String` constructor prints as `unknown` |
| ErdExport.ExportRowsMarkers | scripts/erd-export.ts:36-41 | one row per column in order, `PK` iff primary, `UK` iff listed by a unique constraint |
| ErdExport.ExportTableClosed | scripts/erd-export.ts:43 | every table block ends with `  }` and a blank line |
| ErdExport.RelationEdgesMembers | scripts/erd-export.ts:60-98 | a relation gives an edge iff it is on the owning side, whatever its target |
| ErdExport.AllEdgesMembers | scripts/erd-export.ts:57-99 | the export has a relation line exactly for the owning-side relations of all entities; nothing is filtered by module |
| ErdExport.IfCardinality | scripts/erd-export.ts:71-89 | the sequential `if`s compute the same cardinality table as the per-module `switch` |
| ErdExport.AppendTable | scripts/erd-export.ts:29-43 | the body of the table loop appends exactly one table block |
| ErdExport.AppendRelations | scripts/erd-export.ts:58-98 | the body of the relations loop appends the lines of one entity's owning-side relations |
| ErdExport.BuildErdForEntities | scripts/erd-export.ts:22-103 | prints exactly the header, all blocks, all relation lines and the final newline |
| ErdExport.ExportText | scripts/erd-export.ts:22-103 | header, table blocks, relation lines, final newline; `ExportTextFrame`, `AllEdgesMembers` and `BuildErdForEntities` state its frame, its lines and that the builder prints it |
| ErdExport.ExportTextFrame | scripts/erd-export.ts:25-101 | the export starts with `erDiagram\n` and ends with `\n` |
| Util.Without | scripts/util.mjs:11-13 | a character-class deletion never lengthens the text; `WithoutMembers`, `WithoutAppend` and `WithoutIdempotent` state what it keeps |
| Util.WithoutMembers | scripts/util.mjs:11 | a character deletion keeps exactly the characters not deleted |
| Util.WithoutIdempotent | scripts/util.mjs:13 | deleting characters a second time changes nothing |
| Util.DropBrackets | scripts/util.mjs:12 | the `[...]` replacement, scanning left to right; `DropBracketsCopies`, `DropBracketsPair` and `DropBracketsUnclosed` together fix its result on every text |
| Util.DropBracketsKeepsContent | scripts/util.mjs:12 | the bracket replacement deletes only `[` and `]` characters; everything else stays, in order |
| Util.DropBracketsCopies | scripts/util.mjs:12 | text before the first `[` is copied unchanged, and the rest is processed on |
| Util.DropBracketsPair | scripts/util.mjs:12 | a leading `[...]` group, closed by its first `]`, loses its brackets and keeps its content, and the rest is processed on |
| Util.DropBracketsUnclosed | scripts/util.mjs:12 | without a `]`, nothing is changed (an unclosed `[` stays) |
| Util.CollapseNonAlnum | scripts/util.mjs:14 | the result has only `[a-z0-9-]` and no `--`, and starts with the text's first character when that is in `[a-z0-9]` |
| Util.CollapseNonAlnumWordPrefix | scripts/util.mjs:14 | a leading word of `[a-z0-9]` is copied unchanged; text made only of such characters is left alone |
| Util.CollapseNonAlnumLeadingRun | scripts/util.mjs:14 | a leading maximal run outside `[a-z0-9]` becomes exactly one `-` |
| Util.CollapseNonAlnumRun | scripts/util.mjs:14 | word, maximal run, rest: the word is kept, the run becomes exactly one `-`, and the rest follows; applied run by run this fixes the result on every text |
| Util.CollapseNonAlnumKeepsAlnum | scripts/util.mjs:14 | deleting the dashes of the result gives exactly the `[a-z0-9]` characters of the text, in order |
| Util.CollapseDashes | scripts/util.mjs:15 | the `-+` replacement; `CollapseDashesShape` and `CollapseDashesAddsNothing` state its shape on every text, and `CollapseDashesNoop` pins its result only on text without `--`, which is all `ToAnchorId` passes it |
| Util.CollapseDashesNoop | scripts/util.mjs:15 | collapsing dashes leaves a string without `--` unchanged |
| Util.CollapseDashesShape | scripts/util.mjs:15 | after collapsing there is no `--`, and a first character other than `-` stays first |
| Util.CollapseDashesAddsNothing | scripts/util.mjs:15 | collapsing brings in no character that was not in the text |
| Util.TrimDash | scripts/util.mjs:16 | never lengthens the text; `TrimDashKeepsMiddle` states which characters it removes and `TrimDashShape` the shape it leaves |
| Util.TrimDashKeepsMiddle | scripts/util.mjs:16 | a middle that neither starts nor ends with `-` comes back unchanged, with or without one `-` before it and one after it |
| Util.TrimDashShape | scripts/util.mjs:16 | on text without `--`, the result has no `--`, no `-` at either end, and only characters of the text |
| Util.ToAnchorId | scripts/util.mjs:7-17 | the six replacements applied in source order; `ToAnchorIdShape` states the shape of every anchor |
| Util.ToAnchorIdShape | scripts/util.mjs:7-17 | an anchor id has only `[a-z0-9-]`, never `--`, and neither starts nor ends with `-`, whatever lowercasing and normalisation do |
| Util.NormalizeCommand | scripts/util.mjs:28-36 | on other platforms the name is unchanged; on any platform the result is the name or one of the three Windows binaries |
| Util.NormalizeCommandWin32 | scripts/util.mjs:29-35 | on `win32`, `pandoc`, `xelatex` and `mmdc` in any case map to `pandoc.exe`, `xelatex.exe` and `mmdc.cmd`; other names are unchanged |
| Util.NormalizeCommandIgnoresCase | scripts/util.mjs:31-33 | two spellings that lowercase to the same known command map to the same binary |

The todo `findAll` code and its unit test disagree:

- For a non-admin, the code filters on the creator and on `isClosed == false` (src/modules/todo/todo.service.ts:57).
- The unit test only expects a filter on the creator (src/modules/todo/todo.service.spec.ts:86).

The model follows the code: `Todo.TodoService.FindAll` hides closed todos from their owner, consistently with `FindOne`.

The `Scenario` methods (`Todo.ClosedTodoScenario`, `Article.LostUpdateScenario`, `User.DuplicateRegistrationScenario`) chain the service contracts into short histories. Each is proved with assertions:

- a closed todo disappears for its owner and cannot be reopened;
- a stale replace conflicts;
- a second registration in another letter case conflicts.

## Left out

- Controllers, modules, Swagger decorators and DTO validation (class-validator rules such as lengths and the password pattern) are framework glue. Each DTO carries only its declared fields, as the whitelisting validation pipe guarantees; an optional field is an `Option`.
- Todo.AssignUpdate and Todo.AssignReplace: an explicit JSON `null` in an optional field is not modelled. `@IsOptional()` lets `null` through (src/modules/todo/dto/update-todo.dto.ts:6,13,18; src/modules/todo/dto/replace-todo.dto.ts:16,23,28), and `Object.assign` then writes it: `description: null` clears the description, while a `null` title or `isClosed` makes the save fail on a NOT NULL column. The model's `None` only means an absent field.
- JWT verification is the uninterpreted function `verifyAsync`, returning the payload's subject or nothing. Signing and expiry are not modelled.
- argon2 hashing is the uninterpreted function `hashPassword`.
- TypeORM internals are not modelled:
  - the atomic version increment is the `VersionColumn` parameter, an assumption rather than a theorem;
  - creation and update timestamps are omitted from every entity and projection;
  - SQLite constraint codes are not modelled: the unique username column is a check on the table, and any other insert failure is the `storeFault` parameter of `User.UserService.Create`;
  - generated ids come from a `nextId` counter.
- Todo.TodoService.FindAll, Article.ArticleService.FindAll and User.UserService.FindAll: return a map keyed by id. The source returns an array in whatever order the store's `find()` yields, since no ORDER BY is given; that order is not modelled.
- Util.CollapseDashes: its result is pinned only on text without `--`. That is the only text `ToAnchorId` passes it, because the step before leaves no `--`.
- Todo.TodoService.Remove: returns the record as loaded, with `updatedById` replaced; TypeORM's clearing of the removed entity's id is not modelled.
- Article.ArticleService.Remove: returns the projection of the record as loaded; TypeORM's clearing of the removed entity's id by `repo.remove` (src/modules/article/service/article.service.ts:170-171) is not modelled.
- User.UserService.Remove: returns the projection of the record as loaded; TypeORM's clearing of the removed entity's id by `repo.remove` (src/user/user.service.ts:84-85) is not modelled.
- Todo.TodoService.Replace: writes under the payload's id as a plain map update; what TypeORM does when `save` meets a changed primary key is not modelled.
- Todo.TodoService.Save: always writes and stamps the version. TypeORM skips the UPDATE, and so the version bump, when no column of the record changed; the model does not compare columns.
- Article.ArticleService.Save: always writes and stamps the version, with the same simplification as the todo `Save`.
- Concurrency between requests is not modelled: calls are sequential.
- The seed services, logging and correlation ids are left out: they have no effect on the results.
- `articlePrice` is an opaque type `Price`, because it is a floating-point column.
- `toLowerCase` and `normalize('NFKD')` are uninterpreted string functions passed as parameters (`lower`, `nfkd`, `toLowerCase`). The anchor-id and command-name properties hold for every choice of them.
- `os.platform()` is the `platform` parameter of `Util.NormalizeCommand`.
- Strings are `seq<char>`, one element per Unicode scalar value (code point); the combining marks U+0300 to U+036F are a range of such values.
- Erd.ToTableName and Util.ToAnchorId: JavaScript strings are sequences of UTF-16 code units, and both regular expressions are used without the `u` flag, so they match code units. A character outside the Basic Multilingual Plane is two code units there and one `char` here: `toTableName("😀")` is `"__"` in the script and `"_"` in the model. The model agrees with the scripts on text made of BMP characters.
- The ERD scripts' inputs are metadata records rather than live TypeORM objects.
  - Per-module generator: a property that may be missing or not an array is an `Option`, and `joinColumnsCount ?? 0` is `GetOr(0)`.
  - Global export: `joinColumns?.length` is an optional count.
- The ERD scripts' `main` functions are left out: file system, child processes and the ts-morph entity extraction.
- `runCommand` and `assertCommand` are left out, because they spawn processes.
- The ERD builders keep the string `out` as a local value.
  - Per-module generator: the shared `out` and `addedExternalTables` of the nested helper functions are fields of the `ModuleErd` class.
  - Global export: the loop bodies are the helper methods `AppendTable` and `AppendRelations`, which take and return the string.
