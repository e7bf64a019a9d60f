# A verified model of the user-centre backend

The backend keeps login sessions, permission sets and captcha codes in Redis, keeps accounts,
menus and permissions in a relational database, and rewrites names, ids, durations and numbers in
a small utility module. This project models the parts of it whose correctness spans several
functions or several requests, and proves what those parts are for.

`dafny verify dfyconfig.toml` checks everything.

| module | what it models |
|---|---|
| `RedisStore`, `PermissionRule` | Redis as keys with a value and an expiry under a clock; the permission query and the rule it stands for |
| `AuthProtocol`, `AuthSteps`, `AuthSafety` | login, logout, permission refresh and token validation as a state machine, one step per await; what holds over all its runs |
| `StableSort`, `ResourceForest`, `ResourceHelper` | flat resource rows to a forest: the parent graph (cycles allowed), and the code over shared mutable nodes |
| `MenuSync`, `MenuInstall`, `MenuOutcome`, `MenuContents`, `MenuRoundTrip` | the recursive menu upsert with its clean-up; what it leaves in any table, row by row and column by column; menu to table to menu |
| `RouteTable`, `PermissionInit` | the route walk with its shared lists; the synchronisation of permission codes per mounted app |
| `AccountCache` | the 60-second account cache against soft deletes |
| `Captcha` | generate and verify, alone and overlapping |
| `CrudWrites`, `Paging` | check-then-write of rows and relations; pager, page and page info |
| `CaseConversion`, `UuidLayout`, `DurationText`, `Commify`, `NumberText` | the rewriters and printers, each with its inverse |

## How it is built

Code that changes state is a class or a method with `modifies`, and each such method is tied to a
function of the old state; the theorems are about that function or about runs of a state machine.
Where a machine takes a method apart into steps (`AuthProtocol`, `AccountCache`, `Captcha`), a lemma states
that the steps, undisturbed, have the effect the method promises.
A run is a list of states and a list of actions, each enabled in its state. In `AuthProtocol`,
`AccountCache` and `Captcha` an action is one atomic effect (one query, one Redis command, one
MULTI/EXEC pipeline, the passing of time, the loss of a task), so the theorems hold for every
interleaving of any number of requests.

For SSCAN only its documented guarantee is used: it returns every member that is present during
the whole scan, possibly repeated, and nothing that was never a member during the scan.

## What turned out not to hold

- Single acceptance of captcha codes: two verifications can both be past their look at one code.
  `Captcha.AcceptedOnceIffVerifiedAlone` gives the exact guard of a verification,
  `Captcha.OverlapCanAcceptTwice` a concrete run.
- Live captcha codes are replaced by overlapping generations: `Captcha.NeverReplacedIffGeneratedAlone`
  gives the exact guard of a generation.
- Foreign keys that are falsy but not null (0, an empty text, an empty list) are not looked up:
  `CrudWrites.FalsyKeyIsAccepted`, and `CrudWrites.CheckAgreesIffNotFalsyKey` for the exact condition. Only the
  database's FOREIGN KEY constraint keeps them out (`CrudWrites.Database.UpdateObj`, `CrudWrites.Database.CreateObj`).
- A foreign key whose own name contains `_id` may be looked up in the wrong place, because its column name is cut at
  the first `_id`: `CrudWrites.UnresolvableSchemaRefusesGoodData`, and `CrudWrites.RelationNameIff` for the names concerned.
- Duplicate menu codes: the clean-up keeps one row per code, so a repeated code costs a row.
  `MenuOutcome.RunKeepsOneRowPerNodeIffCodesDistinct` gives the exact condition.
- Root menus are not protected by the unique key, since SQL does not compare nulls: a root code that two rows have stops
  the run. `MenuOutcome.RunFinishesIffRunnable` says exactly when a run finishes.
- The menu routine pops from the module-level menu data. A second call in the same process skips every item and then
  deletes the whole table (`MenuOutcome.RunOnConsumedMenuEmptiesTable`); a retry after a run that stopped deletes
  the rows of every item handled before (`MenuOutcome.RetryForgetsHandledItems`).
- Stale permission codes are found by prefix. An app whose code is a prefix of another app's code
  deprecates the other's live routes when it is processed later: `PermissionInit.PrefixedAppLosesRoutes`, and
  the exact condition in `PermissionInit.ActiveIsRoutedIffClaimsAreServed`.
- An allowed order column with '-' in its name is not found by the filter, which looks for its last part: `Paging.OrderFilterFindsColumnIff`.
- `camel2snake` does not undo `snake2camel` on every snake-case name (a one-letter word inside, or a
  digit next to a letter, is lost): `CaseConversion.CamelRoundTripIff` gives the exact condition.
- `commify` cuts the exponent of a large float: `Commify.ExponentIsCut`, and the exact condition in
  `Commify.GroupsAreNumbersIff`. Its documentation (common/utils.py:85-86) shows a call on a text, which the code refuses.

## Model

| member | source | states |
|---|---|---|
| `AuthSafety.SessionLivesExactly` | service/auth/helper.py:21-73 | over every run, from the login that stored its token a session is live and validates in a later state if and only if its lifetime has not passed and no logout has deleted the token; otherwise it is refused |
| `AuthSafety.LoginStartsSession` | service/auth/helper.py:26-33 | a login that ends has stored its token for the account and scene, with the lifetime from then on |
| `AuthSafety.StepKeepsEntry` | service/auth/helper.py:26-73 | every step but a delete of the token itself leaves its entry alone: neither a refresh nor another login logs anybody out |
| `AuthSafety.TokenIsListedUntilItExpires` | service/auth/helper.py:26-39 | in every reachable state an unexpired token entry is in the unexpired token set of exactly its account and scene, and that set expires no earlier |
| `AuthSafety.LogoutEndsSessions` | service/auth/helper.py:59-73 | however logins, refreshes, other logouts and time interleave, a session live from the start to the end of a logout's scan never validates again once that logout's pipeline is through |
| `AuthSafety.LogoutSparesOthers` | service/auth/helper.py:68-73 | a logout's pipeline keeps value and expiry of every session of another account or scene, of every other token set and of every permission set, and creates nothing |
| `AuthSafety.EmptyScanMeansNoSession` | service/auth/helper.py:61-67 | the early return is taken only if no session was live through the whole scan |
| `AuthSafety.DeadTokenStaysDeadInRun` | service/auth/helper.py:22-32 | a token that was stored once and is gone or expired is never live again |
| `AuthSafety.ValidateAcceptsSessions` | service/dependencies.py:167-189 | in every reachable state validation does not crash, and accepts an account and scene exactly when that session is live and the front-scene header allows it |
| `AuthSafety.CacheIsOneWholeCall` | storages/relational/models/user_center.py:125-139 | a cached permission set is unwritten and empty, or the result of one whole permission call for that account, never a mixture |
| `AuthSafety.CheckAgreesWithRule` | service/dependencies.py:245-264 | after a login or refresh, with the tables unchanged since its first read, the cached check admits a request exactly when the tables allow it |
| `AuthProtocol.LoginCacheRedis` | service/auth/helper.py:21-56 | the commands of the login pipeline leave the store that `LoginDb` describes |
| `AuthProtocol.LogoutCacheRedis` | service/auth/helper.py:59-73 | collecting the scan and queuing the deletes leaves the store that `LogoutDb` describes, or the same store when the scan is empty |
| `AuthProtocol.UpdateCachePermissions` | storages/relational/models/user_center.py:125-139 | the refresh pipeline leaves the store that `RefreshDb` describes |
| `AuthProtocol.LoginDbMeaning` | service/auth/helper.py:26-55 | a login stores the token with its identifier and lifetime, adds it to the live members of the account's set, extends that set, and touches no other session key |
| `AuthProtocol.LogoutDbMeaning` | service/auth/helper.py:68-73 | exactly the scanned tokens disappear, the set loses exactly them (and its key when empty) and keeps its expiry, everything else stays |
| `AuthProtocol.NextKeepsInv` | service/auth/helper.py:21-73 | every step of every task keeps the two indexes, token ownership, freshness of minted tokens and the permission cache consistent |
| `AuthSteps.SomeRunLogsIn` | service/auth/helper.py:21-56 | from any initial state and for any account, token and scene there is a run that ends with the session live |
| `AuthSteps.UndisturbedLogin` | service/auth/helper.py:21-56 | the steps of a login, undisturbed, can be taken and have the effect of the login pipeline with the current permissions |
| `AuthSteps.UndisturbedRefresh` | storages/relational/models/user_center.py:125-139 | the steps of a refresh, undisturbed, can be taken and have the effect of the refresh pipeline with the current permissions |
| `AuthSteps.UndisturbedLogout` | service/auth/helper.py:59-73 | the steps of a logout, undisturbed, can be taken and have the effect of the logout on exactly the members of the set |
| `AuthProtocol.RunKeepsInv` | service/auth/helper.py:21-73 | the invariant holds in every state of every run |
| `PermissionRule.WholeCallAgreesWithRule` | storages/relational/models/user_center.py:141-175 | the codes of one call admit a request exactly when the account is super admin or an enabled resource of its role, assignable unless the account is staff, grants `*`, `app:*` or the code |
| `RedisStore.KeyTextIsInjective` | storages/aredis/keys.py:6-8 | the three key templates never print the same key for different tokens, accounts or scenes |
| `RedisStore.IdentifierTextIsInjective` | service/auth/helper.py:30 | the stored identifier determines account and scene |
| `RedisStore.SplitInvertsIdentifier` | service/dependencies.py:180 | splitting the stored identifier at ':' gives back account and scene and never fails |
| `MenuRoundTrip.MenuSurvivesRoundTrip` | script/menu_and_perm/menu_pessmissions_update.py:80-132 | a run that finishes over any table and leaves all its rows enabled, followed by rebuilding trees from the rows, listed in any order, gives the menu forest again: same codes, same parent-child links, siblings in stable `order_num` order |
| `MenuOutcome.RunInstallsMenu` | script/menu_and_perm/menu_pessmissions_update.py:121-132 | whatever the table held, a run that finishes over distinct codes leaves exactly one fitting row per menu node under its menu parent's row, and no other row; the kept ids are closed under parent |
| `MenuContents.RunFillsRows` | script/menu_and_perm/menu_pessmissions_update.py:94-109 | after a finished run over distinct codes every node's row is the one that stood in its place or a new one; its permissions are exactly the node's plus those it had, each column is the given one or else the old one, or on a new row order 1, enabled, assignable |
| `MenuOutcome.RunFinishesIffRunnable` | script/menu_and_perm/menu_pessmissions_update.py:94-106 | a run finishes exactly when every permission it names exists and no root code of the menu is that of two rows |
| `MenuOutcome.RunAgainChangesNothing` | script/menu_and_perm/menu_pessmissions_update.py:121-132 | a second run on a fresh copy of the menu creates, changes and deletes nothing |
| `MenuOutcome.RunKeepsOneRowPerNodeIffCodesDistinct` | script/menu_and_perm/menu_pessmissions_update.py:94-132 | a run that finishes keeps as many rows as it reached nodes exactly when no code repeats |
| `MenuOutcome.StoppedRunDeletesNothing` | script/menu_and_perm/menu_pessmissions_update.py:94-106 | a run that stops names a missing permission or an ambiguous root code of the menu, and has deleted no row |
| `MenuOutcome.RunOnConsumedMenuEmptiesTable` | script/menu_and_perm/menu_pessmissions_update.py:86-92 | a run over the data a former run has popped from skips everything and empties the table |
| `MenuOutcome.RetryForgetsHandledItems` | script/menu_and_perm/menu_pessmissions_update.py:86-132 | a retry in the same process is a run over the items behind the stop alone; if it finishes, no row of an item handled before is left |
| `MenuOutcome.CascadeSparesClosedSet` | script/menu_and_perm/menu_pessmissions_update.py:131 | the cascading delete leaves exactly the kept rows when they are closed under parent |
| `MenuOutcome.CascadeMeaning` | storages/relational/migrate/user_center/0_20250409160709_init.py:39 | the cascade deletes exactly the rows from which a chain of parents leads to a deleted row |
| `MenuOutcome.HandledEndsAtStop` | script/menu_and_perm/menu_pessmissions_update.py:124-129 | the items a run starts on are all, or those up to and with the one at which it stops |
| `MenuInstall.UpsertMeaning` | script/menu_and_perm/menu_pessmissions_update.py:94-100 | an upsert that is not stopped creates or updates exactly the one row with this scene, code and parent and keeps the unique key |
| `MenuInstall.MatchingIsUnique` | script/menu_and_perm/menu_pessmissions_update.py:94-99 | a lookup meets several rows exactly when it is for a root code that two rows have |
| `MenuInstall.SyncItemsAdvances` | script/menu_and_perm/menu_pessmissions_update.py:80-118 | the recursion installs every node it reaches and does not disturb a node installed before |
| `MenuInstall.SyncItemsSucceeds` | script/menu_and_perm/menu_pessmissions_update.py:80-118 | the recursion stops exactly at a missing permission or an ambiguous root code, says which, and never removes a row |
| `MenuSync.MenuScript.CreateSingleMenuAndPerm` | script/menu_and_perm/menu_pessmissions_update.py:80-118 | the in-place upsert of one item and its children computes `SyncItem`, errors included |
| `MenuSync.MenuScript.CreateMenuAndPerm` | script/menu_and_perm/menu_pessmissions_update.py:121-132 | the whole routine computes `Run` and leaves exactly the top-level menu dicts it started on consumed, also when it stops |
| `ResourceHelper.ResourceListToTrees` | service/resource/helper.py:5-28 | the returned object graph, built by in-place appends and repeated sorts over shared nodes, spells out the forest of the rows |
| `ResourceHelper.LinkNodes` | service/resource/helper.py:14-28 | after the loop every node's children are one stable sort of the rows naming it as parent, and the roots one stable sort of the rows without a present parent |
| `ResourceHelper.AppendChild` | service/resource/helper.py:25-26 | appending to a parent's children and sorting them keeps every node's children sorted as the rows seen so far demand |
| `ResourceHelper.NodeDict` | service/resource/helper.py:8-13 | the dict keeps the slot of the first row of an id and the value of the last |
| `ResourceForest.ForestHoldsGroundedRowsOnce` | service/resource/helper.py:14-28 | with cycles allowed, the forest holds a row exactly once if its parent chain ends, and a row on or below a cycle never |
| `ResourceForest.ForestIsLinked` | service/resource/helper.py:14-28 | the roots are exactly the rows with null or absent parent; every other node sits under its own parent with all its siblings |
| `ResourceForest.DistinctRowsAreTheirOwnDict` | service/resource/helper.py:8-13 | rows with distinct ids pass the dict unchanged and in order |
| `ResourceForest.DictKeepsLast` | service/resource/helper.py:8-13 | the dict holds, for each id in the order of first appearance, the last row with that id |
| `ResourceForest.SiblingsInOrder` | service/resource/helper.py:16-27 | the children of a node are the rows that name it, the roots those that name no present row; both lists go by `order_num`, and rows of equal order stand as they were given |
| `StableSort.SortIsStable` | service/resource/helper.py:26-27 | the sort orders by key and keeps rows of equal key in input order |
| `StableSort.StableSortIsUnique` | service/resource/helper.py:26-27 | two stably sorted lists of the same rows are equal |
| `StableSort.AppendThenSort` | service/resource/helper.py:25-26 | sorting after every append ends where one final sort ends |
| `PermissionInit.ActiveIsRoutedIffClaimsAreServed` | script/menu_and_perm/menu_pessmissions_update.py:43-77 | the active codes claimed by app prefixes are the route codes exactly when no app processed later claims a route code it does not serve |
| `PermissionInit.PrefixFreeAppsAgree` | script/menu_and_perm/menu_pessmissions_update.py:43-77 | when no app code is a prefix of another, the active codes that start with an app's code are exactly the codes of the apps' guarded endpoints |
| `PermissionInit.RouteCodesMeaning` | script/menu_and_perm/menu_pessmissions_update.py:24-61 | an app registers a code exactly if a chain of mounts leads to a route that checks a token or a permission, and the code joins the app's code, a non-empty method other than HEAD and OPTIONS, and the joined paths |
| `PermissionInit.EveryRowAfterwards` | script/menu_and_perm/menu_pessmissions_update.py:43-77 | row by row: a code that starts with an app's code ends active if the app serves it, keeps its label and ends deprecated if not, and is not created; any other row is left alone |
| `PermissionInit.ServedRowIsLabelled` | script/menu_and_perm/menu_pessmissions_update.py:47-60 | the row of a served endpoint carries the name of the first endpoint with its method and path |
| `PermissionInit.PrefixedAppLosesRoutes` | script/menu_and_perm/menu_pessmissions_update.py:64-70 | two concrete apps for which a served route ends up deprecated |
| `PermissionInit.LastClaimDecides` | script/menu_and_perm/menu_pessmissions_update.py:64-77 | the last app whose code is a prefix decides whether a row stays active |
| `PermissionInit.NoRowIsLost` | script/menu_and_perm/menu_pessmissions_update.py:43-77 | no permission row is ever removed, and rows appear for route codes only |
| `PermissionInit.OrderDoesNotMatter` | script/menu_and_perm/menu_pessmissions_update.py:73-77 | the result does not depend on the order of prefix-free apps |
| `PermissionInit.SecondRunChangesNothing` | script/menu_and_perm/menu_pessmissions_update.py:73-77 | a second run leaves the table as the first did |
| `PermissionInit.PermissionTable.UpdateOrCreatePermCode` | script/menu_and_perm/menu_pessmissions_update.py:43-70 | upserting the codes and then marking the stale ones changes every row as one app's pass prescribes |
| `PermissionInit.PermissionTable.PermissionInit` | script/menu_and_perm/menu_pessmissions_update.py:73-77 | the passes over all mounted apps compose, row by row |
| `RouteTable.AllUrisMeaning` | common/utils.py:322-375 | no method and full path twice, no HEAD or OPTIONS, exactly the endpoints a filtered way down leads to, and of two with the same key the earlier |
| `RouteTable.FlattenMeaning` | common/utils.py:337-372 | the flat list holds an endpoint exactly when a chain of mounts, each passing the filter, leads to it, under the paths of all of them |
| `RouteTable.DedupMeaning` | common/utils.py:350-360 | the shared lists keep the first endpoint of every method and full path, and only it |
| `RouteTable.UriCollector.GetUriList` | common/utils.py:337-372 | the recursion over the shared lists appends exactly the new entries of the flat list |
| `RouteTable.GteAllUris` | common/utils.py:322-375 | the collecting form returns the flattened, filtered, de-duplicated list |
| `RouteTable.FullPathIsInjective` | common/utils.py:351-360 | the joined key loses neither method nor path, since methods hold no ':' |
| `AccountCache.ReturnedAccountWasLive` | service/dependencies.py:141-154 | an account handed out was in the table, exactly so and undeleted, less than 60 seconds plus the query latency earlier |
| `AccountCache.DeletedAccountIsRefusedInTime` | storages/relational/base/models.py:82-85 | after a bulk soft delete no lookup returns the account once 60 seconds plus the query latency have passed |
| `AccountCache.AccountTable.DeleteByIds` | storages/relational/base/models.py:82-85 | exactly the existing rows among the ids get the deletion time and keep everything else, every other row is equal to its old value, and the number of rows hit is returned |
| `AccountCache.ExistsUntilNamed` | storages/relational/base/models.py:82-85 | over every run an account exists until a deletion names it and never after, and keeps its detail unless it is saved |
| `AccountCache.GetAccountById` | service/dependencies.py:144-154 | undisturbed, a lookup answers from a fresh entry or from the table, and stores only an existing account |
| `AccountCache.UndisturbedLookup` | service/dependencies.py:144-154 | the steps of a lookup, undisturbed, answer and store what the method does |
| `Captcha.AcceptedOnceIffVerifiedAlone` | storages/aredis/util.py:35-44 | a run starts every matching verification while nobody is about to delete the same code, if and only if at no point of it the calls in flight can still end with a code accepted twice |
| `Captcha.NeverReplacedIffGeneratedAlone` | storages/aredis/util.py:20-32 | a run starts every passing generation while nobody is about to store under the key, unless neither code could be found, if and only if at no point of it the calls in flight can still end with a live code replaced |
| `Captcha.LiveCodeStandsUntilAccepted` | storages/aredis/util.py:8-44 | without overlap on a key, a stored code stands unchanged until it expires if and only if no verification has accepted it |
| `Captcha.CodeIsAcceptedOnce` | storages/aredis/util.py:8-44 | without overlap on a key every generated code is accepted at most once |
| `Captcha.LiveCodeIsNotReplaced` | storages/aredis/util.py:22-31 | without overlap on a key no store replaces a live code |
| `Captcha.AcceptanceMatchesIssuedCode` | storages/aredis/util.py:35-44 | with any overlap an acceptance matches, ignoring case, a code stored for that key and unexpired when read |
| `Captcha.AcceptedCodeNeverMatchesAgain` | storages/aredis/util.py:41-43 | a verification that starts after an acceptance cannot match the accepted code |
| `Captcha.UndisturbedGenerate` | storages/aredis/util.py:20-32 | look and store, undisturbed, have the effect the method promises |
| `Captcha.UndisturbedVerify` | storages/aredis/util.py:35-44 | look and delete, undisturbed, have the effect the method promises; a failed look changes nothing |
| `Captcha.OverlapCanAcceptTwice` | storages/aredis/util.py:35-44 | a concrete run in which two overlapping verifications accept one code |
| `Captcha.CodeStore.GenerateCaptchaCode` | storages/aredis/util.py:20-32 | a live code refuses the request and stays; otherwise the new code is stored with its expiry |
| `Captcha.CodeStore.VerifyCaptchaCode` | storages/aredis/util.py:35-44 | true exactly on a live match, which is deleted; otherwise the store is unchanged |
| `CrudWrites.AcceptedIffReferencesExist` | service/crud.py:85-135 | data is accepted exactly when every reference in it exists, is null, or is a falsy foreign key that is not looked up; all references exist exactly when it is accepted and nothing was skipped |
| `CrudWrites.CheckAgreesIffNotFalsyKey` | service/crud.py:99-131 | under the same condition on the schema, and whatever exists, the check of a value agrees with the rule "null or existing" exactly unless it is a falsy foreign key that is not null |
| `CrudWrites.FalsyKeyIsAccepted` | service/crud.py:99-110 | a foreign key of 0, an empty list or an empty text is accepted although its table is empty |
| `CrudWrites.RefusalNamesFirstFault` | service/crud.py:105-129 | a refusal is at the first key at fault and names an id given for it that does not exist, or a value that cannot be used |
| `CrudWrites.WrittenReferencesExist` | storages/relational/migrate/user_center/0_20250409160709_init.py:39-88 | with the FOREIGN KEY constraint behind the check, every reference in accepted data exists |
| `CrudWrites.PlainNamesResolve` | service/crud.py:99-101 | that theorem's condition on the schema holds when no foreign key has `_id` in its own name |
| `CrudWrites.UnresolvableSchemaRefusesGoodData` | service/crud.py:99-108 | on every schema outside that theorem's condition there is data that is refused although all it refers to exists |
| `CrudWrites.RelationNameIff` | service/crud.py:101 | a relation is found from its column name exactly when its own name holds no `_id` |
| `CrudWrites.SplitCoversKnownKeys` | service/crud.py:93-135 | the two parts are disjoint, cover exactly the known keys and change no value; the second holds exactly the many-to-many keys |
| `CrudWrites.UnknownKeysAreIgnored` | service/crud.py:96-98 | dropping the unknown keys changes neither the verdict nor either part |
| `CrudWrites.KwargsClean` | service/crud.py:85-135 | the loop over the keys computes the split or the first error in key order |
| `CrudWrites.Database.UpdateObj` | service/crud.py:170-215 | a failed update writes nothing, and with all references there and no other constraint broken it does not fail; a reached row gets every given column and keeps the others, every other row stands, each relation given a list holds exactly its objects, everything else is linked as before, and every reference in the data exists |
| `CrudWrites.Database.CreateObj` | service/crud.py:138-167 | a failed creation writes nothing, and with all references there and no other constraint broken it does not fail; otherwise one new row with exactly the given columns and relations, and every reference in the data exists |
| `Paging.RequestedPagesTileRows` | service/dependencies.py:100-128 | with a positive size and cap and existing order columns, exactly the positive pages are served, and fetching every page announced yields all matching rows, each once and in order |
| `Paging.PagesTileRows` | service/crud.py:64-67 | the pages from 1 to the page count, put together, are all matching rows, each once and in order |
| `Paging.OnlyLastPageIsShort` | service/dependencies.py:126-128 | pages before the last are full, the last is not empty, pages beyond it are |
| `Paging.CeilOfQuotient` | common/responses.py:138 | for totals below 2^53 the ceiling of the rounded division is the exact page count |
| `Paging.PageInfoAnswersRequest` | common/responses.py:136-142 | the page info names the requested page, the size after the cap and the exact page count |
| `Paging.OrderFilterFindsColumnIff` | service/dependencies.py:129-131 | the order filter finds the column behind the sign, and so keeps exactly the allowed columns whatever they are, exactly when the column's name holds no '-' |
| `Paging.PagerMeaning` | service/dependencies.py:100-131 | an unknown order column, then the page, then the size refuse a request; otherwise the limit is the smaller of size and cap, the offset is that of the page, and exactly the requested fields whose part behind the last '-' is allowed remain |
| `Paging.FoundMeaning` | service/crud.py:47-55 | a row is found exactly if there is nothing to search for, nowhere to search, or the folded text occurs in some folded field |
| `Paging.MatchingKeepsOrder` | service/crud.py:45-66 | the rows found stand in the order of the table, each as often as there |
| `Paging.GetAllObj` | service/crud.py:39-68 | one page of the rows that match the search, and the count of all of them |
| `CaseConversion.CamelRoundTripIff` | common/utils.py:253-277 | converting to camel case and back is the identity exactly on the texts every character of which survives |
| `CaseConversion.LowerCamelRoundTripIff` | common/utils.py:253-277 | the same with `start_lower`, where the part behind the leading underscores may begin with a one-letter word |
| `CaseConversion.SnakeWordsRoundTrip` | common/utils.py:253-277 | leading underscores and lower-case words, all but the last of two letters or more, come back unchanged |
| `CaseConversion.SnakeBecomesCamel` | common/utils.py:253-262 | lower-case words joined by underscores become the words run together with capital first letters, behind the same leading underscores; with `start_lower` the first letter stays |
| `CaseConversion.ScansAreLocal` | common/utils.py:267-276 | the two left-to-right substitutions together insert an underscore at exactly the local boundaries |
| `CaseConversion.BackIsIdentityIff` | common/utils.py:253-277 | the same characterisation for any suffix of a text, behind a letter or not |
| `UuidLayout.UuidRoundTrip` | common/utils.py:378-414 | both conversions undo each other, for every UUID, every sixteen bytes and every flag |
| `UuidLayout.OnlyTimeMoves` | common/utils.py:394-414 | the last eight bytes never move, without the flag nothing does, and bytes of any other number are refused |
| `UuidLayout.StoredBytesSortByTime` | common/utils.py:378-407 | the first eight stored bytes of version-1 UUIDs compare as their 60-bit timestamps (section 4.1.2 of RFC 4122) |
| `UuidLayout.BytesLessIsNumeric` | common/utils.py:378-399 | byte strings of one length are ordered as the big-endian numbers they denote |
| `DurationText.DisplayDenotes` | common/utils.py:169-215 | read back, the text is the number truncated toward zero to the last unit shown, and the loss is below one such unit |
| `DurationText.FullDisplayIsExact` | common/utils.py:169-215 | at level 4 the text, in either language, reads back as the number itself |
| `DurationText.FullDisplayIsInjective` | common/utils.py:169-215 | at level 4 different numbers never print the same |
| `DurationText.SecondsToReadableDisplay` | common/utils.py:169-215 | the code's order of divisions prints the amounts of days, hours, minutes and seconds, cut after `level` units |
| `DurationText.DisplayText` | common/utils.py:183-215 | the text of so many days, hours, minutes and seconds, in either language, is each non-zero amount with its unit, cut after `level`, with a minus sign in front for a negative number |
| `Commify.CommifiedIntegers` | common/utils.py:96-117 | for every integer: without commas the text is the decimal text, every comma has a positive multiple of three digits to its right, the leading group has one to three digits |
| `Commify.CommasAreAllThatIsAdded` | common/utils.py:96-117 | for the text of every number, int or float, deleting the commas gives the text back, but for a point that nothing follows |
| `Commify.GroupsAreNumbersIff` | common/utils.py:107-113 | the groups are numbers exactly when the whole part has at most three characters or is all digits |
| `Commify.ExponentIsCut` | common/utils.py:107-113 | the text of 1e16 gets a comma inside its exponent |
| `Commify.Commify` | common/utils.py:90-117 | `None` gives nothing, other types are refused, and the loop inserting at the front yields sign, grouped whole part and fraction |

## Left out

- HTTP, FastAPI, middleware, logging, settings, deployment, the task queue, OSS providers, third-party clients, password hashing, JWT and API-key signing: I/O or foreign libraries.
- A request passes validation and then the account lookup; the two machines (`AuthProtocol`, `AccountCache`) are not composed, because they share no state.
- Columns of a resource other than code, scene, parent, order, enabled and assignable (label, icon, path and the like): the upsert treats all default columns alike. Menu dicts are assumed not to share children.
- The database's text collation (codes compare as exact strings) and any depth limit of its cascade.
- `refresh_permissions` (script/menu_and_perm/menu_pessmissions_update.py:135-140): a loop of the refresh that is modelled.
- The permission type: it has one member, so the filter on it selects every row.
- The WebSocket branch of `gte_all_uris` (common/utils.py:361-370): it reads variables left over from another branch. Tags and operation ids ride along and are not modelled; `name` stands for summary or name.
- A non-empty `root_path` in permission checks: registered codes lack the outer mount prefix, so the checked code is a parameter.
- A mounted app without `code`.
- The size limit of the account cache is modelled as arbitrary eviction; its membership test and the read after it happen at one instant.
- The Model-instance branch of `kwargs_clean` (service/crud.py:120-122): it appends another variable. Foreign keys point to primary keys.
- A failure of the database between two awaits of `update_obj` or `create_obj`: they run in no transaction, so "writes nothing" covers refusals by the check and by the database only. `refresh_from_db` and the error texts are left out, and any refusal by the database or its driver is one `Conflict`.
- CrudWrites.Database.CreateObj: requires the next id to be unused, which the auto-increment counter provides.
- Paging.GetAllObj: takes the filtered rows in a fixed order; the code reads page and count in two queries, between which rows may change.
- Paging.CeilOfQuotient: describes floating-point division by its error bound and claims nothing for totals of 2^53 and more.
- Selected fields and sub-schemas of a list view.
- Lower-casing in captcha checks and case folding in searches are parameters; the case conversion is over ASCII letters and digits.
- Commify.Commify: takes a number as the text `str` prints for it; printing a float is not modelled, and blanks never occur in it.
- Random tokens and captcha codes are inputs; tokens are assumed never to repeat, codes may.
