# Web administration core of the Zircon Legend game server

This project models the command and query logic of the game server's web
administration pages in Dafny, and proves properties of it. The pages covered
are Monsters, Items, Skills, Maps, Players and Accounts, together with the
account service behind the Accounts page.

Every page command follows the same short, ordered pattern, and the model
keeps that order:

1. A role gate: the caller's `Permission` claim, parsed as an integer, must be
   at least the required `AccountIdentity`.
2. One or more look-ups in the server's shared collections. An unknown player,
   definition or map fails the command, and nothing changes.
3. An update of game records, or a filtered, ordered and paged listing.

How the model is built:

- The shared collections live in a `World` class (`Envir`). Each command is a
  method with a field-granular `modifies` clause. Its `ensures` clauses give
  every failure case in the source's order, and the exact new state on
  success.
- Listings are functions over the query engine in `Query`. That engine models
  `Where`, a stable `OrderBy`/`ThenBy`, and `Skip((page - 1) * size).Take(size)`.
- Loops in the source are methods with invariants, proved against
  specification functions:
  - the spawn placement search;
  - clearing a map;
  - granting every skill of a class;
  - the map list;
  - the broadcast;
  - the account look-up;
  - the account listings.
- The Accounts page is a class whose fields are the page state, which
  `OnGet` reloads after every command.

Modules:

| Module | What it holds |
|---|---|
| `Base` | Option, 32-bit helpers, clamping |
| `Text` | white space, ordinal and ignore-case matching, decimal rendering and `int.TryParse`, the catalog keyword filter |
| `Roles`, `Outcomes` | roles, the permission gate, failure reasons |
| `Query` | filter, sort, page |
| `Records` | the game records and their look-ups |
| `Envir` | the world |
| `MonsterStats` | the sparse stat rows of a monster definition |
| `Placement` | the spawn search |
| `Monsters`, `Items`, `Skills`, `Maps`, `Players` | the pages |
| `AccountService` | the account service |
| `Accounts` | the accounts page |

Collaborators that the core calls, but whose code is not part of this model,
are parameters:

- the random draws of `System.Random` (`rng`);
- the verdict of `MonsterObject.Spawn` (`accepts`);
- `CanGainItems` (`canGain`);
- `Enum.TryParse` (`parseType`, `parseClass`, `parseSchool`);
- `MagicType.ToString()` (`typeName`);
- `Map.GetRandomLocation` (`randomLocation`);
- `Config.技能最高等级` and `Config.MaxLevel` (`maxLevel`).

## Model

| member | source | states |
|---|---|---|
| Roles.IdentityOf | Server/Web/Pages/Accounts.cshtml.cs:163-170 | a level converts to an identity exactly when it is in 0..4, and the identity's ordinal is that level |
| Roles.PermissionLevels | Server/Web/Pages/Accounts.cshtml.cs:25-32 | the selectable levels are exactly the five identities, in increasing order, and position i holds ordinal i |
| Roles.HasPermissionOfRendered | Server/Web/Pages/Monsters.cshtml.cs:630-640 | a claim holding the decimal rendering of v passes a role iff v is at least that role's ordinal |
| Roles.NoNumberNoPermission | Server/Web/Pages/Items.cshtml.cs:398-408 | a missing, empty or non-numeric claim passes no role |
| Roles.HasPermissionMonotone | Server/Web/Pages/Skills.cshtml.cs:376-386 | a claim that passes a higher role also passes every lower one |
| Roles.OrdinalInjective | Server/Web/Pages/Accounts.cshtml.cs:170 | distinct identities have distinct ordinals, and casting an identity's ordinal back gives the same identity |
| Text.KeywordMatchIgnoresCase | Server/Web/Pages/Monsters.cshtml.cs:70-77 | the name-or-index keyword filter gives the same verdict for two keywords that differ only in letter case |
| Query.FirstIndex | Server/Web/Pages/Items.cshtml.cs:127 | `FirstOrDefault` gives the first matching position, and none exactly when no row matches |
| Query.FirstIndexSame | Server/Web/Pages/Players.cshtml.cs:66-68 | two runs whose rows match pairwise under their predicates have their first match at the same position |
| Query.Filter | Server/Web/Pages/Monsters.cshtml.cs:73-76 | `Where` keeps exactly the matching rows: every kept row comes from the input and matches, and every matching row is kept |
| Query.SortBy | Server/Web/Pages/Monsters.cshtml.cs:79-81 | the ordering is a permutation of its input, sorted by the key list |
| Query.SortByStable | Server/Web/Pages/Monsters.cshtml.cs:79-81 | the ordering is stable: the rows sharing any one key come out in the order they went in |
| Query.Paginate | Server/Web/Pages/Monsters.cshtml.cs:82-83 | the page is the run of at most `size` rows starting at row (page-1)*size, and is empty past the end |
| Query.PageBelowOne | Server/Web/Pages/Monsters.cshtml.cs:82 | a page number below 1 shows the first page |
| Query.TotalPages | Server/Web/Pages/Monsters.cshtml.cs:27 | (count+size-1)/size is the least number of pages that holds count rows, and is 0 exactly when count is 0 |
| Query.PageOfRow | Server/Web/Pages/Monsters.cshtml.cs:27 | row i appears on page i/size+1, which is within the page count |
| Query.RunQuery | Server/Web/Pages/Monsters.cshtml.cs:70-85 | `TotalCount` is the number of matching rows rather than the page size; the page has the exact length paging gives; it is sorted by key, and holds only matching input rows |
| Query.RunQueryCovers | Server/Web/Pages/Monsters.cshtml.cs:79-85 | every matching row is shown on some page between 1 and `TotalPages` |
| Query.PagesOfSortedInOrder | Server/Web/Pages/Monsters.cshtml.cs:82-83 | of a sorted run, no row on an earlier page sorts after a row on a later page |
| Query.PagesInOrder | Server/Web/Pages/Monsters.cshtml.cs:79-83 | no row on an earlier page of a listing sorts after a row on a later page |
| Records.FindPlayer | Server/Web/Pages/Monsters.cshtml.cs:108-109 | the first online player whose name equals the given one ignoring case, and none when no name does |
| Records.FindItemInfo | Server/Web/Pages/Items.cshtml.cs:127 | the first definition carrying the requested index, and none is found only when no row has it |
| Records.FindItemInfoAt | Server/Web/Pages/Items.cshtml.cs:342 | an index held by one row only is found at that row |
| Records.FindMonsterInfo | Server/Web/Pages/Monsters.cshtml.cs:122 | the first definition carrying the requested index, and none is found only when no row has it |
| Records.FindMonsterInfoAt | Server/Web/Pages/Monsters.cshtml.cs:530 | an index held by one row only is found at that row |
| Records.FindMagicInfo | Server/Web/Pages/Skills.cshtml.cs:132 | the first definition carrying the requested index, and none is found only when no row has it |
| Records.FindMapInfo | Server/Web/Pages/Maps.cshtml.cs:154 | the first definition carrying the requested index, and none is found only when no row has it |
| Records.FindMapInfoAt | Server/Web/Pages/Maps.cshtml.cs:322 | an index held by one row only is found at that row |
| Records.FindLiveMap | Server/Web/Pages/Maps.cshtml.cs:89 | the first running map whose definition has the requested index, and none is found only when no running map has one |
| Records.FreshIndex | Server/Web/Pages/Items.cshtml.cs:258 | a new catalog row's index is positive and above every index in use |
| MonsterStats.CreateStat | Server/Web/Pages/Monsters.cshtml.cs:475-488 | creating a stat adds v to that kind's effective value, changes no other kind, and never stores a zero |
| MonsterStats.UpdateStat | Server/Web/Pages/Monsters.cshtml.cs:599-628 | on a list with one row per kind, the kind's effective value becomes exactly v (no row when v is 0); every other kind is unchanged; one row per kind and no zero are kept |
| MonsterStats.FormRows | Server/Web/Pages/Monsters.cshtml.cs:434-446 | the thirteen posted stats are thirteen distinct stat kinds |
| MonsterStats.CreateAllAppendsNonZero | Server/Web/Pages/Monsters.cshtml.cs:434-446 | the thirteen creations append exactly the non-zero posted stats, in form order |
| MonsterStats.NonZeroOnePerStat | Server/Web/Pages/Monsters.cshtml.cs:475-488 | the non-zero rows of a run with one row per kind still have one row per kind |
| MonsterStats.NonZeroEffective | Server/Web/Pages/Monsters.cshtml.cs:475-488 | in the non-zero rows of a run with one row per kind, each kind's value is its row's amount |
| MonsterStats.CreateFromRows | Server/Web/Pages/Monsters.cshtml.cs:475-488 | creating rows of distinct kinds stores one non-zero row per kind; each kind's value is its row's amount, and kinds without a row are 0 |
| MonsterStats.CreateFromForm | Server/Web/Pages/Monsters.cshtml.cs:434-446 | a new monster's effective stats are exactly the posted values, and no other kind is set |
| MonsterStats.UpdateAllSpec | Server/Web/Pages/Monsters.cshtml.cs:558-570 | a run of updates with distinct kinds sets each updated kind exactly and keeps every other kind, with one row per kind and no zero |
| MonsterStats.CreateThenRead | Server/Web/Pages/Monsters.cshtml.cs:434-446 | reading the thirteen stats of a freshly created list gives back the posted form |
| MonsterStats.UpdateThenRead | Server/Web/Pages/Monsters.cshtml.cs:558-570 | after the thirteen updates of a list with one row per kind, reading gives back the posted form, whatever was stored before |
| Placement.NormaliseCount | Server/Web/Pages/Monsters.cshtml.cs:134-135 | the count becomes one in 1..100: below 1 gives 1, above 100 gives 100, and other values are kept |
| Placement.NormaliseRange | Server/Web/Pages/Monsters.cshtml.cs:136-137 | the range becomes one in 1..20: below 1 gives 3 (not 1), above 20 gives 20, and other values are kept |
| Placement.Next | Server/Web/Pages/Monsters.cshtml.cs:168-169 | `random.Next(lo, hi)` lies in [lo, hi) |
| Placement.Candidate | Server/Web/Pages/Monsters.cshtml.cs:168-172 | a drawn candidate is within `range` cells of the anchor on each axis |
| Placement.ClampToMap | Server/Web/Pages/Monsters.cshtml.cs:174-177 | on a grid of at least 1x1 the clamped point is on the grid, and a point already on the grid is kept |
| Placement.ClampStaysNear | Server/Web/Pages/Monsters.cshtml.cs:174-177 | clamping toward an on-grid anchor keeps a candidate within range |
| Placement.FindSpawnCell | Server/Web/Pages/Monsters.cshtml.cs:166-201 | the attempt loop computes one unit's spawn search: its found flag, cell and next draw are those of `SpawnSearch`; a found cell is free |
| Placement.SpawnSearchTests | Server/Web/Pages/Monsters.cshtml.cs:166-201 | one unit's search tests 1 to 20 cells, the clamped candidate first; a found cell is the last tested and is free, and every earlier one was not; not found means twenty cells were not free; on a non-empty grid every tested cell is on it, and near an on-grid anchor every tested cell is within range; two draws per candidate |
| Placement.SpawnSearchCell | Server/Web/Pages/Monsters.cshtml.cs:166-201 | a found cell is free, and within range of an on-grid anchor; a search spends from 2 to 42 draws |
| Placement.SearchSucceedsWhenFree | Server/Web/Pages/Monsters.cshtml.cs:166-186 | when every on-grid cell within range of an on-grid anchor is free, the first candidate is taken |
| Placement.PlacedIs | Server/Web/Pages/Monsters.cshtml.cs:165-216 | the unit loop run with any search equal to the spawn search places what `Placed` places |
| Placement.Accepted | Server/Web/Pages/Monsters.cshtml.cs:211-214 | of the first n units at most n are accepted by the spawn primitive |
| Placement.PlacedByCells | Server/Web/Pages/Monsters.cshtml.cs:165-216 | with a search whose found cells are free (and near the anchor), each unit places at most one cell, only accepted ones, and every placed cell is free (and near the anchor) |
| Placement.SpawnPlacedCells | Server/Web/Pages/Monsters.cshtml.cs:165-216 | with the spawn search, no more cells are placed than units accepted; every placed cell is free, and within range of an on-grid anchor |
| Placement.PlacedByAllFound | Server/Web/Pages/Monsters.cshtml.cs:203-214 | when every search finds a cell, exactly the accepted units are placed |
| Placement.AllAcceptedSpawnWhenFree | Server/Web/Pages/Monsters.cshtml.cs:165-216 | around an on-grid anchor whose neighbourhood within range is all free, exactly the accepted units are placed |
| Placement.PlaceUnits | Server/Web/Pages/Monsters.cshtml.cs:165-216 | the `count` loop places exactly the cells `PlacedBy` gives for its search; `spawned` is their number and at most the units the spawn primitive accepts; each is free and within range of an on-grid anchor; none is placed when no free cell lies in range |
| Monsters.LevelIndexOrder | Server/Web/Pages/Monsters.cshtml.cs:79-81 | the key order is level first, then index |
| Monsters.LoadMonsters | Server/Web/Pages/Monsters.cshtml.cs:61-91 | `TotalCount` counts the keyword matches; the page has its exact paged length; it holds only matching catalog rows, ordered by level then index |
| Monsters.LoadMonstersIgnoresCase | Server/Web/Pages/Monsters.cshtml.cs:73-76 | keywords that differ only in letter case give the same listing |
| Monsters.EveryMatchListed | Server/Web/Pages/Monsters.cshtml.cs:79-85 | every matching monster is listed on some page between 1 and `TotalPages` |
| Monsters.GetMonsterDetail | Server/Web/Pages/Monsters.cshtml.cs:307-358 | Admin only; an unknown index is reported; otherwise the fields and thirteen effective stats of the first definition with that index are reported |
| Monsters.SpawnMonster | Server/Web/Pages/Monsters.cshtml.cs:93-235 | checked in order: Admin, player online, definition exists, player on a running map; any failure changes nothing, and when all four hold the command succeeds; success changes only the player's map, appending one living monster of the definition on each cell the placement search places (so at most the accepted units, each on a free cell within range), and all accepted units spawn when the neighbourhood is free; the report gives the number spawned against the normalised request |
| Monsters.SpawnOnMap | Server/Web/Pages/Monsters.cshtml.cs:162-216 | the new map state holds the old monsters followed by one living monster of the definition on each placed cell, in order; `spawned` counts them and is at most the accepted units, and equals them when the on-grid anchor's neighbourhood is free |
| Monsters.CountLiving | Server/Web/Pages/Monsters.cshtml.cs:278-285 | the number of living monsters is at most the list length; it is 0 iff all are dead and the full length iff none is |
| Monsters.KillAll | Server/Web/Pages/Monsters.cshtml.cs:275-285 | every monster of the snapshot is dead afterwards and keeps its place, so none is left alive; `killed` equals the number that were alive |
| Monsters.KillMapMonsters | Server/Web/Pages/Monsters.cshtml.cs:237-304 | Admin, player online, player on a running map, and the command succeeds when all three hold; only that map changes: every monster on it dies, none is left alive, and the result counts those that were alive |
| Monsters.CreateMonster | Server/Web/Pages/Monsters.cshtml.cs:361-473 | SuperAdmin; a blank name is refused before anything is created; success appends a definition with a fresh index, the posted fields and one stat row per non-zero posted stat |
| Monsters.UpdateMonster | Server/Web/Pages/Monsters.cshtml.cs:491-597 | SuperAdmin; an unknown index fails and changes nothing; otherwise the row's fields are replaced and its stats updated in place |
| Monsters.CreateThenDetail | Server/Web/Pages/Monsters.cshtml.cs:307-473 | the detail view of a created monster gives back the posted form and stats, under the new index |
| Monsters.UpdateThenDetail | Server/Web/Pages/Monsters.cshtml.cs:307-597 | the detail view of an updated monster gives back the posted form and stats |
| Monsters.CreateKeepsIndicesUnique | Server/Web/Pages/Monsters.cshtml.cs:409-412 | creation keeps catalog indices unique |
| Items.LoadItems | Server/Web/Pages/Items.cshtml.cs:62-98 | `TotalCount` counts the matches of the keyword filter and the type filter together (AND); the page has its exact paged length, holds only rows that pass both filters, and is ordered by item type then required amount |
| Items.UnparsedTypeIgnored | Server/Web/Pages/Items.cshtml.cs:79-82 | a type text that does not parse filters nothing |
| Items.LoadItemsIgnoresCase | Server/Web/Pages/Items.cshtml.cs:71-77 | keywords that differ only in letter case give the same listing |
| Items.GetItemDetail | Server/Web/Pages/Items.cshtml.cs:177-217 | Admin only; an unknown index is reported; otherwise the first definition with that index is reported |
| Items.Stored | Server/Web/Pages/Items.cshtml.cs:281 | the stored stack size is at least 1; a positive one is kept |
| Items.StoredIdempotent | Server/Web/Pages/Items.cshtml.cs:367 | storing a stored form again changes nothing |
| Items.CreateItem | Server/Web/Pages/Items.cshtml.cs:220-310 | SuperAdmin; a blank name is refused before anything is created; success appends the stored form under a fresh index |
| Items.UpdateItem | Server/Web/Pages/Items.cshtml.cs:313-396 | SuperAdmin; an unknown index fails and changes nothing; otherwise the row becomes the stored form |
| Items.CreateThenDetail | Server/Web/Pages/Items.cshtml.cs:177-310 | the detail view of a created item gives back the stored form under the new index |
| Items.UpdateThenDetail | Server/Web/Pages/Items.cshtml.cs:177-396 | the detail view of an updated item gives back the stored form |
| Items.GivenCount | Server/Web/Pages/Items.cshtml.cs:142 | the given count is `count` when positive, else 1 |
| Items.GiveItem | Server/Web/Pages/Items.cshtml.cs:100-174 | Admin, player online, definition exists; when the capacity check passes, one stack of the given count is added to the bag; otherwise the result is bag-full and the bag is unchanged |
| Skills.LoadMagics | Server/Web/Pages/Skills.cshtml.cs:42-109 | `TotalCount` counts the rows matching the keyword (name, type name or index) and the class and school filters together (AND); the page has its exact paged length, holds only matching rows, and is sorted by class, school, then first required level |
| Skills.ClassOrder | Server/Web/Pages/Skills.cshtml.cs:74-76 | a run sorted by class, school and level is ordered by class |
| Skills.LoadMagicsIgnoresCase | Server/Web/Pages/Skills.cshtml.cs:51-57 | keywords that differ only in letter case give the same listing |
| Skills.FindSkill | Server/Web/Pages/Skills.cshtml.cs:141 | the first learned record of the magic, and none exactly when none is learned |
| Skills.Grant | Server/Web/Pages/Skills.cshtml.cs:141-177 | afterwards the skill is held at the level clamped to 0..max, with no experience; a learned skill is updated without a second record; a new one is appended to the list and filed under its magic type; other records are unchanged |
| Skills.GrantKeepsOthers | Server/Web/Pages/Skills.cshtml.cs:329-362 | granting one skill leaves what every other skill holds unchanged |
| Skills.GrantLearned | Server/Web/Pages/Skills.cshtml.cs:141-177 | after a grant exactly the skills learned before and the granted one are learned |
| Skills.GrantHolds | Server/Web/Pages/Skills.cshtml.cs:141-158 | a grant sets the first record of the skill to the clamped level with no experience and leaves any later record of it as it was |
| Skills.GrantUpdateConsistent | Server/Web/Pages/Skills.cshtml.cs:141-158 | re-granting a learned skill keeps the list and the dictionary consistent |
| Skills.GrantAddConsistent | Server/Web/Pages/Skills.cshtml.cs:159-177 | granting a new skill keeps the list and the dictionary consistent |
| Skills.AddConsistent | Server/Web/Pages/Skills.cshtml.cs:161-170 | appending and filing a record of a skill and type the book does not hold keeps it consistent |
| Skills.GrantConsistent | Server/Web/Pages/Skills.cshtml.cs:141-177 | granting keeps the list and the dictionary consistent |
| Skills.FindSkillExtended | Server/Web/Pages/Skills.cshtml.cs:141 | appending records does not move the place where a learned skill is found |
| Skills.Revoke | Server/Web/Pages/Skills.cshtml.cs:209-228 | the record leaves the list (a one-element multiset difference) and its type leaves the dictionary; other dictionary entries are kept |
| Skills.RevokeConsistent | Server/Web/Pages/Skills.cshtml.cs:209-228 | revoking keeps the book consistent, and the skill is no longer learned |
| Skills.RevokeListFiled | Server/Web/Pages/Skills.cshtml.cs:209-228 | after a revoke every listed record is still filed under its own type |
| Skills.RevokeFiledListed | Server/Web/Pages/Skills.cshtml.cs:209-228 | after a revoke every filed record is still listed |
| Skills.RevokeListedOnce | Server/Web/Pages/Skills.cshtml.cs:209-228 | after a revoke no skill is listed twice and the revoked skill is no longer learned |
| Skills.GrantThenRevoke | Server/Web/Pages/Skills.cshtml.cs:159-228 | granting a new skill and then revoking it restores the book |
| Skills.GrantAll | Server/Web/Pages/Skills.cshtml.cs:329-362 | the loop computes the grants of the class skills in order; `updated` counts the skills already learned at their turn (the learned class skills, when their indices are distinct) and added + updated is the skill count; the list grows by `added`, keeps its records' skills, leaves other skills' records untouched, and every class skill is held at the clamped level; with agreeing catalog entries the list and dictionary stay consistent |
| Skills.UpdatedAlong | Server/Web/Pages/Skills.cshtml.cs:333-345 | the number of grants that found the skill learned is at most the number of skills |
| Skills.CountLearned | Server/Web/Pages/Skills.cshtml.cs:333-345 | the number of skills the book has learned is at most the number of skills |
| Skills.Indices | Server/Web/Pages/Skills.cshtml.cs:329 | an index is in the set exactly when some skill carries it |
| Skills.GrantEachLearned | Server/Web/Pages/Skills.cshtml.cs:329-362 | after the grants a skill is learned exactly when it was before or was granted |
| Skills.UpdatedCountsLearned | Server/Web/Pages/Skills.cshtml.cs:333-345 | for skills with distinct indices, the grants that found the skill learned are the skills learned beforehand |
| Skills.GrantEachShape | Server/Web/Pages/Skills.cshtml.cs:329-362 | the grants lengthen the list by the skills not yet learned; earlier records keep their skills, records of other skills are untouched, every appended record is of a granted skill at the clamped level with no experience, and the dictionary gains only granted types |
| Skills.GrantEachPrefix | Server/Web/Pages/Skills.cshtml.cs:329-362 | the grants keep the skill and type of every earlier record |
| Skills.GrantEachUntouched | Server/Web/Pages/Skills.cshtml.cs:329-362 | the grants leave records of other skills untouched |
| Skills.GrantEachAppended | Server/Web/Pages/Skills.cshtml.cs:346-361 | every record the grants append is of a granted skill, at the clamped level with no experience |
| Skills.GrantEachKeys | Server/Web/Pages/Skills.cshtml.cs:356-357 | the dictionary keeps its types and gains only granted ones |
| Skills.GrantEachHolds | Server/Web/Pages/Skills.cshtml.cs:329-362 | after the grants every granted skill is held at the clamped level with no experience |
| Skills.GrantEachAgrees | Server/Web/Pages/Skills.cshtml.cs:329-362 | a catalog entry that agrees with the book and with every granted entry still agrees after the grants |
| Skills.GrantEachConsistent | Server/Web/Pages/Skills.cshtml.cs:329-362 | granting agreeing catalog entries keeps the list and the dictionary consistent |
| Skills.GrantEachGaveAll | Server/Web/Pages/Skills.cshtml.cs:329-362 | the grants of any skill run, with their counts, satisfy everything `GaveAll` promises |
| Skills.GiveSkill | Server/Web/Pages/Skills.cshtml.cs:111-186 | Admin, player online, magic exists, and the command succeeds when all three hold; any failure changes nothing; success grants the skill and reports whether it was added or updated, at the clamped level |
| Skills.RemoveSkill | Server/Web/Pages/Skills.cshtml.cs:188-241 | Admin, player online; a skill the player lacks fails with no change, and a learned one is always removed; the record is revoked from both structures |
| Skills.UpdateMagic | Server/Web/Pages/Skills.cshtml.cs:243-297 | SuperAdmin; an unknown index fails and changes nothing; otherwise only the editable fields change |
| Skills.GiveAllSkills | Server/Web/Pages/Skills.cshtml.cs:299-374 | SuperAdmin, player online, and the command succeeds when both hold; only that player changes, to the grants of the class's skills; the report and the new book satisfy `GaveAll` (see `Skills.GrantAll`) |
| Maps.BuildViews | Server/Web/Pages/Maps.cshtml.cs:30-57 | the loop builds one row per kept map, in map order |
| Maps.LoadMaps | Server/Web/Pages/Maps.cshtml.cs:27-66 | the rows are the stable sort of the kept maps' rows, by player count descending, then by description: a permutation of them, sorted, with rows of equal key in map order |
| Maps.KeepIgnoresCase | Server/Web/Pages/Maps.cshtml.cs:36-43 | keywords that differ only in letter case keep the same maps |
| Maps.Destination | Server/Web/Pages/Maps.cshtml.cs:98-106 | a non-positive x or y gives the random location; otherwise (x, y) is used exactly |
| Maps.Teleport | Server/Web/Pages/Maps.cshtml.cs:68-116 | Admin, player online, map running, and the command succeeds when all three hold; any failure changes nothing; success moves only that player, to the chosen destination on that map |
| Maps.Announce | Server/Web/Pages/Maps.cshtml.cs:129-132 | every connected player receives the line exactly once; players without a connection are unchanged |
| Maps.Broadcast | Server/Web/Pages/Maps.cshtml.cs:118-142 | fails iff the caller is below Operator, and then changes nothing; a permitted caller always succeeds, and the prefixed message reaches every connected player |
| Maps.GetMapDetail | Server/Web/Pages/Maps.cshtml.cs:145-195 | Admin only; an unknown index is reported; otherwise the first definition with that index is reported |
| Maps.StoredNew | Server/Web/Pages/Maps.cshtml.cs:249 | a blank description becomes the file name, and nothing else changes |
| Maps.CreateMap | Server/Web/Pages/Maps.cshtml.cs:198-283 | SuperAdmin; a blank file name is refused before anything is created; success appends the stored form under a fresh index |
| Maps.WithInfo | Server/Web/Pages/Maps.cshtml.cs:332-355 | running maps of the edited definition see the new definition; other maps are unchanged |
| Maps.UpdateMap | Server/Web/Pages/Maps.cshtml.cs:286-367 | SuperAdmin; an unknown index fails and changes nothing; otherwise the row becomes the posted form and running maps of it see it |
| Maps.CreateThenDetail | Server/Web/Pages/Maps.cshtml.cs:145-283 | the detail view of a created map gives back the stored form under the new index |
| Maps.UpdateThenDetail | Server/Web/Pages/Maps.cshtml.cs:145-367 | the detail view of an updated map gives back the posted form |
| Players.FindByEmail | Server/Web/Pages/Players.cshtml.cs:66-68 | the first online player of the caller's account e-mail, ignoring case; none without an e-mail |
| Players.Recall | Server/Web/Pages/Players.cshtml.cs:49-101 | no role check; the target must be online, then the caller, and the command succeeds when both are; any failure changes nothing; the roster becomes `Recalled` of the old roster |
| Players.Recalled | Server/Web/Pages/Players.cshtml.cs:66-73 | the roster keeps its length, names and e-mails; with either player missing it is unchanged; otherwise the target shares the caller's map and cell, the caller stays put, and every other player is unchanged |
| Players.SameLookups | Server/Web/Pages/Players.cshtml.cs:66-68 | two rosters with the same names and e-mails seat by seat give the same player and caller look-ups |
| Players.RecallIdempotent | Server/Web/Pages/Players.cshtml.cs:49-101 | recalling the same player twice leaves the roster as one recall does |
| Players.Kick | Server/Web/Pages/Players.cshtml.cs:103-141 | no role check; fails iff the player is offline, and then changes nothing; otherwise a connected player is asked to disconnect |
| Players.RaiseLevelAsWritten | Server/Web/Pages/Players.cshtml.cs:162-190 | the written check compares the 32-bit wrapped sum with the cap |
| Players.RaiseLevelAsWrittenWraps | Server/Web/Pages/Players.cshtml.cs:174-178 | a level 10 player raised by `int.MaxValue` levels passes the cap of 100, ending at level -2147483639 |
| Players.RaiseLevel | Server/Web/Pages/Players.cshtml.cs:162-186 | levels ≤ 0 is refused; a sum above the cap is refused, reporting the cap, the current level and the attempted level; on success the new level is exactly current + levels, above the current level and at most the cap |
| Players.RaiseLevelAgrees | Server/Web/Pages/Players.cshtml.cs:174 | where the sum fits in 32 bits, the written check and the corrected one agree |
| Players.LevelUp | Server/Web/Pages/Players.cshtml.cs:146-213 | Admin, player online, then the level check, which is the corrected `RaiseLevel` without 32-bit wrap-around (see Findings); any failure changes nothing; success changes only that player's level |
| AccountService.View | Server/Web/Services/AccountService.cs:164-185 | the view copies the e-mail, gold, ban flag and the character names themselves; the character count is their number; its permission value converts back to the account's identity |
| AccountService.Listing | Server/Web/Services/AccountService.cs:25-31 | the total is the number of all rows; the page has its exact paged length; item i is the view of row (page-1)*size + i |
| AccountService.Searched | Server/Web/Services/AccountService.cs:51-59 | a blank keyword keeps all accounts; otherwise an account is kept iff its e-mail or a character name contains the keyword, ignoring case |
| AccountService.SearchIgnoresCase | Server/Web/Services/AccountService.cs:53-59 | keywords that differ only in letter case find the same accounts |
| AccountService.GetAllAccounts | Server/Web/Services/AccountService.cs:18-39 | the loop returns the listing of all accounts |
| AccountService.SearchAccounts | Server/Web/Services/AccountService.cs:44-74 | the loop returns the listing of the searched accounts |
| AccountService.GetAccountCount | Server/Web/Services/AccountService.cs:114-124 | the count is the total that a blank search and the full listing both report |
| AccountService.EmailIndex | Server/Web/Pages/Accounts.cshtml.cs:179-192 | the first account whose e-mail equals the input ignoring case, and none exactly when no e-mail does |
| AccountService.FindAccountByEmail | Server/Web/Services/AccountService.cs:96-109 | the indexed loop returns the first account whose e-mail equals the input ignoring case |
| AccountService.EmailIndexIgnoresCase | Server/Web/Services/AccountService.cs:103 | e-mails that differ only in letter case find the same account |
| AccountService.EmailIndexKept | Server/Web/Services/AccountService.cs:136 | changing an account without changing its e-mail changes no look-up |
| AccountService.SetBanned | Server/Web/Services/AccountService.cs:129-143 | an unknown e-mail changes nothing; otherwise only the found account's ban flag changes |
| AccountService.SetBannedTwice | Server/Web/Services/AccountService.cs:129-143 | of two ban changes the last wins, so banning is idempotent |
| AccountService.BanThenUnban | Server/Web/Pages/Accounts.cshtml.cs:68-112 | unbanning an account that ban had just banned restores every account |
| AccountService.BanAccount | Server/Web/Services/AccountService.cs:129-143 | false exactly for an unknown e-mail; the accounts become the ban update |
| AccountService.SetIdentity | Server/Web/Services/AccountService.cs:148-162 | an unknown e-mail changes nothing; otherwise only the found account's identity changes |
| AccountService.SetIdentityThenFind | Server/Web/Services/AccountService.cs:148-162 | after a permission change, looking up the e-mail finds the account with the new identity |
| AccountService.SetPermission | Server/Web/Services/AccountService.cs:148-162 | false exactly for an unknown e-mail; the accounts become the identity update |
| Accounts.CurrentPageOf | Server/Web/Pages/Accounts.cshtml.cs:50 | the current page is the requested page when positive, else 1 |
| Accounts.AddGoldAsWritten | Server/Web/Pages/Accounts.cshtml.cs:132-133 | the written update takes the 32-bit wrapped sum and raises a negative result to 0 |
| Accounts.AddGoldAsWrittenLoses | Server/Web/Pages/Accounts.cshtml.cs:132-133 | adding 500,000,000 to a balance of 2,000,000,000 leaves 0 |
| Accounts.AddGold | Server/Web/Pages/Accounts.cshtml.cs:132-135 | the balance stays in 0..int.MaxValue, equals the exact sum when the sum is in range and 0 when it is negative; a gain never lowers the balance and a loss never raises it |
| Accounts.AddGoldAgrees | Server/Web/Pages/Accounts.cshtml.cs:132-133 | where the sum fits in 32 bits, the written update and the corrected one agree |
| Accounts.AddGoldUndo | Server/Web/Pages/Accounts.cshtml.cs:132-135 | taking back an adjustment that was not cut off restores the balance |
| Accounts.AccountsPage.TotalPages | Server/Web/Pages/Accounts.cshtml.cs:38 | the ceiling of `TotalCount / PageSize`: enough pages for every account, and no more |
| Accounts.AccountsPage.OnGet | Server/Web/Pages/Accounts.cshtml.cs:48-66 | the page state becomes the listing of the searched accounts on the normalised page; the blank-keyword branch and the search branch agree on it |
| Accounts.AccountsPage.Ban | Server/Web/Pages/Accounts.cshtml.cs:68-89 | Admin; a denied caller changes nothing; otherwise the account is banned, an unknown e-mail is reported, the keyword becomes the e-mail, and the listing is reloaded |
| Accounts.AccountsPage.Unban | Server/Web/Pages/Accounts.cshtml.cs:91-112 | as `Ban`, clearing the flag |
| Accounts.AccountsPage.ModifyGold | Server/Web/Pages/Accounts.cshtml.cs:114-147 | Admin; an unknown e-mail changes nothing; otherwise only that account's gold changes, to the corrected `AddGold` without 32-bit wrap-around (see Findings), which is also the result; the listing is reloaded on the e-mail |
| Accounts.AccountsPage.SetPermission | Server/Web/Pages/Accounts.cshtml.cs:152-177 | SuperAdmin, then the value must be in 0..4, both before any change; a valid value gives the identity of that ordinal to forward; the keyword becomes the e-mail only then |

## Left out

- Exceptions and `catch` blocks: the model assumes no enumeration or database failure, so the partial results of `catch` are not modelled.
- Message texts: these are presentation. A command's outcome is a failure reason (`Outcomes.Why`) or a value.
- AJAX and rendering: `IsAjaxRequest`, the JSON results and `Page()` are presentation.
- View models: all of them except the account view and the map row are not modelled. Detail views report the record itself.
- Account view: `MapToViewModel` also fills `Permission` (the identity's name), `CreatedDate`, `LastLogin`, and each character's `Class`, `Level` and `Deleted`. The model keeps only the character names, because accounts in this model hold no dates and no character details.
- Null values:
  - A `null` collection is not modelled.
  - A `null` string is modelled as the empty string.
  - `CreateNewObject` and `CreateFreshItem` returning `null` are not modelled.
- Index allocation: `CreateNewObject` is not part of this model. The new index is modelled as one above every index in use (`Records.FreshIndex`).
- Case folding: ignoring case folds ASCII letters only. Other scripts compare as they are.
- Map list sort: `ThenBy(Description)` uses the culture's string comparison. The model compares character codes instead.
- Enumerations: `Enum.TryParse` and `ToString` are oracles, and enumerations are integer codes.
- Game-engine calls are not part of this model:
  - `MonsterObject.Spawn` is reduced to the yes/no verdict `accepts`.
  - What `Die` does beyond marking a monster dead is not modelled.
  - `Teleport`'s own cell checks are not modelled.
  - `GetRandomLocation` is a parameter.
  - These calls are left out: `LevelUp()`, `Enqueue` packets, `TrySendDisconnect` (modelled as a flag), `userMagic.Delete`, `StatsChanged`, `SEnvir.Log`.
- `AdminAuthService.SetAccountPermission` is not part of this model. `Accounts.AccountsPage.SetPermission` stops at the validated identity it forwards.
- `PlayerService` is not part of this model:
  - `SearchPlayers` and `GetOnlinePlayers`, and so the Players page's `OnGet`, are left out.
  - `GetOnlinePlayer` is taken to be the same case-insensitive name look-up the other pages use.
- Aliasing: shared records are modelled by value. A skill record is held by value in both the list and the dictionary. `Skills.Grant` updates the dictionary entry only when it equals the listed record. A running map's definition is copied over by `Maps.WithInfo`.
- `Items.GiveItem`:
  - `GainItem` is modelled as appending one stack. Stacking into existing bag slots is not modelled.
  - The success report also quotes the raw `count`, as the message does.
- Monsters page: dead monsters stay in the map's list, so the map list's monster count includes them.
- 32-bit paging: `(page - 1) * size` can overflow for extreme page numbers. The model uses the exact product.
- Randomness: `System.Random` is not modelled. Its draws are the parameter `rng`, a sequence of raw numbers. `Placement.Next` maps a draw at or above `hi - lo` to `lo`, so the distribution of positions is not modelled, only which positions can occur.
- Concurrency with the game loop, which can change live collections mid-enumeration, is not modelled.
- Claims and identity: the `Permission` claim is taken as given, and so is the signed-in e-mail (`User.Identity.Name`).

## Findings

| source | as written | input that shows it | evidently intended | confidence | as-written member | corrected member |
|---|---|---|---|---|---|---|
| Server/Web/Pages/Players.cshtml.cs:174-178 | `newLevel = currentLevel + levels` is unchecked 32-bit arithmetic, so a huge `levels` wraps to a negative level that passes the `newLevel > maxLevel` check and is stored | level 10, levels = 2147483647, MaxLevel 100: the player is set to level -2147483639 | the exact sum is compared with the cap, so an accepted raise always lands in (current, MaxLevel] | high (not executed) | Players.RaiseLevelAsWritten, Players.RaiseLevelAsWrittenWraps | Players.RaiseLevel |
| Server/Web/Pages/Accounts.cshtml.cs:132-133 | `newGold = GameGold + amount` is unchecked 32-bit arithmetic, so a large positive adjustment wraps negative and is then clamped to 0, wiping the balance | GameGold 2,000,000,000, amount 500,000,000: the balance becomes 0 | the exact sum kept within 0..int.MaxValue, so adding gold never lowers the balance | high (not executed) | Accounts.AddGoldAsWritten, Accounts.AddGoldAsWrittenLoses | Accounts.AddGold |
