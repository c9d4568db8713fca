# SiamSiam ecosystem: verified model of the shared models and configuration

A Dafny model of the parts of the SiamSiam ecosystem that hold real algorithms
or state machines, with proofs of what they are for. `dafny verify dfyconfig.toml`
checks the whole project.

| file | models |
|---|---|
| `Characters.dfy`, `Replacing.dfy`, `Escaping.dfy` | JavaScript character classes, `trim`, global `replace` with the templates' regular expressions, HTML and regex escaping |
| `Template.dfy`, `TemplatePasses.dfy`, `NotificationTemplate.dfy`, `NestedBlocks.dfy`, `RenderedText.dfy` | the template language, each rewriting pass over a printed template, the renderer, blocks nested in blocks of their own kind, what becomes of literal template text |
| `BaseModel.dfy`, `Locking.dfy`, `LockingRuns.dfy` | record instances and their table, the optimistic-locking protocol as interleaved events, its guarantees over runs |
| `Pagination.dfy` | one page of a result and the walk along `nextPage` |
| `RoleTree.dfy`, `PosRole.dfy`, `AdminRole.dfy`, `Permissions.dfy` | role hierarchies, permissions over parent chains and inheritance graphs |
| `SharedConfig.dfy` | `deepMerge` and dotted lookup |
| `FxLimit.dfy`, `GiftRegistry.dfy`, `GiftCard.dfy`, `ArchiveMixin.dfy` | ledgers and counters |
| `Wrappers.dfy`, `Collections.dfy` | result types, and facts about sequences, sets and maps that several modules need |

Conventions. Money is in integer cents. A table is a map or a sequence; a static
business method is one atomic step, and only the instance protocol of the base
class is interleaved, at the granularity of *statement sent*, *statement run by
the database*, *reply read*. Generated ids and batch ids are new. The time, the
outcome of a PIN comparison and generated ids are parameters. Missing hook lists
are empty. A JavaScript value in a template is its `String` and its `Boolean`.

Results that differ from what the code or its comments suggest:

- A template is rendered as intended for all variables exactly when no block is
  nested, at any depth, in a block of its own kind
  (`NestedBlocks.RendersAsIntendedIff`). The pass of a kind leaves a closer in the
  text of every template that nests the kind
  (`NestedBlocks.NestingLeavesCloser`); for some variables the other pass may drop
  it again, with the block it stands in. Single braces in text are fine as long as
  no text contains `{{`, ends in `{` or starts with `}`.
- Triple braces do not give the unescaped output that the code's comment
  announces: wherever they stand, the shown text comes out as for double braces,
  in single braces (`NotificationTemplate.TripleBracesKeepBraces`).
- A shown value is inserted as it is in every place exactly when it has no `$`
  that `replace` reads specially, and where nothing around the hole has a `$` the
  same holds of that one place (`Replacing.InsertedAsIsIff`,
  `Replacing.ExpandsToItselfIff`); escaping creates such pairs from `$<`, `$>`,
  `$"`, `$'` and `$&` (`Escaping.EscapedInsertedIff`).
- Variable order matters exactly when two names that differ only in case are
  shown differently (`NotificationTemplate.OrderIrrelevantIff`).
- Only subject, body, html, text and sms have their blocks decided; the other
  fields of a rendered notification keep the block markers.
- The save of a loaded instance checks the version of the row it was loaded from
  and sets the next one, whatever was filled in, exactly for the model classes
  that list `id` and `version` among their fields and guard both, apart from
  classes in which nothing can be filled (`LockingRuns.SavesAreVersionedIff`).
  - Twenty-one classes inherit optimistic locking without listing `version`
    (`complaint.js:28-33`, `currency.js:17`, `wallet-transaction.js:20` and others).
    Their instances load no version, and every save that would change something is
    refused, also on an unchanged row (`LockingRuns.UnlistedVersionIsRefused`);
    only an instance that was itself created can be saved again.
  - The class comment of the base model shows a `guarded` list without `id` and
    `version`. Where `version` can be filled, two instances of one row can both
    save, and the second overwrites the first unseen
    (`LockingRuns.UnguardedSavesCollide`). Where `id` can be filled, a save can
    overwrite another row (`LockingRuns.UnguardedIdOverwritesAnother`).
- The static `update` bypasses the version, and what it writes can be overwritten
  unseen (`LockingRuns.StaticUpdateIsLost`).
- `group.*` grants what is below the group exactly when every `.*` of the group
  name itself stands in a run at its end, because `replace('.*', '')` removes the
  first `.*` (`AdminRole.WildcardMeansGroupIff`).
- The hook that copies a parent's permissions runs on creation only. Over any run
  of creations and changes, what roles store is what the walk finds exactly when
  each step fits in as it is made (`PosRole.EffectiveThroughoutIff`, a change that
  does not in `PosRole.ChangeLeavesChildBehind`).
- An admin role's resolver ends exactly when no inheritance cycle is reachable
  (`AdminRole.EndsIffNoCycle`).
- `deepMerge` throws where the override holds an object inside an object that
  meets a scalar. The grouping of three merges can decide both whether one throws
  and what comes out; `SharedConfig.SameOutcomeIff` says exactly when it does not.
- The all-currencies limit row of a client that also has a row for the pair is
  counted up without being checked. Over a run it keeps its limits exactly when
  the trades checked against other rows fit it too
  (`FxLimit.RowKeptOverRunIff`, an overrun in `FxLimit.UncheckedRowOverruns`). A
  check protects only the record that directly follows it
  (`FxLimit.CheckedTogetherIff`, an overrun in `FxLimit.CheckedTogetherOverruns`).
- A card can be reloaded exactly when it is usable, reloadable, below its maximum
  and has a positive reload maximum (`GiftCard.ReloadableIff`). `issue` sets none
  and a missing one compares as zero, so no issued card ever takes a positive
  reload (`GiftCard.IssuedCardsTakeNoReload`).
- `freeze` sets the status, wrong PINs only the flag, and `reload` looks at the
  status alone: a card frozen by wrong PINs pays nothing but can be reloaded where
  the rules above allow it, also past its expiry date
  (`GiftCard.MovesMoneyFromIff`, `GiftCard.FrozenPaysNothing`).
  `unfreeze` revives cancelled and expired cards that hold money
  (`GiftCard.UnfreezeRevivesIff`).
- A delay of zero days and a batch size of zero mean the defaults, 7 and 10000.

## Model

| member | source | states |
|---|---|---|
| NotificationTemplate.RenderingIsEvaluation | packages/shared-models/src/notification-template.js:333-376 | for every template without same-kind nesting, with double and triple holes, in strict mode or not, escaped or not, interpolation followed by the two lazy block passes gives the direct recursive evaluation, up to outer whitespace |
| NestedBlocks.RendersAsIntendedIff | packages/shared-models/src/notification-template.js:333-376 | a template is rendered as its evaluation for all variable objects if and only if it nests neither ifs in ifs nor unlesses in unlesses, at any depth |
| NestedBlocks.NestingLeavesCloser | packages/shared-models/src/notification-template.js:366-373 | whatever the variables, the pass of a kind over a template that nests this kind leaves one of its closers in the text |
| NestedBlocks.MatchesBounded | packages/shared-models/src/notification-template.js:366-373 | on every text a block pass makes at most as many matches as there are openers, and fewer when some opener is followed by another before any closer |
| NestedBlocks.ClosersLeft | packages/shared-models/src/notification-template.js:366-373 | on every text a block pass takes away no more closers than it makes matches |
| NotificationTemplate.RenderMeaning | packages/shared-models/src/notification-template.js:147-202 | rendering a stored template throws if and only if the last of defaults, variables and additional variables that has some required name holds a falsy value for it; otherwise each field means the evaluation of its text under the merge of the three, or for the fields without conditional processing the text with its holes filled |
| NotificationTemplate.Interpolate | packages/shared-models/src/notification-template.js:333-358 | the loops over the variables, the sweep and the trim compute the specified composition of passes |
| NotificationTemplate.SequentialIsSimultaneous | packages/shared-models/src/notification-template.js:338-343 | replacing one variable after the other is substituting every hole at once, the first fitting entry winning |
| NotificationTemplate.InterpolationMeaning | packages/shared-models/src/notification-template.js:333-358 | holes with a variable are filled, outside strict mode exactly the other holes become empty, the triple-brace loop never finds a match, and the rest is untouched up to the trim |
| NotificationTemplate.OrderIrrelevantIff | packages/shared-models/src/notification-template.js:339-343 | no template tells two orders of the variables apart if and only if names equal up to case are shown alike |
| NotificationTemplate.ConditionsMeaning | packages/shared-models/src/notification-template.js:364-376 | the two conditional passes decide the ifs and then the unlesses of the printed template |
| NotificationTemplate.ConditionedAroundSpace | packages/shared-models/src/notification-template.js:357-376 | conditional processing commutes with whitespace on either side, so the earlier trim loses nothing else |
| NestedBlocks.NestedIfLeavesItsCloser | packages/shared-models/src/notification-template.js:366-368 | for an if right inside an if the inner closer ends the outer block and the outer closer stays in the text |
| NotificationTemplate.TripleBracesKeepBraces | packages/shared-models/src/notification-template.js:338-350 | a triple-brace hole anywhere in a template comes out in single braces, as the display text of the first fitting variable, with entities exactly where escaping is on |
| RenderedText.SingleHoleShows | packages/shared-models/src/notification-template.js:333-355 | `{{name}}`, with any blanks around the name and in any letter case, renders as the escaped display text with escaping on, as the raw display text with escaping off, and as nothing for null and undefined, up to outer whitespace |
| RenderedText.HoleShows | packages/shared-models/src/notification-template.js:338-350 | a hole anywhere in a template shows the first variable whose name equals its name but for case, whatever the other variables and the rest of the template are |
| RenderedText.UnfilledHole | packages/shared-models/src/notification-template.js:353-355 | a hole without a variable stays as it is written in strict mode and becomes empty otherwise |
| RenderedText.IfShows | packages/shared-models/src/notification-template.js:366-368 | `{{#if name}}…{{/if}}` shows its body exactly when the object has a truthy value under exactly that name |
| RenderedText.UnlessShows | packages/shared-models/src/notification-template.js:371-373 | `{{#unless name}}…{{/unless}}` shows its body exactly when it has none |
| RenderedText.EscapingKeepsMarkupOut | packages/shared-models/src/notification-template.js:333-394 | with escaping on, no angle bracket or quote comes out of a template whose own texts have none, for all variables in the domain and also with blocks nested in their own kind |
| NotificationTemplate.SpreadLookup | packages/shared-models/src/notification-template.js:154-158 | in the merged variables a later source wins and the others keep their values |
| NotificationTemplate.OrdinaryTextInsertable | packages/shared-models/src/notification-template.js:341-342 | values without braces and dollar signs are in the renderer's domain, escaped or not |
| TemplatePasses.PassTransforms | packages/shared-models/src/notification-template.js:339-373 | each global replace over a printed template, in any context, is the corresponding transformation of the template, for all four expressions |
| TemplatePasses.FindOwnCloser | packages/shared-models/src/notification-template.js:366-371 | the lazy match of a block stops at the block's own closer when no block of its kind is inside |
| Escaping.EscapeHtmlDistributes | packages/shared-models/src/notification-template.js:391-394 | escaping a concatenation is concatenating the escaped parts |
| Escaping.EscapeHtmlEmitsNoMarkup | packages/shared-models/src/notification-template.js:391-394 | no angle bracket or quote survives escaping |
| Escaping.UnescapeUndoesEscape | packages/shared-models/src/notification-template.js:391-394 | reading the entities back recovers every text |
| Escaping.EscapeHtmlIsInjective | packages/shared-models/src/notification-template.js:391-394 | different texts stay different when escaped |
| Replacing.InsertedAsIsIff | packages/shared-models/src/notification-template.js:342 | a replacement string is inserted as it is by every match in every place if and only if no `$` of it is read specially |
| Replacing.ExpandsToItselfIff | packages/shared-models/src/notification-template.js:342 | the same for each single match, where neither the match nor the text on either side has a `$` |
| Escaping.EscapedPlainIff | packages/shared-models/src/notification-template.js:342 | no `$` of an escaped text is read specially if and only if no `$` of the raw text precedes a special character |
| Escaping.EscapedInsertedIff | packages/shared-models/src/notification-template.js:342 | where nothing around the hole has a `$`, an escaped value is inserted as it is if and only if no `$` of the raw value precedes a special character |
| Escaping.EscapedAlwaysInsertedIff | packages/shared-models/src/notification-template.js:342 | these are the values whose escaped text is inserted as it is by every match in every place |
| Escaping.EscapeRegexDenotesInput | packages/shared-models/src/notification-template.js:399-401 | an escaped name, read as a regular expression, denotes exactly the name |
| Escaping.EscapeRegexStep | packages/shared-models/src/notification-template.js:399-401 | each special character gets a backslash, and every other character stays |
| BaseModel.Record.Fill | packages/shared-models/src/base-model.js:349-359 | a field is marked dirty if and only if it was, or is given, known and not guarded; those given take the cast value, and every other attribute and the snapshot stay |
| BaseModel.Record.Absorb | packages/shared-models/src/base-model.js:665-671 | each column of a returned row replaces attribute and snapshot, all others stay, the dirty set is cleared, and whether the instance counts as stored is left open |
| BaseModel.Hydrate | packages/shared-models/src/base-model.js:563-574 | a hydrated instance exists, remembers the row and is clean |
| BaseModel.Record.Save | packages/shared-models/src/base-model.js:235-248 | without interleaving, an unsaved instance is stored under its own or the generated id, unless that is taken, with what was changed, version 1, both stamps and null in every other column; a changed one is stored again, with what was changed, the next version and the stamp, if and only if its row has the version it remembers; the instance takes over the stored row, and a refused save changes nothing |
| BaseModel.Create | packages/shared-models/src/base-model.js:226-230 | a created row holds the cast value of every given field that is known and not guarded, and null in every other column but the keys and stamps, which are set |
| BaseModel.Record.Delete | packages/shared-models/src/base-model.js:271-291 | delete takes the row away, or marks it in the column for soft deletes if and only if it has the version remembered, and leaves its other columns; the instance stops counting as stored unless that failed, and a refused delete changes nothing |
| BaseModel.Table.Query | packages/shared-models/src/base-model.js:737-744 | the effect of one insert, version-checked update or delete on the table |
| Locking.SaveStoresWhatWasSent | packages/shared-models/src/base-model.js:690-761 | a save stores what its instance held when it was sent, with the new or the next version, on the table as it is when the statement is run, whatever happened in between, or is refused there |
| Locking.DeleteErasesWhatWasSent | packages/shared-models/src/base-model.js:271-291 | a delete likewise takes the row away, or marks it where its version still is the one remembered |
| Locking.EventsDo | packages/shared-models/src/base-model.js:563-761 | loading, filling and reading a reply change exactly the one instance, as the row, the data or the reply says; sending and running change no instance |
| Locking.StepKeeps | packages/shared-models/src/base-model.js:690-761 | for classes that list the version among their fields and classes that do not, every event keeps the invariant: each remembered or travelling row with a version is part of the one row that ever had its id and version |
| LockingRuns.EqualVersionsMeanEqualRows | packages/shared-models/src/base-model.js:563-574 | in every reachable world an instance whose remembered version is the row's version remembers that row |
| LockingRuns.UpdateGoesThroughIffCurrent | packages/shared-models/src/base-model.js:731-749 | a versioned update succeeds if and only if its author had loaded a version and the row still is what he had loaded |
| LockingRuns.RunsAreSerial | packages/shared-models/src/base-model.js:690-761 | after every interleaving the table is the serial replay of the successful statements, each update built on the row it replaced and raising its version by one |
| LockingRuns.OneSuccessPerVersion | packages/shared-models/src/base-model.js:730-749 | once a save built on a version went through, every other save built on that version is refused, at any later time |
| LockingRuns.StaticUpdateIsLost | packages/shared-models/src/base-model.js:253-266 | a static update leaves the version alone, so an instance's save can overwrite it unseen |
| LockingRuns.SavesAreVersionedIff | packages/shared-models/src/base-model.js:349-359 | for every row, fill and time the save of an instance loaded from the row addresses it, expects its version and sets the next one, if and only if the class lists id and version as fields and guards both, or nothing can be filled |
| LockingRuns.UnlistedVersionIsRefused | packages/shared-models/src/base-model.js:730-749 | on every table the save of an instance loaded by a class that does not list the version sends nothing, or is refused once a field was filled, and changes no row |
| LockingRuns.VersionRisesIff | packages/shared-models/src/base-model.js:349-359 | every save after a fill of a clean instance that remembers a version checks it and sets the next one if and only if the version is guarded or no field |
| LockingRuns.UnguardedVersionRepeats | packages/shared-models/src/base-model.js:351 | if mass assignment reaches the version, a save can keep the version of the row it changes |
| LockingRuns.UnguardedSavesCollide | packages/shared-models/src/base-model.js:700-749 | then of two instances that loaded one row both save, and the second overwrites the field that the first one saved |
| LockingRuns.UnguardedIdOverwritesAnother | packages/shared-models/src/base-model.js:715-749 | if mass assignment reaches the id, a save overwrites another row that has the version of the row that was loaded, and leaves that one as it is |
| Pagination.PagesPartitionTheResult | packages/shared-models/src/base-model.js:190-221 | following nextPage from page 1 ends after totalPages pages, and the pages together are the result |
| Pagination.FlagsAgree | packages/shared-models/src/base-model.js:208-220 | hasMore, nextPage and page < totalPages agree, pages before the last are full, and a page is empty exactly outside 1 to totalPages |
| Pagination.PageShows | packages/shared-models/src/base-model.js:190-221 | a page has the requested size, or the default for none or zero, up to the maximum, and its rows are those of the result from `(page - 1) * perPage` on |
| Pagination.ServedIff | packages/shared-models/src/base-model.js:191-205 | a page is served if and only if its number is positive and the requested size not negative |
| RoleTree.ForestHoldsRootedOnce | packages/shared-models/src/pos-role.js:302-311 | buildTree(null) ends, and its forest holds each role whose parent chain reaches null exactly once and no other role, parent cycles notwithstanding |
| RoleTree.ChainRepeatsNothing | packages/shared-models/src/admin-role.js:220-229 | the path of a recursive call repeats no role, which is why the recursion ends |
| RoleTree.ForestIsShaped | packages/shared-models/src/admin-role.js:220-229 | the children of a node are the roles naming it as parent, in list order, at every depth |
| RoleTree.ChildrenKeepOrder | packages/shared-models/src/pos-role.js:302-311 | the children of a node are exactly the roles that name it as parent, in the order of the list |
| RoleTree.HierarchyHoldsActiveChains | packages/shared-models/src/pos-role.js:296-311 | a role is in the hierarchy, once, if and only if its chain runs through active roles to a root |
| PosRole.GetAllPermissions | packages/shared-models/src/pos-role.js:247-274 | on every parent graph the loop ends with what the roles on the way up hold, or just `*` when one of them holds it |
| PosRole.HasPermission | packages/shared-models/src/pos-role.js:279-282 | a permission is granted if and only if some role on the way up holds it or `*` |
| PosRole.DescendantsInherit | packages/shared-models/src/pos-role.js:257-271 | what an ancestor may do, its descendants may do |
| PosRole.Data.BeforeCreate | packages/shared-models/src/pos-role.js:185-197 | the stored permissions are the parent's followed by the role's own, each at its first place, and the kept copy is the parent's; without a stored parent they are the role's own, without a copy |
| PosRole.CreatedHolds | packages/shared-models/src/pos-role.js:185-197 | a created role holds a permission if and only if it was given to it or its parent stores it, and no other role changes |
| PosRole.CreateKeepsFlattenedIff | packages/shared-models/src/pos-role.js:185-197 | a creation keeps stored permissions closed under inheritance if and only if roles already naming the new id as parent hold its permissions |
| PosRole.FlatteningAgreesWithTheWalk | packages/shared-models/src/pos-role.js:183-274 | after any history of creations the parents are acyclic, stored permissions contain the parent's, and the walk finds exactly the stored ones |
| PosRole.StoredIsEffectiveIff | packages/shared-models/src/pos-role.js:247-274 | on every table the walk finds what each role stores if and only if each role stores what its parent stores |
| PosRole.ChangeKeepsFlattenedIff | packages/shared-models/src/pos-role.js:183-197 | a change of a stored role's permissions or parent, which runs no hook, keeps stored permissions closed under inheritance if and only if it holds what its new parent holds and the roles below it hold what it holds |
| PosRole.EffectiveThroughoutIff | packages/shared-models/src/pos-role.js:183-274 | over any run of creations and changes stored permissions are the effective ones in every state if and only if each step fits in as it is made |
| AdminRole.GetAllPermissions | packages/shared-models/src/admin-role.js:139-159 | the recursive resolver returns the permissions of all reachable roles, or just `*` |
| AdminRole.EndsIffNoCycle | packages/shared-models/src/admin-role.js:146-150 | the recursion from a role ends if and only if no walk from it meets a role twice |
| AdminRole.HasPermission | packages/shared-models/src/admin-role.js:167-183 | access is given if and only if a reachable role lists `*`, or exactly the permission asked for, or some entry ending in `.*` whose text without its first `.*`, followed by a dot, is a prefix of it |
| AdminRole.DescendantsAreAllowed | packages/shared-models/src/admin-role.js:139-183 | a grant to an ancestor, wildcards included, is a grant to every descendant |
| AdminRole.WildcardMeansGroupIff | packages/shared-models/src/admin-role.js:176-180 | `group.*` grants exactly what is below the group, for exactly the clean group names |
| SharedConfig.DeepMerge | packages/shared-config/index.js:449-459 | the key-by-key loop computes the merge, and throws if and only if the merge is undefined |
| SharedConfig.LookupAfterMerge | packages/shared-config/index.js:449-459 | a lookup in the merge is the override's scalar, the base's value, the merge of both or undefined, as the two inputs determine |
| SharedConfig.GetAfterMerge | packages/shared-config/index.js:499-501 | the same for dotted paths of dot-free keys |
| SharedConfig.EmptyIsLeftIdentity | packages/shared-config/index.js:449-459 | merging onto the empty object changes nothing |
| SharedConfig.EmptyIsRightIdentity | packages/shared-config/index.js:491 | merging the empty object, as in an unknown environment, changes nothing |
| SharedConfig.MergeIsIdempotent | packages/shared-config/index.js:449-459 | merging one override twice is merging it once |
| SharedConfig.AssociativeIff | packages/shared-config/index.js:449-459 | where all four merges are defined, merging is associative if and only if wherever a middle scalar stands between objects the last one covers the first |
| SharedConfig.RightDefinedIff | packages/shared-config/index.js:452-453 | where merging the first two first does not throw, the other grouping throws if and only if the last two put objects within objects onto a value of the first that is none |
| SharedConfig.LeftDefinedIff | packages/shared-config/index.js:452-453 | where merging the last two first does not throw, the other grouping throws if and only if the last one replaces what does not merge onto the first |
| SharedConfig.LastGoesOnIff | packages/shared-config/index.js:449-459 | whether the last of three goes onto the merge of the first two is read off the three, key by key, without merging |
| SharedConfig.FirstTakesIff | packages/shared-config/index.js:449-459 | whether the merge of the last two goes onto the first, likewise |
| SharedConfig.SameOutcomeIff | packages/shared-config/index.js:449-459 | both groupings of three merges throw or give the same configuration under exactly these conditions on the three inputs |
| FxLimit.CheckLimits | packages/shared-models/src/fx-limit.js:270-456 | a trade is allowed if and only if it keeps every limit of the row; the failed checks listed are exactly the breaches, each with the action the row configures for its limit; blocking, approval, override and warnings are stated over the row and the trade alone |
| FxLimit.CheckTrade | packages/shared-models/src/fx-limit.js:251-268 | without a row there is no trade; otherwise the verdict is that of a row getLimits may return |
| FxLimit.GetLimits | packages/shared-models/src/fx-limit.js:185-197 | an active row of the client for the pair is preferred to its active all-currencies row, and nothing is returned only when the client has neither |
| FxLimit.StatementsWrite | packages/shared-models/src/fx-limit.js:461-552 | a usage, a settlement, the resets, a suspension and an approval change exactly these counters, dates and flags of exactly these rows |
| FxLimit.LimitsHoldOverRuns | packages/shared-models/src/fx-limit.js:461-552 | a row its trades are checked against keeps its daily, monthly, annual, notional and open-position limits over every run of allowed trades, settlements, resets, suspensions and approvals |
| FxLimit.UncheckedRowIsCountedUp | packages/shared-models/src/fx-limit.js:463-471 | beside a pair-specific row an all-currencies row that keeps its limits goes on keeping them if and only if none of daily, monthly, annual and notional, nor for a new position the open positions, is breached |
| FxLimit.RowKeptOverRunIff | packages/shared-models/src/fx-limit.js:461-552 | over a run of allowed trades any row keeps its limits in every state if and only if each trade that counts against it, but was checked against another row, fits it as it is recorded |
| FxLimit.KeptThroughoutIff | packages/shared-models/src/fx-limit.js:461-552 | over any run, whatever was checked and when, a row keeps its limits in every state if and only if each trade that counts against it fits as it is recorded |
| FxLimit.CheckedTogetherIff | packages/shared-models/src/fx-limit.js:311-385 | any number of usages, allowed before any of them is recorded, leave every limit kept if and only if a check right before each record would have found room |
| FxLimit.CountersAreTheOpenTrades | packages/shared-models/src/fx-limit.js:461-489 | over every run with matched settlements, notional outstanding is the sum of the row's unsettled trades and open positions their number |
| FxLimit.EntriesWrite | packages/shared-models/src/fx-limit.js:461-552 | an entry of such a run writes what its statement writes, and adds to the open trades or takes from them |
| FxLimit.ClampNeverActs | packages/shared-models/src/fx-limit.js:482-483 | in such a run the clamp at zero changes no value |
| GiftRegistry.Registry.AddItem | packages/shared-models/src/gift-registry.js:243-277 | on an open registry the item comes last, wanted at least once and not bought, and the totals grow by it; otherwise nothing changes |
| GiftRegistry.Registry.RecordPurchase | packages/shared-models/src/gift-registry.js:282-325 | the first item of the id gains the quantity, at most up to what is wanted, the totals are recomputed and the registry is completed when nothing remains; an unknown or fully bought item changes nothing |
| GiftRegistry.FoldsAppend | packages/shared-models/src/gift-registry.js:262-322 | the stored totals are the sums of price times quantity, of price times number bought, and the count of items bought at least once |
| GiftRegistry.AggregatesStayExact | packages/shared-models/src/gift-registry.js:243-325 | after any run from an empty registry purchased stays within quantity, every stored total is the fold over the items, and completed means every priced item is bought in full |
| GiftRegistry.PurchaseKeepsExact | packages/shared-models/src/gift-registry.js:306-322 | a purchase keeps the totals exact and leaves nothing remaining if and only if every priced item is bought in full |
| GiftRegistry.PurchasesOnlyGrow | packages/shared-models/src/gift-registry.js:300-304 | over any run an item keeps its identity, price and quantity, and its purchases never fall |
| GiftCard.Card.Redeem | packages/shared-models/src/gift-card.js:181-240 | the checks in their order; a wrong PIN counts up and freezes at the third, a late redemption expires the card, and a payment of at most the balance moves balance, history, counts and status and clears the attempts |
| GiftCard.Card.Reload | packages/shared-models/src/gift-card.js:271-290 | the checks in their order; a reload adds the amount to both balances and to the total reloaded, counts up and makes the card active, whatever its flag |
| GiftCard.CardsConserveMoney | packages/shared-models/src/gift-card.js:134-324 | over every run balance plus redeemed is initial plus reloaded, available is current, history sums and counts agree, partially redeemed means more than a cent left and redeemed at most one |
| GiftCard.WithinMaximumIff | packages/shared-models/src/gift-card.js:155-156 | the balance stays within the maximum over every run if and only if the card was issued within it |
| GiftCard.RedeemedIff | packages/shared-models/src/gift-card.js:187-213 | exactly when a redemption goes through, what it takes, and that a failed one takes nothing |
| GiftCard.ReloadableIff | packages/shared-models/src/gift-card.js:276-281 | some positive reload goes through if and only if the card is usable and reloadable, below its maximum, with a positive reload maximum |
| GiftCard.NoReloadWithoutMaximum | packages/shared-models/src/gift-card.js:281 | without a reload maximum no positive reload ever goes through |
| GiftCard.IssuedCardsTakeNoReload | packages/shared-models/src/gift-card.js:134-171 | in no state that an issued card can reach does any positive reload go through |
| GiftCard.MovesMoneyFromIff | packages/shared-models/src/gift-card.js:181-290 | from any moment on, until it is unfrozen, money can move on a card if and only if its status is active or partially redeemed, and it holds money, is not flagged as frozen and has not expired at that moment, or can be reloaded |
| GiftCard.FrozenPaysNothing | packages/shared-models/src/gift-card.js:187 | a card flagged as frozen pays nothing until it is unfrozen, whatever is loaded onto it |
| GiftCard.UnusableUntilUnfrozen | packages/shared-models/src/gift-card.js:183-185 | a card with status redeemed, expired, cancelled or frozen moves no money until it is unfrozen |
| GiftCard.UnfreezeRevivesIff | packages/shared-models/src/gift-card.js:302-305 | unfreezing a cancelled card makes it usable if and only if money is left |
| GiftCard.ThirdWrongPinFreezes | packages/shared-models/src/gift-card.js:194-202 | wrong PINs in a row, for any amounts at any times, freeze the card at the third, count no further, and change nothing else |
| ArchiveMixin.Table.ArchiveOlderThan | packages/shared-models/src/archive-mixin.js:52-149 | of the rows created before the cutoff and without a stamp the oldest are stamped with the batch, all of them or as many as the batch size, 10000 where it is missing or zero; every other row stays, and the batch is logged with their number |
| ArchiveMixin.BacklogHolds | packages/shared-models/src/archive-mixin.js:58-65 | a row waits if and only if it is in the table, was created before the cutoff and has no stamp, as often as it is in the table |
| ArchiveMixin.Table.PurgeArchived | packages/shared-models/src/archive-mixin.js:156-187 | exactly the rows stamped more than the delay of days ago, seven where it is missing or zero, and of one batch if one is named, leave the table, and their number is returned |
| ArchiveMixin.CallTakesOldest | packages/shared-models/src/archive-mixin.js:58-103 | one call leaves exactly the backlog without its first slice |
| ArchiveMixin.RepeatedCallsEmptyTheBacklog | packages/shared-models/src/archive-mixin.js:52-149 | repeated calls archive consecutive slices of the backlog in creation order, and after the rounded-up number of calls no row created before the cutoff is without a stamp |
| ArchiveMixin.CountsStayExact | packages/shared-models/src/archive-mixin.js:97-133 | over every run each recorded count is the number of rows stamped with the batch, live or purged |
| ArchiveMixin.StampsAreFinal | packages/shared-models/src/archive-mixin.js:58-103 | a stamped row is never stamped again |
| ArchiveMixin.PurgeRemovesOnlyDue | packages/shared-models/src/archive-mixin.js:157-166 | a purge removes exactly the stamped rows past the delay, of one batch if one is named |

## Left out

- Reporting queries, caches, hashing, encryption, checksums, loggers, timers and the connection pool: foreign calls; only their effect on a table is kept.
- The query builder and SQL engine: the statements are modelled as their callers intend them, a null criterion as "is null", a list as "in". `packages/shared-utils/src/database/query-builder.js:96-119` and `:346-371` do otherwise: an object given to `where` is rendered as text, `buildUpdate` numbers its parameters from one again, and a list under the default operator becomes `=` with a list. This concerns the static `update` (`base-model.js:253-266`) and the lookups and updates of redeem, reload, freeze, unfreeze, cancel, addItem, recordPurchase, suspend and approve; save and delete of instances, the counters of the trading limits, and the stamping and purging of archives send statements of their own.
- Template versioning and usage statistics: the version cannot be mass-assigned and is set to 1 on creation, so there is no rising chain to prove.
- Text and values that can form markers, and in templates with triple braces values that start with `{`: outside the domain of the rendering theorem.
- Names other than ASCII `\w+`, and condition names that are properties of every JavaScript object.
- Optimistic locking switched off, lifecycle hooks that change data, direct assignment to attributes, and relation loading.
- Casts are an arbitrary function that leaves the id and the version alone.
- BaseModel.Record.Save: covers one call that nothing interrupts; the interleaved form is the event protocol of `Locking`.
- Configuration arrays, objects merged onto strings, lookup inside strings, and keys inherited from `Object.prototype`.
- FxLimit.CheckLimits: leaves out the message texts and the figures echoed beside them; null limits and counters are not modelled.
- Parsing of trading-hour strings and of calendar dates: hours are minutes of the day, instants are integers, a month is thirty days.
- GiftRegistry.AggregatesStayExact: starts from an empty registry, because creation with initial items ignores their quantities; prices and quantities are not negative.
- Floating-point rounding: amounts are integers, on which rounding to cents is the identity.
- Archive restore and integrity verification: their real work is commented out in the source.
- Cash gifts, expiry reminders, card delivery, backup codes, proxy purchases and the other record models: single-row setters without invariants of their own.
- API gateway, build configuration and front ends: plumbing.
