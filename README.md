# CommandsManager and BlockDistributionCounter, modelled in Dafny

This project models two parts of WorldEdit.

**The annotation-driven command dispatcher `CommandsManager`.**
- Registration walks command classes. It files every alias of every command method in a table keyed by the parent command: `null` for the root, the nested command's own method for its children. It also lists a synopsis for each root command.
- Dispatch walks a token line from left to right. At each level it:
  - looks the lowercased token up under the current parent;
  - checks the caller's permissions;
  - then either descends into a nested command or validates a leaf's argument count and flags;
  - finally invokes the leaf's handler with the command context in slot 0 of the argument array.
- Failures are `CommandException`s. Only two of them carry a usage: `CommandUsageException` carries a leaf's usage line (`getUsage`), and `MissingNestedCommandException` carries a nested usage (`getNestedUsage`). The nested usage offers only the sub-commands the caller may run. `UnhandledCommandException` and `CommandPermissionsException` carry nothing, and `WrappedCommandException` carries the handler's cause.
- The manager can also run into unchecked exceptions: a `NullPointerException` when a table is missing (lines 146, 210 and 291) and an `ArrayIndexOutOfBoundsException` on an empty alias list, a level past the tokens or an empty argument array (lines 119, 217, 288 and 340). The model keeps these apart from the `CommandException`s as `Crash` results.

**The block-frequency counter `BlockDistributionCounter`.**
- It counts how often each block occurs over the positions it is applied to.
- There is one `Countable` per distinct block. That object is shared between a lookup map and a distribution list.
- `getDistribution` sorts the list and reverses it in place.

Modules:
- `Descriptors` (descriptors.dfy):
  - the command descriptor (`Command`) and its provider classes (`Provider`);
  - the tables;
  - the permission rule;
  - lowercasing;
  - the exception hierarchy, as `Result` = `Ok` | `Fail(CommandError)` | `Crash(Fault)`. A `Fault` is an unchecked Java exception.
- `Registration` (registration.dfy): `registerMethods` as functions over a `Registry` value, with lemmas about what a registration leaves in the tables.
- `Usage` (usage.dfy): the usage line, the nested usage, and `Split`, the reading-back partner of both.
- `Dispatch` (dispatch.dfy):
  - `executeMethod` as functions: `Resolve`, `Validate`, `Outcome`, `Delivered`, `Dispatched`;
  - `Route`, an independent account of which tokens reach which handler;
  - lemmas that connect the two.
- `Manager` (commands_manager.dfy): the class `CommandsManager` with its `commands` and `descs` fields. Every method is proved equal to the function that describes it.
- `BlockDistribution` (block_distribution_counter.dfy):
  - the classes `Countable` and `BlockDistributionCounter`;
  - an invariant tying the map, the list and the blocks counted so far;
  - the total-count lemma.

Host-side behaviour is passed in as parameters:
- `granted` is the abstract `hasPermission(player, perm)`.
- `parse` is the `CommandContext` built from a token slice. It gives an argument count and a flag sequence.
- `invoke` is `Method.invoke`. It gives a `HandlerResult`.
- `extent` is `Extent.getBlock`.
- `toFuzzy` is `BlockState.toFuzzy`.

Behaviour of the code that a reader might not expect, and that the model keeps:
- Aliases are filed exactly as declared (line 112 of CommandsManager.java), while the looked-up token is lowercased (line 291). An alias with a capital letter can therefore never be reached (`Descriptors.CapitalAliasUnreachable`).
- A `@CommandPermissions` with an empty list denies every caller. Only a missing annotation admits everyone (lines 365-378).
- Registration does not check `min <= max` or that aliases exist. The only effect of a root command without aliases is the `ArrayIndexOutOfBoundsException` at line 119. It leaves the tables as they were at that point and stops the pass (`ok == false`).
- A nested command whose `@NestedCommand` lists no class gets no table. Dispatching into it, or asking for its nested usage, is a `NullPointerException` (`Crash(NullPointer)`). It is not the "<?>" usage. `Dispatch.NoCrash` therefore assumes `Closed`: every nested command has a table.

## Model

All CommandsManager.java cells are `src/main/java/com/sk89q/minecraft/util/commands/CommandsManager.java`, and all BlockDistributionCounter.java cells are `worldedit-core/src/main/java/com/sk89q/worldedit/function/block/BlockDistributionCounter.java`.

| member | source | states |
|---|---|---|
| `Descriptors.Lower` | src/main/java/com/sk89q/minecraft/util/commands/CommandsManager.java:291 | `toLowerCase` keeps the length and lowercases every character, position by position |
| `Descriptors.Permitted` | src/main/java/com/sk89q/minecraft/util/commands/CommandsManager.java:365-378 | a command without a permissions annotation admits everyone; an empty list admits nobody; otherwise the caller is admitted if and only if it holds one of the listed permissions |
| `Descriptors.LowerIdempotent` | src/main/java/com/sk89q/minecraft/util/commands/CommandsManager.java:291 | lowercasing an already lowercased token changes nothing |
| `Descriptors.CapitalAliasUnreachable` | src/main/java/com/sk89q/minecraft/util/commands/CommandsManager.java:111-113 | an alias filed with a capital letter differs from every lowercased token, so no lookup ever finds it |
| `Registration.Synopsis` | src/main/java/com/sk89q/minecraft/util/commands/CommandsManager.java:118-122 | the synopsis is the description alone when there is no usage text, and otherwise the usage text, " - " and the description, in that order |
| `Registration.PutAliases` | src/main/java/com/sk89q/minecraft/util/commands/CommandsManager.java:111-113 | after the alias loop, the table's keys are the old keys plus the aliases; every alias maps to the command, every other key to its old entry |
| `Registration.RegisterClass` | src/main/java/com/sk89q/minecraft/util/commands/CommandsManager.java:91-101 | registration creates the parent's table if it is missing, and tables and their keys only grow |
| `Registration.RegisterFrom` | src/main/java/com/sk89q/minecraft/util/commands/CommandsManager.java:103-135 | registering the methods from index i on keeps the parent's table and only adds keys |
| `Registration.RegisterCommand` | src/main/java/com/sk89q/minecraft/util/commands/CommandsManager.java:103-135 | registering one command method keeps the parent's table and only adds keys |
| `Registration.FileAliases` | src/main/java/com/sk89q/minecraft/util/commands/CommandsManager.java:111-113 | every alias of the command is a key of the parent's table afterwards; descs is untouched |
| `Registration.ListSynopsis` | src/main/java/com/sk89q/minecraft/util/commands/CommandsManager.java:117-123 | a root command's canonical alias is listed in descs; the command tables are untouched |
| `Registration.RegisterChildren` | src/main/java/com/sk89q/minecraft/util/commands/CommandsManager.java:128-134 | registering the child classes of a nested command only adds tables and keys |
| `Registration.ClassConsistent` | src/main/java/com/sk89q/minecraft/util/commands/CommandsManager.java:91-136 | registration keeps the manager's invariant: every key of every table is an alias of its command, and every descs key is a root alias |
| `Registration.ClassFrame` | src/main/java/com/sk89q/minecraft/util/commands/CommandsManager.java:91-136 | registering a class changes only the parent's table and those of nested commands declared inside the class; under a nested parent it always completes and leaves descs alone |
| `Registration.ClassTable` | src/main/java/com/sk89q/minecraft/util/commands/CommandsManager.java:96-113 | a completed registration leaves in the parent's table exactly the old entries overwritten by the aliases of the class's methods, in declaration order |
| `Registration.CommandTable` | src/main/java/com/sk89q/minecraft/util/commands/CommandsManager.java:103-135 | after one command method, the parent's table is the old table with its aliases filed; registering its children never touches it |
| `Registration.ChildrenTable` | src/main/java/com/sk89q/minecraft/util/commands/CommandsManager.java:128-134 | the child classes of a nested command are filed under that command itself, and registering them always completes |
| `Registration.LastDeclarationWins` | src/main/java/com/sk89q/minecraft/util/commands/CommandsManager.java:111-113 | an alias maps to the last command that declares it |
| `Registration.Undeclared` | src/main/java/com/sk89q/minecraft/util/commands/CommandsManager.java:111-113 | an alias that no command declares keeps its old entry, or stays absent |
| `Registration.RootDescs` | src/main/java/com/sk89q/minecraft/util/commands/CommandsManager.java:117-123 | a completed root registration lists one synopsis per method (the desc when the usage is empty, else usage + " - " + desc) and nothing else |
| `Registration.LastSynopsisWins` | src/main/java/com/sk89q/minecraft/util/commands/CommandsManager.java:117-123 | the synopsis under a canonical alias is that of the last command with that canonical alias |
| `Registration.NoSynopsis` | src/main/java/com/sk89q/minecraft/util/commands/CommandsManager.java:117-123 | a name that is no command's canonical alias keeps its old synopsis, or stays absent |
| `Registration.RegisterOkIff` | src/main/java/com/sk89q/minecraft/util/commands/CommandsManager.java:117-123 | a registration completes if and only if it is under a nested parent or every method of the class declares an alias |
| `Registration.CommandOk` | src/main/java/com/sk89q/minecraft/util/commands/CommandsManager.java:117-119 | a root command method registers without exception if and only if it declares an alias |
| `Usage.Path` | src/main/java/com/sk89q/minecraft/util/commands/CommandsManager.java:171-173 | the path is empty exactly when no token was typed, is at least one character per token long, and ends with a space |
| `Usage.UsageLine` | src/main/java/com/sk89q/minecraft/util/commands/CommandsManager.java:166-179 | the usage line starts with "/" and the path, ends with the usage text, and holds "[-", the flags and "] " in between exactly when the command declares flags, and nothing else in between |
| `Usage.PathSplits` | src/main/java/com/sk89q/minecraft/util/commands/CommandsManager.java:171-173 | the space-terminated path reads back: cutting it at the spaces gives the typed tokens first |
| `Usage.UsageLineStartsWithPath` | src/main/java/com/sk89q/minecraft/util/commands/CommandsManager.java:166-179 | a usage line starts with "/" and then holds the typed tokens, in order, before the flags and usage |
| `Usage.VisibleAmongStep` | src/main/java/com/sk89q/minecraft/util/commands/CommandsManager.java:210-218 | visiting one more entry adds its canonical alias exactly when the caller may run it |
| `Usage.NestedUsageOf` | src/main/java/com/sk89q/minecraft/util/commands/CommandsManager.java:191-235 | no table is a NullPointerException; a permitted child without aliases is an index fault; a failure is the permission failure of a non-empty table with no permitted child; otherwise the prefix is the typed path and the names are exactly the canonical aliases of the permitted children |
| `Usage.NestedUsageOutcomes` | src/main/java/com/sk89q/minecraft/util/commands/CommandsManager.java:191-235 | nested usage: NullPointerException if and only if there is no table; permission failure if and only if the table is non-empty and no child is permitted; otherwise the path prefix and exactly the canonical aliases of the permitted children, every permitted child's alias and no other name; never an index fault in a consistent registry |
| `Usage.Join` | src/main/java/com/sk89q/minecraft/util/commands/CommandsManager.java:221-222 | the joined text starts with the first name, followed by the separator when there is a second; no names give the empty text |
| `Usage.Render` | src/main/java/com/sk89q/minecraft/util/commands/CommandsManager.java:206-232 | the rendered usage starts with the prefix and "<", ends with ">", and holds "?" in between when nothing is offered |
| `Usage.JoinSplits` | src/main/java/com/sk89q/minecraft/util/commands/CommandsManager.java:221-222 | cutting the names joined with bars at the bars gives the names back |
| `Usage.RenderOffersNames` | src/main/java/com/sk89q/minecraft/util/commands/CommandsManager.java:206-232 | the rendered nested usage keeps the prefix and holds "?" when no name is offered; otherwise the text between "<" and ">" is an enumeration of exactly the offered names |
| `Dispatch.Missing` | src/main/java/com/sk89q/minecraft/util/commands/CommandsManager.java:297-298 | a MissingNestedCommandException carries its message and the nested usage; when building that usage raises a permission failure or an unchecked exception, that same exception propagates instead |
| `Dispatch.Resolve` | src/main/java/com/sk89q/minecraft/util/commands/CommandsManager.java:288-314 | resolution ends at a permitted non-nested leaf at a level within the tokens, or with a failure, never with success |
| `Dispatch.FirstUnknownFlag` | src/main/java/com/sk89q/minecraft/util/commands/CommandsManager.java:333-338 | none if and only if every flag is declared; otherwise the first undeclared flag in order |
| `Dispatch.Validate` | src/main/java/com/sk89q/minecraft/util/commands/CommandsManager.java:323-338 | a leaf is accepted if and only if min <= count, count <= max (or max is -1) and every flag is declared; each rejection carries the leaf's usage line; "Too few" comes before "Too many", which comes before "Unknown flag: " followed by the first undeclared flag |
| `Dispatch.Outcome` | src/main/java/com/sk89q/minecraft/util/commands/CommandsManager.java:342-354 | a return or a refused invocation is success; a CommandException from the handler is passed on as it is; any other cause is wrapped exactly once |
| `Dispatch.LeafCall` | src/main/java/com/sk89q/minecraft/util/commands/CommandsManager.java:316-340 | a leaf is called if and only if it accepts the context and the argument array has a slot; the call goes to that leaf with the context in slot 0 and every other slot unchanged |
| `Dispatch.LeafOutcome` | src/main/java/com/sk89q/minecraft/util/commands/CommandsManager.java:316-354 | a rejected leaf fails with the rejection; an accepted leaf with no argument slot is the index fault; when the leaf is called, the outcome is the handler's outcome |
| `Dispatch.Delivered` | src/main/java/com/sk89q/minecraft/util/commands/CommandsManager.java:288-340 | a handler is only ever called for a permitted, non-nested command, with an argument array of the caller's length and at least one slot |
| `Dispatch.Dispatched` | src/main/java/com/sk89q/minecraft/util/commands/CommandsManager.java:285-356 | when a handler is called, the call ends with that handler's outcome; when none is called, the call never succeeds |
| `Dispatch.RouteResolves` | src/main/java/com/sk89q/minecraft/util/commands/CommandsManager.java:288-314 | tokens that name a route of permitted commands (nested, then a leaf) resolve to the route's last command at its level |
| `Dispatch.LeafHasRoute` | src/main/java/com/sk89q/minecraft/util/commands/CommandsManager.java:288-315 | whenever resolution reaches a leaf, the commands it passes through form such a route, ending at that leaf and its level |
| `Dispatch.HandlerRunsAlongRoute` | src/main/java/com/sk89q/minecraft/util/commands/CommandsManager.java:285-356 | along a route whose leaf accepts the context, the handler is invoked with the context in slot 0 and the other slots unchanged, and its outcome is the call's outcome |
| `Dispatch.HandlerRunsOnlyAlongRoute` | src/main/java/com/sk89q/minecraft/util/commands/CommandsManager.java:285-356 | whenever a handler is invoked, it is the last command of a route of permitted commands named by the tokens, that leaf accepted the context, and the call holds the context in slot 0 and the other slots unchanged |
| `Dispatch.LeafCallMade` | src/main/java/com/sk89q/minecraft/util/commands/CommandsManager.java:316-340 | an invocation is made only for the leaf resolution reached, after that leaf accepted the context cut at its level, with the context written into slot 0 |
| `Dispatch.UnknownToken` | src/main/java/com/sk89q/minecraft/util/commands/CommandsManager.java:288-300 | an unknown token invokes nothing: at the root it is unhandled; below it, "Unknown command: " with the parent's usage at the previous level |
| `Dispatch.PermissionFirst` | src/main/java/com/sk89q/minecraft/util/commands/CommandsManager.java:302-304 | a matched command the caller may not run gives a permission failure, whatever tokens follow, and invokes nothing |
| `Dispatch.SubCommandRequired` | src/main/java/com/sk89q/minecraft/util/commands/CommandsManager.java:306-311 | a permitted nested command as the last token gives "Sub-command required." with its own nested usage, and invokes nothing |
| `Dispatch.LeafIgnoresCase` | src/main/java/com/sk89q/minecraft/util/commands/CommandsManager.java:290-291 | token lines that agree once lowercased resolve to the same leaf |
| `Dispatch.NestedNeverUnhandled` | src/main/java/com/sk89q/minecraft/util/commands/CommandsManager.java:293-300 | below the root, resolution never ends as an unhandled command |
| `Dispatch.NoCrash` | src/main/java/com/sk89q/minecraft/util/commands/CommandsManager.java:285-356 | in a consistent registry where every nested command has a table, a call at a valid level with an argument slot raises no unchecked exception |
| `Dispatch.FirstUnknownFlagAt` | src/main/java/com/sk89q/minecraft/util/commands/CommandsManager.java:333-338 | the undeclared flag reported is the first one in the order the context yields them |
| `Dispatch.RootLookup` | src/main/java/com/sk89q/minecraft/util/commands/CommandsManager.java:145-147 | hasCommand agrees with dispatch: a name is a root command if and only if dispatching it does not end as unhandled |
| `Dispatch.ContextPrepended` | src/main/java/com/sk89q/minecraft/util/commands/CommandsManager.java:267-273 | a handler invoked through execute receives the context first and then exactly the caller's extra arguments |
| `Manager.CommandsManager.constructor` | src/main/java/com/sk89q/minecraft/util/commands/CommandsManager.java:65-71 | both tables start empty, and the invariant holds |
| `Manager.CommandsManager.Register` | src/main/java/com/sk89q/minecraft/util/commands/CommandsManager.java:81-83 | the new tables are those of a root registration of the class, and the invariant is kept |
| `Manager.CommandsManager.RegisterMethods` | src/main/java/com/sk89q/minecraft/util/commands/CommandsManager.java:91-136 | the tables after the loop are those of `RegisterClass` on the old tables, and `ok` tells whether it completed |
| `Manager.CommandsManager.RegisterMethod` | src/main/java/com/sk89q/minecraft/util/commands/CommandsManager.java:103-135 | one pass of the method loop computes `RegisterCommand` of the old tables |
| `Manager.CommandsManager.CacheAliases` | src/main/java/com/sk89q/minecraft/util/commands/CommandsManager.java:111-113 | the alias loop files every alias under the parent and changes nothing else |
| `Manager.CommandsManager.HasCommand` | src/main/java/com/sk89q/minecraft/util/commands/CommandsManager.java:145-147 | a NullPointerException if and only if there is no root table; otherwise true if and only if the lowercased name is a root alias |
| `Manager.CommandsManager.GetCommands` | src/main/java/com/sk89q/minecraft/util/commands/CommandsManager.java:154-156 | every listed synopsis is under a root alias |
| `Manager.CommandsManager.HasPermission` | src/main/java/com/sk89q/minecraft/util/commands/CommandsManager.java:365-378 | true if and only if there is no permissions annotation or the caller holds one of the listed permissions |
| `Manager.CommandsManager.GetUsage` | src/main/java/com/sk89q/minecraft/util/commands/CommandsManager.java:166-179 | the built string is the usage line of the tokens up to the level |
| `Manager.CommandsManager.UsagePrefix` | src/main/java/com/sk89q/minecraft/util/commands/CommandsManager.java:169-173 | the prefix built is "/" followed by each token up to the level, each followed by a space |
| `Manager.CommandsManager.GetNestedUsage` | src/main/java/com/sk89q/minecraft/util/commands/CommandsManager.java:191-235 | the loop over the child table yields `NestedUsageOf`: the outcomes of `Usage.NestedUsageOutcomes` |
| `Manager.CommandsManager.CollectAllowed` | src/main/java/com/sk89q/minecraft/util/commands/CommandsManager.java:202-219 | `found` holds if and only if the table has an entry; the loop faults if and only if a permitted entry has no alias; otherwise the collected names are exactly the canonical aliases of the permitted entries |
| `Manager.CommandsManager.Visit` | src/main/java/com/sk89q/minecraft/util/commands/CommandsManager.java:210-218 | one entry faults if and only if it is permitted and has no alias; otherwise its canonical alias is added exactly when it is permitted |
| `Manager.CommandsManager.ExecuteMethod` | src/main/java/com/sk89q/minecraft/util/commands/CommandsManager.java:285-356 | the call ends as `Dispatch.Dispatched`, and the argument array holds the context in slot 0 exactly when a handler was invoked; otherwise it is unchanged |
| `Manager.CommandsManager.InvokeLeaf` | src/main/java/com/sk89q/minecraft/util/commands/CommandsManager.java:316-354 | validation, then the context written into slot 0, then the handler's outcome |
| `Manager.CommandsManager.ValidateLeaf` | src/main/java/com/sk89q/minecraft/util/commands/CommandsManager.java:323-338 | the leaf checks agree with `Dispatch.Validate`, including which flag is reported |
| `Manager.CommandsManager.Execute` | src/main/java/com/sk89q/minecraft/util/commands/CommandsManager.java:267-273 | dispatch from the root at level 0 with an empty slot 0 in front of the caller's arguments |
| `Manager.CommandsManager.ExecuteCommand` | src/main/java/com/sk89q/minecraft/util/commands/CommandsManager.java:247-257 | as `Execute`, with the command name put in front of the tokens |
| `BlockDistribution.Countable.constructor` | worldedit-core/src/main/java/com/sk89q/worldedit/function/block/BlockDistributionCounter.java:59 | a new entry holds the block and the given count |
| `BlockDistribution.Countable.Increment` | worldedit-core/src/main/java/com/sk89q/worldedit/function/block/BlockDistributionCounter.java:57 | the count goes up by exactly one |
| `BlockDistribution.CountsCover` | worldedit-core/src/main/java/com/sk89q/worldedit/function/block/BlockDistributionCounter.java:56-62 | over distinct keys that cover the counted blocks, the multiplicities add up to the number of blocks counted |
| `BlockDistribution.Reversed` | worldedit-core/src/main/java/com/sk89q/worldedit/function/block/BlockDistributionCounter.java:74 | the reversed list has the same length, and position i holds the element from position n-1-i |
| `BlockDistribution.ReversedIsPermutation` | worldedit-core/src/main/java/com/sk89q/worldedit/function/block/BlockDistributionCounter.java:74 | reversing keeps every element exactly as often |
| `BlockDistribution.DistinctByMultiset` | worldedit-core/src/main/java/com/sk89q/worldedit/function/block/BlockDistributionCounter.java:72-76 | a list has no duplicate if and only if no element occurs in it more than once, so a rearrangement keeps the list duplicate-free |
| `BlockDistribution.BlockDistributionCounter.constructor` | worldedit-core/src/main/java/com/sk89q/worldedit/function/block/BlockDistributionCounter.java:44-47 | nothing is counted yet: the map and the list are empty, and the invariant holds |
| `BlockDistribution.BlockDistributionCounter.Apply` | worldedit-core/src/main/java/com/sk89q/worldedit/function/block/BlockDistributionCounter.java:50-65 | returns true and keeps the invariant (map and list hold the same entries, each block once, each count equal to its occurrences). A seen block's count goes up by one, with map and list unchanged; an unseen block gets a fresh entry with count 1, appended and mapped. Every other count is unchanged |
| `BlockDistribution.BlockDistributionCounter.CountAgain` | worldedit-core/src/main/java/com/sk89q/worldedit/function/block/BlockDistributionCounter.java:56-57 | the existing entry goes up by one; map, list and the other counts are unchanged |
| `BlockDistribution.BlockDistributionCounter.CountFirst` | worldedit-core/src/main/java/com/sk89q/worldedit/function/block/BlockDistributionCounter.java:58-62 | a fresh entry with count 1 is appended to the list and put into the map under the block |
| `BlockDistribution.BlockDistributionCounter.TotalIsApplyCount` | worldedit-core/src/main/java/com/sk89q/worldedit/function/block/BlockDistributionCounter.java:50-65 | the counts of the list add up to the number of apply calls |
| `BlockDistribution.BlockDistributionCounter.GetDistribution` | worldedit-core/src/main/java/com/sk89q/worldedit/function/block/BlockDistributionCounter.java:72-76 | the list becomes the sorted arrangement reversed, and it is returned. The entries are the same, with counts unchanged; the map and the invariant are kept |
| `BlockDistribution.BlockDistributionCounter.Reverse` | worldedit-core/src/main/java/com/sk89q/worldedit/function/block/BlockDistributionCounter.java:74 | the in-place swap loop leaves the list reversed |

## Left out

- Reflection is not modelled: `getMethods`, `isAnnotationPresent` and `getAnnotation`. A class is its list of command methods in reflection order, and non-annotated methods are not in it. A Java `Method` is identified with its descriptor, and two descriptors are the same method exactly when they are equal.
- `CommandContext` parsing is not modelled. It is the parameter `parse`, which gives an argument count and a flag sequence for `args[level..]`.
- `Method.invoke` is the parameter `invoke`. Its `IllegalArgumentException` and `IllegalAccessException` branches only print a stack trace; they are modelled as success (`InvocationRejected`), and the printing is not modelled. The `NullPointerException` that `invoke(null, …)` raises for a non-static handler is not modelled.
- `Manager.CommandsManager.GetNestedUsage`: returns the nested usage as a path prefix and a set of names, not the joined string. The order in which a `HashSet` and `StringUtil.joinString` list the names is unspecified, so `Usage.Render` builds the text from any enumeration of the set. `Usage.RenderOffersNames` states what every such text holds.
- `Manager.CommandsManager.CollectAllowed`: visits the keys of the child table in an arbitrary order, as `HashMap.entrySet` does. Its contract does not depend on that order.
- `MissingNestedCommandException` and `CommandUsageException` carry their usage as a value, not as the exception's message text.
- Lowercasing covers only the ASCII letters. `String.toLowerCase` is locale-dependent beyond them.
- A command whose nested classes (directly or indirectly) contain the command itself would recurse forever in Java. Descriptors here are finite values, so that registration cannot be expressed.
- `BlockDistribution.BlockDistributionCounter.GetDistribution`: the sorted arrangement is an input, required to be a rearrangement of the list. `Countable.compareTo` is not part of this model, so no sort order is claimed.
- `BlockDistribution.BlockDistributionCounter.Apply`: the `ClassCastException` that `toFuzzy` raises when a block is not a `BlockState` is not modelled. The fuzzing is the total parameter `toFuzzy`.
- Both the map returned by `getCommands` and the list returned by `getDistribution` are the live objects in Java. Here they are values, so changes a caller makes through them are not modelled. (The `Countable` entries remain shared objects.)
- `Manager.CommandsManager.CacheAliases`: works on a local copy of the parent's table and stores it back once, instead of updating the shared `HashMap` alias by alias. No other reference to that table exists during the loop, so the resulting state is the same.
- `BlockDistribution.Countable.Increment`: counts are unbounded integers. `Countable` is not part of this model, and the width of its count field and any wrap-around are not modelled, so `BlockDistribution.BlockDistributionCounter.TotalIsApplyCount` holds without an overflow bound.
- Concurrency: the manager and the counter do no locking, and concurrent use is not modelled.
- CommandsManagerRegistration.java is not part of this model (it is Bukkit registration glue), and neither is EditSessionFlusher.java (an asynchronous callback into session objects).
