# Xylem: regions, cached dispatch and module lifecycle

Xylem keeps its modules in *regions*. A region is a pair of a 64-bit id and a width between 0 and 64; it contains every
id that agrees with it on its leading bits. Regions hang in a parent/child tree below the root (0, 0), each with an
ordered list of modules, denials and caches. A *hook* called from a region runs the modules of that region's subtree
that implement it, one after the other, unless a region above forbids it. Modules load other modules, claim regions,
are counted, and take what they loaded with them when their last reference goes.

The project models that core and proves what the tree, the caches, the shared cells of a dispatch and the load machine
are for. `dafny verify dfyconfig.toml` checks all of it.

## How it is laid out

| file | what it holds |
|---|---|
| `Word.dfy`, `Prefix.dfy` | 64-bit words as numbers, bitwise and/or/shift, and prefix masks as truncation |
| `Tree.dfy` | the region tree as a value, its invariant, ancestor chains, the two pruned searches |
| `Claims.dfy` | `xy_claim_at`: one claim, lists of claims, permutations, and when the tree is a prefix tree |
| `Slots.dfy` | the allocator of child ids |
| `ModuleEntry.dfy` | a module entry (class `Module`) with its memo of resolved hooks |
| `Dispatch.dfy`, `Coherence.dfy` | the simple walk, the caches, and what each change does to the caches |
| `Runs.dfy`, `History.dfy` | all runs of all steps from the start state, and what a run's past says about its present |
| `Vectors.dfy` | what a fresh vector holds after any run, and when the cached dispatch is the simple walk |
| `Siblings.dfy` | the order regions are made in, and the order a call runs their listeners in |
| `Scopes.dfy` | hook refusal, exact-region against subtree dispatch, generation wrap-around |
| `Reentry.dfy` | handlers that call hooks while a dispatch iterates over its vector |
| `HostLemmas.dfy`, `Host.dfy` | class `Runtime`: the loops of the C code over the tables, each tied to one step of a run |
| `Service.dfy`, `Sessions.dfy` | the invariant every operation of a `Runtime` keeps, memos included, and any sequence of them |
| `Outcomes.dfy` | what short sequences of such calls come to |
| `Lifecycle.dfy`, `Tables.dfy` | the unload cascade in closed form, and what a module table must fit |
| `Orders.dfy` | lists of modules: what is old in them, what is put behind what |
| `Loading.dfy`, `Traces.dfy` | what a load and an unload do to the tables, and the runs they amount to |
| `Reloading.dfy` | what a reload does to the tables, and when its entry finds its place again |
| `Loader.dfy` | class `Registry`: load, unload, reload, and installs of any depth, call by call |
| `Installs.dfy` | when a load succeeds, and what its install loads and claims |
| `Displaced.dfy` | two histories in which a reload loses its place |
| `ModuleList.dfy`, `RegionLists.dfy` | the intrusive doubly linked list on the heap, for one region and for all of them |
| `Nesting.dfy` | class `Thread`: the shared cells of `xy_last` and the current region under arbitrary nesting |
| `ModKey.dfy` | the byte string the module table is keyed by |

Three layers carry the main results. A state is a value (`Dispatch.State`: regions, lists, denials, flags, caches, live
modules, hook names); `Runs.Step` says what one step does to it, and `Runs.Run` reaches every state some sequence of
steps reaches. The invariants are proved over those runs. `Host.Runtime` holds the same tables as fields and does what
the C code does to them, loop by loop; each method's postcondition is the corresponding step, and `Service` shows one
invariant, memos included, that every operation finds and leaves, and so every sequence of them (`Sessions.Session`).
`Loader.Registry` runs whole loads, unloads and reloads, installs that make further ones included. It carries, as a
ghost, the run its regions, lists and live modules are the result of, so everything proved of runs holds of whatever it
does (`Loader.ReachedIsSound`).

## What turned out not to hold

- **Exact caches.** A module denial steps the generations of the denying region and the regions above it, but the
  vectors of the regions *below* depend on it. `History.DeniedStillRuns` gives the failing family,
  `History.DeniedRunsReached` a run of six steps that reaches it.
  `Vectors.CachedDispatchIsTheWalk` is the exact condition, in every reachable state and for each vector by itself: the
  dispatch is the simple walk if and only if the vector is stale or no module of the subtree that could listen has been
  denied or freed since it was built. `Coherence.DenyModExactIff` and `Coherence.DropExactIff` say when one denial, or
  one lifted denial, leaves all caches exact. That no vector holds a dead or foreign module needs no condition
  (`Runs.NoStaleListener`).
- **Own denials.** The header says a region's own modules are never blocked by its own denial
  (include/ttypt/xy.h:446-447). For hooks that is so (`Scopes.HookRefusedIff` asks for a strict ancestor). For module
  paths the code asks the whole chain, the caller included: `History.RunsUnlessDenied`, `History.OwnDenialBites`.
- **Slots at width 64.** The loop bound wraps to 0 there, so the probing runs past the parent's own slots, and the
  all-ones id is both the last word and the failure value. `Slots.FullWidthEscapes`: the id returned is a free one inside
  the parent if and only if one other than the all-ones word was free there. `Slots.EscapeAtOneBit` and
  `Slots.RefusalAtOneBit` show both failures. Below width 64 the allocator is exact. Runs make the grants at width 64
  that stay inside.
- **Reload's place.** The reloaded module returns behind its old predecessor, which `xy_reload` remembers by address
  across an unload and a load. It finds its place if and only if that predecessor is still linked after the load
  (`Reloading.ReloadPlace`), which is to say if and only if no unload since, the reload's own or one at any depth of the
  install, has removed it (`Reloading.ReloadLosesIff`). What a caller can check before: if the install names neither the
  predecessor nor a loader above it, the place is lost if and only if the unload's cascade takes the predecessor along
  (`Reloading.ReloadLosesEarly`), which an older one never suffers (`Reloading.OlderStands`); if the install makes one
  unload, if and only if the first or the second cascade takes it (`Reloading.ReloadLosesToUnload`). Both happen:
  `Displaced.LoseToCascade` and `Displaced.LoseToInstall` are sequences of calls from an empty registry that end in a
  lost place. From then on the code has written to freed memory, and nothing is claimed of its lists.
- **Module keys.** The comment on the key promises different entries for one shared object in (0, 16) and (0, 17)
  (src/libxylem.c:413-416). The formatted text loses its last width digit to the terminator, so the two keys are equal:
  `ModKey.KeysEqualIff`, `ModKey.LeftHalfCollides`.
- **Clearing the memo.** Unloading one entry of a shared object clears the callbacks of its other entries but leaves
  their bits set. `ModuleEntry.ClearedOkIff` says when that is harmless; `ModuleEntry.SlotCallbackIff` what a rebuilt
  vector then stores. `ModuleEntry.EmptyCellIff` says when the cell behind a set bit is empty: the subtree scope skips
  such a slot (src/libxylem-dispatch.c:430, 459), the exact-region scope calls it (src/libxylem-dispatch.c:383-400).
- **Generations** are words; a stamp recurs after 2^64 - 1 steps (`Scopes.StampRecurs`, `Scopes.WrapHidesListener`).
  Statements about runs are about fewer steps than that.
- The header documents a veto by `xy_uninstall` (include/ttypt/xy.h:699-708); the code has none
  (src/libxylem-module.c:136-141), and neither has the model.

## Model

| member | source | states |
|---|---|---|
| Prefix.Masked | src/libxylem-internal.h:176-184 | masking with the region mask clears exactly the low 64 - plen bits |
| Prefix.MaskedTwice | src/libxylem-internal.h:176-184 | masking to a narrower prefix after a wider mask equals masking once |
| Prefix.SameWidthDisjoint | src/libxylem-internal.h:142-184 | two regions of one width that contain a common id are the same region |
| Tree.UnderContained | src/libxylem.c:1583-1593 | whatever lies below a region in the tree lies inside its prefix |
| Tree.Chain | src/libxylem.c:241-258 | the chain starts at the root, ends at the region and has at most plen + 1 regions |
| Tree.ChainIsAncestors | src/libxylem.c:241-258 | the chain holds exactly the regions at or above k |
| Tree.ChainNarrows | src/libxylem.c:241-258 | widths grow strictly along a chain, so 65 buffer cells never truncate it |
| Tree.SearchImproves | src/libxylem.c:1783-1799 | the pruned search finds, below any node, a widest hit narrower than the limit, never worse than what it was given |
| Tree.LongestUnique | src/libxylem.c:1896-1913 | longest-prefix match over a set of regions is unique |
| Tree.SearchIsLongest | src/libxylem.c:1896-1950 | on every tree the search from the root returns the one longest-prefix match over the flat set of regions, or nothing when none covers the point |
| Claims.AttachKeepsInv | src/libxylem.c:1860-1883 | hanging a region under one that contains it keeps the tree invariant |
| Claims.NearestAncestorFound | src/libxylem.c:1783-1858 | for a new canonical request a parent is always found and is strictly narrower, so the "no new bits" guard is never taken |
| Claims.ClaimAtEffect | src/libxylem.c:1809-1894 | the outcome of a claim depends on its shape alone; success adds exactly the requested region |
| Claims.ParentIsNarrowerCover | src/libxylem.c:1783-1807 | the parent search equals the cover search at width plen - 1, and bits below that width never matter |
| Claims.ClaimChangesLookup | src/libxylem.c:1809-1950 | a claim changes the answer at a point exactly when it covers the point more deeply than the old answer |
| Claims.ClaimAllRegions | src/libxylem.c:1809-1894 | after any list of claims the regions are the root and the canonical requests |
| Claims.ClaimOrderInvisible | src/libxylem.c:1809-1950 | every permutation of a list of claims gives the same regions and the same lookups everywhere |
| Claims.ClaimOrderShowsInLinks | src/libxylem.c:1826-1883 | the same two claims in the two orders give different parent links |
| Claims.ClaimKeepsTrie | src/libxylem.c:1826-1883 | a claim keeps tree descent equal to prefix containment if and only if no region lies inside the new one |
| Claims.TrieIffOutsideIn | src/libxylem.c:1826-1883 | a list of claims builds the prefix tree if and only if it was made outside-in |
| Siblings.ClaimAllYoungest | src/libxylem.c:1880-1883 | after any list of claims each region's children are exactly its child regions in reverse order of making |
| Siblings.RunYoungest | src/libxylem.c:1591-1592 | the same after any run, grants included, the order of making read off the states before and after each step |
| Siblings.YoungerSisterFirst | src/libxylem.c:345-360 | after any run, of two listeners in the subtrees of two sister regions a call from any region above runs the one under the later-made sister first |
| Siblings.OwnFirst | src/libxylem.c:345-360 | and a region's own listeners run before those of the regions below it |
| Slots.CandidateInside | src/libxylem.c:1502-1516 | every slot number below 2^bits gives a canonical id inside the parent |
| Slots.InsideIsCandidate | src/libxylem.c:1502-1516 | every region of that width inside the parent is one of the slots |
| Slots.AllocLowest | src/libxylem.c:1494-1521 | if any slot is free the allocator returns the free one with the lowest id; that is the failure value only if the all-ones id is the only free one |
| Slots.AllocFailsIffFull | src/libxylem.c:1494-1521 | below width 64 it fails exactly when all slots are taken |
| Slots.AllocProbes | src/libxylem.c:1508-1518 | it probes no further than the number of regions of that width inside the parent |
| Slots.FullWidthEscapes | src/libxylem.c:1502-1518 | at width 64 the id returned is no failure value, free and inside the parent if and only if an id other than the all-ones word was free there |
| Slots.LastWordRefused | src/libxylem.c:1573-1577 | a load is refused although a slot is free when the all-ones id is the only free one |
| Slots.EscapeAtOneBit | src/libxylem.c:1502-1518 | a full parent of two words is given the id of a stranger |
| Slots.RefusalAtOneBit | src/libxylem.c:1502-1518 | the parent of the last two words is refused its free slot |
| ModuleEntry.RecordedKeeps | src/libxylem-dispatch.c:94-103 | recording the resolver's answer for a hook keeps the memo sound, resolves that hook and touches no other |
| ModuleEntry.ClearedOkIff | src/libxylem.c:888-907 | clearing on behalf of an unloaded entry keeps bits and callbacks in step exactly when the images differ or nothing was resolved |
| ModuleEntry.SlotCallbackIff | src/libxylem-dispatch.c:186-210 | the callback a rebuilt vector stores is the resolver's exactly when a set bit has its callback |
| ModuleEntry.EmptyCellIff | src/libxylem-dispatch.c:383-400 | after the clearing for an image, the cell the exact-region scope calls is empty exactly when it held a callback into that image |
| ModuleEntry.Module.Resolve | src/libxylem-dispatch.c:85-105 | lazy resolution answers what the resolver would, leaves the hook resolved and its bit equal to "implemented" |
| ModuleEntry.Module.Prewarm | src/libxylem-dispatch.c:116-139 | afterwards no minted hook is unresolved and every set bit has its callback |
| ModuleEntry.Module.ForgetImage | src/libxylem.c:888-907 | exactly the callbacks into the unloaded image are cleared; the bits stay |
| Coherence.RelistKeeps | src/libxylem.c:306-326 | any change of a region's module list, followed by the marking walk, keeps all caches right, and exact if they were exact |
| Coherence.AddRegionKeeps | src/libxylem.c:1860-1888 | a new empty region keeps all caches right, and exact if they were |
| Coherence.DenyHookKeeps | src/libxylem.c:1612-1666 | a hook denial keeps all caches right and exact, and shows in the root's flag |
| Coherence.DenyModExactIff | src/libxylem.c:1640-1666 | after a module denial the caches are exact if and only if no fresh vector strictly below holds a module of that path |
| Coherence.DropExactIff | src/libxylem.c:798-816 | the same for an unload that lifts a denial: exact if and only if no fresh vector strictly below misses a listener it frees |
| Coherence.DispatchedKeeps | src/libxylem-dispatch.c:404-473 | a cached dispatch keeps the invariants, runs only modules of the subtree and, with exact caches, exactly the simple walk |
| Runs.StepKeeps | src/libxylem.c:306-376 | every step keeps the invariants, and keeps exactness if and only if its denial change is seen |
| Runs.RunInv | src/libxylem.c:306-376 | every reachable state has a prefix tree, right caches, modules linked once and only live, and the flag of the root up if a hook is denied |
| Runs.RunExact | src/libxylem-dispatch.c:169-228 | runs whose module denials are all seen keep exact caches |
| Vectors.VectorsAreBuilt | src/libxylem-dispatch.c:169-228 | after any run, whatever was denied and when, a fresh vector is the filtered walk of its subtree as it is now, under the denials in force when the vector was built |
| Vectors.KeepSameIff | src/libxylem-dispatch.c:186-215 | two sets of denied paths keep the same modules if and only if no module with a context that implements the hook is in just one of them |
| Vectors.CachedDispatchIsTheWalk | src/libxylem-dispatch.c:404-473 | in every reachable state the cached dispatch runs exactly what the recursive walk with its filters yields if and only if its vector is stale or no module of the subtree that could listen was denied or freed since the vector was built |
| Runs.NoStaleListener | src/libxylem-dispatch.c:416-425 | after any run, a fresh vector holds only live modules linked below its region, and no live generation is 0 |
| Runs.DispatchContained | src/libxylem-dispatch.c:404-472 | every listener run from a region lives in a region whose id, cut to that width, is the region's id |
| Scopes.HookRefusedIff | src/libxylem-dispatch.c:328-367 | the gated check refuses a hook exactly when some strict ancestor denies it |
| Scopes.SelfIsPrefix | src/libxylem-dispatch.c:373-402 | what the exact-region scope runs is an opening stretch of the simple walk of the subtree |
| Scopes.SelfIsPrefixOfCall | src/libxylem-dispatch.c:373-473 | with exact vectors of the region, what the exact-region scope runs is an opening stretch of what the cached subtree dispatch runs |
| Scopes.SubtreeTimes | src/libxylem.c:345-360 | a linked module occurs exactly once in the subtrees it lies in and not at all elsewhere |
| Scopes.PathTotals | src/libxylem-dispatch.c:373-472 | along a path free of denials of m the exact-region scope runs m once, the simple walk once per path region at or above its own |
| Scopes.ChainTotal | src/libxylem-dispatch.c:246-260 | from the root down to the region of m the exact-region scope runs m once, the simple walk once for every region of the chain |
| Scopes.CallTotals | src/libxylem-dispatch.c:404-473 | with exact caches the cached dispatches made along a path, each changing the caches, run m as often as the simple walks do |
| Scopes.StampRecurs | src/libxylem.c:306-314 | a stamp is taken for current again after n steps if and only if n is a multiple of 2^64 - 1 |
| Scopes.WrapHidesListener | src/libxylem.c:306-314 | at the wrap a changed list can go unnoticed |
| History.NumbersStay | src/libxylem-dispatch.c:527-533 | hook numbers are 0 .. n - 1, no two names share one and no name ever changes its number |
| History.DeniesIffForbade | src/libxylem.c:1624-1637 | a region denies a hook exactly when it once forbade it |
| History.RefusedIffForbade | src/libxylem-dispatch.c:349-366 | after any run a dispatch is refused exactly when a region strictly above forbade the hook at some earlier step |
| History.FlagIffDenied | src/libxylem.c:260-266 | after any run the flag of a region is up exactly when a denial was made at or below it |
| History.DeniesModIffForbade | src/libxylem.c:798-816 | after any run a region denies a module path exactly when it forbade it and has unloaded no module of that path since |
| History.DeniedStillRuns | src/libxylem.c:1640-1666 | a module denied strictly above a region goes on being run from that region's fresh vector |
| History.DeniedRunsReached | src/libxylem.c:1640-1666 | for every region but the root, every hook and every module that handles it, a run of six steps reaches such a state |
| History.RunsUnlessDenied | src/libxylem-dispatch.c:186-210 | the simple walk runs m exactly when it lies below, has a context, implements the hook and no region at or above the caller denies it |
| History.OwnDenialBites | src/libxylem-dispatch.c:192-193 | a module denial stops the module in the denying region itself, at the next dispatch |
| Host.Runtime.constructor | src/libxylem.c:379-408 | a fresh runtime is the start state of every run |
| Host.Runtime.TouchUp | src/libxylem.c:306-326 | the walk steps the generation of exactly the regions at or above, and marks exactly those |
| Host.Runtime.RaiseUp | src/libxylem.c:260-266 | exactly the flags at or above are raised |
| Host.Runtime.AncestorChain | src/libxylem.c:241-258 | fill and in-place reversal leave the root-to-region chain in the 65 cells |
| Host.Runtime.FindAncestor | src/libxylem.c:1783-1799 | the recursive loop reassigning `best` computes the search |
| Host.Runtime.FindCover | src/libxylem.c:1897-1913 | the cover search is the same search with the limit one higher |
| Host.Runtime.LookupAt | src/libxylem.c:1915-1950 | `xy_region_at` answers with the longest-prefix match, or the failure value and width 0 |
| Host.Runtime.ClaimAt | src/libxylem.c:1809-1894 | `xy_claim_at` is the claim step; the requested region is current afterwards; a new region has the handler given or none, an existing one keeps its own when none is given |
| Host.Runtime.RequireClaim | src/libxylem.c:1452-1475 | a handler closes the gate of the current region, none opens it and clears the handler; other regions keep theirs |
| Host.Runtime.AllocSlot | src/libxylem.c:1494-1521 | the do-while loop over 64-bit slot numbers computes the allocator, also where the bound wraps |
| Host.Runtime.ClaimForLoad | src/libxylem.c:1534-1606 | all outcomes of a load's claim; on success one new region of the granted width hangs under the parent at the slot found and is current, otherwise nothing changes; the invariants are kept if the slot lies inside the parent |
| Host.Runtime.InsertAfter | src/libxylem.c:853-885 | linking behind a module or at the head is the insert step |
| Host.Runtime.Detach | src/libxylem.c:831-851 | unlinking is the unlink step |
| Host.Runtime.ForbidHere | src/libxylem.c:1612-1666 | `xy_deny` of a hook is the step that adds it, raises the flags and steps the generations |
| Host.Runtime.ForbidModuleHere | src/libxylem.c:1612-1666 | the same for a module path |
| Host.Runtime.RebuildSubtree | src/libxylem.c:328-376 | the recursive collection stores the depth-first walk of the subtree and clears the dirty bit |
| Host.Runtime.Filter | src/libxylem-dispatch.c:186-215 | the filter loop keeps exactly the listeners, in order, each with its callback resolved |
| Host.Runtime.HookDenied | src/libxylem-dispatch.c:328-367 | the loop over the chain decides the refusal |
| Host.Runtime.Dispatch | src/libxylem-dispatch.c:328-486 | once the hook has a number: `xy_call` is the dispatch step and runs its listeners in order; `xy_call_self` runs the region's own and changes no table; a refused hook runs nothing; memos stay in step and complete |
| Host.Runtime.Call | src/libxylem-dispatch.c:261-486 | the whole call: an unknown hook, an oversized return and a refused hook each have their status, run nothing and change nothing; otherwise the dispatch |
| Host.Runtime.Areg | src/libxylem-dispatch.c:513-563 | an oversized return or a known name changes nothing, and each has its return value, for a known name the low half of its adapter's address; a new name gets the next number and is resolved in every live module |
| Host.Runtime.NewEntry | src/libxylem-module.c:70-107 | a new entry has every minted hook resolved |
| Host.Runtime.Enlist | src/libxylem.c:1198-1210 | publishing an entry is the publish step; the module table and the live modules grow by it |
| Host.Runtime.Discard | src/libxylem-module.c:196-221 | the end of an unload is the unload step, which lifts the home region's denial of the path, and leaves one entry and its links less; every surviving memo is the old one with exactly the callbacks into the object cleared |
| Service.Start | src/libxylem.c:379-408 | a fresh runtime is ready: caches right, tables fitting, memos in step and complete, generations at most 1 |
| Service.Load | src/libxylem-module.c:52-119 | a load nothing refuses adds one fresh entry at the end of the current region's list, and the runtime is ready for the next operation: caches right, every live memo in step and no minted hook unresolved |
| Service.Unload | src/libxylem-module.c:196-221 | after an unload one entry and its links are gone; its home no longer denies its path, no other denial changes; every memo is sound, in step exactly when it comes from another object or had no callback; with one entry for each object the runtime is ready for the next operation |
| Service.Register | src/libxylem-dispatch.c:513-563 | a new name gets the next number, a known one keeps its own, and no live module is left with an unresolved minted hook |
| Service.Call | src/libxylem-dispatch.c:261-486 | status and listeners of a call, in either scope, and the runtime ready for the next operation |
| Service.Claim | src/libxylem.c:1809-1894 | status, regions, current region and handler after a claim, and the runtime ready for the next operation |
| Service.Grant | src/libxylem.c:1534-1606 | all outcomes of a load's claim; the runtime is ready for the next operation if the slot lies inside the parent |
| Service.Require | src/libxylem.c:1452-1475 | gate and handler of the current region follow the argument, and the runtime stays ready |
| Service.ForbidModule | src/libxylem.c:1612-1666 | a module denial is its step, and the runtime ready for the next operation |
| Service.ForbidHook | src/libxylem.c:1612-1666 | a hook denial is its step, and the runtime ready for the next operation |
| Service.Unlink | src/libxylem.c:831-851 | unlinking is its step, and the runtime ready for the next operation |
| Service.Link | src/libxylem.c:853-885 | linking an entry at its home, first or behind a given module, leaves the runtime ready for the next operation |
| Sessions.Session | src/libxylem-dispatch.c:107-115 | after any sequence of claims, gates, grants, denials, loads, unloads, registrations and calls, fewer than 2^64 - 1 of them, each has done what it should, caches and tables are in order and no live module has a stale memo or an unresolved minted hook |
| Sessions.ClaimedShows | src/libxylem.c:1809-1894 | after a legal claim in a session the region is there, current, and has the handler the claim brought |
| Sessions.DenialShows | src/libxylem.c:1624-1640 | after a denial in a session the current region denies what was named |
| Sessions.GateShows | src/libxylem.c:1452-1475 | after a gate is set or opened in a session it stands or not, with its handler; a registered name has its number |
| Sessions.ModulesShow | src/libxylem-module.c:52-222 | after a load in a session the new entry is in the table, after an unload no entry of that path is left in the current region |
| Outcomes.ComeBack | src/libxylem-module.c:198-201 | a region forbids one of its own modules, unloads it and loads it again: the next call of its hook from there, in either scope, runs it, last in the exact-region scope, unless a region above denies it |
| Outcomes.ClaimShapeCases | src/libxylem.c:1818-1829 | a claim is refused as too wide above 64, as malformed exactly when a bit below its width is set |
| Outcomes.ClaimAgain | src/libxylem.c:1834-1843 | claiming a region again without a handler leaves it the one it has |
| Outcomes.ClaimBare | src/libxylem.c:1860-1890 | a region made without a handler has none, and no load's claim there is granted |
| Outcomes.ClaimStatusCases | src/libxylem.c:1534-1577 | each outcome of a load's claim by its condition: bounds, parent, handler and grant, free slot |
| Outcomes.CallStatus | src/libxylem-dispatch.c:261-367 | after any run: unknown hook, oversized return, denial strictly above, in that order; otherwise the status says whether anything ran |
| Outcomes.CallRuns | src/libxylem-dispatch.c:369-473 | after any run: the exact-region scope runs m exactly when it is linked there, has a context, implements the hook and no region at or above denies it; the subtree scope likewise when nothing is cached, and never a foreign module |
| Outcomes.NestedIsCall | src/libxylem-dispatch.c:261-486 | what a nested call finds is what a call from its region comes to |
| Lifecycle.DoomedIsLeast | src/libxylem-module.c:162-194 | the removed modules are the least set holding e and closed under "loaded by a removed one, one reference left" |
| Lifecycle.VisitStep | src/libxylem-module.c:184-193 | unloading one more child, whichever it is, leads to the state that depends only on the set of children visited |
| Lifecycle.CascadeDone | src/libxylem-module.c:162-194 | after all children, in any order, the table is the closed form |
| Loading.UnloadCounted | src/libxylem-module.c:142-194 | after a cascade every entry still loaded has a reference |
| Loader.Registry.Drop | src/libxylem-module.c:142-222 | the cascade terminates, removes exactly the doomed set, takes one reference from every other child of a removed module and changes nothing else; every entry is unlinked by the step that also lifts its denial |
| Loader.Registry.Unload | src/libxylem-module.c:224-236 | `xy_unload` of any loaded path of the current region, whatever its install loaded; an unknown path is reported and changes nothing |
| Loader.Registry.Begin | src/libxylem-module.c:52-99 | every failure before install leaves table, lists and current region as before; success links one new entry at the end of its region's list |
| Loader.Registry.Gate | src/libxylem.c:1371-1387 | the claim gate: a refusal or no claim changes nothing, a granted claim makes one new child region the entry's home and current |
| Loader.Registry.Undo | src/libxylem.c:962-1019 | an abort restores lists, table and current region |
| Loader.Registry.RunInstall | src/libxylem.c:1388-1398 | an install of any length and depth, call by call: every load, unload, reload, claim, gate, denial, registration and hook call does what it does outside one, with the new entry as loader; unless a place is lost no region goes, no old entry moves or comes back, the old entries of every list keep their order (all entries being linked, as they are from the start), only an unload removes one, and none that neither itself nor by a loader above it is named; without unloads nothing is lost at all |
| Loader.Registry.Load | src/libxylem-module.c:52-119 | all or nothing, and neutral to the caller's region whatever install does; unless a place is lost, without further calls exactly one entry of the request's object and fields is added, at the end of its region's list; the install of a new entry runs to its end; an entry of the same path and region is only counted once more; every entry has a reference |
| Installs.LoadSucceedsIff | src/libxylem-module.c:52-119 | a module not loaded here is loaded exactly when it opens, its context fits, it has an install, and its region takes it; the first two failures have their own status |
| Installs.TakesIff | src/libxylem.c:1494-1521 | below width 64 a granted claim is taken exactly while some identity of that width inside the region is free |
| Installs.UnclaimedLoad | src/libxylem.c:1371-1387 | without a claim a load is refused exactly where the region requires one, and a failed load leaves table and lists as before |
| Installs.ClaimedLoad | src/libxylem.c:1371-1387 | with a claim under a handler: what is asked, what is granted and a free slot decide, in that order |
| Installs.UnheardLoad | src/libxylem.c:1371-1387 | with a claim and no handler: refused under a gate, else loaded as without one |
| Installs.GateRefuses | src/libxylem.c:1374-1376 | closing the gate of a region and loading without a claim is refused and publishes nothing |
| Installs.LoadTwice | src/libxylem.c:1148-1166 | loading again what is loaded and unloading it once leaves everything as it was |
| Installs.LoadOnce | src/libxylem-module.c:142-222 | loading and unloading once leaves the table as it was |
| Installs.LoadWithChild | src/libxylem.c:1388-1398 | a load whose install loads another module loads both, the second with the first as its loader and linked behind it |
| Installs.ClaimMakes | src/libxylem.c:1809-1894 | a legal claim of an install makes the region current, adds exactly it below the widest narrower region, and sets a handler only if it brings one |
| Installs.ClaimThenLoad | src/libxylem.c:1388-1398 | a load after a claim in one install is at home in the claimed region |
| Loading.LoadGrows | src/libxylem-module.c:52-119 | a load whose install, at whatever depth, unloads and reloads nothing takes no entry, reference, region or link away |
| Loader.Registry.Reload | src/libxylem-module.c:238-302 | unload, load, look up again, put back, with the record of all four states; an unknown path changes nothing; the current region is back |
| Reloading.ReloadCarries | src/libxylem-module.c:238-302 | unless a place is lost, a reload too keeps the order of every list's old entries and removes only what an unload removes, never what neither itself nor by a loader above it is named |
| Reloading.ReloadShared | src/libxylem-module.c:238-302 | reloading a module with other references changes nothing at all, or drops one reference if its object no longer opens |
| Reloading.ReloadedAnew | src/libxylem-module.c:265-275 | after the last reference goes, the load either adds a new entry or leaves table and lists as the unload left them; with an install that unloads and reloads nothing, that entry is the one put back exactly when no claim took it elsewhere |
| Reloading.ReloadOrder | src/libxylem-module.c:238-302 | whatever the install does, an entry that does not lose its place stands between the old entries that stood before and after the one it replaces, in their order, less those some unload has removed |
| Reloading.ReloadLast | src/libxylem-module.c:238-302 | for an install that unloads and reloads nothing and an entry no claim took elsewhere, what the install loaded follows at the end |
| Reloading.ReloadPlace | src/libxylem-module.c:261-298 | the entry is put back right behind the old predecessor if and only if that is still linked after the load |
| Reloading.ReloadLosesIff | src/libxylem-module.c:261-298 | whatever the install does, the place is lost if and only if some unload since, at whatever depth, has removed the predecessor |
| Reloading.ReloadLosesEarly | src/libxylem-module.c:261-298 | when the install names neither the predecessor nor a loader above it and no place is lost inside it, the place is lost if and only if the reloaded module's cascade takes the predecessor |
| Reloading.ReloadLosesToUnload | src/libxylem-module.c:261-298 | when the install makes one unload, of another path, and no claim gate applies, the place is lost if and only if the reloaded module's cascade or that of the unloaded one takes the predecessor |
| Reloading.OlderStands | src/libxylem-module.c:162-194 | a predecessor older than the reloaded module is never taken by its cascade |
| Displaced.PutChildInFront | src/libxylem-module.c:238-302 | one load of x, whose install reloads the module in front of it, leaves x behind a module that x loaded |
| Displaced.LoseToCascade | src/libxylem-module.c:238-302 | from there a reload of x loses its place |
| Displaced.LoseToInstall | src/libxylem-module.c:238-302 | a reload whose install unloads the older neighbour in front loses its place |
| Loader.Registry.Meanwhile | src/libxylem.c:1612-1666 | denials, registrations and calls may come between two calls of the registry |
| Loader.Registry.Deny | src/libxylem.c:1612-1666 | and within an install, each as its own step in the current region |
| Loader.Registry.Claim | src/libxylem.c:1809-1894 | `xy_claim_at` as an install makes it: status, region made or found, handler |
| Loader.Registry.RequireClaim | src/libxylem.c:1452-1475 | a handler closes the gate of the current region, none opens it |
| Loader.ReachedIsSound | src/libxylem-module.c:52-302 | whatever was loaded, unloaded, reloaded, claimed, denied and dispatched, until a place is lost, the run invariants hold of the registry's tables |
| ModuleList.Region.InOrder | src/libxylem-dispatch.c:376-378 | following the links from the head meets the modules in list order, each once |
| ModuleList.Region.InsertAfter | src/libxylem.c:853-879 | the pointer surgery inserts at that place of the list and keeps all links mirrored |
| ModuleList.Detach | src/libxylem.c:831-851 | the pointer surgery removes that element; an entry without a region is left alone |
| ModuleList.ListsApart | src/libxylem.c:859-861 | two regions' lists share no module |
| ModuleList.Reposition | src/libxylem-module.c:297-298 | detach and re-insert move the entry behind its predecessor |
| RegionLists.Insert | src/libxylem.c:853-885 | with the linked cells of all regions standing for their lists, the pointer surgery stands for the insertion of the lists |
| RegionLists.Remove | src/libxylem.c:831-851 | the same for removal |
| RegionLists.Walk | src/libxylem.c:345-360 | following a region's cells meets exactly the modules of its list, in order |
| Reentry.ServeSettles | src/libxylem-dispatch.c:404-473 | however deep handlers call hooks, from their own region or one they have entered: no nested call rewrites a fresh vector, so none an outer dispatch iterates over, and with exact vectors each call runs what the simple walk finds from the region it is made in |
| Reentry.ServeNests | src/libxylem-dispatch.c:404-473 | of every listener a call finds, every call it makes is made, in order, from its region or the one it has entered, with the whole nest it causes |
| Nesting.NthHandlerSees | src/libxylem-dispatch.c:21-63 | the first handler of a dispatch sees that nothing ran, the n-th exactly what the one before returned, whatever either dispatched inside |
| Nesting.LastOfHandlers | src/libxylem-dispatch.c:475-485 | after a dispatch the last handler's return can be read |
| Nesting.HandlerIsTold | src/libxylem-dispatch.c:21-43 | a handler that asks before any dispatch of its own is told what its predecessor returned; after one it is told the latest one's last return, or that nothing ran if that was refused or empty |
| Nesting.AskTells | src/libxylem-dispatch.c:21-43 | the same at any point of any body and scope |
| Nesting.HandlerStands | src/libxylem-dispatch.c:427-471 | a handler that asks where it is is told its own region |
| Nesting.RegionTells | src/libxylem.c:1706-1734 | whatever was entered and left before |
| Nesting.ScopeInside | src/libxylem.c:1706-1734 | a scope runs in the region it enters, one of an unknown region does not run |
| Nesting.DispatchInside | src/libxylem-dispatch.c:369-486 | a nested dispatch runs its handlers from there, the first seeing that nothing ran; a refused one runs nothing |
| Nesting.BodyProper | src/libxylem-dispatch.c:427-471 | at every depth of every call tree a handler is entered in its own region, with its own state, and with the matching id when contexts are not shared |
| Nesting.Thread.SetLastRet | src/libxylem-internal.h:113-128 | the thread's copy starts with the returned bytes, for word-sized and larger returns |
| Nesting.Thread.RunDispatch | src/libxylem-dispatch.c:369-486 | with shared cells, the events of a dispatch are those of the lexical reading, the caller's buffer holds the last handler's return or zeros, and the caller's region is back afterwards |
| Nesting.Thread.RunActions | src/libxylem.c:1706-1734 | the same for everything a handler does, including entering a region, known or not, for a while |
| ModKey.HexDiffers | src/libxylem.c:419-425 | fixed-width hexadecimal text determines the number |
| ModKey.KeysEqualIff | src/libxylem.c:419-435 | two module keys are equal exactly when path and id agree and the widths lie in the same block of sixteen |
| ModKey.LeftHalfCollides | src/libxylem.c:413-416 | one module in (0, 16) and in (0, 17) has one key |

## Left out

- Region entries are rows of tables keyed by identity, not heap objects: aliasing between region entries is not
  captured. Module entries, the linked lists and the dispatcher's shared cells are heap objects.
- The cascade, whole loads and reloads are proved on `Loader.Registry`, the caches and memos on `Host.Runtime`; they
  meet in the steps of `Runs`. `Service.Load` and `Service.Unload` are a load nothing refuses and the last stretch of an
  unload, with caches and memos. `Service.Load` resolves the hooks before it publishes, the code after it links; nothing
  reads the memo in between.
- Sessions.Session: skips a load of an object that is already loaded, and a grant that would leave its parent; for the
  first see `ModuleEntry.ClearedOkIff`, for the second `Slots.FullWidthEscapes`.
- Loader.Registry.Load: after a grant at width 64 that leaves its parent the ghost run is given up, because the tree is
  no longer one of prefixes; everything else the contract says still holds.
- Loader.Registry.Reload: behind a predecessor that is gone the code writes to freed memory; the model records that the
  place is lost (`stray`) and says nothing of what the write destroys. From then on the registry's lists are the model's
  own. An entry made later at the freed address is not modelled.
- Reloading.ReloadLosesEarly: only for installs that name neither the predecessor nor a loader above it; the condition
  for all installs is that of `Reloading.ReloadLosesIff`.
- Reloading.ReloadLosesToUnload: only for installs that make one unload, without a claim gate; for all others see
  `Reloading.ReloadLosesIff`.
- Reloading.ReloadedAnew: what is put back is told only for installs that unload and reload nothing; for all others
  `Reloading.ReloadOrder` says where it stands.
- Reloading.ReloadLast: only for installs that unload and reload nothing; for all others see `Reloading.ReloadOrder`.
- What the claim handler of a gated region does besides answering, and what the handlers of a hook that an install calls
  do, is not part of a registry.
- Reentry.ServeSettles: handlers call hooks; they do not load, unload, claim or deny while a dispatch iterates.
- Nesting.Thread.RunDispatch: which listeners a nested dispatch finds is part of the call tree; `Reentry.ServeSettles`
  says which they are.
- Handler bodies and argument buffers: a dispatch yields the listeners it runs, in order.
- Module identity is the triple of path, id and width; the key collision of `ModKey` is not carried into the tables.
- Child regions are enumerated newest first, as the code links them; the documented allocation order is not modelled.
- Denials are sets, not lists with repetitions: lifting removes every entry of a path, so the two cannot be told apart.
- Bits and cells of the memo are sequences; the words of the bit set are kept as blocks of 64 flags.
- A vector slot holds its module; that its callback is at hand follows from the memo.
- Opening shared objects, symbol lookup, path resolution, temporary copies and file identity are parameters: whether an
  object opens, what it exports, its path and its image.
- The index from regions to modules (src/libxylem.c:636-665), which no dispatch reads.
- Out-of-memory branches, cache layout, prefetching, debug logs, thread-local storage as such, the file watcher, the
  WebAssembly dispatcher, and the wrappers for other languages.
