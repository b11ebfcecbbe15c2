# The variable store of `bin/oe/data.py`, in Dafny

This project models the data layer of the early OpenEmbedded build tool
(`bin/oe/data.py`) and proves properties of the model. The data layer has
three parts.

- **The variable store.** A dictionary from a variable name to a record
  holding an optional *content* and a dictionary of *flags*. It supports
  `init`, `initVar`, `setVar`, `getVar`, `delVar`, `setVarFlag`,
  `getVarFlag`, `setVarFlags`, `getVarFlags`, `getData` and `setData`.
- **The expansion engine** (`expand`). Each pass does two sweeps.
  - The first replaces every `${NAME}` by the raw stored content of NAME.
    Unset names are kept verbatim.
  - The second replaces every `${@code}` region by what an evaluator makes
    of `code`.
  - The passes repeat while a `$` is left. They stop when a pass changes
    nothing or when the string is longer than 2048 characters.
- **The batch expander** (`expandData`) **and the override resolver**
  (`update_data`). The resolver splits `OVERRIDES` on `:`. For every name S,
  in order:
  1. the last non-empty `S_<tag>` replaces S;
  2. `S_append` is appended;
  3. `S_prepend` is put in front;
  4. the lines of S containing the pattern of `S_delete` are dropped.

  Every helper used is deleted at the end.

## Layout

| module | file | what |
| --- | --- | --- |
| `Wrappers` | `wrappers.dfy` | `Option` |
| `Strings` | `strings.dfy` | `split`, `join`, `strip`, `replace(…, "\n", "")` and `find`, as Python gives them on `str` |
| `VarStore` | `varstore.dfy` | the store as a value: `Var`, `Data`, the lookups, and each update as a function from the old store to the new one |
| `Expansion` | `expansion.dfy` | scanners for the two regular expressions, the two sweeps, the pass, the loop of `expand`, and the method `Expand` |
| `Batch` | `batch.dfy` | `expandData` as a function of the store |
| `Overrides` | `overrides.dfy` | `update_data` as functions of the store, reference definitions of what one turn does, the method `FilterLines` |
| `Store` | `store.dfy` | the class `DataStore`. Its field `vars` is the dictionary the source mutates, and each operation is a method tied to the function that specifies it |
| `Examples` | `examples.dfy` | the examples from the documentation of `expand`, `expandData` and `update_data`, for every evaluator and every large enough budget of passes |

Modelling decisions:

- **Regular expressions.** `\${[^{}]+}` and `\${@.+?}` are explicit
  left-to-right scanners (`VarRefAt`, `CodeRefAt`). A sweep (`VarSub`,
  `CodeSub`) is one left-to-right pass that does not rescan what it
  inserted, as `re.sub` does.
- **Embedded code.** `python_sub` is an evaluator parameter
  `ev: (code, store) -> Option<string>`. `None` stands for an exception the
  code raised.
- **No termination claim.** `expand` need not terminate (`A = ${B}`,
  `B = ${A}`). The loop is therefore given a budget of passes, `fuel`. The
  result `Exhausted` says that the budget ran out.
  - `FuelMonotone` proves that a larger budget never changes a result that
    was reached.
  - `MutualReferenceNeverSettles` proves that no budget is enough for the
    cycle.
- **Key order.** The order of `d.keys()` is a parameter `keys`, with
  `IsKeyOrder(keys, d)`: every name once, and nothing else.
- **Errors.** A `delVar` of a name that is no longer there is the
  `KeyError` of the source. It is the status `LookupFailure`, and the
  deletions before it stay done. A repeated helper, e.g.
  `OVERRIDES = arm:arm`, therefore ends `update_data` with `LookupFailure`.
  It is not removed from the list.
- **Python truth values.** `if nameval:` and `if not overrides:` are
  `Truthy`: present and non-empty.

## Model

| member | source | states |
|---|---|---|
| VarStore.Init | bin/oe/data.py:8-9 | the new store is empty: every content and every flag lookup gives None |
| Store.DataStore.constructor | bin/oe/data.py:8-9 | the new store is empty and every lookup gives None |
| VarStore.InitVarIn | bin/oe/data.py:13-19 | `initVar` adds `n` with no content and no flags when it is missing, changes nothing when it is there, and keeps every other name |
| Store.DataStore.InitVar | bin/oe/data.py:13-19 | the store becomes `InitVarIn` of the old store |
| VarStore.InitVarIdempotent | bin/oe/data.py:13-19 | `initVar` twice is `initVar` once, and it keeps the flags a name already has |
| VarStore.SetVarIn | bin/oe/data.py:21-27 | after `setVar(n, v)` the content of `n` is `v`, `n` keeps its flags (a new `n` has none), and every other name is unchanged |
| Store.DataStore.SetVar | bin/oe/data.py:21-27 | the store becomes `SetVarIn` of the old store, through `initVar` when `n` is missing |
| VarStore.GetVar | bin/oe/data.py:29-37 | defines `getVar` without expansion: the content of `n`, or None when `n` or its content is missing (the `KeyError` path); `SetThenGet` and `FlagOnlyVariableHasNoContent` are proved about it |
| VarStore.SetThenGet | bin/oe/data.py:21-37 | reading back after `setVar` gives the value written, and every other name reads as before |
| Store.DataStore.GetVar | bin/oe/data.py:29-37 | the content of `n`, or None exactly when `n` is missing or has no content |
| Store.DataStore.GetVarExpanded | bin/oe/data.py:29-37 | `getVar(n, d, 1)` is the expansion of the content against the store: None when there is no content, and a settled text when the expansion gives one |
| VarStore.FlagOnlyVariableHasNoContent | bin/oe/data.py:13-50 | a name created only by `initVar` or `setVarFlag` has no content |
| VarStore.DelVarIn | bin/oe/data.py:39-41 | `delVar` removes content and flags together and fails exactly when the name is missing |
| Store.DataStore.DelVar | bin/oe/data.py:39-41 | succeeds exactly when `n` is there, and then removes it; otherwise the `KeyError` status, with the store unchanged |
| VarStore.DeleteAfterSet | bin/oe/data.py:21-41 | a name just written can be deleted, and deleting it a second time fails |
| VarStore.SetVarFlagIn | bin/oe/data.py:43-50 | flag `f` of `n` becomes `v`; the other flags, every content and every other name are unchanged |
| Store.DataStore.SetVarFlag | bin/oe/data.py:43-50 | the store becomes `SetVarFlagIn` of the old store |
| VarStore.GetVarFlag | bin/oe/data.py:52-57 | the flag is present exactly when the name and the flag are, and it is then the stored flag |
| Store.DataStore.GetVarFlag | bin/oe/data.py:52-57 | flag `f` of `n`, or None exactly when `n` or the flag is missing |
| VarStore.SetVarFlagsIn | bin/oe/data.py:59-65 | the whole flag map of `n` is replaced; every content and every other name are unchanged |
| Store.DataStore.SetVarFlags | bin/oe/data.py:59-65 | the store becomes `SetVarFlagsIn` of the old store |
| VarStore.GetVarFlags | bin/oe/data.py:67-72 | defines `getVarFlags`: the flag map of `n`, or None when `n` is missing; `Init` and `GetVarFlag` are stated through it |
| Store.DataStore.GetVarFlags | bin/oe/data.py:67-72 | the flag map of `n`, or None exactly when `n` is missing |
| Store.DataStore.GetData | bin/oe/data.py:74-76 | the store itself |
| Store.DataStore.SetData | bin/oe/data.py:78-80 | the store is left as it is, since the source only rebinds its own parameter |
| Expansion.VarRefAt | bin/oe/data.py:84 | a prefix it finds is one whole match of `\${[^{}]+}` |
| Expansion.VarRefAtUnique | bin/oe/data.py:84 | the match at the front is unique, and the scanner finds it whenever there is one |
| Expansion.CodeRefAt | bin/oe/data.py:85 | a prefix it finds is one whole match of `\${@.+?}`: no newline, and it ends at the first `}` after the first character of the code |
| Expansion.CodeRefAtUnique | bin/oe/data.py:85 | the region at the front is unique, and the scanner finds it whenever there is one |
| Expansion.VarReplacement | bin/oe/data.py:121-128 | defines `var_sub`: the key is the match without its `${` and `}`; the result is its content when it has one, else the match itself |
| Expansion.VarSub | bin/oe/data.py:144 | defines the sweep `re.sub(var_sub, s)`: each reference found left to right is replaced by `VarReplacement`, and the scan goes on after it; `VarSubRef`, `VarSubLiteral` and `VarSubNoDollar` are proved about it |
| Expansion.CodeSub | bin/oe/data.py:145 | defines the sweep `re.sub(python_sub, s)`: each code region found left to right is replaced by what the evaluator gives for the text after `${@`, and an exception of the evaluator ends the sweep; `CodeSubRef`, `CodeSubLiteral` and `CodeSubNoAt` are proved about it |
| Expansion.Pass | bin/oe/data.py:143-145 | defines one pass of the loop: the variable sweep, then the code sweep on its result |
| Expansion.Settled | bin/oe/data.py:142-150 | defines where the loop may stop: no `$` left, over the guard, or unchanged by one more pass |
| Expansion.Loop | bin/oe/data.py:142-150 | the loop with a given pass and a budget of passes: a text it gives back is present; `LoopStops`, `LoopFuelMonotone` and `Examples.Alternating` are proved about it |
| Expansion.ExpandLoop | bin/oe/data.py:142-150 | the loop with the pass of a store and an evaluator: a text it gives back is present |
| Expansion.ExpandOf | bin/oe/data.py:139-150 | defines `expand`: None for None, else the loop; `Expand`, `ExpandStops`, `FuelMonotone` and `ExpandIdempotent` are proved about it |
| Expansion.VarSubRef | bin/oe/data.py:121-128 | a reference at the front becomes the raw content of its name, or stays verbatim when the name has none; the sweep goes on after it without rescanning what it inserted |
| Expansion.VarSubLiteral | bin/oe/data.py:144 | a stretch without `$` passes through the variable sweep unchanged |
| Expansion.VarSubNoDollar | bin/oe/data.py:144 | a string without `$` is left alone by the variable sweep |
| Expansion.CodeSubRef | bin/oe/data.py:130-137 | a code region at the front becomes the evaluator's result for its code, and an exception of the evaluator is the exception of the sweep |
| Expansion.CodeSubLiteral | bin/oe/data.py:145 | a stretch without `$` passes through the code sweep unchanged |
| Expansion.CodeSubNoAt | bin/oe/data.py:145 | without `@` the code sweep is the identity |
| Expansion.PassNoDollar | bin/oe/data.py:139-142 | a string without `$` is unchanged by a pass and by expansion |
| Expansion.Expand | bin/oe/data.py:139-150 | the loop of `expand`, pass by pass: it returns `ExpandOf`; None for None; a string without `$` unchanged; a returned text is settled |
| Expansion.LoopStops | bin/oe/data.py:142-150 | a result of the loop has no `$`, or is over the guard, or is unchanged by one more pass |
| Expansion.ExpandStops | bin/oe/data.py:142-150 | the same for expansion in a store: a returned text is `Settled` |
| Expansion.LoopFuelMonotone | bin/oe/data.py:142-150 | a larger budget does not change a result the loop reached within a smaller one |
| Expansion.FuelMonotone | bin/oe/data.py:142-150 | the same for expansion in a store: the budget only decides whether the loop is seen to finish |
| Expansion.ExpandTurn | bin/oe/data.py:142-149 | one turn of the loop: a new text within the guard is handed on with one pass less; an unchanged text or one over the guard is the result |
| Expansion.ExpandIdempotent | bin/oe/data.py:142-150 | expanding a result again gives it back, unless the first expansion stopped at the guard |
| Batch.ReadStore | bin/oe/data.py:164-165 | defines the store the expansions read: `alterdata` itself when `readdata` is None, else `readdata` |
| Batch.ExpandKey | bin/oe/data.py:167-173 | a name without content is skipped; otherwise its content becomes its expansion, unless the expansion raises or runs out; other names and all flags are unchanged |
| Batch.ExpandDataSpec | bin/oe/data.py:152-173 | `expandData` keeps the names, the flags and which names have content, and leaves names outside the key list alone |
| Batch.ExpandDataStops | bin/oe/data.py:167-173 | the first expansion that raises ends the loop, with the earlier names already rewritten |
| Batch.ExpandDataFromSource | bin/oe/data.py:152-173 | with a separate read store and distinct keys, it succeeds exactly when every content expands, and each content becomes the expansion of its old content against the read store |
| Batch.ExpandDataNoReferences | bin/oe/data.py:167-173 | when no content holds a `$`, `expandData` changes nothing |
| Store.DataStore.ExpandName | bin/oe/data.py:168-173 | one iteration of the loop of `expandData` is `ExpandKey` |
| Store.DataStore.ExpandData | bin/oe/data.py:164-173 | the loop of `expandData` is `ExpandDataSpec` |
| Strings.Split | bin/oe/data.py:303 | the pieces hold no separator, and joining them back gives the string |
| Strings.RemoveChar | bin/oe/data.py:336 | `replace(s, "\n", "")` keeps exactly the characters other than the removed one |
| Strings.Strip | bin/oe/data.py:336 | `strip()` is the slice between the first and the last non-whitespace character, and empty exactly when the string is all whitespace |
| Strings.Contains | bin/oe/data.py:338 | `line.find(pattern) != -1` holds exactly when the pattern occurs at some position |
| Overrides.Helper | bin/oe/data.py:307 | defines the helper name `"%s_%s" % (s, o)`; `HelperNamesDiffer` and `HelperInjective` are proved about it |
| Overrides.HelperNamesDiffer | bin/oe/data.py:307 | a helper name `S_x` is never S itself and starts with `S_` |
| Overrides.HelperInjective | bin/oe/data.py:307 | two helper names of one variable are equal exactly when their suffixes are |
| Overrides.TagStep | bin/oe/data.py:307-311 | defines one tag of the inner loop: a non-empty `S_o` replaces S and is remembered in `dodel` |
| Overrides.ApplyTags | bin/oe/data.py:306-311 | defines the inner loop over the tags, in their order; `ApplyTagsEffect` gives its effect |
| Overrides.LastTagWins | bin/oe/data.py:305-311 | the last tag with a non-empty helper gives the value |
| Overrides.NoTagApplies | bin/oe/data.py:305-311 | when no tag helper is non-empty there is no value, and no tag helper is used |
| Overrides.LastTagValueMeaning | bin/oe/data.py:305-311 | the value the tags give is a non-empty helper content, and there is one exactly when some tag helper is non-empty |
| Overrides.TagsConsumedMeaning | bin/oe/data.py:305-311 | the tag helpers used are exactly the non-empty ones |
| Overrides.TagsConsumedFromTags | bin/oe/data.py:305-311 | every tag helper used is the helper of S for one of the tags |
| Overrides.ApplyTagsEffect | bin/oe/data.py:305-311 | the tag loop is one content change of S to the last non-empty tag helper (or S as it was), and it uses the non-empty tag helpers in tag order |
| Overrides.AppendStep | bin/oe/data.py:313-319 | defines the append step; `AppendStepOn` gives its effect |
| Overrides.PrependStep | bin/oe/data.py:321-327 | defines the prepend step; `PrependStepOn` gives its effect |
| Overrides.AppendStepOn | bin/oe/data.py:313-319 | a non-empty `S_append` is appended to S (absent S counts as empty) and used; otherwise nothing happens |
| Overrides.PrependStepOn | bin/oe/data.py:321-327 | a non-empty `S_prepend` is put in front of S and used; otherwise nothing happens |
| Overrides.Pattern | bin/oe/data.py:336 | the pattern holds only characters of the `S_delete` value, no newline, and neither starts nor ends with whitespace |
| Overrides.DeleteStep | bin/oe/data.py:329-341 | defines the line deletion step; `DeleteStepOn` gives its effect |
| Overrides.DeleteStepOn | bin/oe/data.py:329-341 | the line deletion fires only when `S_delete` and S are both non-empty; it then replaces S by its filtered lines and uses `S_delete` |
| Overrides.KeptLines | bin/oe/data.py:337-339 | the kept lines are exactly the lines that do not contain the pattern |
| Overrides.FilterLinesOf | bin/oe/data.py:335-339 | defines what the deletion makes of S: the kept lines, each after a newline; `FilterLinesMeaning` and `FilterLinesKeepsAll` are proved about it |
| Overrides.FilterLines | bin/oe/data.py:335-339 | the loop `new = new + '\n' + line` gives `FilterLinesOf` |
| Overrides.KeptLinesStep | bin/oe/data.py:337-339 | one more line is kept, after a newline, exactly when it does not contain the pattern |
| Overrides.FilterLinesMeaning | bin/oe/data.py:335-339 | the result is empty exactly when every line contains the pattern; otherwise it is the kept lines, each after a newline |
| Overrides.FilterLinesKeepsAll | bin/oe/data.py:335-339 | when no line contains the pattern, the deletion only puts a newline in front |
| Overrides.ResolveKey | bin/oe/data.py:306-341 | defines the body of the outer loop for S: the tags, then the append, the prepend and the deletion, each reading the store as the step before left it |
| Overrides.ResolveKeys | bin/oe/data.py:305-341 | defines the outer loop over the names, in the order given |
| Overrides.DeleteAll | bin/oe/data.py:343-345 | defines the final loop `for s in dodel: delVar(s, d)`, ending at its first `KeyError`; `DeleteAllStops` and `DeleteAllEffect` are proved about it |
| Overrides.ResolvedContent | bin/oe/data.py:305-341 | the reference definition of the content of S after its turn, read off the store as the turn began |
| Overrides.KeyConsumed | bin/oe/data.py:305-341 | the reference definition of the helpers the turn of S uses, in the order it uses them |
| Overrides.ResolveKeyEffect | bin/oe/data.py:305-341 | the turn of S is one content change of S to `ResolvedContent`, using `KeyConsumed`, both read off the store as the turn found it |
| Overrides.KeyConsumedMeaning | bin/oe/data.py:305-341 | the helpers used are non-empty helpers of S in the store; every non-empty tag, append and prepend helper is used; `S_delete` is used exactly when the deletion fires or `delete` is one of the tags with `S_delete` non-empty; empty helpers are never used |
| Overrides.DeleteTagUsedTwice | bin/oe/data.py:305-341 | a tag named `delete` with `S_delete` non-empty makes the deletion fire too, so the turn uses `S_delete` twice |
| Overrides.InertKeyUnchanged | bin/oe/data.py:305-341 | the turn of a name without non-empty helpers changes nothing |
| Overrides.AllInertUnchanged | bin/oe/data.py:305-341 | a loop over such names changes nothing |
| Overrides.InertAfterTurn | bin/oe/data.py:305-341 | the turn of S leaves every other inert name, that is not a helper of S, inert |
| Overrides.ResolveSingleKey | bin/oe/data.py:305-341 | when only S has helpers, the whole outer loop is the turn of S, whatever the key order |
| Overrides.InertResolved | bin/oe/data.py:305-341 | a name without non-empty helpers keeps its content and uses no helper |
| Overrides.TurnSameView | bin/oe/data.py:305-341 | the turn of S depends only on S and its helper names |
| Overrides.ResolveIndependent | bin/oe/data.py:305-341 | when no active name is a helper of another, the outer loop gives every listed name its `ResolvedContent` read off the original store, in any order; other names keep their records; the helpers used are `AllConsumed`, every turn read off the original store |
| Overrides.SameStoreInAnyOrder | bin/oe/data.py:305-341 | for such names, two orders of the same names give the same store |
| Overrides.SameHelpersInAnyOrder | bin/oe/data.py:305-341 | for such names, two permutations use the same helpers, each as often |
| Overrides.AllConsumedPermutation | bin/oe/data.py:305-341 | the helpers of all the turns, counted with repetition, do not depend on the order of the names |
| Overrides.KeyOrderIrrelevant | bin/oe/data.py:305-341 | for such names, any two orders of the keys of the store give the same store and use the same helpers, each as often |
| Overrides.ResolveKeyExtends | bin/oe/data.py:305-341 | a turn only adds to `dodel` |
| Overrides.ConsumedPrefix | bin/oe/data.py:305-341 | what the loop over a prefix of the names adds to `dodel` comes first in what the whole loop adds |
| Overrides.DeleteTagRepeats | bin/oe/data.py:305-341 | a tag named `delete`, once the turn of a name S comes with `S_delete` non-empty, puts some name in `dodel` twice |
| Overrides.ResolveKeysKeepsNames | bin/oe/data.py:305-341 | the outer loop keeps the names and the flags, and every helper it uses is a name of the store |
| Overrides.DeleteAllStops | bin/oe/data.py:344-345 | the deletion loop ends at its first `KeyError` |
| Overrides.DeleteAllEffect | bin/oe/data.py:343-345 | deleting names of the store succeeds exactly when none is listed twice, and then removes exactly those names; the only failure is the `KeyError` |
| Overrides.UpdateDataSpec | bin/oe/data.py:299-302 | with `OVERRIDES` absent or expanding to empty the store is untouched; an exception while expanding it is the result |
| Overrides.UpdateDataEffect | bin/oe/data.py:296-345 | otherwise `update_data` succeeds exactly when no helper is used twice, and then every used helper is gone, every other name keeps its flags, and each content is what the outer loop left |
| Overrides.UpdateDataIndependent | bin/oe/data.py:296-345 | for names whose override sets do not overlap, `update_data` in terms of the original store: it succeeds exactly when no helper is used twice over all turns, and then the used helpers are gone and every other name has its `ResolvedContent` and its flags |
| Overrides.DeleteTagFails | bin/oe/data.py:296-345 | a tag named `delete` makes `update_data` end with the `KeyError` once the turn of a name S comes with `S_delete` non-empty |
| Store.DataStore.ResolveName | bin/oe/data.py:305-341 | the body of the outer loop for S is `ResolveKey` |
| Store.DataStore.ResolveNames | bin/oe/data.py:305-341 | the outer loop is `ResolveKeys` |
| Store.DataStore.DeleteNames | bin/oe/data.py:343-345 | the final deletion loop is `DeleteAll` |
| Store.DataStore.UpdateData | bin/oe/data.py:296-345 | `update_data` is `UpdateDataSpec` |
| Examples.MidReplaced | bin/oe/data.py:90-92 | `vorher ${MID} dahinter` with `MID = drin` expands to `vorher drin dahinter` |
| Examples.OneKnown | bin/oe/data.py:90-92 | the same for any reference to a set name between stretches without `$` |
| Examples.UnknownKeptVerbatim | bin/oe/data.py:94-97 | `vorher ${MID} dahinter ${UNKNOWN}` expands to `vorher drin dahinter ${UNKNOWN}` |
| Examples.KnownAndUnknown | bin/oe/data.py:94-97 | the same for any set and any unset name |
| Examples.UnclosedReferenceKept | bin/oe/data.py:99-102 | `${UNKNOWN` is given back as it is |
| Examples.Unclosed | bin/oe/data.py:99-102 | any text with a `$` but no `}` and no `@` is given back as it is |
| Examples.CodeRegionEvaluated | bin/oe/data.py:104-107 | `${@ "Test"*3}` expands to what the code gives, `TestTestTest` |
| Examples.CodeEvaluated | bin/oe/data.py:104-107 | the same for any code region without braces or newlines |
| Examples.ReferenceInsideCode | bin/oe/data.py:108-110 | in `${@ hex(0x1000000+${START}) }` the reference is replaced first, then the code runs on the result |
| Examples.ReferenceThenCode | bin/oe/data.py:108-110 | the same for any reference inside any code region |
| Examples.ChainResolves | bin/oe/data.py:112-118 | `${SYS}` with `SYS = ${ARCH}-${OS}`, `ARCH = arm` and `OS = linux` expands to `arm-linux` in two passes |
| Examples.Chain | bin/oe/data.py:112-118 | the same for any such chain of names |
| Examples.MutualReferenceNeverSettles | bin/oe/data.py:142-149 | with `A = ${B}` and `B = ${A}`, every budget of passes runs out |
| Examples.Mutual | bin/oe/data.py:142-149 | the same for any two names that refer to each other |
| Examples.Alternating | bin/oe/data.py:142-149 | a pass that swaps two different texts, each holding a `$`, keeps the loop going until the budget runs out |
| Examples.RunawayStoppedByGuard | bin/oe/data.py:146-148 | with `A = ${A}${A}` the guard ends the loop with more than 2048 and at most 4096 characters, references still in it |
| Examples.Runaway | bin/oe/data.py:146-148 | the same for any self-doubling name and any row of its references |
| Examples.Doubling | bin/oe/data.py:146-148 | for any pass that doubles a row, the loop stops at the guard, between `MaxLength` and twice `MaxLength` |
| Examples.ExpandDataExample | bin/oe/data.py:156-162 | `dlmsg = dl_dir is ${DL_DIR}`, read against `DL_DIR = /path/to/whatever`, becomes `dl_dir is /path/to/whatever` |
| Examples.BatchOneName | bin/oe/data.py:152-173 | the same for any name with one reference to a name of the read store |
| Examples.UpdateOneName | bin/oe/data.py:296-345 | when only S has helpers, `update_data` sets S to `ResolvedContent` and deletes exactly the helpers used |
| Examples.OverrideSelectsTag | bin/oe/data.py:250-260 | `OVERRIDES = arm`: `TEST` becomes `target`, and `TEST_arm` is deleted |
| Examples.OverrideLastTagWins | bin/oe/data.py:262-268 | `OVERRIDES = arm:ramses:local`: the last non-empty tag wins (`local`), and `TEST_ramses` and `TEST_local` are both deleted |
| Examples.LastOfThreeTurn | bin/oe/data.py:305-311 | of three tags whose first helper is empty, the last one gives the value and the last two helpers are used |
| Examples.OverrideAppend | bin/oe/data.py:270-275 | `TEST_append = " foo"` makes `local foo`, and is deleted |
| Examples.OverridePrepend | bin/oe/data.py:277-282 | `TEST_prepend = "more "` makes `more local foo`, and is deleted |
| Examples.OverrideDelete | bin/oe/data.py:284-291 | `TEST_delete = "foo "` drops the one line of `more local foo`, leaving `TEST` empty, and is deleted |
| Examples.SingleLineDropped | bin/oe/data.py:335-339 | a single line that contains the pattern leaves nothing |

## Left out

- `python_sub` (bin/oe/data.py:130-137) is the evaluator parameter `ev`.
  The model leaves out its `eval` of arbitrary code, its access to the
  module `oe`, and its conversion of an integer result to a string. An
  exception of the code is `None`, and `expand` then gives `Raised`.
- The examples of embedded code take what the code gives as a hypothesis
  on `ev`, e.g. `ev(" \"Test\"*3", d) == Some("TestTestTest")`.
  - They also need the name between `${` and `}` to be unset, e.g.
    `@ "Test"*3`. This is because the variable sweep of the source first
    matches `${@ "Test"*3}` as a reference to that name.
- The documentation examples of `expand` use a default environment `env`.
  Here they are stated for every store that holds the variables they set.
- `emit_var`, `emit_env` and `inheritFromOS` (bin/oe/data.py:177-243) are
  not part of this model: they are shell text output and `os.environ`.
  - The call `inheritFromOS(5)` at the end of `update_data`
    (bin/oe/data.py:347) is left out for the same reason. It also ignores
    its store argument.
- The `debug` messages (bin/oe/data.py:147, 294, 301) are logging only.
- The default store `_data` (bin/oe/data.py:11) is replaced by an explicit
  store, or by the object the methods of `Store.DataStore` run on.
- Only string contents and string flag values are modelled. `setVar` or
  `setVarFlag` with a value of another type, and the truth value of such a
  value, are left out.
- Store.DataStore.GetData: `getData` returns the store object itself, so a
  later change made through the result changes the store. The model returns
  the value of `vars`; that aliasing is not modelled.
- Store.DataStore.GetVarFlags: `getVarFlags` returns the flag dictionary the
  store holds, so a later change made through it changes the store. The
  model returns the value of the flag map; that aliasing is not modelled.
- Store.DataStore.SetVarFlags: `setVarFlags` stores the caller's dictionary
  itself, so a later `setVarFlag` also changes the caller's object, and a
  change the caller makes shows in the store. The model stores the value
  of the map; that aliasing is not modelled.
- Batch.ExpandDataSpec: with `readdata` None the expansions read the store
  as the loop has left it, as in the source. An explicit `expandData(d, d)`
  also reads the store live in the source, because both parameters are the
  same object. The model takes `Some(rd)` as a value fixed at the call, so
  `Store.DataStore.ExpandData` with `Some(vars)` does not capture that case.
- Expansion.Evaluator: the evaluator is a function of the code and the
  store. It gives the same result for the same code and store, and it
  cannot change the store. `python_sub` runs `eval` with `d` in scope, so
  the code could change the store or give different results on the same
  input. `ExpandIdempotent`, `FuelMonotone` and the examples rely on that
  purity.
- Expansion: the budget `fuel` bounds the number of passes, and the result
  `Exhausted` exists only in the model.
  - The source has no bound and loops for ever on a cycle.
  - `FuelMonotone` shows that the bound changes no result that is reached.
  - `Batch.ExpandKey`, `Overrides.UpdateDataSpec` and the methods that use
    them end with the status `OutOfFuel` when that happens.
- Store.DataStore.GetVarExpanded: an exception raised by embedded code while
  `getVar(n, d, 1)` expands is also caught by the `except KeyError` of the
  source when it is a `KeyError`, and turned into None. The model gives
  `Raised` for every exception of the code, because it does not tell
  exceptions apart.
- Examples.Mutual: it states only that every budget runs out. It does not
  state that the passes alternate between the two references.
