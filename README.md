# php-copycat, modelled in Dafny

php-copycat is a Composer plugin. It copies files from a feature package into
the host project and patches the host's configuration files. This project
models the patchers and the helpers that feed them:

- **Marker-group line patchers.** `GitignoreModifier` and `EnvModifier` keep a
  block of lines between `###> name` and `###< name`. They add entries to the
  block or delete the block. The env patcher also upper-cases keys, pulls
  lines for the same key from outside the block into it, applies the
  overwrite policy and quotes and escapes values.
- **Bundle registry.** `SymfonyModifier::addToBundle` inserts a line into the
  `return [ … ];` block of `config/bundles.php` at a `strcmp`-ordered position.
- **JSON patcher.** `JsonModifier::add` walks a dot path through a decoded
  document and stores or merges a value at its end.
- **File store.** The buffered `FileResolver` loads each file once, keeps
  modifications in memory and writes everything back in first-insertion order.
  It also does the path resolution with its candidate order and scope checks.
- **Small pieces.** `SystemValidator`, the `PackageInfo` value object, the
  enums and `YamlModifier::indentation`.

The Dafny modules follow the PHP classes:

| module | models |
|---|---|
| `Outcomes` | `Option`, `Result`, and the PHP exceptions: `RuntimeException`, `InvalidArgumentException`, and engine `Error`s such as `TypeError` |
| `Text` | `explode`, `implode`, `rtrim`, `array_search`, ASCII `mb_strtoupper`, `strcmp` order, PHP's integer-string array keys |
| `Host` | the file system as a value: regular files, directories, `realpath` answers |
| `MarkerGroup` | the sentinel logic the two line patchers share |
| `GitignoreModifier`, `EnvModifier`, `SymfonyModifier`, `JsonModifier`, `YamlModifier` | the patchers |
| `FileResolver` | both copies of `resolve`, `resolveInProject`, `resolveFileByPriority`, and the buffer as the class `BufferedFiles` |
| `SystemValidator`, `Dto`, `Enums` | the validator, `PackageInfo`, the four enums |

**What `add` does in the line patchers.**
1. The file is right-trimmed and split on `"\n"`.
2. The first start sentinel and the first end sentinel are located. A missing
   group is appended after a blank line.
3. The group lines are changed.
4. The parts are glued back with a final empty line.

These steps are written once, in `MarkerGroup`. The loops are methods
(`GitignoreModifier.Add`, `EnvModifier.AddAll`, `EnvModifier.Relocate`,
`EnvModifier.ScanGroup`, `SymfonyModifier.FindInsertIndex`,
`JsonModifier.MergeInto`, `JsonModifier.PutAt`,
`FileResolver.ResolveFileByPriority`, `FileResolver.WriteAll`). Each is proved
equal to a function. The lemmas, and some of the methods' own postconditions,
state what the source promises about that function.

**Behaviour the model keeps as written:**
- **End sentinel before start sentinel.** The group cut then uses a negative
  `array_slice` length, and the part after the group starts at the end
  sentinel, before the part that ends with the start sentinel. When the end
  sentinel is the file's first line and the start sentinel its second, the
  part after the group is the whole file again, so gluing the parts back
  repeats both sentinels (`MarkerGroup.EndBeforeStartOverlaps`).
- **A group name ending in blank space.** `add` writes the group, but the
  next `add` right-trims the file. That shortens the end sentinel on the last
  line, so the second call finds the start sentinel without the end sentinel
  and fails (`GitignoreModifier.TrailingSpaceNameNotIdempotent`,
  `EnvModifier.TrailingSpaceNameNotIdempotent`).
- **A file holding the end sentinel but no start sentinel.** The first `add`
  finds no start sentinel and appends a fresh group after the stray end
  sentinel. The second `add` finds the stray end sentinel before the new
  start sentinel, and the negative `array_slice` length makes it write both
  sentinels again (`MarkerGroup.EndOnlyGrows`,
  `GitignoreModifier.EndOnlyNotIdempotent`, `EnvModifier.EndOnlyNotIdempotent`).
  A `remove` after the first `add` cuts from the new start sentinel back to
  the stray end sentinel and keeps both
  (`GitignoreModifier.EndOnlyRemoveKeepsSentinels`).
- **Gitignore: the end sentinel as an entry.** `add` appends it to the group
  like any other line. A later `remove` stops at that entry, the first end
  sentinel in the file, and keeps the real one
  (`GitignoreModifier.EndEntryRemoveKeepsSentinel`).
- **Env: relocating the file's last line.** Moving that line into the group
  leaves the blank line before it as the file's last line. The result then
  ends in two line breaks (`EnvModifier.RelocatedLastLine`).
- **Env: `remove` after a relocating `add`.** A `KEY=` line outside the group
  is moved into the group by `add`. A later `remove` deletes it with the
  group, so the file loses a line it held before
  (`EnvModifier.RemoveAfterRelocationLosesLine`).
- **Symfony: a bundle that sorts after every entry.** It is inserted directly
  after `return [`, at the top of the block (`SymfonyModifier.InsertIndex`).
  `SymfonyModifier.GreatestGoesFirst` is a sample in which a sorted block
  becomes unsorted this way.
- **JSON: a value with both integer and string keys.** Merging it twice does
  not give the same document (`JsonModifier.MixedNotIdempotent`).
- **`resolveInProject`: the vendor check.** It compares against `projectPath`
  followed directly by `vendor`, with no separator. `PackageInfo` strips
  trailing separators, so a file in the project's `vendor` directory passes
  (`FileResolver.VendorFilePasses`).
- **`realpath` answering `false`.** Where that value reaches a `string`
  parameter, PHP raises a `TypeError`. It is modelled as an engine error.
- **`JsonTargetEnum::getSystem`.** It names a `KnownSystemsEnum::COMPOSER`
  case that does not exist, so it is modelled as an engine error.
- **`SystemValidator::checkForSystem`.** It calls
  `KnownSystemsEnum::getIndicatorType`, which does not exist either. The
  indicator type is therefore a parameter, and a missing one is an engine
  error.

## Model

| member | source | states |
|---|---|---|
| `Text.Split` | src/Modifier/GitignoreModifier.php:25 | `explode` never returns an empty list, and every piece is free of the separator |
| `Text.JoinSplit` | src/Modifier/GitignoreModifier.php:70 | imploding the pieces of an `explode` gives back the original string |
| `Text.SplitJoin` | src/Modifier/GitignoreModifier.php:70 | exploding an implode of separator-free lines gives the lines back |
| `Text.Join` | src/Modifier/GitignoreModifier.php:70 | `implode` with a string glue: the empty list gives `""`, one piece gives itself; `Text.JoinSplit` and `Text.SplitJoin` make it the inverse of `explode`, and `FileResolver.ByPriority` uses it with `", "` |
| `Text.StartsWith` | src/Modifier/EnvModifier.php:55 | `str_starts_with` as the prefix order on strings; `EnvModifier.KeepMembers` and `EnvModifier.KeepAny` state the filters built on it |
| `Text.RTrim` | src/Modifier/GitignoreModifier.php:23 | `rtrim` returns a prefix that does not end in a stripped character, and everything it removed is a stripped character |
| `Text.RTrimKeeps` | src/Modifier/GitignoreModifier.php:23 | when the tail of a string keeps a character after trimming, `rtrim` of the whole string trims only the tail |
| `Text.IndexOf` | src/Modifier/GitignoreModifier.php:29-30 | strict `array_search` finds the first position holding the value, and `None` exactly when the value is absent |
| `Text.Upper` | src/Modifier/EnvModifier.php:50 | upper-casing keeps the length and maps each character through ASCII upper-casing |
| `Text.UpperIdempotent` | src/Modifier/EnvModifier.php:142 | upper-casing an upper-cased key changes nothing, so `createEnvLine` agrees with the search prefix |
| `Text.LessIrreflexive` | src/Modifier/SymfonyModifier.php:48 | no line sorts strictly before itself under `strcmp` |
| `Text.LessTransitive` | src/Modifier/SymfonyModifier.php:48 | `strcmp` order is transitive |
| `Text.LessTotal` | src/Modifier/SymfonyModifier.php:48 | any two different lines are ordered one way or the other |
| `Text.LessAsymmetric` | src/Modifier/SymfonyModifier.php:48 | two lines never sort before each other |
| `Text.Less` | src/Modifier/SymfonyModifier.php:48 | `strcmp(a, b) < 0` on code units, a shorter prefix first; `Text.LessIrreflexive`, `Text.LessTransitive`, `Text.LessTotal` and `Text.LessAsymmetric` make it a strict total order |
| `Text.DigitsOfValue` | src/Modifier/JsonModifier.php:13 | canonical decimal digits read as a number and written back give the same digits |
| `Text.IntKey` | src/Modifier/JsonModifier.php:13-19 | a segment stored as an integer key is in the 64-bit range, and that integer's decimal form is the segment itself |
| `Text.IntKeyOfDecimal` | src/Modifier/JsonModifier.php:13-19 | every 64-bit integer's decimal form becomes that integer as a key |
| `Text.KeyOf` | src/Modifier/JsonModifier.php:13-19 | a string key is the segment unchanged and not an integer form; an integer key's decimal form is the segment |
| `MarkerGroup.Markers` | src/Modifier/GitignoreModifier.php:96-102 | the start and end sentinels differ and carry the group name after their prefixes |
| `MarkerGroup.MarkersInjective` | src/Modifier/EnvModifier.php:132-138 | different group names have different sentinels |
| `MarkerGroup.ArraySlice` | src/Modifier/GitignoreModifier.php:45-47 | `array_slice` returns a prefix of the tail, of the requested length when that length is not negative |
| `MarkerGroup.Cut` | src/Modifier/GitignoreModifier.php:44-47 | the part before runs up to and including the start sentinel, the part after starts at the end sentinel, and the group lies strictly between them |
| `MarkerGroup.ContentLines` | src/Modifier/GitignoreModifier.php:23-25 | the right-trimmed file splits into at least one line, none holding a line break |
| `MarkerGroup.OpenGroup` | src/Modifier/GitignoreModifier.php:23-47 | fails exactly when the start sentinel is present and the end sentinel is not; with no start sentinel, a blank line and an empty group are appended; otherwise the cut is at the first occurrence of each sentinel |
| `MarkerGroup.Render` | src/Modifier/GitignoreModifier.php:58-70 | the glued file of a non-empty list of lines ends with a line break |
| `MarkerGroup.RenderLines` | src/Modifier/GitignoreModifier.php:58-70 | splitting the glued file gives the three parts and a final empty line, exactly when no part holds a line break |
| `MarkerGroup.Kept` | src/Modifier/GitignoreModifier.php:84-88 | `remove` keeps the lines before the start sentinel, then the lines after the end sentinel, each in order |
| `MarkerGroup.RemoveGroup` | src/Modifier/GitignoreModifier.php:73-91 | fails, naming the file, exactly when a sentinel is missing; otherwise the lines are exactly the kept lines, with no trimming |
| `MarkerGroup.OpenedFresh` | src/Modifier/GitignoreModifier.php:31-38 | a file without the group always opens, and the new group can be found again |
| `MarkerGroup.OpenedExisting` | src/Modifier/GitignoreModifier.php:29-47 | a file whose first start sentinel comes before its first end sentinel opens, and the group can be found again |
| `MarkerGroup.OpenedReopenable` | src/Modifier/GitignoreModifier.php:23-47 | a well-placed file always opens into parts that reopen to themselves |
| `MarkerGroup.ReopenRendered` | src/Modifier/GitignoreModifier.php:59-70 | opening a glued file again gives back the same three parts |
| `MarkerGroup.OpenedLastLine` | src/Modifier/GitignoreModifier.php:23 | after trimming, the last line of an opened file is not empty and does not end in a line break |
| `MarkerGroup.RenderEndsOnce` | src/Modifier/GitignoreModifier.php:66-70 | a glued file whose last line is not blank ends with exactly one line break |
| `MarkerGroup.RemoveAppendedGroup` | src/Modifier/GitignoreModifier.php:84-90 | deleting a group appended after a blank line leaves the earlier lines and two empty lines |
| `MarkerGroup.OpenGroupAt` | src/Modifier/GitignoreModifier.php:29-47 | with the sentinels at their first positions `s` and `e`, `add` cuts the file at exactly those positions |
| `MarkerGroup.EndBeforeStartOverlaps` | src/Modifier/GitignoreModifier.php:45-47 | for a file whose first line is the end sentinel and whose second is the start sentinel, the part before the group is those two lines and the part after it is the whole file again |
| `MarkerGroup.TrailingBlankEndLost` | src/Modifier/GitignoreModifier.php:23-33 | when the name ends in blank space, a glued file whose last line is the end sentinel, with the start sentinel earlier, no longer opens |
| `MarkerGroup.EndOnlyGrows` | src/Modifier/GitignoreModifier.php:23-47 | on a file that is only the end sentinel, the first open appends a fresh group after it; the second open of the written file cuts at the stray end sentinel and the glued file repeats both sentinels, so the two files differ |
| `MarkerGroup.EndOnlyOpens` | src/Modifier/GitignoreModifier.php:29-38 | a file that is only the end sentinel opens onto an empty group appended after a blank line |
| `MarkerGroup.EndOnlyReopens` | src/Modifier/GitignoreModifier.php:29-47 | the file the first `add` writes opens with the part after the group starting at the stray end sentinel |
| `MarkerGroup.EndOnlyRenders` | src/Modifier/GitignoreModifier.php:58-70 | the two files glued back from those cuts, line by line |
| `MarkerGroup.EndOnlyDiffers` | src/Modifier/GitignoreModifier.php:70 | the file the second `add` writes differs from the first |
| `MarkerGroup.RenderParts` | src/Modifier/GitignoreModifier.php:58-70 | the glued file is the implode of the three parts and a final empty line |
| `MarkerGroup.RemoveGroupAt` | src/Modifier/GitignoreModifier.php:77-90 | with the sentinels first at `s` and `e`, `remove` writes exactly the kept lines |
| `MarkerGroup.ContentLinesTrimLast` | src/Modifier/GitignoreModifier.php:23-25 | reading back glued lines gives them unchanged, except the last, which comes back right-trimmed |
| `GitignoreModifier.AppendMissing` | src/Modifier/GitignoreModifier.php:49-56 | the old group is kept as a prefix, every entry ends up in the group, and each appended line is a new entry not already present |
| `GitignoreModifier.AppendMissingOrder` | src/Modifier/GitignoreModifier.php:49-56 | the group grows by exactly the entries it did not hold, each at its first occurrence, in the order given |
| `GitignoreModifier.AppendMissingHolds` | src/Modifier/GitignoreModifier.php:49-56 | afterwards the group holds exactly what it held before and the entries |
| `GitignoreModifier.Add` | src/Modifier/GitignoreModifier.php:16-71 | returns the patched file or the missing-end failure; `added + skipped` equals the number of entries, and `added` equals the number of lines appended to the group |
| `GitignoreModifier.AppendMissingHeld` | src/Modifier/GitignoreModifier.php:50 | entries the group already holds are all skipped |
| `GitignoreModifier.AddLines` | src/Modifier/GitignoreModifier.php:44-66 | the result's lines are: the lines up to the start sentinel, the old group, the new entries, the lines from the end sentinel, and an empty line |
| `GitignoreModifier.AddIdempotent` | src/Modifier/GitignoreModifier.php:16-71 | a second `add` with the same entries appends nothing and returns its input |
| `GitignoreModifier.TrailingSpaceNameNotIdempotent` | src/Modifier/GitignoreModifier.php:16-71 | with a group name ending in blank space, `add` on a file without the group succeeds and a second `add` fails |
| `GitignoreModifier.AddEndsWithOneLineBreak` | src/Modifier/GitignoreModifier.php:23-70 | the result ends with exactly one line break |
| `GitignoreModifier.EndOnlyNotIdempotent` | src/Modifier/GitignoreModifier.php:16-71 | on a file that is only the end sentinel, `add` writes a fresh group after it, and a second `add` writes both sentinels again, so its output differs |
| `GitignoreModifier.EndOnlyRemoveKeepsSentinels` | src/Modifier/GitignoreModifier.php:73-91 | `remove` on the file that first `add` writes keeps both sentinels and doubles a blank line |
| `GitignoreModifier.EndEntryRemoveKeepsSentinel` | src/Modifier/GitignoreModifier.php:16-91 | with the end sentinel as the entry, `add` writes it into the group and `remove` stops at it, keeping the real end sentinel |
| `GitignoreModifier.EndEntryAdds` | src/Modifier/GitignoreModifier.php:16-71 | the file `add` writes for the end sentinel as its one entry |
| `GitignoreModifier.EndEntryOpens` | src/Modifier/GitignoreModifier.php:29-38 | a file without sentinels opens onto a fresh group appended after a blank line |
| `GitignoreModifier.EndEntryRemoves` | src/Modifier/GitignoreModifier.php:73-91 | `remove` on that file cuts at the entry |
| `GitignoreModifier.RemoveAfterCreate` | src/Modifier/GitignoreModifier.php:73-91 | `remove` after an `add` on a file holding neither sentinel, with one-line entries other than the end sentinel, gives the trimmed file followed by two line breaks |
| `GitignoreModifier.WithEntries` | src/Modifier/GitignoreModifier.php:16-71 | the file `add` returns; `GitignoreModifier.Add` is proved equal to it, and `GitignoreModifier.AddLines`, `GitignoreModifier.AddIdempotent` and `GitignoreModifier.AddEndsWithOneLineBreak` state its lines, idempotence and ending |
| `GitignoreModifier.Remove` | src/Modifier/GitignoreModifier.php:73-91 | `remove` is `MarkerGroup.RemoveGroup` with the label `.gitignore`, whose contract gives the failure and the kept lines; `GitignoreModifier.RemoveAfterCreate` relates it to `add` |
| `EnvModifier.Keep` | src/Modifier/EnvModifier.php:54-67 | filtering lines by the `KEY=` prefix never makes the list longer |
| `EnvModifier.KeepMembers` | src/Modifier/EnvModifier.php:54-67 | a line survives the filter exactly when it is in the input and its prefix test has the wanted outcome |
| `EnvModifier.KeepPartition` | src/Modifier/EnvModifier.php:54-67 | the moved lines and the remaining lines together are exactly the original lines, as a multiset |
| `EnvModifier.KeepConcat` | src/Modifier/EnvModifier.php:54-67 | filtering distributes over concatenation |
| `EnvModifier.KeepAny` | src/Modifier/EnvModifier.php:71-81 | some line starts with the prefix exactly when the filter keeps a line |
| `EnvModifier.BareBody` | src/Modifier/EnvModifier.php:143 | the text the pattern tests is the value, or the value without one final `\n` (PCRE `$`) |
| `EnvModifier.EscapeChar` | src/Modifier/EnvModifier.php:147 | an escaped character never contains a newline or carriage return |
| `EnvModifier.Bare` | src/Modifier/EnvModifier.php:143 | the `preg_match` test: a non-empty `EnvModifier.BareBody` of characters from `[A-Za-z0-9_./-]`; `EnvModifier.EnvLineShape` and `EnvModifier.ReadBareLine` use it |
| `EnvModifier.Escape` | src/Modifier/EnvModifier.php:147 | `addcslashes` over the whole value; `EnvModifier.EscapeOneLine` shows it holds no line break and `EnvModifier.UnescapeEscape` that it can be read back |
| `EnvModifier.CreateEnvLine` | src/Modifier/EnvModifier.php:140-149 | `createEnvLine`; `EnvModifier.EnvLineShape` states its `KEY=` shape and line count, and `EnvModifier.ReadCreatedLine` that it reads back to the upper-cased key and the value |
| `EnvModifier.EscapeOneLine` | src/Modifier/EnvModifier.php:147 | a quoted value is a single line |
| `EnvModifier.UnescapeEscape` | src/Modifier/EnvModifier.php:147-148 | unescaping the `addcslashes` output gives back the value |
| `EnvModifier.EnvLineShape` | src/Modifier/EnvModifier.php:140-149 | the line starts with the upper-cased key and `=`, and is one line unless a bare value holds a line break |
| `EnvModifier.ReadCreatedLine` | src/Modifier/EnvModifier.php:140-149 | reading a created line gives back the upper-cased key and the value |
| `EnvModifier.ReadQuotedLine` | src/Modifier/EnvModifier.php:148 | a quoted line reads back to its key and value |
| `EnvModifier.ReadBareLine` | src/Modifier/EnvModifier.php:143-144 | a bare line reads back to its key and value |
| `EnvModifier.StepOverwrite` | src/Modifier/EnvModifier.php:71-84 | with overwrite the entry counts as added, the key has exactly one line (the new one, last in the group), and every other line stays in order |
| `EnvModifier.Step` | src/Modifier/EnvModifier.php:49-87 | one entry of the loop; `EnvModifier.StepOverwrite`, `EnvModifier.StepKeep`, `EnvModifier.StepLinesFrom`, `EnvModifier.StepOutsideKept` and `EnvModifier.StepOfKeepsOutside` state what it does, and `EnvModifier.AddEntry` is proved equal to it |
| `EnvModifier.StepKeep` | src/Modifier/EnvModifier.php:54-87 | without overwrite, the entry is added exactly when no line carries the key; otherwise its lines move into the group, none is lost, and nothing is appended |
| `EnvModifier.StepLinesFrom` | src/Modifier/EnvModifier.php:49-88 | every line after an entry's step was there before, or is the entry's new line |
| `EnvModifier.StepOutsideKept` | src/Modifier/EnvModifier.php:54-67 | lines outside the group stay in place when none carries the key |
| `EnvModifier.Fold` | src/Modifier/EnvModifier.php:49-88 | the loop fails exactly when some key is one PHP stores as an integer; otherwise added plus skipped equals the number of entries |
| `EnvModifier.Next` | src/Modifier/EnvModifier.php:49-51 | one turn fails on an integer key or an earlier failure, and otherwise counts the entry once |
| `EnvModifier.IntKeyFailure` | src/Modifier/EnvModifier.php:50 | the `TypeError` `mb_strtoupper` raises under `strict_types` for a key PHP stores as an integer; `EnvModifier.Fold` and `EnvModifier.Next` fail with exactly it |
| `EnvModifier.FoldLines` | src/Modifier/EnvModifier.php:49-88 | with single-line entries the loop succeeds, and every line it leaves was in the file or is a single line holding `=` |
| `EnvModifier.FoldOutside` | src/Modifier/EnvModifier.php:54-67 | when no line outside the group carries an entry's key, the parts before and after the group are unchanged |
| `EnvModifier.UnkeyedMembers` | src/Modifier/EnvModifier.php:54-67 | a line survives exactly when it carries none of the entries' keys |
| `EnvModifier.UnkeyedConcat` | src/Modifier/EnvModifier.php:54-67 | taking out keyed lines works line by line, so the surviving lines keep their order |
| `EnvModifier.StepOfKeepsOutside` | src/Modifier/EnvModifier.php:54-67 | one entry's step leaves outside the group exactly the lines without its key, in order |
| `EnvModifier.UnkeyedStep` | src/Modifier/EnvModifier.php:54-67 | one more entry's step takes that entry's key out of the lines outside the group |
| `EnvModifier.FoldOutsideUnkeyed` | src/Modifier/EnvModifier.php:49-88 | after the loop, the parts before and after the group are their old lines without those carrying any entry's key, in order |
| `EnvModifier.AddLines` | src/Modifier/EnvModifier.php:90-102 | the result's lines are the parts after the loop plus a final empty line |
| `EnvModifier.WithEnv` | src/Modifier/EnvModifier.php:16-103 | the file `add` returns; `EnvModifier.Add` is proved equal to it, and `EnvModifier.AddLines`, `EnvModifier.FoldOutsideUnkeyed`, `EnvModifier.AddIdempotent` and `EnvModifier.AddEndsWithOneLineBreak` state its lines, outside lines, idempotence and ending |
| `EnvModifier.Remove` | src/Modifier/EnvModifier.php:109-127 | `remove` is `MarkerGroup.RemoveGroup` with the label `env`, whose contract gives the failure and the kept lines; `EnvModifier.RemoveAfterCreate`, `EnvModifier.RemoveFive` and `EnvModifier.RemoveAfterRelocationLosesLine` relate it to `add` |
| `EnvModifier.AddEndsWithOneLineBreak` | src/Modifier/EnvModifier.php:97-102 | the result ends with exactly one line break |
| `EnvModifier.RemoveAfterCreate` | src/Modifier/EnvModifier.php:109-127 | `remove` after an `add` on a file holding neither sentinel gives the trimmed file followed by two line breaks |
| `EnvModifier.AddIdempotent` | src/Modifier/EnvModifier.php:16-103 | a second `add` without overwrite skips every entry and returns its input |
| `EnvModifier.EndOnlyNotIdempotent` | src/Modifier/EnvModifier.php:16-103 | on a file that is only the end sentinel, `add` writes a fresh group after it, and a second `add` writes both sentinels again, so its output differs |
| `EnvModifier.TrailingSpaceNameNotIdempotent` | src/Modifier/EnvModifier.php:16-103 | with a group name ending in blank space, `add` on a file without the group succeeds and a second `add` fails |
| `EnvModifier.RemoveAfterRelocationLosesLine` | src/Modifier/EnvModifier.php:54-127 | a `KEY=` line that `add` moved into the group is deleted by `remove`, which leaves only a line break |
| `EnvModifier.RemoveFive` | src/Modifier/EnvModifier.php:109-127 | `remove` on a file that starts with the group leaves the two empty lines after it |
| `EnvModifier.RelocatedLastLine` | src/Modifier/EnvModifier.php:54-102 | a file ending in a blank line and a key line gets that line moved into the group, and the result ends with two line breaks |
| `EnvModifier.Relocate` | src/Modifier/EnvModifier.php:54-67 | the relocation loop leaves the non-matching lines and appends the matching ones to the group, both in order |
| `EnvModifier.ScanGroup` | src/Modifier/EnvModifier.php:71-81 | with overwrite the group loop drops the key's lines; without it, the loop reports whether the group has one |
| `EnvModifier.AddEntry` | src/Modifier/EnvModifier.php:49-88 | the loop body computes exactly the entry's step |
| `EnvModifier.AddTurn` | src/Modifier/EnvModifier.php:49-51 | one turn of the entry loop is the next state of the fold |
| `EnvModifier.AddAll` | src/Modifier/EnvModifier.php:49-88 | the entry loop computes the fold over all entries |
| `EnvModifier.Add` | src/Modifier/EnvModifier.php:16-103 | returns the patched file or the failure of the fold; added plus skipped equals the number of entries |
| `SymfonyModifier.LeadingSpace` | src/Modifier/SymfonyModifier.php:33-34 | the captured indentation is the longest prefix made only of white space |
| `SymfonyModifier.LeadingSpaceOf` | src/Modifier/SymfonyModifier.php:33-34 | the indentation of an indented line is its indent |
| `SymfonyModifier.Indentation` | src/Modifier/SymfonyModifier.php:31-35 | the leading white space of the line after `return [`, or `""` when there is none; `SymfonyModifier.InsertedIndentation` shows an insertion keeps it |
| `SymfonyModifier.BundleLine` | src/Modifier/SymfonyModifier.php:37 | the indentation, the class name and `::class => ['all' => true],`; `SymfonyModifier.RegisteredAgain` and `SymfonyModifier.AddIdempotent` show a second call finds it |
| `SymfonyModifier.FirstGreater` | src/Modifier/SymfonyModifier.php:47-52 | finds the first block line that sorts after the new line, and `None` exactly when there is none |
| `SymfonyModifier.InsertIndex` | src/Modifier/SymfonyModifier.php:46-52 | the index lies after `return [`; when some block line sorts after the new line, it is the first such line; when none does, it is the line right after `return [` |
| `SymfonyModifier.Inserted` | src/Modifier/SymfonyModifier.php:55 | `array_splice` with length 0 shifts the later lines up by one and puts the new line at the index |
| `SymfonyModifier.BundleCheck` | src/Modifier/SymfonyModifier.php:60-71 | passes exactly when the class exists and implements the bundle interface |
| `SymfonyModifier.Locate` | src/Modifier/SymfonyModifier.php:20-28 | succeeds exactly when both `return [` and `];` are lines, and returns their first positions |
| `SymfonyModifier.Registration` | src/Modifier/SymfonyModifier.php:30-52 | succeeds exactly when both delimiters are present; the insertion index lies after `return [` |
| `SymfonyModifier.BundleAdded` | src/Modifier/SymfonyModifier.php:13-58 | fails exactly when the class check fails or a delimiter is missing; returns the content unchanged when the bundle line is already present |
| `SymfonyModifier.FindInsertIndex` | src/Modifier/SymfonyModifier.php:46-52 | the search loop with `break` computes the insertion index |
| `SymfonyModifier.AddToBundle` | src/Modifier/SymfonyModifier.php:13-58 | the method computes the patched file or the failure |
| `SymfonyModifier.AddedLines` | src/Modifier/SymfonyModifier.php:37-57 | either the content comes back unchanged, or the new lines are the old lines with exactly the bundle line inserted after `return [` |
| `SymfonyModifier.InsertedIndentation` | src/Modifier/SymfonyModifier.php:31-37 | inserting the bundle line does not change the indentation read from the line after `return [` |
| `SymfonyModifier.RegisteredAgain` | src/Modifier/SymfonyModifier.php:37-42 | after the insertion, the same bundle line is computed again and is found among the lines |
| `SymfonyModifier.AddIdempotent` | src/Modifier/SymfonyModifier.php:37-42 | a second `addToBundle` with the same class returns its input |
| `SymfonyModifier.InsertSorted` | src/Modifier/SymfonyModifier.php:45-55 | inserting before the first greater line keeps a sorted block sorted |
| `SymfonyModifier.InsertKeepsSorted` | src/Modifier/SymfonyModifier.php:45-55 | if the block is sorted and some line sorts after the new one, the block stays sorted after the insertion |
| `SymfonyModifier.GreatestGoesFirst` | src/Modifier/SymfonyModifier.php:46-52 | a sample: in the sorted one-bundle block `A`, bundle `B` is inserted first, and the block is no longer sorted |
| `JsonModifier.Lookup` | src/Modifier/JsonModifier.php:16 | a key is found exactly when the array has it |
| `JsonModifier.LookupAssign` | src/Modifier/JsonModifier.php:17 | after assigning a key, that key holds the new value and every other key what it held |
| `JsonModifier.Assign` | src/Modifier/JsonModifier.php:17 | `$a[$k] = $v`; `JsonModifier.LookupAssign`, `JsonModifier.AssignSame` and `JsonModifier.AssignTwice` state its effect on every key |
| `JsonModifier.MaxIntKey` | src/Modifier/JsonModifier.php:30 | `None` when there are no integer keys, otherwise the largest integer key |
| `JsonModifier.Append` | src/Modifier/JsonModifier.php:30 | `$a[] = x` fails exactly when some integer key is at least PHP_INT_MAX; otherwise it keeps the array and adds `x` under a key greater than every integer key, which is 0 when there is none and otherwise one more than an existing key |
| `JsonModifier.Merged` | src/Modifier/JsonModifier.php:26-32 | the merge fails only with the append failure |
| `JsonModifier.MergeItem` | src/Modifier/JsonModifier.php:26-31 | one round of the merge loop; `JsonModifier.Merged`, `JsonModifier.MergedKeeps`, `JsonModifier.MergedStrings` and `JsonModifier.MergedInts` state the loop it makes up |
| `JsonModifier.MergeInto` | src/Modifier/JsonModifier.php:26-32 | the merge loop computes the merge of all entries |
| `JsonModifier.MergedStaysFailed` | src/Modifier/JsonModifier.php:26-32 | once a merge round fails, the whole merge fails |
| `JsonModifier.Wrap` | src/Modifier/JsonModifier.php:22-25 | a scalar value is merged as the one-element list under key 0 |
| `JsonModifier.Container` | src/Modifier/JsonModifier.php:16-19 | a path step fails exactly on a scalar root other than `null` and `false` |
| `JsonModifier.Child` | src/Modifier/JsonModifier.php:16-19 | the walk descends into an array or into `null`, never into another scalar |
| `JsonModifier.Leaf` | src/Modifier/JsonModifier.php:22-35 | the end of the path fails only when an append does |
| `JsonModifier.Put` | src/Modifier/JsonModifier.php:13-35 | a scalar root fails; otherwise the result is an array, or the append failure |
| `JsonModifier.Walked` | src/Modifier/JsonModifier.php:16-18 | a path step that sets a key holding no array to `null`; `JsonModifier.PutShape` and `JsonModifier.PutOffPath` state what the walk changes |
| `JsonModifier.Below` | src/Modifier/JsonModifier.php:15-35 | what the first path key holds afterwards; it fails only with the append failure, and `JsonModifier.PutStores` states where the value ends up |
| `JsonModifier.PathKeys` | src/Modifier/JsonModifier.php:13 | one key per segment of the path split on `.` |
| `JsonModifier.PutAt` | src/Modifier/JsonModifier.php:14-35 | the reference walk and the merge compute the patched document |
| `JsonModifier.Add` | src/Modifier/JsonModifier.php:9-40 | `add` on the decoded document |
| `JsonModifier.Added` | src/Modifier/JsonModifier.php:9-36 | `add` on the decoded document; `JsonModifier.Add` is proved equal to it, and `JsonModifier.PutStores`, `JsonModifier.PutOffPath` and `JsonModifier.PutIdempotent` state its effect |
| `JsonModifier.PutShape` | src/Modifier/JsonModifier.php:15-20 | at each level, the path's key holds the patched child and every other key what it held |
| `JsonModifier.PutStores` | src/Modifier/JsonModifier.php:22-35 | afterwards the path leads to the value, or to the array that was there with the value merged in |
| `JsonModifier.PutOffPath` | src/Modifier/JsonModifier.php:14-35 | any path that leaves the patched path somewhere leads to what it led to before |
| `JsonModifier.AssignSame` | src/Modifier/JsonModifier.php:28 | assigning a key the value it holds changes nothing |
| `JsonModifier.AssignTwice` | src/Modifier/JsonModifier.php:28 | assigning a key twice is the same as assigning the second value |
| `JsonModifier.MergeSettled` | src/Modifier/JsonModifier.php:26-32 | merging entries the array already holds changes nothing |
| `JsonModifier.MergedKeeps` | src/Modifier/JsonModifier.php:26-32 | a key no string entry of the value names keeps its value through the merge |
| `JsonModifier.MergedStrings` | src/Modifier/JsonModifier.php:27-28 | after the merge, every string key of the value holds the value's entry |
| `JsonModifier.MergedInts` | src/Modifier/JsonModifier.php:29-31 | after the merge, the array holds every integer-keyed item of the value |
| `JsonModifier.MergedSettled` | src/Modifier/JsonModifier.php:26-32 | after merging a value with only string keys or only integer keys, the array holds all of it |
| `JsonModifier.LeafIdempotent` | src/Modifier/JsonModifier.php:22-35 | reaching the end of the path a second time leaves it as it is |
| `JsonModifier.PutIdempotent` | src/Modifier/JsonModifier.php:15-35 | a second `add` of the same value at the same path returns the same document |
| `JsonModifier.MixedNotIdempotent` | src/Modifier/JsonModifier.php:26-32 | a value with both kinds of key gives a different document on the second `add` |
| `JsonModifier.NewKeyInEmpty` | src/Modifier/JsonModifier.php:15-35 | a sample: adding `newKey` to the empty object stores the value under that key |
| `FileResolver.Candidates` | src/Service/FileResolver.php:17-30 | three candidates, the first being the path as given |
| `FileResolver.LastExisting` | src/Service/FileResolver.php:17-30 | the last candidate that is a regular file, and `None` exactly when none is |
| `FileResolver.Resolve` | src/Service/FileResolver.php:15-41 | a result comes from an existing candidate and, with the scope check, starts with the package path and a separator |
| `FileResolver.Probe` | src/Service/FileResolver.php:18-30 | one `file_exists`/`is_file` probe that overwrites the answer with `realpath`; `FileResolver.ResolveLastWins` shows the last existing candidate decides |
| `FileResolver.ResolveLastWins` | src/Service/FileResolver.php:17-38 | the last existing candidate wins; no candidate gives "File not found"; otherwise the only failure is the scope check |
| `FileResolver.ResolveOnRealSystem` | src/Service/FileResolver.php:17-40 | on a coherent file system every failure is an `InvalidArgumentException`, and every result is a regular file |
| `FileResolver.UnscopedResolveSucceeds` | src/FileResolver.php:12-38 | without the scope check, the older copy succeeds exactly when some candidate exists |
| `FileResolver.ResolveInProject` | src/Service/FileResolver.php:43-64 | succeeds exactly when `realpath` answers a path under the project that is not under `projectPath` + `vendor` and is a regular file |
| `FileResolver.VendorFilePasses` | src/Service/FileResolver.php:54-56 | a file inside the project's `vendor` directory passes the vendor check |
| `FileResolver.FirstExisting` | src/Service/FileResolver.php:105-109 | the first path that is a regular file, and `None` exactly when none is |
| `FileResolver.ByPriority` | src/Service/FileResolver.php:103-112 | fails with `InvalidArgumentException` exactly when no path exists; a result does not end in a separator |
| `FileResolver.ByPriorityOnRealSystem` | src/Service/FileResolver.php:103-112 | on a coherent file system: succeeds exactly when some path exists, otherwise fails naming all the paths |
| `FileResolver.ByPriorityFirstWins` | src/Service/FileResolver.php:105-109 | the earliest path that is a regular file decides the answer, whatever later paths exist: its `realpath` with trailing separators trimmed, or the engine error when `realpath` answers `false` |
| `FileResolver.ResolveFileByPriority` | src/Service/FileResolver.php:103-112 | the loop with early return computes the priority search: the earliest regular file wins, its `realpath` trimmed of trailing separators, and when no path is a file the failure names all of them |
| `FileResolver.Pairs` | src/Service/FileResolver.php:91-94 | one write per buffered path |
| `FileResolver.PairsAt` | src/Service/FileResolver.php:91-94 | the i-th write is of the i-th path in insertion order, with its buffered content |
| `FileResolver.OverlayAt` | src/Service/FileResolver.php:91-94 | after the writes, each written path holds its content and every other file keeps its own |
| `FileResolver.Overlay` | src/Service/FileResolver.php:91-94 | the disk after the writes in order; `FileResolver.OverlayAt` and `FileResolver.OverlayAll` state it is the disk overridden by the buffer |
| `FileResolver.OverlayAll` | src/Service/FileResolver.php:91-94 | writing every buffered path gives the disk overridden by the buffer |
| `FileResolver.WriteAll` | src/Service/FileResolver.php:91-94 | the write loop logs the pairs in order and leaves the overlaid disk |
| `FileResolver.BufferedFiles.constructor` | src/Service/FileResolver.php:13 | the buffer starts empty |
| `FileResolver.BufferedFiles.LoadFile` | src/Service/FileResolver.php:66-80 | a buffered path returns the buffer without reading the disk; otherwise a missing file fails and an existing one is buffered at the end of the order and returned |
| `FileResolver.BufferedFiles.StoreFileModification` | src/Service/FileResolver.php:82-86 | replaces the buffered content without touching the disk; a new path goes last in the order |
| `FileResolver.BufferedFiles.WriteBufferedFilesToDisk` | src/Service/FileResolver.php:88-96 | writes every buffered file, loaded or modified, in first-insertion order with its buffered content; the disk becomes the old disk overridden by the buffer, and the buffer is emptied |
| `FileResolver.StoreThenLoad` | src/Service/FileResolver.php:66-86 | a stored modification is what a later load returns |
| `SystemValidator.CheckForSystem` | src/Service/SystemValidator.php:24-40 | no system gives false; `directory` checks for a directory and `file` for a regular file at project path + indicator; a missing type is an engine error and any other type raises "Unknown indicator type" |
| `SystemValidator.ValidateSystem` | src/Service/SystemValidator.php:13-22 | no system passes; otherwise it passes exactly when the check is true, and a false check raises the "does not appear to be" message |
| `SystemValidator.EnvTargetsPass` | src/Enum/EnvTargetEnum.php:12-15 | validation is a no-op for every env target |
| `SystemValidator.CopyTargetGate` | src/Enum/CopyTargetEnum.php:16-23 | a copy target tied to a system passes exactly when that system's indicator exists as the named kind |
| `SystemValidator.JsonTargetsFail` | src/Enum/JsonTargetEnum.php:12-18 | asking a JSON target for its system fails |
| `Enums.KnownSystem.Value` | src/Enum/KnownSystemsEnum.php:8-10 | no system has an empty value |
| `Enums.KnownSystem.IndicatorFile` | src/Enum/KnownSystemsEnum.php:12-19 | every indicator starts with a single `/`, so it names a path below the project |
| `Enums.SystemFrom` | src/Enum/KnownSystemsEnum.php:6-10 | a value read back names the system that has it |
| `Enums.SystemValueRoundTrip` | src/Enum/KnownSystemsEnum.php:8-10 | each system's value reads back as that system, so the values are distinct |
| `Enums.IndicatorsDistinct` | src/Enum/KnownSystemsEnum.php:14-18 | no two systems share an indicator path |
| `Enums.CopyTarget.Value` | src/Enum/CopyTargetEnum.php:8-14 | every value is a non-empty relative path with no leading or trailing `/` |
| `Enums.CopyTarget.System` | src/Enum/CopyTargetEnum.php:16-23 | the two DDEV targets need DDEV, the three Symfony targets need Symfony, and `public` and `.copycat` need nothing |
| `Enums.CopyTargetFrom` | src/Enum/CopyTargetEnum.php:6-14 | a value read back names the target that has it |
| `Enums.CopyTargetRoundTrip` | src/Enum/CopyTargetEnum.php:8-14 | each target's value reads back as that target, so the values are distinct |
| `Enums.JsonTarget.System` | src/Enum/JsonTargetEnum.php:12-18 | fails with an engine error, because the case it names does not exist |
| `Enums.JsonTarget.AllowedPaths` | src/Enum/JsonTargetEnum.php:20-28 | `composer.json` may be patched under `extra` only |
| `Enums.JsonTarget.CanRemoveValues` | src/Enum/JsonTargetEnum.php:30-36 | `composer.json` allows removal |
| `Enums.EnvTarget.Value` | src/Enum/EnvTargetEnum.php:8-10 | every env target is a `.env.` file |
| `Enums.EnvTarget.System` | src/Enum/EnvTargetEnum.php:12-15 | no env target needs a system |
| `Dto.PackageInfo.Create` | src/Dto/PackageInfo.php:9-20 | the namespace loses its trailing backslashes and the three paths their trailing `/` and `\`, and nothing else; the Composer name is kept |
| `Dto.CreateIdempotent` | src/Dto/PackageInfo.php:16-19 | building a package info again from the getters' values gives the same one |
| `YamlModifier.Indentation` | src/Modifier/YamlModifier.php:8-13 | the result is `4 * max(0, level)` spaces |
| `YamlModifier.IndentationAdds` | src/Modifier/YamlModifier.php:12 | the indentation for `a + b` is the indentation for `a` followed by that for `b` |
| `YamlModifier.NegativeLevel` | src/Modifier/YamlModifier.php:12 | a negative level gives the empty string |

## Left out

- All `echo` output, including the added/skipped summary lines. `add` returns its counts instead.
- `mb_strtoupper` is modelled on ASCII letters only. Other letters are left as they are.
- `strcmp` is modelled as order on code units, not on the bytes of a UTF-8 encoding.
- `json_decode` and `json_encode` are left out. `JsonModifier.Add` works on the decoded document, and the document model has no floats.
- `in_array` in the JSON merge is modelled as structural equality, not PHP's loose comparison.
- The env patcher's entries hold string values only. Other PHP types passed as values are not modelled.
- `realpath`, `file_exists`, `is_file` and `is_dir` are answers stored in a file-system value. Symlinks and relative-path normalisation are not modelled.
- The buffered file store keeps its disk as a map of regular files. That map is separate from the file-system value the resolvers query.
- `file_get_contents` and `file_put_contents` failures are not modelled: reads and writes always succeed.
- `SymfonyModifier::checkIfBundleClassIsValid` uses `class_exists` and reflection. Its two answers are parameters.
- The exact text of engine errors (`TypeError`, undefined constant) is approximate.
- `FileResolver::getProjectRootDir` and `FileResolver::resolveConfigFile` read `__DIR__` and are not modelled.
- The Copycat directive services are wrappers that call the patchers. They are not part of this model.
- The older `PhpCopycat` classes are not part of this model, except for its copy of `resolve`.
- `FileCopy`, `NamespaceCrawler`, `ConfigLoader` and `Runner` are not part of this model.
- `KnownSystemsEnum::getIndicatorType` does not exist in the source, so the indicator type is a parameter of the validator.
- The `createIfNotExists` flag of `resolveInProject` is never read, so it is not a parameter.
- `EnvModifier.AddIdempotent`: stated without overwrite only. It also requires that no line outside the group carries an entry's key, because relocating such a line can change the file's tail (see `EnvModifier.RelocatedLastLine`). It requires a group name that is not empty, does not end in blank space, and holds no line break and no `=`; with a trailing blank the second call fails (`EnvModifier.TrailingSpaceNameNotIdempotent`). Keys must be strings without line breaks, and a bare value must not hold a line break. The file must be well placed: either it holds neither sentinel, or it holds both and its first end sentinel comes after its first start sentinel. A file holding only the end sentinel is excluded, because the second call writes both sentinels again (`EnvModifier.EndOnlyNotIdempotent`).
- `EnvModifier.AddEndsWithOneLineBreak`: requires that no line outside the group carries an entry's key. Without that, the result can end in two line breaks. It also requires string keys without line breaks and no bare value holding a line break.
- `GitignoreModifier.RemoveAfterCreate`: requires a file holding neither sentinel, a group name without line breaks, and entries that are single lines other than the end sentinel. On a file holding only the end sentinel, `remove` keeps both sentinels (`GitignoreModifier.EndOnlyRemoveKeepsSentinels`). With the end sentinel as an entry, `remove` stops at that entry and keeps the real end sentinel (`GitignoreModifier.EndEntryRemoveKeepsSentinel`).
- `EnvModifier.RemoveAfterCreate`: requires that no line of the file carries an entry's key, a group name without line breaks and `=`, a file holding neither sentinel, string keys without line breaks, and no bare value holding a line break. On a file holding only the end sentinel, `remove` keeps both sentinels (`GitignoreModifier.EndOnlyRemoveKeepsSentinels`; both patchers share `MarkerGroup.RemoveGroup`). When `add` moves a line into the new group, `remove` deletes that line too (`EnvModifier.RemoveAfterRelocationLosesLine`).
- `GitignoreModifier.AddIdempotent`: requires entries that are single lines other than the end sentinel. The file must be well placed: either it holds neither sentinel, or it holds both and its first end sentinel comes after its first start sentinel. A file holding only the end sentinel is excluded, because the second call writes both sentinels again (`GitignoreModifier.EndOnlyNotIdempotent`). It also requires a group name that is not empty, does not end in blank space, and holds no line break; with a trailing blank the second call fails (`GitignoreModifier.TrailingSpaceNameNotIdempotent`).
- `JsonModifier.PutIdempotent`: stated for scalar values and for values whose keys are all strings or all integers. A value with both kinds of key is not idempotent (`JsonModifier.MixedNotIdempotent`).
- `SymfonyModifier.InsertKeepsSorted`: stated only when some entry sorts after the new line. Otherwise the line goes to the top of the block (`SymfonyModifier.InsertIndex`, `SymfonyModifier.GreatestGoesFirst`).
- `FileResolver.BufferedFiles.WriteBufferedFilesToDisk`: paths stay strings. PHP stores a decimal-integer path such as `7` as an integer array key. `foreach` then hands `file_put_contents` an integer, which raises a `TypeError` under `strict_types`; the model writes the file instead.
- JSON keys: the document model does not force canonical keys. A `Str` key holding an integer form such as `"5"`, or a repeated key, cannot come out of `json_decode`, but the type allows it. Lemmas that need distinct keys require them.
