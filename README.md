# sync_configs, modelled in Dafny

`scripts/sync_configs.py` keeps copies of configuration files in step with their
originals. For each (source, destination) pair of its pair list it asks whether
the destination is stale (`file_is_newer`). If it is, the script computes a diff
(`file_diff`). Each pair with a non-empty diff goes into an update batch. If the
batch is not empty, the script asks for confirmation, or takes it from the
`-y/--yes` flag. On confirmation it creates each destination's parent directory
and copies the source over it with `shutil.copy2`, which preserves metadata.

This project models that logic over an abstract filesystem:

- `SyncConfigs.FileSystem` maps each file path to a `FileRecord`, and holds a set of directories.
- A `FileRecord` has an integer mtime, a flag for "can be opened and read without an `OSError`", and the text.
- The pair list is a parameter (`seq<FilePair>`). So is the answer typed at the prompt.

Files:

- `pytext.dfy` (module `PyText`): `str.strip()` and `str.lower()` over ASCII, and `readlines()` with its inverse `"".join`.
- `ospath.dfy` (module `OsPath`): `os.path.dirname` and `os.makedirs`, with directories as a set of path strings.
- `sync_configs.dfy` (module `SyncConfigs`): `file_is_newer`, `file_diff` and `sync_files`.
  - `SelectBatch` models the first loop; its spec function is `Batch`.
  - `CopyBatch` models the copy loop; its spec function is `ApplyAll`.
  - `SyncFiles` is the whole run.

`file_diff` returns a `DiffText` that stands for its string. The three cases are:

- the `""` returned on a read error;
- the source text, returned verbatim;
- a call to `difflib.unified_diff`, recorded by its arguments.

`IsEmpty` is the script's `not diff`. For the unified case it uses difflib's behaviour as a given: the diff is empty exactly when the two line lists are equal. Because `readlines` can be inverted, two readable files then give an empty diff exactly when their texts are equal (`FileDiffEmptiness`).

## Model

| member | source | states |
|---|---|---|
| `SyncConfigs.FileIsNewer` | scripts/sync_configs.py:65-90 | a missing source is never newer, whatever the destination; a missing destination makes an existing source newer; otherwise the source's mtime must be strictly greater |
| `SyncConfigs.EqualMtimesNotStale` | scripts/sync_configs.py:90 | two existing files with equal mtimes are not stale, whatever their contents |
| `SyncConfigs.FileDiffAsWritten` | scripts/sync_configs.py:93-130 | as written: a verbatim result only for a readable source with no destination, and then it is the source's text; a unified diff only for two readable files, with the source's lines as the first sequence and the destination's as the second, labelled destination then source |
| `SyncConfigs.FileDiff` | scripts/sync_configs.py:93-130 | corrected form of line 129 (see Findings), used by the rest of the model: a verbatim result only for a readable source with no destination, and then it is the source's text; a unified diff only for two readable files, diffing the destination's lines to the source's lines, labelled destination then source |
| `SyncConfigs.IsEmpty` | scripts/sync_configs.py:152 | definition, no contract: the `if diff:` test, where a read error's `""` and an empty verbatim text are empty, and a unified diff, by difflib's behaviour taken as a given, is empty exactly when its two line lists are equal |
| `SyncConfigs.FileDiffEmptiness` | scripts/sync_configs.py:112-130 | the diff is empty iff the source is missing or unreadable, or the destination exists and is unreadable, or the destination is missing and the source is empty, or both files hold the same text |
| `SyncConfigs.DiffSidesSwappedAsWritten` | scripts/sync_configs.py:129 | as written, the side labelled with the destination's path carries the destination's lines only when the two texts are equal |
| `SyncConfigs.DiffSidesSwappedExample` | scripts/sync_configs.py:129 | with source "a\n" and destination "b\n", the as-written diff labels the source's lines with the destination's name |
| `SyncConfigs.DiffSidesMatchLabels` | scripts/sync_configs.py:129 | corrected, each side of the unified diff carries the lines of the file its label names |
| `SyncConfigs.DiffEmptinessUnaffected` | scripts/sync_configs.py:129-130 | swapping the line lists does not change whether the diff is empty, so the batch is the same either way |
| `SyncConfigs.NeedsUpdate` | scripts/sync_configs.py:149-152 | definition, no contract: `file_is_newer(src, dst)` holds and `file_diff(src, dst)` is not empty; its meaning is stated by `NeedsUpdateMeans` |
| `SyncConfigs.NeedsUpdateMeans` | scripts/sync_configs.py:148-159 | a pair enters the batch iff its source exists and is readable, and either the destination is missing and the source is not empty, or the destination is readable, strictly older and holds a different text |
| `SyncConfigs.NeedsUpdateLocal` | scripts/sync_configs.py:148-150 | a pair's decision depends only on the files at its own two paths |
| `SyncConfigs.Batch` | scripts/sync_configs.py:146-159 | every batched pair comes from the pair list and needs an update (so its source exists); the batch is no longer than the list |
| `SyncConfigs.BatchComplete` | scripts/sync_configs.py:148-155 | every listed pair that needs an update is in the batch |
| `SyncConfigs.BatchAppend` | scripts/sync_configs.py:148-155 | the batch keeps list order: the batch of a concatenation is the concatenation of the batches |
| `SyncConfigs.BatchOne` | scripts/sync_configs.py:149-159 | a one-pair list yields that pair iff it needs an update, else nothing |
| `SyncConfigs.BatchEmpty` | scripts/sync_configs.py:161-163 | the batch is empty iff no listed pair needs an update |
| `SyncConfigs.SelectBatch` | scripts/sync_configs.py:146-159 | the first loop builds exactly `Batch` of the pair list |
| `SyncConfigs.Normalise` | scripts/sync_configs.py:170-171 | definition, no contract: the answer after `.strip().lower()` |
| `SyncConfigs.Confirmed` | scripts/sync_configs.py:165-174 | definition, no contract: the run goes ahead iff auto-approval is on (the answer then counts as "yes") or the normalised answer is "y" or "yes"; the lemmas below state what it accepts |
| `SyncConfigs.ConfirmedIgnoresPadding` | scripts/sync_configs.py:168-174 | whitespace before or after the answer does not change whether it confirms |
| `SyncConfigs.ConfirmedIgnoresCase` | scripts/sync_configs.py:168-174 | two answers equal up to ASCII letter case both confirm or both cancel |
| `SyncConfigs.EmptyAnswerCancels` | scripts/sync_configs.py:174-180 | the empty answer cancels |
| `SyncConfigs.LetterAnswer` | scripts/sync_configs.py:168-174 | a one-character non-blank answer confirms iff it is y or Y, so "n" cancels |
| `SyncConfigs.UpperYesConfirms` | scripts/sync_configs.py:168-174 | "YES" confirms |
| `SyncConfigs.Copy2` | scripts/sync_configs.py:177 | the destination receives the source's whole record: its text, its mtime and its `readable` flag (the model's stand-in for the permission bits `copy2` copies); the destination is added to the files; every other path is unchanged |
| `SyncConfigs.CopyPair` | scripts/sync_configs.py:176-177 | definition, no contract: one iteration of the copy loop, the parent-directory step (`MakeDirs` of the dirname) and then `Copy2` |
| `SyncConfigs.ApplyAll` | scripts/sync_configs.py:175-178 | definition, no contract: `CopyPair` applied to each batched pair, first to last; its effect is stated by the lemmas below |
| `SyncConfigs.ApplyAllKeys` | scripts/sync_configs.py:175-178 | after the copy loop the files are exactly the old ones plus the batch's destinations |
| `SyncConfigs.ApplyAllOutside` | scripts/sync_configs.py:175-178 | a path that is no destination of the batch is unchanged by the copy loop |
| `SyncConfigs.ApplyAllKeepsOthers` | scripts/sync_configs.py:175-178 | the copy loop changes no path outside the batch's destinations; afterwards the files are the old ones plus the destinations |
| `SyncConfigs.ApplyAllDirs` | scripts/sync_configs.py:176 | the directories after the loop are the old ones plus the parent chains of the batch's destinations |
| `SyncConfigs.ApplyAllCopies` | scripts/sync_configs.py:175-178 | for a well-formed batch, each destination ends with its source's original record |
| `SyncConfigs.ApplyAllEffect` | scripts/sync_configs.py:175-178 | the four facts above together: the whole new state after the copy loop |
| `SyncConfigs.AddedDirsHoldParents` | scripts/sync_configs.py:176 | after the loop, every batched destination's parent directory is present (or is the current directory) |
| `SyncConfigs.CopyBatch` | scripts/sync_configs.py:175-178 | the copy loop computes `ApplyAll` of the batch, copying in batch order |
| `SyncConfigs.SecondRunFindsNothing` | scripts/sync_configs.py:146-178 | after a confirmed run on a well-formed pair list, an immediate second run builds an empty batch |
| `SyncConfigs.SyncFiles` | scripts/sync_configs.py:133-180 | with the corrected directory step of line 176 (see Findings): the batch is `Batch`; the prompt is shown iff the batch is non-empty and auto-approve is off. Empty batch: all up to date. Otherwise the run confirms iff auto-approve is on or the normalised answer is y/yes, and cancels on anything else. Nothing changes unless the batch is copied. On a well-formed list: each destination gets its source's record, its parent is present, no other path changes, and a second run finds nothing |
| `PyText.StripLeft` | scripts/sync_configs.py:170 | the result is a suffix of the input; only whitespace was dropped; it does not start with whitespace |
| `PyText.StripRight` | scripts/sync_configs.py:170 | the result is a prefix of the input; only whitespace was dropped; it does not end with whitespace |
| `PyText.Strip` | scripts/sync_configs.py:170 | definition, no contract: `str.strip()` as `rstrip` after `lstrip`, stated by `StripLeft`, `StripRight` and the lemmas below |
| `PyText.StripLeftPaddedBoth` | scripts/sync_configs.py:170 | left-stripping a whitespace-padded string drops the left padding and keeps the right padding, unless the inner string is all whitespace |
| `PyText.StripPadded` | scripts/sync_configs.py:170 | padding a string with whitespace on both sides does not change its strip |
| `PyText.StripLower` | scripts/sync_configs.py:170-171 | stripping and lower-casing commute |
| `PyText.LowerChar` | scripts/sync_configs.py:171 | an ASCII upper-case letter maps to the letter 32 code points up; every other character is kept |
| `PyText.Lower` | scripts/sync_configs.py:171 | the result has the input's length and lower-cases it character by character |
| `PyText.FirstLineLength` | scripts/sync_configs.py:114 | the first line is non-empty, has no '\n' before its end, and ends with '\n' unless it reaches the end of the text |
| `PyText.Lines` | scripts/sync_configs.py:114 | the read lines are non-empty; every line but the last ends with '\n'; no line has a '\n' before its end |
| `PyText.Join` | scripts/sync_configs.py:120-130 | definition, no contract: `"".join(...)`, the concatenation of the strings in order; `JoinLines` states that it inverts `Lines` |
| `PyText.JoinLines` | scripts/sync_configs.py:120 | joining the read lines gives back the text, so the verbatim result is the source's text |
| `PyText.LinesInjective` | scripts/sync_configs.py:129-130 | two texts with equal line lists are equal |
| `OsPath.SlashEnd` | scripts/sync_configs.py:176 | the index just past the last '/', or 0; no '/' follows it |
| `OsPath.TrimSlashes` | scripts/sync_configs.py:176 | the result is a prefix; only slashes were dropped; it does not end with '/' |
| `OsPath.Dirname` | scripts/sync_configs.py:176 | the result is a prefix of the path up to its last '/' at most, and is empty iff the path has no '/'; only slashes lie between its end and the last '/'; if it ends with '/', it is all slashes and is the whole head up to the last '/' (so `"//a"` gives `"//"`) |
| `OsPath.DirChain` | scripts/sync_configs.py:176 | a non-empty directory is in its chain; every directory in the chain is a non-empty prefix of it |
| `OsPath.DirChainClosed` | scripts/sync_configs.py:176 | the chain holds the non-empty parent of each of its members, so together with `DirChain` every intermediate directory of the name is in it |
| `OsPath.MakeDirs` | scripts/sync_configs.py:176 | corrected form of line 176 (see Findings), used by the rest of the model: existing directories are kept; the whole chain `DirChain` of the name is present afterwards, so a non-empty name and all its intermediate directories exist; every new directory is a non-empty prefix of the name; an empty name changes nothing |
| `OsPath.MakeDirsAsWritten` | scripts/sync_configs.py:176 | definition, no contract: line 176 as written, where an empty name gives `NotFound` (the FileNotFoundError of `os.makedirs("")`) and any other name adds its chain; the as-written half of the second Findings row, stated by `TopLevelPathFailsAsWritten` |
| `OsPath.MakeDirsMakesParent` | scripts/sync_configs.py:176 | after the parent-directory step for a path, its parent is present |
| `OsPath.TopLevelPathFailsAsWritten` | scripts/sync_configs.py:176 | as written, a destination with no '/' makes `os.makedirs("")` fail |
| `OsPath.TopLevelPathCreatesNothing` | scripts/sync_configs.py:176 | corrected, a destination with no '/' creates no directory, and its parent (the current directory) is present |

## Findings

| source | as written | input that shows it | evidently intended | confidence | as-written member | corrected member |
|---|---|---|---|---|---|---|
| scripts/sync_configs.py:129 | the source's lines are the first sequence of `unified_diff`, but the first label is the destination's path | source "a\n", destination "b\n": the side labelled with the destination's name lists the source's line "a\n" | the destination's lines first, so the diff shows what the update will change | medium, not executed; the batch (empty or not) is the same either way | `SyncConfigs.DiffSidesSwappedAsWritten` | `SyncConfigs.DiffSidesMatchLabels` |
| scripts/sync_configs.py:176 | `os.makedirs(os.path.dirname(dst), exist_ok=True)` runs for every destination, even when the dirname is empty | a pair whose destination has no '/' (for example "b.txt") in the batch, confirmed: `os.makedirs("")` raises FileNotFoundError before the copy | skip the directory step when the dirname is empty (the current directory) | high for the pair list as a parameter, not executed; the shipped pair list puts every destination under `configs/` and never reaches it | `OsPath.TopLevelPathFailsAsWritten` | `OsPath.TopLevelPathCreatesNothing` |

The rest of the model uses the corrected forms: `FileDiff` and `MakeDirs`.

## Left out

- Console output: the log lines and their markers (`[SKIP]`, `[OK]`, `[DIFF]`, `[UPDATED]`, `[RESULT]`), the prompt's text and the diff printed to the log. They have no effect on the filesystem. `SyncFiles` returns the batch, whether it prompted, and an `Outcome` in their place.
- `main` and `argparse`: the `-y/--yes` flag is the `autoApprove` parameter.
- `input()`: the answer is the `answer` parameter. An end-of-input error at the prompt is not modelled.
- The text of the unified diff and its format come from `difflib`, which is not part of this model. Only the emptiness fact is used; `IsEmpty` encodes it as a given.
- Real OS calls (`os.path.exists`, `getmtime`, `open`, `shutil.copy2`, `os.makedirs`). The filesystem value stands for them. `readable == false` stands only for an `OSError` when opening or reading a file, which `file_diff` turns into `""`. Text-mode newline translation is not modelled: `content` is the text as read.
- UTF-8 decoding failures. `file_diff` catches only `OSError`/`IOError` (lines 115 and 125), so a non-UTF-8 source of a stale pair (one `file_is_newer` lets through), or the existing non-UTF-8 destination of a stale pair whose source was read, raises `UnicodeDecodeError` out of `file_diff` and out of `sync_files`. The run then stops in the first loop, with no prompt and no copies. The model has no such file: every record's `content` is decoded text.
- Floating-point mtimes: mtimes are integers. `copy2` copies them exactly, which is all the idempotence proof needs.
- Copy failures while the batch is being copied (unwritable destination, full disk), with the partial result they leave. Also left out: races between the check and the copy, and concurrent runs.
- `os.makedirs` failing because a path component is a regular file. Also left out: a destination that is an existing directory, and `os.path.exists` being true for a directory. Files and directories are kept as separate namespaces.
- `DirChain` adds the whole chain of parent names. `os.makedirs` stops at the first ancestor that exists. The two agree whenever the directory set is closed under parents.
- Paths are identified by their strings. Aliases such as `a/./b` versus `a/b`, and symbolic links, are not modelled.
- `str.strip()` and `str.lower()` are modelled over ASCII only. Unicode whitespace and case folding are not modelled.
- The concrete path literals of `FILE_PAIRS` (lines 29-62): the list is a parameter.
- `SyncFiles`: it uses the corrected directory step (`MakeDirs`), not the one written on line 176. For a batched destination with no '/' (for example pairs `[("s", "b.txt")]`, "s" readable and non-empty, "b.txt" absent, confirmed), the script raises FileNotFoundError from `os.makedirs("")` before that copy, leaving earlier copies in place. The model returns `Updated` with the copy made. The shipped pair list never reaches this case: every destination is under `configs/`.
- `SyncFiles`: its guarantees about the copied state hold only under `ValidPairs`. `ValidPairs` means two pairs with one destination are the same pair, and no destination is also a source. The script does not check this, and the shipped list satisfies it. Without it, a copy could overwrite a source that a later pair still reads.
