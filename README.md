# SONiC device data and Bazel migration report, modelled in Dafny

This project models two pieces of the SONiC build tooling.

**Device data generation** (`src/sonic-device-data/generate_device_data.py`).
The generator walks the device tree `device/<vendor>/<platform>/<sku>` and
prepares virtual-switch SKUs under the KVM platform `x86_64-kvm_x86_64-r0`.
For every SKU directory it finds, it does one of two things:

- If the SKU already exists under the KVM platform, it only refreshes the VS
  profiles.
- Otherwise it copies the SKU and the platform's `asic.conf`. It installs the
  VS profiles and turns `port_config.ini` into `lanemap.ini` and
  `coreportindexmap.ini`. It removes `context_config.json` and appends the
  `Cpu0` sentinel lines on chassis platforms. Then it repeats the per-ASIC
  steps for the sub-directories `0`, `1` and `2`, sharing one interface
  counter across them.

The file system is a value `Tree = map<Path, Node>`, where a `Path` is a
sequence of names and a `Node` is a directory or a file with its text. The
class `Generator.DeviceTree` holds that map in a field. Each of its methods
mirrors one Python function and changes the map in place. Each method is
proved equal to a specification function (`ProfilesCopied`,
`PortConfigProcessed`, `Cpu0Appended`, `Removed`, `HwskuDirs`,
`SkuSynthesized`, `VsHwskusGenerated`). The lemmas beside those functions
state what the generator promises:

- which files are written, with what text;
- that nothing outside the destination changes;
- that interfaces are numbered in order;
- that a lane map reads back one `eth<N>:<lane>` line per record;
- that the SKU list is exactly the directories three levels down, in
  sorted order.

**Migration report formatting** (`tools/bazel/migration_manager.py`). This
covers the pure helpers:

- the ANSI styling of `git grep -n` hits;
- the `parent/name` repository names with their override table;
- the two Markdown renderers, `format_markdown` and
  `format_checkpoint_markdown`.

The renderers build their output line by line. They are methods with loops,
proved to return `"\n".join` of a declarative line list. Lemmas show that
every table line has the same width, where each part of the checkpoint
report sits, and when the issue sections appear.

Python's text primitives are modelled in the `Text` module with their exact
character sets:

- `str.strip`, `str.split()` and `str.split(sep, maxsplit)`;
- `str.splitlines(keepends=True)`;
- `in` on strings, and `sorted` on strings by code point.

## Model

| member | source | states |
|---|---|---|
| DeviceData.ProfileTargetsNamed | src/sonic-device-data/generate_device_data.py:43-52 | the targets of a full copy are exactly `sai.profile`, `fabriclanemap.ini`, `sai_mlnx.profile`, `sai_vpp.profile`, `pai.profile` in the destination; a partial copy writes only the first two |
| DeviceData.ProfileCopiesIndependent | src/sonic-device-data/generate_device_data.py:43-52 | no two profile copies share a target name, so their order does not matter |
| DeviceData.ProfilesCopiedSpec | src/sonic-device-data/generate_device_data.py:53-57 | every template that exists as a file is copied with its content to its renamed target; a missing template leaves its target as it was; no other path changes |
| DeviceData.ProfilesCopiedOnlyBelow | src/sonic-device-data/generate_device_data.py:34-57 | copying profiles changes nothing outside the destination directory |
| Generator.DeviceTree.CopyVsProfiles | src/sonic-device-data/generate_device_data.py:34-57 | the method's new tree is the profile copy of the old tree, for the full or the partial list |
| Text.StripSpec | src/sonic-device-data/generate_device_data.py:76-77 | `strip()` gives the empty string exactly when the line is all whitespace; otherwise both ends of the result are non-whitespace |
| Text.FieldsAreFields | src/sonic-device-data/generate_device_data.py:79 | every field produced by `split()` is non-empty and contains no whitespace |
| Text.FieldsConcat | src/sonic-device-data/generate_device_data.py:79 | the fields of `split()` concatenate to the input with every whitespace character removed |
| Text.FieldsOfJoin | src/sonic-device-data/generate_device_data.py:91 | `split()` of fields joined by single spaces gives back the same fields |
| Text.SplitLinesConcat | src/sonic-device-data/generate_device_data.py:71 | `splitlines(keepends=True)` loses no text: the lines concatenate to the input and none is empty |
| Text.SplitLinesBoundaries | src/sonic-device-data/generate_device_data.py:71 | each line of `splitlines(keepends=True)` has no line break before its end except the `\r` of a `\r\n` pair; every line but the last ends with a break; a line ending in `\r` is never followed by one starting with `\n` |
| PortConfig.LastNonBlankSpec | src/sonic-device-data/generate_device_data.py:73-78 | the line the reversed scan picks is non-blank, and every later line is blank |
| PortConfig.CountColumns | src/sonic-device-data/generate_device_data.py:73-79 | the column count is the number of fields of the last non-blank line, or 0 when there is none |
| PortConfig.AddRow | src/sonic-device-data/generate_device_data.py:90-95 | one data row advances the counter and adds a lane record when it has at least two fields, and a core record when it and the table have at least nine |
| PortConfig.ParsePortConfig | src/sonic-device-data/generate_device_data.py:71-95 | the loops compute exactly the records and the final counter of the declarative table parse |
| PortConfig.NumberRowsCounter | src/sonic-device-data/generate_device_data.py:86-90 | comment and blank lines do not advance the counter: it ends at the start value plus the number of data rows |
| PortConfig.NumberRowsLanesSound | src/sonic-device-data/generate_device_data.py:90-93 | each lane record belongs to a data row with at least two fields, is numbered by that row's position after the start value, and carries its second field |
| PortConfig.NumberRowsLanesComplete | src/sonic-device-data/generate_device_data.py:92-93 | every data row with at least two fields has a lane record |
| PortConfig.NumberRowsLanesIncreasing | src/sonic-device-data/generate_device_data.py:90-93 | lane records are in strictly increasing interface order |
| PortConfig.NumberRowsLanesEmpty | src/sonic-device-data/generate_device_data.py:90-93 | whether a table yields lane records does not depend on the counter it starts from |
| PortConfig.NumberRowsCoresSound | src/sonic-device-data/generate_device_data.py:94-95 | each core record comes from a row of at least nine fields in a table of at least nine columns, and carries fields 7 and 8 |
| PortConfig.NumberRowsCoresComplete | src/sonic-device-data/generate_device_data.py:94-95 | every such row has a core record |
| PortConfig.NumberRowsCoresIncreasing | src/sonic-device-data/generate_device_data.py:94-95 | core records are in strictly increasing interface order |
| PortConfig.EthNamesDistinct | src/sonic-device-data/generate_device_data.py:93 | different interface numbers give different `eth<N>` names |
| PortConfig.ParsedAreFields | src/sonic-device-data/generate_device_data.py:91-95 | every lane, core and port index read from a table is a whitespace-free field |
| PortConfig.LaneMapLines | src/sonic-device-data/generate_device_data.py:97-100 | read back line by line, `lanemap.ini` holds one line `eth<N>:<lane>` per record, in record order |
| PortConfig.CoreMapLines | src/sonic-device-data/generate_device_data.py:102-105 | read back line by line, `coreportindexmap.ini` holds one line `eth<N>:<core>,<index>` per record, in record order |
| DeviceData.PortConfigProcessedSpec | src/sonic-device-data/generate_device_data.py:60-107 | a missing `port_config.ini` changes nothing and returns the start value; otherwise the counter advances by the number of data rows; each map file is written with its record text only when it has records, and otherwise keeps its old state; no other path changes |
| DeviceData.PortConfigProcessedOnlyBelow | src/sonic-device-data/generate_device_data.py:97-105 | processing a table changes nothing outside the destination directory |
| Generator.DeviceTree.ProcessPortConfig | src/sonic-device-data/generate_device_data.py:60-107 | the method's new tree and returned counter are those of the specification function |
| DeviceData.Cpu0AppendedSpec | src/sonic-device-data/generate_device_data.py:110-120 | an existing `lanemap.ini` gains `Cpu0:999\n` and an existing `coreportindexmap.ini` gains `Cpu0:0,0\n`; no path is created; every other path, and a map path that holds no file, keeps its entry |
| DeviceData.Cpu0AppendedOnlyBelow | src/sonic-device-data/generate_device_data.py:110-120 | appending the sentinels changes nothing outside the destination directory |
| Generator.DeviceTree.AppendCpu0 | src/sonic-device-data/generate_device_data.py:110-120 | the method's new tree is the specification function of the old tree |
| DeviceData.RemovedSpec | src/sonic-device-data/generate_device_data.py:123-125 | afterwards the path is not a file; a file there is removed from the tree altogether; a path that was not a file leaves the tree unchanged; no other path changes |
| Generator.DeviceTree.RemoveIfExists | src/sonic-device-data/generate_device_data.py:123-125 | the method's new tree is the specification function of the old tree |
| SkuListing.ChildrenSpec | src/sonic-device-data/generate_device_data.py:135 | a name is listed by `iterdir()` exactly when the child path is in the tree |
| SkuListing.SortedListingUnique | src/sonic-device-data/generate_device_data.py:135 | a set of names has only one strictly increasing listing, so `sorted(iterdir())` is determined by the tree |
| SkuListing.SortedListingExists | src/sonic-device-data/generate_device_data.py:135 | every finite set of names has a strictly increasing listing |
| Generator.DeviceTree.SortedChildren | src/sonic-device-data/generate_device_data.py:135 | the method returns the sorted listing of a directory's children |
| Text.ContainsIffOccurs | src/sonic-device-data/generate_device_data.py:144 | the `in` test on strings holds exactly when the marker occurs at some offset |
| SkuListing.PlatformSkusMember | src/sonic-device-data/generate_device_data.py:143-149 | a platform contributes exactly its listed children that are directories and contain no excluded marker |
| SkuListing.HwskuDirsMembers | src/sonic-device-data/generate_device_data.py:127-150 | a path is collected exactly when it is three levels below the device directory, below a vendor directory and a platform directory, is a directory, and its name contains none of `plugins`, `led-code`, `sonic_platform` |
| SkuListing.HwskuDirsIncreasing | src/sonic-device-data/generate_device_data.py:135-149 | the collected paths are in strictly increasing order, by vendor, then platform, then SKU, and so have no duplicates |
| Generator.DeviceTree.PlatformHwskuDirs | src/sonic-device-data/generate_device_data.py:143-149 | the inner loop returns one platform's SKU directories in listing order |
| Generator.DeviceTree.VendorHwskuDirs | src/sonic-device-data/generate_device_data.py:138-149 | the middle loop returns one vendor's SKU directories in listing order |
| Generator.DeviceTree.CollectHwskuDirs | src/sonic-device-data/generate_device_data.py:127-150 | the three nested loops return the declarative SKU list |
| VsHwsku.FixedNamesDistinct | src/sonic-device-data/generate_device_data.py:180-197 | the table, context, `asic.conf` and map files are never profile targets and are distinct from one another |
| VsHwsku.AsicStepSpec | src/sonic-device-data/generate_device_data.py:202-228 | a missing ASIC sub-directory is skipped; otherwise the counter advances by the sub-directory's data rows, plus one when a chassis lane map exists; only the sub-directory changes |
| Generator.DeviceTree.ProcessAsicSubdir | src/sonic-device-data/generate_device_data.py:203-228 | one iteration of the ASIC loop computes the specification step's tree and counter |
| VsHwsku.AsicsProcessedSpec | src/sonic-device-data/generate_device_data.py:201-228 | the shared counter never goes back; the ASIC loop changes only paths strictly below the SKU, never the SKU's own entries |
| VsHwsku.AsicPreparedKeeps | src/sonic-device-data/generate_device_data.py:208-212 | copying the two ASIC profiles and removing `context_config.json` leave the sub-directory's table and both maps as they were |
| VsHwsku.AsicStepMaps | src/sonic-device-data/generate_device_data.py:207-228 | one ASIC pass writes the sub-directory's lane and core maps as its own table's records numbered on from the incoming counter, each followed by its `Cpu0` sentinel on a chassis; a map without records is not created |
| VsHwsku.AsicStepLaneFile | src/sonic-device-data/generate_device_data.py:214-223 | after an ASIC pass the lane map exists exactly when it existed before or the table yields lane records |
| VsHwsku.AsicStepCounter | src/sonic-device-data/generate_device_data.py:203-223 | one ASIC pass advances the counter by the data rows of the sub-directory's table and, on a chassis, one more for a lane map, all read from the tree before the pass |
| VsHwsku.AsicsProcessedFrom | src/sonic-device-data/generate_device_data.py:201-228 | the passes over later sub-directories leave an earlier sub-directory's files as its own pass left them |
| VsHwsku.AsicsProcessedCounter | src/sonic-device-data/generate_device_data.py:199-228 | the counter the ASIC loop ends with is the seed plus, for each existing sub-directory in order, its data rows and its chassis sentinel: it is shared across sub-directories and never reset |
| VsHwsku.AsicSubdirMaps | src/sonic-device-data/generate_device_data.py:199-228 | after the loop, each sub-directory's maps hold its own table's records numbered from the counter the earlier sub-directories left, with sentinels on a chassis |
| VsHwsku.ChassisFirstAsic | src/sonic-device-data/generate_device_data.py:199-228 | on a chassis, sub-directory `0` is numbered from the seed 1, so its records are `eth2` .. `eth(k+1)` for its `k` data rows, and its lane map ends with `Cpu0:999` |
| VsHwsku.ChassisSecondCounter | src/sonic-device-data/generate_device_data.py:199-226 | on a chassis, sub-directory `1` starts from `k + 2` when sub-directory `0` has `k` data rows with lane records |
| VsHwsku.ChassisSecondAsic | src/sonic-device-data/generate_device_data.py:199-228 | sub-directory `1` then holds its own records numbered from `k + 2`, so at least `eth(k+3)`, then the sentinel |
| VsHwsku.ChassisAsicContinuity | src/sonic-device-data/generate_device_data.py:199-228 | numbering is continuous across sub-directories `0` and `1` of a chassis SKU, the lane sentinel of `0` using up one interface |
| VsHwsku.SkuCopiedFrame | src/sonic-device-data/generate_device_data.py:175-182 | copying the SKU and `asic.conf` changes only the destination and makes it a directory |
| VsHwsku.SkuCopiedTable | src/sonic-device-data/generate_device_data.py:175-177 | the copy carries the SKU's `port_config.ini` unchanged |
| VsHwsku.SkuTopFrame | src/sonic-device-data/generate_device_data.py:185-197 | the top-level steps after the copy change only paths below the destination |
| VsHwsku.SkuTopNoContext | src/sonic-device-data/generate_device_data.py:193 | no `context_config.json` is left at the top of the new SKU |
| VsHwsku.SkuTopLaneMap | src/sonic-device-data/generate_device_data.py:188-197 | the top-level lane map is the record text of the copied table, numbered from 1 on chassis platforms and 0 otherwise, followed by `Cpu0:999` on chassis platforms |
| VsHwsku.SkuTopCoreMap | src/sonic-device-data/generate_device_data.py:188-197 | the top-level core map is the core-record text of the copied table, numbered from 1 on chassis platforms and 0 otherwise, followed by `Cpu0:0,0` on chassis platforms |
| Generator.DeviceTree.BuildSkuTop | src/sonic-device-data/generate_device_data.py:175-197 | the method's new tree is the specification of the top-level steps |
| VsHwsku.ExistingSkuRefreshed | src/sonic-device-data/generate_device_data.py:169-172 | when the SKU already exists under the KVM platform only the five profiles are written, each with its template's content |
| VsHwsku.NewSkuTopKept | src/sonic-device-data/generate_device_data.py:199-228 | the ASIC loop leaves the new SKU's top-level entries as the top-level steps made them |
| VsHwsku.NewSkuNoContext | src/sonic-device-data/generate_device_data.py:193 | a newly made SKU has no `context_config.json` |
| VsHwsku.NewSkuLaneMap | src/sonic-device-data/generate_device_data.py:165-197 | a newly made SKU's lane map is the record text of the source table, numbered from 1 on chassis platforms and 0 otherwise, then `Cpu0:999` on chassis platforms |
| VsHwsku.NewSkuCoreMap | src/sonic-device-data/generate_device_data.py:165-197 | a newly made SKU's core map is the core-record text of the source table, numbered from 1 on chassis platforms and 0 otherwise, then `Cpu0:0,0` on chassis platforms |
| VsHwsku.SkuSynthesizedFrame | src/sonic-device-data/generate_device_data.py:163-228 | one SKU changes only `kvm/<sku name>`, and that path is a directory afterwards |
| VsHwsku.NewSkuFrame | src/sonic-device-data/generate_device_data.py:174-228 | a new SKU changes only its destination |
| VsHwsku.NewSkuIsDir | src/sonic-device-data/generate_device_data.py:175-177 | a new SKU's destination is a directory afterwards |
| VsHwsku.SkuKeepsDirs | src/sonic-device-data/generate_device_data.py:163-228 | no SKU step removes an existing directory under the KVM platform |
| VsHwsku.DuplicateSkuRefreshes | src/sonic-device-data/generate_device_data.py:167-172 | a later SKU with the same name as an earlier one only refreshes the profiles of the first copy |
| Generator.DeviceTree.SynthesizeHwsku | src/sonic-device-data/generate_device_data.py:164-228 | one pass of the SKU loop computes the specification function |
| VsHwsku.SkusSynthesizedOnlyWithin | src/sonic-device-data/generate_device_data.py:163-228 | the SKU loop changes nothing outside the KVM platform directory |
| VsHwsku.SkusSynthesizedCreate | src/sonic-device-data/generate_device_data.py:163-228 | every SKU directory in the list outside the KVM platform ends up with a directory of its name there |
| VsHwsku.VsHwskusGeneratedSpec | src/sonic-device-data/generate_device_data.py:152-228 | with device and output trees apart, only the KVM platform directory changes, and every collected SKU has a directory of its name there |
| Generator.DeviceTree.GenerateVsHwskus | src/sonic-device-data/generate_device_data.py:152-228 | the method's new tree is the specification function of the old tree |
| FileTree.CopyTreeSpec | src/sonic-device-data/generate_device_data.py:175-177 | `copytree` makes every source entry exist below the destination with the same node, and changes nothing outside the destination |
| Text.SplitAtMostJoin | tools/bazel/migration_manager.py:31 | `split(":", 2)` loses nothing: joining the parts with the separator gives back the hit |
| Text.SplitAtMostCount | tools/bazel/migration_manager.py:31-32 | `split(":", 2)` gives three parts exactly when the hit has at least two colons |
| MigrationTable.FormatGrepHitOfParts | tools/bazel/migration_manager.py:21-34 | a hit `file:line:content` becomes four spaces, the bold `file:line`, `": "`, and the dim content, with the content keeping any further colons |
| MigrationTable.FormatGrepHitPlain | tools/bazel/migration_manager.py:35 | a hit with fewer than two colons is only indented by four spaces |
| MigrationTable.DefaultNameOfPath | tools/bazel/migration_manager.py:156-158 | the default name of `…/parent/name` is `parent/name` |
| MigrationTable.OverrideKey | tools/bazel/migration_manager.py:150-152 | the override key matches exactly the parent `sonic-sairedis` with the name `SAI` |
| MigrationTable.RepoNameOfPath | tools/bazel/migration_manager.py:150-159 | the repository name is `opencompute/SAI` for `…/sonic-sairedis/SAI` and `parent/name` for any other `…/parent/name` path |
| MigrationTable.ColumnWidthIsMax | tools/bazel/migration_manager.py:247-250 | a column's width is at least its header and every cell, and equals one of them |
| MigrationTable.ComputeTextWidths | tools/bazel/migration_manager.py:247-250 | the nested loops compute the maximum widths of the text columns |
| MigrationTable.RowLength | tools/bazel/migration_manager.py:252-254 | a row of cells that fit its widths has the table's line length |
| MigrationTable.SeparatorLength | tools/bazel/migration_manager.py:258 | the dash separator has the table's line length |
| MigrationTable.MarkdownRowCells | tools/bazel/migration_manager.py:252-254 | each padded cell has its column's width and starts with the cell's text |
| MigrationTable.BranchColumn | tools/bazel/migration_manager.py:238-244 | the table has a third column exactly when branches are included; it is headed `Branch` and holds each entry's branch |
| MigrationTable.MarkdownLinesAligned | tools/bazel/migration_manager.py:237-262 | the table has a header, a separator and one row per entry, all of the same width |
| MigrationTable.FormatMarkdown | tools/bazel/migration_manager.py:237-262 | the method returns the table's lines joined by newlines |
| MigrationTable.Mark | tools/bazel/migration_manager.py:287 | a status mark is one character, the check mark exactly for true and the cross exactly for false |
| MigrationTable.StatusMarks | tools/bazel/migration_manager.py:284-299 | the status cells are the mark padded to the header widths 7 and 11 |
| MigrationTable.CheckpointTableAligned | tools/bazel/migration_manager.py:271-300 | the status columns are 7 and 11 wide; the table has a header, a separator and one row per entry, all of the same width |
| MigrationTable.IssuesPresent | tools/bazel/migration_manager.py:302-310 | the issues part is empty exactly when both hit collections are; otherwise it opens with a blank line, `## Issues` and a blank line, then the first non-empty section's title |
| MigrationTable.GroupFenced | tools/bazel/migration_manager.py:311-317 | a repository's block is its heading, a blank line, the fenced hits and a blank line |
| MigrationTable.HeadingNamesRepo | tools/bazel/migration_manager.py:312 | the block heading names the repository by its overridden or default name, then the path in backquotes |
| MigrationTable.BlockInPlace | tools/bazel/migration_manager.py:311-317 | each repository's block appears whole and in order within the section |
| MigrationTable.CheckpointLayout | tools/bazel/migration_manager.py:265-319 | the report is the dated title, a blank line, the table and then the issues part |
| MigrationTable.AppendGroups | tools/bazel/migration_manager.py:311-317 | the loop appends the blocks of all repositories in order |
| MigrationTable.AppendStatusRows | tools/bazel/migration_manager.py:295-300 | the loop appends one status row per entry |
| MigrationTable.AppendCheckpointTable | tools/bazel/migration_manager.py:271-300 | the appended lines are the checkpoint table: header row, dash separator and one status row per entry |
| MigrationTable.AppendGroup | tools/bazel/migration_manager.py:312-317 | the appended lines are one repository's block: heading, blank line, fenced hits, blank line |
| MigrationTable.AppendSection | tools/bazel/migration_manager.py:308-317 | an empty dictionary appends nothing; otherwise the section title, a blank line and every repository's block |
| MigrationTable.AppendIssues | tools/bazel/migration_manager.py:302-317 | the appended lines are the issues part |
| MigrationTable.FormatCheckpointMarkdown | tools/bazel/migration_manager.py:265-319 | the method returns the report's lines joined by newlines |

## Left out

- `flatten_vendor_dirs`, the Mellanox simx profile walk and both `main`
  functions are not part of this model. They are drivers around the modelled
  operations and depend on the build environment.
- Real file I/O is not modelled:
  - the tree is a map;
  - there are no symlinks, permissions or I/O errors;
  - file metadata kept by `copy2` is not modelled.
- FileTree.CopyFile: `shutil.copy2` onto an existing directory copies the
  file into that directory; the model replaces the directory entry with the
  file.
- FileTree.CopyTree: `copytree(..., dirs_exist_ok=True)` is modelled as
  "every source entry exists below the destination with the same node". A
  file already at a directory's destination is replaced where Python would
  raise.
- The model does not require the tree to be well formed: a path may exist
  without its parent.
- The interface counter of the ASIC loop starts at 1 on a chassis
  platform (`i = 1 if has_chassisdb else 0`), and `process_port_config`
  numbers the first data row `start + 1`. So on a chassis the records of
  sub-directory `0` are `eth2` .. `eth(k+1)`, not `eth1` .. `ethk`. The
  model follows the code (`VsHwsku.ChassisFirstAsic`).
- `sorted()` over `iterdir()` is modelled by the unique strictly increasing
  listing of the child names, by code point, as Python compares `str`.
- The git and subprocess helpers of `migration_manager.py` are not part of
  this model: `process_repo`, `parse_local_path_overrides` and the report's
  `main`. They run external commands.
- `datetime.date.today()` is a parameter `date` of
  `FormatCheckpointMarkdown`.
- `bold_purple` is defined but never used, so it is not modelled.
- Result dictionaries are records with an optional branch.
  `MigrationTable.FormatMarkdown` and `MigrationTable.FormatCheckpointMarkdown`
  require the branch to be present when branches are included. The Python
  code raises `KeyError` otherwise.
- MigrationTable.RepoNameOfPath: proved only for paths of the form `…/parent/name`
  without a trailing `/`. A path with a trailing `/`, a relative path with
  fewer than two components or the root path is computed by the same
  functions but has no lemma, so `Path(p).parent.name` on those inputs is
  not stated.
- The hit dictionaries are sequences of `(path, hits)` groups, in the
  dictionaries' insertion order.
- `render_templates.py` and `proto_compat.h` are not part of this model.
