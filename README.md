# ShakeNBreak command-line layer, modelled in Dafny

ShakeNBreak's `snb` command-line tool (`shakenbreak/cli.py`) sits in front of the
distortion generator and the analysis code. Before anything is generated or
submitted, it decides which settings and names reach that code:

- **Config file over defaults.** `generate` and `generate_all` are built with
  `CommandWithConfigFile("config")`. For them, a parameter the user left at
  its default takes the value the `--config` file gives it.
- **Config settings for `generate` and `generate_all`.** The pseudopotential
  entries are popped out of the config file. What remains is filtered: a key
  survives only if it is on the command's whitelist and is not one of the
  command's own local names.
- **Charge states of `generate`.** They come from `--charge`, from
  `--min-charge`/`--max-charge`, or from the config file's `charges`, in that
  order of precedence.
- **Defect names of `generate_all`.** Each file or folder name is cleaned of
  structure-file substrings and trailing separators. It is then matched against
  the config file's `defects` section or recognised by the defect-name
  formatter. The charges and the site of the defect are read from that section.
- **Defect folders.** `_parse_defect_dirs` picks out the folders that hold
  distortion folders. `_running_in_defect_dir` tells whether the working
  directory is itself a defect folder.
- **`run`.** It assembles the flags and the job-name option for the `SnB_run.sh`
  script and hands the shell one command line.
- **`plot`.** It groups `{defect}_{charge}` folder names into a map from defect
  to charge states.

The Dafny project models these steps and proves what they promise. The modules
are:

- `Python` (`python.dfy`): the Python behaviour the code relies on.
  - Config values as loaded from YAML/JSON, and their truthiness.
  - `dict.get` and `dict.pop`.
  - `str.replace(p, "")`, `str.rsplit("_", 1)`, `int(...)` and `str(int)`.
- `ConfigFile` (`config_file.dfy`): `CommandWithConfigFile.invoke`. A `Context`
  class holds the parameters as a map its method updates.
- `SettingsFilter` (`settings_filter.dfy`): the config-file preparation and the
  whitelist filter of `generate` and `generate_all`.
- `ChargeStates` (`charges.dfy`): the charge resolution of `generate`, as a
  method on a `DefectObject` whose `userCharges` field it updates.
- `DefectNames` (`defect_names.dfy`): `parse_defect_name`,
  `parse_defect_charges` and `parse_defect_position` of `generate_all`.
- `DefectDirs` (`defect_dirs.dfy`): `_parse_defect_dirs` and
  `_running_in_defect_dir`, over a directory listing given as a value.
- `PlotGrouping` (`plot_grouping.dfy`): the grouping of defect folders by
  `plot`.
- `RunCommand` (`run_command.dfy`): the body of `run`, and how the shell splits
  its command line.

Things the code depends on but that are no part of this model become
parameters:

- the defect-name formatter (`format_defect_name` of the `doped` package) is a
  function parameter that returns a name or raises;
- directory listings are `Entry` trees;
- loaded config files are maps;
- the package directory is a string.

Where the code does something surprising, the model does the same:

- **`POSCAR` is stripped twice.** `parse_defect_name` is called with its default
  structure file `"POSCAR"`, so it removes `"POSCAR"` a second time after
  removing `"cif"` and `"POSCAR"`. A name in which `POSCAR` surrounds a second
  `POSCAR` loses both (`DefaultStructureFileRemovesPoscarTwice`).
- **`_running_in_defect_dir` ignores its `path` argument.** It always lists the
  working directory.
- **A `defect_index` of `0` is falsy.** It is ignored in favour of the
  coordinates (`ZeroIndexIgnored`).
- **Config values bypass click's types.** A config file can give `charge`,
  `min_charge` and `max_charge` any value, since the override happens after
  click has converted the command line. A non-None `charge` is stored as
  `[charge]` whatever it is, and bounds that `min`, `max` or `range` refuse
  raise TypeError (`ChargeStates.ChargeBounds`).
- **Config charges are stored as given.** They are not deduplicated or sorted
  when stored in the defect. Only the `--min-charge`/`--max-charge` range is
  built in ascending order.

## Model

| member | source | states |
|---|---|---|
| ConfigFile.Context.ApplyConfigFile | shakenbreak/cli.py:51-62 | a missing config parameter is a KeyError and a `None` config leaves the parameters alone; otherwise the parameters become `Overridden`: each default-sourced parameter named in the config file takes the config value and the rest keep theirs |
| ConfigFile.OverriddenValues | shakenbreak/cli.py:54-61 | no parameter is added or removed; a parameter holds the config value exactly when its source is DEFAULT and the config names it, and its old value otherwise |
| ConfigFile.ExplicitParametersUnchanged | shakenbreak/cli.py:56-60 | a parameter set on the command line, from the environment or any other non-default source keeps its value |
| ConfigFile.OverriddenIdempotent | shakenbreak/cli.py:55-61 | applying the same config file twice gives the same parameters as applying it once |
| SettingsFilter.FilterUserSettings | shakenbreak/cli.py:233-240 | the surviving keys are exactly the settings keys that are not local names and are whitelisted, with their values unchanged |
| SettingsFilter.FilterIdempotent | shakenbreak/cli.py:233-240 | filtering already filtered settings changes nothing |
| SettingsFilter.UnlistedLocalIrrelevant | shakenbreak/cli.py:233-240 | a local name that is not on the whitelist does not change what survives |
| SettingsFilter.GenerateSurvivors | shakenbreak/cli.py:200-240 | for `generate`, a key is whitelisted and not a local name exactly when it is one of the 16 config-only keys (`charges`, `stdev`, `seed`, …) |
| SettingsFilter.GenerateConfigOnlyNotLocal | shakenbreak/cli.py:202-232 | each config-only key of `generate` is on its whitelist and is not a local name |
| SettingsFilter.GenerateNonConfigFiltered | shakenbreak/cli.py:200-240 | every other key of `generate` is either a local name or not whitelisted |
| SettingsFilter.GenerateAllSurvivors | shakenbreak/cli.py:492-529 | for `generate_all`, a key survives the filter exactly when it is one of the 17 config-only keys, `charges` and `charge` among them |
| SettingsFilter.GenerateAllConfigOnlyNotLocal | shakenbreak/cli.py:495-520 | each config-only key of `generate_all` is whitelisted and not a local name |
| SettingsFilter.GenerateAllNonConfigFiltered | shakenbreak/cli.py:492-529 | every other key of `generate_all` is a local name or not whitelisted |
| SettingsFilter.PopThenFilter | shakenbreak/cli.py:196-240 | popping some keys and then filtering leaves exactly the config keys that survive the filter, provided no popped key is a survivor; values come from the config file |
| SettingsFilter.PseudopotentialKeysNotConfigOnly | shakenbreak/cli.py:196-198 | `POTCAR_FUNCTIONAL`, `POTCAR` and `pseudopotentials` are never passed on as keyword arguments |
| SettingsFilter.PopPseudopotentials | shakenbreak/cli.py:196-198 | the three pseudopotential entries with their defaults (`"PBE"`, `None`, `None`), and the settings without them |
| SettingsFilter.PrepareGenerateSettings | shakenbreak/cli.py:194-240 | without a config file the filtered settings are empty; the pseudopotential entries come with their defaults, and the keyword arguments are exactly the config entries with a config-only key, with their values unchanged |
| SettingsFilter.PrepareGenerateAllSettings | shakenbreak/cli.py:474-529 | a truthy `defects` entry becomes the per-defect settings (an error when it is not a mapping), otherwise they are empty; the pseudopotential entries and the keyword arguments are as for `generate`, with the `generate_all` config-only keys |
| ChargeStates.Range | shakenbreak/cli.py:275-277 | `list(range(lo, hi))`: `hi - lo` elements (none if `hi <= lo`), the `i`-th being `lo + i` |
| ChargeStates.ChargeRangeContents | shakenbreak/cli.py:273-277 | the min/max range has `abs(max - min) + 1` charges, ascending, from the smaller bound to the larger, holding exactly the integers between them |
| ChargeStates.ChargeRangeSymmetric | shakenbreak/cli.py:273-277 | swapping `--min-charge` and `--max-charge` gives the same charges |
| ChargeStates.ChargeBounds | shakenbreak/cli.py:274-277 | `min`/`max` of `[min_charge, max_charge]` as `range` takes them: for two ints (or booleans) the smaller and the larger; a bound that is neither an int, a boolean nor a float is a TypeError |
| ChargeStates.ChargeBoundsTieKeepsFirst | shakenbreak/cli.py:274-277 | with an int and an equal float, `min` and `max` keep the first element, so `[1, 1.0]` gives the range `[1]` and `[1.0, 1]` raises TypeError in `range` |
| ChargeStates.ResolveErrorIff | shakenbreak/cli.py:264-277 | a ValueError exactly when there is no `--charge` and only one of the two bounds is given; a TypeError exactly when both are given but `min`, `max` or `range` refuse them; no other error |
| ChargeStates.SingleChargeWins | shakenbreak/cli.py:264-268 | with a `charge` that is not None the charges are `[charge]` whatever the bounds (and whatever value a config file gave it), and a config `charges` entry is ignored with a warning |
| ChargeStates.BothBoundsGiveRange | shakenbreak/cli.py:270-278 | with both bounds and no `--charge` the charges are the range between them, and a config `charges` entry is ignored with a warning |
| ChargeStates.ConfigChargesOnlyWhenUnset | shakenbreak/cli.py:280-288 | without CLI charges, the config `charges` replaces the defect's charges exactly when those are falsy, and otherwise triggers the warning; the entry is popped either way |
| ChargeStates.SettingsWithoutChargesUntouched | shakenbreak/cli.py:280-281 | without a `charges` entry the settings pass on unchanged and nothing is ignored |
| ChargeStates.DefectObject.ResolveCharges | shakenbreak/cli.py:264-288 | on the ValueError or TypeError the defect's charges are not touched; otherwise they become the resolved charges, and the settings without `charges` and the warning flag are returned |
| DefectNames.ParseDefectName | shakenbreak/cli.py:531-562 | the name is what `NameFromStripped` makes of the stripped name (removal, then trailing-symbol trimming, then the config lookup and the formatter), with the warning flag |
| DefectNames.StrippedNameSteps | shakenbreak/cli.py:534-540 | the stripped name is `"cif"`, `"POSCAR"` and the structure file removed in that order (each skipped on an exact match), then at most one trailing `-`, `_` and `.` dropped, in that order |
| DefectNames.TrimEachPrefix | shakenbreak/cli.py:539-541 | trimming trailing symbols keeps a prefix of the name and drops at most one character per symbol |
| DefectNames.RemoveEachShorter | shakenbreak/cli.py:535-537 | removing substrings never makes the name longer |
| DefectNames.StrippedNameShape | shakenbreak/cli.py:534-541 | the stripped name is a prefix of the name after removal, at most three characters shorter |
| DefectNames.StrippedNameIdentity | shakenbreak/cli.py:534-541 | a name with no `cif`, no `POSCAR`, no structure-file substring and no trailing separator is kept as it is |
| DefectNames.ExactPoscarKept | shakenbreak/cli.py:535-537 | a name that is exactly `"POSCAR"` is never removed |
| DefectNames.RemovePoscarFromDoubled | shakenbreak/cli.py:537 | a single left-to-right `replace` of `POSCAR` in `XPOSPOSCARCAR` leaves `XPOSCAR`, for any first character `X` other than `P` |
| DefectNames.RemovePoscarFromJoined | shakenbreak/cli.py:537 | a `replace` of `POSCAR` in `XPOSCAR` leaves `X` |
| DefectNames.NoCifInDoubled | shakenbreak/cli.py:537 | `XPOSPOSCARCAR` has no `cif` to remove |
| DefectNames.DefaultStructureFileRemovesPoscarTwice | shakenbreak/cli.py:531-538 | with the default structure file, `POSCAR` is removed twice, so `XPOSPOSCARCAR` becomes `X` |
| DefectNames.NameIsStrippedOrFalsy | shakenbreak/cli.py:542-562 | the parsed name is None, the stripped name itself, or an empty name returned by the formatter; a truthy name is always the stripped name |
| DefectNames.ConfigNameWins | shakenbreak/cli.py:543-546 | a non-empty stripped name listed in the `defects` section is taken without a warning and without asking the formatter |
| DefectNames.UnlistedNameNeedsRecognition | shakenbreak/cli.py:547-560 | an unlisted name warns exactly when the `defects` section is non-empty; a non-empty one is kept exactly when the formatter recognises it directly or, after raising, with `_0` appended |
| DefectNames.ParseDefectChargesCases | shakenbreak/cli.py:564-572 | None for a defect that is not in the section; an AttributeError when its entry is not a mapping; otherwise its `charges`, or `[charge]` (`[None]` when absent) when `charges` is missing or `None` |
| DefectNames.ChargesForDefect | shakenbreak/cli.py:644 | the charges are looked up under the parsed name when that is truthy, and under the identified defect's own name otherwise |
| DefectNames.ParseDefectPositionExclusive | shakenbreak/cli.py:574-581 | nothing comes back for an unlisted defect; an entry that is not a dict raises AttributeError; an index comes back exactly when the defect's entry has a truthy `defect_index` that `int` accepts, and then without coordinates |
| DefectNames.ParseDefectPositionValues | shakenbreak/cli.py:574-581 | for a listed defect: a truthy `defect_index` gives `int(defect_index)` as the index (or the error `int` raises); a falsy or missing one gives the entry's `defect_coords`, or None when it has none |
| DefectNames.ZeroIndexIgnored | shakenbreak/cli.py:576-580 | a `defect_index` of `0` is skipped and the coordinates are returned instead |
| DefectDirs.HasLabelledEntryIff | shakenbreak/cli.py:30-33 | the folder test holds exactly when some entry's name starts with one of `Rattled`, `Unperturbed`, `Bond_Distortion` and `Dimer` |
| DefectDirs.DefectDirIndicesFrom | shakenbreak/cli.py:28-36 | the positions of the folders holding an entry that starts with `Rattled`, `Unperturbed`, `Bond_Distortion` or `Dimer`: ascending, each once, and covering every such folder |
| DefectDirs.ParseDefectDirs | shakenbreak/cli.py:26-36 | the names returned are those of the folders at those positions, one per folder and in listing order |
| DefectDirs.ParseDefectDirsMembers | shakenbreak/cli.py:26-36 | a name is returned exactly when a folder of that name holds an entry starting with a distortion label, and no more names than entries are returned |
| DefectDirs.FirstDefectFolder | shakenbreak/cli.py:1333-1347 | None exactly when no folder is recognised by the formatter; otherwise the name of a recognised folder, the first in listing order |
| DefectDirs.RunningInDefectDir | shakenbreak/cli.py:1323-1350 | true exactly when some folder of the working directory contains a distortion label in its name; the warning names the first recognised defect folder, and only when the answer is true |
| DefectDirs.DefectDirSeenFromInside | shakenbreak/cli.py:26-36 | from inside a folder that `_parse_defect_dirs` accepts, `_running_in_defect_dir` reports a defect folder, provided some entry starting with a distortion label is a folder |
| DefectDirs.SubstringTestIsLooser | shakenbreak/cli.py:1327-1331 | a folder holding only `old_Rattled` passes the substring test of `_running_in_defect_dir` but not the prefix test of `_parse_defect_dirs` |
| PlotGrouping.GroupCharges | shakenbreak/cli.py:1155-1158 | the result is `Grouped`: the IndexError or ValueError of the first malformed folder, or the map from each defect name to its charges in listing order |
| PlotGrouping.FirstErrorNone | shakenbreak/cli.py:1157-1158 | grouping raises nothing exactly when every folder name has an underscore followed by an integer |
| PlotGrouping.FirstErrorIsFirst | shakenbreak/cli.py:1157-1158 | the exception raised is the one of the first malformed folder, in listing order |
| PlotGrouping.PartialGroupsStep | shakenbreak/cli.py:1158 | one more folder appends its charge to its own defect's list and changes no other list |
| PlotGrouping.ChargesOfComplete | shakenbreak/cli.py:1157-1158 | the charge of every well-formed folder is in its defect's list |
| PlotGrouping.ChargesOfSound | shakenbreak/cli.py:1157-1158 | every charge in a defect's list comes from a folder of that defect |
| PlotGrouping.GroupedContents | shakenbreak/cli.py:1155-1158 | on success the keys are exactly the defect names of the folders, every folder's charge is under its defect, and every listed charge belongs to a folder of that defect |
| PlotGrouping.ChargesOfLength | shakenbreak/cli.py:1157-1158 | with every folder well formed, a defect's list holds one charge per folder of that defect |
| PlotGrouping.GroupedTotal | shakenbreak/cli.py:1155-1158 | on success each defect's list is as long as the number of its folders, and the lengths of all lists add up to the number of folders |
| PlotGrouping.DirNameRoundTrip | shakenbreak/cli.py:810-811 | a folder named `{name}_{charge}`, the naming the help text shows with `vac_1_Cd_0`, splits back into `name` and `charge` |
| PlotGrouping.ChargesOfDirNames | shakenbreak/cli.py:1157-1158 | the folders of one defect's charge states give back those charge states, in order |
| PlotGrouping.GroupedDirNames | shakenbreak/cli.py:1155-1158 | grouping the folders of one defect gives exactly `{name: charges}` |
| RunCommand.RunFlags | shakenbreak/cli.py:777-788 | the flags are empty exactly when running inside a defect folder without `--verbose`; otherwise they start with `-` and hold `a` exactly when looping over all defects and `v` exactly when verbose, `a` first, with nothing else |
| RunCommand.FlagsMeanExactly | shakenbreak/cli.py:777-788 | those promises hold of one string only: `""`, `"-a"`, `"-v"` or `"-av"` as the two tests say |
| RunCommand.JobNameOption | shakenbreak/cli.py:790-793 | the user's job-name option is kept; without one it is `-J` for `sbatch` and `-N` for any other scheduler |
| RunCommand.Run | shakenbreak/cli.py:777-799 | the command line carries exactly the flags `""`, `"-a"`, `"-v"` or `"-av"` that the defect-folder test of the working directory and `--verbose` call for, followed by the submit command, the job script and the job-name option |
| RunCommand.CommandLineWords | shakenbreak/cli.py:795-798 | for blank-free arguments the shell passes the script the flags (none when empty), the submit command, the job script and the job-name option, in that order |
| Python.RemoveAll | shakenbreak/cli.py:537 | `str.replace(p, "")` never makes a string longer |
| Python.RemoveAllIdentity | shakenbreak/cli.py:537 | removing a non-empty substring changes a name exactly when the substring occurs in it |
| Python.RSplitTail | shakenbreak/cli.py:1158 | `rsplit("_", 1)[1]` raises IndexError exactly when there is no underscore; otherwise it holds no underscore and the name is head, `_` and tail |
| Python.ParseIntOfDecimal | shakenbreak/cli.py:1158 | `int(str(i)) == i` for every integer |
| Python.PyInt | shakenbreak/cli.py:578 | `int(v)` keeps an int, accepts every float and truncates it toward zero (the dropped part lies in [0, 1) for non-negative floats and in (-1, 0] for negative ones), and raises TypeError on None, lists and dicts |
| Python.DictGet | shakenbreak/cli.py:567 | `.get(key)` gives the entry or `None` on a mapping, and raises AttributeError on anything else |
| Python.Pop | shakenbreak/cli.py:196-198 | `.pop(key, default)` gives the entry or the default, and removes only that key |

## Left out

- File-system access is not modelled: `os.listdir`, `os.path.isdir`/`isfile`, `loadfn`, `dumpfn`, `Structure.from_file` and the choice of structure file inside a defect folder (cli.py:595-616). Listings and loaded config files are inputs instead.
- `format_defect_name` (from the `doped` package) is a function parameter. `identify_defect`, `get_charge_states` (charge padding), the `Distortions` class and its `write_*_files` writers are no part of this model.
- Warnings and `click.echo` output are modelled only as booleans or as the name the warning is about. The `verbose` messages are left out.
- `subprocess.call` is left out: `run` returns the command line it would hand to the shell. The shell's handling of quotes and special characters is not modelled, only splitting on blanks.
- The other commands (`parse`, `analyse`, `regenerate`, `groundstate`, `mag`) are not modelled. Neither is the choice of the current folder in `plot` when run inside a defect folder (cli.py:1134-1146), nor the plotting itself.
- The order of keys in Python dicts is not modelled. Settings and grouped charges are maps. The order of the charge lists is modelled.
- Python.ParseInt: accepts an optional sign and ASCII digits only. `int()` on strings with surrounding whitespace, underscores or non-ASCII digits is not modelled.
- SettingsFilter.PrepareGenerateAllSettings: a truthy `defects` entry that is not a mapping is reported at once as a TypeError. The source keeps it, and `parse_defect_name` then raises AttributeError on `.keys()` (cli.py:543). For a defect given as a file, `generate_all` catches that and silently skips the defect (cli.py:586-591). For a defect given as a folder, the AttributeError ends the command (cli.py:616). With no defects to process, nothing fails. The model has none of these three outcomes.
- SettingsFilter.GenerateAllSurvivors: `_bulk_oxi_states` is left out of the local names. It is a local only when oxidation states are guessed, and it is not whitelisted, so it never affects the filter (UnlistedLocalIrrelevant).
- Python.PyInt: on floats it does not model NaN, infinities or the float-to-real rounding of YAML.
