# config-builder, modelled in Dafny

config-builder is a small command-line script that renders one configuration
file per network device from jinja2 templates. The devices come either from
an explicit comma-separated `--devices` list or from a `--pattern` regular
expression matched against the file names in `./targetspec/`. Each rendered
text goes to `./out/<device>`.

This project models the script's own logic between the library calls:

- `wrappers.dfy` (`Wrappers`): Option and Result values.
- `colors.dfy` (`Colors`): the nine-entry escape-code table and `print_in_color`, including its eager `codes[status]` lookup.
- `arguments.dfy` (`Arguments`): the parsed options, stated as two optional strings, and `args_validator`.
- `device_selection.dfy` (`DeviceSelection`): `get_device_list`. This covers comma splitting (with its join round trip) and the anchored pattern filter. The filter is written as the script's append loop and proved against a specification function.
- `generation.dfy` (`Generation`): `generate_config`, `write_config_file`, `os.mkdir` and `main`. The class `OutputDir` holds whether `./out/` exists and a map from file name to text. The driver loop is proved equal to a fold of single-key updates over the device list, stopping at the first template error.

Inputs the script gets from outside become parameters:

- The directory listing of `./targetspec/` is a sequence `listing`.
- `re.match` is an uninterpreted predicate `rematch(anchoredPattern, name)`.
- jinja2 loading and rendering is an uninterpreted `render(device)`. It returns either the text or a template error. The error is a single opaque kind, standing for any exception jinja2 raises, because the script treats them all alike.

Where the code and a looser reading of the tool's intent differ, the model follows the code:

- With neither option truthy, `get_device_list` returns None. It raises no "no devices selected" error: `DeviceSelection.DeviceList` gives `None`. `main` never reaches this case, because validation has already exited.
- The output directory is created with a try/except around `os.mkdir`. It does not use an idempotent create. Both paths end in the same single write.
- A template error is not caught. It ends the run, and files written for earlier devices stay.

## Model

| member | source | states |
|---|---|---|
| `Colors.PrintInColor` | config-builder.py:19-31 | succeeds exactly when the status is an exact table key, and otherwise raises KeyError for that status; the written line is the status code, the message, the reset code and a newline |
| `Colors.Upper` | config-builder.py:30 | ASCII upper-casing standing for `status.upper()`: no lower-case ASCII letter remains, and a string without one comes back unchanged, so it is exact on the nine ASCII table keys, the only strings the as-written lookup passes it |
| `Colors.KeysAreUpperCase` | config-builder.py:19-30 | every table key is unchanged by upper-casing, so the `status.upper()` lookup finds the same entry as the exact key |
| `Colors.LowerCaseStatusRaises` | config-builder.py:30-31 | "error" upper-cases to a key, yet the script raises KeyError for it; the case-insensitive lookup gives the ERROR line instead |
| `Colors.PrintInColorIgnoringCase` | config-builder.py:30-31 | the evidently intended lookup: succeeds exactly when the upper-cased status is a key, writing that key's code around the message |
| `Colors.IgnoringCaseAgreesOnKeys` | config-builder.py:30-31 | on every exact key the intended lookup and the script's own write the same line, and both succeed |
| `Arguments.ArgsValidator` | config-builder.py:59-65 | exits with code 1 exactly when neither option is truthy (None or empty both count as absent), after printing the ERROR-coloured failure line; otherwise returns with no output |
| `DeviceSelection.Split` | config-builder.py:73-74 | splitting on ',' gives one more piece than there are commas, and no piece contains a comma |
| `DeviceSelection.JoinSplit` | config-builder.py:73-74 | the pieces joined with ',' give back the `--devices` string exactly |
| `DeviceSelection.SplitJoin` | config-builder.py:73-74 | splitting a ','-join of comma-free names gives back those names, in order, repeats included |
| `DeviceSelection.SplitKeepsEmptyPieces` | config-builder.py:74 | "a,,b" yields ["a", "", "b"]: empty pieces are kept |
| `DeviceSelection.SplitKeepsRepeats` | config-builder.py:74 | "r1,r1" yields ["r1", "r1"]: nothing is deduplicated |
| `DeviceSelection.Matching` | config-builder.py:77-82 | the filter on values: the result is no longer than the listing, and every selected name is listed and accepted by the pattern |
| `DeviceSelection.MatchingAppend` | config-builder.py:79-81 | filtering a concatenation equals concatenating the filtered parts, which is how the loop extends its result one file at a time |
| `DeviceSelection.MatchingIsSubsequence` | config-builder.py:77-82 | the pattern branch's result is a subsequence of the listing, so listing order is kept |
| `DeviceSelection.MatchingCounts` | config-builder.py:77-82 | each name appears in the result as often as in the listing when the anchored pattern matches it, and never otherwise |
| `DeviceSelection.MatchingMembers` | config-builder.py:79-81 | a name is selected if and only if it is listed and the anchored pattern matches it |
| `DeviceSelection.NoMatchSelectsNothing` | config-builder.py:77-82 | an empty listing, or one without matches, gives the empty list and no error |
| `DeviceSelection.DeviceList` | config-builder.py:73-82 | `get_device_list` as a value: None exactly when neither option is truthy; with `--devices` truthy, pieces that join back to that string; otherwise only listed names that the anchored pattern accepts |
| `DeviceSelection.GetDeviceList` | config-builder.py:68-82 | returns the split `--devices` value whenever it is truthy, whatever the pattern; otherwise the listing entries matching '^' + pattern + '$', gathered by the append loop; None exactly when neither option is truthy |
| `Generation.WriteAll` | config-builder.py:119-121 | the device loop as a fold of per-device writes; a stopped run names a selected device whose template failed with exactly the reported error |
| `Generation.WriteAllKeys` | config-builder.py:119-121 | the loop never removes a file from the output directory and adds only files named after selected devices |
| `Generation.WriteAllFinishes` | config-builder.py:119-121 | the device loop runs to completion if and only if every selected device's template renders |
| `Generation.WriteAllOverlay` | config-builder.py:119-121 | a complete run leaves every selected device's file holding its rendered text, with every other file unchanged and no file removed; this is the fold of the per-device overwrites in list order |
| `Generation.WriteAllStops` | config-builder.py:119-121 | a run stopped by a template error stopped at the first failing device, whose index the lemma returns; the files then hold exactly the writes of the devices before it |
| `Generation.RerunChangesNothing` | config-builder.py:119-121 | running the same selection again over its own output succeeds and leaves the directory as it was |
| `Generation.RepeatedDeviceOverwrites` | config-builder.py:119-121 | a device listed again anywhere after an earlier occurrence can be dropped without changing the outcome: the later write overwrites its file with the same text, and a template error already stopped the run at the earlier occurrence |
| `Generation.OutputDir.MakeDir` | config-builder.py:110 | creates the directory, or raises FileExistsError when it already exists; no file changes |
| `Generation.OutputDir.WriteConfigFile` | config-builder.py:93-99 | replaces the device's file with the text and leaves the other files alone; raises FileNotFoundError when the directory is missing |
| `Generation.OutputDir.GenerateConfig` | config-builder.py:102-113 | a template error propagates with nothing touched; otherwise the directory exists afterwards, the device's file holds the rendered text whether or not mkdir raised, and every other entry is unchanged |
| `Generation.OutputDir.Run` | config-builder.py:116-121 | failed validation exits with code 1 and writes nothing; otherwise the selected devices are generated in list order, the final files equal the fold of single-key updates up to the first template error, which becomes the run's outcome, and the directory exists afterwards if and only if it existed before or the selection is non-empty and its first device renders |

## Findings

| source | as written | input that shows it | evidently intended | confidence | as-written member | corrected member |
|---|---|---|---|---|---|---|
| config-builder.py:30-31 | the fallback argument of `codes.get` indexes the table with the raw status, and Python evaluates it before the call | status "error" raises KeyError, although the upper-cased "ERROR" is a key | the status is looked up case-insensitively through its upper-case form | medium, not executed | `Colors.PrintInColor`, `Colors.LowerCaseStatusRaises` | `Colors.PrintInColorIgnoringCase` |

The script's only call passes the exact key "ERROR". For every exact key, `Colors.IgnoringCaseAgreesOnKeys` shows that both lookups write the same line, so the validator's output is the same either way.

## Left out

- argparse (`parse_args`, lines 35-49): library behaviour. The parsed result is the two optional strings of `Arguments.Args`.
- jinja2 template loading and rendering (lines 106-108): a foreign library. It is the uninterpreted `render(device)`, which may return a template error. The model takes rendering to be a deterministic function of the device name.
- `re.match` (line 80): a foreign regex engine. It is the uninterpreted `rematch` applied to the anchored pattern string. Regex features are not modelled, including an unparenthesised top-level `|` defeating the anchors.
- `os.walk` (line 78): the listing of the template directory's immediate files is the input sequence `listing`.
- Two exceptions of the pattern branch are not modelled, because `rematch` is total and the listing is always given. One is `re.error` from a malformed pattern, raised at line 80 when the listing is non-empty. The other is `StopIteration` from `next(os.walk(...))` when `./targetspec/` is missing, raised at line 78. Both come before any file is written.
- `open_file` (lines 85-90): the script never calls it.
- File-system failures other than a missing or existing output directory are not modelled. This includes permission errors, a device name containing a path separator, and a write that raises inside the try block and is retried by the handler. In the model a write into an existing directory always succeeds.
- `sys.stdout.write`/`flush`: the model returns the printed text instead of writing it. ANSI colour rendering itself is cosmetic.
- `exit(1)` is the `Exited` outcome. An uncaught template error is the `Crashed` outcome.
- `Colors.Upper` and `Colors.PrintInColorIgnoringCase`: upper-case only ASCII letters and keep the length. Python's `str.upper` also maps non-ASCII letters and can change the length ('é' becomes 'É', 'ß' becomes 'SS'). The as-written `Colors.PrintInColor` is exact regardless, because it upper-cases only after checking that the status is an exact key, and every table key is ASCII upper case.
