# Queryfy table registry, in Dafny

Queryfy is a Streamlit app. It lets a user upload CSV and Excel files and exposes each file, or each chosen sheet of a workbook, as a table of an embedded DuckDB engine. Each table sits under an alias that SQL queries can name. This project models the one piece of the app with real state: the **table registry** of `app.py`.

The registry is the session's dictionary `reg_files`, which maps a display key to a registered file. It must stay in step with the engine's namespace of table aliases. The model covers:

- registration of an upload or of one sheet (`register_file`);
- unregistering, the per-file delete button and "Delete all";
- renaming an alias (`change_reg_alias`);
- the batch loop of the "Register file" button;
- hiding sheets that are already registered (`filter_multi_sheets`);
- the `selsheet_{file}_{sheet}` checkbox keys, their parse by `split("_")`, and the "Confirm sheets" loop, which runs in sorted key order.

Layout:

- `strings.dfy` (module `Strings`): the Python string and list operations the registry relies on. These are `str(n)`, `startswith`, `split("_")`, Python's ordering of strings and `list.sort()`. Each comes with its laws: `str(n)` is injective, split and join are inverses, and a sorted order is unique.
- `registry.dfy` (module `Registry`): the registry as values. `State` holds `reg` (display key to `Entry`) and `engine` (alias to `Table`). Each operation is a function from the old state to the new state plus the exception raised, if any. The lemmas state what `app.py` does.
- `sheets.dfy` (module `Sheets`): the sheet-disambiguation helpers and the confirm loop as functions, with their lemmas.
- `app.dfy` (module `App`): class `Session`, whose fields `reg` and `engine` the methods update in place, following the Python code step by step. Each method is proved to reach exactly the state, and raise exactly the exception, given by the matching function of `Registry` or `Sheets`. `Valid()` is the invariant that every reachable registry keeps, because the constructor sets it up and every method preserves it. Each entry sits under its own display key, that key is derived from its file and sheet names, and its type is csv, xlsx or xls.

Conventions:

- Python's `None` and `""` are the same for both the sheet-name and the alias parameters, because the source only tests their truthiness. Both are written `""`.
- An exception is the status `Raised(e)`. The operation's state at the point of the raise is the state that survives, which models Python's lack of rollback.
- The engine is a map from alias to a `Table`. `duckdb.register` overwrites an existing alias. `duckdb.unregister` of an alias that is not live is taken to be silent.

Three behaviours of the code that one might not expect, all reproduced by the model:

- The duplicate test at `app.py:74` looks up the source file name among the display keys, not the display key itself. So a sheet that is already registered is registered again, unless its workbook name is itself a display key (`RegisterSheetAgainReplaces`, `RegisterDuplicateIgnored`). Renaming a sheet whose workbook name is also a display key silently drops the entry (`RenameDropsShadowedEntry`).
- The generated alias is `"table"` followed by the registry size plus one. It repeats after a delete, so aliases are not unique and the registry and the engine can diverge (`AutoAliasCollision`). Rename does not check that the new alias is free (`RenameOntoLiveAlias`).
- One `try` covers the whole upload batch. An unsupported type therefore stops the registration of the remaining files (`RegisterPlainStops`).

`modules.py` as it stands does not match `app.py`:

- it declares `File` with a fifth field, `tabname`, but `app.py` builds `File` from four values;
- its extractor constructors take one argument, but `app.py` passes two to `ExcelDataExtractor`;
- it does not define `RegFile` at all;
- `ExcelDataExtractor.create_dataframe` (modules.py:23-25) calls `pd.read_excel` without the sheet name, so as written every sheet of a workbook would yield the first sheet's data. The model's `Extract` gives each sheet its own table, as `app.py` intends by passing the sheet name.

The model follows `app.py`: `File` is {name, type, size, data}, and `Entry` (`RegFile`) is {fullname, name, sheetname, type, size, data, tabname}, in the order of the constructor call at `app.py:64-72`.

## Model

| member | source | states |
|---|---|---|
| App.Session.constructor | app.py:182-183 | a new session has an empty registry and no live table, and is well formed |
| App.Session.RegisterFile | app.py:55-89 | the new registry and engine and the exception raised are exactly `Registry.Register` of the old state; well-formedness is kept |
| App.Session.UnregisterFile | app.py:92-94 | deletes the entry's key from the registry and its alias from the engine, and nothing else (`Registry.Unregister`) |
| App.Session.DeleteEntry | app.py:21-27 | the per-file delete button has the same effect as unregistering, with the engine updated first |
| App.Session.DeleteAll | app.py:29-33 | the loop over a snapshot of the entries, deleting as it goes, ends with an empty registry and the engine minus exactly the former entries' aliases (`Registry.ClearAll`) |
| App.Session.ChangeRegAlias | app.py:157-168 | the state and exception are exactly `Registry.Rename`: a reserved alias raises with nothing changed; otherwise unregister and then re-register the same file and sheet under the new alias |
| App.Session.FilterMultiSheets | app.py:145-154 | the nested loops return exactly `Sheets.FilterMulti` of the workbooks and the registered display keys |
| App.Session.RegisterPlainFiles | app.py:202-204 | the batch loop of the "Register file" button reaches exactly the state and exception of `Registry.RegisterPlain`, keeping well-formedness |
| App.Session.RegisterUploads | app.py:196-213 | registers every upload that is not a multi-sheet workbook, in upload order, stopping at the first exception (`Registry.RegisterPlain`); if nothing raised, it returns the workbooks' unregistered sheets for the dialog |
| App.Session.RegisterMatchingFiles | app.py:127-129 | registers the chosen sheet for every upload whose name matches, stopping at the first exception (`Sheets.RegisterMatching`) |
| App.Session.ConfirmSheets | app.py:120-130 | processes the ticked `selsheet_` keys in sorted order, parsing and registering each, and stops at the first exception (`Sheets.Confirm`) |
| Registry.CreateFileName | app.py:36-37 | `create_file_name(file, sheet)` is the file name followed by " - [sheet]": it starts with the file name, is five characters longer than file and sheet together, and ends in "]" |
| Registry.AutoAlias | app.py:62 | the generated alias `f"{FILE_DATA_ALIAS_PREFIX}{n}"` starts with "table", is longer than it, and continues with decimal digits only |
| Registry.ResolveAlias | app.py:57-62 | the alias register_file uses is never empty: the caller's when given, otherwise a generated one, which is reserved |
| Registry.Reserved | app.py:58 | the reserved test `startswith("table")` (also at app.py:158); a reserved alias is never empty, so the truthiness test at app.py:57 cannot hide one |
| Registry.Supported | app.py:77-84 | the type tags with an extractor: "csv", or a tag beginning with "xls" ("xlsx", "xls") |
| Registry.Extract | app.py:77-86 | the table the chosen extractor yields keeps the file's payload; a workbook's table is read from the sheet asked for, a CSV's from no sheet |
| Registry.CreateFileNameInjective | app.py:36-37 | within one workbook, different sheets get different display keys |
| Registry.DisplayKey | app.py:65 | the display key starts with the file name, and is the file name itself exactly when no sheet is given |
| Registry.Register | app.py:55-89 | `register_file` as a function of the state: an exception leaves registry and engine unchanged, and the reserved-alias error is raised exactly when a non-empty alias starts with "table" |
| Registry.Unregister | app.py:92-94 | `unregister_file`: the registry keeps every key but the entry's, and the engine every alias but the entry's |
| Registry.Rename | app.py:157-168 | `change_reg_alias`: the reserved-alias error is raised exactly when the new alias starts with "table"; for an entry under its own display key, no display key is added |
| Registry.ClearAll | app.py:29-32 | "Delete all": the registry becomes empty, the engine only loses aliases, and none of the former entries' aliases remains live |
| Registry.RegisterPlain | app.py:202-204 | the batch loop over uploads, skipping multi-sheet workbooks: the only exception it can end with is the unsupported-type error |
| Registry.RegisterReservedRejected | app.py:57-59 | a non-empty alias starting with "table" raises the reserved-alias error, and the registry and engine are unchanged |
| Registry.RegisterDuplicateIgnored | app.py:74-75 | if the source file name is already a registry key, register returns silently and nothing changes |
| Registry.RegisterUnsupportedRejected | app.py:77-84 | a type other than csv, xlsx or xls raises the unsupported-type error carrying that type, and nothing changes |
| Registry.RegisterInserts | app.py:55-89 | a successful register adds the display key (name, or "name - [sheet]"); the entry carries the file's fields and the resolved alias ("table" + (size+1) when none is given); that alias becomes live with the file's table; every other entry and alias is unchanged; the registry grows by one when the key is new |
| Registry.RegisterWellFormed | app.py:64-89 | registration keeps every entry under its own derived display key with a supported type |
| Registry.RegisterSheetAgainReplaces | app.py:74 | because the duplicate test uses the source name, re-registering a registered sheet is not skipped: the entry gets the generated alias `"table"` + (size+1) (which may equal an alias already live), the registry does not grow, and the old alias stays live in the engine; when the old alias differs from the generated one and no other entry carries it, no entry names it any more |
| Registry.AutoAliasReserved | app.py:57-62 | a generated alias starts with "table", so as a string it never equals an alias a user may choose (the engine's case-insensitive names are not modelled; see below) |
| Registry.AutoAliasInjective | app.py:62 | generated aliases for different counts differ |
| Registry.AutoAliasCollision | app.py:62 | register a, b, c (table1 to table3), delete a, register d: d also gets table3, the engine serves d's table under it, and deleting c then leaves d registered with no live table |
| Registry.ThreeCsvAliases | app.py:202-204 | three CSVs with distinct names registered into an empty registry get table1, table2, table3 in upload order, and exactly those aliases are live |
| Registry.RegisterPlainStops | app.py:196-213 | once an upload raises, no later upload of the batch is registered |
| Registry.RegisterPlainSkipsWorkbooks | app.py:202-204 | uploads that are all multi-sheet workbooks register nothing before their sheets are confirmed |
| Registry.RegisterPlainWellFormed | app.py:202-204 | the batch loop keeps the registry well formed |
| Registry.RegisterPlainRegistersAll | app.py:196-204 | when the batch completes, every upload that is not a multi-sheet workbook has its name among the display keys, whether it was added or skipped as a duplicate |
| Registry.RegisterPlainAddsOnlyUploads | app.py:196-204 | every display key the batch adds is the name of an upload that is not a multi-sheet workbook |
| Registry.RegisterPlainKeepsKeys | app.py:196-204 | the batch never removes a display key |
| Registry.UnregisterRemoves | app.py:92-94 | unregistering removes exactly the entry's key and exactly its alias, keeps the rest, and shrinks the registry by one |
| Registry.RenameReservedRejected | app.py:158-159 | renaming to an alias starting with "table" raises, and nothing changes |
| Registry.RenameKeepsDisplayKey | app.py:157-168 | renaming keeps the display key, file, sheet, type, size and payload; the entry gets the new alias (the generated one when the new alias is empty); the old alias leaves the engine and the new one is live with the same table; other entries are unchanged |
| Registry.RenameDropsShadowedEntry | app.py:160-168 | when the entry's source name is another entry's display key, the re-register is skipped as a duplicate, so the entry and its alias disappear without an error |
| Registry.RenameOntoLiveAlias | app.py:157-168 | renaming to another entry's alias is allowed: both entries carry the alias, and the engine serves the renamed entry's table under it |
| Registry.RenameWellFormed | app.py:157-168 | rename keeps the registry well formed |
| Registry.ClearAllForgets | app.py:29-32 | after "Delete all" the registry is empty, no former alias is live, and aliases that belonged to no entry are untouched |
| Registry.DeleteEachIsClearAll | app.py:21-32 | deleting every entry one at a time, in any order, gives the same state as "Delete all" |
| Sheets.NameSet | app.py:203 | `multi_sheets_files.keys()`: every workbook's name is in it |
| Sheets.NameSetExactly | app.py:203 | a name is among the workbook names exactly when some workbook carries it |
| Sheets.SelKey | app.py:114 | the checkbox key `f"selsheet_{file}_{sheet}"` starts with "selsheet_" and is that prefix, the file name, "_" and the sheet name in length |
| Sheets.ParseSelKey | app.py:124-126 | `split("_")` of a key, taking `parts[1]` and `parts[2]`: when there are enough parts, the parsed file and sheet names contain no "_"; otherwise no selection (the `IndexError`) |
| Sheets.SelectedKeys | app.py:121 | the ticked `selsheet_` keys of the session state: no more keys than checkboxes, each starting with "selsheet_" |
| Sheets.Keep | app.py:148-153 | the sheets of one workbook whose `create_file_name` is not registered: no more than the workbook has, each one of its sheets and unregistered |
| Sheets.FilterMulti | app.py:148-153 | `filter_multi_sheets`: no more workbooks than given, each listed one has at least one sheet and is one of the given workbooks |
| Sheets.RegisterMatching | app.py:127-129 | the inner confirm loop as a function: the only exception it can end with is the unsupported-type error |
| Sheets.Confirm | app.py:123-129 | the confirm loop as a function: it never raises the reserved-alias error, because it registers without an alias |
| Sheets.ParseSelKeyRoundTrip | app.py:112-126 | for names without "_", the key "selsheet_{file}_{sheet}" parses back to (file, sheet) through `split("_")`, `parts[1]` and `parts[2]` |
| Sheets.ParseSelKeyUnderscoreInName | app.py:121-129 | a workbook name containing "_" is cut at its first "_", so the key parses to another (file, sheet) pair |
| Sheets.SelectedKeysExactly | app.py:121 | a key is selected exactly when it starts with "selsheet_" and its checkbox is ticked |
| Sheets.ConfirmOrderDeterminate | app.py:121-123 | the processing order depends only on which keys are ticked, not on the order of the session state |
| Sheets.ConfirmTwoOfThreeSheets | app.py:120-130 | for a workbook with "Mar" and "Jan" ticked and "Feb" not, exactly those two sheets are registered, "Jan" first as table1 and "Mar" as table2 |
| Sheets.ConfirmStops | app.py:120-130 | once a selection raises, no later selection is registered |
| Sheets.RegisterMatchingStops | app.py:127-129 | once a matching upload raises, the loop registers nothing more |
| Sheets.ConfirmWellFormed | app.py:120-130 | confirming sheets keeps the registry well formed |
| Sheets.ConfirmAddsOnlyChosen | app.py:120-130 | every display key the confirm button adds is `create_file_name(file, sheet)` (or the file name for an empty sheet) of the pair some ticked key parses to |
| Sheets.ConfirmRegistersChosen | app.py:120-130 | when the confirm loop completes, every ticked sheet for which an upload carries the parsed workbook name has its display key registered, unless the workbook name itself is a display key and the duplicate test skipped it |
| Sheets.ConfirmCompletedParsesAll | app.py:120-126 | a confirm loop that completes parsed every key into three or more parts |
| Sheets.RegisterMatchingAddsOnly | app.py:127-129 | the inner loop adds no display key other than the chosen sheet's |
| Sheets.RegisterMatchingRegistersChosen | app.py:127-129 | when the inner loop completes and some upload carries the chosen name, the chosen sheet's display key or the workbook name is a display key |
| Sheets.KeepExactly | app.py:148-151 | a sheet is kept exactly when it is one of the workbook's sheets and `create_file_name(file, sheet)` is not a registry key |
| Sheets.KeepInOrder | app.py:148-151 | the kept sheets are a subsequence of the original list, in their original order |
| Sheets.FilterMultiExactly | app.py:145-154 | a workbook appears in the result, with exactly its kept sheets, exactly when it has at least one kept sheet |
| Sheets.FilterMultiInOrder | app.py:145-154 | the listed workbooks keep their original order |
| Strings.NatToString | app.py:62 | `str(n)` is a non-empty string of decimal digits with no leading zero, and has one digit exactly when n < 10 |
| Strings.NatToStringInjective | app.py:62 | different numbers print differently |
| Strings.Split | app.py:124 | `split("_")` returns at least one piece, and no piece contains the separator |
| Strings.SplitJoin | app.py:124 | joining pieces that contain no separator, then splitting, gives the pieces back |
| Strings.JoinSplit | app.py:124 | splitting, then joining, gives the string back |
| Strings.StartsWith | app.py:58 | `str.startswith` (also at app.py:121 and app.py:158): a string starting with a non-empty prefix is non-empty and shares its first character |
| Strings.StartsWithConcat | app.py:58 | a string starts with a prefix exactly when it is that prefix followed by the rest of the string |
| Strings.Below | app.py:122 | Python's `<=` on strings, the order `list.sort()` uses: a prefix is below any string it starts, and a non-empty string below another has a first character no greater than the other's |
| Strings.Sort | app.py:122 | `list.sort()` returns the same strings (as a multiset), in Python's string order |
| Strings.SortedUnique | app.py:122 | two sorted lists with the same strings are equal, so the sorted order is unique |

## Left out

- Streamlit rendering is not modelled: dialogs, widgets, `st.rerun`, layout, the error dialog, the preview selectbox and the row-count input (app.py:13-20, 97-118, 176-292). Only the registry changes those handlers make are modelled.
- The pandas extractors in modules.py are a foreign library. A `Table` stands for the extracted dataframe: the bytes it came from and the sheet asked for. Extraction fails only through the type check.
- `get_multiple_sheets_files` (the `pd.ExcelFile` sheet listing at app.py:44-52) is not modelled. `RegisterUploads` takes the workbooks and their sorted sheet lists as an input.
- `get_uploaded_files` and `extract_filetype` read the upload and depend on `os.path.splitext`, so they are not modelled. A `File` arrives with its lower-case type tag already set.
- The DuckDB query runner, the data preview and `clear_query_result` (app.py:171-173, 233-243, 281-286) belong to a foreign SQL engine and are not modelled.
- The size formatting in megabytes (app.py:19) is float arithmetic and is not modelled.
- The registry is a map, so the model does not capture the insertion order of the Python dict. That order decides the listing order and the order in which "Delete all" visits entries. `DeleteEachIsClearAll` shows the result does not depend on that order.
- `change_reg_alias` assigns `file.tabname` on the entry object after it has left the registry. The model treats entries as values, so that write to the detached object is not modelled.
- The engine's names are compared exactly here, as map keys, although DuckDB resolves table and view names without regard to case. So the model does not capture that a permitted alias such as "TABLE1" (the reserved test at app.py:58 and app.py:158 is a case-sensitive `startswith`) replaces the view registered as "table1" at app.py:87. `AutoAliasReserved` and `RenameKeepsDisplayKey` speak of aliases as strings.
- The engine is treated as private to the session. Sharing DuckDB's default connection between sessions is not modelled.
- `App.Session.UnregisterFile`, `App.Session.DeleteEntry` and `App.Session.ChangeRegAlias` require the entry's key to be present, because `del` would raise `KeyError` otherwise. Every caller in app.py passes a live entry. Every `Session` method except `FilterMultiSheets`, which only reads the registry, also requires `Valid()`, the invariant that the constructor establishes and every method keeps.
