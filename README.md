# Excel monitor: a verified model of the change-detection pipeline

The tool watches a handful of Excel workbooks. Every cycle it asks Excel to
refresh each workbook, hashes the file's bytes and compares the digest with the
one it stored for that path. A file seen for the first time, or whose digest
changed, is converted to CSV in a save folder and mailed to a list of
recipients. The only state is `FileMonitorHandler.file_hashes`, a dictionary
from path to digest.

This project models that core in Dafny:

- `pystr.dfy` (module `PyStr`): the Python string operations the core uses.
  These are `str.strip()` with Python's whitespace set, `str.split(',')`,
  `str.replace(old, new)`, and `int()` on a string of decimal digits.
- `winpath.dfy` (module `WinPath`): `os.path.basename` and `os.path.join` as
  `ntpath` does them on Windows. It also holds the output-path rule of
  main.py:57, `OutputCsvPath`.
- `pipeline.dfy` (module `Pipeline`): the behaviour as functions of what the
  foreign calls do.
  - A `FileEvent` says whether the refresh returns or raises, whether hashing
    raises or gives a digest, whether the pandas conversion raises, and how the
    send to each recipient goes.
  - `CheckFile` is one visit of a file, `Sweep` one cycle, `Run` a run of
    cycles, and `Attempts` the recipient loop.
- `handler.dfy` (module `Handler`): class `FileMonitorHandler`. It has a
  `map` field `fileHashes` and methods with the source's loops. Each method is
  proved equal to the matching function of `Pipeline`.
- `app.dfy` (module `App`): the input parsing and start guard of
  `start_monitoring`.
- `scenario.dfy` (module `Scenario`): one workbook, two recipients, three
  cycles. The file is new, then unchanged, then changed.

These are the points where main.py's behaviour is easy to misread. The model
follows the code:

- The stop event is read only at the top of the `while` loop, not between
  files.
- A conversion failure still stores the new digest, because `process_file`
  swallows it, so the change is not retried.
- The first recipient whose send raises ends the sending for that file. Later
  recipients are not tried.
- "No recipients" can never stop the start: `split(',')` always gives at least
  one piece.
- The CSV name is the basename with every `.xlsx` replaced. The extension
  itself is not removed. A name without `.xlsx` (such as `REPORT.XLSX`) keeps
  its name. A source spelled `Join(saveFolder, name)` in the save folder is
  overwritten by its CSV (`WinPath.CsvOverwritesSourceWithoutXlsx`). The file
  dialog spells it `saveFolder/name`, and the CSV path then differs from that
  string only in its last separator, `\` for `/`. On Windows both name the same
  file (`WinPath.CsvBesideSlashSource`).

## Model

| member | source | states |
|---|---|---|
| `PyStr.Strip` | main.py:72 | `str.strip()` over Python's whitespace set; its properties are in `PyStr.StripSpec`, `PyStr.StripKeepsTrimmed` and `PyStr.StripIdempotent` |
| `PyStr.StripSpec` | main.py:91 | `strip()` keeps the slice between leading and trailing whitespace, and that slice neither starts nor ends with whitespace |
| `PyStr.StripKeepsTrimmed` | main.py:91 | an address with no surrounding whitespace is used as it is |
| `PyStr.StripIdempotent` | main.py:91 | stripping twice is stripping once |
| `PyStr.Split` | main.py:167 | `split(',')` never returns an empty list |
| `PyStr.SplitJoin` | main.py:167 | joining the pieces with the separator gives back the text |
| `PyStr.SplitPiecesFree` | main.py:167 | no piece contains the separator |
| `PyStr.SplitWithoutSep` | main.py:167 | a text without a comma is a single recipient |
| `PyStr.SplitAtFirstSep` | main.py:167 | the text before the first comma is the first recipient, followed by the pieces of the rest |
| `PyStr.ReplaceAll` | main.py:57 | `str.replace` scanning left to right and replacing every non-overlapping occurrence; see `PyStr.ReplaceAbsent`, `PyStr.ReplaceAppended`, `PyStr.ReplacedPrefix` and `WinPath.ReplacedNameHasNoXlsx` |
| `PyStr.ReplaceAbsent` | main.py:57 | `replace` leaves a text without the pattern unchanged |
| `PyStr.ReplaceAppended` | main.py:57 | an occurrence appended at the end is replaced on its own, when the pattern's first character does not recur in it |
| `PyStr.ReplacedPrefix` | main.py:57 | a replaced text starts with a word free of the replacement's first character only if the original did |
| `PyStr.ParseInt` | main.py:168 | `int()` on the frequency text: a value exactly for a non-empty string of decimal digits; see `PyStr.ParseDecimal` and `App.FrequencyChoicesParse` |
| `PyStr.ParseDecimal` | main.py:168 | `int(str(n)) == n` |
| `WinPath.Basename` | main.py:57 | `os.path.basename` on Windows: the drive is dropped and the part after the last separator kept; see `WinPath.TailSpec` and `WinPath.BasenameOfJoin` |
| `WinPath.Join` | main.py:57 | `os.path.join` of a folder and a plain name, with a backslash added unless the folder is empty past its drive or ends with a separator; see `WinPath.BasenameOfJoin` and `WinPath.JoinExtendsFolder` |
| `WinPath.OutputCsvPath` | main.py:57 | the CSV path of `process_file`; see `WinPath.OutputPathInSaveFolder`, `WinPath.NameWithoutXlsxKept`, `WinPath.XlsxExtensionBecomesCsv`, `WinPath.OutputNameHasNoXlsx` and `WinPath.CsvOverwritesSourceWithoutXlsx` |
| `WinPath.TailSpec` | main.py:57 | the basename is the part after the last `/` or `\`: a separator-free suffix preceded by a separator or by nothing |
| `WinPath.BasenameOfJoin` | main.py:57 | the basename of a folder joined with a plain file name is that name |
| `WinPath.JoinExtendsFolder` | main.py:57 | the joined path begins with the folder |
| `WinPath.OutputPathInSaveFolder` | main.py:57 | the CSV path lies in the save folder and is named by the source basename with `.xlsx` replaced by `.csv` |
| `WinPath.NameWithoutXlsxKept` | main.py:57 | a basename without `.xlsx` is kept unchanged |
| `WinPath.XlsxExtensionBecomesCsv` | main.py:57 | `<stem>.xlsx` becomes `<stem>.csv` when the stem holds no other `.xlsx` |
| `WinPath.ReplacedNameHasNoXlsx` | main.py:57 | no `.xlsx` survives the replacement |
| `WinPath.OutputNameHasNoXlsx` | main.py:57 | the CSV's basename contains no `.xlsx` |
| `WinPath.CsvOverwritesSourceWithoutXlsx` | main.py:57-58 | a source spelled `Join(saveFolder, name)` whose name lacks `.xlsx` has its CSV written over itself |
| `WinPath.CsvBesideSlashSource` | main.py:57-58 | a source spelled `saveFolder/name` whose name lacks `.xlsx` gets the CSV path `saveFolder\name`, which differs from it only in that separator |
| `Pipeline.AttemptsFrom` | main.py:69-96 | the recipient loop from position k on, ended by the first send that raises; see `Pipeline.AttemptsFromInOrder` |
| `Pipeline.Attempts` | main.py:64-96 | the whole recipient loop of `send_email`; see `Pipeline.AttemptsInOrder`, `Pipeline.NoRecipientAfterFailure`, `Pipeline.AllRecipientsTriedWithoutFailure` and `Handler.FileMonitorHandler.SendEmail` |
| `Pipeline.Process` | main.py:53-62 | `process_file`: a failed conversion is swallowed, otherwise the CSV path is derived and the recipients are tried; see `Handler.FileMonitorHandler.ProcessFile` |
| `Pipeline.CheckFile` | main.py:27-39 | one visit of a file in the `for` loop; see `Pipeline.FirstSighting`, `Pipeline.UnchangedFile`, `Pipeline.HashRecordedDespiteFailures`, `Pipeline.SkippedFile` and `Pipeline.CheckFileTouchesOnlyItsPath` |
| `Pipeline.Run` | main.py:24-41 | the `while` loop over cycles; see `Pipeline.RunKeysWithin`, `Pipeline.UnchangedNextCycle` and `Handler.FileMonitorHandler.RefreshAndCheckChanges` |
| `Pipeline.AttemptsFromInOrder` | main.py:69-96 | from position k on, recipients are tried in order under their stripped address, every one but the last succeeded, and the loop ends early only on a raise |
| `Pipeline.AttemptsInOrder` | main.py:64-96 | the same for the whole recipient list |
| `Pipeline.NoRecipientAfterFailure` | main.py:69-96 | after a send raises, no later recipient is tried |
| `Pipeline.AllRecipientsTriedWithoutFailure` | main.py:69-94 | when no send raises, every recipient is tried |
| `Pipeline.FirstSighting` | main.py:32-35 | a path with no stored hash is processed and its digest recorded |
| `Pipeline.UnchangedFile` | main.py:32-37 | a file whose digest equals the stored one is not processed, and the map is unchanged |
| `Pipeline.HashRecordedDespiteFailures` | main.py:34-35 | once refresh and hashing return, the digest is stored whatever the conversion and the sends did, and the file is processed exactly when it changed |
| `Pipeline.SkippedFile` | main.py:27-39 | a visit is skipped exactly when refresh or hashing raises, and a skipped visit keeps the map |
| `Pipeline.CheckFileTouchesOnlyItsPath` | main.py:35 | visiting a path changes no other path's entry and adds no other key |
| `Pipeline.Sweep` | main.py:26-39 | one cycle gives one verdict per monitored file |
| `Pipeline.SweepVerdictAt` | main.py:26-39 | the verdict at position j is that of visiting file j with the map left by the files before it, whatever happened to them |
| `Pipeline.SweepKeysWithin` | main.py:26-35 | a cycle adds only keys that are monitored files |
| `Pipeline.SweepLeavesOthers` | main.py:26-35 | a path absent from positions j..n-1 has the same entry after n files as after j |
| `Pipeline.SweepRecords` | main.py:26-35 | a file whose refresh and hash return ends the cycle with that digest stored, unless the path recurs later in the list |
| `Pipeline.FirstSightingInCycle` | main.py:26-35 | a monitored file with no stored hash, at its first position in the list, is processed in the cycle when refresh and hash return |
| `Pipeline.UnchangedNextCycle` | main.py:24-39 | when no path is listed twice, a file whose refresh and hash return with the same digest in two consecutive cycles gets `NoChange` in the second |
| `Pipeline.RunKeysWithin` | main.py:24-41 | over any number of cycles the stored paths stay among the monitored files, and each cycle logs once |
| `Handler.FileMonitorHandler.constructor` | main.py:16-22 | the handler keeps its four inputs and starts with an empty map |
| `Handler.FileMonitorHandler.RefreshAndCheckChanges` | main.py:24-41 | the `while` loop runs one cycle per clear read of the stop event, and leaves the log and map that `Run` gives, keeping the keys among the monitored files |
| `Handler.FileMonitorHandler.CheckFiles` | main.py:26-39 | the `for` loop updates the map in place and returns the verdicts and map that `Sweep` gives |
| `Handler.FileMonitorHandler.ProcessFile` | main.py:53-62 | a conversion failure is swallowed and nothing is sent; otherwise the CSV path is that of main.py:57 and the recipients are tried |
| `Handler.FileMonitorHandler.SendEmail` | main.py:64-96 | the recipient loop tries exactly the recipients `Attempts` gives |
| `App.StartMonitoring` | main.py:166-176 | `start_monitoring`: split the e-mail text, parse the frequency, apply the guard and build the settings; see `App.StartGuard` and `App.StartedConfig` |
| `App.StartGuard` | main.py:166-172 | monitoring starts exactly when the frequency parses and the monitor folder, the files and the save folder are all non-empty; the e-mail text never blocks it |
| `App.StartedConfig` | main.py:167-176 | a started handler gets the selected files, the save folder and the parsed frequency; its recipients are the comma pieces of the text, at least one, together the whole text |
| `App.FrequencyChoicesParse` | main.py:130 | every drop-down choice parses to a positive number of minutes |
| `Scenario.ScenarioCsvPath` | main.py:57 | `C:/data/A.xlsx` saved to `C:/out` becomes `C:/out\A.csv` |
| `Scenario.ThreeCycles` | main.py:24-41 | for one workbook and two recipients: the first cycle converts and mails both, the second sees no change, the third converts and mails again; the map ends with the last digest |

## Left out

- Excel refresh through win32com (main.py:43-51) is a Windows COM call. Only whether it returns or raises is modelled. Its rewrite of the workbook on disk is not.
- The pandas conversion (main.py:56, 58) is a single outcome for `read_excel` and `to_csv` together. The CSV content and a partly written file after a failed `to_csv` are not modelled.
- Mail sending (main.py:70-92) keeps only whether the send to each recipient raised. SMTP, STARTTLS, login, MIME assembly and base64 are left out, and so is the attachment file handle that is never closed. A send that raises after the server accepted the mail counts as a failure.
- `hash()` of the file bytes (main.py:100) is an abstract integer supplied with each visit. It is salted per process, so nothing is claimed across runs. Two different contents with the same digest count as unchanged.
- Threads, the stop `Event`, `join` and `time.sleep(frequency * 60)` (main.py:41, 179-191) are concurrency and timing. The stop event is modelled only as the number of loop-top reads that find it clear. `frequency` is stored but drives nothing in the model.
- The Tk form: widgets, file dialogs, `mainloop` and `on_closing` (main.py:104-164, 187-191). The form's values are the inputs of `App.StartMonitoring`, and `selected_files` is a sequence (a cancelled dialog is the empty one).
- The unused watchdog `Observer` import (main.py:9), the hard-coded credentials (main.py:66-67) and all `print` output.
- `WinPath.TailSpec`: `ntpath` also splits off a UNC drive (`\\server\share`). The model does not, so the basename differs only for a bare UNC root, which is never a selected file.
- `WinPath.BasenameOfJoin`: `Join` models `ntpath.join` only for a second argument with no separator and no drive, which is all main.py:57 passes.
- `PyStr.ReplaceAbsent`: `ReplaceAll` requires a non-empty pattern, so the empty-pattern case of `str.replace` is not modelled. The core only replaces `.xlsx`.
- `PyStr.ParseDecimal`: `ParseInt` accepts only ASCII digit strings. Python's `int()` also takes surrounding whitespace, a sign, underscores and other Unicode digits. The drop-down offers only five digit strings.
- `int()` raising in `start_monitoring` is an uncaught exception in a Tk callback. It is modelled as the outcome `FrequencyRaises`.
- The monitor folder (`folder_path`) is checked by the guard but used nowhere else. The model checks it the same way.
