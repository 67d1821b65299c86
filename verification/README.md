# Presence-toggle differencing engine of platform-compat (scan-bcl / ex-scan)

This project models the core of the tools that report which members of the base class library change their
exception-throwing behaviour between two library versions.

- **Store** (`src/scan-bcl/Model.cs`): the key-unique `Database`. It maps a DocId to an entry. `Add` raises on a
  duplicate key and `Remove` ignores an absent one. The model's `Database<P>` is a map whose values are stored under
  their own DocId. That invariant is part of the type.
- **ToggleSet**: the presence-toggle step that the reporter and the CSV import share. A present DocId is removed
  and an absent one is added. Folding the step over entries with distinct DocIds gives a symmetric difference.
- **Reporter** (`src/scan-bcl/DatabaseReporter.cs`): `Query` and `WriteMember`. Non-throwing results are ignored.
  Throwing members are toggled and tagged with the reporter's api label and the result's level. The module also
  proves the two-pass theorem and the baseline/target scenario.
- **CsvDiff** (`src/scan-bcl/Program.cs`): `ImportCsv` toggles report rows, with the match taken on DocId,
  Namespace, Type and Member. `Scan` imports two reports into one fresh store. `ExportCsv` writes the entries
  sorted by Namespace, Type, Member, DocId and Nesting. The module also proves the export/import round trip.
- **Ordering**: the export order, with strings compared ordinally. It is a total order, so the sorted export is
  unique.
- **ScanBcl** (`src/scan-bcl/Program.cs`): `TryParseArguments` (`switch:value` tokens), and the gating in `Run` and
  `Main`.
- **ExScan** (`src/ex-scan/Program.cs`): `PackageIndex.IsInbox`, the inbox filter loop of `Run`, and the
  argument-count and exit-code dispatch of `Main`.

What the code does, stated plainly:

- Every pass toggles: `WriteMember` and `ImportCsv` check presence on every row, in the first pass as in the
  second. A row repeated inside one report therefore cancels itself out, provided no other row before the second
  copy carries the same DocId and the store starts without it or with that very row (`DuplicateRowCancels`). A row in between with
  the same identity columns removes the first copy, whatever its Nesting, and the second copy then adds the row
  back (`InterleavedRowReAdds`).
- The CSV entry carries an integer `Nesting` column, not a version label and severity. `ExportCsv` sorts on
  Nesting last.
- `DatabaseReporter` calls a `Contains` and a six-argument `Add` that `Model.cs` does not declare. The model makes
  the store generic over the payload after the four identity columns:
  - the CSV side stores `int` (Nesting);
  - the reporter stores `ApiLevel(api, level)`;
  - `Contains` is key membership.
- `ImportCsv` finds its match with `Single` over all stored values, not by key lookup. `ImportRow` models that
  literally. `MatchesAtKey` shows that, because entries are keyed by DocId, the match is the entry under the row's
  DocId. A row that shares a DocId but differs in Namespace, Type or Member therefore reaches `Add` and raises.

The external world is passed in as parameters:

- `Path.GetFullPath` is the function `fullPath`.
- The scan-bcl machine (scanner present, existing directories, scan exit codes, report rows) is `ScanBcl.Host`.
- The ex-scan machine (decoded index file, file/directory tests, loaded assembly names, I/O faults) is `ExScan.Host`.
- A thrown exception is a `Result.Failure`, a `RunOutcome.Threw` or an `Exit.Crash`.

## Model

| member | source | states |
|---|---|---|
| Store.Add | src/scan-bcl/Model.cs:41-45 | Succeeds exactly when the DocId is absent. On success the keys grow by that DocId, the new entry holds the arguments, and every old entry is unchanged. On a present DocId it raises DuplicateKey and never overwrites. |
| Store.Remove | src/scan-bcl/Model.cs:47-50 | Removes exactly the given key and leaves every other entry unchanged. On an absent key the store is unchanged and nothing is raised. |
| Store.EntriesCount | src/scan-bcl/Model.cs:52 | The value set has one entry per key, so its size equals the number of keys. |
| Store.Contains | src/scan-bcl/DatabaseReporter.cs:24 | Key membership holds exactly when some stored entry carries the DocId. |
| Store.Entries | src/scan-bcl/Model.cs:52 | Every stored value is listed, and every listed entry is the one stored under its own DocId. |
| ToggleSet.Toggle | src/scan-bcl/DatabaseReporter.cs:31-37 | The toggled DocId is present afterwards exactly when it was absent before, and then it holds the entry. All other keys and entries are unchanged. |
| ToggleSet.ToggleAllIsSymDiff | src/scan-bcl/DatabaseReporter.cs:27-39 | Toggling entries with distinct DocIds in order yields the symmetric difference of the starting store and those entries. |
| ToggleSet.ToggleTwice | src/scan-bcl/DatabaseReporter.cs:31-37 | Toggling the same entry twice restores the store when its DocId was absent or held that very entry. |
| ToggleSet.ToggleAllConcat | src/scan-bcl/Program.cs:137-157 | Toggling a concatenation toggles the first part, then the second. |
| ToggleSet.ToggleCommute | src/scan-bcl/DatabaseReporter.cs:31-37 | Toggles of entries with different DocIds commute. |
| ToggleSet.TogglePast | src/scan-bcl/DatabaseReporter.cs:31-37 | A toggle can be moved past a run of toggles that never carries its DocId. |
| ToggleSet.ToggleAllFrame | src/scan-bcl/DatabaseReporter.cs:31-37 | A run of toggles that never carries a DocId leaves that DocId's presence and entry unchanged. |
| ToggleSet.ToggleRepeatCancels | src/scan-bcl/DatabaseReporter.cs:31-37 | An entry occurring twice cancels out when nothing before its second occurrence carries its DocId and the store starts without it or with that entry. |
| Reporter.Query | src/scan-bcl/DatabaseReporter.cs:23-25 | True exactly when some stored entry has the DocId. |
| Reporter.WriteMember | src/scan-bcl/DatabaseReporter.cs:27-39 | Never raises. A non-throwing result leaves the store unchanged. A throwing absent member is added with the reporter's api label and the result's level. A throwing present member is removed. Other entries are unchanged. |
| Reporter.ReportPass | src/scan-bcl/DatabaseReporter.cs:19-21 | A pass touches only the DocIds observed throwing: every other entry stays as it was, no other key appears, and every new or changed entry carries the pass's api label. |
| Reporter.PassIsToggle | src/scan-bcl/DatabaseReporter.cs:19-39 | A pass of reports toggles exactly the throwing observations, in order. |
| Reporter.PassFromEmpty | src/scan-bcl/DatabaseReporter.cs:27-39 | When no member is observed throwing twice in the pass, one pass from an empty store leaves exactly that pass's throwing members under its label. |
| Reporter.TwoPassSymDiff | src/scan-bcl/DatabaseReporter.cs:27-39 | When no member is observed throwing twice in a pass, two passes from an empty store leave the symmetric difference of their throwing entries. |
| Reporter.TwoPass | src/scan-bcl/DatabaseReporter.cs:27-39 | When no member is observed throwing twice in a pass, a DocId is in the final store exactly when it threw in one pass but not the other. It holds exactly the entry that pass alone would have stored, under that pass's label, so a member that stops throwing keeps its first-pass entry. |
| Reporter.WriteMemberTwice | src/scan-bcl/DatabaseReporter.cs:31-37 | Reporting the same throwing member twice restores the store when it was absent, or present with the entry it would write. |
| Reporter.WriteMemberTwiceRelabels | src/scan-bcl/DatabaseReporter.cs:31-37 | If the member was already present, reporting it twice keeps the key set and re-adds it with this reporter's label and level. |
| Reporter.BaselineTargetScenario | src/scan-bcl/DatabaseReporter.cs:27-39 | Scenario: the baseline sees A and B throw. The target sees A and C throw and D not throw. Exactly B (baseline label) and C (target label) remain. |
| Ordering.Insert | src/scan-bcl/Program.cs:166-170 | Inserting into a sorted sequence yields a sorted permutation of the sequence plus the element. |
| Ordering.EntryLeTotal | src/scan-bcl/Program.cs:166-170 | Any two entries are ordered by the Namespace, Type, Member, DocId, Nesting key. |
| Ordering.EntryLeAntisymmetric | src/scan-bcl/Program.cs:166-170 | Two entries that each sort no later than the other are equal. |
| Ordering.EntryLeTransitive | src/scan-bcl/Program.cs:166-170 | The export order is transitive. |
| Ordering.SortedUnique | src/scan-bcl/Program.cs:166-172 | Two sorted sequences with the same elements are identical. |
| CsvDiff.MatchesAtKey | src/scan-bcl/Program.cs:146-148 | The entries matching a row on the four identity columns are at most the entry under the row's DocId. |
| CsvDiff.ImportRow | src/scan-bcl/Program.cs:142-154 | A stored entry equal on DocId, Namespace, Type and Member is removed. An absent DocId is added with the row. A DocId stored with different identity columns raises DuplicateKey. |
| CsvDiff.ImportCsv | src/scan-bcl/Program.cs:133-158 | An import touches only the DocIds of the report's rows: every other entry stays as it was, no other key appears, and an exception names the DocId of one of the rows. |
| CsvDiff.ImportIsToggle | src/scan-bcl/Program.cs:133-158 | When rows sharing a DocId agree on the identity columns, with each other and with the store, the import never raises and is the presence toggle of each row. |
| CsvDiff.DuplicateRowCancels | src/scan-bcl/Program.cs:142-154 | A row occurring twice in a report cancels out, provided no row before its second occurrence carries its DocId and the store starts without it or with that very row. This holds for any other rows: when one of them raises, both imports raise the same exception. |
| CsvDiff.ImportConcat | src/scan-bcl/Program.cs:137-157 | Importing a concatenation imports the first part, then the second into its result. A failure in the first part is the failure of the whole. |
| CsvDiff.ImportOff | src/scan-bcl/Program.cs:142-154 | Rows that never carry a DocId import in lockstep into two stores that differ only at that DocId. Both raise the same exception, or both succeed with stores that still differ only there. |
| CsvDiff.InterleavedRowReAdds | src/scan-bcl/Program.cs:142-154 | Rows r, s, r with s sharing r's identity columns import into an empty store as just r: the middle row removes the first copy regardless of Nesting. |
| CsvDiff.Scan | src/scan-bcl/Program.cs:118-131 | If either report path is missing, the result is an empty store. |
| CsvDiff.ScanSymDiff | src/scan-bcl/Program.cs:118-131 | Scanning two agreeing reports with distinct DocIds yields the symmetric difference of their row stores. |
| CsvDiff.ScanIsSymmetricDifference | src/scan-bcl/Program.cs:118-131 | For reports with distinct DocIds that agree on shared members, a DocId is kept exactly when it is in one report only, and it keeps that report's row. A DocId in both reports is excluded. |
| CsvDiff.ExportCsv | src/scan-bcl/Program.cs:160-174 | The rows are a permutation of the stored entries, one per key, sorted in the export order. |
| CsvDiff.ExportDeterministic | src/scan-bcl/Program.cs:166-172 | Any two exports of the same store are the same sequence. |
| CsvDiff.ExportImportRoundTrip | src/scan-bcl/Program.cs:133-174 | Importing an export into an empty store reproduces the store. |
| ScanBcl.Split | src/scan-bcl/Program.cs:46 | No piece contains the separator, and joining the pieces with the separator gives back the argument. |
| ScanBcl.SplitCount | src/scan-bcl/Program.cs:46-48 | The number of tokens is one more than the number of colons. |
| ScanBcl.WellFormedOneColon | src/scan-bcl/Program.cs:46-63 | An argument is accepted exactly when it has one colon and a known switch before it. |
| ScanBcl.DriveLetterRejected | src/scan-bcl/Program.cs:46-48 | `-out:C:\x` splits into three tokens and is rejected. |
| ScanBcl.TryParseArguments | src/scan-bcl/Program.cs:35-67 | Fails below one or above three arguments, and on any malformed argument or unknown switch. Succeeds exactly when, besides that, the resolved last `-out` value is set and not blank. Each path is the resolved last value of its switch, and the BCL paths may be unset. |
| ScanBcl.Run | src/scan-bcl/Program.cs:69-97 | Raises when the scanner is missing or a BCL directory is missing or null. Exports a sorted permutation of the scan diff exactly when both scans succeed and the diff does not raise. A duplicate-key failure is the diff's own failure. |
| ScanBcl.ExitCode | src/scan-bcl/Program.cs:17-33 | Exits with 1 exactly when the command line is rejected. Crashes exactly when the command line is accepted and `Run` raises. Exits with 0 exactly when the command line is accepted and `Run` does not raise, including when a scan fails and nothing is exported. |
| ExScan.IsInbox | src/ex-scan/Program.cs:26-40 | With no package map: true. Assembly not listed: false. Listed: true exactly when its InboxOn map is set and contains the framework. A null package raises. |
| ExScan.ScanList | src/ex-scan/Program.cs:94-96 | Succeeds exactly when no IsInbox call raises. It then holds exactly the enumerated assemblies that are inbox for net5.0. |
| ExScan.ScanListConcat | src/ex-scan/Program.cs:94-96 | Filtering keeps the enumeration order: filtering a concatenation concatenates the filtered parts. |
| ExScan.DefaultScansAll | src/ex-scan/Program.cs:94-96 | With the default index every assembly is scanned, in order. |
| ExScan.LoadIndex | src/ex-scan/Program.cs:52-60 | With other than three arguments the default index is used. With three, loading succeeds exactly when the file decodes to an index with a package map. |
| ExScan.ExitCode | src/ex-scan/Program.cs:43-82 | Fewer than two arguments exit with 1. The program crashes exactly when the index load fails, which can only happen with three arguments. An input that is neither file nor directory exits with 1. Otherwise the exit code is 0 exactly when `Run` completes and 1 when it raises; no other code is returned. |
| ExScan.IndexReadOnlyWithThreeArgs | src/ex-scan/Program.cs:52-60 | With other than three arguments the index file has no influence on the outcome. |

## Left out

- Spawning `mono ex-scan.exe` and streaming its output (`ScanBCL`) are process I/O. Each scan is a success boolean
  in `ScanBcl.Host`, and the report it writes is a given sequence of rows.
- Filesystem access, directory creation, `Path.Combine` and `Path.GetFullPath` are left out, and paths are opaque
  strings. `GetFullPath` is the parameter `fullPath`. Its own exceptions (an empty or invalid path) are not
  modelled.
- CSV text encoding and decoding (CsvHelper, Microsoft.DotNet.Csv) are foreign libraries. Rows are records, the
  header row is not modelled, and neither are malformed-row parse errors.
- JSON decoding of the package index is replaced by the decoded value, or by a null document or unreadable file.
- Assembly loading, `ExceptionScanner` and the throw classifier are not visible. A pass is a given sequence of
  (member, throws, level) observations, and ex-scan assemblies are given names.
- Console logging, usage text and async `Main` are left out.
- Ordering.EntryLeTotal: strings are compared ordinally by Unicode scalar value. The source's `OrderBy` uses the
  culture-sensitive default comparer.
- ExScan.ExitCode: an I/O or scanner exception inside `Run` is one abstract flag, `ioFault`. Which assembly raised is
  not modelled.
