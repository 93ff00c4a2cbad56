# Catchup time estimate — a Dafny model

`time_estimate.go` estimates how long a PostgreSQL replica being built from a
wal-g base backup needs to replay the write-ahead log (WAL) produced since
that backup. It

1. finds the backup's creation time in the output of
   `wal-g backup-list --detail`: the first line that mentions the backup name
   and has at least three fields decides, and its third field is read as a
   UTC timestamp `YYYY-MM-DDTHH:MM:SSZ`;
2. lists, from the output of `wal-g wal-show`, the segment names (second
   field) of the lines whose first field is a timestamp strictly after the
   backup time, in listing order, silently skipping malformed lines;
3. takes a fixed cost of ten seconds per segment;
4. checks the destination's control record against the local server: the
   system identifiers first, then the timelines;
5. receives the destination's file list, asks the local server for its
   current log position (LSN);
6. prints `segments × 10 s`, and only if no stage failed.

The model keeps this decision logic and turns every outside call into an
input: the text a command printed (or its error), the decoded control record
(or a decode error), the local server's identity (or an error), and the
success or error of the remaining collaborators.

Modules, one per file:

- `Results` (`results.dfy`): the errors and the Go `(value, error)` pairs.
- `GoStrings` (`gostrings.dfy`): `strings.Split(s, "\n")`, `strings.Fields`,
  `strings.Contains` and `unicode.IsSpace`, each with the facts the scans rely on.
- `Timestamps` (`timestamps.dfy`): the layout `2006-01-02T15:04:05Z`, parsing
  and formatting as exact inverses, and `Time.After`.
- `BackupLocator` (`backup_locator.dfy`): `getBackupCreationTime` as a loop
  method proved equal to a recursive specification `Locate`.
- `WalScanner` (`wal_scanner.dfy`): `getWALFilesSince` as a loop method
  proved equal to a recursive specification `FilesSince`.
- `Handshake` (`handshake.dfy`): the comparisons in `establishConnection`.
- `Estimator` (`estimator.dfy`): `estimateWALApplyTime` and
  `estimateCatchupTime`, the latter returning its error and what it printed.

Three points of the code's behaviour are easy to misread:

- A line that is the first candidate but whose third field does not parse as
  a timestamp ends the lookup with that parse error. It is not treated as
  "not found", and later lines are not consulted
  (`BackupLocator.FirstCandidateDecides`).
- The cost of one segment is the constant ten seconds; nothing measures or
  configures it.
- The destination's file list is received in `estimateCatchupTime` after
  `establishConnection` has returned, not inside the handshake.

`time_estimate.go` as it stands does not compile: the locals `writer`
(line 79), `encoder` (line 120), `info` (line 133) and `lsn` (line 141) are
never used, `log` is used (lines 160 and 165) but not imported, and several
imports are unused. The model follows what the code evidently intends; none
of its behaviour was observed by running the program.

## Model

| member | source | states |
|---|---|---|
| `GoStrings.SplitLinesPieces` | time_estimate.go:37 | `strings.Split(output, "\n")`: one piece more than there are newlines, no piece holds a newline, and joining the pieces with newlines gives the text back |
| `GoStrings.SplitJoinLines` | time_estimate.go:56 | splitting newline-free lines joined by newlines gives those lines back, so Split and Join are inverse |
| `GoStrings.FieldsAreWords` | time_estimate.go:40 | `strings.Fields(line)`: every field is non-empty and has no white space |
| `GoStrings.FieldsKeepNonSpace` | time_estimate.go:40 | `strings.Fields(line)`: the fields hold exactly the line's non-space characters, in order |
| `GoStrings.FieldsWord` | time_estimate.go:40 | `strings.Fields`: a word followed by nothing or by white space is exactly one field, the first |
| `GoStrings.FieldsAtSpace` | time_estimate.go:40 | `strings.Fields`: every white-space code point separates fields, so the fields of a text cut at a space are the fields before it followed by those after it; with `FieldsWord` this fixes every field boundary |
| `GoStrings.FieldsJoinWords` | time_estimate.go:59 | Fields of words joined by single spaces is exactly those words |
| `GoStrings.Contains` | time_estimate.go:39 | `strings.Contains(line, backupName)` holds exactly when the name occurs at some position of the line (always for an empty name) |
| `Timestamps.ParseTimestamp` | time_estimate.go:42 | `time.Parse` with the fixed layout: a success is a valid calendar timestamp whose formatted text is exactly the input; a failure names the input |
| `Timestamps.ParseFormat` | time_estimate.go:61 | every valid timestamp parses back from its formatted text, so parsing and formatting are inverse |
| `Timestamps.ParseAcceptsExactlyFormatted` | time_estimate.go:42 | the layout accepts a text exactly when it is the text of some valid timestamp |
| `Timestamps.AfterIsStrictTotalOrder` | time_estimate.go:62 | `Time.After` is irreflexive and transitive, and orders any two distinct timestamps one way |
| `BackupLocator.GetBackupCreationTime` | time_estimate.go:32-47 | the loop with early return computes `LocateBackup`: a failed catalog command's error, or the lookup over the output's lines |
| `BackupLocator.FirstCandidateDecides` | time_estimate.go:38-44 | the first line that contains the name and has at least three fields decides: the result is the parse of its third field, success or error; earlier lines with the name but fewer fields are skipped |
| `BackupLocator.NotFoundIffNoCandidate` | time_estimate.go:38-46 | "backup not found" is returned exactly when no line both contains the name and has at least three fields |
| `BackupLocator.LaterLinesIgnored` | time_estimate.go:41-42 | once a candidate line exists, lines after it cannot change the result, not even when its timestamp is malformed |
| `BackupLocator.LongerNameListedFirstWins` | time_estimate.go:39 | the name is matched as a substring: an earlier line of a backup whose name starts with the sought name supplies the creation time |
| `WalScanner.GetWalFilesSince` | time_estimate.go:51-68 | the append loop computes `WalFilesSince`: a failed listing command's error, otherwise always success with the newer segments in order |
| `WalScanner.FilesSinceAppend` | time_estimate.go:58-65 | scanning two listings in sequence gives the first's result followed by the second's |
| `WalScanner.SetPositions` | time_estimate.go:58-65 | the positions of the marked lines, strictly ascending, each marked, and every marked line among them |
| `WalScanner.FilesSinceSelectsNewerInOrder` | time_estimate.go:58-65 | the k-th result is the second field of the k-th line whose first field parses to a time strictly after the cutoff: sound, complete and order-preserving |
| `WalScanner.CutoffExcluded` | time_estimate.go:62 | a segment timestamped exactly at the backup time is not counted |
| `WalScanner.FilesSinceBounded` | time_estimate.go:60-67 | the scan names at most as many segments as the listing has lines |
| `Handshake.CheckIdentity` | time_estimate.go:92-98 | passes exactly when system identifier and timeline both match; a differing identifier is reported even if timelines also differ; a timeline mismatch carries the destination's and the local timeline |
| `Handshake.EstablishConnection` | time_estimate.go:81-100 | a control-record decode error comes first, then a local server-info error, then the identity check; passes exactly when both inputs are present and identical |
| `Estimator.EstimateWalApplyTime` | time_estimate.go:71-75 | the cost of one segment is a constant ten seconds |
| `Estimator.EstimateCatchupTime` | time_estimate.go:105-156 | returns the first failing stage's error with nothing printed, or success with exactly one printed duration, the value of `Catchup` |
| `Estimator.CatchupSucceedsIffEveryStageDoes` | time_estimate.go:105-150 | the run succeeds exactly when every stage does, and then the total is the number of newer segments times ten seconds |
| `Estimator.FirstFailureIsReported` | time_estimate.go:106-144 | each stage's failure ends the run with that stage's error, whatever later stages would answer: backup lookup, listing, control-record decode, local identity, identifier mismatch, timeline mismatch (with the destination's and the local timeline), file list, second identity query, start of backup, log position |
| `Estimator.TotalFitsDuration` | time_estimate.go:149-150 | for at most 922,337,203 segments the total fits in an int64 `time.Duration`, so the source's multiplication does not wrap |
| `Estimator.TwoSegmentsAfterBackup` | time_estimate.go:105-153 | backup created at time T, listing with one segment before T and two after, matching identities: the estimate is twenty seconds |

## Left out

- Running `wal-g` (`execCommand`, time_estimate.go:24-28): the command's output, or its error, is an input.
- `startSendConnection`, gob decoding of the control record and of the file list: the decoded control record, or the decode error, is an input; the file-list decode is an input success or error; the decoder and encoder that `establishConnection` returns are not modelled.
- `GetPgServerInfo`, `runner.StartBackup` and `ParseLSN` are not part of this model (they are defined outside `time_estimate.go`): the first call's identity is an input, the later calls are input successes or errors. The parsed log position is never used in the estimate, so the log-sequence-number type with its parse, format and compare is not modelled.
- A nil `systemIdentifier` pointer from the server (a Go panic) is not modelled; the identity is always present.
- `Timestamps.ParseTimestamp`: accepts only the fixed 20-character form. Go's parser also takes a one-digit hour and fractional seconds after the seconds field, which the model rejects. Its error values are reduced to the rejected text.
- `Timestamps.AfterIsStrictTotalOrder`: `After` compares year, month, day, hour, minute and second in that order. For valid timestamps this is Go's order of instants; instants are not modelled.
- Text is a sequence of Unicode code points; invalid UTF-8 in command output is not modelled.
- `Estimator.EstimateWalApplyTime`: returns the duration alone. Go's error result is always nil, so the check of it (time_estimate.go:115-117) can never fire and is not modelled.
- `Estimator.EstimateCatchupTime`: does not model int64 wrap-around of `time.Duration`, because it needs more than 922 million segments (`Estimator.TotalFitsDuration` gives the bound). Printed output is recorded as the printed durations; Go's duration formatting is not modelled.
- Logging through `tracelog` and `main` (argument count check, `log.Fatalf`, exit code): thin I/O wrappers.
