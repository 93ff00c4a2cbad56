/** Finding when a named backup was taken, from the text that
    `wal-g backup-list --detail` prints (`getBackupCreationTime`). */
module BackupLocator {
  import opened Results
  import opened GoStrings
  import opened Timestamps

  /** A catalog line that decides the lookup: it mentions the backup's name
      anywhere (as a substring, not as a whole field) and has at least three
      whitespace-separated fields. */
  predicate IsCandidate(backupName: string, line: string) {
    Contains(line, backupName) && |Fields(line)| >= 3
  }

  /** What a candidate line yields: its third field read as a timestamp. */
  function CreationTimeOf(line: string): Result<Timestamp>
    requires |Fields(line)| >= 3
  {
    ParseTimestamp(Fields(line)[2])
  }

  /** The lookup over the catalog's lines: the first candidate line decides,
      whether its timestamp reads or not; with no candidate the backup is
      not found. */
  function Locate(backupName: string, lines: seq<string>): Result<Timestamp> {
    if |lines| == 0 then Err(BackupNotFound(backupName))
    else if IsCandidate(backupName, lines[0]) then CreationTimeOf(lines[0])
    else Locate(backupName, lines[1..])
  }

  /** The lookup on the catalog command's outcome: a failed command's error
      is passed on, otherwise its output is read line by line. */
  function LocateBackup(backupName: string, backupList: Result<string>): Result<Timestamp> {
    match backupList
    case Err(e) => Err(e)
    case Ok(text) => Locate(backupName, SplitLines(text))
  }

  /** `getBackupCreationTime`: scans the lines in order and returns at the
      first candidate line. */
  method GetBackupCreationTime(backupName: string, backupList: Result<string>) returns (r: Result<Timestamp>)
    ensures r == LocateBackup(backupName, backupList)
  {
    if backupList.Err? {
      return Err(backupList.error);
    }
    var lines := SplitLines(backupList.value);
    var i := 0;
    while i < |lines|
      invariant 0 <= i <= |lines|
      invariant Locate(backupName, lines[i..]) == Locate(backupName, lines)
    {
      assert lines[i..][1..] == lines[i + 1..];
      var line := lines[i];
      if Contains(line, backupName) {
        var parts := Fields(line);
        if |parts| >= 3 {
          return ParseTimestamp(parts[2]);
        }
      }
      i := i + 1;
    }
    return Err(BackupNotFound(backupName));
  }

  /** The first candidate line decides: whatever reading its third field
      gives, success or error, is the answer, and the lines after it are
      never consulted. Earlier lines that mention the name with fewer than
      three fields are passed over. */
  lemma {:induction false} FirstCandidateDecides(backupName: string, lines: seq<string>, i: nat)
    requires i < |lines| && IsCandidate(backupName, lines[i])
    requires forall j :: 0 <= j < i ==> !IsCandidate(backupName, lines[j])
    ensures Locate(backupName, lines) == CreationTimeOf(lines[i])
  {
    if i > 0 {
      assert !IsCandidate(backupName, lines[0]);
      FirstCandidateDecides(backupName, lines[1..], i - 1);
    }
  }

  /** The backup is reported missing exactly when no line is a candidate. */
  lemma {:induction false} NotFoundIffNoCandidate(backupName: string, lines: seq<string>)
    ensures Locate(backupName, lines) == Err(BackupNotFound(backupName))
            <==> forall i :: 0 <= i < |lines| ==> !IsCandidate(backupName, lines[i])
  {
    if |lines| > 0 {
      NotFoundIffNoCandidate(backupName, lines[1..]);
      assert forall i :: 1 <= i < |lines| ==> lines[i] == lines[1..][i - 1];
    }
  }

  /** Appending lines after a candidate does not change the answer. */
  lemma {:induction false} LaterLinesIgnored(backupName: string, lines: seq<string>, more: seq<string>)
    requires exists i :: 0 <= i < |lines| && IsCandidate(backupName, lines[i])
    ensures Locate(backupName, lines + more) == Locate(backupName, lines)
  {
    if !IsCandidate(backupName, lines[0]) {
      var i :| 0 <= i < |lines| && IsCandidate(backupName, lines[i]);
      assert lines[1..][i - 1] == lines[i];
      assert (lines + more)[1..] == lines[1..] + more;
      LaterLinesIgnored(backupName, lines[1..], more);
    }
  }

  /** A catalog of one line naming the backup in its first field and its
      creation time in its third. */
  lemma CatalogOfOneLine(name: string, other: string, time: string, t: Timestamp)
    requires Word(name) && Word(other) && Word(time) && ParseTimestamp(time) == Ok(t)
    ensures LocateBackup(name, Ok(name + " " + other + " " + time)) == Ok(t)
  {
    var line := name + " " + other + " " + time;
    NoSpaceNoNewLine(name);
    NoSpaceNoNewLine(other);
    NoSpaceNoNewLine(time);
    SplitNewLineFree(line);
    ThreeFields(name, other, time);
    assert line[..|name|] == name;
    assert Contains(line, name);
  }

  /** The name is matched as a substring, not as a field: when the line of
      a backup whose name merely starts with `name` comes first, its
      creation time is the answer, and the backup's own line is never read. */
  lemma LongerNameListedFirstWins(name: string, suffix: string, other: string, time1: string, time2: string)
    requires Word(name) && Word(suffix) && Word(other) && Word(time1) && Word(time2)
    ensures LocateBackup(name, Ok((name + suffix) + " " + other + " " + time1 + [NewLine] + name + " " + other + " " + time2))
            == ParseTimestamp(time1)
  {
    var longer := name + suffix;
    assert NoSpace(longer) by {
      forall i | 0 <= i < |longer| ensures !IsSpace(longer[i]) {
        if i < |name| { assert longer[i] == name[i]; } else { assert longer[i] == suffix[i - |name|]; }
      }
    }
    var line1 := longer + " " + other + " " + time1;
    var line2 := name + " " + other + " " + time2;
    NoSpaceNoNewLine(longer);
    NoSpaceNoNewLine(other);
    NoSpaceNoNewLine(time1);
    NoSpaceNoNewLine(name);
    NoSpaceNoNewLine(time2);
    SplitPrefix(line1, line2);
    SplitNewLineFree(line2);
    assert line1 + [NewLine] + line2 == longer + " " + other + " " + time1 + [NewLine] + name + " " + other + " " + time2;
    ThreeFields(longer, other, time1);
    assert line1[..|name|] == name;
    assert Contains(line1, name);
  }
}
