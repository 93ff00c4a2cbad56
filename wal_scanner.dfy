/** Listing the WAL segments produced after a backup, from the text that
    `wal-g wal-show` prints (`getWALFilesSince`). */
module WalScanner {
  import opened Results
  import opened GoStrings
  import opened Timestamps

  /** A listing line that names a segment produced strictly after `cutoff`:
      it has at least two fields and its first field reads as a timestamp
      later than the cutoff. Any other line is skipped without complaint. */
  predicate IsNewer(cutoff: Timestamp, line: string) {
    var parts := Fields(line);
    |parts| >= 2 && ParseTimestamp(parts[0]).Ok? && After(ParseTimestamp(parts[0]).value, cutoff)
  }

  /** The segment a listing line names: its second field. */
  function SegmentOf(line: string): string
    requires |Fields(line)| >= 2
  {
    Fields(line)[1]
  }

  /** The names of the segments newer than `cutoff`, in listing order. */
  function FilesSince(cutoff: Timestamp, lines: seq<string>): seq<string> {
    if |lines| == 0 then []
    else (if IsNewer(cutoff, lines[0]) then [SegmentOf(lines[0])] else []) + FilesSince(cutoff, lines[1..])
  }

  /** The scan on the listing command's outcome: a failed command's error is
      passed on; once there is a listing, the scan cannot fail. */
  function WalFilesSince(cutoff: Timestamp, walShow: Result<string>): Result<seq<string>> {
    match walShow
    case Err(e) => Err(e)
    case Ok(text) => Ok(FilesSince(cutoff, SplitLines(text)))
  }

  /** `getWALFilesSince`: appends the segment of each newer line to the result
      while walking the lines in order. */
  method GetWalFilesSince(backupTime: Timestamp, walShow: Result<string>) returns (r: Result<seq<string>>)
    ensures r == WalFilesSince(backupTime, walShow)
  {
    if walShow.Err? {
      return Err(walShow.error);
    }
    var lines := SplitLines(walShow.value);
    var walFiles: seq<string> := [];
    var i := 0;
    while i < |lines|
      invariant 0 <= i <= |lines|
      invariant walFiles == FilesSince(backupTime, lines[..i])
    {
      var line := lines[i];
      FilesSinceAppend(backupTime, lines[..i], [line]);
      assert lines[..i + 1] == lines[..i] + [line];
      var parts := Fields(line);
      if |parts| >= 2 {
        var walTime := ParseTimestamp(parts[0]);
        if walTime.Ok? && After(walTime.value, backupTime) {
          walFiles := walFiles + [parts[1]];
        }
      }
      i := i + 1;
    }
    assert lines[..i] == lines;
    return Ok(walFiles);
  }

  /** The scan of two listings one after the other is the scan of the first
      followed by the scan of the second. */
  lemma {:induction false} FilesSinceAppend(cutoff: Timestamp, a: seq<string>, b: seq<string>)
    ensures FilesSince(cutoff, a + b) == FilesSince(cutoff, a) + FilesSince(cutoff, b)
  {
    if |a| > 0 {
      assert (a + b)[1..] == a[1..] + b;
      FilesSinceAppend(cutoff, a[1..], b);
    } else {
      assert a + b == b;
    }
  }

  /** For each listing line, whether it is newer than `cutoff`. */
  function NewerMarks(cutoff: Timestamp, lines: seq<string>): (marks: seq<bool>)
    ensures |marks| == |lines|
    ensures forall i :: 0 <= i < |lines| ==> marks[i] == IsNewer(cutoff, lines[i])
  {
    seq(|lines|, i requires 0 <= i < |lines| => IsNewer(cutoff, lines[i]))
  }

  /** The positions among the first `n` marks that are set, ascending. */
  function SetPositions(marks: seq<bool>, n: nat): (ps: seq<nat>)
    requires n <= |marks|
    ensures forall k :: 0 <= k < |ps| ==> ps[k] < n && marks[ps[k]]
    ensures forall k, l :: 0 <= k < l < |ps| ==> ps[k] < ps[l]
    ensures forall i :: 0 <= i < n && marks[i] ==> i in ps
  {
    if n == 0 then []
    else SetPositions(marks, n - 1) + (if marks[n - 1] then [n - 1] else [])
  }

  /** The scan selects exactly the newer lines and keeps their order: with
      `ps` the positions of the newer lines, ascending, the k-th entry is the
      segment of line `ps[k]`. So every entry comes from a line timestamped
      strictly after the cutoff, every such line contributes one entry, and
      no entry is reordered. */
  lemma {:induction false} FilesSinceSelectsNewerInOrder(cutoff: Timestamp, lines: seq<string>)
    ensures var ps := SetPositions(NewerMarks(cutoff, lines), |lines|);
      |FilesSince(cutoff, lines)| == |ps|
      && forall k :: 0 <= k < |ps| ==>
           IsNewer(cutoff, lines[ps[k]]) && FilesSince(cutoff, lines)[k] == SegmentOf(lines[ps[k]])
  {
    PrefixSelection(cutoff, lines, |lines|);
    assert lines[..|lines|] == lines;
  }

  lemma {:induction false} PrefixSelection(cutoff: Timestamp, lines: seq<string>, n: nat)
    requires n <= |lines|
    ensures var ps := SetPositions(NewerMarks(cutoff, lines), n);
      |FilesSince(cutoff, lines[..n])| == |ps|
      && forall k :: 0 <= k < |ps| ==>
           IsNewer(cutoff, lines[ps[k]]) && FilesSince(cutoff, lines[..n])[k] == SegmentOf(lines[ps[k]])
  {
    if n > 0 {
      PrefixSelection(cutoff, lines, n - 1);
      assert lines[..n] == lines[..n - 1] + [lines[n - 1]];
      FilesSinceAppend(cutoff, lines[..n - 1], [lines[n - 1]]);
      assert [lines[n - 1]][1..] == [];
    }
  }

  /** A segment timestamped exactly at the cutoff is not counted. */
  lemma CutoffExcluded(cutoff: Timestamp, line: string)
    requires |Fields(line)| >= 2 && ParseTimestamp(Fields(line)[0]) == Ok(cutoff)
    ensures !IsNewer(cutoff, line)
  {
    AfterIsStrictTotalOrder(cutoff, cutoff, cutoff);
  }

  /** The scan never names more segments than the listing has lines. */
  lemma {:induction false} FilesSinceBounded(cutoff: Timestamp, lines: seq<string>)
    ensures |FilesSince(cutoff, lines)| <= |lines|
  {
    if |lines| > 0 {
      FilesSinceBounded(cutoff, lines[1..]);
    }
  }

  /** A listing line of a timestamp and a segment name. */
  lemma WalLine(cutoff: Timestamp, time: string, segment: string, t: Timestamp)
    requires Word(time) && Word(segment) && ParseTimestamp(time) == Ok(t)
    ensures Fields(time + " " + segment) == [time, segment]
    ensures IsNewer(cutoff, time + " " + segment) == After(t, cutoff)
    ensures |Fields(time + " " + segment)| >= 2 && SegmentOf(time + " " + segment) == segment
  {
    var ws := [time, segment];
    assert ws[1..] == [segment];
    assert JoinWords(ws) == time + " " + segment;
    FieldsJoinWords(ws);
  }

  lemma ScanThree(cutoff: Timestamp, a: string, b: string, c: string)
    requires !IsNewer(cutoff, a) && IsNewer(cutoff, b) && IsNewer(cutoff, c)
    ensures |FilesSince(cutoff, [a, b, c])| == 2
  {
    var lines := [a, b, c];
    assert lines[1..] == [b, c] && lines[1..][1..] == [c] && lines[1..][1..][1..] == [];
    assert FilesSince(cutoff, [c]) == [SegmentOf(c)];
    assert FilesSince(cutoff, [b, c]) == [SegmentOf(b), SegmentOf(c)];
  }
}
