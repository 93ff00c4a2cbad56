/** The catchup estimate (`estimateCatchupTime`): backup time, then the WAL
    segments since, then the cost of one segment, then the identity check
    with the destination and the anchoring log position; the estimate is
    printed only when every stage has succeeded. */
module Estimator {
  import opened Results
  import opened GoStrings
  import opened Timestamps
  import opened BackupLocator
  import opened WalScanner
  import opened Handshake

  /** A Go `time.Duration`: a count of nanoseconds. */
  type Duration = int

  const Second: Duration := 1_000_000_000

  /** The largest `time.Duration` (an int64). */
  const MaxDuration: int := 0x7FFF_FFFF_FFFF_FFFF

  /** `estimateWALApplyTime`: the time to apply one WAL segment, a fixed ten
      seconds (its error result is always nil). */
  function EstimateWalApplyTime(): (d: Duration)
    ensures d == 10 * Second
  {
    10 * Second
  }

  /** What the collaborators outside the model answer during one run, in the
      order they are consulted. */
  datatype Environment = Environment(
    backupList: Result<string>,    // output of `wal-g backup-list --detail`
    walShow: Result<string>,       // output of `wal-g wal-show`
    control: Result<ControlData>,  // the control record decoded from the destination
    localInfo: Result<ServerInfo>, // GetPgServerInfo inside establishConnection
    fileList: Outcome,             // decoding the destination's file list
    anchorInfo: Outcome,           // the second GetPgServerInfo
    startBackup: Outcome,          // runner.StartBackup, which returns the log position
    lsn: Outcome                   // ParseLSN of that position
  )

  /** The run as a value: the first failing stage's error, or the total time,
      which is the number of newer segments times the cost of one. The log
      position is resolved (and may fail the run) but does not enter the
      total. */
  function Catchup(backupName: string, env: Environment): Result<Duration> {
    match LocateBackup(backupName, env.backupList)
    case Err(e) => Err(e)
    case Ok(backupTime) =>
      match WalFilesSince(backupTime, env.walShow)
      case Err(e) => Err(e)
      case Ok(walFiles) =>
        match EstablishConnection(env.control, env.localInfo)
        case Fail(e) => Err(e)
        case Pass =>
          if env.fileList.Fail? then Err(env.fileList.error)
          else if env.anchorInfo.Fail? then Err(env.anchorInfo.error)
          else if env.startBackup.Fail? then Err(env.startBackup.error)
          else if env.lsn.Fail? then Err(env.lsn.error)
          else Ok(|walFiles| * EstimateWalApplyTime())
  }

  /** `estimateCatchupTime`: returns the run's error, and the durations it
      printed as "Estimated catchup time: ..." (the one estimate on success,
      nothing on failure). */
  method EstimateCatchupTime(backupName: string, env: Environment) returns (err: Outcome, stdout: seq<Duration>)
    ensures var c := Catchup(backupName, env);
      (c.Ok? ==> err == Pass && stdout == [c.value]) && (c.Err? ==> err == Fail(c.error) && stdout == [])
  {
    stdout := [];
    var backupTime := GetBackupCreationTime(backupName, env.backupList);
    if backupTime.Err? {
      return Fail(backupTime.error), stdout;
    }
    var walFiles := GetWalFilesSince(backupTime.value, env.walShow);
    if walFiles.Err? {
      return Fail(walFiles.error), stdout;
    }
    var avgWalApplyTime := EstimateWalApplyTime();

    var connected := EstablishConnection(env.control, env.localInfo);
    if connected.Fail? {
      return connected, stdout;
    }
    if env.fileList.Fail? {
      return env.fileList, stdout;
    }
    if env.anchorInfo.Fail? {
      return env.anchorInfo, stdout;
    }
    if env.startBackup.Fail? {
      return env.startBackup, stdout;
    }
    if env.lsn.Fail? {
      return env.lsn, stdout;
    }

    var totalWalFiles := |walFiles.value|;
    var totalCatchupTime := totalWalFiles * avgWalApplyTime;
    stdout := stdout + [totalCatchupTime];
    return Pass, stdout;
  }

  /** The run succeeds exactly when every stage does, and then reports ten
      seconds for each WAL segment listed after the backup's creation time. */
  lemma CatchupSucceedsIffEveryStageDoes(backupName: string, env: Environment)
    ensures Catchup(backupName, env).Ok? <==>
      LocateBackup(backupName, env.backupList).Ok? && env.walShow.Ok?
      && EstablishConnection(env.control, env.localInfo).Pass?
      && env.fileList.Pass? && env.anchorInfo.Pass? && env.startBackup.Pass? && env.lsn.Pass?
    ensures Catchup(backupName, env).Ok? ==>
      Catchup(backupName, env).value
        == |FilesSince(LocateBackup(backupName, env.backupList).value, SplitLines(env.walShow.value))| * (10 * Second)
  {
  }

  /** Stages are tried in order and the first failure ends the run with that
      stage's error, whatever the later collaborators would have answered:
      the backup lookup, the listing, the control record, the local identity,
      the identifier and then the timeline comparison, the file list, the
      second identity query, the start of the backup and the log position. */
  lemma FirstFailureIsReported(backupName: string, env: Environment)
    ensures LocateBackup(backupName, env.backupList).Err? ==>
      Catchup(backupName, env) == Err(LocateBackup(backupName, env.backupList).error)
    ensures LocateBackup(backupName, env.backupList).Ok? && env.walShow.Err? ==>
      Catchup(backupName, env) == Err(env.walShow.error)
    ensures (LocateBackup(backupName, env.backupList).Ok? && env.walShow.Ok? && env.control.Err?)
            ==> Catchup(backupName, env) == Err(env.control.error)
    ensures (LocateBackup(backupName, env.backupList).Ok? && env.walShow.Ok?
             && env.control.Ok? && env.localInfo.Err?)
            ==> Catchup(backupName, env) == Err(env.localInfo.error)
    ensures (LocateBackup(backupName, env.backupList).Ok? && env.walShow.Ok?
             && env.control.Ok? && env.localInfo.Ok?
             && env.control.value.systemIdentifier != env.localInfo.value.systemIdentifier)
            ==> Catchup(backupName, env) == Err(SystemIdentifierMismatch)
    ensures (LocateBackup(backupName, env.backupList).Ok? && env.walShow.Ok?
             && env.control.Ok? && env.localInfo.Ok?
             && env.control.value.systemIdentifier == env.localInfo.value.systemIdentifier
             && env.control.value.currentTimeline != env.localInfo.value.timeline)
            ==> Catchup(backupName, env)
                == Err(TimelineMismatch(env.control.value.currentTimeline as int, env.localInfo.value.timeline as int))
    ensures (LocateBackup(backupName, env.backupList).Ok? && env.walShow.Ok?
             && EstablishConnection(env.control, env.localInfo).Pass? && env.fileList.Fail?)
            ==> Catchup(backupName, env) == Err(env.fileList.error)
    ensures (LocateBackup(backupName, env.backupList).Ok? && env.walShow.Ok?
             && EstablishConnection(env.control, env.localInfo).Pass? && env.fileList.Pass?
             && env.anchorInfo.Fail?)
            ==> Catchup(backupName, env) == Err(env.anchorInfo.error)
    ensures (LocateBackup(backupName, env.backupList).Ok? && env.walShow.Ok?
             && EstablishConnection(env.control, env.localInfo).Pass? && env.fileList.Pass?
             && env.anchorInfo.Pass? && env.startBackup.Fail?)
            ==> Catchup(backupName, env) == Err(env.startBackup.error)
    ensures (LocateBackup(backupName, env.backupList).Ok? && env.walShow.Ok?
             && EstablishConnection(env.control, env.localInfo).Pass? && env.fileList.Pass?
             && env.anchorInfo.Pass? && env.startBackup.Pass? && env.lsn.Fail?)
            ==> Catchup(backupName, env) == Err(env.lsn.error)
  {
  }

  /** The total fits a `time.Duration` for fewer than about 922 million
      segments, so the int64 product in the source does not wrap for any
      listing of realistic size. */
  lemma TotalFitsDuration(totalWalFiles: nat)
    requires totalWalFiles <= MaxDuration / (10 * Second)
    ensures totalWalFiles * EstimateWalApplyTime() <= MaxDuration
  {
  }

  /** The end-to-end scenario: a one-line catalog names the backup and its
      creation time `created` in the third field; the listing has three
      segments, the first from before `created` and the other two from
      after; both sides have the same identity. The run then reports twenty
      seconds, whatever the texts are. */
  lemma {:induction false} TwoSegmentsAfterBackup(
    name: string, other: string, created: string, tc: Timestamp,
    time1: string, t1: Timestamp, seg1: string,
    time2: string, t2: Timestamp, seg2: string,
    time3: string, t3: Timestamp, seg3: string,
    id: uint64, timeline: uint32)
    requires Word(name) && Word(other) && Word(created) && ParseTimestamp(created) == Ok(tc)
    requires Word(time1) && Word(seg1) && ParseTimestamp(time1) == Ok(t1) && !After(t1, tc)
    requires Word(time2) && Word(seg2) && ParseTimestamp(time2) == Ok(t2) && After(t2, tc)
    requires Word(time3) && Word(seg3) && ParseTimestamp(time3) == Ok(t3) && After(t3, tc)
    ensures Catchup(name, Environment(
              Ok(name + " " + other + " " + created),
              Ok((time1 + " " + seg1) + "\n" + (time2 + " " + seg2) + "\n" + (time3 + " " + seg3)),
              Ok(ControlData(id, timeline)), Ok(ServerInfo(id, timeline)),
              Pass, Pass, Pass, Pass))
            == Ok(20 * Second)
  {
    CatalogOfOneLine(name, other, created, tc);
    var l1, l2, l3 := time1 + " " + seg1, time2 + " " + seg2, time3 + " " + seg3;
    WalLine(tc, time1, seg1, t1);
    WalLine(tc, time2, seg2, t2);
    WalLine(tc, time3, seg3, t3);
    WordsNoNewLine(time1, seg1);
    WordsNoNewLine(time2, seg2);
    WordsNoNewLine(time3, seg3);
    ThreeLines(l1, l2, l3);
    ScanThree(tc, l1, l2, l3);
  }
}
