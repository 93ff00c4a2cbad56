/** The identity check against the destination (`establishConnection`): the
    destination's control record and the local server's identity must name
    the same database and the same timeline. */
module Handshake {
  import opened Results

  newtype uint64 = x: int | 0 <= x < 0x1_0000_0000_0000_0000
  newtype uint32 = x: int | 0 <= x < 0x1_0000_0000

  /** The part of the destination's `PgControlData` the check reads. */
  datatype ControlData = ControlData(systemIdentifier: uint64, currentTimeline: uint32)

  /** The part of the local server's `GetPgServerInfo` answer the check reads. */
  datatype ServerInfo = ServerInfo(systemIdentifier: uint64, timeline: uint32)

  /** Both sides descend from the same database and stand on the same timeline. */
  predicate SameIdentity(control: ControlData, info: ServerInfo) {
    control.systemIdentifier == info.systemIdentifier && control.currentTimeline == info.timeline
  }

  /** The two comparisons, system identifier first. The check passes exactly
      when both sides agree on everything; a differing identifier is reported
      even when the timelines differ too; a differing timeline alone is
      reported with the destination's timeline and ours. */
  function CheckIdentity(control: ControlData, info: ServerInfo): (o: Outcome)
    ensures o.Pass? <==> SameIdentity(control, info)
    ensures control.systemIdentifier != info.systemIdentifier ==> o == Fail(SystemIdentifierMismatch)
    ensures control.systemIdentifier == info.systemIdentifier && control.currentTimeline != info.timeline
            ==> o == Fail(TimelineMismatch(control.currentTimeline as int, info.timeline as int))
  {
    if info.systemIdentifier != control.systemIdentifier then Fail(SystemIdentifierMismatch)
    else if control.currentTimeline != info.timeline then
      Fail(TimelineMismatch(control.currentTimeline as int, info.timeline as int))
    else Pass
  }

  /** `establishConnection` after the connection is made: decoding the
      control record, then asking the local server for its identity, then
      the two comparisons; the first failure is the answer. */
  function EstablishConnection(control: Result<ControlData>, localInfo: Result<ServerInfo>): (o: Outcome)
    ensures o.Pass? <==> control.Ok? && localInfo.Ok? && SameIdentity(control.value, localInfo.value)
    ensures control.Err? ==> o == Fail(control.error)
    ensures control.Ok? && localInfo.Err? ==> o == Fail(localInfo.error)
  {
    match control
    case Err(e) => Fail(e)
    case Ok(c) =>
      match localInfo
      case Err(e) => Fail(e)
      case Ok(info) => CheckIdentity(c, info)
  }
}
