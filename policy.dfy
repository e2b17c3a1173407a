/** The limits bot.py reads from its configuration, and the way it picks
    between the pack and the other value of each. */
module Policy {

  /** A clock reading or a duration, in seconds. */
  type Seconds = x: real | 0.0 <= x

  datatype Limits = Limits(
    maxViewersPack: int,
    maxViewersOther: int,
    maxWaitPack: int,
    maxWaitOther: int,
    endedChecksPack: int,
    endedChecksOther: int)

  function MaxViewers(limits: Limits, isPack: bool): int
  {
    if isPack then limits.maxViewersPack else limits.maxViewersOther
  }

  function MaxWait(limits: Limits, isPack: bool): int
  {
    if isPack then limits.maxWaitPack else limits.maxWaitOther
  }

  function EndedChecks(limits: Limits, isPack: bool): int
  {
    if isPack then limits.endedChecksPack else limits.endedChecksOther
  }
}
