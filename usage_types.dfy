/**
 The values the usage-time reconstruction works on: the platform's usage
 events, the per-bucket usage statistics, and the rows handed back to the
 JavaScript side.
 */
module UsageTypes {

  datatype Option<+T> = None | Some(value: T)

  /** The event types the reconstruction distinguishes; every other type
      the platform reports is `OtherEvent`. */
  datatype EventType =
    | MoveToForeground
    | ActivityResumed
    | MoveToBackground
    | ActivityPaused
    | OtherEvent

  /** One record of the platform's event stream. The package name may be
      missing (the platform reports it as null). Timestamps are
      milliseconds. */
  datatype UsageEvent = UsageEvent(packageName: Option<string>, timeStamp: int, eventType: EventType)

  /** An event that opens a foreground session. */
  predicate OpensSession(t: EventType) {
    t == MoveToForeground || t == ActivityResumed
  }

  /** An event that closes a foreground session. */
  predicate ClosesSession(t: EventType) {
    t == MoveToBackground || t == ActivityPaused
  }

  /** One per-package statistic as the bucket query returns it. */
  datatype UsageStat = UsageStat(packageName: string, foregroundMs: int)

  /** One row of the report. */
  datatype Row = Row(packageName: string, appName: string, foregroundMs: int)

  /** The package manager's label lookup, which may fail: `None` stands for
      the exception the lookup throws. */
  type LabelLookup = string -> Option<string>

  /** The label shown for a package: the resolved name, or the package name
      itself when the lookup fails. */
  function AppName(lookup: LabelLookup, pkg: string): (name: string)
    ensures lookup(pkg).Some? ==> name == lookup(pkg).value
    ensures lookup(pkg).None? ==> name == pkg
  {
    match lookup(pkg)
    case Some(resolved) => resolved
    case None => pkg
  }
}
