/** The cached integrity verdict of one store process and the write gate it controls. */
module HealthState {
  import opened Outcomes
  import opened Records

  datatype Health = Health(
    ready: bool,
    verifiedHead: Digest,
    verifiedLogSize: int,
    verifiedAt: Timestamp,
    error: Option<string>,
    code: string,
    lastRefresh: real,
    integrityFailed: bool)

  datatype Verdict = Verdict(ready: bool, verifiedHead: Digest, verifiedLogSize: int, verifiedAt: Timestamp,
                             error: Option<string>, code: string)

  const STALENESS_MULTIPLIER: real := 2.0
  const NOT_READY := "not_ready"
  const STALE := "registry integrity verification is stale"

  predicate Stale(h: Health, interval: real, now: real) {
    now - h.lastRefresh > interval * STALENESS_MULTIPLIER
  }

  /** The write gate. */
  predicate WritesAllowed(h: Health, interval: real, now: real) {
    !h.integrityFailed && h.ready && !Stale(h, interval, now)
  }

  /** What a health probe is served, with no hashing and no I/O. */
  function VerdictOf(h: Health, interval: real, now: real): Verdict {
    if !h.ready then
      Verdict(false, h.verifiedHead, h.verifiedLogSize, h.verifiedAt, h.error, h.code)
    else if Stale(h, interval, now) then
      Verdict(false, h.verifiedHead, h.verifiedLogSize, h.verifiedAt, Some(STALE), NOT_READY)
    else
      Verdict(true, h.verifiedHead, h.verifiedLogSize, h.verifiedAt, None, NOT_READY)
  }

  /** The latch: the first error wins and stays. */
  function Latched(h: Health, error: string, now: real): Health {
    if h.integrityFailed then h
    else h.(integrityFailed := true, ready := false, error := Some(error), lastRefresh := now)
  }

  /** A completed clean pass. */
  function Refreshed(h: Health, head: Digest, logSize: int, at: Timestamp, now: real): Health {
    h.(ready := true, verifiedHead := head, verifiedLogSize := logSize, verifiedAt := at, error := None,
       lastRefresh := now)
  }

  /** What every reachable health state satisfies: a latched store is not ready. */
  predicate Consistent(h: Health) { h.integrityFailed ==> !h.ready }
}
