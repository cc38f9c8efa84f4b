/** Points in time: a minute counted from 0001-01-01T00:00, and the microseconds into it. */
module Clock {

  datatype Instant = Instant(minute: nat, micro: nat)

  /** The earlier-or-equal order of the timeline. */
  predicate NotAfter(a: Instant, b: Instant) {
    a.minute < b.minute || (a.minute == b.minute && a.micro <= b.micro)
  }

  /** An instant with its seconds and microseconds cut off. */
  function MinuteStart(i: Instant): Instant { Instant(i.minute, 0) }
}
