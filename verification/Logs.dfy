/** Lists that grow at their end, such as output buffers and histories. */
module Logs {
  /** A list that only ever grows at its end, or is emptied. */
  datatype Log<+T> = Empty | Then(before: Log<T>, last: T)

  predicate Has<T(==)>(log: Log<T>, x: T) {
    log.Then? && (log.last == x || Has(log.before, x))
  }

  /** The elements of `s` added to the log, in order. */
  function Extend<T>(log: Log<T>, s: seq<T>): Log<T> {
    if s == [] then log else Then(Extend(log, s[..|s| - 1]), s[|s| - 1])
  }

  ghost function Elements<T>(log: Log<T>): seq<T> {
    match log
    case Empty => []
    case Then(before, last) => Elements(before) + [last]
  }

  /** The strings of a buffer joined. */
  function Concat(parts: Log<string>): string {
    match parts
    case Empty => ""
    case Then(before, last) => Concat(before) + last
  }
}
