/**
 * The normalised message status. The messages table only admits the first
 * four; `Unknown` is what status checks report when they learn nothing, and
 * the delivery callback writes it through unchanged.
 */
module MessageStatus {

  datatype Status = Queued | Sent | Delivered | Failed | Unknown

  /** Values the `messages.status` column enumerates. */
  predicate InColumn(s: Status) {
    !s.Unknown?
  }
}
