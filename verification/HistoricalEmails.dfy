/** The normalised historical message of `app/rag_history.py`, with the fields the
    grouping, pairing and splitting code reads. Instants are whole seconds after the
    sort key of an undated message. */
module HistoricalEmails {

  import opened Options

  datatype Direction = Inbound | Outbound | Other

  datatype HistoricalEmail = HistoricalEmail(
    sourceFile: string,
    sourceThreadHint: string,
    rawSha256: string,
    messageId: Option<string>,
    inReplyTo: Option<string>,
    references: seq<string>,
    normalizedSubject: string,
    occurredAt: Option<nat>,
    direction: Direction,
    bodyText: string,
    bodyFingerprint: string,
    customerKey: Option<string>,
    exclusionReasons: seq<string>
  )

  /** A present, non-empty text. */
  predicate Truthy(text: Option<string>) {
    text.Some? && text.value != ""
  }

  /** Undated messages sort before every dated one. */
  function TimeKey(record: HistoricalEmail): int {
    if record.occurredAt.Some? then record.occurredAt.value else -1
  }
}
