/** Resolved-ticket records (cygnus/governance/ticket_import.py). */
module TicketRecords {
  import opened Wrappers

  /** One validated row; instants are integers, texts are stripped. */
  datatype TicketRecord = TicketRecord(
      ticketId: string,
      resolvedAt: int,
      issueSignature: string,
      title: string,
      summary: string,
      resolution: string,
      productLine: Option<string>,
      feature: Option<string>,
      plan: Option<string>,
      region: Option<string>,
      language: Option<string>,
      productVersion: Option<string>,
      objectType: string)
}
