/** The remote service as the core sees it: each call either fails in
    transport or answers with an HTTP status code. */
module Gateway {

  const StatusOK: int := 200
  const StatusNoContent: int := 204

  datatype Response = TransportError | Reply(status: int)

  /** Adding assets to an album succeeded (main.go:572). */
  predicate AddAccepted(r: Response) {
    r.Reply? && r.status == StatusOK
  }

  /** Deleting an asset succeeded (main.go:615). */
  predicate DeleteAccepted(r: Response) {
    r.Reply? && (r.status == StatusNoContent || r.status == StatusOK)
  }

  /** An album write counts only when answered 200 OK. */
  lemma AddStatuses(r: Response)
    ensures AddAccepted(r) <==> r == Reply(200)
  {
  }

  /** A delete counts when answered 200 OK or 204 No Content, so every answer
      that counts for an album write counts for a delete, but not conversely;
      a transport failure never counts. */
  lemma DeleteStatuses(r: Response)
    ensures DeleteAccepted(r) <==> r == Reply(200) || r == Reply(204)
    ensures AddAccepted(r) ==> DeleteAccepted(r)
    ensures DeleteAccepted(Reply(204)) && !AddAccepted(Reply(204))
  {
  }
}
