/** Display of asset and album identifiers in log lines. */
module Ids {

  /** The first eight characters of `id`, or all of it when shorter
      (main.go:641-646). Identifiers are ASCII UUIDs, so characters and
      bytes coincide. */
  function TruncateId(id: string): (r: string)
    ensures |r| == if |id| < 8 then |id| else 8
    ensures r <= id
  {
    if |id| > 8 then id[..8] else id
  }

  /** The expectations of the repository's test (main_test.go:440-442). */
  lemma TruncateIdExamples()
    ensures TruncateId("1234567890abcdef") == "12345678"
    ensures TruncateId("12345") == "12345"
    ensures TruncateId("12345678") == "12345678"
  {
  }
}
