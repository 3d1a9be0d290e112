/** What the browser's `fetch` and the server's upstream `fetch` share about an HTTP reply. */
module Http {

  /** `response.ok`: a status in 200..299. */
  predicate IsOk(status: int) {
    200 <= status <= 299
  }
}
