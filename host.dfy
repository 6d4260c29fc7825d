/**
 * What the plugin receives from WordPress: taxonomy terms, the outcome of a
 * term query, and the host functions whose behaviour the plugin does not
 * define (escaping, translation, permalinks, `sprintf`).  The host functions
 * are fields of `Host`, so every property proved about the plugin holds
 * whatever those functions do.
 */
module Host {

  /** The author taxonomy name (internal/authors-as-taxonomy/functions.php:20). */
  const TAXONOMY_NAME: string := "calm_authors"

  /** The fields of a `WP_Term` that the plugin reads. */
  datatype Term = Term(termId: int, name: string, slug: string, taxonomy: string)

  /** What `get_the_terms` returns: an array of terms, a `WP_Error`, or a non-array (`false`). */
  datatype TermsResult = Found(terms: seq<Term>) | WpError | NotArray

  /**
   * Uninterpreted WordPress and PHP functions.
   * `termLink(t)` is `get_term_link(t, TAXONOMY_NAME)`, `sprintf(f, x)` is
   * `sprintf` with one string argument, `translate(s)` is `__(s, 'authors_as_taxonomy')`.
   */
  datatype Host = Host(
    escAttr: string -> string,
    escHtml: string -> string,
    escUrl: string -> string,
    termLink: Term -> string,
    sprintf: (string, string) -> string,
    translate: string -> string)
}
