/** The Go library calls the client makes but whose internals are not modelled: percent-escaping,
    base64, HMAC-SHA1 and the UTF-8 bytes of a string. Each is a function value, so every
    property proved here holds for whatever those calls compute, unless a lemma names the
    property of theirs it needs, through `WellBehaved`. */
module GoLib {
  import opened Errors

  newtype byte = b: int | 0 <= b < 256

  datatype Library = Library(
    /** `url.QueryEscape` */
    queryEscape: string -> string,
    /** `url.QueryUnescape`; None for a malformed escape */
    queryUnescape: string -> Option<string>,
    /** `base64.URLEncoding.DecodeString`; None when the text is not valid base64 */
    decodeBase64: string -> Option<seq<byte>>,
    /** `base64.URLEncoding.EncodeToString` */
    encodeBase64: seq<byte> -> string,
    /** HMAC with SHA-1 as `hmac.New(sha1.New, key)` computes it: key, then message */
    hmacSha1: (seq<byte>, seq<byte>) -> seq<byte>,
    /** `[]byte(s)` */
    utf8: string -> seq<byte>)

  /** The characters `url.QueryEscape` leaves alone. */
  predicate UnreservedChar(c: char)
  {
    'a' <= c <= 'z' || 'A' <= c <= 'Z' || '0' <= c <= '9' || c == '-' || c == '_' || c == '.' || c == '~'
  }

  predicate Unreserved(s: string)
  {
    s == "" || (UnreservedChar(s[0]) && Unreserved(s[1..]))
  }

  /** Neither of the query-string delimiters nor the `;` that Go's query parser refuses. */
  predicate NoDelimiters(s: string)
  {
    '&' !in s && '=' !in s && ';' !in s
  }

  /** Escaping `s` can be undone and leaves no delimiter in the escaped text. */
  ghost predicate EscapesCleanly(lib: Library, s: string)
  {
    lib.queryUnescape(lib.queryEscape(s)) == Some(s) && NoDelimiters(lib.queryEscape(s))
  }

  /** Escaping leaves unreserved text as it is. */
  ghost predicate KeepsUnreserved(lib: Library, s: string)
  {
    Unreserved(s) ==> lib.queryEscape(s) == s
  }

  /** What Go's query escaping is documented to do, and all that the round-trip lemmas use:
      unescaping undoes escaping, escaped text has no delimiter in it, and unreserved text is
      left as it is. */
  ghost predicate WellBehaved(lib: Library)
  {
    && (forall s :: EscapesCleanly(lib, s))
    && (forall s :: KeepsUnreserved(lib, s))
  }
}
