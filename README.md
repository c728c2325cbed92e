# geocode, modelled in Dafny

This project models the core of `geocode.go`, a small Go client for the Google geocoding web
service. The core has four parts:

- **Records.** `NewRecord` turns one CSV row into a `Record` (source file, ID, sensor flag,
  address). It refuses rows with fewer than three columns and sensor flags it cannot read. The
  address is the columns from index 2 on, joined with nothing between them.
- **Ingestion.** `ReadRecords` reads rows one after another and sends each converted record on
  an output channel. It stops at the first read error or conversion error and returns how many
  records it sent.
- **Query building.** `GetURL` builds the request URL. It starts from the constant host URL,
  sets `address`, `sensor` and an optional `client` in a `url.Values` map, and stores the
  map's sorted encoding as the URL's raw query.
- **Signing.** `SignURL` decodes a base64 key and signs the URL's request URI with HMAC-SHA1.
  It then sets the `signature` parameter over the old query and re-encodes it, updating the
  `*url.URL` in place.

Modules, one per file:

- `Errors`: `Option`, `Result` and the errors the core can return.
- `Strings`: ASCII lower-casing, `strings.HasPrefix`, cutting at a separator, and Go's
  byte-wise string order.
- `Records`: `Record`, `NewRecord`, and the spellings of the sensor column.
- `Ingestion`: `ReadRecords` over a given sequence of reader results, and a `Sink` class
  standing for the channel.
- `GoLib`: the Go library functions the core calls, passed in as one `Library` value.
  These are query escaping and unescaping, base64, HMAC-SHA1 and UTF-8 encoding.
- `UrlValues`: `url.Values` as `map<string, seq<string>>`, with `Set`, the sorted `Encode` and the
  parser behind `URL.Query`.
- `Geocode`: the `Url` class, `GetURL`, `SignURL`, and the end-to-end lemma.

Modelling decisions:

- **Go's library is a parameter.** The escaping, base64, HMAC and UTF-8 functions are fields of
  `GoLib.Library`. A lemma that needs more than their types assumes `GoLib.WellBehaved(lib)`,
  which states three properties of query escaping:
  - unescaping undoes escaping;
  - escaped text contains no `&`, `=` or `;`;
  - letters, digits and `-_.~` are left as they are.
- **Values are escaped twice.** `GetURL` escapes each value before `Set`, and `Encode` escapes
  it again. The model keeps both escapes, and the lemmas about the encoded text show them.
- **The client check is modelled as written.** `client[:3]` is three characters long and the
  prefix `"gme-"` is four, so the comparison never succeeds and every non-empty client ID is
  refused. A client ID of one or two characters makes Go panic on the slice, so `GetURL`
  requires the client to be empty or at least three characters long. The four-character
  literal `"gme-"` shows the check was meant to compare the first four characters. The model
  follows the code, and `BuildQueryIntended` is the check as intended (see Findings).
- **`ReadRecords` follows the evident intent of its loop.** Line 198 of the Go source is not
  valid Go: it uses a short variable declaration as the loop condition. The model does what the
  loop evidently means: read a row, return on a read error, convert the row, return on a
  conversion error, send the record, and count it.
  - The reader is a sequence of `ReadStep`s, each a row or a read fault.
  - Running out of steps stands for the reader returning `io.EOF`, which `ReadRecords` then
    returns; the model names that error `EndOfInput`.
  - Each row is converted with the number of records sent so far, which is its own 0-based
    index.

## Model

| member | source | states |
|---|---|---|
| Strings.LowerMatches | geocode.go:166-168 | a string lower-cases to a given lower-case ASCII word exactly when it is that word with any of its letters in upper case |
| Strings.BelowTransitive | geocode.go:47 | the byte-wise string order that `Encode` sorts keys by is transitive |
| Strings.BelowTotal | geocode.go:47 | any two strings are ordered one way or the other |
| Strings.BelowAntisymmetric | geocode.go:47 | two strings ordered both ways are equal, so sorted keys are unique |
| Records.SensorSpellings | geocode.go:166-171 | the sensor column reads as true exactly for "1" and every spelling of "true", as false exactly for "0" and every spelling of "false", and is refused for anything else |
| Records.NewRecord | geocode.go:160-178 | the loop that appends the columns from index 2 on builds the same record as `RowToRecord`, and errors are as `RowToRecord` gives them |
| Records.NewRecordRejectsShortRows | geocode.go:162-165 | a row with fewer than three columns gives the not-enough-columns error, naming the file and the row index |
| Records.NewRecordSensor | geocode.go:166-171 | a row of three or more columns gives a record with sensor true exactly for the true spellings and false exactly for the false spellings; otherwise it gives the expected-boolean error, and there is no other outcome |
| Records.NewRecordFields | geocode.go:172-177 | a record takes its source from the file name and its ID from column 0; each column from index 2 on appears whole in the address, after the earlier columns and before the later ones |
| Records.ConcatAt | geocode.go:172-174 | the joined address splits around any one column into the columns before it, the column, and the columns after it |
| Ingestion.Sink.Send | geocode.go:205 | sending on the channel appends the record to what has been sent |
| Ingestion.ReadFromStopsAtFirstError | geocode.go:198-208 | reading stops at the first read fault or conversion error; every row before it gave one record, converted with its own index, in row order; the count is the number of records sent; the row that stopped it gave no record, and its error is returned; at the end of the rows the end-of-input error is returned |
| Ingestion.ReadRecords | geocode.go:194-209 | the loop returns the count and the error `ReadFrom` gives, and the channel receives exactly the records `ReadFrom` gives, in order |
| UrlValues.Set | geocode.go:39-40 | `Set` gives the key exactly the one value and leaves every other key as it was |
| UrlValues.SortedKeysAscending | geocode.go:47 | the keys `Encode` uses are every key of the map, each exactly once, in strictly ascending order |
| UrlValues.EncodeInKeyOrder | geocode.go:47 | the encoded query lists the pairs key by key in any strictly ascending listing of the map's keys, so the encoding is canonical |
| UrlValues.ParseEncode | geocode.go:64-67 | when escaping is well behaved, parsing an encoded query gives back the query, for every map whose keys all hold values |
| UrlValues.ParseQueryNonEmpty | geocode.go:64 | a parsed query never holds a key without a value |
| Geocode.QueryFor | geocode.go:38-46 | the assembled query has the keys `address` and `sensor`, plus `client` exactly when one is given, each holding its value escaped once |
| Geocode.GetURL | geocode.go:32-49 | an accepted request gives a fresh URL with the host's scheme, host name and path, whose raw query is the sorted encoding of the assembled query; a refused client gives no URL and the invalid-client error |
| Geocode.GetURLRejectsClients | geocode.go:41-44 | as written, every non-empty client ID of three or more characters is refused |
| Geocode.UnprefixedClientsRejected | geocode.go:41-44 | every client ID of three or more characters without the `gme-` prefix is refused |
| Geocode.PrefixedClientRejected | geocode.go:42 | as written, the well-formed client ID `gme-abc` is refused |
| Geocode.EscapeSensorText | geocode.go:40 | the sensor text survives both escapes unchanged |
| Geocode.GetURLWithoutClient | geocode.go:38-48 | with no client, the request succeeds with exactly the keys `address` and `sensor`, and the raw query is `address=` with the address escaped twice, then `&sensor=` with `true` or `false` |
| Geocode.BuildQueryIntendedAccepts | geocode.go:41-46 | with the intended check, a request succeeds exactly when the client is empty or starts with `gme-`; the refusal is the invalid-client error; a success carries the client ID escaped once |
| Geocode.BuildQueryAgreesWithoutClient | geocode.go:41 | the check as written and the intended check agree when there is no client |
| Geocode.GetURLIntendedWithClient | geocode.go:38-48 | with an accepted client, the raw query lists `address`, `client` and `sensor` in that order, the address and the client escaped twice |
| Geocode.SignURL | geocode.go:53-69 | a key that does not decode gives the invalid-key error and leaves the URL as it was; otherwise the scheme, host and path stay, and the raw query becomes the old query with `signature` set to the signature of the old request URI, encoded again |
| Geocode.SignedQueryAddsOnlySignature | geocode.go:64-67 | after signing, the parsed query is the old parsed query with only `signature` set; every other key keeps its values, and `signature` holds exactly the signature |
| Geocode.NonEmptyQueryText | geocode.go:60 | a query with any parameter encodes to non-empty text, so the signed request URI carries `?` and the query |
| Geocode.BuildThenSign | geocode.go:32-69 | building a query with the intended check and signing it gives exactly the built parameters plus `signature`, which holds the signature of the unsigned path and query |

## Left out

- HMAC-SHA1, base64 and UTF-8 encoding (geocode.go:55, 59-64) are foreign library calls. They
  are function-valued parameters with no properties assumed, so the test fixture at
  geocode.go:71-95 and its expected signature cannot be stated.
- `TestSignURL` (geocode.go:71-95) expects the signed URL to keep its unsorted parameter order
  and an unescaped `=` in the signature. `Encode` sorts and escapes, so that check could not
  hold anyway. It is not modelled.
- The rules of `url.QueryEscape` and `url.QueryUnescape` are not modelled. Only the three
  properties in `GoLib.WellBehaved` are used, and only by the lemmas that assume it.
- `url.Parse` of the constant host URL (geocode.go:34-37) is not modelled. `GetURL` builds the
  URL from the parts that parsing gives. The panic branch is unreachable because the URL is a
  constant.
- `URL.RequestURI` is modelled for a URL with a path and a query. Its opaque URLs and the
  `ForceQuery` flag do not arise here.
- Go's query parser is modelled as recent Go versions behave: a segment holding `;` is
  skipped. Older versions split on `;` as well. Queries built by this core never contain an
  unescaped `;`.
- `strings.ToLower` is modelled on ASCII letters only. No non-ASCII character lower-cases to a
  letter of `true` or `false`: the only non-ASCII characters whose lower case is ASCII are
  U+0130 and U+212A, and they lower to `i` and `k`. So the accepted spellings are unchanged.
- Geocode.GetURL: requires the client to be empty or at least three characters long, because
  Go panics on `client[:3]` for a shorter one. The model counts characters where Go counts
  bytes, so a multi-byte client shorter than three characters but of three or more bytes is
  excluded here, although Go would refuse it.
- Errors carry only the file name and row index, not the text of `fmt.Errorf`. A refused row
  gives no record; Go also returns an empty `Record` alongside the error.
- `NewRecord` does not check that the file name is non-empty, and neither does the model.
- The write to the hash that returns an error (geocode.go:60-63) is not modelled. Writing to
  an HMAC never fails, so that branch cannot be taken.
- `NewLazyCSVReader` (geocode.go:181-190) only configures `encoding/csv`, whose tokenizer is
  not part of this model. The reader is a given sequence of `ReadStep`s.
- In `ReadRecords`, the open file, `f.Name()` and the channel are replaced: the file name is a
  parameter and the channel is the `Sink` object. The panic on a nil channel (geocode.go:195-197)
  cannot arise, because a `Sink` is never null.
- The commented-out `launchQuery`, `newCSVReader` and `readIn` (geocode.go:98-146) are dead code
  about goroutines and timing.
- The `config` struct (geocode.go:24-28) and the `GeocodingAPIVersion` constant are unused.
- Geocode.SignURL: a nil `toSign` is not modelled, because the `Url` parameter is never null.
  Go panics at geocode.go:60 once the key has decoded, and returns the decode error otherwise.

## Findings

| source | as written | input that shows it | evidently intended | confidence | as-written member | corrected member |
|---|---|---|---|---|---|---|
| geocode.go:42 | `client[:3]` (three characters) is compared with the four-character `"gme-"`, which can never match, so every non-empty client ID is refused | client ID `gme-abc` is refused with the invalid-client error | refuse a non-empty client ID unless it starts with `gme-` (compare `client[:4]`, or use `strings.HasPrefix`) | high; not executed | Geocode.PrefixedClientRejected | Geocode.BuildQueryIntendedAccepts |
