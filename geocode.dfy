/** The request side of the client: `GetURL` builds the unsigned query URL for the geocoding
    API and `SignURL` adds the HMAC-SHA1 `signature` parameter to it in place. */
module Geocode {
  import opened Errors
  import opened Strings
  import opened GoLib
  import opened UrlValues

  /** The parts `url.Parse` splits the constant `HostURL`,
      "https://maps.googleapis.com/maps/api/geocode/json", into. */
  const HostScheme := "https"
  const HostName := "maps.googleapis.com"
  const HostPath := "/maps/api/geocode/json"

  /** The required prefix of a client ID. */
  const ClientPrefix := "gme-"

  /** The fields of Go's `url.URL` that these functions read or write. `path` is held in its
      escaped form, as `EscapedPath` returns it. */
  class Url {
    var scheme: string
    var host: string
    var path: string
    var rawQuery: string

    constructor (scheme: string, host: string, path: string, rawQuery: string)
      ensures this.scheme == scheme && this.host == host
      ensures this.path == path && this.rawQuery == rawQuery
    {
      this.scheme := scheme;
      this.host := host;
      this.path := path;
      this.rawQuery := rawQuery;
    }

    /** `URL.Query`. */
    function Query(lib: Library): Values
      reads this
    {
      ParseQuery(lib, rawQuery)
    }

    /** `URL.RequestURI`: the path and query as they go on the wire. */
    function RequestURI(): string
      reads this
    {
      RequestUri(path, rawQuery)
    }
  }

  function RequestUri(path: string, rawQuery: string): string
  {
    (if path == "" then "/" else path) + (if rawQuery == "" then "" else "?" + rawQuery)
  }

  /** `fmt.Sprint` of a bool. */
  function SensorText(sensor: bool): string
  {
    if sensor then "true" else "false"
  }

  /** The query `GetURL` assembles once the client ID has passed its check. Each value is
      escaped here and escaped again by `Encode`. */
  function QueryFor(lib: Library, address: string, sensor: bool, client: string): (q: Values)
    ensures q.Keys == {"address", "sensor"} + (if client == "" then {} else {"client"})
    ensures q["address"] == [lib.queryEscape(address)]
    ensures q["sensor"] == [lib.queryEscape(SensorText(sensor))]
    ensures client != "" ==> q["client"] == [lib.queryEscape(client)]
    ensures NonEmptyLists(q)
  {
    var q := Set(Set(map[], "address", lib.queryEscape(address)), "sensor", lib.queryEscape(SensorText(sensor)));
    if client == "" then q else Set(q, "client", lib.queryEscape(client))
  }

  /** What `GetURL` decides, as written: a non-empty client is compared by its first three
      characters with the four-character prefix. Shorter non-empty clients make Go panic. */
  function BuildQuery(lib: Library, address: string, sensor: bool, client: string): Result<Values>
    requires client == "" || |client| >= 3
  {
    if client != "" && client[..3] != ClientPrefix then Err(InvalidClientId)
    else Ok(QueryFor(lib, address, sensor, client))
  }

  /** `GetURL`: parses the constant host, sets `address`, `sensor` and, if given, `client`, and
      stores the sorted encoding; refuses the client ID by returning no URL. */
  method GetURL(lib: Library, address: string, sensor: bool, client: string) returns (result: Url?, err: Option<GeoError>)
    requires client == "" || |client| >= 3
    ensures BuildQuery(lib, address, sensor, client).Err? ==>
      result == null && err == Some(BuildQuery(lib, address, sensor, client).error)
    ensures BuildQuery(lib, address, sensor, client).Ok? ==>
      && err == None && result != null && fresh(result)
      && result.scheme == HostScheme && result.host == HostName && result.path == HostPath
      && result.rawQuery == Encode(lib, BuildQuery(lib, address, sensor, client).value)
  {
    result := new Url(HostScheme, HostName, HostPath, "");
    var query := result.Query(lib);
    query := Set(query, "address", lib.queryEscape(address));
    query := Set(query, "sensor", lib.queryEscape(SensorText(sensor)));
    if client != "" {
      if client[..3] != ClientPrefix {
        return null, Some(InvalidClientId);
      }
      query := Set(query, "client", lib.queryEscape(client));
    }
    assert query == QueryFor(lib, address, sensor, client);
    result.rawQuery := Encode(lib, query);
    return result, None;
  }

  /** As written, every non-empty client ID is refused, so in particular every one that lacks
      the `gme-` prefix. */
  lemma GetURLRejectsClients(lib: Library, address: string, sensor: bool, client: string)
    requires |client| >= 3
    ensures BuildQuery(lib, address, sensor, client) == Err(InvalidClientId)
  {
  }

  /** The guarantee the check as written does give: a client ID without the `gme-` prefix is
      refused. */
  lemma UnprefixedClientsRejected(lib: Library, address: string, sensor: bool, client: string)
    requires |client| >= 3 && !HasPrefix(client, ClientPrefix)
    ensures BuildQuery(lib, address, sensor, client) == Err(InvalidClientId)
  {
  }

  /** A well-formed client ID that the check as written refuses. */
  lemma PrefixedClientRejected(lib: Library, address: string, sensor: bool)
    ensures HasPrefix("gme-abc", ClientPrefix)
    ensures BuildQuery(lib, address, sensor, "gme-abc") == Err(InvalidClientId)
  {
  }

  /** The parameter names and the spellings of `sensor` need no escaping. */
  lemma NamesUnreserved()
    ensures Unreserved("address") && Unreserved("client") && Unreserved("sensor")
  {
  }

  lemma SpellingsUnreserved()
    ensures Unreserved("true") && Unreserved("false")
  {
  }

  lemma EscapeKeeps(lib: Library, s: string)
    requires WellBehaved(lib) && Unreserved(s)
    ensures lib.queryEscape(s) == s
  {
    assert KeepsUnreserved(lib, s);
  }

  lemma EscapeSensorText(lib: Library, sensor: bool)
    requires WellBehaved(lib)
    ensures lib.queryEscape(lib.queryEscape(SensorText(sensor))) == SensorText(sensor)
  {
    SpellingsUnreserved();
    if sensor {
      EscapeKeeps(lib, "true");
    } else {
      EscapeKeeps(lib, "false");
    }
  }

  /** A query whose keys each hold one value encodes as one pair per key. */
  lemma {:induction false} SingleValueFields(lib: Library, v: Values, keys: seq<string>)
    requires forall k :: k in keys ==> k in v && |v[k]| == 1
    ensures Fields(lib, v, keys) == seq(|keys|, i requires 0 <= i < |keys| => Field(lib, keys[i], v[keys[i]][0]))
    decreases |keys|
  {
    if keys != [] {
      SingleValueFields(lib, v, keys[1..]);
      assert v[keys[0]] == [v[keys[0]][0]];
      assert KeyFields(lib, keys[0], v[keys[0]]) == [Field(lib, keys[0], v[keys[0]][0])];
    }
  }

  /** Encoding a query with two single-valued keys. */
  lemma EncodeTwo(lib: Library, v: Values, k1: string, k2: string)
    requires v.Keys == {k1, k2} && k1 != k2 && Below(k1, k2)
    requires |v[k1]| == 1 && |v[k2]| == 1
    ensures Encode(lib, v) == Field(lib, k1, v[k1][0]) + "&" + Field(lib, k2, v[k2][0])
  {
    var keys := [k1, k2];
    EncodeInKeyOrder(lib, v, keys);
    SingleValueFields(lib, v, keys);
    var fs := Fields(lib, v, keys);
    assert Join(fs) == fs[0] + "&" + fs[1];
  }

  /** The two pairs of a client-less query, before anything is known about escaping. */
  lemma QueryWithoutClientFields(lib: Library, address: string, sensor: bool)
    ensures Encode(lib, QueryFor(lib, address, sensor, ""))
      == Field(lib, "address", lib.queryEscape(address)) + "&" + Field(lib, "sensor", lib.queryEscape(SensorText(sensor)))
  {
    assert Below("address", "sensor");
    EncodeTwo(lib, QueryFor(lib, address, sensor, ""), "address", "sensor");
  }

  /** A pair whose key escaping leaves as it is and whose value is already escaped once. */
  lemma PlainPair(lib: Library, key: string, value: string)
    requires WellBehaved(lib) && Unreserved(key)
    ensures Field(lib, key, lib.queryEscape(value)) == key + "=" + lib.queryEscape(lib.queryEscape(value))
  {
    EscapeKeeps(lib, key);
  }

  /** Without a client, `GetURL` succeeds with exactly `address` and `sensor`, encoded in that
      (sorted) order, each value escaped twice. */
  lemma GetURLWithoutClient(lib: Library, address: string, sensor: bool)
    requires WellBehaved(lib)
    ensures BuildQuery(lib, address, sensor, "").Ok?
    ensures BuildQuery(lib, address, sensor, "").value.Keys == {"address", "sensor"}
    ensures Encode(lib, BuildQuery(lib, address, sensor, "").value)
      == "address=" + lib.queryEscape(lib.queryEscape(address)) + "&sensor=" + SensorText(sensor)
  {
    assert BuildQuery(lib, address, sensor, "") == Ok(QueryFor(lib, address, sensor, ""));
    NamesUnreserved();
    QueryWithoutClientFields(lib, address, sensor);
    PlainPair(lib, "address", address);
    EscapeKeeps(lib, "sensor");
    EscapeSensorText(lib, sensor);
    AddressSensorText(lib.queryEscape(lib.queryEscape(address)), SensorText(sensor));
  }

  lemma AddressSensorText(a: string, s: string)
    ensures ("address" + "=" + a) + "&" + ("sensor" + "=" + s) == "address=" + a + "&sensor=" + s
  {
  }

  /** The client check as evidently intended: a non-empty client ID must start with `gme-`.
      Unlike `BuildQuery` it needs nothing of its caller. */
  function BuildQueryIntended(lib: Library, address: string, sensor: bool, client: string): Result<Values>
  {
    if client != "" && !HasPrefix(client, ClientPrefix) then Err(InvalidClientId)
    else Ok(QueryFor(lib, address, sensor, client))
  }

  /** The intended check accepts exactly the empty client and the clients with the prefix, and
      then carries the client ID, escaped once, as the `client` value. */
  lemma BuildQueryIntendedAccepts(lib: Library, address: string, sensor: bool, client: string)
    ensures BuildQueryIntended(lib, address, sensor, client).Ok? <==> client == "" || HasPrefix(client, ClientPrefix)
    ensures BuildQueryIntended(lib, address, sensor, client).Err? ==>
      BuildQueryIntended(lib, address, sensor, client).error == InvalidClientId
    ensures BuildQueryIntended(lib, address, sensor, client).Ok? ==>
      && BuildQueryIntended(lib, address, sensor, client).value.Keys
         == {"address", "sensor"} + (if client == "" then {} else {"client"})
      && (client != "" ==> BuildQueryIntended(lib, address, sensor, client).value["client"] == [lib.queryEscape(client)])
  {
  }

  /** Both checks agree whenever there is no client to check. */
  lemma BuildQueryAgreesWithoutClient(lib: Library, address: string, sensor: bool)
    ensures BuildQuery(lib, address, sensor, "") == BuildQueryIntended(lib, address, sensor, "")
  {
  }

  /** Encoding a query with three single-valued keys. */
  lemma EncodeThree(lib: Library, v: Values, k1: string, k2: string, k3: string)
    requires v.Keys == {k1, k2, k3}
    requires Below(k1, k2) && Below(k2, k3) && Below(k1, k3) && k1 != k2 && k2 != k3 && k1 != k3
    requires |v[k1]| == 1 && |v[k2]| == 1 && |v[k3]| == 1
    ensures Encode(lib, v)
      == Field(lib, k1, v[k1][0]) + "&" + Field(lib, k2, v[k2][0]) + "&" + Field(lib, k3, v[k3][0])
  {
    var keys := [k1, k2, k3];
    EncodeInKeyOrder(lib, v, keys);
    SingleValueFields(lib, v, keys);
    JoinThree(Fields(lib, v, keys));
  }

  lemma JoinThree(fs: seq<string>)
    requires |fs| == 3
    ensures Join(fs) == fs[0] + "&" + fs[1] + "&" + fs[2]
  {
    assert fs[1..][1..] == [fs[2]];
    assert Join(fs[1..]) == fs[1] + "&" + fs[2];
  }

  /** The `client` key sorts between `address` and `sensor`. */
  lemma ClientKeyOrder()
    ensures Below("address", "client") && Below("client", "sensor") && Below("address", "sensor")
  {
  }

  /** The three pairs of a query with a client, before anything is known about escaping. */
  lemma QueryWithClientFields(lib: Library, address: string, sensor: bool, client: string)
    requires client != ""
    ensures Encode(lib, QueryFor(lib, address, sensor, client))
      == Field(lib, "address", lib.queryEscape(address)) + "&" + Field(lib, "client", lib.queryEscape(client))
         + "&" + Field(lib, "sensor", lib.queryEscape(SensorText(sensor)))
  {
    ClientKeyOrder();
    EncodeThree(lib, QueryFor(lib, address, sensor, client), "address", "client", "sensor");
  }

  /** With an accepted client ID the query lists `address`, `client` and `sensor`, in that
      (sorted) order, each value escaped twice. */
  lemma GetURLIntendedWithClient(lib: Library, address: string, sensor: bool, client: string)
    requires WellBehaved(lib) && HasPrefix(client, ClientPrefix)
    ensures BuildQueryIntended(lib, address, sensor, client).Ok?
    ensures Encode(lib, BuildQueryIntended(lib, address, sensor, client).value)
      == "address=" + lib.queryEscape(lib.queryEscape(address))
         + "&client=" + lib.queryEscape(lib.queryEscape(client))
         + "&sensor=" + SensorText(sensor)
  {
    assert client != "";
    NamesUnreserved();
    QueryWithClientFields(lib, address, sensor, client);
    PlainPair(lib, "address", address);
    PlainPair(lib, "client", client);
    EscapeKeeps(lib, "sensor");
    EscapeSensorText(lib, sensor);
    ClientQueryText(lib.queryEscape(lib.queryEscape(address)), lib.queryEscape(lib.queryEscape(client)), SensorText(sensor));
  }

  lemma ClientQueryText(a: string, c: string, s: string)
    ensures ("address" + "=" + a) + "&" + ("client" + "=" + c) + "&" + ("sensor" + "=" + s)
      == "address=" + a + "&client=" + c + "&sensor=" + s
  {
  }

  /** The base64 text of the HMAC-SHA1 of the UTF-8 bytes of `uri` under `key`. */
  function Signature(lib: Library, key: seq<byte>, uri: string): string
  {
    lib.encodeBase64(lib.hmacSha1(key, lib.utf8(uri)))
  }

  /** The raw query `SignURL` stores: the old query with `signature` set to the signature of
      the old request URI, encoded again. */
  function SignedRawQuery(lib: Library, path: string, rawQuery: string, key: seq<byte>): string
  {
    Encode(lib, Set(ParseQuery(lib, rawQuery), "signature", Signature(lib, key, RequestUri(path, rawQuery))))
  }

  /** `SignURL`: decodes the base64 key, signs the request URI and replaces the raw query by
      the old query with the `signature` added; a key that does not decode leaves the URL as
      it was. */
  method SignURL(lib: Library, toSign: Url, key: string) returns (err: Option<GeoError>)
    modifies toSign
    ensures lib.decodeBase64(key).None? ==> err == Some(InvalidKey) && unchanged(toSign)
    ensures lib.decodeBase64(key).Some? ==>
      && err == None
      && toSign.scheme == old(toSign.scheme) && toSign.host == old(toSign.host)
      && toSign.path == old(toSign.path)
      && toSign.rawQuery == SignedRawQuery(lib, old(toSign.path), old(toSign.rawQuery), lib.decodeBase64(key).value)
  {
    var decodedKey := lib.decodeBase64(key);
    if decodedKey.None? {
      return Some(InvalidKey);
    }
    var message := lib.utf8(toSign.RequestURI());
    var signature := lib.encodeBase64(lib.hmacSha1(decodedKey.value, message));
    var query := toSign.Query(lib);
    query := Set(query, "signature", signature);
    toSign.rawQuery := Encode(lib, query);
    return None;
  }

  lemma SetNonEmpty(v: Values, key: string, value: string)
    requires NonEmptyLists(v)
    ensures NonEmptyLists(Set(v, key, value))
  {
  }

  /** Signing adds the `signature` parameter with the signature as its one value and keeps every
      other parameter as it was: the parsed signed query is the old one with `signature` set. */
  lemma SignedQueryAddsOnlySignature(lib: Library, path: string, rawQuery: string, key: seq<byte>)
    requires WellBehaved(lib)
    ensures ParseQuery(lib, SignedRawQuery(lib, path, rawQuery, key))
      == Set(ParseQuery(lib, rawQuery), "signature", Signature(lib, key, RequestUri(path, rawQuery)))
    ensures ParseQuery(lib, SignedRawQuery(lib, path, rawQuery, key))["signature"]
      == [Signature(lib, key, RequestUri(path, rawQuery))]
  {
    var v := Set(ParseQuery(lib, rawQuery), "signature", Signature(lib, key, RequestUri(path, rawQuery)));
    ParseQueryNonEmpty(lib, rawQuery);
    SetNonEmpty(ParseQuery(lib, rawQuery), "signature", Signature(lib, key, RequestUri(path, rawQuery)));
    ParseEncode(lib, v);
  }

  /** From the address to the signed URL with the intended client check: the signed query holds
      exactly the built parameters plus the signature of the unsigned request URI. */
  lemma BuildThenSign(lib: Library, address: string, sensor: bool, client: string, key: seq<byte>)
    requires WellBehaved(lib) && BuildQueryIntended(lib, address, sensor, client).Ok?
    ensures var q := BuildQueryIntended(lib, address, sensor, client).value;
      var raw := Encode(lib, q);
      ParseQuery(lib, SignedRawQuery(lib, HostPath, raw, key))
        == q["signature" := [Signature(lib, key, HostPath + "?" + raw)]]
  {
    var q := BuildQueryIntended(lib, address, sensor, client).value;
    var raw := Encode(lib, q);
    assert q == QueryFor(lib, address, sensor, client);
    assert NonEmptyLists(q);
    ParseEncode(lib, q);
    assert ParseQuery(lib, raw) == q;
    SignedQueryAddsOnlySignature(lib, HostPath, raw, key);
    assert "address" in q;
    NonEmptyQueryText(lib, q);
    assert raw != "";
    assert RequestUri(HostPath, raw) == HostPath + "?" + raw;
  }

  /** A query with a parameter never encodes to the empty text, so its request URI carries `?`. */
  lemma NonEmptyQueryText(lib: Library, v: Values)
    requires v != map[] && NonEmptyLists(v)
    ensures Encode(lib, v) != ""
  {
    var keys := SortedKeys(v.Keys);
    SortedKeysAscending(v.Keys);
    assert v.Keys != {};
    assert keys != [];
    assert keys[0] in v;
    var fs := Fields(lib, v, keys);
    assert fs[0] == Field(lib, keys[0], v[keys[0]][0]);
    assert fs[0] != "";
  }
}
