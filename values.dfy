/** Go's `url.Values`: a query as a map from each key to its list of values, with `Set`, the
    sorted `Encode` and the parser behind `URL.Query`. */
module UrlValues {
  import opened Errors
  import opened Strings
  import opened GoLib

  type Values = map<string, seq<string>>

  /** All values of `key`, none when it is absent. */
  function ValuesOf(v: Values, key: string): seq<string>
  {
    if key in v then v[key] else []
  }

  /** `Values.Set`: `key` gets the one value `value`; every other key keeps its values. */
  function Set(v: Values, key: string, value: string): (r: Values)
    ensures r.Keys == v.Keys + {key}
    ensures r[key] == [value]
    ensures forall k :: k in v && k != key ==> r[k] == v[k]
  {
    v[key := [value]]
  }

  /** Every key has at least one value, as it always does in a parsed or `Set` query. */
  ghost predicate NonEmptyLists(v: Values)
  {
    forall k :: k in v ==> v[k] != []
  }

  /** Strictly increasing in Go's string order. */
  ghost predicate Ascending(ks: seq<string>)
  {
    forall i, j :: 0 <= i < j < |ks| ==> Below(ks[i], ks[j]) && ks[i] != ks[j]
  }

  /** `m` is one of `keys` and comes before each of them. */
  predicate IsLeast(m: string, keys: set<string>)
  {
    m in keys && forall k :: k in keys ==> Below(m, k)
  }

  lemma {:induction false} LeastExists(keys: set<string>)
    requires keys != {}
    ensures exists m :: IsLeast(m, keys)
    decreases |keys|
  {
    var x :| x in keys;
    BelowReflexive(x);
    if keys == {x} {
      assert IsLeast(x, keys);
    } else {
      LeastExists(keys - {x});
      var m :| IsLeast(m, keys - {x});
      BelowTotal(m, x);
      if Below(m, x) {
        forall k | k in keys ensures Below(m, k) {
          if k != x {
            assert k in keys - {x};
          }
        }
        assert IsLeast(m, keys);
      } else {
        forall k | k in keys ensures Below(x, k) {
          if k != x {
            assert k in keys - {x};
            BelowTransitive(x, m, k);
          }
        }
        assert IsLeast(x, keys);
      }
    }
  }

  /** The smallest key. */
  function Least(keys: set<string>): (m: string)
    requires keys != {}
    ensures m in keys && forall k :: k in keys ==> Below(m, k)
  {
    LeastExists(keys);
    BelowAntisymmetricAll();
    var m :| IsLeast(m, keys); m
  }

  /** The keys in the order `sort.Strings` puts them (see `SortedKeysAscending`). */
  function SortedKeys(keys: set<string>): seq<string>
    decreases |keys|
  {
    if keys == {} then []
    else
      var m := Least(keys);
      [m] + SortedKeys(keys - {m})
  }

  /** `SortedKeys` lists every key once, in strictly ascending order. */
  lemma {:induction false} SortedKeysAscending(keys: set<string>)
    ensures |SortedKeys(keys)| == |keys|
    ensures forall k :: k in SortedKeys(keys) <==> k in keys
    ensures Ascending(SortedKeys(keys))
    decreases |keys|
  {
    if keys != {} {
      var m := Least(keys);
      var rest := SortedKeys(keys - {m});
      SortedKeysAscending(keys - {m});
      assert SortedKeys(keys) == [m] + rest;
      forall k ensures k in [m] + rest <==> k in keys {
        assert k in [m] + rest <==> k == m || k in rest;
      }
      AscendingCons(m, rest);
    }
  }

  /** A key before every key of an ascending sequence can be put in front of it. */
  lemma AscendingCons(m: string, rest: seq<string>)
    requires Ascending(rest) && forall k :: k in rest ==> Below(m, k) && k != m
    ensures Ascending([m] + rest)
  {
    var r := [m] + rest;
    forall i, j | 0 <= i < j < |r| ensures Below(r[i], r[j]) && r[i] != r[j] {
      assert r[j] == rest[j - 1];
      if i > 0 {
        assert r[i] == rest[i - 1];
      }
    }
  }

  lemma HeadIsMember(s: seq<string>)
    requires s != []
    ensures s[0] in s
  {
  }

  /** Only one ascending sequence holds a given set of strings. */
  lemma {:induction false} AscendingUnique(a: seq<string>, b: seq<string>)
    requires Ascending(a) && Ascending(b)
    requires forall k :: k in a <==> k in b
    ensures a == b
    decreases |a|
  {
    if a != [] {
      assert a[0] in a;
      assert a[0] in b;
      assert b[0] in b;
      assert b[0] in a;
      var i :| 0 <= i < |b| && b[i] == a[0];
      var j :| 0 <= j < |a| && a[j] == b[0];
      if i != 0 && j != 0 {
        BelowAntisymmetric(a[0], b[0]);
      }
      assert a[0] == b[0];
      forall k ensures k in a[1..] <==> k in b[1..] {
        if k in a[1..] {
          var p :| 1 <= p < |a| && a[p] == k;
          assert k in b && k != b[0];
        }
        if k in b[1..] {
          var p :| 1 <= p < |b| && b[p] == k;
          assert k in a && k != a[0];
        }
      }
      AscendingUnique(a[1..], b[1..]);
      assert a == [a[0]] + a[1..] && b == [b[0]] + b[1..];
    } else if b != [] {
      HeadIsMember(b);
      assert false;
    }
  }

  /** One `key=value` pair of the encoded query, both sides escaped. */
  function Field(lib: Library, key: string, value: string): string
  {
    lib.queryEscape(key) + "=" + lib.queryEscape(value)
  }

  /** The pairs for one key, one per value, in the order of its values. */
  function KeyFields(lib: Library, key: string, values: seq<string>): seq<string>
  {
    if values == [] then [] else [Field(lib, key, values[0])] + KeyFields(lib, key, values[1..])
  }

  /** The pairs for `keys`, key after key. */
  function Fields(lib: Library, v: Values, keys: seq<string>): seq<string>
  {
    if keys == [] then [] else KeyFields(lib, keys[0], ValuesOf(v, keys[0])) + Fields(lib, v, keys[1..])
  }

  /** The pairs separated by `&`. */
  function Join(fields: seq<string>): string
  {
    if fields == [] then ""
    else if |fields| == 1 then fields[0]
    else fields[0] + "&" + Join(fields[1..])
  }

  /** `Values.Encode`: every value of every key, keys in sorted order. */
  function Encode(lib: Library, v: Values): string
  {
    Join(Fields(lib, v, SortedKeys(v.Keys)))
  }

  /** The encoded text lists the pairs key by key in ascending key order. */
  lemma EncodeInKeyOrder(lib: Library, v: Values, keys: seq<string>)
    requires Ascending(keys)
    requires forall k :: k in keys <==> k in v
    ensures Encode(lib, v) == Join(Fields(lib, v, keys))
  {
    SortedKeysAscending(v.Keys);
    AscendingUnique(keys, SortedKeys(v.Keys));
  }

  /** One `&`-separated segment as Go's query parser handles it: a segment holding `;` or an
      empty one is skipped; otherwise it is cut at its first `=`, both sides are unescaped and the
      value is appended to the key's list; a segment that fails to unescape is skipped. */
  function AddSegment(lib: Library, m: Values, segment: string): Values
  {
    if ';' in segment || segment == "" then m
    else
      var (key, value) := Cut(segment, '=');
      match (lib.queryUnescape(key), lib.queryUnescape(value))
      case (Some(k), Some(x)) => m[k := ValuesOf(m, k) + [x]]
      case _ => m
  }

  function ParseInto(lib: Library, m: Values, query: string): Values
    decreases |query|
  {
    if query == "" then m
    else
      var (segment, rest) := Cut(query, '&');
      ParseInto(lib, AddSegment(lib, m, segment), rest)
  }

  /** `URL.Query`: the raw query parsed, errors ignored. */
  function ParseQuery(lib: Library, query: string): Values
  {
    ParseInto(lib, map[], query)
  }

  /** The segments added one after another. */
  function AddAll(lib: Library, m: Values, segments: seq<string>): Values
    decreases |segments|
  {
    if segments == [] then m else AddAll(lib, AddSegment(lib, m, segments[0]), segments[1..])
  }

  lemma {:induction false} AddAllAppend(lib: Library, m: Values, a: seq<string>, b: seq<string>)
    ensures AddAll(lib, m, a + b) == AddAll(lib, AddAll(lib, m, a), b)
    decreases |a|
  {
    if a != [] {
      assert (a + b)[1..] == a[1..] + b;
      AddAllAppend(lib, AddSegment(lib, m, a[0]), a[1..], b);
    } else {
      assert a + b == b;
    }
  }

  lemma {:induction false} ParseJoin(lib: Library, m: Values, fields: seq<string>)
    requires forall i :: 0 <= i < |fields| ==> fields[i] != "" && '&' !in fields[i]
    ensures ParseInto(lib, m, Join(fields)) == AddAll(lib, m, fields)
    decreases |fields|
  {
    if |fields| == 1 {
      CutAbsent(fields[0], '&');
    } else if |fields| > 1 {
      CutAtFirst(fields[0], '&', Join(fields[1..]));
      ParseJoin(lib, AddSegment(lib, m, fields[0]), fields[1..]);
    }
  }

  lemma AddSegmentField(lib: Library, m: Values, key: string, value: string)
    requires WellBehaved(lib)
    ensures AddSegment(lib, m, Field(lib, key, value)) == m[key := ValuesOf(m, key) + [value]]
  {
    assert EscapesCleanly(lib, key) && EscapesCleanly(lib, value);
    CutAtFirst(lib.queryEscape(key), '=', lib.queryEscape(value));
  }

  lemma FirstKeyField(lib: Library, m: Values, key: string, values: seq<string>)
    requires WellBehaved(lib) && values != []
    ensures AddAll(lib, m, KeyFields(lib, key, values))
      == AddAll(lib, m[key := ValuesOf(m, key) + [values[0]]], KeyFields(lib, key, values[1..]))
  {
    var fs := KeyFields(lib, key, values);
    assert fs[0] == Field(lib, key, values[0]) && fs[1..] == KeyFields(lib, key, values[1..]);
    AddSegmentField(lib, m, key, values[0]);
  }

  lemma {:induction false} AddKeyFields(lib: Library, m: Values, key: string, values: seq<string>)
    requires WellBehaved(lib) && values != []
    ensures AddAll(lib, m, KeyFields(lib, key, values)) == m[key := ValuesOf(m, key) + values]
    decreases |values|
  {
    FirstKeyField(lib, m, key, values);
    var m' := m[key := ValuesOf(m, key) + [values[0]]];
    if |values| == 1 {
      assert values == [values[0]] && values[1..] == [];
    } else {
      AddKeyFields(lib, m', key, values[1..]);
      AppendTwice(m, key, values[0], values[1..]);
      assert [values[0]] + values[1..] == values;
    }
  }

  /** Appending `x` and then `rest` to a key's values appends `[x] + rest`. */
  lemma AppendTwice(m: Values, key: string, x: string, rest: seq<string>)
    ensures var m' := m[key := ValuesOf(m, key) + [x]];
      m'[key := ValuesOf(m', key) + rest] == m[key := ValuesOf(m, key) + ([x] + rest)]
  {
    var m' := m[key := ValuesOf(m, key) + [x]];
    assert ValuesOf(m', key) + rest == ValuesOf(m, key) + ([x] + rest);
  }

  lemma {:induction false} KeyFieldsAreSegments(lib: Library, key: string, values: seq<string>)
    requires WellBehaved(lib)
    ensures forall i :: 0 <= i < |KeyFields(lib, key, values)| ==>
      KeyFields(lib, key, values)[i] != "" && '&' !in KeyFields(lib, key, values)[i]
    decreases |values|
  {
    if values != [] {
      KeyFieldsAreSegments(lib, key, values[1..]);
      assert EscapesCleanly(lib, key) && EscapesCleanly(lib, values[0]);
    }
  }

  lemma {:induction false} FieldsAreSegments(lib: Library, v: Values, keys: seq<string>)
    requires WellBehaved(lib)
    requires forall k :: k in keys ==> k in v
    ensures forall i :: 0 <= i < |Fields(lib, v, keys)| ==>
      Fields(lib, v, keys)[i] != "" && '&' !in Fields(lib, v, keys)[i]
    decreases |keys|
  {
    if keys != [] {
      KeyFieldsAreSegments(lib, keys[0], v[keys[0]]);
      FieldsAreSegments(lib, v, keys[1..]);
    }
  }

  /** The part of `v` on `keys`. */
  function Restrict(v: Values, keys: seq<string>): Values
    requires forall k :: k in keys ==> k in v
  {
    map k | k in keys :: v[k]
  }

  lemma RestrictStep(m: Values, v: Values, keys: seq<string>)
    requires keys != [] && forall k :: k in keys ==> k in v
    ensures m[keys[0] := v[keys[0]]] + Restrict(v, keys[1..]) == m + Restrict(v, keys)
  {
    var l, r := m[keys[0] := v[keys[0]]] + Restrict(v, keys[1..]), m + Restrict(v, keys);
    forall k ensures k in l <==> k in r {
      assert k in keys <==> k == keys[0] || k in keys[1..];
    }
    forall k | k in l ensures l[k] == r[k] {
      assert k in keys <==> k == keys[0] || k in keys[1..];
    }
  }

  lemma {:induction false} AddFields(lib: Library, m: Values, v: Values, keys: seq<string>)
    requires WellBehaved(lib) && NonEmptyLists(v)
    requires forall k :: k in keys ==> k in v && k !in m
    requires forall i, j :: 0 <= i < j < |keys| ==> keys[i] != keys[j]
    ensures AddAll(lib, m, Fields(lib, v, keys)) == m + Restrict(v, keys)
    decreases |keys|
  {
    if keys == [] {
      assert Restrict(v, keys) == map[];
      assert m + map[] == m;
    } else {
      var k0 := keys[0];
      AddAllAppend(lib, m, KeyFields(lib, k0, v[k0]), Fields(lib, v, keys[1..]));
      AddKeyFields(lib, m, k0, v[k0]);
      var m' := m[k0 := v[k0]];
      assert ValuesOf(m, k0) + v[k0] == v[k0];
      forall k | k in keys[1..] ensures k in v && k !in m' {
        var p :| 0 <= p < |keys[1..]| && keys[1..][p] == k;
        assert keys[p + 1] == k && keys[0] != keys[p + 1];
      }
      forall i, j | 0 <= i < j < |keys[1..]| ensures keys[1..][i] != keys[1..][j] {
        assert keys[1..][i] == keys[i + 1] && keys[1..][j] == keys[j + 1];
      }
      AddFields(lib, m', v, keys[1..]);
      RestrictStep(m, v, keys);
    }
  }

  lemma RestrictAll(v: Values, keys: seq<string>)
    requires forall k :: k in keys <==> k in v
    ensures map[] + Restrict(v, keys) == v
  {
    var r := map[] + Restrict(v, keys);
    assert r.Keys == v.Keys;
  }

  /** Parsing what `Encode` produced gives back the query it was given. */
  lemma ParseEncode(lib: Library, v: Values)
    requires WellBehaved(lib) && NonEmptyLists(v)
    ensures ParseQuery(lib, Encode(lib, v)) == v
  {
    var keys := SortedKeys(v.Keys);
    SortedKeysAscending(v.Keys);
    FieldsAreSegments(lib, v, keys);
    ParseJoin(lib, map[], Fields(lib, v, keys));
    AddFields(lib, map[], v, keys);
    RestrictAll(v, keys);
  }

  lemma {:induction false} ParseIntoNonEmpty(lib: Library, m: Values, query: string)
    requires NonEmptyLists(m)
    ensures NonEmptyLists(ParseInto(lib, m, query))
    decreases |query|
  {
    if query != "" {
      var (segment, rest) := Cut(query, '&');
      ParseIntoNonEmpty(lib, AddSegment(lib, m, segment), rest);
    }
  }

  /** A parsed query never has a key without a value. */
  lemma ParseQueryNonEmpty(lib: Library, query: string)
    ensures NonEmptyLists(ParseQuery(lib, query))
  {
    ParseIntoNonEmpty(lib, map[], query);
  }
}
