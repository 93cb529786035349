/** The `/auth` login redirect handler: Telegram's login widget sends the
    user's fields as query parameters together with a `hash` that signs them.
    The handler rebuilds the check string from the other fields and accepts
    the login exactly when its HMAC-SHA256 digest equals `hash`. */
module Auth {
  import opened Strings

  /** The query parameter that carries the signature. */
  const HashField := "hash"

  /** A lookup of the query's fields, all strings. */
  type Fields = map<string, string>

  /** The lower-case hex HMAC-SHA256 of a message under the key
      SHA-256(MASTER_BOT_TOKEN); the digest itself is not modelled. */
  type Signer = string -> string

  /** No two positions of `s` hold the same string. */
  predicate Distinct(s: seq<string>)
  {
    forall i, j :: 0 <= i < j < |s| ==> s[i] != s[j]
  }

  /** `keys` is what `Object.keys` returns for `fields`: every key once, in
      some order. */
  predicate Enumerates(keys: seq<string>, fields: Fields)
  {
    && Distinct(keys)
    && (forall k :: k in fields ==> k in keys)
    && (forall k :: k in keys ==> k in fields)
  }

  /** `keys` with every occurrence of `x` removed, the order kept. */
  function Without(keys: seq<string>, x: string): (r: seq<string>)
    ensures forall k :: k in r <==> k in keys && k != x
  {
    if keys == [] then []
    else if keys[0] == x then Without(keys[1..], x)
    else [keys[0]] + Without(keys[1..], x)
  }

  lemma {:induction false} WithoutDistinct(keys: seq<string>, x: string)
    requires Distinct(keys)
    ensures Distinct(Without(keys, x))
  {
    if keys != [] {
      assert Distinct(keys[1..]) by {
        forall i, j | 0 <= i < j < |keys[1..]| ensures keys[1..][i] != keys[1..][j] {
          assert keys[1..][i] == keys[i + 1] && keys[1..][j] == keys[j + 1];
        }
      }
      WithoutDistinct(keys[1..], x);
      if keys[0] != x {
        assert keys[0] !in keys[1..] by {
          forall i | 0 <= i < |keys[1..]| ensures keys[1..][i] != keys[0] {
            assert keys[1..][i] == keys[i + 1];
          }
        }
        var r := [keys[0]] + Without(keys[1..], x);
        forall i, j | 0 <= i < j < |r| ensures r[i] != r[j] {
          if i > 0 {
            assert r[i] == Without(keys[1..], x)[i - 1];
          }
          assert r[j] == Without(keys[1..], x)[j - 1];
        }
      }
    }
  }

  /** In a sequence without repetitions every string occurs at most once. */
  lemma {:induction false} DistinctCounts(s: seq<string>)
    ensures Distinct(s) <==> forall x :: multiset(s)[x] <= 1
  {
    if s != [] {
      DistinctCounts(s[1..]);
      assert s == [s[0]] + s[1..];
      assert multiset(s) == multiset{s[0]} + multiset(s[1..]);
      if Distinct(s) {
        assert Distinct(s[1..]) by {
          forall i, j | 0 <= i < j < |s[1..]| ensures s[1..][i] != s[1..][j] {
            assert s[1..][i] == s[i + 1] && s[1..][j] == s[j + 1];
          }
        }
        assert s[0] !in s[1..] by {
          forall i | 0 <= i < |s[1..]| ensures s[1..][i] != s[0] {
            assert s[1..][i] == s[i + 1];
          }
        }
      } else {
        var i, j :| 0 <= i < j < |s| && s[i] == s[j];
        if i == 0 {
          assert s[j] == s[1..][j - 1];
          assert multiset(s)[s[0]] >= 2;
        } else {
          assert s[i] == s[1..][i - 1] && s[j] == s[1..][j - 1];
          assert !Distinct(s[1..]);
          var x :| multiset(s[1..])[x] > 1;
          assert multiset(s)[x] > 1;
        }
      }
    }
  }

  /** Two enumerations of the same fields hold the same keys, each once. */
  lemma EnumerationsAgree(k1: seq<string>, k2: seq<string>, fields: Fields)
    requires Enumerates(k1, fields) && Enumerates(k2, fields)
    ensures multiset(k1) == multiset(k2)
  {
    DistinctCounts(k1);
    DistinctCounts(k2);
    forall x ensures multiset(k1)[x] == multiset(k2)[x] {
      assert x in k1 <==> x in k2;
    }
  }

  /** `Object.keys(data).sort()`: the keys of `data` in strictly ascending
      order, each exactly once. */
  function SortedKeys(data: Fields, keys: seq<string>): (ks: seq<string>)
    requires Enumerates(keys, data)
    ensures Enumerates(ks, data)
    ensures forall i, j :: 0 <= i < j < |ks| ==> Below(ks[i], ks[j])
  {
    SortSpec(keys);
    DistinctCounts(keys);
    DistinctCounts(Sort(keys));
    assert forall k :: k in keys <==> k in Sort(keys) by {
      forall k ensures k in keys <==> k in Sort(keys) {
        assert k in keys <==> k in multiset(keys);
        assert k in Sort(keys) <==> k in multiset(Sort(keys));
      }
    }
    Sort(keys)
  }

  /** `.map(k => `${k}=${data[k]}`)`: one `key=value` line per key. */
  function Lines(data: Fields, ks: seq<string>): (lines: seq<string>)
    requires forall k :: k in ks ==> k in data
    ensures |lines| == |ks|
    ensures forall i :: 0 <= i < |ks| ==> lines[i] == ks[i] + "=" + data[ks[i]]
  {
    if ks == [] then [] else [ks[0] + "=" + data[ks[0]]] + Lines(data, ks[1..])
  }

  /** The data-check string of index.js:32: the `key=value` lines of
      `data`, keys in ascending order, joined by line feeds. */
  function CheckString(data: Fields, keys: seq<string>): string
    requires Enumerates(keys, data)
  {
    Join(Lines(data, SortedKeys(data, keys)), '\n')
  }

  /** The check string does not depend on the order in which the fields
      were supplied. */
  lemma CheckStringIgnoresKeyOrder(data: Fields, k1: seq<string>, k2: seq<string>)
    requires Enumerates(k1, data) && Enumerates(k2, data)
    ensures CheckString(data, k1) == CheckString(data, k2)
  {
    EnumerationsAgree(k1, k2, data);
    SortIgnoresInputOrder(k1, k2);
  }

  /** What the handler answers. */
  datatype Outcome =
    | NoData                  // 400 "No data."
    | Redirect(user: Fields)  // redirect to the dashboard carrying `user`
    | Rejected                // 403 "Verification failed."
  {
    function HttpStatus(): int
    {
      match this
      case NoData => 400
      case Redirect(_) => 302
      case Rejected => 403
    }
  }

  /** The message a genuine login's hash signs: the check string of every
      field but `hash`. */
  function SignedMessage(query: Fields, keys: seq<string>): string
    requires Enumerates(keys, query)
  {
    DataKeys(query, keys);
    CheckString(query - {HashField}, Without(keys, HashField))
  }

  /** The hash a genuine login would carry: the digest of its signed
      message. */
  function ExpectedHash(query: Fields, keys: seq<string>, sign: Signer): string
    requires Enumerates(keys, query)
  {
    sign(SignedMessage(query, keys))
  }

  /** The `/auth` handler on a query whose keys, in `Object.keys` order,
      are `keys`. A request without a hash, or with an empty one (`!hash`),
      is answered 400 before any digest is computed; otherwise the login is
      accepted exactly when the digest of the check string of the other
      fields equals the hash, and a redirect carries those fields and never
      the hash. */
  function Authenticate(query: Fields, keys: seq<string>, sign: Signer): (r: Outcome)
    requires Enumerates(keys, query)
    ensures r.NoData? <==> HashField !in query || query[HashField] == ""
    ensures r.Redirect? <==>
      && HashField in query && query[HashField] != ""
      && ExpectedHash(query, keys, sign) == query[HashField]
    ensures r.Redirect? ==> r.user == query - {HashField} && HashField !in r.user
    ensures r.HttpStatus() == 403 <==> r.Rejected?
  {
    if HashField !in query || query[HashField] == "" then NoData
    else if ExpectedHash(query, keys, sign) == query[HashField] then Redirect(query - {HashField})
    else Rejected
  }

  /** The keys of the query other than `hash`, in their original order,
      enumerate the fields that are signed. */
  lemma DataKeys(query: Fields, keys: seq<string>)
    requires Enumerates(keys, query)
    ensures Enumerates(Without(keys, HashField), query - {HashField})
  {
    WithoutDistinct(keys, HashField);
  }

  /** A login signed with the true digest of its fields is accepted, in
      whatever order the fields arrive. */
  lemma GenuineLoginAccepted(data: Fields, dataKeys: seq<string>, sign: Signer,
                             keys: seq<string>)
    requires HashField !in data && Enumerates(dataKeys, data)
    requires sign(CheckString(data, dataKeys)) != ""
    requires Enumerates(keys, data[HashField := sign(CheckString(data, dataKeys))])
    ensures Authenticate(data[HashField := sign(CheckString(data, dataKeys))], keys, sign)
            == Redirect(data)
  {
    var query := data[HashField := sign(CheckString(data, dataKeys))];
    assert query - {HashField} == data;
    DataKeys(query, keys);
    CheckStringIgnoresKeyOrder(data, dataKeys, Without(keys, HashField));
  }

  /** Replacing the hash of an accepted login by any other string makes it
      fail. */
  lemma ForgedHashRejected(query: Fields, keys: seq<string>, sign: Signer, forged: string)
    requires Enumerates(keys, query)
    requires Authenticate(query, keys, sign).Redirect?
    requires forged != query[HashField]
    ensures Enumerates(keys, query[HashField := forged])
    ensures !Authenticate(query[HashField := forged], keys, sign).Redirect?
  {
    var query' := query[HashField := forged];
    assert query' - {HashField} == query - {HashField};
  }

  /** The digest does not collide on the messages `a` and `b` (collision
      resistance, taken as a hypothesis about these two messages only). */
  predicate Separates(sign: Signer, a: string, b: string)
  {
    sign(a) == sign(b) ==> a == b
  }

  /** The value is what follows the key and the `=` sign. */
  lemma LineValue(k: string, v: string)
    ensures (k + "=" + v)[|k| + 1..] == v
  {
  }

  /** Over the same keys, changing the value of the key at position `i`
      changes line `i` and no other. */
  lemma LinesDifferAt(d: Fields, ks: seq<string>, i: nat, value: string)
    requires Enumerates(ks, d) && i < |ks| && value != d[ks[i]]
    ensures forall k :: k in ks ==> k in d[ks[i] := value]
    ensures var l1, l2 := Lines(d, ks), Lines(d[ks[i] := value], ks);
      && (forall j :: 0 <= j < |ks| && j != i ==> l1[j] == l2[j])
      && l1[i] != l2[i]
  {
    var field := ks[i];
    var l1, l2 := Lines(d, ks), Lines(d[field := value], ks);
    forall j | 0 <= j < |ks| && j != i ensures l1[j] == l2[j] {
      assert ks[j] != field;
    }
    LineValue(field, d[field]);
    LineValue(field, value);
  }

  /** Over the same keys, changing one value changes the lines joined into
      the check string. */
  lemma ValueChangeAltersJoin(d: Fields, ks: seq<string>, field: string, value: string)
    requires Enumerates(ks, d)
    requires field in d && value != d[field]
    ensures forall k :: k in ks ==> k in d[field := value]
    ensures Join(Lines(d, ks), '\n') != Join(Lines(d[field := value], ks), '\n')
  {
    assert field in ks;
    var i :| 0 <= i < |ks| && ks[i] == field;
    LinesDifferAt(d, ks, i, value);
    JoinDiffersAt(Lines(d, ks), Lines(d[field := value], ks), i, '\n');
  }

  /** Changing the value of one field changes the check string, in whatever
      order the fields of either side arrive. */
  lemma TamperedCheckString(d: Fields, k1: seq<string>, field: string, value: string,
                            k2: seq<string>)
    requires Enumerates(k1, d)
    requires field in d && value != d[field]
    requires Enumerates(k2, d[field := value])
    ensures CheckString(d, k1) != CheckString(d[field := value], k2)
  {
    SameKeysSameOrder(d, k1, d[field := value], k2);
    ValueChangeAltersJoin(d, SortedKeys(d, k1), field, value);
  }

  lemma RemoveAfterUpdate(query: Fields, field: string, value: string)
    requires field != HashField
    ensures query[field := value] - {HashField} == (query - {HashField})[field := value]
  {
  }

  /** Fields with the same keys have the same sorted keys. */
  lemma SameKeysSameOrder(d1: Fields, k1: seq<string>, d2: Fields, k2: seq<string>)
    requires Enumerates(k1, d1) && Enumerates(k2, d2)
    requires d1.Keys == d2.Keys
    ensures SortedKeys(d1, k1) == SortedKeys(d2, k2)
  {
    assert Enumerates(k2, d1);
    EnumerationsAgree(k1, k2, d1);
    SortIgnoresInputOrder(k1, k2);
  }

  /** Changing the value of one signed field of an accepted login makes it
      fail, whatever order the tampered fields arrive in, provided the digest
      does not collide on the two signed messages. */
  lemma TamperedFieldRejected(query: Fields, keys: seq<string>, sign: Signer,
                              field: string, value: string, keys': seq<string>)
    requires Enumerates(keys, query)
    requires Authenticate(query, keys, sign).Redirect?
    requires field in query && field != HashField && value != query[field]
    requires Enumerates(keys', query[field := value])
    requires Separates(sign, SignedMessage(query, keys), SignedMessage(query[field := value], keys'))
    ensures !Authenticate(query[field := value], keys', sign).Redirect?
  {
    var d1 := query - {HashField};
    var q2 := query[field := value];
    assert q2 - {HashField} == d1[field := value] by {
      RemoveAfterUpdate(query, field, value);
    }
    DataKeys(query, keys);
    DataKeys(q2, keys');
    TamperedCheckString(d1, Without(keys, HashField), field, value, Without(keys', HashField));
    assert ExpectedHash(query, keys, sign) != ExpectedHash(q2, keys', sign);
    assert q2[HashField] == query[HashField];
  }

  /** Line feeds inside values make the check string ambiguous: two different
      sets of fields share one check string, so share one valid hash. */
  lemma CheckStringAmbiguous()
    ensures var one := map["a" := "1\nb=2"];
            var two := map["a" := "1", "b" := "2"];
            && one != two
            && CheckString(one, ["a"]) == CheckString(two, ["b", "a"])
  {
    var two := map["a" := "1", "b" := "2"];
    assert Below("a", "b");
    assert Sort(["b", "a"]) == ["a", "b"];
    assert SortedKeys(two, ["b", "a"]) == ["a", "b"];
    assert "b" !in map["a" := "1\nb=2"];
  }
}
