/** The URL the client resolves: `http_build_query` over the parameter map, glued to the
    root with `?`, and the `rtrim` that drops that `?` when the map is empty. */
module QueryString {
  import opened PhpStrings
  import opened UrlEncoding
  import opened QueryParams

  /** The root of the first version of the service, the field's initial value. */
  const V1Root: string := "https://punkapi.com/api/v1/beers"
  /** The root used when the key passed at construction is the string "v2". */
  const V2Root: string := "https://api.punkapi.com/v2/beers"

  /** The root chosen at construction: the v2 URL exactly when the key is `"v2"`. */
  function RootFor(apiKey: Bytes): (root: string)
    ensures root == V2Root <==> apiKey == "v2"
    ensures root == V1Root <==> apiKey != "v2"
    ensures root != [] && '?' !in root
  {
    if apiKey == "v2" then V2Root else V1Root
  }

  /** The text `http_build_query` writes for a value: an integer is written in decimal
      as it is, a string goes through `urlencode`. */
  function ValueField(v: Value): string
  {
    match v
    case Str(s) => Encode(s)
    case Int(n) => Decimal(n)
  }

  /** Writing an integer directly is the same as encoding its decimal text. */
  lemma ValueFieldEncodes(v: Value)
    ensures ValueField(v) == Encode(ValueText(v))
  {
    if v.Int? {
      EncodeIdentity(Decimal(v.n));
    }
  }

  /** One `key=value` pair of the query string. */
  function Pair(e: Entry): string
  {
    Encode(e.key) + "=" + ValueField(e.value)
  }

  predicate IsQueryChar(c: char) {
    IsEncodedChar(c) || c == '=' || c == '&'
  }

  lemma PairChars(e: Entry)
    ensures forall i | 0 <= i < |Pair(e)| :: IsEncodedChar(Pair(e)[i]) || Pair(e)[i] == '='
  {
    ValueFieldEncodes(e.value);
  }

  function Pairs(ps: seq<Entry>): (pairs: seq<string>)
  {
    seq(|ps|, i requires 0 <= i < |ps| => Pair(ps[i]))
  }

  /** `http_build_query` on the parameter map: the pairs in map order, joined by `&`.
      It is empty exactly when the map is, and it never holds a `?`. */
  function BuildQuery(ps: seq<Entry>): (q: string)
    ensures q == [] <==> ps == []
    ensures forall i | 0 <= i < |q| :: IsQueryChar(q[i])
    ensures '?' !in q
  {
    var pairs := Pairs(ps);
    forall i, j | 0 <= i < |pairs| && 0 <= j < |pairs[i]| ensures IsQueryChar(pairs[i][j]) {
      PairChars(ps[i]);
    }
    JoinPreserves(pairs, '&', IsQueryChar);
    var q := Join(pairs, '&');
    assert ps != [] ==> Pair(ps[0]) <= q;
    assert '?' !in q by {
      forall i | 0 <= i < |q| ensures q[i] != '?' {
        assert IsQueryChar(q[i]);
      }
    }
    q
  }

  /** `getEndpoint`: root, `?`, query, with trailing `?` characters trimmed. When the root
      holds no `?`, the trim removes exactly the one `?` added for an empty map. */
  function Endpoint(root: string, ps: seq<Entry>): (url: string)
    ensures '?' !in root ==> url == if ps == [] then root else root + "?" + BuildQuery(ps)
  {
    var q := BuildQuery(ps);
    var s := root + "?" + q;
    var r := RTrim(s, '?');
    assert '?' !in root && ps == [] ==> r == root by {
      if '?' !in root && ps == [] {
        assert s == root + ['?'];
        RTrimOne(root, '?');
      }
    }
    assert ps != [] ==> r == s by {
      if ps != [] {
        assert s[|s| - 1] == q[|q| - 1];
        assert IsQueryChar(q[|q| - 1]);
      }
    }
    r
  }

  /** A map of one entry resolves to the root, `?` and that entry's pair. */
  lemma EndpointOne(root: string, e: Entry)
    requires '?' !in root
    ensures Endpoint(root, [e]) == root + "?" + Pair(e)
  {
    assert Pairs([e]) == [Pair(e)];
  }

  // Reading a query string back, as the service does.

  /** One `key=value` pair read back: the text before the first `=` and the rest, decoded. */
  function ParsePair(s: string): (string, string)
  {
    var parts := Split(s, '=');
    (Decode(parts[0]), Decode(Join(parts[1..], '=')))
  }

  function ParseQuery(q: string): seq<(string, string)>
  {
    if q == [] then []
    else
      var pieces := Split(q, '&');
      seq(|pieces|, i requires 0 <= i < |pieces| => ParsePair(pieces[i]))
  }

  /** The parameter map as the texts PHP writes for its keys and values. */
  function Texts(ps: seq<Entry>): seq<(string, string)>
  {
    seq(|ps|, i requires 0 <= i < |ps| => (ps[i].key, ValueText(ps[i].value)))
  }

  lemma ParsePairRoundTrip(e: Entry)
    ensures ParsePair(Pair(e)) == (e.key, ValueText(e.value))
  {
    var k, f := Encode(e.key), ValueField(e.value);
    assert Pair(e) == Join([k, f], '=');
    ValueFieldEncodes(e.value);
    SplitJoin([k, f], '=');
    assert Split(Pair(e), '=')[1..] == [f];
    DecodeEncode(e.key);
    DecodeEncode(ValueText(e.value));
  }

  /** The query string lists exactly the entries of the map, in order, each read back
      to the key and the value text it was built from. */
  lemma QueryRoundTrip(ps: seq<Entry>)
    ensures ParseQuery(BuildQuery(ps)) == Texts(ps)
  {
    if ps != [] {
      var pairs := Pairs(ps);
      forall i | 0 <= i < |pairs| ensures '&' !in pairs[i] {
        PairChars(ps[i]);
      }
      SplitJoin(pairs, '&');
      forall i | 0 <= i < |ps| ensures ParsePair(pairs[i]) == Texts(ps)[i] {
        ParsePairRoundTrip(ps[i]);
      }
    }
  }

  /** The endpoint splits at its first `?` into the root and a query string that lists the
      parameter map exactly; an empty map leaves no query at all. */
  lemma EndpointRoundTrip(root: string, ps: seq<Entry>)
    requires '?' !in root
    ensures Split(Endpoint(root, ps), '?')[0] == root
    ensures ParseQuery(Join(Split(Endpoint(root, ps), '?')[1..], '?')) == Texts(ps)
    ensures ps == [] <==> |Split(Endpoint(root, ps), '?')| == 1
  {
    var q := BuildQuery(ps);
    if ps == [] {
      SplitJoin([root], '?');
    } else {
      assert Endpoint(root, ps) == Join([root, q], '?');
      SplitJoin([root, q], '?');
      assert Split(Endpoint(root, ps), '?')[1..] == [q];
    }
    QueryRoundTrip(ps);
  }
}
