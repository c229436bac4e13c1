/** The `PunkApi` client object: an API key, the root URL chosen from it, and the
    parameter map its fluent mutators change in place. Every mutator returns the object
    itself, as the PHP methods return `$this`. */
module PunkApiClient {
  import opened PhpStrings
  import opened UrlEncoding
  import opened QueryParams
  import opened QueryString

  /** The argument of `ids`: an array of identifiers, or a single value used as it is. */
  datatype IdsArg = IdList(items: seq<Value>) | IdValue(v: Value)

  function IdTexts(items: seq<Value>): (texts: seq<Bytes>)
  {
    seq(|items|, i requires 0 <= i < |items| => ValueText(items[i]))
  }

  /** The value `ids` stores: `join("|", $ids)` for an array, the argument otherwise. */
  function IdsValue(ids: IdsArg): (v: Value)
    ensures ids.IdList? ==> v.Str?
    ensures ids.IdValue? ==> v == ids.v
  {
    match ids
    case IdList(items) =>
      JoinBytes(IdTexts(items), '|');
      Str(Join(IdTexts(items), '|'))
    case IdValue(v) => v
  }

  /** What the joined value means: an empty array gives the empty string, and splitting
      the value at `|` gives back the texts of the array's elements whenever none of them
      holds a `|`, which is always the case for integer ids. */
  lemma IdsRoundTrip(items: seq<Value>)
    ensures items == [] ==> IdsValue(IdList(items)).s == []
    ensures (items != [] && forall i | 0 <= i < |items| :: '|' !in ValueText(items[i])) ==>
              Split(IdsValue(IdList(items)).s, '|') == IdTexts(items)
    ensures (items != [] && forall i | 0 <= i < |items| :: items[i].Int?) ==>
              Split(IdsValue(IdList(items)).s, '|') == IdTexts(items)
  {
    var texts := IdTexts(items);
    if items != [] && forall i | 0 <= i < |items| :: '|' !in ValueText(items[i]) {
      SplitJoin(texts, '|');
    }
    if items != [] && forall i | 0 <= i < |items| :: items[i].Int? {
      forall i | 0 <= i < |items| ensures '|' !in texts[i] {
        assert items[i].Int?;
      }
      SplitJoin(texts, '|');
    }
  }

  /** A request the client hands to the HTTP library: the URL and the basic-auth pair. */
  datatype Request = Get(url: string, user: Bytes, password: Bytes)

  class PunkApi {
    var apiKey: Bytes
    var apiRoot: string
    var params: seq<Entry>

    /** The root follows from the key, and the map is a PHP array of allow-listed keys. */
    ghost predicate Valid()
      reads this
    {
      apiRoot == RootFor(apiKey) && DistinctKeys(params) && AllAllowed(params)
    }

    /** `new PunkApi($apiKey = 'v2')`: no key is refused. */
    constructor (apiKey: Bytes := "v2")
      ensures Valid()
      ensures this.apiKey == apiKey && params == []
      ensures apiRoot == (if apiKey == "v2" then V2Root else V1Root)
    {
      apiRoot := V1Root;
      if apiKey == "v2" {
        apiRoot := V2Root;
      }
      this.apiKey := apiKey;
      params := [];
    }

    /** `PunkApi::create($apiKey)`: the same object as the constructor gives. */
    static method Create(apiKey: Bytes) returns (api: PunkApi)
      ensures fresh(api) && api.Valid()
      ensures api.apiKey == apiKey && api.params == []
      ensures api.apiRoot == (if apiKey == "v2" then V2Root else V1Root)
    {
      api := new PunkApi(apiKey);
    }

    /** `getEndpoint`: the bare root for an empty map; otherwise the root, one `?` and a
        query string that reads back to exactly the map's entries, in order. */
    function GetEndpoint(): (url: string)
      reads this
      requires Valid()
      ensures params == [] ==> url == apiRoot
      ensures params != [] ==> url == apiRoot + "?" + BuildQuery(params)
      ensures Split(url, '?')[0] == apiRoot
      ensures ParseQuery(Join(Split(url, '?')[1..], '?')) == Texts(params)
    {
      EndpointRoundTrip(apiRoot, params);
      Endpoint(apiRoot, params)
    }

    /** The request `getBeers` sends: the endpoint, with the key as user and password. */
    function BeersRequest(): (r: Request)
      reads this
      requires Valid()
      ensures params == [] ==> r.url == apiRoot
      ensures Split(r.url, '?')[0] == apiRoot
      ensures ParseQuery(Join(Split(r.url, '?')[1..], '?')) == Texts(params)
      ensures r.user == apiKey && r.password == apiKey
    {
      Get(GetEndpoint(), apiKey, apiKey)
    }

    /** The request `getRandomBeer` sends: it ignores the map and carries no query. */
    function RandomBeerRequest(): (r: Request)
      reads this
      requires Valid()
      ensures r.url == apiRoot + "/random"
      ensures apiRoot <= r.url && '?' !in r.url
      ensures r.user == apiKey && r.password == apiKey
    {
      Get(apiRoot + "/random", apiKey, apiKey)
    }

    /** The request `getBeerById` sends: the id appended to the root as a path segment,
        unencoded; an integer id never brings a query with it. */
    function BeerByIdRequest(beerId: Value): (r: Request)
      reads this
      requires Valid()
      ensures r.url == apiRoot + "/" + ValueText(beerId)
      ensures beerId.Int? ==> '?' !in r.url
      ensures r.user == apiKey && r.password == apiKey
    {
      Get(apiRoot + "/" + ValueText(beerId), apiKey, apiKey)
    }

    /** `clearParams`: the map becomes empty; key and root stay. */
    method ClearParams() returns (self: PunkApi)
      requires Valid()
      modifies this`params
      ensures Valid() && self == this
      ensures params == []
      ensures apiKey == old(apiKey) && apiRoot == old(apiRoot)
      ensures GetEndpoint() == apiRoot
    {
      params := [];
      self := this;
    }

    /** `addParams`: keeps the allow-listed entries of `candidate` and merges them in
        with `array_merge`. */
    method AddParams(candidate: seq<(Key, Value)>) returns (self: PunkApi)
      requires Valid()
      requires DistinctCandidate(candidate)
      modifies this`params
      ensures Valid() && self == this
      ensures params == Merge(old(params), Clean(candidate))
      ensures params == Overwritten(old(params), Clean(candidate)) + Appended(Keys(old(params)), Clean(candidate))
    {
      CleanDistinct(candidate);
      MergeIsArrayMerge(params, Clean(candidate));
      MergeAllowed(params, Clean(candidate));
      params := Merge(params, Clean(candidate));
      self := this;
    }

    /** `removeParams(...$badParams)`: drops the entries whose key is named. */
    method RemoveParams(badParams: seq<Bytes>) returns (self: PunkApi)
      requires Valid()
      modifies this`params
      ensures Valid() && self == this
      ensures params == Remove(old(params), badParams)
    {
      RemoveDistinct(params, badParams);
      params := Remove(params, badParams);
      self := this;
    }

    // The named setters. Each passes a one-entry array to addParams, which amounts to
    // assigning that key (MergeOne).

    method Page(pageNumber: Value) returns (self: PunkApi)
      requires Valid()
      modifies this`params
      ensures Valid() && self == this
      ensures params == Put(old(params), Entry("page", pageNumber))
    {
      MergeOne(params, "page", pageNumber);
      self := AddParams([(Name("page"), pageNumber)]);
    }

    /** `perPage` passes the list `['per_page', $number]`, whose keys are the positions
        0 and 1, so nothing survives the allow-list and the map is left as it was. */
    method PerPage(number: Value) returns (self: PunkApi)
      requires Valid()
      modifies this`params
      ensures Valid() && self == this
      ensures params == old(params)
      ensures "per_page" in Keys(params) <==> "per_page" in Keys(old(params))
    {
      self := AddParams([(Index(0), Str("per_page")), (Index(1), number)]);
    }

    /** `perPage` as evidently intended: `['per_page' => $number]`. */
    method PerPageKeyed(number: Value) returns (self: PunkApi)
      requires Valid()
      modifies this`params
      ensures Valid() && self == this
      ensures params == Put(old(params), Entry("per_page", number))
    {
      MergeOne(params, "per_page", number);
      self := AddParams([(Name("per_page"), number)]);
    }

    method AbvAbove(number: Value) returns (self: PunkApi)
      requires Valid()
      modifies this`params
      ensures Valid() && self == this
      ensures params == Put(old(params), Entry("abv_gt", number))
    {
      MergeOne(params, "abv_gt", number);
      self := AddParams([(Name("abv_gt"), number)]);
    }

    method AbvBelow(number: Value) returns (self: PunkApi)
      requires Valid()
      modifies this`params
      ensures Valid() && self == this
      ensures params == Put(old(params), Entry("abv_lt", number))
    {
      MergeOne(params, "abv_lt", number);
      self := AddParams([(Name("abv_lt"), number)]);
    }

    method IbuAbove(number: Value) returns (self: PunkApi)
      requires Valid()
      modifies this`params
      ensures Valid() && self == this
      ensures params == Put(old(params), Entry("ibu_gt", number))
    {
      MergeOne(params, "ibu_gt", number);
      self := AddParams([(Name("ibu_gt"), number)]);
    }

    method IbuBelow(number: Value) returns (self: PunkApi)
      requires Valid()
      modifies this`params
      ensures Valid() && self == this
      ensures params == Put(old(params), Entry("ibu_lt", number))
    {
      MergeOne(params, "ibu_lt", number);
      self := AddParams([(Name("ibu_lt"), number)]);
    }

    method EbcAbove(number: Value) returns (self: PunkApi)
      requires Valid()
      modifies this`params
      ensures Valid() && self == this
      ensures params == Put(old(params), Entry("ebc_gt", number))
    {
      MergeOne(params, "ebc_gt", number);
      self := AddParams([(Name("ebc_gt"), number)]);
    }

    method EbcBelow(number: Value) returns (self: PunkApi)
      requires Valid()
      modifies this`params
      ensures Valid() && self == this
      ensures params == Put(old(params), Entry("ebc_lt", number))
    {
      MergeOne(params, "ebc_lt", number);
      self := AddParams([(Name("ebc_lt"), number)]);
    }

    method Named(beerName: Value) returns (self: PunkApi)
      requires Valid()
      modifies this`params
      ensures Valid() && self == this
      ensures params == Put(old(params), Entry("beer_name", beerName))
    {
      MergeOne(params, "beer_name", beerName);
      self := AddParams([(Name("beer_name"), beerName)]);
    }

    method Yeast(yeastName: Value) returns (self: PunkApi)
      requires Valid()
      modifies this`params
      ensures Valid() && self == this
      ensures params == Put(old(params), Entry("yeast", yeastName))
    {
      MergeOne(params, "yeast", yeastName);
      self := AddParams([(Name("yeast"), yeastName)]);
    }

    method Hops(hopsName: Value) returns (self: PunkApi)
      requires Valid()
      modifies this`params
      ensures Valid() && self == this
      ensures params == Put(old(params), Entry("hops", hopsName))
    {
      MergeOne(params, "hops", hopsName);
      self := AddParams([(Name("hops"), hopsName)]);
    }

    method Malt(maltName: Value) returns (self: PunkApi)
      requires Valid()
      modifies this`params
      ensures Valid() && self == this
      ensures params == Put(old(params), Entry("malt", maltName))
    {
      MergeOne(params, "malt", maltName);
      self := AddParams([(Name("malt"), maltName)]);
    }

    method BrewedBefore(date: Value) returns (self: PunkApi)
      requires Valid()
      modifies this`params
      ensures Valid() && self == this
      ensures params == Put(old(params), Entry("brewed_before", date))
    {
      MergeOne(params, "brewed_before", date);
      self := AddParams([(Name("brewed_before"), date)]);
    }

    method BrewedAfter(date: Value) returns (self: PunkApi)
      requires Valid()
      modifies this`params
      ensures Valid() && self == this
      ensures params == Put(old(params), Entry("brewed_after", date))
    {
      MergeOne(params, "brewed_after", date);
      self := AddParams([(Name("brewed_after"), date)]);
    }

    method Food(foodName: Value) returns (self: PunkApi)
      requires Valid()
      modifies this`params
      ensures Valid() && self == this
      ensures params == Put(old(params), Entry("food", foodName))
    {
      MergeOne(params, "food", foodName);
      self := AddParams([(Name("food"), foodName)]);
    }

    /** `ids`: an array is joined with `|` first; the result is stored under `ids`. */
    method Ids(ids: IdsArg) returns (self: PunkApi)
      requires Valid()
      modifies this`params
      ensures Valid() && self == this
      ensures params == Put(old(params), Entry("ids", IdsValue(ids)))
    {
      var value := IdsValue(ids);
      MergeOne(params, "ids", value);
      self := AddParams([(Name("ids"), value)]);
    }
  }

  /** The array `perPage` passes, `['per_page', $number]`, has the integer keys 0 and 1,
      so `cleanParams` drops both entries; the keyed array keeps its one entry. */
  lemma PerPageArgumentDropped(number: Value)
    ensures Clean([(Index(0), Str("per_page")), (Index(1), number)]) == []
    ensures Clean([(Name("per_page"), number)]) == [Entry("per_page", number)]
  {
    var c := [(Index(0), Str("per_page")), (Index(1), number)];
    assert c[1..] == [(Index(1), number)];
    assert Clean(c[1..]) == CleanEntry((Index(1), number)) + Clean([]);
    assert Clean(c) == CleanEntry(c[0]) + Clean(c[1..]);
  }

  // Worked examples: the calls of the client's own test suite.

  // The argument is a parameter so that `IdsValue` is unfolded step by step rather than
  // evaluated on a literal.

  lemma IdsJoinExample(ids: IdsArg)
    requires ids == IdList([Int(192), Int(224)])
    ensures IdsValue(ids) == Str("192|224")
  {
    DecimalExample(192);
    DecimalExample(224);
    assert IdTexts(ids.items) == ["192", "224"];
  }

  lemma DecimalExample(n: int)
    requires n == 192 || n == 224
    ensures n == 192 ==> Decimal(n) == "192"
    ensures n == 224 ==> Decimal(n) == "224"
  {
    assert NaturalDigits(19) == "19";
    assert NaturalDigits(22) == "22";
  }

  /** `ids([192, 224])` and `ids("192|224")` store the same value, whose `|` the query
      string carries as `%7C`. */
  lemma IdsForms(ids: IdsArg)
    requires ids == IdList([Int(192), Int(224)])
    ensures IdsValue(ids) == IdsValue(IdValue(Str("192|224")))
    ensures Encode(IdsValue(ids).s) == "192%7C224"
  {
    IdsJoinExample(ids);
    EncodeExample();
  }

  /** `perPage(10)` on a new client leaves the URL at the bare root. */
  method PerPageScenario()
  {
    var api := new PunkApi();
    assert api.GetEndpoint() == V2Root;
    var self := api.PerPage(Int(10));
    assert api.GetEndpoint() == V2Root;
  }

  /** `ids([192, 224])` and `ids("192|224")` give the same map; removing `ids` again
      empties it. */
  method IdsScenario()
  {
    var api := new PunkApi();
    var list := IdList([Int(192), Int(224)]);
    var text := IdValue(Str("192|224"));
    IdsForms(list);
    var self := api.Ids(list);
    var listed := api.params;
    self := api.Ids(text);
    assert api.params == listed;
    self := api.RemoveParams(["ids"]);
    assert api.params == [];
  }

  /** `abvAbove(10)` then `clearParams` brings back the bare root. */
  method AbvScenario()
  {
    var api := new PunkApi();
    var self := api.AbvAbove(Int(10));
    assert api.params == [Entry("abv_gt", Int(10))];
    self := api.ClearParams();
    assert api.GetEndpoint() == V2Root;
  }
}
