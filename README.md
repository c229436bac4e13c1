# PunkApi query builder, modelled in Dafny

The `billythekid\PunkApi` class is a small fluent client for the Punk API beer catalogue.
A `PunkApi` object holds three pieces of state:

- an API key;
- a root URL, chosen once at construction;
- an insertion-ordered parameter map.

Fluent mutators change the map and return the object itself:

- `addParams` and `removeParams`;
- `clearParams`;
- one named setter per query key (`page`, `abvAbove`, …, `ids`).

`getEndpoint` turns the current state into the URL the client would request. It runs
`http_build_query` over the map, joins the result to the root with `?`, and `rtrim`s
trailing `?` characters.

The model follows the class's own shape. The object becomes the Dafny class
`PunkApiClient.PunkApi`, with `apiKey`, `apiRoot` and `params` fields. Its mutators are
methods that reassign `params` and return `this`. Everything the class borrows from PHP's
library is a pure function with lemmas about it, split into four modules:

- **`PhpStrings`:** `implode`/`join`, `rtrim` with one character, and the
  integer-to-string conversion. The client never calls `explode`. `Split` is the inverse
  of `join` that the proofs use to read joined values back.
- **`UrlEncoding`:** `urlencode` and its inverse `urldecode`.
- **`QueryParams`:** the allow-list, `cleanParams`, `array_merge` on string keys, and the
  key filter of `removeParams`.
- **`QueryString`:** the choice of root, `http_build_query`, and the endpoint string.

The map is a sequence of `Entry(key, value)` whose keys are pairwise distinct, as in a PHP
array.

- **Strings:** PHP strings are byte strings, modelled as `Bytes` (a `string` whose
  characters are all below 256).
- **Values:** a value a caller passes is a string or an integer (`Value`).
- **Candidate arrays:** the array handed to `addParams` may carry string keys or integer
  positions (`Key = Name | Index`). That is how `perPage`'s positional array is
  represented.

The object invariant `Valid()` has three parts:

- the root is the one the key selects;
- the keys are distinct;
- every key is allow-listed.

Every mutator preserves it.

The main results:

- **`array_merge`:** the fold that models it (`Merge`) equals the documented reference
  (`MergeIsArrayMerge`). Old keys keep their position and take the new value; new keys
  follow in the argument's order.
- **Round trips:** `urldecode` undoes `urlencode` on every byte string (`DecodeEncode`).
  The query string reads back to exactly the map's entries, in order (`QueryRoundTrip`).
- **The endpoint:** it is the bare root for an empty map and root + `?` + query otherwise.
  It always splits at its first `?` into the root and that query (`EndpointRoundTrip`,
  `PunkApi.GetEndpoint`).
- **Named setters:** every one is a single keyed assignment into the map.
  `perPage` is the exception and leaves the map unchanged.

Two facts about the code shape the model:

- **The constructor accepts any key.** A key other than `"v2"` keeps the v1 root
  (src/PunkApi.php:23, 57-60).
- **`perPage` never sets `per_page`.** See "## Findings".

## Model

| member | source | states |
|---|---|---|
| `PhpStrings.Join` | src/PunkApi.php:382 | `join` of no parts is empty. Otherwise the result starts with the first part, a second part is preceded by the separator, and the length is the parts' total plus one separator between each two neighbours |
| `PhpStrings.SplitJoin` | src/PunkApi.php:382 | `explode` undoes `join` when no part holds the separator |
| `PhpStrings.JoinSplit` | src/PunkApi.php:382 | `join` undoes `explode` for every string |
| `PhpStrings.RTrim` | src/PunkApi.php:83 | `rtrim(s, c)` returns a prefix of `s`. The prefix does not end in `c`, and every character it dropped is `c` |
| `PhpStrings.RTrimOne` | src/PunkApi.php:83 | trimming `c` from `p + c`, where `p` holds no `c`, gives back exactly `p` |
| `PhpStrings.NaturalDigits` | src/PunkApi.php:83 | the decimal digits of a natural number are non-empty, all digits, and have no leading zero |
| `PhpStrings.Decimal` | src/PunkApi.php:83 | PHP's integer-to-string conversion is non-empty, and its characters are digits after an optional leading `-`. The `-` is there exactly for a negative integer, and no number has a leading zero except `0` itself |
| `PhpStrings.DecimalRoundTrip` | src/PunkApi.php:83 | the integer can be read back from its decimal text, so the conversion is injective |
| `UrlEncoding.Encode` | src/PunkApi.php:83 | `urlencode` output is at least as long as its input. It holds only unreserved characters, `+` and `%`, and so never a `?` |
| `UrlEncoding.EncodeAppend` | src/PunkApi.php:83 | `urlencode` works byte by byte: it distributes over concatenation |
| `UrlEncoding.DecodeEncode` | src/PunkApi.php:83 | `urldecode(urlencode(s)) == s` for every byte string |
| `UrlEncoding.EncodeIdentity` | src/PunkApi.php:83 | `urlencode(s) == s` if and only if every byte of `s` is a letter, a digit, `-`, `_` or `.` |
| `UrlEncoding.EncodeExample` | src/PunkApi.php:83 | `urlencode("192\|224")` is `192%7C224` |
| `QueryParams.ValueText` | src/PunkApi.php:382 | a string is its own text. An integer's text holds no `\|`, starts with `-` or a digit, continues with digits, and reads back to the integer |
| `QueryParams.Lookup` | src/PunkApi.php:27 | the lookup finds nothing exactly when the key is absent; what it finds is an entry of the map |
| `QueryParams.Clean` | src/PunkApi.php:396-407 | `cleanParams` keeps exactly the candidate entries whose key is an allow-listed name, so its result is all allow-listed |
| `QueryParams.CleanDistinct` | src/PunkApi.php:396-407 | a candidate array without repeated keys cleans to a map without repeated keys |
| `QueryParams.CleanAppend` | src/PunkApi.php:396-407 | `cleanParams` keeps the candidate's order: it filters each part of a concatenation separately |
| `QueryParams.Put` | src/PunkApi.php:123 | assigning a key in place. A present key keeps its position and takes the new value, with every other entry unchanged. A new key goes at the end |
| `QueryParams.PutKeys` | src/PunkApi.php:123 | after an assignment the keys are still distinct, and they are the old keys plus the new one if it was absent |
| `QueryParams.PutLookup` | src/PunkApi.php:123 | after assigning `k`, the map gives the new value for `k` and the old value for every other key |
| `QueryParams.PutTwice` | src/PunkApi.php:123 | setting a key twice equals setting it once to the second value (overwrite, no duplicate) |
| `QueryParams.Merge` | src/PunkApi.php:123 | `array_merge` on string keys yields distinct keys. A key is in the result if and only if it is in either argument |
| `QueryParams.MergeIsArrayMerge` | src/PunkApi.php:123 | `array_merge(a, b)` is `a`'s entries in place, each overwritten by `b`'s value for its key, followed by `b`'s new keys in `b`'s order |
| `QueryParams.MergePositions` | src/PunkApi.php:123 | position by position: every old key keeps its index and takes the new value where `b` has one, or keeps its own |
| `QueryParams.MergeAllowed` | src/PunkApi.php:121-126 | merging allow-listed entries into an allow-listed map keeps it allow-listed |
| `QueryParams.MergeOne` | src/PunkApi.php:185-190 | `addParams([k => v])` for an allow-listed `k` is exactly the assignment of `k` |
| `QueryParams.Remove` | src/PunkApi.php:134-145 | `removeParams` keeps exactly the entries whose key is not named, and keeps the map allow-listed |
| `QueryParams.RemoveKeys` | src/PunkApi.php:134-145 | the keys left are exactly the old keys that were not named |
| `QueryParams.RemoveDistinct` | src/PunkApi.php:134-145 | removing keys never makes a key appear twice |
| `QueryParams.RemoveAppend` | src/PunkApi.php:134-145 | `removeParams` keeps the map's order: it filters each part of a concatenation separately |
| `QueryParams.RemoveAbsent` | src/PunkApi.php:134-145 | removing keys the map does not hold leaves it unchanged |
| `QueryParams.RemoveAfterPut` | src/PunkApi.php:134-145 | setting a key and then removing it is the same as only removing it |
| `QueryString.RootFor` | src/PunkApi.php:55-63 | the root is the v2 URL if and only if the key is exactly `"v2"`, and the v1 URL otherwise. It holds no `?` |
| `QueryString.ValueFieldEncodes` | src/PunkApi.php:83 | writing an integer value in decimal is the same as `urlencode` of its text |
| `QueryString.BuildQuery` | src/PunkApi.php:83 | `http_build_query` is empty exactly for an empty map. It holds only encoded characters, `=` and `&`, and never a `?` |
| `QueryString.Endpoint` | src/PunkApi.php:81-84 | for a root without `?`, the result is the bare root for an empty map. Otherwise it is root + `?` + the query |
| `QueryString.EndpointOne` | src/PunkApi.php:81-84 | a one-entry map resolves to root + `?` + `key=value` |
| `QueryString.ParsePairRoundTrip` | src/PunkApi.php:83 | splitting a `key=value` pair at its first `=` and decoding gives back the key and the value's text |
| `QueryString.QueryRoundTrip` | src/PunkApi.php:83 | the query string, split at `&` and decoded, lists exactly the map's entries in order |
| `QueryString.EndpointRoundTrip` | src/PunkApi.php:81-84 | the endpoint splits at its first `?` into the root and a query that reads back to the map. There is no `?` exactly when the map is empty |
| `PunkApiClient.IdsRoundTrip` | src/PunkApi.php:378-388 | `ids` of an empty array stores the empty string. For a non-empty array whose element texts hold no `\|`, and so for every array of integer ids, splitting the stored value at `\|` gives back the elements' texts in order |
| `PunkApiClient.IdsForms` | src/PunkApi.php:378-388 | `ids([192, 224])` and `ids("192\|224")` store the same value, which the query carries as `192%7C224` |
| `PunkApiClient.PerPageArgumentDropped` | src/PunkApi.php:198-203 | `cleanParams` drops both entries of `['per_page', $n]`, whose keys are 0 and 1, but keeps `['per_page' => $n]` |
| `PunkApiClient.PunkApi.constructor` | src/PunkApi.php:55-63 | the new object holds the key and an empty map. Its root is the v2 URL when the key is `"v2"` and the v1 URL otherwise; the key defaults to `"v2"` |
| `PunkApiClient.PunkApi.Create` | src/PunkApi.php:71-74 | `create(k)` gives a fresh object in the same state as `new PunkApi(k)` |
| `PunkApiClient.PunkApi.GetEndpoint` | src/PunkApi.php:81-84 | the state's URL, computed without changing anything. It is the bare root for an empty map, else root + `?` + `http_build_query`. It splits into the root and a query that reads back to the map |
| `PunkApiClient.PunkApi.BeersRequest` | src/PunkApi.php:92-101 | `getBeers` requests a URL that is the bare root when the map is empty. It always splits at its first `?` into the root and a query that reads back to the map's entries, and it is authenticated with the key as user and password |
| `PunkApiClient.PunkApi.RandomBeerRequest` | src/PunkApi.php:152-161 | `getRandomBeer` requests exactly root + `/random`, which carries no query whatever the map holds, authenticated with the key as user and password |
| `PunkApiClient.PunkApi.BeerByIdRequest` | src/PunkApi.php:168-177 | `getBeerById` requests root + `/` + the id's text. An integer id brings no query |
| `PunkApiClient.PunkApi.ClearParams` | src/PunkApi.php:108-113 | the map becomes empty, key and root are unchanged, and the endpoint is the bare root |
| `PunkApiClient.PunkApi.AddParams` | src/PunkApi.php:121-126 | the new map is `array_merge(old, cleanParams(candidate))`: old entries in place and overwritten, new allowed keys appended in order. The invariant is kept |
| `PunkApiClient.PunkApi.RemoveParams` | src/PunkApi.php:134-145 | the new map is the old one without the named keys, in order. The invariant is kept |
| `PunkApiClient.PunkApi.Page` | src/PunkApi.php:185-190 | `page(n)` assigns `page` in place |
| `PunkApiClient.PunkApi.PerPage` | src/PunkApi.php:198-203 | `perPage(n)` leaves the map exactly as it was, so `per_page` is never set by it |
| `PunkApiClient.PunkApi.PerPageKeyed` | src/PunkApi.php:198-203 | the keyed form `['per_page' => $n]` assigns `per_page` in place |
| `PunkApiClient.PunkApi.AbvAbove` | src/PunkApi.php:211-216 | assigns `abv_gt` in place |
| `PunkApiClient.PunkApi.AbvBelow` | src/PunkApi.php:224-229 | assigns `abv_lt` in place |
| `PunkApiClient.PunkApi.IbuAbove` | src/PunkApi.php:237-242 | assigns `ibu_gt` in place |
| `PunkApiClient.PunkApi.IbuBelow` | src/PunkApi.php:250-255 | assigns `ibu_lt` in place |
| `PunkApiClient.PunkApi.EbcAbove` | src/PunkApi.php:263-268 | assigns `ebc_gt` in place |
| `PunkApiClient.PunkApi.EbcBelow` | src/PunkApi.php:276-281 | assigns `ebc_lt` in place |
| `PunkApiClient.PunkApi.Named` | src/PunkApi.php:289-294 | assigns `beer_name` in place |
| `PunkApiClient.PunkApi.Yeast` | src/PunkApi.php:302-307 | assigns `yeast` in place |
| `PunkApiClient.PunkApi.Hops` | src/PunkApi.php:315-320 | assigns `hops` in place |
| `PunkApiClient.PunkApi.Malt` | src/PunkApi.php:328-333 | assigns `malt` in place |
| `PunkApiClient.PunkApi.BrewedBefore` | src/PunkApi.php:341-346 | assigns `brewed_before` in place |
| `PunkApiClient.PunkApi.BrewedAfter` | src/PunkApi.php:353-358 | assigns `brewed_after` in place |
| `PunkApiClient.PunkApi.Food` | src/PunkApi.php:366-371 | assigns `food` in place |
| `PunkApiClient.PunkApi.Ids` | src/PunkApi.php:378-388 | assigns `ids` the joined or given value in place |

Every mutator also ensures `Valid()` and returns the object itself, as `return $this` does.
`PerPageScenario` replays the call of tests/PunkApiTest.php:36, and the first call of
`IdsScenario` replays tests/PunkApiTest.php:44. The rest of `IdsScenario` and all of
`AbvScenario` are extra scenarios.

## Left out

- HTTP and JSON: the Guzzle client, the network request and `json_decode` are foreign
  calls and I/O. The model states only the URL and the `(apiKey, apiKey)` basic-auth pair
  each request would carry (`BeersRequest`, `RandomBeerRequest`, `BeerByIdRequest`).
  Failures of the request or the decoding are not modelled.
- The `$client` field the constructor sets is not modelled, for the same reason.
- The root-level `PunkApi.php` is an older, non-working copy of the same class and is not
  part of this model.
- PHP 7's loose `in_array` comparison is not modelled: keys are compared as strings.
  - Under PHP 7, `0 == "abv_gt"` holds, so `perPage`'s key 0 would pass `cleanParams`.
  - `removeParams` with an integer 0 among its arguments would then drop every key.
  - The model keeps PHP 8 behaviour. `removeParams` takes string names only.
- `array_merge`'s renumbering of integer keys is not modelled. Only allow-listed string
  keys ever reach the map, so it never applies.
- Numeric-string keys are not modelled: PHP would turn them into integer keys, but none of
  the sixteen allowed names is numeric.
- `http_build_query` on values other than strings and integers is not modelled: `null`
  (skipped), booleans, floats and nested arrays (`key[0]=…`).
- `PhpStrings.Decimal`: integers are unbounded. PHP's 64-bit overflow to float is not
  modelled.
- `BeerByIdRequest`: the id is appended to the URL without encoding, as the code does. No
  claim is made about ids holding `/` or `?`.
- `IdsRoundTrip`: the elements of an `ids` array are strings or integers. Other element types
  `join` would accept (floats, booleans, nested arrays) are not modelled.
- `PunkApiClient.PunkApi.AddParams`: the candidate is required to have distinct keys. That
  holds of every PHP array, so the requirement excludes no real call.
- Client-side validation of ranges and dates: the code has none, and the model adds none.

## Findings

| source | as written | input that shows it | evidently intended | confidence | as-written member | corrected member |
|---|---|---|---|---|---|---|
| src/PunkApi.php:200 | `perPage` passes the positional array `['per_page', $number]`, whose keys are 0 and 1; `cleanParams` drops both, so `per_page` is never set (the test at tests/PunkApiTest.php:34-38 accordingly still expects the default page size of 25) | `perPage(10)` on a new client: the map stays empty and the endpoint is the bare root | the keyed array `['per_page' => $number]`, which assigns `per_page` like every other setter | high; not executed | `PunkApiClient.PunkApi.PerPage` (with `PunkApiClient.PerPageArgumentDropped`) | `PunkApiClient.PunkApi.PerPageKeyed` |
