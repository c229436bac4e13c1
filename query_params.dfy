/** The client's parameter map: the allow-list, the key filter of `cleanParams`,
    PHP's `array_merge` on string keys, and the key filter of `removeParams`. */
module QueryParams {
  import opened PhpStrings

  datatype Option<T> = None | Some(value: T)

  /** A parameter value as a caller passes it: a string or an integer. */
  datatype Value = Str(s: Bytes) | Int(n: int)

  /** A key of a PHP array the caller builds: a string name or an integer position. */
  datatype Key = Name(name: Bytes) | Index(i: int)

  /** One entry of the parameter map. */
  datatype Entry = Entry(key: Bytes, value: Value)

  /** The sixteen query keys the service accepts. */
  const AllowedParams: seq<string> := [
    "abv_gt", "abv_lt", "ibu_gt", "ibu_lt", "ebc_gt", "ebc_lt",
    "beer_name", "yeast", "brewed_before", "brewed_after",
    "hops", "malt", "food", "page", "per_page", "ids"
  ]

  /** The text PHP gives a value when it turns it into a string: a string is its own
      text; an integer's text is its decimal numeral, which never holds `|` and reads back
      to the integer. */
  function ValueText(v: Value): (r: Bytes)
    ensures v.Str? ==> r == v.s
    ensures v.Int? ==> '|' !in r
    ensures v.Int? ==> r != [] && (r[0] == '-' || IsDigit(r[0]))
    ensures v.Int? ==> (forall i | 1 <= i < |r| :: IsDigit(r[i])) && ParseDecimal(r) == v.n
  {
    match v
    case Str(s) => s
    case Int(n) =>
      DecimalRoundTrip(n);
      Decimal(n)
  }

  function Keys(ps: seq<Entry>): (ks: seq<Bytes>)
  {
    seq(|ps|, i requires 0 <= i < |ps| => ps[i].key)
  }

  /** A PHP array never holds a key twice. */
  predicate DistinctKeys(ps: seq<Entry>) {
    forall i, j | 0 <= i < j < |ps| :: ps[i].key != ps[j].key
  }

  predicate DistinctCandidate(c: seq<(Key, Value)>) {
    forall i, j | 0 <= i < j < |c| :: c[i].0 != c[j].0
  }

  predicate AllAllowed(ps: seq<Entry>) {
    forall i | 0 <= i < |ps| :: ps[i].key in AllowedParams
  }

  lemma KeysAppend(a: seq<Entry>, b: seq<Entry>)
    ensures Keys(a + b) == Keys(a) + Keys(b)
  {
  }

  lemma KeysCons(ps: seq<Entry>)
    requires ps != []
    ensures Keys(ps) == [ps[0].key] + Keys(ps[1..])
  {
  }

  /** The value stored under `k`, if any. */
  function Lookup(ps: seq<Entry>, k: Bytes): (r: Option<Value>)
    ensures r.None? <==> k !in Keys(ps)
    ensures r.Some? ==> Entry(k, r.value) in ps
  {
    if ps == [] then None
    else
      KeysCons(ps);
      if ps[0].key == k then Some(ps[0].value)
      else Lookup(ps[1..], k)
  }

  /** What `cleanParams` keeps of one candidate entry: the entry itself when its key is an
      allow-listed name, nothing otherwise. */
  function CleanEntry(p: (Key, Value)): (r: seq<Entry>)
  {
    match p.0
    case Name(k) => if k in AllowedParams then [Entry(k, p.1)] else []
    case Index(_) => []
  }

  /** `cleanParams`: keeps the entries whose key is an allow-listed name, in order. */
  function Clean(c: seq<(Key, Value)>): (r: seq<Entry>)
    ensures AllAllowed(r)
    ensures forall e :: e in r <==> (Name(e.key), e.value) in c && e.key in AllowedParams
  {
    if c == [] then [] else CleanEntry(c[0]) + Clean(c[1..])
  }

  function CandidateKeys(c: seq<(Key, Value)>): (ks: seq<Key>)
  {
    seq(|c|, i requires 0 <= i < |c| => c[i].0)
  }

  /** Every key `cleanParams` keeps is a name the candidate array holds. */
  lemma CleanKeys(c: seq<(Key, Value)>)
    ensures forall k | k in Keys(Clean(c)) :: Name(k) in CandidateKeys(c)
  {
    forall k | k in Keys(Clean(c)) ensures Name(k) in CandidateKeys(c) {
      var i :| 0 <= i < |Clean(c)| && Keys(Clean(c))[i] == k;
      var e := Clean(c)[i];
      assert e in Clean(c);
      var m :| 0 <= m < |c| && c[m] == (Name(k), e.value);
      assert CandidateKeys(c)[m] == Name(k);
    }
  }

  lemma DistinctCons(e: Entry, rest: seq<Entry>)
    requires DistinctKeys(rest) && e.key !in Keys(rest)
    ensures DistinctKeys([e] + rest)
  {
    forall j | 0 <= j < |rest| ensures rest[j].key != e.key {
      assert rest[j].key == Keys(rest)[j];
    }
  }

  /** A PHP array never repeats a key, so neither does its cleaned form. */
  lemma {:induction false} CleanDistinct(c: seq<(Key, Value)>)
    requires DistinctCandidate(c)
    ensures DistinctKeys(Clean(c))
  {
    if c != [] {
      CleanDistinct(c[1..]);
      var rest := Clean(c[1..]);
      if CleanEntry(c[0]) != [] {
        var e := CleanEntry(c[0])[0];
        assert CleanEntry(c[0]) == [e] && c[0].0 == Name(e.key);
        assert c[0].0 !in CandidateKeys(c[1..]) by {
          forall m | 0 <= m < |c[1..]| ensures CandidateKeys(c[1..])[m] != c[0].0 {
            assert c[1..][m] == c[m + 1];
          }
        }
        CleanKeys(c[1..]);
        DistinctCons(e, rest);
      }
    }
  }

  /** `cleanParams` preserves order: it filters each part of a concatenation separately. */
  lemma {:induction false} CleanAppend(a: seq<(Key, Value)>, b: seq<(Key, Value)>)
    ensures Clean(a + b) == Clean(a) + Clean(b)
  {
    if a == [] {
      assert a + b == b;
    } else {
      assert (a + b)[0] == a[0];
      assert (a + b)[1..] == a[1..] + b;
      CleanAppend(a[1..], b);
      var h := CleanEntry(a[0]);
      assert Clean(a + b) == h + (Clean(a[1..]) + Clean(b));
      assert h + (Clean(a[1..]) + Clean(b)) == (h + Clean(a[1..])) + Clean(b);
    }
  }

  /** PHP's `$ps[$e.key] = $e.value` on an array with string keys: an existing key keeps
      its place and takes the new value; a new key goes at the end. */
  function Put(ps: seq<Entry>, e: Entry): (r: seq<Entry>)
    requires DistinctKeys(ps)
    ensures e.key in Keys(ps) ==>
      (|r| == |ps| && forall i | 0 <= i < |ps| :: r[i] == (if ps[i].key == e.key then e else ps[i]))
    ensures e.key !in Keys(ps) ==> r == ps + [e]
  {
    if ps == [] then [e]
    else
      KeysCons(ps);
      if ps[0].key == e.key then [e] + ps[1..]
      else
        var r := [ps[0]] + Put(ps[1..], e);
        assert e.key !in Keys(ps) ==> r == ps + [e] by {
          if e.key !in Keys(ps) {
            assert [ps[0]] + (ps[1..] + [e]) == ps + [e];
          }
        }
        r
  }

  lemma PutKeys(ps: seq<Entry>, e: Entry)
    requires DistinctKeys(ps)
    ensures DistinctKeys(Put(ps, e))
    ensures Keys(Put(ps, e)) == if e.key in Keys(ps) then Keys(ps) else Keys(ps) + [e.key]
  {
    var r := Put(ps, e);
    if e.key in Keys(ps) {
      forall i | 0 <= i < |ps| ensures r[i].key == ps[i].key {
        assert r[i] == (if ps[i].key == e.key then e else ps[i]);
        assert ps[i].key == e.key ==> e.key == ps[i].key;
      }
      assert Keys(r) == Keys(ps);
    } else {
      forall i | 0 <= i < |ps| ensures ps[i].key != e.key {
        assert ps[i].key == Keys(ps)[i];
      }
      KeysAppend(ps, [e]);
    }
  }

  /** PHP's `array_merge(a, b)` when every key is a string: the entries of `b` are
      assigned into `a` one after the other. */
  function Merge(a: seq<Entry>, b: seq<Entry>): (r: seq<Entry>)
    requires DistinctKeys(a)
    ensures DistinctKeys(r)
    ensures forall k :: k in Keys(r) <==> k in Keys(a) || k in Keys(b)
    decreases |b|
  {
    if b == [] then a
    else
      PutKeys(a, b[0]);
      assert Keys(b) == [b[0].key] + Keys(b[1..]);
      Merge(Put(a, b[0]), b[1..])
  }

  // The documented meaning of array_merge on string keys, stated without a fold.

  /** `e` with the value `b` gives its key, if `b` has one. */
  ghost function Refreshed(e: Entry, b: seq<Entry>): Entry
  {
    match Lookup(b, e.key)
    case Some(v) => Entry(e.key, v)
    case None => e
  }

  /** The entries of `a`, in place, each overwritten by `b` where `b` has its key. */
  ghost function Overwritten(a: seq<Entry>, b: seq<Entry>): (r: seq<Entry>)
  {
    seq(|a|, i requires 0 <= i < |a| => Refreshed(a[i], b))
  }

  /** The entries of `b` whose key is not among `keys`, in `b`'s order. */
  ghost function Appended(keys: seq<Bytes>, b: seq<Entry>): seq<Entry>
  {
    if b == [] then []
    else (if b[0].key in keys then [] else [b[0]]) + Appended(keys, b[1..])
  }

  lemma OverwrittenIgnores(a: seq<Entry>, e: Entry, b: seq<Entry>)
    requires e.key !in Keys(a)
    ensures Overwritten(a, [e] + b) == Overwritten(a, b)
  {
    forall i | 0 <= i < |a| ensures Refreshed(a[i], [e] + b) == Refreshed(a[i], b) {
      assert a[i].key == Keys(a)[i];
      assert ([e] + b)[1..] == b;
    }
  }

  lemma AppendedExtend(keys: seq<Bytes>, k: Bytes, b: seq<Entry>)
    requires k !in Keys(b)
    ensures Appended(keys + [k], b) == Appended(keys, b)
  {
    if b != [] {
      KeysCons(b);
      assert b[0].key in keys + [k] <==> b[0].key in keys;
      AppendedExtend(keys, k, b[1..]);
    }
  }

  lemma OverwrittenPutPresent(a: seq<Entry>, e: Entry, rest: seq<Entry>)
    requires DistinctKeys(a) && e.key in Keys(a) && e.key !in Keys(rest)
    ensures Overwritten(Put(a, e), rest) == Overwritten(a, [e] + rest)
  {
    var a' := Put(a, e);
    forall i | 0 <= i < |a| ensures Refreshed(a'[i], rest) == Refreshed(a[i], [e] + rest) {
      assert a[i].key == Keys(a)[i];
      assert ([e] + rest)[1..] == rest;
    }
  }

  lemma OverwrittenPutAbsent(a: seq<Entry>, e: Entry, rest: seq<Entry>)
    requires DistinctKeys(a) && e.key !in Keys(a) && e.key !in Keys(rest)
    ensures Overwritten(Put(a, e), rest) == Overwritten(a, [e] + rest) + [e]
  {
    OverwrittenIgnores(a, e, rest);
    assert Put(a, e) == a + [e];
  }

  lemma AppendedCons(keys: seq<Bytes>, e: Entry, rest: seq<Entry>)
    ensures Appended(keys, [e] + rest) == (if e.key in keys then [] else [e]) + Appended(keys, rest)
  {
    assert ([e] + rest)[1..] == rest;
  }

  /** One step of the fold, for a key `a` already has: it is overwritten in place. */
  lemma MergeStepPresent(a: seq<Entry>, e: Entry, rest: seq<Entry>)
    requires DistinctKeys(a) && e.key in Keys(a) && e.key !in Keys(rest)
    ensures Overwritten(Put(a, e), rest) + Appended(Keys(Put(a, e)), rest)
         == Overwritten(a, [e] + rest) + Appended(Keys(a), [e] + rest)
  {
    var o := Overwritten(a, [e] + rest);
    var t := Appended(Keys(a), rest);
    calc {
      Overwritten(Put(a, e), rest) + Appended(Keys(Put(a, e)), rest);
      == { OverwrittenPutPresent(a, e, rest); PutKeys(a, e); }
      o + t;
      == { AppendedCons(Keys(a), e, rest); assert [] + t == t; }
      o + Appended(Keys(a), [e] + rest);
    }
  }

  /** One step of the fold, for a new key: it goes after the old entries. */
  lemma MergeStepAbsent(a: seq<Entry>, e: Entry, rest: seq<Entry>)
    requires DistinctKeys(a) && e.key !in Keys(a) && e.key !in Keys(rest)
    ensures Overwritten(Put(a, e), rest) + Appended(Keys(Put(a, e)), rest)
         == Overwritten(a, [e] + rest) + Appended(Keys(a), [e] + rest)
  {
    var o := Overwritten(a, [e] + rest);
    var t := Appended(Keys(a), rest);
    calc {
      Overwritten(Put(a, e), rest) + Appended(Keys(Put(a, e)), rest);
      == { OverwrittenPutAbsent(a, e, rest); PutKeys(a, e); }
      (o + [e]) + Appended(Keys(a) + [e.key], rest);
      == { AppendedExtend(Keys(a), e.key, rest); }
      (o + [e]) + t;
      == o + ([e] + t);
      == { AppendedCons(Keys(a), e, rest); }
      o + Appended(Keys(a), [e] + rest);
    }
  }

  /** The fold of `Merge` is PHP's documented `array_merge`: the old entries stay in
      place with their values overwritten, and the new keys follow in `b`'s order. */
  lemma {:induction false} MergeIsArrayMerge(a: seq<Entry>, b: seq<Entry>)
    requires DistinctKeys(a) && DistinctKeys(b)
    ensures Merge(a, b) == Overwritten(a, b) + Appended(Keys(a), b)
    decreases |b|
  {
    if b == [] {
      assert Overwritten(a, b) == a;
    } else {
      var e, rest := b[0], b[1..];
      assert b == [e] + rest;
      KeysCons(b);
      assert e.key !in Keys(rest) by {
        forall j | 0 <= j < |rest| ensures rest[j].key != e.key {
          assert rest[j] == b[j + 1];
        }
      }
      PutKeys(a, e);
      MergeIsArrayMerge(Put(a, e), rest);
      if e.key in Keys(a) {
        MergeStepPresent(a, e, rest);
      } else {
        MergeStepAbsent(a, e, rest);
      }
    }
  }

  /** What the caller sees of `array_merge`: every old key keeps its position and takes
      the new value if `b` has one; the new keys follow; no key appears twice. */
  lemma MergePositions(a: seq<Entry>, b: seq<Entry>)
    requires DistinctKeys(a) && DistinctKeys(b)
    ensures |Merge(a, b)| >= |a|
    ensures forall i | 0 <= i < |a| ::
      (Merge(a, b)[i].key == a[i].key &&
       Merge(a, b)[i].value == (if a[i].key in Keys(b) then Lookup(b, a[i].key).value else a[i].value))
    ensures Merge(a, b)[|a|..] == Appended(Keys(a), b)
  {
    MergeIsArrayMerge(a, b);
    var r := Merge(a, b);
    forall i | 0 <= i < |a|
      ensures r[i].key == a[i].key
      ensures r[i].value == (if a[i].key in Keys(b) then Lookup(b, a[i].key).value else a[i].value)
    {
      assert r[i] == Refreshed(a[i], b);
    }
  }

  /** Merging a one-entry array with an allow-listed key is a single assignment. */
  lemma MergeOne(ps: seq<Entry>, k: Bytes, v: Value)
    requires DistinctKeys(ps)
    requires k in AllowedParams
    ensures Merge(ps, Clean([(Name(k), v)])) == Put(ps, Entry(k, v))
  {
    assert Clean([(Name(k), v)]) == [Entry(k, v)];
  }

  /** Merging allow-listed entries keeps the map allow-listed. */
  lemma {:induction false} MergeAllowed(a: seq<Entry>, b: seq<Entry>)
    requires DistinctKeys(a) && AllAllowed(a) && AllAllowed(b)
    ensures AllAllowed(Merge(a, b))
    decreases |b|
  {
    if b != [] {
      PutKeys(a, b[0]);
      var a' := Put(a, b[0]);
      assert AllAllowed(a') by {
        forall i | 0 <= i < |a'| ensures a'[i].key in AllowedParams {
          assert a'[i].key == Keys(a')[i];
          if b[0].key !in Keys(a) {
            assert a' == a + [b[0]];
          }
        }
      }
      MergeAllowed(a', b[1..]);
    }
  }

  /** Assigning a key stores its value under it and leaves every other key's value alone. */
  lemma {:induction false} PutLookup(ps: seq<Entry>, e: Entry, k: Bytes)
    requires DistinctKeys(ps)
    ensures Lookup(Put(ps, e), e.key) == Some(e.value)
    ensures k != e.key ==> Lookup(Put(ps, e), k) == Lookup(ps, k)
  {
    if ps != [] && ps[0].key != e.key {
      PutLookup(ps[1..], e, k);
      assert Put(ps, e)[1..] == Put(ps[1..], e);
    }
  }

  /** Setting a key twice is the same as setting it once to the second value: the key is
      overwritten, not duplicated. */
  lemma {:induction false} PutTwice(ps: seq<Entry>, k: Bytes, v1: Value, v2: Value)
    requires DistinctKeys(ps)
    ensures DistinctKeys(Put(ps, Entry(k, v1)))
    ensures Put(Put(ps, Entry(k, v1)), Entry(k, v2)) == Put(ps, Entry(k, v2))
  {
    PutKeys(ps, Entry(k, v1));
    if ps != [] && ps[0].key != k {
      PutTwice(ps[1..], k, v1, v2);
      var once := Put(ps, Entry(k, v1));
      assert once == [ps[0]] + Put(ps[1..], Entry(k, v1));
      assert once[1..] == Put(ps[1..], Entry(k, v1));
    }
  }

  /** `removeParams`: drops every entry whose key is among `names`, keeping the others. */
  function Remove(ps: seq<Entry>, names: seq<Bytes>): (r: seq<Entry>)
    ensures forall e :: e in r <==> e in ps && e.key !in names
    ensures AllAllowed(ps) ==> AllAllowed(r)
  {
    if ps == [] then []
    else (if ps[0].key in names then [] else [ps[0]]) + Remove(ps[1..], names)
  }

  /** The keys left by `removeParams` are the old keys not named. */
  lemma {:induction false} RemoveKeys(ps: seq<Entry>, names: seq<Bytes>)
    ensures forall k :: k in Keys(Remove(ps, names)) <==> k in Keys(ps) && k !in names
  {
    if ps != [] {
      var rest := Remove(ps[1..], names);
      RemoveKeys(ps[1..], names);
      KeysCons(ps);
      var head := if ps[0].key in names then [] else [ps[0]];
      KeysAppend(head, rest);
      assert Remove(ps, names) == head + rest;
      assert Keys(head) == if head == [] then [] else [ps[0].key];
    }
  }

  /** `removeParams` never brings a key twice. */
  lemma {:induction false} RemoveDistinct(ps: seq<Entry>, names: seq<Bytes>)
    requires DistinctKeys(ps)
    ensures DistinctKeys(Remove(ps, names))
  {
    if ps != [] {
      var rest := Remove(ps[1..], names);
      RemoveDistinct(ps[1..], names);
      assert Remove(ps, names) == (if ps[0].key in names then [] else [ps[0]]) + rest;
      forall j | 0 <= j < |rest| ensures rest[j].key != ps[0].key {
        assert rest[j] in rest;
        var m :| 0 <= m < |ps[1..]| && ps[1..][m] == rest[j];
        assert ps[m + 1] == rest[j];
      }
    }
  }

  /** `removeParams` preserves order: it filters each part of a concatenation separately. */
  lemma {:induction false} RemoveAppend(a: seq<Entry>, b: seq<Entry>, names: seq<Bytes>)
    ensures Remove(a + b, names) == Remove(a, names) + Remove(b, names)
  {
    if a != [] {
      assert (a + b)[1..] == a[1..] + b;
      RemoveAppend(a[1..], b, names);
    } else {
      assert a + b == b;
    }
  }

  /** Removing names none of which is a key leaves the map as it was. */
  lemma {:induction false} RemoveAbsent(ps: seq<Entry>, names: seq<Bytes>)
    requires forall k | k in names :: k !in Keys(ps)
    ensures Remove(ps, names) == ps
  {
    if ps != [] {
      assert Keys(ps) == [ps[0].key] + Keys(ps[1..]);
      RemoveAbsent(ps[1..], names);
    }
  }

  /** Adding a key and then removing it is the same as only removing it. */
  lemma {:induction false} RemoveAfterPut(ps: seq<Entry>, e: Entry)
    requires DistinctKeys(ps)
    ensures Remove(Put(ps, e), [e.key]) == Remove(ps, [e.key])
  {
    if ps != [] {
      assert Keys(ps) == [ps[0].key] + Keys(ps[1..]);
      if ps[0].key == e.key {
        assert ([e] + ps[1..])[1..] == ps[1..];
      } else {
        RemoveAfterPut(ps[1..], e);
        assert ([ps[0]] + Put(ps[1..], e))[1..] == Put(ps[1..], e);
      }
    }
  }
}
