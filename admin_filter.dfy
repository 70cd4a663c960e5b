/** `filterData` of the admin dashboard (admin/admin.js): keep the records
    that agree with every filter whose value is truthy. */
module AdminFilter {
  import opened Js

  /** A record: property name to primitive value. */
  type Item = map<string, Value>

  /** The filter object: property name to required value. */
  type Filters = map<string, Value>

  /** `item[key]`, `undefined` when the record has no such property. */
  function Field(item: Item, key: string): Value
  {
    if key in item then item[key] else Undefined
  }

  /** A filter is in force when its value is truthy. */
  predicate Active(filters: Filters, key: string)
  {
    key in filters && Truthy(filters[key])
  }

  /** The callback: no filter in force is contradicted by the record (the
      comparison is strict, so only an identical value agrees). */
  predicate Matches(item: Item, filters: Filters)
    ensures Matches(item, filters) ==>
      forall key | Active(filters, key) :: key in item && item[key] == filters[key]
    ensures (forall key | key in filters :: !Truthy(filters[key])) ==> Matches(item, filters)
  {
    forall key | key in filters && Truthy(filters[key]) :: Field(item, key) == filters[key]
  }

  /** `data.filter(callback)`. */
  function FilterData(data: seq<Item>, filters: Filters): (r: seq<Item>)
    ensures |r| <= |data|
    ensures forall i | 0 <= i < |r| :: Matches(r[i], filters) && r[i] in data
    ensures forall i | 0 <= i < |data| && Matches(data[i], filters) :: data[i] in r
  {
    if data == [] then []
    else (if Matches(data[0], filters) then [data[0]] else []) + FilterData(data[1..], filters)
  }

  /** Filtering works record by record: the kept records of two lists one
      after the other are the kept records of each, in order. */
  lemma {:induction false} FilterConcat(a: seq<Item>, b: seq<Item>, filters: Filters)
    ensures FilterData(a + b, filters) == FilterData(a, filters) + FilterData(b, filters)
  {
    if a == [] {
      assert a + b == b;
    } else {
      assert (a + b)[1..] == a[1..] + b;
      FilterConcat(a[1..], b, filters);
    }
  }

  /** A list whose every record matches is kept whole. */
  lemma {:induction false} FilterAllMatch(data: seq<Item>, filters: Filters)
    requires forall i | 0 <= i < |data| :: Matches(data[i], filters)
    ensures FilterData(data, filters) == data
  {
    if data != [] {
      FilterAllMatch(data[1..], filters);
      assert [data[0]] + data[1..] == data;
    }
  }

  /** When no filter is in force (an empty filter object, or only falsy
      values) every record is kept, in order. */
  lemma FilterNoneActive(data: seq<Item>, filters: Filters)
    requires forall key | key in filters :: !Truthy(filters[key])
    ensures FilterData(data, filters) == data
  {
    FilterAllMatch(data, filters);
  }

  /** Filtering a second time with the same filters changes nothing. */
  lemma FilterIdempotent(data: seq<Item>, filters: Filters)
    ensures FilterData(FilterData(data, filters), filters) == FilterData(data, filters)
  {
    FilterAllMatch(FilterData(data, filters), filters);
  }

  /** A record agrees with two filter objects on different properties
      exactly when it agrees with their union. */
  lemma MatchesUnion(x: Item, f: Filters, g: Filters)
    requires f.Keys !! g.Keys
    ensures Matches(x, f + g) <==> Matches(x, f) && Matches(x, g)
  {
    if Matches(x, f) && Matches(x, g) {
      forall key | key in f + g && Truthy((f + g)[key]) ensures Field(x, key) == (f + g)[key] {
        if key in g { assert Active(g, key); } else { assert Active(f, key); }
      }
    }
    if Matches(x, f + g) {
      forall key | key in f && Truthy(f[key]) ensures Field(x, key) == f[key] {
        assert key !in g && Active(f + g, key);
      }
      forall key | key in g && Truthy(g[key]) ensures Field(x, key) == g[key] {
        assert Active(f + g, key);
      }
    }
  }

  /** Filters on different properties combine: filtering by one and then
      by the other is filtering by both at once. */
  lemma {:induction false} FilterCompose(data: seq<Item>, f: Filters, g: Filters)
    requires f.Keys !! g.Keys
    ensures FilterData(FilterData(data, f), g) == FilterData(data, f + g)
  {
    if data != [] {
      var x := data[0];
      var rest := FilterData(data[1..], f);
      FilterCompose(data[1..], f, g);
      MatchesUnion(x, f, g);
      if Matches(x, f) {
        assert FilterData(data, f) == [x] + rest;
        assert ([x] + rest)[0] == x && ([x] + rest)[1..] == rest;
      } else {
        assert FilterData(data, f) == rest;
      }
    }
  }
}
