/** The Lens.org scholarly search query of `lens_journal_ingestion.py` and
    `lens_journal_reader.py`. These scripts build the query as a Python
    dictionary and send `json.dumps` of it; the dictionary is modelled as a
    JSON value whose objects keep their keys in insertion order. */
module JournalQuery {
  import opened Wrappers
  import opened Strings
  import opened Seqs

  datatype Json =
    | JNull
    | JBool(b: bool)
    | JInt(i: int)
    | JString(s: string)
    | JArray(items: seq<Json>)
    | JObject(fields: seq<(string, Json)>)

  /** The filter dictionary: keys with their values, in insertion order. */
  type Filters = seq<(string, Json)>

  /** `filters_dict` of `lens_journal_ingestion.py`. */
  const IngestionFilters: Filters := [
    ("source.type", JString("Journal")),
    ("language", JString("en")),
    ("is_open_access", JBool(true)),
    ("has_abstract", JBool(true))
  ]
  const IngestionSize := 50000
  const IngestionMaxLimit := 999999

  /** `filters_dict` of `lens_journal_reader.py`, before `--year` is set. */
  const ReaderFilters: Filters := [
    ("source.type", JString("Journal")),
    ("source.country", JArray([JString("United States"), JString("Australia")])),
    ("is_open_access", JBool(true)),
    ("has_abstract", JBool(true)),
    ("year_published", JString(""))
  ]
  const ReaderSize := 100
  const ReaderMaxLimit := 300

  /** The fields `lens_journal_ingestion.py` asks the API to return. */
  const IncludeFields := ["lens_id", "title", "abstract", "date_published", "authors", "fields_of_study", "keywords"]

  const SortByDate := JArray([JObject([("date_published", JString("asc"))])])

  /** One `must` condition: a list value becomes a `terms` query, any other
      value a `match` query, on the filter's key. */
  function Condition(filter: (string, Json)): Json {
    var (key, value) := filter;
    if value.JArray? then JObject([("terms", JObject([(key, value)]))])
    else JObject([("match", JObject([(key, value)]))])
  }

  function DateRange(start: string, end: string): Json {
    JObject([("range", JObject([("date_published", JObject([("gte", JString(start)), ("lte", JString(end))]))]))])
  }

  function MustQuery(conditions: seq<Json>): Json {
    JObject([("bool", JObject([("must", JArray(conditions))]))])
  }

  /** `build_query` of `lens_journal_ingestion.py`. */
  function BuildQuery(filters: Filters, from: int, start: string, end: string, size: int): (r: Json)
    ensures r.JObject? && |r.fields| == 5
    ensures r.fields[0].0 == "query" && r.fields[1].0 == "sort" && r.fields[2].0 == "include"
    ensures r.fields[3] == ("from", JInt(from)) && r.fields[4] == ("size", JInt(size))
    ensures r.fields[0].1 == MustQuery(Map(Condition, filters) + [DateRange(start, end)])
  {
    JObject([
      ("query", MustQuery(Map(Condition, filters) + [DateRange(start, end)])),
      ("sort", SortByDate),
      ("include", JArray(Map((f: string) => JString(f), IncludeFields))),
      ("from", JInt(from)),
      ("size", JInt(size))
    ])
  }

  /** `build_query` of `lens_journal_reader.py`: no date range and no
      field list. */
  function BuildReaderQuery(filters: Filters, from: int, size: int): (r: Json)
    ensures r.JObject? && |r.fields| == 4
    ensures r.fields[0].0 == "query" && r.fields[1].0 == "sort"
    ensures r.fields[2] == ("from", JInt(from)) && r.fields[3] == ("size", JInt(size))
    ensures r.fields[0].1 == MustQuery(Map(Condition, filters))
  {
    JObject([
      ("query", MustQuery(Map(Condition, filters))),
      ("sort", SortByDate),
      ("from", JInt(from)),
      ("size", JInt(size))
    ])
  }

  // ---------------------------------------------------------------------
  // Reading a query back

  /** The value under `key` in an object, the first such entry. */
  function Get(j: Json, key: string): (r: Option<Json>)
    ensures r.Some? ==> j.JObject? && exists i :: 0 <= i < |j.fields| && j.fields[i] == (key, r.value)
  {
    if !j.JObject? then None else Lookup(j.fields, key)
  }

  function Lookup(fields: seq<(string, Json)>, key: string): (r: Option<Json>)
    ensures r.Some? ==> exists i :: 0 <= i < |fields| && fields[i] == (key, r.value)
    ensures r.None? <==> forall i :: 0 <= i < |fields| ==> fields[i].0 != key
    decreases |fields|
  {
    if |fields| == 0 then None
    else if fields[0].0 == key then Some(fields[0].1)
    else
      var r := Lookup(fields[1..], key);
      assert r.Some? ==> fields[1..][IndexIn(fields[1..], key, r.value)] == fields[IndexIn(fields[1..], key, r.value) + 1];
      r
  }

  /** The first entry with a key is the one `Lookup` finds. */
  lemma {:induction false} LookupAt(fields: seq<(string, Json)>, key: string, i: nat)
    requires i < |fields| && fields[i].0 == key
    requires forall j :: 0 <= j < i ==> fields[j].0 != key
    ensures Lookup(fields, key) == Some(fields[i].1)
    decreases i
  {
    if i > 0 {
      assert fields[0].0 != key;
      LookupAt(fields[1..], key, i - 1);
    }
  }

  /** A position of `(key, value)` in `fields`, when there is one. */
  function IndexIn(fields: seq<(string, Json)>, key: string, value: Json): (i: nat)
    ensures (exists k :: 0 <= k < |fields| && fields[k] == (key, value)) ==> i < |fields| && fields[i] == (key, value)
    decreases |fields|
  {
    if |fields| == 0 then 0
    else if fields[0] == (key, value) then 0
    else
      var i := IndexIn(fields[1..], key, value);
      assert (exists k :: 0 <= k < |fields| && fields[k] == (key, value)) ==>
               exists k :: 0 <= k < |fields[1..]| && fields[1..][k] == (key, value) by {
        if exists k :: 0 <= k < |fields| && fields[k] == (key, value) {
          var k :| 0 <= k < |fields| && fields[k] == (key, value);
          assert k > 0 && fields[1..][k - 1] == (key, value);
        }
      }
      i + 1
  }

  /** The `must` list of a query, when the query has one. */
  function MustList(q: Json): Option<seq<Json>> {
    match Get(q, "query")
    case None => None
    case Some(query) =>
      match Get(query, "bool")
      case None => None
      case Some(b) =>
        match Get(b, "must")
        case Some(JArray(items)) => Some(items)
        case _ => None
  }

  /** What one condition says: its kind (`terms`, `match` or `range`), the
      key it constrains and the value it requires. */
  function DecodeCondition(c: Json): Option<(string, string, Json)> {
    if c.JObject? && |c.fields| == 1 && c.fields[0].1.JObject? && |c.fields[0].1.fields| == 1 then
      Some((c.fields[0].0, c.fields[0].1.fields[0].0, c.fields[0].1.fields[0].1))
    else None
  }

  /** Every filter becomes one condition of the `must` list, in filter
      order: `terms` exactly for list values, `match` otherwise, on the same
      key and value. The date range comes last, with the start as its
      inclusive lower bound and the end as its inclusive upper bound. */
  lemma MustConditions(filters: Filters, from: int, start: string, end: string, size: int)
    ensures var must := MustList(BuildQuery(filters, from, start, end, size));
            && must.Some? && |must.value| == |filters| + 1
            && (forall i :: 0 <= i < |filters| ==>
                  DecodeCondition(must.value[i]) ==
                  Some((if filters[i].1.JArray? then "terms" else "match", filters[i].0, filters[i].1)))
            && DecodeCondition(must.value[|filters|]) ==
               Some(("range", "date_published", JObject([("gte", JString(start)), ("lte", JString(end))])))
  {
    var q := BuildQuery(filters, from, start, end, size);
    var conds := Map(Condition, filters) + [DateRange(start, end)];
    assert Get(q, "query") == Some(MustQuery(conds));
    assert MustList(q) == Some(conds);
  }

  /** The query pages from the given offset, asks for `size` results, sorts
      ascending by publication date and lists the fields to return. */
  lemma QueryPaging(filters: Filters, from: int, start: string, end: string, size: int)
    ensures var q := BuildQuery(filters, from, start, end, size);
            && Get(q, "from") == Some(JInt(from))
            && Get(q, "size") == Some(JInt(size))
            && Get(q, "sort") == Some(SortByDate)
            && Get(q, "include") == Some(JArray(Map((f: string) => JString(f), IncludeFields)))
  {
    var q := BuildQuery(filters, from, start, end, size);
    QueryKeys(q.fields[0].1, q.fields[1].1, q.fields[2].1, q.fields[3].1, q.fields[4].1);
  }

  /** The top-level keys of the ingestion query, whatever their values. */
  lemma QueryKeys(query: Json, order: Json, fields: Json, offset: Json, count: Json)
    ensures var fs := [("query", query), ("sort", order), ("include", fields), ("from", offset), ("size", count)];
            && Lookup(fs, "sort") == Some(order) && Lookup(fs, "include") == Some(fields)
            && Lookup(fs, "from") == Some(offset) && Lookup(fs, "size") == Some(count)
  {
    QueryPagingKeys(query, order, fields, offset, count);
    var fs := [("query", query), ("sort", order), ("include", fields), ("from", offset), ("size", count)];
    LookupAt(fs, "sort", 1);
    LookupAt(fs, "include", 2);
  }

  lemma QueryPagingKeys(query: Json, order: Json, fields: Json, offset: Json, count: Json)
    ensures var fs := [("query", query), ("sort", order), ("include", fields), ("from", offset), ("size", count)];
            Lookup(fs, "from") == Some(offset) && Lookup(fs, "size") == Some(count)
  {
    var fs := [("query", query), ("sort", order), ("include", fields), ("from", offset), ("size", count)];
    assert "size"[1] != "sort"[1] && "size"[0] != "from"[0] && "from"[0] != "sort"[0];
    LookupAt(fs, "from", 3);
    LookupAt(fs, "size", 4);
  }

  /** The top-level keys of the reader query, whatever their values. */
  lemma ReaderKeys(query: Json, order: Json, offset: Json, count: Json)
    ensures var fs := [("query", query), ("sort", order), ("from", offset), ("size", count)];
            && Lookup(fs, "from") == Some(offset) && Lookup(fs, "size") == Some(count)
            && Lookup(fs, "include") == None
  {
    var fs := [("query", query), ("sort", order), ("from", offset), ("size", count)];
    assert "size"[1] != "sort"[1] && "size"[0] != "from"[0] && "from"[0] != "sort"[0];
    assert |"include"| == 7;
    LookupAt(fs, "from", 2);
    LookupAt(fs, "size", 3);
  }

  /** The reader's `must` list holds the filter conditions and nothing else,
      and its query has no field list. */
  lemma ReaderConditions(filters: Filters, from: int, size: int)
    ensures var q := BuildReaderQuery(filters, from, size);
            var must := MustList(q);
            && must.Some? && |must.value| == |filters|
            && (forall i :: 0 <= i < |filters| ==>
                  DecodeCondition(must.value[i]) ==
                  Some((if filters[i].1.JArray? then "terms" else "match", filters[i].0, filters[i].1)))
            && Get(q, "from") == Some(JInt(from))
            && Get(q, "size") == Some(JInt(size))
            && Get(q, "include") == None
  {
    var q := BuildReaderQuery(filters, from, size);
    ReaderMust(filters, from, size);
    ReaderKeys(q.fields[0].1, q.fields[1].1, q.fields[2].1, q.fields[3].1);
  }

  lemma ReaderMust(filters: Filters, from: int, size: int)
    ensures MustList(BuildReaderQuery(filters, from, size)) == Some(Map(Condition, filters))
  {
    var q := BuildReaderQuery(filters, from, size);
    assert Get(q, "query") == Some(MustQuery(Map(Condition, filters)));
  }

  /** `filters_dict[key] = value`: an existing key keeps its position and
      takes the new value; a new key is appended. */
  function SetFilter(filters: Filters, key: string, value: Json): (r: Filters)
    ensures (exists i :: 0 <= i < |filters| && filters[i].0 == key) ==> |r| == |filters|
    ensures (forall i :: 0 <= i < |filters| ==> filters[i].0 != key) ==> r == filters + [(key, value)]
    ensures forall i :: 0 <= i < |filters| ==> r[i] == (if filters[i].0 == key then (key, value) else filters[i])
  {
    if exists i :: 0 <= i < |filters| && filters[i].0 == key then
      seq(|filters|, i requires 0 <= i < |filters| => if filters[i].0 == key then (key, value) else filters[i])
    else filters + [(key, value)]
  }

  /** `main` of `lens_journal_reader.py` sets `year_published` to
      `str(year)`. */
  function ReaderFiltersFor(year: int): Filters {
    SetFilter(ReaderFilters, "year_published", JString(IntToString(year)))
  }

  /** After the year is set, the reader asks for US and Australian journals
      by `terms`, and for the other four filters, the year included, by
      `match`, in declaration order. */
  lemma ReaderYearQuery(year: int, from: int)
    ensures var f := ReaderFiltersFor(year);
            && |f| == 5
            && f[1] == ("source.country", JArray([JString("United States"), JString("Australia")]))
            && f[4] == ("year_published", JString(IntToString(year)))
            && f[..4] == ReaderFilters[..4]
            && Condition(f[1]).fields[0].0 == "terms"
            && forall i :: 0 <= i < 5 && i != 1 ==> Condition(f[i]).fields[0].0 == "match"
  {
    var f := ReaderFiltersFor(year);
    assert ReaderFilters[4].0 == "year_published";
    assert f[4] == ("year_published", JString(IntToString(year)));
    forall i | 0 <= i < 4 ensures f[i] == ReaderFilters[i] {
      assert ReaderFilters[i].0 != "year_published";
    }
  }
}
