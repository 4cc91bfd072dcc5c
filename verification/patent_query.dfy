/** The Lens.org patent search body of `lens_patent_ingestion.py` and
    `lens_api_reader.py`, assembled by string templates (`term_builder`,
    `query_range`, `response_include`, `build_data` and the `from`/`size`
    suffix of `get_response`). The templates are reproduced character for
    character, whitespace included; a decoder that reads a body back shows
    what each template carries. */
module PatentQuery {
  import opened Wrappers
  import opened Strings
  import opened Seqs

  /** The fixed text pieces of the templates, in the order they are
      declared: the `should` block, the term clause around its two holes,
      the range clause around its two holes, the `must` wrapper, the
      `include` list and the `from`/`size` suffix. */
  datatype Layout = Layout(
    shouldOpen: string, shouldClose: string,
    clauseOpen: string, clauseMiddle: string, clauseClose: string,
    rangeOpen: string, rangeMiddle: string, rangeClose: string,
    mustOpen: string, mustClose: string, includeFields: string,
    fromOpen: string, sizeOpen: string, bodyClose: string)

  /** Line break and indentation shared by the `should` block's end and
      the term clause's start. */
  const BlockIndent := "\n" + "                        "

  /** The sort clause of `build_data`: ascending by publication date. */
  const SortAscending := "\"sort\": [{\"date_published\": \"asc\"}]"

  /** The templates of both patent scripts, character for character (some
      pieces are written as concatenations so that their first characters
      can be read off). */
  const Templates := Layout(
    "\n                {\n                    \"bool\": {\n                        \"should\": [ ",
    BlockIndent + "]" + "\n                    }\n                }, ",
    BlockIndent + " " + "   {\n                                \"term\" : {\n                                    \"",
    "\": \"",
    "\"" + "\n                                }\n                            }\n                            ",
    "\n                {\n                    \"range\" : {\n                        \"date_published\": {\n                            " + "\"gte\": \"",
    "\"" + ",\n                            " + "\"lte\": \"",
    "\"" + "\n                        }\n                    }\n                \n                }\n            ",
    "{\n    \"query\": {\n        \"bool\": {\n            \"must\": [ ",
    "\n            ]\n        }          \n    },\n    " + SortAscending + ",\n    ",
    "\n    \"include\": [\"lens_id\",  \n                \"abstract.text\", \n                \"date_published\", \n                \"publication_type\",\n                \"biblio.application_reference.doc_number\",\n                \"biblio.invention_title.text\", \n                \"biblio.classifications_cpc.classifications.symbol\", \n                \"biblio.parties.inventors\",\n                \"biblio.parties.applicants\"\n                ],\n    ",
    "\n    \"from\" : ",
    "," + "\n    \"size\" : ",
    "\n}\n    ")

  /** What the decoder relies on: the holes are closed by a double quote,
      a block's end cannot be mistaken for a comma or for another clause,
      and the size field follows a comma. */
  predicate LayoutOk(l: Layout) {
    && |l.clauseOpen| > 0
    && |l.clauseMiddle| > 0 && l.clauseMiddle[0] == '"'
    && |l.clauseClose| > 0 && l.clauseClose[0] == '"'
    && |l.rangeMiddle| > 0 && l.rangeMiddle[0] == '"'
    && |l.rangeClose| > 0 && l.rangeClose[0] == '"'
    && |l.shouldClose| > 0 && l.shouldClose[0] != ','
    && (exists i :: 0 <= i < |l.clauseOpen| && i < |l.shouldClose| && l.clauseOpen[i] != l.shouldClose[i])
    && |l.sizeOpen| > 0 && l.sizeOpen[0] == ','
  }

  lemma TemplatesOk()
    ensures LayoutOk(Templates)
  {
    assert |BlockIndent| == 25;
    assert Templates.clauseOpen[25] != Templates.shouldClose[25];
  }

  /** The constants `lens_api_reader.py` hard-codes for the two lists. */
  const ReaderJurisdictions := ["jurisdiction", "US", "AU"]
  const ReaderTypes := ["publication_type", "GRANTED_PATENT", "AMENDED_PATENT"]
  const ReaderSize := 100
  const ReaderMaxLimit := 300

  /** A value the templates can carry unambiguously: the templates put it
      between double quotes and do not escape it. */
  predicate Unquoted(s: string) {
    '"' !in s
  }

  /** One `"term"` clause of `term_builder`. */
  function TermClause(l: Layout, term: string, value: string): string {
    l.clauseOpen + term + l.clauseMiddle + value + l.clauseClose
  }

  function Clauses(l: Layout, term: string, values: seq<string>): (r: seq<string>)
    ensures |r| == |values|
    ensures forall i :: 0 <= i < |values| ==> r[i] == TermClause(l, term, values[i])
  {
    Map((v: string) => TermClause(l, term, v), values)
  }

  /** `term_builder(term, values)`: a `should` block holding one term clause
      per value, in order, joined by commas. */
  function TermBuilder(l: Layout, term: string, values: seq<string>): (r: string)
    ensures StartsWith(r, l.shouldOpen)
    ensures |values| == 0 ==> r == l.shouldOpen + l.shouldClose
  {
    l.shouldOpen + Join(",", Clauses(l, term, values)) + l.shouldClose
  }

  /** `query_range(start, end)`. */
  function QueryRange(l: Layout, start: string, end: string): string {
    l.rangeOpen + start + l.rangeMiddle + end + l.rangeClose
  }

  /** `build_data`: the first entry of each configured list is the field
      name and the rest are its values; indexing an empty list raises. */
  function BuildData(l: Layout, jurisdictions: seq<string>, types: seq<string>, start: string, end: string): (r: Result<string>)
    ensures r.Failure? <==> |jurisdictions| == 0 || |types| == 0
    ensures r.Failure? ==> r.error.kind == IndexError
    ensures r.Success? ==> StartsWith(r.value, l.mustOpen)
  {
    if |jurisdictions| == 0 || |types| == 0 then Failure(Error(IndexError, "list index out of range"))
    else
      var body := TermBuilder(l, jurisdictions[0], jurisdictions[1..]) + TermBuilder(l, types[0], types[1..])
                  + QueryRange(l, start, end) + l.mustClose + l.includeFields;
      assert (l.mustOpen + body)[..|l.mustOpen|] == l.mustOpen;
      Success(l.mustOpen + body)
  }

  /** `data + data_suffix` of `get_response`: `%d` renders the offset and
      the page size in decimal. */
  function RequestBody(l: Layout, data: string, from: int, size: int): (r: string)
    ensures StartsWith(r, data)
  {
    var suffix := l.fromOpen + IntToString(from) + l.sizeOpen + IntToString(size) + l.bodyClose;
    assert (data + suffix)[..|data|] == data;
    data + suffix
  }

  // ---------------------------------------------------------------------
  // Reading a body back

  /** What a search body says: the (field, value) pairs of each `should`
      block and the two ends of the date range. */
  datatype PatentSearch = PatentSearch(jurisdictions: seq<(string, string)>, types: seq<(string, string)>,
                                       gte: string, lte: string)

  function Expect(s: string, lit: string): (r: Option<string>)
    ensures r.Some? <==> StartsWith(s, lit)
    ensures r.Some? ==> s == lit + r.value
  {
    if StartsWith(s, lit) then Some(s[|lit|..]) else None
  }

  /** The text before the first double quote, and the rest. */
  function ReadField(s: string): (r: (string, string))
    ensures r.0 + r.1 == s && Unquoted(r.0)
    ensures |r.1| > 0 ==> r.1[0] == '"'
    decreases |s|
  {
    if |s| == 0 || s[0] == '"' then ("", s)
    else
      var (a, b) := ReadField(s[1..]);
      ([s[0]] + a, b)
  }

  lemma {:induction false} ReadFieldOf(a: string, rest: string)
    requires Unquoted(a) && |rest| > 0 && rest[0] == '"'
    ensures ReadField(a + rest) == (a, rest)
    decreases |a|
  {
    if |a| == 0 {
      assert a + rest == rest;
    } else {
      assert (a + rest)[0] == a[0] != '"';
      assert (a + rest)[1..] == a[1..] + rest;
      ReadFieldOf(a[1..], rest);
      assert [a[0]] + a[1..] == a;
    }
  }

  lemma ExpectOf(lit: string, rest: string)
    ensures Expect(lit + rest, lit) == Some(rest)
  {
    assert (lit + rest)[..|lit|] == lit;
    assert (lit + rest)[|lit|..] == rest;
  }

  /** Reads one term clause: its field name, its value and what follows. */
  function ParseClause(l: Layout, s: string): (r: Option<(string, string, string)>)
    requires LayoutOk(l)
    ensures r.Some? ==> |r.value.2| < |s|
  {
    match Expect(s, l.clauseOpen)
    case None => None
    case Some(a) =>
      var (term, b) := ReadField(a);
      match Expect(b, l.clauseMiddle)
      case None => None
      case Some(c) =>
        var (value, d) := ReadField(c);
        match Expect(d, l.clauseClose)
        case None => None
        case Some(e) => Some((term, value, e))
  }

  /** Decoding a rendered clause gives its field name and value back. */
  lemma ClauseRoundTrip(l: Layout, term: string, value: string, rest: string)
    requires LayoutOk(l) && Unquoted(term) && Unquoted(value)
    ensures ParseClause(l, TermClause(l, term, value) + rest) == Some((term, value, rest))
  {
    var d := l.clauseClose + rest;
    var c := value + d;
    var b := l.clauseMiddle + c;
    var a := term + b;
    assert TermClause(l, term, value) + rest == l.clauseOpen + a;
    ExpectOf(l.clauseOpen, a);
    ReadFieldOf(term, b);
    ExpectOf(l.clauseMiddle, c);
    ReadFieldOf(value, d);
    ExpectOf(l.clauseClose, rest);
  }

  /** Reads comma-separated clauses up to the end of the `should` block. */
  function ParseClauses(l: Layout, s: string): (r: Option<(seq<(string, string)>, string)>)
    requires LayoutOk(l)
    decreases |s|
  {
    match ParseClause(l, s)
    case None => None
    case Some((term, value, rest)) =>
      if StartsWith(rest, ",") then
        (match ParseClauses(l, rest[1..])
         case None => None
         case Some((more, tail)) => Some(([(term, value)] + more, tail)))
      else if StartsWith(rest, l.shouldClose) then Some(([(term, value)], rest[|l.shouldClose|..]))
      else None
  }

  /** Reads one `should` block: its (field, value) pairs and what follows. */
  function ParseShould(l: Layout, s: string): (r: Option<(seq<(string, string)>, string)>)
    requires LayoutOk(l)
  {
    match Expect(s, l.shouldOpen)
    case None => None
    case Some(b) =>
      if StartsWith(b, l.shouldClose) then Some(([], b[|l.shouldClose|..]))
      else ParseClauses(l, b)
  }

  /** The pairs a `term_builder` call encodes: its field with each value. */
  function Pairs(term: string, values: seq<string>): (r: seq<(string, string)>)
    ensures |r| == |values|
    ensures forall i :: 0 <= i < |values| ==> r[i] == (term, values[i])
  {
    Map((v: string) => (term, v), values)
  }

  predicate AllUnquoted(values: seq<string>) {
    forall i :: 0 <= i < |values| ==> Unquoted(values[i])
  }

  /** The last clause of a block. */
  lemma LastClause(l: Layout, term: string, value: string, rest: string)
    requires LayoutOk(l) && Unquoted(term) && Unquoted(value)
    ensures ParseClauses(l, TermClause(l, term, value) + l.shouldClose + rest) == Some(([(term, value)], rest))
  {
    var after := l.shouldClose + rest;
    assert TermClause(l, term, value) + l.shouldClose + rest == TermClause(l, term, value) + after;
    ClauseRoundTrip(l, term, value, after);
    assert !StartsWith(after, ",") by { assert after[0] == l.shouldClose[0]; }
    ExpectOf(l.shouldClose, rest);
  }

  /** A clause followed by a comma and further clauses. */
  lemma NextClause(l: Layout, term: string, value: string, after: string,
                   more: seq<(string, string)>, tail: string)
    requires LayoutOk(l) && Unquoted(term) && Unquoted(value)
    requires ParseClauses(l, after) == Some((more, tail))
    ensures ParseClauses(l, TermClause(l, term, value) + "," + after) == Some(([(term, value)] + more, tail))
  {
    var next := "," + after;
    assert TermClause(l, term, value) + "," + after == TermClause(l, term, value) + next;
    ClauseRoundTrip(l, term, value, next);
    assert next[..1] == ",";
    assert next[1..] == after;
  }

  lemma {:induction false} ClausesRoundTrip(l: Layout, term: string, values: seq<string>, rest: string)
    requires LayoutOk(l) && |values| >= 1 && Unquoted(term) && AllUnquoted(values)
    ensures ParseClauses(l, Join(",", Clauses(l, term, values)) + l.shouldClose + rest)
            == Some((Pairs(term, values), rest))
    decreases |values|
  {
    PairsCons(term, values);
    AllUnquotedTail(values);
    if |values| == 1 {
      assert Join(",", Clauses(l, term, values)) == TermClause(l, term, values[0]);
      assert Pairs(term, values) == [(term, values[0])];
      LastClause(l, term, values[0], rest);
    } else {
      var tailValues := values[1..];
      var after := Join(",", Clauses(l, term, tailValues)) + l.shouldClose + rest;
      ClausesCons(l, term, values, rest);
      ClausesRoundTrip(l, term, tailValues, rest);
      NextClause(l, term, values[0], after, Pairs(term, tailValues), rest);
    }
  }

  lemma PairsCons(term: string, values: seq<string>)
    requires |values| >= 1
    ensures Pairs(term, values) == [(term, values[0])] + Pairs(term, values[1..])
  {
  }

  lemma AllUnquotedTail(values: seq<string>)
    requires |values| >= 1 && AllUnquoted(values)
    ensures AllUnquoted(values[1..])
  {
    forall i | 0 <= i < |values[1..]| ensures Unquoted(values[1..][i]) {
      assert values[1..][i] == values[i + 1];
    }
  }

  /** A block of two or more clauses is its first clause, a comma and the
      block of the others. */
  lemma ClausesCons(l: Layout, term: string, values: seq<string>, rest: string)
    requires |values| >= 2
    ensures Join(",", Clauses(l, term, values)) + l.shouldClose + rest ==
            TermClause(l, term, values[0]) + "," + (Join(",", Clauses(l, term, values[1..])) + l.shouldClose + rest)
  {
    var clauses := Clauses(l, term, values);
    assert clauses[1..] == Clauses(l, term, values[1..]);
  }

  /** A non-empty block starts with a term clause. */
  lemma BlockStart(l: Layout, term: string, values: seq<string>, rest: string)
    requires |values| >= 1
    ensures StartsWith(Join(",", Clauses(l, term, values)) + l.shouldClose + rest, l.clauseOpen)
  {
    var b := Join(",", Clauses(l, term, values)) + l.shouldClose + rest;
    var first := TermClause(l, term, values[0]);
    if |values| == 1 {
      assert b == first + (l.shouldClose + rest);
    } else {
      ClausesCons(l, term, values, rest);
      assert b == first + ("," + (Join(",", Clauses(l, term, values[1..])) + l.shouldClose + rest));
    }
    assert first == l.clauseOpen + (term + l.clauseMiddle + values[0] + l.clauseClose);
  }

  /** Decoding a `term_builder` block gives one (field, value) pair per
      value, in order, each with the block's field name. */
  lemma TermBuilderRoundTrip(l: Layout, term: string, values: seq<string>, rest: string)
    requires LayoutOk(l) && Unquoted(term) && AllUnquoted(values)
    ensures ParseShould(l, TermBuilder(l, term, values) + rest) == Some((Pairs(term, values), rest))
  {
    var clauses := Clauses(l, term, values);
    var b := Join(",", clauses) + l.shouldClose + rest;
    assert TermBuilder(l, term, values) + rest == l.shouldOpen + b;
    ExpectOf(l.shouldOpen, b);
    if |values| == 0 {
      assert b == l.shouldClose + rest;
      ExpectOf(l.shouldClose, rest);
    } else {
      BlockStart(l, term, values, rest);
      var i :| 0 <= i < |l.clauseOpen| && i < |l.shouldClose| && l.clauseOpen[i] != l.shouldClose[i];
      assert b[i] == l.clauseOpen[i];
      ClausesRoundTrip(l, term, values, rest);
    }
  }

  /** Reads the range clause: its lower bound, upper bound and what follows. */
  function ParseRange(l: Layout, s: string): (r: Option<(string, string, string)>) {
    match Expect(s, l.rangeOpen)
    case None => None
    case Some(a) =>
      var (gte, b) := ReadField(a);
      match Expect(b, l.rangeMiddle)
      case None => None
      case Some(c) =>
        var (lte, d) := ReadField(c);
        match Expect(d, l.rangeClose)
        case None => None
        case Some(e) => Some((gte, lte, e))
  }

  /** The range clause carries `start` as its first bound and `end` as its
      second. */
  lemma RangeRoundTrip(l: Layout, start: string, end: string, rest: string)
    requires LayoutOk(l) && Unquoted(start) && Unquoted(end)
    ensures ParseRange(l, QueryRange(l, start, end) + rest) == Some((start, end, rest))
  {
    var d := l.rangeClose + rest;
    var c := end + d;
    var b := l.rangeMiddle + c;
    var a := start + b;
    assert QueryRange(l, start, end) + rest == l.rangeOpen + a;
    ExpectOf(l.rangeOpen, a);
    ReadFieldOf(start, b);
    ExpectOf(l.rangeMiddle, c);
    ReadFieldOf(end, d);
    ExpectOf(l.rangeClose, rest);
  }

  /** Both bounds are inclusive: the first hole follows the key `gte` and
      the second the key `lte`. */
  lemma RangeKeys()
    ensures Templates.rangeOpen[|Templates.rangeOpen| - 8..] == "\"gte\": \""
    ensures Templates.rangeMiddle[|Templates.rangeMiddle| - 8..] == "\"lte\": \""
  {
  }

  /** Reads a whole `build_data` body. */
  function ParseData(l: Layout, s: string): (r: Option<PatentSearch>)
    requires LayoutOk(l)
  {
    match Expect(s, l.mustOpen)
    case None => None
    case Some(a) =>
      match ParseShould(l, a)
      case None => None
      case Some((jurisdictions, b)) =>
        match ParseShould(l, b)
        case None => None
        case Some((types, c)) =>
          match ParseRange(l, c)
          case None => None
          case Some((gte, lte, d)) =>
            if d == l.mustClose + l.includeFields then Some(PatentSearch(jurisdictions, types, gte, lte)) else None
  }

  /** `build_data` read back: the jurisdiction block, then the type block,
      then the range, each carrying exactly the configured values. */
  lemma BuildDataRoundTrip(l: Layout, jurisdictions: seq<string>, types: seq<string>, start: string, end: string)
    requires LayoutOk(l) && |jurisdictions| >= 1 && |types| >= 1
    requires AllUnquoted(jurisdictions) && AllUnquoted(types) && Unquoted(start) && Unquoted(end)
    ensures BuildData(l, jurisdictions, types, start, end).Success?
    ensures ParseData(l, BuildData(l, jurisdictions, types, start, end).value) ==
            Some(PatentSearch(Pairs(jurisdictions[0], jurisdictions[1..]), Pairs(types[0], types[1..]), start, end))
  {
    var j := jurisdictions;
    var t := types;
    var tail := l.mustClose + l.includeFields;
    var c := QueryRange(l, start, end) + tail;
    var b := TermBuilder(l, t[0], t[1..]) + c;
    var a := TermBuilder(l, j[0], j[1..]) + b;
    assert BuildData(l, j, t, start, end).value == l.mustOpen + a;
    ExpectOf(l.mustOpen, a);
    AllUnquotedTail(j);
    AllUnquotedTail(t);
    TermBuilderRoundTrip(l, j[0], j[1..], b);
    TermBuilderRoundTrip(l, t[0], t[1..], c);
    RangeRoundTrip(l, start, end, tail);
  }

  /** The body `lens_api_reader.py` sends asks for United States and
      Australian patents that are granted or amended, over the given window. */
  lemma ReaderSearch(l: Layout, start: string, end: string)
    requires LayoutOk(l) && Unquoted(start) && Unquoted(end)
    ensures BuildData(l, ReaderJurisdictions, ReaderTypes, start, end).Success?
    ensures ParseData(l, BuildData(l, ReaderJurisdictions, ReaderTypes, start, end).value) ==
            Some(PatentSearch([("jurisdiction", "US"), ("jurisdiction", "AU")],
                              [("publication_type", "GRANTED_PATENT"), ("publication_type", "AMENDED_PATENT")],
                              start, end))
  {
    ReaderLists();
    BuildDataRoundTrip(l, ReaderJurisdictions, ReaderTypes, start, end);
  }

  lemma ReaderLists()
    ensures AllUnquoted(ReaderJurisdictions) && AllUnquoted(ReaderTypes)
    ensures Pairs(ReaderJurisdictions[0], ReaderJurisdictions[1..]) == [("jurisdiction", "US"), ("jurisdiction", "AU")]
    ensures Pairs(ReaderTypes[0], ReaderTypes[1..]) == [("publication_type", "GRANTED_PATENT"), ("publication_type", "AMENDED_PATENT")]
  {
    var j := ReaderJurisdictions;
    var t := ReaderTypes;
    assert '"' !in "jurisdiction" && '"' !in "US" && '"' !in "AU";
    assert '"' !in "publication_type" && '"' !in "GRANTED_PATENT" && '"' !in "AMENDED_PATENT";
    assert j[1..] == ["US", "AU"];
    assert t[1..] == ["GRANTED_PATENT", "AMENDED_PATENT"];
  }

  lemma RequestBodyShape(l: Layout, data: string, f: int, z: int)
    requires |l.sizeOpen| > 0 && l.sizeOpen[0] == ','

    ensures RequestBody(l, data, f, z) ==
            (data + l.fromOpen) + (IntToString(f) + [','] + (l.sizeOpen[1..] + (IntToString(z) + l.bodyClose)))
  {
    var s := IntToString(f);
    var t := IntToString(z);
    var q := l.sizeOpen[1..];
    assert l.sizeOpen == [','] + q;
    calc {
      RequestBody(l, data, f, z);
      data + (l.fromOpen + s + l.sizeOpen + t + l.bodyClose);
      (data + l.fromOpen) + (s + ([','] + q) + (t + l.bodyClose));
      (data + l.fromOpen) + (s + [','] + (q + (t + l.bodyClose)));
    }
  }

  /** The suffix determines the offset and size: two request bodies built
      from the same data are equal only for the same offset and size. */
  lemma RequestBodyInjective(l: Layout, data: string, f1: int, z1: int, f2: int, z2: int)
    requires LayoutOk(l)
    requires RequestBody(l, data, f1, z1) == RequestBody(l, data, f2, z2)
    ensures f1 == f2 && z1 == z2
  {
    var p := data + l.fromOpen;
    var q := l.sizeOpen[1..];
    var y1 := q + (IntToString(z1) + l.bodyClose);
    var y2 := q + (IntToString(z2) + l.bodyClose);
    RequestBodyShape(l, data, f1, z1);
    RequestBodyShape(l, data, f2, z2);
    PrefixCancel(p, IntToString(f1) + [','] + y1, IntToString(f2) + [','] + y2);
    IntToStringAvoids(f1, ',');
    IntToStringAvoids(f2, ',');
    SeparatorCancel(IntToString(f1), y1, IntToString(f2), y2, ',');
    IntToStringInjective(f1, f2);
    PrefixCancel(q, IntToString(z1) + l.bodyClose, IntToString(z2) + l.bodyClose);
    SuffixCancel(IntToString(z1), IntToString(z2), l.bodyClose);
    IntToStringInjective(z1, z2);
  }
}
