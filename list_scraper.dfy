/** src/scrapers/list_scraper.py: one search request for every school, then the school
    codes read from the code column of the results table.

    The column label is a parameter of the model (`codeLabel`), since the literal in the
    source is stored in a garbled encoding. */
module ListScraper {
  import opened Wrappers
  import opened Text
  import opened Html
  import opened BaseScraper

  const BaseUrl: string := "https://www.educacion.gob.es/centros/buscarCentros"

  /** `_build_payload`: the search form asking for every kind of school everywhere. */
  function Payload(): map<string, string> {
    map[
      "ssel_natur" := "0", "comboprov" := "00", "comboens" := "0", "nombreCentro" := "",
      "tipocentro" := "0", "combofami" := "0", "combomodalidad" := "0", "selectRegCap" := "0",
      "codprov" := "00", "combopais" := "0", "submitBuscar" := "Buscar"]
  }

  /** The search request `run` sends. */
  function SearchRequest(): Request {
    Request("POST", BaseUrl, Payload())
  }

  /** The fields of the search form, in three groups. */
  const FormFields: set<string> :=
    {"ssel_natur", "comboprov", "comboens", "nombreCentro", "tipocentro", "combofami"}
  const FilterFields: set<string> := FormFields + {"combomodalidad", "selectRegCap"}
  const PayloadFields: set<string> := FilterFields + {"codprov", "combopais", "submitBuscar"}

  /** The payload is one fixed form of 11 fields. */
  lemma PayloadSize()
    ensures Payload().Keys == PayloadFields && |Payload()| == 11
  {
    PayloadKeys();
    PayloadFieldsCount();
  }

  lemma PayloadKeys()
    ensures Payload().Keys == PayloadFields
  {
  }

  lemma FormFieldsCount()
    ensures |FormFields| == 6
  {
  }

  lemma FilterFieldsCount()
    ensures |FilterFields| == 8
  {
    FormFieldsCount();
  }

  lemma PayloadFieldsCount()
    ensures |PayloadFields| == 11
  {
    FilterFieldsCount();
  }

  /** Every field asks for "all": a zero code, an empty name filter, and the search button. */
  lemma PayloadValues()
    ensures Payload()["nombreCentro"] == "" && Payload()["submitBuscar"] == "Buscar"
    ensures forall k :: k in Payload() && k != "nombreCentro" && k != "submitBuscar" ==>
      Payload()[k] == "0" || Payload()[k] == "00"
  {
  }

  // ------------------------------------------------------------- the specification

  /** Whether a `th` is the code column's header: its stripped text contains the codeLabel. */
  predicate IsCodeHeader(header: Fragments, codeLabel: string) {
    Contains(StrippedTextOf(header), codeLabel)
  }

  /** The first code header at or after position `i` of one table's `th` cells. */
  function HeaderFrom(headers: seq<Fragments>, codeLabel: string, i: nat): Option<nat>
    requires i <= |headers|
    decreases |headers| - i
  {
    if i == |headers| then None
    else if IsCodeHeader(headers[i], codeLabel) then Some(i)
    else HeaderFrom(headers, codeLabel, i + 1)
  }

  /** The first table at or after position `t` that has a code header, with that header's index. */
  function CodeColumnFrom(tables: seq<Element>, codeLabel: string, t: nat): Option<(nat, nat)>
    requires t <= |tables|
    decreases |tables| - t
  {
    if t == |tables| then None
    else match HeaderFrom(tables[t].headerCells, codeLabel, 0)
      case Some(i) => Some((t, i))
      case None => CodeColumnFrom(tables, codeLabel, t + 1)
  }

  function CodeColumn(tables: seq<Element>, codeLabel: string): Option<(nat, nat)> {
    CodeColumnFrom(tables, codeLabel, 0)
  }

  /** What one `tr` contributes: its stripped cell at `index`, when it is a `tbody` row
      with more than `index` cells and that text is not empty. */
  function CodeOfRow(row: Row, index: nat): Option<string> {
    if row.inBody && |row.cells| > index && StrippedTextOf(row.cells[index]) != "" then
      Some(StrippedTextOf(row.cells[index]))
    else None
  }

  /** The codes of `rows`, in row order. */
  function Codes(rows: seq<Row>, index: nat): seq<string>
    decreases |rows|
  {
    if rows == [] then []
    else
      var front := Codes(rows[..|rows| - 1], index);
      match CodeOfRow(rows[|rows| - 1], index)
      case Some(code) => front + [code]
      case None => front
  }

  /** `_extract_school_ids`. */
  function SchoolIds(doc: Document, codeLabel: string): seq<string> {
    match CodeColumn(doc.tables, codeLabel)
    case None => []
    case Some((t, i)) => if t < |doc.tables| then Codes(doc.tables[t].rows, i) else []
  }

  // ------------------------------------------------------------- its laws

  /** The header found is the first one in the table whose stripped text contains the codeLabel. */
  lemma {:induction false} HeaderFromFirst(headers: seq<Fragments>, codeLabel: string, i: nat)
    requires i <= |headers|
    ensures match HeaderFrom(headers, codeLabel, i)
      case Some(h) =>
        i <= h < |headers| && IsCodeHeader(headers[h], codeLabel)
        && forall j :: i <= j < h ==> !IsCodeHeader(headers[j], codeLabel)
      case None => forall j :: i <= j < |headers| ==> !IsCodeHeader(headers[j], codeLabel)
    decreases |headers| - i
  {
    if i < |headers| && !IsCodeHeader(headers[i], codeLabel) {
      HeaderFromFirst(headers, codeLabel, i + 1);
      var r := HeaderFrom(headers, codeLabel, i + 1);
      assert HeaderFrom(headers, codeLabel, i) == r;
      var h := if r.Some? then r.value else |headers|;
      forall j | i <= j < h
        ensures !IsCodeHeader(headers[j], codeLabel)
      {
        if j == i {
        } else {
          assert i + 1 <= j;
        }
      }
    }
  }

  /** The column chosen belongs to the first table, in document order, that has a code
      header, and is the index of that table's first code header; tables without one
      (in particular tables without any `th`) are passed over. */
  lemma {:induction false} CodeColumnFirst(tables: seq<Element>, codeLabel: string, t: nat)
    requires t <= |tables|
    ensures match CodeColumnFrom(tables, codeLabel, t)
      case Some((u, i)) =>
        t <= u < |tables| && HeaderFrom(tables[u].headerCells, codeLabel, 0) == Some(i)
        && forall v :: t <= v < u ==> HeaderFrom(tables[v].headerCells, codeLabel, 0).None?
      case None => forall v :: t <= v < |tables| ==> HeaderFrom(tables[v].headerCells, codeLabel, 0).None?
    decreases |tables| - t
  {
    if t < |tables| && HeaderFrom(tables[t].headerCells, codeLabel, 0).None? {
      CodeColumnFirst(tables, codeLabel, t + 1);
      var r := CodeColumnFrom(tables, codeLabel, t + 1);
      assert CodeColumnFrom(tables, codeLabel, t) == r;
      var u := if r.Some? then r.value.0 else |tables|;
      forall v | t <= v < u
        ensures HeaderFrom(tables[v].headerCells, codeLabel, 0).None?
      {
        if v != t {
          assert t + 1 <= v;
        }
      }
    }
  }

  /** With no table holding a code header the result is empty. */
  lemma NoCodeTable(doc: Document, codeLabel: string)
    requires forall t :: 0 <= t < |doc.tables| ==>
      forall j :: 0 <= j < |doc.tables[t].headerCells| ==> !IsCodeHeader(doc.tables[t].headerCells[j], codeLabel)
    ensures SchoolIds(doc, codeLabel) == []
  {
    forall t | 0 <= t < |doc.tables|
      ensures HeaderFrom(doc.tables[t].headerCells, codeLabel, 0).None?
    {
      HeaderFromFirst(doc.tables[t].headerCells, codeLabel, 0);
    }
    CodeColumnFirst(doc.tables, codeLabel, 0);
  }

  /** The codes of two runs of rows are the codes of each, one after the other: row order is kept. */
  lemma {:induction false} CodesAppend(a: seq<Row>, b: seq<Row>, index: nat)
    ensures Codes(a + b, index) == Codes(a, index) + Codes(b, index)
    decreases |b|
  {
    if b == [] {
      assert a + b == a;
    } else {
      var b' := b[..|b| - 1];
      assert (a + b)[..|a + b| - 1] == a + b';
      assert (a + b)[|a + b| - 1] == b[|b| - 1];
      CodesAppend(a, b', index);
    }
  }

  /** A code is listed exactly when some row contributes it. */
  lemma {:induction false} CodesMembers(rows: seq<Row>, index: nat, code: string)
    ensures code in Codes(rows, index) <==> exists r :: r in rows && CodeOfRow(r, index) == Some(code)
    decreases |rows|
  {
    if rows != [] {
      var front := rows[..|rows| - 1];
      CodesMembers(front, index, code);
      assert rows == front + [rows[|rows| - 1]];
      if code in Codes(rows, index) && code !in Codes(front, index) {
        assert CodeOfRow(rows[|rows| - 1], index) == Some(code);
      }
    }
  }

  /** The number of `tbody` rows. */
  function BodyRows(rows: seq<Row>): nat
    decreases |rows|
  {
    if rows == [] then 0
    else BodyRows(rows[..|rows| - 1]) + (if rows[|rows| - 1].inBody then 1 else 0)
  }

  /** There are no more codes than `tbody` rows. */
  lemma {:induction false} CodesBound(rows: seq<Row>, index: nat)
    ensures |Codes(rows, index)| <= BodyRows(rows)
    decreases |rows|
  {
    if rows != [] {
      CodesBound(rows[..|rows| - 1], index);
    }
  }

  /** Duplicates are kept: two rows with the same code give that code twice. */
  lemma DuplicatesKept(row: Row, index: nat, code: string)
    requires CodeOfRow(row, index) == Some(code)
    ensures Codes([row, row], index) == [code, code]
  {
    assert [row][..0] == [];
    assert Codes([row], index) == [code];
    assert [row, row][..1] == [row];
  }

  // ------------------------------------------------------------- the imperative code

  /** `_extract_school_ids`: the first search keeps flags `school_table` / `codigo_index`
      and leaves its loops by `break`; the second appends the codes of the `tbody` rows. */
  method ExtractSchoolIds(doc: Document, codeLabel: string) returns (ids: seq<string>)
    ensures ids == SchoolIds(doc, codeLabel)
  {
    var tables := doc.tables;
    var schoolTable: Option<nat> := None;
    var codeIndex: Option<nat> := None;
    var t := 0;
    while t < |tables|
      invariant t <= |tables| && schoolTable.None? && codeIndex.None?
      invariant CodeColumn(tables, codeLabel) == CodeColumnFrom(tables, codeLabel, t)
    {
      var headers := tables[t].headerCells;
      if |headers| == 0 {
        t := t + 1;
        continue;
      }
      var i := 0;
      while i < |headers|
        invariant i <= |headers| && schoolTable.None? && codeIndex.None?
        invariant HeaderFrom(headers, codeLabel, 0) == HeaderFrom(headers, codeLabel, i)
      {
        if IsCodeHeader(headers[i], codeLabel) {
          schoolTable := Some(t);
          codeIndex := Some(i);
          assert CodeColumnFrom(tables, codeLabel, t) == Some((t, i));
          break;
        }
        i := i + 1;
      }
      if schoolTable.Some? {
        break;
      }
      t := t + 1;
    }
    if schoolTable.None? || codeIndex.None? {
      return [];
    }
    ids := CollectCodes(tables[schoolTable.value].rows, codeIndex.value);
  }

  /** The second loop of `_extract_school_ids`: each `tbody` row with more than `index`
      cells and a non-empty stripped cell there appends that cell's text. */
  method CollectCodes(rows: seq<Row>, index: nat) returns (ids: seq<string>)
    ensures ids == Codes(rows, index)
  {
    ids := [];
    for k := 0 to |rows|
      invariant ids == Codes(rows[..k], index)
    {
      var row := rows[k];
      if row.inBody && |row.cells| > index {
        var code := StrippedTextOf(row.cells[index]);
        if code != "" {
          ids := ids + [code];
        }
      }
      assert rows[..k + 1][..k] == rows[..k];
    }
    assert rows[..|rows|] == rows;
  }

  /** `run`: the search request inside `async with self`, then the extraction. A failed
      request is raised again, after the session is closed; it is not turned into `[]`. */
  method Run(scraper: Scraper, net: Network, render: string -> Document, codeLabel: string)
    returns (r: Result<seq<string>, RequestError>)
    modifies scraper
    ensures fresh(scraper.session) && scraper.session.closed
    ensures var t := Retry(net(SearchRequest()), false, 0, scraper.config.retryAttempts);
      && scraper.slept == old(scraper.slept) + Sleeps(t.sleeps, scraper.config.retryDelay)
      && match t.result
        case Success(body) => r == Success(SchoolIds(render(body), codeLabel))
        case Failure(e) => r == Failure(e)
  {
    scraper.Enter();
    var content, _ := scraper.MakeRequest(net, SearchRequest());
    if content.Failure? {
      scraper.Exit();
      return Failure(content.error);
    }
    var ids := ExtractSchoolIds(render(content.value), codeLabel);
    scraper.Exit();
    r := Success(ids);
  }

  /** The scenario of a results page whose table has the code column first, with two
      data rows: both codes, in row order. */
  lemma TwoRowsScenario(codeLabel: string, a: string, b: string)
    requires IsStripped(codeLabel) && IsStripped(a) && IsStripped(b) && a != "" && b != ""
    ensures
      var rows := [Row([[a], ["A"]], true), Row([[b], ["B"]], true)];
      var doc := Document(map[], {}, [Element([], map[], [[codeLabel], ["Provincia"]], rows)], []);
      SchoolIds(doc, codeLabel) == [a, b]
  {
    var rows := [Row([[a], ["A"]], true), Row([[b], ["B"]], true)];
    var tables := [Element([], map[], [[codeLabel], ["Provincia"]], rows)];
    StrippedSingle(codeLabel);
    assert StartsWith(codeLabel, codeLabel);
    assert IsCodeHeader([codeLabel], codeLabel);
    assert HeaderFrom(tables[0].headerCells, codeLabel, 0) == Some(0);
    assert CodeColumn(tables, codeLabel) == Some((0, 0));
    StrippedSingle(a);
    StrippedSingle(b);
    assert rows[..1] == [rows[0]];
    assert rows[..1][..0] == [];
    assert Codes(rows[..1], 0) == [a];
  }

  /** The stripped text of one stripped text node is that text. */
  lemma StrippedSingle(s: string)
    requires IsStripped(s)
    ensures StrippedTextOf([s]) == s
  {
    StripStripped(s);
    assert [s][1..] == [];
  }
}
