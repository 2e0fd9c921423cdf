/** The detail-page parser (src/parsers/details_parser.py): three sections of labelled
    scalar fields, the services table, the imparted-studies table, and `parse_all`, which
    turns a page without a school code into a fixed sentinel record. */
module DetailsParser {
  import opened Wrappers
  import opened Text
  import opened Html
  import opened BaseParser
  import opened Records

  /** The selector `parse_basic_info`, `parse_location_info` and `parse_classification_info`
      use for each key: the span (for the website, the link) inside the column div whose
      text contains the field's caption. */
  function SelectorOf(key: string): string {
    if key == "id" then "div.col-md-6:-soup-contains(\"Código de centro:\") span"
    else if key == "name" then "div.col-md-6:-soup-contains(\"Denominación específica:\") span"
    else if key == "phone" then "div.col-md-6:-soup-contains(\"Teléfono:\") span"
    else if key == "fax" then "div.col-md-6:-soup-contains(\"Fax:\") span"
    else if key == "email" then "div.col-md-6:-soup-contains(\"Correo electrónico:\") span"
    else if key == "website" then "div.col-md-6:-soup-contains(\"Página Web del centro:\") a"
    else if key == "autonomous_community" then "div.col-md-6:-soup-contains(\"Autonomía:\") span"
    else if key == "province" then "div.col-md-6:-soup-contains(\"Provincia:\") span"
    else if key == "country" then "div.col-md-6:-soup-contains(\"País:\") span"
    else if key == "region" then "div.col-md-6:-soup-contains(\"Comarca:\") span"
    else if key == "sub_region" then "div.col-md-6:-soup-contains(\"Sub.Provincial / Isla:\") span"
    else if key == "municipality" then "div.col-md-6:-soup-contains(\"Municipio:\") span"
    else if key == "locality" then "div.col-md-6:-soup-contains(\"Localidad:\") span"
    else if key == "address" then "div.col-md-6:-soup-contains(\"Domicilio:\") span"
    else if key == "postal_code" then "div.col-md-6:-soup-contains(\"Código postal:\") span"
    else if key == "nature" then "div.col-md-6:-soup-contains(\"Naturaleza:\") span"
    else if key == "is_concerted" then "div.col-md-6:-soup-contains(\"Concertado:\") span"
    else if key == "center_type" then "div.col-md-6:-soup-contains(\"Tipo de centro:\") span"
    else "div.col-md-6:-soup-contains(\"Denominación genérica:\") span"
  }

  const BasicKeys: set<string> := {"id", "name", "phone", "fax", "email", "website"}
  const LocationKeys: set<string> := {"autonomous_community", "province", "country", "region",
    "sub_region", "municipality", "locality", "address", "postal_code"}
  const ClassificationKeys: set<string> := {"nature", "is_concerted", "center_type", "generic_name"}

  const ServicesHeading := "Servicios complementarios"
  const StudiesHeading := "Enseñanzas impartidas"

  predicate AllStripped(m: map<string, string>) {
    forall k :: k in m ==> IsStripped(m[k])
  }

  /** What the page shows for a field: the stripped text of the first element its selector
      matches, or "" when nothing matches. */
  function FieldText(doc: Document, key: string): string {
    match FirstMatch(doc, SelectorOf(key))
    case None => ""
    case Some(e) => Strip(TextOf(e.text))
  }

  /** A dict literal of `_extract_text(selector)` calls, one per key (default ""): a key
      whose selector matches gets the stripped text of the first match, any other key "". */
  function Section(doc: Document, keys: set<string>): (r: map<string, string>)
    ensures r.Keys == keys
    ensures AllStripped(r)
    ensures forall k :: k in r && FirstMatch(doc, SelectorOf(k)).Some? ==>
              r[k] == Strip(TextOf(FirstMatch(doc, SelectorOf(k)).value.text))
    ensures forall k :: k in r && FirstMatch(doc, SelectorOf(k)).None? ==> r[k] == ""
    ensures forall k :: k in r ==> r[k] == FieldText(doc, k)
  {
    map k | k in keys :: ExtractText(doc, SelectorOf(k), "")
  }

  /** The school code: the stripped text under the "Código de centro:" label, or "". */
  function SchoolCode(doc: Document): (r: string)
    ensures IsStripped(r)
    ensures FirstMatch(doc, "div.col-md-6:-soup-contains(\"Código de centro:\") span").None? ==> r == ""
    ensures FirstMatch(doc, "div.col-md-6:-soup-contains(\"Código de centro:\") span").Some? ==>
              r == Strip(TextOf(FirstMatch(doc, "div.col-md-6:-soup-contains(\"Código de centro:\") span").value.text))
    ensures r == FieldText(doc, "id")
  {
    ExtractText(doc, SelectorOf("id"), "")
  }

  /** `parse_basic_info`: exactly the six keys, each the page's stripped text for that field
      ("" when its label is absent), so the school code under "id". Its `except` branch
      cannot be reached: the helper it calls never raises. */
  function ParseBasicInfo(doc: Document): (r: map<string, string>)
    ensures r.Keys == BasicKeys && AllStripped(r)
    ensures forall k :: k in r ==> r[k] == FieldText(doc, k)
    ensures r["id"] == SchoolCode(doc)
  {
    Section(doc, BasicKeys)
  }

  /** `parse_location_info`: exactly the nine keys, each the page's stripped text for it. */
  function ParseLocationInfo(doc: Document): (r: map<string, string>)
    ensures r.Keys == LocationKeys && AllStripped(r)
    ensures forall k :: k in r ==> r[k] == FieldText(doc, k)
  {
    Section(doc, LocationKeys)
  }

  /** `parse_classification_info`: exactly the four keys, each the page's stripped text for it. */
  function ParseClassificationInfo(doc: Document): (r: map<string, string>)
    ensures r.Keys == ClassificationKeys && AllStripped(r)
    ensures forall k :: k in r ==> r[k] == FieldText(doc, k)
  {
    Section(doc, ClassificationKeys)
  }

  /** A field whose label the page lacks comes out as "" (as the region does on a page
      without a "Comarca:" label). */
  lemma AbsentRegionIsEmpty(doc: Document)
    requires FirstMatch(doc, "div.col-md-6:-soup-contains(\"Comarca:\") span").None?
    ensures ParseLocationInfo(doc)["region"] == ""
  {
    assert SelectorOf("region") == "div.col-md-6:-soup-contains(\"Comarca:\") span";
  }

  /** The service a row contributes: the get_text(strip=True) of its first td, if non-empty. */
  function ServiceOfRow(row: Row): Option<string> {
    if |row.cells| > 0 && StrippedTextOf(row.cells[0]) != "" then Some(StrippedTextOf(row.cells[0])) else None
  }

  /** The services of all rows, in row order. */
  function ServicesOfRows(rows: seq<Row>): (r: seq<string>)
    ensures |r| <= |rows|
    ensures forall s :: s in r ==> s != ""
    decreases |rows|
  {
    if rows == [] then []
    else
      var n := |rows| - 1;
      ServicesOfRows(rows[..n]) + (match ServiceOfRow(rows[n]) case Some(s) => [s] case None => [])
  }

  /** ServicesOfRows keeps row order: it distributes over concatenation. */
  lemma {:induction false} ServicesOfRowsAppend(a: seq<Row>, b: seq<Row>)
    ensures ServicesOfRows(a + b) == ServicesOfRows(a) + ServicesOfRows(b)
    decreases |b|
  {
    if b == [] {
      assert a + b == a;
    } else {
      var n := |b| - 1;
      assert (a + b)[..|a + b| - 1] == a + b[..n];
      ServicesOfRowsAppend(a, b[..n]);
    }
  }

  /** A service is listed exactly when some row's first td carries it. */
  lemma {:induction false} ServicesOfRowsMembers(rows: seq<Row>, s: string)
    ensures s in ServicesOfRows(rows) <==> exists i :: 0 <= i < |rows| && ServiceOfRow(rows[i]) == Some(s)
    decreases |rows|
  {
    if rows != [] {
      var n := |rows| - 1;
      var prefix := rows[..n];
      ServicesOfRowsMembers(prefix, s);
      var last := match ServiceOfRow(rows[n]) case Some(x) => [x] case None => [];
      assert ServicesOfRows(rows) == ServicesOfRows(prefix) + last;
      if s in ServicesOfRows(rows) {
        if s in ServicesOfRows(prefix) {
          var i :| 0 <= i < n && ServiceOfRow(prefix[i]) == Some(s);
          assert rows[i] == prefix[i];
        } else {
          assert ServiceOfRow(rows[n]) == Some(s);
        }
      }
      if exists i :: 0 <= i < |rows| && ServiceOfRow(rows[i]) == Some(s) {
        var i :| 0 <= i < |rows| && ServiceOfRow(rows[i]) == Some(s);
        if i < n {
          assert prefix[i] == rows[i];
        } else {
          assert i == n && ServiceOfRow(rows[n]) == Some(s);
          assert last == [s];
        }
      }
    }
  }

  /** What `parse_services` returns: [] when the heading, its div or the table is missing. */
  function Services(doc: Document): seq<string> {
    match SectionTable(doc, ServicesHeading)
    case None => []
    case Some(table) => ServicesOfRows(table.rows)
  }

  /** `parse_services`: one entry per row whose first td has non-empty text, in order. */
  method ParseServices(doc: Document) returns (services: seq<string>)
    ensures services == Services(doc)
    ensures SectionTable(doc, ServicesHeading).None? ==> services == []
  {
    var table := SectionTable(doc, ServicesHeading);
    if table.None? {
      return [];
    }
    var rows := table.value.rows;
    services := [];
    for i := 0 to |rows|
      invariant services == ServicesOfRows(rows[..i])
    {
      assert rows[..i + 1][..i] == rows[..i];
      if |rows[i].cells| > 0 {
        var service := StrippedTextOf(rows[i].cells[0]);
        if service != "" {
          services := services + [service];
        }
      }
    }
    assert rows[..|rows|] == rows;
  }

  /** The study a row contributes: cells 0-3 stripped, when it has at least four td and
      its name cell is not blank; any further cells are ignored. */
  function StudyOfRow(row: Row): (r: Option<Study>)
    ensures r.Some? <==> |row.cells| >= 4 && Strip(TextOf(row.cells[2])) != ""
    ensures r.Some? ==> r.value == Study(Strip(TextOf(row.cells[0])), Strip(TextOf(row.cells[1])),
                                         Strip(TextOf(row.cells[2])), Strip(TextOf(row.cells[3])))
  {
    if |row.cells| >= 4 then
      var study := Study(Strip(TextOf(row.cells[0])), Strip(TextOf(row.cells[1])),
                         Strip(TextOf(row.cells[2])), Strip(TextOf(row.cells[3])));
      if study.name != "" then Some(study) else None
    else None
  }

  /** The studies of all rows, in row order. */
  function StudiesOfRows(rows: seq<Row>): (r: seq<Study>)
    ensures |r| <= |rows|
    ensures forall s :: s in r ==> s.name != ""
    decreases |rows|
  {
    if rows == [] then []
    else
      var n := |rows| - 1;
      StudiesOfRows(rows[..n]) + (match StudyOfRow(rows[n]) case Some(s) => [s] case None => [])
  }

  /** StudiesOfRows keeps row order: it distributes over concatenation. */
  lemma {:induction false} StudiesOfRowsAppend(a: seq<Row>, b: seq<Row>)
    ensures StudiesOfRows(a + b) == StudiesOfRows(a) + StudiesOfRows(b)
    decreases |b|
  {
    if b == [] {
      assert a + b == a;
    } else {
      var n := |b| - 1;
      assert (a + b)[..|a + b| - 1] == a + b[..n];
      StudiesOfRowsAppend(a, b[..n]);
    }
  }

  /** What `parse_imparted_studies` returns: [] when the heading, its div or the table is missing. */
  function ImpartedStudies(doc: Document): seq<Study> {
    match SectionTable(doc, StudiesHeading)
    case None => []
    case Some(table) => StudiesOfRows(table.rows)
  }

  /** `parse_imparted_studies`: one study per qualifying row, in order. */
  method ParseImpartedStudies(doc: Document) returns (studies: seq<Study>)
    ensures studies == ImpartedStudies(doc)
    ensures SectionTable(doc, StudiesHeading).None? ==> studies == []
  {
    var table := SectionTable(doc, StudiesHeading);
    if table.None? {
      return [];
    }
    var rows := table.value.rows;
    studies := [];
    for i := 0 to |rows|
      invariant studies == StudiesOfRows(rows[..i])
    {
      assert rows[..i + 1][..i] == rows[..i];
      var cells := rows[i].cells;
      if |cells| >= 4 {
        var study := Study(Strip(TextOf(cells[0])), Strip(TextOf(cells[1])),
                           Strip(TextOf(cells[2])), Strip(TextOf(cells[3])));
        if study.name != "" {
          studies := studies + [study];
        }
      }
    }
    assert rows[..|rows|] == rows;
  }

  /** The record `parse_all` returns when the school code is missing or empty. */
  const Sentinel: SchoolData :=
    map["id" := Null, "name" := Null, "services" := StrList([]), "imparted_studies" := Studies([])]

  const RecordKeys: set<string> := ScalarKeys + {"services", "imparted_studies"}

  /** Sections whose values are all stripped strings merge into such a record. */
  lemma MergedScalars(a: map<string, string>, b: map<string, string>, c: map<string, string>)
    requires AllStripped(a) && AllStripped(b) && AllStripped(c)
    ensures (Lift(a) + Lift(b) + Lift(c)).Keys == a.Keys + b.Keys + c.Keys
    ensures StrippedScalars(Lift(a) + Lift(b) + Lift(c))
  {
    var m := Lift(a) + Lift(b) + Lift(c);
    forall k | k in m
      ensures m[k].Str? && IsStripped(m[k].text)
    {
      if k in c {
        assert m[k] == Str(c[k]);
      } else if k in b {
        assert m[k] == Str(b[k]);
      } else {
        assert m[k] == Str(a[k]);
      }
    }
  }

  predicate StrippedScalars(r: SchoolData) {
    forall k :: k in r ==> r[k].Str? && IsStripped(r[k].text)
  }

  /** Sections that each give every key its field text merge into a record that does too,
      whichever section a key comes from. */
  lemma MergedFields(doc: Document, a: map<string, string>, b: map<string, string>, c: map<string, string>)
    requires forall k :: k in a ==> a[k] == FieldText(doc, k)
    requires forall k :: k in b ==> b[k] == FieldText(doc, k)
    requires forall k :: k in c ==> c[k] == FieldText(doc, k)
    ensures forall k :: k in Lift(a) + Lift(b) + Lift(c) ==> (Lift(a) + Lift(b) + Lift(c))[k] == Str(FieldText(doc, k))
  {
    var m := Lift(a) + Lift(b) + Lift(c);
    forall k | k in m
      ensures m[k] == Str(FieldText(doc, k))
    {
      if k in c {
        assert m[k] == Str(c[k]);
      } else if k in b {
        assert m[k] == Str(b[k]);
      } else {
        assert m[k] == Str(a[k]);
      }
    }
  }

  /** `{**basic_info, **location_info, **classification_info}`: the 19 scalar fields. */
  function Scalars(doc: Document): (r: SchoolData)
    ensures r.Keys == ScalarKeys
    ensures StrippedScalars(r)
  {
    var basic := ParseBasicInfo(doc);
    var location := ParseLocationInfo(doc);
    var classification := ParseClassificationInfo(doc);
    MergedScalars(basic, location, classification);
    Lift(basic) + Lift(location) + Lift(classification)
  }

  /** Each merged scalar is the page's stripped text for that field. */
  lemma ScalarsFields(doc: Document)
    ensures forall k :: k in Scalars(doc) ==> Scalars(doc)[k] == Str(FieldText(doc, k))
  {
    MergedFields(doc, ParseBasicInfo(doc), ParseLocationInfo(doc), ParseClassificationInfo(doc));
  }

  /** `parse_all`: the three scalar sections, the services and the studies merged into one
      record, or the sentinel when the basic section yields no school code. */
  function ParseAll(doc: Document): SchoolData {
    if SchoolCode(doc) == "" then Sentinel
    else Scalars(doc) + map["services" := StrList(Services(doc)), "imparted_studies" := Studies(ImpartedStudies(doc))]
  }

  /** A page without a school code yields exactly the sentinel record. */
  lemma ParseAllWithoutCode(doc: Document)
    requires SchoolCode(doc) == ""
    ensures ParseAll(doc) == Sentinel
    ensures ParseAll(doc)["id"] == Null && ParseAll(doc)["services"] == StrList([])
  {
  }

  const ScalarKeys: set<string> := BasicKeys + LocationKeys + ClassificationKeys

  /** A page with a school code yields all 21 keys, the code itself as "id", every scalar
      as a stripped string, and the two lists. */
  lemma ParseAllWithCode(doc: Document)
    requires SchoolCode(doc) != ""
    ensures ParseAll(doc).Keys == RecordKeys && |RecordKeys| == 21
    ensures ParseAll(doc)["id"] == Str(SchoolCode(doc))
    ensures ParseAll(doc)["services"] == StrList(Services(doc))
    ensures ParseAll(doc)["imparted_studies"] == Studies(ImpartedStudies(doc))
    ensures forall k :: k in ScalarKeys ==> ParseAll(doc)[k].Str? && IsStripped(ParseAll(doc)[k].text)
  {
    RecordKeysCount();
    ListKeysDisjoint();
    ScalarsId(doc);
    WithLists(Scalars(doc), StrList(Services(doc)), Studies(ImpartedStudies(doc)));
  }

  /** On a page with a school code, every scalar of the record is the page's stripped text
      for that field ("" for a label the page lacks). */
  lemma ParseAllFields(doc: Document)
    requires SchoolCode(doc) != ""
    ensures forall k :: k in ScalarKeys ==> k in ParseAll(doc) && ParseAll(doc)[k] == Str(FieldText(doc, k))
  {
    ListKeysDisjoint();
    ScalarsFields(doc);
    WithLists(Scalars(doc), StrList(Services(doc)), Studies(ImpartedStudies(doc)));
  }

  /** Adding the two list entries to a record without them keeps every other entry. */
  lemma WithLists(m: SchoolData, services: Value, studies: Value)
    requires "services" !in m && "imparted_studies" !in m
    ensures (m + map["services" := services, "imparted_studies" := studies]).Keys
            == m.Keys + {"services", "imparted_studies"}
    ensures forall k :: k in m ==> (m + map["services" := services, "imparted_studies" := studies])[k] == m[k]
    ensures (m + map["services" := services, "imparted_studies" := studies])["services"] == services
    ensures (m + map["services" := services, "imparted_studies" := studies])["imparted_studies"] == studies
  {
  }

  /** A key only the first section has keeps that section's value in the merge. */
  lemma MergedFirstOnly(a: map<string, string>, b: map<string, string>, c: map<string, string>, k: string)
    requires k in a && k !in b && k !in c
    ensures (Lift(a) + Lift(b) + Lift(c))[k] == Str(a[k])
  {
  }

  /** The merged scalars carry the school code under "id": no later section has that key. */
  lemma ScalarsId(doc: Document)
    ensures Scalars(doc)["id"] == Str(SchoolCode(doc))
  {
    IdOnlyInBasic();
    var basic := ParseBasicInfo(doc);
    var location := ParseLocationInfo(doc);
    var classification := ParseClassificationInfo(doc);
    MergedFirstOnly(basic, location, classification, "id");
  }

  lemma IdOnlyInBasic()
    ensures "id" in BasicKeys && "id" !in LocationKeys && "id" !in ClassificationKeys
  {
  }

  // The facts about the key sets, each proved on its own: together they are costly.
  lemma BasicKeysCount() ensures |BasicKeys| == 6 {}
  lemma LocationKeysCount() ensures |LocationKeys| == 9 {}
  lemma ClassificationKeysCount() ensures |ClassificationKeys| == 4 {}
  lemma BasicLocationDisjoint() ensures BasicKeys !! LocationKeys {}
  lemma ScalarSectionsDisjoint() ensures (BasicKeys + LocationKeys) !! ClassificationKeys {}
  lemma ListKeysDisjoint() ensures ScalarKeys !! {"services", "imparted_studies"} {}

  /** The record has 6 + 9 + 4 + 2 distinct keys. */
  lemma RecordKeysCount()
    ensures |RecordKeys| == 21
  {
    BasicKeysCount();
    LocationKeysCount();
    ClassificationKeysCount();
    BasicLocationDisjoint();
    ScalarSectionsDisjoint();
    ListKeysDisjoint();
    var lists: set<string> := {"services", "imparted_studies"};
    assert |lists| == 2;
    assert |BasicKeys + LocationKeys| == 15;
    assert |BasicKeys + LocationKeys + ClassificationKeys| == 19;
  }
}
