/** The extraction helpers every parser inherits (src/parsers/base_parser.py). Each one
    catches every exception and falls back to a default, so here each is total and the
    exception paths are the document's rejected selectors, missing keys and list-valued
    attributes. */
module BaseParser {
  import opened Wrappers
  import opened Text
  import opened Html

  /** `select_one(selector)`: the first match, or None for no match or a rejected selector. */
  function FirstMatch(doc: Document, selector: string): (r: Option<Element>)
    ensures r.Some? <==> Select(doc, selector).Some? && Select(doc, selector).value != []
    ensures r.Some? ==> r.value == Select(doc, selector).value[0]
  {
    match Select(doc, selector)
    case None => None
    case Some(es) => if es == [] then None else Some(es[0])
  }

  /** `_extract_text`: the stripped text of the first match, else `default`. */
  function ExtractText(doc: Document, selector: string, default: string): (r: string)
    ensures FirstMatch(doc, selector).None? ==> r == default
    ensures FirstMatch(doc, selector).Some? ==>
              r == Strip(TextOf(FirstMatch(doc, selector).value.text))
    ensures IsStripped(default) ==> IsStripped(r)
  {
    match FirstMatch(doc, selector)
    case None => default
    case Some(e) => Strip(TextOf(e.text))
  }

  /** `_extract_attribute`: the stripped attribute value of the first match; `default` when
      nothing matches, when the attribute is absent (KeyError) or when it is list-valued
      (a list has no strip). */
  function ExtractAttribute(doc: Document, selector: string, attribute: string, default: string): (r: string)
    ensures r != default ==>
              && FirstMatch(doc, selector).Some?
              && attribute in FirstMatch(doc, selector).value.attrs
              && FirstMatch(doc, selector).value.attrs[attribute].Single?
              && r == Strip(FirstMatch(doc, selector).value.attrs[attribute].text)
    ensures (FirstMatch(doc, selector).None? || attribute !in FirstMatch(doc, selector).value.attrs) ==> r == default
    ensures FirstMatch(doc, selector).Some? && attribute in FirstMatch(doc, selector).value.attrs ==>
              match FirstMatch(doc, selector).value.attrs[attribute]
              case Single(v) => r == Strip(v)
              case Multi(_) => r == default
  {
    match FirstMatch(doc, selector)
    case None => default
    case Some(e) =>
      if attribute !in e.attrs then default
      else match e.attrs[attribute]
        case Multi(_) => default
        case Single(v) => Strip(v)
  }

  /** `element.text.strip()` */
  function CleanText(e: Element): (r: string)
    ensures IsStripped(r)
  {
    Strip(TextOf(e.text))
  }

  /** The stripped texts of `es`, in order, leaving out the empty ones. */
  function NonEmptyTexts(es: seq<Element>): (r: seq<string>)
    ensures |r| <= |es|
  {
    if es == [] then []
    else
      var t := CleanText(es[0]);
      (if t != "" then [t] else []) + NonEmptyTexts(es[1..])
  }

  /** NonEmptyTexts keeps document order: it distributes over concatenation. */
  lemma {:induction false} NonEmptyTextsAppend(a: seq<Element>, b: seq<Element>)
    ensures NonEmptyTexts(a + b) == NonEmptyTexts(a) + NonEmptyTexts(b)
    decreases |a|
  {
    if a == [] {
      assert a + b == b;
    } else {
      assert (a + b)[1..] == a[1..] + b;
      NonEmptyTextsAppend(a[1..], b);
    }
  }

  /** A text is extracted exactly when it is the non-empty stripped text of some match;
      every extracted text is stripped. */
  lemma {:induction false} NonEmptyTextsMembers(es: seq<Element>, x: string)
    ensures x in NonEmptyTexts(es) <==> x != "" && exists i :: 0 <= i < |es| && CleanText(es[i]) == x
    ensures x in NonEmptyTexts(es) ==> IsStripped(x)
    decreases |es|
  {
    if es != [] {
      NonEmptyTextsMembers(es[1..], x);
      var t := CleanText(es[0]);
      assert NonEmptyTexts(es) == (if t != "" then [t] else []) + NonEmptyTexts(es[1..]);
      if x != "" && exists i :: 0 <= i < |es| && CleanText(es[i]) == x {
        var i :| 0 <= i < |es| && CleanText(es[i]) == x;
        if i > 0 {
          assert es[1..][i - 1] == es[i];
        }
      }
      if exists i :: 0 <= i < |es| - 1 && CleanText(es[1..][i]) == x {
        var i :| 0 <= i < |es| - 1 && CleanText(es[1..][i]) == x;
        assert es[i + 1] == es[1..][i];
      }
    }
  }

  /** `_extract_all_text`: the non-empty stripped texts of all matches, in document order;
      [] when the selector is rejected. */
  function ExtractAllText(doc: Document, selector: string): (r: seq<string>)
    ensures Select(doc, selector).None? ==> r == []
    ensures Select(doc, selector).Some? ==> r == NonEmptyTexts(Select(doc, selector).value)
  {
    match Select(doc, selector)
    case None => []
    case Some(es) => NonEmptyTexts(es)
  }

  /** A header key: the th text stripped, lower-cased, with spaces replaced by `_`. */
  function NormalizeHeader(cell: Fragments): string {
    ReplaceChar(Lower(Strip(TextOf(cell))), ' ', '_')
  }

  /** A header key never contains a space, and is as long as the stripped th text. */
  lemma NormalizeHeaderNoSpace(cell: Fragments)
    ensures ' ' !in NormalizeHeader(cell)
    ensures |NormalizeHeader(cell)| == |Strip(TextOf(cell))|
  {
    var r := NormalizeHeader(cell);
    assert forall i :: 0 <= i < |r| ==> r[i] != ' ';
  }

  /** The header keys of the th cells, one per cell, in order (duplicates kept). */
  function HeaderKeysOf(cells: seq<Fragments>): (r: seq<string>)
    ensures |r| == |cells|
    decreases |cells|
  {
    if cells == [] then [] else HeaderKeysOf(cells[..|cells| - 1]) + [NormalizeHeader(cells[|cells| - 1])]
  }

  /** No header key contains a space. */
  lemma {:induction false} HeaderKeysNoSpace(cells: seq<Fragments>)
    ensures forall k :: k in HeaderKeysOf(cells) ==> ' ' !in k
    decreases |cells|
  {
    if cells != [] {
      HeaderKeysNoSpace(cells[..|cells| - 1]);
      NormalizeHeaderNoSpace(cells[|cells| - 1]);
    }
  }

  /** A row is emitted when it has a td and exactly as many td as there are headers. */
  predicate Emits(headers: seq<string>, row: Row) {
    |row.cells| > 0 && |row.cells| == |headers|
  }

  /** `cell.text.strip()` of one td. */
  function CellText(cell: Fragments): string {
    Strip(TextOf(cell))
  }

  /** `f` applied to each element, in order. */
  function MapSeq<A, B>(f: A -> B, xs: seq<A>): (r: seq<B>)
    ensures |r| == |xs|
    decreases |xs|
  {
    if xs == [] then [] else MapSeq(f, xs[..|xs| - 1]) + [f(xs[|xs| - 1])]
  }

  lemma {:induction false} MapSeqAt<A, B>(f: A -> B, xs: seq<A>, j: nat)
    requires j < |xs|
    ensures MapSeq(f, xs)[j] == f(xs[j])
    decreases |xs|
  {
    var n := |xs| - 1;
    if j < n {
      MapSeqAt(f, xs[..n], j);
      assert xs[..n][j] == xs[j];
    }
  }

  /** The stripped texts of the cells, in order. */
  function CellTexts(cells: seq<Fragments>): (r: seq<string>)
    ensures |r| == |cells|
  {
    MapSeq(CellText, cells)
  }

  lemma CellTextsAt(cells: seq<Fragments>, j: nat)
    requires j < |cells|
    ensures CellTexts(cells)[j] == CellText(cells[j])
  {
    MapSeqAt(CellText, cells, j);
  }

  /** The dict built by `for key, value in zip(keys, values)`: a later key overwrites. */
  function Zip(keys: seq<string>, values: seq<string>): map<string, string>
    requires |keys| == |values|
    decreases |keys|
  {
    if keys == [] then map[]
    else
      var n := |keys| - 1;
      Zip(keys[..n], values[..n])[keys[n] := values[n]]
  }

  lemma {:induction false} ZipKeys(keys: seq<string>, values: seq<string>)
    requires |keys| == |values|
    ensures Zip(keys, values).Keys == set k | k in keys
    decreases |keys|
  {
    if keys != [] {
      var n := |keys| - 1;
      ZipKeys(keys[..n], values[..n]);
      assert keys == keys[..n] + [keys[n]];
    }
  }

  lemma {:induction false} ZipLastWins(keys: seq<string>, values: seq<string>, j: nat)
    requires |keys| == |values| && j < |keys|
    requires forall k :: j < k < |keys| ==> keys[k] != keys[j]
    ensures keys[j] in Zip(keys, values) && Zip(keys, values)[keys[j]] == values[j]
    decreases |keys|
  {
    var n := |keys| - 1;
    if j < n {
      ZipLastWins(keys[..n], values[..n], j);
    }
  }

  /** The dict of one row: `row_data[header] = cell.text.strip()` along `zip(headers, cells)`. */
  function RowDict(headers: seq<string>, cells: seq<Fragments>): map<string, string>
    requires |headers| == |cells|
  {
    Zip(headers, CellTexts(cells))
  }

  /** The keys of a row dict are exactly the headers. */
  lemma RowDictKeys(headers: seq<string>, cells: seq<Fragments>)
    requires |headers| == |cells|
    ensures RowDict(headers, cells).Keys == set h | h in headers
  {
    ZipKeys(headers, CellTexts(cells));
  }

  /** Under a header that occurs more than once, the cell of its last occurrence wins. */
  lemma RowDictLastWins(headers: seq<string>, cells: seq<Fragments>, j: nat)
    requires |headers| == |cells| && j < |headers|
    requires forall k :: j < k < |headers| ==> headers[k] != headers[j]
    ensures headers[j] in RowDict(headers, cells)
    ensures RowDict(headers, cells)[headers[j]] == CellText(cells[j])
  {
    ZipLastWins(headers, CellTexts(cells), j);
    CellTextsAt(cells, j);
  }

  /** The rows `_extract_table_data` emits from `trs`, in order. */
  function RowsOf(headers: seq<string>, trs: seq<Row>): seq<map<string, string>>
    decreases |trs|
  {
    if trs == [] then []
    else
      var n := |trs| - 1;
      RowsOf(headers, trs[..n])
        + (if Emits(headers, trs[n]) then [RowDict(headers, trs[n].cells)] else [])
  }

  /** RowsOf keeps row order: it distributes over concatenation of the rows. */
  lemma {:induction false} RowsOfAppend(headers: seq<string>, a: seq<Row>, b: seq<Row>)
    ensures RowsOf(headers, a + b) == RowsOf(headers, a) + RowsOf(headers, b)
    decreases |b|
  {
    if b == [] {
      assert a + b == a;
    } else {
      var n := |b| - 1;
      assert (a + b)[..|a + b| - 1] == a + b[..n];
      RowsOfAppend(headers, a, b[..n]);
    }
  }

  /** One row yields one dict exactly when it qualifies, and nothing otherwise. */
  lemma RowsOfSingle(headers: seq<string>, tr: Row)
    ensures RowsOf(headers, [tr]) == if Emits(headers, tr) then [RowDict(headers, tr.cells)] else []
  {
    assert [tr][..0] == [];
  }

  /** With no headers no row qualifies, so nothing is emitted. */
  lemma {:induction false} RowsOfNoHeaders(trs: seq<Row>)
    ensures RowsOf([], trs) == []
    decreases |trs|
  {
    if trs != [] {
      RowsOfNoHeaders(trs[..|trs| - 1]);
    }
  }

  /** The rows the Python function returns for `table_selector`. */
  function TableData(doc: Document, tableSelector: string): seq<map<string, string>> {
    match FirstMatch(doc, tableSelector)
    case None => []
    case Some(table) => RowsOf(HeaderKeysOf(table.headerCells), table.rows)
  }

  /** No key of an extracted row contains a space. */
  lemma {:induction false} TableDataKeysHaveNoSpace(doc: Document, tableSelector: string)
    ensures forall row, k :: row in TableData(doc, tableSelector) && k in row ==> ' ' !in k
  {
    match FirstMatch(doc, tableSelector)
    case None =>
    case Some(table) =>
      var h := HeaderKeysOf(table.headerCells);
      HeaderKeysNoSpace(table.headerCells);
      RowsKeysFromHeaders(h, table.rows);
  }

  lemma {:induction false} RowsKeysFromHeaders(headers: seq<string>, trs: seq<Row>)
    ensures forall row :: row in RowsOf(headers, trs) ==> row.Keys <= set h | h in headers
    decreases |trs|
  {
    if trs != [] {
      var n := |trs| - 1;
      RowsKeysFromHeaders(headers, trs[..n]);
      if Emits(headers, trs[n]) {
        RowDictKeys(headers, trs[n].cells);
      }
    }
  }

  /** The dict for one qualifying row: the inner `zip` loop. */
  method BuildRowDict(headers: seq<string>, cells: seq<Fragments>) returns (rowData: map<string, string>)
    requires |headers| == |cells|
    ensures rowData == RowDict(headers, cells)
  {
    rowData := map[];
    ghost var texts := CellTexts(cells);
    for k := 0 to |headers|
      invariant rowData == Zip(headers[..k], texts[..k])
    {
      assert headers[..k + 1][..k] == headers[..k] && texts[..k + 1][..k] == texts[..k];
      CellTextsAt(cells, k);
      rowData := rowData[headers[k] := CellText(cells[k])];
    }
    assert headers[..|headers|] == headers && texts[..|texts|] == texts;
  }

  /** The header loop: one normalized key appended per th. */
  method CollectHeaders(table: Element) returns (headers: seq<string>)
    ensures headers == HeaderKeysOf(table.headerCells)
  {
    headers := [];
    var cells := table.headerCells;
    for i := 0 to |cells|
      invariant headers == HeaderKeysOf(cells[..i])
    {
      assert cells[..i + 1][..i] == cells[..i];
      headers := headers + [NormalizeHeader(cells[i])];
    }
    assert cells[..|cells|] == cells;
  }

  /** The outer loop over the tr elements: one dict per qualifying row, in order. */
  method CollectRows(headers: seq<string>, trs: seq<Row>) returns (rows: seq<map<string, string>>)
    ensures rows == RowsOf(headers, trs)
  {
    rows := [];
    for j := 0 to |trs|
      invariant rows == RowsOf(headers, trs[..j])
    {
      var cells := trs[j].cells;
      assert trs[..j + 1][..j] == trs[..j];
      if |cells| > 0 && |cells| == |headers| {
        var rowData := BuildRowDict(headers, cells);
        rows := rows + [rowData];
      }
    }
    assert trs[..|trs|] == trs;
  }

  /** `_extract_table_data`: headers from every th, then one dict per qualifying tr; []
      when no table matches. */
  method ExtractTableData(doc: Document, tableSelector: string) returns (rows: seq<map<string, string>>)
    ensures rows == TableData(doc, tableSelector)
  {
    var found := FirstMatch(doc, tableSelector);
    if found.None? {
      return [];
    }
    var table := found.value;
    var headers := CollectHeaders(table);
    rows := CollectRows(headers, table.rows);
  }
}
