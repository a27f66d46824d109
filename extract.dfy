/**
 * The extraction rules both scrapers share: the stub built from a listing card
 * (async_scraper.py:45-60, scraper.py:67-80), the barcode, description and image
 * read from a detail page (async_scraper.py:78-100, scraper.py:96-124), and the
 * dict `update` that merges the two.
 */
module Extract {
  import opened Wrappers
  import opened Text
  import opened Pages

  /** The eight fields of a stub. */
  const StubKeys: set<Field> := {Url, Name, Price, Stock, Category, Id, Brand, Sku}

  /** The three fields a detail page adds. */
  const DetailKeys: set<Field> := {Barcode, Description, Image}

  /** The marker a barcode row's label must equal exactly. */
  const BarcodeLabel: string := "BARKOD"

  predicate HasPayloadKeys(p: map<Field, Value>) {
    Name in p && Price in p && Dimension2 in p && Category in p && Id in p && Brand in p
  }

  /** A card every step of the stub construction succeeds on. */
  predicate IsStubCard(card: Card) {
    && card.link.Some?
    && card.link.value.href.Some?
    && card.link.value.payload.Some?
    && HasPayloadKeys(card.link.value.payload.value)
    && card.link.value.payload.value[Category].Str?
  }

  /**
   * The stub of a card, or None where the source raises: no container or anchor,
   * no `href`, an undecodable payload, a missing payload key, or a category that
   * is not a string.
   */
  function ExtractStub(card: Card): (stub: Option<Record>)
    ensures stub.Some? <==> IsStubCard(card)
    ensures stub.Some? ==>
      var p := card.link.value.payload.value;
      && stub.value.Keys == StubKeys
      && stub.value[Url] == Str(card.link.value.href.value)
      && stub.value[Name] == p[Name]
      && stub.value[Price] == p[Price]
      && stub.value[Stock] == p[Dimension2]
      && stub.value[Id] == p[Id]
      && stub.value[Brand] == p[Brand]
      && stub.value[Sku] == Str("")
      && stub.value[Category] == Str(LastSegment(p[Category].s, '>'))
      && '>' !in stub.value[Category].s
  {
    if !IsStubCard(card) then None
    else
      var link := card.link.value;
      var p := link.payload.value;
      Some(map[
        Url := Str(link.href.value),
        Name := p[Name],
        Price := p[Price],
        Stock := p[Dimension2],
        Category := Str(LastSegment(p[Category].s, '>')),
        Id := p[Id],
        Brand := p[Brand],
        Sku := Str("")])
  }

  /**
   * The category of a stub is the end of the card's taxonomy path: the whole
   * path when it has no `>`, otherwise the text after a `>`.
   */
  lemma StubCategory(card: Card)
    requires IsStubCard(card)
    ensures var path := card.link.value.payload.value[Category].s;
      var category := ExtractStub(card).value[Category].s;
      && EndsAfter(category, path, '>')
      && ('>' !in path ==> category == path)
  {
    var path := card.link.value.payload.value[Category].s;
    assert ExtractStub(card).value[Category].s == LastSegment(path, '>');
    LastSegmentIsTail(path, '>');
  }

  /** The taxonomy path "Pet Shop>Dog>Food" yields the category "Food". */
  lemma CategoryExample(path: string, shop: string, dog: string, food: string)
    requires shop == "Pet Shop" && dog == "Dog" && food == "Food"
    requires path == shop + ">" + dog + ">" + food
    ensures LastSegment(path, '>') == "Food"
  {
    assert '>' !in shop && '>' !in dog && '>' !in food;
    var tail := dog + ['>'] + food;
    assert path == shop + ['>'] + tail;
    IndexOfAbsent(food, '>');
    SplitAt(dog, food, '>');
    SplitAt(shop, tail, '>');
    assert Split(path, '>') == [shop, dog, food];
  }

  predicate IsBarcodeRow(row: Row) {
    row.labelText == Some(BarcodeLabel)
  }

  /** The barcode a `BARKOD` row yields: its value cell's text stripped, or "" with no value cell. */
  function RowBarcode(row: Row): (barcode: string)
    ensures row.valueText.None? ==> barcode == ""
    ensures Trimmed(barcode)
  {
    match row.valueText
    case Some(t) => Strip(t)
    case None => ""
  }

  /** The barcode after visiting `rows` in order, starting from `barcode`: stripped if it started so. */
  function BarcodeAfterRows(barcode: string, rows: seq<Row>): (r: string)
    ensures Trimmed(barcode) ==> Trimmed(r)
  {
    if rows == [] then barcode
    else
      var before := BarcodeAfterRows(barcode, rows[..|rows| - 1]);
      if IsBarcodeRow(Last(rows)) then RowBarcode(Last(rows)) else before
  }

  /** The barcode after visiting the rows of every panel in order: stripped if it started so. */
  function BarcodeAfterPanels(barcode: string, panels: seq<Panel>): (r: string)
    ensures Trimmed(barcode) ==> Trimmed(r)
  {
    if panels == [] then barcode
    else BarcodeAfterRows(BarcodeAfterPanels(barcode, panels[..|panels| - 1]), Last(panels).rows)
  }

  /**
   * The description after visiting every panel in order, starting from `description`:
   * the last panel with a description span decides. A description read from a span
   * is its second child, stripped, newlines turned into spaces, so no newline enters.
   */
  function DescriptionAfterPanels(description: string, panels: seq<Panel>): (r: string)
    ensures '\n' !in description ==> '\n' !in r
  {
    if panels == [] then description
    else
      var before := DescriptionAfterPanels(description, panels[..|panels| - 1]);
      if HasDescription(Last(panels)) then PanelDescription(Last(panels)) else before
  }

  predicate HasDescription(panel: Panel) {
    panel.description.Some? && |panel.description.value| >= 2
  }

  function PanelDescription(panel: Panel): string
    requires HasDescription(panel)
  {
    ReplaceNewlines(Strip(panel.description.value[1]))
  }

  /** The rows of all panels, in document order. */
  function AllRows(panels: seq<Panel>): seq<Row> {
    if panels == [] then [] else AllRows(panels[..|panels| - 1]) + Last(panels).rows
  }

  /** The fields a successfully parsed detail page contributes. */
  function Details(dom: DetailDom): (details: Record)
    ensures details.Keys == DetailKeys
    ensures forall k :: k in details ==> details[k].Str?
    ensures '\n' !in details[Description].s
  {
    DescriptionHasNoNewline("", dom.panels);
    map[
      Barcode := Str(BarcodeAfterPanels("", dom.panels)),
      Description := Str(DescriptionAfterPanels("", dom.panels)),
      Image := Str(dom.image.GetOr(""))]
  }

  /**
   * The nested loops over the about panels that both scrapers run
   * (async_scraper.py:82-94, scraper.py:104-119): every `BARKOD` row overwrites
   * the barcode and every description span with a second child overwrites the
   * description, so the last of each wins.
   */
  method ReadAboutPanels(panels: seq<Panel>) returns (barcode: string, description: string)
    ensures barcode == BarcodeAfterPanels("", panels)
    ensures description == DescriptionAfterPanels("", panels)
    ensures '\n' !in description
  {
    barcode, description := "", "";
    var i := 0;
    while i < |panels|
      invariant 0 <= i <= |panels|
      invariant barcode == BarcodeAfterPanels("", panels[..i])
      invariant description == DescriptionAfterPanels("", panels[..i])
    {
      barcode := ReadBarcodeRows(barcode, panels[i].rows);
      if panels[i].description.Some? {
        description := ReadDescriptionSpan(description, panels[i].description.value);
      }
      assert panels[..i + 1][..i] == panels[..i];
      i := i + 1;
    }
    assert panels[..i] == panels;
    DescriptionHasNoNewline("", panels);
  }

  /** The inner loop over one panel's rows. */
  method ReadBarcodeRows(start: string, rows: seq<Row>) returns (barcode: string)
    ensures barcode == BarcodeAfterRows(start, rows)
  {
    barcode := start;
    var j := 0;
    while j < |rows|
      invariant 0 <= j <= |rows|
      invariant barcode == BarcodeAfterRows(start, rows[..j])
    {
      var row := rows[j];
      assert rows[..j + 1][..j] == rows[..j];
      if IsBarcodeRow(row) {
        barcode := RowBarcode(row);
      }
      j := j + 1;
    }
    assert rows[..j] == rows;
  }

  /** `enumerate` over a description span's children: only the second one is read. */
  method ReadDescriptionSpan(previous: string, children: seq<string>) returns (description: string)
    ensures description == if |children| >= 2 then ReplaceNewlines(Strip(children[1])) else previous
  {
    description := previous;
    var k := 0;
    while k < |children|
      invariant 0 <= k <= |children|
      invariant description == if k > 1 then ReplaceNewlines(Strip(children[1])) else previous
    {
      if k == 1 {
        description := ReplaceNewlines(Strip(children[k]));
      }
      k := k + 1;
    }
  }

  /** Python's `record.update(patch)`. */
  function Update(record: Record, patch: Record): (r: Record)
    ensures r.Keys == record.Keys + patch.Keys
    ensures forall k :: k in patch ==> r[k] == patch[k]
    ensures forall k :: k in record && k !in patch ==> r[k] == record[k]
  {
    record + patch
  }

  // ---- Properties of the detail rules ----

  lemma {:induction false} BarcodeAfterRowsAppend(barcode: string, xs: seq<Row>, ys: seq<Row>)
    ensures BarcodeAfterRows(barcode, xs + ys) == BarcodeAfterRows(BarcodeAfterRows(barcode, xs), ys)
    decreases |ys|
  {
    if ys != [] {
      assert (xs + ys)[..|xs + ys| - 1] == xs + ys[..|ys| - 1];
      BarcodeAfterRowsAppend(barcode, xs, ys[..|ys| - 1]);
    } else {
      assert xs + ys == xs;
    }
  }

  /** Visiting panel after panel is visiting their rows one after another. */
  lemma {:induction false} BarcodeOverAllRows(barcode: string, panels: seq<Panel>)
    ensures BarcodeAfterPanels(barcode, panels) == BarcodeAfterRows(barcode, AllRows(panels))
  {
    if panels != [] {
      BarcodeOverAllRows(barcode, panels[..|panels| - 1]);
      BarcodeAfterRowsAppend(barcode, AllRows(panels[..|panels| - 1]), Last(panels).rows);
    }
  }

  /** The last `BARKOD` row decides the barcode. */
  lemma {:induction false} LastBarcodeRowWins(barcode: string, rows: seq<Row>, i: nat)
    requires i < |rows| && IsBarcodeRow(rows[i])
    requires forall j :: i < j < |rows| ==> !IsBarcodeRow(rows[j])
    ensures BarcodeAfterRows(barcode, rows) == RowBarcode(rows[i])
  {
    if i < |rows| - 1 {
      LastBarcodeRowWins(barcode, rows[..|rows| - 1], i);
    }
  }

  /** Without a `BARKOD` row the barcode keeps its initial value. */
  lemma {:induction false} NoBarcodeRow(barcode: string, rows: seq<Row>)
    requires forall j :: 0 <= j < |rows| ==> !IsBarcodeRow(rows[j])
    ensures BarcodeAfterRows(barcode, rows) == barcode
  {
    if rows != [] {
      NoBarcodeRow(barcode, rows[..|rows| - 1]);
    }
  }

  /** The barcode of a page is that of its last `BARKOD` row, across all panels, or "". */
  lemma PageBarcode(dom: DetailDom)
    ensures var rows := AllRows(dom.panels);
      (forall j :: 0 <= j < |rows| ==> !IsBarcodeRow(rows[j])) ==> Details(dom)[Barcode] == Str("")
    ensures var rows := AllRows(dom.panels);
      forall i ::
        (0 <= i < |rows| && IsBarcodeRow(rows[i]) && (forall j :: i < j < |rows| ==> !IsBarcodeRow(rows[j]))) ==>
        Details(dom)[Barcode] == Str(RowBarcode(rows[i]))
  {
    var rows := AllRows(dom.panels);
    BarcodeOverAllRows("", dom.panels);
    if forall j :: 0 <= j < |rows| ==> !IsBarcodeRow(rows[j]) {
      NoBarcodeRow("", rows);
    }
    forall i | 0 <= i < |rows| && IsBarcodeRow(rows[i]) && (forall j :: i < j < |rows| ==> !IsBarcodeRow(rows[j]))
      ensures Details(dom)[Barcode] == Str(RowBarcode(rows[i]))
    {
      LastBarcodeRowWins("", rows, i);
    }
  }

  /** The last panel with a two-child description span decides the description. */
  lemma {:induction false} LastDescriptionWins(description: string, panels: seq<Panel>, i: nat)
    requires i < |panels| && HasDescription(panels[i])
    requires forall j :: i < j < |panels| ==> !HasDescription(panels[j])
    ensures DescriptionAfterPanels(description, panels) == PanelDescription(panels[i])
  {
    if i < |panels| - 1 {
      LastDescriptionWins(description, panels[..|panels| - 1], i);
    }
  }

  /** Without such a panel the description keeps its initial value. */
  lemma {:induction false} NoDescription(description: string, panels: seq<Panel>)
    requires forall j :: 0 <= j < |panels| ==> !HasDescription(panels[j])
    ensures DescriptionAfterPanels(description, panels) == description
  {
    if panels != [] {
      NoDescription(description, panels[..|panels| - 1]);
    }
  }

  /** A description never holds a newline. */
  lemma {:induction false} DescriptionHasNoNewline(description: string, panels: seq<Panel>)
    requires '\n' !in description
    ensures '\n' !in DescriptionAfterPanels(description, panels)
  {
    if panels != [] {
      DescriptionHasNoNewline(description, panels[..|panels| - 1]);
    }
  }

  /**
   * Enrichment is additive: merging any detail fields into a stub keeps all
   * eight stub fields as they were and adds exactly the detail fields.
   */
  lemma EnrichmentKeepsStub(card: Card, patch: Record)
    requires ExtractStub(card).Some?
    requires patch.Keys <= DetailKeys
    ensures var stub := ExtractStub(card).value;
      && Update(stub, patch).Keys == StubKeys + patch.Keys
      && forall k :: k in StubKeys ==> Update(stub, patch)[k] == stub[k]
  {
    var stub := ExtractStub(card).value;
    assert stub.Keys == StubKeys;
    assert forall k :: k in StubKeys ==> k !in DetailKeys;
  }
}
