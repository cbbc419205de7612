/** `ProductSummaryPage.LoadProductSummary`: the order sheet has one product
    per column from column 3 (its name in row 1) and one order per row from
    row 2. Each cell reads as a quantity (its leading digits) optionally
    followed by a superscript annotation (a cut or variant, written with
    Unicode modifier letters); the page totals the quantities per product and
    annotation. */
module ProductSummary {
  import opened Wrappers
  import opened Numbers
  import opened Sheet
  import opened CharTable

  /** The superscript characters and the plain characters they stand for,
      in the order of the page's dictionary: the ten digits, the lower-case
      letters that have a modifier form (there is none for `q`), and the
      one-dot leader for a decimal point. */
  const SuperscriptTable: Table := [
    ('\U{2070}', '0'), ('\U{00B9}', '1'), ('\U{00B2}', '2'), ('\U{00B3}', '3'),
    ('\U{2074}', '4'), ('\U{2075}', '5'), ('\U{2076}', '6'), ('\U{2077}', '7'),
    ('\U{2078}', '8'), ('\U{2079}', '9'), ('\U{1D43}', 'a'), ('\U{1D47}', 'b'),
    ('\U{1D9C}', 'c'), ('\U{1D48}', 'd'), ('\U{1D49}', 'e'), ('\U{1DA0}', 'f'),
    ('\U{1DA2}', 'g'), ('\U{02B0}', 'h'), ('\U{2071}', 'i'), ('\U{02B2}', 'j'),
    ('\U{1D4F}', 'k'), ('\U{02E1}', 'l'), ('\U{1D50}', 'm'), ('\U{207F}', 'n'),
    ('\U{1D52}', 'o'), ('\U{1D56}', 'p'), ('\U{02B3}', 'r'), ('\U{02E2}', 's'),
    ('\U{1D57}', 't'), ('\U{1D58}', 'u'), ('\U{1D5B}', 'v'), ('\U{02B7}', 'w'),
    ('\U{02E3}', 'x'), ('\U{02B8}', 'y'), ('\U{1DBB}', 'z'), ('\U{2027}', '.')
  ]

  /** Every plain character the table produces. */
  const SuperscriptImages: string := "0123456789abcdefghijklmnoprstuvwxyz."

  /** `ConvertFromSuperscript`: every superscript character becomes its plain
      form, every other character stays. */
  function ConvertFromSuperscript(text: string): (r: string)
    ensures |r| == |text|
  {
    MapString(SuperscriptTable, text)
  }

  /** The keys are outside ASCII. */
  lemma SuperscriptKeysAreNotAscii()
    ensures forall i :: 0 <= i < |SuperscriptTable| ==> SuperscriptTable[i].0 as int >= 0xB2
  {
  }

  /** The images, in table order, spell `SuperscriptImages`. */
  lemma SuperscriptImagesInOrder()
    ensures |SuperscriptTable| == |SuperscriptImages|
    ensures forall i :: 0 <= i < |SuperscriptTable| ==> SuperscriptTable[i].1 == SuperscriptImages[i]
  {
  }

  /** The images are ASCII, and `q` is not among them. */
  lemma SuperscriptImagesShape()
    ensures forall k :: 0 <= k < |SuperscriptImages| ==> SuperscriptImages[k] as int < 0x80
    ensures 'q' !in SuperscriptImages
  {
  }

  /** No ASCII character is a superscript key. */
  lemma AsciiIsNotSuperscript(c: char)
    requires c as int < 0x80
    ensures !IsKey(SuperscriptTable, c)
    ensures Lookup(SuperscriptTable, c) == c
  {
    SuperscriptKeysAreNotAscii();
    LookupOfNonKey(SuperscriptTable, c);
  }

  lemma SuperscriptImagesAreNotKeys()
    ensures ImagesAreNotKeys(SuperscriptTable)
  {
    SuperscriptKeysAreNotAscii();
    SuperscriptImagesInOrder();
    SuperscriptImagesShape();
  }

  /** Decoding is idempotent: a decoded annotation decodes to itself. */
  lemma ConvertFromSuperscriptIdempotent(text: string)
    ensures ConvertFromSuperscript(ConvertFromSuperscript(text)) == ConvertFromSuperscript(text)
  {
    SuperscriptImagesAreNotKeys();
    MapStringIdempotent(SuperscriptTable, text);
  }

  /** Text without superscript characters passes through unchanged. */
  lemma ConvertFromSuperscriptKeepsPlain(text: string)
    requires forall i :: 0 <= i < |text| ==> !IsKey(SuperscriptTable, text[i])
    ensures ConvertFromSuperscript(text) == text
  {
    forall i | 0 <= i < |text|
      ensures ConvertFromSuperscript(text)[i] == text[i]
    {
      LookupOfNonKey(SuperscriptTable, text[i]);
    }
  }

  /** ASCII text in particular passes through unchanged. */
  lemma ConvertFromSuperscriptKeepsAscii(text: string)
    requires forall i :: 0 <= i < |text| ==> text[i] as int < 0x80
    ensures ConvertFromSuperscript(text) == text
  {
    forall i | 0 <= i < |text|
      ensures !IsKey(SuperscriptTable, text[i])
    {
      AsciiIsNotSuperscript(text[i]);
    }
    ConvertFromSuperscriptKeepsPlain(text);
  }

  /** Every superscript character decodes to one of the plain images, so the
      letter `q` in a decoded annotation can only come from a `q` in the cell. */
  lemma ConvertFromSuperscriptImage(text: string, i: int)
    requires 0 <= i < |text| && IsKey(SuperscriptTable, text[i])
    ensures ConvertFromSuperscript(text)[i] in SuperscriptImages
    ensures ConvertFromSuperscript(text)[i] != 'q'
  {
    var k := LookupOfKey(SuperscriptTable, text[i]);
    SuperscriptImagesInOrder();
    SuperscriptImagesShape();
    assert SuperscriptImages[k] == SuperscriptTable[k].1;
  }

  /** The position of a superscript character in the table, -1 for any
      other character: a witness that no key is listed twice. */
  function SuperscriptPosition(c: char): int
  {
    match c
    case '\U{2070}' => 0
    case '\U{00B9}' => 1
    case '\U{00B2}' => 2
    case '\U{00B3}' => 3
    case '\U{2074}' => 4
    case '\U{2075}' => 5
    case '\U{2076}' => 6
    case '\U{2077}' => 7
    case '\U{2078}' => 8
    case '\U{2079}' => 9
    case '\U{1D43}' => 10
    case '\U{1D47}' => 11
    case '\U{1D9C}' => 12
    case '\U{1D48}' => 13
    case '\U{1D49}' => 14
    case '\U{1DA0}' => 15
    case '\U{1DA2}' => 16
    case '\U{02B0}' => 17
    case '\U{2071}' => 18
    case '\U{02B2}' => 19
    case '\U{1D4F}' => 20
    case '\U{02E1}' => 21
    case '\U{1D50}' => 22
    case '\U{207F}' => 23
    case '\U{1D52}' => 24
    case '\U{1D56}' => 25
    case '\U{02B3}' => 26
    case '\U{02E2}' => 27
    case '\U{1D57}' => 28
    case '\U{1D58}' => 29
    case '\U{1D5B}' => 30
    case '\U{02B7}' => 31
    case '\U{02E3}' => 32
    case '\U{02B8}' => 33
    case '\U{1DBB}' => 34
    case '\U{2027}' => 35
    case _ => -1
  }

  /** No superscript character is listed twice (the page's dictionary
      initializer would throw on a repeated key). */
  lemma SuperscriptKeysDistinct()
    ensures DistinctKeys(SuperscriptTable)
  {
    assert forall k :: 0 <= k < |SuperscriptTable| ==> SuperscriptPosition(SuperscriptTable[k].0) == k;
    DistinctKeysOfPosition(SuperscriptTable, SuperscriptPosition);
  }

  /** Each superscript character decodes to its own plain character. */
  lemma ConvertFromSuperscriptOfKey(text: string, i: int, k: int)
    requires 0 <= i < |text| && 0 <= k < |SuperscriptTable| && text[i] == SuperscriptTable[k].0
    ensures ConvertFromSuperscript(text)[i] == SuperscriptTable[k].1
  {
    SuperscriptKeysDistinct();
    LookupOfEntry(SuperscriptTable, k);
  }

  /** The modifier letter small a decodes to `a`. */
  lemma ConvertFromSuperscriptA(text: string)
    requires text == "\U{1D43}"
    ensures ConvertFromSuperscript(text) == "a"
  {
    LookupOfFirst(SuperscriptTable, 10);
  }

  /** A cell read as a quantity and an optional decoded annotation. */
  datatype Decoded = Decoded(quantity: real, superscript: Option<string>)

  /** The body of the cell loop (lines 59-76): an empty cell counts 0 with no
      annotation; otherwise the leading digits are the quantity (0 when there
      are none) and whatever follows them, decoded, is the annotation. */
  function DecodeCell(text: string): Decoded
  {
    if |text| == 0 then Decoded(0.0, None)
    else
      var numeric := LeadingDigits(text);
      var rest := text[|numeric|..];
      Decoded(ParseDecimal(numeric).GetOr(0.0),
              if |rest| == 0 then None else Some(ConvertFromSuperscript(rest)))
  }

  /** Decoding inverts writing a digit run followed by an annotation that
      does not start with a digit. */
  lemma DecodeCellOfParts(digits: string, annotation: string)
    requires AllDigits(digits)
    requires |annotation| == 0 || !IsDigit(annotation[0])
    ensures DecodeCell(digits + annotation) ==
            Decoded(DigitsValue(digits) as real,
                    if |annotation| == 0 then None else Some(ConvertFromSuperscript(annotation)))
  {
    var text := digits + annotation;
    if |text| > 0 {
      LeadingDigitsOfDigitsThen(digits, annotation);
      assert text[|digits|..] == annotation;
      if |digits| > 0 {
        ParseDecimalOfDigits(digits);
      }
    }
  }

  /** A decimal quantity is not read as one: "3.5" counts 3 with the
      annotation ".5". */
  lemma DecodeCellOfDecimalText(whole: string, frac: string)
    requires |whole| > 0 && AllDigits(whole) && AllDigits(frac)
    ensures DecodeCell(whole + ("." + frac)) == Decoded(DigitsValue(whole) as real, Some("." + frac))
  {
    DecodeCellOfParts(whole, "." + frac);
    PointFractionIsPlain(frac);
  }

  lemma PointFractionIsPlain(frac: string)
    requires AllDigits(frac)
    ensures ConvertFromSuperscript("." + frac) == "." + frac
  {
    ConvertFromSuperscriptKeepsAscii("." + frac);
  }

  /** A quantity followed by the modifier letter a counts under the
      annotation "a"; the letter alone counts 0 under "a". */
  lemma DecodeCellOfAnnotated(digits: string)
    requires AllDigits(digits)
    ensures DecodeCell(digits + "\U{1D43}") == Decoded(DigitsValue(digits) as real, Some("a"))
  {
    DecodeCellOfParts(digits, "\U{1D43}");
    ConvertFromSuperscriptA("\U{1D43}");
  }

  /** The quantity of a digit run followed by an annotation is the run's
      value, whatever the annotation decodes to. */
  lemma DecodeCellQuantityOfParts(digits: string, annotation: string)
    requires AllDigits(digits)
    requires |annotation| == 0 || !IsDigit(annotation[0])
    ensures DecodeCell(digits + annotation).quantity == DigitsValue(digits) as real
  {
    DecodeCellOfParts(digits, annotation);
  }

  /** No cell counts a negative quantity: the quantity is a run of digits or 0. */
  lemma DecodeCellNonNegative(text: string)
    ensures DecodeCell(text).quantity >= 0.0
  {
    if |text| > 0 {
      var numeric := LeadingDigits(text);
      if |numeric| > 0 {
        ParseDecimalOfDigits(numeric);
      } else {
        assert ParseDecimal(numeric).None?;
      }
    }
  }

  /** The annotation text used when a cell has none. */
  const NoSuperscript: string := "No Superscript"

  /** The dictionary key `{productName}^{superscript ?? "No Superscript"}`. */
  function Key(product: string, superscript: Option<string>): string
  {
    product + "^" + superscript.GetOr(NoSuperscript)
  }

  /** For one product, two annotations share a key exactly when their texts,
      with "No Superscript" standing in for none, are equal. */
  lemma KeyDistinguishes(product: string, a: Option<string>, b: Option<string>)
    ensures Key(product, a) == Key(product, b) <==> a.GetOr(NoSuperscript) == b.GetOr(NoSuperscript)
  {
    var p := product + "^";
    if Key(product, a) == Key(product, b) {
      assert Key(product, a)[|p|..] == a.GetOr(NoSuperscript);
      assert Key(product, b)[|p|..] == b.GetOr(NoSuperscript);
    }
  }

  lemma NoSuperscriptIsPlain(text: string)
    requires text == NoSuperscript
    ensures ConvertFromSuperscript(text) == text
  {
    ConvertFromSuperscriptKeepsAscii(text);
  }

  /** So a cell annotated with the literal text "No Superscript" is counted
      together with the plain quantities of its product. */
  lemma NoSuperscriptCollides(product: string, digits: string)
    requires AllDigits(digits)
    ensures DecodeCell(digits + NoSuperscript).superscript == Some(NoSuperscript)
    ensures Key(product, DecodeCell(digits + NoSuperscript).superscript) == Key(product, DecodeCell(digits).superscript)
  {
    DecodeCellOfParts(digits, NoSuperscript);
    DecodeCellOfParts(digits, "");
    assert digits + "" == digits;
    NoSuperscriptIsPlain(NoSuperscript);
  }

  /** One counted cell: its key and its quantity. */
  datatype Entry = Entry(key: string, quantity: real)

  function CellEntry(g: Grid, row: int, col: int): Entry
  {
    var d := DecodeCell(CellText(g, row, col));
    Entry(Key(CellText(g, 1, col), d.superscript), d.quantity)
  }

  /** The cells of `row` from column 3 to column `cols`, left to right. */
  function RowEntries(g: Grid, row: int, cols: int): seq<Entry>
    decreases cols
  {
    if cols < 3 then [] else RowEntries(g, row, cols - 1) + [CellEntry(g, row, cols)]
  }

  /** The cells of rows 2 to `rows`, row by row, in the order the loops visit them. */
  function Entries(g: Grid, rows: int, cols: int): seq<Entry>
    decreases rows
  {
    if rows < 2 then [] else Entries(g, rows - 1, cols) + RowEntries(g, rows, cols)
  }

  /** The summary dictionary: its keys in the order they were first added
      (the order the page lists them in), and the total per key. */
  datatype Summary = Summary(keys: seq<string>, totals: map<string, real>)

  const EmptySummary: Summary := Summary([], map[])

  /** `productSummary[key] += quantity` for a known key, else `= quantity`. */
  function Add(s: Summary, e: Entry): Summary
  {
    if e.key in s.totals then s.(totals := s.totals[e.key := s.totals[e.key] + e.quantity])
    else Summary(s.keys + [e.key], s.totals[e.key := e.quantity])
  }

  /** The summary after counting `entries` in order. */
  function Accumulate(entries: seq<Entry>): Summary
  {
    if |entries| == 0 then EmptySummary
    else Add(Accumulate(entries[..|entries| - 1]), entries[|entries| - 1])
  }

  /** The reference total: the sum of the quantities of the entries with `key`. */
  function SumFor(entries: seq<Entry>, key: string): real
  {
    if |entries| == 0 then 0.0
    else
      var last := entries[|entries| - 1];
      SumFor(entries[..|entries| - 1], key) + (if last.key == key then last.quantity else 0.0)
  }

  predicate Occurs(entries: seq<Entry>, key: string)
  {
    exists i :: 0 <= i < |entries| && entries[i].key == key
  }

  /** The keys are listed once each and are exactly the keys with a total. */
  predicate Consistent(s: Summary)
  {
    && (forall i, j :: 0 <= i < j < |s.keys| ==> s.keys[i] != s.keys[j])
    && (forall k :: k in s.totals ==> k in s.keys)
    && (forall i :: 0 <= i < |s.keys| ==> s.keys[i] in s.totals)
  }

  /** A summary holds a key exactly when some counted cell has it, the key's
      total is the sum of those cells' quantities, and the key list stays
      consistent with the totals. */
  lemma {:induction false} AccumulateTotals(entries: seq<Entry>, key: string)
    ensures key in Accumulate(entries).totals <==> Occurs(entries, key)
    ensures key in Accumulate(entries).totals ==> Accumulate(entries).totals[key] == SumFor(entries, key)
    ensures !Occurs(entries, key) ==> SumFor(entries, key) == 0.0
  {
    if |entries| > 0 {
      var init := entries[..|entries| - 1];
      AccumulateTotals(init, key);
      if Occurs(entries, key) && entries[|entries| - 1].key != key {
        var i :| 0 <= i < |entries| && entries[i].key == key;
        assert init[i].key == key;
      }
      if Occurs(init, key) {
        var i :| 0 <= i < |init| && init[i].key == key;
        assert entries[i].key == key;
      }
    }
  }

  lemma {:induction false} AccumulateConsistent(entries: seq<Entry>)
    ensures Consistent(Accumulate(entries))
  {
    if |entries| > 0 {
      AccumulateConsistent(entries[..|entries| - 1]);
    }
  }

  /** Totals add up over consecutive stretches of cells. */
  lemma {:induction false} SumForAppend(a: seq<Entry>, b: seq<Entry>, key: string)
    ensures SumFor(a + b, key) == SumFor(a, key) + SumFor(b, key)
    decreases |b|
  {
    if |b| == 0 {
      assert a + b == a;
    } else {
      var c := a + b;
      var b' := b[..|b| - 1];
      assert c[..|c| - 1] == a + b';
      assert c[|c| - 1] == b[|b| - 1];
      SumForAppend(a, b', key);
    }
  }

  /** The total a summary shows for `key`, 0 when the key is absent. */
  function TotalOf(s: Summary, key: string): real
  {
    if key in s.totals then s.totals[key] else 0.0
  }

  /** Counting two stretches of cells one after the other gives, for every
      key, the sum of the totals the two stretches give on their own. */
  lemma AccumulateAdditive(a: seq<Entry>, b: seq<Entry>, key: string)
    ensures TotalOf(Accumulate(a + b), key) == TotalOf(Accumulate(a), key) + TotalOf(Accumulate(b), key)
  {
    AccumulateTotals(a + b, key);
    AccumulateTotals(a, key);
    AccumulateTotals(b, key);
    SumForAppend(a, b, key);
  }

  /** Totals of cells that are never negative are never negative. */
  lemma {:induction false} AccumulateNonNegative(entries: seq<Entry>, key: string)
    requires forall i :: 0 <= i < |entries| ==> entries[i].quantity >= 0.0
    requires key in Accumulate(entries).totals
    ensures Accumulate(entries).totals[key] >= 0.0
  {
    var init := entries[..|entries| - 1];
    if key in Accumulate(init).totals {
      AccumulateNonNegative(init, key);
    }
  }

  /** Every cell the page counts has a non-negative quantity. */
  lemma {:induction false} EntriesNonNegative(g: Grid, rows: int, cols: int, i: int)
    requires 0 <= i < |Entries(g, rows, cols)|
    ensures Entries(g, rows, cols)[i].quantity >= 0.0
    decreases rows
  {
    var before := Entries(g, rows - 1, cols);
    if i < |before| {
      EntriesNonNegative(g, rows - 1, cols, i);
    } else {
      RowEntriesNonNegative(g, rows, cols, i - |before|);
    }
  }

  lemma {:induction false} RowEntriesNonNegative(g: Grid, row: int, cols: int, i: int)
    requires 0 <= i < |RowEntries(g, row, cols)|
    ensures RowEntries(g, row, cols)[i].quantity >= 0.0
    decreases cols
  {
    var before := RowEntries(g, row, cols - 1);
    if i < |before| {
      RowEntriesNonNegative(g, row, cols - 1, i);
    } else {
      DecodeCellNonNegative(CellText(g, row, cols));
    }
  }

  /** Every total the page shows is at least 0. */
  lemma SummaryNonNegative(g: Grid, key: string)
    requires g.dim.Some?
    requires key in Accumulate(Entries(g, g.dim.value.rows, g.dim.value.cols)).totals
    ensures Accumulate(Entries(g, g.dim.value.rows, g.dim.value.cols)).totals[key] >= 0.0
  {
    var es := Entries(g, g.dim.value.rows, g.dim.value.cols);
    forall i | 0 <= i < |es|
      ensures es[i].quantity >= 0.0
    {
      EntriesNonNegative(g, g.dim.value.rows, g.dim.value.cols, i);
    }
    AccumulateNonNegative(es, key);
  }

  lemma AccumulateSnoc(entries: seq<Entry>, e: Entry)
    ensures Accumulate(entries + [e]) == Add(Accumulate(entries), e)
  {
    assert (entries + [e])[..|entries|] == entries;
  }

  /** The body of the row loop: counts the cells of `row`, columns 3 to
      `cols`, into `s`, the summary of the cells `before` them. */
  method CountRow(g: Grid, row: int, cols: int, ghost before: seq<Entry>, s: Summary) returns (r: Summary)
    requires s == Accumulate(before)
    ensures r == Accumulate(before + RowEntries(g, row, cols))
  {
    r := s;
    var col := 3;
    assert before + RowEntries(g, row, col - 1) == before;
    while col <= cols
      invariant 3 <= col <= (if cols < 3 then 3 else cols + 1)
      invariant r == Accumulate(before + RowEntries(g, row, col - 1))
    {
      AccumulateSnoc(before + RowEntries(g, row, col - 1), CellEntry(g, row, col));
      assert before + RowEntries(g, row, col) == before + RowEntries(g, row, col - 1) + [CellEntry(g, row, col)];
      r := Add(r, CellEntry(g, row, col));
      col := col + 1;
    }
    assert RowEntries(g, row, col - 1) == RowEntries(g, row, cols);
  }

  /** The page's nested loops over rows 2.. and columns 3..: `None` for a
      sheet without a used range ("No data found in the worksheet."), else
      the summary of every cell in that order. */
  method LoadProductSummary(g: Grid) returns (r: Option<Summary>)
    ensures r.None? <==> g.dim.None?
    ensures r.Some? ==> r.value == Accumulate(Entries(g, g.dim.value.rows, g.dim.value.cols))
  {
    if g.dim.None? {
      return None;
    }
    var rows := g.dim.value.rows as int;
    var cols := g.dim.value.cols as int;
    var s := EmptySummary;
    var row := 2;
    while row <= rows
      invariant 2 <= row <= (if rows < 2 then 2 else rows + 1)
      invariant s == Accumulate(Entries(g, row - 1, cols))
    {
      s := CountRow(g, row, cols, Entries(g, row - 1, cols), s);
      row := row + 1;
    }
    assert Entries(g, row - 1, cols) == Entries(g, rows, cols);
    return Some(s);
  }
}
