/** The scan history: one record per processed code, in scan order, and the
    operations the buttons perform on it (clear, copy latest, export). */
module History {
  import opened Wrappers
  import Text
  import Decimal
  import Extraction

  /** The two spin-box values read when a code is processed. */
  datatype Config = Config(start: int, length: int) {
    /** The ranges the spin boxes allow: offset 0..100, length 1..100. */
    predicate Valid() {
      0 <= start <= 100 && 1 <= length <= 100
    }
  }

  /** One scan record. The timestamp is the clock reading as text. */
  datatype ScanRecord = ScanRecord(
    timestamp: string,
    original: string,
    extracted: string,
    start: int,
    length: int)

  /** A record the scan pipeline can produce: settings in range, a
      non-empty code already stripped of edge whitespace, and the extracted
      text cut from it with the recorded settings. */
  predicate WellFormed(r: ScanRecord) {
    && Config(r.start, r.length).Valid()
    && r.original != []
    && Text.Stripped(r.original)
    && r.extracted == Extraction.Extract(r.original, r.start, r.length)
  }

  predicate AllWellFormed(h: seq<ScanRecord>) {
    forall i :: 0 <= i < |h| ==> WellFormed(h[i])
  }

  /** Processing a code appends exactly one record, holding the clock
      reading, the code, the extracted text and the settings used, and
      keeps every earlier record. */
  function ProcessBarcode(history: seq<ScanRecord>, barcode: string, cfg: Config, now: string)
    : (h: seq<ScanRecord>)
    requires cfg.Valid()
    ensures |h| == |history| + 1
    ensures h[..|history|] == history
    ensures h[|history|].timestamp == now && h[|history|].original == barcode
    ensures h[|history|].start == cfg.start && h[|history|].length == cfg.length
    ensures h[|history|].extracted == Extraction.Extract(barcode, cfg.start, cfg.length)
  {
    history + [ScanRecord(now, barcode, Extraction.Extract(barcode, cfg.start, cfg.length), cfg.start, cfg.length)]
  }

  /** A code as the key handler passes it (non-empty, stripped) yields a
      well-formed record, so processing keeps the whole history well
      formed. */
  lemma ProcessBarcodeWellFormed(history: seq<ScanRecord>, barcode: string, cfg: Config, now: string)
    requires cfg.Valid() && barcode != [] && Text.Stripped(barcode)
    requires AllWellFormed(history)
    ensures AllWellFormed(ProcessBarcode(history, barcode, cfg, now))
  {
    var h := ProcessBarcode(history, barcode, cfg, now);
    forall i | 0 <= i < |h|
      ensures WellFormed(h[i])
    {
      if i < |history| {
        assert h[i] == history[i];
      }
    }
  }

  /** What a well-formed record's extracted text is: at most `length`
      characters, empty exactly when the offset is past the code's end, and
      a piece of the code starting at the offset. */
  lemma WellFormedExtracted(r: ScanRecord)
    requires WellFormed(r)
    ensures |r.extracted| <= r.length
    ensures r.extracted == [] <==> r.start >= |r.original|
    ensures r.extracted != [] ==> r.original[r.start..r.start + |r.extracted|] == r.extracted
  {
  }

  /** The result of the clear button: the new history, and whether the
      confirmation question is put to the operator. */
  datatype ClearOutcome = ClearOutcome(history: seq<ScanRecord>, asked: bool)

  /** Clear the history. An empty history is left as it is without asking;
      otherwise the operator's answer `confirm` decides. */
  function ClearHistory(history: seq<ScanRecord>, confirm: bool): (r: ClearOutcome)
    ensures r.asked <==> history != []
    ensures history == [] ==> r.history == history
    ensures r.history == [] <==> (history == [] || confirm)
    ensures r.history == history || r.history == []
  {
    if history == [] then ClearOutcome(history, false)
    else if confirm then ClearOutcome([], true)
    else ClearOutcome(history, true)
  }

  /** The text the copy button puts on the clipboard: the latest record's
      extracted value; nothing when the history is empty. */
  function CopyResult(history: seq<ScanRecord>): (r: Option<string>)
    ensures r.None? <==> history == []
    ensures r.Some? ==> r.value == history[|history| - 1].extracted
  {
    if history == [] then None else Some(history[|history| - 1].extracted)
  }

  /** After a code is processed, the copy button yields its extracted text. */
  lemma CopyAfterProcess(history: seq<ScanRecord>, barcode: string, cfg: Config, now: string)
    requires cfg.Valid()
    ensures CopyResult(ProcessBarcode(history, barcode, cfg, now))
         == Some(Extraction.Extract(barcode, cfg.start, cfg.length))
  {
  }

  /** After a confirmed clear there is nothing to copy. */
  lemma CopyAfterClear(history: seq<ScanRecord>)
    ensures CopyResult(ClearHistory(history, true).history) == None
  {
  }

  type Row = seq<string>

  /** The column titles of the export: time, original code, extracted text,
      start offset, length. */
  const Header: Row := ["时间", "原始条码", "截取结果", "起始位置", "截取长度"]

  /** One exported row: the record's fields in header order, the two
      integers written as Python's `str` writes them. */
  function RecordRow(r: ScanRecord): (row: Row)
    ensures |row| == |Header|
    ensures row[0] == r.timestamp && row[1] == r.original && row[2] == r.extracted
    ensures row[3] == Decimal.IntToString(r.start) && row[4] == Decimal.IntToString(r.length)
  {
    [r.timestamp, r.original, r.extracted, Decimal.IntToString(r.start), Decimal.IntToString(r.length)]
  }

  /** Reads a record back from an exported row. */
  function ParseRow(row: Row): Option<ScanRecord> {
    if |row| != |Header| then None
    else match (Decimal.ParseInt(row[3]), Decimal.ParseInt(row[4]))
      case (Some(start), Some(length)) => Some(ScanRecord(row[0], row[1], row[2], start, length))
      case _ => None
  }

  /** Reads the records back from the data rows of an export, in order. */
  function ParseRows(rows: seq<Row>): Option<seq<ScanRecord>> {
    if rows == [] then Some([])
    else
      var front := ParseRows(rows[..|rows| - 1]);
      var last := ParseRow(rows[|rows| - 1]);
      if front.Some? && last.Some? then Some(front.value + [last.value]) else None
  }

  /** Reads a whole export: the header, then the data rows. */
  function ParseExport(rows: seq<Row>): Option<seq<ScanRecord>> {
    if rows == [] || rows[0] != Header then None else ParseRows(rows[1..])
  }

  /** Every record survives the trip through its row. */
  lemma RowRoundTrip(r: ScanRecord)
    ensures ParseRow(RecordRow(r)) == Some(r)
  {
    Decimal.IntToStringRoundTrip(r.start);
    Decimal.IntToStringRoundTrip(r.length);
  }

  /** The data rows of an export: row `i` is written from record `i`. */
  function DataRows(history: seq<ScanRecord>): (data: seq<Row>)
    ensures |data| == |history|
    ensures forall i :: 0 <= i < |history| ==> data[i] == RecordRow(history[i])
  {
    seq(|history|, i requires 0 <= i < |history| => RecordRow(history[i]))
  }

  /** The rows written by the export. An empty history writes no file (a
      warning is shown instead); otherwise the header comes first and then
      one row per record, in scan order. */
  function ExportRows(history: seq<ScanRecord>): (rows: Option<seq<Row>>)
    ensures rows.None? <==> history == []
    ensures rows.Some? ==> |rows.value| == |history| + 1 && rows.value[0] == Header
    ensures rows.Some? ==> forall i :: 0 <= i < |history| ==> rows.value[i + 1] == RecordRow(history[i])
  {
    if history == [] then None else Some([Header] + DataRows(history))
  }

  /** Reading an export back gives the history that was exported: the rows
      keep every record, its field order and the scan order. */
  lemma ExportRoundTrip(history: seq<ScanRecord>)
    ensures ExportRows(history).Some? ==> ParseExport(ExportRows(history).value) == Some(history)
  {
    if history != [] {
      var rows := ExportRows(history).value;
      assert rows[1..] == DataRows(history);
      DataRowsRoundTrip(history, rows[1..]);
    }
  }

  lemma DataRowsRoundTrip(history: seq<ScanRecord>, data: seq<Row>)
    requires |data| == |history|
    requires forall i :: 0 <= i < |history| ==> data[i] == RecordRow(history[i])
    ensures ParseRows(data) == Some(history)
  {
    forall i | 0 <= i < |history|
      ensures ParseRow(data[i]) == Some(history[i])
    {
      RowRoundTrip(history[i]);
    }
    ParseRowsEach(history, data);
  }

  /** Data rows that each read back as the corresponding record read back
      as the whole list of records. */
  lemma {:induction false} ParseRowsEach(history: seq<ScanRecord>, data: seq<Row>)
    requires |data| == |history|
    requires forall i :: 0 <= i < |history| ==> ParseRow(data[i]) == Some(history[i])
    ensures ParseRows(data) == Some(history)
  {
    if history != [] {
      var n := |history| - 1;
      assert forall i :: 0 <= i < n ==> ParseRow(data[..n][i]) == Some(history[..n][i]);
      ParseRowsEach(history[..n], data[..n]);
      assert ParseRow(data[n]) == Some(history[n]);
      assert history[..n] + [history[n]] == history;
    }
  }
}
