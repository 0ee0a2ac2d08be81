/** The somatic-mutation preprocessor of
    `data_processor/synapse_som_processor.py`: from the rows of one
    cancer type's annotation file to the table of (gene name, Entrez gene
    id, patient id) that is written out.

    The stages follow `process_one_cancer_somatic`:
    1. `ExtractRecords`: skip the header rows, keep every row with more
       than one field and take its fields 0, 1 and 15;
    2. `NormalizeBarcodes`: in place on the numpy table, rewrite the
       barcode of each primary-tumour record to its patient id and collect
       the positions of the other records;
    3. `DeleteAt`: `np.delete` of those positions;
    4. `SortColumns`: `np.sort(..., axis=0)`, which sorts each of the three
       columns on its own. */
module SomProcessor {
  import opened PyStrings
  import opened Sorting
  import opened Indices

  /** One row as the csv reader splits it. */
  type Row = seq<string>
  /** One row of the numpy table: gene name, gene id, barcode or patient id. */
  type Record = seq<string>
  type Table = seq<Record>

  const GeneNameField: nat := 0
  const GeneIdField: nat := 1
  const BarcodeField: nat := 15
  const BarcodeSeparator: char := '-'
  /** Barcode segment that holds the sample-type code. */
  const SampleTypeSegment: nat := 3
  /** Number of leading barcode segments that identify the patient. */
  const PatientSegments: nat := 3
  const PrimaryTumourCode: string := "01"
  /** Column of the table that holds the barcode. */
  const BarcodeColumn: nat := 2

  /** The ways the source fails: `next(csv_reader)` runs out of rows while
      skipping the header (StopIteration), `row[15]` is out of range on a
      kept row, or `splitted[3]` is out of range on a barcode. */
  datatype Error =
    | MissingHeaderRows
    | MalformedRow(row: nat)
    | BarcodeFormat(record: nat)

  datatype Result<T> = Ok(value: T) | Err(error: Error)

  // ---------------------------------------------------------------------
  // Record extraction
  // ---------------------------------------------------------------------

  /** The reader keeps a row when it has more than one field. */
  predicate Selected(row: Row)
  {
    |row| > 1
  }

  /** A kept row too short to hold the barcode field. */
  predicate Malformed(row: Row)
  {
    Selected(row) && |row| <= BarcodeField
  }

  predicate NoMalformed(rows: seq<Row>)
  {
    forall i :: 0 <= i < |rows| ==> !Malformed(rows[i])
  }

  /** `[row[0]] + [row[1]] + [row[15]]`. */
  function Project(row: Row): Record
    requires |row| > BarcodeField
  {
    [row[GeneNameField], row[GeneIdField], row[BarcodeField]]
  }

  /** The records the reader loop appends for the given data rows. */
  function Records(rows: seq<Row>): Table
    requires NoMalformed(rows)
  {
    FilterMap(rows, Selected, Project)
  }

  /** Each kept row yields exactly one record, its fields 0, 1 and 15, in
      the order of the rows; rows with at most one field yield nothing.
      (By the postconditions of `IndicesWhere`, the kept positions are
      exactly those of rows with more than one field, ascending.) */
  lemma {:induction false} RecordsAreProjections(rows: seq<Row>)
    requires NoMalformed(rows)
    ensures |Records(rows)| == |IndicesWhere(rows, Selected)|
    ensures forall k :: 0 <= k < |Records(rows)| ==>
      Records(rows)[k] == Project(rows[IndicesWhere(rows, Selected)[k]])
  {
    FilterMapAt(rows, Selected, Project);
  }

  /** Every record has the three fields of the numpy table. */
  lemma RecordsWidth(rows: seq<Row>)
    requires NoMalformed(rows)
    ensures Width3(Records(rows))
  {
    RecordsAreProjections(rows);
  }

  /** The reader stage: skips `startRow` rows, then appends one record per
      row with more than one field. Too few rows to skip, or a kept row
      without a field 15, is an error; the error names the first such row. */
  method ExtractRecords(rows: seq<Row>, startRow: nat := 1) returns (r: Result<Table>)
    ensures r == Err(MissingHeaderRows) <==> |rows| < startRow
    ensures r.Ok? <==> startRow <= |rows| && NoMalformed(rows[startRow..])
    ensures r.Ok? ==> r.value == Records(rows[startRow..])
    ensures r.Err? ==> r.error == MissingHeaderRows || r.error.MalformedRow?
    ensures r.Err? && r.error.MalformedRow? ==>
      startRow <= r.error.row < |rows| && Malformed(rows[r.error.row])
      && NoMalformed(rows[startRow..r.error.row])
  {
    if |rows| < startRow {
      return Err(MissingHeaderRows);
    }
    var dataArray: Table := [];
    var i := startRow;
    while i < |rows|
      invariant startRow <= i <= |rows|
      invariant NoMalformed(rows[startRow..i])
      invariant dataArray == Records(rows[startRow..i])
    {
      var row := rows[i];
      if |row| > 1 {
        if |row| <= BarcodeField {
          return Err(MalformedRow(i));
        }
        dataArray := dataArray + [[row[GeneNameField], row[GeneIdField], row[BarcodeField]]];
      }
      assert rows[startRow..i + 1] == rows[startRow..i] + [row];
      FilterMapExtend(rows[startRow..i], row, Selected, Project);
      i := i + 1;
    }
    assert rows[startRow..i] == rows[startRow..];
    return Ok(dataArray);
  }

  // ---------------------------------------------------------------------
  // Barcode classification and normalisation
  // ---------------------------------------------------------------------

  /** Every record has the three columns of the numpy table. */
  predicate Width3(t: Table)
  {
    forall i :: 0 <= i < |t| ==> |t[i]| == 3
  }

  /** The barcode has a sample-type segment to look at. */
  predicate Classifiable(barcode: string)
  {
    |Split(barcode, BarcodeSeparator)| > SampleTypeSegment
  }

  /** `'01' in splitted[3]`. */
  predicate PrimaryTumour(barcode: string)
  {
    Classifiable(barcode)
    && Contains(Split(barcode, BarcodeSeparator)[SampleTypeSegment], PrimaryTumourCode)
  }

  /** `'-'.join(splitted[0:3])`: the patient id. It has exactly the three
      leading segments of the barcode and is a prefix of it, so it fits
      the fixed-width numpy cell the barcode occupied. */
  function PatientId(barcode: string): (id: string)
    requires Classifiable(barcode)
    ensures Split(id, BarcodeSeparator) == Split(barcode, BarcodeSeparator)[..PatientSegments]
    ensures id <= barcode
  {
    var segments := Split(barcode, BarcodeSeparator);
    SplitJoin(segments[..PatientSegments], BarcodeSeparator);
    JoinPrefix(segments, PatientSegments, BarcodeSeparator);
    JoinSplit(barcode, BarcodeSeparator);
    Join(segments[..PatientSegments], BarcodeSeparator)
  }

  predicate RecordClassifiable(rec: Record)
  {
    |rec| == 3 && Classifiable(rec[BarcodeColumn])
  }

  predicate AllClassifiable(t: Table)
  {
    forall i :: 0 <= i < |t| ==> RecordClassifiable(t[i])
  }

  predicate PrimaryRecord(rec: Record)
  {
    |rec| == 3 && PrimaryTumour(rec[BarcodeColumn])
  }

  /** The records whose positions go into `prune_list`. */
  predicate PrunedRecord(rec: Record)
  {
    !PrimaryRecord(rec)
  }

  /** The record with its barcode replaced by the patient id. */
  function Normalize(rec: Record): (n: Record)
    requires RecordClassifiable(rec)
    ensures |n| == 3
    ensures n[GeneNameField] == rec[GeneNameField] && n[GeneIdField] == rec[GeneIdField]
    ensures Split(n[BarcodeColumn], BarcodeSeparator)
      == Split(rec[BarcodeColumn], BarcodeSeparator)[..PatientSegments]
  {
    rec[BarcodeColumn := PatientId(rec[BarcodeColumn])]
  }

  /** A record after its turn in the classification loop. */
  function Rewritten(rec: Record): Record
  {
    if PrimaryRecord(rec) then Normalize(rec) else rec
  }

  /** The table once the classification loop has rewritten, in place, the
      barcode of every primary-tumour record. */
  function NormalizeAll(t: Table): (n: Table)
    ensures |n| == |t|
  {
    seq(|t|, i requires 0 <= i < |t| => Rewritten(t[i]))
  }

  /** One turn of the classification loop on a classifiable record: the
      record is pruned exactly when its sample-type segment lacks the
      primary-tumour code, a primary-tumour record has its barcode
      overwritten with the patient id and any other is left as it is, and
      the rewritten prefix and the prune list grow by that record. */
  lemma ClassifyStep(t: Table, idx: nat, output: Table, pruneList: seq<nat>)
    requires idx < |t| == |output|
    requires AllClassifiable(t[..idx]) && RecordClassifiable(t[idx])
    requires output == NormalizeAll(t[..idx]) + t[idx..]
    requires pruneList == IndicesWhere(t[..idx], PrunedRecord)
    ensures output[idx] == t[idx]
    ensures PrunedRecord(t[idx])
      <==> !Contains(Split(t[idx][BarcodeColumn], BarcodeSeparator)[SampleTypeSegment], PrimaryTumourCode)
    ensures Rewritten(t[idx])
      == if PrunedRecord(t[idx]) then t[idx] else t[idx][BarcodeColumn := PatientId(t[idx][BarcodeColumn])]
    ensures AllClassifiable(t[..idx + 1])
    ensures output[idx := Rewritten(t[idx])] == NormalizeAll(t[..idx + 1]) + t[idx + 1..]
    ensures pruneList + (if PrunedRecord(t[idx]) then [idx] else []) == IndicesWhere(t[..idx + 1], PrunedRecord)
  {
    IndicesWhereExtend(t, idx, PrunedRecord);
    NormalizeAllExtend(t, idx);
    UpdateFront(NormalizeAll(t[..idx]), t[idx..], Rewritten(t[idx]));
    assert t[idx..][1..] == t[idx + 1..];
  }

  lemma NormalizeAllExtend(t: Table, idx: nat)
    requires idx < |t|
    ensures NormalizeAll(t[..idx + 1]) == NormalizeAll(t[..idx]) + [Rewritten(t[idx])]
  {
    assert t[..idx + 1] == t[..idx] + [t[idx]];
  }

  /** Overwriting the first element behind a prefix. */
  lemma UpdateFront<T>(front: seq<T>, back: seq<T>, x: T)
    requires |back| > 0
    ensures (front + back)[|front|] == back[0]
    ensures (front + back)[|front| := x] == front + [x] + back[1..]
  {
  }

  /** What the classification loop leaves behind: the table with the
      primary-tumour barcodes rewritten, and `prune_list`. */
  datatype Classified = Classified(table: Table, pruneList: seq<nat>)

  /** The classification loop over the numpy table. For each record in
      turn it splits the barcode; with no sample-type segment it fails; a
      primary-tumour record has its barcode overwritten with the patient
      id, any other record has its position appended to the prune list.
      The error names the first record without a sample-type segment. */
  method NormalizeBarcodes(t: Table) returns (r: Result<Classified>)
    requires Width3(t)
    ensures r.Ok? <==> AllClassifiable(t)
    ensures r.Ok? ==> r.value.pruneList == IndicesWhere(t, PrunedRecord)
    ensures r.Ok? ==> r.value.table == NormalizeAll(t)
    ensures r.Err? ==>
      r.error.BarcodeFormat? && r.error.record < |t|
      && !RecordClassifiable(t[r.error.record])
      && AllClassifiable(t[..r.error.record])
  {
    var output := t;
    var pruneList: seq<nat> := [];
    var idx := 0;
    while idx < |output|
      invariant 0 <= idx <= |output| == |t|
      invariant AllClassifiable(t[..idx])
      invariant output == NormalizeAll(t[..idx]) + t[idx..]
      invariant pruneList == IndicesWhere(t[..idx], PrunedRecord)
    {
      var tmp := output[idx][BarcodeColumn];
      var splitted := Split(tmp, BarcodeSeparator);
      if |splitted| <= SampleTypeSegment {
        return Err(BarcodeFormat(idx));
      }
      ClassifyStep(t, idx, output, pruneList);
      if Contains(splitted[SampleTypeSegment], PrimaryTumourCode) {
        output := output[idx := output[idx][BarcodeColumn := PatientId(tmp)]];
      } else {
        pruneList := pruneList + [idx];
      }
      idx := idx + 1;
    }
    assert t[..idx] == t;
    return Ok(Classified(output, pruneList));
  }

  // ---------------------------------------------------------------------
  // Pruning
  // ---------------------------------------------------------------------

  /** A barcode whose sample type is `01A` is a primary tumour. */
  lemma PrimaryBarcodeExample()
    ensures PrimaryTumour("TCGA-AB-1234-01A-11D")
  {
    PrimarySegments();
    assert PrimaryTumourCode == "01";
    assert Contains("01A", "01");
  }

  /** The patient id of that barcode is its first three segments. */
  lemma PatientIdExample()
    ensures Classifiable("TCGA-AB-1234-01A-11D")
    ensures PatientId("TCGA-AB-1234-01A-11D") == "TCGA-AB-1234"
  {
    var segments := ["TCGA", "AB", "1234", "01A", "11D"];
    PatientIdOfSegments(segments);
    assert Join(segments, BarcodeSeparator) == "TCGA-AB-1234-01A-11D";
    assert segments[..PatientSegments] == ["TCGA", "AB", "1234"];
    assert Join(["TCGA", "AB", "1234"], BarcodeSeparator) == "TCGA-AB-1234";
  }

  /** A barcode of more than three segments is classifiable, and its
      patient id joins its first three segments. */
  lemma PatientIdOfSegments(segments: seq<string>)
    requires |segments| > SampleTypeSegment
    requires forall k :: 0 <= k < |segments| ==> BarcodeSeparator !in segments[k]
    ensures Classifiable(Join(segments, BarcodeSeparator))
    ensures PatientId(Join(segments, BarcodeSeparator)) == Join(segments[..PatientSegments], BarcodeSeparator)
  {
    SplitJoin(segments, BarcodeSeparator);
    var id := PatientId(Join(segments, BarcodeSeparator));
    JoinSplit(id, BarcodeSeparator);
  }

  lemma PrimarySegments()
    ensures Split("TCGA-AB-1234-01A-11D", BarcodeSeparator) == ["TCGA", "AB", "1234", "01A", "11D"]
  {
    var segments := ["TCGA", "AB", "1234", "01A", "11D"];
    assert Join(segments, BarcodeSeparator) == "TCGA-AB-1234-01A-11D";
    SplitJoin(segments, BarcodeSeparator);
  }

  lemma NormalSegments()
    ensures Split("TCGA-AB-1234-11A-01D", BarcodeSeparator) == ["TCGA", "AB", "1234", "11A", "01D"]
  {
    var segments := ["TCGA", "AB", "1234", "11A", "01D"];
    assert Join(segments, BarcodeSeparator) == "TCGA-AB-1234-11A-01D";
    SplitJoin(segments, BarcodeSeparator);
  }

  /** A barcode whose sample type is `11A` (normal tissue) is classifiable
      but not a primary tumour, although a later segment holds `01`. */
  lemma NormalBarcodeExample()
    ensures Classifiable("TCGA-AB-1234-11A-01D") && !PrimaryTumour("TCGA-AB-1234-11A-01D")
  {
    NormalSegments();
    NormalSampleType();
  }

  /** Sample type `11A` does not contain the primary-tumour code. */
  lemma NormalSampleType()
    ensures !Contains("11A", PrimaryTumourCode)
  {
    assert PrimaryTumourCode == "01";
    assert "11A"[1..] == "1A" && "1A"[1..] == "A" && "A"[1..] == "";
    assert "01"[0] != "11A"[0] && "01"[0] != "1A"[0];
    assert !Contains("11A", "01");
  }

  /** Every primary-tumour record can be normalised. */
  lemma PrimaryNormalizable(t: Table)
    ensures forall i :: 0 <= i < |t| && PrimaryRecord(t[i]) ==> Normalize.requires(t[i])
  {
    forall i | 0 <= i < |t| && PrimaryRecord(t[i]) ensures Normalize.requires(t[i]) {
      assert RecordClassifiable(t[i]);
    }
  }

  /** The primary-tumour records, normalised, in their original order. */
  function PrimaryRecords(t: Table): Table
  {
    PrimaryNormalizable(t);
    FilterMap(t, PrimaryRecord, Normalize)
  }

  /** `np.delete(output, prune_list, axis=0)` on the rewritten table keeps
      exactly the normalised primary-tumour records, in order. */
  lemma BatchDeleteKeepsPrimary(t: Table)
    requires Width3(t)
    ensures DeleteAt(NormalizeAll(t), IndicesWhere(t, PrunedRecord)) == PrimaryRecords(t)
  {
    PrimaryNormalizable(t);
    DeleteComplement(t, NormalizeAll(t), PrimaryRecord, PrunedRecord, Normalize);
  }

  /** The pruned table holds one normalised record per primary-tumour
      record, in order; with the prune list it accounts for every record. */
  lemma {:induction false} PrimaryRecordsAreNormalized(t: Table)
    ensures |PrimaryRecords(t)| == |IndicesWhere(t, PrimaryRecord)|
    ensures |PrimaryRecords(t)| + |IndicesWhere(t, PrunedRecord)| == |t|
    ensures forall k :: 0 <= k < |PrimaryRecords(t)| ==>
      PrimaryRecords(t)[k] == Normalize(t[IndicesWhere(t, PrimaryRecord)[k]])
  {
    PrimaryNormalizable(t);
    FilterMapAt(t, PrimaryRecord, Normalize);
    IndicesPartition(t, PrimaryRecord, PrunedRecord);
  }

  /** Every record of the pruned table has three fields: the gene name and
      gene id of a primary-tumour record and a patient id of exactly three
      segments, the leading segments of that record's barcode. */
  lemma PrimaryRecordsShape(t: Table)
    ensures Width3(PrimaryRecords(t))
    ensures forall k :: 0 <= k < |PrimaryRecords(t)| ==>
      |Split(PrimaryRecords(t)[k][BarcodeColumn], BarcodeSeparator)| == PatientSegments
  {
    PrimaryRecordsAreNormalized(t);
  }

  // ---------------------------------------------------------------------
  // Per-column sort
  // ---------------------------------------------------------------------

  function Column(t: Table, c: nat): seq<string>
    requires Width3(t) && c < 3
  {
    seq(|t|, i requires 0 <= i < |t| => t[i][c])
  }

  /** The table whose three columns are `c0`, `c1` and `c2`. */
  function FromColumns(c0: seq<string>, c1: seq<string>, c2: seq<string>): (t: Table)
    requires |c0| == |c1| == |c2|
    ensures |t| == |c0| && Width3(t)
    ensures Column(t, 0) == c0 && Column(t, 1) == c1 && Column(t, 2) == c2
  {
    seq(|c0|, i requires 0 <= i < |c0| => [c0[i], c1[i], c2[i]])
  }

  /** `np.sort(t, axis=0)`: each of the three columns is sorted on its
      own, so a row of the result need not be a row of `t`. */
  function SortColumns(t: Table): (s: Table)
    requires Width3(t)
    ensures |s| == |t| && Width3(s)
    ensures SortedStrings(Column(s, 0)) && SortedStrings(Column(s, 1)) && SortedStrings(Column(s, 2))
    ensures multiset(Column(s, 0)) == multiset(Column(t, 0))
    ensures multiset(Column(s, 1)) == multiset(Column(t, 1))
    ensures multiset(Column(s, 2)) == multiset(Column(t, 2))
  {
    FromColumns(SortStrings(Column(t, 0)), SortStrings(Column(t, 1)), SortStrings(Column(t, 2)))
  }

  /** Any table whose columns are sorted permutations of the columns of `t`
      is `SortColumns(t)`: the result does not depend on the algorithm
      numpy uses. */
  lemma SortColumnsUnique(t: Table, s: Table)
    requires Width3(t) && Width3(s) && |s| == |t|
    requires SortedStrings(Column(s, 0)) && SortedStrings(Column(s, 1)) && SortedStrings(Column(s, 2))
    requires multiset(Column(s, 0)) == multiset(Column(t, 0))
    requires multiset(Column(s, 1)) == multiset(Column(t, 1))
    requires multiset(Column(s, 2)) == multiset(Column(t, 2))
    ensures s == SortColumns(t)
  {
    var u := SortColumns(t);
    assert Column(s, 0) == Column(u, 0) by { SortedStringsUnique(Column(s, 0), Column(u, 0)); }
    assert Column(s, 1) == Column(u, 1) by { SortedStringsUnique(Column(s, 1), Column(u, 1)); }
    assert Column(s, 2) == Column(u, 2) by { SortedStringsUnique(Column(s, 2), Column(u, 2)); }
    forall i | 0 <= i < |s| ensures s[i] == u[i] {
      RowOfColumns(s, i);
      RowOfColumns(u, i);
    }
  }

  /** A row of a three-column table is read off its columns. */
  lemma RowOfColumns(t: Table, i: nat)
    requires Width3(t) && i < |t|
    ensures t[i] == [Column(t, 0)[i], Column(t, 1)[i], Column(t, 2)[i]]
  {
  }

  /** The per-column sort does not keep records together: after sorting,
      gene BRCA1 sits beside the patient of the TP53 record. */
  lemma SortColumnsSeparatesRecords()
    ensures SortColumns([["TP53", "7157", "TCGA-A1-0001"], ["BRCA1", "672", "TCGA-B2-0002"]])
      == [["BRCA1", "672", "TCGA-A1-0001"], ["TP53", "7157", "TCGA-B2-0002"]]
  {
    var patients := ["TCGA-A1-0001", "TCGA-B2-0002"];
    var t := FromColumns(["TP53", "BRCA1"], ["7157", "672"], patients);
    var s := FromColumns(["BRCA1", "TP53"], ["672", "7157"], patients);
    assert t == [["TP53", "7157", "TCGA-A1-0001"], ["BRCA1", "672", "TCGA-B2-0002"]];
    assert s == [["BRCA1", "672", "TCGA-A1-0001"], ["TP53", "7157", "TCGA-B2-0002"]];
    SortedPair("BRCA1", "TP53");
    SortedPair("672", "7157");
    PatientsSorted();
    SwapPermutes("TP53", "BRCA1");
    SwapPermutes("7157", "672");
    SortColumnsUnique(t, s);
  }

  lemma PatientsSorted()
    ensures SortedStrings(["TCGA-A1-0001", "TCGA-B2-0002"])
  {
    assert LexLe("TCGA-A1-0001", "TCGA-B2-0002") by {
      assert FirstDifferenceAt("TCGA-A1-0001", "TCGA-B2-0002", 5);
      LexLeFirstDifference("TCGA-A1-0001", "TCGA-B2-0002");
    }
    SortedPair("TCGA-A1-0001", "TCGA-B2-0002");
  }

  lemma SortedPair(x: string, y: string)
    requires LexLe(x, y)
    ensures SortedStrings([x, y])
  {
  }

  lemma SwapPermutes<T>(x: T, y: T)
    ensures multiset([x, y]) == multiset([y, x])
  {
  }

  // ---------------------------------------------------------------------
  // The whole stage
  // ---------------------------------------------------------------------

  /** The rows yield records and every record's barcode can be classified:
      the only inputs on which `process_one_cancer_somatic` returns. */
  predicate Succeeds(rows: seq<Row>, startRow: nat)
  {
    startRow <= |rows| && NoMalformed(rows[startRow..])
    && AllClassifiable(Records(rows[startRow..]))
  }

  /** `process_one_cancer_somatic` on the rows of one file: the per-column
      sort of the normalised primary-tumour records. On failure the error
      is the first one the source would raise. */
  method ProcessOneCancerSomatic(rows: seq<Row>, startRow: nat := 1) returns (r: Result<Table>)
    ensures r.Ok? <==> Succeeds(rows, startRow)
    ensures r.Ok? ==> Width3(PrimaryRecords(Records(rows[startRow..])))
    ensures r.Ok? ==> r.value == SortColumns(PrimaryRecords(Records(rows[startRow..])))
    ensures r == Err(MissingHeaderRows) <==> |rows| < startRow
    ensures r.Err? && r.error.MalformedRow? ==>
      startRow <= r.error.row < |rows| && Malformed(rows[r.error.row])
      && NoMalformed(rows[startRow..r.error.row])
    ensures r.Err? && r.error.BarcodeFormat? ==>
      startRow <= |rows| && NoMalformed(rows[startRow..])
      && r.error.record < |Records(rows[startRow..])|
      && !RecordClassifiable(Records(rows[startRow..])[r.error.record])
      && AllClassifiable(Records(rows[startRow..])[..r.error.record])
  {
    var extracted := ExtractRecords(rows, startRow);
    if extracted.Err? {
      return Err(extracted.error);
    }
    var records := extracted.value;
    RecordsWidth(rows[startRow..]);
    var classified := NormalizeBarcodes(records);
    if classified.Err? {
      return Err(classified.error);
    }
    var kept := DeleteAt(classified.value.table, classified.value.pruneList);
    BatchDeleteKeepsPrimary(records);
    PrimaryRecordsShape(records);
    return Ok(SortColumns(kept));
  }
}
