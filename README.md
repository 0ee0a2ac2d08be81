# Somatic-mutation preprocessor of pamogk, modelled in Dafny

pamogk's `data_processor/synapse_som_processor.py` reads one cancer type's
tab-separated mutation annotation file (`.maf`) and builds the table of
(gene name, Entrez gene id, patient id) that it writes out. It works in four
stages:

1. It skips the header rows and keeps every row with more than one field,
   taking fields 0, 1 and 15.
2. It classifies each record by the sample-type segment of its TCGA barcode
   (the fourth `-`-separated segment). If that segment contains `01`, the
   sample is a primary tumour and the barcode is overwritten in place with
   the patient id (the first three segments). Otherwise the record's
   position goes on a prune list.
3. It deletes the pruned records with one `np.delete`.
4. It sorts the table with `np.sort(axis=0)`. This sorts each of the three
   columns on its own, so a row of the result need not be a record of the
   input.

The analysis side does two more things. `read_processed_data` groups the
rows of a processed file into a dictionary from patient id to that
patient's set of gene ids. `draw_hist` turns that dictionary into the
sorted list of per-patient mutated-gene counts.

The project has five modules:

- `PyStrings` (`py_strings.dfy`) models the Python string operations the
  code relies on: `str.split` on one character (`"".split("-") == [""]`),
  `str.join`, the substring test `in`, and code-point string order. It
  proves their relationships: join undoes split, split undoes join on
  separator-free pieces, and the order is a total order that agrees with
  its first-difference definition.
- `Sorting` (`sorting.dfy`) models `np.sort` on one column of strings and
  `sorted` on a list of integers. Each result is proved sorted and a
  permutation of its input. The sorted permutation is proved unique, so the
  result does not depend on numpy's algorithm.
- `Indices` (`indices.dfy`) holds the order-preserving selections the code
  uses:
  - "keep these rows and project them";
  - "the positions where a test holds," which is how `prune_list` is built;
  - `np.delete(…, axis=0)`.

  It also proves that deleting the complement of a test is the same as
  filtering by it.
- `SomProcessor` (`som_processor.dfy`) models `process_one_cancer_somatic`
  as methods with loops and invariants. The loops over the data rows and
  over the records are loops in the model. The header-skipping loop
  (`for i in range(start_row): next(csv_reader)`) becomes a test of the
  number of rows against `start_row`. The methods are proved against the specification functions `Records`, `NormalizeAll`,
  `IndicesWhere`, `PrimaryRecords` and `SortColumns`.
- `MutationSummary` (`mutation_summary.dfy`) models the grouping loop of
  `read_processed_data` and the counting loop and sort of `draw_hist`.

Errors are values of `SomProcessor.Error`, returned in a `Result`.
`MalformedRow` and `BarcodeFormat` name the first offending position, which
is where the source raises; `MissingHeaderRows` carries no position:

- `MissingHeaderRows`: `next(csv_reader)` raises `StopIteration` because
  the file has fewer than `start_row` rows.
- `MalformedRow(i)`: `row[15]` raises `IndexError` on a kept row with at
  most 15 fields.
- `BarcodeFormat(k)`: `splitted[3]` raises `IndexError` on a barcode with
  fewer than four segments.

No empty-dataset error is raised: when every record is pruned,
`process_one_cancer_somatic` returns an empty table. The model does the
same.

Some behaviour of the source is modelled exactly as written:

- `'01' in splitted[3]` is a substring test. A sample-type segment such as
  `101` or `B01` also counts as a primary tumour.
- The per-column sort is modelled as written, not as a row sort.
  `SomProcessor.SortColumnsSeparatesRecords` shows a pair of records whose
  gene names and patients change partners.
- The patient id is a prefix of the barcode it replaces (`PatientId`), so
  it always fits the fixed-width numpy string cell the barcode occupied. The
  in-place overwrite therefore never truncates.

## Model

| member | source | states |
|---|---|---|
| PyStrings.Split | data_processor/synapse_som_processor.py:47 | `tmp.split('-')`: one more piece than there are separators, and no piece contains the separator |
| PyStrings.JoinSplit | data_processor/synapse_som_processor.py:47-50 | joining the pieces of a split with the separator gives back the original string |
| PyStrings.SplitJoin | data_processor/synapse_som_processor.py:50 | splitting the join of one or more separator-free pieces gives back exactly those pieces |
| PyStrings.JoinPrefix | data_processor/synapse_som_processor.py:50 | joining the first n pieces gives a prefix of joining all of them |
| PyStrings.ContainsAt | data_processor/synapse_som_processor.py:48 | `sub in s` holds exactly when `sub` is a prefix of some suffix of `s` (both directions) |
| PyStrings.LexLeFirstDifference | data_processor/synapse_som_processor.py:56 | the string order holds exactly when `a` is a prefix of `b` or, at their first difference, `a` has the smaller code point (both directions) |
| PyStrings.LexLeReflexive | data_processor/synapse_som_processor.py:56 | the string order is reflexive |
| PyStrings.LexLeAntisymmetric | data_processor/synapse_som_processor.py:56 | strings ordered both ways are equal |
| PyStrings.LexLeTransitive | data_processor/synapse_som_processor.py:56 | the string order is transitive |
| PyStrings.LexLeTotal | data_processor/synapse_som_processor.py:56 | any two strings are ordered one way or the other |
| Sorting.InsertString | data_processor/synapse_som_processor.py:56 | inserting into a sorted column keeps it sorted and adds exactly one occurrence of the new string |
| Sorting.SortStrings | data_processor/synapse_som_processor.py:56 | `np.sort` of one column is ascending and a permutation of the column, of the same length |
| Sorting.SortedStringsUnique | data_processor/synapse_som_processor.py:56 | two ascending columns that are permutations of each other are equal, so the sorted column is unique |
| Sorting.InsertInt | data_processor/synapse_som_processor.py:103 | inserting into a sorted list of integers keeps it sorted and adds exactly one occurrence |
| Sorting.SortInts | data_processor/synapse_som_processor.py:103 | `sorted` of the count list is ascending and a permutation of the list, of the same length |
| Sorting.SortedIntsUnique | data_processor/synapse_som_processor.py:103 | two ascending integer lists that are permutations of each other are equal |
| Indices.IndicesWhere | data_processor/synapse_som_processor.py:45-52 | the positions where a test holds: all in range, strictly ascending, and every position where the test holds is among them |
| Indices.IndicesWhereExtend | data_processor/synapse_som_processor.py:51-52 | one more element adds its position to the list exactly when the test holds of it |
| Indices.IndicesPartition | data_processor/synapse_som_processor.py:45-52 | the positions satisfying a test and those satisfying its complement together number the whole sequence |
| Indices.FilterMapExtend | data_processor/synapse_som_processor.py:37-40 | one more row appends its image exactly when the row is kept |
| Indices.FilterMapAt | data_processor/synapse_som_processor.py:37-40 | the selection has one element per kept position: the image of the element there, in order |
| Indices.DeleteAtIgnoresBeyond | data_processor/synapse_som_processor.py:54 | the model's `DeleteAt` gives the same result when positions at or beyond the end are added to the list; a step in the proof of `DeleteComplement` on prefixes of the table (numpy itself would raise on such positions, and `prune_list` never holds any) |
| Indices.DeleteComplement | data_processor/synapse_som_processor.py:45-54 | deleting the positions where a test fails from a pointwise-rewritten sequence gives the rewritten elements where it holds, in order |
| SomProcessor.RecordsAreProjections | data_processor/synapse_som_processor.py:37-40 | each row with more than one field yields one record (its fields 0, 1 and 15), in row order, and no other row yields one |
| SomProcessor.RecordsWidth | data_processor/synapse_som_processor.py:39 | every extracted record has three fields |
| SomProcessor.ExtractRecords | data_processor/synapse_som_processor.py:30-40 | `start_row` defaults to 1; fails with `MissingHeaderRows` exactly when there are fewer rows than `start_row`; otherwise fails exactly when a kept row has at most 15 fields, naming the first one; on success returns the records of the rows after the header |
| SomProcessor.PatientId | data_processor/synapse_som_processor.py:50 | `'-'.join(splitted[0:3])` splits into exactly the first three segments of the barcode and is a prefix of the barcode |
| SomProcessor.PatientIdOfSegments | data_processor/synapse_som_processor.py:47-50 | a barcode of four or more separator-free segments is classifiable, and its patient id is the join of its first three segments |
| SomProcessor.Normalize | data_processor/synapse_som_processor.py:50 | rewriting a record keeps its gene name and gene id and replaces its barcode by one with the first three segments |
| SomProcessor.ClassifyStep | data_processor/synapse_som_processor.py:45-52 | one turn of the loop on a classifiable record: it is pruned exactly when its sample-type segment does not contain `01`; a primary-tumour record has its barcode overwritten with the patient id and any other is left unchanged; the rewritten prefix grows by that record and the prune list by its position when it is pruned |
| SomProcessor.NormalizeBarcodes | data_processor/synapse_som_processor.py:45-52 | fails exactly when some barcode has fewer than four segments, naming the first such record; otherwise returns the table with every primary-tumour barcode rewritten and all other records untouched, and `prune_list` as exactly the ascending positions of the non-primary records |
| SomProcessor.PrimaryBarcodeExample | data_processor/synapse_som_processor.py:48 | `TCGA-AB-1234-01A-11D` is a primary-tumour barcode |
| SomProcessor.PatientIdExample | data_processor/synapse_som_processor.py:50 | the patient id of `TCGA-AB-1234-01A-11D` is `TCGA-AB-1234` |
| SomProcessor.NormalBarcodeExample | data_processor/synapse_som_processor.py:48-52 | `TCGA-AB-1234-11A-01D` (normal tissue) is classifiable but not a primary tumour, although a later segment holds `01` |
| SomProcessor.BatchDeleteKeepsPrimary | data_processor/synapse_som_processor.py:45-54 | `np.delete` of `prune_list` from the rewritten table leaves exactly the rewritten primary-tumour records, in their original order |
| SomProcessor.PrimaryRecordsAreNormalized | data_processor/synapse_som_processor.py:52-54 | the pruned table has one row per primary-tumour record, that record rewritten, in order; together with the prune list it accounts for every record |
| SomProcessor.PrimaryRecordsShape | data_processor/synapse_som_processor.py:50-54 | every row of the pruned table has three fields, and its patient id has exactly three segments |
| SomProcessor.FromColumns | data_processor/synapse_som_processor.py:56 | the table assembled from three equal-length columns has those columns |
| SomProcessor.SortColumns | data_processor/synapse_som_processor.py:56 | `np.sort(axis=0)` keeps the row count and three fields per row; each column is ascending and a permutation of the same column before sorting |
| SomProcessor.SortColumnsUnique | data_processor/synapse_som_processor.py:56 | any table whose columns are ascending permutations of the input's columns is the sorted table |
| SomProcessor.SortColumnsSeparatesRecords | data_processor/synapse_som_processor.py:56 | the columns are sorted independently: records (TP53, 7157, TCGA-A1-0001) and (BRCA1, 672, TCGA-B2-0002) become rows (BRCA1, 672, TCGA-A1-0001) and (TP53, 7157, TCGA-B2-0002) |
| SomProcessor.ProcessOneCancerSomatic | data_processor/synapse_som_processor.py:30-56 | succeeds exactly when the header rows exist, no kept row is short and every barcode has a sample-type segment, and then returns the per-column sort of the rewritten primary-tumour records in file order; on failure returns the first error the source raises |
| MutationSummary.GroupsExtend | data_processor/synapse_som_processor.py:91-94 | one more row adds its patient, and adds its gene id to that patient's set and to no other |
| MutationSummary.GroupByPatient | data_processor/synapse_som_processor.py:85-96 | the dictionary's keys are exactly the patients of the rows; each patient's set is exactly the gene ids of its rows, and is nonempty |
| MutationSummary.PatientsWithCountStep | data_processor/synapse_som_processor.py:101-102 | counting one more patient adds one to the number of patients with its count and leaves the others alone |
| MutationSummary.MutatedGeneCounts | data_processor/synapse_som_processor.py:100-103 | one count per patient; each count `n` occurs as often as there are patients with `n` mutated genes; ascending |
| MutationSummary.CountsDetermined | data_processor/synapse_som_processor.py:101-103 | the count list does not depend on the order of the dictionary's keys: two lists meeting that contract are equal |

## Left out

- Command-line parsing (`argparse`, lines 23-27) is left out: it only picks the input path.
- File and csv I/O is left out: opening and decoding the file, the tab-separated reader, `csv.writer` in `write_to_file` (lines 60-65) and `csv.DictReader` in `read_processed_data`. The model starts from the rows the reader yields and returns the table to write.
- A missing input file is left out with the rest of the I/O. So is a `KeyError` from a processed file without a `Patient ID` or `Entrez Gene ID` column: the model starts from rows already reduced to those two fields.
- `np.savetxt`, the histogram and the figure in `draw_hist` (lines 104-110) are left out as output. So is the `ValueError` that `max` raises there on an empty count list.
- `prune_ind` (lines 43 and 49) is left out: it is written and never read.
- The batch drivers and path helpers (`report_all_cancer_types`, `ensure_dir`, `process_and_save_cancer`, `process_and_save_all` and the calls at the end of the file, lines 74-137) and the prints of `print_report` (lines 68-71) are left out: they are loops over cancer types, file naming and reporting.
- SomProcessor.NormalizeBarcodes: the numpy table is a sequence value updated in place, one record at a time. Aliasing between `data` and the row of `output` is not modelled: the loop writes the row of the table directly.
- The numpy dtype is left out: `np.array` turns the records into fixed-width unicode cells. Since no cell grows, the only effect would be on strings ending in NUL characters, which numpy strips.
- Indices.DeleteAt: positions at or beyond the end of the table are ignored, where `np.delete` would raise `IndexError`. The source never passes such a position, since `prune_list` only holds positions of records of `output` (`IndicesWhere`).
- SomProcessor.ExtractRecords: `start_row` is a natural number. A negative `start_row`, which Python's `range` would treat as zero, is not modelled.
- MutationSummary.MutatedGeneCounts: the order in which the dictionary yields its keys is left open, so the loop picks any remaining patient. Because the counts are sorted, the result is the same for every order (`CountsDetermined`).
