/** The analysis side of `data_processor/synapse_som_processor.py`:
    `read_processed_data` groups the rows of the processed somatic file
    into a dictionary from patient id to the set of that patient's mutated
    Entrez gene ids, and `draw_hist` turns the dictionary into the sorted
    list of per-patient mutated-gene counts that it saves and plots. */
module MutationSummary {
  import opened Sorting

  /** The two columns `read_processed_data` reads from each row. */
  datatype Entry = Entry(patientId: string, entrezGeneId: string)

  /** The patient ids that occur in the entries. */
  function PatientsIn(entries: seq<Entry>): set<string>
  {
    set i | 0 <= i < |entries| :: entries[i].patientId
  }

  /** The gene ids that occur in the entries together with patient `p`. */
  function GenesOf(entries: seq<Entry>, p: string): set<string>
  {
    set i | 0 <= i < |entries| && entries[i].patientId == p :: entries[i].entrezGeneId
  }

  /** `patients` holds exactly the patients of the entries, each with the
      set of its gene ids. */
  predicate Groups(entries: seq<Entry>, patients: map<string, set<string>>)
  {
    patients.Keys == PatientsIn(entries)
    && forall p :: p in patients ==> patients[p] == GenesOf(entries, p)
  }

  /** Adding one entry adds its patient, and its gene to that patient. */
  lemma GroupsExtend(entries: seq<Entry>, e: Entry)
    ensures PatientsIn(entries + [e]) == PatientsIn(entries) + {e.patientId}
    ensures forall p ::
              GenesOf(entries + [e], p)
              == GenesOf(entries, p) + (if p == e.patientId then {e.entrezGeneId} else {})
  {
    var s := entries + [e];
    assert s[|entries|] == e;
    assert forall i :: 0 <= i < |entries| ==> s[i] == entries[i];
  }

  /** The grouping loop of `read_processed_data`: a first sighting of a
      patient creates its set with the row's gene id, a later one adds the
      gene id to it. Every patient's set is nonempty. */
  method GroupByPatient(entries: seq<Entry>) returns (patients: map<string, set<string>>)
    ensures Groups(entries, patients)
    ensures forall p :: p in patients ==> patients[p] != {}
  {
    patients := map[];
    var i := 0;
    while i < |entries|
      invariant 0 <= i <= |entries|
      invariant Groups(entries[..i], patients)
      invariant forall p :: p in patients ==> patients[p] != {}
    {
      var patId := entries[i].patientId;
      var entId := entries[i].entrezGeneId;
      if patId !in patients {
        patients := patients[patId := {entId}];
      } else {
        patients := patients[patId := patients[patId] + {entId}];
      }
      assert entries[..i + 1] == entries[..i] + [entries[i]];
      GroupsExtend(entries[..i], entries[i]);
      i := i + 1;
    }
    assert entries[..i] == entries;
  }

  /** The patients among `among` with exactly `n` mutated genes. */
  function PatientsWithCount(patients: map<string, set<string>>, among: set<string>, n: int): set<string>
  {
    set p | p in among && p in patients && |patients[p]| == n
  }

  /** Counting one more patient adds one to the number of patients with
      its count and leaves the other counts alone. */
  lemma PatientsWithCountStep(patients: map<string, set<string>>, done: set<string>, p: string, n: int)
    requires p in patients && p !in done
    ensures |PatientsWithCount(patients, done + {p}, n)|
      == |PatientsWithCount(patients, done, n)| + (if |patients[p]| == n then 1 else 0)
  {
    if |patients[p]| == n {
      assert PatientsWithCount(patients, done + {p}, n) == PatientsWithCount(patients, done, n) + {p};
    } else {
      assert PatientsWithCount(patients, done + {p}, n) == PatientsWithCount(patients, done, n);
    }
  }

  /** The list `draw_hist` builds and sorts: one entry per patient, the size
      of that patient's gene set, so each count `n` occurs as often as there
      are patients with `n` mutated genes; ascending. */
  method MutatedGeneCounts(patients: map<string, set<string>>) returns (counts: seq<int>)
    ensures |counts| == |patients|
    ensures SortedInts(counts)
    ensures forall n :: multiset(counts)[n] == |PatientsWithCount(patients, patients.Keys, n)|
  {
    var countMutatedGenes: seq<int> := [];
    var remaining := patients.Keys;
    while remaining != {}
      invariant remaining <= patients.Keys
      invariant |countMutatedGenes| == |patients.Keys - remaining|
      invariant forall n ::
                  multiset(countMutatedGenes)[n]
                  == |PatientsWithCount(patients, patients.Keys - remaining, n)|
      decreases |remaining|
    {
      var patient :| patient in remaining;
      var done := patients.Keys - remaining;
      forall n ensures multiset(countMutatedGenes + [|patients[patient]|])[n]
        == |PatientsWithCount(patients, done + {patient}, n)|
      {
        PatientsWithCountStep(patients, done, patient, n);
      }
      assert patients.Keys - (remaining - {patient}) == done + {patient};
      countMutatedGenes := countMutatedGenes + [|patients[patient]|];
      remaining := remaining - {patient};
    }
    assert patients.Keys - remaining == patients.Keys;
    counts := SortInts(countMutatedGenes);
  }

  /** The count list does not depend on the order in which the dictionary
      yields its patients: any two lists meeting the contract of
      `MutatedGeneCounts` are equal. */
  lemma CountsDetermined(patients: map<string, set<string>>, a: seq<int>, b: seq<int>)
    requires SortedInts(a) && SortedInts(b)
    requires forall n :: multiset(a)[n] == |PatientsWithCount(patients, patients.Keys, n)|
    requires forall n :: multiset(b)[n] == |PatientsWithCount(patients, patients.Keys, n)|
    ensures a == b
  {
    assert multiset(a) == multiset(b);
    SortedIntsUnique(a, b);
  }
}
