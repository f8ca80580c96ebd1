/** The page's global state: the two selection arrays, the current results
    with one checkbox per row, and what the results area shows. */
module Session {
  import opened Seqs
  import opened Text
  import opened Points
  import opened Results
  import opened Search
  import opened Selection

  /** What the results area shows: hidden (after a clear), the "no results"
      notice, or the table under its count line. */
  datatype Panel = Hidden | NoResults | Listing(count: string)

  /** `displayResults`' count line: "`n` point found" for one point,
      "`n` points found" otherwise. */
  function CountLabel(n: nat): string {
    NatToString(n) + (if n != 1 then " points found" else " point found")
  }

  /** The count line starts with the number of results written in decimal,
      which reads back as that number, and the noun is plural exactly when
      the number is not one. */
  lemma CountLabelReadsBack(n: nat)
    ensures DecimalValue(LeadingDigits(CountLabel(n))) == n
    ensures var line := CountLabel(n);
      |line| >= 12 && (line[|line| - 12..] == "points found" <==> n != 1)
  {
    NatToStringRoundTrip(n);
    var suffix := if n != 1 then " points found" else " point found";
    LeadingDigitsOf(NatToString(n), suffix);
    var line := CountLabel(n);
    assert line[|line| - |suffix|..] == suffix;
    if n == 1 {
      assert line[|line| - 12..] == suffix[|suffix| - 12..];
    } else {
      assert line[|line| - 12..] == suffix[1..];
    }
  }

  /** `displayResults`: the "no results" notice for an empty result, the
      count line otherwise. */
  function PanelFor(results: seq<PointRecord>): Panel {
    if |results| == 0 then NoResults else Listing(CountLabel(|results|))
  }

  /** `n` checkboxes, all ticked, as `displayResults` renders them. */
  function AllChecked(n: nat): seq<bool> {
    seq(n, _ => true)
  }

  /** Exporting straight after a search carries every result, in order. */
  lemma ExportAfterSearch(results: seq<PointRecord>)
    ensures Pick(results, AllChecked(|results|)) == results
  {
    PickAll(results, AllChecked(|results|));
  }

  /** Unticking the first of two rows after a search leaves only the
      second for the export. */
  lemma UntickFirstOfTwo(results: seq<PointRecord>)
    requires |results| == 2
    ensures Pick(results, AllChecked(2)[0 := false]) == [results[1]]
  {
    var flags := AllChecked(2)[0 := false];
    assert flags == [false, true];
    assert results[..1] == [results[0]] && flags[..1] == [false];
    assert [results[0]][..0] == [] && [false][..0] == [];
    assert Pick([results[0]], [false]) == [];
  }

  class Session {
    /** `ACUPUNCTURE_DATA`. */
    const dataset: seq<PointRecord>
    /** `selectedSymptoms` and `selectedDiseases`. */
    const symptoms: SelectionList
    const diseases: SelectionList
    /** `currentResults` and the `.point-checkbox` of each row. */
    var currentResults: seq<PointRecord>
    var checked: seq<bool>
    var panel: Panel

    /** The two selections are distinct duplicate-free arrays, and there is
        one checkbox per result row. */
    ghost predicate Valid()
      reads this, symptoms, diseases
    {
      && symptoms != diseases
      && symptoms.Valid()
      && diseases.Valid()
      && |checked| == |currentResults|
    }

    /** The selection a search tab works on. */
    function SelectionOf(f: Field): SelectionList
      reads this
    {
      match f
      case Symptoms => symptoms
      case Diseases => diseases
    }

    /** The state at page load: nothing selected, no results shown. */
    constructor (data: seq<PointRecord>)
      ensures Valid() && fresh(symptoms) && fresh(diseases)
      ensures dataset == data
      ensures symptoms.items == [] && diseases.items == []
      ensures currentResults == [] && checked == [] && panel == Hidden
    {
      dataset := data;
      symptoms := new SelectionList();
      diseases := new SelectionList();
      currentResults := [];
      checked := [];
      panel := Hidden;
    }

    /** The search button of a tab: refused (with an alert, changing nothing)
        when the tab's selection is empty; otherwise the results are replaced
        by the search's and displayed with every checkbox ticked. */
    method Search(f: Field) returns (ok: bool)
      requires Valid()
      modifies this
      ensures Valid()
      ensures ok <==> SelectionOf(f).items != []
      ensures !ok ==> currentResults == old(currentResults) && checked == old(checked) && panel == old(panel)
      ensures ok ==>
        && SearchPoints(dataset, SelectionOf(f).items, f) == Success(currentResults)
        && checked == AllChecked(|currentResults|)
        && panel == PanelFor(currentResults)
    {
      var terms := SelectionOf(f).items;
      var found := SearchPoints(dataset, terms, f);
      if found.Failure? {
        ok := false;
        return;
      }
      ok := true;
      currentResults := found.value;
      checked := AllChecked(|currentResults|);
      panel := PanelFor(currentResults);
    }

    /** `clearResults`: no results, no checkboxes, the results area hidden. */
    method ClearResults()
      requires Valid()
      modifies this
      ensures Valid()
      ensures currentResults == [] && checked == [] && panel == Hidden
    {
      currentResults := [];
      checked := [];
      panel := Hidden;
    }

    /** The clear button of a tab: that tab's selection is emptied (the other
        is untouched) and the results are cleared. */
    method Clear(f: Field)
      requires Valid()
      modifies this, SelectionOf(f)
      ensures Valid()
      ensures SelectionOf(f).items == []
      ensures f == Symptoms ==> diseases.items == old(diseases.items)
      ensures f == Diseases ==> symptoms.items == old(symptoms.items)
      ensures currentResults == [] && checked == [] && panel == Hidden
    {
      SelectionOf(f).Clear();
      ClearResults();
    }

    /** `selectAllResults`: every checkbox is ticked, one by one. */
    method SelectAll()
      requires Valid()
      modifies this
      ensures Valid()
      ensures checked == AllChecked(|currentResults|)
      ensures currentResults == old(currentResults) && panel == old(panel)
    {
      var i := 0;
      while i < |checked|
        invariant 0 <= i <= |checked| == |currentResults|
        invariant forall k :: 0 <= k < i ==> checked[k]
        invariant currentResults == old(currentResults) && panel == old(panel)
      {
        checked := checked[i := true];
        i := i + 1;
      }
    }

    /** `deselectAllResults`: every checkbox is cleared, one by one. */
    method DeselectAll()
      requires Valid()
      modifies this
      ensures Valid()
      ensures |checked| == |currentResults| && forall k :: 0 <= k < |checked| ==> !checked[k]
      ensures currentResults == old(currentResults) && panel == old(panel)
    {
      var i := 0;
      while i < |checked|
        invariant 0 <= i <= |checked| == |currentResults|
        invariant forall k :: 0 <= k < i ==> !checked[k]
        invariant currentResults == old(currentResults) && panel == old(panel)
      {
        checked := checked[i := false];
        i := i + 1;
      }
    }

    /** The user ticks or clears the checkbox of one rendered row. */
    method SetChecked(row: nat, value: bool)
      requires Valid() && row < |checked|
      modifies this
      ensures Valid()
      ensures checked == old(checked)[row := value]
      ensures currentResults == old(currentResults) && panel == old(panel)
    {
      checked := checked[row := value];
    }
  }
}
