/** The filter engine: the symptom and disease searches over the dataset and
    the type-ahead filter of the dropdown lists. */
module Search {
  import opened Seqs
  import opened Text
  import opened Points
  import opened Results

  /** Why a search was refused (the "Please select at least one ..." alert). */
  datatype SearchError = EmptySelection

  /** The `some(...)` callback: one of the selected terms, lower-cased, occurs
      in the lower-cased field text. */
  predicate MentionsAny(text: string, terms: seq<string>) {
    exists t :: t in terms && Includes(Lower(text), Lower(t))
  }

  /** The `filter` callback evaluated on every record of the dataset. */
  function MatchFlags(dataset: seq<PointRecord>, terms: seq<string>, f: Field): seq<bool> {
    seq(|dataset|, i requires 0 <= i < |dataset| => MentionsAny(FieldValue(dataset[i], f), terms))
  }

  /** `searchBySymptoms` (f == Symptoms) and `searchByDiseases`
      (f == Diseases): refused on an empty selection, otherwise the records
      the callback accepts, in dataset order. */
  function SearchPoints(dataset: seq<PointRecord>, terms: seq<string>, f: Field): Result<seq<PointRecord>, SearchError> {
    if |terms| == 0 then Failure(EmptySelection)
    else Success(Pick(dataset, MatchFlags(dataset, terms, f)))
  }

  /** A search is refused exactly when nothing is selected; otherwise it
      returns, in dataset order and each once, exactly the records whose
      field mentions some selected term: the k-th result is the record at
      the k-th matching position. */
  lemma SearchPointsExactly(dataset: seq<PointRecord>, terms: seq<string>, f: Field)
    ensures SearchPoints(dataset, terms, f).Failure? <==> terms == []
    ensures terms != [] ==>
      var r, idx := SearchPoints(dataset, terms, f).value, PickedIndices(MatchFlags(dataset, terms, f));
      && |r| == |idx|
      && (forall k :: 0 <= k < |idx| ==> idx[k] < |dataset| && r[k] == dataset[idx[k]])
      && (forall k, l :: 0 <= k < l < |idx| ==> idx[k] < idx[l])
      && (forall i :: 0 <= i < |dataset| ==> (MentionsAny(FieldValue(dataset[i], f), terms) <==> i in idx))
  {
    PickAt(dataset, MatchFlags(dataset, terms, f));
  }

  /** Every search result is a dataset record that mentions a selected term. */
  lemma SearchPointsSound(dataset: seq<PointRecord>, terms: seq<string>, f: Field, p: PointRecord)
    requires terms != [] && p in SearchPoints(dataset, terms, f).value
    ensures p in dataset && MentionsAny(FieldValue(p, f), terms)
  {
    var flags := MatchFlags(dataset, terms, f);
    PickAt(dataset, flags);
    var r, idx := Pick(dataset, flags), PickedIndices(flags);
    var k :| 0 <= k < |r| && r[k] == p;
    assert dataset[idx[k]] == p;
  }

  /** Of three records where only the first two mention a selected term,
      the search returns those two, in dataset order. */
  lemma SearchOfThree(a: PointRecord, b: PointRecord, c: PointRecord, terms: seq<string>, f: Field)
    requires terms != []
    requires MentionsAny(FieldValue(a, f), terms) && MentionsAny(FieldValue(b, f), terms)
    requires !MentionsAny(FieldValue(c, f), terms)
    ensures SearchPoints([a, b, c], terms, f) == Success([a, b])
  {
    var ds := [a, b, c];
    var flags := MatchFlags(ds, terms, f);
    assert flags == [true, true, false];
    assert ds[..2] == [a, b] && flags[..2] == [true, true];
    assert ds[..2][..1] == [a] && flags[..2][..1] == [true];
    assert ds[..2][..1][..0] == [] && flags[..2][..1][..0] == [];
    assert Pick([a], [true]) == [a];
    assert Pick([a, b], [true, true]) == [a, b];
    assert Pick(ds, flags) == [a, b];
  }

  /** The example of three records: only the two whose symptoms mention
      "headache" are found, in dataset order. */
  lemma SearchExample(a: PointRecord, b: PointRecord, c: PointRecord)
    requires a.symptoms == "headache, nausea" && b.symptoms == "fever, headache" && c.symptoms == "cough"
    ensures SearchPoints([a, b, c], ["headache"], Symptoms) == Success([a, b])
  {
    MentionsHeadache(a.symptoms, 0);
    MentionsHeadache(b.symptoms, 7);
    MentionsNothingLonger(c.symptoms, "headache");
    SearchOfThree(a, b, c, ["headache"], Symptoms);
  }

  /** A text with "headache" at position `i` mentions the term "headache". */
  lemma MentionsHeadache(text: string, i: nat)
    requires i + 8 <= |text| && text[i..i + 8] == "headache"
    ensures MentionsAny(text, ["headache"])
  {
    var low := Lower(text);
    assert Lower("headache") == "headache";
    assert low[i..i + 8] == Lower(text[i..i + 8]);
    assert OccursAt(low, Lower("headache"), i);
  }

  /** No text mentions a term longer than itself. */
  lemma MentionsNothingLonger(text: string, term: string)
    requires |text| < |term|
    ensures !MentionsAny(text, [term])
  {
    assert |Lower(text)| < |Lower(term)|;
  }

  /** The dropdown's filter callback: the item contains the typed term,
      ignoring case. */
  function ItemFlags(items: seq<string>, term: string): seq<bool> {
    seq(|items|, i requires 0 <= i < |items| => Includes(Lower(items[i]), Lower(term)))
  }

  /** `filterDropdown`'s list: the items that contain the term. */
  function DropdownItems(term: string, items: seq<string>): seq<string> {
    Pick(items, ItemFlags(items, term))
  }

  /** The dropdown keeps, in list order, exactly the items containing the
      term, ignoring case. */
  lemma DropdownItemsExactly(term: string, items: seq<string>)
    ensures var r, idx := DropdownItems(term, items), PickedIndices(ItemFlags(items, term));
      && |r| == |idx|
      && (forall k :: 0 <= k < |idx| ==> idx[k] < |items| && r[k] == items[idx[k]])
      && (forall k, l :: 0 <= k < l < |idx| ==> idx[k] < idx[l])
      && (forall i :: 0 <= i < |items| ==> (Includes(Lower(items[i]), Lower(term)) <==> i in idx))
  {
    PickAt(items, ItemFlags(items, term));
  }

  /** An empty search box lists every item. */
  lemma DropdownEmptyTerm(items: seq<string>)
    ensures DropdownItems("", items) == items
  {
    forall i | 0 <= i < |items| ensures ItemFlags(items, "")[i] {
      IncludesEmpty(Lower(items[i]));
    }
    PickAll(items, ItemFlags(items, ""));
  }
}
