/** `exportToPDF`: the checked rows become a prescription document with a
    patient block, a summary table, the detail section laid out over pages,
    a footer on every page and a file name built from the patient's name and
    the date. */
module Export {
  import opened Seqs
  import opened Text
  import opened Points
  import opened Results
  import opened Pagination

  const Title := "SHIZOR - Acupuncture Prescription"
  const Attribution := "Generated by SHIZOR - Acupuncture Point Prescription System"
  const FilePrefix := "Acupuncture_Prescription_"
  const FileSuffix := ".pdf"

  /** Why an export was refused (the "Please select at least one
      acupuncture point" alert). */
  datatype ExportError = NothingChecked

  datatype Patient = Patient(name: string, age: string, sex: string)

  /** The date parts the file name is built from: `getFullYear()`,
      `getMonth()` (0 for January) and `getDate()`. */
  datatype Date = Date(year: nat, month: nat, day: nat)

  /** Where the PDF library's table ended: `lastAutoTable.finalY` (in
      millimetres, usually fractional) and the number of pages the document
      has after the table. */
  datatype TableEnd = TableEnd(finalY: real, pages: nat)

  datatype Footer = Footer(page: nat, line: string, attribution: string)

  datatype Document = Document(
    title: string,
    patient: Patient,
    head: seq<string>,
    rows: seq<seq<string>>,
    details: Layout,
    pageCount: nat,
    footers: seq<Footer>,
    fileName: string
  )

  // -------------------------------------------------------------- patient

  /** `field.value || 'N/A'`: an empty field becomes "N/A", any other value
      is kept as typed. */
  function OrNA(value: string): (r: string)
    ensures r != []
    ensures value != [] ==> r == value
    ensures value == [] ==> r == "N/A"
  {
    if value == [] then "N/A" else value
  }

  // -------------------------------------------------------- summary table

  const TableHead: seq<string> := ["Meridian", "Code", "English Name", "Chinese", "Pinyin", "Category",
    "Functions", "Indications", "Location", "Anatomical", "Depth", "Method"]

  /** One row of `tableData`, column for column under TableHead. */
  function TableRow(p: PointRecord): seq<string> {
    [p.meridianSystem, p.pointCode, p.englishName, p.chineseName, p.pinyin, p.pointCategory,
     p.functions, p.indications, p.locationCun, p.anatomicalLocation, p.needlingDepth, p.needlingMethod]
  }

  /** `tableData`: one row per selected point, in order. */
  function TableData(points: seq<PointRecord>): seq<seq<string>> {
    seq(|points|, i requires 0 <= i < |points| => TableRow(points[i]))
  }

  /** The record field shown under each column heading, looked up by the
      heading's text. */
  function ColumnOf(heading: string, p: PointRecord): string {
    if heading == "Meridian" then p.meridianSystem
    else if heading == "Code" then p.pointCode
    else if heading == "English Name" then p.englishName
    else if heading == "Chinese" then p.chineseName
    else if heading == "Pinyin" then p.pinyin
    else if heading == "Category" then p.pointCategory
    else if heading == "Functions" then p.functions
    else if heading == "Indications" then p.indications
    else if heading == "Location" then p.locationCun
    else if heading == "Anatomical" then p.anatomicalLocation
    else if heading == "Depth" then p.needlingDepth
    else if heading == "Method" then p.needlingMethod
    else ""
  }

  /** Every row has one cell per heading, and each cell holds the field
      that heading names. */
  lemma TableRowShape(p: PointRecord)
    ensures |TableRow(p)| == |TableHead|
    ensures forall j :: 0 <= j < |TableHead| ==> TableRow(p)[j] == ColumnOf(TableHead[j], p)
  {
    var row := TableRow(p);
    assert row[0] == ColumnOf("Meridian", p);
    assert row[1] == ColumnOf("Code", p);
    assert row[2] == ColumnOf("English Name", p);
    assert row[3] == ColumnOf("Chinese", p);
    assert row[4] == ColumnOf("Pinyin", p);
    assert row[5] == ColumnOf("Category", p);
    assert row[6] == ColumnOf("Functions", p);
    assert row[7] == ColumnOf("Indications", p);
    assert row[8] == ColumnOf("Location", p);
    assert row[9] == ColumnOf("Anatomical", p);
    assert row[10] == ColumnOf("Depth", p);
    assert row[11] == ColumnOf("Method", p);
  }

  /** The symptom, disease, contraindication and stimulation texts (and the
      general location) are kept out of the table: two records that differ
      only in those give the same row. */
  lemma TableRowIgnoresDetails(p: PointRecord, q: PointRecord)
    requires p.(symptoms := q.symptoms, diseases := q.diseases, contraindications := q.contraindications,
                stimulationMethod := q.stimulationMethod, electricalStimulation := q.electricalStimulation,
                generalLocation := q.generalLocation) == q
    ensures TableRow(p) == TableRow(q)
  {
  }

  // ------------------------------------------------------- detail section

  /** The heading and the four detail paragraphs of the point listed
      `index`-th (from 0). */
  function DetailBlockOf(p: PointRecord, index: nat): DetailBlock {
    DetailBlock(
      NatToString(index + 1) + ". " + p.pointCode + " - " + p.englishName,
      [ "Symptoms: " + p.symptoms,
        "Diseases: " + p.diseases,
        "Contraindications: " + p.contraindications,
        "Stimulation: " + p.stimulationMethod + " | Electrical: " + p.electricalStimulation ])
  }

  function DetailBlocks(points: seq<PointRecord>): seq<DetailBlock> {
    seq(|points|, i requires 0 <= i < |points| => DetailBlockOf(points[i], i))
  }

  /** The headings number the points 1, 2, ... in order. */
  lemma DetailHeadingNumbers(points: seq<PointRecord>, i: nat)
    requires i < |points|
    ensures DecimalValue(LeadingDigits(DetailBlocks(points)[i].heading)) == i + 1
  {
    NatToStringRoundTrip(i + 1);
    var rest := ". " + points[i].pointCode + " - " + points[i].englishName;
    assert DetailBlocks(points)[i].heading == NatToString(i + 1) + rest;
    LeadingDigitsOf(NatToString(i + 1), rest);
  }

  // --------------------------------------------------------------- footer

  /** "Page i of N". */
  function FooterLine(page: nat, count: nat): string {
    "Page " + NatToString(page) + " of " + NatToString(count)
  }

  /** The page number reads back from its footer line, so no two pages of a
      document carry the same footer. */
  lemma FooterLineReadsBack(page: nat, count: nat)
    ensures var line := FooterLine(page, count);
      |line| > 5 && line[..5] == "Page " && DecimalValue(LeadingDigits(line[5..])) == page
  {
    NatToStringRoundTrip(page);
    var line := FooterLine(page, count);
    assert line[5..] == NatToString(page) + (" of " + NatToString(count));
    LeadingDigitsOf(NatToString(page), " of " + NatToString(count));
  }

  lemma FooterLinesDistinct(i: nat, j: nat, count: nat)
    requires i != j
    ensures FooterLine(i, count) != FooterLine(j, count)
  {
    FooterLineReadsBack(i, count);
    FooterLineReadsBack(j, count);
  }

  /** The footer loop: pages 1 to `pageCount`, each with its "Page i of N"
      line and the attribution. */
  method LabelPages(pageCount: nat) returns (footers: seq<Footer>)
    ensures |footers| == pageCount
    ensures forall k :: 0 <= k < pageCount ==>
      footers[k] == Footer(k + 1, FooterLine(k + 1, pageCount), Attribution)
  {
    footers := [];
    var i := 1;
    while i <= pageCount
      invariant 1 <= i <= pageCount + 1
      invariant |footers| == i - 1
      invariant forall k :: 0 <= k < i - 1 ==>
        footers[k] == Footer(k + 1, FooterLine(k + 1, pageCount), Attribution)
    {
      footers := footers + [Footer(i, FooterLine(i, pageCount), Attribution)];
      i := i + 1;
    }
  }

  // ------------------------------------------------------------ file name

  /** YYYYMMDD, with the month counted from 1 and both month and day padded
      to two digits. */
  function DateStamp(d: Date): string {
    NatToString(d.year) + PadStart(NatToString(d.month + 1), 2, '0') + PadStart(NatToString(d.day), 2, '0')
  }

  /** `Acupuncture_Prescription_<name>_<YYYYMMDD>.pdf`, with every run of
      whitespace in the name replaced by one underscore. */
  function FileName(name: string, d: Date): string {
    FilePrefix + UnderscoreSpaces(name) + "_" + DateStamp(d) + FileSuffix
  }

  /** For a four-digit year and a calendar date, the stamp is eight digits
      that read back as year, month (from 1) and day. */
  lemma DateStampReadsBack(d: Date)
    requires 1000 <= d.year <= 9999 && d.month < 12 && 1 <= d.day <= 31
    ensures var s := DateStamp(d);
      |s| == 8 && AllDigits(s) && DecimalValue(s) == d.year * 10000 + (d.month + 1) * 100 + d.day
  {
    var y := NatToString(d.year);
    var m := PadStart(NatToString(d.month + 1), 2, '0');
    var dd := PadStart(NatToString(d.day), 2, '0');
    NatToStringRoundTrip(d.year);
    NatToStringLength(d.year, 4);
    TwoDigits(d.month + 1);
    TwoDigits(d.day);
    assert Pow10(2) == 100;
    DecimalAppend(y, m);
    var ym := DecimalValue(y + m);
    assert ym == d.year * 100 + (d.month + 1);
    DecimalAppend(y + m, dd);
    assert DateStamp(d) == (y + m) + dd;
    assert DecimalValue(DateStamp(d)) == ym * 100 + d.day;
  }

  /** The file name splits back into its parts: the fixed prefix, the name
      with each whitespace run turned into one underscore (so no whitespace
      is left), an underscore, the eight date digits and ".pdf". */
  lemma FileNameParts(name: string, d: Date)
    requires 1000 <= d.year <= 9999 && d.month < 12 && 1 <= d.day <= 31
    ensures var f := FileName(name, d);
      var n := |f|;
      && n >= |FilePrefix| + 13
      && f[..|FilePrefix|] == FilePrefix
      && f[|FilePrefix|..n - 13] == MarkRuns(name, false)
      && NoSpace(f[|FilePrefix|..n - 13])
      && f[n - 13] == '_'
      && AllDigits(f[n - 12..n - 4])
      && DecimalValue(f[n - 12..n - 4]) == d.year * 10000 + (d.month + 1) * 100 + d.day
      && f[n - 4..] == FileSuffix
  {
    DateStampReadsBack(d);
    UnderscoreSpacesMarksRuns(name);
    UnderscoreSpacesNoSpace(name);
    FileNameSlices(UnderscoreSpaces(name), DateStamp(d));
  }

  /** Where the pieces of a file name sit, for any name part `u` and any
      eight-character stamp `s`. */
  lemma FileNameSlices(u: string, s: string)
    requires |s| == 8
    ensures var f := FilePrefix + u + "_" + s + FileSuffix;
      var n := |f|;
      && n == |FilePrefix| + |u| + 13
      && f[..|FilePrefix|] == FilePrefix
      && f[|FilePrefix|..n - 13] == u
      && f[n - 13] == '_'
      && f[n - 12..n - 4] == s
      && f[n - 4..] == FileSuffix
  {
    var f := FilePrefix + u + "_" + s + FileSuffix;
    var tail := "_" + s + FileSuffix;
    assert f == FilePrefix + u + tail;
    SplitThree(FilePrefix, u, tail);
    var n := |f|;
    assert f[n - 13..] == tail;
    assert tail[1..9] == s && tail[9..] == FileSuffix;
    assert f[n - 12..n - 4] == tail[1..9];
    assert f[n - 4..] == tail[9..];
  }

  /** The three pieces of a concatenation slice back out of it. */
  lemma SplitThree(a: string, b: string, c: string)
    ensures (a + b + c)[..|a|] == a
    ensures (a + b + c)[|a|..|a| + |b|] == b
    ensures (a + b + c)[|a| + |b|..] == c
  {
  }

  /** 7 March 2024 (`getMonth()` 2) is stamped 20240307. */
  lemma DateStampExample()
    ensures DateStamp(Date(2024, 2, 7)) == "20240307"
  {
    assert NatToString(2) == "2";
    assert NatToString(20) == "20";
    assert NatToString(202) == "202";
    assert NatToString(2024) == "2024";
    assert NatToString(3) == "3" && NatToString(7) == "7";
    assert PadStart("3", 2, '0') == "03";
    assert PadStart("7", 2, '0') == "07";
  }

  /** A first and a last name separated by one space are joined by an
      underscore in the file name ("Jane Doe" gives ..._Jane_Doe_...). */
  lemma FileNameTwoWords(first: string, last: string, d: Date)
    requires NoSpace(first) && NoSpace(last)
    ensures FileName(first + " " + last, d) == FilePrefix + first + "_" + last + "_" + DateStamp(d) + FileSuffix
  {
    UnderscoreSingleSpace(first, last);
  }

  // --------------------------------------------------------------- export

  /** The checkbox loop: the rows whose box is ticked, in row order. */
  method CollectChecked(results: seq<PointRecord>, checked: seq<bool>) returns (selected: seq<PointRecord>)
    requires |results| == |checked|
    ensures selected == Pick(results, checked)
  {
    selected := [];
    var index := 0;
    while index < |checked|
      invariant 0 <= index <= |checked|
      invariant selected == Pick(results[..index], checked[..index])
    {
      if checked[index] {
        selected := selected + [results[index]];
      }
      assert results[..index + 1][..index] == results[..index];
      assert checked[..index + 1][..index] == checked[..index];
      index := index + 1;
    }
    assert results[..index] == results && checked[..index] == checked;
  }

  /** `exportToPDF`, with the PDF library's table (`autoTable`, here the
      position and page count it ends at for the given rows), its text
      wrapping (`wrap`) and the clock (`today`) as inputs. Refused exactly
      when no checkbox is ticked; otherwise the document holds the patient
      block with "N/A" for empty fields, one table row per checked result in
      row order, the detail section laid out after the table, one footer
      per page, and the file name. */
  method ExportToPdf(results: seq<PointRecord>, checked: seq<bool>,
                     nameField: string, ageField: string, sexField: string,
                     today: Date, autoTable: seq<seq<string>> -> TableEnd, wrap: string -> nat)
    returns (r: Result<Document, ExportError>)
    requires |results| == |checked|
    ensures r.Failure? <==> forall i :: 0 <= i < |checked| ==> !checked[i]
    ensures r.Failure? ==> r.error == NothingChecked
    ensures r.Success? ==>
      var points := Pick(results, checked);
      var doc := r.value;
      var table := autoTable(TableData(points));
      && doc.title == Title
      && doc.patient == Patient(OrNA(nameField), OrNA(ageField), OrNA(sexField))
      && doc.head == TableHead
      && doc.rows == TableData(points)
      && doc.details == LayoutDetails(table.finalY, table.pages, DetailBlocks(points), wrap)
      && doc.pageCount == doc.details.cursor.page
      && |doc.footers| == doc.pageCount
      && (forall k :: 0 <= k < doc.pageCount ==>
            doc.footers[k] == Footer(k + 1, FooterLine(k + 1, doc.pageCount), Attribution))
      && doc.fileName == FileName(OrNA(nameField), today)
  {
    var patient := Patient(OrNA(nameField), OrNA(ageField), OrNA(sexField));
    var points := CollectChecked(results, checked);
    PickEmpty(results, checked);
    if |points| == 0 {
      r := Failure(NothingChecked);
      return;
    }
    var rows := TableData(points);
    var table := autoTable(rows);
    var details := Paginate(table.finalY, table.pages, DetailBlocks(points), wrap);
    var pageCount := details.cursor.page;
    var footers := LabelPages(pageCount);
    var fileName := FileName(patient.name, today);
    r := Success(Document(Title, patient, TableHead, rows, details, pageCount, footers, fileName));
  }
}
