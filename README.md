# SHIZOR acupuncture prescription tool — a verified Dafny model of its core

SHIZOR is a browser page over a fixed dataset of acupuncture points. A
practitioner picks symptoms or diseases from two type-ahead multi-select
boxes and searches. The matching points are listed in a table with a
checkbox per row. The ticked rows are then exported as a landscape PDF
prescription: a patient block, a summary table, a "details" section laid
out over as many pages as it needs, a "Page i of N" footer on every page,
and a file name built from the patient's name and the date.

This project models the logic of `app.js`, with the DOM and the PDF
library taken out:

- `seqs.dfy` (module `Seqs`): the Array operations the code relies on.
  `filter` is `Pick` over a flag per element, with a lemma saying exactly
  which elements it keeps and in what order. Also `indexOf`, `splice(i, 1)`
  (as `Erase` on a duplicate-free array) and duplicate-freedom.
- `text.dfy` (module `Text`): ASCII `toLowerCase`, `includes`,
  `replace(/\s+/g, '_')` (proved equal to a character-by-character
  description), `toString` on numbers (with a read-back lemma) and
  `padStart(2, '0')`.
- `points.dfy` (module `Points`): the point record and the two searchable
  fields.
- `results.dfy` (module `Results`): the outcome of an operation that can be
  refused.
- `selection.dfy` (module `Selection`): the selection arrays, as a class
  `SelectionList` whose `Toggle`, `Remove` and `Clear` change the array in
  place and keep it duplicate-free. `Toggle` runs `indexOf` and then
  `splice` or `push`, and is proved against `Toggled`.
- `search.dfy` (module `Search`): `searchBySymptoms` and `searchByDiseases`
  (one function over the field) and the dropdown filter.
- `session.dfy` (module `Session`): the page state as a class `Session`.
  It holds the two selections, `currentResults`, one checkbox flag per
  result row, and what the results area shows. Its methods are the search,
  clear, select-all and deselect-all buttons.
- `pagination.dfy` (module `Pagination`): the layout of the details
  section. This is a state machine over `(finalY, page)`: recursive
  specification functions, the loops as methods proved equal to them, and
  lemmas for the page-break policy.
- `export.dfy` (module `Export`): the rest of `exportToPDF`. This covers the
  checkbox loop, the "N/A" defaults, the table rows, the detail blocks,
  the footer loop, the file name and the export as a whole.

Inputs that come from outside the page logic are parameters:

- the dataset (`Session.dataset`);
- the table's end position (a fractional millimetre value, as `real`) and page count, which depend on the PDF
  library's table layout (`autoTable`, a function from rows to a
  `TableEnd`);
- the number of lines a paragraph wraps to (`wrap`);
- today's date, as year, `getMonth()` and day.

## Model

| member | source | states |
|---|---|---|
| `Seqs.IndexOf` | app.js:112 | `indexOf` returns -1 exactly when the item is absent; otherwise it returns a position holding the item, with no earlier occurrence |
| `Seqs.SpliceIsErase` | app.js:112-115 | in a duplicate-free array, `splice(indexOf(x), 1)` removes `x` and keeps every other element in order |
| `Seqs.EraseNoDup` | app.js:115 | removing an item keeps the array duplicate-free and shortens it by one exactly when the item was present |
| `Seqs.PickAt` | app.js:293-298 | the collected elements are exactly those at the flagged positions, in increasing position order, each once |
| `Seqs.PickEmpty` | app.js:300-303 | nothing is collected exactly when no flag is set |
| `Selection.ToggledMembership` | app.js:111-118 | toggling flips whether the item is selected and leaves every other item's membership alone; the array stays duplicate-free and its length changes by exactly one |
| `Selection.ToggledKeepsOthers` | app.js:111-118 | the other selected items keep their relative order |
| `Selection.ToggleTwice` | app.js:111-118 | toggling twice restores the selected set; a previously selected item comes back at the end rather than its old position; an unselected item leaves the array exactly as it was |
| `Selection.ToggleExample` | app.js:111-118 | toggling "feverish" then "chills" into an empty selection gives ["feverish", "chills"], and toggling "feverish" again leaves ["chills"] |
| `Selection.SelectionList.constructor` | app.js:2-3 | a selection starts empty |
| `Selection.SelectionList.Toggle` | app.js:111-118 | `indexOf` then `splice` or `push`, in place, yields `Toggled` of the old array (removed if present, appended at the end otherwise) and stays duplicate-free |
| `Selection.SelectionList.Remove` | app.js:155-161 | a tag's remove button takes the item out if present and otherwise changes nothing |
| `Selection.SelectionList.Clear` | app.js:173 | the clear button leaves the selection empty |
| `Text.Lower` | app.js:203 | lower-casing keeps the length, leaves no ASCII capital letter, and returns a string without capitals unchanged |
| `Text.LowerIgnoresCase` | app.js:203-205 | two strings spelling the same letters, each in either case, lower-case to the same string, so the comparison ignores case |
| `Text.IncludesEmpty` | app.js:84 | the empty string is included in every string |
| `Text.IncludesPiece` | app.js:205 | a string is included in any string built around it |
| `Search.SearchPointsExactly` | app.js:196-226 | a search is refused exactly when the selection is empty; otherwise the k-th result is the record at the k-th matching position of the dataset, and every matching record is included (dataset order, each once) |
| `Search.SearchPointsSound` | app.js:202-207 | every result is a dataset record whose field mentions a selected term |
| `Search.SearchOfThree` | app.js:202-207 | of three records where only the first two mention a selected term, the search returns exactly those two, in dataset order |
| `Search.SearchExample` | app.js:202-207 | over three records with symptoms "headache, nausea", "fever, headache" and "cough", a search for "headache" finds the first two, in that order |
| `Search.DropdownItemsExactly` | app.js:83-85 | the dropdown lists exactly the items containing the term, ignoring case, in list order |
| `Search.DropdownEmptyTerm` | app.js:83-85 | an empty search box lists every item |
| `Session.CountLabelReadsBack` | app.js:239 | the count line starts with the number of results, which reads back as that number, and says "points" exactly when that number is not 1 |
| `Session.ExportAfterSearch` | app.js:241-244 | with every checkbox ticked as a search leaves them, the export collects every result, in order |
| `Session.UntickFirstOfTwo` | app.js:244 | after a search with two results, unticking the first row leaves exactly the second for the export |
| `Session.Session.constructor` | app.js:1-5 | at page load nothing is selected and there are no results |
| `Session.Session.Search` | app.js:196-226 | with an empty selection the search is refused and the results, checkboxes and panel are unchanged; otherwise the results are the search's, every checkbox is ticked and the panel shows the "no results" notice or the count line |
| `Session.Session.ClearResults` | app.js:268-272 | no results, no checkboxes, the results area hidden |
| `Session.Session.Clear` | app.js:172-188 | the tab's selection is emptied, the other tab's is untouched, and the results are cleared |
| `Session.Session.SelectAll` | app.js:274-278 | every checkbox is ticked; the results do not change |
| `Session.Session.DeselectAll` | app.js:280-284 | every checkbox is cleared; the results do not change |
| `Session.Session.SetChecked` | app.js:244 | ticking or clearing one row's checkbox changes that flag only |
| `Pagination.ChainOpened` | app.js:411-414 | along the layout, the page number grows by exactly one for each line that starts a new page |
| `Pagination.ChainWithinLimits` | app.js:411-414 | the break rule keeps every line at or above its threshold: 180 for the caption and headings, 185 for paragraphs |
| `Pagination.ChainConsecutive` | app.js:416-448 | every pair of consecutive lines obeys the break rule relative to the cursor the earlier one leaves |
| `Pagination.ParagraphsChain` | app.js:440-448 | the paragraphs are drawn in order, one line-group each, each over exactly as many lines as the wrapper splits it into. Each is checked at the cursor the line before it left: if that is below 185 it goes to y = 20 on the next page, otherwise it is drawn there on the same page. The cursor then moves down 4 per wrapped line |
| `Pagination.BlockChain` | app.js:419-451 | a point is drawn as its heading on one line followed by its paragraphs in order. The heading is checked 3 below the previous block's last line (at the caption's cursor for the first point) against 180, then moves the cursor down 5. Its paragraphs follow the paragraph rule, and the block leaves the cursor 3 below its last line |
| `Pagination.LayoutDetailsPaginates` | app.js:405-451 | the section draws the caption on one line, then for each point in order its heading on one line and each of its paragraphs over its wrapped line count, nothing skipped, repeated or relabelled. The caption is checked 10 below the table. Every line then follows the one before it in drawing order: it is drawn exactly where the cursor stands (7, 5 or 4 per wrapped line below the previous line, plus 3 before a new point's heading), or at y = 20 on exactly the next page precisely when that position is below its threshold (180 for caption and headings, 185 for paragraphs). Every line stays within its threshold, the section leaves the cursor 3 below its last line, and it ends on the table's last page plus the pages it opened |
| `Pagination.LayoutDetailsSpacing` | app.js:405-451 | for the caption, headings and paragraphs drawn in that order, no two lines overlap and no page starts early. A line on the same page as its predecessor starts at least the predecessor's step below it. A line on a new page is on exactly the next page at y = 20, and only because the position its break check saw was below its threshold |
| `Pagination.SectionChain` | app.js:405-451 | the caption and the loop over the points form one chain of break-checked lines from 10 below the table, whose kinds, texts and line counts are the caption, then each point's heading and wrapped paragraphs in order |
| `Pagination.LayOutParagraphs` | app.js:440-448 | the paragraph loop as it runs computes the layout `PlaceParagraphs` specifies |
| `Pagination.LayOutBlock` | app.js:419-451 | one iteration of the point loop computes `PlaceBlock` |
| `Pagination.Paginate` | app.js:405-451 | the layout code as it runs (break check, caption, point loop) computes `LayoutDetails`, whose properties the two lemmas above state |
| `Text.UnderscoreSpacesMarksRuns` | app.js:464 | replacing each whitespace run by `_` is the same as turning a whitespace character into `_` when it starts a run and dropping it otherwise |
| `Text.UnderscoreSpacesNoSpace` | app.js:464 | no whitespace is left in the name part of the file name |
| `Text.UnderscoreSpacesIdempotent` | app.js:464 | replacing again changes nothing |
| `Text.UnderscoreSingleSpace` | app.js:464 | two words separated by one space are joined by one underscore |
| `Text.NatToStringRoundTrip` | app.js:464 | a number's decimal string is non-empty digits, has no leading zero and reads back as the number |
| `Text.NatToStringInjective` | app.js:459 | different numbers give different decimal strings |
| `Text.NatToStringLength` | app.js:464 | a number with k digits is written with k characters |
| `Text.TwoDigits` | app.js:464 | a number below 100, padded to two characters with '0', is two digits that read back as the number |
| `Export.OrNA` | app.js:288-290 | an empty patient field becomes "N/A" and any other value is kept |
| `Export.TableRowShape` | app.js:335-366 | each row has one cell per column heading, and each cell holds the record field its heading names, for all twelve columns |
| `Export.TableRowIgnoresDetails` | app.js:335-348 | the symptom, disease, contraindication and stimulation texts and the general location stay out of the table: records differing only in those give the same row |
| `Export.DetailHeadingNumbers` | app.js:427 | the i-th point's heading starts with the number i + 1 |
| `Export.FooterLineReadsBack` | app.js:459 | a footer line starts with "Page " followed by the page number, which reads back |
| `Export.FooterLinesDistinct` | app.js:455-461 | no two pages carry the same footer line |
| `Export.LabelPages` | app.js:455-461 | the footer loop labels pages 1..N, each "Page i of N" with the attribution line |
| `Export.DateStampReadsBack` | app.js:464 | for a four-digit year and a calendar date, the date part is eight digits that read back as year, month (getMonth() + 1) and day |
| `Export.FileNameParts` | app.js:464 | the file name splits into "Acupuncture_Prescription_", the name with whitespace runs replaced, "_", the eight date digits and ".pdf" |
| `Export.DateStampExample` | app.js:464 | 7 March 2024 (`getMonth()` 2) is stamped 20240307 |
| `Export.FileNameTwoWords` | app.js:464 | for any first and last name without spaces, separated by one space, the file name is the prefix, the first name, an underscore, the last name, an underscore, the date stamp and ".pdf", so "Jane Doe" becomes Jane_Doe in the name |
| `Export.CollectChecked` | app.js:293-298 | the checkbox loop collects the checked rows in row order |
| `Export.ExportToPdf` | app.js:287-466 | the export is refused exactly when no checkbox is ticked. Otherwise the document holds: the patient block with "N/A" defaults; one table row per checked result, in order; the detail section laid out after the table; a page count equal to the page the layout ends on; one footer per page; and the file name |

## Left out

- DOM rendering and event wiring are not modelled. This covers the tab switch, building dropdown items and tags, the `selected` class on dropdown items, `classList` show/hide of the dropdowns, the table's HTML, and `alert`. A refusal is a `Failure` result, or `ok == false` for a search.
- The closure aliasing after a clear is not modelled. The clear buttons bind `selectedSymptoms`/`selectedDiseases` to a new array, while the existing dropdown items still hold the old one. The model empties the selection object in place.
- Clearing the results: `clearResults` leaves the old table rows (and their checkboxes) in the hidden table. The model drops the checkbox flags together with the results, so that there is always one flag per result.
- The PDF library is not modelled: fonts, colours, x positions, the table's column widths and drawing, `splitTextToSize` and `save`. The table's end position and page count come in as `autoTable`, and line counts come in as `wrap`.
- The long-form date under the title (`toLocaleDateString`) is left out because it depends on the locale. The file name's date comes in as a `Date` value instead of the clock.
- Text.Lower: only the ASCII letters are lower-cased. Unicode case mapping is not modelled.
- Export.Date: year, month and day are non-negative; the read-back lemmas about the date stamp assume a four-digit year and a calendar day.
- Search and selection operate on strings as sequences of characters; JavaScript's UTF-16 code units are not distinguished.
- `data.js` is not part of this model: it only defines a constant summary object.
