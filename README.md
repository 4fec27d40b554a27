# OCR reconstruction and audit formatting

This project is a Dafny model of the two pieces of the audit backend that turn
Amazon Textract output into text:

* the body of the `/extract` handler after Textract has answered: the list of
  blocks is indexed by id, KEY_VALUE_SET blocks are split into key and value
  blocks, and three results are rebuilt from it — `text_lines` (the LINE
  texts), `form_fields` (key text to value text, in Python dict order) and
  `table_cells` (one `{row, col, text}` record per CELL block);
* the per-document text that `/audit` builds from such results before
  placing them in its prompt: a `FILE:` header followed by the TEXT,
  FORM FIELDS and TABLE CELLS sections.

Loops in the source are methods with loop invariants. Each one is proved
equal to a specification function written over prefixes of its input, and
the properties of the handler are proved as lemmas about those functions.
Every place where the handler raises becomes `Failure`, standing for its one
opaque 500 answer. That covers:

* a missing `Blocks` field;
* a LINE block without `Text`;
* a KEY block without relationships (`[0]` of an empty list);
* a VALUE or CHILD relationship without `Ids`;
* a CELL block without `RowIndex` or `ColumnIndex`.

The handler raises on a LINE block without `Text` (`block['Text']`,
audit-backend/app.py:58) and on a KEY block without relationships (`[0]` of
an empty list, audit-backend/app.py:89), so both make the whole request fail.
An empty block list raises nowhere: the handler answers it with three empty
parts (audit-backend/app.py:55-114). An id missing from the index, or a block
without `Text`, adds nothing when ids are resolved to text, as
`get_text_for_ids` does.

Python's insertion-ordered `dict` is modelled by `Dicts.Dict`, a list of keys
in first-insertion order beside a map. It has two uses. Iterating `key_map`
visits KEY blocks in block order. Assigning an existing key text in
`key_values` keeps its place and replaces its value.

Modules: `Wrappers` (Option, Result), `Dicts`, `Strings` (join, split,
`str(int)`), `Blocks` (the Textract block), `TextResolver`, `BlockIndex`,
`LineExtractor`, `KeyValues`, `Tables`, `Extraction` (the whole handler and a
worked invoice page) and `Formatting`.

## Model

| member | source | states |
|---|---|---|
| TextResolver.GetTextForIds | audit-backend/app.py:76-82 | the loop's result is the texts of the ids that resolve to a block with `Text`, in id order, joined by single spaces |
| TextResolver.ResolveConcat | audit-backend/app.py:76-82 | resolving two id lists one after the other gives the two resolutions with one space between, and no separator when either side yields nothing |
| TextResolver.ResolveOne | audit-backend/app.py:78-81 | a single id resolves to its block's `Text`, or to "" when the id is unknown or its block has no `Text` |
| TextResolver.ResolvePair | audit-backend/app.py:76-82 | two ids that both carry text resolve to the two texts separated by one space |
| TextResolver.ResolveNothing | audit-backend/app.py:76-82 | when no id resolves to text (including no ids at all), the result is the empty string |
| TextResolver.KeptTextsCount | audit-backend/app.py:79-81 | at most one text per id is kept, and some text is kept exactly when some id resolves to a block with `Text` |
| TextResolver.KeptTextsConcat | audit-backend/app.py:78-81 | the texts kept for concatenated id lists are the texts kept for each list, in order |
| BlockIndex.IndexBlocks | audit-backend/app.py:67-74 | the single pass builds `block_map`, `key_map` and `value_map` equal to their specifications, and `key_map` is a well-formed ordered dict |
| BlockIndex.BlockMapDomain | audit-backend/app.py:67-69 | `block_map` holds exactly the ids of the blocks |
| BlockIndex.BlockMapLastWins | audit-backend/app.py:68-69 | a block that no later block shares its id with is the one `block_map` holds for that id |
| BlockIndex.Partition | audit-backend/app.py:67-74 | with unique ids, every block is indexed under its id; a KEY_VALUE_SET block is in `key_map` exactly when "KEY" is among its entity types and in `value_map` exactly when it is not; other blocks are in neither |
| BlockIndex.PartitionIdsFromBlocks | audit-backend/app.py:70-74 | `key_map` and `value_map` hold only ids of blocks of the list |
| BlockIndex.NoKeyBlocks | audit-backend/app.py:70-72 | without KEY blocks `key_map` stays empty |
| BlockIndex.KeyBlocksConcat | audit-backend/app.py:70-72 | the KEY blocks of concatenated lists are the KEY blocks of each list, in order |
| BlockIndex.KeyMapInBlockOrder | audit-backend/app.py:70-84 | with unique ids, iterating `key_map` visits the KEY blocks in block order |
| LineExtractor.ExtractLines | audit-backend/app.py:57-60 | the comprehension succeeds exactly when every LINE block carries `Text` |
| LineExtractor.LinesAreLineTexts | audit-backend/app.py:57-60 | there is one line per LINE block, and the k-th line is the `Text` of the k-th LINE block |
| LineExtractor.NoLineBlocks | audit-backend/app.py:57-60 | a list without LINE blocks yields no lines |
| LineExtractor.ExtractLinesConcat | audit-backend/app.py:57-60 | the lines of concatenated block lists are the lines of each list, one after the other |
| KeyValues.CollectValueIds | audit-backend/app.py:85-88 | the loop gathers the ids of the VALUE relationships in order, and fails exactly where its specification fails (a VALUE relationship without `Ids`) |
| KeyValues.ValueIdsConcat | audit-backend/app.py:85-88 | the value ids of concatenated relationship lists are the value ids of each list, in order, and the concatenation fails when either part fails |
| KeyValues.ValueIdsOne | audit-backend/app.py:86-88 | a single VALUE relationship contributes its `Ids`, and any other relationship contributes nothing |
| KeyValues.IgnoresOtherRelations | audit-backend/app.py:87 | a relationship that is not VALUE changes nothing, placed before or after the others |
| KeyValues.ResolveKeyEntry | audit-backend/app.py:85-90 | one KEY block yields the text of its first relationship's ids and the text of its value ids, or fails when it has no relationships or a VALUE relationship lacks `Ids` |
| KeyValues.ReconstructKeyValues | audit-backend/app.py:84-92 | the loop over `key_map` equals its specification, and a successful result is a well-formed ordered dict with no empty key |
| KeyValues.FormFieldsOf | audit-backend/app.py:84-92 | no successful reconstruction stores an empty key text, and its dict is well formed |
| KeyValues.FormFieldsOkIff | audit-backend/app.py:84-92 | the reconstruction succeeds exactly when every KEY block's entry resolves |
| KeyValues.KeyWithoutRelationshipsFails | audit-backend/app.py:89 | a KEY block without relationships makes the reconstruction fail rather than being skipped |
| KeyValues.LastKeyWins | audit-backend/app.py:91-92 | a stored key text holds the value text of the last KEY block with that key text |
| KeyValues.StoredKeysComeFromKeyBlocks | audit-backend/app.py:91-92 | every stored key is non-empty and is the key text of some KEY block |
| KeyValues.SameKeyLaterWins | audit-backend/app.py:91-92 | two KEY blocks with the same key text leave one entry, in the first one's place, holding the second one's value |
| Tables.ResolveCellText | audit-backend/app.py:100-103 | the loop over a cell's relationships equals its specification |
| Tables.CellTextOkIff | audit-backend/app.py:101-103 | a cell's text resolves exactly when every CHILD relationship has `Ids` |
| Tables.NoChildMeansEmptyText | audit-backend/app.py:100-103 | a cell without CHILD relationships has the empty text and does not fail |
| Tables.LastChildWins | audit-backend/app.py:101-103 | with several CHILD relationships, the last one alone decides the cell's text |
| Tables.ReconstructTable | audit-backend/app.py:94-108 | the loop over the blocks equals its specification |
| Tables.TableCellsOkIff | audit-backend/app.py:94-108 | the table is built exactly when every CELL block's record is (row, column and text all present) |
| Tables.OneRecordPerCell | audit-backend/app.py:104-108 | there is one record per CELL block, and the k-th record is the k-th CELL block's |
| Tables.NoCellBlocks | audit-backend/app.py:96 | a list without CELL blocks yields no table cells |
| Extraction.ExtractText | audit-backend/app.py:55-119 | the handler's steps, run in the source's order, give exactly the specified answer or the error |
| Extraction.ExtractionOkIff | audit-backend/app.py:55-119 | with unique ids, the request succeeds exactly when every LINE block has `Text`, every KEY block's entry resolves and every CELL block's record does; no other block can make it fail |
| Extraction.KeyEntriesOk | audit-backend/app.py:70-84 | every KEY block of the list resolves exactly when every KEY block in block order does |
| Extraction.KeyWithoutRelationshipsFailsRequest | audit-backend/app.py:89-119 | a KEY block without relationships turns the whole request into the error answer |
| Extraction.LineWithoutTextFailsRequest | audit-backend/app.py:57-119 | a LINE block without `Text` turns the whole request into the error answer |
| Extraction.ExtractedParts | audit-backend/app.py:110-114 | on success, `text_lines` holds the LINE texts in block order, `form_fields` holds the pairs of the KEY blocks in block order, and `table_cells` holds one record per CELL block in block order |
| Extraction.NoFormsNoTables | audit-backend/app.py:84-108 | without KEY blocks `form_fields` is empty, and without CELL blocks `table_cells` is empty |
| Extraction.EmptyAndMissingBlockLists | audit-backend/app.py:55-114 | an empty block list succeeds with three empty parts; only a missing `Blocks` field fails |
| Extraction.InvoiceExample | audit-backend/app.py:55-114 | a concrete page whose KEY block lists its CHILD relationship first gives its one line, the field "Total:" mapped to "$450.00", and the cell at row 1, column 1 with text "Qty" |
| Formatting.FormatDocuments | audit-backend/app.py:155-171 | one text per document, in request order, each the document's formatted text |
| Formatting.TemplateIsFString | audit-backend/app.py:169 | the ten template pieces joined by line breaks are exactly the f-string of the source |
| Formatting.FormatIsDocumentLines | audit-backend/app.py:163-169 | a document's text is its header, titles, section lines and blank separators joined by line breaks; an empty section is one empty line |
| Formatting.DocumentReadsBack | audit-backend/app.py:157-169 | when no name, text line, field or cell text contains a line break, splitting a document's text at line breaks gives back its header, every text line, every field line and every cell line, each section under its title |
| Formatting.DocumentLinesFree | audit-backend/app.py:157-169 | under the same condition, no line of the document contains a line break |
| Formatting.FieldLinesFree | audit-backend/app.py:164 | a form field line contains a line break only if its key or value does |
| Formatting.CellLinesFree | audit-backend/app.py:165-168 | a cell line contains a line break only if the cell's text does |
| Strings.SplitJoinRoundTrip | audit-backend/app.py:163-169 | lines without the separator, joined and split again, are given back unchanged |
| Strings.JoinConcat | audit-backend/app.py:163-169 | joining two non-empty lists is joining each and putting one separator between |
| Strings.IntToStringRoundTrip | audit-backend/app.py:166 | the decimal text written for a row or column number reads back as the same integer |
| Dicts.Put | audit-backend/app.py:92 | assigning a key stores its value and leaves the other keys unchanged; an existing key keeps its place and a new key is appended as the last key |
| Dicts.PutTwice | audit-backend/app.py:92 | assigning a key twice to any dict is the same as assigning it once with the second value: the key keeps one place and holds the later value |
| Dicts.ValuesPut | audit-backend/app.py:84-92 | after `d[k] = v`, iterating the values visits a new key's value last, and an existing key's value is replaced in its place with every other value unchanged |

## Left out

- The HTTP layer (Flask routes, request parsing, status codes), the upload handling and the Textract call itself are not modelled. The model starts from the `Blocks` field of the Textract response, given as an input.
- The `/convert` endpoint (CSV, Excel and XML parsing), the OpenAI call, the two prompts and the `chr(10)` join of the formatted documents into the prompt are not modelled. They are I/O or foreign calls.
- The `structuredData` branch of `/audit` (audit-backend/app.py:159-161) is not modelled; only documents without `structuredData` are.
- Formatting.FormatDocuments: never fails, because its input type cannot express malformed documents. The handler raises, and `/audit` answers with its 500 (audit-backend/app.py:216-219), for a cell without `row`, `col` or `text` (audit-backend/app.py:166), a non-string item in `textLines` (audit-backend/app.py:163), or a list element that is not an object (audit-backend/app.py:157). A `fileName` of JSON null would print as "FILE: None". None of these is modelled. The frontend only sends objects whose `fileName` is a file name and whose other fields come straight from an `/extract` answer, or an object with just `fileName` and `error`, which reads as empty sections (audit-frontend/src/App.jsx:58-63,71).
- Environment loading, CORS and the frontend are not modelled.
- A block without `BlockType` or a relationship without `Type` would raise in the source. Textract always sends both, so the model takes them as present.
- JSON serialisation is not modelled, including `jsonify`'s key ordering and escaping. `form_fields` is kept as the ordered dict the handler builds.
- In `/audit`, `formFields` values and cell fields may be any JSON value, which `str()` renders. The model takes string values, and integer `row` and `col` rendered by `str(int)`.
- Error printing and the traceback are not modelled. Every exception is one opaque `Failure`.
- `tables` (line 94) is created and never used. `value_map` is built (and modelled by `BlockIndex.ValueMapOf`) but never read afterwards.
- Python's truthiness test on `word_block` (line 80) is modelled as "the id is in the map": a block is never an empty dict.
- `BlockIndex.KeyMapInBlockOrder`, `Extraction.ExtractionOkIff`, `Extraction.ExtractedParts` and `Extraction.KeyWithoutRelationshipsFailsRequest` assume unique block ids, which Textract guarantees. With repeated ids the handler's own behaviour (later blocks overwrite earlier ones in `block_map` and `key_map`) is still modelled, but not characterised by these lemmas.
- `Formatting.DocumentReadsBack` assumes that no name, text line, field or cell text contains a line break. When one does, the sections cannot be told apart by lines.
- With real Textract output, a KEY block's VALUE ids name VALUE blocks, which carry no `Text`. The handler therefore resolves them to an empty value text, and whether the first relationship is the CHILD one depends on the order Textract lists them in. The model reproduces this behaviour as written.
