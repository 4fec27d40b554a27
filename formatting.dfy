/** The per-document text the `/audit` handler builds from OCR output before
    it is placed in the auditing prompt. */
module Formatting {
  import opened Wrappers
  import opened Strings
  import opened Tables

  /** One element of the `/audit` request body that carries OCR output:
      `fileName`, `textLines`, the members of `formFields` in order, and
      `tableCells`. Absent lists and objects read as empty ones. */
  datatype AuditDocument = AuditDocument(
    fileName: Option<string>,
    textLines: seq<string>,
    formFields: seq<(string, string)>,
    tableCells: seq<CellRecord>)

  /** `f"{k}: {v}"` for every form field, in order. */
  function FieldLines(fields: seq<(string, string)>): (ls: seq<string>)
    ensures |ls| == |fields|
  {
    seq(|fields|, i requires 0 <= i < |fields| => fields[i].0 + ": " + fields[i].1)
  }

  /** `f"Row {cell['row']} Col {cell['col']}: {cell['text']}"` for every cell, in order. */
  function CellLines(cells: seq<CellRecord>): (ls: seq<string>)
    ensures |ls| == |cells|
  {
    seq(|cells|, i requires 0 <= i < |cells| =>
      "Row " + IntToString(cells[i].row) + " Col " + IntToString(cells[i].col) + ": " + cells[i].text)
  }

  const TextTitle := "--- TEXT ---"
  const FormsTitle := "--- FORM FIELDS ---"
  const TableTitle := "--- TABLE CELLS ---"

  /** The ten pieces of the f-string of line 169 that a line break separates:
      the header, each section's title and body, and the empty pieces that
      make the blank lines between sections and the final line break. */
  function TemplateParts(header: string, lines: string, fields: string, table: string): (ps: seq<string>)
    ensures |ps| == 10
  {
    [header, TextTitle] + [lines] + ["", FormsTitle] + [fields] + ["", TableTitle] + [table] + [""]
  }

  /** Joined with line breaks, the ten pieces are the f-string of line 169. */
  lemma TemplateIsFString(header: string, lines: string, fields: string, table: string)
    ensures Join(TemplateParts(header, lines, fields, table), "\n") ==
      header + "\n--- TEXT ---\n" + lines + "\n\n--- FORM FIELDS ---\n" + fields
      + "\n\n--- TABLE CELLS ---\n" + table + "\n"
  {
    var a1, a2, a3, a4 := [header, TextTitle], ["", FormsTitle], ["", TableTitle], [""];
    assert Join(a1, "\n") == header + "\n" + TextTitle by { assert a1[..1] == [header]; }
    assert Join(a2, "\n") == "\n" + FormsTitle by { assert a2[..1] == [""]; }
    assert Join(a3, "\n") == "\n" + TableTitle by { assert a3[..1] == [""]; }
    var x1 := a1 + [lines];
    JoinConcat(a1, [lines], "\n");
    JoinConcat(x1, a2, "\n");
    var x2 := x1 + a2 + [fields];
    JoinConcat(x1 + a2, [fields], "\n");
    JoinConcat(x2, a3, "\n");
    var x3 := x2 + a3 + [table];
    JoinConcat(x2 + a3, [table], "\n");
    JoinConcat(x3, a4, "\n");
    FStringPieces(header, lines, fields, table);
  }

  /** The f-string of line 169, literal by literal. */
  lemma FStringPieces(header: string, lines: string, fields: string, table: string)
    ensures header + "\n" + TextTitle + "\n" + lines + "\n" + ("\n" + FormsTitle) + "\n" + fields
      + "\n" + ("\n" + TableTitle) + "\n" + table + "\n" + "" ==
      header + "\n--- TEXT ---\n" + lines + "\n\n--- FORM FIELDS ---\n" + fields
      + "\n\n--- TABLE CELLS ---\n" + table + "\n"
  {
    var n := "\n";
    assert n + TextTitle + n == "\n--- TEXT ---\n";
    assert n + (n + FormsTitle) + n == "\n\n--- FORM FIELDS ---\n";
    assert n + (n + TableTitle) + n == "\n\n--- TABLE CELLS ---\n";
    Shape(header, lines, fields, table, n, TextTitle, FormsTitle, TableTitle);
  }

  lemma Shape<T>(h: seq<T>, l: seq<T>, f: seq<T>, t: seq<T>, n: seq<T>, t1: seq<T>, t2: seq<T>, t3: seq<T>)
    ensures h + n + t1 + n + l + n + (n + t2) + n + f + n + (n + t3) + n + t + n + [] ==
      h + (n + t1 + n) + l + (n + (n + t2) + n) + f + (n + (n + t3) + n) + t + n
  {
  }

  /** `doc_text` for a document without `structuredData`. */
  function FormatDocument(doc: AuditDocument): string {
    var name := doc.fileName.GetOr("Unknown File");
    var lines := Join(doc.textLines, "\n");
    var fields := Join(FieldLines(doc.formFields), "\n");
    var table := Join(CellLines(doc.tableCells), "\n");
    Join(TemplateParts("FILE: " + name, lines, fields, table), "\n")
  }

  /** Lines 155-171: the loop that appends each document's text to
      `formatted_docs`: one text per document, in request order. */
  method FormatDocuments(docs: seq<AuditDocument>) returns (formattedDocs: seq<string>)
    ensures |formattedDocs| == |docs|
    ensures forall i :: 0 <= i < |docs| ==> formattedDocs[i] == FormatDocument(docs[i])
  {
    formattedDocs := [];
    for i := 0 to |docs|
      invariant |formattedDocs| == i
      invariant forall j :: 0 <= j < i ==> formattedDocs[j] == FormatDocument(docs[j])
    {
      var docText := FormatDocument(docs[i]);
      formattedDocs := formattedDocs + [docText];
    }
  }

  /** The lines a newline-joined section occupies: an empty section is one empty line. */
  function SectionLines(parts: seq<string>): (ls: seq<string>)
    ensures ls != []
  {
    if parts == [] then [""] else parts
  }

  /** The lines of a document's text, from its header to the empty piece
      after the final line break. */
  function DocumentLines(doc: AuditDocument): seq<string> {
    ["FILE: " + doc.fileName.GetOr("Unknown File"), TextTitle] + SectionLines(doc.textLines)
      + ["", FormsTitle] + SectionLines(FieldLines(doc.formFields))
      + ["", TableTitle] + SectionLines(CellLines(doc.tableCells))
      + [""]
  }

  /** A joined section inside a joined list is the same as its lines in their place. */
  lemma JoinSection(a: seq<string>, parts: seq<string>, b: seq<string>)
    requires a != [] && b != []
    ensures Join(a + [Join(parts, "\n")] + b, "\n") == Join(a + SectionLines(parts) + b, "\n")
  {
    var sl := SectionLines(parts);
    assert Join(sl, "\n") == Join(parts, "\n");
    JoinConcat(a, [Join(parts, "\n")], "\n");
    JoinConcat(a + [Join(parts, "\n")], b, "\n");
    JoinConcat(a, sl, "\n");
    JoinConcat(a + sl, b, "\n");
  }

  /** The document text is its lines joined with line breaks. */
  lemma FormatIsDocumentLines(doc: AuditDocument)
    ensures FormatDocument(doc) == Join(DocumentLines(doc), "\n")
  {
    var header := "FILE: " + doc.fileName.GetOr("Unknown File");
    var fl, cl := FieldLines(doc.formFields), CellLines(doc.tableCells);
    var lines, fields, table := Join(doc.textLines, "\n"), Join(fl, "\n"), Join(cl, "\n");
    var a1, a2, a3, a4 := [header, TextTitle], ["", FormsTitle], ["", TableTitle], [""];
    var s1, s2, s3 := SectionLines(doc.textLines), SectionLines(fl), SectionLines(cl);
    Regroup(a1, [lines], a2, [fields], a3, [table], a4);
    JoinSection(a1, doc.textLines, a2 + [fields] + a3 + [table] + a4);
    Regroup(a1, s1, a2, [fields], a3, [table], a4);
    JoinSection(a1 + s1 + a2, fl, a3 + [table] + a4);
    Regroup(a1, s1, a2, s2, a3, [table], a4);
    JoinSection(a1 + s1 + a2 + s2 + a3, cl, a4);
  }

  /** The regroupings of seven lists that the three sections need. */
  lemma Regroup<T>(a: seq<T>, b: seq<T>, c: seq<T>, d: seq<T>, e: seq<T>, f: seq<T>, g: seq<T>)
    ensures a + b + c + d + e + f + g == a + b + (c + d + e + f + g)
    ensures a + b + (c + d + e + f + g) == (a + b + c) + d + (e + f + g)
    ensures (a + b + c) + d + (e + f + g) == (a + b + c + d + e) + f + g
  {
  }

  /** No string of the document contains a line break. */
  ghost predicate SingleLineStrings(doc: AuditDocument) {
    && '\n' !in doc.fileName.GetOr("Unknown File")
    && FreeOf(doc.textLines, '\n')
    && (forall i :: 0 <= i < |doc.formFields| ==> '\n' !in doc.formFields[i].0 && '\n' !in doc.formFields[i].1)
    && (forall i :: 0 <= i < |doc.tableCells| ==> '\n' !in doc.tableCells[i].text)
  }

  /** None of a document's lines contains a line break. */
  lemma DocumentLinesFree(doc: AuditDocument)
    requires SingleLineStrings(doc)
    ensures FreeOf(DocumentLines(doc), '\n')
  {
    var header := "FILE: " + doc.fileName.GetOr("Unknown File");
    assert '\n' !in header;
    FieldLinesFree(doc.formFields);
    CellLinesFree(doc.tableCells);
    var s1, s2, s3 := SectionLines(doc.textLines), SectionLines(FieldLines(doc.formFields)), SectionLines(CellLines(doc.tableCells));
    var x1 := [header, TextTitle] + s1;
    FreeOfConcat([header, TextTitle], s1, '\n');
    var x2 := x1 + ["", FormsTitle] + s2;
    FreeOfConcat(x1, ["", FormsTitle], '\n');
    FreeOfConcat(x1 + ["", FormsTitle], s2, '\n');
    var x3 := x2 + ["", TableTitle] + s3;
    FreeOfConcat(x2, ["", TableTitle], '\n');
    FreeOfConcat(x2 + ["", TableTitle], s3, '\n');
    FreeOfConcat(x3, [""], '\n');
  }

  /** A form field line has a line break only where its key or value has one. */
  lemma FieldLinesFree(fields: seq<(string, string)>)
    requires forall i :: 0 <= i < |fields| ==> '\n' !in fields[i].0 && '\n' !in fields[i].1
    ensures FreeOf(FieldLines(fields), '\n')
  {
    var fl := FieldLines(fields);
    forall i | 0 <= i < |fl| ensures '\n' !in fl[i] {
      var (k, v) := fields[i];
      assert fl[i] == k + ": " + v;
    }
  }

  /** A cell line has a line break only where the cell's text has one. */
  lemma CellLinesFree(cells: seq<CellRecord>)
    requires forall i :: 0 <= i < |cells| ==> '\n' !in cells[i].text
    ensures FreeOf(CellLines(cells), '\n')
  {
    var cl := CellLines(cells);
    forall i | 0 <= i < |cl| ensures '\n' !in cl[i] {
      var c := cells[i];
      assert cl[i] == "Row " + IntToString(c.row) + " Col " + IntToString(c.col) + ": " + c.text;
    }
  }

  /** Read line by line, the document text gives back its header, every text
      line, every form field and every cell, each section under its title and
      the sections separated by one blank line. */
  lemma DocumentReadsBack(doc: AuditDocument)
    requires SingleLineStrings(doc)
    ensures Split(FormatDocument(doc), '\n') == DocumentLines(doc)
  {
    FormatIsDocumentLines(doc);
    DocumentLinesFree(doc);
    SplitJoinRoundTrip(DocumentLines(doc), '\n');
  }
}
