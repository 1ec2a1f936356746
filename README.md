# PDF form-field access, modelled in Dafny

The repository's `PDFWrapper` class reads and fills the interactive form
fields of a PDF through pdfrw. Its own logic is two walks over the widget
annotations of every page:

- `extract_fields_values` collects a flat dictionary from each field name to
  its value (`None` when the field has none);
- `fill_pdf` writes a caller's values into those annotations in place: `True`
  checks a checkbox (`/AS` becomes `/Yes`), `False` does nothing, and any other
  value becomes the text value `/V`, with the cached appearance `/AP` emptied.
  It then sets `/NeedAppearances` to `true` on the AcroForm.

`pdf_wrapper.dfy` (module `PdfWrapper`) models a parsed document as a
`Document` object holding a sequence of pages, each page the sequence of its
annotations, and the AcroForm dictionary. An annotation is a map from PDF
names to PDF objects. Every object these walks touch is string-like in pdfrw,
so an object is its raw text. A PDF string keeps its delimiters, as in
`(Name)`; a PDF name keeps its slash, as in `/Widget`; `PdfObject('true')` is
`true`. An absent key reads as `None`, as with pdfrw's dictionaries.
Python truthiness of a looked-up value means "present and non-empty".

`ExtractFieldsValues` and `FillPdf` are the two walks, as nested loops. They
are proved against the functions `Extracted` (a left-to-right fold over the
annotations in page order, then annotation order) and `FillAnnotation`. The
lemmas below state what the source promises about those functions.

Two behaviours of the code worth noting:

- The docstring at PDF_Wrapper.py:48-49 says that fields without a value map
  to `None`. By Python truthiness (PDF_Wrapper.py:67), a `/V` whose raw text is
  empty maps to `None` too. The empty PDF string `()` has two characters of
  raw text, so it is true for Python and is recorded as `()`.
- The name is stripped of its first and last character, whatever they are.
  A one-character name therefore becomes the empty string (Python `[1:-1]`).

## Model

| member | source | states |
|---|---|---|
| `PdfWrapper.StripDelimiters` | PDF_Wrapper.py:68 | the stripped name is the `/T` text without its first and last character, which put back give the text again; a text shorter than two characters strips to the empty name |
| `PdfWrapper.FieldValue` | PDF_Wrapper.py:67-70 | a widget's recorded value is `None` exactly when its `/V` is absent or its raw text is empty, and otherwise is that `/V` |
| `PdfWrapper.Flatten` | PDF_Wrapper.py:62-64 | the walk visits exactly the annotations that lie on some page |
| `PdfWrapper.FlattenIndex` | PDF_Wrapper.py:62-64 | annotation `j` of page `p` is visited at position `Offset(pages, p) + j`, after every annotation of the earlier pages and the earlier annotations of its own page |
| `PdfWrapper.FlattenLocate` | PDF_Wrapper.py:62-64 | every position of the walk is annotation `j` of some page `p`, at exactly that offset, so nothing else is visited |
| `PdfWrapper.OffsetMonotone` | PDF_Wrapper.py:62-64 | pages are walked in order: each page's annotations all come before those of any later page |
| `PdfWrapper.ExtractedKeys` | PDF_Wrapper.py:62-70 | the keys of the extracted dictionary are exactly the stripped `/T` names of annotations whose `/Subtype` is `/Widget` and whose `/T` is non-empty; no other annotation adds a key |
| `PdfWrapper.ExtractedLastWins` | PDF_Wrapper.py:62-70 | a name maps to the value of the last named widget carrying it (page order, then annotation order); earlier ones are overwritten |
| `PdfWrapper.ExtractedPageLastWins` | PDF_Wrapper.py:62-70 | over a whole document, a name maps to the value of the named widget carrying it that comes last by page, and then by position on its page |
| `PdfWrapper.ExtractedCount` | PDF_Wrapper.py:58-70 | when the named widgets have pairwise distinct names, the dictionary has one entry per named widget |
| `PdfWrapper.ExtractFieldsValues` | PDF_Wrapper.py:46-73 | the nested loop over pages and annotations returns exactly the dictionary `Extracted` gives for the document's annotations |
| `PdfWrapper.FillAnnotation` | PDF_Wrapper.py:79-92 | non-widgets, widgets with an absent or empty `/T`, names not given and `False` leave the annotation unchanged; `True` adds `/AS` = `/Yes` and changes no other key; any other value sets `/V` to its string form and `/AP` to the empty string and changes no other key; `/Subtype` and `/T` are never changed |
| `PdfWrapper.FillAnnotationIdempotent` | PDF_Wrapper.py:80-92 | filling an annotation a second time changes nothing, so an annotation object reached twice ends up as if filled once |
| `PdfWrapper.FillPdf` | PDF_Wrapper.py:75-93 | every annotation is replaced by its `FillAnnotation` in place, with page and annotation count and order kept, and the AcroForm gets `/NeedAppearances` = `true` whatever it held, its other entries unchanged |
| `PdfWrapper.FillThenExtract` | PDF_Wrapper.py:58-92 | extracting from the filled in-memory document, before it is written, gives the same keys; a field given a non-boolean value reads back its string form (`None` if that is empty); a field given a boolean keeps its old value, because `True` writes `/AS` and not `/V` |

## Left out

- `read_pdf` and `close_pdf` (PDF_Wrapper.py:32-44, 96-102), with the `pdf` and `lib` fields: they only open and close a pdfplumber or pdfrw handle.
- Parsing by `pdfrw.PdfReader` and writing by `pdfrw.PdfWriter().write`: foreign I/O. The model starts from a parsed `Document` and its result is the updated `Document`.
- `'{}'.format(v)` is the parameter `format`, an arbitrary total function to strings. `PdfName('Yes')` and `PdfObject('true')` are the constants `YesName` and `TrueObject`.
- Pages without `/Annots` and documents without `/AcroForm`: pdfrw reads both as `None`, and the wrapper's own code then raises. It iterates `None` at PDF_Wrapper.py:64 and :79 (a `TypeError`) and calls `.update` on `None` at :93 (an `AttributeError`). In the model every page is an annotation sequence and every document has an AcroForm dictionary.
- The round trip through a file: writing the filled document with `PdfWriter().write` (PDF_Wrapper.py:94) and reading it back with a new `PdfReader` (:61). `FillThenExtract` is about the filled document in memory.
- PDF objects that are arrays or dictionaries, such as an array `/V` of a multi-select list: the model covers string-like objects only.
- FillPdf: annotations are values, so the model writes each updated annotation back into its page. pdfrw mutates shared annotation objects in place; aliasing between them is not modelled. An annotation object shared by two places is filled twice in the source, which `FillAnnotationIdempotent` shows gives the same result as filling it once.
- The `/Annots` lookup (PDF_Wrapper.py:25, 63, 78): a page is modelled directly as its `/Annots` sequence.
- The unused `/Rect` key constant and the stored `reader` and `writer` references (PDF_Wrapper.py:17-18, 28).
