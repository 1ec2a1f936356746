/** Form-field access of the PDF wrapper: reading every widget annotation's
    field name and value into one flat dictionary, and filling widget
    annotations from a caller's dictionary in place.

    A parsed document is a sequence of pages, a page is its `/Annots`
    sequence, and an annotation is a dictionary from PDF names to PDF objects.
    Every object this code reads or writes is string-like in pdfrw: a PDF
    string keeps its delimiters (`(Name)`), a PDF name its leading slash
    (`/Widget`), a keyword its own text (`true`). So a PDF object is modelled
    by that raw text. */
module PdfWrapper {

  datatype Option<T> = None | Some(value: T)

  /** A PDF object as pdfrw holds it: its raw text. */
  type PdfObject = string

  /** An annotation dictionary; a page is the sequence of its annotations. */
  type Annotation = map<string, PdfObject>
  type Page = seq<Annotation>

  /** Field dictionary returned by the extraction: stripped name to value,
      `None` for a field without a value. */
  type Fields = map<string, Option<PdfObject>>

  // Keys and values the wrapper reads and writes
  const AnnotFieldKey: string := "/T"
  const AnnotValKey: string := "/V"
  const SubtypeKey: string := "/Subtype"
  const WidgetSubtype: PdfObject := "/Widget"
  const AppearanceStateKey: string := "/AS"
  const AppearanceKey: string := "/AP"
  const NeedAppearancesKey: string := "/NeedAppearances"
  /** The name object `/Yes`, the "checked" appearance state. */
  const YesName: PdfObject := "/Yes"
  /** The keyword object `true`. */
  const TrueObject: PdfObject := "true"

  /** A value the caller asks `FillPdf` to write: a Python `bool`, or any
      other value, which is written through its string form. */
  datatype FillValue<V> = Flag(b: bool) | Datum(v: V)

  /** The parsed document that `FillPdf` updates in place: its pages and the
      `/AcroForm` dictionary of its catalogue. */
  class Document {
    var pages: seq<Page>
    var acroForm: map<string, PdfObject>

    constructor (pages: seq<Page>, acroForm: map<string, PdfObject>)
      ensures this.pages == pages && this.acroForm == acroForm
    {
      this.pages := pages;
      this.acroForm := acroForm;
    }
  }

  // ---------------------------------------------------------------------
  // Reading an annotation

  /** Dictionary access as pdfrw does it: an absent key reads as `None`. */
  function Lookup(d: map<string, PdfObject>, key: string): (r: Option<PdfObject>)
  {
    if key in d then Some(d[key]) else None
  }

  /** Python truthiness of what `Lookup` returns: present and non-empty. */
  predicate Truthy(v: Option<PdfObject>)
  {
    v.Some? && v.value != ""
  }

  /** The annotations both walks act on: widgets with a non-empty `/T`. */
  predicate IsNamedWidget(a: Annotation)
  {
    Lookup(a, SubtypeKey) == Some(WidgetSubtype) && Truthy(Lookup(a, AnnotFieldKey))
  }

  /** Python's `t[1:-1]`: drops the first and the last character, and gives
      the empty string when there are fewer than two. */
  function StripDelimiters(t: string): (r: string)
    ensures |t| >= 2 ==> |r| == |t| - 2 && [t[0]] + r + [t[|t| - 1]] == t
    ensures |t| < 2 ==> r == ""
  {
    if |t| >= 2 then t[1..|t| - 1] else ""
  }

  /** The field name of a named widget, its delimiters stripped. */
  function FieldName(a: Annotation): (name: string)
    requires IsNamedWidget(a)
  {
    StripDelimiters(a[AnnotFieldKey])
  }

  /** The value recorded for a widget: its `/V`, or `None` when `/V` is
      absent or its raw text is empty. The empty PDF string `()` has two
      characters of raw text, so it is recorded. */
  function FieldValue(a: Annotation): (r: Option<PdfObject>)
    ensures r == None <==> AnnotValKey !in a || a[AnnotValKey] == ""
    ensures r != None ==> AnnotValKey in a && r == Some(a[AnnotValKey])
  {
    if Truthy(Lookup(a, AnnotValKey)) then Lookup(a, AnnotValKey) else None
  }

  /** All annotations of a document, page after page. `FlattenIndex` and
      `FlattenLocate` state the order: page order, then annotation order
      within a page, each annotation at exactly one position. */
  function Flatten(pages: seq<Page>): (r: seq<Annotation>)
    ensures forall a :: a in r <==> exists p :: p in pages && a in p
  {
    if pages == [] then []
    else
      var init := pages[..|pages| - 1];
      assert forall p :: p in pages <==> p in init || p == pages[|pages| - 1];
      Flatten(init) + pages[|pages| - 1]
  }

  /** Where page `p` starts among the flattened annotations. */
  function Offset(pages: seq<Page>, p: nat): (k: nat)
    requires p <= |pages|
  {
    |Flatten(pages[..p])|
  }

  lemma OffsetStep(pages: seq<Page>, p: nat)
    requires p < |pages|
    ensures Offset(pages, p + 1) == Offset(pages, p) + |pages[p]|
  {
    assert pages[..p + 1][..p] == pages[..p];
  }

  /** Pages come in order: page `p` ends no later than page `q` starts. */
  lemma {:induction false} OffsetMonotone(pages: seq<Page>, p: nat, q: nat)
    requires p < q <= |pages|
    ensures Offset(pages, p) + |pages[p]| <= Offset(pages, q)
    decreases q
  {
    OffsetStep(pages, q - 1);
    if p < q - 1 {
      OffsetMonotone(pages, p, q - 1);
    }
  }

  /** The annotations of the first `q` pages are a prefix of all of them. */
  lemma {:induction false} FlattenPrefix(pages: seq<Page>, q: nat)
    requires q <= |pages|
    ensures Offset(pages, q) <= |Flatten(pages)|
    ensures Flatten(pages)[..Offset(pages, q)] == Flatten(pages[..q])
  {
    var n := |pages|;
    if q == n {
      assert pages[..q] == pages;
    } else {
      var init := pages[..n - 1];
      FlattenPrefix(init, q);
      assert init[..q] == pages[..q];
    }
  }

  /** Annotation `j` of page `p` sits at position `Offset(pages, p) + j`. */
  lemma FlattenIndex(pages: seq<Page>, p: nat, j: nat)
    requires p < |pages| && j < |pages[p]|
    ensures Offset(pages, p) + j < |Flatten(pages)|
    ensures Flatten(pages)[Offset(pages, p) + j] == pages[p][j]
  {
    FlattenPrefix(pages, p + 1);
    assert pages[..p + 1][..p] == pages[..p];
  }

  /** Every position of the flattened annotations is annotation `j` of some
      page `p`. */
  lemma {:induction false} FlattenLocate(pages: seq<Page>, k: nat) returns (p: nat, j: nat)
    requires k < |Flatten(pages)|
    ensures p < |pages| && j < |pages[p]|
    ensures k == Offset(pages, p) + j && Flatten(pages)[k] == pages[p][j]
  {
    var n := |pages|;
    var init := pages[..n - 1];
    if k < |Flatten(init)| {
      p, j := FlattenLocate(init, k);
      assert init[..p] == pages[..p];
    } else {
      p, j := n - 1, k - |Flatten(init)|;
    }
  }

  // ---------------------------------------------------------------------
  // Extraction

  /** One step of the extraction: a named widget overwrites its entry. */
  function Record(fields: Fields, a: Annotation): (r: Fields)
  {
    if IsNamedWidget(a) then fields[FieldName(a) := FieldValue(a)] else fields
  }

  /** The dictionary the extraction builds from a sequence of annotations,
      the annotations taken in order. */
  function Extracted(annots: seq<Annotation>): (fields: Fields)
  {
    if annots == [] then map[]
    else Record(Extracted(annots[..|annots| - 1]), annots[|annots| - 1])
  }

  /** The stripped names of the named widgets among `annots`. */
  ghost function WidgetNames(annots: seq<Annotation>): set<string>
  {
    set a | a in annots && IsNamedWidget(a) :: FieldName(a)
  }

  /** The number of named widgets among `annots`. */
  function CountNamedWidgets(annots: seq<Annotation>): (n: nat)
  {
    if annots == [] then 0
    else CountNamedWidgets(annots[..|annots| - 1]) + (if IsNamedWidget(annots[|annots| - 1]) then 1 else 0)
  }

  /** The keys of the extracted dictionary are exactly the stripped names of
      the named widgets; no other annotation contributes a key. */
  lemma {:induction false} ExtractedKeys(annots: seq<Annotation>)
    ensures Extracted(annots).Keys == WidgetNames(annots)
  {
    if annots != [] {
      var init, last := annots[..|annots| - 1], annots[|annots| - 1];
      ExtractedKeys(init);
      assert annots == init + [last];
      assert forall a :: a in annots <==> a in init || a == last;
      if IsNamedWidget(last) {
        assert WidgetNames(annots) == WidgetNames(init) + {FieldName(last)};
      } else {
        assert WidgetNames(annots) == WidgetNames(init);
      }
    }
  }

  /** The entry of a name is the value of the last named widget carrying
      that name: later annotations overwrite earlier ones. */
  lemma {:induction false} ExtractedLastWins(annots: seq<Annotation>, i: nat)
    requires i < |annots| && IsNamedWidget(annots[i])
    requires forall j :: i < j < |annots| && IsNamedWidget(annots[j]) ==>
      FieldName(annots[j]) != FieldName(annots[i])
    ensures FieldName(annots[i]) in Extracted(annots)
    ensures Extracted(annots)[FieldName(annots[i])] == FieldValue(annots[i])
  {
    var n := |annots|;
    if i < n - 1 {
      var init := annots[..n - 1];
      ExtractedLastWins(init, i);
    }
  }

  /** The same over a document: the entry of a name is the value of the
      named widget carrying it that comes last, by page and then by position
      on its page. */
  lemma ExtractedPageLastWins(pages: seq<Page>, p: nat, j: nat)
    requires p < |pages| && j < |pages[p]| && IsNamedWidget(pages[p][j])
    requires forall q, k :: p <= q < |pages| && 0 <= k < |pages[q]| && (q > p || k > j) && IsNamedWidget(pages[q][k]) ==>
      FieldName(pages[q][k]) != FieldName(pages[p][j])
    ensures FieldName(pages[p][j]) in Extracted(Flatten(pages))
    ensures Extracted(Flatten(pages))[FieldName(pages[p][j])] == FieldValue(pages[p][j])
  {
    var flat := Flatten(pages);
    var i := Offset(pages, p) + j;
    FlattenIndex(pages, p, j);
    forall m | i < m < |flat| && IsNamedWidget(flat[m])
      ensures FieldName(flat[m]) != FieldName(flat[i])
    {
      var q, k := FlattenLocate(pages, m);
      if q < p {
        OffsetMonotone(pages, q, p);
      } else if q > p {
        OffsetMonotone(pages, p, q);
      }
    }
    ExtractedLastWins(flat, i);
  }

  /** With pairwise distinct names, the dictionary has one entry per named
      widget. */
  lemma {:induction false} ExtractedCount(annots: seq<Annotation>)
    requires forall i, j :: 0 <= i < j < |annots| && IsNamedWidget(annots[i]) && IsNamedWidget(annots[j]) ==>
      FieldName(annots[i]) != FieldName(annots[j])
    ensures |Extracted(annots)| == CountNamedWidgets(annots)
  {
    if annots != [] {
      var n := |annots|;
      var init, last := annots[..n - 1], annots[n - 1];
      ExtractedCount(init);
      if IsNamedWidget(last) {
        ExtractedKeys(init);
      }
    }
  }

  /** `extract_fields_values`: walks every page's annotations and records
      each named widget's stripped name with its value. */
  method ExtractFieldsValues(doc: Document) returns (fields: Fields)
    ensures fields == Extracted(Flatten(doc.pages))
  {
    fields := map[];
    var i := 0;
    while i < |doc.pages|
      invariant 0 <= i <= |doc.pages|
      invariant fields == Extracted(Flatten(doc.pages[..i]))
    {
      var done := Flatten(doc.pages[..i]);
      var annotations := doc.pages[i];
      var j := 0;
      assert done + annotations[..0] == done;
      while j < |annotations|
        invariant 0 <= j <= |annotations|
        invariant fields == Extracted(done + annotations[..j])
      {
        var annotation := annotations[j];
        if Lookup(annotation, SubtypeKey) == Some(WidgetSubtype) {
          if Truthy(Lookup(annotation, AnnotFieldKey)) {
            if Truthy(Lookup(annotation, AnnotValKey)) {
              fields := fields[StripDelimiters(annotation[AnnotFieldKey]) := Some(annotation[AnnotValKey])];
            } else {
              fields := fields[StripDelimiters(annotation[AnnotFieldKey]) := None];
            }
          }
        }
        assert (done + annotations[..j + 1])[..|done| + j] == done + annotations[..j];
        j := j + 1;
      }
      assert annotations[..j] == annotations;
      assert doc.pages[..i + 1][..i] == doc.pages[..i];
      i := i + 1;
    }
    assert doc.pages[..i] == doc.pages;
  }

  // ---------------------------------------------------------------------
  // Filling

  /** What `fill_pdf` does to one annotation. */
  function FillAnnotation<V>(a: Annotation, values: map<string, FillValue<V>>, format: V -> string): (r: Annotation)
    // the fill never touches `/Subtype` or `/T`
    ensures IsNamedWidget(r) == IsNamedWidget(a)
    ensures IsNamedWidget(a) ==> FieldName(r) == FieldName(a)
    // non-widgets, widgets without a name, names the caller did not give
    ensures !IsNamedWidget(a) || FieldName(a) !in values ==> r == a
    // `False` leaves the widget as it was
    ensures IsNamedWidget(a) && FieldName(a) in values && values[FieldName(a)].Flag? && !values[FieldName(a)].b ==> r == a
    // `True` sets `/AS` to `/Yes` and nothing else
    ensures IsNamedWidget(a) && FieldName(a) in values && values[FieldName(a)].Flag? && values[FieldName(a)].b ==>
      r.Keys == a.Keys + {AppearanceStateKey} && r[AppearanceStateKey] == YesName &&
      forall k :: k in a && k != AppearanceStateKey ==> r[k] == a[k]
    // any other value sets `/V` to its string form and empties `/AP`
    ensures IsNamedWidget(a) && FieldName(a) in values && values[FieldName(a)].Datum? ==>
      r.Keys == a.Keys + {AnnotValKey, AppearanceKey} &&
      r[AnnotValKey] == format(values[FieldName(a)].v) && r[AppearanceKey] == "" &&
      forall k :: k in a && k != AnnotValKey && k != AppearanceKey ==> r[k] == a[k]
  {
    if IsNamedWidget(a) && FieldName(a) in values then
      match values[FieldName(a)]
      case Flag(b) => if b then a[AppearanceStateKey := YesName] else a
      case Datum(v) => a[AnnotValKey := format(v)][AppearanceKey := ""]
    else a
  }

  /** Filling an annotation twice is filling it once, so an annotation object
      that several pages share ends up as if filled once. */
  lemma FillAnnotationIdempotent<V>(a: Annotation, values: map<string, FillValue<V>>, format: V -> string)
    ensures FillAnnotation(FillAnnotation(a, values, format), values, format) == FillAnnotation(a, values, format)
  {
  }

  /** `FillAnnotation` applied to each annotation of a sequence. */
  function FillAll<V>(annots: seq<Annotation>, values: map<string, FillValue<V>>, format: V -> string): (r: seq<Annotation>)
  {
    seq(|annots|, j requires 0 <= j < |annots| => FillAnnotation(annots[j], values, format))
  }

  /** `FillAnnotation` applied to each annotation of each page. */
  function FilledPages<V>(pages: seq<Page>, values: map<string, FillValue<V>>, format: V -> string): (r: seq<Page>)
  {
    seq(|pages|, i requires 0 <= i < |pages| => FillAll(pages[i], values, format))
  }

  /** `fill_pdf`: updates every named widget whose name the caller gave, in
      place, then sets `/NeedAppearances` to `true` on the AcroForm. */
  method FillPdf<V>(doc: Document, values: map<string, FillValue<V>>, format: V -> string)
    modifies doc
    ensures doc.pages == FilledPages(old(doc.pages), values, format)
    ensures |doc.pages| == |old(doc.pages)|
    ensures forall i :: 0 <= i < |doc.pages| ==> |doc.pages[i]| == |old(doc.pages)[i]|
    ensures forall i, j :: 0 <= i < |doc.pages| && 0 <= j < |doc.pages[i]| ==>
      doc.pages[i][j] == FillAnnotation(old(doc.pages)[i][j], values, format)
    ensures doc.acroForm == old(doc.acroForm)[NeedAppearancesKey := TrueObject]
  {
    ghost var filled := FilledPages(doc.pages, values, format);
    var i := 0;
    while i < |doc.pages|
      invariant 0 <= i <= |doc.pages| == |filled|
      invariant doc.pages[..i] == filled[..i]
      invariant doc.pages[i..] == old(doc.pages)[i..]
      invariant doc.acroForm == old(doc.acroForm)
    {
      var annotations := doc.pages[i];
      assert annotations == old(doc.pages)[i];
      var j := 0;
      while j < |annotations|
        invariant 0 <= j <= |annotations| == |filled[i]|
        invariant annotations[..j] == filled[i][..j]
        invariant annotations[j..] == old(doc.pages)[i][j..]
      {
        var annotation := annotations[j];
        assert annotation == old(doc.pages)[i][j];
        if Lookup(annotation, SubtypeKey) == Some(WidgetSubtype) {
          if Truthy(Lookup(annotation, AnnotFieldKey)) {
            var key := StripDelimiters(annotation[AnnotFieldKey]);
            if key in values {
              match values[key]
              case Flag(b) =>
                if b {
                  annotation := annotation[AppearanceStateKey := YesName];
                }
              case Datum(v) =>
                annotation := annotation[AnnotValKey := format(v)];
                annotation := annotation[AppearanceKey := ""];
            }
          }
        }
        annotations := annotations[j := annotation];
        j := j + 1;
      }
      assert annotations == annotations[..j] == filled[i][..j] == filled[i];
      doc.pages := doc.pages[i := annotations];
      i := i + 1;
    }
    doc.acroForm := doc.acroForm[NeedAppearancesKey := TrueObject];
  }

  // ---------------------------------------------------------------------
  // Filling, then extracting again

  /** What the extraction reads back from a `/V` written as `s`. */
  function ReadBack(s: string): (r: Option<PdfObject>)
  {
    if s == "" then None else Some(s)
  }

  /** The extracted dictionary after a fill: every field given a non-boolean
      value reads back its string form; a field given a boolean keeps its
      value, since `True` changes `/AS` and not `/V`. */
  function Refilled<V>(fields: Fields, values: map<string, FillValue<V>>, format: V -> string): (r: Fields)
  {
    map k | k in fields :: if k in values && values[k].Datum? then ReadBack(format(values[k].v)) else fields[k]
  }

  /** Filling page by page and then flattening is filling the flattened
      annotations. */
  lemma {:induction false} FlattenFilled<V>(pages: seq<Page>, values: map<string, FillValue<V>>, format: V -> string)
    ensures Flatten(FilledPages(pages, values, format)) == FillAll(Flatten(pages), values, format)
  {
    if pages != [] {
      var n := |pages|;
      var init := pages[..n - 1];
      FlattenFilled(init, values, format);
      assert FilledPages(pages, values, format)[..n - 1] == FilledPages(init, values, format);
      var flat := Flatten(init);
      assert FillAll(flat + pages[n - 1], values, format) == FillAll(flat, values, format) + FillAll(pages[n - 1], values, format);
    }
  }

  /** Extraction after a fill, over one sequence of annotations. */
  lemma {:induction false} ExtractFilled<V>(annots: seq<Annotation>, values: map<string, FillValue<V>>, format: V -> string)
    ensures Extracted(FillAll(annots, values, format)) == Refilled(Extracted(annots), values, format)
  {
    if annots != [] {
      var n := |annots|;
      var init, last := annots[..n - 1], annots[n - 1];
      ExtractFilled(init, values, format);
      var filled := FillAll(annots, values, format);
      assert filled[..n - 1] == FillAll(init, values, format);
      var e := Extracted(init);
      var b := FillAnnotation(last, values, format);
      if IsNamedWidget(last) {
        var k := FieldName(last);
        assert FieldValue(b) == if k in values && values[k].Datum? then ReadBack(format(values[k].v)) else FieldValue(last);
        assert Record(Refilled(e, values, format), b) == Refilled(Record(e, last), values, format);
      }
    }
  }

  /** Extracting from the filled in-memory document gives the original extraction with
      each field given a non-boolean value replaced by its string form (or
      `None` when that form is empty); the keys are unchanged. */
  lemma FillThenExtract<V>(pages: seq<Page>, values: map<string, FillValue<V>>, format: V -> string)
    ensures Extracted(Flatten(FilledPages(pages, values, format))).Keys == Extracted(Flatten(pages)).Keys
    ensures Extracted(Flatten(FilledPages(pages, values, format))) == Refilled(Extracted(Flatten(pages)), values, format)
  {
    FlattenFilled(pages, values, format);
    ExtractFilled(Flatten(pages), values, format);
  }
}
