/** The admin product form: its initial field values, the payload `save` builds and the reset after
    adding a product. Prices and stock are held as integers (the `Number(...)` coercion is not modelled). */
module Forms {
  import opened Common
  import opened Seqs
  import opened Text
  import opened Types
  import opened Catalog

  const DEFAULT_CATEGORY: string := "Uncategorized"
  const DEFAULT_SIZES: string := "M,L"

  /** The form's fields; sizes is the comma-separated text the admin edits. */
  datatype FormState = FormState(
    title: string,
    description: string,
    price: int,
    category: string,
    sizes: string,
    stock: int,
    image: string)

  /** Field values when the form opens, empty (new product) or from the product being edited;
      `x || default` replaces an empty category or an empty joined size list with the defaults. */
  function InitialForm(initial: Option<Product>): (f: FormState)
    ensures f.category != "" && f.sizes != ""
    ensures initial.Some? ==> && f.title == initial.value.title && f.description == initial.value.description
                              && f.price == initial.value.price && f.stock == initial.value.stock
                              && f.image == initial.value.image
    ensures initial.Some? && initial.value.category != "" ==> f.category == initial.value.category
  {
    match initial
    case None => FormState("", "", 0, DEFAULT_CATEGORY, DEFAULT_SIZES, 0, "")
    case Some(p) =>
      var joined := Join(p.sizes, ',');
      FormState(p.title, p.description, p.price,
                if p.category != "" then p.category else DEFAULT_CATEGORY,
                if joined != "" then joined else DEFAULT_SIZES,
                p.stock, p.image)
  }

  function TrimAll(parts: seq<string>): (r: seq<string>)
    ensures |r| == |parts| && forall i :: 0 <= i < |r| ==> r[i] == Trim(parts[i])
  {
    seq(|parts|, i requires 0 <= i < |parts| => Trim(parts[i]))
  }

  /** `filter(Boolean)` on strings keeps the non-empty ones. */
  function NonEmpty(): string -> bool {
    (s: string) => s != []
  }

  /** A size label the form can produce: non-empty, trimmed and free of commas. */
  predicate WellFormedSize(s: string) {
    s != [] && Trimmed(s) && ',' !in s
  }

  /** `sizes.split(',').map(s => s.trim()).filter(Boolean)`. */
  function ParseSizes(text: string): (sizes: seq<string>)
    ensures forall i :: 0 <= i < |sizes| ==> WellFormedSize(sizes[i])
  {
    var pieces := TrimAll(Split(text, ','));
    assert forall i :: 0 <= i < |pieces| ==> Trimmed(pieces[i]) && ',' !in pieces[i];
    Filter(pieces, NonEmpty())
  }

  /** Joining well-formed sizes with commas and parsing the text gives the same sizes back. */
  lemma ParseJoinedSizes(sizes: seq<string>)
    requires forall i :: 0 <= i < |sizes| ==> WellFormedSize(sizes[i])
    ensures ParseSizes(Join(sizes, ',')) == sizes
  {
    if sizes == [] {
      assert Split([], ',') == [[]];
      assert TrimAll([[]]) == [[]];
      assert Filter([[]], NonEmpty()) == [];
    } else {
      SplitJoin(sizes, ',');
      assert TrimAll(sizes) == sizes;
      FilterKeepsAll(sizes, NonEmpty());
    }
  }

  /** ProductForm.save: the payload built from the fields; every size in it is well formed. */
  function Save(form: FormState): (d: Draft)
    ensures forall i :: 0 <= i < |d.sizes| ==> WellFormedSize(d.sizes[i])
    ensures d.title == form.title && d.category == form.category && d.price == form.price && d.stock == form.stock
  {
    Draft(form.title, form.description, form.price, form.category, ParseSizes(form.sizes), form.stock, form.image)
  }

  /** The fields after save: an edit keeps them, a new product clears all but the category. */
  function AfterSave(form: FormState, isEdit: bool): (r: FormState)
    ensures isEdit ==> r == form
    ensures !isEdit ==> r.category == form.category && r == InitialForm(None).(category := form.category)
  {
    if isEdit then form
    else form.(title := "", description := "", price := 0, sizes := DEFAULT_SIZES, stock := 0, image := "")
  }

  /** Opening a product for editing and saving it untouched leaves it unchanged when its
      category is non-empty and its size list is non-empty and well formed. */
  lemma EditUntouchedKeepsProduct(p: Product)
    requires p.category != ""
    requires p.sizes != [] && forall i :: 0 <= i < |p.sizes| ==> WellFormedSize(p.sizes[i])
    ensures Merge(p, DraftPatch(Save(InitialForm(Some(p))))) == p
  {
    ParseJoinedSizes(p.sizes);
    assert p.sizes[0] <= Join(p.sizes, ',');
  }

  /** ... but a product without sizes comes back with sizes M and L. */
  lemma EditUntouchedFillsSizes(p: Product)
    requires p.sizes == []
    ensures Merge(p, DraftPatch(Save(InitialForm(Some(p))))).sizes == ["M", "L"]
  {
    DefaultSizesParse();
  }

  /** A new product saved from the untouched form is uncategorized with sizes M and L. */
  lemma NewFormDefaults()
    ensures Save(InitialForm(None)) == Draft("", "", 0, DEFAULT_CATEGORY, ["M", "L"], 0, "")
  {
    DefaultSizesParse();
  }

  lemma DefaultSizesParse()
    ensures ParseSizes(DEFAULT_SIZES) == ["M", "L"]
  {
    var sizes := ["M", "L"];
    assert Join(sizes, ',') == DEFAULT_SIZES by {
      assert Join(sizes[1..], ',') == "L";
    }
    ParseJoinedSizes(sizes);
  }
}
