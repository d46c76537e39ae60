/**
 * The product-list component's state and its event handlers: submit (create
 * or update), begin an edit, delete after confirmation, reset the form, and
 * show or dismiss the notification.
 */
module ProductForm {
  import opened Wrappers
  import opened JsText
  import opened Products
  import opened Validation

  /** The notification's severity. */
  datatype Variant = Success | Danger

  const InputRejected: JsString := Units("Periksa kembali input Anda.")
  const Added: JsString := Units("Produk berhasil ditambahkan.")
  const Updated: JsString := Units("Produk berhasil diperbarui.")
  const Deleted: JsString := Units("Produk berhasil dihapus.")

  /** The slider's starting value. */
  const DefaultStock := 50

  /** The draft of a cleared form. */
  function EmptyDraft(): (d: Draft)
    ensures d.name == [] && d.description == [] && PriceMissing(d.price)
    ensures d.category == [] && d.releaseDate == [] && d.stock == DefaultStock && d.isActive
  {
    Draft([], [], Typed([]), [], [], DefaultStock, true)
  }

  /** Submitting a cleared form reports each required field, and nothing about the optional description. */
  lemma EmptyDraftErrors(h: Host)
    ensures Validate(EmptyDraft(), h) ==
      map[Name := NameRequired, Price := PriceRequired, Category := CategoryRequired,
          ReleaseDate := ReleaseDateRequired]
  {
  }

  /** The fields a submit writes: trimmed texts, the numeric price, the rest as drafted. */
  function Submitted(d: Draft, price: real): (f: Fields)
    ensures Tight(f.name) && Tight(f.description)
    ensures f.name == [] <==> Blank(d.name)
    ensures f.description == [] <==> Blank(d.description)
    ensures f.price == price && f.stock == d.stock && f.isActive == d.isActive
    ensures f.category == d.category && f.releaseDate == d.releaseDate
  {
    Fields(Trim(d.name), Trim(d.description), price, d.category, d.releaseDate, d.stock, d.isActive)
  }

  /** The draft an edit starts from; a missing description becomes the empty string. */
  function DraftOf(p: Product): (d: Draft)
    ensures d.price == Stored(p.price) && (p.description.Some? ==> d.description == p.description.value)
    ensures p.description.None? ==> d.description == []
  {
    Draft(p.name, p.description.GetOr([]), Stored(p.price), p.category, p.releaseDate, p.stock, p.isActive)
  }

  const PromptHead: JsString := Units("Hapus Produk \"")
  const PromptTail: JsString := Units("\"?")

  /** The question put to `window.confirm` before a delete: the record's name, quoted. */
  function ConfirmPrompt(name: JsString): (r: JsString)
    ensures |r| == |PromptHead| + |name| + |PromptTail|
    ensures r[..|PromptHead|] == PromptHead && r[|r| - |PromptTail|..] == PromptTail
    ensures r[|PromptHead|..|r| - |PromptTail|] == name
  {
    PromptHead + name + PromptTail
  }

  /** A record that the validator would have let through. */
  predicate WellFormed(p: Product) {
    && p.name != [] && Tight(p.name) && |p.name| <= MaxNameLength
    && p.description.Some? && Tight(p.description.value)
    && (p.description.value == [] || |p.description.value| >= MinDescriptionLength)
    && p.price > 0.0 && p.category != [] && p.releaseDate != []
  }

  /** Every record a successful submit writes obeys the field rules. */
  lemma SubmittedWellFormed(d: Draft, h: Host, id: int)
    requires |Validate(d, h)| == 0
    ensures PriceNumber(d.price, h).Some?
    ensures WellFormed(WithFields(id, Submitted(d, PriceNumber(d.price, h).value)))
  {
    ValidateEmptyIff(d, h);
  }

  /** A well-formed record, loaded into the form, validates (when its date is not in the future). */
  lemma EditedDraftValid(p: Product, h: Host)
    requires WellFormed(p) && !InFuture(h)
    ensures |Validate(DraftOf(p), h)| == 0
  {
  }

  /** Loading a well-formed record into the form and saving it unchanged gives the record back. */
  lemma EditRoundTrip(p: Product, h: Host)
    requires WellFormed(p)
    ensures PriceNumber(DraftOf(p).price, h) == Some(p.price)
    ensures WithFields(p.id, Submitted(DraftOf(p), p.price)) == p
  {
    TrimTight(p.name);
    TrimTight(p.description.value);
  }

  /** The component: the record list, the draft, its errors, the edit target and the notification. */
  class App {
    var products: seq<Product>
    var draft: Draft
    var errors: map<Field, JsString>
    var editingId: Option<int>
    var showToast: bool
    var toastMessage: JsString
    var toastVariant: Variant

    /** Ids are unique and the edit target, if any, names a record on the list. */
    ghost predicate Coherent()
      reads this
    {
      UniqueIds(products) && (editingId.Some? ==> HasId(products, editingId.value))
    }

    /** Mount: the saved list if there is one, otherwise the two seed records; a cleared form. */
    constructor (saved: Option<seq<Product>>)
      ensures products == saved.GetOr(Seed())
      ensures draft == EmptyDraft() && errors == map[] && editingId == None
      ensures !showToast && toastMessage == [] && toastVariant == Success
      ensures saved.None? || UniqueIds(saved.value) ==> Coherent()
    {
      products := saved.GetOr(Seed());
      draft := EmptyDraft();
      errors := map[];
      editingId := None;
      showToast := false;
      toastMessage := [];
      toastVariant := Success;
    }

    /** Show `message` with severity `variant`. */
    method ShowToastMsg(message: JsString, variant: Variant)
      modifies this
      ensures showToast && toastMessage == message && toastVariant == variant
      ensures products == old(products) && draft == old(draft)
      ensures errors == old(errors) && editingId == old(editingId)
    {
      toastMessage := message;
      toastVariant := variant;
      showToast := true;
    }

    /** The notification's close, by its button or its auto-hide timer. */
    method DismissToast()
      modifies this
      ensures !showToast && toastMessage == old(toastMessage) && toastVariant == old(toastVariant)
      ensures products == old(products) && draft == old(draft)
      ensures errors == old(errors) && editingId == old(editingId)
    {
      showToast := false;
    }

    /** Clear the draft and the errors and leave edit mode; the list and the notification stay. */
    method ResetForm()
      modifies this
      ensures draft == EmptyDraft() && errors == map[] && editingId == None
      ensures products == old(products)
      ensures showToast == old(showToast) && toastMessage == old(toastMessage) && toastVariant == old(toastVariant)
      ensures old(UniqueIds(products)) ==> Coherent()
    {
      draft := EmptyDraft();
      errors := map[];
      editingId := None;
    }

    /**
     * Submit the draft. `freshId` is what `Date.now()` returns and `h` what
     * the host answers to the validator's conversions.
     */
    method HandleSubmit(freshId: int, h: Host)
      modifies this
      ensures |Validate(old(draft), h)| > 0 ==>
        && errors == Validate(old(draft), h)
        && products == old(products) && draft == old(draft) && editingId == old(editingId)
        && showToast && toastMessage == InputRejected && toastVariant == Danger
      ensures |Validate(old(draft), h)| == 0 ==>
        && PriceNumber(old(draft).price, h).Some?
        && var f := Submitted(old(draft), PriceNumber(old(draft).price, h).value);
        && products == (if old(editingId).None? then [WithFields(freshId, f)] + old(products)
                        else UpdateWhere(old(products), old(editingId).value, f))
        && draft == EmptyDraft() && errors == map[] && editingId == None
        && showToast && toastMessage == (if old(editingId).None? then Added else Updated)
        && toastVariant == Success
      ensures old(Coherent()) && (old(editingId).None? ==> !HasId(old(products), freshId)) ==> Coherent()
    {
      var validationErrors := Validate(draft, h);
      ValidateEmptyIff(draft, h);
      if |validationErrors| > 0 {
        errors := validationErrors;
        ShowToastMsg(InputRejected, Danger);
        return;
      }
      errors := map[];
      var productData := Submitted(draft, PriceNumber(draft.price, h).value);
      if editingId.None? {
        ghost var unique := UniqueIds(products) && !HasId(products, freshId);
        products := [WithFields(freshId, productData)] + products;
        if unique { PrependKeepsUnique(old(products), WithFields(freshId, productData)); }
        ShowToastMsg(Added, Success);
      } else {
        UpdateKeepsIds(products, editingId.value, productData);
        products := UpdateWhere(products, editingId.value, productData);
        ShowToastMsg(Updated, Success);
      }
      ResetForm();
    }

    /** Begin editing `p`: it becomes the edit target and its fields fill the draft. */
    method HandleEdit(p: Product)
      modifies this
      ensures editingId == Some(p.id) && draft == DraftOf(p) && errors == map[]
      ensures products == old(products)
      ensures showToast == old(showToast) && toastMessage == old(toastMessage) && toastVariant == old(toastVariant)
      ensures old(UniqueIds(products)) && p in products ==> Coherent()
    {
      editingId := Some(p.id);
      draft := DraftOf(p);
      errors := map[];
      if p in products {
        var k :| 0 <= k < |products| && products[k] == p;
        assert products[k].id == p.id;
      }
    }

    /**
     * Delete the record carrying `id`. `prompt` is the question put to the
     * user and `confirmed` the answer `window.confirm` gives.
     */
    method HandleDelete(id: int, confirmed: bool) returns (prompt: JsString)
      requires HasId(products, id)
      modifies this
      ensures Find(old(products), id).Some? && prompt == ConfirmPrompt(Find(old(products), id).value.name)
      ensures !confirmed ==>
        && products == old(products) && draft == old(draft)
        && errors == old(errors) && editingId == old(editingId)
        && showToast == old(showToast) && toastMessage == old(toastMessage) && toastVariant == old(toastVariant)
      ensures confirmed ==>
        && products == RemoveId(old(products), id)
        && (if old(editingId) == Some(id) then draft == EmptyDraft() && errors == map[] && editingId == None
            else draft == old(draft) && errors == old(errors) && editingId == old(editingId))
        && showToast && toastMessage == Deleted && toastVariant == Success
      ensures old(Coherent()) ==> Coherent()
    {
      var target := Find(products, id).value;
      prompt := ConfirmPrompt(target.name);
      if confirmed {
        ghost var was := products;
        products := RemoveId(products, id);
        if UniqueIds(was) {
          RemoveKeepsUnique(was, id);
        }
        if editingId == Some(id) {
          ResetForm();
        } else if editingId.Some? && HasId(was, editingId.value) {
          RemoveKeepsOthers(was, id, editingId.value);
        }
        ShowToastMsg(Deleted, Success);
      }
    }
  }
}
