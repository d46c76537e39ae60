/**
 * The form's draft and the validator run on submit: a fresh map from field
 * to error message, built by one rule per field.
 */
module Validation {
  import opened Wrappers
  import opened JsText

  /** The draft fields, which are also the keys an error map may use. */
  datatype Field = Name | Description | Price | Category | ReleaseDate | Stock | IsActive

  /**
   * The price draft: the text of the number input, or, after an edit was
   * begun, the stored record's price, which is a number rather than a string.
   */
  datatype PriceInput = Typed(text: JsString) | Stored(amount: real)

  /** The form's in-progress values. */
  datatype Draft = Draft(
    name: JsString,
    description: JsString,
    price: PriceInput,
    category: JsString,
    releaseDate: JsString,
    stock: int,
    isActive: bool)

  /**
   * What the host answers while the validator runs: `Number(price)` for a
   * typed price (None when it is NaN), the time `new Date(releaseDate)` stands
   * for in milliseconds (None for an Invalid Date) and the time `new Date()`.
   */
  datatype Host = Host(typedPrice: Option<real>, releaseTime: Option<int>, now: int)

  const NameRequired: JsString := Units("Nama Produk wajib diisi.")
  const NameTooLong: JsString := Units("Nama maksimal 100 karakter.")
  const DescriptionTooShort: JsString := Units("Deskripsi minimal 20 karakter.")
  const PriceRequired: JsString := Units("Harga wajib diisi.")
  const PriceInvalid: JsString := Units("Harga harus angka dan lebih dari 0.")
  const CategoryRequired: JsString := Units("Kategori wajib dipilih.")
  const ReleaseDateRequired: JsString := Units("Tanggal rilis wajib diisi.")
  const ReleaseDateInFuture: JsString := Units("Tanggal rilis tidak boleh di masa depan.")

  const MaxNameLength := 100
  const MinDescriptionLength := 20

  /** `!price`: the empty string, or the number 0. */
  predicate PriceMissing(p: PriceInput) {
    match p
    case Typed(text) => text == []
    case Stored(amount) => amount == 0.0
  }

  /** `Number(price)`, None standing for NaN. */
  function PriceNumber(p: PriceInput, h: Host): Option<real> {
    match p
    case Typed(_) => h.typedPrice
    case Stored(amount) => Some(amount)
  }

  /** The release date lies after the current time; an Invalid Date compares false. */
  predicate InFuture(h: Host) {
    h.releaseTime.Some? && h.releaseTime.value > h.now
  }

  /** The name rule: the name must be non-blank and at most 100 code units once trimmed. */
  function NameRule(name: JsString): (r: Option<JsString>)
    ensures r.Some? <==> Blank(name) || |Trim(name)| > MaxNameLength
    ensures r.Some? ==> r.value == if Blank(name) then NameRequired else NameTooLong
  {
    var t := Trim(name);
    if t == [] then Some(NameRequired)
    else if |t| > MaxNameLength then Some(NameTooLong)
    else None
  }

  /** The description rule: a description is optional, but a non-blank one needs 20 code units once trimmed. */
  function DescriptionRule(description: JsString): (r: Option<JsString>)
    ensures r.Some? <==> !Blank(description) && |Trim(description)| < MinDescriptionLength
    ensures r.Some? ==> r.value == DescriptionTooShort
  {
    var t := Trim(description);
    if |t| > 0 && |t| < MinDescriptionLength then Some(DescriptionTooShort) else None
  }

  /** The price rule: the price must be present, a number, and positive. */
  function PriceRule(p: PriceInput, h: Host): (r: Option<JsString>)
    ensures r.None? <==> !PriceMissing(p) && PriceNumber(p, h).Some? && PriceNumber(p, h).value > 0.0
    ensures r.Some? ==> r.value == if PriceMissing(p) then PriceRequired else PriceInvalid
  {
    var number := PriceNumber(p, h);
    if PriceMissing(p) then Some(PriceRequired)
    else if number.None? || number.value <= 0.0 then Some(PriceInvalid)
    else None
  }

  /** The category rule: a category must be chosen. */
  function CategoryRule(category: JsString): (r: Option<JsString>)
    ensures r.Some? <==> category == []
    ensures r.Some? ==> r.value == CategoryRequired
  {
    if category == [] then Some(CategoryRequired) else None
  }

  /** The release-date rule: a release date must be given and must not lie in the future. */
  function ReleaseDateRule(releaseDate: JsString, h: Host): (r: Option<JsString>)
    ensures r.Some? <==> releaseDate == [] || InFuture(h)
    ensures r.Some? ==> r.value == if releaseDate == [] then ReleaseDateRequired else ReleaseDateInFuture
  {
    if releaseDate == [] then Some(ReleaseDateRequired)
    else if InFuture(h) then Some(ReleaseDateInFuture)
    else None
  }

  /** The rule that guards field `f`; stock and the active switch have none. */
  function RuleFor(d: Draft, h: Host, f: Field): Option<JsString> {
    match f
    case Name => NameRule(d.name)
    case Description => DescriptionRule(d.description)
    case Price => PriceRule(d.price, h)
    case Category => CategoryRule(d.category)
    case ReleaseDate => ReleaseDateRule(d.releaseDate, h)
    case Stock => None
    case IsActive => None
  }

  /** The fields `validate()` checks, in the order it checks them. */
  const Checked: set<Field> := {Name, Description, Price, Category, ReleaseDate}

  /** Only the checked fields have rules. */
  lemma RulesCoverChecked(d: Draft, h: Host)
    ensures forall f :: RuleFor(d, h, f).Some? ==> f in Checked
  {
  }

  /** `validate()`: each key is present exactly when its rule fails, with that rule's message. */
  function Validate(d: Draft, h: Host): (errs: map<Field, JsString>)
    ensures forall f :: f in errs <==> RuleFor(d, h, f).Some?
    ensures forall f :: f in errs ==> errs[f] == RuleFor(d, h, f).value
    ensures Stock !in errs && IsActive !in errs
  {
    RulesCoverChecked(d, h);
    map f | f in Checked && RuleFor(d, h, f).Some? :: RuleFor(d, h, f).value
  }

  /** The draft passes every rule, each stated positively. */
  predicate Acceptable(d: Draft, h: Host) {
    && !Blank(d.name) && |Trim(d.name)| <= MaxNameLength
    && (Blank(d.description) || |Trim(d.description)| >= MinDescriptionLength)
    && !PriceMissing(d.price) && PriceNumber(d.price, h).Some? && PriceNumber(d.price, h).value > 0.0
    && d.category != []
    && d.releaseDate != [] && !InFuture(h)
  }

  /** An empty error map, the submit handler's test, means every rule passed. */
  lemma ValidateEmptyIff(d: Draft, h: Host)
    ensures |Validate(d, h)| == 0 <==> Acceptable(d, h)
  {
    var e := Validate(d, h);
    if Acceptable(d, h) {
      forall f ensures f !in e {
        match f
        case Name =>
        case Description =>
        case Price =>
        case Category =>
        case ReleaseDate =>
        case Stock =>
        case IsActive =>
      }
    }
    if |e| == 0 {
      assert Name !in e && Description !in e && Price !in e && Category !in e && ReleaseDate !in e;
      assert RuleFor(d, h, Name).None? && RuleFor(d, h, Description).None? && RuleFor(d, h, Price).None?;
      assert RuleFor(d, h, Category).None? && RuleFor(d, h, ReleaseDate).None?;
    }
  }

  /** Only a name rule writes the `name` key, and only name rules read the name. */
  lemma NameOnlyAffectsName(d: Draft, h: Host, n: JsString)
    ensures var e := Validate(d, h); var e' := Validate(d.(name := n), h);
      forall f :: f != Name ==> (f in e <==> f in e') && (f in e ==> e[f] == e'[f])
  {
  }

  /** Stock and the active switch never influence validation. */
  lemma StockAndActiveIgnored(d: Draft, h: Host, stock: int, active: bool)
    ensures Validate(d.(stock := stock, isActive := active), h) == Validate(d, h)
  {
  }

  /** The blank-name draft: only the `name` key appears, with the "required" message. */
  lemma ScenarioMissingName(h: Host)
    requires h.typedPrice == Some(10.0)
    requires h.releaseTime.Some? && h.releaseTime.value <= h.now
    ensures Validate(Draft([], [], Typed(Units("10")), Units("Makanan"), Units("2024-01-01"), 50, true), h)
      == map[Name := NameRequired]
  {
  }

  /** With no whitespace at either end, a description of 19 code units is refused and one of 20 accepted. */
  lemma DescriptionBoundary(d: Draft, h: Host)
    requires Tight(d.description)
    ensures |d.description| == 19 ==> Description in Validate(d, h)
    ensures |d.description| == 20 ==> Description !in Validate(d, h)
  {
  }
}
