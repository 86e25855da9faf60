/**
 * The add/edit dialog of `frontend/src/components/ProductForm.jsx`: its category list,
 * the form fields, the per-field error messages and the submit flag, with the reset
 * effect, validation, submission and single-field edits.
 */
module ProductForm {
  import opened Catalog
  import opened Text

  /** The categories the form offers (the empty option means "none chosen"). */
  const Categories: seq<string> := [
    "Electronics", "Clothing", "Books", "Home & Garden",
    "Sports", "Beauty", "Toys", "Automotive", "Food", "Furniture", "Grocery", "Footwear", "Other"
  ]

  const NameRequired := "Product name is required"
  const PriceNotPositive := "Price must be greater than 0"
  const CategoryRequired := "Category is required"

  datatype Field = Name | Price | Description | Category

  /** The form's fields; `price` is `None` for the empty input and otherwise the parsed number. */
  datatype FormData = FormData(name: string, price: Option<real>, description: string, category: string)

  const Blank := FormData("", None, "", "")

  /** The value of one field, whichever its type. */
  datatype Value = TextValue(text: string) | NumberValue(number: Option<real>)

  function Get(d: FormData, f: Field): Value {
    match f
    case Name => TextValue(d.name)
    case Price => NumberValue(d.price)
    case Description => TextValue(d.description)
    case Category => TextValue(d.category)
  }

  /** One input event: the field it targets and the new value. */
  datatype Edit = SetName(name: string) | SetPrice(price: Option<real>)
                | SetDescription(description: string) | SetCategory(category: string)
  {
    function Target(): Field {
      match this
      case SetName(_) => Name
      case SetPrice(_) => Price
      case SetDescription(_) => Description
      case SetCategory(_) => Category
    }

    function NewValue(): Value {
      match this
      case SetName(v) => TextValue(v)
      case SetPrice(v) => NumberValue(v)
      case SetDescription(v) => TextValue(v)
      case SetCategory(v) => TextValue(v)
    }
  }

  /** The input handler's update (line 59): the targeted field takes the new value, the others stay. */
  function Apply(d: FormData, e: Edit): (r: FormData)
    ensures Get(r, e.Target()) == e.NewValue()
    ensures forall f :: f != e.Target() ==> Get(r, f) == Get(d, f)
  {
    match e
    case SetName(v) => d.(name := v)
    case SetPrice(v) => d.(price := v)
    case SetDescription(v) => d.(description := v)
    case SetCategory(v) => d.(category := v)
  }

  /** The form loaded from a product; a price of 0 is falsy and loads as the empty input. */
  function Loaded(p: Product): FormData {
    FormData(p.name, if p.price == 0.0 then None else Some(p.price), p.description, p.category)
  }

  predicate NameOk(d: FormData) { Trim(d.name) != "" }
  predicate PriceOk(d: FormData) { d.price.Some? && d.price.value > 0.0 }
  predicate CategoryOk(d: FormData) { d.category != "" }

  /** The three checks of `validateForm` all pass. */
  predicate IsValid(d: FormData) {
    NameOk(d) && PriceOk(d) && CategoryOk(d)
  }

  /** What is sent to `onSave`: the product's id (none for a new one), the fields, the numeric price. */
  datatype Payload = Payload(id: Option<string>, name: string, price: real, description: string, category: string)

  /**
   * A form is valid exactly when the name has a non-whitespace character, the price is
   * present and positive, and a category is chosen.
   */
  lemma ValidIff(d: FormData)
    ensures IsValid(d) <==>
      && (exists i :: 0 <= i < |d.name| && !IsWhitespace(d.name[i]))
      && d.price.Some? && d.price.value > 0.0
      && d.category != ""
  {
    TrimEmptyIffBlank(d.name);
  }

  /** A product loads into a valid form exactly when it has these three properties itself. */
  lemma LoadedValidIff(p: Product)
    ensures IsValid(Loaded(p)) <==> !IsBlank(p.name) && p.price > 0.0 && p.category != ""
  {
    TrimEmptyIffBlank(p.name);
  }

  /** An error map is empty exactly when it has no entry for any of the four fields. */
  lemma EmptyErrors(m: map<Field, string>)
    ensures |m| == 0 <==> m == map[]
    ensures m == map[] <==> Name !in m && Price !in m && Description !in m && Category !in m
  {
    if Name !in m && Price !in m && Description !in m && Category !in m {
      forall f ensures f !in m {
        match f
        case Name =>
        case Price =>
        case Description =>
        case Category =>
      }
      assert m.Keys == {};
    }
  }

  /** Lines 37-40 of `validateForm`: one message per failing check, and no other entry. */
  method CollectErrors(d: FormData) returns (newErrors: map<Field, string>)
    ensures Name in newErrors <==> !NameOk(d)
    ensures Price in newErrors <==> !PriceOk(d)
    ensures Category in newErrors <==> !CategoryOk(d)
    ensures Description !in newErrors
    ensures Name in newErrors ==> newErrors[Name] == NameRequired
    ensures Price in newErrors ==> newErrors[Price] == PriceNotPositive
    ensures Category in newErrors ==> newErrors[Category] == CategoryRequired
    ensures |newErrors| == 0 <==> IsValid(d)
    ensures |newErrors| == 0 <==> newErrors == map[]
  {
    newErrors := map[];
    if Trim(d.name) == "" {
      newErrors := newErrors[Name := NameRequired];
    }
    if d.price.None? || d.price.value <= 0.0 {
      newErrors := newErrors[Price := PriceNotPositive];
    }
    if d.category == "" {
      newErrors := newErrors[Category := CategoryRequired];
    }
    EmptyErrors(newErrors);
  }

  class Form {
    var formData: FormData
    var errors: map<Field, string>
    var isSubmitting: bool

    constructor ()
      ensures formData == Blank && errors == map[] && !isSubmitting
    {
      formData := Blank;
      errors := map[];
      isSubmitting := false;
    }

    /** The reset effect, run when the edited product or the open flag changes. */
    method Reset(product: Option<Product>)
      modifies this
      ensures formData == (if product.Some? then Loaded(product.value) else Blank)
      ensures errors == map[]
      ensures isSubmitting == old(isSubmitting)
    {
      formData := if product.Some? then Loaded(product.value) else Blank;
      errors := map[];
    }

    /**
     * `validateForm`: one message per failing check, and no other entry; the result is
     * true exactly when no check fails.
     */
    method ValidateForm() returns (ok: bool)
      modifies this
      ensures formData == old(formData) && isSubmitting == old(isSubmitting)
      ensures Name in errors <==> !NameOk(formData)
      ensures Price in errors <==> !PriceOk(formData)
      ensures Category in errors <==> !CategoryOk(formData)
      ensures Description !in errors
      ensures Name in errors ==> errors[Name] == NameRequired
      ensures Price in errors ==> errors[Price] == PriceNotPositive
      ensures Category in errors ==> errors[Category] == CategoryRequired
      ensures ok <==> IsValid(formData)
      ensures ok <==> errors == map[]
    {
      var newErrors := CollectErrors(formData);
      errors := newErrors;
      ok := |newErrors| == 0;
    }

    /**
     * `handleSubmit`: nothing is sent when validation fails; otherwise the payload carries
     * the edited product's id (none for a new product), every field as entered and the
     * price as a number, and the submit flag is down again afterwards, whether `onSave`
     * resolved or threw (its error is caught and logged).
     */
    method HandleSubmit(product: Option<Product>) returns (sent: Option<Payload>)
      modifies this
      ensures formData == old(formData)
      ensures sent.Some? <==> IsValid(formData)
      ensures (errors == map[]) <==> IsValid(formData)
      ensures Name in errors <==> !NameOk(formData)
      ensures Price in errors <==> !PriceOk(formData)
      ensures Category in errors <==> !CategoryOk(formData)
      ensures Description !in errors
      ensures Name in errors ==> errors[Name] == NameRequired
      ensures Price in errors ==> errors[Price] == PriceNotPositive
      ensures Category in errors ==> errors[Category] == CategoryRequired
      ensures sent.Some? ==> sent.value == Payload(
        if product.Some? then Some(product.value.id) else None,
        formData.name, formData.price.value, formData.description, formData.category)
      ensures sent.Some? ==> !isSubmitting
      ensures sent.None? ==> isSubmitting == old(isSubmitting)
    {
      var ok := ValidateForm();
      if !ok {
        return None;
      }
      isSubmitting := true;
      var id := if product.Some? then Some(product.value.id) else None;
      sent := Some(Payload(id, formData.name, formData.price.value, formData.description, formData.category));
      isSubmitting := false;
    }

    /** `handleInputChange`: one field takes the new value and only that field's error is cleared. */
    method HandleInputChange(e: Edit)
      modifies this
      ensures formData == Apply(old(formData), e)
      ensures errors == old(errors) - {e.Target()}
      ensures isSubmitting == old(isSubmitting)
    {
      formData := Apply(formData, e);
      if e.Target() in errors {
        errors := errors - {e.Target()};
      }
    }
  }
}
