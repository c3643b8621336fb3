/** The "add product" page of the client: the form's validation rules and the error map they
    produce, how typing in a field updates the form and clears that field's error, and the
    request body submitted once the form is valid. */
module AddProduct {
  import opened Text
  import Api
  import ProductModel
  import ProductStore

  /** The keys of the error map. */
  datatype Field = Name | Description | Quantity | Categories

  /** The three text inputs; the categories are chosen with a separate selector. */
  datatype Input = NameInput | DescriptionInput | QuantityInput

  /** The text of the three inputs, as typed. */
  datatype FormData = FormData(name: string, description: string, quantity: string)

  const EmptyForm := FormData("", "", "")

  const NameRequired := "Name is required"
  const DescriptionRequired := "Description is required"
  const QuantityRequired := "Quantity is required"
  const QuantityNotPositive := "Quantity must be a positive number"
  const CategoriesRequired := "At least one category is required"

  /** The error-map key an input reports under (its `name` attribute). */
  function Key(input: Input): Field {
    match input
    case NameInput => Name
    case DescriptionInput => Description
    case QuantityInput => Quantity
  }

  // ----- Validation -----

  /** `Number(text)`: `None` is NaN. The text-to-number coercion is a parameter of the model. */
  type ToNumber = string -> Option<int>

  /** A text made of white space only (or empty). */
  predicate Blank(s: string) {
    s == [] || (IsSpace(s[0]) && Blank(s[1..]))
  }

  lemma {:induction false} BlankAllSpace(s: string)
    ensures Blank(s) <==> forall i :: 0 <= i < |s| ==> IsSpace(s[i])
  {
    if s != [] {
      BlankAllSpace(s[1..]);
      assert forall i :: 1 <= i < |s| ==> s[i] == s[1..][i - 1];
    }
  }

  /** `!s.trim()` holds exactly for the blank texts. */
  lemma BlankIffTrimmedEmpty(s: string)
    ensures Trim(s) == [] <==> Blank(s)
  {
    TrimEmptyIff(s);
    BlankAllSpace(s);
  }

  /** `!s.trim()`. */
  method TrimsToEmpty(s: string) returns (blank: bool)
    ensures blank <==> Blank(s)
  {
    blank := Trim(s) == [];
    BlankIffTrimmedEmpty(s);
  }

  /** A quantity text that is not empty, is a number and is not negative ("0" passes). */
  predicate QuantityOk(quantity: string, toNumber: ToNumber) {
    quantity != [] && toNumber(quantity).Some? && toNumber(quantity).value >= 0
  }

  /** The error the form reports for one field, if any: a blank name or description, an
      empty quantity, a quantity that is not a number or is negative, no category selected. */
  function ErrorFor(f: Field, form: FormData, selected: seq<Api.SelectOption>, toNumber: ToNumber): Option<string> {
    match f
    case Name => if Blank(form.name) then Some(NameRequired) else None
    case Description => if Blank(form.description) then Some(DescriptionRequired) else None
    case Quantity =>
      if form.quantity == [] then Some(QuantityRequired)
      else if !QuantityOk(form.quantity, toNumber) then Some(QuantityNotPositive)
      else None
    case Categories => if |selected| == 0 then Some(CategoriesRequired) else None
  }

  /** Whether the form may be submitted. */
  predicate FormOk(form: FormData, selected: seq<Api.SelectOption>, toNumber: ToNumber) {
    !Blank(form.name) && !Blank(form.description)
    && QuantityOk(form.quantity, toNumber) && |selected| > 0
  }

  /** Whether `errors` holds exactly the fields with an error, each with its message. */
  predicate ErrorMapOf(errors: map<Field, string>, form: FormData, selected: seq<Api.SelectOption>, toNumber: ToNumber) {
    && (forall f :: f in errors <==> ErrorFor(f, form, selected, toNumber).Some?)
    && (forall f :: f in errors ==> errors[f] == ErrorFor(f, form, selected, toNumber).value)
  }

  /** `validateForm`: fills a fresh error map field by field and reports whether it stayed
      empty. */
  method ValidateForm(form: FormData, selected: seq<Api.SelectOption>, toNumber: ToNumber)
    returns (valid: bool, errors: map<Field, string>)
    ensures ErrorMapOf(errors, form, selected, toNumber)
    ensures valid <==> errors == map[]
  {
    errors := map[];
    var number := toNumber(form.quantity);
    var nameBlank := TrimsToEmpty(form.name);
    var descriptionBlank := TrimsToEmpty(form.description);
    if nameBlank {
      errors := errors[Name := NameRequired];
    }
    if descriptionBlank {
      errors := errors[Description := DescriptionRequired];
    }
    if form.quantity == [] {
      errors := errors[Quantity := QuantityRequired];
    } else if number.None? || number.value < 0 {
      errors := errors[Quantity := QuantityNotPositive];
    }
    if |selected| == 0 {
      errors := errors[Categories := CategoriesRequired];
    }
    FieldByField(errors, form, selected, toNumber);
    valid := |errors| == 0;
    if errors != map[] {
      var f :| f in errors;
      assert f in errors.Keys;
    }
  }

  /** Whether `errors` agrees with `ErrorFor` on field `f`. */
  predicate AgreesOn(errors: map<Field, string>, f: Field, form: FormData,
                     selected: seq<Api.SelectOption>, toNumber: ToNumber) {
    match ErrorFor(f, form, selected, toNumber)
    case None => f !in errors
    case Some(message) => f in errors && errors[f] == message
  }

  /** Agreeing on each of the four fields is agreeing on the whole map. */
  lemma FieldByField(errors: map<Field, string>, form: FormData, selected: seq<Api.SelectOption>, toNumber: ToNumber)
    requires AgreesOn(errors, Name, form, selected, toNumber)
    requires AgreesOn(errors, Description, form, selected, toNumber)
    requires AgreesOn(errors, Quantity, form, selected, toNumber)
    requires AgreesOn(errors, Categories, form, selected, toNumber)
    ensures ErrorMapOf(errors, form, selected, toNumber)
  {
    forall f
      ensures AgreesOn(errors, f, form, selected, toNumber)
    {
      match f
      case Name =>
      case Description =>
      case Quantity =>
      case Categories =>
    }
  }

  /** The error map is empty exactly when the form may be submitted. */
  lemma NoErrorsIffFormOk(errors: map<Field, string>, form: FormData, selected: seq<Api.SelectOption>, toNumber: ToNumber)
    requires ErrorMapOf(errors, form, selected, toNumber)
    ensures errors == map[] <==> FormOk(form, selected, toNumber)
  {
    if FormOk(form, selected, toNumber) {
      forall f | f in errors
        ensures false
      {
      }
    } else if Blank(form.name) {
      assert Name in errors;
    } else if Blank(form.description) {
      assert Description in errors;
    } else if !QuantityOk(form.quantity, toNumber) {
      assert Quantity in errors;
    } else {
      assert Categories in errors;
    }
  }

  /** A quantity of "0" is a valid quantity: the text is not empty, and zero is not negative. */
  lemma ZeroQuantityAccepted(form: FormData, selected: seq<Api.SelectOption>, toNumber: ToNumber)
    requires form.quantity == "0" && toNumber("0") == Some(0)
    ensures ErrorFor(Quantity, form, selected, toNumber) == None
  {
  }

  /** A blank quantity is "required"; a negative one is refused with "must be a positive
      number". */
  lemma QuantityMessages(form: FormData, selected: seq<Api.SelectOption>, toNumber: ToNumber)
    ensures form.quantity == [] ==> ErrorFor(Quantity, form, selected, toNumber) == Some(QuantityRequired)
    ensures form.quantity != [] && toNumber(form.quantity).Some? && toNumber(form.quantity).value < 0
            ==> ErrorFor(Quantity, form, selected, toNumber) == Some(QuantityNotPositive)
  {
  }

  // ----- Typing in a field -----

  /** The form with one input's text replaced (`{ ...formData, [name]: value }`). */
  function SetInput(form: FormData, input: Input, value: string): (r: FormData)
    ensures Get(r, input) == value
    ensures forall other :: other != input ==> Get(r, other) == Get(form, other)
  {
    match input
    case NameInput => form.(name := value)
    case DescriptionInput => form.(description := value)
    case QuantityInput => form.(quantity := value)
  }

  function Get(form: FormData, input: Input): string {
    match input
    case NameInput => form.name
    case DescriptionInput => form.description
    case QuantityInput => form.quantity
  }

  /** Whether the page shows an error for `f`: an entry that is there and not empty. */
  predicate Shown(errors: map<Field, string>, f: Field) {
    f in errors && errors[f] != []
  }

  /** The error map after typing in `input`: a shown error of that field is set to the empty
      string (the entry stays, emptied); everything else is left as it is. */
  function ClearError(errors: map<Field, string>, input: Input): (r: map<Field, string>)
    ensures r.Keys == errors.Keys
    ensures !Shown(r, Key(input))
    ensures Key(input) in errors ==> r[Key(input)] == []
    ensures forall f :: f in errors && f != Key(input) ==> r[f] == errors[f]
  {
    if Shown(errors, Key(input)) then errors[Key(input) := ""] else errors
  }

  /** Typing never touches the category selection's error, whatever the input. */
  lemma TypingKeepsCategoriesError(errors: map<Field, string>, input: Input)
    ensures Shown(ClearError(errors, input), Categories) == Shown(errors, Categories)
  {
  }

  /** Correcting a field does not hide the errors of the others: the fields still shown after
      typing in `input` are exactly those shown before, less `input`'s own. */
  lemma ClearErrorShown(errors: map<Field, string>, input: Input, f: Field)
    ensures Shown(ClearError(errors, input), f) <==> Shown(errors, f) && f != Key(input)
  {
  }

  // ----- The page -----

  /** The request body sent on submit: the name and the description as typed, the quantity
      as `Number(quantity)` (NaN travels as JSON `null`, which the schema cannot cast), and
      the selected options' values in selection order. */
  function Payload(form: FormData, selected: seq<Api.SelectOption>, toNumber: ToNumber): (r: ProductStore.CreateRequest)
    ensures r.name == Some(form.name) && r.description == Some(form.description)
    ensures r.categories.Some? && |r.categories.value| == |selected|
    ensures forall i :: 0 <= i < |selected| ==> r.categories.value[i] == selected[i].value
    ensures r.quantity == if toNumber(form.quantity).Some? then ProductModel.Castable(toNumber(form.quantity).value)
                          else ProductModel.Uncastable
  {
    ProductStore.CreateRequest(
      Some(form.name),
      Some(form.description),
      match toNumber(form.quantity)
      case Some(n) => ProductModel.Castable(n)
      case None => ProductModel.Uncastable,
      Some(Api.Values(selected)))
  }

  /** A body built from a valid form passes the server's required-field check, and the schema
      accepts its fields, with a quantity that is not negative. */
  lemma ValidPayloadAccepted(form: FormData, selected: seq<Api.SelectOption>, toNumber: ToNumber,
                             id: ProductModel.Id, now: int)
    requires FormOk(form, selected, toNumber)
    ensures var req := Payload(form, selected, toNumber);
      && !ProductStore.MissingField(req)
      && ProductModel.Cast(id, form.name, form.description, req.quantity, req.categories.value, now).Some?
      && req.quantity.Castable? && req.quantity.n >= 0
  {
    PayloadPresent(form, selected, toNumber);
    BlankIffTrimmedEmpty(form.name);
    BlankIffTrimmedEmpty(form.description);
  }

  /** A valid form sends every field, and a number for the quantity. */
  lemma PayloadPresent(form: FormData, selected: seq<Api.SelectOption>, toNumber: ToNumber)
    requires FormOk(form, selected, toNumber)
    ensures var req := Payload(form, selected, toNumber);
      && !ProductStore.MissingField(req)
      && req.quantity == ProductModel.Castable(toNumber(form.quantity).value)
  {
  }

  /** The state of the page: the form, the selected categories and the error map. */
  class AddProductPage {
    var form: FormData
    var selected: seq<Api.SelectOption>
    var errors: map<Field, string>
    /** `Number(...)` as the page applies it. */
    const toNumber: ToNumber

    constructor (toNumber: ToNumber)
      ensures form == EmptyForm && selected == [] && errors == map[]
      ensures this.toNumber == toNumber
    {
      form := EmptyForm;
      selected := [];
      errors := map[];
      this.toNumber := toNumber;
    }

    /** `handleChange`: stores the typed text and clears the field's shown error. */
    method HandleChange(input: Input, value: string)
      modifies this
      ensures form == SetInput(old(form), input, value)
      ensures errors == ClearError(old(errors), input)
      ensures selected == old(selected)
    {
      form := SetInput(form, input, value);
      if Shown(errors, Key(input)) {
        errors := errors[Key(input) := ""];
      }
    }

    /** The selector's `onChange`: the new selection replaces the old one. */
    method SelectCategories(options: seq<Api.SelectOption>)
      modifies this
      ensures selected == options
      ensures form == old(form) && errors == old(errors)
    {
      selected := options;
    }

    /** `handleSubmit`: validates, keeps the new error map, and yields the request body only
        when the form is valid. */
    method HandleSubmit() returns (request: Option<ProductStore.CreateRequest>)
      modifies this
      ensures ErrorMapOf(errors, form, selected, toNumber)
      ensures form == old(form) && selected == old(selected)
      ensures request.Some? <==> FormOk(form, selected, toNumber)
      ensures request.Some? ==> request.value == Payload(form, selected, toNumber)
    {
      var valid, newErrors := ValidateForm(form, selected, toNumber);
      errors := newErrors;
      NoErrorsIffFormOk(newErrors, form, selected, toNumber);
      if !valid {
        return None;
      }
      request := Some(Payload(form, selected, toNumber));
    }
  }
}
