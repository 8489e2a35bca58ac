/** The create-customer form: seven text inputs, a local validation chain
    (every field present, then a 10-digit phone, then a 6-digit pin) and a
    submit that posts the form only when validation passes. */
module CustomerForm {
  import opened Text

  datatype Form = Form(
    firstName: string,
    lastName: string,
    phone: string,
    address: string,
    city: string,
    state: string,
    pin: string)

  /** The `name` attribute of each input. */
  datatype Field = FirstName | LastName | Phone | Address | City | State | Pin

  const EmptyForm := Form("", "", "", "", "", "", "")

  const RequiredError := "All fields are required!"
  const PhoneError := "Phone must be 10 digits"
  const PinError := "PIN must be 6 digits"
  const CreatedMessage := "Customer created successfully!"

  function Get(form: Form, field: Field): string
  {
    match field
    case FirstName => form.firstName
    case LastName => form.lastName
    case Phone => form.phone
    case Address => form.address
    case City => form.city
    case State => form.state
    case Pin => form.pin
  }

  /** `setForm({ ...form, [name]: value })`: the named field takes the new
      value and the other six keep theirs. */
  function Set(form: Form, field: Field, value: string): (r: Form)
    ensures Get(r, field) == value
    ensures forall g :: g != field ==> Get(r, g) == Get(form, g)
  {
    match field
    case FirstName => form.(firstName := value)
    case LastName => form.(lastName := value)
    case Phone => form.(phone := value)
    case Address => form.(address := value)
    case City => form.(city := value)
    case State => form.(state := value)
    case Pin => form.(pin := value)
  }

  /** No input is empty. */
  predicate AllPresent(form: Form)
  {
    forall field :: Get(form, field) != ""
  }

  /** `validate`: the first failing check's message, or "" when the form
      is acceptable. A missing field is reported before any format error,
      and a phone error before a pin error. */
  function Validate(form: Form): (err: string)
    ensures err == "" <==> AllPresent(form) && DigitString(form.phone, 10) && DigitString(form.pin, 6)
    ensures !AllPresent(form) ==> err == RequiredError
    ensures AllPresent(form) && !DigitString(form.phone, 10) ==> err == PhoneError
    ensures AllPresent(form) && DigitString(form.phone, 10) && !DigitString(form.pin, 6) ==> err == PinError
  {
    MatchesDigitsIff(form.phone, 10);
    MatchesDigitsIff(form.pin, 6);
    assert AllPresent(form) <==>
      !(form.firstName == "" || form.lastName == "" || form.phone == "" || form.address == ""
        || form.city == "" || form.state == "" || form.pin == "") by {
      assert Get(form, FirstName) == form.firstName && Get(form, LastName) == form.lastName;
      assert Get(form, Phone) == form.phone && Get(form, Address) == form.address;
      assert Get(form, City) == form.city && Get(form, State) == form.state && Get(form, Pin) == form.pin;
    }
    if form.firstName == "" || form.lastName == "" || form.phone == "" || form.address == ""
       || form.city == "" || form.state == "" || form.pin == "" then
      RequiredError
    else if !MatchesDigits(form.phone, 10) then PhoneError
    else if !MatchesDigits(form.pin, 6) then PinError
    else ""
  }

  /** The create view's state and the create requests it has issued. */
  class CreateView {
    var form: Form
    var error: string
    var success: string
    /** Bodies of the `POST /customers` requests sent so far, oldest first. */
    var posted: seq<Form>

    constructor ()
      ensures form == EmptyForm && error == "" && success == "" && posted == []
    {
      form, error, success, posted := EmptyForm, "", "", [];
    }

    /** `handleChange`: one input changed. */
    method HandleChange(field: Field, value: string)
      modifies this
      ensures form == Set(old(form), field, value)
      ensures error == old(error) && success == old(success) && posted == old(posted)
    {
      form := Set(form, field, value);
    }

    /** `handleSubmit`; `responseOk` is the `res.ok` of the create request.
        An invalid form shows its error and sends nothing; a valid one
        clears the error, is posted, and the success message appears only
        on an ok response. */
    method HandleSubmit(responseOk: bool) returns (sent: bool)
      modifies this
      ensures sent <==> Validate(form) == ""
      ensures form == old(form)
      ensures error == Validate(form)
      ensures posted == old(posted) + (if sent then [form] else [])
      ensures success == (if sent && responseOk then CreatedMessage else old(success))
    {
      var err := Validate(form);
      if err != "" {
        error := err;
        return false;
      }
      error := "";
      posted := posted + [form];
      sent := true;
      if responseOk {
        success := CreatedMessage;
      }
    }
  }
}
