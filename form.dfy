/** The values the admission form controller holds and the rules that tie
    its error flags to them (src/App.jsx:6-22, 24-81). */
module Form {
  import opened Validators

  datatype Option<T> = None | Some(value: T)

  /** The seven fields of the form. */
  datatype Field = Name | Address | Mobile | Email | Gender | Dob | Course

  const AllFields: set<Field> := {Name, Address, Mobile, Email, Gender, Dob, Course}

  /** The `name` attribute that the input control of a field carries. */
  function Tag(f: Field): string {
    match f
    case Name => "name"
    case Address => "address"
    case Mobile => "mobile"
    case Email => "email"
    case Gender => "gender"
    case Dob => "dob"
    case Course => "course"
  }

  /** The `switch` over an input's `name`: the field it selects, if any. */
  function FieldOf(tag: string): (f: Option<Field>)
    ensures f.Some? ==> Tag(f.value) == tag
    ensures f.None? <==> forall g :: Tag(g) != tag
  {
    if tag == "name" then Some(Name)
    else if tag == "address" then Some(Address)
    else if tag == "mobile" then Some(Mobile)
    else if tag == "email" then Some(Email)
    else if tag == "gender" then Some(Gender)
    else if tag == "dob" then Some(Dob)
    else if tag == "course" then Some(Course)
    else None
  }

  /** Every field's own tag selects that field, and no other. */
  lemma TagRoundTrip(f: Field, g: Field)
    ensures FieldOf(Tag(f)) == Some(f)
    ensures Tag(f) == Tag(g) ==> f == g
  {
  }

  /** The error rule of each field, as a table from field to validator.
      True means the value is in error. `address` only has a length bound;
      `gender`, `dob` and `course` are in error when empty (the only falsy string). */
  function FieldError(f: Field, value: string): (inError: bool)
    ensures f == Name ==> (inError <==> ContainsDigit(value))
    ensures f == Address ==> (inError <==> |value| < 10)
    ensures f == Mobile ==> (inError <==> !TenDigits(value))
    ensures f == Email ==> (inError <==> !EmailShape(value))
    ensures f in {Gender, Dob, Course} ==> (inError <==> value == [])
  {
    match f
    case Name => NameError(value)
    case Address => |value| < 10
    case Mobile => MobileError(value)
    case Email => EmailError(value)
    case Gender => value == []
    case Dob => value == []
    case Course => value == []
  }

  /** The seven value slots of the form; also the snapshot a successful submit reports. */
  datatype Values = Values(name: string, address: string, mobile: string, email: string,
                           gender: string, dob: string, course: string)
  {
    function Get(f: Field): string {
      match f
      case Name => name
      case Address => address
      case Mobile => mobile
      case Email => email
      case Gender => gender
      case Dob => dob
      case Course => course
    }

    /** The slots after the setter of field `f` stores `v`. */
    function Set(f: Field, v: string): (r: Values)
      ensures r.Get(f) == v
      ensures forall g :: g != f ==> r.Get(g) == Get(g)
    {
      match f
      case Name => this.(name := v)
      case Address => this.(address := v)
      case Mobile => this.(mobile := v)
      case Email => this.(email := v)
      case Gender => this.(gender := v)
      case Dob => this.(dob := v)
      case Course => this.(course := v)
    }

    /** No slot is empty (every `!value` test of the submit handler fails). */
    predicate AllFilled()
    {
      name != [] && address != [] && mobile != [] && email != [] &&
      gender != [] && dob != [] && course != []
    }
  }

  /** The initial value of every slot, and what reset stores. */
  const Blank := Values("", "", "", "", "", "", "")

  /** The initial error map, and what reset stores. */
  const InitialErrors: map<Field, bool> :=
    map[Name := false, Address := false, Mobile := false, Email := false,
        Gender := false, Dob := false, Course := false]

  /** What the submit handler concludes. */
  datatype Outcome =
    | Incomplete               // some field is empty: the user is asked to fill in every field
    | Invalid                  // some flag is raised: the user is asked to correct the form
    | Stored(snapshot: Values) // success, reported with the seven values

  /** The invariant of the controller: every field has a key in the error map
      (so the map has exactly the seven keys, see ErrorKeys), and each flag is its validator's verdict on the current value, except
      that an empty slot may carry a cleared flag (before its first edit, or
      after a reset). */
  ghost predicate FlagsConsistent(vals: Values, errors: map<Field, bool>) {
    && (forall f :: f in errors)
    && forall f :: f in errors ==>
         errors[f] == FieldError(f, vals.Get(f)) || (vals.Get(f) == [] && !errors[f])
  }

  /** Under the invariant the error map has exactly the seven keys. */
  lemma ErrorKeys(vals: Values, errors: map<Field, bool>)
    requires FlagsConsistent(vals, errors)
    ensures errors.Keys == AllFields
  {
  }


  /** AllFilled says that no field's slot is empty. */
  lemma {:induction false} AllFilledIff(vals: Values)
    ensures vals.AllFilled() <==> forall f :: vals.Get(f) != []
  {
    if vals.AllFilled() {
      forall f ensures vals.Get(f) != [] {
        match f
        case Name =>
        case Address =>
        case Mobile =>
        case Email =>
        case Gender =>
        case Dob =>
        case Course =>
      }
    } else {
      assert vals.Get(Name) == [] || vals.Get(Address) == [] || vals.Get(Mobile) == [] ||
             vals.Get(Email) == [] || vals.Get(Gender) == [] || vals.Get(Dob) == [] ||
             vals.Get(Course) == [];
    }
  }

  /** The state the controller starts in, and that reset restores, satisfies the invariant. */
  lemma InitialConsistent()
    ensures FlagsConsistent(Blank, InitialErrors)
  {
    forall f ensures f in InitialErrors && !InitialErrors[f] {
      match f
      case Name =>
      case Address =>
      case Mobile =>
      case Email =>
      case Gender =>
      case Dob =>
      case Course =>
    }
  }

  /** Editing a field (store the value, recompute that one flag) keeps the invariant. */
  lemma EditKeepsConsistent(vals: Values, errors: map<Field, bool>, f: Field, v: string)
    requires FlagsConsistent(vals, errors)
    ensures FlagsConsistent(vals.Set(f, v), errors[f := FieldError(f, v)])
  {
  }

  /** Under the invariant, once every slot is filled, "no flag is raised"
      means exactly "every value passes its validator". */
  lemma NoFlagIffAllPass(vals: Values, errors: map<Field, bool>)
    requires FlagsConsistent(vals, errors)
    requires vals.AllFilled()
    ensures (forall f :: f in errors ==> !errors[f]) <==> (forall f :: !FieldError(f, vals.Get(f)))
  {
  }


  /** An empty slot passes only the name check: an edit that clears any other
      field raises its flag. */
  lemma EmptyValueVerdicts(f: Field)
    ensures FieldError(f, "") <==> f != Name
  {
  }
}
