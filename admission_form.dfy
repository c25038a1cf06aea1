/** The admission form controller `App` (src/App.jsx:5-121): seven value slots
    and an error map, updated in place by the edit and reset handlers and read
    by the submit handler. */
module Admission {
  import opened Validators
  import opened Form

  class AdmissionForm {
    var name: string
    var address: string
    var mobile: string
    var email: string
    var gender: string
    var dob: string
    var course: string
    var errors: map<Field, bool>

    /** The seven slots as one record. */
    function Snapshot(): Values
      reads this
    {
      Values(name, address, mobile, email, gender, dob, course)
    }

    ghost predicate Valid()
      reads this
    {
      FlagsConsistent(Snapshot(), errors)
    }

    /** The `useState` initial values: every slot empty, every flag false. */
    constructor ()
      ensures Valid()
      ensures Snapshot() == Blank && errors == InitialErrors
    {
      name, address, mobile, email := "", "", "", "";
      gender, dob, course := "", "", "";
      errors := InitialErrors;
      InitialConsistent();
    }

    /** `validateInputs`: an input named `tag` now holds `value`. A known field
        stores the value and recomputes its own flag from a copy of the previous
        map; an unknown tag changes nothing. */
    method ValidateInputs(tag: string, value: string)
      requires Valid()
      modifies this
      ensures Valid()
      ensures FieldOf(tag).Some? ==>
                && Snapshot() == old(Snapshot()).Set(FieldOf(tag).value, value)
                && errors == old(errors)[FieldOf(tag).value := FieldError(FieldOf(tag).value, value)]
      ensures FieldOf(tag).None? ==> Snapshot() == old(Snapshot()) && errors == old(errors)
    {
      match FieldOf(tag) {
        case Some(f) =>
          ghost var before, flags := Snapshot(), errors;
          match f {
            case Name =>
              name := value;
              assert Snapshot() == before.Set(Name, value);
            case Address =>
              address := value;
              assert Snapshot() == before.Set(Address, value);
            case Mobile =>
              mobile := value;
              assert Snapshot() == before.Set(Mobile, value);
            case Email =>
              email := value;
              assert Snapshot() == before.Set(Email, value);
            case Gender =>
              gender := value;
              assert Snapshot() == before.Set(Gender, value);
            case Dob =>
              dob := value;
              assert Snapshot() == before.Set(Dob, value);
            case Course =>
              course := value;
              assert Snapshot() == before.Set(Course, value);
          }
          errors := errors[f := FieldError(f, value)];
          EditKeepsConsistent(before, flags, f, value);
        case None =>
      }
    }

    /** `handleRegister`: the three-way decision of the submit button. The
        empty-slot check comes first; then the flags are consulted; the state
        is only read. */
    method HandleRegister() returns (outcome: Outcome)
      requires Valid()
      ensures outcome == Incomplete <==> exists f :: Snapshot().Get(f) == []
      ensures outcome == Invalid <==> Snapshot().AllFilled() && exists f :: f in errors && errors[f]
      ensures outcome.Stored? ==> outcome.snapshot == Snapshot()
      ensures outcome.Stored? <==> forall f :: Snapshot().Get(f) != [] && !FieldError(f, Snapshot().Get(f))
    {
      AllFilledIff(Snapshot());
      if name == "" || address == "" || mobile == "" || email == "" || gender == "" || dob == "" || course == "" {
        return Incomplete;
      }
      var isValid := forall f | f in errors :: errors[f] == false;
      NoFlagIffAllPass(Snapshot(), errors);
      if isValid {
        outcome := Stored(Snapshot());
      } else {
        outcome := Invalid;
      }
    }

    /** `handleReset`: back to the initial state, whatever the state was. */
    method HandleReset()
      modifies this
      ensures Valid()
      ensures Snapshot() == Blank && errors == InitialErrors
    {
      name := "";
      address := "";
      mobile := "";
      email := "";
      gender := "";
      dob := "";
      course := "";
      errors := InitialErrors;
      InitialConsistent();
    }
  }
}
