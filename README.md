# Higher Secondary Admission Form — a Dafny model of its controller

The application is a single-page admission form with seven fields: name,
address, mobile number, e-mail, gender, date of birth and course. Its
controller (`App` in `src/App.jsx`) holds one value slot per field and a map
from field to a boolean error flag. It has three handlers:

- the edit handler `validateInputs` stores a new value in one field and
  recomputes only that field's flag;
- the submit handler `handleRegister` decides between "incomplete", "invalid"
  and "stored";
- the reset handler `handleReset` clears everything.

The project models this controller in three modules:

- `validators.dfy` (module `Validators`) holds the three pattern-based
  checks (name, mobile, e-mail). Each regular-expression test of the source
  becomes a recursive scanner, proved equal to a declarative reference
  predicate:
  - `SearchDigit` is equal to `ContainsDigit` (some character is a digit);
  - `AllDigits` is equal to "every character is a digit"; `MobileError`
    adds the length test and is proved equal to the negation of `TenDigits`;
  - `DomainPart` (the text after an `@`) is equal to `DomainShape`;
  - `SearchEmail` is equal to "some `@` satisfies `EmailAt`", and the lemma
    `EmailShapeAtIff` links that to `EmailShape`, which is "there are indices
    a < at < dot < b with `@` at `at`, `.` at `dot` and three non-empty runs
    without white space". `EmailError` is proved equal to the negation of
    `EmailShape`.

  JavaScript's `\s` is modelled as its exact set of code points (`IsSpace`).
- `form.dfy` (module `Form`) holds the field enumeration and the input
  names that select the fields (`Tag`, `FieldOf`). It also holds the
  field → rule table (`FieldError`, which also holds the address length bound and the non-empty test of gender, date of birth and course), the seven slots as a record
  (`Values`, also the snapshot a successful submit reports), the initial
  state, the submit `Outcome`, and the controller's invariant
  `FlagsConsistent`. The invariant says every field has a key in the error
  map. It also says each flag is its validator's verdict on the current
  value, except that an empty slot may carry a cleared flag (before the
  first edit, or after a reset). The lemmas there show that the initial
  state satisfies the invariant and that an edit preserves it. They also
  show that, with all slots filled, "no flag raised" is equivalent to
  "every value passes its validator".
- `admission_form.dfy` (module `Admission`) holds the class
  `AdmissionForm`, with the seven slots and the error map as mutable
  fields. The constructor gives the initial state. `ValidateInputs` and
  `HandleReset` update the fields in place. `HandleRegister` only reads
  them and returns the outcome. `Valid()` is the object invariant
  (`FlagsConsistent` on the current fields); the constructor establishes
  it, and `ValidateInputs` and `HandleReset` preserve it.

The central result is the contract of `HandleRegister`. Under the
invariant, submit stores a snapshot equal to the current values exactly
when every slot is non-empty and every value passes its own validator. The
empty-slot check comes first, so any empty slot gives "incomplete"
whatever the flags say.

The name check follows the code, not the comment above it. Only digits
are rejected and length is not checked, so "Jo" is accepted and "John3"
is rejected (`NameSamples`).

## Model

| member | source | states |
|---|---|---|
| Validators.SearchDigit | src/App.jsx:33 | the digit search succeeds iff some character of the value is in '0'..'9' |
| Validators.AllDigits | src/App.jsx:47 | the scan succeeds iff every character of the value is a digit |
| Validators.DomainPart | src/App.jsx:54 | the scan after an `@` succeeds iff the text starts with a non-space run, a dot and a non-space character |
| Validators.SearchEmail | src/App.jsx:54 | the e-mail search succeeds iff some `@` has a non-space character before it and a valid domain part after it |
| Validators.EmailShapeAtIff | src/App.jsx:54 | the four-index description of an unanchored match is equivalent to the one-`@` description the scanner uses |
| Validators.NameError | src/App.jsx:32-33 | name is in error iff the value contains a digit somewhere; nothing about length |
| Validators.MobileError | src/App.jsx:47 | mobile is in error iff the value is not exactly ten digits |
| Validators.EmailError | src/App.jsx:54 | email is in error iff no substring has the shape non-space+ '@' non-space+ '.' non-space+ |
| Validators.EmailUnanchored | src/App.jsx:54 | a value that matches the e-mail pattern still matches with any text added before and after it |
| Validators.MobileAnchored | src/App.jsx:47 | ten acceptable digits with any extra text around them are rejected |
| Validators.NameDigitAnywhere | src/App.jsx:33 | a single digit at any position puts the name in error |
| Validators.NameSamples | src/App.jsx:32-33 | "John3" is in error and the two-letter "Jo" is not |
| Validators.MobileSamples | src/App.jsx:47 | "9876543210" passes; "12345", "98765432101" and "98765abcde" fail |
| Validators.EmailSamples | src/App.jsx:54 | "a@b.co" passes; "a@b", "ab.com" and the empty string fail |
| Form.FieldOf | src/App.jsx:25-27 | the input name selects the field whose tag it is, and selects nothing exactly when it is no field's tag |
| Form.TagRoundTrip | src/App.jsx:28-77 | each field's input name selects that field, and distinct fields have distinct names |
| Form.FieldError | src/App.jsx:28-77 | the per-field rule table: name ↔ contains a digit, address ↔ fewer than 10 characters, mobile ↔ not ten digits, email ↔ no e-mail shape, gender/dob/course ↔ empty |
| Form.Values.Set | src/App.jsx:29-72 | a setter stores the new value in its own slot and leaves the other six slots unchanged |
| Form.AllFilledIff | src/App.jsx:88 | the seven-way emptiness test fails iff no field's slot is empty |
| Form.ErrorKeys | src/App.jsx:14-22 | under the invariant the error map has exactly the seven field keys |
| Form.InitialConsistent | src/App.jsx:6-22 | the initial state (all slots empty, all flags false) satisfies the invariant |
| Form.EditKeepsConsistent | src/App.jsx:28-77 | storing a value and recomputing only that field's flag on a copy of the map keeps the invariant |
| Form.NoFlagIffAllPass | src/App.jsx:94 | under the invariant, with every slot filled, no flag is raised iff every value passes its validator |
| Form.EmptyValueVerdicts | src/App.jsx:33-75 | clearing a field raises its flag for every field except name |
| Admission.AdmissionForm.constructor | src/App.jsx:6-22 | the form starts with all slots empty and all flags false, and the invariant holds |
| Admission.AdmissionForm.ValidateInputs | src/App.jsx:24-81 | a known input name sets that field's slot to the value and its flag to the field's validator verdict; every other slot and flag is unchanged; an unknown name changes nothing; the invariant is kept |
| Admission.AdmissionForm.HandleRegister | src/App.jsx:84-101 | incomplete iff some slot is empty; invalid iff all filled and some flag is raised; stored otherwise, with a snapshot equal to the current values; stored iff every slot is filled and passes its validator; nothing is modified |
| Admission.AdmissionForm.HandleReset | src/App.jsx:104-121 | from any state, all slots become empty and all flags false; the result does not depend on the prior state, so reset is idempotent; the invariant holds after it |

## Left out

- Rendering: the JSX, the MUI widgets, the helper texts and the layout are presentation only.
- The browser calls `alert` and `preventDefault`: the three notifications become the returned `Outcome` (`Incomplete`, `Invalid`, `Stored` with the snapshot).
- React's state scheduling: each handler is one atomic state transition. Batching, functional updaters and re-renders are not modelled.
- A general regular-expression engine: the three patterns are hand-written scanners with proved meanings.
- String length: the address length bound in `FieldError` counts Unicode scalar values, while JavaScript counts UTF-16 code units. Values with characters outside the Basic Multilingual Plane therefore have different lengths in the model.
- Date of birth: the code only checks that the value is non-empty, and so does the model. No date is parsed.
- Gender and course are free strings in the model, as in the handler. The fixed option lists belong to the widgets.
- The invariant is a requirement on `ValidateInputs` and `HandleRegister`. The constructor establishes it and `ValidateInputs` and `HandleReset` keep it. The eight fields are public `var`s, so a caller that assigns them directly can break it; the guarantee covers only forms changed through the constructor and the three handlers, as in the source, where state changes only through its setters.
