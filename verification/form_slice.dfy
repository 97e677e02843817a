/**
 * The form-draft reducer (`src/redux/slices/formSlice.ts`): one record of five
 * string fields and a read-only flag, changed by `saveForm`, `resetForm` and
 * `setReadOnly`. The reducer is modelled as a pure function on record values;
 * the Redux store that holds the record is the class `Store`.
 */
module FormSlice {
  import opened Wrappers

  /** The five editable fields of the draft. */
  datatype Field = FirstName | LastName | Gender | Relationship | FileName

  const AllFields: set<Field> := {FirstName, LastName, Gender, Relationship, FileName}

  /** Every field is one of the five. */
  lemma EveryFieldListed()
    ensures forall f: Field :: f in AllFields
  {
    forall f: Field ensures f in AllFields {
      match f
      case FirstName =>
      case LastName =>
      case Gender =>
      case Relationship =>
      case FileName =>
    }
  }

  /** `FormState`: the draft record. */
  datatype FormState = FormState(
    firstName: string,
    lastName: string,
    gender: string,
    relationship: string,
    fileName: string,
    isReadOnly: bool)

  /** The value of field `f` in record `s`. */
  function Get(s: FormState, f: Field): string {
    match f
    case FirstName => s.firstName
    case LastName => s.lastName
    case Gender => s.gender
    case Relationship => s.relationship
    case FileName => s.fileName
  }

  /** `initialState`: every field empty, editable. */
  const InitialState: FormState := FormState("", "", "", "", "", false)

  /**
   * The payload of `saveForm`: any subset of the five fields, plus the
   * `isReadOnly` key that a caller may slip in (the reducer overrides it).
   */
  datatype Payload = Payload(values: map<Field, string>, isReadOnly: Option<bool>)

  /** The actions the reducer receives; `Other` is any action of another slice. */
  datatype Action = SaveForm(payload: Payload) | ResetForm | SetReadOnly(flag: bool) | Other(kind: string)

  /** One field after `Object.assign`: the payload's value when the key is present. */
  function Merged(p: Payload, f: Field, prior: string): string {
    if f in p.values then p.values[f] else prior
  }

  /** `saveForm`: the payload's fields win, absent fields keep their value, and the record becomes read-only. */
  function Save(s: FormState, p: Payload): (r: FormState)
    ensures r.isReadOnly
    ensures forall f :: Get(r, f) == if f in p.values then p.values[f] else Get(s, f)
  {
    FormState(
      Merged(p, FirstName, s.firstName),
      Merged(p, LastName, s.lastName),
      Merged(p, Gender, s.gender),
      Merged(p, Relationship, s.relationship),
      Merged(p, FileName, s.fileName),
      true)
  }

  /** `setReadOnly`: only the flag changes. */
  function WithReadOnly(s: FormState, flag: bool): (r: FormState)
    ensures r.isReadOnly == flag
    ensures forall f :: Get(r, f) == Get(s, f)
  {
    s.(isReadOnly := flag)
  }

  /**
   * The slice reducer. `None` is the undefined state Redux passes on the
   * first call, which the reducer replaces by `initialState`.
   */
  function Reduce(s: Option<FormState>, a: Action): FormState {
    var current := s.GetOr(InitialState);
    match a
    case SaveForm(p) => Save(current, p)
    case ResetForm => InitialState
    case SetReadOnly(flag) => WithReadOnly(current, flag)
    case Other(_) => current
  }

  /** The reducer on an undefined state and a foreign action yields the empty, editable record. */
  lemma UndefinedStateIsInitial(kind: string)
    ensures var r := Reduce(None, Other(kind));
      !r.isReadOnly && forall f :: Get(r, f) == ""
  {
  }

  /** `saveForm` makes the record read-only whatever the payload carries, `{}` and `isReadOnly: false` included. */
  lemma SaveAlwaysReadOnly(s: FormState, p: Payload)
    ensures Reduce(Some(s), SaveForm(p)).isReadOnly
    ensures Save(s, p) == Save(s, Payload(p.values, None))
    ensures Reduce(Some(s), SaveForm(Payload(map[], None))) == s.(isReadOnly := true)
  {
  }

  /** A payload carrying all five fields determines the whole record, whatever the prior state. */
  lemma SaveFullPayload(s: FormState, t: FormState, p: Payload)
    requires p.values.Keys == AllFields
    ensures Save(s, p) == Save(t, p)
    ensures forall f :: Get(Save(s, p), f) == p.values[f]
  {
  }

  /** Saving the same payload twice is saving it once. */
  lemma SaveIdempotent(s: FormState, p: Payload)
    ensures Save(Save(s, p), p) == Save(s, p)
  {
  }

  /** `resetForm` from any state, defined or not, yields the initial record. */
  lemma ResetFromAnyState(s: Option<FormState>)
    ensures Reduce(s, ResetForm) == InitialState
  {
  }

  /** `setReadOnly` sets the flag to its argument and touches no field; applying it twice is applying it once. */
  lemma SetReadOnlyIdempotent(s: FormState, flag: bool)
    ensures Reduce(Some(Reduce(Some(s), SetReadOnly(flag))), SetReadOnly(flag)) == Reduce(Some(s), SetReadOnly(flag))
    ensures Reduce(Some(s), SetReadOnly(flag)) == s.(isReadOnly := flag)
  {
  }

  /** The Redux store of the form slice: its state and the actions dispatched to it. */
  class Store {
    var state: FormState
    ghost var dispatched: seq<Action>

    /** Store creation runs the reducer once on an undefined state. */
    constructor ()
      ensures state == InitialState && dispatched == []
    {
      state := Reduce(None, Other("@@redux/INIT"));
      dispatched := [];
    }

    method Dispatch(a: Action)
      modifies this
      ensures state == Reduce(Some(old(state)), a)
      ensures dispatched == old(dispatched) + [a]
    {
      state := Reduce(Some(state), a);
      dispatched := dispatched + [a];
    }
  }
}
