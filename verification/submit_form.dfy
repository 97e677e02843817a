/**
 * The submit-form page controller (`SubmitForm/page.tsx`): a local copy of the
 * five fields, filled from the store when the store is read-only, edited field
 * by field, and written back to the store with one `saveForm` on submit,
 * followed by a navigation to the dashboard.
 */
module SubmitForm {
  import opened Wrappers
  import opened FormSlice
  import Navigation

  /** `UserFormState`: the page's local values. */
  datatype Values = Values(
    firstName: string,
    lastName: string,
    gender: string,
    relationship: string,
    fileName: string)

  /** The initial value of the `formValues` state cell. */
  const EmptyValues: Values := Values("", "", "", "", "")

  /** The path pushed after a submit. */
  const DashboardPath: string := "/profile/user/dashboard"

  function Value(v: Values, f: Field): string {
    match f
    case FirstName => v.firstName
    case LastName => v.lastName
    case Gender => v.gender
    case Relationship => v.relationship
    case FileName => v.fileName
  }

  /** Two local value records that agree on every field are equal. */
  lemma ValuesEqual(a: Values, b: Values)
    requires forall f :: Value(a, f) == Value(b, f)
    ensures a == b
  {
    assert Value(a, FirstName) == Value(b, FirstName);
    assert Value(a, LastName) == Value(b, LastName);
    assert Value(a, Gender) == Value(b, Gender);
    assert Value(a, Relationship) == Value(b, Relationship);
    assert Value(a, FileName) == Value(b, FileName);
  }

  /**
   * The store record as the page's selector sees it: a field may be absent
   * (`undefined`), which a partially filled store shows.
   */
  datatype StoreRecord = StoreRecord(fields: map<Field, string>, isReadOnly: bool)

  /** The record a real store holds: every field present. */
  function RecordOf(s: FormState): (r: StoreRecord)
    ensures r.isReadOnly == s.isReadOnly
    ensures r.fields.Keys == AllFields
    ensures forall f :: f in r.fields && r.fields[f] == Get(s, f)
  {
    EveryFieldListed();
    StoreRecord(map f | f in AllFields :: Get(s, f), s.isReadOnly)
  }

  /** `value || ""` on a possibly absent string: absent becomes `""`, and `""` stays `""`. */
  function OrEmpty(x: Option<string>): string {
    x.GetOr("")
  }

  function FieldOf(rec: StoreRecord, f: Field): Option<string> {
    if f in rec.fields then Some(rec.fields[f]) else None
  }

  /**
   * The load effect: when the store is read-only, every local field takes
   * the store's value, an absent one becoming `""`; otherwise the local
   * values are left as they were.
   */
  function Loaded(rec: StoreRecord, prior: Values): (r: Values)
    ensures rec.isReadOnly ==>
      forall f :: Value(r, f) == if f in rec.fields then rec.fields[f] else ""
    ensures !rec.isReadOnly ==> r == prior
  {
    if rec.isReadOnly then
      Values(
        OrEmpty(FieldOf(rec, FirstName)),
        OrEmpty(FieldOf(rec, LastName)),
        OrEmpty(FieldOf(rec, Gender)),
        OrEmpty(FieldOf(rec, Relationship)),
        OrEmpty(FieldOf(rec, FileName)))
    else
      prior
  }

  /** `handleChange(id, value)`: field `f` becomes `value ?? ""`, every other field is kept. */
  function Changed(v: Values, f: Field, x: Option<string>): (r: Values)
    ensures Value(r, f) == (if x.Some? then x.value else "")
    ensures forall g :: g != f ==> Value(r, g) == Value(v, g)
  {
    match f
    case FirstName => v.(firstName := OrEmpty(x))
    case LastName => v.(lastName := OrEmpty(x))
    case Gender => v.(gender := OrEmpty(x))
    case Relationship => v.(relationship := OrEmpty(x))
    case FileName => v.(fileName := OrEmpty(x))
  }

  /** The payload `saveForm(formValues)` carries: all five fields, no flag. */
  function AsPayload(v: Values): (p: Payload)
    ensures p.values.Keys == AllFields && p.isReadOnly.None?
    ensures forall f :: f in p.values && p.values[f] == Value(v, f)
  {
    EveryFieldListed();
    Payload(map f | f in AllFields :: Value(v, f), None)
  }

  /** The page's two modes, read off the store's flag. */
  datatype Mode = Editing | Viewing

  function ModeOf(s: FormState): Mode {
    if s.isReadOnly then Viewing else Editing
  }

  /** Whether the submit button is rendered (`!formData.isReadOnly && <Button …>`). */
  predicate SubmitOffered(s: FormState) {
    !s.isReadOnly
  }

  /** Whether the input bound to `f` is rendered disabled (`disabled={formData.isReadOnly}`). */
  predicate InputDisabled(s: FormState, f: Field) {
    s.isReadOnly
  }

  /** Submit is offered exactly in Editing mode, and every input is disabled exactly in Viewing mode. */
  lemma GatingFollowsMode(s: FormState)
    ensures SubmitOffered(s) <==> ModeOf(s) == Editing
    ensures forall f :: InputDisabled(s, f) <==> ModeOf(s) == Viewing
    ensures forall f :: SubmitOffered(s) <==> !InputDisabled(s, f)
  {
  }

  /** Of successive changes to one field only the last survives. */
  lemma LastChangeWins(v: Values, f: Field, a: Option<string>, b: Option<string>)
    ensures Changed(Changed(v, f, a), f, b) == Changed(v, f, b)
  {
  }

  /** Changes to two different fields commute. */
  lemma ChangesCommute(v: Values, f: Field, g: Field, a: Option<string>, b: Option<string>)
    requires f != g
    ensures Changed(Changed(v, f, a), g, b) == Changed(Changed(v, g, b), f, a)
  {
  }

  /** Running the load effect again on the same store record changes nothing. */
  lemma LoadIdempotent(rec: StoreRecord, prior: Values)
    ensures Loaded(rec, Loaded(rec, prior)) == Loaded(rec, prior)
  {
  }

  /** On a real store in Viewing mode the load effect copies the five fields exactly. */
  lemma LoadCopiesStore(s: FormState, prior: Values)
    requires s.isReadOnly
    ensures forall f :: Value(Loaded(RecordOf(s), prior), f) == Get(s, f)
  {
  }

  /**
   * Submit composed with the reducer: the store then holds exactly the local
   * values and is read-only, whatever it held before.
   */
  lemma SubmitStoresValues(s: FormState, v: Values)
    ensures var r := Reduce(Some(s), SaveForm(AsPayload(v)));
      r.isReadOnly && ModeOf(r) == Viewing && !SubmitOffered(r) &&
      forall f :: Get(r, f) == Value(v, f)
  {
  }

  /** Round trip: what a submit stores, a later visit's load effect gives back. */
  lemma SubmitThenLoadRoundTrip(s: FormState, v: Values, prior: Values)
    ensures Loaded(RecordOf(Reduce(Some(s), SaveForm(AsPayload(v)))), prior) == v
  {
  }

  /** The page component: its `formValues` cell, the store it reads and writes, and the router. */
  class SubmitFormPage {
    var formValues: Values
    const store: Store
    const router: Navigation.Router

    /** Mounting the page: local values start empty. */
    constructor (store: Store, router: Navigation.Router)
      ensures formValues == EmptyValues
      ensures this.store == store && this.router == router
    {
      formValues := EmptyValues;
      this.store := store;
      this.router := router;
    }

    /** The `useEffect` load step, run on mount and whenever the store record changes. */
    method LoadSaved()
      modifies this
      ensures formValues == Loaded(RecordOf(store.state), old(formValues))
    {
      if store.state.isReadOnly {
        formValues := Values(
          store.state.firstName,
          store.state.lastName,
          store.state.gender,
          store.state.relationship,
          store.state.fileName);
        ValuesEqual(formValues, Loaded(RecordOf(store.state), old(formValues)));
      }
    }

    /** `handleChange(id, value)`. */
    method HandleChange(f: Field, x: Option<string>)
      modifies this
      ensures formValues == Changed(old(formValues), f, x)
    {
      formValues := Changed(formValues, f, x);
    }

    /** `handleSubmit`: one `saveForm` with the local values, then one push of the dashboard path. */
    method HandleSubmit()
      modifies store, router
      ensures store.dispatched == old(store.dispatched) + [SaveForm(AsPayload(formValues))]
      ensures store.state == Save(old(store.state), AsPayload(formValues))
      ensures router.pushed == old(router.pushed) + [DashboardPath]
    {
      store.Dispatch(SaveForm(AsPayload(formValues)));
      router.Push(DashboardPath);
    }
  }

  /**
   * The end-to-end scenario: fill in the five fields on a fresh store, clear
   * a field through a `null` and refill it, then submit.
   */
  method FillAndSubmit() returns (saved: FormState, visited: seq<string>)
    ensures saved == FormState("John", "Doe", "Male", "Single", "test-file.pdf", true)
    ensures visited == [DashboardPath]
  {
    var store := new Store();
    var router := new Navigation.Router();
    var page := new SubmitFormPage(store, router);
    page.LoadSaved();
    page.HandleChange(FirstName, Some("John"));
    page.HandleChange(LastName, Some("Doe"));
    page.HandleChange(Gender, None);
    assert page.formValues.gender == "";
    page.HandleChange(Gender, Some("Male"));
    page.HandleChange(Relationship, Some("Single"));
    page.HandleChange(FileName, Some("test-file.pdf"));
    page.HandleSubmit();
    saved, visited := store.state, router.pushed;
  }
}
