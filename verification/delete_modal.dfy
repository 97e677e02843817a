/**
 * The confirm-before-delete modal shared by `CustomDataTable.tsx` and the
 * archive page at `src/app/ArchiveTable/page.tsx`: a delete click captures
 * the selection and opens the modal, confirm hands the captured ids to the
 * deleter and closes it, and cancel only closes it.
 */
module DeleteModal {
  import opened Wrappers

  /** The two state cells: whether the modal is open, and the captured ids. */
  datatype Modal = Modal(open: bool, captured: seq<string>)

  const Closed: Modal := Modal(false, [])

  /** Delete clicked on a selection, the primary button, or either close path. */
  datatype Event = DeleteClick(selection: seq<string>) | Confirm | Cancel

  /** The state after an event, and the ids handed to the deleter, if any. */
  datatype Outcome = Outcome(next: Modal, handed: Option<seq<string>>)

  function Step(m: Modal, e: Event): (o: Outcome)
    ensures o.handed.Some? <==> e.Confirm?
    ensures o.next.open <==> e.DeleteClick?
    ensures e.Confirm? ==> o.handed.value == m.captured
  {
    match e
    case DeleteClick(selection) => Outcome(Modal(true, selection), None)
    case Confirm => Outcome(Modal(false, m.captured), Some(m.captured))
    case Cancel => Outcome(Modal(false, m.captured), None)
  }

  /** The state after a run of events. */
  function After(m: Modal, es: seq<Event>): Modal {
    if es == [] then m else Step(After(m, es[..|es| - 1]), es[|es| - 1]).next
  }

  /** Every batch of ids handed to the deleter during a run, in order. */
  function Handed(m: Modal, es: seq<Event>): seq<seq<string>> {
    if es == [] then []
    else
      var o := Step(After(m, es[..|es| - 1]), es[|es| - 1]);
      Handed(m, es[..|es| - 1]) + (if o.handed.Some? then [o.handed.value] else [])
  }

  /** The selection of the last delete click of a run, or `init` when there was none. */
  function LastSelection(init: seq<string>, es: seq<Event>): seq<string> {
    if es == [] then init
    else if es[|es| - 1].DeleteClick? then es[|es| - 1].selection
    else LastSelection(init, es[..|es| - 1])
  }

  function ConfirmCount(es: seq<Event>): nat {
    if es == [] then 0
    else ConfirmCount(es[..|es| - 1]) + if es[|es| - 1].Confirm? then 1 else 0
  }

  /** After any run the captured ids are those of the last delete click. */
  lemma {:induction false} CapturedIsLastClick(m: Modal, es: seq<Event>)
    ensures After(m, es).captured == LastSelection(m.captured, es)
  {
    if es != [] {
      CapturedIsLastClick(m, es[..|es| - 1]);
    }
  }

  /**
   * A confirm hands over exactly one batch: the selection captured at the
   * last delete click, not anything selected since; the modal is then closed.
   */
  lemma ConfirmHandsLastClick(m: Modal, es: seq<Event>)
    ensures Handed(m, es + [Confirm]) == Handed(m, es) + [LastSelection(m.captured, es)]
    ensures !After(m, es + [Confirm]).open
    ensures After(m, es + [Confirm]).captured == After(m, es).captured
  {
    assert (es + [Confirm])[..|es|] == es;
    CapturedIsLastClick(m, es);
  }

  /** A cancel hands nothing over and only closes the modal; a delete click hands nothing over. */
  lemma CancelOnlyCloses(m: Modal, es: seq<Event>, selection: seq<string>)
    ensures Handed(m, es + [Cancel]) == Handed(m, es)
    ensures After(m, es + [Cancel]) == After(m, es).(open := false)
    ensures Handed(m, es + [DeleteClick(selection)]) == Handed(m, es)
  {
  }

  /** The deleter is called once per confirm and at no other time. */
  lemma {:induction false} HandedOncePerConfirm(m: Modal, es: seq<Event>)
    ensures |Handed(m, es)| == ConfirmCount(es)
  {
    if es != [] {
      HandedOncePerConfirm(m, es[..|es| - 1]);
    }
  }
}
