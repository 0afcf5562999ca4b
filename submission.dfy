/** The submit button of the quote form as a state machine. Its presentation (label,
    `disabled`, the classes `loading`, `success`, `error`) is changed by the submit
    handler, by the outcome of the request, and by the 4000 ms revert timers that the
    outcome schedules. The request and the timers are explicit events: which one happens
    next is up to the environment. */
module Submission {
  import opened Options

  const LoadingLabel := "<span class=\"btn-spinner\"></span> Invio in corso..."
  const SuccessLabel := "✓ Richiesta inviata!"
  const ErrorLabel := "✗ Errore - Riprova"

  datatype Button = Button(html: string, disabled: bool, loading: bool, success: bool, error: bool)

  /** A scheduled revert: the callback of a 4000 ms timer and the label it puts back. */
  datatype Revert = Revert(afterSuccess: bool, restore: string)

  /** The button, the label captured by the request being awaited (if any) and the
      pending reverts in the order they will fire (all have the same delay). */
  datatype Machine = Machine(button: Button, inFlight: Option<string>, pending: seq<Revert>)

  datatype Event = SubmitValid | Responded(ok: bool) | TimerFired

  function Idle(html: string): Machine {
    Machine(Button(html, false, false, false, false), None, [])
  }

  /** Whether the environment can deliver `e`: a disabled button takes no submission, a
      response needs a request, a timer needs to have been scheduled. */
  predicate Enabled(m: Machine, e: Event) {
    match e
    case SubmitValid => !m.button.disabled
    case Responded(_) => m.inFlight.Some?
    case TimerFired => m.pending != []
  }

  /** One event. `captured` is the label the submit handler keeps as the one to put back
      later; it is used only by SubmitValid. */
  function Step(m: Machine, e: Event, captured: string): (m': Machine)
    requires Enabled(m, e)
    ensures e == SubmitValid ==>
      && m'.button == m.button.(html := LoadingLabel, disabled := true, loading := true)
      && m'.inFlight == Some(captured) && m'.pending == m.pending
    ensures e == Responded(true) ==>
      m'.button == m.button.(html := SuccessLabel, loading := false, success := true)
    ensures e == Responded(false) ==>
      m'.button == m.button.(html := ErrorLabel, loading := false, error := true, disabled := false)
    ensures e == TimerFired && m.pending[0].afterSuccess ==>
      m'.button == m.button.(html := m.pending[0].restore, success := false, disabled := false)
    ensures e == TimerFired && !m.pending[0].afterSuccess ==>
      m'.button == m.button.(html := m.pending[0].restore, error := false)
    ensures e.Responded? ==>
      && m'.inFlight.None?
      && m'.pending == m.pending + [Revert(e.ok, m.inFlight.value)]
    ensures e == TimerFired ==>
      && m'.inFlight == m.inFlight
      && m'.button.html == m.pending[0].restore
      && m'.pending == m.pending[1..]
  {
    var b := m.button;
    match e
    case SubmitValid =>
      m.(button := b.(html := LoadingLabel, disabled := true, loading := true),
         inFlight := Some(captured))
    case Responded(ok) =>
      if ok then
        m.(button := b.(html := SuccessLabel, loading := false, success := true),
           inFlight := None,
           pending := m.pending + [Revert(true, m.inFlight.value)])
      else
        m.(button := b.(html := ErrorLabel, loading := false, error := true, disabled := false),
           inFlight := None,
           pending := m.pending + [Revert(false, m.inFlight.value)])
    case TimerFired =>
      var r := m.pending[0];
      var b' := if r.afterSuccess then b.(html := r.restore, success := false, disabled := false)
                else b.(html := r.restore, error := false);
      m.(button := b', pending := m.pending[1..])
  }

  /** The handler as written: it captures whatever label the button shows at submit time. */
  function NextAsWritten(m: Machine, e: Event): (m': Machine)
    requires Enabled(m, e)
    ensures e == SubmitValid ==> m'.inFlight == Some(m.button.html)
  {
    Step(m, e, m.button.html)
  }

  /** The handler as intended: it always puts back the label the button had at page load. */
  function Next(orig: string, m: Machine, e: Event): (m': Machine)
    requires Enabled(m, e)
    ensures e == SubmitValid ==> m'.inFlight == Some(orig)
    ensures (m.inFlight.Some? ==> m.inFlight.value == orig) && (forall r <- m.pending :: r.restore == orig)
      ==> (m'.inFlight.Some? ==> m'.inFlight.value == orig) && (forall r <- m'.pending :: r.restore == orig)
  {
    Step(m, e, orig)
  }

  /** A run of events; an event the environment cannot deliver in the current state is
      dropped. */
  function Run(orig: string, m: Machine, es: seq<Event>): (m': Machine)
    ensures |m'.pending| <= |m.pending| + |es|
    ensures (forall r <- m.pending :: r.restore == orig) && (m.inFlight.Some? ==> m.inFlight.value == orig)
      ==> forall r <- m'.pending :: r.restore == orig
    decreases |es|
  {
    if es == [] then m
    else Run(orig, if Enabled(m, es[0]) then Next(orig, m, es[0]) else m, es[1..])
  }

  /** A run of the handler as written. */
  function RunAsWritten(m: Machine, es: seq<Event>): (m': Machine)
    ensures |m'.pending| <= |m.pending| + |es|
    decreases |es|
  {
    if es == [] then m
    else RunAsWritten(if Enabled(m, es[0]) then NextAsWritten(m, es[0]) else m, es[1..])
  }

  // ---- The invariant of the intended machine ------------------------------------

  /** A success revert is pending. Only the newest pending revert can be one. */
  predicate SuccessPending(p: seq<Revert>) {
    p != [] && p[|p| - 1].afterSuccess
  }

  /** Every state the intended machine reaches from Idle(orig): presentation follows
      from the request and the pending reverts, and only the original label is ever put
      back. */
  ghost predicate Inv(orig: string, m: Machine) {
    var b, p := m.button, m.pending;
    && (forall k :: 0 <= k < |p| ==> p[k].restore == orig)
    && (forall k :: 0 <= k < |p| - 1 ==> !p[k].afterSuccess)
    && (m.inFlight.Some? ==> m.inFlight.value == orig && !SuccessPending(p))
    && (b.loading <==> m.inFlight.Some?)
    && (b.disabled <==> m.inFlight.Some? || SuccessPending(p))
    && (b.success ==> SuccessPending(p))
    && (b.error ==> p != [] && !p[0].afterSuccess)
    && (m.inFlight.None? && p == [] ==> b.html == orig)
  }

  lemma IdleInv(orig: string)
    ensures Inv(orig, Idle(orig))
  {
  }

  lemma NextKeepsInv(orig: string, m: Machine, e: Event)
    requires Inv(orig, m) && Enabled(m, e)
    ensures Inv(orig, Next(orig, m, e))
  {
    var m' := Next(orig, m, e);
    match e
    case SubmitValid =>
    case Responded(ok) =>
      assert forall k :: 0 <= k < |m.pending| ==> m'.pending[k] == m.pending[k];
    case TimerFired =>
      assert forall k :: 0 <= k < |m'.pending| ==> m'.pending[k] == m.pending[k + 1];
  }

  lemma {:induction false} RunKeepsInv(orig: string, m: Machine, es: seq<Event>)
    requires Inv(orig, m)
    ensures Inv(orig, Run(orig, m, es))
    decreases |es|
  {
    if es != [] {
      var m1 := if Enabled(m, es[0]) then Next(orig, m, es[0]) else m;
      if Enabled(m, es[0]) {
        NextKeepsInv(orig, m, es[0]);
      }
      RunKeepsInv(orig, m1, es[1..]);
    }
  }

  /** With nothing in flight and nothing pending the button is back to its page-load
      presentation. */
  lemma QuiescentIsIdle(orig: string, m: Machine)
    requires Inv(orig, m) && m.inFlight.None? && m.pending == []
    ensures m == Idle(orig)
  {
  }

  /** No second request while one is awaited: the button stays disabled until the
      response arrives. */
  lemma OneRequestAtATime(orig: string, m: Machine)
    requires Inv(orig, m) && m.inFlight.Some?
    ensures !Enabled(m, SubmitValid)
  {
  }

  /** Whatever happened, once every scheduled event has been delivered the button shows
      the original label, enabled and without state classes. */
  lemma RunSettlesToIdle(orig: string, es: seq<Event>)
    ensures var m := Run(orig, Idle(orig), es);
      m.inFlight.None? && m.pending == [] ==> m == Idle(orig)
  {
    IdleInv(orig);
    RunKeepsInv(orig, Idle(orig), es);
  }

  /** Fires every pending revert in order. */
  function Drain(orig: string, m: Machine): Machine
    decreases |m.pending|
  {
    if m.pending == [] then m else Drain(orig, Next(orig, m, TimerFired))
  }

  /** Every outcome returns to an interactive idle button: with no request in flight,
      letting the pending timers fire restores the page-load presentation. */
  lemma {:induction false} DrainSettles(orig: string, m: Machine)
    requires Inv(orig, m) && m.inFlight.None?
    ensures Drain(orig, m) == Idle(orig)
    decreases |m.pending|
  {
    if m.pending == [] {
      QuiescentIsIdle(orig, m);
    } else {
      NextKeepsInv(orig, m, TimerFired);
      DrainSettles(orig, Next(orig, m, TimerFired));
    }
  }

  // ---- The two outcomes of one submission ---------------------------------------

  /** A valid submission answered with success: the success label on a disabled button,
      then the original label on an enabled one once the timer fires. */
  lemma SuccessThenRevert(orig: string)
    ensures var m := Run(orig, Idle(orig), [SubmitValid, Responded(true)]);
      m.button == Button(SuccessLabel, true, false, true, false) && m.pending == [Revert(true, orig)]
    ensures Run(orig, Idle(orig), [SubmitValid, Responded(true), TimerFired]) == Idle(orig)
  {
  }

  /** A valid submission that fails: the error label, re-enabled at once, then the
      original label once the timer fires. */
  lemma FailureThenRevert(orig: string)
    ensures var m := Run(orig, Idle(orig), [SubmitValid, Responded(false)]);
      m.button == Button(ErrorLabel, false, false, false, true) && m.pending == [Revert(false, orig)]
    ensures Run(orig, Idle(orig), [SubmitValid, Responded(false), TimerFired]) == Idle(orig)
  {
  }

  // ---- The handler as written ---------------------------------------------------

  /** Resubmitting within 4000 ms of a failure (the button is enabled again at once)
      captures the error label as the "original" one. Even when the second request
      succeeds, once both timers have fired the idle button keeps showing the error label. */
  lemma QuickResubmitKeepsErrorLabel(orig: string)
    requires orig != ErrorLabel
    ensures var m := RunAsWritten(Idle(orig),
      [SubmitValid, Responded(false), SubmitValid, Responded(true), TimerFired, TimerFired]);
      && m == Idle(ErrorLabel)
      && m != Idle(orig)
  {
  }
}
