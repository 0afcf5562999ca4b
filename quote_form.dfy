/** The quote form: its fields with the page state `validateField` writes for each of
    them, the form-wide validation loop, the live revalidation on `input` and `blur`, and
    the submit handler driving the submit button (module Submission). */
module QuoteForm {
  import opened Options
  import opened Text
  import opened Rules
  import opened Submission

  /** The element a field is: `validateForm` visits all three, the live listeners and
      the focus-on-error lookup only inputs and text areas. */
  datatype Kind = Input | TextArea | Select

  /** A form control with the state of its enclosing `.form-group`: the `error` and
      `success` classes, the text of its error span if the page has one, and its
      `aria-invalid` attribute (absent until first validated). */
  datatype Field = Field(
    name: string,
    kind: Kind,
    required: bool,
    value: string,
    defaultValue: string,
    errorSpan: Option<string>,
    groupError: bool,
    groupSuccess: bool,
    ariaInvalid: Option<bool>)

  function FieldVerdict(f: Field): Rules.Verdict {
    Check(f.name, f.required, f.value)
  }

  /** The page state after `validateField(f)`: group classes, error text and
      `aria-invalid` follow the verdict; the control itself is untouched. */
  function Validated(f: Field): (g: Field)
    ensures g.groupError <==> !FieldVerdict(f).valid
    ensures !(g.groupError && g.groupSuccess)
    ensures g.name == f.name && g.kind == f.kind && g.required == f.required
    ensures g.value == f.value && g.defaultValue == f.defaultValue
  {
    var v := FieldVerdict(f);
    f.(groupError := !v.valid,
       groupSuccess := v.valid && Trim(f.value) != "",
       errorSpan := if f.errorSpan.Some? then Some(v.message) else None,
       ariaInvalid := Some(!v.valid))
  }

  /** What the page shows after `validateField` agrees with its verdict, and the error
      text is empty exactly when the field is valid. */
  lemma ValidatedShowsVerdict(f: Field)
    ensures var g := Validated(f);
      && (g.groupError <==> !FieldVerdict(f).valid)
      && (g.groupSuccess <==> FieldVerdict(f).valid && Trim(f.value) != "")
      && !(g.groupError && g.groupSuccess)
      && (g.errorSpan.Some? <==> f.errorSpan.Some?)
      && (g.errorSpan.Some? ==> (g.errorSpan.value == "" <==> !g.groupError))
      && g.ariaInvalid == Some(g.groupError)
      && g.(groupError := f.groupError, groupSuccess := f.groupSuccess,
            errorSpan := f.errorSpan, ariaInvalid := f.ariaInvalid) == f
  {
  }

  /** Validating an unchanged value again leaves the page as it was. */
  lemma ValidatedIdempotent(f: Field)
    ensures Validated(Validated(f)) == Validated(f)
  {
  }

  /** Every named control is validated, in document order, no matter what an earlier
      one gave; unnamed controls are left alone. */
  function ValidateAll(fs: seq<Field>): (gs: seq<Field>)
    ensures |gs| == |fs|
    ensures forall i :: 0 <= i < |fs| ==> gs[i].name == fs[i].name && gs[i].value == fs[i].value
    ensures forall i :: 0 <= i < |fs| && fs[i].name == "" ==> gs[i] == fs[i]
    ensures forall i :: 0 <= i < |fs| && fs[i].name != "" ==> gs[i] == Validated(fs[i])
    ensures forall i :: 0 <= i < |fs| && fs[i].name != "" ==>
      (gs[i].groupError <==> !FieldVerdict(fs[i]).valid)
  {
    seq(|fs|, i requires 0 <= i < |fs| => if fs[i].name != "" then Validated(fs[i]) else fs[i])
  }

  ghost predicate FormValid(fs: seq<Field>) {
    forall i :: 0 <= i < |fs| && fs[i].name != "" ==> FieldVerdict(fs[i]).valid
  }

  /** After `validateForm` the form is valid exactly when no named control's group is
      marked as an error. */
  lemma FormValidIffNoErrorMarked(fs: seq<Field>)
    ensures FormValid(fs) <==>
      forall i :: 0 <= i < |fs| && fs[i].name != "" ==> !ValidateAll(fs)[i].groupError
  {
    assert forall i :: 0 <= i < |fs| && fs[i].name != "" ==>
      ValidateAll(fs)[i].groupError == !FieldVerdict(fs[i]).valid;
  }

  /** Running `validateForm` twice on unchanged values gives the same page. */
  lemma ValidateAllIdempotent(fs: seq<Field>)
    ensures ValidateAll(ValidateAll(fs)) == ValidateAll(fs)
  {
  }

  // ---- Focus on the first error ---------------------------------------------------

  /** Matches `.form-group.error input, .form-group.error textarea`. */
  predicate IsErrorTarget(f: Field) {
    f.groupError && f.kind != Select
  }

  /** The first control, from position `from` on, that the error query matches. */
  function FirstErrorFrom(fs: seq<Field>, from: nat): (r: Option<nat>)
    requires from <= |fs|
    ensures r.Some? ==> from <= r.value < |fs| && IsErrorTarget(fs[r.value])
    ensures r.Some? ==> forall j :: from <= j < r.value ==> !IsErrorTarget(fs[j])
    ensures r.None? ==> forall j :: from <= j < |fs| ==> !IsErrorTarget(fs[j])
    decreases |fs| - from
  {
    if from == |fs| then None
    else if IsErrorTarget(fs[from]) then Some(from)
    else FirstErrorFrom(fs, from + 1)
  }

  function FirstErrorTarget(fs: seq<Field>): Option<nat> {
    FirstErrorFrom(fs, 0)
  }

  /** When no unnamed control carries a stale error mark, focus after a blocked
      submission goes to the first named input or text area that fails its rules. */
  lemma FocusGoesToFirstInvalid(fs: seq<Field>)
    requires forall i :: 0 <= i < |fs| && fs[i].name == "" ==> !fs[i].groupError
    ensures var t := FirstErrorTarget(ValidateAll(fs));
      && (t.Some? ==> t.value < |fs| && fs[t.value].name != "" && fs[t.value].kind != Select
                      && !FieldVerdict(fs[t.value]).valid)
      && (t.Some? ==> (forall j :: 0 <= j < t.value && fs[j].name != "" && fs[j].kind != Select
                        ==> FieldVerdict(fs[j]).valid))
      && (t.None? ==> (forall j :: 0 <= j < |fs| && fs[j].name != "" && fs[j].kind != Select
                        ==> FieldVerdict(fs[j]).valid))
  {
    var gs := ValidateAll(fs);
    assert forall i :: 0 <= i < |fs| ==>
      (IsErrorTarget(gs[i]) <==> fs[i].name != "" && fs[i].kind != Select && !FieldVerdict(fs[i]).valid);
  }

  // ---- Live revalidation guards ---------------------------------------------------

  /** On `input`: revalidate when the group shows an error or the value is not blank. */
  predicate InputRevalidates(f: Field) {
    f.groupError || |Trim(f.value)| > 0
  }

  /** On `blur`: revalidate a required control, or any control whose value is not blank. */
  predicate BlurRevalidates(f: Field) {
    f.required || |Trim(f.value)| > 0
  }

  /** After typing, an error mark is never stale: it is shown only for a value that fails. */
  lemma InputLeavesNoStaleError(f: Field)
    ensures var g := if InputRevalidates(f) then Validated(f) else f;
      g.groupError ==> !FieldVerdict(f).valid
  {
  }

  /** After leaving a required control, its group shows the verdict on its value. */
  lemma BlurShowsRequiredVerdict(f: Field)
    requires f.required
    ensures BlurRevalidates(f)
    ensures Validated(f).groupError <==> !FieldVerdict(f).valid
  {
  }

  /** `form.reset()` plus clearing the `success` and `error` class of every group. */
  function ResetAll(fs: seq<Field>): (gs: seq<Field>)
    ensures |gs| == |fs|
    ensures forall i :: 0 <= i < |fs| ==>
      && gs[i].value == fs[i].defaultValue
      && !gs[i].groupError && !gs[i].groupSuccess
      && gs[i].name == fs[i].name && gs[i].required == fs[i].required
      && gs[i].errorSpan == fs[i].errorSpan && gs[i].ariaInvalid == fs[i].ariaInvalid
    ensures forall i :: 0 <= i < |fs| ==> (InputRevalidates(gs[i]) <==> Trim(fs[i].defaultValue) != "")
  {
    seq(|fs|, i requires 0 <= i < |fs| =>
      fs[i].(value := fs[i].defaultValue, groupError := false, groupSuccess := false))
  }

  // ---- The form object ------------------------------------------------------------

  class Form {
    var fields: seq<Field>
    var html: string
    var disabled: bool
    var loading: bool
    var success: bool
    var error: bool
    var inFlight: Option<string>
    var pending: seq<Revert>
    /** The control that last received focus from the submit handler. */
    var focused: Option<nat>
    /** The submit button's label at page load: what every revert puts back. */
    const originalHtml: string

    function Machine(): Submission.Machine
      reads this
    {
      Submission.Machine(Button(html, disabled, loading, success, error), inFlight, pending)
    }

    ghost predicate Valid()
      reads this
    {
      Inv(originalHtml, Machine())
    }

    constructor (fields0: seq<Field>, html0: string)
      ensures Valid()
      ensures fields == fields0 && originalHtml == html0 && focused == None
      ensures Machine() == Idle(html0)
    {
      fields := fields0;
      html, disabled, loading, success, error := html0, false, false, false, false;
      inFlight, pending := None, [];
      focused := None;
      originalHtml := html0;
    }

    /** `validateField` on the control at `i`. */
    method ValidateField(i: nat) returns (valid: bool)
      requires i < |fields|
      modifies this`fields
      ensures valid == FieldVerdict(old(fields)[i]).valid
      ensures fields == old(fields)[i := Validated(old(fields)[i])]
    {
      valid := FieldVerdict(fields[i]).valid;
      fields := fields[i := Validated(fields[i])];
    }

    /** `validateForm`: validates every named control and reports whether all passed. */
    method ValidateForm() returns (ok: bool)
      modifies this`fields
      ensures ok == FormValid(old(fields))
      ensures fields == ValidateAll(old(fields))
    {
      ok := true;
      var i := 0;
      while i < |fields|
        invariant 0 <= i <= |fields| == |old(fields)|
        invariant forall j :: 0 <= j < i ==> fields[j] == ValidateAll(old(fields))[j]
        invariant forall j :: i <= j < |fields| ==> fields[j] == old(fields)[j]
        invariant ok == forall j :: 0 <= j < i && old(fields)[j].name != "" ==> FieldVerdict(old(fields)[j]).valid
      {
        if fields[i].name != "" {
          var valid := ValidateField(i);
          if !valid {
            ok := false;
          }
        }
        i := i + 1;
      }
    }

    /** The user changes the value of control `i` (typing, pasting, choosing an option);
        the page state of its group is left as it was until a listener runs. */
    method Edit(i: nat, v: string)
      requires i < |fields|
      modifies this`fields
      ensures fields == old(fields)[i := old(fields)[i].(value := v)]
      ensures Machine() == old(Machine())
    {
      fields := fields[i := fields[i].(value := v)];
    }

    /** The `input` listener; selects have none. */
    method OnInput(i: nat)
      requires i < |fields|
      modifies this`fields
      ensures fields == old(
        if fields[i].kind != Select && InputRevalidates(fields[i])
        then fields[i := Validated(fields[i])] else fields)
    {
      if fields[i].kind != Select && InputRevalidates(fields[i]) {
        var _ := ValidateField(i);
      }
    }

    /** The `blur` listener; selects have none. */
    method OnBlur(i: nat)
      requires i < |fields|
      modifies this`fields
      ensures fields == old(
        if fields[i].kind != Select && BlurRevalidates(fields[i])
        then fields[i := Validated(fields[i])] else fields)
    {
      if fields[i].kind != Select && BlurRevalidates(fields[i]) {
        var _ := ValidateField(i);
      }
    }

    /** The `submit` listener. An invalid form is not sent: the first control in an error
        group gets focus and the button is not touched. A valid form starts the request. */
    method Submit() returns (sent: bool)
      requires Valid() && !disabled
      modifies this
      ensures Valid()
      ensures sent == FormValid(old(fields))
      ensures fields == ValidateAll(old(fields))
      ensures !sent ==> Machine() == old(Machine())
      ensures !sent ==> focused == (if FirstErrorTarget(fields).Some? then FirstErrorTarget(fields) else old(focused))
      ensures sent ==> Machine() == Next(originalHtml, old(Machine()), SubmitValid)
      ensures sent ==> focused == old(focused)
    {
      ghost var m := Machine();
      sent := ValidateForm();
      assert Machine() == m;
      if !sent {
        var target := FirstErrorTarget(fields);
        if target.Some? {
          focused := target;
        }
        assert Machine() == m;
        return;
      }
      inFlight := Some(originalHtml);
      html := LoadingLabel;
      disabled := true;
      loading := true;
      assert Machine() == Next(originalHtml, m, SubmitValid);
      NextKeepsInv(originalHtml, m, SubmitValid);
    }

    /** The outcome of the request: `ok` for a 2xx response, false for any other status
        or a network error. Success also resets the form and clears every group mark. */
    method Respond(ok: bool)
      requires Valid() && inFlight.Some?
      modifies this
      ensures Valid()
      ensures Machine() == Next(originalHtml, old(Machine()), Responded(ok))
      ensures fields == if ok then ResetAll(old(fields)) else old(fields)
      ensures focused == old(focused)
    {
      ghost var m := Machine();
      var captured := inFlight.value;
      inFlight := None;
      if ok {
        html := SuccessLabel;
        loading := false;
        success := true;
        fields := ResetAll(fields);
        pending := pending + [Revert(true, captured)];
      } else {
        html := ErrorLabel;
        loading := false;
        error := true;
        disabled := false;
        pending := pending + [Revert(false, captured)];
      }
      assert Machine() == Next(originalHtml, m, Responded(ok));
      NextKeepsInv(originalHtml, m, Responded(ok));
    }

    /** The oldest pending 4000 ms revert fires. */
    method FireTimer()
      requires Valid() && pending != []
      modifies this
      ensures Valid()
      ensures Machine() == Next(originalHtml, old(Machine()), TimerFired)
      ensures fields == old(fields) && focused == old(focused)
    {
      ghost var m := Machine();
      var r := pending[0];
      pending := pending[1..];
      html := r.restore;
      if r.afterSuccess {
        success := false;
        disabled := false;
      } else {
        error := false;
      }
      assert Machine() == Next(originalHtml, m, TimerFired);
      NextKeepsInv(originalHtml, m, TimerFired);
    }
  }
}
