/**
 * The button's confirm-dialog state machine: a click is ignored while the
 * button is disabled or loading, otherwise it either calls `onClick` or opens
 * the confirm dialog; confirming closes the dialog and calls `onClick`,
 * cancelling only closes it. Props arrive as raw values, since the schema
 * renderer spreads a node's `props` into the button.
 */
module ButtonMachine {
  import opened JsValues

  /** The props as passed; `undefined` where a prop is left out. */
  datatype ButtonProps = ButtonProps(
    variant: JsValue, disabled: JsValue, isLoading: JsValue, fullWidth: JsValue, size: JsValue,
    requireConfirm: JsValue, confirmTitle: JsValue, confirmMessage: JsValue,
    confirmButtonText: JsValue, cancelButtonText: JsValue, className: JsValue)

  /** Every prop left out. */
  const NoProps: ButtonProps :=
    ButtonProps(Undefined, Undefined, Undefined, Undefined, Undefined, Undefined, Undefined, Undefined, Undefined, Undefined, Undefined)

  /** The destructuring defaults: each replaces `undefined` only. */
  function WithDefaults(p: ButtonProps): ButtonProps {
    ButtonProps(
      DefaultParam(p.variant, Str("primary")),
      DefaultParam(p.disabled, Bool(false)),
      DefaultParam(p.isLoading, Bool(false)),
      DefaultParam(p.fullWidth, Bool(false)),
      DefaultParam(p.size, Str("medium")),
      DefaultParam(p.requireConfirm, Bool(false)),
      DefaultParam(p.confirmTitle, Str("确认操作")),
      DefaultParam(p.confirmMessage, Str("确定要执行此操作吗？")),
      DefaultParam(p.confirmButtonText, Str("确认")),
      DefaultParam(p.cancelButtonText, Str("取消")),
      DefaultParam(p.className, Str("")))
  }

  /** With no props: a primary, medium, enabled button without confirmation, labelled 确认 / 取消 in its dialog. */
  lemma Defaults()
    ensures WithDefaults(NoProps) == ButtonProps(
      Str("primary"), Bool(false), Bool(false), Bool(false), Str("medium"), Bool(false),
      Str("确认操作"), Str("确定要执行此操作吗？"), Str("确认"), Str("取消"), Str(""))
  {
  }

  /** Applying the defaults again changes nothing, and a prop that is given (even `null`) is kept. */
  lemma DefaultsKeepGiven(p: ButtonProps)
    ensures WithDefaults(WithDefaults(p)) == WithDefaults(p)
    ensures p.requireConfirm != Undefined ==> WithDefaults(p).requireConfirm == p.requireConfirm
    ensures p.disabled != Undefined ==> WithDefaults(p).disabled == p.disabled
  {
  }

  /** `disabled || isLoading`, as the click handler tests it. */
  predicate Disabled(p: ButtonProps) {
    Truthy(p.disabled) || Truthy(p.isLoading)
  }

  class Button {
    /** The props of the latest render, defaults applied. */
    var props: ButtonProps
    var showConfirm: bool
    /** How many times `onClick` has been called. */
    var calls: nat

    constructor(given: ButtonProps)
      ensures props == WithDefaults(given) && !showConfirm && calls == 0
    {
      props := WithDefaults(given);
      showConfirm := false;
      calls := 0;
    }

    /** A re-render with new props keeps the dialog state. */
    method Rerender(given: ButtonProps)
      modifies this
      ensures props == WithDefaults(given) && showConfirm == old(showConfirm) && calls == old(calls)
    {
      props := WithDefaults(given);
    }

    method HandleClick()
      modifies this
      ensures props == old(props)
      ensures Disabled(props) ==> showConfirm == old(showConfirm) && calls == old(calls)
      ensures !Disabled(props) && Truthy(props.requireConfirm) ==> showConfirm && calls == old(calls)
      ensures !Disabled(props) && !Truthy(props.requireConfirm) ==> showConfirm == old(showConfirm) && calls == old(calls) + 1
    {
      if Truthy(props.disabled) || Truthy(props.isLoading) {
        return;
      }
      if Truthy(props.requireConfirm) {
        showConfirm := true;
      } else {
        calls := calls + 1;
      }
    }

    /** Confirming closes the dialog and calls `onClick`; the disabled state is not looked at again. */
    method HandleConfirm()
      modifies this
      ensures props == old(props) && !showConfirm && calls == old(calls) + 1
    {
      showConfirm := false;
      calls := calls + 1;
    }

    /** Cancelling, from the cancel button or the overlay, only closes the dialog. */
    method HandleCancel()
      modifies this
      ensures props == old(props) && !showConfirm && calls == old(calls)
    {
      showConfirm := false;
    }
  }

  /** Without confirmation a click calls `onClick` exactly once. */
  method PlainClick() returns (calls: nat, dialogOpen: bool)
    ensures calls == 1 && !dialogOpen
  {
    var b := new Button(NoProps);
    b.HandleClick();
    calls, dialogOpen := b.calls, b.showConfirm;
  }

  /** With confirmation the click only opens the dialog; confirming then calls `onClick` once and closes it. */
  method ConfirmedClick() returns (afterClick: nat, dialogAfterClick: bool, afterConfirm: nat, dialogAfterConfirm: bool)
    ensures afterClick == 0 && dialogAfterClick
    ensures afterConfirm == 1 && !dialogAfterConfirm
  {
    var b := new Button(NoProps.(requireConfirm := Bool(true)));
    b.HandleClick();
    afterClick, dialogAfterClick := b.calls, b.showConfirm;
    b.HandleConfirm();
    afterConfirm, dialogAfterConfirm := b.calls, b.showConfirm;
  }

  /** Cancelling the dialog never calls `onClick`. */
  method CancelledClick() returns (calls: nat, dialogOpen: bool)
    ensures calls == 0 && !dialogOpen
  {
    var b := new Button(NoProps.(requireConfirm := Bool(true)));
    b.HandleClick();
    b.HandleCancel();
    calls, dialogOpen := b.calls, b.showConfirm;
  }

  /** Any number of clicks on a disabled or loading button neither opens the dialog nor calls `onClick`. */
  method ClicksWhileDisabled(given: ButtonProps, n: nat) returns (calls: nat, dialogOpen: bool)
    requires Disabled(WithDefaults(given))
    ensures calls == 0 && !dialogOpen
  {
    var b := new Button(given);
    var i := 0;
    while i < n
      invariant 0 <= i <= n
      invariant b.props == WithDefaults(given) && b.calls == 0 && !b.showConfirm
    {
      b.HandleClick();
      i := i + 1;
    }
    calls, dialogOpen := b.calls, b.showConfirm;
  }

  /** A dialog opened before the button became loading still calls `onClick` when confirmed. */
  method ConfirmWhileLoading() returns (calls: nat)
    ensures calls == 1
  {
    var b := new Button(NoProps.(requireConfirm := Bool(true)));
    b.HandleClick();
    b.Rerender(NoProps.(requireConfirm := Bool(true), isLoading := Bool(true)));
    b.HandleConfirm();
    calls := b.calls;
  }
}
