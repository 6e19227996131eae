/**
 * The request/response side of the schema renderer: merging a response into
 * the store, what an action does with its outcome, what a poll does, the
 * poller's guard flags and the action button's loading flag. The API client
 * is outside the model; its outcome arrives as a parameter.
 */
module SchemaActions {
  import opened Wrappers
  import opened Text
  import opened JsValues
  import SchemaStore
  import Toasts
  import SchemaRenderer
  import ButtonMachine

  type Values = map<string, JsValue>

  // ------------------------------------------------------------------ merging

  /** `payload && typeof payload === 'object'`: only arrays and (non-null) objects are merged. */
  predicate Mergeable(payload: JsValue) {
    Truthy(payload) && IsObjectTyped(payload)
  }

  /** The store after `mergeResponseData(payload)`: every own entry written over the old values. */
  function Merged(values: Values, payload: JsValue): Values {
    if Mergeable(payload) then values + Entries(payload) else values
  }

  /** A payload that is not an object changes nothing; otherwise its entries are written and every other key is untouched. */
  lemma MergeSemantics(values: Values, payload: JsValue)
    ensures !Mergeable(payload) ==> Merged(values, payload) == values
    ensures Mergeable(payload) ==>
      && Merged(values, payload).Keys == values.Keys + Entries(payload).Keys
      && (forall k :: k in Entries(payload) ==> Merged(values, payload)[k] == Entries(payload)[k])
      && (forall k :: k in values && k !in Entries(payload) ==> Merged(values, payload)[k] == values[k])
  {
  }

  /** Merging the same payload twice is merging it once. */
  lemma MergeIdempotent(values: Values, payload: JsValue)
    ensures Merged(Merged(values, payload), payload) == Merged(values, payload)
  {
  }

  /** Null, strings, numbers, booleans and functions are not merged. */
  lemma ScalarsNotMerged(values: Values, payload: JsValue)
    requires !payload.Arr? && !payload.Obj?
    ensures Merged(values, payload) == values
  {
  }

  /** An array payload writes its elements under the keys "0", "1", ... */
  lemma ArrayMergedByIndex(values: Values, first: JsValue, second: JsValue)
    ensures Merged(values, Arr([first, second])) == values["0" := first]["1" := second]
  {
    TwoEntries(first, second);
  }

  /** The entries of a two-element array. */
  lemma TwoEntries(first: JsValue, second: JsValue)
    ensures Entries(Arr([first, second])) == map["0" := first, "1" := second]
  {
    var e := Entries(Arr([first, second]));
    assert NatToString(0) == "0" && NatToString(1) == "1";
    assert e["0"] == first && e["1"] == second;
    assert e.Keys == {"0", "1"} by {
      forall k | k in e ensures k == "0" || k == "1" {
        var i :| 0 <= i < 2 && k == NatToString(i);
      }
    }
  }

  /** `mergeResponseData`: one `setValue` per own entry of the payload. */
  method MergeResponseData(store: SchemaStore.Store, payload: JsValue)
    modifies store
    ensures store.values == Merged(old(store.values), payload)
  {
    if !Truthy(payload) || !IsObjectTyped(payload) {
      return;
    }
    WriteEach(store, Entries(payload));
  }

  /** The `forEach` over the entries: each key is written once, in any order, since the keys are distinct. */
  method WriteEach(store: SchemaStore.Store, entries: map<string, JsValue>)
    modifies store
    ensures store.values == old(store.values) + entries
  {
    var pending := entries.Keys;
    ghost var written: set<string> := {};
    while pending != {}
      invariant pending + written == entries.Keys && pending !! written
      invariant store.values == old(store.values) + map k | k in written :: entries[k]
      decreases pending
    {
      var k :| k in pending;
      store.SetValue(k, entries[k]);
      pending := pending - {k};
      written := written + {k};
    }
    assert (map k | k in written :: entries[k]) == entries;
  }

  /** `response?.data ?? response`: what an action or a poll merges. */
  function ResponsePayload(response: JsValue): JsValue {
    Coalesce(Get(response, "data"), response)
  }

  /** Without a `data` field the whole body is merged, so `success` and `message` land in the store too. */
  lemma WholeBodyMerged(values: Values, body: map<string, JsValue>)
    requires "data" !in body
    ensures Merged(values, ResponsePayload(Obj(body))) == values + body
    ensures "message" in body ==> Merged(values, ResponsePayload(Obj(body)))["message"] == body["message"]
    ensures "success" in body ==> Merged(values, ResponsePayload(Obj(body)))["success"] == body["success"]
  {
    assert Get(Obj(body), "data") == Undefined;
  }

  /** A non-nullish `data` field is merged on its own: the rest of the body stays out of the store. */
  lemma DataFieldMerged(values: Values, body: map<string, JsValue>, data: map<string, JsValue>)
    requires "data" in body && body["data"] == Obj(data)
    ensures Merged(values, ResponsePayload(Obj(body))) == values + data
  {
  }

  // ------------------------------------------------------------------ actions

  /** How the API call ended: a response, or a thrown `Error` (with its message) or other thrown value. */
  datatype Thrown = ErrorObject(message: string) | OtherValue(value: JsValue)

  datatype ApiOutcome = Responded(response: JsValue) | Threw(thrown: Thrown)

  /** `error instanceof Error ? error.message : String(error)`. */
  function ThrownMessage(t: Thrown): string {
    match t
    case ErrorObject(m) => m
    case OtherValue(v) => Stringify(v)
  }

  const NoContextMessage: string := "模块上下文不可用，无法执行操作。"
  const ActionFailed: string := "操作失败"
  const ActionFailedPrefix: string := "操作失败："

  datatype Notice = Notice(message: JsValue, kind: Toasts.ToastType)

  /** What `handleAction` does: the request it posts, the toast it shows and the payload it merges. */
  datatype ActionEffect = ActionEffect(request: Option<(string, Values)>, notice: Option<Notice>, merge: Option<JsValue>)

  function ActionPath(action: JsValue): string {
    "/api/" + Stringify(action)
  }

  function HandleActionPlan(hasContext: bool, action: JsValue, values: Values, outcome: ApiOutcome): ActionEffect {
    if !hasContext then ActionEffect(None, Some(Notice(Str(NoContextMessage), Toasts.Failure)), None)
    else
      var request := Some((ActionPath(action), values));
      match outcome
      case Threw(t) => ActionEffect(request, Some(Notice(Str(ActionFailedPrefix + ThrownMessage(t)), Toasts.Failure)), None)
      case Responded(response) =>
        if Get(response, "success") == Bool(false) then
          ActionEffect(request, Some(Notice(Or(Get(response, "error"), Str(ActionFailed)), Toasts.Failure)), None)
        else
          var message := Get(response, "message");
          ActionEffect(request, if Truthy(message) then Some(Notice(message, Toasts.Success)) else None, Some(ResponsePayload(response)))
  }

  /** Without a module context: no request, one error toast, nothing merged. */
  lemma NoContextNoRequest(action: JsValue, values: Values, outcome: ApiOutcome)
    ensures HandleActionPlan(false, action, values, outcome) == ActionEffect(None, Some(Notice(Str(NoContextMessage), Toasts.Failure)), None)
  {
  }

  /** Every action with a context posts the current values to `/api/<action>`. */
  lemma ContextPostsValues(action: JsValue, values: Values, outcome: ApiOutcome)
    ensures HandleActionPlan(true, action, values, outcome).request == Some(("/api/" + Stringify(action), values))
  {
  }

  /** `success: false` raises an error toast (the `error` field, or the default text) and merges nothing. */
  lemma SuccessFalseNotMerged(action: JsValue, values: Values, response: JsValue)
    requires Get(response, "success") == Bool(false)
    ensures HandleActionPlan(true, action, values, Responded(response)).merge == None
    ensures HandleActionPlan(true, action, values, Responded(response)).notice
            == Some(Notice(if Truthy(Get(response, "error")) then Get(response, "error") else Str("操作失败"), Toasts.Failure))
  {
  }

  /** A call that throws raises `操作失败：<message>` and merges nothing. */
  lemma ThrownNotMerged(action: JsValue, values: Values, t: Thrown)
    ensures HandleActionPlan(true, action, values, Threw(t)).merge == None
    ensures HandleActionPlan(true, action, values, Threw(t)).notice == Some(Notice(Str("操作失败：" + ThrownMessage(t)), Toasts.Failure))
  {
  }

  /** Any other response is merged (its `data`, else itself), with a success toast exactly when it carries a truthy `message`. */
  lemma ResponseMerged(action: JsValue, values: Values, response: JsValue)
    requires Get(response, "success") != Bool(false)
    ensures HandleActionPlan(true, action, values, Responded(response)).merge == Some(Coalesce(Get(response, "data"), response))
    ensures HandleActionPlan(true, action, values, Responded(response)).notice.Some? <==> Truthy(Get(response, "message"))
  {
  }

  /** A missing response (`undefined`) is neither a failure nor mergeable: nothing is shown and the store is kept. */
  lemma UndefinedResponseIgnored(action: JsValue, values: Values)
    ensures HandleActionPlan(true, action, values, Responded(Undefined)).notice == None
    ensures Merged(values, HandleActionPlan(true, action, values, Responded(Undefined)).merge.value) == values
  {
  }

  /** `handleAction` against the store and the toast list; `toastId` is the id the toast list would generate. */
  method HandleAction(store: SchemaStore.Store, toasts: Toasts.ToastList, hasContext: bool, action: JsValue, outcome: ApiOutcome, toastId: string)
    returns (request: Option<(string, Values)>)
    modifies store, toasts
    ensures var e := HandleActionPlan(hasContext, action, old(store.values), outcome);
      && request == e.request
      && toasts.items == old(toasts.items) + (if e.notice.Some? then [Toasts.NewToast(toastId, e.notice.value.message, Some(e.notice.value.kind), None, Undefined)] else [])
      && store.values == (if e.merge.Some? then Merged(old(store.values), e.merge.value) else old(store.values))
  {
    if !hasContext {
      toasts.ShowToast(Str(NoContextMessage), Some(Toasts.Failure), None, Undefined, toastId);
      return None;
    }
    request := Some((ActionPath(action), store.values));
    match outcome {
      case Threw(t) =>
        toasts.ShowToast(Str(ActionFailedPrefix + ThrownMessage(t)), Some(Toasts.Failure), None, Undefined, toastId);
      case Responded(response) =>
        if Get(response, "success") == Bool(false) {
          toasts.ShowToast(Or(Get(response, "error"), Str(ActionFailed)), Some(Toasts.Failure), None, Undefined, toastId);
          return;
        }
        var message := Get(response, "message");
        if Truthy(message) {
          toasts.ShowToast(message, Some(Toasts.Success), None, Undefined, toastId);
        }
        MergeResponseData(store, ResponsePayload(response));
    }
  }

  // ------------------------------------------------------------------ polls

  /** What `handlePoll` does: the path it fetches and the payload it merges; a thrown call merges nothing. */
  datatype PollEffect = PollEffect(request: Option<string>, merge: Option<JsValue>)

  function HandlePollPlan(hasContext: bool, endpoint: JsValue, outcome: ApiOutcome): PollEffect {
    if !hasContext then PollEffect(None, None)
    else match outcome
      case Threw(_) => PollEffect(Some(ActionPath(endpoint)), None)
      case Responded(response) => PollEffect(Some(ActionPath(endpoint)), Some(ResponsePayload(response)))
  }

  /** A poll shows no toast in any case, requests nothing without a context, and merges on every response. */
  lemma PollMergesEveryResponse(endpoint: JsValue, response: JsValue, t: Thrown)
    ensures HandlePollPlan(false, endpoint, Responded(response)) == PollEffect(None, None)
    ensures HandlePollPlan(true, endpoint, Responded(response)).merge == Some(Coalesce(Get(response, "data"), response))
    ensures HandlePollPlan(true, endpoint, Threw(t)).merge == None
  {
  }

  const MinPollPeriod: int := 1200
  const DefaultPollInterval: int := 1000

  /** `Math.max(1200, interval)`. */
  function SafeInterval(interval: int): (p: int)
    ensures p >= MinPollPeriod && p >= interval
    ensures p == MinPollPeriod || p == interval
  {
    if interval < MinPollPeriod then MinPollPeriod else interval
  }

  /** An interval of 0 (or none) falls back to 1000 and then to the 1200 floor; a longer interval is kept. */
  lemma PollPeriodDefaults(interval: int)
    ensures SafeInterval(DefaultPollInterval) == 1200
    ensures interval >= 1200 ==> SafeInterval(interval) == interval
  {
  }

  /**
   * The poller effect of a mounted poller node: the first poll starts at
   * once, each timer tick starts another unless one is in flight or the node
   * was unmounted, and each poll ends by clearing the in-flight flag.
   */
  class Poller {
    const endpoint: JsValue
    const period: int
    var inFlight: bool
    var disposed: bool
    var started: nat
    var settled: nat

    /** At most one poll is in flight: every started poll but the current one has settled. */
    predicate Valid()
      reads this
    {
      period >= MinPollPeriod && started == settled + (if inFlight then 1 else 0)
    }

    /** Mounting with an endpoint starts the first poll; without one there is no timer and nothing ever runs. */
    constructor(endpoint: JsValue, interval: int)
      ensures this.endpoint == endpoint && period == SafeInterval(interval)
      ensures inFlight == Truthy(endpoint) && !disposed
      ensures started == (if Truthy(endpoint) then 1 else 0) && settled == 0
      ensures Valid()
    {
      this.endpoint := endpoint;
      period := SafeInterval(interval);
      disposed := false;
      settled := 0;
      new;
      if Truthy(endpoint) {
        inFlight := true;
        started := 1;
      } else {
        inFlight := false;
        started := 0;
      }
    }

    /** A timer tick: `runPoll` returns at once while a poll is in flight or after unmount. */
    method Tick() returns (ran: bool)
      requires Valid()
      modifies this
      ensures Valid()
      ensures ran <==> Truthy(endpoint) && !old(inFlight) && !old(disposed)
      ensures ran ==> inFlight && started == old(started) + 1
      ensures !ran ==> inFlight == old(inFlight) && started == old(started)
      ensures disposed == old(disposed) && settled == old(settled)
    {
      if !Truthy(endpoint) || inFlight || disposed {
        return false;
      }
      inFlight := true;
      started := started + 1;
      return true;
    }

    /**
     * The poll in flight ends. Errors are swallowed, the flag is always
     * cleared, and a response is merged even after unmount, since `disposed`
     * is only tested when a poll starts.
     */
    method Settle(store: SchemaStore.Store, hasContext: bool, outcome: ApiOutcome)
      requires Valid() && inFlight
      modifies this, store
      ensures Valid()
      ensures !inFlight && settled == old(settled) + 1
      ensures started == old(started) && disposed == old(disposed)
      ensures var e := HandlePollPlan(hasContext, endpoint, outcome);
        store.values == (if e.merge.Some? then Merged(old(store.values), e.merge.value) else old(store.values))
    {
      var e := HandlePollPlan(hasContext, endpoint, outcome);
      if e.merge.Some? {
        MergeResponseData(store, e.merge.value);
      }
      inFlight := false;
      settled := settled + 1;
    }

    /** Unmounting: the timer is cleared and no further poll starts. */
    method Dispose()
      requires Valid()
      modifies this
      ensures Valid()
      ensures disposed && inFlight == old(inFlight) && started == old(started) && settled == old(settled)
    {
      disposed := true;
    }
  }

  /** Once unmounted, no tick starts a poll, however many follow. */
  method TicksAfterDispose(p: Poller, n: nat) returns (anyRan: bool)
    requires p.Valid() && p.disposed
    modifies p
    ensures !anyRan && p.started == old(p.started) && p.Valid()
  {
    anyRan := false;
    var i := 0;
    while i < n
      invariant 0 <= i <= n
      invariant p.Valid() && p.disposed && p.started == old(p.started) && !anyRan
    {
      var ran := p.Tick();
      anyRan := anyRan || ran;
      i := i + 1;
    }
  }

  // ------------------------------------------------------------------ action button

  /** What a click on an action button does. */
  datatype ClickPlan = Dispatch(action: JsValue) | CallPropsOnClick | DoNothing

  /** `handleClick` of the action button node, over `action = node.onClick ?? node.props?.onClick`. */
  function ButtonClick(node: JsValue): ClickPlan {
    var action := SchemaRenderer.ButtonAction(node);
    if Truthy(action) then Dispatch(action)
    else if SchemaRenderer.Prop(node, "onClick").Func? then CallPropsOnClick
    else DoNothing
  }

  /**
   * The branch that calls a function-valued `props.onClick` is taken only when
   * `node.onClick` is present but falsy (`''`, `0`, `false`): a function in
   * `props.onClick` with no `node.onClick` is treated as an action name.
   */
  lemma PropsFunctionCallCondition(node: JsValue)
    ensures ButtonClick(node) == CallPropsOnClick <==>
      !Nullish(Get(node, "onClick")) && !Truthy(Get(node, "onClick")) && SchemaRenderer.Prop(node, "onClick").Func?
    ensures Nullish(Get(node, "onClick")) && SchemaRenderer.Prop(node, "onClick").Func? ==>
      ButtonClick(node) == Dispatch(SchemaRenderer.Prop(node, "onClick"))
  {
  }

  /** The action button node's state: the loading flag and the number of direct `props.onClick` calls. */
  class ActionButton {
    const node: JsValue
    var loading: bool
    var propsCalls: nat

    constructor(node: JsValue)
      ensures this.node == node && !loading && propsCalls == 0
    {
      this.node := node;
      loading := false;
      propsCalls := 0;
    }

    /** A click: an action starts loading and is handed on; otherwise the function is called or nothing happens. */
    method Click() returns (dispatched: Option<JsValue>)
      modifies this
      ensures match ButtonClick(node)
        case Dispatch(a) => dispatched == Some(a) && loading && propsCalls == old(propsCalls)
        case CallPropsOnClick => dispatched == None && loading == old(loading) && propsCalls == old(propsCalls) + 1
        case DoNothing => dispatched == None && loading == old(loading) && propsCalls == old(propsCalls)
    {
      var action := SchemaRenderer.ButtonAction(node);
      if !Truthy(action) {
        if SchemaRenderer.Prop(node, "onClick").Func? {
          propsCalls := propsCalls + 1;
        }
        return None;
      }
      loading := true;
      return Some(action);
    }

    /** The dispatched action has finished, normally or by throwing: `finally` clears the flag. */
    method Finish()
      modifies this
      ensures !loading && propsCalls == old(propsCalls)
    {
      loading := false;
    }
  }

  // ------------------------------------------------------------------ the action button on screen

  /** The props the node's `Button` receives: the node's `props` spread, with `isLoading` set to the loading flag. */
  function NodeButtonProps(node: JsValue, loading: bool): ButtonMachine.ButtonProps {
    ButtonMachine.ButtonProps(
      SchemaRenderer.Prop(node, "variant"), SchemaRenderer.Prop(node, "disabled"), Bool(loading),
      SchemaRenderer.Prop(node, "fullWidth"), SchemaRenderer.Prop(node, "size"), SchemaRenderer.Prop(node, "requireConfirm"),
      SchemaRenderer.Prop(node, "confirmTitle"), SchemaRenderer.Prop(node, "confirmMessage"),
      SchemaRenderer.Prop(node, "confirmButtonText"), SchemaRenderer.Prop(node, "cancelButtonText"),
      SchemaRenderer.Prop(node, "className"))
  }

  /** While its action is in flight the button is disabled, whatever the node's own props say. */
  lemma LoadingDisables(node: JsValue)
    ensures ButtonMachine.Disabled(ButtonMachine.WithDefaults(NodeButtonProps(node, true)))
    ensures !ButtonMachine.Disabled(ButtonMachine.WithDefaults(NodeButtonProps(node, false)))
            <==> !Truthy(SchemaRenderer.Prop(node, "disabled"))
  {
  }

  /** The button shows the action button's current loading flag. */
  predicate Shows(ab: ActionButton, b: ButtonMachine.Button)
    reads ab, b
  {
    b.props == ButtonMachine.WithDefaults(NodeButtonProps(ab.node, ab.loading))
  }

  /** One run of `handleClick` as `ActionButton.Click` states it. */
  predicate HandledClick(node: JsValue, dispatched: Option<JsValue>, loading: bool, wasLoading: bool, calls: nat, oldCalls: nat) {
    match ButtonClick(node)
    case Dispatch(a) => dispatched == Some(a) && loading && calls == oldCalls
    case CallPropsOnClick => dispatched == None && loading == wasLoading && calls == oldCalls + 1
    case DoNothing => dispatched == None && loading == wasLoading && calls == oldCalls
  }

  /**
   * A tap: the button's own guard runs first, and `handleClick`, its `onClick`,
   * runs only when the button calls it; then the button re-renders with the
   * loading flag that results.
   */
  method Tap(ab: ActionButton, b: ButtonMachine.Button) returns (dispatched: Option<JsValue>)
    requires Shows(ab, b)
    modifies ab, b
    ensures Shows(ab, b)
    ensures old(ButtonMachine.Disabled(b.props)) ==>
      dispatched == None && b.calls == old(b.calls) && b.showConfirm == old(b.showConfirm)
      && ab.loading == old(ab.loading) && ab.propsCalls == old(ab.propsCalls)
    ensures old(!ButtonMachine.Disabled(b.props) && Truthy(b.props.requireConfirm)) ==>
      dispatched == None && b.calls == old(b.calls) && b.showConfirm
      && ab.loading == old(ab.loading) && ab.propsCalls == old(ab.propsCalls)
    ensures old(!ButtonMachine.Disabled(b.props) && !Truthy(b.props.requireConfirm)) ==>
      b.calls == old(b.calls) + 1 && b.showConfirm == old(b.showConfirm) && HandledClick(ab.node, dispatched, ab.loading, old(ab.loading), ab.propsCalls, old(ab.propsCalls))
  {
    var before := b.calls;
    b.HandleClick();
    dispatched := None;
    if b.calls != before {
      dispatched := ab.Click();
    }
    b.Rerender(NodeButtonProps(ab.node, ab.loading));
  }

  /** Confirming the dialog calls `handleClick` once, without the disabled check, and re-renders. */
  method Confirm(ab: ActionButton, b: ButtonMachine.Button) returns (dispatched: Option<JsValue>)
    requires Shows(ab, b)
    modifies ab, b
    ensures Shows(ab, b)
    ensures b.calls == old(b.calls) + 1 && !b.showConfirm
    ensures HandledClick(ab.node, dispatched, ab.loading, old(ab.loading), ab.propsCalls, old(ab.propsCalls))
  {
    b.HandleConfirm();
    dispatched := ab.Click();
    b.Rerender(NodeButtonProps(ab.node, ab.loading));
  }

  /** The dispatched action has settled: loading is cleared and the button re-renders. */
  method Settled(ab: ActionButton, b: ButtonMachine.Button)
    requires Shows(ab, b)
    modifies ab, b
    ensures Shows(ab, b) && !ab.loading
    ensures b.calls == old(b.calls) && b.showConfirm == old(b.showConfirm) && ab.propsCalls == old(ab.propsCalls)
  {
    ab.Finish();
    b.Rerender(NodeButtonProps(ab.node, ab.loading));
  }

  /**
   * A second tap before the action settles dispatches nothing: the action
   * button's own loading flag disables its button. Once it settles, a tap
   * dispatches again.
   */
  method DoubleTap(node: JsValue) returns (first: Option<JsValue>, second: Option<JsValue>, third: Option<JsValue>, onClickCalls: nat)
    requires ButtonClick(node).Dispatch?
    requires !Truthy(SchemaRenderer.Prop(node, "disabled")) && !Truthy(SchemaRenderer.Prop(node, "requireConfirm"))
    ensures first == Some(SchemaRenderer.ButtonAction(node)) && second == None && third == first
    ensures onClickCalls == 2
  {
    var ab := new ActionButton(node);
    var b := new ButtonMachine.Button(NodeButtonProps(node, false));
    LoadingDisables(node);
    first := Tap(ab, b);
    second := Tap(ab, b);
    Settled(ab, b);
    third := Tap(ab, b);
    onClickCalls := b.calls;
  }
}
