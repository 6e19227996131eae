# Atlas core, modelled in Dafny

Atlas is a desktop host for pluggable modules. It has two halves, and this project models the logic of both:
- a React front end that renders each module's user interface from a declarative JSON document, the *schema*;
- a Rust back end that starts and stops each module's backend process.

The model covers these parts:

- **Schema engine.** Parsing the top-level document shape (`parser.dfy`). The flat value store (`schema_store.dfy`). The renderer's decision logic (`renderer.dfy`): the `hidden` mini-language (`$key`, `!$key`, booleans), text resolution, the value fallback chain of each node type, the write-only-with-an-id change rule, the root class list, and the tree of views a node list renders to. The request side (`actions.dfy`): merging a response into the store, the success and failure branches of an action, polling with its 1200 ms floor and in-flight and disposed guards, and the action button's loading flag, composed with the button it renders, whose `isLoading` disables it until the action settles.
- **Process table of the host** (`process_manager.dfy`). Health-path normalisation, the choice of program by backend language, `{PORT}` argument templating, the HTTP 2xx status-line test, the bounded health-retry loop, and the bookkeeping of `start_module` and `stop_module` over the map of running processes.
- **Small UI state machines and string rules.** The confirm-dialog button (`button.dfy`) and the toast list (`toast.dfy`). The scrambling text (`decrypted_text.dfy`): its reveal order, character pool and both shuffle branches, with randomness as an oracle. The text block's automatic variant, which counts UTF-16 code units as JavaScript's `length` does, and its class string (`text_block.dfy`). The log viewer's placeholder, height and class string (`log_viewer.dfy`).

Shared building blocks:
- `wrappers.dfy`: `Option` and `Result`.
- `text.dfy`: the two languages' notions of white space and trimming, decimal printing, and Rust's `replace`.
- `jsvalue.dfy`: JavaScript values with truthiness, `??`, `||`, default parameters, `String(...)`, and property reads that fall through to `Object.prototype`.

Modelling choices:
- **Parsed input.** Parsed JSON is the `JsValue` datatype. A node is read exactly as property access reads it: a missing field is `undefined`, and reading a field of `null` throws, shown as the `Fault` view.
- **Stateful parts are classes.** The store, the toast list, the poller, the two buttons and the process table are classes whose methods change their fields. Each method is proved against a specification function, and the properties are proved about those functions.
- **Code-level behaviours.** Where the code does something unexpected, the model follows the code:
  - A function-valued `props.onClick` on an action button is not called in the usual case. With no `node.onClick`, the function itself becomes the dispatched action. The branch that calls it runs only when `node.onClick` is present but falsy (`PropsFunctionCallCondition`).
  - With an empty character set, the random shuffle drops every hidden character. Reading index 0 of an empty pool gives `undefined`, which `join('')` prints as nothing (`EmptyPoolDropsCharacters`).
  - An action response without a `data` field is merged whole, `success` and `message` included (`WholeBodyMerged`).

## Model

| member | source | states |
|---|---|---|
| SchemaParser.ParseSchema | src/core/SchemaRenderer/Parser.ts:42-62 | fails exactly when parsing failed, and then with `Schema 解析失败：` followed by the parser's message; `meta` is present exactly for an object with an array `schema`; every schema node comes from the parsed value |
| SchemaParser.ArrayIsSchema | src/core/SchemaRenderer/Parser.ts:46-48 | an array is the schema unchanged, with no meta |
| SchemaParser.WrappedObject | src/core/SchemaRenderer/Parser.ts:50-55 | an object with an array `schema` yields that schema and that object's `meta` |
| SchemaParser.OtherKeysDropped | src/core/SchemaRenderer/Parser.ts:50-55 | two wrapper objects agreeing on `schema` and `meta` parse alike; every other key is dropped |
| SchemaParser.OtherValueIsOneNode | src/core/SchemaRenderer/Parser.ts:57 | any other value, `null` and scalars included, becomes the one-node schema `[value]` |
| SchemaParser.UnknownTypePassesThrough | src/core/SchemaRenderer/Parser.ts:42-62 | nodes are not validated: any object node passes through untouched |
| SchemaParser.RoundTrip | src/core/SchemaRenderer/Parser.ts:46-55 | the JSON form of a document parses back to the same document |
| SchemaStore.Store.constructor | src/core/SchemaRenderer/SchemaStore.ts:18 | the store starts empty |
| SchemaStore.Store.SetValue | src/core/SchemaRenderer/SchemaStore.ts:20-26 | the key now holds the value and every other key keeps its old value |
| SchemaStore.Store.InitValues | src/core/SchemaRenderer/SchemaStore.ts:28 | the whole map is replaced by the given one |
| SchemaStore.Store.Reset | src/core/SchemaRenderer/SchemaStore.ts:30 | the map is empty afterwards, so a second reset changes nothing |
| SchemaStore.InitThenSet | src/core/SchemaRenderer/SchemaStore.ts:20-28 | `initValues({a:1})` then `setValue("b", 2)` gives exactly `{a:1, b:2}` |
| SchemaStore.ResetForgets | src/core/SchemaRenderer/SchemaStore.ts:20-30 | the last write wins, and a reset forgets it |
| JsValues.Lookup | src/core/SchemaRenderer/index.tsx:159 | `values[key]` is the own entry when present, otherwise `undefined` unless the key names an `Object.prototype` member |
| JsValues.IndexEntries | src/core/SchemaRenderer/index.tsx:358 | `Object.entries` of an array keys each element by its decimal index and has no other keys |
| SchemaRenderer.ResolveHidden | src/core/SchemaRenderer/index.tsx:52-77 | `resolveHidden` as written; what it means is stated by `CompiledVisibilityAgrees` and the lemmas below it |
| SchemaRenderer.ResolveExpression | src/core/SchemaRenderer/index.tsx:61-76 | the trimmed-expression part of `resolveHidden`; stated by `CompiledExpressionAgrees`, `NegatedExpression` and `PositiveExpression` |
| SchemaRenderer.CompiledVisibilityAgrees | src/core/SchemaRenderer/index.tsx:52-77 | reading a `hidden` expression once into the three-way grammar (fixed, hide unless set, hide when set) agrees with `resolveHidden` on every store |
| SchemaRenderer.CompiledExpressionAgrees | src/core/SchemaRenderer/index.tsx:61-76 | the same agreement for a trimmed expression string |
| SchemaRenderer.HiddenLiterals | src/core/SchemaRenderer/index.tsx:52-64 | a boolean is taken as it is; a value that is neither boolean nor string, or a blank string, leaves the node visible |
| SchemaRenderer.NegatedKey | src/core/SchemaRenderer/index.tsx:66-69 | `!$key` hides exactly when the key's value is falsy |
| SchemaRenderer.NegatedExpression | src/core/SchemaRenderer/index.tsx:66-69 | the trimmed form of the same rule, which applies before any `$` test |
| SchemaRenderer.PositiveKey | src/core/SchemaRenderer/index.tsx:71-74 | `$key` hides exactly when the key's value is truthy |
| SchemaRenderer.PositiveExpression | src/core/SchemaRenderer/index.tsx:71-74 | the trimmed form of the same rule |
| SchemaRenderer.HiddenOfTrimmed | src/core/SchemaRenderer/index.tsx:61-64 | an expression that starts with `!` or `$` and ends in a non-space is read untrimmed |
| SchemaRenderer.OtherStringVisible | src/core/SchemaRenderer/index.tsx:76 | any other non-blank string leaves the node visible, whatever the store holds |
| SchemaRenderer.SurroundingSpaceIgnored | src/core/SchemaRenderer/index.tsx:61 | white space around an expression does not change the outcome |
| SchemaRenderer.StoreValue | src/core/SchemaRenderer/index.tsx:159 | `node.id ? values[node.id] : undefined`; read back after a write by `ChangeReadsBack` |
| SchemaRenderer.ResolveTextValue | src/core/SchemaRenderer/index.tsx:79-90 | `resolveTextValue` as written; stated as a `??` chain by `TextValueOrder` |
| SchemaRenderer.FieldValue | src/core/SchemaRenderer/index.tsx:211-214 | the value of an input, select or segmented control; stated as a `??` chain by `ValueChains` |
| SchemaRenderer.ToggleChecked | src/core/SchemaRenderer/index.tsx:226-229 | the toggle's checked state; stated by `ValueChains` and `ToggleScenario` |
| SchemaRenderer.SliderSource | src/core/SchemaRenderer/index.tsx:241-244 | the value the slider hands to `Number(...)`; stated by `ValueChains` |
| SchemaRenderer.LogValue | src/core/SchemaRenderer/index.tsx:316-319 | the log viewer's value; stated by `ValueChains` and `LogViewerPrefersValue` |
| SchemaRenderer.FirstPresent | src/core/SchemaRenderer/index.tsx:211-214 | a `??` chain yields one of its candidates or the fallback |
| SchemaRenderer.FirstPresentIsFirst | src/core/SchemaRenderer/index.tsx:211-214 | the chain yields its first candidate that is neither undefined nor null, and the fallback only when there is none |
| SchemaRenderer.ValueChains | src/core/SchemaRenderer/index.tsx:211-319 | a defined store value wins (as its string); otherwise input, select and segmented control try `defaultValue` then `value` then `''`; toggle tries `defaultChecked` then `checked` then false; slider tries `defaultValue` then `value` then 0; log viewer tries `value` then `defaultValue` |
| SchemaRenderer.LogViewerPrefersValue | src/core/SchemaRenderer/index.tsx:211-319 | with both props set, input shows `defaultValue` while log viewer shows `value` |
| SchemaRenderer.NullStoreValue | src/core/SchemaRenderer/index.tsx:79-319 | a stored `null` shows as "null" in inputs and log viewers and as unchecked in toggles, but lets text resolution fall through to the label |
| SchemaRenderer.TextValueOrder | src/core/SchemaRenderer/index.tsx:79-90 | text resolution is the `??` chain of `FirstPresent` over the stored value, the label and `props.text`, where the label and the text take part only when they are strings, ending in `''`; so by `FirstPresentIsFirst` the first of them that is present wins |
| SchemaRenderer.ChangeTouchesOnlyOwnKey | src/core/SchemaRenderer/index.tsx:160-163 | a node without a truthy id leaves the store as it is; one with an id writes the new value under its own key and no other |
| SchemaRenderer.ChangeReadsBack | src/core/SchemaRenderer/index.tsx:159-229 | what a control writes is what it reads back on the next render |
| SchemaRenderer.HandleChange | src/core/SchemaRenderer/index.tsx:160-167 | updates the shared store as the change rule says, and reports whether a function-valued `props.onChange` was also called |
| SchemaRenderer.RootClassName | src/core/SchemaRenderer/index.tsx:403-408 | the root's class list; spelled out by `RootClassNameSpelledOut` and `PlainRootClass` |
| SchemaRenderer.Hint | src/core/SchemaRenderer/index.tsx:404-406 | a hint's class is empty exactly when the meta hint is falsy |
| SchemaRenderer.RootClassNameSpelledOut | src/core/SchemaRenderer/index.tsx:403-408 | the root's class is `atlas-schema-root` followed by one space-separated class per set hint, in the order density, tone, scrollbar |
| SchemaRenderer.PlainRootClass | src/core/SchemaRenderer/index.tsx:403-408 | without meta the root has only its base class |
| SchemaRenderer.RenderSchema | src/core/SchemaRenderer/index.tsx:410-428 | an empty node list renders nothing; otherwise the root holds one rendered view per node, in order |
| SchemaRenderer.Render | src/core/SchemaRenderer/index.tsx:154-157 | a node: a fault for null or undefined, nothing when hidden, else its component; stated by `HiddenRendersNothing`, `VisibleObject`, `NullNodeFaults` |
| SchemaRenderer.Component | src/core/SchemaRenderer/index.tsx:169-342 | the `switch` on the node type; its arms are stated by the scenario lemmas below and `OtherKindIffUnknown` |
| SchemaRenderer.PollerView | src/core/SchemaRenderer/index.tsx:331-337 | the poller arm; stated by `PollerNodeFields` |
| SchemaRenderer.Nested | src/core/SchemaRenderer/index.tsx:173 | the children of a container or modal, rendered through a nested `SchemaRenderer` |
| SchemaRenderer.Group | src/core/SchemaRenderer/index.tsx:189-199 | the children of a group, `children?.map(...)`, which throws on anything but an array, undefined and null |
| SchemaRenderer.HiddenRendersNothing | src/core/SchemaRenderer/index.tsx:155-157 | a hidden node renders nothing, and its children are never looked at |
| SchemaRenderer.OtherKindIffUnknown | src/core/SchemaRenderer/index.tsx:169-340 | the `switch` selects a component for exactly the thirteen known type names; any other value, string or not, reaches the default case |
| SchemaRenderer.UnknownTypeMarker | src/core/SchemaRenderer/index.tsx:340-341 | a visible node of an unrecognised type that React can print (no object, no array holding one) renders the inline marker carrying that type, and does not throw |
| SchemaRenderer.ObjectTypeFaults | src/core/SchemaRenderer/index.tsx:340-341 | a visible node whose `type` is an object, or an array holding one, reaches the default case and throws there, because React refuses an object as a child |
| SchemaRenderer.EmptyObjectTypeScenario | src/core/SchemaRenderer/index.tsx:340-341 | `{"type": {}}` throws rather than showing a marker |
| SchemaRenderer.BogusTypeScenario | src/core/SchemaRenderer/index.tsx:340-341 | `{"type": "bogus"}` shows `未知组件类型：bogus` |
| SchemaRenderer.LabelNodeShowsText | src/core/SchemaRenderer/index.tsx:290-302 | a visible label shows its resolved text |
| SchemaRenderer.LabelHiddenUntilSet | src/core/SchemaRenderer/index.tsx:66-302 | a label hidden by `!$key` shows nothing until the key's value is truthy, then shows its caption |
| SchemaRenderer.ToggleScenario | src/core/SchemaRenderer/index.tsx:160-234 | toggle `t1` reads unchecked from an empty store and checked once its change to true is written |
| SchemaRenderer.PollerNodeFields | src/core/SchemaRenderer/index.tsx:331-337 | a poller without an endpoint renders nothing; a zero interval falls back to 1000 |
| SchemaRenderer.NullNodeFaults | src/core/SchemaRenderer/index.tsx:155 | a null or undefined node throws when its `hidden` is read |
| SchemaActions.Merged | src/core/SchemaRenderer/index.tsx:352-363 | `mergeResponseData` on the store; stated by `MergeSemantics` and computed by `MergeResponseData` |
| SchemaActions.MergeSemantics | src/core/SchemaRenderer/index.tsx:352-363 | a falsy or non-object payload changes nothing; otherwise every own entry is written and every other key keeps its value |
| SchemaActions.MergeIdempotent | src/core/SchemaRenderer/index.tsx:352-363 | merging the same payload twice is merging it once |
| SchemaActions.ScalarsNotMerged | src/core/SchemaRenderer/index.tsx:354-356 | null, strings, numbers, booleans and functions are not merged |
| SchemaActions.ArrayMergedByIndex | src/core/SchemaRenderer/index.tsx:358-360 | an array payload writes its elements under "0", "1", ... |
| SchemaActions.MergeResponseData | src/core/SchemaRenderer/index.tsx:352-363 | the store after the loop of `setValue` calls is the merged map |
| SchemaActions.WriteEach | src/core/SchemaRenderer/index.tsx:358-360 | writing each entry once, in any order, gives the old map overridden by the entries |
| SchemaActions.ResponsePayload | src/core/SchemaRenderer/index.tsx:382 | `response.data ?? response`; stated by `WholeBodyMerged` and `DataFieldMerged` |
| SchemaActions.WholeBodyMerged | src/core/SchemaRenderer/index.tsx:382 | a response without `data` is merged whole, so its `success` and `message` land in the store |
| SchemaActions.DataFieldMerged | src/core/SchemaRenderer/index.tsx:382 | an object `data` field is merged alone, and the rest of the body stays out of the store |
| SchemaActions.HandleActionPlan | src/core/SchemaRenderer/index.tsx:365-389 | what `handleAction` does with each outcome; stated by the lemmas that follow and carried out by `HandleAction` |
| SchemaActions.NoContextNoRequest | src/core/SchemaRenderer/index.tsx:367-370 | without a module context: no request, one error toast, nothing merged |
| SchemaActions.ContextPostsValues | src/core/SchemaRenderer/index.tsx:373 | with a context the current values are posted to `/api/<action>` |
| SchemaActions.SuccessFalseNotMerged | src/core/SchemaRenderer/index.tsx:374-377 | `success: false` shows an error toast with `error` or `操作失败`, and merges nothing |
| SchemaActions.ThrownNotMerged | src/core/SchemaRenderer/index.tsx:383-386 | a call that throws shows the error toast `操作失败：<message>` and merges nothing |
| SchemaActions.ResponseMerged | src/core/SchemaRenderer/index.tsx:379-382 | any other response is merged (`data ?? response`), with a success toast exactly when it carries a truthy `message` |
| SchemaActions.UndefinedResponseIgnored | src/core/SchemaRenderer/index.tsx:374-382 | an undefined response shows nothing and leaves the store as it is |
| SchemaActions.HandleAction | src/core/SchemaRenderer/index.tsx:365-389 | posts, toasts and merges as the action plan says, against the shared store and toast list |
| SchemaActions.HandlePollPlan | src/core/SchemaRenderer/index.tsx:391-401 | what `handlePoll` does with each outcome; stated by `PollMergesEveryResponse` |
| SchemaActions.PollMergesEveryResponse | src/core/SchemaRenderer/index.tsx:391-401 | a poll never shows a toast; it requests nothing without a context and merges `data ?? response` of every response |
| SchemaActions.SafeInterval | src/core/SchemaRenderer/index.tsx:121 | the period is the larger of 1200 and the interval |
| SchemaActions.PollPeriodDefaults | src/core/SchemaRenderer/index.tsx:121-333 | the default interval of 1000 is raised to 1200; a longer interval is kept |
| SchemaActions.Poller.constructor | src/core/SchemaRenderer/index.tsx:117-140 | mounting with an endpoint starts the first poll at once; without one nothing ever runs |
| SchemaActions.Poller.Tick | src/core/SchemaRenderer/index.tsx:125-143 | a tick starts a poll exactly when none is in flight and the node is still mounted; at most one poll is ever in flight |
| SchemaActions.Poller.Settle | src/core/SchemaRenderer/index.tsx:130-138 | a poll always clears the in-flight flag, swallows errors, and merges its response even after unmount |
| SchemaActions.Poller.Dispose | src/core/SchemaRenderer/index.tsx:145-148 | unmounting sets the disposed flag and changes nothing else |
| SchemaActions.TicksAfterDispose | src/core/SchemaRenderer/index.tsx:125-148 | after unmount no tick starts a poll, however many follow |
| SchemaActions.ButtonClick | src/core/SchemaRenderer/index.tsx:94-101 | the three ways `handleClick` can go; stated by `PropsFunctionCallCondition` |
| SchemaActions.PropsFunctionCallCondition | src/core/SchemaRenderer/index.tsx:94-101 | a function-valued `props.onClick` is called only when `node.onClick` is present but falsy; with `node.onClick` absent the function itself is dispatched as the action |
| SchemaActions.ActionButton.Click | src/core/SchemaRenderer/index.tsx:96-110 | an action sets the loading flag and is dispatched; otherwise the props function is called once or nothing happens |
| SchemaActions.ActionButton.Finish | src/core/SchemaRenderer/index.tsx:104-109 | `finally` clears the loading flag whether the action succeeded or threw |
| SchemaActions.NodeButtonProps | src/core/SchemaRenderer/index.tsx:112 | the props the node's `Button` receives: `node.props` spread with `isLoading` set to the loading flag |
| SchemaActions.LoadingDisables | src/core/SchemaRenderer/index.tsx:112 | while the action is in flight the button is disabled whatever the node's props say; when idle it is disabled exactly when `props.disabled` is truthy |
| SchemaActions.Tap | src/core/SchemaRenderer/index.tsx:96-112 | a tap goes through the button's guard first: on a disabled or loading button nothing happens; with confirmation it only opens the dialog; otherwise `handleClick` runs once, and the button re-renders with the new loading flag |
| SchemaActions.Confirm | src/core/SchemaRenderer/index.tsx:96-112 | confirming runs `handleClick` once, whether or not the button is loading by then, and closes the dialog |
| SchemaActions.Settled | src/core/SchemaRenderer/index.tsx:104-112 | when the action settles the loading flag clears and the button re-renders, nothing else changes |
| SchemaActions.DoubleTap | src/core/SchemaRenderer/index.tsx:93-112 | a second tap before the action settles dispatches nothing and calls no `onClick`, because the node's own loading flag disables its button; after it settles a tap dispatches again |
| Toasts.Without | src/contexts/ToastContext.tsx:26-28 | a toast survives removal exactly when its id differs, and the list never grows |
| Toasts.WithoutAppend | src/contexts/ToastContext.tsx:27 | filtering distributes over concatenation, so the kept toasts stay in their order |
| Toasts.WithoutAbsent | src/contexts/ToastContext.tsx:27 | removing an id no toast carries leaves the list unchanged |
| Toasts.WithoutIdempotent | src/contexts/ToastContext.tsx:27 | removing twice is removing once |
| Toasts.WithoutKeepsOthers | src/contexts/ToastContext.tsx:27 | every toast with another id is kept |
| Toasts.ToastList.constructor | src/contexts/ToastContext.tsx:23 | the list starts empty |
| Toasts.ToastList.ShowToast | src/contexts/ToastContext.tsx:32-38 | exactly one toast is appended at the end; the earlier ones are unchanged |
| Toasts.ToastList.RemoveToast | src/contexts/ToastContext.tsx:26-28 | the list becomes the filtered list |
| Toasts.NewToast | src/contexts/ToastContext.tsx:32-35 | the toast `showToast` builds; stated by `NewToastDefaults` and `NewToastKeepsOptions` |
| Toasts.NewToastDefaults | src/contexts/ToastContext.tsx:32-35 | a toast without type or duration is an info toast shown for 3000 ms |
| Toasts.NewToastKeepsOptions | src/contexts/ToastContext.tsx:32-35 | a given type and duration are kept |
| Toasts.ShowThenRemove | src/contexts/ToastContext.tsx:26-38 | showing a toast with a fresh id and then removing that id restores the list |
| Toasts.DismissFirst | src/contexts/ToastContext.tsx:26-38 | showing two toasts and dismissing the first leaves only the second |
| ButtonMachine.WithDefaults | src/components/ui/Button/Button.tsx:49-64 | the destructuring defaults, each replacing `undefined` only; stated by `Defaults` and `DefaultsKeepGiven` |
| ButtonMachine.Defaults | src/components/ui/Button/Button.tsx:52-64 | without props: primary, medium, enabled, no confirmation, dialog texts 确认操作 / 确定要执行此操作吗？ / 确认 / 取消 |
| ButtonMachine.DefaultsKeepGiven | src/components/ui/Button/Button.tsx:52-64 | the defaults replace only left-out props, so applying them twice changes nothing |
| ButtonMachine.Button.constructor | src/components/ui/Button/Button.tsx:49-67 | a new button has its defaults, the dialog closed, and no call made |
| ButtonMachine.Button.Rerender | src/components/ui/Button/Button.tsx:49-67 | new props keep the dialog state |
| ButtonMachine.Button.HandleClick | src/components/ui/Button/Button.tsx:83-94 | a disabled or loading button ignores the click; otherwise it opens the dialog when confirmation is required, and calls `onClick` once when it is not |
| ButtonMachine.Button.HandleConfirm | src/components/ui/Button/Button.tsx:96-99 | confirming closes the dialog and calls `onClick` once, without rechecking the disabled state |
| ButtonMachine.Button.HandleCancel | src/components/ui/Button/Button.tsx:101-103 | cancelling only closes the dialog |
| ButtonMachine.PlainClick | src/components/ui/Button/Button.tsx:89-93 | without confirmation a click calls `onClick` exactly once |
| ButtonMachine.ConfirmedClick | src/components/ui/Button/Button.tsx:89-99 | with confirmation a click only opens the dialog, and confirming calls `onClick` once and closes it |
| ButtonMachine.CancelledClick | src/components/ui/Button/Button.tsx:101-155 | with cancel (button or overlay), `onClick` is never called |
| ButtonMachine.ClicksWhileDisabled | src/components/ui/Button/Button.tsx:83-87 | any number of clicks on a disabled or loading button neither opens the dialog nor calls `onClick` |
| ButtonMachine.ConfirmWhileLoading | src/components/ui/Button/Button.tsx:96-99 | a dialog opened before the button became loading still calls `onClick` when confirmed |
| DecryptedText.NextIndex | src/components/ui/DecryptedText.tsx:100-124 | `getNextIndex` as written; computed by `GetNextIndex`, and its reveal order stated by `StartRevealsInOrder`, `EndRevealsInOrder` and `CenterCoversAll` |
| DecryptedText.GetNextIndex | src/components/ui/DecryptedText.tsx:100-124 | the scan loop computes the reveal-order function |
| DecryptedText.EndRevealsInOrder | src/components/ui/DecryptedText.tsx:105-106 | end mode reveals right to left: after `k <= len` ticks from nothing, exactly the indices `len-k` to `len-1` are revealed |
| DecryptedText.FirstUnrevealed | src/components/ui/DecryptedText.tsx:116-119 | when some index is still hidden, the scan returns one |
| DecryptedText.CenterIsFresh | src/components/ui/DecryptedText.tsx:107-119 | in center mode, while fewer than `len` in-range indices are revealed, the next index is in range and not yet revealed |
| DecryptedText.AllRevealedGivesZero | src/components/ui/DecryptedText.tsx:112-119 | once every index is revealed and the odd candidate misses, the scan falls through to 0 |
| DecryptedText.RevealStep | src/components/ui/DecryptedText.tsx:179-186 | a reveal tick adds at most one index, and none once `len` are revealed |
| DecryptedText.RevealedAfter | src/components/ui/DecryptedText.tsx:179-186 | the indices revealed after `k` ticks; stated by the reveal-order lemmas |
| DecryptedText.CenterRevealsDistinct | src/components/ui/DecryptedText.tsx:107-186 | each of the first `len` center-mode ticks reveals a new in-range index |
| DecryptedText.CenterCoversAll | src/components/ui/DecryptedText.tsx:107-186 | after `len` center-mode ticks from nothing, every index has been revealed exactly once |
| DecryptedText.RevealStopsAtLength | src/components/ui/DecryptedText.tsx:179-186 | further ticks after that change nothing |
| DecryptedText.StartRevealsInOrder | src/components/ui/DecryptedText.tsx:103-186 | start mode reveals left to right: after `k` ticks, exactly the first `k` indices |
| DecryptedText.Distinct | src/components/ui/DecryptedText.tsx:127 | `Array.from(new Set(...))` keeps each character once and loses none |
| DecryptedText.WithoutSpaces | src/components/ui/DecryptedText.tsx:127 | the filter keeps exactly the non-space characters |
| DecryptedText.WithoutSpacesDistinct | src/components/ui/DecryptedText.tsx:127 | filtering keeps the characters distinct |
| DecryptedText.AvailableChars | src/components/ui/DecryptedText.tsx:126-128 | `availableChars`; stated by `OriginalPool` |
| DecryptedText.OriginalPool | src/components/ui/DecryptedText.tsx:126-128 | in original-chars mode the pool is the text's non-space characters, each once |
| DecryptedText.ShuffleRandom | src/components/ui/DecryptedText.tsx:154-162 | the random-charset branch; stated by `RandomShuffleShape` and `EmptyPoolKeepsVisible` |
| DecryptedText.RandomShuffleShape | src/components/ui/DecryptedText.tsx:154-162 | with a non-empty pool the random branch keeps the length, spaces and revealed characters, and draws every other character from the pool |
| DecryptedText.EmptyPoolDropsCharacters | src/components/ui/DecryptedText.tsx:160-162 | with an empty character set the hidden characters vanish: "a b" becomes " " |
| DecryptedText.EmptyPoolKeepsVisible | src/components/ui/DecryptedText.tsx:154-162 | for every text, with an empty character set the result is the spaces and revealed characters in their order, shorter than the text by the number of hidden positions |
| DecryptedText.HiddenHasNoSpaces | src/components/ui/DecryptedText.tsx:139 | the characters the original branch shuffles are those at unrevealed non-space positions, so none of them is a space |
| DecryptedText.FisherYates | src/components/ui/DecryptedText.tsx:141-144 | the swap loop permutes the array |
| DecryptedText.Deal | src/components/ui/DecryptedText.tsx:146-153 | the running `charIndex` deals the shuffled characters into the hidden positions in order, keeping spaces and revealed characters |
| DecryptedText.ShuffleOriginal | src/components/ui/DecryptedText.tsx:131-153 | the original-chars branch keeps the length, spaces and revealed characters, and the hidden positions hold a permutation of the original hidden characters |
| DecryptedText.ShuffleText | src/components/ui/DecryptedText.tsx:130-164 | with the original characters or a non-empty character set, both branches keep the length, spaces and revealed characters; the random branch draws from the character set and the original branch permutes; with an empty character set it keeps only the spaces and revealed characters |
| TextBlock.AutoVariant | src/components/ui/TextBlock/TextBlock.tsx:14-17 | `autoVariant`; stated by `CompactIsParagraph`, `PaddingIgnored` and `SurrogatePairsCountTwice` |
| TextBlock.ResolvedVariant | src/components/ui/TextBlock/TextBlock.tsx:26 | `variant ?? autoVariant(text)`; stated by `ExplicitVariantWins` |
| TextBlock.ClassName | src/components/ui/TextBlock/TextBlock.tsx:30 | the trimmed class string; spelled out by `ClassWithoutClassName` and `ClassWithClassName` |
| TextBlock.Render | src/components/ui/TextBlock/TextBlock.tsx:19-39 | what the block renders; stated by `ExplicitVariantWins` and `AlignDefaultsLeft` |
| TextBlock.CompactIsParagraph | src/components/ui/TextBlock/TextBlock.tsx:14-17 | a text that is white space, a core with no white space at either end, and white space again is a `paragraph` exactly when the core has at most 24 UTF-16 code units and a `hint` exactly when it has more; for a core inside the Basic Multilingual Plane that is at most 24 characters |
| TextBlock.SurrogatePairsCountTwice | src/components/ui/TextBlock/TextBlock.tsx:15 | thirteen emoji, 26 code units, make a `hint` |
| TextBlock.PaddingIgnored | src/components/ui/TextBlock/TextBlock.tsx:15 | leading and trailing white space never changes the automatic variant |
| TextBlock.PaddingIgnoredByTrim | src/components/ui/TextBlock/TextBlock.tsx:15 | trimming ignores white-space padding on both sides |
| TextBlock.ExplicitVariantWins | src/components/ui/TextBlock/TextBlock.tsx:26-30 | a given variant fixes the class string whatever the text, and without a class name it is `atlas-text-block atlas-text-<variant>`; `null` renders as `undefined` does |
| TextBlock.AutoVariantEndsInLetter | src/components/ui/TextBlock/TextBlock.tsx:14-17 | the automatic variant ends in a letter, so the class trim never cuts into it |
| TextBlock.ClassWithoutClassName | src/components/ui/TextBlock/TextBlock.tsx:24-30 | with no (or an empty) class name, the class is `atlas-text-block atlas-text-<variant>` with no trailing space |
| TextBlock.ClassWithClassName | src/components/ui/TextBlock/TextBlock.tsx:30 | with a class name, it follows the variant class after one space |
| TextBlock.AlignDefaultsLeft | src/components/ui/TextBlock/TextBlock.tsx:22-34 | the block shows its text untrimmed, aligned `left` unless an alignment is given, which is then kept |
| LogViewer.Shown | src/components/ui/LogViewer/LogViewer.tsx:16-28 | the text shown; stated by `EmptyShowsPlaceholder` and `NonEmptyShownVerbatim` |
| LogViewer.MinHeight | src/components/ui/LogViewer/LogViewer.tsx:18-43 | the panel's minimum height; stated by `MinHeightBounds` |
| LogViewer.ClassName | src/components/ui/LogViewer/LogViewer.tsx:21-38 | the trimmed class string; spelled out by `ClassWithoutClassName` and `ClassWithClassName` |
| LogViewer.EmptyShowsPlaceholder | src/components/ui/LogViewer/LogViewer.tsx:16-28 | an empty, null or missing value shows the placeholder, by default `暂无日志输出` |
| LogViewer.NonEmptyShownVerbatim | src/components/ui/LogViewer/LogViewer.tsx:25-28 | a non-empty value is shown verbatim; a value of only white space is not replaced |
| LogViewer.MinHeightBounds | src/components/ui/LogViewer/LogViewer.tsx:18-43 | the minimum height is `max(4, rows) * 20`, so at least 80; it is 200 for the default of 10 rows |
| LogViewer.ClassWithoutClassName | src/components/ui/LogViewer/LogViewer.tsx:21-38 | without a class name the class is `atlas-log-viewer` with no trailing space |
| LogViewer.ClassWithClassName | src/components/ui/LogViewer/LogViewer.tsx:38 | a class name follows after one space |
| ProcessManager.NormalizeHealthPath | src-tauri/src/core/process_manager.rs:138-149 | `normalize_health_path`; stated by the lemmas that follow |
| ProcessManager.NormalizedStartsWithSlash | src-tauri/src/core/process_manager.rs:138-149 | the health path always starts with `/` |
| ProcessManager.BlankIsDefault | src-tauri/src/core/process_manager.rs:139-142 | a missing or blank path becomes `/health` |
| ProcessManager.SlashPathUnchanged | src-tauri/src/core/process_manager.rs:144-145 | a trimmed path that starts with `/` is kept as it is |
| ProcessManager.MissingSlashAdded | src-tauri/src/core/process_manager.rs:146-147 | a trimmed path without a leading slash gets one |
| ProcessManager.NormalizeIdempotent | src-tauri/src/core/process_manager.rs:138-149 | normalising twice is normalising once |
| ProcessManager.ToLowerAscii | src-tauri/src/core/process_manager.rs:64 | lowercasing keeps the length, leaves no capital `A`-`Z`, and leaves every other character as it is |
| ProcessManager.SelectProgram | src-tauri/src/core/process_manager.rs:64-70 | the program is python, node or java; it is an error exactly when the lowercased language is none of python, node, javascript, java, and the error names that lowercased language |
| ProcessManager.SelectIgnoresCase | src-tauri/src/core/process_manager.rs:64 | the choice depends only on the lowercased language |
| ProcessManager.MixedCasePython | src-tauri/src/core/process_manager.rs:64-66 | `Python` runs `python` |
| ProcessManager.JavaScriptRunsNode | src-tauri/src/core/process_manager.rs:67 | both `JavaScript` and `node` run `node` |
| ProcessManager.UnsupportedNamed | src-tauri/src/core/process_manager.rs:69 | `Go` is refused with `不支持的后端语言: go` |
| ProcessManager.FinalArgs | src-tauri/src/core/process_manager.rs:72-80 | the entry point comes first, followed by one argument per manifest argument |
| ProcessManager.ArgsTemplated | src-tauri/src/core/process_manager.rs:72-80 | no templated argument still contains `{PORT}`, and an argument without the placeholder is kept as it is |
| ProcessManager.PortArgExample | src-tauri/src/core/process_manager.rs:76-80 | entry point `main.py` with the argument `{PORT}` on port 8080 gives the arguments `main.py 8080` |
| ProcessManager.HealthResponseOk | src-tauri/src/core/process_manager.rs:166-192 | `check_health_endpoint` on the probe's outcome; stated by `StatusLineExamples` |
| ProcessManager.StatusLineExamples | src-tauri/src/core/process_manager.rs:191 | only responses starting with `HTTP/1.1 2` or `HTTP/1.0 2` count as healthy |
| ProcessManager.WaitForHealthResult | src-tauri/src/core/process_manager.rs:151-164 | the outcome of the retry loop; computed by `WaitForHealth` |
| ProcessManager.WaitForHealth | src-tauri/src/core/process_manager.rs:151-164 | success comes at the first healthy attempt; there are at most 20 attempts, and failure means all 20 were made |
| ProcessManager.StartModuleSpec | src-tauri/src/core/process_manager.rs:35-118 | `start_module` as a function of the table and the outcomes; stated by the lemmas that follow and carried out by `ProcessTable.StartModule` |
| ProcessManager.DisabledTouchesNothing | src-tauri/src/core/process_manager.rs:41-43 | a disabled backend is refused before the table is read or changed |
| ProcessManager.RunningEntryReused | src-tauri/src/core/process_manager.rs:45-52 | a running entry returns its stored pid and port; the requested port is ignored and nothing is spawned |
| ProcessManager.StartChangesOnlyOwnEntry | src-tauri/src/core/process_manager.rs:45-111 | other modules' entries never change; an entry is kept while running or unreadable, and an exited or absent one is replaced on success and gone on failure |
| ProcessManager.LaunchInserts | src-tauri/src/core/process_manager.rs:98-117 | a successful launch maps the module to the new pid with the requested port |
| ProcessManager.HealthFailureKills | src-tauri/src/core/process_manager.rs:103-108 | a failed health check kills the child, inserts nothing, and names the module in the error |
| ProcessManager.SpawnedCommand | src-tauri/src/core/process_manager.rs:87-89 | the spawned command runs the chosen program on the templated arguments in the module directory |
| ProcessManager.ProcessTable.constructor | src-tauri/src/core/process_manager.rs:25-29 | the table starts empty |
| ProcessManager.ProcessTable.StartModule | src-tauri/src/core/process_manager.rs:35-118 | the result, the new table, and the spawn and kill actions are those of the start specification |
| ProcessManager.StopResult | src-tauri/src/core/process_manager.rs:121-131 | `stop_module` as a function of the table and the kill result; carried out by `ProcessTable.StopModule` |
| ProcessManager.ProcessTable.StopModule | src-tauri/src/core/process_manager.rs:121-131 | the entry is removed whether or not the kill succeeds; an unknown id is an error and leaves the table unchanged |
| ProcessManager.StartTwiceThenStop | src-tauri/src/core/process_manager.rs:35-131 | a second start of a running module returns the first pid and port, and stopping it leaves the table empty |
| Text.DecimalRoundTrip | src-tauri/src/core/process_manager.rs:76 | the decimal form of a port reads back as the same number |
| Text.ReplaceLeavesNone | src-tauri/src/core/process_manager.rs:76 | replacing a pattern with text that shares no character with it leaves no occurrence of the pattern |
| Text.Utf16Length | src/components/ui/TextBlock/TextBlock.tsx:15 | JavaScript's `length`: between the number of characters and twice that, two units for each character outside the Basic Multilingual Plane |
| Text.Trim | src/components/ui/TextBlock/TextBlock.tsx:15 | a trimmed string neither starts nor ends with white space |

## Left out

- JSON5 tokenising and parsing: `parseSchema` takes the parser's result (a value or an error message) as its input.
- React rendering, the DOM, CSS and props spreading. A node renders to a `View` value that records what it shows; a text block or log viewer child is recorded by the props it receives, as a React element is, and `TextBlock.Render` and `LogViewer.Shown` give what those components then show; the button and dialog widgets are not modelled beyond the confirm-dialog state machine.
- Timers and scheduling: `setInterval` and its clearing are the poller's `Tick` and `Dispose`. The button's 300 ms close animation is not modelled. The scrambling text's per-tick iteration counter is not modelled either, beyond the reveal order it produces.
- JSON numbers are integers in `JsValue` throughout, so fractions (`String(1.5)`) and exponent forms (`1e+21`) are not represented.
- `Number(...)` coercion and floating point: the slider's source value, the log viewer's `rows` and the poller's interval are kept as raw values, and the period takes an integer milliseconds interval. `NaN` is not modelled.
- `Math.random` and `Date.now`: draws come from an oracle, with each `Math.floor(Math.random() * n)` modelled as `rolls(k) % n`. The toast id is supplied by the caller.
- The API client, the module context and the network: an action's or a poll's outcome is a parameter (a response value or a thrown error). The timing of `await` is not modelled.
- Child processes, the module directory, TCP and `thread::sleep`: the child's liveness, whether the directory exists, the spawn result, the kill result and each health probe's response are parameters. The text of the health request is not modelled.
- ProcessManager.ProcessTable.StartModule: the `Mutex` and lock poisoning (`map_err` on `lock()`) are not modelled; the table is accessed sequentially. The `println!` log line is omitted.
- ProcessManager.SpawnedCommand: the module directory is a given path, so its `{:?}` formatting in the error message is not spelled out; the Windows `creation_flags` are omitted.
- ProcessManager.ToLowerAscii: only ASCII letters are lowercased, while Rust's `to_lowercase` also maps non-ASCII letters.
- The manifest carries exactly the fields this file reads (`enabled`, `language`, `entrypoint`, `args`, `health_check`), though `src-tauri/src/models/manifest.rs` does not declare `enabled`, `args` or `health_check`.
- DecryptedText.RandomShuffleShape: it requires a non-empty pool, because with an empty character set the source drops the hidden characters (see `EmptyPoolDropsCharacters`).
- DecryptedText: lengths and indices count characters, while JavaScript counts UTF-16 code units, so a text with characters outside the Basic Multilingual Plane is not modelled faithfully there. The text block does count UTF-16 code units (`Utf16Length`).
- The `useToast` hook's error when it is used outside its provider is not modelled; toasts are reached through the list object.
- Functions are values of their own kind (`Func`): their `String(...)` form (the source text) is not spelled out, and calling a callback is counted instead of run.
- The unknown-type marker's text is spelled out for string and integer types only; how React prints other printable values is not modelled. An object type, or an array holding one, throws and is modelled as `Fault` (`ObjectTypeFaults`).
- The `LogViewer` auto-scroll effect and the `label` row of the log viewer are omitted; they only position or decorate the text.
- SchemaActions.Tap: React's re-render after `setLoading` is modelled as an explicit `Rerender` of the button that `Tap` and `Settled` perform; the order of state updates inside one event is not modelled.
