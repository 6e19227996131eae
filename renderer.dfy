/**
 * The schema renderer's decision logic: whether a node is hidden, which
 * value each control shows, what a change writes to the store, and the
 * tree of views a node list turns into. Nodes are raw parsed values; a
 * field a node lacks reads as `undefined`, exactly as property access does.
 */
module SchemaRenderer {
  import opened Wrappers
  import opened Text
  import opened JsValues
  import SchemaStore
  import TextBlock
  import LogViewer

  type Values = map<string, JsValue>

  /** `node.props?.key`. */
  function Prop(node: JsValue, key: string): JsValue {
    Get(Get(node, "props"), key)
  }

  // ------------------------------------------------------------------ visibility

  /**
   * `resolveHidden`: a boolean is taken as it is; a string is trimmed and
   * read as `!$key` (hidden when the key's value is falsy) or `$key` (hidden
   * when it is truthy), the `!$` form being tried first; anything else shows.
   */
  function ResolveHidden(hidden: JsValue, values: Values): bool {
    match hidden
    case Bool(b) => b
    case Str(s) => ResolveExpression(TrimJs(s), values)
    case _ => false
  }

  /** A trimmed visibility expression. */
  function ResolveExpression(e: string, values: Values): bool {
    if e == "" then false
    else if StartsWith(e, "!$") then !Truthy(Lookup(values, e[2..]))
    else if StartsWith(e, "$") then Truthy(Lookup(values, e[1..]))
    else false
  }

  /** The visibility expression as a closed grammar, read once from the schema text. */
  datatype Visibility = Fixed(hidden: bool) | HideUnlessSet(key: string) | HideWhenSet(key: string)

  function CompileHidden(hidden: JsValue): Visibility {
    if hidden.Bool? then Fixed(hidden.flag)
    else if !hidden.Str? then Fixed(false)
    else CompileExpression(TrimJs(hidden.text))
  }

  function CompileExpression(e: string): Visibility {
    if |e| >= 2 && e[0] == '!' && e[1] == '$' then HideUnlessSet(e[2..])
    else if |e| >= 1 && e[0] == '$' then HideWhenSet(e[1..])
    else Fixed(false)
  }

  function Hides(v: Visibility, values: Values): bool {
    match v
    case Fixed(h) => h
    case HideUnlessSet(key) => !Truthy(Lookup(values, key))
    case HideWhenSet(key) => Truthy(Lookup(values, key))
  }

  /** Reading the expression once and evaluating it against any store agrees with `resolveHidden`. */
  lemma CompiledVisibilityAgrees(hidden: JsValue, values: Values)
    ensures Hides(CompileHidden(hidden), values) == ResolveHidden(hidden, values)
  {
    if hidden.Str? {
      CompiledExpressionAgrees(TrimJs(hidden.text), values);
    }
  }

  lemma CompiledExpressionAgrees(e: string, values: Values)
    ensures Hides(CompileExpression(e), values) == ResolveExpression(e, values)
  {
    if |e| >= 2 && e[0] == '!' && e[1] == '$' {
      assert e[..2] == "!$";
    } else if |e| >= 1 && e[0] == '$' {
      assert e[..1] == "$";
      assert !StartsWith(e, "!$") by { if |e| >= 2 { assert e[..2][0] == e[0]; } }
    } else if |e| >= 1 {
      assert !StartsWith(e, "!$") by { if |e| >= 2 { assert e[..2][1] == e[1]; assert e[..2][0] == e[0]; } }
      assert !StartsWith(e, "$") by { assert e[..1][0] == e[0]; }
    }
  }

  /** Booleans are taken as they are; values that are neither boolean nor string, and blank strings, show the node. */
  lemma HiddenLiterals(hidden: JsValue, values: Values)
    ensures hidden.Bool? ==> ResolveHidden(hidden, values) == hidden.flag
    ensures !hidden.Bool? && !hidden.Str? ==> !ResolveHidden(hidden, values)
    ensures hidden.Str? && TrimJs(hidden.text) == "" ==> !ResolveHidden(hidden, values)
  {
  }

  /** `!$key` hides exactly when the key's value is falsy. */
  lemma NegatedKey(key: string, values: Values)
    requires key == [] || !IsJsSpace(key[|key| - 1])
    ensures ResolveHidden(Str("!$" + key), values) <==> !Truthy(Lookup(values, key))
  {
    HiddenOfTrimmed("!$" + key, values);
    NegatedExpression(key, values);
  }

  lemma NegatedExpression(key: string, values: Values)
    ensures ResolveExpression("!$" + key, values) == !Truthy(Lookup(values, key))
  {
    var e := "!$" + key;
    assert e[..2] == "!$" && e[2..] == key;
  }

  /** `$key` hides exactly when the key's value is truthy. */
  lemma PositiveKey(key: string, values: Values)
    requires key == [] || !IsJsSpace(key[|key| - 1])
    ensures ResolveHidden(Str("$" + key), values) <==> Truthy(Lookup(values, key))
  {
    HiddenOfTrimmed("$" + key, values);
    PositiveExpression(key, values);
  }

  lemma PositiveExpression(key: string, values: Values)
    ensures ResolveExpression("$" + key, values) == Truthy(Lookup(values, key))
  {
    var e := "$" + key;
    assert e[..1] == "$" && e[1..] == key;
    assert !StartsWith(e, "!$") by { if |e| >= 2 { assert e[..2][0] == '$'; } }
  }

  /** An expression that starts with `!` or `$` and ends in a non-space is read as it is. */
  lemma HiddenOfTrimmed(e: string, values: Values)
    requires |e| > 0 && (e[0] == '!' || e[0] == '$') && !IsJsSpace(e[|e| - 1])
    ensures ResolveHidden(Str(e), values) == ResolveExpression(e, values)
  {
    assert !IsJsSpace(e[0]);
    TrimOfTrimmed(e, IsJsSpace);
  }

  /** Any other non-blank string leaves the node visible, whatever the store holds. */
  lemma OtherStringVisible(s: string, values: Values)
    requires s != [] && s[0] != '!' && s[0] != '$' && !IsJsSpace(s[0]) && !IsJsSpace(s[|s| - 1])
    ensures !ResolveHidden(Str(s), values)
  {
    TrimOfTrimmed(s, IsJsSpace);
  }

  /** White space around the expression is ignored. */
  lemma SurroundingSpaceIgnored(pre: string, s: string, post: string, values: Values)
    requires TextBlock.AllSpace(pre) && TextBlock.AllSpace(post)
    ensures ResolveHidden(Str(pre + s + post), values) == ResolveHidden(Str(s), values)
  {
    TextBlock.PaddingIgnoredByTrim(pre, s, post);
    SameTrimSameHidden(pre + s + post, s, values);
  }

  lemma SameTrimSameHidden(a: string, b: string, values: Values)
    requires TrimJs(a) == TrimJs(b)
    ensures ResolveHidden(Str(a), values) == ResolveHidden(Str(b), values)
  {
    StringHidden(a, values);
    StringHidden(b, values);
  }

  lemma StringHidden(a: string, values: Values)
    ensures ResolveHidden(Str(a), values) == ResolveExpression(TrimJs(a), values)
  {
  }

  // ------------------------------------------------------------------ values

  /** `node.id ? values[node.id] : undefined`; the id is used as a property key, so as its string. */
  function StoreValue(node: JsValue, values: Values): JsValue {
    var id := Get(node, "id");
    if Truthy(id) then Lookup(values, Stringify(id)) else Undefined
  }

  /** `resolveTextValue`: the store value unless undefined or null, then a string label, then a string `props.text`, then ''. */
  function ResolveTextValue(node: JsValue, storeValue: JsValue): string {
    if !Nullish(storeValue) then Stringify(storeValue)
    else if Get(node, "label").Str? then Get(node, "label").text
    else if Prop(node, "text").Str? then Prop(node, "text").text
    else ""
  }

  /** Input, select and segmented control: the store value unless undefined, else `defaultValue ?? value ?? ''`. */
  function FieldValue(node: JsValue, storeValue: JsValue): string {
    if storeValue != Undefined then Stringify(storeValue)
    else Stringify(Coalesce(Coalesce(Prop(node, "defaultValue"), Prop(node, "value")), Str("")))
  }

  /** Toggle: `Boolean(store)` unless undefined, else `Boolean(defaultChecked ?? checked ?? false)`. */
  function ToggleChecked(node: JsValue, storeValue: JsValue): bool {
    if storeValue != Undefined then Truthy(storeValue)
    else Truthy(Coalesce(Coalesce(Prop(node, "defaultChecked"), Prop(node, "checked")), Bool(false)))
  }

  /** Slider: the value handed to `Number(...)`, the store value unless undefined, else `defaultValue ?? value ?? 0`. */
  function SliderSource(node: JsValue, storeValue: JsValue): JsValue {
    if storeValue != Undefined then storeValue
    else Coalesce(Coalesce(Prop(node, "defaultValue"), Prop(node, "value")), Int(0))
  }

  /** Log viewer: the store value unless undefined, else `value ?? defaultValue ?? ''` (props.value first). */
  function LogValue(node: JsValue, storeValue: JsValue): string {
    if storeValue != Undefined then Stringify(storeValue)
    else Stringify(Coalesce(Coalesce(Prop(node, "value"), Prop(node, "defaultValue")), Str("")))
  }

  /** The first candidate that is neither undefined nor null, else the fallback: the reference for every `??` chain. */
  function FirstPresent(candidates: seq<JsValue>, fallback: JsValue): (r: JsValue)
    ensures r == fallback || r in candidates
  {
    if |candidates| == 0 then fallback
    else if !Nullish(candidates[0]) then candidates[0]
    else FirstPresent(candidates[1..], fallback)
  }

  /** The chain yields its first candidate that is neither undefined nor null, and the fallback only when there is none. */
  lemma {:induction false} FirstPresentIsFirst(candidates: seq<JsValue>, fallback: JsValue)
    ensures (forall k :: 0 <= k < |candidates| ==> Nullish(candidates[k])) ==> FirstPresent(candidates, fallback) == fallback
    ensures forall k :: 0 <= k < |candidates| && !Nullish(candidates[k])
                        && (forall j :: 0 <= j < k ==> Nullish(candidates[j]))
                        ==> FirstPresent(candidates, fallback) == candidates[k]
  {
    if forall k :: 0 <= k < |candidates| ==> Nullish(candidates[k]) {
      SkipNullish(candidates, fallback, |candidates|);
      assert candidates[|candidates|..] == [];
    }
    forall k | 0 <= k < |candidates| && !Nullish(candidates[k]) && (forall j :: 0 <= j < k ==> Nullish(candidates[j]))
      ensures FirstPresent(candidates, fallback) == candidates[k]
    {
      SkipNullish(candidates, fallback, k);
      assert candidates[k..][0] == candidates[k];
    }
  }

  /** A prefix of undefined and null candidates is skipped. */
  lemma {:induction false} SkipNullish(candidates: seq<JsValue>, fallback: JsValue, n: nat)
    requires n <= |candidates| && forall j :: 0 <= j < n ==> Nullish(candidates[j])
    ensures FirstPresent(candidates, fallback) == FirstPresent(candidates[n..], fallback)
  {
    if n > 0 {
      var rest := candidates[1..];
      assert Nullish(candidates[0]);
      assert forall j :: 0 <= j < n - 1 ==> rest[j] == candidates[j + 1];
      SkipNullish(rest, fallback, n - 1);
      assert rest[n - 1..] == candidates[n..];
    }
  }

  /** The input chain tries the store (unless undefined), then `defaultValue`, then `value`; the log viewer tries `value` before `defaultValue`. */
  lemma ValueChains(node: JsValue, storeValue: JsValue)
    ensures storeValue != Undefined ==> FieldValue(node, storeValue) == Stringify(storeValue) == LogValue(node, storeValue)
    ensures storeValue == Undefined ==>
      FieldValue(node, storeValue) == Stringify(FirstPresent([Prop(node, "defaultValue"), Prop(node, "value")], Str("")))
    ensures storeValue == Undefined ==>
      LogValue(node, storeValue) == Stringify(FirstPresent([Prop(node, "value"), Prop(node, "defaultValue")], Str("")))
    ensures storeValue == Undefined ==>
      ToggleChecked(node, storeValue) == Truthy(FirstPresent([Prop(node, "defaultChecked"), Prop(node, "checked")], Bool(false)))
    ensures storeValue == Undefined ==>
      SliderSource(node, storeValue) == FirstPresent([Prop(node, "defaultValue"), Prop(node, "value")], Int(0))
  {
    var d, v := Prop(node, "defaultValue"), Prop(node, "value");
    assert [d, v][1..] == [v];
    assert [v, d][1..] == [d];
    var dc, c := Prop(node, "defaultChecked"), Prop(node, "checked");
    assert [dc, c][1..] == [c];
  }

  /** When a node sets both `value` and `defaultValue` differently, the input shows `defaultValue` and the log viewer `value`. */
  lemma LogViewerPrefersValue(node: JsValue, value: string, defaultValue: string)
    requires Prop(node, "value") == Str(value) && Prop(node, "defaultValue") == Str(defaultValue)
    ensures FieldValue(node, Undefined) == defaultValue
    ensures LogValue(node, Undefined) == value
  {
  }

  /** A stored `null` shows as the string "null" in controls, but lets label and text nodes fall through to their label. */
  lemma NullStoreValue(node: JsValue, caption: string)
    requires Get(node, "label") == Str(caption)
    ensures FieldValue(node, Null) == "null" && LogValue(node, Null) == "null"
    ensures !ToggleChecked(node, Null)
    ensures ResolveTextValue(node, Null) == caption
  {
  }

  /** A text candidate: a string as it is; anything else is passed over like a missing value. */
  function StringOnly(v: JsValue): JsValue {
    if v.Str? then v else Undefined
  }

  /**
   * Text resolution is a `??` chain over the stored value, the label and
   * `props.text`, where the label and the text count only when they are strings.
   */
  lemma TextValueOrder(node: JsValue, storeValue: JsValue)
    ensures ResolveTextValue(node, storeValue)
            == Stringify(FirstPresent([storeValue, StringOnly(Get(node, "label")), StringOnly(Prop(node, "text"))], Str("")))
  {
    var c := [storeValue, StringOnly(Get(node, "label")), StringOnly(Prop(node, "text"))];
    assert c[1..] == [c[1], c[2]];
    assert c[1..][1..] == [c[2]];
    assert c[1..][1..][1..] == [];
    if Nullish(storeValue) {
      assert FirstPresent(c, Str("")) == FirstPresent([c[1], c[2]], Str(""));
      if !Get(node, "label").Str? {
        assert FirstPresent([c[1], c[2]], Str("")) == FirstPresent([c[2]], Str(""));
        if !Prop(node, "text").Str? {
          assert FirstPresent([c[2]], Str("")) == FirstPresent([], Str(""));
        }
      }
    }
  }

  // ------------------------------------------------------------------ changes

  /** The store key `handleChange` writes: the node's id, only when it is truthy. */
  function ChangeKey(node: JsValue): Option<string> {
    var id := Get(node, "id");
    if Truthy(id) then Some(Stringify(id)) else None
  }

  /** The store after a control reports `next`. */
  function AfterChange(values: Values, node: JsValue, next: JsValue): Values {
    match ChangeKey(node)
    case Some(k) => values[k := next]
    case None => values
  }

  /** Whether `handleChange` also calls a function-valued `props.onChange`. */
  predicate CallsOnChange(node: JsValue) {
    Prop(node, "onChange").Func?
  }

  /** A node without a (truthy) id never touches the store; one with an id writes exactly its own key. */
  lemma ChangeTouchesOnlyOwnKey(values: Values, node: JsValue, next: JsValue)
    ensures !Truthy(Get(node, "id")) ==> AfterChange(values, node, next) == values
    ensures Truthy(Get(node, "id")) ==>
      var k := Stringify(Get(node, "id"));
      && k in AfterChange(values, node, next) && AfterChange(values, node, next)[k] == next
      && forall other :: other != k && other in values ==> other in AfterChange(values, node, next) && AfterChange(values, node, next)[other] == values[other]
  {
  }

  /** What a control writes is what it reads back: after typing `s` into an input with an id, the input shows `s`. */
  lemma ChangeReadsBack(values: Values, node: JsValue, s: string)
    requires Truthy(Get(node, "id"))
    ensures StoreValue(node, AfterChange(values, node, Str(s))) == Str(s)
    ensures FieldValue(node, StoreValue(node, AfterChange(values, node, Str(s)))) == s
    ensures ToggleChecked(node, StoreValue(node, AfterChange(values, node, Bool(true))))
  {
  }

  /** `handleChange` on the shared store; the result says whether `props.onChange` was called too. */
  method HandleChange(store: SchemaStore.Store, node: JsValue, next: JsValue) returns (calledOnChange: bool)
    modifies store
    ensures store.values == AfterChange(old(store.values), node, next)
    ensures calledOnChange == CallsOnChange(node)
  {
    var id := Get(node, "id");
    if Truthy(id) {
      store.SetValue(Stringify(id), next);
    }
    calledOnChange := Prop(node, "onChange").Func?;
  }

  // ------------------------------------------------------------------ the view tree

  /**
   * What a node renders to. A child component is described by the props it
   * receives, as a React element is: `TextBlock.Render` and `LogViewer.Shown`
   * say what a text block and a log viewer then show.
   */
  datatype View =
    | Empty                                        // null: hidden node, no children, poller without endpoint
    | Fault                                        // rendering throws: a field read on null, `.map` on a non-array, an object child
    | Root(className: string, nodes: seq<View>)    // a SchemaRenderer wrapper
    | Card(title: JsValue, body: View)             // container
    | Stack(children: seq<View>)                   // group
    | Dialog(title: JsValue, body: View)           // modal
    | ActionButton(heading: JsValue, action: JsValue)
    | TextField(heading: JsValue, value: string)     // input
    | Switch(heading: JsValue, checked: bool)        // toggle
    | Range(heading: JsValue, source: JsValue)       // slider, before Number(...)
    | Picker(heading: JsValue, value: string)        // select
    | Segments(heading: JsValue, value: string)      // segmentedControl
    | Caption(text: string)                        // label
    | Paragraph(text: string, variant: JsValue, align: JsValue, classes: JsValue)  // text
    | Log(heading: JsValue, value: string, placeholder: JsValue, rows: JsValue)  // logViewer; rows before Number(...)
    | Poll(endpoint: JsValue, interval: JsValue)   // poller; interval before Number(...)
    | Unknown(typeName: JsValue)                   // the inline "unknown type" marker

  const KnownTypes: set<string> :=
    {"container", "group", "input", "button", "toggle", "slider", "select", "modal",
     "segmentedControl", "label", "text", "logViewer", "poller"}

  /** The component a `type` value selects; any other value selects the unknown marker. */
  datatype Kind =
    | ContainerKind | GroupKind | ButtonKind | InputKind | ToggleKind | SliderKind | SelectKind
    | ModalKind | SegmentedKind | LabelKind | TextKind | LogViewerKind | PollerKind | OtherKind

  /** The `switch (node.type)` of `renderNode`, which compares the type with each case label by `===`. */
  function KindOf(t: JsValue): Kind {
    if t == Str("container") then ContainerKind
    else if t == Str("group") then GroupKind
    else if t == Str("button") then ButtonKind
    else if t == Str("input") then InputKind
    else if t == Str("toggle") then ToggleKind
    else if t == Str("slider") then SliderKind
    else if t == Str("select") then SelectKind
    else if t == Str("modal") then ModalKind
    else if t == Str("segmentedControl") then SegmentedKind
    else if t == Str("label") then LabelKind
    else if t == Str("text") then TextKind
    else if t == Str("logViewer") then LogViewerKind
    else if t == Str("poller") then PollerKind
    else OtherKind
  }

  /** `label` selects the label component. */
  lemma LabelKindOf()
    ensures KindOf(Str("label")) == LabelKind
  {
  }

  /** `toggle` selects the toggle component. */
  lemma ToggleKindOf()
    ensures KindOf(Str("toggle")) == ToggleKind
  {
  }

  /** `poller` selects the poller component. */
  lemma PollerKindOf()
    ensures KindOf(Str("poller")) == PollerKind
  {
  }

  /** Exactly the known type names select a component; everything else, strings or not, selects the marker. */
  lemma OtherKindIffUnknown(t: JsValue)
    ensures KindOf(t) == OtherKind <==> !(t.Str? && t.text in KnownTypes)
  {
  }

  const UnknownTypePrefix: string := "未知组件类型："

  /** The marker's text for a string or integer type (React prints nothing for undefined, null and booleans). */
  function UnknownMessage(typeName: JsValue): string {
    if typeName.Str? || typeName.Int? then UnknownTypePrefix + Stringify(typeName) else UnknownTypePrefix
  }

  /** `rootClassName`: `atlas-schema-root` and one class per meta hint present, joined by spaces. */
  function RootClassName(meta: JsValue): string {
    Join(NonEmpty(["atlas-schema-root", Hint(meta, "density"), Hint(meta, "tone"), Hint(meta, "scrollbar")]), " ")
  }

  /** The class for one meta hint, or '' when the hint is unset (falsy). */
  function Hint(meta: JsValue, name: string): (cls: string)
    ensures cls == "" <==> !Truthy(Get(meta, name))
  {
    var v := Get(meta, name);
    if Truthy(v) then "atlas-schema-" + name + "-" + Stringify(v) else ""
  }

  /** A class preceded by its separating space, or nothing. */
  function Spaced(cls: string): string {
    if cls == "" then "" else " " + cls
  }

  /** The class list written out: each hint that is set adds exactly one class, in the order density, tone, scrollbar. */
  lemma RootClassNameSpelledOut(meta: JsValue)
    ensures RootClassName(meta) ==
      "atlas-schema-root" + Spaced(Hint(meta, "density")) + Spaced(Hint(meta, "tone")) + Spaced(Hint(meta, "scrollbar"))
  {
    JoinFour("atlas-schema-root", Hint(meta, "density"), Hint(meta, "tone"), Hint(meta, "scrollbar"));
  }

  /** Without any hints the root carries only its base class. */
  lemma PlainRootClass()
    ensures RootClassName(Undefined) == "atlas-schema-root"
  {
    RootClassNameSpelledOut(Undefined);
  }

  lemma JoinFour(head: string, a: string, b: string, c: string)
    requires head != ""
    ensures Join(NonEmpty([head, a, b, c]), " ") == head + Spaced(a) + Spaced(b) + Spaced(c)
  {
    JoinSuffixes(head, [a, b, c]);
    assert [head] + [a, b, c] == [head, a, b, c];
    JoinTailThree(a, b, c);
    Regroup(head, Spaced(a), Spaced(b), Spaced(c));
  }

  lemma JoinTailThree(a: string, b: string, c: string)
    ensures JoinTail([a, b, c]) == Spaced(a) + (Spaced(b) + Spaced(c))
  {
    assert [a, b, c][1..] == [b, c];
    assert [b, c][1..] == [c];
    assert [c][1..] == [];
    assert JoinTail([c]) == Spaced(c) + "";
    assert Spaced(c) + "" == Spaced(c);
  }

  lemma Regroup(h: string, x: string, y: string, z: string)
    ensures h + (x + (y + z)) == h + x + y + z
  {
  }

  /** Each part preceded by a space, the empty ones left out. */
  function JoinTail(parts: seq<string>): string {
    if |parts| == 0 then "" else Spaced(parts[0]) + JoinTail(parts[1..])
  }

  lemma {:induction false} JoinSuffixes(head: string, rest: seq<string>)
    requires head != ""
    ensures Join(NonEmpty([head] + rest), " ") == head + JoinTail(rest)
    decreases |rest|
  {
    assert ([head] + rest)[1..] == rest;
    assert NonEmpty([head] + rest) == [head] + NonEmpty(rest);
    if |rest| == 0 {
      assert NonEmpty(rest) == [];
    } else if rest[0] == "" {
      assert NonEmpty(rest) == NonEmpty(rest[1..]);
      JoinSuffixes(head, rest[1..]);
      assert ([head] + rest[1..])[1..] == rest[1..];
      assert NonEmpty([head] + rest[1..]) == [head] + NonEmpty(rest[1..]);
    } else {
      JoinSuffixes(rest[0], rest[1..]);
      assert ([rest[0]] + rest[1..]) == rest;
      assert NonEmpty(rest) == [rest[0]] + NonEmpty(rest[1..]);
      var tail := NonEmpty(rest);
      assert ([head] + tail)[1..] == tail;
    }
  }

  /** `node.label || fallback`. */
  function LabelOr(node: JsValue, fallback: string): JsValue {
    Or(Get(node, "label"), Str(fallback))
  }

  /** The action a button dispatches: `node.onClick ?? node.props?.onClick`. */
  function ButtonAction(node: JsValue): JsValue {
    Coalesce(Get(node, "onClick"), Prop(node, "onClick"))
  }

  /** A node. A hidden node renders nothing and its children are not looked at. */
  function Render(node: JsValue, values: Values, meta: JsValue): View
    decreases node, 2
  {
    match node
    case Undefined => Fault
    case Null => Fault
    case Obj(f) =>
      if ResolveHidden(Get(node, "hidden"), values) then Empty
      else Component(KindOf(Get(node, "type")), node, values, meta)
    case _ => Unknown(Undefined)
  }

  /** A visible object node, by the component its type selects. */
  function Component(kind: Kind, node: JsValue, values: Values, meta: JsValue): View
    requires node.Obj?
    decreases node, 1
  {
    var f := node.fields;
    var sv := StoreValue(node, values);
    var heading := Get(node, "label");
    match kind
    case ContainerKind =>
      Card(LabelOr(node, "未命名容器"), if "children" in f then Nested(f["children"], values, meta) else Empty)
    case GroupKind => if "children" in f then Group(f["children"], values, meta) else Stack([])
    case ButtonKind => ActionButton(LabelOr(node, "按钮"), ButtonAction(node))
    case InputKind => TextField(heading, FieldValue(node, sv))
    case ToggleKind => Switch(LabelOr(node, "开关"), ToggleChecked(node, sv))
    case SliderKind => Range(heading, SliderSource(node, sv))
    case SelectKind => Picker(heading, FieldValue(node, sv))
    case ModalKind =>
      Dialog(LabelOr(node, "详细信息"), if "children" in f then Nested(f["children"], values, meta) else Empty)
    case SegmentedKind => Segments(heading, FieldValue(node, sv))
    case LabelKind => Caption(ResolveTextValue(node, sv))
    case TextKind =>
      Paragraph(ResolveTextValue(node, sv), Prop(node, "variant"), Prop(node, "align"), Prop(node, "className"))
    case LogViewerKind =>
      Log(heading, LogValue(node, sv), Prop(node, "placeholder"), Coalesce(Prop(node, "rows"), Int(LogViewer.DefaultRows)))
    case PollerKind => PollerView(node)
    case OtherKind => if ThrowsAsChild(Get(node, "type")) then Fault else Unknown(Get(node, "type"))
  }

  /** React refuses a plain object as a child, also inside an array of children, and throws. */
  predicate ThrowsAsChild(v: JsValue) {
    match v
    case Obj(_) => true
    case Arr(items) => exists k :: 0 <= k < |items| && ThrowsAsChild(items[k])
    case _ => false
  }

  /** A poller: nothing without an endpoint (`node.endpoint || props.endpoint`), else a poll every `interval || props.interval || 1000`. */
  function PollerView(node: JsValue): View {
    var endpoint := Or(Get(node, "endpoint"), Prop(node, "endpoint"));
    if !Truthy(endpoint) then Empty
    else Poll(endpoint, Or(Or(Get(node, "interval"), Prop(node, "interval")), Int(1000)))
  }

  /**
   * Children of a container or modal: `children ? <SchemaRenderer schema={children}/> : null`,
   * which renders nothing for an empty list and throws on a non-array with a non-zero length.
   */
  function Nested(children: JsValue, values: Values, meta: JsValue): View
    decreases children, 3
  {
    if !Truthy(children) || Get(children, "length") == Int(0) then Empty
    else match children
      case Arr(items) => Root(RootClassName(meta), seq(|items|, k requires 0 <= k < |items| => Render(items[k], values, meta)))
      case _ => Fault
  }

  /** Children of a group: `children?.map(...)`, which throws on anything but an array, undefined and null. */
  function Group(children: JsValue, values: Values, meta: JsValue): View
    decreases children, 3
  {
    match children
    case Undefined => Stack([])
    case Null => Stack([])
    case Arr(items) => Stack(seq(|items|, k requires 0 <= k < |items| => Render(items[k], values, meta)))
    case _ => Fault
  }

  /** `SchemaRenderer`: nothing for an empty node list, else a root wrapper around the rendered nodes. */
  function RenderSchema(schema: seq<JsValue>, values: Values, meta: JsValue): (v: View)
    ensures |schema| == 0 <==> v == Empty
    ensures v.Root? ==> |v.nodes| == |schema| && forall k :: 0 <= k < |schema| ==> v.nodes[k] == Render(schema[k], values, meta)
  {
    if |schema| == 0 then Empty
    else Root(RootClassName(meta), seq(|schema|, k requires 0 <= k < |schema| => Render(schema[k], values, meta)))
  }

  /** A hidden node renders nothing, so none of its children is rendered. */
  lemma HiddenRendersNothing(fields: map<string, JsValue>, values: Values, meta: JsValue)
    requires "hidden" in fields && ResolveHidden(fields["hidden"], values)
    ensures Render(Obj(fields), values, meta) == Empty
  {
  }

  /** A visible object node renders as the component its type selects. */
  lemma VisibleObject(fields: map<string, JsValue>, values: Values, meta: JsValue)
    requires !ResolveHidden(Lookup(fields, "hidden"), values)
    ensures Render(Obj(fields), values, meta) == Component(KindOf(Lookup(fields, "type")), Obj(fields), values, meta)
  {
  }

  /** The label component. */
  lemma LabelComponent(node: JsValue, values: Values, meta: JsValue)
    requires node.Obj?
    ensures Component(LabelKind, node, values, meta) == Caption(ResolveTextValue(node, StoreValue(node, values)))
  {
  }

  /** The toggle component. */
  lemma ToggleComponent(node: JsValue, values: Values, meta: JsValue)
    requires node.Obj?
    ensures Component(ToggleKind, node, values, meta) == Switch(LabelOr(node, "开关"), ToggleChecked(node, StoreValue(node, values)))
  {
  }

  /** The poller component. */
  lemma PollerComponent(node: JsValue, values: Values, meta: JsValue)
    requires node.Obj?
    ensures Component(PollerKind, node, values, meta) == PollerView(node)
  {
  }

  /** An unrecognised type that React can print renders the inline marker naming it; it does not throw. */
  lemma UnknownTypeMarker(fields: map<string, JsValue>, values: Values, meta: JsValue)
    requires "type" in fields && !(fields["type"].Str? && fields["type"].text in KnownTypes)
    requires !ThrowsAsChild(fields["type"])
    requires !ResolveHidden(Lookup(fields, "hidden"), values)
    ensures Render(Obj(fields), values, meta) == Unknown(fields["type"])
  {
    VisibleObject(fields, values, meta);
    OtherKindIffUnknown(fields["type"]);
  }

  /** An object type, or an array holding one, is not a known type, and printing it in the marker throws. */
  lemma ObjectTypeFaults(fields: map<string, JsValue>, values: Values, meta: JsValue)
    requires "type" in fields && ThrowsAsChild(fields["type"])
    requires !ResolveHidden(Lookup(fields, "hidden"), values)
    ensures Render(Obj(fields), values, meta) == Fault
  {
    VisibleObject(fields, values, meta);
    OtherKindIffUnknown(fields["type"]);
  }

  /** `{"type": {}}` throws rather than showing a marker. */
  lemma EmptyObjectTypeScenario(values: Values, meta: JsValue)
    ensures Render(Obj(map["type" := Obj(map[])]), values, meta) == Fault
  {
    var fields := map["type" := Obj(map[])];
    assert Lookup(fields, "hidden") == Undefined;
    ObjectTypeFaults(fields, values, meta);
  }

  /** `{"type": "bogus"}` renders a marker whose text mentions "bogus". */
  lemma BogusTypeScenario(values: Values, meta: JsValue)
    ensures Render(Obj(map["type" := Str("bogus")]), values, meta) == Unknown(Str("bogus"))
    ensures UnknownMessage(Str("bogus")) == "未知组件类型：bogus"
  {
    var fields := map["type" := Str("bogus")];
    assert Lookup(fields, "hidden") == Undefined;
    UnknownTypeMarker(fields, values, meta);
  }

  /** A visible label node shows its resolved text. */
  lemma LabelNodeShowsText(fields: map<string, JsValue>, values: Values, meta: JsValue)
    requires "type" in fields && fields["type"] == Str("label")
    requires !ResolveHidden(Lookup(fields, "hidden"), values)
    ensures Render(Obj(fields), values, meta) == Caption(ResolveTextValue(Obj(fields), StoreValue(Obj(fields), values)))
  {
    VisibleObject(fields, values, meta);
    LabelKindOf();
    LabelComponent(Obj(fields), values, meta);
  }

  /** A label hidden by `!$key` is hidden while the key is unset or falsy and shows its caption once the key is truthy. */
  lemma LabelHiddenUntilSet(key: string, caption: string, values: Values, meta: JsValue)
    requires key == [] || !IsJsSpace(key[|key| - 1])
    ensures
      var status := Obj(map["type" := Str("label"), "label" := Str(caption), "hidden" := Str("!$" + key)]);
      Render(status, values, meta) == if Truthy(Lookup(values, key)) then Caption(caption) else Empty
  {
    var fields := map["type" := Str("label"), "label" := Str(caption), "hidden" := Str("!$" + key)];
    assert Lookup(fields, "id") == Undefined;
    assert StoreValue(Obj(fields), values) == Undefined;
    assert ResolveTextValue(Obj(fields), Undefined) == caption;
    NegatedKey(key, values);
    if Truthy(Lookup(values, key)) {
      LabelNodeShowsText(fields, values, meta);
    } else {
      HiddenRendersNothing(fields, values, meta);
    }
  }

  /** The toggle `t1` reads unchecked from an empty store and checked once its change to true is written. */
  lemma ToggleScenario(meta: JsValue)
    ensures
      var toggle := Obj(map["type" := Str("toggle"), "id" := Str("t1"), "label" := Str("Enable")]);
      && Render(toggle, map[], meta) == Switch(Str("Enable"), false)
      && Render(toggle, AfterChange(map[], toggle, Bool(true)), meta) == Switch(Str("Enable"), true)
  {
    var fields := map["type" := Str("toggle"), "id" := Str("t1"), "label" := Str("Enable")];
    ToggleFields(fields);
    ToggleNode(fields, map[], meta);
    ToggleNode(fields, AfterChange(map[], Obj(fields), Bool(true)), meta);
  }

  /** What the scenario's toggle reads before and after its change is written. */
  lemma ToggleFields(fields: map<string, JsValue>)
    requires fields == map["type" := Str("toggle"), "id" := Str("t1"), "label" := Str("Enable")]
    ensures Lookup(fields, "type") == Str("toggle") && Lookup(fields, "hidden") == Undefined
    ensures LabelOr(Obj(fields), "开关") == Str("Enable")
    ensures AfterChange(map[], Obj(fields), Bool(true)) == map["t1" := Bool(true)]
    ensures !ToggleChecked(Obj(fields), StoreValue(Obj(fields), map[]))
    ensures ToggleChecked(Obj(fields), StoreValue(Obj(fields), map["t1" := Bool(true)]))
  {
    var toggle := Obj(fields);
    assert Lookup(fields, "props") == Undefined;
    assert StoreValue(toggle, map[]) == Undefined;
    assert StoreValue(toggle, map["t1" := Bool(true)]) == Bool(true);
  }

  /** A visible toggle node renders a switch. */
  lemma ToggleNode(fields: map<string, JsValue>, values: Values, meta: JsValue)
    requires Lookup(fields, "type") == Str("toggle") && !ResolveHidden(Lookup(fields, "hidden"), values)
    ensures Render(Obj(fields), values, meta) == Switch(LabelOr(Obj(fields), "开关"), ToggleChecked(Obj(fields), StoreValue(Obj(fields), values)))
  {
    VisibleObject(fields, values, meta);
    ToggleKindOf();
    ToggleComponent(Obj(fields), values, meta);
  }

  /** A poller without an endpoint renders nothing; a zero interval falls back to 1000 before the floor applies. */
  lemma PollerNodeFields(fields: map<string, JsValue>, values: Values, meta: JsValue)
    requires Lookup(fields, "type") == Str("poller") && !ResolveHidden(Lookup(fields, "hidden"), values)
    ensures !Truthy(Lookup(fields, "endpoint")) && !Truthy(Get(Lookup(fields, "props"), "endpoint"))
            ==> Render(Obj(fields), values, meta) == Empty
    ensures Truthy(Lookup(fields, "endpoint")) && Lookup(fields, "interval") == Int(0) && !Truthy(Get(Lookup(fields, "props"), "interval"))
            ==> Render(Obj(fields), values, meta) == Poll(Lookup(fields, "endpoint"), Int(1000))
  {
    PollerNode(fields, values, meta);
    assert Get(Obj(fields), "endpoint") == Lookup(fields, "endpoint");
    assert Get(Obj(fields), "interval") == Lookup(fields, "interval");
  }

  /** A visible poller node: nothing without an endpoint, else a poll of it. */
  lemma PollerNode(fields: map<string, JsValue>, values: Values, meta: JsValue)
    requires Lookup(fields, "type") == Str("poller") && !ResolveHidden(Lookup(fields, "hidden"), values)
    ensures Render(Obj(fields), values, meta) == PollerView(Obj(fields))
  {
    VisibleObject(fields, values, meta);
    PollerKindOf();
    PollerComponent(Obj(fields), values, meta);
  }

  /** A null or undefined node cannot be rendered (reading its `hidden` throws). */
  lemma NullNodeFaults(values: Values, meta: JsValue)
    ensures Render(Null, values, meta) == Fault && Render(Undefined, values, meta) == Fault
  {
  }
}
