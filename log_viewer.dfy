/**
 * LogViewer: shows its value verbatim, or a placeholder when the value is
 * empty, in a panel whose minimum height follows the row count.
 */
module LogViewer {
  import opened Wrappers
  import opened Text
  import opened JsValues

  const DefaultPlaceholder: string := "暂无日志输出"
  const DefaultRows: int := 10
  const RowHeight: int := 20
  const MinRows: int := 4

  /**
   * The text shown: `value?.toString() ?? ''` (value defaults to ''), or the
   * placeholder when that string is empty. Nothing is trimmed.
   */
  function Shown(value: JsValue, placeholder: JsValue): JsValue {
    var v := DefaultParam(value, Str(""));
    var s := if Nullish(v) then "" else Stringify(v);
    if |s| > 0 then Str(s) else DefaultParam(placeholder, Str(DefaultPlaceholder))
  }

  /** `Math.max(4, rows) * 20` pixels, `rows` defaulting to 10. */
  function MinHeight(rows: Option<int>): int {
    var r := rows.GetOr(DefaultRows);
    (if r < MinRows then MinRows else r) * RowHeight
  }

  /** The class attribute: `atlas-log-viewer <className>`, trimmed; `className` defaults to ''. */
  function ClassName(className: JsValue): string {
    TrimJs("atlas-log-viewer " + Stringify(DefaultParam(className, Str(""))))
  }

  /** An empty value shows the placeholder (the default one when none is given). */
  lemma EmptyShowsPlaceholder(placeholder: JsValue)
    ensures Shown(Str(""), placeholder) == DefaultParam(placeholder, Str(DefaultPlaceholder))
    ensures Shown(Undefined, Undefined) == Str(DefaultPlaceholder)
    ensures Shown(Null, placeholder) == Shown(Str(""), placeholder)
  {
  }

  /** A non-empty value is shown as it is, even one made only of white space. */
  lemma NonEmptyShownVerbatim(value: string, placeholder: JsValue)
    requires value != ""
    ensures Shown(Str(value), placeholder) == Str(value)
    ensures Shown(Str(" "), placeholder) == Str(" ")
  {
  }

  /** The panel is at least 80 pixels high, grows 20 pixels per row from four rows up, and is 200 by default. */
  lemma MinHeightBounds(rows: Option<int>)
    ensures MinHeight(rows) >= MinRows * RowHeight
    ensures rows.Some? && rows.value >= MinRows ==> MinHeight(rows) == rows.value * RowHeight
    ensures rows.Some? && rows.value < MinRows ==> MinHeight(rows) == 80
    ensures MinHeight(None) == 200
  {
  }

  /** Without a className the class string is just `atlas-log-viewer`. */
  lemma ClassWithoutClassName()
    ensures ClassName(Undefined) == "atlas-log-viewer"
    ensures ClassName(Str("")) == "atlas-log-viewer"
  {
    var core := "atlas-log-viewer";
    assert "atlas-log-viewer " + "" == core + " ";
    TrimOneTrailingSpace(core, IsJsSpace);
  }

  /** A className is appended after one space. */
  lemma ClassWithClassName(className: string)
    requires className != [] && !IsJsSpace(className[|className| - 1])
    ensures ClassName(Str(className)) == "atlas-log-viewer " + className
  {
    var full := "atlas-log-viewer " + className;
    assert full[0] == 'a';
    TrimOfTrimmed(full, IsJsSpace);
  }
}
