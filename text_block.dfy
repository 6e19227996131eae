/**
 * TextBlock: a paragraph whose style variant is chosen from the text's
 * length unless the caller names one, with a trimmed class string.
 */
module TextBlock {
  import opened Text
  import opened JsValues

  /** Trimmed texts up to this many UTF-16 code units count as compact. */
  const CompactLimit: nat := 24

  /** `autoVariant`: compact text is a paragraph, longer text a hint; `length` counts UTF-16 code units. */
  function AutoVariant(text: string): string {
    if Utf16Length(TrimJs(text)) <= CompactLimit then "paragraph" else "hint"
  }

  /** `variant ?? autoVariant(text)`: an explicit variant (anything but undefined or null) wins. */
  function ResolvedVariant(variant: JsValue, text: string): string {
    if Nullish(variant) then AutoVariant(text) else Stringify(variant)
  }

  /** The class attribute: `atlas-text-block atlas-text-<variant> <className>`, trimmed; `className` defaults to ''. */
  function ClassName(variant: JsValue, className: JsValue, text: string): string {
    TrimJs("atlas-text-block atlas-text-" + ResolvedVariant(variant, text) + " " + Stringify(DefaultParam(className, Str(""))))
  }

  /** `align` defaults to `left`. */
  function Align(align: JsValue): JsValue {
    DefaultParam(align, Str("left"))
  }

  /** What the component renders: a paragraph with its text, class and alignment. */
  datatype Block = Block(text: string, className: string, align: JsValue)

  function Render(text: string, variant: JsValue, align: JsValue, className: JsValue): Block {
    Block(text, ClassName(variant, className, text), Align(align))
  }

  predicate AllSpace(s: string) {
    forall k :: 0 <= k < |s| ==> IsJsSpace(s[k])
  }

  lemma {:induction false} TrimStartPadded(pre: string, s: string)
    requires AllSpace(pre)
    ensures TrimStart(pre + s, IsJsSpace) == TrimStart(s, IsJsSpace)
    decreases |pre|
  {
    if pre != [] {
      assert (pre + s)[1..] == pre[1..] + s;
      TrimStartPadded(pre[1..], s);
    } else {
      assert pre + s == s;
    }
  }

  lemma {:induction false} TrimEndPadded(s: string, post: string)
    requires AllSpace(post)
    ensures TrimEnd(s + post, IsJsSpace) == TrimEnd(s, IsJsSpace)
    decreases |post|
  {
    if post != [] {
      assert (s + post)[..|s + post| - 1] == s + post[..|post| - 1];
      TrimEndPadded(s, post[..|post| - 1]);
    } else {
      assert s + post == s;
    }
  }

  lemma TrimStartKeepsTail(s: string, post: string)
    ensures TrimStart(s + post, IsJsSpace) == (if TrimStart(s, IsJsSpace) == [] then TrimStart(post, IsJsSpace) else TrimStart(s, IsJsSpace) + post)
    decreases |s|
  {
    if s != [] {
      assert (s + post)[1..] == s[1..] + post;
      if IsJsSpace(s[0]) {
        TrimStartKeepsTail(s[1..], post);
      }
    } else {
      assert s + post == post;
    }
  }

  lemma {:induction false} AllSpaceTrimsAway(s: string)
    requires AllSpace(s)
    ensures TrimStart(s, IsJsSpace) == []
    decreases |s|
  {
    if s != [] {
      AllSpaceTrimsAway(s[1..]);
    }
  }

  /** White space around a text never changes its trim. */
  lemma PaddingIgnoredByTrim(pre: string, s: string, post: string)
    requires AllSpace(pre) && AllSpace(post)
    ensures TrimJs(pre + s + post) == TrimJs(s)
  {
    assert pre + s + post == pre + (s + post);
    TrimStartPadded(pre, s + post);
    TrimStartKeepsTail(s, post);
    var t := TrimStart(s, IsJsSpace);
    if t == [] {
      AllSpaceTrimsAway(post);
    } else {
      TrimEndPadded(t, post);
    }
  }

  /**
   * A text made of white space, a core that neither starts nor ends with
   * white space, and white space again is a paragraph exactly when the core
   * has at most 24 UTF-16 code units, which is 24 characters when none lies
   * outside the Basic Multilingual Plane.
   */
  lemma CompactIsParagraph(pre: string, core: string, post: string)
    requires AllSpace(pre) && AllSpace(post)
    requires core != [] ==> !IsJsSpace(core[0]) && !IsJsSpace(core[|core| - 1])
    ensures AutoVariant(pre + core + post) == "paragraph" <==> Utf16Length(core) <= 24
    ensures AutoVariant(pre + core + post) == "hint" <==> Utf16Length(core) > 24
    ensures (forall k :: 0 <= k < |core| ==> core[k] as int < 0x1_0000) ==>
      (AutoVariant(pre + core + post) == "paragraph" <==> |core| <= 24)
  {
    TrimmedCore(pre, core, post);
    if forall k :: 0 <= k < |core| ==> core[k] as int < 0x1_0000 {
      Utf16LengthBmp(core);
    }
  }

  /** The trim of such a text is its core. */
  lemma TrimmedCore(pre: string, core: string, post: string)
    requires AllSpace(pre) && AllSpace(post)
    requires core != [] ==> !IsJsSpace(core[0]) && !IsJsSpace(core[|core| - 1])
    ensures TrimJs(pre + core + post) == core
  {
    PaddingIgnoredByTrim(pre, core, post);
    TrimOfTrimmed(core, IsJsSpace);
  }

  /** Thirteen emoji are 26 code units, so they make a hint although they are only 13 characters. */
  lemma SurrogatePairsCountTwice()
    ensures AutoVariant(seq(13, _ => '\U{1F600}')) == "hint"
  {
    var e := seq(13, _ => '\U{1F600}');
    assert e[0] == '\U{1F600}' && e[12] == '\U{1F600}';
    TrimOfTrimmed(e, IsJsSpace);
    Utf16LengthAstral(e);
  }

  /** Leading and trailing white space never affect the automatic choice. */
  lemma PaddingIgnored(pre: string, text: string, post: string)
    requires AllSpace(pre) && AllSpace(post)
    ensures AutoVariant(pre + text + post) == AutoVariant(text)
  {
    PaddingIgnoredByTrim(pre, text, post);
  }

  /**
   * An explicit variant, anything but undefined or null, fixes the class
   * string whatever the text; undefined and null both leave the choice to
   * the text.
   */
  lemma ExplicitVariantWins(variant: string, text: string, other: string, align: JsValue, className: JsValue)
    ensures Render(text, Str(variant), align, className).className == Render(other, Str(variant), align, className).className
    ensures EndsInNonSpace(variant) ==>
      Render(text, Str(variant), align, Undefined).className == "atlas-text-block atlas-text-" + variant
    ensures Render(text, Null, align, className) == Render(text, Undefined, align, className)
  {
    VariantFixesClass(variant, text, other, align, className);
    if EndsInNonSpace(variant) {
      ExplicitClassAlone(variant, text, align);
    }
    NullLikeUndefined(text, align, className);
  }

  lemma VariantFixesClass(variant: string, text: string, other: string, align: JsValue, className: JsValue)
    ensures Render(text, Str(variant), align, className).className == Render(other, Str(variant), align, className).className
  {
    assert ResolvedVariant(Str(variant), text) == variant == ResolvedVariant(Str(variant), other);
  }

  lemma ExplicitClassAlone(variant: string, text: string, align: JsValue)
    requires EndsInNonSpace(variant)
    ensures Render(text, Str(variant), align, Undefined).className == "atlas-text-block atlas-text-" + variant
  {
    ClassWithoutClassName(Str(variant), text);
  }

  lemma NullLikeUndefined(text: string, align: JsValue, className: JsValue)
    ensures Render(text, Null, align, className) == Render(text, Undefined, align, className)
  {
    assert ResolvedVariant(Null, text) == ResolvedVariant(Undefined, text);
  }

  predicate EndsInNonSpace(s: string) {
    s != [] && !IsJsSpace(s[|s| - 1])
  }

  /** Without a className the class string has no trailing space. */
  lemma ClassWithoutClassName(variant: JsValue, text: string)
    requires EndsInNonSpace(ResolvedVariant(variant, text))
    ensures ClassName(variant, Undefined, text) == "atlas-text-block atlas-text-" + ResolvedVariant(variant, text)
    ensures ClassName(variant, Str(""), text) == "atlas-text-block atlas-text-" + ResolvedVariant(variant, text)
  {
    var v := ResolvedVariant(variant, text);
    var core := "atlas-text-block atlas-text-" + v;
    assert core + " " + "" == core + " ";
    assert core[0] == 'a';
    assert core[|core| - 1] == v[|v| - 1];
    TrimOneTrailingSpace(core, IsJsSpace);
  }

  /** The automatic variants end in a letter, so an automatic class string without className ends in the variant. */
  lemma AutoVariantEndsInLetter(text: string)
    ensures EndsInNonSpace(AutoVariant(text))
  {
  }

  /** A className is appended after one space. */
  lemma ClassWithClassName(variant: JsValue, text: string, className: string)
    requires className != [] && !IsJsSpace(className[|className| - 1])
    ensures ClassName(variant, Str(className), text)
            == "atlas-text-block atlas-text-" + ResolvedVariant(variant, text) + " " + className
  {
    var full := "atlas-text-block atlas-text-" + ResolvedVariant(variant, text) + " " + className;
    TrimOfTrimmed(full, IsJsSpace);
  }

  /** The block shows its text as given, untrimmed, aligned left unless an alignment is given. */
  lemma AlignDefaultsLeft(text: string, variant: JsValue, align: JsValue, className: JsValue)
    ensures Render(text, variant, Undefined, className).align == Str("left")
    ensures align != Undefined ==> Render(text, variant, align, className).align == align
    ensures Render(text, variant, align, className).text == text
  {
    RenderAlign(text, variant, Undefined, className);
    RenderAlign(text, variant, align, className);
  }

  lemma RenderAlign(text: string, variant: JsValue, align: JsValue, className: JsValue)
    ensures Render(text, variant, align, className).align == Align(align)
    ensures Render(text, variant, align, className).text == text
  {
  }
}
