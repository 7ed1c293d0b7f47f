/** `_expand_xref`: the text an `<xref>` element becomes in nroff output. */
module Xref {
  import opened Wrappers
  import opened Text
  import opened Escape

  /** What an anchor resolves to: the three fields `_expand_xref` reads. */
  datatype Item = Item(counter: string, title: string, autoName: string)

  /** An `<xref>` element: its `target` attribute (the empty string when the
      attribute is absent), its `format` attribute, and its text (the empty
      string when the element has none, which Python also treats as false). */
  datatype XrefElement = XrefElement(target: string, format: Option<string>, text: string)

  predicate HasDotOrDash(s: string) {
    '.' in s || '-' in s
  }

  /** The target text before decoration, chosen by the format. */
  function TargetText(target: string, format: string, item: Option<Item>): (t: string)
    ensures item.None? || format == "none" ==> t == "[" + target + "]"
    ensures item.Some? && format == "counter" ==> t == item.value.counter
    ensures item.Some? && format == "title" ==> t == item.value.title
    ensures item.Some? && format !in {"none", "counter", "title"} ==> t == item.value.autoName
  {
    if item.None? || format == "none" then "[" + target + "]"
    else if format == "counter" then item.value.counter
    else if format == "title" then item.value.title
    else item.value.autoName
  }

  /** `_expand_xref`, with the anchor lookup `_getItemByAnchor(target)` passed
      in as `item` and the writer's default format as `defaultFormat`. */
  function ExpandXref(xref: XrefElement, item: Option<Item>, defaultFormat: string): (r: string)
    ensures var t := TargetText(xref.target, xref.format.GetOr(defaultFormat), item);
      // with link text: the stripped text, a space, then the target
      && (xref.text != [] ==> StartsWith(r, RStrip(xref.text) + " "))
      // a target that is not bracketed is parenthesised after link text
      && (xref.text != [] && !StartsWith(t, "[") ==> r == RStrip(xref.text) + " (" + t + ")")
      // otherwise the target ends the result, guarded against hyphenation
      // exactly when it holds a dot or a dash
      && (xref.text == [] || StartsWith(t, "[") ==>
            EndsWith(r, t) && (HasDotOrDash(t) <==> EndsWith(r, NoHyphen + t)))
      && (xref.text == [] ==> r == t || r == NoHyphen + t)
      // with link text and a bracketed target: exactly the text, a space and the guarded target
      && (xref.text != [] && StartsWith(t, "[") ==>
            r == RStrip(xref.text) + " " + (if HasDotOrDash(t) then NoHyphen + t else t))
  {
    var t := TargetText(xref.target, xref.format.GetOr(defaultFormat), item);
    if xref.text != [] then
      if !StartsWith(t, "[") then RStrip(xref.text) + " " + ("(" + t + ")")
      else
        var lead := RStrip(xref.text) + " ";
        if HasDotOrDash(t) then lead + (NoHyphen + t)
        else
          var r := lead + t;
          assert r[|r| - |t| - 1] == ' ';
          r
    else
      if HasDotOrDash(t) then NoHyphen + t else t
  }
}
