/**
 * `getFormText`: the walk over the form's element tree that turns every recognised
 * element into raw report text, over an abstract document tree.
 */
module Serializer {
  import opened Wrappers
  import opened JsStrings
  import opened Formatter
  import opened FormatterSections

  /** A DOM node: an element, a text node, or anything else (a comment), which carries no text. */
  datatype Node = Elem(e: Element) | Text(data: string) | Comment(data: string)

  /**
   * An element: its upper-case tag name, its class list, its current `value` (controls),
   * for a `<select>` the `text` of each option and the `selectedIndex`, and its child nodes.
   */
  datatype Element = Element(tag: string, classes: seq<string>, value: string,
                             options: seq<string>, selectedIndex: int, children: seq<Node>)

  /** What makes `getFormText` throw: `options[selectedIndex]` is undefined, so reading `.text` fails. */
  datatype SerializeError = NoSelectedOption

  /** `node.textContent`: the text of every descendant text node, in document order. */
  function TextContent(n: Node): string
    decreases n, 1
  {
    match n
    case Elem(e) => ChildrenText(e.children)
    case Text(d) => d
    case Comment(_) => ""
  }

  function ChildrenText(ns: seq<Node>): string
    decreases ns, 0
  {
    if ns == [] then "" else TextContent(ns[0]) + ChildrenText(ns[1..])
  }

  /** The elements of a forest in document order (pre-order), text and comment nodes skipped. */
  function PreOrder(ns: seq<Node>): seq<Element>
    decreases ns, 0
  {
    if ns == [] then [] else NodeOrder(ns[0]) + PreOrder(ns[1..])
  }

  function NodeOrder(n: Node): seq<Element>
    decreases n, 1
  {
    match n
    case Elem(e) => [e] + PreOrder(e.children)
    case _ => []
  }

  /** The selectors `getFormText` uses. */
  datatype Selector = Tags(names: set<string>) | Class(name: string)

  predicate Matches(e: Element, sel: Selector) {
    match sel
    case Tags(names) => e.tag in names
    case Class(c) => c in e.classes
  }

  const LabelSelector := Tags({"LABEL"})
  const ControlSelector := Tags({"INPUT", "SELECT", "TEXTAREA"})
  const SubTextSelector := Class("sub-text")

  /** Position of the first element matching `sel`, or `|es|` when none does. */
  function FirstIndex(es: seq<Element>, sel: Selector): (k: nat)
    ensures k <= |es|
    ensures k < |es| ==> Matches(es[k], sel)
    ensures forall j :: 0 <= j < k ==> !Matches(es[j], sel)
  {
    if es == [] then 0
    else if Matches(es[0], sel) then 0
    else 1 + FirstIndex(es[1..], sel)
  }

  /** `e.querySelector(sel)`: the first matching descendant of `e` in document order. */
  function QuerySelector(e: Element, sel: Selector): Option<Element> {
    var es := PreOrder(e.children);
    var k := FirstIndex(es, sel);
    if k < |es| then Some(es[k]) else None
  }

  predicate HasClass(e: Element, c: string) {
    c in e.classes
  }

  /** `hasClassWithPrefix`: some class of the element starts with `prefix`. */
  predicate HasClassWithPrefix(e: Element, prefix: string) {
    exists i :: 0 <= i < |e.classes| && StartsWith(e.classes[i], prefix)
  }

  /** `'-'.repeat(n)`. */
  function Dashes(n: nat): string {
    seq(n, _ => '-')
  }

  const RuleWidth: nat := 120

  /** `textContent.replace(/:$/, '')`: one colon at the very end removed. */
  function DropFinalColon(s: string): string {
    if |s| > 0 && s[|s| - 1] == ':' then s[..|s| - 1] else s
  }

  /** The line a field group is written as, before normalisation. */
  function FieldLine(labelText: string, value: string, subText: string): string {
    if labelText != [] then labelText + ": " + value + (if subText != [] then " " + subText else "")
    else value
  }

  /** The trimmed text of an optional element found by `querySelector`, or "". */
  function TrimmedText(found: Option<Element>): string {
    match found
    case Some(x) => Trim(ChildrenText(x.children))
    case None => ""
  }

  /** The field-group branch of `processElement`. */
  function FieldGroupText(e: Element): Result<string, SerializeError> {
    match QuerySelector(e, ControlSelector)
    case None => Ok("")
    case Some(input) =>
      var labelText := match QuerySelector(e, LabelSelector)
                   case Some(l) => Trim(DropFinalColon(ChildrenText(l.children)))
                   case None => "";
      var subText := TrimmedText(QuerySelector(e, SubTextSelector));
      if input.tag == "SELECT" then
        if 0 <= input.selectedIndex < |input.options| then
          Ok(EnsureEndsWithDot(FieldLine(labelText, Trim(input.options[input.selectedIndex]), subText)) + "\n")
        else
          Err(NoSelectedOption)
      else
        Ok(EnsureEndsWithDot(FieldLine(labelText, Trim(input.value), subText)) + "\n")
  }

  /** `processElement`: the text one element contributes, classified in a fixed order. */
  function ElementText(e: Element): Result<string, SerializeError> {
    if HasClass(e, "separator") then Ok("\n" + Dashes(RuleWidth) + "\n")
    else if HasClass(e, "line-spacer") then Ok(Dashes(RuleWidth) + "\n")
    else if HasClass(e, "form-header") then
      var t := Trim(ChildrenText(e.children));
      Ok(if t == [] then "" else t + ":\n")
    else if HasClassWithPrefix(e, "proc") then Ok(Trim(ChildrenText(e.children)) + "\n")
    else if HasClass(e, "field-group") then FieldGroupText(e)
    else Ok("")
  }

  /** The shared `result` after appending the text of each element in turn; the first failure ends the walk. */
  function EmitFrom(acc: string, es: seq<Element>): Result<string, SerializeError>
    decreases |es|
  {
    if es == [] then Ok(acc)
    else
      match ElementText(es[0])
      case Err(err) => Err(err)
      case Ok(t) => EmitFrom(acc + t, es[1..])
  }

  /** The result of `getFormText` on a form. */
  function FormText(form: Element): Result<string, SerializeError> {
    match EmitFrom("", PreOrder(form.children))
    case Ok(s) => Ok(Trim(s))
    case Err(err) => Err(err)
  }

  /** The walk resumed on `es` from an intermediate result, a failure staying a failure. */
  function Continue(r: Result<string, SerializeError>, es: seq<Element>): Result<string, SerializeError> {
    match r
    case Ok(s) => EmitFrom(s, es)
    case Err(err) => Err(err)
  }

  /** The shared `result` after appending one element's text. */
  function AfterElement(acc: string, e: Element): Result<string, SerializeError> {
    match ElementText(e)
    case Ok(t) => Ok(acc + t)
    case Err(err) => Err(err)
  }

  /** Walking two runs of elements is walking the first and continuing from where it stopped. */
  lemma {:induction false} EmitFromAppend(acc: string, a: seq<Element>, b: seq<Element>)
    ensures EmitFrom(acc, a + b) == Continue(EmitFrom(acc, a), b)
    decreases |a|
  {
    if a == [] {
      assert a + b == b;
    } else {
      assert (a + b)[0] == a[0];
      assert (a + b)[1..] == a[1..] + b;
      if ElementText(a[0]).Ok? {
        EmitFromAppend(acc + ElementText(a[0]).value, a[1..], b);
      }
    }
  }

  /** The pre-order of a forest from position i: the subtree of node i, then the rest. */
  lemma PreOrderFrom(ns: seq<Node>, i: nat)
    requires i < |ns|
    ensures PreOrder(ns[i..]) == NodeOrder(ns[i]) + PreOrder(ns[i + 1..])
  {
    assert ns[i..][0] == ns[i];
    assert ns[i..][1..] == ns[i + 1..];
  }

  /** Walking an element's subtree: the element's own text first, then its descendants, then the rest. */
  lemma EmitSubtree(acc: string, e: Element, rest: seq<Element>)
    ensures EmitFrom(acc, NodeOrder(Elem(e)) + rest)
         == Continue(Continue(AfterElement(acc, e), PreOrder(e.children)), rest)
  {
    var below := PreOrder(e.children);
    calc {
      EmitFrom(acc, NodeOrder(Elem(e)) + rest);
      { assert NodeOrder(Elem(e)) + rest == [e] + (below + rest); }
      EmitFrom(acc, [e] + (below + rest));
      { assert ([e] + (below + rest))[0] == e; assert ([e] + (below + rest))[1..] == below + rest; }
      Continue(AfterElement(acc, e), below + rest);
      { if ElementText(e).Ok? { EmitFromAppend(acc + ElementText(e).value, below, rest); } }
      Continue(Continue(AfterElement(acc, e), below), rest);
    }
  }

  /** `processContainer`: every child element is processed, then its own children, recursively. */
  method ProcessContainer(container: Element, acc: string) returns (r: Result<string, SerializeError>)
    ensures r == EmitFrom(acc, PreOrder(container.children))
    decreases container
  {
    var nodes := container.children;
    var result := acc;
    for i := 0 to |nodes|
      invariant EmitFrom(acc, PreOrder(nodes)) == EmitFrom(result, PreOrder(nodes[i..]))
    {
      PreOrderFrom(nodes, i);
      var node := nodes[i];
      match node {
        case Elem(e) =>
          EmitSubtree(result, e, PreOrder(nodes[i + 1..]));
          var text := ElementText(e);
          if text.Err? {
            return Err(text.error);
          }
          result := result + text.value;
          var sub := ProcessContainer(e, result);
          if sub.Err? {
            return sub;
          }
          result := sub.value;
        case Text(_) =>
          assert [] + PreOrder(nodes[i + 1..]) == PreOrder(nodes[i + 1..]);
        case Comment(_) =>
          assert [] + PreOrder(nodes[i + 1..]) == PreOrder(nodes[i + 1..]);
      }
    }
    r := Ok(result);
  }

  /** `getFormText`: walk the form's children, then trim. */
  method GetFormText(form: Element) returns (r: Result<string, SerializeError>)
    ensures r == FormText(form)
  {
    var walked := ProcessContainer(form, "");
    match walked {
      case Ok(s) => r := Ok(Trim(s));
      case Err(err) => r := Err(err);
    }
  }

  /** The texts of the elements, concatenated in order (a failing element contributing nothing). */
  function Joined(es: seq<Element>): string {
    if es == [] then ""
    else (match ElementText(es[0]) case Ok(t) => t case Err(_) => "") + Joined(es[1..])
  }

  /** A field group whose first control is a `<select>` with no selected option (none, or an index out of range). */
  predicate IsBrokenSelectGroup(e: Element) {
    IsFieldGroup(e) && match QuerySelector(e, ControlSelector)
                       case Some(control) => IsBrokenSelect(control)
                       case None => false
  }

  /** An element `processElement` treats as a field group: classed so, and none of the earlier classes. */
  predicate IsFieldGroup(e: Element) {
    && !HasClass(e, "separator") && !HasClass(e, "line-spacer") && !HasClass(e, "form-header")
    && !HasClassWithPrefix(e, "proc") && HasClass(e, "field-group")
  }

  /** A select whose selected index names none of its options. */
  predicate IsBrokenSelect(control: Element) {
    control.tag == "SELECT" && (control.selectedIndex < 0 || control.selectedIndex >= |control.options|)
  }

  /** `processElement` throws on exactly the broken select groups. */
  lemma ElementFailsIffBrokenSelect(e: Element)
    ensures ElementText(e).Err? <==> IsBrokenSelectGroup(e)
  {
  }

  /**
   * The walk fails exactly when it meets a broken select group, and otherwise `result` is the
   * starting text followed by the texts of all elements in document order.
   */
  lemma {:induction false} WalkResult(acc: string, es: seq<Element>)
    ensures EmitFrom(acc, es).Err? <==> exists i :: 0 <= i < |es| && IsBrokenSelectGroup(es[i])
    ensures EmitFrom(acc, es).Ok? ==> EmitFrom(acc, es).value == acc + Joined(es)
    decreases |es|
  {
    if es == [] {
      assert acc + "" == acc;
    } else {
      ElementFailsIffBrokenSelect(es[0]);
      if ElementText(es[0]).Ok? {
        var t := ElementText(es[0]).value;
        WalkResult(acc + t, es[1..]);
        if exists i :: 0 <= i < |es| && IsBrokenSelectGroup(es[i]) {
          var i :| 0 <= i < |es| && IsBrokenSelectGroup(es[i]);
          assert es[1..][i - 1] == es[i];
        }
        if exists i :: 0 <= i < |es| - 1 && IsBrokenSelectGroup(es[1..][i]) {
          var i :| 0 <= i < |es| - 1 && IsBrokenSelectGroup(es[1..][i]);
          assert es[i + 1] == es[1..][i];
        }
        ConcatAssoc(acc, t, Joined(es[1..]));
      }
    }
  }

  /** `getFormText` fails exactly when some element of the form is a field group with a broken select. */
  lemma FormTextFailsIffBrokenSelect(form: Element)
    ensures FormText(form).Err? <==> exists i :: 0 <= i < |PreOrder(form.children)| && IsBrokenSelectGroup(PreOrder(form.children)[i])
    ensures FormText(form).Ok? ==> FormText(form).value == Trim(Joined(PreOrder(form.children)))
  {
    WalkResult("", PreOrder(form.children));
    assert "" + Joined(PreOrder(form.children)) == Joined(PreOrder(form.children));
  }

  /**
   * Every element is followed in the walk by its whole subtree, whatever its class: the children
   * of field groups, `proc` elements and headers are visited too.
   */
  lemma {:induction false} SubtreeVisited(ns: seq<Node>, i: nat, e: Element)
    requires i < |ns| && ns[i] == Elem(e)
    ensures PreOrder(ns) == PreOrder(ns[..i]) + [e] + PreOrder(e.children) + PreOrder(ns[i + 1..])
    decreases i
  {
    if i == 0 {
      assert ns[..0] == [];
      assert ns[1..] == ns[i + 1..];
    } else {
      SubtreeVisited(ns[1..], i - 1, e);
      assert ns[1..][..i - 1] == ns[1..i];
      assert ns[1..][i..] == ns[i + 1..];
      PreOrderPrefix(ns, i);
    }
  }

  /** The pre-order of a prefix: the first subtree, then the pre-order of the rest of the prefix. */
  lemma PreOrderPrefix(ns: seq<Node>, i: nat)
    requires 0 < i <= |ns|
    ensures PreOrder(ns[..i]) == NodeOrder(ns[0]) + PreOrder(ns[1..i])
  {
    assert ns[..i][0] == ns[0];
    assert ns[..i][1..] == ns[1..i];
  }

  /**
   * Both dividers are written as a line of 120 dashes that `formatText` counts as a separator:
   * a `line-spacer` moves the separator counter just as a `separator` does.
   */
  lemma DividersReadAsRules(e: Element)
    requires HasClass(e, "separator") || HasClass(e, "line-spacer")
    ensures HasClass(e, "separator") ==> ElementText(e) == Ok("\n" + Dashes(RuleWidth) + "\n")
    ensures !HasClass(e, "separator") ==> ElementText(e) == Ok(Dashes(RuleWidth) + "\n")
    ensures IsRuleLine(Dashes(RuleWidth)) && !IsHeaderLine(Dashes(RuleWidth))
    ensures Split("\n" + Dashes(RuleWidth) + "\n", '\n') == ["", Dashes(RuleWidth), ""]
    ensures Split(Dashes(RuleWidth) + "\n", '\n') == [Dashes(RuleWidth), ""]
  {
    var d := Dashes(RuleWidth);
    assert d[0] == '-' && d[|d| - 1] == '-';
    TrimOfTrimmed(d);
    assert '#' !in d by {
      forall i | 0 <= i < |d| ensures d[i] != '#' { }
    }
    assert '\n' !in d by {
      forall i | 0 <= i < |d| ensures d[i] != '\n' { }
    }
    assert d[..4] == "----";
    SplitFirst(d, '\n', "");
    SplitFirst("", '\n', d + "\n");
    assert "\n" + d + "\n" == "" + ['\n'] + (d + "\n");
    assert d + "\n" == d + ['\n'] + "";
  }

  /** A non-blank header is written as `text:`, which `ensureEndsWithDot` then leaves as it is. */
  lemma HeaderKeptByFormatter(e: Element)
    requires !HasClass(e, "separator") && !HasClass(e, "line-spacer") && HasClass(e, "form-header")
    requires Trim(ChildrenText(e.children)) != []
    ensures ElementText(e) == Ok(Trim(ChildrenText(e.children)) + ":\n")
    ensures EnsureEndsWithDot(Trim(ChildrenText(e.children)) + ":") == Trim(ChildrenText(e.children)) + ":"
  {
    var t := Trim(ChildrenText(e.children));
    TrimSpec(ChildrenText(e.children));
    TrimOfTrimmed(t + ":");
  }

  /**
   * A field-group line is one normalised line ended by a newline: what precedes the newline ends
   * in punctuation and `ensureEndsWithDot` leaves it unchanged when `formatText` meets it again.
   */
  lemma FieldGroupLineNormalised(e: Element)
    requires FieldGroupText(e).Ok? && FieldGroupText(e).value != ""
    ensures var s := FieldGroupText(e).value;
      |s| >= 2 && s[|s| - 1] == '\n' && EndsWithTerminator(s[..|s| - 1])
      && EnsureEndsWithDot(s[..|s| - 1]) == s[..|s| - 1]
  {
    var s := FieldGroupText(e).value;
    var line :| s == EnsureEndsWithDot(line) + "\n";
    EnsureEndsWithDotSpec(line);
    EnsureEndsWithDotIdempotent(line);
    assert s[..|s| - 1] == EnsureEndsWithDot(line);
  }

  /** A field without a label and with a blank value is written as a lone full stop; its sub-text is dropped. */
  lemma UnlabeledBlankField(value: string, subText: string)
    requires IsBlank(value)
    ensures EnsureEndsWithDot(FieldLine("", Trim(value), subText)) == "."
  {
    TrimSpec(value);
    assert Trim("") == "";
  }

  /**
   * A labelled field with an empty value and no sub-text loses the space after its colon and
   * keeps the colon instead of gaining a full stop: `Label:`.
   */
  lemma LabeledEmptyField(labelText: string)
    requires labelText != [] && IsTrimmed(labelText)
    ensures EnsureEndsWithDot(FieldLine(labelText, "", "")) == labelText + ":"
  {
    var c := labelText + ":";
    var l := labelText + ": ";
    assert l[0] == labelText[0] && l[..|l| - 1] == c;
    assert TrimStart(l) == l;
    assert TrimEnd(l) == TrimEnd(c);
    assert c[|c| - 1] == ':';
    assert TrimEnd(c) == c;
    assert Trim(l) == c;
    assert FieldLine(labelText, "", "") == l;
  }

  /** A labelled field with a value is written `Label: value`, with a full stop unless the value ends in punctuation. */
  lemma LabeledField(labelText: string, value: string)
    requires labelText != [] && IsTrimmed(labelText)
    requires value != [] && IsTrimmed(value)
    ensures EnsureEndsWithDot(FieldLine(labelText, value, "")) ==
      labelText + ": " + value + (if EndsWithTerminator(value) then "" else ".")
  {
    var l := labelText + ": " + value;
    assert l[0] == labelText[0] && l[|l| - 1] == value[|value| - 1];
    TrimOfTrimmed(l);
  }
}
