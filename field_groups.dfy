/**
 * The field group `addField` builds, as a document tree, and what `getFormText` writes for it:
 * the label, the control (a datalist's suggestions placed before its input), the error slot and
 * the optional sub-text, in that order.
 */
module FieldGroups {
  import opened Wrappers
  import opened JsStrings
  import opened Formatter
  import opened Serializer
  import opened FieldFactory

  /** An element with a text content and no other children. */
  function Leaf(tag: string, classes: seq<string>, value: string, text: string): Element {
    Element(tag, classes, value, [], -1, if text == "" then [] else [Text(text)])
  }

  /** The `<option>` elements of a select: the value and the text of each entry. */
  function OptionElements(options: seq<SelectOption>): seq<Element> {
    if options == [] then []
    else [Leaf("OPTION", [], ValueText(OptionValue(options[0])), OptionText(options[0]))] + OptionElements(options[1..])
  }

  /** The `<option>` elements of a datalist: the value only. */
  function SuggestionElements(options: seq<SelectOption>): seq<Element> {
    if options == [] then []
    else [Leaf("OPTION", [], ValueText(OptionValue(options[0])), "")] + SuggestionElements(options[1..])
  }

  function Nodes(es: seq<Element>): seq<Node> {
    if es == [] then [] else [Elem(es[0])] + Nodes(es[1..])
  }

  function OptionTexts(options: seq<SelectOption>): seq<string> {
    if options == [] then [] else [OptionText(options[0])] + OptionTexts(options[1..])
  }

  function ControlTag(kind: string): string {
    if kind == "select" then "SELECT" else if kind == "textarea" then "TEXTAREA" else "INPUT"
  }

  /** The control element in its current state. */
  function ControlElement(p: FieldParams, c: Control): Element {
    if p.kind == "select" then
      Element("SELECT", [], c.value, OptionTexts(p.options), c.selectedIndex, Nodes(OptionElements(p.options)))
    else Element(ControlTag(p.kind), [], c.value, [], -1, [])
  }

  function DatalistElement(p: FieldParams): Element {
    Element("DATALIST", [], "", [], -1, Nodes(SuggestionElements(p.options)))
  }

  /** The control and, for a datalist, its suggestion list in front of it. */
  function ControlPart(p: FieldParams, c: Control): seq<Node> {
    if p.kind == "datalist" then [Elem(DatalistElement(p)), Elem(ControlElement(p, c))]
    else [Elem(ControlElement(p, c))]
  }

  function ErrorElement(c: Control): Element {
    Leaf("DIV", ["error-message"], "", c.errorText)
  }

  function LabelPart(p: FieldParams): seq<Element> {
    if p.labelText != "" then [Leaf("LABEL", [], "", p.labelText)] else []
  }

  function SubPart(p: FieldParams): seq<Element> {
    if p.subText != "" then [Leaf("SPAN", ["sub-text"], "", p.subText)] else []
  }

  /** The children of the field group, in the order `addField` appends them. */
  function GroupChildren(p: FieldParams, c: Control): seq<Node> {
    Nodes(LabelPart(p)) + (ControlPart(p, c) + ([Elem(ErrorElement(c))] + Nodes(SubPart(p))))
  }

  /** The field group of control `c`, created by `addField(p)`. */
  function GroupElement(p: FieldParams, c: Control): Element {
    Element("DIV", c.groupClasses, "", [], -1, GroupChildren(p, c))
  }

  /** The walk lists what precedes the control, the control, and what follows it inside the control part. */
  function Before(p: FieldParams): seq<Element> {
    if p.kind == "datalist" then [DatalistElement(p)] + SuggestionElements(p.options) else []
  }

  function After(p: FieldParams): seq<Element> {
    if p.kind == "select" then OptionElements(p.options) else []
  }

  lemma {:induction false} PreOrderAppend(a: seq<Node>, b: seq<Node>)
    ensures PreOrder(a + b) == PreOrder(a) + PreOrder(b)
    decreases |a|
  {
    if a != [] {
      calc {
        PreOrder(a + b);
        { assert (a + b)[0] == a[0] && (a + b)[1..] == a[1..] + b; }
        NodeOrder(a[0]) + PreOrder(a[1..] + b);
        { PreOrderAppend(a[1..], b); }
        NodeOrder(a[0]) + (PreOrder(a[1..]) + PreOrder(b));
        { ConcatAssoc(NodeOrder(a[0]), PreOrder(a[1..]), PreOrder(b)); }
        PreOrder(a) + PreOrder(b);
      }
    } else {
      assert a + b == b;
    }
  }

  lemma {:induction false} ChildrenTextAppend(a: seq<Node>, b: seq<Node>)
    ensures ChildrenText(a + b) == ChildrenText(a) + ChildrenText(b)
    decreases |a|
  {
    if a == [] {
      assert a + b == b;
    } else {
      calc {
        ChildrenText(a + b);
        { assert (a + b)[0] == a[0] && (a + b)[1..] == a[1..] + b; }
        TextContent(a[0]) + ChildrenText(a[1..] + b);
        { ChildrenTextAppend(a[1..], b); }
        TextContent(a[0]) + (ChildrenText(a[1..]) + ChildrenText(b));
        { ConcatAssoc(TextContent(a[0]), ChildrenText(a[1..]), ChildrenText(b)); }
        ChildrenText(a) + ChildrenText(b);
      }
    }
  }

  /** An element whose children are at most one text node. */
  predicate IsLeaf(e: Element) {
    e.children == [] || (|e.children| == 1 && e.children[0].Text?)
  }

  lemma LeafFacts(e: Element)
    requires IsLeaf(e)
    ensures PreOrder(e.children) == []
    ensures NodeOrder(Elem(e)) == [e]
  {
    if e.children != [] {
      assert e.children[1..] == [];
    }
  }

  /** Elements without element children are listed by the walk as they are. */
  lemma {:induction false} PreOrderOfLeaves(es: seq<Element>)
    requires forall x :: x in es ==> IsLeaf(x)
    ensures PreOrder(Nodes(es)) == es
    decreases |es|
  {
    if es != [] {
      LeafFacts(es[0]);
      PreOrderOfLeaves(es[1..]);
      assert Nodes(es)[0] == Elem(es[0]) && Nodes(es)[1..] == Nodes(es[1..]);
    }
  }

  /** Option elements: leaves with tag `OPTION` and no class. */
  predicate IsOption(x: Element) {
    x.tag == "OPTION" && x.classes == [] && IsLeaf(x)
  }

  lemma {:induction false} OptionsAreLeaves(options: seq<SelectOption>)
    ensures forall x :: x in OptionElements(options) ==> IsOption(x)
    ensures forall x :: x in SuggestionElements(options) ==> IsOption(x)
    decreases |options|
  {
    if options != [] {
      OptionsAreLeaves(options[1..]);
    }
  }

  lemma ControlPartOrder(p: FieldParams, c: Control)
    ensures PreOrder(ControlPart(p, c)) == Before(p) + ([ControlElement(p, c)] + After(p))
  {
    OptionsAreLeaves(p.options);
    var ctl := ControlElement(p, c);
    if p.kind == "datalist" {
      PreOrderOfLeaves(SuggestionElements(p.options));
      var dl := DatalistElement(p);
      assert PreOrder([Elem(ctl)]) == [ctl] + [] + [];
      calc {
        PreOrder(ControlPart(p, c));
        NodeOrder(Elem(dl)) + PreOrder([Elem(ctl)]);
        ([dl] + SuggestionElements(p.options)) + [ctl];
        { assert [ctl] + [] == [ctl]; }
        Before(p) + ([ctl] + After(p));
      }
    } else if p.kind == "select" {
      PreOrderOfLeaves(OptionElements(p.options));
      calc {
        PreOrder(ControlPart(p, c));
        NodeOrder(Elem(ctl)) + PreOrder([]);
        [ctl] + OptionElements(p.options);
        [] + ([ctl] + After(p));
      }
    } else {
      assert PreOrder(ControlPart(p, c)) == [ctl] + [] + [];
      assert [] + ([ctl] + []) == [ctl];
    }
  }

  /** The walk order inside the group: label, control part, error slot, sub-text. */
  lemma GroupOrder(p: FieldParams, c: Control)
    ensures PreOrder(GroupChildren(p, c)) ==
      LabelPart(p) + (Before(p) + ([ControlElement(p, c)] + (After(p) + ([ErrorElement(c)] + SubPart(p)))))
  {
    var ctl := ControlElement(p, c);
    var err := ErrorElement(c);
    var rest := [err] + SubPart(p);
    PreOrderOfLeaves(LabelPart(p));
    PreOrderOfLeaves(SubPart(p));
    PreOrderOfLeaves([err] + SubPart(p));
    assert Nodes([err] + SubPart(p)) == [Elem(err)] + Nodes(SubPart(p));
    calc {
      PreOrder(GroupChildren(p, c));
      { PreOrderAppend(Nodes(LabelPart(p)), ControlPart(p, c) + ([Elem(err)] + Nodes(SubPart(p)))); }
      LabelPart(p) + PreOrder(ControlPart(p, c) + ([Elem(err)] + Nodes(SubPart(p))));
      { PreOrderAppend(ControlPart(p, c), [Elem(err)] + Nodes(SubPart(p))); ControlPartOrder(p, c); }
      LabelPart(p) + ((Before(p) + ([ctl] + After(p))) + rest);
      { ConcatAssoc(Before(p), [ctl] + After(p), rest); ConcatAssoc([ctl], After(p), rest); }
      LabelPart(p) + (Before(p) + ([ctl] + (After(p) + rest)));
    }
  }

  /** The first element of `a + b` matching `sel`, when nothing in `a` matches. */
  lemma {:induction false} FirstIndexSkip(a: seq<Element>, b: seq<Element>, sel: Selector)
    requires forall x :: x in a ==> !Matches(x, sel)
    ensures FirstIndex(a + b, sel) == |a| + FirstIndex(b, sel)
    decreases |a|
  {
    if a != [] {
      assert (a + b)[0] == a[0] && (a + b)[1..] == a[1..] + b;
      assert !Matches(a[0], sel);
      FirstIndexSkip(a[1..], b, sel);
    } else {
      assert a + b == b;
    }
  }

  /** The elements around the control are options and the datalist: none is a control, a label or a sub-text. */
  lemma AroundControl(p: FieldParams)
    ensures forall x :: x in Before(p) ==> x.classes == [] && x.tag in {"DATALIST", "OPTION"}
    ensures forall x :: x in After(p) ==> x.classes == [] && x.tag == "OPTION"
  {
    OptionsAreLeaves(p.options);
  }

  /** `querySelector` finds `x` when it is the first match of the walk. */
  lemma FoundAt(e: Element, pre: seq<Element>, x: Element, post: seq<Element>, sel: Selector)
    requires PreOrder(e.children) == pre + ([x] + post)
    requires forall y :: y in pre ==> !Matches(y, sel)
    requires Matches(x, sel)
    ensures QuerySelector(e, sel) == Some(x)
  {
    FirstIndexSkip(pre, [x] + post, sel);
    assert ([x] + post)[0] == x;
  }

  /** `querySelector` finds nothing when nothing in the walk matches. */
  lemma NotFound(e: Element, sel: Selector)
    requires forall y :: y in PreOrder(e.children) ==> !Matches(y, sel)
    ensures QuerySelector(e, sel) == None
  {
    FirstIndexSkip(PreOrder(e.children), [], sel);
    assert PreOrder(e.children) + [] == PreOrder(e.children);
  }

  lemma ControlLookup(p: FieldParams, c: Control)
    ensures QuerySelector(GroupElement(p, c), ControlSelector) == Some(ControlElement(p, c))
  {
    GroupOrder(p, c);
    AroundControl(p);
    var ctl := ControlElement(p, c);
    var post := After(p) + ([ErrorElement(c)] + SubPart(p));
    ConcatAssoc(LabelPart(p), Before(p), [ctl] + post);
    FoundAt(GroupElement(p, c), LabelPart(p) + Before(p), ctl, post, ControlSelector);
  }

  lemma LabelLookup(p: FieldParams, c: Control)
    ensures QuerySelector(GroupElement(p, c), LabelSelector) ==
      if p.labelText != "" then Some(Leaf("LABEL", [], "", p.labelText)) else None
  {
    GroupOrder(p, c);
    var e := GroupElement(p, c);
    if p.labelText != "" {
      var rest := Before(p) + ([ControlElement(p, c)] + (After(p) + ([ErrorElement(c)] + SubPart(p))));
      FoundAt(e, [], Leaf("LABEL", [], "", p.labelText), rest, LabelSelector);
    } else {
      AroundControl(p);
      NotFound(e, LabelSelector);
    }
  }

  lemma SubTextLookup(p: FieldParams, c: Control)
    ensures QuerySelector(GroupElement(p, c), SubTextSelector) ==
      if p.subText != "" then Some(Leaf("SPAN", ["sub-text"], "", p.subText)) else None
  {
    GroupOrder(p, c);
    AroundControl(p);
    var e := GroupElement(p, c);
    if p.subText != "" {
      var x := Leaf("SPAN", ["sub-text"], "", p.subText);
      var pre := LabelPart(p) + (Before(p) + ([ControlElement(p, c)] + (After(p) + [ErrorElement(c)])));
      ConcatAssoc(After(p), [ErrorElement(c)], [x]);
      ConcatAssoc([ControlElement(p, c)], After(p) + [ErrorElement(c)], [x]);
      ConcatAssoc(Before(p), [ControlElement(p, c)] + (After(p) + [ErrorElement(c)]), [x]);
      ConcatAssoc(LabelPart(p), Before(p) + ([ControlElement(p, c)] + (After(p) + [ErrorElement(c)])), [x]);
      assert [x] + [] == [x];
      FoundAt(e, pre, x, [], SubTextSelector);
    } else {
      NotFound(e, SubTextSelector);
    }
  }

  /** The value `getFormText` reads from the control: the selected option's text for a select. */
  function ShownValue(p: FieldParams, c: Control): string
    requires p.kind == "select" ==> 0 <= c.selectedIndex < |p.options|
  {
    if p.kind == "select" then OptionText(p.options[c.selectedIndex]) else c.value
  }

  lemma {:induction false} OptionTextsSpec(options: seq<SelectOption>, i: nat)
    requires i < |options|
    ensures |OptionTexts(options)| == |options| && OptionTexts(options)[i] == OptionText(options[i])
    decreases |options|
  {
    if i > 0 {
      OptionTextsSpec(options[1..], i - 1);
    } else {
      OptionTextsLength(options[1..]);
    }
  }

  lemma {:induction false} OptionTextsLength(options: seq<SelectOption>)
    ensures |OptionTexts(options)| == |options|
    decreases |options|
  {
    if options != [] {
      OptionTextsLength(options[1..]);
    }
  }

  /** A class list that does not make the group a divider, a header or a `proc` element. */
  predicate PlainClasses(ws: seq<string>) {
    forall i :: 0 <= i < |ws| ==> ws[i] != "separator" && ws[i] != "line-spacer" && ws[i] != "form-header" && !StartsWith(ws[i], "proc")
  }

  /** The `<name>-group` class is none of the special classes, and starts with `proc` exactly when the name does. */
  lemma NameGroupClass(name: string)
    ensures var g := name + "-group";
      && g != "separator" && g != "line-spacer" && g != "form-header"
      && (StartsWith(g, "proc") <==> StartsWith(name, "proc"))
  {
    var g := name + "-group";
    assert g[|g| - 6..] == "-group";
    if |name| >= 4 {
      assert g[..4] == name[..4];
    } else {
      assert g[|name|] == '-';
      assert !StartsWith(g, "proc");
    }
  }

  lemma GroupClassesPlain(p: FieldParams)
    requires IsClassToken(p.name) && !StartsWith(p.name, "proc") && PlainClasses(ClassTokens(p.className))
    ensures PlainClasses(GroupClasses(p))
  {
    GroupClassesOf(p);
    NameGroupClass(p.name);
    assert !StartsWith("field-group", "proc") && !StartsWith("required-field", "proc");
  }

  /** A group whose classes are plain is written as a field group. */
  lemma GroupDispatch(p: FieldParams, c: Control)
    requires c.groupClasses == GroupClasses(p)
    requires IsClassToken(p.name) && !StartsWith(p.name, "proc") && PlainClasses(ClassTokens(p.className))
    ensures ElementText(GroupElement(p, c)) == FieldGroupText(GroupElement(p, c))
  {
    var e := GroupElement(p, c);
    GroupClassesPlain(p);
    GroupClassesOf(p);
    assert HasClass(e, "field-group");
    assert !HasClass(e, "separator") && !HasClass(e, "line-spacer") && !HasClass(e, "form-header");
    assert !HasClassWithPrefix(e, "proc");
  }

  /** The label text `getFormText` reads from the group. */
  lemma LabelFound(p: FieldParams, c: Control)
    ensures (match QuerySelector(GroupElement(p, c), LabelSelector)
             case Some(l) => Trim(DropFinalColon(ChildrenText(l.children)))
             case None => "") == Trim(DropFinalColon(p.labelText))
  {
    LabelLookup(p, c);
    if p.labelText != "" {
      var l := Leaf("LABEL", [], "", p.labelText);
      assert l.children == [Text(p.labelText)];
      assert ChildrenText([Text(p.labelText)]) == p.labelText + "";
      assert p.labelText + "" == p.labelText;
      assert ChildrenText(l.children) == p.labelText;
      assert QuerySelector(GroupElement(p, c), LabelSelector) == Some(l);
    } else {
      assert DropFinalColon(p.labelText) == "";
      TrimOfTrimmed("");
    }
  }

  /** The sub-text `getFormText` reads from the group. */
  lemma SubTextFound(p: FieldParams, c: Control)
    ensures TrimmedText(QuerySelector(GroupElement(p, c), SubTextSelector)) == Trim(p.subText)
  {
    SubTextLookup(p, c);
    if p.subText != "" {
      var l := Leaf("SPAN", ["sub-text"], "", p.subText);
      assert l.children == [Text(p.subText)];
      assert ChildrenText([Text(p.subText)]) == p.subText + "";
      assert p.subText + "" == p.subText;
      assert ChildrenText(l.children) == p.subText;
      assert QuerySelector(GroupElement(p, c), SubTextSelector) == Some(l);
    } else {
      TrimOfTrimmed("");
    }
  }

  /** The control `getFormText` finds, and the value it reads from it. */
  lemma ValueFound(p: FieldParams, c: Control)
    requires p.kind == "select" ==> 0 <= c.selectedIndex < |p.options|
    ensures QuerySelector(GroupElement(p, c), ControlSelector).Some?
    ensures var input := QuerySelector(GroupElement(p, c), ControlSelector).value;
      && (input.tag == "SELECT" <==> p.kind == "select")
      && (input.tag == "SELECT" ==> 0 <= input.selectedIndex < |input.options| && input.options[input.selectedIndex] == ShownValue(p, c))
      && (input.tag != "SELECT" ==> input.value == ShownValue(p, c))
  {
    ControlLookup(p, c);
    if p.kind == "select" {
      OptionTextsSpec(p.options, c.selectedIndex);
    }
  }

  /** The field-group line: the label, the shown value and the sub-text found by the three lookups. */
  lemma GroupLine(p: FieldParams, c: Control)
    requires p.kind == "select" ==> 0 <= c.selectedIndex < |p.options|
    ensures FieldGroupText(GroupElement(p, c)) ==
      Ok(EnsureEndsWithDot(FieldLine(Trim(DropFinalColon(p.labelText)), Trim(ShownValue(p, c)), Trim(p.subText))) + "\n")
  {
    LabelFound(p, c);
    SubTextFound(p, c);
    ValueFound(p, c);
  }

  /**
   * The line `getFormText` writes for a field group built by `addField`, when neither the name
   * nor the extra classes make it a divider, a header or a `proc` element: label (one final
   * colon dropped), current value and sub-text, normalised, then a newline.
   */
  lemma FieldGroupSerialized(p: FieldParams, c: Control)
    requires c.groupClasses == GroupClasses(p)
    requires IsClassToken(p.name) && !StartsWith(p.name, "proc") && PlainClasses(ClassTokens(p.className))
    requires p.kind == "select" ==> 0 <= c.selectedIndex < |p.options|
    ensures ElementText(GroupElement(p, c)) ==
      Ok(EnsureEndsWithDot(FieldLine(Trim(DropFinalColon(p.labelText)), Trim(ShownValue(p, c)), Trim(p.subText))) + "\n")
  {
    GroupDispatch(p, c);
    GroupLine(p, c);
  }

  lemma LeafText(tag: string, classes: seq<string>, value: string, text: string)
    ensures ChildrenText([Elem(Leaf(tag, classes, value, text))]) == text
  {
    assert ChildrenText([Elem(Leaf(tag, classes, value, text))]) == ChildrenText(Leaf(tag, classes, value, text).children) + "";
    if text != "" {
      assert ChildrenText([Text(text)]) == text + "";
    }
  }

  /** The text contents of the label, the error slot and the sub-text. */
  lemma PartTexts(p: FieldParams, c: Control)
    ensures ChildrenText(Nodes(LabelPart(p))) == p.labelText
    ensures ChildrenText([Elem(ErrorElement(c))]) == c.errorText
    ensures ChildrenText(Nodes(SubPart(p))) == p.subText
  {
    LeafText("DIV", ["error-message"], "", c.errorText);
    if p.labelText != "" {
      LeafText("LABEL", [], "", p.labelText);
      assert Nodes(LabelPart(p)) == [Elem(Leaf("LABEL", [], "", p.labelText))];
    }
    if p.subText != "" {
      LeafText("SPAN", ["sub-text"], "", p.subText);
      assert Nodes(SubPart(p)) == [Elem(Leaf("SPAN", ["sub-text"], "", p.subText))];
    }
  }

  /**
   * A text-like field whose name starts with `proc` gets the class `proc…-group` and is written
   * as a `proc` element: the trimmed text content of the group (label, error text and sub-text run
   * together), without the field's value.
   */
  lemma ProcNamedFieldLosesValue(p: FieldParams, c: Control)
    requires c.groupClasses == GroupClasses(p) && IsClassToken(p.name) && StartsWith(p.name, "proc")
    requires p.kind != "select" && p.kind != "datalist" && PlainClasses(ClassTokens(p.className))
    ensures ElementText(GroupElement(p, c)) == Ok(Trim(p.labelText + c.errorText + p.subText) + "\n")
  {
    var e := GroupElement(p, c);
    GroupClassesOf(p);
    NameGroupClass(p.name);
    assert e.classes[1] == p.name + "-group";
    assert HasClassWithPrefix(e, "proc");
    assert !HasClass(e, "separator") && !HasClass(e, "line-spacer") && !HasClass(e, "form-header");
    var lab := Nodes(LabelPart(p));
    var err := [Elem(ErrorElement(c))];
    var sub := Nodes(SubPart(p));
    PartTexts(p, c);
    assert ChildrenText(ControlPart(p, c)) == "" + "";
    calc {
      ChildrenText(e.children);
      { ChildrenTextAppend(lab, ControlPart(p, c) + (err + sub)); }
      p.labelText + ChildrenText(ControlPart(p, c) + (err + sub));
      { ChildrenTextAppend(ControlPart(p, c), err + sub); }
      p.labelText + ("" + ChildrenText(err + sub));
      { ChildrenTextAppend(err, sub); }
      p.labelText + ("" + (c.errorText + p.subText));
      { assert "" + (c.errorText + p.subText) == c.errorText + p.subText; }
      p.labelText + (c.errorText + p.subText);
      { ConcatAssoc(p.labelText, c.errorText, p.subText); }
      p.labelText + c.errorText + p.subText;
    }
  }

  /** Elements with none of the classes `processElement` looks at write nothing. */
  lemma SilentElement(x: Element)
    requires x.classes == [] || x.classes == ["error-message"] || x.classes == ["sub-text"]
    ensures ElementText(x) == Ok("")
  {
    assert "error-message"[0] != "proc"[0] && "sub-text"[0] != "proc"[0];
  }

  /** Walking elements that each write nothing leaves the text as it was. */
  lemma {:induction false} EmitSilent(acc: string, es: seq<Element>)
    requires forall x :: x in es ==> ElementText(x) == Ok("")
    ensures EmitFrom(acc, es) == Ok(acc)
    decreases |es|
  {
    if es != [] {
      assert es[0] in es;
      assert acc + "" == acc;
      assert forall x :: x in es[1..] ==> x in es;
      EmitSilent(acc, es[1..]);
    }
  }

  /** Every element inside a field group (label, datalist, options, control, error slot, sub-text) writes nothing. */
  lemma GroupPartsSilent(p: FieldParams, c: Control)
    ensures forall x :: x in PreOrder(GroupChildren(p, c)) ==> ElementText(x) == Ok("")
  {
    GroupOrder(p, c);
    AroundControl(p);
    forall x | x in PreOrder(GroupChildren(p, c))
      ensures ElementText(x) == Ok("")
    {
      assert x.classes == [] || x.classes == ["error-message"] || x.classes == ["sub-text"];
      SilentElement(x);
    }
  }

  /**
   * `getFormText` descends into the field group, but its descendants add nothing: the whole
   * subtree writes what the group element itself writes.
   */
  lemma GroupSubtreeWrites(acc: string, p: FieldParams, c: Control)
    ensures EmitFrom(acc, NodeOrder(Elem(GroupElement(p, c)))) == AfterElement(acc, GroupElement(p, c))
  {
    var e := GroupElement(p, c);
    EmitSubtree(acc, e, []);
    assert NodeOrder(Elem(e)) + [] == NodeOrder(Elem(e));
    GroupPartsSilent(p, c);
    match AfterElement(acc, e) {
      case Ok(s) => EmitSilent(s, PreOrder(e.children));
      case Err(_) =>
    }
  }

  /** The walk over a field group built by `addField` writes its one line and nothing else. */
  lemma FieldGroupWalk(acc: string, p: FieldParams, c: Control)
    requires c.groupClasses == GroupClasses(p)
    requires IsClassToken(p.name) && !StartsWith(p.name, "proc") && PlainClasses(ClassTokens(p.className))
    requires p.kind == "select" ==> 0 <= c.selectedIndex < |p.options|
    ensures EmitFrom(acc, NodeOrder(Elem(GroupElement(p, c)))) ==
      Ok(acc + (EnsureEndsWithDot(FieldLine(Trim(DropFinalColon(p.labelText)), Trim(ShownValue(p, c)), Trim(p.subText))) + "\n"))
  {
    GroupSubtreeWrites(acc, p, c);
    FieldGroupSerialized(p, c);
  }

  /** The walk over a text-like field named `proc…` writes the group's trimmed text content and nothing else. */
  lemma ProcNamedFieldWalk(acc: string, p: FieldParams, c: Control)
    requires c.groupClasses == GroupClasses(p) && IsClassToken(p.name) && StartsWith(p.name, "proc")
    requires p.kind != "select" && p.kind != "datalist" && PlainClasses(ClassTokens(p.className))
    ensures EmitFrom(acc, NodeOrder(Elem(GroupElement(p, c)))) == Ok(acc + (Trim(p.labelText + c.errorText + p.subText) + "\n"))
  {
    GroupSubtreeWrites(acc, p, c);
    ProcNamedFieldLosesValue(p, c);
  }
}
