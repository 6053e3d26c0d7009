/**
 * The per-field state of a page: `addField` with its option selection and `formData`
 * seeding, the blur and input reactions of a field, the dynamic input lists, and the
 * effect of `removeField` and `clearForm` on that state. The document itself is abstracted
 * to one record per created control and per input list.
 */
module FieldFactory {
  import opened Wrappers
  import opened JsStrings

  /** A parameter value as `===` compares it: a string or an (integer) number. */
  datatype FieldValue = Str(s: string) | Num(n: int)

  /** `String(v)`: what a control's `value` reads back after `v` was assigned to it. */
  function ValueText(v: FieldValue): string {
    match v
    case Str(s) => s
    case Num(n) => IntToString(n)
  }

  /** An entry of `options`: a bare value, or an object `{value, text}`. */
  datatype SelectOption = Plain(v: FieldValue) | Pair(value: FieldValue, text: string)

  /** `opt.value !== undefined ? opt.value : opt`. */
  function OptionValue(o: SelectOption): FieldValue {
    match o
    case Plain(v) => v
    case Pair(v, _) => v
  }

  /** `opt.text !== undefined ? opt.text : opt`, as the option's text content. */
  function OptionText(o: SelectOption): string {
    match o
    case Plain(v) => ValueText(v)
    case Pair(_, t) => t
  }

  /** Truthiness of an entry: an object always, a string unless empty, a number unless 0. */
  predicate Truthy(o: SelectOption) {
    match o
    case Pair(_, _) => true
    case Plain(Str(s)) => s != ""
    case Plain(Num(n)) => n != 0
  }

  /** Option i gets `selected = true`: `(value === '' && i === 0) || value === optionValue || value === i`. */
  predicate MarkedSelected(value: FieldValue, options: seq<SelectOption>, i: nat)
    requires i < |options|
  {
    (value == Str("") && i == 0) || value == OptionValue(options[i]) || value == Num(i)
  }

  /** The last of the first n options marked selected, or -1 when none of them is. */
  function LastMarked(value: FieldValue, options: seq<SelectOption>, n: nat): (k: int)
    requires n <= |options|
    ensures -1 <= k < n
    ensures k >= 0 ==> MarkedSelected(value, options, k)
    ensures forall j :: k < j < n ==> !MarkedSelected(value, options, j)
  {
    if n == 0 then -1
    else if MarkedSelected(value, options, n - 1) then n - 1
    else LastMarked(value, options, n - 1)
  }

  /**
   * The `selectedIndex` of the built `<select>`: marking an option selected unselects the
   * others, so the last marked option wins; with none marked the first option is shown
   * selected, and a select without options has index -1.
   */
  function SelectedIndex(value: FieldValue, options: seq<SelectOption>): (k: int)
    ensures -1 <= k < |options|
    ensures k == -1 <==> options == []
    ensures (exists i :: 0 <= i < |options| && MarkedSelected(value, options, i)) ==>
      k >= 0 && MarkedSelected(value, options, k) && forall j :: k < j < |options| ==> !MarkedSelected(value, options, j)
    ensures options != [] && (forall i :: 0 <= i < |options| ==> !MarkedSelected(value, options, i)) ==> k == 0
  {
    var m := LastMarked(value, options, |options|);
    if m >= 0 then m else if options != [] then 0 else -1
  }

  /** The parameters of `addField`, defaults already applied. */
  datatype FieldParams = FieldParams(
    kind: string, name: string, labelText: string, value: FieldValue, options: seq<SelectOption>,
    subText: string, required: bool, className: string, validationMessage: string)

  /** The documented defaults: a required text field with an empty value. */
  function DefaultParams(name: string): FieldParams {
    FieldParams("text", name, "", Str(""), [], "", true, "", "Это поле обязательно для заполнения")
  }

  /** What `addField` writes to `formData[name]`, if anything. */
  function SeedValue(p: FieldParams): Option<FieldValue> {
    if p.kind == "select" then
      if |p.options| > 0 && p.value == Str("") && Truthy(p.options[0]) then Some(OptionValue(p.options[0])) else None
    else if p.kind == "datalist" then None
    else Some(p.value)
  }

  /** The kinds of stored values: a field's value, or the values of an input list. */
  datatype StoredValue = Scalar(v: FieldValue) | List(items: seq<string>)

  function Seeded(formData: map<string, StoredValue>, p: FieldParams): map<string, StoredValue> {
    match SeedValue(p)
    case Some(v) => formData[p.name := Scalar(v)]
    case None => formData
  }

  /** The `display` of a field's error slot. */
  datatype ErrorDisplay = InlineBlock | Block | Hidden

  /**
   * A control created by `addField` with its error slot: the current `value`, the
   * `selectedIndex` of a select (-1 otherwise), whether its field group sits inside the form,
   * whether it is still in the document, and the classes of its field group.
   */
  datatype Control = Control(
    name: string, kind: string, required: bool, value: string, selectedIndex: int,
    validationMessage: string, errorDisplay: ErrorDisplay, errorText: string,
    inForm: bool, attached: bool, groupClasses: seq<string>)

  /** The classes of the field group: `field-group <name>-group <className>`, plus `required-field`. */
  function GroupClasses(p: FieldParams): seq<string> {
    ClassTokens("field-group " + p.name + "-group " + p.className) + (if p.required then ["required-field"] else [])
  }

  /** The control's `value` right after `addField`: the selected option's value for a select, nothing for a datalist. */
  function InitialValue(p: FieldParams): string {
    if p.kind == "select" then
      var k := SelectedIndex(p.value, p.options);
      if k >= 0 then ValueText(OptionValue(p.options[k])) else ""
    else if p.kind == "datalist" then ""
    else ValueText(p.value)
  }

  function NewControl(p: FieldParams, inForm: bool): Control {
    Control(p.name, p.kind, p.required, InitialValue(p),
            if p.kind == "select" then SelectedIndex(p.value, p.options) else -1,
            p.validationMessage, InlineBlock, "", inForm, true, GroupClasses(p))
  }

  /** The `blur` listener: show the message when a required field is blank, hide the slot otherwise. */
  function AfterBlur(c: Control): Control {
    if c.required && Trim(c.value) == [] then c.(errorDisplay := Block, errorText := c.validationMessage)
    else c.(errorDisplay := Hidden)
  }

  /** The `input` listener on the control: the new value, and a shown error hidden. */
  function AfterInput(c: Control, v: string): Control {
    c.(value := v, errorDisplay := if c.errorDisplay == Block then Hidden else c.errorDisplay)
  }

  /** An input list: its base name, the values of the item inputs still in it, and where it sits. */
  datatype InputList = InputList(baseName: string, items: seq<string>, inForm: bool, attached: bool)

  /** `getInputListValues`: the item values that are not blank, untrimmed and in order. */
  function ListValues(items: seq<string>): seq<string> {
    FilterNonBlank(items)
  }

  /** The index of the first field group in the form carrying class `cls`, or `|cs|`. */
  function FirstGroup(cs: seq<Control>, cls: string): (k: nat)
    ensures k <= |cs|
    ensures k < |cs| ==> cs[k].attached && cs[k].inForm && cls in cs[k].groupClasses
    ensures forall j :: 0 <= j < k ==> !(cs[j].attached && cs[j].inForm && cls in cs[j].groupClasses)
  {
    if cs == [] then 0
    else if cs[0].attached && cs[0].inForm && cls in cs[0].groupClasses then 0
    else 1 + FirstGroup(cs[1..], cls)
  }

  /** The controls after the form's content is discarded: every control inside the form leaves the document. */
  function ClearControls(cs: seq<Control>): (r: seq<Control>)
    ensures |r| == |cs|
  {
    seq(|cs|, i requires 0 <= i < |cs| => if cs[i].inForm then cs[i].(attached := false) else cs[i])
  }

  /** The input lists after the form's content is discarded: every list inside the form leaves the document. */
  function ClearLists(ls: seq<InputList>): (r: seq<InputList>)
    ensures |r| == |ls|
  {
    seq(|ls|, i requires 0 <= i < |ls| => if ls[i].inForm then ls[i].(attached := false) else ls[i])
  }

  /**
   * Blur shows the validation message exactly for a required field whose value is blank, and
   * hides the slot otherwise; a second blur changes nothing, and the value is untouched.
   */
  lemma BlurShowsErrorIffBlank(c: Control)
    ensures AfterBlur(c).errorDisplay == Block <==> c.required && IsBlank(c.value)
    ensures AfterBlur(c).errorDisplay == Block ==> AfterBlur(c).errorText == c.validationMessage
    ensures AfterBlur(c).errorDisplay != InlineBlock
    ensures AfterBlur(c).value == c.value && AfterBlur(AfterBlur(c)) == AfterBlur(c)
  {
    TrimSpec(c.value);
  }

  /**
   * Input never leaves the message shown, but only a shown message is hidden: the initial
   * `inline-block` slot stays as it is. A blur after the input judges the new value.
   */
  lemma InputHidesShownError(c: Control, v: string)
    ensures AfterInput(c, v).errorDisplay != Block
    ensures c.errorDisplay != Block ==> AfterInput(c, v).errorDisplay == c.errorDisplay
    ensures AfterBlur(AfterInput(c, v)).errorDisplay == Block <==> c.required && IsBlank(v)
  {
    BlurShowsErrorIffBlank(AfterInput(c, v));
  }

  /** A new control's error slot is visible but empty until the first blur. */
  lemma NewControlSlot(p: FieldParams, inForm: bool)
    ensures NewControl(p, inForm).errorDisplay == InlineBlock && NewControl(p, inForm).errorText == ""
    ensures NewControl(p, inForm).attached && NewControl(p, inForm).name == p.name
  {
  }

  /**
   * Only a select with value `''`, options, and a truthy first entry is seeded, with the first
   * entry's value; a datalist is never seeded; every other kind stores its value as given.
   */
  lemma SeedRules(formData: map<string, StoredValue>, p: FieldParams)
    ensures p.kind == "datalist" ==> Seeded(formData, p) == formData
    ensures p.kind != "select" && p.kind != "datalist" ==> Seeded(formData, p) == formData[p.name := Scalar(p.value)]
    ensures p.kind == "select" && p.value == Str("") && |p.options| > 0 && Truthy(p.options[0]) ==>
      Seeded(formData, p) == formData[p.name := Scalar(OptionValue(p.options[0]))]
    ensures p.kind == "select" && (p.value != Str("") || p.options == [] || !Truthy(p.options[0])) ==> Seeded(formData, p) == formData
    ensures forall k :: k != p.name && k in formData ==> k in Seeded(formData, p) && Seeded(formData, p)[k] == formData[k]
  {
  }

  /**
   * When a select is seeded, the shown option is the first one exactly when no later option has
   * the value `''` (such an option is also marked, and the last marked option wins), so the
   * stored value and the shown option can disagree.
   */
  lemma SeedVersusSelection(p: FieldParams)
    requires p.kind == "select" && SeedValue(p).Some?
    ensures SelectedIndex(p.value, p.options) == 0 <==> forall i :: 0 < i < |p.options| ==> OptionValue(p.options[i]) != Str("")
    ensures SelectedIndex(p.value, p.options) == 0 ==> InitialValue(p) == ValueText(SeedValue(p).value)
  {
    var k := SelectedIndex(p.value, p.options);
    assert MarkedSelected(p.value, p.options, 0);
    if k == 0 {
      forall i | 0 < i < |p.options| ensures OptionValue(p.options[i]) != Str("") {
        assert !MarkedSelected(p.value, p.options, i);
      }
    } else {
      assert MarkedSelected(p.value, p.options, k);
    }
  }

  /** A select whose value names an option is never seeded: the option is shown, `formData` keeps its old entry. */
  lemma SelectWithValueNotSeeded(formData: map<string, StoredValue>, p: FieldParams, i: nat)
    requires p.kind == "select" && p.value != Str("") && i < |p.options| && OptionValue(p.options[i]) == p.value
    ensures Seeded(formData, p) == formData
    ensures SelectedIndex(p.value, p.options) >= i && MarkedSelected(p.value, p.options, SelectedIndex(p.value, p.options))
  {
    assert MarkedSelected(p.value, p.options, i);
  }

  /** The select examples of the `addField` documentation. */
  lemma DocumentedSelectExamples()
    ensures var gender := [Plain(Str("Мужской")), Plain(Str("Женский"))];
      SelectedIndex(Str(""), gender) == 0 && SeedValue(FieldParams("select", "gender", "Пол:", Str(""), gender, "", true, "", "")) == Some(Str("Мужской"))
    ensures var blood := [Pair(Str("O"), "O (I)"), Pair(Str("A"), "A (II)")];
      SelectedIndex(Str("A"), blood) == 1 && SeedValue(FieldParams("select", "blood_group", "", Str("A"), blood, "", true, "", "")) == None
    ensures SelectedIndex(Num(1), [Plain(Str("+ (положительный)")), Plain(Str("- (отрицательный)"))]) == 1
    ensures var groups := [Plain(Str("O (I)")), Plain(Str("A (II)")), Plain(Str("B (III)"))];
      SelectedIndex(Str(""), groups) == 0 && SelectedIndex(Str("A (II)"), groups) == 1 && SelectedIndex(Num(2), groups) == 2
  {
    var groups := [Plain(Str("O (I)")), Plain(Str("A (II)")), Plain(Str("B (III)"))];
    assert MarkedSelected(Str("A (II)"), groups, 1);
    assert MarkedSelected(Num(2), groups, 2);
    assert !MarkedSelected(Str("A (II)"), groups, 2);
  }

  /**
   * The list values: exactly the items that are not blank, each as typed (untrimmed), in
   * their order in the list.
   */
  lemma ListValuesSpec(items: seq<string>, x: string)
    ensures x in ListValues(items) <==> x in items && !IsBlank(x)
    ensures |ListValues(items)| <= |items|
  {
    FilterNonBlankMembers(items, x);
  }

  lemma ListValuesOrder(front: seq<string>, back: seq<string>)
    ensures ListValues(front + back) == ListValues(front) + ListValues(back)
  {
    FilterNonBlankAppend(front, back);
  }

  /** The group of a field whose name is one class token carries `field-group` and `<name>-group`. */
  lemma GroupClassesOf(p: FieldParams)
    requires IsClassToken(p.name)
    ensures GroupClasses(p) == ["field-group", p.name + "-group"] + ClassTokens(p.className)
                               + (if p.required then ["required-field"] else [])
  {
    var g := p.name + "-group";
    assert IsClassToken(g) by {
      assert forall i :: 0 <= i < |p.name| ==> g[i] == p.name[i];
      assert forall i :: |p.name| <= i < |g| ==> g[i] in "-group";
    }
    assert IsClassToken("field-group");
    ClassTokensCons(g, p.className);
    assert "field-group " + p.name + "-group " + p.className == "field-group" + " " + (g + " " + p.className);
    ClassTokensCons("field-group", g + " " + p.className);
  }

  /** After `clearForm` no control of the form is left in the document; controls elsewhere stay. */
  lemma ClearDetachesForm(cs: seq<Control>, i: nat)
    requires i < |cs|
    ensures ClearControls(cs)[i].attached <==> cs[i].attached && !cs[i].inForm
    ensures ClearControls(cs)[i].value == cs[i].value && ClearControls(cs)[i].name == cs[i].name
  {
  }

  /**
   * Clearing the form detaches exactly the input lists inside it; a list placed outside the form
   * stays attached, and every list keeps its base name, its items and its place.
   */
  lemma ClearListsDetachesForm(ls: seq<InputList>, i: nat)
    requires i < |ls|
    ensures ClearLists(ls)[i].attached <==> ls[i].attached && !ls[i].inForm
    ensures ClearLists(ls)[i].baseName == ls[i].baseName && ClearLists(ls)[i].items == ls[i].items
    ensures ClearLists(ls)[i].inForm == ls[i].inForm
  {
  }

  datatype FieldError = NameRequired

  /** The page object, reduced to its field state. */
  class Page {
    var formData: map<string, StoredValue>
    var controls: seq<Control>
    var lists: seq<InputList>

    constructor ()
      ensures formData == map[] && controls == [] && lists == []
    {
      formData := map[];
      controls := [];
      lists := [];
    }

    /**
     * `addField`: an empty name fails before anything changes; otherwise a new control is added,
     * its select option chosen by the marking loop, and `formData` seeded as `SeedValue` says.
     */
    method AddField(p: FieldParams, inForm: bool) returns (r: Result<nat, FieldError>)
      modifies this
      ensures p.name == "" ==> r == Err(NameRequired) && unchanged(this)
      ensures p.name != "" ==> && r == Ok(old(|controls|))
                               && controls == old(controls) + [NewControl(p, inForm)]
                               && formData == Seeded(old(formData), p)
                               && lists == old(lists)
    {
      if p.name == "" {
        return Err(NameRequired);
      }
      var selected := -1;
      if p.kind == "select" && |p.options| > 0 {
        for i := 0 to |p.options|
          invariant selected == LastMarked(p.value, p.options, i)
        {
          if (p.value == Str("") && i == 0) || p.value == OptionValue(p.options[i]) || p.value == Num(i) {
            selected := i;
          }
        }
        if selected == -1 {
          selected := 0;
        }
        if p.value == Str("") && Truthy(p.options[0]) {
          formData := formData[p.name := Scalar(OptionValue(p.options[0]))];
        }
      }
      var value := "";
      if p.kind == "select" {
        if selected >= 0 {
          value := ValueText(OptionValue(p.options[selected]));
        }
      } else if p.kind != "datalist" {
        value := ValueText(p.value);
        formData := formData[p.name := Scalar(p.value)];
      }
      var control := Control(p.name, p.kind, p.required, value, selected, p.validationMessage,
                             InlineBlock, "", inForm, true, GroupClasses(p));
      controls := controls + [control];
      r := Ok(|controls| - 1);
    }

    /** The control loses focus. */
    method Blur(h: nat)
      requires h < |controls|
      modifies this
      ensures controls == old(controls)[h := AfterBlur(old(controls[h]))]
      ensures formData == old(formData) && lists == old(lists)
    {
      var c := controls[h];
      if c.required && Trim(c.value) == [] {
        c := c.(errorDisplay := Block, errorText := c.validationMessage);
      } else {
        c := c.(errorDisplay := Hidden);
      }
      controls := controls[h := c];
    }

    /** The user changes the control's value to `v`. */
    method Input(h: nat, v: string)
      requires h < |controls|
      modifies this
      ensures controls == old(controls)[h := AfterInput(old(controls[h]), v)]
      ensures formData == old(formData)[controls[h].name := Scalar(Str(v))]
      ensures lists == old(lists)
    {
      var c := controls[h];
      formData := formData[c.name := Scalar(Str(v))];
      c := c.(value := v);
      if c.errorDisplay == Block {
        c := c.(errorDisplay := Hidden);
      }
      controls := controls[h := c];
    }

    /** `addInputListItem`: one more item input; `formData` is not refreshed. */
    method AddInputListItem(l: nat, value: string)
      requires l < |lists|
      modifies this
      ensures lists == old(lists)[l := old(lists[l]).(items := old(lists[l].items) + [value])]
      ensures formData == old(formData) && controls == old(controls)
    {
      lists := lists[l := lists[l].(items := lists[l].items + [value])];
    }

    /** `createInputList`: an empty list, then one item per initial value, in order. */
    method CreateInputList(baseName: string, values: seq<string>, inForm: bool) returns (l: nat)
      modifies this
      ensures l == old(|lists|)
      ensures lists == old(lists) + [InputList(baseName, values, inForm, true)]
      ensures formData == old(formData) && controls == old(controls)
    {
      lists := lists + [InputList(baseName, [], inForm, true)];
      l := |lists| - 1;
      for i := 0 to |values|
        invariant |lists| == l + 1 && lists[..l] == old(lists)
        invariant lists[l] == InputList(baseName, values[..i], inForm, true)
        invariant formData == old(formData) && controls == old(controls)
      {
        AddInputListItem(l, values[i]);
        assert values[..i + 1] == values[..i] + [values[i]];
      }
      assert values[..|values|] == values;
    }

    /** The remove button of item k: the item leaves the list; `formData` is not refreshed. */
    method RemoveListItem(l: nat, k: nat)
      requires l < |lists| && k < |lists[l].items|
      modifies this
      ensures lists == old(lists)[l := old(lists[l]).(items := old(lists[l].items[..k] + lists[l].items[k + 1..]))]
      ensures formData == old(formData) && controls == old(controls)
    {
      lists := lists[l := lists[l].(items := lists[l].items[..k] + lists[l].items[k + 1..])];
    }

    /** The `input` listener of item k: the item's new value, then the list's values stored under its base name. */
    method ListItemInput(l: nat, k: nat, v: string)
      requires l < |lists| && k < |lists[l].items|
      modifies this
      ensures lists == old(lists)[l := old(lists[l]).(items := old(lists[l].items)[k := v])]
      ensures formData == old(formData)[lists[l].baseName := List(ListValues(lists[l].items))]
      ensures controls == old(controls)
    {
      lists := lists[l := lists[l].(items := lists[l].items[k := v])];
      formData := formData[lists[l].baseName := List(ListValues(lists[l].items))];
    }

    /** `removeField`: the first field group in the form with class `<name>-group` leaves the document; `formData` keeps the value. */
    method RemoveField(name: string)
      modifies this
      ensures var k := FirstGroup(old(controls), name + "-group");
        controls == if k < |old(controls)| then old(controls)[k := old(controls[k]).(attached := false)] else old(controls)
      ensures formData == old(formData) && lists == old(lists)
    {
      var k := FirstGroup(controls, name + "-group");
      if k < |controls| {
        controls := controls[k := controls[k].(attached := false)];
      }
    }

    /** `clearForm`: the form's content is discarded and `formData` emptied. */
    method ClearForm()
      modifies this
      ensures formData == map[]
      ensures controls == ClearControls(old(controls)) && lists == ClearLists(old(lists))
    {
      controls := ClearControls(controls);
      lists := ClearLists(lists);
      formData := map[];
    }
  }
}
