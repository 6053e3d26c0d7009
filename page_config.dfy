/**
 * The checks and small builders of the page: `validateConfig`, `createContainerByType`,
 * the level check and class list of `addHeader`, and the class composition of
 * `createElement`.
 */
module PageConfig {
  import opened Wrappers
  import opened JsStrings
  import opened Serializer

  /** A configuration entry as the spread `{...defaults, ...config}` leaves it. */
  datatype Setting = Absent | Given(s: string) | NotString

  /** The kinds of main container (`Page.ContainerType`). */
  const ContainerTypes: seq<string> := ["form", "div", "section", "article"]

  datatype Config = Config(formClass: string, initType: string)

  datatype ConfigError = UnsupportedContainer | EmptyFormClass

  /** The defaults `formClass: 'form-group'` and `initType: 'form'`, overridden by what the caller gave. */
  function Merge(given: Setting, default: string): Setting {
    if given == Absent then Given(default) else given
  }

  /**
   * `validateConfig` on the merged configuration: the container kind is checked first, then the
   * form class, which must be a string with something other than whitespace in it.
   */
  function ValidateConfig(formClass: Setting, initType: Setting): (r: Result<Config, ConfigError>)
    ensures r.Ok? <==> && Merge(initType, "form").Given? && Merge(initType, "form").s in ContainerTypes
                       && Merge(formClass, "form-group").Given? && !IsBlank(Merge(formClass, "form-group").s)
    ensures r.Ok? ==> r.value.initType in ContainerTypes && !IsBlank(r.value.formClass)
    ensures r == Err(EmptyFormClass) ==> Merge(initType, "form").Given? && Merge(initType, "form").s in ContainerTypes
  {
    var t := Merge(initType, "form");
    var c := Merge(formClass, "form-group");
    if !(t.Given? && t.s in ContainerTypes) then Err(UnsupportedContainer)
    else if !c.Given? || (TrimSpec(c.s); Trim(c.s) == []) then Err(EmptyFormClass)
    else Ok(Config(c.s, t.s))
  }

  /** A created container: its tag and its `className`. */
  datatype Container = Container(tag: string, className: string)

  /** `createContainerByType`: one of the four factories, each giving its element the form class. */
  function CreateContainerByType(kind: string, formClass: string): (r: Result<Container, ConfigError>)
    ensures r.Ok? <==> kind in ContainerTypes
    ensures r.Ok? ==> r.value == Container(kind, formClass)
  {
    if kind == "form" then Ok(Container("form", formClass))
    else if kind == "div" then Ok(Container("div", formClass))
    else if kind == "section" then Ok(Container("section", formClass))
    else if kind == "article" then Ok(Container("article", formClass))
    else Err(UnsupportedContainer)
  }

  /** A configuration that passed validation always yields a container of its kind with its class. */
  lemma ValidConfigCreatesContainer(formClass: Setting, initType: Setting)
    requires ValidateConfig(formClass, initType).Ok?
    ensures var cfg := ValidateConfig(formClass, initType).value;
      CreateContainerByType(cfg.initType, cfg.formClass) == Ok(Container(cfg.initType, cfg.formClass))
  {
  }

  /** With nothing given the defaults pass: a `form` with class `form-group`. */
  lemma DefaultConfigIsValid()
    ensures ValidateConfig(Absent, Absent) == Ok(Config("form-group", "form"))
  {
    TrimOfTrimmed("form-group");
  }

  datatype HeaderError = LevelOutOfRange

  /** `addHeader`: levels 1 to 6 give an `h<level>` with classes `form-header form-header--<level>`. */
  function MakeHeader(text: string, level: int): (r: Result<Element, HeaderError>)
    ensures r.Ok? <==> 1 <= level <= 6
  {
    if level < 1 || level > 6 then Err(LevelOutOfRange)
    else
      var d := NatToString(level);
      Ok(Element("H" + d, ClassTokens("form-header form-header--" + d), "", [], -1, [Text(text)]))
  }

  /** The header's class list: `form-header` and `form-header--<level>`. */
  lemma HeaderClasses(text: string, level: int)
    requires 1 <= level <= 6
    ensures MakeHeader(text, level).value.classes == ["form-header", "form-header--" + NatToString(level)]
  {
    var d := NatToString(level);
    var w := "form-header--" + d;
    assert IsDigit(d[0]) && |d| == 1;
    assert IsClassToken(w) by {
      assert w[13] == d[0];
      forall i | 0 <= i < 13 ensures !IsAsciiSpace(w[i]) {
        assert w[i] == "form-header--"[i];
      }
    }
    assert IsClassToken("form-header");
    assert "form-header form-header--" + d == "form-header" + " " + w;
    ClassTokensCons("form-header", w);
    ClassTokensSingle(w);
  }

  /**
   * A header placed inside the form is written by `getFormText` as its trimmed text and a colon,
   * or not at all when blank (a header inserted before the form is never visited).
   */
  lemma HeaderSerialized(text: string, level: int)
    requires 1 <= level <= 6
    ensures ElementText(MakeHeader(text, level).value) == Ok(if Trim(text) == [] then "" else Trim(text) + ":\n")
  {
    var e := MakeHeader(text, level).value;
    HeaderClasses(text, level);
    assert |"form-header--" + NatToString(level)| == 14;
    assert !HasClass(e, "separator") && !HasClass(e, "line-spacer") && HasClass(e, "form-header");
    assert ChildrenText(e.children) == text + "" == text;
  }

  /** The class `proc-<name>` that `createElement` adds. */
  function ProcClass(name: string): string {
    "proc-" + name
  }

  /**
   * `createElement`'s class composition, as written: `proc-<name>` is appended when automatic
   * classes are on, the name is non-empty and the class string does not already contain it as
   * a substring.
   */
  function ComposeClassName(className: string, name: string, autoProc: bool): string {
    if autoProc && name != "" && !IsSubstring(ProcClass(name), className) then
      if className != "" then className + " " + ProcClass(name) else ProcClass(name)
    else className
  }

  /**
   * The composed string starts with the given classes and, when automatic classes are on for a
   * named element, contains `proc-<name>`; composing again changes nothing.
   */
  lemma ComposeClassNameSpec(className: string, name: string, autoProc: bool)
    ensures StartsWith(ComposeClassName(className, name, autoProc), className)
    ensures autoProc && name != "" ==> IsSubstring(ProcClass(name), ComposeClassName(className, name, autoProc))
    ensures !autoProc || name == "" ==> ComposeClassName(className, name, autoProc) == className
    ensures ComposeClassName(ComposeClassName(className, name, autoProc), name, autoProc) == ComposeClassName(className, name, autoProc)
  {
    var r := ComposeClassName(className, name, autoProc);
    if autoProc && name != "" && !IsSubstring(ProcClass(name), className) {
      if className != "" {
        SubstringOfSuffix(ProcClass(name), className + " ");
        assert r == className + " " + ProcClass(name);
        assert r[..|className|] == className;
      } else {
        SubstringOfSuffix(ProcClass(name), "");
        assert "" + ProcClass(name) == ProcClass(name);
      }
    }
  }

  /**
   * The substring test can be met by a longer class: with class `proc-ab` an element named `a`
   * does not get the class `proc-a`.
   */
  lemma SubstringTestMissesClass()
    ensures ComposeClassName("proc-ab", "a", true) == "proc-ab"
    ensures ProcClass("a") !in ClassTokens(ComposeClassName("proc-ab", "a", true))
  {
    assert StartsWith("proc-ab", "proc-a");
    ClassTokensSingle("proc-ab");
  }

  /** The composition tested against the class list instead of the class string. */
  function ComposeClassList(className: string, name: string, autoProc: bool): string {
    if autoProc && name != "" && ProcClass(name) !in ClassTokens(className) then
      if className != "" then className + " " + ProcClass(name) else ProcClass(name)
    else className
  }

  /**
   * With the class-list test, a named element with automatic classes always carries the class
   * `proc-<name>`, the given classes are kept in front, and composing again changes nothing.
   */
  lemma ComposeClassListSpec(className: string, name: string, autoProc: bool)
    requires IsClassToken(name)
    ensures autoProc ==> ProcClass(name) in ClassTokens(ComposeClassList(className, name, autoProc))
    ensures StartsWith(ComposeClassList(className, name, autoProc), className)
    ensures ComposeClassList(ComposeClassList(className, name, autoProc), name, autoProc) == ComposeClassList(className, name, autoProc)
    ensures !autoProc ==> ComposeClassList(className, name, autoProc) == className
  {
    var p := ProcClass(name);
    assert IsClassToken(p) by {
      assert forall i :: 0 <= i < |p| ==> (i < 5 && p[i] in "proc-") || (i >= 5 && p[i] == name[i - 5]);
    }
    var r := ComposeClassList(className, name, autoProc);
    if autoProc && p !in ClassTokens(className) {
      if className != "" {
        TokenOfAppended(className, p);
        assert r[..|className|] == className;
      } else {
        ClassTokensSingle(p);
      }
    }
  }
}
