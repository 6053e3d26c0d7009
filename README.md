# A verified model of the `Page` form builder

`js/core_page.js` defines `Page`, a browser class that builds a medical report form. It creates a
container, adds field groups, headers, dividers and input lists, and keeps a `formData`
dictionary in step with what the user types. It then reads the form back into plain text
(`getFormText`) and normalises that text (`formatText`, `formatLineGroup`, `ensureEndsWithDot`)
before it is copied. This project models that core in Dafny and proves what the code promises.

The model is split into modules that follow the parts of the class:

- `JsStrings` (`js_strings.dfy`): the JavaScript string built-ins the class relies on.
  - `trim`, with the JavaScript whitespace set.
  - `split` and `join`, including empty pieces.
  - `includes` and `startsWith`.
  - `classList` tokenisation on ASCII whitespace.
  - Decimal printing and `padStart(2, '0')`.
- `Formatter` and `FormatterSections` (`formatter.dfy`, `formatter_sections.dfy`): the text
  normaliser.
  - `Formatted` is the specification: a left fold of one loop step over the lines.
  - `FormatText` is the loop of `formatText`, proved equal to `Formatted`.
  - `FormatLineGroup` is the pairing loop of `formatLineGroup`.
  - Lemmas say which lines end up merged in pairs. Only lines strictly between the second and
    third divider are merged. Headers lose every `#`, and no `#` ever reaches the output.
  - A header inside the target section flushes the lines buffered so far, is written on its
    own line, and leaves the section open: the lines after it form a new group.
- `Serializer` (`serializer.dfy`): `getFormText` over a document tree.
  - The specification is a walk of the form's elements in document order (pre-order), each
    element contributing the text `processElement` gives it.
  - `ProcessContainer` and `GetFormText` are the recursive method and are proved equal to
    that walk.
  - The walk fails exactly when it meets a field group whose select has no selected option (the
    source then throws).
- `FieldFactory` (`field_factory.dfy`): the `Page` object as a `class`.
  - Its fields are `formData`, the controls created by `addField` and the input lists.
  - Its methods are `addField`, the `blur` and `input` listeners, the input-list operations,
    `removeField` and `clearForm`.
  - The selection rule of a `<select>` is modelled explicitly: the last marked option wins,
    otherwise the first option, and -1 with no options.
- `FieldGroups` (`field_groups.dfy`): the element tree `addField` builds. It proves what
  `getFormText` writes for it: `label: value sub-text.` with one trailing colon dropped from
  the label.
- `PageConfig` (`page_config.dfy`): `validateConfig`, `createContainerByType`, `addHeader`
  and the class composition of `createElement`.
- `Clock` (`clock.dfy`): the strings of `getCurrentDate` and `setCurrentTimeRounded`. The
  clock reading is a parameter.

Where the documentation of the system and its code disagree, the model follows the code:

- `processContainer` descends into every child element, not only into sections. The `if` that
  was meant to guard the recursion has an empty body.
- A `datalist` field, and a `select` given a value, never store anything in `formData` when
  created.
- The error slot of a new field is `inline-block`, not hidden. A `blur` without an error hides
  it.
- The stored values of an input list are refreshed only by typing in one of its items. Adding
  or removing an item leaves `formData` as it was.

## Model

| member | source | states |
|---|---|---|
| Formatter.EnsureEndsWithDot | js/core_page.js:1166-1178 | models `ensureEndsWithDot`: trim, and add `.` unless the line ends in `.!?,:`; its properties are stated by `EnsureEndsWithDotSpec`, `EnsureEndsWithDotIdempotent` and `EnsureEndsWithDotChars` |
| Formatter.EnsureEndsWithDotSpec | js/core_page.js:1166-1178 | the result is trimmed and ends in one of `.!?,:`; it equals the trimmed line exactly when that already ends so, and is the trimmed line plus `.` otherwise |
| Formatter.EnsureEndsWithDotIdempotent | js/core_page.js:1166-1178 | normalising a normalised line changes nothing |
| Formatter.EnsureEndsWithDotChars | js/core_page.js:1171-1173 | the only character normalisation can add is `.` |
| Formatter.NormalizedIsNotBlank | js/core_page.js:1166-1178 | a normalised line is never blank (an empty line becomes `.`) |
| Formatter.NormalizeAll | js/core_page.js:1193-1195 | normalising keeps one line per input line |
| Formatter.NormalizeAllFixed | js/core_page.js:1193-1195 | lines that are already normalised are kept as they are |
| Formatter.PairsFromLines | js/core_page.js:1202-1209 | the loop from line `2k` on writes the remaining pairs, each followed by a newline |
| Formatter.PairUpLines | js/core_page.js:1199-1212 | the output is one line per pair: lines `2k` and `2k+1` joined by a space, and a lone last line followed by a space |
| Formatter.PairUpSplit | js/core_page.js:1199-1212 | splitting the output at newlines gives back the paired lines and one empty tail |
| Formatter.FormatLineGroup | js/core_page.js:1188-1213 | the loop returns the pairing of the non-blank lines of the group, each normalised |
| Formatter.GroupRoundTrip | js/core_page.js:1133-1135 | joining the buffered lines with newlines and preparing them again gives back exactly the buffered lines |
| Formatter.FlushPending | js/core_page.js:1133-1135 | flushing a buffered group writes the pairing of its lines |
| Formatter.Step | js/core_page.js:1079-1129 | models one pass of the loop of `formatText`: a blank line is skipped, a header flushes the group, a divider is counted, other lines are buffered in the target section and written elsewhere; `StepInv`, `StepBuffered`, `StepRule`, `StepHeader` and `StepNoHash` state what it does |
| Formatter.Feed | js/core_page.js:1078-1130 | models the whole loop as a left fold of `Step`; `FeedInv`, `FeedOutside`, `FeedTarget`, `FeedSection` and `FeedNoHash` state what it does |
| Formatter.Formatted | js/core_page.js:1068-1138 | the specification of `formatText`: split at newlines, fold, flush the group left over, trim; `FormatText` is proved equal to it and the `FormatterSections` lemmas state which lines it pairs |
| Formatter.StepInv | js/core_page.js:1078-1130 | one loop step keeps the loop state consistent: the target flag holds exactly after two dividers, and lines wait in the group only there, already normalised |
| Formatter.FeedInv | js/core_page.js:1078-1130 | the loop state stays consistent over every line of the text |
| Formatter.FormatText | js/core_page.js:1068-1138 | the loop returns exactly the fold `Formatted` of the text's lines |
| FormatterSections.FeedOutside | js/core_page.js:1126-1129 | before the second divider and after the third, every non-blank line is written normalised on its own line, and nothing is buffered |
| FormatterSections.StepBuffered | js/core_page.js:1123-1125 | inside the target section a plain line is buffered normalised (a blank one is skipped), and nothing is written |
| FormatterSections.FeedTarget | js/core_page.js:1122-1125 | inside the target section the group collects the normalised non-blank lines in order |
| FormatterSections.StepRule | js/core_page.js:1106-1119 | a divider flushes the group, is written followed by an empty line, counts one more divider, and opens the target section exactly when it is the second |
| FormatterSections.FeedToTarget | js/core_page.js:1106-1119 | after two dividers with no divider before them, nothing is buffered and the target section is open |
| FormatterSections.FeedAfterThird | js/core_page.js:1115-1116 | the third divider flushes the group and closes the section for good |
| FormatterSections.OnlySecondSectionMerged | js/core_page.js:1068-1138 | with three or more dividers and no header between the second and third, only the lines between them are paired; all other lines are written one by one |
| FormatterSections.TrailingSectionMerged | js/core_page.js:1132-1137 | with exactly two dividers and no header after the second, the lines after it are paired and flushed at the end |
| FormatterSections.StepHeader | js/core_page.js:1085-1097 | a header line flushes the buffered group, is written with its `#` removed, and empties the group; the divider count and the target section stay as they were |
| FormatterSections.FeedSection | js/core_page.js:1078-1130 | inside the target section, runs of plain lines separated by headers are flushed run by run as each header comes, each header written after its run, and the last run stays buffered |
| FormatterSections.SectionMergedAroundHeaders | js/core_page.js:1068-1138 | with three or more dividers and any headers between the second and third, the lines there are paired run by run between the headers; all other lines are written one by one |
| FormatterSections.TrailingSectionAroundHeaders | js/core_page.js:1132-1137 | with exactly two dividers and any headers after the second, the runs between headers are paired as each header comes, and the last run is paired at the end |
| FormatterSections.FewSeparatorsNothingMerged | js/core_page.js:1115-1129 | with fewer than two dividers nothing is paired: the output is every line written on its own |
| FormatterSections.StepNoHash | js/core_page.js:1085-1097 | one step never writes or buffers a `#` |
| FormatterSections.FeedNoHash | js/core_page.js:1078-1130 | no `#` is written or buffered over the whole loop |
| FormatterSections.ReportHasNoHash | js/core_page.js:1085-1097 | the formatted text contains no `#`: header lines lose theirs, and other lines never had one |
| Serializer.ElementText | js/core_page.js:966-1029 | models `processElement`: the text of one element by its classes, dividers, headers, `proc` elements, field groups, and nothing for the rest; `ElementFailsIffBrokenSelect`, `DividersReadAsRules`, `HeaderKeptByFormatter` and the field lemmas state what it writes |
| Serializer.FieldGroupText | js/core_page.js:994-1023 | models the field-group branch: look up control, label and sub-text and write them as one normalised line; `FieldGroupLineNormalised`, `LabeledField` and `FieldGroups.GroupLine` state what it writes |
| Serializer.FirstIndex | js/core_page.js:996-998 | `querySelector` finds the first element of the walk that matches, and none before it |
| Serializer.ProcessContainer | js/core_page.js:1032-1054 | the recursive method appends, to the accumulated text, the text of every element below the container in document order |
| Serializer.GetFormText | js/core_page.js:946-1061 | the method returns the walk of the whole form, trimmed |
| Serializer.ElementFailsIffBrokenSelect | js/core_page.js:1009-1012 | an element's text fails exactly when it is a field group whose control is a select with no option at its selected index |
| Serializer.WalkResult | js/core_page.js:1034-1053 | the walk fails exactly when some visited element is such a broken select group; otherwise it is the concatenation of the element texts |
| Serializer.FormTextFailsIffBrokenSelect | js/core_page.js:946-1061 | `getFormText` fails exactly when the form holds a broken select group; otherwise it is the trimmed concatenation of every element's text in document order |
| Serializer.SubtreeVisited | js/core_page.js:1042-1051 | every child element is descended into: its whole subtree is visited right after it and before its next sibling |
| Serializer.EmitFromAppend | js/core_page.js:1034-1040 | walking two runs of elements is walking the first and continuing with the second, a failure ending the walk |
| Serializer.DividersReadAsRules | js/core_page.js:968-977 | a separator is written as a line of 120 dashes between newlines and a line spacer as that line and a newline; the formatter reads that line as a divider and not as a header |
| Serializer.HeaderKeptByFormatter | js/core_page.js:980-988 | a non-blank header is written as its trimmed text and a colon, and the formatter keeps that line as it is |
| Serializer.FieldGroupLineNormalised | js/core_page.js:1018-1023 | a field group's text is a single normalised line followed by a newline |
| Serializer.UnlabeledBlankField | js/core_page.js:1018-1023 | an unlabelled field with a blank value is written as `.` |
| Serializer.LabeledEmptyField | js/core_page.js:1018-1023 | a labelled field with an empty value and no sub-text is written as the label and a colon |
| Serializer.LabeledField | js/core_page.js:1018-1023 | a labelled field is written as `label: value`, with a final `.` unless the value already ends in punctuation |
| FieldFactory.LastMarked | js/core_page.js:550-563 | the loop's running index is the last option so far marked selected, or -1 if none is |
| FieldFactory.SelectedIndex | js/core_page.js:549-563 | the select shows the last marked option, the first when none is marked, and -1 exactly when there are no options |
| FieldFactory.DocumentedSelectExamples | js/core_page.js:424-481 | the documented examples select as their comments say: the first option by default, an option by value, an option by index |
| FieldFactory.SeedValue | js/core_page.js:565-608 | models what `addField` stores in `formData` for a new field; `SeedRules`, `SeedVersusSelection` and `SelectWithValueNotSeeded` state it |
| FieldFactory.InitialValue | js/core_page.js:546-608 | models the value a new control shows: the selected option's value for a select, nothing for a datalist, the given value otherwise; `SeedVersusSelection` and `SelectWithValueNotSeeded` relate it to what is stored |
| FieldFactory.NewControl | js/core_page.js:483-620 | models the control `addField` creates; `NewControlSlot` and `GroupClassesOf` state its error slot and classes |
| FieldFactory.AfterBlur | js/core_page.js:622-631 | models the `blur` listener; `BlurShowsErrorIffBlank` states it |
| FieldFactory.AfterInput | js/core_page.js:634-640 | models the `input` listener's effect on the control; `InputHidesShownError` states it |
| FieldFactory.ListValues | js/core_page.js:724-728 | models `getInputListValues`; `ListValuesSpec` and `ListValuesOrder` state it |
| FieldFactory.SeedRules | js/core_page.js:565-608 | a text-like field stores its value; a select stores its first option's value only with an empty value and a truthy first option; a datalist stores nothing; other keys are kept |
| FieldFactory.SeedVersusSelection | js/core_page.js:558-568 | when a select seeds `formData`, the first option is shown exactly when no later option has an empty value, and then the stored value is the shown one |
| FieldFactory.SelectWithValueNotSeeded | js/core_page.js:558-568 | a select given the value of one of its options stores nothing and shows that option or a later marked one |
| FieldFactory.NewControlSlot | js/core_page.js:514-520 | a new field's error slot is empty and shown as `inline-block`, and the field is attached under its name |
| FieldFactory.GroupClassesOf | js/core_page.js:502-508 | the group's classes are `field-group`, `<name>-group`, the extra classes, and `required-field` for a required field |
| FieldFactory.BlurShowsErrorIffBlank | js/core_page.js:622-631 | leaving a field shows the validation message exactly when the field is required and blank, and hides the slot otherwise; a second blur changes nothing |
| FieldFactory.InputHidesShownError | js/core_page.js:634-640 | typing hides a shown error and leaves any other display alone; the next blur shows an error exactly when the field is required and the typed value is blank |
| FieldFactory.ListValuesSpec | js/core_page.js:724-728 | the list values are exactly the items that are not blank, untrimmed, and never more than the items |
| FieldFactory.ListValuesOrder | js/core_page.js:724-728 | the values keep the order of the items |
| FieldFactory.FirstGroup | js/core_page.js:1249-1251 | the group found is the first attached group in the form that carries the class, and none before it does |
| FieldFactory.ClearControls | js/core_page.js:1257-1258 | clearing the form keeps one entry per control |
| FieldFactory.ClearLists | js/core_page.js:1257-1258 | clearing the form keeps one entry per input list |
| FieldFactory.ClearDetachesForm | js/core_page.js:1257-1260 | after clearing, a control stays attached exactly when it was attached outside the form |
| FieldFactory.ClearListsDetachesForm | js/core_page.js:1257-1258 | after clearing, an input list stays attached exactly when it was attached outside the form; its name, items and place are kept |
| FieldFactory.Page.constructor | js/core_page.js:56-57 | a new page has an empty `formData`, no fields and no lists |
| FieldFactory.Page.AddField | js/core_page.js:483-653 | without a name it fails and changes nothing; otherwise it appends the new control and seeds `formData` by the seed rules |
| FieldFactory.Page.Blur | js/core_page.js:622-631 | only the blurred control changes, as `AfterBlur` says |
| FieldFactory.Page.Input | js/core_page.js:634-640 | the control takes the typed value, and `formData` stores it under the field's name |
| FieldFactory.Page.CreateInputList | js/core_page.js:665-683 | a new list with one item per initial value is appended, and `formData` is unchanged |
| FieldFactory.Page.AddInputListItem | js/core_page.js:688-719 | the list gains an item with the value at its end, and `formData` is unchanged |
| FieldFactory.Page.RemoveListItem | js/core_page.js:705 | the item leaves the list, and `formData` is unchanged |
| FieldFactory.Page.ListItemInput | js/core_page.js:712-717 | the item takes the typed value, and `formData` stores the list's non-blank values under its base name |
| FieldFactory.Page.RemoveField | js/core_page.js:1249-1252 | the first group in the form with class `<name>-group` is detached, and `formData` is unchanged |
| FieldFactory.Page.ClearForm | js/core_page.js:1257-1260 | `formData` becomes empty, and everything inside the form is detached |
| FieldGroups.GroupElement | js/core_page.js:495-619 | models the element tree `addField` builds: a `div` with the group classes holding label, datalist, control, options, error slot and sub-text; `GroupOrder` and the lookup lemmas state its shape |
| FieldGroups.ControlPartOrder | js/core_page.js:572-611 | a datalist's suggestions come before its input, and a select's options after it |
| FieldGroups.GroupOrder | js/core_page.js:526-619 | the group's elements in document order: label, datalist and suggestions, control, options, error slot, sub-text |
| FieldGroups.ControlLookup | js/core_page.js:997 | the control lookup finds the field's own control |
| FieldGroups.LabelLookup | js/core_page.js:996 | the label lookup finds the label exactly when the field has one |
| FieldGroups.SubTextLookup | js/core_page.js:998 | the sub-text lookup finds the sub-text exactly when the field has one |
| FieldGroups.LabelFound | js/core_page.js:1003 | the label read back is the label text with one final colon dropped, trimmed |
| FieldGroups.SubTextFound | js/core_page.js:1015 | the sub-text read back is the sub-text, trimmed |
| FieldGroups.ValueFound | js/core_page.js:1006-1012 | the value read back is the text of the selected option for a select and the current value otherwise |
| FieldGroups.NameGroupClass | js/core_page.js:503 | the `<name>-group` class is not a divider or header class, and starts with `proc` exactly when the name does |
| FieldGroups.GroupClassesPlain | js/core_page.js:503-508 | a group whose name and extra classes are plain carries no divider, header or `proc` class |
| FieldGroups.GroupDispatch | js/core_page.js:994 | such a group is written by the field-group branch |
| FieldGroups.GroupLine | js/core_page.js:1001-1023 | the field-group branch writes `label: value sub-text`, normalised, and a newline |
| FieldGroups.FieldGroupSerialized | js/core_page.js:994-1023 | a field group built by `addField` is written as its label, current value and sub-text on one normalised line |
| FieldGroups.ProcNamedFieldLosesValue | js/core_page.js:990-992 | a text-like field whose name starts with `proc` is written as the trimmed text of its label, error and sub-text, without its value |
| FieldGroups.GroupSubtreeWrites | js/core_page.js:1039-1051 | walking a field group and every element below it writes only what the group itself writes: its label, control, options, suggestions, error slot and sub-text write nothing |
| FieldGroups.FieldGroupWalk | js/core_page.js:994-1051 | walking a field group built by `addField` together with its whole subtree writes exactly its one line: label, current value and sub-text, normalised |
| FieldGroups.ProcNamedFieldWalk | js/core_page.js:990-1051 | walking a `proc`-named text-like field together with its whole subtree writes exactly the trimmed text of its label, error and sub-text |
| Clock.ShownTime | js/core_page.js:819-841 | models the hour and minute `setCurrentTimeRounded` shows, rounded or not; `ShownTimeSpec` and `RoundedTimeSpec` state it |
| Clock.TimeText | js/core_page.js:843-850 | models the `HH:MM` string; `TimeTextReadsBack` states it |
| Clock.DateText | js/core_page.js:796-800 | models the `DD.MM.YYYY` string of `getCurrentDate`; `DateTextReadsBack` states it |
| Clock.RoundMinutes | js/core_page.js:832 | the rounded minutes are a multiple of ten, less than five below and at most five above the reading |
| Clock.RoundedTimeSpec | js/core_page.js:830-841 | the rounded time is a clock time on a ten-minute mark, at most 4 minutes before or 5 after the reading, across midnight too |
| Clock.ShownTimeSpec | js/core_page.js:819-841 | the shown time is a valid clock time: the reading itself unrounded, on a ten-minute mark rounded |
| Clock.TimeTextReadsBack | js/core_page.js:843-850 | the time string is two digits, a colon and two digits that read back as the shown hour and minute |
| Clock.DateTextReadsBack | js/core_page.js:796-800 | the date string splits at its dots into two-digit day, two-digit 1-based month and the year, each reading back |
| PageConfig.ValidateConfig | js/core_page.js:175-190 | the configuration passes exactly when the container kind is one of the four and the form class is a non-blank string; the kind is checked first |
| PageConfig.CreateContainerByType | js/core_page.js:212-228 | a container is created for each of the four kinds, with the given kind and class, and any other kind is an error |
| PageConfig.ValidConfigCreatesContainer | js/core_page.js:197-206 | a validated configuration always yields its container |
| PageConfig.DefaultConfigIsValid | js/core_page.js:42-46 | with nothing given, the defaults pass: a `form` with class `form-group` |
| PageConfig.MakeHeader | js/core_page.js:379-382 | a header is made exactly for levels 1 to 6 |
| PageConfig.HeaderClasses | js/core_page.js:384-386 | the header's classes are `form-header` and `form-header--<level>` |
| PageConfig.HeaderSerialized | js/core_page.js:384-386 | a header in the form is written as its trimmed text and a colon, or not at all when blank |
| PageConfig.ComposeClassName | js/core_page.js:305-314 | models the class string `createElement` gives an element, with the substring test of the code; `ComposeClassNameSpec` and `SubstringTestMissesClass` state it |
| PageConfig.ComposeClassNameSpec | js/core_page.js:305-314 | the given classes stay in front; with automatic classes on for a named element the string contains `proc-<name>`; otherwise it is unchanged; composing twice changes nothing |
| PageConfig.SubstringTestMissesClass | js/core_page.js:309 | with class `proc-ab`, an element named `a` gets no `proc-a` class |
| PageConfig.ComposeClassListSpec | js/core_page.js:305-314 | with a class-list test, a named element with automatic classes always carries the class `proc-<name>`; the given classes stay in front; composing twice changes nothing |

## Left out

- DOM styling (colours, borders, sizes), `innerHTML`, element ids, `htmlFor` and the `list` attribute: none of them affects text, values or `formData`.
- Persistence (`saveToLocalStorage`, `updateFormFields`, `clearLocalStorage`, `getFormData`): it relies on `localStorage` and JSON, which are browser I/O.
- The copy pipeline (`copyFormText`, `copyToClipboard`, `showCopySuccess`, `showCopyError`): it is an asynchronous clipboard call plus notices. Its text is `GetFormText` followed by `FormatText`, and a failure of `GetFormText` goes to the error notice.
- The body-surface-area code (`calculateBSA`, `updateResultField` and the `focus` listener that calls them): it is floating-point work with a timer.
- Page chrome: `setPageTitle`, `showVersion`, `findExistingContainer`, `addDiv` and `renderNavList`. They are page I/O or DOM lookups.
- The parent lookup of `createElement` by selector, and its text: only its class composition is modelled.
- Input-list item ids from `Date.now()`: they are clock I/O and affect no value.
- The `Date` reading: `getCurrentDate` and `setCurrentTimeRounded` take the clock reading as parameters, and the console message is not modelled.
- The commented-out code (the first `formatLineGroup` and `setCurrentDate`) and the module export shim: they are not live logic.
- Document order of field groups: `removeField` finds the first matching group in creation order among the groups in the form. This equals document order when groups are appended in creation order. Nested containers created later are not ordered.
- Invalid selectors: a name that is not a valid CSS class makes `querySelector` throw in `removeField`. The model treats every name as a class.
- Numbers: JavaScript numbers are modelled as integers. A header level that is `NaN` or not an integer is not modelled.
- FieldFactory.Page.Input: typing in a select does not change its `selectedIndex` in the model. In the browser, choosing an option moves the selection.
- Checkbox and radio controls: they are modelled as text-like inputs with a value. Their `checked` state is not modelled.
- FormatterSections.OnlySecondSectionMerged: it covers a target section with no header in it; `SectionMergedAroundHeaders` covers headers there.
- FormatterSections.TrailingSectionMerged: it covers a trailing section with no header in it; `TrailingSectionAroundHeaders` covers headers there.
- PageConfig.CreateContainerByType: the object lookup of the code also finds inherited keys such as `toString`, so such a kind would not raise the error. The model treats it as unsupported. Its only caller passes a kind that `validateConfig` has accepted, so the case is not reached.
- Browser value sanitisation: assigning `input.value` (js/core_page.js:606 and :697) strips line breaks from a text input and drops a non-numeric value from a number input. `InitialValue`, `Page.Input` and the list items keep the string as given.
- Option text: `selectedOption.text` (js/core_page.js:1011) collapses runs of whitespace inside the text. The model reads the raw option text, trimmed.
- The default `value = ['']` of `createInputList` (js/core_page.js:665): the model's `CreateInputList` always takes the initial values explicitly.
- Option objects that have only one of `text` and `value` (js/core_page.js:551-553): the model has plain options and options with both.
- FieldGroups.FieldGroupSerialized: it requires a class-token name that does not start with `proc`, and extra classes with no divider, header or `proc` class. Other names are covered by `ProcNamedFieldLosesValue` for text-like fields only.

## Findings

| source | as written | input that shows it | evidently intended | confidence | as-written member | corrected member |
|---|---|---|---|---|---|---|
| js/core_page.js:309 | `createElement` adds `proc-<name>` only if the class string does not already contain it as a substring | `className: 'proc-ab'`, `name: 'a'`: the string contains `proc-a`, so no class `proc-a` is added | every named element with automatic classes carries the class `proc-<name>`, as the first and third documented examples (js/core_page.js:274-278, 287-292) show; the second (js/core_page.js:280-285) says a given class is used alone, which neither the code nor the third example does | high, not executed | PageConfig.SubstringTestMissesClass | PageConfig.ComposeClassListSpec |
