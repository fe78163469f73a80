/** The filter form: the `Filters` record it edits, how a change event of
    one of its inputs becomes an updated record, and the reset button. */
module FilterPanel {
  import opened Wrappers
  import opened Strings

  datatype Filters = Filters(
    keyword: string,
    status: bool,
    yukiMagi: bool,
    beginnerFriendly: bool,
    minVertical: int,
    minCourses: int)

  /** The criteria that constrain nothing. The home page starts from this
      record and the reset button restores it. */
  const Default: Filters := Filters("", false, false, false, 0, 0)

  /** The `name` attribute of an input: which field of `Filters` it edits. */
  datatype Field =
    | KeywordField
    | StatusField
    | YukiMagiField
    | BeginnerFriendlyField
    | MinVerticalField
    | MinCoursesField

  /** The `type` attribute of an input. `TextInput` stands for every type
      other than `checkbox` and `number`: its value is stored as typed. */
  datatype InputType = CheckboxInput | NumberInput | TextInput

  /** The part of a change event the handler reads. */
  datatype ChangeEvent = ChangeEvent(name: Field, inputType: InputType, value: string, checked: bool)

  /** A value that can be stored in one field of `Filters`. */
  datatype FieldValue = BoolValue(b: bool) | NumberValue(n: int) | TextValue(s: string)

  function Get(f: Filters, name: Field): FieldValue {
    match name
    case KeywordField => TextValue(f.keyword)
    case StatusField => BoolValue(f.status)
    case YukiMagiField => BoolValue(f.yukiMagi)
    case BeginnerFriendlyField => BoolValue(f.beginnerFriendly)
    case MinVerticalField => NumberValue(f.minVertical)
    case MinCoursesField => NumberValue(f.minCourses)
  }

  /** `v` has the kind of value the field `name` holds. */
  predicate Fits(name: Field, v: FieldValue) {
    match name
    case KeywordField => v.TextValue?
    case StatusField | YukiMagiField | BeginnerFriendlyField => v.BoolValue?
    case MinVerticalField | MinCoursesField => v.NumberValue?
  }

  /** `{ ...f, [name]: v }`; `None` when `v` is of the wrong kind for the
      field, which no input of the panel produces. */
  function Set(f: Filters, name: Field, v: FieldValue): (r: Option<Filters>)
    ensures r.Some? <==> Fits(name, v)
    ensures r.Some? ==> Get(r.value, name) == v
    ensures r.Some? ==> forall other :: other != name ==> Get(r.value, other) == Get(f, other)
  {
    match (name, v)
    case (KeywordField, TextValue(s)) => Some(f.(keyword := s))
    case (StatusField, BoolValue(b)) => Some(f.(status := b))
    case (YukiMagiField, BoolValue(b)) => Some(f.(yukiMagi := b))
    case (BeginnerFriendlyField, BoolValue(b)) => Some(f.(beginnerFriendly := b))
    case (MinVerticalField, NumberValue(n)) => Some(f.(minVertical := n))
    case (MinCoursesField, NumberValue(n)) => Some(f.(minCourses := n))
    case _ => None
  }

  /** The value the handler computes from the event: the `checked` flag of
      a checkbox; for a number input 0 for the empty string and otherwise
      `parseInt(value, 10)` (`None` for NaN); the raw string otherwise. */
  function ProcessedValue(e: ChangeEvent): Option<FieldValue> {
    match e.inputType
    case CheckboxInput => Some(BoolValue(e.checked))
    case NumberInput =>
      if e.value == "" then Some(NumberValue(0))
      else (match ParseInt(e.value)
            case Some(n) => Some(NumberValue(n))
            case None => None)
    case TextInput => Some(TextValue(e.value))
  }

  /** `handleChange`: the record with the named field replaced by the
      processed value, every other field as before. */
  function HandleChange(f: Filters, e: ChangeEvent): (r: Option<Filters>)
    ensures r.Some? ==> forall other :: other != e.name ==> Get(r.value, other) == Get(f, other)
    ensures e.inputType == CheckboxInput ==>
              (r.Some? <==> Fits(e.name, BoolValue(false))) &&
              (r.Some? ==> Get(r.value, e.name) == BoolValue(e.checked))
    ensures e.inputType == NumberInput && e.value == "" ==>
              (r.Some? <==> Fits(e.name, NumberValue(0))) &&
              (r.Some? ==> Get(r.value, e.name) == NumberValue(0))
    ensures e.inputType == TextInput ==>
              (r.Some? <==> e.name == KeywordField) &&
              (r.Some? ==> r.value.keyword == e.value)
  {
    match ProcessedValue(e)
    case Some(v) => Set(f, e.name, v)
    case None => None
  }

  /** A number input holding a non-empty string of decimal digits stores
      the digits' base-10 value. */
  lemma HandleNumberDigits(f: Filters, e: ChangeEvent)
    requires e.inputType == NumberInput && e.name in {MinVerticalField, MinCoursesField}
    requires |e.value| > 0 && AllDigits(e.value)
    ensures HandleChange(f, e).Some?
    ensures Get(HandleChange(f, e).value, e.name) == NumberValue(DecimalValue(e.value))
  {
    ParseIntDigits(e.value);
  }

  /** A number input holding the rendering of `n` (with a minus sign when
      negative) stores `n`. */
  lemma HandleNumberRoundTrip(f: Filters, name: Field, n: int, checked: bool)
    requires name in {MinVerticalField, MinCoursesField}
    ensures var text := if n < 0 then "-" + Decimal(-n) else Decimal(n);
            HandleChange(f, ChangeEvent(name, NumberInput, text, checked)) == Set(f, name, NumberValue(n))
  {
    if n < 0 {
      ParseIntRoundTrip(-n);
      HandleNumberParsed(f, name, "-" + Decimal(-n), n, checked);
    } else {
      ParseIntRoundTrip(n);
      HandleNumberParsed(f, name, Decimal(n), n, checked);
    }
  }

  /** A number input whose text parses to `n` stores `n`. */
  lemma HandleNumberParsed(f: Filters, name: Field, text: string, n: int, checked: bool)
    requires text != "" && ParseInt(text) == Some(n)
    ensures HandleChange(f, ChangeEvent(name, NumberInput, text, checked)) == Set(f, name, NumberValue(n))
  {
    assert ProcessedValue(ChangeEvent(name, NumberInput, text, checked)) == Some(NumberValue(n));
  }

  /** The input the panel renders for a field: a text box for the keyword,
      checkboxes for the three flags, number boxes for the two minimums. */
  function PanelInputType(name: Field): InputType {
    match name
    case KeywordField => TextInput
    case StatusField | YukiMagiField | BeginnerFriendlyField => CheckboxInput
    case MinVerticalField | MinCoursesField => NumberInput
  }

  /** An event the panel's own inputs can raise: the input type belongs to
      the field, and a number box holds either nothing or a numeral. */
  predicate PanelEvent(e: ChangeEvent) {
    && e.inputType == PanelInputType(e.name)
    && (e.inputType == NumberInput ==> e.value == "" || ParseInt(e.value).Some?)
  }

  /** Every event the panel raises yields an updated record. */
  lemma PanelEventsUpdate(f: Filters, e: ChangeEvent)
    requires PanelEvent(e)
    ensures HandleChange(f, e).Some?
  {
  }

  /** `handleReset`: the default criteria, whatever the current ones. */
  function HandleReset(current: Filters): (r: Filters)
    ensures r.keyword == "" && !r.status && !r.yukiMagi && !r.beginnerFriendly
    ensures r.minVertical == 0 && r.minCourses == 0
  {
    Default
  }
}
