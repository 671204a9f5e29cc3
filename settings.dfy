/**
 * Option objects of the settings forms (Settings.py): the error record, the
 * validator chain, combo-box entries, the screen-rectangle check of
 * WidgetPosition, and the Option class whose state the forms update in place.
 */
module Settings {
  import W = Wrappers
  import opened PyValues

  /** Settings.py's ErrorDescription dataclass; equality is field-wise, as for a dataclass. */
  datatype ErrorDescription = ErrorDescription(ErrorCode: int, ErrorMessage: string)

  const ErrorDescriptionSuccess: ErrorDescription := ErrorDescription(0, "")

  /** A validator: a callable from an option value to an ErrorDescription. */
  type Validator = Json -> ErrorDescription

  /**
   * The validator loop of Option.Check and of CheckNewValue: success when the list
   * is empty (None is treated as empty) or every validator succeeds, and otherwise
   * the result of the first failing validator in list order.
   */
  function FirstFailure(validators: seq<Validator>, v: Json): (r: ErrorDescription)
    ensures r == ErrorDescriptionSuccess <==>
              forall i :: 0 <= i < |validators| ==> validators[i](v) == ErrorDescriptionSuccess
    ensures r != ErrorDescriptionSuccess ==>
              exists k :: 0 <= k < |validators| && validators[k](v) == r &&
                forall j :: 0 <= j < k ==> validators[j](v) == ErrorDescriptionSuccess
  {
    if |validators| == 0 then ErrorDescriptionSuccess
    else if validators[0](v) != ErrorDescriptionSuccess then validators[0](v)
    else FirstFailure(validators[1..], v)
  }

  /** One combo-box entry; Name defaults to `str(Value)`, with `str` a parameter. */
  datatype ComboBoxValue = ComboBoxValue(Value: Json, Name: string)

  /** Python's `str(v)`: a string is its own text; other values go to `repr`. */
  function PyStr(v: Json, repr: Json -> string): string
  {
    if v.JStr? then v.s else repr(v)
  }

  /** ComboBoxValue.__init__(Value, Name=None). */
  function MakeComboBoxValue(value: Json, name: W.Option<string>, repr: Json -> string): (c: ComboBoxValue)
    ensures c.Value == value
    ensures name.Some? ==> c.Name == name.value
    ensures name.None? && value.JStr? ==> c.Name == value.s
    ensures name.None? && !value.JStr? ==> c.Name == repr(value)
  {
    ComboBoxValue(value, if name.Some? then name.value else PyStr(value, repr))
  }

  const POSITION_LEFT: string := "Left"
  const POSITION_TOP: string := "Top"
  const POSITION_WIDTH: string := "Width"
  const POSITION_HEIGHT: string := "Height"

  /** WidgetPosition.DEFAULT_VALUE. */
  const DEFAULT_POSITION: map<string, Json> :=
    map[POSITION_TOP := JInt(0), POSITION_LEFT := JInt(0), POSITION_WIDTH := JInt(100), POSITION_HEIGHT := JInt(100)]

  /** The order in which CheckNewValue tests that the four keys are present. */
  const PresenceOrder: seq<string> := [POSITION_HEIGHT, POSITION_WIDTH, POSITION_LEFT, POSITION_TOP]

  /** The order in which CheckNewValue tests that the four values are numbers in [0, 100]. */
  const RangeOrder: seq<string> := [POSITION_WIDTH, POSITION_HEIGHT, POSITION_LEFT, POSITION_TOP]

  /** FIELD_UNDEFINED % name */
  function FieldUndefined(name: string): ErrorDescription
  {
    ErrorDescription(1, "Поле " + name + " не указано.")
  }

  /** FIELD_TYPE_ERROR % name ('%%' renders as '%') */
  function FieldTypeError(name: string): ErrorDescription
  {
    ErrorDescription(1, "Поле " + name + " должно быть числом от 0 до 100%.")
  }

  /** FIELDS_SUM_LARGE % (a, b) */
  function FieldsSumLarge(a: string, b: string): ErrorDescription
  {
    ErrorDescription(1, "Сумма полей " + a + " и " + b + " должна быть меньше 100%.")
  }

  /** Python's float() applied to str values. */
  type FloatParser = string -> W.Option<real>

  /** `IsFloat(v) and 0 <= float(v) <= 100` */
  predicate InPercentRange(v: Json, parse: FloatParser)
  {
    match ToFloat(v, parse)
    case None => false
    case Some(x) => 0.0 <= x <= 100.0
  }

  /** `float(v)` for a value already known to convert. */
  function Percent(v: Json, parse: FloatParser): real
  {
    match ToFloat(v, parse)
    case None => 0.0
    case Some(x) => x
  }

  /** All four keys are present. */
  ghost predicate HasAllKeys(p: map<string, Json>)
  {
    POSITION_TOP in p && POSITION_LEFT in p && POSITION_WIDTH in p && POSITION_HEIGHT in p
  }

  /** A screen rectangle in percent: four numbers in [0, 100] whose extents stay on screen. */
  ghost predicate ValidPosition(p: map<string, Json>, parse: FloatParser)
  {
    && HasAllKeys(p)
    && InPercentRange(p[POSITION_TOP], parse)
    && InPercentRange(p[POSITION_LEFT], parse)
    && InPercentRange(p[POSITION_WIDTH], parse)
    && InPercentRange(p[POSITION_HEIGHT], parse)
    && Percent(p[POSITION_TOP], parse) + Percent(p[POSITION_HEIGHT], parse) <= 100.0
    && Percent(p[POSITION_LEFT], parse) + Percent(p[POSITION_WIDTH], parse) <= 100.0
  }

  /**
   * WidgetPosition.CheckNewValue: presence of Height, Width, Left, Top; then each of
   * Width, Height, Left, Top a number in [0, 100]; then Top + Height and Left + Width
   * at most 100. Success exactly for a valid rectangle; every failure has code 1.
   */
  function PositionCheck(p: map<string, Json>, parse: FloatParser): (r: ErrorDescription)
    ensures r == ErrorDescriptionSuccess <==> ValidPosition(p, parse)
    ensures r != ErrorDescriptionSuccess ==> r.ErrorCode == 1
  {
    if POSITION_HEIGHT !in p then FieldUndefined(POSITION_HEIGHT)
    else if POSITION_WIDTH !in p then FieldUndefined(POSITION_WIDTH)
    else if POSITION_LEFT !in p then FieldUndefined(POSITION_LEFT)
    else if POSITION_TOP !in p then FieldUndefined(POSITION_TOP)
    else if !InPercentRange(p[POSITION_WIDTH], parse) then FieldTypeError(POSITION_WIDTH)
    else if !InPercentRange(p[POSITION_HEIGHT], parse) then FieldTypeError(POSITION_HEIGHT)
    else if !InPercentRange(p[POSITION_LEFT], parse) then FieldTypeError(POSITION_LEFT)
    else if !InPercentRange(p[POSITION_TOP], parse) then FieldTypeError(POSITION_TOP)
    else if Percent(p[POSITION_TOP], parse) + Percent(p[POSITION_HEIGHT], parse) > 100.0 then
      FieldsSumLarge(POSITION_TOP, POSITION_HEIGHT)
    else if Percent(p[POSITION_LEFT], parse) + Percent(p[POSITION_WIDTH], parse) > 100.0 then
      FieldsSumLarge(POSITION_LEFT, POSITION_WIDTH)
    else ErrorDescriptionSuccess
  }

  /** The first key missing in PresenceOrder is the one reported. */
  lemma {:induction false} PositionReportsFirstMissingKey(p: map<string, Json>, parse: FloatParser, i: nat)
    requires i < |PresenceOrder| && PresenceOrder[i] !in p
    requires forall j :: 0 <= j < i ==> PresenceOrder[j] in p
    ensures PositionCheck(p, parse) == FieldUndefined(PresenceOrder[i])
  {
    if i > 0 { assert PresenceOrder[0] in p; }
    if i > 1 { assert PresenceOrder[1] in p; }
    if i > 2 { assert PresenceOrder[2] in p; }
  }

  /** With every key present, the first value in RangeOrder that is not a number in [0, 100] is reported. */
  lemma {:induction false} PositionReportsFirstBadValue(p: map<string, Json>, parse: FloatParser, i: nat)
    requires HasAllKeys(p)
    requires i < |RangeOrder| && !InPercentRange(p[RangeOrder[i]], parse)
    requires forall j :: 0 <= j < i ==> InPercentRange(p[RangeOrder[j]], parse)
    ensures PositionCheck(p, parse) == FieldTypeError(RangeOrder[i])
  {
    if i > 0 { assert InPercentRange(p[RangeOrder[0]], parse); }
    if i > 1 { assert InPercentRange(p[RangeOrder[1]], parse); }
    if i > 2 { assert InPercentRange(p[RangeOrder[2]], parse); }
  }

  /** With all four values numbers in [0, 100], the vertical sum is tested before the horizontal one. */
  lemma PositionReportsSums(p: map<string, Json>, parse: FloatParser)
    requires HasAllKeys(p)
    requires forall j :: 0 <= j < |RangeOrder| ==> InPercentRange(p[RangeOrder[j]], parse)
    ensures Percent(p[POSITION_TOP], parse) + Percent(p[POSITION_HEIGHT], parse) > 100.0 ==>
              PositionCheck(p, parse) == FieldsSumLarge(POSITION_TOP, POSITION_HEIGHT)
    ensures Percent(p[POSITION_TOP], parse) + Percent(p[POSITION_HEIGHT], parse) <= 100.0 &&
            Percent(p[POSITION_LEFT], parse) + Percent(p[POSITION_WIDTH], parse) > 100.0 ==>
              PositionCheck(p, parse) == FieldsSumLarge(POSITION_LEFT, POSITION_WIDTH)
  {
    assert InPercentRange(p[RangeOrder[0]], parse);
    assert InPercentRange(p[RangeOrder[1]], parse);
    assert InPercentRange(p[RangeOrder[2]], parse);
    assert InPercentRange(p[RangeOrder[3]], parse);
  }

  /** DEFAULT_VALUE is itself a valid rectangle (the full screen). */
  lemma DefaultPositionIsValid(parse: FloatParser)
    ensures PositionCheck(DEFAULT_POSITION, parse) == ErrorDescriptionSuccess
  {
    assert ValidPosition(DEFAULT_POSITION, parse);
  }

  /**
   * What WidgetPosition.SetValue stores: `{k: float(NewValue[k]) for k in Dimensions}`,
   * exactly the four dimension keys as floats; any other key is dropped.
   */
  function Normalized(p: map<string, Json>, parse: FloatParser): (n: map<string, Json>)
    requires ValidPosition(p, parse)
    ensures n.Keys == {POSITION_TOP, POSITION_LEFT, POSITION_WIDTH, POSITION_HEIGHT}
    ensures forall k :: k in n ==> n[k] == JFloat(Percent(p[k], parse))
    ensures ValidPosition(n, parse)
  {
    map[POSITION_TOP := JFloat(Percent(p[POSITION_TOP], parse)),
        POSITION_LEFT := JFloat(Percent(p[POSITION_LEFT], parse)),
        POSITION_WIDTH := JFloat(Percent(p[POSITION_WIDTH], parse)),
        POSITION_HEIGHT := JFloat(Percent(p[POSITION_HEIGHT], parse))]
  }

  /** Which of Settings.py's option classes an Option object is. */
  datatype OptionKind = StrKind | ComboBoxKind | PositionKind

  /**
   * An option of a settings form: StrOption, ComboBoxOption or WidgetPosition,
   * told apart by Kind. The onChanged callback is not stored; SetValue instead
   * returns the value it hands to that callback, if it calls it.
   */
  class Option {
    const ID: string
    const Caption: string
    const Kind: OptionKind
    const Validators: seq<Validator>
    const HasOnChanged: bool
    /** ComboBoxOption.Values; empty for the other kinds. */
    const Values: seq<ComboBoxValue>
    /** float() on str values, used by WidgetPosition's checks. */
    const ParseFloat: FloatParser

    var Value: Json
    var Changed: bool
    var CurrentError: ErrorDescription
    /** ComboBoxOption.CurrentIndex; -1 for the other kinds. */
    var CurrentIndex: int

    /** A WidgetPosition always holds a valid rectangle; a combo index is -1 or a valid index. */
    ghost predicate Valid()
      reads this`Value, this`CurrentIndex
    {
      && (Kind.PositionKind? ==> Value.JObj? && ValidPosition(Value.fields, ParseFloat))
      && (Kind.ComboBoxKind? ==> -1 <= CurrentIndex < |Values|)
    }

    /** The check SetValue applies: WidgetPosition's rectangle rules, or the validator chain. */
    function CheckNewValue(v: Json): ErrorDescription
      requires Kind.PositionKind? ==> v.JObj?
    {
      if Kind.PositionKind? then PositionCheck(v.fields, ParseFloat) else FirstFailure(Validators, v)
    }

    /** What an accepted SetValue stores. */
    function Accepted(v: Json): Json
      requires Kind.PositionKind? ==> v.JObj? && ValidPosition(v.fields, ParseFloat)
    {
      if Kind.PositionKind? then JObj(Normalized(v.fields, ParseFloat)) else v
    }

    /** StrOption.__init__: the value is kept even when it fails its validators. */
    constructor StrOption(ID: string, Caption: string, Value: string, HasOnChanged: bool, Validators: seq<Validator>)
      ensures this.ID == ID && this.Caption == Caption && Kind == StrKind
      ensures this.HasOnChanged == HasOnChanged && this.Validators == Validators && Values == []
      ensures this.Value == JStr(Value) && !Changed && CurrentIndex == -1
      ensures CurrentError == FirstFailure(Validators, JStr(Value))
      ensures Valid()
    {
      this.ID := ID;
      this.Caption := Caption;
      Kind := StrKind;
      this.Validators := Validators;
      this.HasOnChanged := HasOnChanged;
      Values := [];
      ParseFloat := (s: string) => W.None;
      this.Value := JStr(Value);
      Changed := false;
      CurrentIndex := -1;
      CurrentError := FirstFailure(Validators, JStr(Value));
    }

    /** ComboBoxOption.__init__: no value for DefaultIndex -1, else the entry at DefaultIndex. */
    constructor ComboBoxOption(ID: string, Caption: string, Values: seq<ComboBoxValue>, HasOnChanged: bool,
                               DefaultIndex: int, Validators: seq<Validator>)
      requires -1 <= DefaultIndex < |Values|
      ensures this.ID == ID && this.Caption == Caption && Kind == ComboBoxKind
      ensures this.HasOnChanged == HasOnChanged && this.Validators == Validators && this.Values == Values
      ensures this.Value == (if DefaultIndex == -1 then JNull else Values[DefaultIndex].Value)
      ensures CurrentIndex == DefaultIndex && !Changed
      ensures CurrentError == FirstFailure(Validators, this.Value)
      ensures Valid()
    {
      this.ID := ID;
      this.Caption := Caption;
      Kind := ComboBoxKind;
      this.Validators := Validators;
      this.HasOnChanged := HasOnChanged;
      this.Values := Values;
      ParseFloat := (s: string) => W.None;
      var v := if DefaultIndex == -1 then JNull else Values[DefaultIndex].Value;
      this.Value := v;
      Changed := false;
      CurrentIndex := DefaultIndex;
      CurrentError := FirstFailure(Validators, v);
    }

    /** WidgetPosition.__init__: an invalid initial rectangle is replaced by DEFAULT_VALUE and the error cleared. */
    constructor WidgetPosition(ID: string, Caption: string, Value: map<string, Json>, HasOnChanged: bool,
                               Validators: seq<Validator>, ParseFloat: FloatParser)
      ensures this.ID == ID && this.Caption == Caption && Kind == PositionKind
      ensures this.HasOnChanged == HasOnChanged && this.Validators == Validators && Values == []
      ensures this.ParseFloat == ParseFloat
      ensures this.Value == JObj(if ValidPosition(Value, ParseFloat) then Value else DEFAULT_POSITION)
      ensures CurrentError == ErrorDescriptionSuccess && !Changed && CurrentIndex == -1
      ensures Valid()
    {
      this.ID := ID;
      this.Caption := Caption;
      Kind := PositionKind;
      this.Validators := Validators;
      this.HasOnChanged := HasOnChanged;
      Values := [];
      this.ParseFloat := ParseFloat;
      Changed := false;
      CurrentIndex := -1;
      this.Value := JObj(Value);
      var err := PositionCheck(Value, ParseFloat);
      CurrentError := err;
      if err != ErrorDescriptionSuccess {
        DefaultPositionIsValid(ParseFloat);
        this.Value := JObj(DEFAULT_POSITION);
        CurrentError := ErrorDescriptionSuccess;
      }
    }

    /**
     * Option.Check: runs the validators on the current value; a failure is stored in
     * CurrentError, while success leaves CurrentError as it was.
     */
    method Check() returns (res: ErrorDescription)
      modifies this`CurrentError
      ensures res == FirstFailure(Validators, Value)
      ensures CurrentError == if res == ErrorDescriptionSuccess then old(CurrentError) else res
    {
      if |Validators| == 0 {
        return ErrorDescriptionSuccess;
      }
      var i := 0;
      while i < |Validators|
        invariant 0 <= i <= |Validators|
        invariant FirstFailure(Validators, Value) == FirstFailure(Validators[i..], Value)
        invariant CurrentError == old(CurrentError)
      {
        res := Validators[i](Value);
        if res != ErrorDescriptionSuccess {
          CurrentError := res;
          return;
        }
        assert Validators[i..][1..] == Validators[i + 1..];
        i := i + 1;
      }
      return ErrorDescriptionSuccess;
    }

    /**
     * SetValue of StrOption, ComboBoxOption and WidgetPosition: CurrentError becomes the
     * check's result; a rejected value changes nothing else and calls no callback; an
     * accepted one is stored (normalised for a rectangle), sets Changed, and is handed
     * once to onChanged.
     */
    method SetValue(NewValue: Json) returns (notified: W.Option<Json>)
      requires Valid()
      requires Kind.PositionKind? ==> NewValue.JObj?
      modifies this`Value, this`Changed, this`CurrentError
      ensures Valid()
      ensures CurrentError == CheckNewValue(NewValue)
      ensures CurrentError != ErrorDescriptionSuccess ==>
                Value == old(Value) && Changed == old(Changed) && notified == W.None
      ensures CurrentError == ErrorDescriptionSuccess ==>
                (Kind.PositionKind? ==> ValidPosition(NewValue.fields, ParseFloat)) &&
                Value == Accepted(NewValue) && Changed &&
                notified == (if HasOnChanged then W.Some(Value) else W.None)
    {
      CurrentError := CheckNewValue(NewValue);
      if CurrentError != ErrorDescriptionSuccess {
        return W.None;
      }
      Changed := true;
      Value := Accepted(NewValue);
      notified := if HasOnChanged then W.Some(Value) else W.None;
    }

    /**
     * ComboBoxOption.onCurrentIndexChange: the index moves first, so it moves even
     * when SetValue then rejects the entry's value.
     */
    method OnCurrentIndexChange(NewIndex: int) returns (notified: W.Option<Json>)
      requires Valid() && Kind.ComboBoxKind? && 0 <= NewIndex < |Values|
      modifies this`Value, this`Changed, this`CurrentError, this`CurrentIndex
      ensures Valid() && CurrentIndex == NewIndex
      ensures CurrentError == FirstFailure(Validators, Values[NewIndex].Value)
      ensures CurrentError != ErrorDescriptionSuccess ==>
                Value == old(Value) && Changed == old(Changed) && notified == W.None
      ensures CurrentError == ErrorDescriptionSuccess ==>
                Value == Values[NewIndex].Value && Changed &&
                notified == (if HasOnChanged then W.Some(Value) else W.None)
    {
      CurrentIndex := NewIndex;
      notified := SetValue(Values[CurrentIndex].Value);
    }
  }
}
