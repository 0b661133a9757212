/**
 * components/form/BaseField.tsx: binds one named form field. It decides
 * which validation rules apply and composes the props handed to the field's
 * rendering child from the field model, the caller's props and the form.
 * JavaScript objects are maps from key to value; `{ ...a, ...b }` is the
 * right-biased union `a + b`.
 */
module BaseField {
  import opened Wrappers
  import opened AppUtil
  import Rules

  /**
   * A prop value: a boolean, an absent (`undefined`) value, a form value,
   * the form's `control`, the binder's own `onChange`/`onBlur` handlers, or
   * anything else the caller passes (callbacks, styles), which the model does
   * not interpret.
   */
  datatype Prop = Flag(b: bool) | Unset | Data(v: JsValue) | ControlRef | BinderOnChange | BinderOnBlur | Opaque(tag: string)

  type Props = map<string, Prop>

  /** JavaScript truthiness of a prop value; functions and objects are truthy. */
  predicate PropTruthy(p: Prop) {
    match p
    case Flag(b) => b
    case Unset => false
    case Data(v) => Truthy(v)
    case _ => true
  }

  /** `a || b`: the first operand when truthy, else the second. */
  function Or(a: Prop, b: Prop): (r: Prop)
    ensures PropTruthy(r) <==> PropTruthy(a) || PropTruthy(b)
    ensures r == a || r == b
  {
    if PropTruthy(a) then a else b
  }

  /** `obj?.[key]`: an absent object or key reads as `undefined`. */
  function Get(obj: Option<Props>, key: string): Prop {
    if obj.Some? && key in obj.value then obj.value[key] else Unset
  }

  /** The form model (`IFormModel`): per-field constraint records and form-wide flags. */
  datatype FormModel = FormModel(fields: map<string, Props>, readOnly: Prop, disabled: Prop)

  /** `model?.fields?.[name]`. */
  function CurrentField(model: FormModel, name: string): Option<Props> {
    if name in model.fields then Some(model.fields[name]) else None
  }

  /** `required || currentField?.required`: the caller's prop or the field model marks the field required. */
  function IsRequired(required: Prop, currentField: Option<Props>): (b: bool)
    ensures b <==> PropTruthy(required)
                   || (currentField.Some? && "required" in currentField.value && PropTruthy(currentField.value["required"]))
  {
    PropTruthy(required) || PropTruthy(Get(currentField, "required"))
  }

  /**
   * `currentRules`: the caller's rules (or `{}`), with the not-blank rule of
   * `isNotBlank()` underneath them when the field is required.
   */
  function CurrentRules(rules: Option<Rules.RuleSet>, required: bool): (r: Rules.RuleSet)
    ensures var caller := rules.GetOr(map[]);
      && r.Keys == caller.Keys + (if required then {"validate"} else {})
      && (forall k :: k in caller ==> r[k] == caller[k])
      && (required && "validate" !in caller ==> r["validate"] == Rules.NotBlankValidator(None))
      && (!required ==> r == caller)
  {
    var currentRules := rules.GetOr(map[]);
    if required then Rules.IsNotBlank(None) + currentRules else currentRules
  }

  /**
   * The rules handed to `useController`: `currentRules` for the field `name`,
   * required by the caller's `required` prop or by the field model. The
   * caller's rules always survive; the not-blank `validate` rule is added
   * exactly when the field is required.
   */
  function ControllerRules(rules: Option<Rules.RuleSet>, required: Prop, model: FormModel, name: string): (r: Rules.RuleSet)
    ensures var caller := rules.GetOr(map[]);
      var fieldRequired := name in model.fields && "required" in model.fields[name]
                           && PropTruthy(model.fields[name]["required"]);
      && (forall k :: k in caller ==> k in r && r[k] == caller[k])
      && ("validate" !in caller ==>
            ("validate" in r <==> PropTruthy(required) || fieldRequired))
      && ("validate" !in caller && "validate" in r ==> r["validate"] == Rules.NotBlankValidator(None))
      && (!PropTruthy(required) && !fieldRequired ==> r == caller)
  {
    CurrentRules(rules, IsRequired(required, CurrentField(model, name)))
  }

  /**
   * A required field whose caller supplies no `validate` rejects exactly the
   * blank values, with the default message.
   */
  lemma RequiredFieldRejectsBlank(rules: Option<Rules.RuleSet>, value: JsValue)
    requires rules.None? || "validate" !in rules.value
    ensures var r := CurrentRules(rules, true);
      && Rules.RunRule(r["validate"], value).Some? == Rules.Blank(value)
      && (Rules.Blank(value) ==> Rules.RunRule(r["validate"], value) == Some(Rules.DefaultMessage))
  {
  }

  /** A field that is not required gets no not-blank rule: the caller's rules, or none. */
  lemma OptionalFieldKeepsCallerRules(rules: Option<Rules.RuleSet>)
    ensures CurrentRules(rules, false) == rules.GetOr(map[])
  {
  }

  /** The field error react-hook-form reports: it may or may not carry a message. */
  datatype FieldError = FieldError(message: Option<string>)

  /** `fieldState?.error?.message !== undefined`. */
  function IsError(error: Option<FieldError>): (b: bool)
    ensures b <==> error.Some? && error.value.message.Some?
  {
    match error
    case None => false
    case Some(e) => e.message.Some?
  }

  /** The keys `renderContent` deletes from its copy of the props. */
  const StrippedKeys: set<string> :=
    {"children", "name", "required", "rules", "styleError", "styleField", "onChange"}

  /** `renderContent`'s copy of the props, with the binder's own keys deleted one by one. */
  method StripBaseProps(props: Props) returns (currentProps: Props)
    ensures currentProps == props - StrippedKeys
    ensures currentProps.Keys == props.Keys - StrippedKeys
    ensures forall k :: k in currentProps ==> currentProps[k] == props[k]
  {
    currentProps := props;
    currentProps := currentProps - {"children"};
    currentProps := currentProps - {"name"};
    currentProps := currentProps - {"required"};
    currentProps := currentProps - {"rules"};
    currentProps := currentProps - {"styleError"};
    currentProps := currentProps - {"styleField"};
    currentProps := currentProps - {"onChange"};
  }

  /** The props the binder computes itself, before the field model and the caller's props are spread. */
  function OwnProps(error: Option<FieldError>, value: JsValue, model: FormModel,
                    currentField: Option<Props>, currentProps: Props): (r: Props)
    ensures r.Keys == {"isError", "value", "control", "readOnly", "disabled"}
    ensures "isError" in r && r["isError"] == Flag(error.Some? && error.value.message.Some?)
    ensures "value" in r && r["value"] == Data(value)
    ensures "control" in r && r["control"] == ControlRef
    ensures "readOnly" in r && (PropTruthy(r["readOnly"]) <==>
      PropTruthy(Get(currentField, "readOnly")) || PropTruthy(Get(Some(currentProps), "readOnly"))
      || PropTruthy(model.readOnly))
    ensures "disabled" in r && r["disabled"] == model.disabled
  {
    map[
      "isError" := Flag(IsError(error)),
      "value" := Data(value),
      "control" := ControlRef,
      "readOnly" := Or(Or(Get(currentField, "readOnly"), Get(Some(currentProps), "readOnly")), model.readOnly),
      "disabled" := model.disabled]
  }

  /**
   * The object passed to `children`: own props, then the field model, then
   * the stripped caller props, then the binder's `onChange` and `onBlur`.
   * `value` is the watched form value (`controller.field.value = value`).
   */
  function ChildProps(currentProps: Props, error: Option<FieldError>, value: JsValue,
                      model: FormModel, currentField: Option<Props>): (r: Props)
    ensures r.Keys == OwnProps(error, value, model, currentField, currentProps).Keys
                      + currentField.GetOr(map[]).Keys + currentProps.Keys + {"onChange", "onBlur"}
    ensures forall k :: k in r && k != "onChange" && k != "onBlur" ==>
      r[k] == (if k in currentProps then currentProps[k]
               else if k in currentField.GetOr(map[]) then currentField.GetOr(map[])[k]
               else OwnProps(error, value, model, currentField, currentProps)[k])
    ensures "onChange" in r && r["onChange"] == BinderOnChange
    ensures "onBlur" in r && r["onBlur"] == BinderOnBlur
  {
    OwnProps(error, value, model, currentField, currentProps)
      + currentField.GetOr(map[])
      + currentProps
      + map["onChange" := BinderOnChange, "onBlur" := BinderOnBlur]
  }

  /**
   * `renderContent`: with the props stripped, a caller can no longer supply
   * `name`, `required`, `rules`, the style keys or `onChange`; only the field
   * model can, and `onChange` is always the binder's. `isError` reports the
   * error unless the field model or the caller overrides it.
   */
  method RenderContent(props: Props, error: Option<FieldError>, value: JsValue,
                       model: FormModel, name: string) returns (child: Props)
    ensures child == ChildProps(props - StrippedKeys, error, value, model, CurrentField(model, name))
    ensures "onChange" in child && child["onChange"] == BinderOnChange
    ensures "onBlur" in child && child["onBlur"] == BinderOnBlur
    ensures forall k :: k in StrippedKeys && k != "onChange" ==>
      (k in child <==> k in CurrentField(model, name).GetOr(map[])) &&
      (k in child ==> child[k] == CurrentField(model, name).GetOr(map[])[k])
    ensures "isError" !in props && "isError" !in CurrentField(model, name).GetOr(map[]) ==>
      "isError" in child && child["isError"] == Flag(IsError(error))
    ensures "value" !in props && "value" !in CurrentField(model, name).GetOr(map[]) ==>
      "value" in child && child["value"] == Data(value)
  {
    var currentProps := StripBaseProps(props);
    var currentField := CurrentField(model, name);
    child := ChildProps(currentProps, error, value, model, currentField);
    forall k | k in StrippedKeys && k != "onChange"
      ensures k in child <==> k in currentField.GetOr(map[])
      ensures k in child ==> child[k] == currentField.GetOr(map[])[k]
    {
      StrippedKeyFromField(currentProps, error, value, model, currentField, k);
    }
  }

  /** A key the caller can no longer supply comes from the field model alone. */
  lemma StrippedKeyFromField(currentProps: Props, error: Option<FieldError>, value: JsValue,
                             model: FormModel, currentField: Option<Props>, k: string)
    requires k !in currentProps
    requires k in StrippedKeys && k != "onChange"
    ensures var child := ChildProps(currentProps, error, value, model, currentField);
      && (k in child <==> k in currentField.GetOr(map[]))
      && (k in child ==> child[k] == currentField.GetOr(map[])[k])
  {
    assert k !in OwnProps(error, value, model, currentField, currentProps);
  }

  /** A call the binder's `handleChange` makes, with the arguments it forwards. */
  datatype Call = ControllerOnChange(args: seq<JsValue>) | PropsOnChange(args: seq<JsValue>)

  /**
   * `handleChange(...event)`: the form controller's `onChange` first, then the
   * caller's `onChange` when there is one, each with the same arguments.
   */
  function HandleChange(event: seq<JsValue>, hasPropsOnChange: bool): (calls: seq<Call>)
    ensures |calls| == if hasPropsOnChange then 2 else 1
    ensures calls[0] == ControllerOnChange(event)
    ensures hasPropsOnChange ==> calls[1] == PropsOnChange(event)
    ensures forall i :: 0 <= i < |calls| ==> calls[i].args == event
  {
    [ControllerOnChange(event)] + (if hasPropsOnChange then [PropsOnChange(event)] else [])
  }
}
