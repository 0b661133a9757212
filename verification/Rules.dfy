/**
 * utils/Rules.tsx: the "not blank" validation rule used by form fields, and
 * the record of validation options it produces.
 */
module Rules {
  import opened Wrappers
  import opened AppUtil

  /** The message used when the caller supplies none (or an empty one). */
  const DefaultMessage: string := "Value is not blank!"

  /** `message || 'Value is not blank!'`: an empty message is falsy and falls back too. */
  function MessageOr(message: Option<string>): (r: string)
    ensures r != ""
    ensures message.Some? && message.value != "" ==> r == message.value
    ensures message.None? || message == Some("") ==> r == DefaultMessage
  {
    if message.Some? && message.value != "" then message.value else DefaultMessage
  }

  /** The values the rule rejects, stated kind by kind, independently of the validator. */
  predicate Blank(v: JsValue) {
    v == Undefined || v == Null || v == Str("") || v == Bool(false)
  }

  /** `isNotBlankString`: fails exactly on the empty string. */
  function IsNotBlankString(value: string, message: Option<string>): (r: Option<string>)
    ensures r.None? <==> value != ""
    ensures r.Some? ==> r.value == MessageOr(message)
  {
    if value == "" then Some(MessageOr(message)) else None
  }

  /** `isNotBlankBoolean`: fails exactly on `false`. */
  function IsNotBlankBoolean(value: bool, message: Option<string>): (r: Option<string>)
    ensures r.None? <==> value
    ensures r.Some? ==> r.value == MessageOr(message)
  {
    if !value then Some(MessageOr(message)) else None
  }

  /**
   * The `validate` function of the default rules: `None` (undefined) means the
   * value passes, `Some(m)` is the error message shown for it.
   */
  function Validate(value: JsValue, message: Option<string>): (r: Option<string>)
    ensures r.None? <==> !Blank(value)
    ensures r.Some? ==> r.value == MessageOr(message) && r.value != ""
  {
    match value
    case Undefined => Some(MessageOr(message))
    case Null => Some(MessageOr(message))
    case Num(_) => None
    case Str(s) => IsNotBlankString(s, message)
    case Bool(b) => IsNotBlankBoolean(b, message)
    case Other => None
  }

  /**
   * A value stored under a key of react-hook-form's `RegisterOptions`: the
   * not-blank validator built from a message, or an option the caller
   * supplies, which the model does not interpret.
   */
  datatype RuleValue = NotBlankValidator(message: Option<string>) | CallerRule(tag: string)

  /** A `RegisterOptions` record, keyed by option name (`validate`, `required`, `min`, ...). */
  type RuleSet = map<string, RuleValue>

  /** The `IConfig` argument of `isNotBlank`. */
  datatype Config = Config(config: Option<RuleSet>, message: Option<string>)

  /** Runs a rule's validator on a value; a caller's rule is outside the model and passes. */
  function RunRule(rule: RuleValue, value: JsValue): Option<string> {
    match rule
    case NotBlankValidator(message) => Validate(value, message)
    case CallerRule(_) => None
  }

  /**
   * `isNotBlank(validConfig)`: `{ ...defaultRules, ...config }`, where the
   * default rules hold only `validate`. Keys of `config` win.
   */
  function IsNotBlank(validConfig: Option<Config>): (r: RuleSet)
    ensures "validate" in r
    ensures var c := validConfig.GetOr(Config(None, None)).config.GetOr(map[]);
      && r.Keys == c.Keys + {"validate"}
      && (forall k :: k in c ==> r[k] == c[k])
      && ("validate" !in c ==> r["validate"] == NotBlankValidator(validConfig.GetOr(Config(None, None)).message))
  {
    var vc := validConfig.GetOr(Config(None, None));
    map["validate" := NotBlankValidator(vc.message)] + vc.config.GetOr(map[])
  }

  /** Without a `validate` of the caller's, the produced rules reject exactly the blank values. */
  lemma IsNotBlankRejectsBlank(validConfig: Option<Config>, value: JsValue)
    requires var c := validConfig.GetOr(Config(None, None)).config; c.None? || "validate" !in c.value
    ensures RunRule(IsNotBlank(validConfig)["validate"], value).Some? <==> Blank(value)
  {
  }

  /** A `validate` key in `config` replaces the default validator. */
  lemma ConfigValidateOverrides(message: Option<string>, config: RuleSet)
    requires "validate" in config
    ensures IsNotBlank(Some(Config(Some(config), message)))["validate"] == config["validate"]
  {
  }
}
