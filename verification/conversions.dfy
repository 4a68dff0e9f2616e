/**
 Building the Campaign Manager `conversions.batchinsert` request body from
 parsed input lines (dfa_reporting.js, the closure returned by
 `getUploadConversionFn`). The clock reading `new Date().getTime()` is the
 parameter `time`; the JSON parsing of each line happens before this module
 (see ConversionUpload).
 */
module Conversions {
  import opened Wrappers

  /** A scalar JSON value of a parsed line; `Undefined` is what reading a
      missing property yields. */
  datatype Value = Undefined | Null | Bool(b: bool) | Num(n: int) | Str(s: string)

  /** A parsed input line: property name to value. */
  type Record = map<string, Value>

  /** `record[key]` in JavaScript. */
  function Get(record: Record, key: string): Value {
    if key in record then record[key] else Undefined
  }

  /** The properties taken from an input line as elements of a conversion. */
  const PickedProperties: seq<string> := ["ordinal", "timestampMicros", "value", "quantity"]

  /** The id types the configuration documents. */
  const EncryptedUserId: string := "encryptedUserId"

  /** `getFilterFunction(PICKED_PROPERTIES)` applied to a record. The filter
      lives in utils.js, which is not part of this model; it is taken to keep
      exactly the record's properties whose names are on the allow-list. */
  function Pick(record: Record): Record {
    map k | k in record && k in PickedProperties :: record[k]
  }

  /** One entry of `conversion.customVariables`: `{type, value}`. */
  datatype CustomVariable = CustomVariable(kind: string, value: Value)

  /** A property of a built conversion: a value copied from the defaults, the
      template or the line, or the custom-variable list. */
  datatype Field = Plain(v: Value) | CustomVariables(vars: seq<CustomVariable>)

  type Conversion = map<string, Field>

  datatype EncryptionInfo = EncryptionInfo(
    encryptionEntityId: string,
    encryptionEntityType: string,
    encryptionSource: string)

  /** `InsertConversionsConfig`: the optional properties are `Option`s. */
  datatype InsertConversionsConfig = InsertConversionsConfig(
    profileId: string,
    idType: string,
    conversion: Record,
    customVariables: Option<seq<string>>,
    encryptionInfo: Option<EncryptionInfo>)

  /** The request body. `encryptionInfo` is `None` when the property is not
      set at all, and `Some(v)` when it is assigned the configured value `v`
      (which may itself be undefined). */
  datatype RequestBody = RequestBody(
    conversions: seq<Conversion>,
    encryptionInfo: Option<Option<EncryptionInfo>>)

  /** The defaults every conversion starts from. */
  function Defaults(time: int): Record {
    map["ordinal" := Num(time), "timestampMicros" := Num(time * 1000)]
  }

  function Lift(record: Record): Conversion {
    map k | k in record :: Plain(record[k])
  }

  function CustomVariablesOf(names: seq<string>, record: Record): seq<CustomVariable> {
    seq(|names|, i requires 0 <= i < |names| => CustomVariable(names[i], Get(record, names[i])))
  }

  /** One line's conversion: `Object.assign(defaults, config.conversion,
      filterObject(record))`, then the id-type property from the line, then the
      custom variables when configured. */
  function BuildConversion(config: InsertConversionsConfig, time: int, record: Record): Conversion {
    var merged := Lift(Defaults(time) + config.conversion + Pick(record));
    var keyed := merged[config.idType := Plain(Get(record, config.idType))];
    match config.customVariables
    case None => keyed
    case Some(names) => keyed["customVariables" := CustomVariables(CustomVariablesOf(names, record))]
  }

  /** Reference definition of one property of a conversion, by precedence:
      the custom variables when configured, then the id-type property from
      the line, then an allow-listed property of the line, then the template,
      then the defaults. `None` means the property is absent. */
  function FieldByPrecedence(config: InsertConversionsConfig, time: int, record: Record, k: string): Option<Field> {
    if config.customVariables.Some? && k == "customVariables" then
      Some(CustomVariables(CustomVariablesOf(config.customVariables.value, record)))
    else if k == config.idType then Some(Plain(Get(record, k)))
    else if k in PickedProperties && k in record then Some(Plain(record[k]))
    else if k in config.conversion then Some(Plain(config.conversion[k]))
    else if k == "ordinal" then Some(Plain(Num(time)))
    else if k == "timestampMicros" then Some(Plain(Num(time * 1000)))
    else None
  }

  /** Every property of a built conversion is the one the precedence order
      selects, and the conversion has no other property. */
  lemma BuildConversionFollowsPrecedence(config: InsertConversionsConfig, time: int, record: Record, k: string)
    ensures k in BuildConversion(config, time, record) <==> FieldByPrecedence(config, time, record, k).Some?
    ensures k in BuildConversion(config, time, record) ==>
      BuildConversion(config, time, record)[k] == FieldByPrecedence(config, time, record, k).value
  {
  }

  /** The id-type property always comes from the line, whatever the template
      says (unless the id type is itself named `customVariables`). */
  lemma IdTypeComesFromLine(config: InsertConversionsConfig, time: int, record: Record)
    requires config.customVariables.None? || config.idType != "customVariables"
    ensures config.idType in BuildConversion(config, time, record)
    ensures BuildConversion(config, time, record)[config.idType] == Plain(Get(record, config.idType))
  {
  }

  /** A conversion holds a custom-variable list exactly when custom variables
      are configured; the list then follows the configured names in order,
      entry `i` being `{type: name_i, value: record[name_i]}`. */
  lemma CustomVariablesIffConfigured(config: InsertConversionsConfig, time: int, record: Record)
    ensures var c := BuildConversion(config, time, record);
      (exists k :: k in c && c[k].CustomVariables?) <==> config.customVariables.Some?
    ensures var c := BuildConversion(config, time, record);
      config.customVariables.Some? ==>
        && "customVariables" in c
        && c["customVariables"].CustomVariables?
        && |c["customVariables"].vars| == |config.customVariables.value|
        && forall i :: 0 <= i < |config.customVariables.value| ==>
             c["customVariables"].vars[i] ==
               CustomVariable(config.customVariables.value[i], Get(record, config.customVariables.value[i]))
  {
    var c := BuildConversion(config, time, record);
    if config.customVariables.Some? {
      assert "customVariables" in c && c["customVariables"].CustomVariables?;
    } else {
      forall k | k in c
        ensures !c[k].CustomVariables?
      {
        BuildConversionFollowsPrecedence(config, time, record, k);
      }
    }
  }

  /** Two lines that agree on the allow-listed properties, on the id-type
      property and on the custom-variable properties give the same
      conversion: no other property of a line reaches the request. */
  lemma OnlyAllowListedPropertiesReachConversion(config: InsertConversionsConfig, time: int, r1: Record, r2: Record)
    requires forall k :: k in PickedProperties ==> Get(r1, k) == Get(r2, k) && (k in r1 <==> k in r2)
    requires Get(r1, config.idType) == Get(r2, config.idType)
    requires config.customVariables.Some? ==>
      forall i :: 0 <= i < |config.customVariables.value| ==>
        Get(r1, config.customVariables.value[i]) == Get(r2, config.customVariables.value[i])
    ensures BuildConversion(config, time, r1) == BuildConversion(config, time, r2)
  {
    assert Pick(r1) == Pick(r2);
    if config.customVariables.Some? {
      var names := config.customVariables.value;
      assert CustomVariablesOf(names, r1) == CustomVariablesOf(names, r2);
    }
  }

  /** The request body: one conversion per line, in order, and the
      configured encryption info exactly when the id type is
      `encryptedUserId`. */
  function BuildRequestBody(config: InsertConversionsConfig, time: int, records: seq<Record>): (body: RequestBody)
    ensures |body.conversions| == |records|
    ensures forall i :: 0 <= i < |records| ==> body.conversions[i] == BuildConversion(config, time, records[i])
    ensures body.encryptionInfo.Some? <==> config.idType == EncryptedUserId
    ensures body.encryptionInfo.Some? ==> body.encryptionInfo.value == config.encryptionInfo
  {
    var conversions := seq(|records|, i requires 0 <= i < |records| => BuildConversion(config, time, records[i]));
    if config.idType == EncryptedUserId then RequestBody(conversions, Some(config.encryptionInfo))
    else RequestBody(conversions, None)
  }
}
