/**
 * The configuration record and the part of loading it that is logic rather
 * than file reading: the three required keys, the numeric conversions and
 * the defaults of the optional keys. The parsed YAML document is the input.
 */
module Settings {
  import opened Wrappers

  /** A value of the parsed YAML mapping. */
  datatype YamlValue =
    | Number(r: real)
    | Integer(i: int)
    | Boolean(b: bool)
    | Text(s: string)
    | IntList(xs: seq<int>)
    | Null

  type Document = map<string, YamlValue>

  datatype Config = Config(
    walletName: YamlValue,
    validatorHotkey: YamlValue,
    stakeAmount: real,
    targetNetuid: Option<int>,
    whitelist: seq<int>,
    minLiquidityRatio: real,
    network: string,
    logFile: string,
    dryRun: bool
  )

  datatype ConfigError =
    | MissingField(name: string)   // a required key is absent
    | NotANumber(name: string)     // float(...) of the value raised
    | Unsupported(name: string)    // a value of a type the model does not carry

  const DefaultMinLiquidityRatio: real := 10.0
  const DefaultNetwork: string := "finney"
  const DefaultLogFile: string := "logs/dca.log"

  /**
   * Python's `float(v)` on a non-string YAML value; `None` where it raises.
   * Every string fails here, although Python's `float` parses a numeric one.
   */
  function AsFloat(v: YamlValue): (r: Option<real>)
    ensures r.Some? <==> v.Number? || v.Integer? || v.Boolean?
    ensures v.Number? ==> r == Some(v.r)
    ensures v.Integer? ==> r == Some(v.i as real)
    ensures v.Boolean? ==> r == Some(if v.b then 1.0 else 0.0)
  {
    match v
    case Number(r) => Some(r)
    case Integer(i) => Some(i as real)
    case Boolean(b) => Some(if b then 1.0 else 0.0)
    case _ => None
  }

  /** Python truthiness of a YAML value. */
  predicate Truthy(v: YamlValue)
    ensures Truthy(v) <==> v !in {Null, Boolean(false), Number(0.0), Integer(0), Text(""), IntList([])}
  {
    match v
    case Number(r) => r != 0.0
    case Integer(i) => i != 0
    case Boolean(b) => b
    case Text(s) => s != ""
    case IntList(xs) => xs != []
    case Null => false
  }

  /** `float(doc.get(key, default))`. */
  function FloatOr(doc: Document, key: string, default: real): (r: Result<real, ConfigError>)
    ensures key !in doc ==> r == Ok(default)
    ensures key in doc ==> (r.Ok? <==> AsFloat(doc[key]).Some?)
    ensures key in doc && r.Ok? ==> r.value == AsFloat(doc[key]).value
    ensures r.Err? ==> r.error == NotANumber(key)
  {
    if key !in doc then Ok(default)
    else match AsFloat(doc[key])
      case Some(x) => Ok(x)
      case None => Err(NotANumber(key))
  }

  /** `doc.get(key)` for a string-valued key with a default. */
  function TextOr(doc: Document, key: string, default: string): (r: Result<string, ConfigError>)
    ensures key !in doc ==> r == Ok(default)
    ensures key in doc && doc[key].Text? ==> r == Ok(doc[key].s)
    ensures key in doc && !doc[key].Text? ==> r == Err(Unsupported(key))
  {
    if key !in doc then Ok(default)
    else match doc[key]
      case Text(s) => Ok(s)
      case _ => Err(Unsupported(key))
  }

  /** `doc.get("target_netuid")`: absent and null both mean "no target". */
  function TargetNetuid(doc: Document): (r: Result<Option<int>, ConfigError>)
    ensures ("target_netuid" !in doc || doc["target_netuid"] == Null) ==> r == Ok(None)
    ensures "target_netuid" in doc && doc["target_netuid"].Integer? ==> r == Ok(Some(doc["target_netuid"].i))
    ensures r.Err? <==> "target_netuid" in doc && !doc["target_netuid"].Null? && !doc["target_netuid"].Integer?
    ensures r.Err? ==> r.error == Unsupported("target_netuid")
  {
    if "target_netuid" !in doc then Ok(None)
    else match doc["target_netuid"]
      case Null => Ok(None)
      case Integer(i) => Ok(Some(i))
      case _ => Err(Unsupported("target_netuid"))
  }

  /** `doc.get("whitelist", [])`; a null whitelist is as falsy as an empty one. */
  function Whitelist(doc: Document): (r: Result<seq<int>, ConfigError>)
    ensures ("whitelist" !in doc || doc["whitelist"] == Null) ==> r == Ok([])
    ensures "whitelist" in doc && doc["whitelist"].IntList? ==> r == Ok(doc["whitelist"].xs)
    ensures r.Err? <==> "whitelist" in doc && !doc["whitelist"].Null? && !doc["whitelist"].IntList?
    ensures r.Err? ==> r.error == Unsupported("whitelist")
  {
    if "whitelist" !in doc then Ok([])
    else match doc["whitelist"]
      case Null => Ok([])
      case IntList(xs) => Ok(xs)
      case _ => Err(Unsupported("whitelist"))
  }

  /**
   * Checks the required keys in order, then builds the record field by
   * field, converting the two numbers and filling in the defaults.
   */
  function LoadConfig(doc: Document): (r: Result<Config, ConfigError>)
    ensures r == Err(MissingField("wallet_name")) <==> "wallet_name" !in doc
    ensures r == Err(MissingField("validator_hotkey")) <==> "wallet_name" in doc && "validator_hotkey" !in doc
    ensures r == Err(MissingField("stake_amount")) <==>
              "wallet_name" in doc && "validator_hotkey" in doc && "stake_amount" !in doc
    ensures r.Ok? <==>
              "wallet_name" in doc && "validator_hotkey" in doc && "stake_amount" in doc &&
              AsFloat(doc["stake_amount"]).Some? && TargetNetuid(doc).Ok? && Whitelist(doc).Ok? &&
              FloatOr(doc, "min_liquidity_ratio", DefaultMinLiquidityRatio).Ok? &&
              TextOr(doc, "network", DefaultNetwork).Ok? && TextOr(doc, "log_file", DefaultLogFile).Ok?
    ensures r.Ok? ==> r.value.targetNetuid == TargetNetuid(doc).value && r.value.whitelist == Whitelist(doc).value
    ensures r.Ok? ==> r.value.network == TextOr(doc, "network", DefaultNetwork).value &&
                      r.value.logFile == TextOr(doc, "log_file", DefaultLogFile).value
    ensures r.Ok? ==> r.value.walletName == doc["wallet_name"] && r.value.validatorHotkey == doc["validator_hotkey"]
    ensures r.Ok? ==> AsFloat(doc["stake_amount"]) == Some(r.value.stakeAmount)
    ensures r.Ok? && "min_liquidity_ratio" !in doc ==> r.value.minLiquidityRatio == DefaultMinLiquidityRatio
    ensures r.Ok? && "min_liquidity_ratio" in doc ==> AsFloat(doc["min_liquidity_ratio"]) == Some(r.value.minLiquidityRatio)
    ensures r.Ok? && "network" !in doc ==> r.value.network == DefaultNetwork
    ensures r.Ok? && "log_file" !in doc ==> r.value.logFile == DefaultLogFile
    ensures r.Ok? && "target_netuid" !in doc ==> r.value.targetNetuid == None
    ensures r.Ok? && "whitelist" !in doc ==> r.value.whitelist == []
    ensures r.Ok? ==> r.value.dryRun == ("dry_run" in doc && Truthy(doc["dry_run"]))
    ensures ("wallet_name" in doc && "validator_hotkey" in doc && "stake_amount" in doc &&
             AsFloat(doc["stake_amount"]).None?) ==> r == Err(NotANumber("stake_amount"))
  {
    if "wallet_name" !in doc then Err(MissingField("wallet_name"))
    else if "validator_hotkey" !in doc then Err(MissingField("validator_hotkey"))
    else if "stake_amount" !in doc then Err(MissingField("stake_amount"))
    else match AsFloat(doc["stake_amount"])
      case None => Err(NotANumber("stake_amount"))
      case Some(stake) =>
        match TargetNetuid(doc)
        case Err(e) => Err(e)
        case Ok(target) =>
          match Whitelist(doc)
          case Err(e) => Err(e)
          case Ok(whitelist) =>
            match FloatOr(doc, "min_liquidity_ratio", DefaultMinLiquidityRatio)
            case Err(e) => Err(e)
            case Ok(ratio) =>
              match TextOr(doc, "network", DefaultNetwork)
              case Err(e) => Err(e)
              case Ok(network) =>
                match TextOr(doc, "log_file", DefaultLogFile)
                case Err(e) => Err(e)
                case Ok(logFile) =>
                  Ok(Config(doc["wallet_name"], doc["validator_hotkey"], stake, target, whitelist,
                            ratio, network, logFile, "dry_run" in doc && Truthy(doc["dry_run"])))
  }

  /** The YAML document that writes out every field of `c`. */
  function ToDocument(c: Config): Document {
    var base := map[
      "wallet_name" := c.walletName,
      "validator_hotkey" := c.validatorHotkey,
      "stake_amount" := Number(c.stakeAmount),
      "whitelist" := IntList(c.whitelist),
      "min_liquidity_ratio" := Number(c.minLiquidityRatio),
      "network" := Text(c.network),
      "log_file" := Text(c.logFile),
      "dry_run" := Boolean(c.dryRun)
    ];
    match c.targetNetuid
    case None => base
    case Some(n) => base["target_netuid" := Integer(n)]
  }

  /** Loading a written-out configuration gives that configuration back. */
  lemma LoadConfigRoundTrip(c: Config)
    ensures LoadConfig(ToDocument(c)) == Ok(c)
  {
  }

  /** A document with only the required keys gets every default. */
  lemma RequiredKeysOnly(wallet: YamlValue, hotkey: YamlValue, stake: real)
    ensures LoadConfig(map["wallet_name" := wallet, "validator_hotkey" := hotkey, "stake_amount" := Number(stake)])
         == Ok(Config(wallet, hotkey, stake, None, [], 10.0, "finney", "logs/dca.log", false))
  {
  }
}
