/**
 * Command parsers of the gas-station link (Parser.py): the GasStationCommand
 * record, the JSON parser, the placeholder Bench parser and the parser registry.
 */
module Parser {
  import opened Wrappers
  import opened PyValues

  const CMDTYPE_DATA: int := 1
  const DATA_PRICE: string := "Price"
  const DATA_AMOUNT: string := "Amount"
  const DATA_VOLUME: string := "Quantity"

  const FIELD_CMDTYPE: string := "CMDType"
  const FIELD_SIDE: string := "Side"
  const FIELD_NOZZLE: string := "Nozzle"
  const FIELD_SUCCESS: string := "Success"

  const JSON_PARSER_NAME: string := "Парсер json"
  const BENCH_PARSER_NAME: string := "Парсер Bench"

  /** `JSONParser.__class__.__name__`: the class of any Python class is `type`. */
  const METACLASS_NAME: string := "type"

  /** One decoded command. CMDType is JNull where Python has None; Side and Nozzle default to -1. */
  datatype GasStationCommand = GasStationCommand(
    CMDType: Json,
    Side: Json,
    Nozzle: Json,
    Params: Json,
    Bytes: Bytes)

  /** `bytes.decode()` (UTF-8) and `json.loads`, each None where it raises. */
  datatype Decoder = Decoder(Utf8: Bytes -> Option<string>, Loads: string -> Option<Json>)

  /** `json.loads(Command.decode())`. */
  function Decode(d: Decoder, b: Bytes): Option<Json>
  {
    match d.Utf8(b)
    case None => None
    case Some(text) => d.Loads(text)
  }

  /** `obj[key] if key in obj else default`, None where Python raises. */
  function FieldOr(obj: Json, key: string, default: Json): Option<Json>
  {
    match Contains(obj, key)
    case None => None
    case Some(present) => if present then Index(obj, key) else Some(default)
  }

  /** The command the JSON parser builds from a decoded dict, stated on the dict's keys. */
  ghost predicate BuiltFromObject(c: GasStationCommand, m: map<string, Json>, b: Bytes)
  {
    && c.CMDType == (if FIELD_CMDTYPE in m then m[FIELD_CMDTYPE] else JNull)
    && c.Side == (if FIELD_SIDE in m then m[FIELD_SIDE] else JInt(-1))
    && c.Nozzle == (if FIELD_NOZZLE in m then m[FIELD_NOZZLE] else JInt(-1))
    && c.Params == JObj(m)
    && c.Bytes == b
  }

  /** A JSON number, bool or null cannot be searched with `in`, so Python raises. */
  predicate IsScalar(v: Json)
  {
    v.JNull? || v.JBool? || v.JInt? || v.JFloat?
  }

  /**
   * JSONParser.Parse: never raises; any decoding failure, and any failure while
   * reading the three fields, collapses to None. A decoded list or string passes the
   * `in` tests, so it yields the default command when it holds none of the three keys,
   * and None (the failed index) when it holds one.
   */
  function Parse(d: Decoder, b: Bytes): (r: Option<GasStationCommand>)
    ensures Decode(d, b).None? ==> r.None?
    ensures r.Some? ==> Decode(d, b) == Some(r.value.Params) && r.value.Bytes == b
    ensures Decode(d, b).Some? && Decode(d, b).value.JObj? ==>
              r.Some? && BuiltFromObject(r.value, Decode(d, b).value.fields, b)
    ensures Decode(d, b).Some? && IsScalar(Decode(d, b).value) ==> r.None?
    ensures r.Some? && !r.value.Params.JObj? ==>
              r.value.CMDType == JNull && r.value.Side == JInt(-1) && r.value.Nozzle == JInt(-1)
    ensures Decode(d, b).Some? && (Decode(d, b).value.JArr? || Decode(d, b).value.JStr?) ==>
              (r.Some? <==>
                 && Contains(Decode(d, b).value, FIELD_CMDTYPE) == Some(false)
                 && Contains(Decode(d, b).value, FIELD_SIDE) == Some(false)
                 && Contains(Decode(d, b).value, FIELD_NOZZLE) == Some(false))
  {
    match Decode(d, b)
    case None => None
    case Some(obj) =>
      match (FieldOr(obj, FIELD_CMDTYPE, JNull), FieldOr(obj, FIELD_SIDE, JInt(-1)), FieldOr(obj, FIELD_NOZZLE, JInt(-1)))
      case (Some(t), Some(s), Some(n)) => Some(GasStationCommand(t, s, n, obj, b))
      case _ => None
  }

  /**
   * JSONParser.GeAnswer, up to `json.dumps(...).encode()`: the reply object
   * `{'Success': True}` plus Side and Nozzle when the command's Params has them.
   * None where `in` on Params raises.
   */
  function GeAnswer(c: GasStationCommand): (r: Option<map<string, Json>>)
    ensures r.Some? <==> !IsScalar(c.Params)
    ensures r.Some? ==> r.value.Keys <= {FIELD_SUCCESS, FIELD_SIDE, FIELD_NOZZLE}
    ensures r.Some? ==> FIELD_SUCCESS in r.value && r.value[FIELD_SUCCESS] == JBool(true)
    ensures r.Some? ==> (FIELD_SIDE in r.value <==> Contains(c.Params, FIELD_SIDE) == Some(true))
    ensures r.Some? ==> (FIELD_NOZZLE in r.value <==> Contains(c.Params, FIELD_NOZZLE) == Some(true))
    ensures r.Some? && FIELD_SIDE in r.value ==> r.value[FIELD_SIDE] == c.Side
    ensures r.Some? && FIELD_NOZZLE in r.value ==> r.value[FIELD_NOZZLE] == c.Nozzle
  {
    match (Contains(c.Params, FIELD_SIDE), Contains(c.Params, FIELD_NOZZLE))
    case (Some(hasSide), Some(hasNozzle)) =>
      var reply := map[FIELD_SUCCESS := JBool(true)];
      var reply := if hasSide then reply[FIELD_SIDE := c.Side] else reply;
      var reply := if hasNozzle then reply[FIELD_NOZZLE := c.Nozzle] else reply;
      Some(reply)
    case _ => None
  }

  /**
   * Round trip: the reply to a parsed command echoes Side and Nozzle exactly when
   * the decoded object carried them, with the decoded values.
   */
  lemma {:induction false} AnswerEchoesDecodedObject(d: Decoder, b: Bytes, c: GasStationCommand)
    requires Parse(d, b) == Some(c)
    ensures GeAnswer(c).Some?
    ensures var reply, obj := GeAnswer(c).value, Decode(d, b).value;
      && reply[FIELD_SUCCESS] == JBool(true)
      && (FIELD_SIDE in reply <==> obj.JObj? && FIELD_SIDE in obj.fields)
      && (FIELD_NOZZLE in reply <==> obj.JObj? && FIELD_NOZZLE in obj.fields)
      && (FIELD_SIDE in reply ==> reply[FIELD_SIDE] == obj.fields[FIELD_SIDE])
      && (FIELD_NOZZLE in reply ==> reply[FIELD_NOZZLE] == obj.fields[FIELD_NOZZLE])
  {
    var obj := Decode(d, b).value;
    if !obj.JObj? {
      // A list or str holding "Side" or "Nozzle" makes Parse raise on `obj[key]`.
      assert Contains(obj, FIELD_SIDE) == Some(false);
      assert Contains(obj, FIELD_NOZZLE) == Some(false);
    }
  }

  /** The registered parser classes, in registration order (Display.py's ParserClasses). */
  datatype ParserKind = JSONParser | BenchParser

  const ParserClasses: seq<ParserKind> := [JSONParser, BenchParser]

  /** GetID of either class: both return `JSONParser.__class__.__name__`, whatever the class. */
  function GetID(k: ParserKind): (id: string)
    ensures id == METACLASS_NAME
  {
    match k
    case JSONParser => METACLASS_NAME
    case BenchParser => METACLASS_NAME
  }

  /** GetName: the display name, which tells the two classes apart. */
  function GetName(k: ParserKind): (n: string)
    ensures n == JSON_PARSER_NAME <==> k == JSONParser
    ensures n == BENCH_PARSER_NAME <==> k == BenchParser
  {
    match k
    case JSONParser => JSON_PARSER_NAME
    case BenchParser => BENCH_PARSER_NAME
  }

  /** The two identifiers coincide although the display names differ. */
  lemma ParserIDsCoincide()
    ensures GetID(JSONParser) == GetID(BenchParser) == METACLASS_NAME
    ensures GetName(JSONParser) != GetName(BenchParser)
  {
  }

  /** BenchParser.Parse: a stub whose body is `pass`. */
  function BenchParse(b: Bytes): (r: Option<GasStationCommand>)
    ensures r.None?
  {
    None
  }

  /** BenchParser.GeAnswer: a stub whose body is `pass`. */
  function BenchGeAnswer(c: GasStationCommand): (r: Option<Bytes>)
    ensures r.None?
  {
    None
  }

  /**
   * `ParserObj.Parse(buffer)` for the selected class: only the JSON parser ever
   * yields a command, and a command carries the decoded object and the raw buffer.
   */
  function ParseWith(k: ParserKind, d: Decoder, b: Bytes): (r: Option<GasStationCommand>)
    ensures k == BenchParser ==> r.None?
    ensures k == JSONParser ==> r == Parse(d, b)
    ensures r.Some? ==> Decode(d, b) == Some(r.value.Params) && r.value.Bytes == b
  {
    match k
    case JSONParser => Parse(d, b)
    case BenchParser => BenchParse(b)
  }
}
