/**
 * The gas-station display controller (Display.py): settings lookups and
 * validators, the Save gate, the run guard and parser selection, the DATA
 * update of the three display strings, and the serial worker loop over an
 * abstract port.
 */
module Display {
  import W = Wrappers
  import opened PyValues
  import opened Parser
  import opened Settings
  import opened FileNames

  const ID_COM_PORT: string := "COMPort"
  const ID_PARSER: string := "Parser"
  const ID_IMAGE: string := "Image"
  const ID_STYLE: string := "Style"
  const EXTENSIONS_IMAGES: seq<string> := [".png"]
  const EXTENSION_STYLE: seq<string> := [".qss"]
  const TIMEOUNT_COM_PORT: real := 0.1
  /** The worker reads one byte, then up to this many more, per cycle. */
  const FIRST_READ: nat := 1
  const REST_READ: nat := 999
  const MAX_BUFFER: nat := 1000

  /** GasStationDisplay.GetDefault: the saved value if the key is present, else the default. */
  function GetDefault(settings: map<string, Json>, id: string, default: Json): (v: Json)
    ensures id in settings ==> v == settings[id]
    ensures id !in settings ==> v == default
  {
    if id in settings then settings[id] else default
  }

  function RequiredMessage(name: string): string
  {
    "Необходимо выбрать \"" + name + "\""
  }

  /**
   * CheckRequaredOption(Name): a validator that fails with ErrorCode 1 and a message
   * naming the field exactly when no value is chosen (None), and succeeds otherwise.
   */
  function CheckRequaredOption(name: string): (check: Validator)
    ensures forall v :: check(v) == ErrorDescriptionSuccess <==> v != JNull
    ensures check(JNull) == ErrorDescription(1, RequiredMessage(name))
  {
    (v: Json) => if v == JNull then ErrorDescription(1, RequiredMessage(name)) else ErrorDescriptionSuccess
  }

  function FloatFormatMessage(fmt: Json, repr: Json -> string): string
  {
    "Неверный формат (" + PyStr(fmt, repr) + ") для дробного числа."
  }

  /**
   * CheckFloatFormat: a format option is accepted exactly when `Format % 1.25` does
   * not raise; otherwise ErrorCode 1 with a message quoting the format.
   */
  function CheckFloatFormat(format: Formatter, repr: Json -> string): (check: Validator)
    ensures forall v :: check(v) == ErrorDescriptionSuccess <==> format(v, JFloat(1.25)).Some?
    ensures forall v :: format(v, JFloat(1.25)).None? ==> check(v) == ErrorDescription(1, FloatFormatMessage(v, repr))
  {
    (v: Json) => if format(v, JFloat(1.25)).Some? then ErrorDescriptionSuccess else ErrorDescription(1, FloatFormatMessage(v, repr))
  }

  /** Python's `list.index(x)` with -1 for absence: the first position holding x. */
  function FirstIndex<T(==)>(s: seq<T>, x: T): (i: int)
    ensures -1 <= i < |s|
    ensures i == -1 <==> x !in s
    ensures 0 <= i ==> s[i] == x && forall j :: 0 <= j < i ==> s[j] != x
  {
    if |s| == 0 then -1
    else if s[0] == x then 0
    else
      var k := FirstIndex(s[1..], x);
      if k == -1 then -1 else k + 1
  }

  /**
   * The saved-choice lookups of LoadSettings: -1 when the key is absent or its value
   * is not one of the choices, and otherwise the first position of that value.
   */
  function SavedIndex(settings: map<string, Json>, id: string, choices: seq<string>): (i: int)
    ensures -1 <= i < |choices|
    ensures i == -1 <==> id !in settings || !settings[id].JStr? || settings[id].s !in choices
    ensures 0 <= i ==> settings[id] == JStr(choices[i]) && forall j :: 0 <= j < i ==> choices[j] != choices[i]
  {
    if id in settings && settings[id].JStr? && settings[id].s in choices then FirstIndex(choices, settings[id].s)
    else -1
  }

  /** `[cls.GetID() for cls in self.ParserClasses]` */
  function ParserIDs(): (ids: seq<string>)
    ensures |ids| == |ParserClasses|
    ensures forall i :: 0 <= i < |ids| ==> ids[i] == METACLASS_NAME
  {
    seq(|ParserClasses|, i requires 0 <= i < |ParserClasses| => GetID(ParserClasses[i]))
  }

  /** Because both identifiers coincide, a saved parser can only ever select the first entry. */
  lemma SavedParserIndexIsFirstOrNone(settings: map<string, Json>)
    ensures SavedIndex(settings, ID_PARSER, ParserIDs()) == -1 || SavedIndex(settings, ID_PARSER, ParserIDs()) == 0
    ensures SavedIndex(settings, ID_PARSER, ParserIDs()) == 0 <==>
              ID_PARSER in settings && settings[ID_PARSER] == JStr(METACLASS_NAME)
  {
    assert ParserIDs() == [METACLASS_NAME, METACLASS_NAME];
  }

  /** GetFiles: nothing for a missing directory, else the listed names with one of the extensions. */
  function GetFiles(listing: W.Option<seq<string>>, exts: seq<string>): (files: seq<string>)
    ensures listing.None? ==> files == []
    ensures forall x :: x in files <==> listing.Some? && x in listing.value && HasExtension(x, exts)
  {
    match listing
    case None => []
    case Some(names) => FilterByExtension(names, exts)
  }

  /**
   * CheckSettings: the chosen port is one of the enumerated port names and a parser
   * value is chosen and truthy (an unset ComboBoxOption holds None).
   */
  function CheckSettings(comPort: Json, ports: seq<string>, parser: Json): (ok: bool)
    ensures ok <==> (exists i :: 0 <= i < |ports| && comPort == JStr(ports[i])) && Truthy(parser)
    ensures ok ==> parser != JNull
  {
    comPort.JStr? && comPort.s in ports && Truthy(parser)
  }

  /**
   * `self.ParserClasses[[cls.GetID() for cls in self.ParserClasses].index(value)]`:
   * the first class whose identifier equals the value, None where `index` raises.
   * Since both identifiers are equal, JSONParser is the only class ever selected.
   */
  function SelectParser(value: Json): (k: W.Option<ParserKind>)
    ensures k.Some? <==> value == JStr(METACLASS_NAME)
    ensures k.Some? ==> k.value == JSONParser
  {
    var ids := ParserIDs();
    assert ids == [METACLASS_NAME, METACLASS_NAME];
    if value.JStr? && value.s in ids then W.Some(ParserClasses[FirstIndex(ids, value.s)]) else W.None
  }

  /** The serial settings onRun passes to Serial(...), the port name and the selected parser. */
  datatype LinkConfig = LinkConfig(
    Port: string,
    BaudRate: Json,
    ByteSize: Json,
    Parity: Json,
    StopBits: Json,
    Timeout: real,
    Parser: ParserKind)

  /** What onRun does: show the settings form, start the link, or raise in the parser lookup. */
  datatype RunDecision = ShowSettings | StartLink(config: LinkConfig) | ParserNotRegistered

  /**
   * onRun's guard and configuration: with failing CheckSettings the settings form
   * opens and no link is created; otherwise the link is configured from the option
   * values, always with JSONParser.
   */
  function OnRun(comPort: Json, ports: seq<string>, parser: Json,
                 baudRate: Json, byteSize: Json, parity: Json, stopBits: Json): (d: RunDecision)
    ensures d == ShowSettings <==> !CheckSettings(comPort, ports, parser)
    ensures d == ParserNotRegistered <==> CheckSettings(comPort, ports, parser) && parser != JStr(METACLASS_NAME)
    ensures d.StartLink? ==>
              && comPort == JStr(d.config.Port) && d.config.Port in ports
              && d.config.Parser == JSONParser && d.config.Timeout == TIMEOUNT_COM_PORT
              && d.config.BaudRate == baudRate && d.config.ByteSize == byteSize
              && d.config.Parity == parity && d.config.StopBits == stopBits
  {
    if !CheckSettings(comPort, ports, parser) then ShowSettings
    else match SelectParser(parser)
      case None => ParserNotRegistered
      case Some(k) => StartLink(LinkConfig(comPort.s, baudRate, byteSize, parity, stopBits, TIMEOUNT_COM_PORT, k))
  }

  /** The three display strings CurrentPrice, CurrentVolume, CurrentAmount. */
  datatype Readout = Readout(Price: string, Volume: string, Amount: string)

  /** The values of the FormatPrice, FormatVolume and FormatAmount options. */
  datatype Formats = Formats(Price: Json, Volume: Json, Amount: Json)

  /** Python's `fmt % x`, None where it raises. */
  type Formatter = (Json, Json) -> W.Option<string>

  /** `Command.CMDType == Parser.CMDTYPE_DATA` */
  predicate IsDataCommand(c: GasStationCommand)
  {
    EqualsInt(c.CMDType, CMDTYPE_DATA)
  }

  /** `fmt % Command.Params[key]`, None where the lookup or the formatting raises. */
  function FormatField(c: GasStationCommand, key: string, fmt: Json, format: Formatter): W.Option<string>
  {
    match Index(c.Params, key)
    case None => W.None
    case Some(x) => format(fmt, x)
  }

  /** Whether onCommand raises on c: it is a DATA command and one of its three fields cannot be formatted. */
  predicate DataRaises(c: GasStationCommand, f: Formats, format: Formatter)
  {
    && IsDataCommand(c)
    && (|| FormatField(c, DATA_PRICE, f.Price, format).None?
        || FormatField(c, DATA_VOLUME, f.Volume, format).None?
        || FormatField(c, DATA_AMOUNT, f.Amount, format).None?)
  }

  /**
   * onCommand as written: each string is assigned as soon as it is formatted, so an
   * exception on the volume or the amount leaves the price already replaced. The
   * flag says whether an exception escaped.
   */
  function DataUpdateAsWritten(r: Readout, c: GasStationCommand, f: Formats, format: Formatter): (u: (Readout, bool))
    ensures !IsDataCommand(c) ==> u == (r, false)
    ensures u.1 <==>
              && IsDataCommand(c)
              && (|| FormatField(c, DATA_PRICE, f.Price, format).None?
                  || FormatField(c, DATA_VOLUME, f.Volume, format).None?
                  || FormatField(c, DATA_AMOUNT, f.Amount, format).None?)
    ensures FormatField(c, DATA_PRICE, f.Price, format).Some? && IsDataCommand(c) ==>
              u.0.Price == FormatField(c, DATA_PRICE, f.Price, format).value
    ensures u.0.Price == r.Price || IsDataCommand(c)
    ensures u.0.Volume == r.Volume || FormatField(c, DATA_PRICE, f.Price, format).Some?
    ensures IsDataCommand(c) && FormatField(c, DATA_PRICE, f.Price, format).Some? ==>
              u.0.Volume == match FormatField(c, DATA_VOLUME, f.Volume, format)
                            case None => r.Volume
                            case Some(v) => v
    ensures u.0.Amount == r.Amount || !u.1
  {
    if !IsDataCommand(c) then (r, false)
    else match FormatField(c, DATA_PRICE, f.Price, format)
      case None => (r, true)
      case Some(p) =>
        var r1 := r.(Price := p);
        match FormatField(c, DATA_VOLUME, f.Volume, format)
        case None => (r1, true)
        case Some(v) =>
          var r2 := r1.(Volume := v);
          match FormatField(c, DATA_AMOUNT, f.Amount, format)
          case None => (r2, true)
          case Some(a) => (r2.(Amount := a), false)
  }

  /**
   * onCommand with the update the lock is meant to make atomic: a DATA command
   * replaces all three strings together, or, when any of them cannot be formatted,
   * none of them (and the exception still escapes). Any other CMDType, None included,
   * changes nothing.
   */
  function DataUpdate(r: Readout, c: GasStationCommand, f: Formats, format: Formatter): (u: (Readout, bool))
    ensures !IsDataCommand(c) ==> u == (r, false)
    ensures u.1 ==> u.0 == r
    ensures u.0 == r || (IsDataCommand(c)
              && FormatField(c, DATA_PRICE, f.Price, format) == W.Some(u.0.Price)
              && FormatField(c, DATA_VOLUME, f.Volume, format) == W.Some(u.0.Volume)
              && FormatField(c, DATA_AMOUNT, f.Amount, format) == W.Some(u.0.Amount))
    ensures IsDataCommand(c) && !u.1 ==>
              && FormatField(c, DATA_PRICE, f.Price, format) == W.Some(u.0.Price)
              && FormatField(c, DATA_VOLUME, f.Volume, format) == W.Some(u.0.Volume)
              && FormatField(c, DATA_AMOUNT, f.Amount, format) == W.Some(u.0.Amount)
  {
    if !IsDataCommand(c) then (r, false)
    else match (FormatField(c, DATA_PRICE, f.Price, format),
                FormatField(c, DATA_VOLUME, f.Volume, format),
                FormatField(c, DATA_AMOUNT, f.Amount, format))
      case (Some(p), Some(v), Some(a)) => (Readout(p, v, a), false)
      case _ => (r, true)
  }

  /** The corrected onCommand raises exactly when the command is DATA and one of its fields cannot be formatted. */
  lemma DataUpdateRaises(r: Readout, c: GasStationCommand, f: Formats, format: Formatter)
    ensures DataUpdate(r, c, f, format).1 <==> DataRaises(c, f, format)
  {
  }

  /** Where every field formats, or the command is not DATA, the two versions agree. */
  lemma AsWrittenAgreesWhenFormattingSucceeds(r: Readout, c: GasStationCommand, f: Formats, format: Formatter)
    requires !IsDataCommand(c) || (
               && FormatField(c, DATA_PRICE, f.Price, format).Some?
               && FormatField(c, DATA_VOLUME, f.Volume, format).Some?
               && FormatField(c, DATA_AMOUNT, f.Amount, format).Some?)
    ensures DataUpdateAsWritten(r, c, f, format) == DataUpdate(r, c, f, format)
  {
  }

  /**
   * The torn update: `{"CMDType": 1, "Price": 45.67}` (no Quantity) replaces the price
   * and keeps the old volume and amount, where the corrected update keeps all three.
   */
  lemma AsWrittenTearsReadout()
    ensures var r := Readout("", "", "");
      var c := GasStationCommand(JInt(1), JInt(-1), JInt(-1),
                                 JObj(map[FIELD_CMDTYPE := JInt(1), DATA_PRICE := JFloat(45.67)]), []);
      var f := Formats(JStr("%0.2f"), JStr("%0.2f"), JStr("%0.2f"));
      var format: Formatter := (fmt: Json, x: Json) => if x.JFloat? then W.Some("45.67") else W.None;
      && DataUpdateAsWritten(r, c, f, format) == (Readout("45.67", "", ""), true)
      && DataUpdate(r, c, f, format) == (r, true)
  {
  }

  /** Every displayed triple comes whole from one DATA command whose three fields all formatted. */
  predicate ShownBy(r: Readout, c: GasStationCommand, f: Formats, format: Formatter)
  {
    && IsDataCommand(c)
    && FormatField(c, DATA_PRICE, f.Price, format) == W.Some(r.Price)
    && FormatField(c, DATA_VOLUME, f.Volume, format) == W.Some(r.Volume)
    && FormatField(c, DATA_AMOUNT, f.Amount, format) == W.Some(r.Amount)
  }

  /** onRun clears the three strings before the worker starts. */
  const EMPTY_READOUT: Readout := Readout("", "", "")

  /** Every buffer holds at most 1000 bytes, the most one cycle's two reads return. */
  predicate AllFit(buffers: seq<Bytes>)
  {
    buffers == [] || (AllFit(buffers[..|buffers| - 1]) && |buffers[|buffers| - 1]| <= MAX_BUFFER)
  }

  /** AllFit, buffer by buffer. */
  lemma {:induction false} AllFitEach(buffers: seq<Bytes>)
    ensures AllFit(buffers) <==> forall i :: 0 <= i < |buffers| ==> |buffers[i]| <= MAX_BUFFER
  {
    if buffers != [] {
      var k := |buffers| - 1;
      AllFitEach(buffers[..k]);
      assert forall i :: 0 <= i < k ==> buffers[..k][i] == buffers[i];
    }
  }

  /** The commands the worker hands to onCommand, one per buffer that parses, in order. */
  function Commands(k: ParserKind, d: Decoder, buffers: seq<Bytes>): (cs: seq<GasStationCommand>)
    ensures |cs| <= |buffers|
  {
    if buffers == [] then []
    else
      Commands(k, d, buffers[..|buffers| - 1]) +
      match ParseWith(k, d, buffers[|buffers| - 1])
      case None => []
      case Some(c) => [c]
  }

  /** c is what the parser made of one of the buffers. */
  ghost predicate ParsedFrom(k: ParserKind, d: Decoder, buffers: seq<Bytes>, c: GasStationCommand)
  {
    exists j :: 0 <= j < |buffers| && ParseWith(k, d, buffers[j]) == W.Some(c)
  }

  /**
   * Every dispatched command is what the parser made of one of the buffers, and when
   * every buffer parses, there is one command per buffer.
   */
  lemma {:induction false} CommandsComeFromBuffers(k: ParserKind, d: Decoder, buffers: seq<Bytes>)
    ensures forall i :: 0 <= i < |Commands(k, d, buffers)| ==> ParsedFrom(k, d, buffers, Commands(k, d, buffers)[i])
    ensures (forall j :: 0 <= j < |buffers| ==> ParseWith(k, d, buffers[j]).Some?) ==>
              |Commands(k, d, buffers)| == |buffers|
  {
    if buffers != [] {
      var prefix := buffers[..|buffers| - 1];
      CommandsComeFromBuffers(k, d, prefix);
      var cs := Commands(k, d, buffers);
      var pc := Commands(k, d, prefix);
      var last := ParseWith(k, d, buffers[|buffers| - 1]);
      assert cs == pc + if last.None? then [] else [last.value];
      forall i | 0 <= i < |cs|
        ensures ParsedFrom(k, d, buffers, cs[i])
      {
        if i < |pc| {
          assert cs[i] == pc[i] && ParsedFrom(k, d, prefix, pc[i]);
          var j :| 0 <= j < |prefix| && ParseWith(k, d, prefix[j]) == W.Some(pc[i]);
          assert buffers[j] == prefix[j];
        } else {
          assert ParseWith(k, d, buffers[|buffers| - 1]) == W.Some(cs[i]);
        }
      }
      if forall j :: 0 <= j < |buffers| ==> ParseWith(k, d, buffers[j]).Some? {
        assert forall j :: 0 <= j < |prefix| ==> prefix[j] == buffers[j];
      }
    }
  }

  /** Commands of joined buffer lists are joined: the buffers are dispatched in order. */
  lemma {:induction false} CommandsAppend(k: ParserKind, d: Decoder, a: seq<Bytes>, b: seq<Bytes>)
    ensures Commands(k, d, a + b) == Commands(k, d, a) + Commands(k, d, b)
    decreases |b|
  {
    if b == [] {
      assert a + b == a;
    } else {
      CommandsAppend(k, d, a, b[..|b| - 1]);
      assert (a + b)[..|a + b| - 1] == a + b[..|b| - 1];
    }
  }

  /** A single buffer yields its parse, or nothing when it does not parse. */
  lemma CommandsOne(k: ParserKind, d: Decoder, b: Bytes)
    ensures Commands(k, d, [b]) == if ParseWith(k, d, b).None? then [] else [ParseWith(k, d, b).value]
  {
    assert [b][..0] == [];
  }

  /** One more buffer that fits keeps AllFit and adds its command, if it parses to one. */
  lemma LogStep(k: ParserKind, d: Decoder, buffers: seq<Bytes>, b: Bytes)
    requires AllFit(buffers) && |b| <= MAX_BUFFER
    ensures AllFit(buffers + [b])
    ensures Commands(k, d, buffers + [b]) ==
            Commands(k, d, buffers) + if ParseWith(k, d, b).None? then [] else [ParseWith(k, d, b).value]
  {
    assert (buffers + [b])[..|buffers|] == buffers;
  }

  /** When every buffer parses, the i-th command is the parse of the i-th buffer. */
  lemma {:induction false} CommandsInBufferOrder(k: ParserKind, d: Decoder, buffers: seq<Bytes>)
    requires forall j :: 0 <= j < |buffers| ==> ParseWith(k, d, buffers[j]).Some?
    ensures |Commands(k, d, buffers)| == |buffers|
    ensures forall i :: 0 <= i < |buffers| ==> Commands(k, d, buffers)[i] == ParseWith(k, d, buffers[i]).value
  {
    if buffers != [] {
      var prefix := buffers[..|buffers| - 1];
      assert forall j :: 0 <= j < |prefix| ==> prefix[j] == buffers[j];
      CommandsInBufferOrder(k, d, prefix);
    }
  }

  /** The readout after onCommand has run on each command in turn (exceptions keep the readout). */
  function Replay(r: Readout, cmds: seq<GasStationCommand>, f: Formats, format: Formatter): Readout
  {
    if cmds == [] then r
    else DataUpdate(Replay(r, cmds[..|cmds| - 1], f, format), cmds[|cmds| - 1], f, format).0
  }

  /** With the Bench parser selected the worker never dispatches a command. */
  lemma {:induction false} BenchDispatchesNothing(d: Decoder, buffers: seq<Bytes>)
    ensures Commands(BenchParser, d, buffers) == []
  {
    if buffers != [] {
      BenchDispatchesNothing(d, buffers[..|buffers| - 1]);
    }
  }

  /**
   * What the display shows is never a mixture: it is the initial readout or the
   * complete triple of one DATA command that was received.
   */
  lemma {:induction false} ReplayShowsOneCommand(r: Readout, cmds: seq<GasStationCommand>, f: Formats, format: Formatter)
    ensures Replay(r, cmds, f, format) == r ||
            exists i :: 0 <= i < |cmds| && ShownBy(Replay(r, cmds, f, format), cmds[i], f, format)
  {
    if cmds != [] {
      var prefix := cmds[..|cmds| - 1];
      var last := cmds[|cmds| - 1];
      ReplayShowsOneCommand(r, prefix, f, format);
      var u := DataUpdate(Replay(r, prefix, f, format), last, f, format).0;
      if u == Replay(r, prefix, f, format) {
        if u != r {
          var i :| 0 <= i < |prefix| && ShownBy(u, prefix[i], f, format);
          assert cmds[i] == prefix[i];
        }
      } else {
        assert ShownBy(u, cmds[|cmds| - 1], f, format);
      }
    }
  }

  /**
   * The serial port as the worker drives it (pyserial's Serial). Whether an open
   * attempt succeeds and what a read returns are supplied by the environment, indexed
   * by how many attempts came before; None stands for a read that raises.
   */
  class Port {
    const OpenSucceeds: nat -> bool
    const ReadResult: nat -> W.Option<Bytes>
    var IsOpen: bool
    var Opens: nat
    var Reads: nat

    constructor (OpenSucceeds: nat -> bool, ReadResult: nat -> W.Option<Bytes>)
      ensures this.OpenSucceeds == OpenSucceeds && this.ReadResult == ReadResult
      ensures !IsOpen && Opens == 0 && Reads == 0
    {
      this.OpenSucceeds := OpenSucceeds;
      this.ReadResult := ReadResult;
      IsOpen := false;
      Opens := 0;
      Reads := 0;
    }

    /** open(): raises (false) on a port that is already open or that cannot be opened. */
    method Open() returns (ok: bool)
      modifies this`IsOpen, this`Opens
      ensures Opens == old(Opens) + 1
      ensures ok <==> !old(IsOpen) && OpenSucceeds(old(Opens))
      ensures IsOpen == (old(IsOpen) || ok)
    {
      ok := !IsOpen && OpenSucceeds(Opens);
      if ok {
        IsOpen := true;
      }
      Opens := Opens + 1;
    }

    /**
     * What the n-th read(size) on the open port returns: the first size bytes of what
     * arrived (all of it when less arrived), or None when that read raises.
     */
    function Received(n: nat, size: nat): (data: W.Option<Bytes>)
      ensures data.None? <==> ReadResult(n).None?
      ensures data.Some? ==> data.value <= ReadResult(n).value
      ensures data.Some? ==> |data.value| == if |ReadResult(n).value| <= size then |ReadResult(n).value| else size
    {
      match ReadResult(n)
      case None => W.None
      case Some(b) => W.Some(if |b| <= size then b else b[..size])
    }

    /** read(size): at most size bytes of what arrives; raises (None) when the port is closed. */
    method Read(size: nat) returns (data: W.Option<Bytes>)
      modifies this`Reads
      ensures Reads == old(Reads) + 1
      ensures !IsOpen ==> data.None?
      ensures data.Some? ==> |data.value| <= size
      ensures IsOpen ==> data == Received(old(Reads), size)
    {
      data := W.None;
      if IsOpen {
        match ReadResult(Reads)
        case Some(b) =>
          data := W.Some(if |b| <= size then b else b[..size]);
        case None =>
      }
      Reads := Reads + 1;
    }

    /** What the open attempts numbered from to upTo - 1 do, in order. */
    ghost function Outcomes(from: nat, upTo: nat): seq<bool>
      decreases upTo
    {
      if upTo <= from then [] else Outcomes(from, upTo - 1) + [OpenSucceeds(upTo - 1)]
    }

    /** There is one outcome per attempt, the i-th being that of attempt from + i. */
    lemma {:induction false} OutcomesAt(from: nat, upTo: nat)
      requires from <= upTo
      ensures |Outcomes(from, upTo)| == upTo - from
      ensures forall i :: 0 <= i < upTo - from ==> Outcomes(from, upTo)[i] == OpenSucceeds(from + i)
      decreases upTo
    {
      if from < upTo {
        OutcomesAt(from, upTo - 1);
      }
    }

    /** One more attempt adds its outcome at the end. */
    lemma OutcomesGrow(from: nat, upTo: nat)
      requires from <= upTo
      ensures Outcomes(from, upTo + 1) == Outcomes(from, upTo) + [OpenSucceeds(upTo)]
    {
    }

    /** close() */
    method Close()
      modifies this`IsOpen
      ensures !IsOpen
    {
      IsOpen := false;
    }
  }

  /** Position of the first option (if any) whose validators fail on its current value. */
  ghost function FirstFailing(options: seq<Option>): (k: nat)
    reads options`Value
    ensures k <= |options|
    ensures forall j :: 0 <= j < k ==> FirstFailure(options[j].Validators, options[j].Value) == ErrorDescriptionSuccess
    ensures k < |options| ==> FirstFailure(options[k].Validators, options[k].Value) != ErrorDescriptionSuccess
  {
    if options == [] then 0
    else if FirstFailure(options[0].Validators, options[0].Value) != ErrorDescriptionSuccess then 0
    else 1 + FirstFailing(options[1..])
  }

  /**
   * One step of the worker thread, as it happens: a read of Terminate (in the outer
   * loop or the inner one, and what it read), an attempt to open the port, one
   * read-and-dispatch cycle (and whether an exception escaped it), closing the port
   * in the exception handler, closing it when the thread ends.
   */
  datatype WorkEvent =
    | TerminateRead(inner: bool, stop: bool)
    | OpenAttempt(ok: bool)
    | Cycle(failed: bool)
    | PortClosed
    | FinalClose

  /**
   * WorkThread's control flow: the events that may come straight after a. Read
   * backwards, it says where each event can come from: an open attempt only after the
   * outer loop read Terminate as false, the handler's close only after a failed cycle,
   * the final close only after the outer loop read Terminate as true, a cycle only
   * after the inner loop read it as false; nothing comes after the final close.
   */
  predicate Follows(a: WorkEvent, b: WorkEvent)
    ensures Follows(a, b) ==> a != FinalClose
    ensures Follows(a, b) && b.OpenAttempt? ==> a == TerminateRead(false, false)
    ensures Follows(a, b) && b == PortClosed ==> a == Cycle(true)
    ensures Follows(a, b) && b == FinalClose ==> a == TerminateRead(false, true)
    ensures Follows(a, b) && b.Cycle? ==> a == TerminateRead(true, false)
  {
    match a
    case TerminateRead(inner, stop) =>
      if !inner && !stop then b.OpenAttempt?
      else if !inner then b == FinalClose
      else if !stop then b.Cycle?
      else b.TerminateRead? && !b.inner
    case OpenAttempt(ok) => b.TerminateRead? && b.inner == ok
    case Cycle(failed) => if failed then b == PortClosed else b.TerminateRead? && b.inner
    case PortClosed => b.TerminateRead? && !b.inner
    case FinalClose => false
  }

  /** Every consecutive pair of events follows the control flow. */
  ghost predicate Steps(t: seq<WorkEvent>)
  {
    forall i :: 0 <= i < |t| - 1 ==> StepAt(t, i)
  }

  /** The event after position i follows the one at i. */
  ghost predicate StepAt(t: seq<WorkEvent>, i: int)
    requires 0 <= i < |t| - 1
  {
    Follows(t[i], t[i + 1])
  }

  /**
   * A whole run of WorkThread: it starts with the outer loop reading Terminate and
   * ends with the outer loop reading it as true, followed by the final close when
   * the port was still open.
   */
  ghost predicate WorkRun(t: seq<WorkEvent>)
  {
    && Steps(t) && |t| > 0 && t[0].TerminateRead? && !t[0].inner
    && (t[|t| - 1] == TerminateRead(false, true) || t[|t| - 1] == FinalClose)
  }

  /** How many reads of Terminate returned false. */
  function FalseReads(t: seq<WorkEvent>): nat
  {
    if t == [] then 0
    else FalseReads(t[..|t| - 1]) + if t[|t| - 1].TerminateRead? && !t[|t| - 1].stop then 1 else 0
  }

  /** The outcomes of the attempts to open the port, in order. */
  function OpenResults(t: seq<WorkEvent>): seq<bool>
  {
    if t == [] then []
    else OpenResults(t[..|t| - 1]) + if t[|t| - 1].OpenAttempt? then [t[|t| - 1].ok] else []
  }

  /** The open attempts of a joined log are those of its parts. */
  lemma {:induction false} OpenResultsAppend(a: seq<WorkEvent>, b: seq<WorkEvent>)
    ensures OpenResults(a + b) == OpenResults(a) + OpenResults(b)
  {
    if b == [] {
      assert a + b == a;
    } else {
      OpenResultsAppend(a, b[..|b| - 1]);
      assert (a + b)[..|a + b| - 1] == a + b[..|b| - 1];
    }
  }

  /** Appending an event that follows the last one keeps the control flow and counts its read. */
  lemma ExtendRun(t: seq<WorkEvent>, e: WorkEvent)
    requires Steps(t) && (t == [] || Follows(t[|t| - 1], e))
    ensures Steps(t + [e]) && t < t + [e]
    ensures FalseReads(t + [e]) == FalseReads(t) + if e.TerminateRead? && !e.stop then 1 else 0
  {
    var u := t + [e];
    forall i | 0 <= i < |u| - 1
      ensures StepAt(u, i)
    {
      if i < |t| - 1 {
        assert StepAt(t, i);
      }
    }
    assert u[..|t|] == t;
  }

  /** The events of n cycles of the inner loop that did not fail. */
  function Cycles(n: nat): seq<WorkEvent>
  {
    if n == 0 then [] else Cycles(n - 1) + [TerminateRead(true, false), Cycle(false)]
  }

  /** The inner loop's events: n cycles that did not fail, then a failing cycle or Terminate read as true. */
  function InnerLoopEvents(n: nat, failed: bool): seq<WorkEvent>
  {
    Cycles(n) + if failed then [TerminateRead(true, false), Cycle(true)] else [TerminateRead(true, true)]
  }

  /** Cycles that did not fail can follow a successful open or each other; each reads Terminate as false once. */
  lemma {:induction false} CyclesFollow(t: seq<WorkEvent>, n: nat)
    requires Steps(t) && |t| > 0 && Follows(t[|t| - 1], TerminateRead(true, false))
    ensures var u := t + Cycles(n);
      && Steps(u) && t <= u && Follows(u[|u| - 1], TerminateRead(true, false))
      && FalseReads(u) == FalseReads(t) + n
  {
    if n == 0 {
      assert t + Cycles(n) == t;
    } else {
      CyclesFollow(t, n - 1);
      var u := t + Cycles(n - 1);
      var v := u + [TerminateRead(true, false)];
      ExtendRun(u, TerminateRead(true, false));
      ExtendRun(v, Cycle(false));
      assert t + Cycles(n) == v + [Cycle(false)];
    }
  }

  /** The inner loop's events extend a log that ends with a successful open along the control flow. */
  lemma InnerLoopFollows(t: seq<WorkEvent>, n: nat, failed: bool)
    requires Steps(t) && |t| > 0 && t[|t| - 1] == OpenAttempt(true)
    ensures var u := t + InnerLoopEvents(n, failed);
      && Steps(u) && t < u
      && u[|u| - 1] == (if failed then Cycle(true) else TerminateRead(true, true))
      && FalseReads(u) == FalseReads(t) + n + if failed then 1 else 0
  {
    CyclesFollow(t, n);
    var c := t + Cycles(n);
    ExtendRun(c, TerminateRead(true, !failed));
    if failed {
      ExtendRun(c + [TerminateRead(true, false)], Cycle(true));
      assert t + InnerLoopEvents(n, failed) == c + [TerminateRead(true, false)] + [Cycle(true)];
    } else {
      assert t + InnerLoopEvents(n, failed) == c + [TerminateRead(true, true)];
    }
  }

  /** FalseReads adds up over concatenation. */
  lemma {:induction false} FalseReadsAppend(a: seq<WorkEvent>, b: seq<WorkEvent>)
    ensures FalseReads(a + b) == FalseReads(a) + FalseReads(b)
  {
    if b == [] {
      assert a + b == a;
    } else {
      FalseReadsAppend(a, b[..|b| - 1]);
      assert (a + b)[..|a + b| - 1] == a + b[..|b| - 1];
    }
  }

  /** Two logs joined where the second starts with an event that may follow the first's last. */
  lemma StepsJoin(a: seq<WorkEvent>, b: seq<WorkEvent>)
    requires Steps(a) && Steps(b) && (a == [] || b == [] || Follows(a[|a| - 1], b[0]))
    ensures Steps(a + b)
  {
    var u := a + b;
    forall i | 0 <= i < |u| - 1
      ensures StepAt(u, i)
    {
      if i < |a| - 1 {
        assert StepAt(a, i);
      } else if i >= |a| {
        assert StepAt(b, i - |a|);
      }
    }
  }

  /**
   * What one pass of the outer loop's try block does after Terminate was read as
   * false: a failed open, or a successful one followed by the inner loop and, when a
   * cycle failed, the handler's close.
   */
  function OuterPassEvents(ok: bool, n: nat, failed: bool): seq<WorkEvent>
  {
    if !ok then [OpenAttempt(false)]
    else [OpenAttempt(true)] + InnerLoopEvents(n, failed) + if failed then [PortClosed] else []
  }

  /** A pass follows the control flow, ends where the outer loop reads Terminate again, and counts its reads. */
  lemma OuterPassFollows(ok: bool, n: nat, failed: bool)
    ensures var e := OuterPassEvents(ok, n, failed);
      && Steps(e) && |e| > 0 && e[0] == OpenAttempt(ok)
      && Follows(e[|e| - 1], TerminateRead(false, false))
      && (ok && !failed ==> e[|e| - 1] == TerminateRead(true, true))
      && FalseReads(InnerLoopEvents(n, failed)) == n + (if failed then 1 else 0)
      && FalseReads(e) == if ok then n + (if failed then 1 else 0) else 0
  {
    var start := [OpenAttempt(true)];
    InnerLoopFollows(start, n, failed);
    FalseReadsAppend(start, InnerLoopEvents(n, failed));
    assert FalseReads(start) == 0 by {
      assert start[..0] == [];
    }
    if !ok {
      var e := [OpenAttempt(false)];
      assert FalseReads(e) == 0 by {
        assert e[..0] == [];
      }
    } else if failed {
      ExtendRun(start + InnerLoopEvents(n, failed), PortClosed);
    } else {
      assert OuterPassEvents(ok, n, failed) == start + InnerLoopEvents(n, failed);
    }
  }

  /** The open attempts of a single event. */
  lemma OpenResultsOne(e: WorkEvent)
    ensures OpenResults([e]) == if e.OpenAttempt? then [e.ok] else []
  {
    assert [e][..0] == [];
  }

  /** The inner loop does not open the port. */
  lemma {:induction false} CyclesOpenNothing(n: nat)
    ensures OpenResults(Cycles(n)) == []
  {
    if n > 0 {
      CyclesOpenNothing(n - 1);
      OpenResultsAppend(Cycles(n - 1) + [TerminateRead(true, false)], [Cycle(false)]);
      OpenResultsAppend(Cycles(n - 1), [TerminateRead(true, false)]);
      OpenResultsOne(TerminateRead(true, false));
      OpenResultsOne(Cycle(false));
      assert Cycles(n) == Cycles(n - 1) + [TerminateRead(true, false)] + [Cycle(false)];
    }
  }

  /** Nor does the end of the inner loop. */
  lemma InnerLoopOpensNothing(n: nat, failed: bool)
    ensures OpenResults(InnerLoopEvents(n, failed)) == []
  {
    CyclesOpenNothing(n);
    if failed {
      OpenResultsAppend(Cycles(n) + [TerminateRead(true, false)], [Cycle(true)]);
      OpenResultsAppend(Cycles(n), [TerminateRead(true, false)]);
      OpenResultsOne(TerminateRead(true, false));
      OpenResultsOne(Cycle(true));
      assert InnerLoopEvents(n, failed) == Cycles(n) + [TerminateRead(true, false)] + [Cycle(true)];
    } else {
      OpenResultsAppend(Cycles(n), [TerminateRead(true, true)]);
      OpenResultsOne(TerminateRead(true, true));
      assert InnerLoopEvents(n, failed) == Cycles(n) + [TerminateRead(true, true)];
    }
  }

  /** A pass of the outer loop tries to open the port once, with the outcome ok. */
  lemma OuterPassOpens(ok: bool, n: nat, failed: bool)
    ensures OpenResults(OuterPassEvents(ok, n, failed)) == [ok]
  {
    OpenResultsOne(OpenAttempt(ok));
    if ok {
      var inner := [OpenAttempt(true)] + InnerLoopEvents(n, failed);
      InnerLoopOpensNothing(n, failed);
      OpenResultsAppend([OpenAttempt(true)], InnerLoopEvents(n, failed));
      if failed {
        OpenResultsAppend(inner, [PortClosed]);
        OpenResultsOne(PortClosed);
      } else {
        assert OuterPassEvents(ok, n, failed) == inner;
      }
    }
  }

  /** The outer loop's head: the log is empty, or began with Terminate read as false and may be followed by another read. */
  ghost predicate OuterLoopHead(t: seq<WorkEvent>)
  {
    && Steps(t)
    && (t == [] || (t[0] == TerminateRead(false, false) && Follows(t[|t| - 1], TerminateRead(false, false))))
  }

  /** One more pass of the outer loop keeps its head. */
  lemma RunGrows(t: seq<WorkEvent>, events: seq<WorkEvent>)
    requires OuterLoopHead(t)
    requires Steps(events) && |events| > 0 && events[0].OpenAttempt?
    requires Follows(events[|events| - 1], TerminateRead(false, false))
    ensures var u := t + [TerminateRead(false, false)] + events;
      OuterLoopHead(u) && FalseReads(u) == FalseReads(t) + 1 + FalseReads(events)
  {
    var v := t + [TerminateRead(false, false)];
    ExtendRun(t, TerminateRead(false, false));
    StepsJoin(v, events);
    FalseReadsAppend(v, events);
  }

  /** One more pass of the outer loop adds the outcome of its open attempt. */
  lemma OpensGrow(t: seq<WorkEvent>, ok: bool, n: nat, failed: bool)
    ensures OpenResults(t + [TerminateRead(false, false)] + OuterPassEvents(ok, n, failed)) == OpenResults(t) + [ok]
  {
    var v := t + [TerminateRead(false, false)];
    OuterPassOpens(ok, n, failed);
    OpenResultsAppend(v, OuterPassEvents(ok, n, failed));
    assert v[..|v| - 1] == t;
  }

  /** What one pass of the outer loop adds to the log: the head is kept, its reads are counted, its open attempt is recorded. */
  lemma PassGrows(t: seq<WorkEvent>, ok: bool, n: nat, failed: bool)
    requires OuterLoopHead(t)
    ensures var u := t + [TerminateRead(false, false)] + OuterPassEvents(ok, n, failed);
      && OuterLoopHead(u)
      && FalseReads(u) == FalseReads(t) + 1 + (if ok then n + (if failed then 1 else 0) else 0)
      && OpenResults(u) == OpenResults(t) + [ok]
  {
    OuterPassFollows(ok, n, failed);
    RunGrows(t, OuterPassEvents(ok, n, failed));
    OpensGrow(t, ok, n, failed);
  }

  /** The end of the run opens nothing. */
  lemma OpensEnd(t: seq<WorkEvent>, closing: bool)
    ensures OpenResults(t + [TerminateRead(false, true)] + if closing then [FinalClose] else []) == OpenResults(t)
  {
    var v := t + [TerminateRead(false, true)];
    assert v[..|v| - 1] == t;
    if closing {
      var w := v + [FinalClose];
      assert w[..|w| - 1] == v;
    } else {
      assert v + [] == v;
    }
  }

  /** The read of Terminate as true, and the final close when the port is open, end the run. */
  lemma RunEnds(t: seq<WorkEvent>, closing: bool)
    requires OuterLoopHead(t)
    ensures var u := t + [TerminateRead(false, true)] + if closing then [FinalClose] else [];
      WorkRun(u) && FalseReads(u) == FalseReads(t)
  {
    var v := t + [TerminateRead(false, true)];
    ExtendRun(t, TerminateRead(false, true));
    if closing {
      ExtendRun(v, FinalClose);
    } else {
      assert v + [] == v;
    }
  }

  /** Whether each cycle in the log let an exception escape, in order. */
  function CycleResults(t: seq<WorkEvent>): seq<bool>
  {
    if t == [] then []
    else CycleResults(t[..|t| - 1]) + if t[|t| - 1].Cycle? then [t[|t| - 1].failed] else []
  }

  /** The cycles of a joined log are those of its parts. */
  lemma {:induction false} CycleResultsAppend(a: seq<WorkEvent>, b: seq<WorkEvent>)
    ensures CycleResults(a + b) == CycleResults(a) + CycleResults(b)
  {
    if b == [] {
      assert a + b == a;
    } else {
      CycleResultsAppend(a, b[..|b| - 1]);
      assert (a + b)[..|a + b| - 1] == a + b[..|b| - 1];
    }
  }

  /** The cycles of a single event. */
  lemma CycleResultsOne(e: WorkEvent)
    ensures CycleResults([e]) == if e.Cycle? then [e.failed] else []
  {
    assert [e][..0] == [];
  }

  /** What the cycles of one outer pass do: none when the open fails, else n that pass and, when failed, one that fails. */
  function PassResults(ok: bool, n: nat, failed: bool): (r: seq<bool>)
    ensures |r| == if ok then n + (if failed then 1 else 0) else 0
    ensures forall i :: 0 <= i < |r| ==> (r[i] <==> i == n)
  {
    if ok then seq(n, _ => false) + (if failed then [true] else []) else []
  }

  /** n cycles that did not fail. */
  lemma {:induction false} CyclesResults(n: nat)
    ensures CycleResults(Cycles(n)) == seq(n, _ => false)
  {
    if n > 0 {
      CyclesResults(n - 1);
      CycleResultsAppend(Cycles(n - 1) + [TerminateRead(true, false)], [Cycle(false)]);
      CycleResultsAppend(Cycles(n - 1), [TerminateRead(true, false)]);
      CycleResultsOne(TerminateRead(true, false));
      CycleResultsOne(Cycle(false));
      assert Cycles(n) == Cycles(n - 1) + [TerminateRead(true, false)] + [Cycle(false)];
      assert seq(n, _ => false) == seq(n - 1, _ => false) + [false];
    }
  }

  /** One more event adds its cycle, if it is one. */
  lemma CycleResultsSnoc(t: seq<WorkEvent>, e: WorkEvent)
    ensures CycleResults(t + [e]) == CycleResults(t) + if e.Cycle? then [e.failed] else []
  {
    assert (t + [e])[..|t|] == t;
  }

  /** The cycles after a successful open: those of Cycles(n). */
  lemma OpenedCycles(n: nat)
    ensures CycleResults([OpenAttempt(true)] + Cycles(n)) == seq(n, _ => false)
  {
    CyclesResults(n);
    CycleResultsAppend([OpenAttempt(true)], Cycles(n));
    CycleResultsOne(OpenAttempt(true));
  }

  /** The cycles of one outer pass are PassResults. */
  lemma OuterPassCycles(ok: bool, n: nat, failed: bool)
    ensures CycleResults(OuterPassEvents(ok, n, failed)) == PassResults(ok, n, failed)
  {
    if !ok {
      CycleResultsOne(OpenAttempt(false));
    } else {
      var c := [OpenAttempt(true)] + Cycles(n);
      OpenedCycles(n);
      if failed {
        var d := c + [TerminateRead(true, false)];
        CycleResultsSnoc(c, TerminateRead(true, false));
        CycleResultsSnoc(d, Cycle(true));
        CycleResultsSnoc(d + [Cycle(true)], PortClosed);
        assert OuterPassEvents(ok, n, failed) == d + [Cycle(true)] + [PortClosed];
      } else {
        CycleResultsSnoc(c, TerminateRead(true, true));
        assert OuterPassEvents(ok, n, failed) == c + [TerminateRead(true, true)];
      }
    }
  }

  /** One more pass of the outer loop adds its cycles. */
  lemma CyclesGrow(t: seq<WorkEvent>, ok: bool, n: nat, failed: bool)
    ensures CycleResults(t + [TerminateRead(false, false)] + OuterPassEvents(ok, n, failed)) ==
            CycleResults(t) + PassResults(ok, n, failed)
  {
    var v := t + [TerminateRead(false, false)];
    OuterPassCycles(ok, n, failed);
    CycleResultsAppend(v, OuterPassEvents(ok, n, failed));
    CycleResultsAppend(t, [TerminateRead(false, false)]);
    CycleResultsOne(TerminateRead(false, false));
  }

  /** The end of the run has no cycle. */
  lemma CyclesEnd(t: seq<WorkEvent>, closing: bool)
    ensures CycleResults(t + [TerminateRead(false, true)] + if closing then [FinalClose] else []) == CycleResults(t)
  {
    var v := t + [TerminateRead(false, true)];
    CycleResultsAppend(t, [TerminateRead(false, true)]);
    CycleResultsOne(TerminateRead(false, true));
    if closing {
      CycleResultsAppend(v, [FinalClose]);
      CycleResultsOne(FinalClose);
    } else {
      assert v + [] == v;
    }
  }

  /** The first reads of the cycles of one outer pass: those that passed, then the failing one. */
  function PassFirsts(ok: bool, failed: bool, m: nat, passed: seq<nat>): seq<nat>
  {
    if ok then passed + (if failed then [m] else []) else []
  }

  /** Where the i-th of back-to-back cycles beginning at read from takes its first read, a cycle whose first read is k taking step(k) reads. */
  function ChainAt(firsts: seq<nat>, step: nat -> nat, from: nat, i: nat): nat
    requires i <= |firsts|
  {
    if i == 0 then from else firsts[i - 1] + step(firsts[i - 1])
  }

  /**
   * firsts are the first reads of cycles run back to back from the port's read
   * number from: each cycle begins where the one before it stopped reading, and the
   * last one stopped just before read upTo.
   */
  predicate ReadChain(firsts: seq<nat>, step: nat -> nat, from: nat, upTo: nat)
  {
    && (forall i {:trigger ChainAt(firsts, step, from, i)} :: 0 <= i < |firsts| ==> firsts[i] == ChainAt(firsts, step, from, i))
    && upTo == ChainAt(firsts, step, from, |firsts|)
  }

  /** In joined runs of cycles, the i-th cycle begins where it does in its own run. */
  lemma ChainAtJoin(a: seq<nat>, b: seq<nat>, step: nat -> nat, from: nat, mid: nat, i: nat)
    requires i <= |a + b| && (|a| < i ==> mid == ChainAt(a, step, from, |a|))
    ensures ChainAt(a + b, step, from, i) == if i <= |a| then ChainAt(a, step, from, i) else ChainAt(b, step, mid, i - |a|)
  {
    if 0 < i <= |a| {
      assert (a + b)[i - 1] == a[i - 1];
    } else if |a| < i {
      assert (a + b)[i - 1] == b[i - 1 - |a|];
    }
  }

  /** Two runs of cycles, the second beginning where the first stopped, form one run. */
  lemma ReadChainJoin(a: seq<nat>, b: seq<nat>, step: nat -> nat, from: nat, mid: nat, upTo: nat)
    requires ReadChain(a, step, from, mid) && ReadChain(b, step, mid, upTo)
    ensures ReadChain(a + b, step, from, upTo)
  {
    var u := a + b;
    forall i | 0 <= i < |u|
      ensures u[i] == ChainAt(u, step, from, i)
    {
      ChainAtJoin(a, b, step, from, mid, i);
      if i < |a| {
        assert u[i] == a[i] == ChainAt(a, step, from, i);
      } else {
        assert u[i] == b[i - |a|] == ChainAt(b, step, mid, i - |a|);
      }
    }
    ChainAtJoin(a, b, step, from, mid, |u|);
    assert upTo == ChainAt(u, step, from, |u|) by {
      if b == [] {
        assert |u| == |a|;
      } else {
        assert |u| - |a| == |b|;
      }
    }
  }

  /** What the cycles whose first reads are firsts add, in order, a cycle whose first read is k adding logged(k). */
  function Gathered(firsts: seq<nat>, logged: nat -> seq<Bytes>): seq<Bytes>
  {
    if firsts == [] then [] else Gathered(firsts[..|firsts| - 1], logged) + logged(firsts[|firsts| - 1])
  }

  /** One more cycle adds what it logs. */
  lemma GatheredSnoc(firsts: seq<nat>, logged: nat -> seq<Bytes>, m: nat)
    ensures Gathered(firsts + [m], logged) == Gathered(firsts, logged) + logged(m)
  {
    assert (firsts + [m])[..|firsts|] == firsts;
  }

  /** One more cycle after b0 and the cycles of firsts logs what the longer run logs. */
  lemma GatheredExtend(b0: seq<Bytes>, firsts: seq<nat>, logged: nat -> seq<Bytes>, m: nat)
    ensures b0 + Gathered(firsts, logged) + logged(m) == b0 + Gathered(firsts + [m], logged)
  {
    GatheredSnoc(firsts, logged, m);
  }

  /** Joined runs of cycles log the joined buffers. */
  lemma {:induction false} GatheredAppend(a: seq<nat>, b: seq<nat>, logged: nat -> seq<Bytes>)
    ensures Gathered(a + b, logged) == Gathered(a, logged) + Gathered(b, logged)
  {
    if b == [] {
      assert a + b == a;
    } else {
      var k := |b| - 1;
      GatheredAppend(a, b[..k], logged);
      assert (a + b)[..|a + b| - 1] == a + b[..k];
    }
  }

  /** Logging more cycles after b0 and those of firsts logs them after b0 and the longer run. */
  lemma GatheredJoin(b0: seq<Bytes>, firsts: seq<nat>, pass: seq<nat>, logged: nat -> seq<Bytes>)
    ensures b0 + Gathered(firsts, logged) + Gathered(pass, logged) == b0 + Gathered(firsts + pass, logged)
  {
    GatheredAppend(firsts, pass, logged);
  }

  /** Nothing follows the final close. */
  lemma FinalCloseIsLast(t: seq<WorkEvent>)
    requires Steps(t)
    ensures forall i :: 0 <= i < |t| - 1 ==> t[i] != FinalClose
  {
    forall i | 0 <= i < |t| - 1
      ensures t[i] != FinalClose
    {
      assert StepAt(t, i);
    }
  }

  /**
   * The worker recovers from every failure: a failed cycle is followed by closing
   * the port and Terminate being read again; a failed open by Terminate being read
   * again; and Terminate read as false in the outer loop by a new open attempt.
   * Only the final close can come after the outer loop reads Terminate as true.
   */
  lemma WorkRunRecovers(t: seq<WorkEvent>)
    requires WorkRun(t)
    ensures forall i :: 0 <= i < |t| && t[i] == Cycle(true) ==>
              i + 2 < |t| && t[i + 1] == PortClosed && t[i + 2].TerminateRead? && !t[i + 2].inner
    ensures forall i :: 0 <= i < |t| && t[i] == OpenAttempt(false) ==>
              i + 1 < |t| && t[i + 1].TerminateRead? && !t[i + 1].inner
    ensures forall i :: 0 <= i < |t| && t[i] == TerminateRead(false, false) ==>
              i + 1 < |t| && t[i + 1].OpenAttempt?
    ensures forall i :: 0 <= i < |t| && t[i] == TerminateRead(false, true) ==>
              i == |t| - 1 || (i == |t| - 2 && t[i + 1] == FinalClose)
  {
    FinalCloseIsLast(t);
    forall i | 0 <= i < |t| && t[i] == Cycle(true)
      ensures i + 2 < |t| && t[i + 1] == PortClosed && t[i + 2].TerminateRead? && !t[i + 2].inner
    {
      assert StepAt(t, i);
      assert StepAt(t, i + 1);
    }
    forall i | 0 <= i < |t| && (t[i] == OpenAttempt(false) || t[i] == TerminateRead(false, false))
      ensures i + 1 < |t| && Follows(t[i], t[i + 1])
    {
      assert StepAt(t, i);
    }
    forall i | 0 <= i < |t| - 1 && t[i] == TerminateRead(false, true)
      ensures i == |t| - 2 && t[i + 1] == FinalClose
    {
      assert StepAt(t, i);
    }
  }

  /**
   * GasStationDisplay from its settings form to its worker thread. The options and
   * the serial port are objects of their own; the display strings are fields that
   * onCommand updates; Terminate is modelled by ChecksBeforeStop, the number of times
   * the flag is still read as false. Buffers and Dispatched record, for the proof,
   * every buffer read and every command handed to onCommand since the run started.
   */
  class GasStationDisplay {
    const Options: seq<Option>
    const FormatPrice: Option
    const FormatVolume: Option
    const FormatAmount: Option
    const Serial: Port
    const Decode: Decoder
    const Format: Formatter
    const ParserObj: ParserKind
    var SaveEnabled: bool
    var CurrentPrice: string
    var CurrentVolume: string
    var CurrentAmount: string
    var ChecksBeforeStop: nat
    ghost var Buffers: seq<Bytes>
    ghost var Dispatched: seq<GasStationCommand>

    function CurrentReadout(): Readout
      reads this`CurrentPrice, this`CurrentVolume, this`CurrentAmount
    {
      Readout(CurrentPrice, CurrentVolume, CurrentAmount)
    }

    function CurrentFormats(): Formats
      reads FormatPrice`Value, FormatVolume`Value, FormatAmount`Value
    {
      Formats(FormatPrice.Value, FormatVolume.Value, FormatAmount.Value)
    }

    /**
     * The worker's invariant: every buffer holds at most 1000 bytes, the dispatched
     * commands are exactly those the parser makes of the buffers, and the readout is
     * what onCommand makes of them starting from the cleared strings.
     */
    ghost predicate Consistent()
      reads this`Buffers, this`Dispatched, this`CurrentPrice, this`CurrentVolume, this`CurrentAmount
      reads FormatPrice`Value, FormatVolume`Value, FormatAmount`Value
    {
      && AllFit(Buffers)
      && Dispatched == Commands(ParserObj, Decode, Buffers)
      && CurrentReadout() == Replay(EMPTY_READOUT, Dispatched, CurrentFormats(), Format)
    }

    /**
     * The display as onRun leaves it for the worker: the strings cleared, Terminate
     * false, the Save button disabled as onSettings creates it.
     */
    constructor (Options: seq<Option>, FormatPrice: Option, FormatVolume: Option, FormatAmount: Option,
                 Serial: Port, Decode: Decoder, Format: Formatter, ParserObj: ParserKind, ChecksBeforeStop: nat)
      ensures this.Options == Options && this.Serial == Serial && this.ParserObj == ParserObj
      ensures this.FormatPrice == FormatPrice && this.FormatVolume == FormatVolume && this.FormatAmount == FormatAmount
      ensures this.Decode == Decode && this.Format == Format && this.ChecksBeforeStop == ChecksBeforeStop
      ensures !SaveEnabled && CurrentReadout() == EMPTY_READOUT && Buffers == [] && Dispatched == []
      ensures Consistent()
    {
      this.Options := Options;
      this.FormatPrice := FormatPrice;
      this.FormatVolume := FormatVolume;
      this.FormatAmount := FormatAmount;
      this.Serial := Serial;
      this.Decode := Decode;
      this.Format := Format;
      this.ParserObj := ParserObj;
      this.ChecksBeforeStop := ChecksBeforeStop;
      SaveEnabled := false;
      CurrentPrice := "";
      CurrentVolume := "";
      CurrentAmount := "";
      Buffers := [];
      Dispatched := [];
    }

    /**
     * onOptionChanged: checks the options in order and stops at the first failure,
     * which records its error; only when every option passes is Save enabled. Save is
     * never disabled here, and no option's value changes.
     */
    method OnOptionChanged()
      modifies this`SaveEnabled, Options`CurrentError
      ensures SaveEnabled == (old(SaveEnabled) || old(FirstFailing(Options)) == |Options|)
      ensures var k := old(FirstFailing(Options));
              forall j :: 0 <= j < |Options| && (k == |Options| || Options[j] != Options[k]) ==>
                Options[j].CurrentError == old(Options[j].CurrentError)
      ensures var k := old(FirstFailing(Options));
              k < |Options| ==> Options[k].CurrentError == FirstFailure(Options[k].Validators, Options[k].Value)
    {
      ghost var k := FirstFailing(Options);
      var i := 0;
      while i < |Options|
        invariant 0 <= i <= |Options| && i <= k
        invariant SaveEnabled == old(SaveEnabled)
        invariant forall j :: 0 <= j < |Options| ==> Options[j].CurrentError == old(Options[j].CurrentError)
      {
        var res := Options[i].Check();
        if res != ErrorDescriptionSuccess {
          assert i == k;
          return;
        }
        i := i + 1;
      }
      SaveEnabled := true;
    }

    /**
     * An edit in the settings form: the option's SetValue, and, when it accepts the
     * value and has the callback, onOptionChanged. A rejected value changes only the
     * option's error; an accepted one is stored, and Save becomes enabled when every
     * option then passes its validators. Save is newly enabled only in that case.
     */
    method OnOptionEdited(o: Option, v: Json)
      requires o in Options && o.Valid() && (o.Kind.PositionKind? ==> v.JObj?)
      modifies o`Value, o`Changed, Options`CurrentError, this`SaveEnabled
      ensures o.Valid()
      ensures o.CheckNewValue(v) != ErrorDescriptionSuccess ==>
                && o.Value == old(o.Value) && o.Changed == old(o.Changed)
                && o.CurrentError == o.CheckNewValue(v) && SaveEnabled == old(SaveEnabled)
      ensures o.CheckNewValue(v) == ErrorDescriptionSuccess ==>
                && (o.Kind.PositionKind? ==> ValidPosition(v.fields, o.ParseFloat))
                && o.Value == o.Accepted(v) && o.Changed
                && SaveEnabled == (old(SaveEnabled) || (o.HasOnChanged && FirstFailing(Options) == |Options|))
      ensures !o.HasOnChanged || !o.Kind.PositionKind? ==> o.CurrentError == o.CheckNewValue(v)
      ensures o.CheckNewValue(v) != ErrorDescriptionSuccess || !o.HasOnChanged ==>
                && SaveEnabled == old(SaveEnabled)
                && forall j :: 0 <= j < |Options| && Options[j] != o ==>
                     Options[j].CurrentError == old(Options[j].CurrentError)
      ensures SaveEnabled && !old(SaveEnabled) ==>
                forall j :: 0 <= j < |Options| ==>
                  FirstFailure(Options[j].Validators, Options[j].Value) == ErrorDescriptionSuccess
      ensures o.CheckNewValue(v) == ErrorDescriptionSuccess && o.HasOnChanged ==>
                var k := FirstFailing(Options);
                && (k < |Options| ==> Options[k].CurrentError == FirstFailure(Options[k].Validators, Options[k].Value))
                && (k == |Options| || o != Options[k] ==> o.CurrentError == o.CheckNewValue(v))
                && forall j :: 0 <= j < |Options| && Options[j] != o && (k == |Options| || Options[j] != Options[k]) ==>
                     Options[j].CurrentError == old(Options[j].CurrentError)
    {
      var notified := o.SetValue(v);
      if notified.Some? {
        label Checked:
        OnOptionChanged();
        assert unchanged@Checked(o`Value, o`CurrentIndex);
      }
    }

    /** `self.Terminate` read at a loop head: false while ChecksBeforeStop is positive. */
    method StopRequested() returns (stop: bool)
      modifies this`ChecksBeforeStop
      ensures stop <==> old(ChecksBeforeStop) == 0
      ensures ChecksBeforeStop == if stop then 0 else old(ChecksBeforeStop) - 1
    {
      stop := ChecksBeforeStop == 0;
      if !stop {
        ChecksBeforeStop := ChecksBeforeStop - 1;
      }
    }

    /**
     * onCommand (corrected): a DATA command updates the three strings as one, and
     * raised says whether an exception escapes to the worker.
     */
    method OnCommand(c: GasStationCommand) returns (raised: bool)
      modifies this`CurrentPrice, this`CurrentVolume, this`CurrentAmount
      ensures (CurrentReadout(), raised) == DataUpdate(old(CurrentReadout()), c, CurrentFormats(), Format)
    {
      if !IsDataCommand(c) {
        return false;
      }
      var p := FormatField(c, DATA_PRICE, FormatPrice.Value, Format);
      var v := FormatField(c, DATA_VOLUME, FormatVolume.Value, Format);
      var a := FormatField(c, DATA_AMOUNT, FormatAmount.Value, Format);
      if p.None? || v.None? || a.None? {
        return true;
      }
      CurrentPrice := p.value;
      CurrentVolume := v.value;
      CurrentAmount := a.value;
      return false;
    }

    /**
     * The buffer one cycle assembles when its first read is the port's n-th: the byte
     * of the first read and what the second read returns, only the byte when the
     * second read raises, and nothing (None) when the first read raises.
     */
    function CycleBuffer(n: nat): (buffer: W.Option<Bytes>)
      ensures buffer.None? <==> Serial.ReadResult(n).None?
      ensures buffer.Some? ==> |buffer.value| <= MAX_BUFFER && Serial.Received(n, FIRST_READ).value <= buffer.value
      ensures buffer.Some? && Serial.ReadResult(n + 1).None? ==> buffer == Serial.Received(n, FIRST_READ)
    {
      match Serial.Received(n, FIRST_READ)
      case None => W.None
      case Some(first) =>
        match Serial.Received(n + 1, REST_READ)
        case None => W.Some(first)
        case Some(rest) => W.Some(first + rest)
    }

    /**
     * Whether the cycle whose first read is the port's n-th lets an exception escape:
     * the first read raises, or the buffer parses to a command on which onCommand raises.
     */
    ghost predicate CycleFails(n: nat, f: Formats)
    {
      || CycleBuffer(n).None?
      || (&& ParseWith(ParserObj, Decode, CycleBuffer(n).value).Some?
          && DataRaises(ParseWith(ParserObj, Decode, CycleBuffer(n).value).value, f, Format))
    }

    /** The buffers the cycle whose first read is the port's n-th adds to Buffers: none when that read raises. */
    ghost function Logged(n: nat): seq<Bytes>
    {
      if CycleBuffer(n).None? then [] else [CycleBuffer(n).value]
    }

    /** The reads that cycle takes: one when its first read raises, else two. */
    ghost function CycleReads(n: nat): nat
    {
      if CycleBuffer(n).None? then 1 else 2
    }

    /** The buffers logged by the cycles whose first reads are firsts, in order. */
    ghost function CycleBuffers(firsts: seq<nat>): seq<Bytes>
    {
      Gathered(firsts, Logged)
    }

    /** What an inner loop logged after before, stated on its first reads. */
    lemma PassLogged(before: seq<Bytes>, buffers: seq<Bytes>, passed: seq<nat>, failed: bool, m: nat)
      requires buffers == before + CycleBuffers(passed) + if failed then Logged(m) else []
      ensures buffers == before + CycleBuffers(PassFirsts(true, failed, m, passed))
    {
      if failed {
        GatheredExtend(before, passed, Logged, m);
        GatheredSnoc(passed, Logged, m);
      } else {
        assert PassFirsts(true, failed, m, passed) == passed;
      }
    }

    /** The cycles of an inner loop run back to back: those that passed two reads apart, then the failing one. */
    lemma PassChain(passed: seq<nat>, from: nat, failed: bool, m: nat, upTo: nat, f: Formats)
      requires forall i :: 0 <= i < |passed| ==> passed[i] == from + 2 * i && !CycleFails(passed[i], f)
      requires failed ==> m == from + 2 * |passed| && upTo == m + CycleReads(m)
      requires !failed ==> upTo == from + 2 * |passed|
      ensures ReadChain(PassFirsts(true, failed, m, passed), CycleReads, from, upTo)
    {
      var u := PassFirsts(true, failed, m, passed);
      forall i | 0 <= i <= |passed|
        ensures ChainAt(u, CycleReads, from, i) == from + 2 * i
      {
        if i > 0 {
          assert u[i - 1] == passed[i - 1];
        }
      }
      forall i | 0 <= i < |u|
        ensures u[i] == ChainAt(u, CycleReads, from, i)
      {
        if i < |passed| {
          assert u[i] == passed[i];
        }
      }
    }

    /**
     * What ServeOpenPort's contract says of an inner loop that began with before logged
     * and from reads made, restated on its cycles: they logged exactly what follows
     * before and ran back to back from read from to read upTo.
     */
    lemma PassOutcome(before: seq<Bytes>, buffers: seq<Bytes>, from: nat, upTo: nat,
                      passed: seq<nat>, failed: bool, m: nat, f: Formats)
      requires buffers == before + CycleBuffers(passed) + if failed then Logged(m) else []
      requires forall i :: 0 <= i < |passed| ==> passed[i] == from + 2 * i && !CycleFails(passed[i], f)
      requires failed ==> m == from + 2 * |passed| && upTo == m + CycleReads(m) && CycleFails(m, f)
      requires !failed ==> upTo == from + 2 * |passed|
      ensures buffers == before + CycleBuffers(PassFirsts(true, failed, m, passed))
      ensures ReadChain(PassFirsts(true, failed, m, passed), CycleReads, from, upTo)
      ensures CyclesMatch(PassResults(true, |passed|, failed), PassFirsts(true, failed, m, passed), f)
    {
      PassLogged(before, buffers, passed, failed, m);
      PassChain(passed, from, failed, m, upTo, f);
      PassMatches(true, |passed|, failed, m, passed, f);
    }

    /** results says, cycle by cycle, whether the cycle beginning at the matching first read fails. */
    ghost predicate CyclesMatch(results: seq<bool>, firsts: seq<nat>, f: Formats)
    {
      |results| == |firsts| && forall i :: 0 <= i < |firsts| ==> (results[i] <==> CycleFails(firsts[i], f))
    }

    /** Matching runs of cycles joined still match. */
    lemma CyclesMatchJoin(r1: seq<bool>, a: seq<nat>, r2: seq<bool>, b: seq<nat>, f: Formats)
      requires CyclesMatch(r1, a, f) && CyclesMatch(r2, b, f)
      ensures CyclesMatch(r1 + r2, a + b, f)
    {
      forall i | 0 <= i < |a + b|
        ensures (r1 + r2)[i] <==> CycleFails((a + b)[i], f)
      {
        if i >= |a| {
          assert (r1 + r2)[i] == r2[i - |a|] && (a + b)[i] == b[i - |a|];
        }
      }
    }

    /** The cycles one outer pass logs match their first reads. */
    lemma PassMatches(ok: bool, n: nat, failed: bool, m: nat, passed: seq<nat>, f: Formats)
      requires ok ==> |passed| == n && forall i :: 0 <= i < |passed| ==> !CycleFails(passed[i], f)
      requires ok && failed ==> CycleFails(m, f)
      requires !ok ==> n == 0 && !failed
      ensures CyclesMatch(PassResults(ok, n, failed), PassFirsts(ok, failed, m, passed), f)
    {
      var r, u := PassResults(ok, n, failed), PassFirsts(ok, failed, m, passed);
      forall i | 0 <= i < |u|
        ensures r[i] <==> CycleFails(u[i], f)
      {
        if i < |passed| {
          assert u[i] == passed[i];
        }
      }
    }

    /** One outer pass's cycles extend the cycles of log: each failed exactly where CycleFails says. */
    lemma PassCycles(log: seq<WorkEvent>, firsts: seq<nat>, ok: bool, n: nat, failed: bool, m: nat, passed: seq<nat>, f: Formats)
      requires CyclesMatch(CycleResults(log), firsts, f)
      requires CyclesMatch(PassResults(ok, n, failed), PassFirsts(ok, failed, m, passed), f)
      ensures CyclesMatch(CycleResults(log + [TerminateRead(false, false)] + OuterPassEvents(ok, n, failed)),
                          firsts + PassFirsts(ok, failed, m, passed), f)
    {
      CyclesGrow(log, ok, n, failed);
      CyclesMatchJoin(CycleResults(log), firsts, PassResults(ok, n, failed), PassFirsts(ok, failed, m, passed), f);
    }

    /**
     * Lines 367-369 of a cycle: the buffer is parsed and a command, when there is one,
     * handed to onCommand. failed says whether onCommand raised.
     */
    method Dispatch(buffer: Bytes) returns (failed: bool)
      requires Consistent() && |buffer| <= MAX_BUFFER
      modifies this`CurrentPrice, this`CurrentVolume, this`CurrentAmount, this`Buffers, this`Dispatched
      ensures Consistent() && Buffers == old(Buffers) + [buffer]
      ensures failed <==>
                var c := ParseWith(ParserObj, Decode, buffer);
                c.Some? && DataRaises(c.value, CurrentFormats(), Format)
    {
      LogStep(ParserObj, Decode, Buffers, buffer);
      Buffers := Buffers + [buffer];
      var command := ParseWith(ParserObj, Decode, buffer);
      if command.None? {
        return false;
      }
      ghost var sent := Dispatched;
      Dispatched := Dispatched + [command.value];
      assert Dispatched[..|Dispatched| - 1] == sent;
      failed := OnCommand(command.value);
      DataUpdateRaises(old(CurrentReadout()), command.value, CurrentFormats(), Format);
    }

    /**
     * One cycle of WorkThread's inner loop: read one byte, then up to 999 more (an
     * exception in that second read is ignored), and dispatch the buffer. failed says
     * whether an exception escapes: the first read or onCommand raised.
     */
    method ReadAndDispatch() returns (failed: bool)
      requires Consistent() && Serial.IsOpen
      modifies this`CurrentPrice, this`CurrentVolume, this`CurrentAmount, this`Buffers, this`Dispatched
      modifies Serial`Reads
      ensures Consistent()
      ensures var b := CycleBuffer(old(Serial.Reads));
              && Serial.Reads == old(Serial.Reads) + (if b.None? then 1 else 2)
              && Buffers == old(Buffers) + (if b.None? then [] else [b.value])
      ensures failed <==> CycleFails(old(Serial.Reads), CurrentFormats())
    {
      ghost var n := Serial.Reads;
      var first := Serial.Read(FIRST_READ);
      if first.None? {
        failed := true;
      } else {
        var buffer := first.value;
        var rest := Serial.Read(REST_READ);
        if rest.Some? {
          buffer := buffer + rest.value;
        }
        assert CycleBuffer(n) == W.Some(buffer);
        failed := Dispatch(buffer);
      }
    }

    /**
     * One pass of the inner loop: read Terminate and, when it is false, run one cycle.
     * failed says whether the cycle let an exception escape. The cycle appends exactly
     * Logged of its first read to Buffers and takes CycleReads of it reads; b0, a
     * prefix of Buffers, stays one.
     */
    method InnerStep(ghost b0: seq<Bytes>) returns (stop: bool, failed: bool)
      requires Consistent() && Serial.IsOpen && b0 <= Buffers
      modifies this`CurrentPrice, this`CurrentVolume, this`CurrentAmount, this`ChecksBeforeStop
      modifies this`Buffers, this`Dispatched, Serial`Reads, Serial`IsOpen
      ensures Consistent() && old(Buffers) <= Buffers && b0 <= Buffers
      ensures Serial.IsOpen <==> !failed
      ensures stop <==> old(ChecksBeforeStop) == 0
      ensures ChecksBeforeStop == if stop then 0 else old(ChecksBeforeStop) - 1
      ensures stop ==> !failed && Buffers == old(Buffers) && Serial.Reads == old(Serial.Reads)
      ensures !stop ==> (failed <==> CycleFails(old(Serial.Reads), CurrentFormats()))
      ensures !stop && !failed ==> |Buffers| == |old(Buffers)| + 1 && Serial.Reads == old(Serial.Reads) + 2
      ensures |Buffers| <= |old(Buffers)| + 1 && Serial.Reads >= old(Serial.Reads)
      ensures !stop ==> && Buffers == old(Buffers) + Logged(old(Serial.Reads))
                        && Serial.Reads == old(Serial.Reads) + CycleReads(old(Serial.Reads))
    {
      failed := false;
      stop := StopRequested();
      if stop {
        return;
      }
      failed := ReadAndDispatch();
      if failed {
        Serial.Close();
      }
    }

    /**
     * WorkThread's inner loop on an open port: cycles until Terminate is read as true
     * (the port stays open) or a cycle fails (failed), in which case the handler's
     * close runs, the port being open. n counts the cycles that did not fail, so the
     * loop's events are InnerLoopEvents(n, failed); every Terminate read as false uses
     * up one of ChecksBeforeStop, every cycle that did not fail adds one buffer.
     * passed holds the first reads of the cycles that did not fail, two reads apart,
     * and m the first read of the cycle that failed. Buffers grows by exactly what
     * those cycles logged, in order: CycleBuffers(passed), then Logged(m).
     */
    method ServeOpenPort() returns (failed: bool, ghost n: nat, ghost m: nat, ghost passed: seq<nat>)
      requires Consistent() && Serial.IsOpen
      modifies this`CurrentPrice, this`CurrentVolume, this`CurrentAmount, this`ChecksBeforeStop
      modifies this`Buffers, this`Dispatched, Serial`Reads, Serial`IsOpen
      ensures Serial.IsOpen <==> !failed
      ensures Consistent() && old(Buffers) <= Buffers
      ensures !failed ==> ChecksBeforeStop == 0
      ensures ChecksBeforeStop + n + (if failed then 1 else 0) == old(ChecksBeforeStop)
      ensures |passed| == n && forall i :: 0 <= i < |passed| ==>
                passed[i] == old(Serial.Reads) + 2 * i && !CycleFails(passed[i], CurrentFormats())
      ensures failed ==> m == old(Serial.Reads) + 2 * n && CycleFails(m, CurrentFormats())
      ensures !failed ==> Serial.Reads == old(Serial.Reads) + 2 * n
      ensures failed ==> Serial.Reads == m + CycleReads(m)
      ensures Buffers == old(Buffers) + CycleBuffers(passed) + if failed then Logged(m) else []
    {
      failed, n, m, passed := false, 0, Serial.Reads, [];
      ghost var f := CurrentFormats();
      while true
        invariant Consistent() && old(Buffers) <= Buffers
        invariant ChecksBeforeStop + n == old(ChecksBeforeStop)
        invariant Serial.Reads == old(Serial.Reads) + 2 * n
        invariant CurrentFormats() == f
        invariant |passed| == n && forall i :: 0 <= i < |passed| ==>
                    passed[i] == old(Serial.Reads) + 2 * i && !CycleFails(passed[i], f)
        invariant Buffers == old(Buffers) + CycleBuffers(passed)
        invariant Serial.IsOpen
        invariant !failed
        decreases ChecksBeforeStop
      {
        m := Serial.Reads;
        var stop;
        stop, failed := InnerStep(old(Buffers));
        if stop {
          return;
        }
        GatheredExtend(old(Buffers), passed, Logged, m);
        if failed {
          return;
        }
        passed := passed + [m];
        n := n + 1;
      }
    }

    /**
     * The try block of WorkThread's outer loop, after Terminate was read as false:
     * open the port and serve it. When a read or onCommand raises, ServeOpenPort runs
     * the handler's close; when the open raises, the port is already closed, so the
     * handler's `is_open` test skips the close. ok says whether the open succeeded, n and
     * failed what the inner loop did, so OuterPassEvents(ok, n, failed) is what
     * happened. Either the port ends closed or the inner loop stopped on Terminate
     * with the port open.
     */
    method TryServe() returns (ghost ok: bool, ghost n: nat, ghost failed: bool, ghost m: nat, ghost passed: seq<nat>)
      requires Consistent() && !Serial.IsOpen
      modifies this`CurrentPrice, this`CurrentVolume, this`CurrentAmount, this`ChecksBeforeStop
      modifies this`Buffers, this`Dispatched, Serial`IsOpen, Serial`Opens, Serial`Reads
      ensures Consistent() && old(Buffers) <= Buffers
      ensures Serial.IsOpen <==> ok && !failed
      ensures !ok ==> n == 0 && !failed
      ensures ok && !failed ==> ChecksBeforeStop == 0
      ensures ChecksBeforeStop + (if ok then n + (if failed then 1 else 0) else 0) == old(ChecksBeforeStop)
      ensures Serial.Opens == old(Serial.Opens) + 1 && (ok <==> Serial.OpenSucceeds(old(Serial.Opens)))
      ensures !ok ==> Serial.Reads == old(Serial.Reads)
      ensures ok && !failed ==> Serial.Reads == old(Serial.Reads) + 2 * n
      ensures Buffers == old(Buffers) + CycleBuffers(PassFirsts(ok, failed, m, passed))
      ensures CyclesMatch(PassResults(ok, n, failed), PassFirsts(ok, failed, m, passed), CurrentFormats())
      ensures ReadChain(PassFirsts(ok, failed, m, passed), CycleReads, old(Serial.Reads), Serial.Reads)
    {
      ghost var before, from := Buffers, Serial.Reads;
      var portOpen := Serial.Open();
      ok, n, failed, m, passed := portOpen, 0, false, 0, [];
      if portOpen {
        var cycleFailed;
        cycleFailed, n, m, passed := ServeOpenPort();
        failed := cycleFailed;
        PassOutcome(before, Buffers, from, Serial.Reads, passed, failed, m, CurrentFormats());
      }
    }

    /**
     * What WorkThread has done since Buffers was b0 and the port had been read r0
     * times, when its log is log: the cycles beginning at firsts took, back to back,
     * every read since, logged every buffer since, and failed as log records.
     */
    ghost predicate Traced(b0: seq<Bytes>, r0: nat, log: seq<WorkEvent>, firsts: seq<nat>)
      reads this`Buffers, Serial`Reads, FormatPrice`Value, FormatVolume`Value, FormatAmount`Value
    {
      && Buffers == b0 + CycleBuffers(firsts)
      && ReadChain(firsts, CycleReads, r0, Serial.Reads)
      && CyclesMatch(CycleResults(log), firsts, CurrentFormats())
    }

    /**
     * The invariant of WorkThread's outer loop, for a thread that began with b0 logged,
     * r0 reads and o0 opens made and c0 reads of Terminate as false to come: the worker's
     * invariant holds, log is a run up to the loop's head whose reads of Terminate as
     * false and open attempts are the thread's, its cycles are those beginning at firsts
     * (Traced), and the port is closed unless Terminate is about to read as true.
     */
    ghost predicate OuterHead(b0: seq<Bytes>, r0: nat, o0: nat, c0: nat, log: seq<WorkEvent>, firsts: seq<nat>)
      reads this`Buffers, this`Dispatched, this`CurrentPrice, this`CurrentVolume, this`CurrentAmount, this`ChecksBeforeStop
      reads Serial`IsOpen, Serial`Opens, Serial`Reads, FormatPrice`Value, FormatVolume`Value, FormatAmount`Value
    {
      && Consistent()
      && OuterLoopHead(log)
      && FalseReads(log) + ChecksBeforeStop == c0
      && o0 <= Serial.Opens && OpenResults(log) == Serial.Outcomes(o0, Serial.Opens)
      && Traced(b0, r0, log, firsts)
      && (!Serial.IsOpen || ChecksBeforeStop == 0)
    }

    /**
     * TryServe as one pass of WorkThread's outer loop, run after Terminate was read as
     * false: the loop's invariant OuterHead, which held before that read, holds again
     * with the pass's events appended to log and its cycles to firsts.
     */
    method ServePass(ghost b0: seq<Bytes>, ghost r0: nat, ghost o0: nat, ghost c0: nat,
                     ghost log: seq<WorkEvent>, ghost firsts: seq<nat>)
      returns (ghost log': seq<WorkEvent>, ghost firsts': seq<nat>)
      requires Consistent() && !Serial.IsOpen && OuterLoopHead(log) && FalseReads(log) + ChecksBeforeStop + 1 == c0
      requires o0 <= Serial.Opens && OpenResults(log) == Serial.Outcomes(o0, Serial.Opens)
      requires Traced(b0, r0, log, firsts)
      modifies this`CurrentPrice, this`CurrentVolume, this`CurrentAmount, this`ChecksBeforeStop
      modifies this`Buffers, this`Dispatched, Serial`IsOpen, Serial`Opens, Serial`Reads
      ensures OuterHead(b0, r0, o0, c0, log', firsts')
      ensures ChecksBeforeStop <= old(ChecksBeforeStop)
    {
      ghost var opens, start := Serial.Opens, Serial.Reads;
      ghost var ok, n, failed, m, passed := TryServe();
      Serial.OutcomesGrow(o0, opens);
      PassGrows(log, ok, n, failed);
      ghost var pass := PassFirsts(ok, failed, m, passed);
      GatheredJoin(b0, firsts, pass, Logged);
      ReadChainJoin(firsts, pass, CycleReads, r0, start, Serial.Reads);
      PassCycles(log, firsts, ok, n, failed, m, passed, CurrentFormats());
      log' := log + [TerminateRead(false, false)] + OuterPassEvents(ok, n, failed);
      firsts' := firsts + pass;
    }

    /**
     * WorkThread's outer loop: until Terminate is read as true, open the port and serve
     * it; a failing open, read or onCommand closes the port and starts over. The port
     * may be left open only when Terminate was read as true by the inner loop. log, the
     * thread's events so far, is a run up to the outer loop's head, with its reads of
     * Terminate as false counted and its open attempts the port's; firsts numbers the
     * first read of each of its cycles, which ran back to back over all the reads made,
     * failed exactly where CycleFails says, and logged exactly the buffers the port
     * delivered to them.
     */
    method OuterLoop() returns (ghost log: seq<WorkEvent>, ghost firsts: seq<nat>)
      requires Consistent() && !Serial.IsOpen
      modifies this`CurrentPrice, this`CurrentVolume, this`CurrentAmount, this`ChecksBeforeStop
      modifies this`Buffers, this`Dispatched, Serial`IsOpen, Serial`Opens, Serial`Reads
      ensures OuterHead(old(Buffers), old(Serial.Reads), old(Serial.Opens), old(ChecksBeforeStop), log, firsts)
      ensures ChecksBeforeStop == 0
    {
      log, firsts := [], [];
      while true
        invariant OuterHead(old(Buffers), old(Serial.Reads), old(Serial.Opens), old(ChecksBeforeStop), log, firsts)
        decreases ChecksBeforeStop
      {
        var stop := StopRequested();
        if stop {
          return;
        }
        log, firsts := ServePass(old(Buffers), old(Serial.Reads), old(Serial.Opens), old(ChecksBeforeStop), log, firsts);
      }
    }

    /**
     * WorkThread: the outer loop, then the close of a port the inner loop left open. At
     * the end the port is closed, the invariant holds for everything read, and log, the
     * thread's events in order, forms a whole run in which Terminate was read as false
     * exactly ChecksBeforeStop times. Its open attempts are the port's, with the outcomes
     * the port dictates; firsts numbers the first read of each of its cycles, which ran
     * back to back over all the reads the thread made, failed exactly where CycleFails
     * says, and logged exactly the buffers the port delivered to them.
     */
    method WorkThread() returns (ghost log: seq<WorkEvent>, ghost firsts: seq<nat>)
      requires Consistent() && !Serial.IsOpen
      modifies this`CurrentPrice, this`CurrentVolume, this`CurrentAmount, this`ChecksBeforeStop
      modifies this`Buffers, this`Dispatched, Serial`IsOpen, Serial`Opens, Serial`Reads
      ensures Consistent() && !Serial.IsOpen && ChecksBeforeStop == 0
      ensures old(Buffers) <= Buffers
      ensures WorkRun(log) && FalseReads(log) == old(ChecksBeforeStop)
      ensures old(Serial.Opens) <= Serial.Opens && OpenResults(log) == Serial.Outcomes(old(Serial.Opens), Serial.Opens)
      ensures Buffers == old(Buffers) + CycleBuffers(firsts)
      ensures ReadChain(firsts, CycleReads, old(Serial.Reads), Serial.Reads)
      ensures CyclesMatch(CycleResults(log), firsts, CurrentFormats())
    {
      log, firsts := OuterLoop();
      RunEnds(log, Serial.IsOpen);
      OpensEnd(log, Serial.IsOpen);
      CyclesEnd(log, Serial.IsOpen);
      log := log + [TerminateRead(false, true)] + if Serial.IsOpen then [FinalClose] else [];
      if Serial.IsOpen {
        Serial.Close();
      }
    }
  }
}
