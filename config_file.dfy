/**
 * The configuration file (src/cli/src/config/file.rs): the choice of deserializer by file
 * extension, the conversions from configured registers to Modbus registers, the scan range with
 * its fallback, and millisecond settings as durations. Reading the file, the project directory and
 * the deserializers themselves are parameters.
 */
module ConfigFile {
  import opened Bits
  import opened Utf8
  import opened Wrappers
  import Register
  import Net
  import opened ModbusConnection

  // Paths and extensions

  const Slash: byte := '/' as int
  const Period: byte := '.' as int

  /** The index of the last occurrence of x, or -1. */
  function LastIndex(s: Text, x: byte): (i: int)
    ensures -1 <= i < |s|
    ensures i >= 0 ==> s[i] == x
    ensures forall j :: i < j < |s| ==> s[j] != x
  {
    if |s| == 0 then -1 else if s[|s| - 1] == x then |s| - 1 else LastIndex(s[..|s| - 1], x)
  }

  /**
   * `Path::file_name` for a Unix path: the last component, skipping empty and `.` components;
   * none for a path that ends in `..`, for the root, and for `.` alone.
   */
  function FileName(path: Text): Option<Text>
    decreases |path|
  {
    if |path| == 0 then None
    else
      var i := LastIndex(path, Slash);
      var component := path[i + 1..];
      if component == [] || component == [Period] then (if i < 0 then None else FileName(path[..i]))
      else if component == [Period, Period] then None
      else Some(component)
  }

  /** `rsplit_file_at_dot` then `before.and(after)`: the text after the last dot, unless the only dot leads. */
  function NameExtension(name: Text): (ext: Option<Text>)
    ensures ext.Some? ==> Period !in ext.value
  {
    var i := LastIndex(name, Period);
    if i <= 0 then None else Some(name[i + 1..])
  }

  /** `Path::extension`. */
  function Extension(path: Text): Option<Text>
  {
    match FileName(path)
    case None => None
    case Some(name) => NameExtension(name)
  }

  /** `PathBuf::join` of a single file name: a separator is added unless the base is empty or ends in one. */
  function Join(base: Text, name: Text): Text
  {
    if |base| == 0 || base[|base| - 1] == Slash then base + name else base + [Slash] + name
  }

  const Yaml: Text := ['y' as byte, 'a' as byte, 'm' as byte, 'l' as byte]
  const Yml: Text := ['y' as byte, 'm' as byte, 'l' as byte]
  const Toml: Text := ['t' as byte, 'o' as byte, 'm' as byte, 'l' as byte]
  const Json: Text := ['j' as byte, 's' as byte, 'o' as byte, 'n' as byte]
  /** The default file name, `config.yaml`. */
  const ConfigYaml: Text := ['c' as byte, 'o' as byte, 'n' as byte, 'f' as byte, 'i' as byte, 'g' as byte] + [Period] + Yaml

  datatype Format = YamlFormat | TomlFormat | JsonFormat

  datatype ParseError =
    | MissingProjectDirs
    | Read(io: IoError)
    | MissingExtension
    | InvalidExtension
    | Deserialization(format: Format)

  /** The extension match of `parse_async`. */
  function Dispatch(extension: Option<Text>): Result<Format, ParseError>
  {
    match extension
    case None => Err(MissingExtension)
    case Some(ext) =>
      if ext == Yaml || ext == Yml then Ok(YamlFormat)
      else if ext == Toml then Ok(TomlFormat)
      else if ext == Json then Ok(JsonFormat)
      else Err(InvalidExtension)
  }

  /** The extension each format is recognised by (`yml` is a second one for YAML). */
  function FormatExtension(format: Format): Text
  {
    match format
    case YamlFormat => Yaml
    case TomlFormat => Toml
    case JsonFormat => Json
  }

  /** The file `parse_async` reads: the given location, else `config.yaml` in the project's config directory. */
  function Location(location: Option<Text>, configDir: Option<Text>): Option<Text>
  {
    match location
    case Some(path) => Some(path)
    case None => if configDir.Some? then Some(Join(configDir.value, ConfigYaml)) else None
  }

  /**
   * `parse_async`: the file is read before its extension is looked at; `read` is the file system
   * and `deserialize` the YAML, TOML and JSON deserializers.
   */
  function ParseAsync<V>(location: Option<Text>, configDir: Option<Text>, read: Text -> Result<Text, IoError>,
                         deserialize: (Format, Text) -> Option<V>): Result<V, ParseError>
  {
    match Location(location, configDir)
    case None => Err(MissingProjectDirs)
    case Some(path) =>
      match read(path)
      case Err(error) => Err(Read(error))
      case Ok(raw) =>
        match Dispatch(Extension(path))
        case Err(error) => Err(error)
        case Ok(format) =>
          match deserialize(format, raw)
          case None => Err(Deserialization(format))
          case Some(values) => Ok(values)
  }

  /**
   * The extension decides the format: none is `MissingExtension`, `yaml` and `yml` are YAML, `toml`
   * is TOML, `json` is JSON, and any other is `InvalidExtension`; each format's own extension selects it.
   */
  lemma DispatchCases(extension: Option<Text>, format: Format)
    ensures Dispatch(extension) == Err(MissingExtension) <==> extension.None?
    ensures Dispatch(extension) == Ok(YamlFormat) <==> extension == Some(Yaml) || extension == Some(Yml)
    ensures Dispatch(extension) == Ok(TomlFormat) <==> extension == Some(Toml)
    ensures Dispatch(extension) == Ok(JsonFormat) <==> extension == Some(Json)
    ensures Dispatch(extension) == Err(InvalidExtension) <==>
      extension.Some? && extension.value !in {Yaml, Yml, Toml, Json}
    ensures Dispatch(Some(FormatExtension(format))) == Ok(format)
  {
  }

  /**
   * The outcome of `parse_async`: a failed read is reported before any extension problem, and
   * the values are those the extension's deserializer makes of the file's text.
   */
  lemma ParseAsyncOutcome<V>(location: Option<Text>, configDir: Option<Text>, read: Text -> Result<Text, IoError>,
                             deserialize: (Format, Text) -> Option<V>)
    ensures var r := ParseAsync(location, configDir, read, deserialize);
      var path := Location(location, configDir);
      (r == Err(MissingProjectDirs) <==> location.None? && configDir.None?)
      && (path.Some? && read(path.value).Err? ==> r == Err(Read(read(path.value).error)))
      && (r.Ok? <==>
            (path.Some? && read(path.value).Ok? && Dispatch(Extension(path.value)).Ok?
             && deserialize(Dispatch(Extension(path.value)).value, read(path.value).value).Some?))
      && (r.Ok? ==> r.value == deserialize(Dispatch(Extension(path.value)).value, read(path.value).value).value)
  {
  }

  /** A suffix without x does not move the last x. */
  lemma {:induction false} LastIndexSkip(a: Text, b: Text, x: byte)
    requires x !in b
    ensures LastIndex(a + b, x) == LastIndex(a, x)
    decreases |b|
  {
    if |b| == 0 {
      assert a + b == a;
    } else {
      assert (a + b)[..|a + b| - 1] == a + b[..|b| - 1];
      LastIndexSkip(a, b[..|b| - 1], x);
    }
  }

  lemma JoinedFileName(configDir: Text)
    ensures FileName(Join(configDir, ConfigYaml)) == Some(ConfigYaml)
  {
    var path := Join(configDir, ConfigYaml);
    var prefix := if |configDir| == 0 || configDir[|configDir| - 1] == Slash then configDir else configDir + [Slash];
    assert path == prefix + ConfigYaml;
    assert Slash !in ConfigYaml;
    LastIndexSkip(prefix, ConfigYaml, Slash);
    var i := LastIndex(path, Slash);
    assert i == |prefix| - 1;
    assert path[i + 1..] == ConfigYaml;
  }

  lemma ConfigYamlExtension()
    ensures NameExtension(ConfigYaml) == Some(Yaml)
  {
    var stem := ['c' as byte, 'o' as byte, 'n' as byte, 'f' as byte, 'i' as byte, 'g' as byte] + [Period];
    assert ConfigYaml == stem + Yaml;
    assert Period !in Yaml;
    LastIndexSkip(stem, Yaml, Period);
    assert LastIndex(ConfigYaml, Period) == 6;
    assert ConfigYaml[7..] == Yaml;
  }

  /** The default location always has the extension `yaml`, so it is never refused for its extension. */
  lemma DefaultLocationIsYaml(configDir: Text)
    ensures Extension(Join(configDir, ConfigYaml)) == Some(Yaml)
    ensures Dispatch(Extension(Join(configDir, ConfigYaml))) == Ok(YamlFormat)
  {
    JoinedFileName(configDir);
    ConfigYamlExtension();
  }

  // Register conversions

  datatype NumericRegisterKind = NumericRegisterKind(multiplier: Option<real>)
  datatype StringRegisterKind = StringRegisterKind(length: u16)

  /** A register kind as configured. */
  datatype RegisterKind =
    | U16(numeric: NumericRegisterKind)
    | U32(numeric: NumericRegisterKind)
    | U64(numeric: NumericRegisterKind)
    | S16(numeric: NumericRegisterKind)
    | S32(numeric: NumericRegisterKind)
    | S64(numeric: NumericRegisterKind)
    | F32(numeric: NumericRegisterKind)
    | F64(numeric: NumericRegisterKind)
    | String(stringKind: StringRegisterKind)

  datatype MeasurementRegister = MeasurementRegister(name: Text, address: u16, kind: RegisterKind)
  datatype DetectRegister = DetectRegister(address: u16, kind: RegisterKind, pattern: Text)
  datatype IdRegister = IdRegister(address: u16, kind: RegisterKind)

  /** `to_modbus_register_kind` (and `Services::to_modbus_register`, which is the same mapping). */
  function ToModbusRegisterKind(kind: RegisterKind): Register.RegisterKind
  {
    match kind
    case U16(n) => Register.RegisterKind.U16(Register.NumericKind(n.multiplier))
    case U32(n) => Register.RegisterKind.U32(Register.NumericKind(n.multiplier))
    case U64(n) => Register.RegisterKind.U64(Register.NumericKind(n.multiplier))
    case S16(n) => Register.RegisterKind.S16(Register.NumericKind(n.multiplier))
    case S32(n) => Register.RegisterKind.S32(Register.NumericKind(n.multiplier))
    case S64(n) => Register.RegisterKind.S64(Register.NumericKind(n.multiplier))
    case F32(n) => Register.RegisterKind.F32(Register.NumericKind(n.multiplier))
    case F64(n) => Register.RegisterKind.F64(Register.NumericKind(n.multiplier))
    case String(s) => Register.RegisterKind.String(s.length)
  }

  /** The configured kind a Modbus kind comes from. */
  function FromModbusRegisterKind(kind: Register.RegisterKind): RegisterKind
  {
    match kind
    case U16(n) => U16(NumericRegisterKind(n.multiplier))
    case U32(n) => U32(NumericRegisterKind(n.multiplier))
    case U64(n) => U64(NumericRegisterKind(n.multiplier))
    case S16(n) => S16(NumericRegisterKind(n.multiplier))
    case S32(n) => S32(NumericRegisterKind(n.multiplier))
    case S64(n) => S64(NumericRegisterKind(n.multiplier))
    case F32(n) => F32(NumericRegisterKind(n.multiplier))
    case F64(n) => F64(NumericRegisterKind(n.multiplier))
    case String(length) => String(StringRegisterKind(length))
  }

  /**
   * The conversion is a bijection that keeps the variant and its payload: the same multiplier for a
   * number, the same length for a string.
   */
  lemma RegisterKindRoundTrip(kind: RegisterKind)
    ensures FromModbusRegisterKind(ToModbusRegisterKind(kind)) == kind
    ensures ToModbusRegisterKind(kind).String? <==> kind.String?
    ensures kind.String? ==> ToModbusRegisterKind(kind).length == kind.stringKind.length
    ensures !kind.String? ==> ToModbusRegisterKind(kind).numeric.multiplier == kind.numeric.multiplier
    ensures (kind.U16? <==> ToModbusRegisterKind(kind).U16?) && (kind.U32? <==> ToModbusRegisterKind(kind).U32?)
      && (kind.U64? <==> ToModbusRegisterKind(kind).U64?) && (kind.S16? <==> ToModbusRegisterKind(kind).S16?)
      && (kind.S32? <==> ToModbusRegisterKind(kind).S32?) && (kind.S64? <==> ToModbusRegisterKind(kind).S64?)
      && (kind.F32? <==> ToModbusRegisterKind(kind).F32?) && (kind.F64? <==> ToModbusRegisterKind(kind).F64?)
  {
  }

  /** Every Modbus kind is the conversion of a configured one. */
  lemma ModbusKindRoundTrip(kind: Register.RegisterKind)
    ensures ToModbusRegisterKind(FromModbusRegisterKind(kind)) == kind
  {
  }

  /** `to_modbus_measurement_register`: the same address and name, the converted kind. */
  function ToModbusMeasurementRegister(register: MeasurementRegister)
    : (r: Register.MeasurementRegister<Register.RegisterKind>)
    ensures r.address == register.address && r.name == register.name
    ensures FromModbusRegisterKind(r.storage) == register.kind
  {
    RegisterKindRoundTrip(register.kind);
    Register.MeasurementRegister(register.address, ToModbusRegisterKind(register.kind), register.name)
  }

  /** `to_modbus_id_register`: the same address, the converted kind. */
  function ToModbusIdRegister(register: IdRegister): (r: Register.IdRegister<Register.RegisterKind>)
    ensures r.address == register.address
    ensures FromModbusRegisterKind(r.storage) == register.kind
  {
    RegisterKindRoundTrip(register.kind);
    Register.IdRegister(register.address, ToModbusRegisterKind(register.kind))
  }

  /**
   * `to_modbus_detect_register`: the pattern becomes a regex when `compile` accepts it, and stays the
   * configured text otherwise.
   */
  function ToModbusDetectRegister(register: DetectRegister, compile: Text -> Option<Register.Regex>)
    : (r: Register.DetectRegister<Register.RegisterKind>)
    ensures r.address == register.address
    ensures FromModbusRegisterKind(r.storage) == register.kind
    ensures r.pattern.Right? <==> compile(register.pattern).Some?
    ensures r.pattern.Right? ==> r.pattern.right == compile(register.pattern).value
    ensures r.pattern.Left? ==> r.pattern.left == register.pattern
  {
    RegisterKindRoundTrip(register.kind);
    Register.DetectRegister(register.address, ToModbusRegisterKind(register.kind),
      match compile(register.pattern)
      case Some(regex) => Right(regex)
      case None => Left(register.pattern))
  }

  /**
   * A configured pattern that does not compile is compared literally: a value read through the
   * converted register matches exactly when its display text is the configured pattern.
   */
  lemma UncompiledPatternIsLiteral(register: DetectRegister, compile: Text -> Option<Register.Regex>,
                                   data: seq<u16>, isMatch: (Register.Regex, Text) -> bool)
    requires compile(register.pattern).None?
    requires ToModbusRegisterKind(register.kind).Decodable()
    requires var parsed := Register.ParseDetect(ToModbusDetectRegister(register, compile), data);
      parsed.Some? && parsed.value.storage.Displayable()
    ensures var parsed := Register.ParseDetect(ToModbusDetectRegister(register, compile), data).value;
      Register.Matches(parsed, isMatch) <==> Register.Display(parsed.storage) == register.pattern
  {
  }

  // make_ip_range and milliseconds_to_chrono

  /** `192.168.1.0` and `192.168.1.255`, the fallback range. */
  const FallbackStart: Net.Ipv4 := Net.Ipv4(192, 168, 1, 0)
  const FallbackEnd: Net.Ipv4 := Net.Ipv4(192, 168, 1, 255)

  /** `make_ip_range`: the configured range when both ends parse, else the fallback. */
  function MakeIpRange(start: Text, end: Text): (range: Net.Ipv4Range)
    ensures Net.ParseIpv4(start).Some? && Net.ParseIpv4(end).Some? ==>
      range == Net.Ipv4Range(Net.ParseIpv4(start).value, Net.ParseIpv4(end).value)
    ensures Net.ParseIpv4(start).None? || Net.ParseIpv4(end).None? ==>
      range == Net.Ipv4Range(FallbackStart, FallbackEnd)
  {
    FallbackLiteralsParse();
    match (Net.ParseIpv4(start), Net.ParseIpv4(end))
    case (Some(s), Some(e)) => Net.Ipv4Range(s, e)
    case _ => Net.Ipv4Range(Net.ParseIpv4(Net.FormatIpv4(FallbackStart)).value,
                            Net.ParseIpv4(Net.FormatIpv4(FallbackEnd)).value)
  }

  /** The fallback literals parse, so their `unwrap` cannot panic. */
  lemma FallbackLiteralsParse()
    ensures Net.ParseIpv4(Net.FormatIpv4(FallbackStart)) == Some(FallbackStart)
    ensures Net.ParseIpv4(Net.FormatIpv4(FallbackEnd)) == Some(FallbackEnd)
  {
    Net.FormatThenParse(FallbackStart);
    Net.FormatThenParse(FallbackEnd);
  }

  /** Any written-out address gives back a range starting at that address. */
  lemma MakeIpRangeOfAddresses(start: Net.Ipv4, end: Net.Ipv4)
    ensures MakeIpRange(Net.FormatIpv4(start), Net.FormatIpv4(end)) == Net.Ipv4Range(start, end)
  {
    Net.FormatThenParse(start);
    Net.FormatThenParse(end);
  }

  /** `milliseconds_to_chrono`: a duration of exactly the given milliseconds. */
  function MillisecondsToChrono(milliseconds: u32): (d: ChronoDuration)
    ensures d.Valid() && d.WholeMilliseconds()
    ensures NumMilliseconds(d) == milliseconds
  {
    DivModUnique(milliseconds * NanosPerMilli, NanosPerMilli, milliseconds, 0);
    ChronoMilliseconds(milliseconds)
  }
}
