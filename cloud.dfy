/**
 * The cloud client (src/cli/src/cloud.rs): the device id, the protocol, the push and update
 * endpoints and the X-API-Key header made by `Client::new`, and the success flag of a response.
 * The serial-number file and HTTP are parameters.
 */
module Cloud {
  import opened Bits
  import opened Utf8
  import opened Wrappers
  import opened ModbusConnection
  import Db

  /** `pidgeon-` */
  const IdPrefix: Text := [0x70, 0x69, 0x64, 0x67, 0x65, 0x6F, 0x6E, 0x2D]
  /** `https` */
  const Https: Text := [0x68, 0x74, 0x74, 0x70, 0x73]
  /** `http` */
  const Http: Text := [0x68, 0x74, 0x74, 0x70]
  /** `://` */
  const SchemeSeparator: Text := [0x3A, 0x2F, 0x2F]
  /** `/push/` */
  const PushRoute: Text := [0x2F, 0x70, 0x75, 0x73, 0x68, 0x2F]
  /** `/update/` */
  const UpdateRoute: Text := [0x2F, 0x75, 0x70, 0x64, 0x61, 0x74, 0x65, 0x2F]
  /** `-oil-rulz-5000` */
  const KeySuffix: Text := [0x2D, 0x6F, 0x69, 0x6C, 0x2D, 0x72, 0x75, 0x6C, 0x7A, 0x2D, 0x35, 0x30, 0x30, 0x30]

  datatype Client = Client(pushEndpoint: Text, updateEndpoint: Text, apiKey: Text, timeout: nat)

  datatype HttpError = HttpError(code: int)

  /**
   * `HttpFailure` (`ConstructionError::HttpError`) when `reqwest` cannot build the HTTP client,
   * `InvalidHeader` for the key and `IO` for the serial number.
   */
  datatype ConstructionError = HttpFailure(http: HttpError) | InvalidHeader | IO(io: IoError)

  /** `HeaderValue::from_str` accepts tabs and every byte from 32 up except DEL (127). */
  predicate ValidHeaderValue(value: Text)
  {
    forall i :: 0 <= i < |value| ==> (value[i] >= 32 && value[i] != 127) || value[i] == 9
  }

  function Protocol(ssl: bool): (protocol: Text)
    ensures protocol == Https <==> ssl
  {
    if ssl then Https else Http
  }

  /** `format!("{protocol}://{domain}{route}{id}")`. */
  function Endpoint(protocol: Text, domain: Text, route: Text, id: Text): Text
  {
    protocol + SchemeSeparator + domain + route + id
  }

  /** Drops trailing NULs, which the device tree puts after a string property. */
  function TrimNul(s: Text): (t: Text)
    ensures |t| <= |s| && t == s[..|t|]
    ensures |t| > 0 ==> t[|t| - 1] != 0
    ensures forall i :: |t| <= i < |s| ==> s[i] == 0
  {
    if |s| == 0 || s[|s| - 1] != 0 then s else TrimNul(s[..|s| - 1])
  }

  /**
   * The client made from an id: endpoints for that id and the API key header, if it is a valid value
   * and `builder.build()` succeeds; `build` is that call's failure, if any.
   */
  function ClientForId(domain: Text, ssl: bool, apiKey: Option<Text>, timeout: nat, id: Text, build: Option<HttpError>)
    : Result<Client, ConstructionError>
  {
    var key := if apiKey.Some? then apiKey.value else id + KeySuffix;
    if !ValidHeaderValue(key) then Err(InvalidHeader)
    else if build.Some? then Err(HttpFailure(build.value))
    else Ok(Client(Endpoint(Protocol(ssl), domain, PushRoute, id), Endpoint(Protocol(ssl), domain, UpdateRoute, id),
                   key, timeout))
  }

  /** `Client::new` as written: the serial-number file's text is used as read, trailing NUL included. */
  function NewClientAsWritten(domain: Text, ssl: bool, apiKey: Option<Text>, timeout: nat, id: Option<Text>,
                              serialNumber: Result<Text, IoError>, build: Option<HttpError>)
    : Result<Client, ConstructionError>
  {
    match id
    case Some(id) => ClientForId(domain, ssl, apiKey, timeout, id, build)
    case None =>
      match serialNumber
      case Err(error) => Err(IO(error))
      case Ok(serial) => ClientForId(domain, ssl, apiKey, timeout, IdPrefix + serial, build)
  }

  /** `Client::new` with the serial number's trailing NULs trimmed. */
  function NewClient(domain: Text, ssl: bool, apiKey: Option<Text>, timeout: nat, id: Option<Text>,
                     serialNumber: Result<Text, IoError>, build: Option<HttpError>)
    : Result<Client, ConstructionError>
  {
    match id
    case Some(id) => ClientForId(domain, ssl, apiKey, timeout, id, build)
    case None =>
      match serialNumber
      case Err(error) => Err(IO(error))
      case Ok(serial) => ClientForId(domain, ssl, apiKey, timeout, IdPrefix + TrimNul(serial), build)
  }

  /** The device id `Client::new` uses: the configured one, else `pidgeon-` and the trimmed serial number. */
  function DeviceId(id: Option<Text>, serial: Text): Text
  {
    if id.Some? then id.value else IdPrefix + TrimNul(serial)
  }

  /** `Client::new` fails with an I/O error exactly when it needs the serial number and cannot read it. */
  lemma NewClientReadsSerial(domain: Text, ssl: bool, apiKey: Option<Text>, timeout: nat, id: Option<Text>,
                             serialNumber: Result<Text, IoError>, build: Option<HttpError>)
    ensures (NewClient(domain, ssl, apiKey, timeout, id, serialNumber, build).Err?
             && NewClient(domain, ssl, apiKey, timeout, id, serialNumber, build).error.IO?)
            <==> id.None? && serialNumber.Err?
  {
  }

  /**
   * What `Client::new` builds for a device id: `{protocol}://{domain}/push/{id}` and `/update/{id}`
   * endpoints with `https` exactly when `ssl`, and the configured API key, or the id followed by
   * `-oil-rulz-5000` when none is configured. It fails with `InvalidHeader` when that key is not a valid
   * header value, else with the HTTP error when the client cannot be built, and succeeds otherwise.
   */
  lemma NewClientBuilds(domain: Text, ssl: bool, apiKey: Option<Text>, timeout: nat, id: Option<Text>, serial: Text,
                        build: Option<HttpError>)
    ensures var r := NewClient(domain, ssl, apiKey, timeout, id, Ok(serial), build);
      var deviceId := DeviceId(id, serial);
      var key := if apiKey.Some? then apiKey.value else deviceId + KeySuffix;
      (r.Ok? <==> ValidHeaderValue(key) && build.None?)
      && (!ValidHeaderValue(key) ==> r == Err(InvalidHeader))
      && (ValidHeaderValue(key) && build.Some? ==> r == Err(HttpFailure(build.value)))
      && (r.Ok? ==> r.value == Client(Protocol(ssl) + SchemeSeparator + domain + PushRoute + deviceId,
                                      Protocol(ssl) + SchemeSeparator + domain + UpdateRoute + deviceId, key, timeout))
  {
  }

  /** `100000001a2b3c4d`, a serial number as a Raspberry Pi reports it */
  const SampleSerial: Text := [0x31, 0x30, 0x30, 0x30, 0x30, 0x30, 0x30, 0x30, 0x31, 0x61, 0x32, 0x62, 0x33, 0x63, 0x34, 0x64]

  predicate Printable(t: Text) { forall i :: 0 <= i < |t| ==> 32 <= t[i] < 127 }

  lemma PrintableConcat(a: Text, b: Text)
    requires Printable(a) && Printable(b)
    ensures Printable(a + b)
  {
    forall i | 0 <= i < |a + b| ensures 32 <= (a + b)[i] < 127 {
      if i >= |a| {
        assert (a + b)[i] == b[i - |a|];
      }
    }
  }

  lemma PrintableLiterals()
    ensures Printable(IdPrefix) && Printable(KeySuffix) && Printable(SampleSerial)
  {
  }

  /**
   * A device-tree serial number such as `100000001a2b3c4d` followed by NUL, with neither an id nor a
   * key configured: as written the derived key holds the NUL and construction fails; trimmed, it succeeds.
   */
  lemma NulTerminatedSerial(domain: Text)
    ensures var serial := SampleSerial + [0];
      NewClientAsWritten(domain, true, None, 0, None, Ok(serial), None) == Err(InvalidHeader)
      && NewClient(domain, true, None, 0, None, Ok(serial), None).Ok?
  {
    var digits := SampleSerial;
    var serial := digits + [0];
    var key := IdPrefix + serial + KeySuffix;
    assert key[|IdPrefix| + |digits|] == 0;
    assert !ValidHeaderValue(key);
    assert serial[..|serial| - 1] == digits;
    assert TrimNul(serial) == digits;
    PrintableLiterals();
    PrintableConcat(IdPrefix, digits);
    PrintableConcat(IdPrefix + digits, KeySuffix);
  }

  /** The outcome of an HTTP exchange: the status code and the body, either of which can fail. */
  datatype HttpReply = HttpReply(status: nat, text: Result<Text, HttpError>)

  datatype Response = Response(success: bool, text: Text)

  /** `StatusCode::is_success`. */
  predicate IsSuccess(status: nat) { 200 <= status < 300 }

  /** The response of `push` and `update`: a failed send or body is an error, else the status decides success. */
  function Respond(reply: Result<HttpReply, HttpError>): (r: Result<Response, HttpError>)
    ensures r.Ok? <==> reply.Ok? && reply.value.text.Ok?
    ensures r.Ok? ==> (r.value.success <==> IsSuccess(reply.value.status)) && r.value.text == reply.value.text.value
  {
    match reply
    case Err(error) => Err(error)
    case Ok(HttpReply(status, text)) =>
      match text
      case Err(error) => Err(error)
      case Ok(body) => Ok(Response(IsSuccess(status), body))
  }

  /** One measurement or health row as sent to the cloud. */
  datatype Measurement = Measurement(deviceId: Text, timestamp: int, data: Text)

  /** Stored rows as the cloud receives them: the source becomes the device id, in the same order. */
  function ToCloud(rows: seq<Db.Row>): (sent: seq<Measurement>)
    ensures |sent| == |rows|
    ensures forall i :: 0 <= i < |rows| ==>
      sent[i].deviceId == rows[i].source && sent[i].timestamp == rows[i].timestamp && sent[i].data == rows[i].data
  {
    seq(|rows|, (i: int) requires 0 <= i < |rows| => Measurement(rows[i].source, rows[i].timestamp, rows[i].data))
  }

  /** `connection error` */
  const ConnectionErrorText: Text :=
    [0x63, 0x6F, 0x6E, 0x6E, 0x65, 0x63, 0x74, 0x69, 0x6F, 0x6E, 0x20, 0x65, 0x72, 0x72, 0x6F, 0x72]

  /**
   * What a push or an update logs about the exchange: success exactly when the cloud answered with
   * `success: true`, and the answer's text, or `connection error` when there was no answer.
   */
  function LogOutcome(result: Result<Response, HttpError>): (outcome: (bool, Text))
    ensures outcome.0 <==> result.Ok? && result.value.success
    ensures result.Ok? ==> outcome.1 == result.value.text
    ensures result.Err? ==> outcome.1 == ConnectionErrorText
  {
    match result
    case Ok(response) => (response.success, response.text)
    case Err(_) => (false, ConnectionErrorText)
  }
}
