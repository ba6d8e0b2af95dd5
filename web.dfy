/** The HTTP handlers of web.cpp that change the device: the configuration
    form (`handleSetConfiguration`) and the state API (`handleSetState`),
    with the replies they share.

    Argument parsing, `atoi` and JSON deserialisation are library calls and
    enter as parameters; a request is its body, its content type and its
    form arguments. */
module Web {
  import opened Types
  import opened Names
  import opened StateMachine
  import opened ConfigStore

  datatype Request = Request(plain: Option<string>, contentType: string, form: map<string, string>)

  /** `server.arg(key)`: the argument, or the empty string when absent. */
  function Arg(req: Request, key: string): string {
    if key in req.form then req.form[key] else ""
  }

  datatype Body = Text(text: string) | Json(doc: JsonDocument)

  /** A reply: status, body and, for redirects, the `Location` header. */
  datatype Response = Response(status: nat, body: Body, location: Option<string>)

  const FormContentType: string := "application/x-www-form-urlencoded"
  const JsonContentType: string := "application/json"
  const ConfigurationPath: string := "/configuration/"

  /** Room in the 128-byte message buffers, leaving one byte for the NUL. */
  const MessageRoom: nat := 127

  /** What `snprintf` keeps of `s` in a buffer with room for `n` characters. */
  function Truncated(s: string, n: nat): (t: string)
    ensures |t| <= n && |t| <= |s| && t == s[..|t|]
    ensures |s| <= n ==> t == s
  {
    if |s| <= n then s else s[..n]
  }

  function BadRequest(text: string): Response {
    Response(400, Text(text), None)
  }

  /** The reply to a request whose content type is not the expected one:
      the message quotes what was received, cut to fit its buffer. */
  function ContentTypeRejection(expected: string, got: string): (r: Response)
    ensures r.status == 400 && r.body.Text? && |r.body.text| <= MessageRoom
  {
    BadRequest(Truncated("Expecting '" + expected + "' content-type, got: '" + CString(got) + "'.\n", MessageRoom))
  }

  /** `handleGetIndex`: a redirect to the configuration page. */
  function GetIndex(): (r: Response)
    ensures r.status == 302 && r.location == Some(ConfigurationPath)
  {
    Response(302, Text(""), Some(ConfigurationPath))
  }

  /** `handleGetStateWithStatusCode`: the state's document with the given status. */
  function StateReply(status: nat, s: StateValue): (r: Response)
    ensures r.status == status && r.body == Json(ToJson(s))
  {
    Response(status, Json(ToJson(s)), None)
  }

  // ---------------------------------------------------------------------
  // handleSetConfiguration

  /** The submitted values, once every check has passed. */
  datatype ConfigForm = ConfigForm(name: string, ssid: string, passphrase: string, numLeds: uint16)

  datatype FormCheck = Rejected(response: Response) | Accepted(form: ConfigForm)

  /** A C conversion of an `int` to `uint16_t`: modulo 65536. */
  function ToUint16(v: int): uint16 {
    v % 0x1_0000
  }

  /** The LED count as the source checks it: narrowed to 16 bits first,
      then compared with [1, MAX_LEDS]. */
  function NumLedsAsWritten(v: int): Option<uint16> {
    var n := ToUint16(v);
    if n < 1 || n > MaxLeds then None else Some(n)
  }

  /** The LED count as evidently intended: the number given, accepted only
      when it is in [1, MAX_LEDS]. */
  function NumLeds(v: int): (r: Option<uint16>)
    ensures r.Some? <==> 1 <= v <= MaxLeds
    ensures r.Some? ==> r.value == v
  {
    if v < 1 || v > MaxLeds then None else Some(v)
  }

  /** As written, 65537 LEDs pass the check as 1 LED, and -65535 as 1 too;
      the intended check refuses both. On [1, MAX_LEDS] the two agree. */
  lemma NumLedsNarrowing(v: int)
    ensures NumLedsAsWritten(65537) == Some(1) && NumLeds(65537) == None
    ensures NumLedsAsWritten(-65535) == Some(1) && NumLeds(-65535) == None
    ensures 0 <= v < 0x1_0000 ==> NumLedsAsWritten(v) == NumLeds(v)
  {
  }

  /** A request with a body sent as a form. */
  predicate IsForm(req: Request) {
    req.plain.Some? && req.contentType == FormContentType
  }

  /** The checks of `handleSetConfiguration`, in order: a body, the form
      content type, then the three lengths (each must leave room for the
      NUL), then the LED count. */
  function CheckConfigForm(req: Request, atoi: string -> int): (c: FormCheck)
    ensures c.Accepted? <==>
      && req.plain.Some? && req.contentType == FormContentType
      && |Arg(req, "name")| < NameSize
      && |Arg(req, "ssid")| < SsidSize
      && |Arg(req, "passphrase")| < PassphraseSize
      && 1 <= atoi(Arg(req, "num_leds")) <= MaxLeds
    ensures c.Accepted? ==>
      c.form == ConfigForm(Arg(req, "name"), Arg(req, "ssid"), Arg(req, "passphrase"), atoi(Arg(req, "num_leds")))
    ensures c.Rejected? ==> c.response.status == 400 && c.response.body.Text?
    ensures req.plain.None? ==> c == Rejected(BadRequest("Missing message body.\n"))
    ensures req.plain.Some? && req.contentType != FormContentType ==>
      c == Rejected(ContentTypeRejection(FormContentType, req.contentType))
    ensures IsForm(req) && |Arg(req, "name")| >= NameSize ==>
      c == Rejected(BadRequest("Name is too big.\n"))
    ensures IsForm(req) && |Arg(req, "name")| < NameSize && |Arg(req, "ssid")| >= SsidSize ==>
      c == Rejected(BadRequest("SSID is too big.\n"))
    ensures IsForm(req) && |Arg(req, "name")| < NameSize && |Arg(req, "ssid")| < SsidSize
              && |Arg(req, "passphrase")| >= PassphraseSize ==>
      c == Rejected(BadRequest("Passphrase is too big.\n"))
    ensures IsForm(req) && |Arg(req, "name")| < NameSize && |Arg(req, "ssid")| < SsidSize
              && |Arg(req, "passphrase")| < PassphraseSize
              && !(1 <= atoi(Arg(req, "num_leds")) <= MaxLeds) ==>
      c == Rejected(BadRequest("Invalid number of LEDs.\n"))
  {
    if req.plain.None? then Rejected(BadRequest("Missing message body.\n"))
    else if req.contentType != FormContentType then Rejected(ContentTypeRejection(FormContentType, req.contentType))
    else
      var name := Arg(req, "name");
      var ssid := Arg(req, "ssid");
      var passphrase := Arg(req, "passphrase");
      var numLeds := NumLeds(atoi(Arg(req, "num_leds")));
      if |name| >= NameSize then Rejected(BadRequest("Name is too big.\n"))
      else if |ssid| >= SsidSize then Rejected(BadRequest("SSID is too big.\n"))
      else if |passphrase| >= PassphraseSize then Rejected(BadRequest("Passphrase is too big.\n"))
      else if numLeds.None? then Rejected(BadRequest("Invalid number of LEDs.\n"))
      else Accepted(ConfigForm(name, ssid, passphrase, numLeds.value))
  }

  /** How `printf` treats a format given no arguments: `%%` prints `%`; any
      other conversion reads an argument that was never passed, which is
      undefined (`None`). */
  function FormatAsWritten(f: string): (r: Option<string>)
    ensures r.Some? ==> |r.value| <= |f|
  {
    if |f| == 0 then Some("")
    else if f[0] != '%' then
      match FormatAsWritten(f[1..])
      case None => None
      case Some(t) => Some([f[0]] + t)
    else if |f| >= 2 && f[1] == '%' then
      match FormatAsWritten(f[2..])
      case None => None
      case Some(t) => Some("%" + t)
    else None
  }

  /** `snprintf(buf, sizeof(buf), s.c_str())` as written: the submitted
      text is the format. */
  function StoreFormattedAsWritten(buf: seq<char>, s: string): Option<seq<char>>
    requires |s| < |buf|
  {
    match FormatAsWritten(CString(s))
    case None => None
    case Some(t) => Some(t + [Nul] + buf[|t| + 1..])
  }

  /** As written, a name containing `%%` is stored with a single `%`, and
      one containing `%s` makes `snprintf` read an argument that was never
      passed. */
  lemma FormatAsWrittenMangles(buf: seq<char>)
    requires |buf| == NameSize
    ensures FormatAsWritten("100%%") == Some("100%")
    ensures StoreFormattedAsWritten(buf, "100%%").Some?
    ensures CString(StoreFormattedAsWritten(buf, "100%%").value) == "100%"
    ensures StoreFormattedAsWritten(buf, "a%s").None?
  {
    FormatHalvesPercent();
    CStringOfPlain("100%%");
    CStringTerminated("100%", buf[5..]);
    FormatStringConversion();
    CStringOfPlain("a%s");
  }

  /** `printf` prints `100%%` as `100%`. */
  lemma FormatHalvesPercent()
    ensures FormatAsWritten("100%%") == Some("100%")
  {
    var f := "100%%";
    assert f[3] == '%' && f[4] == '%' && f[5..] == "";
    assert FormatAsWritten(f[5..]) == Some("");
    assert "%" + "" == "%";
    assert FormatAsWritten(f[3..]) == Some("%");
    assert [f[2]] + "%" == "0%";
    assert FormatAsWritten(f[2..]) == Some("0%");
    assert [f[1]] + "0%" == "00%";
    assert FormatAsWritten(f[1..]) == Some("00%");
    assert [f[0]] + "00%" == "100%";
  }

  /** `a%s` asks `printf` for a string argument. */
  lemma FormatStringConversion()
    ensures FormatAsWritten("a%s") == None
  {
    var g := "a%s";
    assert g[1] == '%' && g[2] == 's';
    assert FormatAsWritten(g[1..]) == None;
  }

  /** Text without a NUL is its own C string. */
  lemma CStringOfPlain(s: string)
    requires Nul !in s
    ensures CString(s) == s
  {
    assert forall i :: 0 <= i < |s| ==> s[i] in s;
  }

  /** The intended write, `snprintf(buf, sizeof(buf), "%s", s.c_str())`:
      the text up to its first NUL, a NUL, and the rest of the buffer as it
      was (`snprintf` writes no further). */
  function StoreCString(buf: seq<char>, s: string): (b: seq<char>)
    requires |s| < |buf|
    ensures |b| == |buf|
    ensures CString(b) == CString(s)
    ensures b[|CString(s)| + 1..] == buf[|CString(s)| + 1..]
  {
    var t := CString(s);
    CStringTerminated(t, buf[|t| + 1..]);
    t + [Nul] + buf[|t| + 1..]
  }

  /** The configuration after an accepted form: the three texts and the LED
      count replaced, everything else kept. */
  function Applied(r: Record, f: ConfigForm): (a: Record)
    requires r.Shaped()
    requires |f.name| < NameSize && |f.ssid| < SsidSize && |f.passphrase| < PassphraseSize
    ensures a.Shaped()
    ensures a.(name := r.name, ssid := r.ssid, passphrase := r.passphrase, numLeds := r.numLeds) == r
  {
    r.(name := StoreCString(r.name, f.name),
       ssid := StoreCString(r.ssid, f.ssid),
       passphrase := StoreCString(r.passphrase, f.passphrase),
       numLeds := f.numLeds)
  }

  /** What an accepted form saves survives the restart that follows: the
      next `Load` finds a valid image and reads back the submitted texts and
      LED count; the device has a name and an SSID exactly when non-empty
      ones were submitted. */
  lemma AcceptedFormSurvivesRestart(r: Record, req: Request, atoi: string -> int)
    requires r.Shaped() && r.Usable()
    requires CheckConfigForm(req, atoi).Accepted?
    ensures var f := CheckConfigForm(req, atoi).form;
      var saved := Applied(r, f).(magic := Magic);
      && Loaded(saved) == saved && saved.IsValid()
      && CString(saved.name) == CString(f.name)
      && CString(saved.ssid) == CString(f.ssid)
      && CString(saved.passphrase) == CString(f.passphrase)
      && 1 <= saved.numLeds <= MaxLeds
      && (saved.HasName() <==> CString(f.name) != "")
      && (saved.HasSsid() <==> CString(f.ssid) != "")
  {
    var f := CheckConfigForm(req, atoi).form;
    var saved := Applied(r, f).(magic := Magic);
    SaveThenLoad(Applied(r, f));
    NonEmptyCString(saved.name);
    NonEmptyCString(saved.ssid);
  }

  /** A buffer holds a non-empty C string exactly when it starts with a
      character other than NUL. */
  lemma NonEmptyCString(s: seq<char>)
    ensures CString(s) != "" <==> |s| > 0 && s[0] != Nul
  {
    if |s| > 0 && s[0] != Nul {
      assert StrnLen(s, |s|) > 0;
    }
  }

  /** `handleSetConfiguration`: on a rejected form, the first failing check's
      400 reply and no change; otherwise the three texts and the LED count
      are written into the configuration, it is saved, and the reply is the
      redirect to the configuration page, followed by a restart. `Save`
      cannot fail, so the 500 reply is never sent. */
  method HandleSetConfiguration(req: Request, atoi: string -> int, config: Config, eeprom: Eeprom)
    returns (resp: Response, restart: bool)
    requires config.Value().Shaped()
    modifies config, eeprom
    ensures CheckConfigForm(req, atoi).Rejected? ==>
      && resp == CheckConfigForm(req, atoi).response && !restart
      && unchanged(config) && unchanged(eeprom)
    ensures CheckConfigForm(req, atoi).Accepted? ==>
      && resp == GetIndex() && restart
      && config.Value() == Applied(old(config.Value()), CheckConfigForm(req, atoi).form).(magic := Magic)
      && eeprom.contents == config.Value()
  {
    var check := CheckConfigForm(req, atoi);
    if check.Rejected? {
      return check.response, false;
    }
    var f := check.form;
    config.name := StoreCString(config.name, f.name);
    config.ssid := StoreCString(config.ssid, f.ssid);
    config.passphrase := StoreCString(config.passphrase, f.passphrase);
    config.numLeds := f.numLeds;
    var _ := config.Save(eeprom);
    resp := GetIndex();
    restart := true;
  }

  // ---------------------------------------------------------------------
  // handleSetState

  /** The outcome of `deserializeJson`, which this model does not define. */
  datatype Parsed = Parsed(doc: JsonDocument) | ParseError(message: string)

  datatype Handled = Handled(response: Response, state: StateValue)

  /** `handleSetState` on a state value: the checks in order, then the
      update and the status its result maps to. */
  function SetState(req: Request, parse: string -> Parsed, s: StateValue): (h: Handled)
    ensures h.response.status == 200 || h.response.status == 400 || h.response.status == 409
    ensures h.response.status != 200 ==> h.state == s
  {
    if req.plain.None? then Handled(BadRequest("Missing message body.\n"), s)
    else if req.contentType != JsonContentType then Handled(ContentTypeRejection(JsonContentType, req.contentType), s)
    else match parse(req.plain.value)
      case ParseError(message) => Handled(BadRequest(Truncated("JSON error: " + message + "\n", MessageRoom)), s)
      case Parsed(doc) =>
        var outcome := Update(s, doc);
        match outcome.result
        case Success => Handled(StateReply(200, outcome.state), outcome.state)
        case InvalidInput => Handled(BadRequest("Invalid state.\n"), s)
        case OutdatedInput => Handled(StateReply(409, s), s)
  }

  /** A request that reaches the update: a body, the JSON content type and
      a document that parses. */
  predicate ReachesUpdate(req: Request, parse: string -> Parsed) {
    req.plain.Some? && req.contentType == JsonContentType && parse(req.plain.value).Parsed?
  }

  /** The status of `handleSetState`: 200 with the new state exactly when
      the update succeeds, 409 with the unchanged state exactly when the
      revision is stale (section 15.5.10 of RFC 9110, Conflict), and 400 for
      every other request, which leaves the state alone. */
  lemma SetStateStatus(req: Request, parse: string -> Parsed, s: StateValue)
    ensures var h := SetState(req, parse, s);
      && (h.response.status == 200 <==>
            ReachesUpdate(req, parse) && Update(s, parse(req.plain.value).doc).result == Success)
      && (h.response.status == 200 ==>
            h.state == Update(s, parse(req.plain.value).doc).state && h.response.body == Json(ToJson(h.state)))
      && (h.response.status == 409 <==>
            ReachesUpdate(req, parse) && Update(s, parse(req.plain.value).doc).result == OutdatedInput)
      && (h.response.status == 409 ==> h.response.body == Json(ToJson(s)))
      && (!ReachesUpdate(req, parse) ==> h.response.status == 400 && h.state == s)
  {
  }

  /** After a 409 the client can retry: the same document carrying the
      revision from the returned snapshot succeeds. */
  lemma RetryAfterConflict(req: Request, parse: string -> Parsed, s: StateValue)
    requires SetState(req, parse, s).response.status == 409
    ensures var doc := parse(req.plain.value).doc;
      var snapshot := SetState(req, parse, s).response.body.doc;
      Update(s, doc.(revision := snapshot.revision)).result == Success
  {
    var doc := parse(req.plain.value).doc;
    assert SetState(req, parse, s).response.body.doc == ToJson(s);
    UpdateSucceedsIff(s, doc.(revision := ToJson(s).revision));
  }

  /** `handleSetState` on the shared state object. */
  method HandleSetState(req: Request, parse: string -> Parsed, state: State) returns (resp: Response)
    modifies state
    ensures Handled(resp, state.Value()) == SetState(req, parse, old(state.Value()))
  {
    if req.plain.None? {
      return BadRequest("Missing message body.\n");
    }
    if req.contentType != JsonContentType {
      return ContentTypeRejection(JsonContentType, req.contentType);
    }
    var parsed := parse(req.plain.value);
    if parsed.ParseError? {
      return BadRequest(Truncated("JSON error: " + parsed.message + "\n", MessageRoom));
    }
    var result := state.FromJsonDocument(parsed.doc);
    match result
    case Success =>
      var doc := state.ToJsonDocument();
      resp := Response(200, Json(doc), None);
    case InvalidInput =>
      resp := BadRequest("Invalid state.\n");
    case OutdatedInput =>
      var doc := state.ToJsonDocument();
      resp := Response(409, Json(doc), None);
  }
}
