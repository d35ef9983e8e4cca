/** The shop operator's desktop form (`XeroxQRGenerator` without its
    widgets): three text fields, whether a QR code has been generated, the
    QR image last generated, and whether the shop server answered the last
    connection check. Every button is a function from the form state (plus
    whatever the world supplies) to an outcome and the next form state. */
module QrForm {
  import opened Common
  import opened Text

  /** The JSON object a QR code encodes; `shopName` is left out of the
      object when it is None. */
  datatype QrPayload = QrPayload(shopId: string, serverUrl: string, shopName: Option<string>,
                                 generatedAt: string)

  /** `qrImage` is the last generated image, represented by the payload it
      encodes. */
  datatype FormState = FormState(
    shopId: string,
    shopName: string,
    serverUrl: string,
    qrGenerated: bool,
    qrImage: Option<QrPayload>,
    serverRunning: bool)

  /** The form as the constructor builds it. */
  function Initial(): (st: FormState)
    ensures st.shopId == "" && st.shopName == "" && st.serverUrl == "https://"
    ensures !st.qrGenerated && st.qrImage.None? && !st.serverRunning
  {
    FormState("", "", "https://", false, None, false)
  }

  /** A generated flag always comes with an image. */
  predicate Consistent(st: FormState)
  {
    st.qrGenerated ==> st.qrImage.Some?
  }

  /** The operator typing into the three entries. */
  function Edit(st: FormState, shopId: string, shopName: string, serverUrl: string): FormState
  {
    st.(shopId := shopId, shopName := shopName, serverUrl := serverUrl)
  }

  /** "Generate Unique ID": the shop id becomes `shop_` and the first eight
      characters of a fresh uuid4's hex form. */
  function GenerateUniqueId(st: FormState, uuidHex: string): (next: FormState)
    ensures next == st.(shopId := next.shopId)
    ensures |next.shopId| >= 5 && next.shopId[..5] == "shop_"
    ensures next.shopId[5..] <= uuidHex
    ensures |uuidHex| >= 8 ==> |next.shopId| == 13
    ensures Strip(next.shopId) != ""
  {
    var id := "shop_" + Prefix(uuidHex, 8);
    assert !IsSpace(id[0]);
    st.(shopId := id)
  }

  /** What an HTTP GET of the server URL came back with. */
  datatype Probe = Answered(status: nat) | Unreachable(reason: string)

  /** The status label next to "Check Connection". */
  datatype Indicator = NoUrl | Connected | HttpError(status: nat) | ConnectionFailed(reason: string)

  datatype Checked = Checked(indicator: Indicator, next: FormState)

  /** The URL field is empty or still the "https://" placeholder (the field
      is compared unstripped here). */
  predicate NoUrlEntered(url: string)
  {
    url == "" || url == "https://"
  }

  /** "Check Connection": probe the server URL as typed; the flag follows the
      probe, and is left alone when there is no URL to probe. */
  function CheckServerConnection(st: FormState, probe: Probe): (c: Checked)
    ensures NoUrlEntered(st.serverUrl) ==> c == Checked(NoUrl, st)
    ensures !NoUrlEntered(st.serverUrl) ==>
      c.next == st.(serverRunning := c.next.serverRunning)
    ensures !NoUrlEntered(st.serverUrl) ==>
      (c.next.serverRunning <==> probe == Answered(200))
    ensures !NoUrlEntered(st.serverUrl) ==>
      match probe
      case Answered(code) => c.indicator == (if code == 200 then Connected else HttpError(code))
      case Unreachable(reason) => c.indicator == ConnectionFailed(reason)
  {
    if NoUrlEntered(st.serverUrl) then Checked(NoUrl, st)
    else
      match probe
      case Answered(code) =>
        if code == 200 then Checked(Connected, st.(serverRunning := true))
        else Checked(HttpError(code), st.(serverRunning := false))
      case Unreachable(reason) => Checked(ConnectionFailed(reason), st.(serverRunning := false))
  }

  datatype QrOutcome = QrError(message: string) | QrShown(payload: QrPayload)

  datatype Generated = Generated(outcome: QrOutcome, next: FormState)

  /** "Generate QR Code": validate the stripped fields, then encode them with
      the time of generation. The entries themselves are not rewritten. */
  function GenerateQr(st: FormState, now: string): (g: Generated)
    ensures Strip(st.shopId) == "" ==>
      g == Generated(QrError("Shop ID is required"), st)
    ensures Strip(st.shopId) != "" && NoUrlEntered(Strip(st.serverUrl)) ==>
      g == Generated(QrError("Server URL is required"), st)
    ensures g.outcome.QrShown? <==> Strip(st.shopId) != "" && !NoUrlEntered(Strip(st.serverUrl))
    ensures g.outcome.QrShown? ==>
      var p := g.outcome.payload;
      && p.shopId == Strip(st.shopId)
      && p.serverUrl == Strip(st.serverUrl)
      && (p.shopName.Some? <==> Strip(st.shopName) != "")
      && (p.shopName.Some? ==> p.shopName.value == Strip(st.shopName))
      && p.generatedAt == now
      && g.next == st.(qrGenerated := true, qrImage := Some(p))
  {
    var shopId := Strip(st.shopId);
    var shopName := Strip(st.shopName);
    var serverUrl := Strip(st.serverUrl);
    if shopId == "" then Generated(QrError("Shop ID is required"), st)
    else if NoUrlEntered(serverUrl) then Generated(QrError("Server URL is required"), st)
    else
      var p := QrPayload(shopId, serverUrl, if shopName != "" then Some(shopName) else None, now);
      Generated(QrShown(p), st.(qrGenerated := true, qrImage := Some(p)))
  }

  /** The payload as the ordered members of the JSON object that is the QR
      code's text. */
  function Entries(p: QrPayload): (e: seq<(string, string)>)
    ensures |e| == if p.shopName.Some? then 4 else 3
    ensures e[0] == ("shop_id", p.shopId) && e[1] == ("server_url", p.serverUrl)
    ensures e[|e| - 1] == ("generated_at", p.generatedAt)
  {
    [("shop_id", p.shopId), ("server_url", p.serverUrl)]
    + (if p.shopName.Some? then [("shop_name", p.shopName.value)] else [])
    + [("generated_at", p.generatedAt)]
  }

  /** The value of the first member named `key`. */
  function Lookup(e: seq<(string, string)>, key: string): Option<string>
  {
    if e == [] then None
    else if e[0].0 == key then Some(e[0].1)
    else Lookup(e[1..], key)
  }

  /** How a scanner reads a QR object back: the three mandatory members and
      the optional name. */
  function FromEntries(e: seq<(string, string)>): Option<QrPayload>
  {
    match (Lookup(e, "shop_id"), Lookup(e, "server_url"), Lookup(e, "generated_at"))
    case (Some(id), Some(url), Some(at)) => Some(QrPayload(id, url, Lookup(e, "shop_name"), at))
    case _ => None
  }

  /** Reading a generated QR object back gives exactly the payload. */
  lemma EntriesRoundTrip(p: QrPayload)
    ensures FromEntries(Entries(p)) == Some(p)
  {
    var e := Entries(p);
    var tail := [("generated_at", p.generatedAt)];
    if p.shopName.Some? {
      var named := [("shop_name", p.shopName.value)] + tail;
      assert e == [("shop_id", p.shopId), ("server_url", p.serverUrl)] + named;
      assert e[1..][1..] == named;
      assert named[1..] == tail;
      assert "shop_name" != "shop_id" && "shop_name" != "server_url";
      assert "generated_at" != "shop_name";
      assert Lookup(named, "generated_at") == Lookup(tail, "generated_at");
      assert Lookup(e, "shop_name") == Lookup(named, "shop_name") == Some(p.shopName.value);
      assert Lookup(e, "generated_at") == Lookup(named, "generated_at") == Some(p.generatedAt);
    } else {
      assert e == [("shop_id", p.shopId), ("server_url", p.serverUrl)] + tail;
      assert e[1..][1..] == tail;
      assert "shop_name" != "shop_id" && "shop_name" != "server_url" && "shop_name" != "generated_at";
      assert Lookup(tail[1..], "shop_name") == None;
      assert Lookup(e, "shop_name") == Lookup(tail, "shop_name") == None;
      assert Lookup(e, "generated_at") == Lookup(tail, "generated_at") == Some(p.generatedAt);
    }
    assert Lookup(e, "shop_id") == Some(p.shopId);
    assert Lookup(e, "server_url") == Some(p.serverUrl);
    assert "generated_at" != "shop_id" && "generated_at" != "server_url";
    assert "server_url" != "shop_id";
  }

  datatype SaveOutcome = SaveRefused(message: string) | SaveAs(filename: string)

  /** "Save QR Code": refused until a code has been generated; otherwise the
      image is written under a name built from the stripped shop id. */
  function SaveQr(st: FormState): (s: SaveOutcome)
    ensures s.SaveAs? <==> st.qrGenerated && st.qrImage.Some?
    ensures s.SaveRefused? ==> s.message == "No QR code has been generated yet"
    ensures s.SaveAs? ==> s.filename == "xerox_shop_" + Strip(st.shopId) + "_qr.png"
  {
    if !st.qrGenerated || st.qrImage.None? then SaveRefused("No QR code has been generated yet")
    else SaveAs("xerox_shop_" + Strip(st.shopId) + "_qr.png")
  }

  /** The outcome of "Register with Server": a refusal, the POST it sends,
      or the uncaught error raised when the generated flag is set but there
      is no image to encode. */
  datatype RegisterAction =
    | RegisterRefused(message: string)
    | Post(url: string, body: map<string, string>)
    | NoImageToSend

  /** "Register with Server": refused unless a code was generated and the
      server answered; otherwise the current stripped fields and the form's
      image, as the base64 text `encode` gives for it, are posted to the
      server's registration endpoint. */
  function RegisterWithServer(st: FormState, encode: QrPayload -> string): (a: RegisterAction)
    ensures !st.qrGenerated ==> a == RegisterRefused("Generate a QR code first")
    ensures st.qrGenerated && !st.serverRunning ==> a == RegisterRefused("Cannot connect to server")
    ensures st.qrGenerated && st.serverRunning && st.qrImage.None? ==> a == NoImageToSend
    ensures a.Post? <==> st.qrGenerated && st.serverRunning && st.qrImage.Some?
    ensures a.Post? ==>
      && a.url == Strip(st.serverUrl) + "/api/register_shop"
      && a.body.Keys == {"shop_id", "shop_name", "server_url", "qr_code_image"}
      && a.body["shop_id"] == Strip(st.shopId)
      && a.body["shop_name"] == Strip(st.shopName)
      && a.body["server_url"] == Strip(st.serverUrl)
      && a.body["qr_code_image"] == encode(st.qrImage.value)
  {
    if !st.qrGenerated then RegisterRefused("Generate a QR code first")
    else if !st.serverRunning then RegisterRefused("Cannot connect to server")
    else if st.qrImage.None? then NoImageToSend
    else
      var serverUrl := Strip(st.serverUrl);
      Post(serverUrl + "/api/register_shop",
           map["shop_id" := Strip(st.shopId), "shop_name" := Strip(st.shopName),
               "server_url" := serverUrl, "qr_code_image" := encode(st.qrImage.value)])
  }

  /** On a form every button leaves consistent, registration never hits the
      missing-image error. */
  lemma ConsistentRegisterHasImage(st: FormState, encode: QrPayload -> string)
    requires Consistent(st)
    ensures !RegisterWithServer(st, encode).NoImageToSend?
  {
  }

  /** What came back from the registration POST: a status and the body if
      it parsed as a JSON object, or a failure to reach the server. */
  datatype PostOutcome = Replied(status: nat, json: Option<map<string, string>>) | PostFailed(reason: string)

  datatype Notice = Info(text: string) | Error(text: string)

  /** The message box shown after the registration POST. */
  function RegisterReport(o: PostOutcome): (n: Notice)
    ensures n.Info? <==> o.Replied? && o.status == 200
    ensures n.Info? ==> n.text == "Shop registered successfully with the server"
    ensures o.Replied? && o.status != 200 ==>
      var prefix := "Server returned error: " + Decimal(o.status);
      && (o.json.None? ==> n.text == prefix)
      && (o.json.Some? ==> n.text == prefix + " - " + GetOr(o.json.value, "error", ""))
    ensures o.PostFailed? ==> n.Error? && n.text == "Failed to register with server: " + o.reason
  {
    match o
    case Replied(code, json) =>
      if code == 200 then Info("Shop registered successfully with the server")
      else
        var msg := "Server returned error: " + Decimal(code);
        Error(if json.Some? then msg + " - " + GetOr(json.value, "error", "") else msg)
    case PostFailed(reason) => Error("Failed to register with server: " + reason)
  }

  /** "Clear": empty the entries, restore the URL placeholder and forget
      that a code was generated. The image and the server flag stay. */
  function ClearForm(st: FormState): (next: FormState)
    ensures next.shopId == "" && next.shopName == "" && next.serverUrl == "https://"
    ensures !next.qrGenerated
    ensures next.qrImage == st.qrImage && next.serverRunning == st.serverRunning
  {
    st.(shopId := "", shopName := "", serverUrl := "https://", qrGenerated := false)
  }

  /** After "Clear" every action is refused again: saving, registering and
      generating, and the connection check has no URL to probe. */
  lemma ClearFormLocksActions(st: FormState, encode: QrPayload -> string, now: string, probe: Probe)
    ensures var cleared := ClearForm(st);
      && SaveQr(cleared).SaveRefused?
      && RegisterWithServer(cleared, encode).RegisterRefused?
      && GenerateQr(cleared, now).outcome == QrError("Shop ID is required")
      && CheckServerConnection(cleared, probe) == Checked(NoUrl, cleared)
  {
  }

  /** The constructor's own connection check never probes: the URL field
      holds only the placeholder. */
  lemma InitialCheckSkipsProbe(probe: Probe)
    ensures CheckServerConnection(Initial(), probe) == Checked(NoUrl, Initial())
  {
  }

  /** Every button keeps a generated flag paired with an image. */
  lemma ActionsKeepConsistent(st: FormState, hex: string, probe: Probe, now: string,
                              id: string, name: string, url: string)
    requires Consistent(st)
    ensures Consistent(Initial())
    ensures Consistent(Edit(st, id, name, url))
    ensures Consistent(GenerateUniqueId(st, hex))
    ensures Consistent(CheckServerConnection(st, probe).next)
    ensures Consistent(GenerateQr(st, now).next)
    ensures Consistent(ClearForm(st))
  {
  }

  /** Registering right after generating (with the server up) posts the
      same shop id and URL the QR code encodes, and the name the code
      carries, or the empty name when the code has none. */
  lemma GenerateThenRegisterAgree(st: FormState, now: string, encode: QrPayload -> string)
    requires st.serverRunning
    requires GenerateQr(st, now).outcome.QrShown?
    ensures var g := GenerateQr(st, now);
      var p := g.outcome.payload;
      var a := RegisterWithServer(g.next, encode);
      && a.Post?
      && a.body["qr_code_image"] == encode(p)
      && a.body["shop_id"] == p.shopId
      && a.body["server_url"] == p.serverUrl
      && a.body["shop_name"] == (if p.shopName.Some? then p.shopName.value else "")
  {
  }

  /** Registration posts the fields as they are now, not those encoded in
      the image: entries edited after generating are sent along with the
      code generated before the edit. */
  lemma RegisterSendsCurrentFields(st: FormState, shopId: string, shopName: string,
                                   serverUrl: string, encode: QrPayload -> string)
    requires Consistent(st) && st.qrGenerated && st.serverRunning
    ensures var edited := Edit(st, shopId, shopName, serverUrl);
      var a := RegisterWithServer(edited, encode);
      && a.Post?
      && a.body["qr_code_image"] == encode(st.qrImage.value)
      && a.body["shop_id"] == Strip(shopId)
      && a.body["server_url"] == Strip(serverUrl)
  {
  }

  /** The fixed start of the message shown when the server refuses a
      registration. */
  const ErrorPrefix: string := "Server returned error: "

  /** What an operator reads off a refusal message: the status code written
      after the fixed prefix, if the text has that shape. */
  function ReportedStatus(text: string): Option<nat>
  {
    if |text| < |ErrorPrefix| || text[..|ErrorPrefix|] != ErrorPrefix then None
    else
      var rest := text[|ErrorPrefix|..];
      var n := DigitRun(rest);
      if n == 0 then None else Some(DecimalValue(rest[..n]))
  }

  /** A refusal message names the status the server answered with, whether
      or not an error text follows it. */
  lemma RegisterReportNamesStatus(o: PostOutcome)
    requires o.Replied? && o.status != 200
    ensures RegisterReport(o).Error?
    ensures ReportedStatus(RegisterReport(o).text) == Some(o.status)
  {
    var text := RegisterReport(o).text;
    var digits := Decimal(o.status);
    var tail := if o.json.Some? then " - " + GetOr(o.json.value, "error", "") else "";
    assert text == ErrorPrefix + (digits + tail);
    assert text[|ErrorPrefix|..] == digits + tail;
    DigitRunOfDecimal(o.status, tail);
    DecimalRoundTrip(o.status);
  }

  /** Two refusals with the same message come from the same status. */
  lemma RegisterReportDistinguishesStatus(a: PostOutcome, b: PostOutcome)
    requires a.Replied? && a.status != 200
    requires b.Replied? && b.status != 200
    requires RegisterReport(a).text == RegisterReport(b).text
    ensures a.status == b.status
  {
    RegisterReportNamesStatus(a);
    RegisterReportNamesStatus(b);
  }
}
