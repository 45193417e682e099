/** selectWirelessNetwork and what it calls (cmds/webboot/network.go), down to
    the configuration that generateConfig writes (pkg/wifi/iwl.go). */
module Network {
  import opened Wrappers
  import opened Events
  import opened Text
  import opened IwlParse
  import opened MenuRuns
  import opened Widgets
  import LineEditor
  import Pager

  // ---- generateConfig ---------------------------------------------------

  const BAD_ARGS := "generateConfig needs 1, 2, or 3 args"

  function Quoted(key: string, value: string): string {
    key + "=\"" + value + "\""
  }

  // Lines with the same indent.
  function Indented(indent: string, contents: seq<string>): string {
    if contents == [] then "" else indent + (contents[0] + "\n" + Indented(indent, contents[1..]))
  }

  function Network(indent: string, contents: seq<string>, end: string): string {
    "network={" + "\n" + (Indented(indent, contents) + end)
  }

  function OpenContents(essid: string): seq<string> {
    [Quoted("ssid", essid), "proto=RSN", "key_mgmt=NONE"]
  }

  function EapContents(essid: string, identity: string, password: string): seq<string> {
    [Quoted("ssid", essid), "key_mgmt=WPA-EAP", Quoted("identity", identity), Quoted("password", password)]
  }

  function PskContents(essid: string, pass: string, psk: string): seq<string> {
    [Quoted("ssid", essid), Quoted("#psk", pass), "psk=" + psk]
  }

  type Derive = (string, string) -> string

  // passphrase.Run; derive stands for PBKDF2 and its hexadecimal form.
  function PassphraseRun(essid: string, pass: string, derive: Derive): Result<string, string> {
    if |pass| < 8 || |pass| > 63 then Err("Passphrase must be 8..63 characters")
    else if essid == "" then Err("essid cannot be empty")
    else
      Ok(Network("\t", PskContents(essid, pass, derive(pass, essid)), "}\n"))
  }

  // args: essid, pass, id
  function GenerateConfig(a: seq<string>, derive: Derive): Result<string, string> {
    if |a| == 3 then Ok(Network("\t\t", EapContents(a[0], a[2], a[1]), "\t}"))
    else if |a| == 2 then
      match PassphraseRun(a[0], a[1], derive)
      case Ok(conf) => Ok(conf)
      case Err(message) => Err("essid: " + a[0] + ", pass: " + a[1] + " : " + message)
    else if |a| == 1 then Ok(Network("\t\t", OpenContents(a[0]), "\t}"))
    else Err(BAD_ARGS)
  }

  // The value of a field that is written key="value" on a line of its own.
  function FieldOf(lines: seq<string>, key: string): Option<string> {
    if lines == [] then None
    else if IsField(lines[0], key) then Some(lines[0][|key| + 2..|lines[0]| - 1])
    else FieldOf(lines[1..], key)
  }

  // The value of a field that is written key=value, without quotes.
  function PlainField(lines: seq<string>, key: string): Option<string> {
    if lines == [] then None
    else if key + "=" <= lines[0] then Some(lines[0][|key| + 1..])
    else PlainField(lines[1..], key)
  }

  predicate IsField(line: string, key: string) {
    |line| >= |key| + 3 && line[..|key| + 2] == key + "=\"" && line[|line| - 1] == '"'
  }

  lemma QuotedIsField(key: string, value: string)
    ensures IsField(Quoted(key, value), key)
    ensures var line := Quoted(key, value); line[|key| + 2..|line| - 1] == value
  {
    var line := Quoted(key, value);
    assert line == (key + "=\"") + value + "\"";
  }

  lemma FieldStart(line: string, key: string)
    requires key != "" && IsField(line, key)
    ensures line[0] == key[0]
  {
    assert line[..|key| + 2][0] == line[0];
  }

  predicate Contents(contents: seq<string>) {
    forall i :: 0 <= i < |contents| ==>
      '\n' !in contents[i] && contents[i] != "" && contents[i][0] !in " \t\n\r\U{000c}"
  }

  lemma {:induction false} IndentedLines(indent: string, contents: seq<string>, end: string)
    requires indent in {"\t", "\t\t"} && Contents(contents)
    ensures Lines(Indented(indent, contents) + end) == contents + Lines(end)
  {
    hide Lines;
    if contents == [] {
      assert Indented(indent, contents) + end == end;
    } else {
      var rest := Indented(indent, contents[1..]) + end;
      assert Indented(indent, contents) + end == indent + (contents[0] + "\n" + rest);
      LinesOfSpace(indent, contents[0] + "\n" + rest);
      LinesOfText(contents[0], rest);
      IndentedLines(indent, contents[1..], end);
    }
  }

  lemma NetworkLines(indent: string, contents: seq<string>, end: string)
    requires indent in {"\t", "\t\t"} && Contents(contents) && end in {"\t}", "}\n"}
    ensures Lines(Network(indent, contents, end)) == ["network={"] + contents + ["}"]
  {
    hide Lines;
    LinesOfText("network={", Indented(indent, contents) + end);
    IndentedLines(indent, contents, end);
    LinesOfSpace("\t", "}");
    assert "\t" + "}" == "\t}";
    LinesOfText("}", "");
    assert "}" + "\n" + "" == "}\n";
  }

  lemma QuotedContent(key: string, value: string)
    requires key in {"ssid", "identity", "password", "#psk"} && '\n' !in value
    ensures Contents([Quoted(key, value)])
  {
  }

  lemma TwoContents(a: seq<string>, b: seq<string>)
    requires Contents(a) && Contents(b)
    ensures Contents(a + b)
  {
  }

  // The lines of the configuration for one, two and three arguments.
  lemma OpenLines(essid: string, derive: Derive)
    requires '\n' !in essid
    ensures GenerateConfig([essid], derive).Ok?
    ensures Lines(GenerateConfig([essid], derive).value)
         == ["network={", "ssid=\"" + essid + "\"", "proto=RSN", "key_mgmt=NONE", "}"]
  {
    hide Contents, Lines;
    QuotedContent("ssid", essid);
    PlainContents();
    TwoContents([Quoted("ssid", essid)], ["proto=RSN", "key_mgmt=NONE"]);
    assert OpenContents(essid) == [Quoted("ssid", essid)] + ["proto=RSN", "key_mgmt=NONE"];
    NetworkLines("\t\t", OpenContents(essid), "\t}");
    assert "ssid" + "=\"" == "ssid=\"";
  }

  lemma PlainContents()
    ensures Contents(["proto=RSN", "key_mgmt=NONE"]) && Contents(["key_mgmt=WPA-EAP"])
  {
  }

  lemma PskContent(psk: string)
    requires '\n' !in psk
    ensures Contents(["psk=" + psk])
  {
  }

  lemma PskLines(essid: string, pass: string, derive: Derive)
    requires '\n' !in essid && '\n' !in pass && '\n' !in derive(pass, essid)
    requires 8 <= |pass| <= 63 && essid != ""
    ensures GenerateConfig([essid, pass], derive).Ok?
    ensures Lines(GenerateConfig([essid, pass], derive).value)
         == ["network={", "ssid=\"" + essid + "\"", "#psk=\"" + pass + "\"", "psk=" + derive(pass, essid), "}"]
  {
    hide Contents, Lines;
    var psk := derive(pass, essid);
    QuotedContent("ssid", essid);
    QuotedContent("#psk", pass);
    PskContent(psk);
    TwoContents([Quoted("ssid", essid)], [Quoted("#psk", pass)]);
    TwoContents([Quoted("ssid", essid)] + [Quoted("#psk", pass)], ["psk=" + psk]);
    assert PskContents(essid, pass, psk) == [Quoted("ssid", essid)] + [Quoted("#psk", pass)] + ["psk=" + psk];
    NetworkLines("\t", PskContents(essid, pass, psk), "}\n");
    assert "ssid" + "=\"" == "ssid=\"" && "#psk" + "=\"" == "#psk=\"";
  }

  lemma EapLines(essid: string, identity: string, password: string, derive: Derive)
    requires '\n' !in essid && '\n' !in identity && '\n' !in password
    ensures GenerateConfig([essid, password, identity], derive).Ok?
    ensures Lines(GenerateConfig([essid, password, identity], derive).value)
         == ["network={", "ssid=\"" + essid + "\"", "key_mgmt=WPA-EAP", "identity=\"" + identity + "\"",
             "password=\"" + password + "\"", "}"]
  {
    hide Contents, Lines;
    QuotedContent("ssid", essid);
    PlainContents();
    QuotedContent("identity", identity);
    QuotedContent("password", password);
    var ssid, key := [Quoted("ssid", essid)], ["key_mgmt=WPA-EAP"];
    TwoContents(ssid, key);
    TwoContents(ssid + key, [Quoted("identity", identity)]);
    TwoContents(ssid + key + [Quoted("identity", identity)], [Quoted("password", password)]);
    assert EapContents(essid, identity, password)
        == ssid + key + [Quoted("identity", identity)] + [Quoted("password", password)];
    NetworkLines("\t\t", EapContents(essid, identity, password), "\t}");
    assert "ssid" + "=\"" == "ssid=\"";
    assert "identity" + "=\"" == "identity=\"";
    assert "password" + "=\"" == "password=\"";
  }

  // The lines of a configuration hold these values in their fields.
  predicate EapFieldsAre(config: Result<string, string>, essid: string, identity: string, password: string) {
    config.Ok? &&
    var lines := Lines(config.value);
    && FieldOf(lines, "ssid") == Some(essid)
    && PlainField(lines, "key_mgmt") == Some("WPA-EAP")
    && FieldOf(lines, "identity") == Some(identity)
    && FieldOf(lines, "password") == Some(password)
  }

  predicate PskFieldsAre(config: Result<string, string>, essid: string, pass: string, psk: string) {
    config.Ok? &&
    var lines := Lines(config.value);
    && FieldOf(lines, "ssid") == Some(essid)
    && FieldOf(lines, "#psk") == Some(pass)
    && PlainField(lines, "psk") == Some(psk)
  }

  predicate OpenFieldsAre(config: Result<string, string>, essid: string) {
    config.Ok? &&
    var lines := Lines(config.value);
    && FieldOf(lines, "ssid") == Some(essid)
    && PlainField(lines, "key_mgmt") == Some("NONE")
  }

  lemma EapFieldsRead(essid: string, identity: string, password: string, derive: Derive)
    requires '\n' !in essid && '\n' !in identity && '\n' !in password
    ensures EapFieldsAre(GenerateConfig([essid, password, identity], derive), essid, identity, password)
  {
    hide GenerateConfig, Lines, IsField;
    EapLines(essid, identity, password, derive);
    QuotedIsField("ssid", essid);
    QuotedIsField("identity", identity);
    QuotedIsField("password", password);
    var lines := Lines(GenerateConfig([essid, password, identity], derive).value);
    FieldAt(lines, 1, "ssid");
    PlainFieldAt(lines, 2, "key_mgmt", "WPA-EAP");
    FieldAt(lines, 3, "identity");
    FieldAt(lines, 4, "password");
  }

  lemma PskFieldsRead(essid: string, pass: string, derive: Derive)
    requires '\n' !in essid && '\n' !in pass && '\n' !in derive(pass, essid)
    requires 8 <= |pass| <= 63 && essid != ""
    ensures PskFieldsAre(GenerateConfig([essid, pass], derive), essid, pass, derive(pass, essid))
  {
    hide GenerateConfig, Lines, IsField;
    PskLines(essid, pass, derive);
    QuotedIsField("ssid", essid);
    QuotedIsField("#psk", pass);
    var lines := Lines(GenerateConfig([essid, pass], derive).value);
    FieldAt(lines, 1, "ssid");
    FieldAt(lines, 2, "#psk");
    PlainFieldAt(lines, 3, "psk", derive(pass, essid));
  }

  lemma OpenFieldsRead(essid: string, derive: Derive)
    requires '\n' !in essid
    ensures OpenFieldsAre(GenerateConfig([essid], derive), essid)
  {
    hide GenerateConfig, Lines, IsField;
    OpenLines(essid, derive);
    QuotedIsField("ssid", essid);
    var lines := Lines(GenerateConfig([essid], derive).value);
    FieldAt(lines, 1, "ssid");
    PlainFieldAt(lines, 3, "key_mgmt", "NONE");
  }

  lemma {:induction false} FieldHasNoNewline(lines: seq<string>, key: string)
    requires NoNewlines(lines) && FieldOf(lines, key).Some?
    ensures '\n' !in FieldOf(lines, key).value
  {
    if !IsField(lines[0], key) {
      FieldHasNoNewline(lines[1..], key);
    }
  }

  lemma {:induction false} FieldAt(lines: seq<string>, i: nat, key: string)
    requires i < |lines| && IsField(lines[i], key) && key != ""
    requires forall j :: 0 <= j < i ==> lines[j] != "" && lines[j][0] != key[0]
    ensures FieldOf(lines, key) == Some(lines[i][|key| + 2..|lines[i]| - 1])
    decreases i
  {
    if i > 0 {
      if IsField(lines[0], key) {
        FieldStart(lines[0], key);
      }
      FieldAt(lines[1..], i - 1, key);
    }
  }

  lemma NotPrefixed(line: string, key: string)
    requires key != "" && line != "" && line[0] != key[0]
    ensures !(key + "=" <= line)
  {
    assert (key + "=")[0] == key[0];
  }

  lemma {:induction false} PlainFieldAt(lines: seq<string>, i: nat, key: string, value: string)
    requires i < |lines| && lines[i] == key + "=" + value && key != ""
    requires forall j :: 0 <= j < i ==> lines[j] != "" && lines[j][0] != key[0]
    ensures PlainField(lines, key) == Some(value)
    decreases i
  {
    if i == 0 {
      assert lines[0][|key| + 1..] == value;
    } else {
      NotPrefixed(lines[0], key);
      PlainFieldAt(lines[1..], i - 1, key, value);
    }
  }

  lemma {:induction false} PlainFieldHasNoNewline(lines: seq<string>, key: string)
    requires NoNewlines(lines) && PlainField(lines, key).Some?
    ensures '\n' !in PlainField(lines, key).value
  {
    if !(key + "=" <= lines[0]) {
      PlainFieldHasNoNewline(lines[1..], key);
    }
  }

  // The arguments come as essid, password, identity, the format wants essid,
  // identity, password; read back, every field holds what it should, if and
  // only if no value breaks its line.
  lemma EapFields(essid: string, identity: string, password: string, derive: Derive)
    ensures EapFieldsAre(GenerateConfig([essid, password, identity], derive), essid, identity, password)
        <==> '\n' !in essid && '\n' !in identity && '\n' !in password
  {
    var config := GenerateConfig([essid, password, identity], derive);
    if '\n' !in essid && '\n' !in identity && '\n' !in password {
      EapFieldsRead(essid, identity, password, derive);
    }
    if EapFieldsAre(config, essid, identity, password) {
      hide FieldOf, LinesFrom;
      var lines := Lines(config.value);
      LinesHaveNoNewline(config.value, 0);
      FieldHasNoNewline(lines, "ssid");
      FieldHasNoNewline(lines, "identity");
      FieldHasNoNewline(lines, "password");
    }
  }

  // The same for two arguments. The passphrase has 8 to 63 bytes and the ESSID
  // is not empty, or there is no configuration.
  lemma PskFields(essid: string, pass: string, derive: Derive)
    ensures GenerateConfig([essid, pass], derive).Ok? <==> 8 <= |pass| <= 63 && essid != ""
    ensures GenerateConfig([essid, pass], derive).Ok? ==>
              (PskFieldsAre(GenerateConfig([essid, pass], derive), essid, pass, derive(pass, essid))
               <==> NoNewlines([essid, pass, derive(pass, essid)]))
    ensures GenerateConfig([essid, pass], derive).Err? ==>
              GenerateConfig([essid, pass], derive).error
              == "essid: " + essid + ", pass: " + pass + " : "
                 + if |pass| < 8 || |pass| > 63 then "Passphrase must be 8..63 characters" else "essid cannot be empty"
  {
    PskOk(essid, pass, derive);
    hide GenerateConfig, FieldOf, PlainField, LinesFrom;
    var config, values := GenerateConfig([essid, pass], derive), [essid, pass, derive(pass, essid)];
    assert NoNewlines(values) <==> '\n' !in values[0] && '\n' !in values[1] && '\n' !in values[2];
    if config.Ok? && NoNewlines(values) {
      PskFieldsRead(essid, pass, derive);
    }
    if PskFieldsAre(config, essid, pass, derive(pass, essid)) {
      var lines := Lines(config.value);
      LinesHaveNoNewline(config.value, 0);
      FieldHasNoNewline(lines, "ssid");
      FieldHasNoNewline(lines, "#psk");
      PlainFieldHasNoNewline(lines, "psk");
    }
  }

  lemma PskOk(essid: string, pass: string, derive: Derive)
    ensures GenerateConfig([essid, pass], derive).Ok? <==> 8 <= |pass| <= 63 && essid != ""
    ensures GenerateConfig([essid, pass], derive).Err? ==>
              GenerateConfig([essid, pass], derive).error
              == "essid: " + essid + ", pass: " + pass + " : "
                 + if |pass| < 8 || |pass| > 63 then "Passphrase must be 8..63 characters" else "essid cannot be empty"
  {
  }

  // And for one.
  lemma OpenFields(essid: string, derive: Derive)
    ensures OpenFieldsAre(GenerateConfig([essid], derive), essid) <==> '\n' !in essid
  {
    var config := GenerateConfig([essid], derive);
    hide GenerateConfig, FieldOf, PlainField, LinesFrom;
    if '\n' !in essid {
      OpenFieldsRead(essid, derive);
    }
    if OpenFieldsAre(config, essid) {
      LinesHaveNoNewline(config.value, 0);
      FieldHasNoNewline(Lines(config.value), "ssid");
    }
  }

  // ---- Connecting -------------------------------------------------------

  // One round of the loop: what the scan found, what the user typed, what the
  // system answered to the attempt to connect.
  datatype Round = Round(
    scan: Result<seq<WifiOption>, string>, pickEvents: seq<Event>,
    passEvents: seq<Event>, idEvents: seq<Event>,
    link: Option<string>, resultEvents: seq<Event>)

  // A call of Connect.
  datatype Call = Call(round: nat, network: WifiOption, args: seq<string>, result: Option<Error>)

  datatype Outcome = Connected | Failed(error: Error) | Waiting

  // IWLWorker.Connect
  function Connect(args: seq<string>, derive: Derive, link: Option<string>): Option<Error> {
    match GenerateConfig(args, derive)
    case Err(message) => Some(Other(message))
    case Ok(_) =>
      match link
      case None => None
      case Some(message) => Some(Other(message))
  }

  datatype Credentials = Typed(values: seq<string>) | NotTyped(error: Error) | Typing

  // A prompt for a secret, which is never rejected.
  function Typing(events: seq<Event>): Credentials {
    match LineEditor.TextInput(LineEditor.AlwaysValid, events)
    case Stopped(error) => NotTyped(error)
    case Accepted(text, _) => Typed([text])
    case _ => Credentials.Typing
  }

  // Password, and identity unless the suite is PSK.
  function CredentialsOf(authSuite: SecProto, round: Round): Credentials {
    match Typing(round.passEvents)
    case Typed(pass) =>
      if authSuite == WpaPsk then Typed(pass)
      else
        (match Typing(round.idEvents)
         case Typed(identity) => Typed(pass + identity)
         case other => other)
    case other => other
  }

  method EnterCredentials(authSuite: SecProto, round: Round) returns (r: Credentials)
    ensures r == CredentialsOf(authSuite, round)
    ensures r.NotTyped? ==> r.error in {BackRequest, ExitRequest}
    ensures r.Typed? ==> |r.values| == if authSuite == WpaPsk then 1 else 2
  {
    var credentials: seq<string> := [];
    var pass := LineEditor.PromptTextInput(LineEditor.AlwaysValid, round.passEvents);
    StoppedErrors(LineEditor.AlwaysValid, round.passEvents);
    match pass {
      case Stopped(error) => return NotTyped(error);
      case Accepted(text, _) => credentials := credentials + [text];
      case _ => return Credentials.Typing;
    }
    if authSuite == WpaPsk {
      return Typed(credentials);
    }
    var identity := LineEditor.PromptTextInput(LineEditor.AlwaysValid, round.idEvents);
    StoppedErrors(LineEditor.AlwaysValid, round.idEvents);
    match identity {
      case Stopped(error) => return NotTyped(error);
      case Accepted(text, _) => credentials := credentials + [text];
      case _ => return Credentials.Typing;
    }
    r := Typed(credentials);
  }

  lemma StoppedErrors(isValid: LineEditor.ValidCheck, events: seq<Event>)
    ensures var r := LineEditor.TextInput(isValid, events);
            r.Stopped? ==> r.error in {BackRequest, ExitRequest}
  {
    LineEditor.TypedStops(isValid, "", HINT, Keys(events));
  }

  // nil, an error, or still typing; and the call of Connect, if there is one.
  datatype Attempt = Attempt(call: Option<Call>, error: Option<Error>) | NoAnswer

  function CallConnect(network: WifiOption, args: seq<string>, round: Round, index: nat, derive: Derive): Attempt {
    var result := Connect(args, derive, round.link);
    Attempt(Some(Call(index, network, args, result)), result)
  }

  function AttemptOf(network: WifiOption, round: Round, index: nat, derive: Derive): Attempt {
    match network.authSuite
    case NotSupportedProto => Attempt(None, Some(Other("Security protocol is not supported.")))
    case NoEnc => CallConnect(network, [network.essid], round, index, derive)
    case authSuite =>
      match CredentialsOf(authSuite, round)
      case NotTyped(error) => Attempt(None, Some(error))
      case Typing => NoAnswer
      case Typed(values) => CallConnect(network, [network.essid] + values, round, index, derive)
  }

  method ConnectWirelessNetwork(network: WifiOption, round: Round, index: nat, derive: Derive) returns (r: Attempt)
    ensures r == AttemptOf(network, round, index, derive)
  {
    var setupParams := [network.essid];
    var authSuite := network.authSuite;
    if authSuite == NotSupportedProto {
      return Attempt(None, Some(Other("Security protocol is not supported.")));
    } else if authSuite == WpaPsk || authSuite == WpaEap {
      var credentials := EnterCredentials(authSuite, round);
      match credentials {
        case NotTyped(error) => return Attempt(None, Some(error));
        case Typing => return NoAnswer;
        case Typed(values) => setupParams := setupParams + values;
      }
    }
    var err := Connect(setupParams, derive, round.link);
    r := Attempt(Some(Call(index, network, setupParams, err)), err);
  }

  function NetworkLabel(n: WifiOption): string {
    n.essid + match n.authSuite
              case NoEnc => ": No Passphrase\n"
              case WpaPsk => ": WPA-PSK (only passphrase)\n"
              case WpaEap => ": WPA-EAP (passphrase and identity)\n"
              case NotSupportedProto => ": Not a supported protocol\n"
  }

  // What follows an attempt; None is another scan.
  function After(error: Option<Error>, round: Round): Option<Outcome> {
    match error
    case None => Some(Connected)
    case Some(e) =>
      if e == ExitRequest then Some(Failed(ExitRequest))
      else if e == BackRequest || Pager.Leaves(Keys(round.resultEvents)) then None
      else Some(Waiting)
  }

  datatype RoundEnd = RoundEnd(calls: seq<Call>, outcome: Option<Outcome>)

  function RoundOf(round: Round, index: nat, derive: Derive): RoundEnd {
    match round.scan
    case Err(message) => RoundEnd([], Some(Failed(Other(message))))
    case Ok(networks) =>
      match Prompt(networks, [], round.pickEvents)
      case Blocked => RoundEnd([], Some(Waiting))
      case Refused(error) => RoundEnd([], Some(Failed(error)))
      case Picked(network) =>
        match AttemptOf(network, round, index, derive)
        case NoAnswer => RoundEnd([], Some(Waiting))
        case Attempt(None, error) => RoundEnd([], After(error, round))
        case Attempt(Some(call), error) => RoundEnd([call], After(error, round))
  }

  datatype Selection = Selection(outcome: Outcome, calls: seq<Call>)

  // The rounds from i on.
  function Select(rounds: seq<Round>, i: nat, derive: Derive): Selection
    decreases |rounds| - i
  {
    if i >= |rounds| then Selection(Waiting, [])
    else
      var now := RoundOf(rounds[i], i, derive);
      match now.outcome
      case Some(outcome) => Selection(outcome, now.calls)
      case None =>
        var later := Select(rounds, i + 1, derive);
        Selection(later.outcome, now.calls + later.calls)
  }

  // One round of the loop.
  method SelectRound(round: Round, index: nat, derive: Derive) returns (end: RoundEnd)
    ensures end == RoundOf(round, index, derive)
  {
    hide AttemptOf, Prompt, Keys, Pager.Run, Pager.WrapAll, Pager.Leaves;
    if round.scan.Err? {
      return RoundEnd([], Some(Failed(Other(round.scan.error))));
    }
    var picked, _ := PromptMenuEntry(round.scan.value, NetworkLabel, round.pickEvents, []);
    if picked == Blocked {
      return RoundEnd([], Some(Waiting));
    }
    if picked.Refused? {
      return RoundEnd([], Some(Failed(picked.error)));
    }
    var attempt := ConnectWirelessNetwork(picked.entry, round, index, derive);
    if attempt == NoAnswer {
      return RoundEnd([], Some(Waiting));
    }
    var calls := match attempt.call case None => [] case Some(call) => [call];
    if attempt.error == None {
      return RoundEnd(calls, Some(Connected));
    }
    if attempt.error.value == ExitRequest {
      return RoundEnd(calls, Some(Failed(ExitRequest)));
    }
    if attempt.error.value != BackRequest {
      var message := [attempt.error.value.message];
      var shown := Pager.DisplayResult(message, round.resultEvents);
      Pager.LeftIffLeaves(Pager.WrapAll(message), Pager.Top(Pager.WrapAll(message)), Keys(round.resultEvents));
      if shown == Pager.Waiting {
        return RoundEnd(calls, Some(Waiting));
      }
    }
    end := RoundEnd(calls, None);
  }

  // The whole function; worker is the error of NewIWLWorker, if it fails.
  function SelectWith(worker: Option<string>, rounds: seq<Round>, derive: Derive): Selection {
    match worker
    case Some(message) => Selection(Failed(Other(message)), [])
    case None => Select(rounds, 0, derive)
  }

  method SelectWirelessNetwork(worker: Option<string>, rounds: seq<Round>, derive: Derive)
      returns (r: Outcome, calls: seq<Call>)
    ensures Selection(r, calls) == SelectWith(worker, rounds, derive)
  {
    hide RoundOf;
    calls := [];
    if worker != None {
      return Failed(Other(worker.value)), calls;
    }
    var i := 0;
    while i < |rounds|
      invariant i <= |rounds|
      invariant Select(rounds, 0, derive).outcome == Select(rounds, i, derive).outcome
      invariant Select(rounds, 0, derive).calls == calls + Select(rounds, i, derive).calls
    {
      var round := SelectRound(rounds[i], i, derive);
      calls := calls + round.calls;
      if round.outcome != None {
        return round.outcome.value, calls;
      }
      i := i + 1;
    }
    r := Waiting;
  }

  // ---- What the loop promises -------------------------------------------

  // A call that belongs to a round: the network is the one that was picked, the
  // arguments are its ESSID and what was typed, as many as its suite wants.
  predicate FromRound(c: Call, round: Round, derive: Derive) {
    && round.scan.Ok? && Prompt(round.scan.value, [], round.pickEvents) == Picked(c.network)
    && c.result == Connect(c.args, derive, round.link)
    && var pass := LineEditor.TextInput(LineEditor.AlwaysValid, round.passEvents);
       var id := LineEditor.TextInput(LineEditor.AlwaysValid, round.idEvents);
       match c.network.authSuite
       case NoEnc => c.args == [c.network.essid]
       case WpaPsk => pass.Accepted? && c.args == [c.network.essid, pass.input]
       case WpaEap => pass.Accepted? && id.Accepted? && c.args == [c.network.essid, pass.input, id.input]
       case NotSupportedProto => false
  }

  // Calls of rounds from i on, no round with two.
  predicate CallsFrom(calls: seq<Call>, rounds: seq<Round>, i: nat, derive: Derive) {
    && (forall k :: 0 <= k < |calls| ==>
          i <= calls[k].round < |rounds| && FromRound(calls[k], rounds[calls[k].round], derive))
    && (forall j, k :: 0 <= j < k < |calls| ==> calls[j].round < calls[k].round)
  }

  lemma RoundCalls(round: Round, index: nat, derive: Derive)
    ensures var end := RoundOf(round, index, derive);
            && |end.calls| <= 1
            && (end.calls != [] ==> end.calls[0].round == index && FromRound(end.calls[0], round, derive))
            && (end.outcome == Some(Connected) <==> end.calls != [] && end.calls[0].result == None)
  {
    if round.scan.Ok? {
      PromptOutcomes(round.scan.value, [], round.pickEvents);
    }
  }

  // What comes of an attempt to connect with some arguments: nil if there is a
  // configuration for them and the link comes up, else an error that is
  // displayed before the next scan.
  lemma RoundWithCall(round: Round, index: nat, derive: Derive, network: WifiOption, args: seq<string>)
    requires round.scan.Ok? && Prompt(round.scan.value, [], round.pickEvents) == Picked(network)
    requires var pass := LineEditor.TextInput(LineEditor.AlwaysValid, round.passEvents);
             var id := LineEditor.TextInput(LineEditor.AlwaysValid, round.idEvents);
             || (network.authSuite == NoEnc && args == [network.essid])
             || (network.authSuite == WpaPsk && pass.Accepted? && args == [network.essid, pass.input])
             || (network.authSuite == WpaEap && pass.Accepted? && id.Accepted?
                 && args == [network.essid, pass.input, id.input])
    ensures var end, good := RoundOf(round, index, derive), GenerateConfig(args, derive).Ok? && round.link.None?;
            && |end.calls| == 1
            && end.calls[0].round == index && end.calls[0].network == network && end.calls[0].args == args
            && (end.calls[0].result.None? <==> good)
            && end.outcome == if good then Some(Connected)
                              else if Pager.Leaves(Keys(round.resultEvents)) then None
                              else Some(Waiting)
  {
    hide GenerateConfig, Prompt, Pager.Leaves, Keys;
  }

  // Without a call: an unsupported network is an error too, Ctrl-d while typing
  // ends the loop, Escape scans again.
  lemma RoundWithoutCall(round: Round, index: nat, derive: Derive, network: WifiOption)
    requires round.scan.Ok? && Prompt(round.scan.value, [], round.pickEvents) == Picked(network)
    ensures network.authSuite == NotSupportedProto ==>
              RoundOf(round, index, derive)
              == RoundEnd([], if Pager.Leaves(Keys(round.resultEvents)) then None else Some(Waiting))
    ensures TypingStops(network, round, ExitRequest) ==>
              RoundOf(round, index, derive) == RoundEnd([], Some(Failed(ExitRequest)))
    ensures TypingStops(network, round, BackRequest) ==> RoundOf(round, index, derive) == RoundEnd([], None)
  {
    hide Prompt, Pager.Leaves, Keys;
  }

  // The outcome is success just when the last call returned nil, and no call
  // before it did.
  predicate Succeeds(outcome: Outcome, calls: seq<Call>) {
    && (outcome == Connected <==> calls != [] && calls[|calls| - 1].result == None)
    && (forall k :: 0 <= k < |calls| - 1 ==> calls[k].result.Some?)
  }

  lemma SucceedsLater(call: Call, outcome: Outcome, later: seq<Call>)
    requires Succeeds(outcome, later) && call.result.Some?
    ensures Succeeds(outcome, [call] + later)
  {
    var calls := [call] + later;
    assert later != [] ==> calls[|calls| - 1] == later[|later| - 1];
  }

  lemma CallsLater(calls: seq<Call>, later: seq<Call>, rounds: seq<Round>, i: nat, derive: Derive)
    requires i < |rounds| && CallsFrom(later, rounds, i + 1, derive)
    requires |calls| <= 1 && (calls != [] ==> calls[0].round == i && FromRound(calls[0], rounds[i], derive))
    ensures CallsFrom(calls + later, rounds, i, derive)
  {
    hide FromRound;
    if calls == [] {
      assert calls + later == later;
    } else {
      forall k | 0 <= k < |later|
        ensures (calls + later)[k + 1] == later[k]
      {
      }
    }
  }

  lemma {:induction false} SelectSucceeds(rounds: seq<Round>, i: nat, derive: Derive)
    ensures var s := Select(rounds, i, derive);
            CallsFrom(s.calls, rounds, i, derive) && Succeeds(s.outcome, s.calls)
    decreases |rounds| - i
  {
    hide RoundOf, FromRound, CallsFrom, Succeeds;
    if i >= |rounds| {
      NoCalls(rounds, i, derive);
    } else {
      var now := RoundOf(rounds[i], i, derive);
      RoundCalls(rounds[i], i, derive);
      if now.outcome.Some? {
        LastCalls(now, rounds, i, derive);
      } else {
        var later := Select(rounds, i + 1, derive);
        SelectSucceeds(rounds, i + 1, derive);
        CallsLater(now.calls, later.calls, rounds, i, derive);
        if now.calls == [] {
          assert now.calls + later.calls == later.calls;
        } else {
          assert now.calls == [now.calls[0]];
          SucceedsLater(now.calls[0], later.outcome, later.calls);
        }
      }
    }
  }

  lemma NoCalls(rounds: seq<Round>, i: nat, derive: Derive)
    ensures CallsFrom([], rounds, i, derive) && Succeeds(Outcome.Waiting, [])
  {
  }

  lemma LastCalls(now: RoundEnd, rounds: seq<Round>, i: nat, derive: Derive)
    requires i < |rounds| && now.outcome.Some? && |now.calls| <= 1
    requires now.calls != [] ==> now.calls[0].round == i && FromRound(now.calls[0], rounds[i], derive)
    requires now.outcome == Some(Connected) <==> now.calls != [] && now.calls[0].result == None
    ensures CallsFrom(now.calls, rounds, i, derive) && Succeeds(now.outcome.value, now.calls)
  {
  }

  // In every run: success means that the last call of Connect returned nil,
  // and none before it did; every call belongs to a round, no round has two.
  lemma SuccessIsConnect(worker: Option<string>, rounds: seq<Round>, derive: Derive)
    ensures var s := SelectWith(worker, rounds, derive);
            CallsFrom(s.calls, rounds, 0, derive) && Succeeds(s.outcome, s.calls)
  {
    hide Select;
    SelectSucceeds(rounds, 0, derive);
  }

  // The password is not typed, or it is and the identity is not.
  predicate TypingStops(network: WifiOption, round: Round, error: Error) {
    var pass := LineEditor.TextInput(LineEditor.AlwaysValid, round.passEvents);
    var id := LineEditor.TextInput(LineEditor.AlwaysValid, round.idEvents);
    || (network.authSuite in {WpaPsk, WpaEap} && pass == LineEditor.Stopped(error))
    || (network.authSuite == WpaEap && pass.Accepted? && id == LineEditor.Stopped(error))
  }

  // Why the loop ends without a connection.
  predicate EndsWith(round: Round, error: Error) {
    match round.scan
    case Err(message) => error == Other(message)
    case Ok(networks) =>
      match Prompt(networks, [], round.pickEvents)
      case Refused(e) => error == e
      case Picked(network) =>
        error == ExitRequest && TypingStops(network, round, ExitRequest)
      case Blocked => false
  }

  lemma RoundFails(round: Round, index: nat, derive: Derive, error: Error)
    ensures RoundOf(round, index, derive).outcome == Some(Failed(error)) <==> EndsWith(round, error)
  {
  }

  lemma {:induction false} SelectFails(rounds: seq<Round>, i: nat, derive: Derive, error: Error)
    ensures Select(rounds, i, derive).outcome == Failed(error)
        <==> exists k :: i <= k < |rounds| && EndsWith(rounds[k], error) && AllRetry(rounds, i, k, derive)
    decreases |rounds| - i
  {
    hide RoundOf, EndsWith;
    if i < |rounds| {
      RoundFails(rounds[i], i, derive, error);
      SelectFails(rounds, i + 1, derive, error);
      if RoundOf(rounds[i], i, derive).outcome.None? {
        if k :| i <= k < |rounds| && EndsWith(rounds[k], error) && AllRetry(rounds, i, k, derive) {
          assert k != i;
          assert AllRetry(rounds, i + 1, k, derive);
        }
        if k :| i + 1 <= k < |rounds| && EndsWith(rounds[k], error) && AllRetry(rounds, i + 1, k, derive) {
          assert AllRetry(rounds, i, k, derive);
        }
      } else if EndsWith(rounds[i], error) {
        assert AllRetry(rounds, i, i, derive);
      }
    }
  }

  // The whole fails exactly with the error of a worker that cannot be had, or
  // with that of the first round that ends it: a scan that fails, a network
  // menu that is left, or Ctrl-d while typing.
  lemma FailureIsARound(worker: Option<string>, rounds: seq<Round>, derive: Derive, error: Error)
    ensures SelectWith(worker, rounds, derive).outcome == Failed(error)
        <==> match worker
             case Some(message) => error == Other(message)
             case None =>
               exists k :: 0 <= k < |rounds| && EndsWith(rounds[k], error) && AllRetry(rounds, 0, k, derive)
  {
    hide Select, EndsWith, AllRetry;
    SelectFails(rounds, 0, derive, error);
  }

  predicate AllRetry(rounds: seq<Round>, i: nat, k: nat, derive: Derive)
    requires k <= |rounds|
  {
    forall j :: i <= j < k ==> RoundOf(rounds[j], j, derive).outcome.None?
  }

  // Escape while typing scans again, and nothing was tried.
  lemma BackScansAgain(rounds: seq<Round>, i: nat, derive: Derive, network: WifiOption)
    requires i < |rounds| && rounds[i].scan.Ok?
    requires Prompt(rounds[i].scan.value, [], rounds[i].pickEvents) == Picked(network)
    requires TypingStops(network, rounds[i], BackRequest)
    ensures Select(rounds, i, derive) == Select(rounds, i + 1, derive)
  {
    assert RoundOf(rounds[i], i, derive) == RoundEnd([], None);
  }

  // generateConfig never gets a number of arguments it does not know.
  lemma ArgumentsMatch(calls: seq<Call>, rounds: seq<Round>, derive: Derive, i: nat)
    requires CallsFrom(calls, rounds, 0, derive) && i < |calls|
    ensures var c := calls[i];
            && c.network.authSuite != NotSupportedProto
            && |c.args| == (match c.network.authSuite case NoEnc => 1 case WpaPsk => 2 case _ => 3)
            && GenerateConfig(c.args, derive) != Err(BAD_ARGS)
  {
    var c := calls[i];
    assert FromRound(c, rounds[c.round], derive);
    KnownNumber(c.args, derive);
  }

  // The configuration of the call, read back, has the ESSID of the network and
  // the typed identity and password, unless one of them breaks its line.
  predicate EapCallHolds(c: Call, round: Round, derive: Derive) {
    var pass := LineEditor.TextInput(LineEditor.AlwaysValid, round.passEvents);
    var id := LineEditor.TextInput(LineEditor.AlwaysValid, round.idEvents);
    && pass.Accepted? && id.Accepted?
    && (EapFieldsAre(GenerateConfig(c.args, derive), c.network.essid, id.input, pass.input)
        <==> NoNewlines([c.network.essid, id.input, pass.input]))
  }

  lemma EapCall(c: Call, round: Round, derive: Derive)
    requires FromRound(c, round, derive) && c.network.authSuite == WpaEap
    ensures EapCallHolds(c, round, derive)
  {
    hide EapFieldsAre, GenerateConfig;
    EapFields(c.network.essid, c.args[2], c.args[1], derive);
    var values := [c.network.essid, c.args[2], c.args[1]];
    assert NoNewlines(values) <==> '\n' !in values[0] && '\n' !in values[1] && '\n' !in values[2];
  }

  // The same for a passphrase, and for a network without encryption.
  predicate PskCallHolds(c: Call, round: Round, derive: Derive) {
    var pass := LineEditor.TextInput(LineEditor.AlwaysValid, round.passEvents);
    && pass.Accepted?
    && (GenerateConfig(c.args, derive).Ok? <==> 8 <= |pass.input| <= 63 && c.network.essid != "")
    && (GenerateConfig(c.args, derive).Ok? ==>
          (PskFieldsAre(GenerateConfig(c.args, derive), c.network.essid, pass.input,
                        derive(pass.input, c.network.essid))
           <==> NoNewlines([c.network.essid, pass.input, derive(pass.input, c.network.essid)])))
  }

  predicate OpenCallHolds(c: Call, derive: Derive) {
    OpenFieldsAre(GenerateConfig(c.args, derive), c.network.essid) <==> '\n' !in c.network.essid
  }

  lemma PskCall(c: Call, round: Round, derive: Derive)
    requires FromRound(c, round, derive) && c.network.authSuite == WpaPsk
    ensures PskCallHolds(c, round, derive)
  {
    hide PskFieldsAre, GenerateConfig, NoNewlines;
    PskFields(c.network.essid, c.args[1], derive);
  }

  lemma OpenCall(c: Call, round: Round, derive: Derive)
    requires FromRound(c, round, derive) && c.network.authSuite == NoEnc
    ensures OpenCallHolds(c, derive)
  {
    hide OpenFieldsAre, GenerateConfig;
    OpenFields(c.network.essid, derive);
  }

  // In every run, each call is for the network that was picked in its round,
  // with a configuration that says what was typed, as its security wants.
  lemma EveryCall(worker: Option<string>, rounds: seq<Round>, derive: Derive, k: nat)
    ensures var calls := SelectWith(worker, rounds, derive).calls;
            k < |calls| ==>
              var c := calls[k];
              && c.round < |rounds| && rounds[c.round].scan.Ok?
              && Prompt(rounds[c.round].scan.value, [], rounds[c.round].pickEvents) == Picked(c.network)
              && match c.network.authSuite
                 case NoEnc => OpenCallHolds(c, derive)
                 case WpaPsk => PskCallHolds(c, rounds[c.round], derive)
                 case WpaEap => EapCallHolds(c, rounds[c.round], derive)
                 case NotSupportedProto => false
  {
    hide SelectWith, EapCallHolds, PskCallHolds, OpenCallHolds, Prompt;
    SuccessIsConnect(worker, rounds, derive);
    var calls := SelectWith(worker, rounds, derive).calls;
    if k < |calls| {
      var c := calls[k];
      assert FromRound(c, rounds[c.round], derive);
      match c.network.authSuite
      case NoEnc => OpenCall(c, rounds[c.round], derive);
      case WpaPsk => PskCall(c, rounds[c.round], derive);
      case WpaEap => EapCall(c, rounds[c.round], derive);
      case NotSupportedProto =>
    }
  }

  lemma KnownNumber(a: seq<string>, derive: Derive)
    requires 1 <= |a| <= 3
    ensures GenerateConfig(a, derive) != Err(BAD_ARGS)
  {
    var r := GenerateConfig(a, derive);
    assert r.Err? ==> r.error[0] == 'e';
    assert BAD_ARGS[0] == 'g';
  }
}
