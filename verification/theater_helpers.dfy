/**
 * Helpers around the Theater backend: configuration validation and
 * defaults, the display table of setup phases, and extraction of text and
 * tool-use blocks from a parsed backend message.
 */
module TheaterHelpers {
  import opened JsString
  import opened Types

  /** An actor to start: its manifest path. */
  datatype ActorConfig = ActorConfig(manifestPath: string)

  /** The connection configuration; an absent field is `None`. */
  datatype TheaterConfig = TheaterConfig(server: Option<string>, actor: Option<ActorConfig>)

  const NoAddressError := "Either server address or actor manifest path is required"
  const ManifestExtensionError := "Actor manifest path should point to a .toml file"

  datatype Validation = Validation(valid: bool, errors: seq<string>)

  /** A server address is given (the empty string counts as absent). */
  predicate HasServer(c: TheaterConfig) {
    c.server.Some? && c.server.value != ""
  }

  /** A manifest path is given (the empty string counts as absent). */
  predicate HasManifest(c: TheaterConfig) {
    c.actor.Some? && c.actor.value.manifestPath != ""
  }

  /** `validateTheaterConfig`. */
  function ValidateTheaterConfig(c: TheaterConfig): (v: Validation)
    ensures v.valid <==> |v.errors| == 0
    ensures NoAddressError in v.errors <==> !HasServer(c) && !HasManifest(c)
    ensures ManifestExtensionError in v.errors <==> HasManifest(c) && !EndsWith(c.actor.value.manifestPath, ".toml")
    ensures |v.errors| <= 1
    ensures forall e :: e in v.errors ==> e == NoAddressError || e == ManifestExtensionError
  {
    var first := if !HasServer(c) && !HasManifest(c) then [NoAddressError] else [];
    var second := if HasManifest(c) && !EndsWith(c.actor.value.manifestPath, ".toml") then [ManifestExtensionError] else [];
    var errors := first + second;
    Validation(|errors| == 0, errors)
  }

  /** How a setup phase is shown. */
  datatype StatusInfo = StatusInfo(message: string, color: string, showSpinner: bool)

  /** `getSetupStatusInfo`: the spinner runs exactly while setup is in progress. */
  function SetupStatusInfo(status: SetupStatus): (info: StatusInfo)
    ensures info.showSpinner <==> status in {Connecting, OpeningChannel, LoadingActor}
    ensures info.color == "yellow" <==> info.showSpinner
    ensures status == Ready ==> info == StatusInfo("Chat ready!", "green", false)
    ensures status == Error ==> info == StatusInfo("Connection failed", "red", false)
    ensures status == Connecting ==> info.message == "Connecting to Theater..."
    ensures status == OpeningChannel ==> info.message == "Opening communication channel..."
    ensures status == LoadingActor ==> info.message == "Starting chat automation..."
  {
    match status
    case Connecting => StatusInfo("Connecting to Theater...", "yellow", true)
    case OpeningChannel => StatusInfo("Opening communication channel...", "yellow", true)
    case LoadingActor => StatusInfo("Starting chat automation...", "yellow", true)
    case Ready => StatusInfo("Chat ready!", "green", false)
    case Error => StatusInfo("Connection failed", "red", false)
  }

  /** The phases have distinct display messages. */
  lemma StatusMessagesDistinct(a: SetupStatus, b: SetupStatus)
    requires a != b
    ensures SetupStatusInfo(a).message != SetupStatusInfo(b).message
  {
  }

  const DefaultServer := "127.0.0.1:9000"

  /**
   * The fields an override object sets: `None` when the key is absent,
   * `Some(x)` when it is present with value `x` (which may itself be absent).
   */
  datatype ConfigOverrides = ConfigOverrides(server: Option<Option<string>>, actor: Option<Option<ActorConfig>>)

  const NoOverrides := ConfigOverrides(None, None)

  /** `createDefaultTheaterConfig`: the default server, then the overrides on top. */
  function CreateDefaultTheaterConfig(o: ConfigOverrides): (c: TheaterConfig)
    ensures o.server.None? ==> c.server == Some(DefaultServer)
    ensures o.server.Some? ==> c.server == o.server.value
    ensures o.actor.None? ==> c.actor.None?
    ensures o.actor.Some? ==> c.actor == o.actor.value
  {
    var base := TheaterConfig(Some(DefaultServer), None);
    var withServer := if o.server.Some? then base.(server := o.server.value) else base;
    if o.actor.Some? then withServer.(actor := o.actor.value) else withServer
  }

  /** The default configuration passes validation. */
  lemma DefaultConfigIsValid()
    ensures ValidateTheaterConfig(CreateDefaultTheaterConfig(NoOverrides)).valid
  {
  }

  /** A manifest path not ending in `.toml` is reported even when a server is given. */
  lemma BadManifestReported(server: Option<string>)
    ensures var v := ValidateTheaterConfig(TheaterConfig(server, Some(ActorConfig("actor.json"))));
      !v.valid && v.errors == [ManifestExtensionError]
  {
    assert !EndsWith("actor.json", ".toml") by {
      assert "actor.json"[5..] != ".toml";
    }
  }

  /*
   * Parsed backend messages. `JSON.parse` yields nulls, booleans, numbers,
   * strings, arrays and objects; numbers are integers here. A property that
   * is missing, or read through something that is not an object, is `None`
   * (JavaScript's `undefined`).
   */
  datatype Json = JNull | JBool(b: bool) | JNum(n: int) | JStr(s: string) | JArr(items: seq<Json>) | JObj(fields: map<string, Json>)

  /** `v?.key`. */
  function Get(v: Option<Json>, key: string): (r: Option<Json>)
    ensures r.Some? ==> v.Some? && v.value.JObj? && key in v.value.fields
  {
    if v.Some? && v.value.JObj? && key in v.value.fields then Some(v.value.fields[key]) else None
  }

  /** JavaScript truthiness; `undefined` is falsy. */
  predicate Truthy(v: Option<Json>) {
    match v
    case None => false
    case Some(JNull) => false
    case Some(JBool(b)) => b
    case Some(JNum(n)) => n != 0
    case Some(JStr(s)) => s != ""
    case Some(JArr(_)) => true
    case Some(JObj(_)) => true
  }

  /** `a || b`. */
  function Or(a: Option<Json>, b: Option<Json>): (r: Option<Json>)
    ensures Truthy(a) ==> r == a
    ensures !Truthy(a) ==> r == b
  {
    if Truthy(a) then a else b
  }

  function DigitsOf(n: nat): (s: string)
    ensures |s| > 0
    decreases n
  {
    var d := ['0' + (n % 10) as char];
    if n < 10 then d else DigitsOf(n / 10) + d
  }

  /** What `+=` appends for a value (string conversion). */
  function Stringify(v: Json): string {
    match v
    case JNull => "null"
    case JBool(b) => if b then "true" else "false"
    case JNum(n) => if n < 0 then "-" + DigitsOf(-n) else DigitsOf(n)
    case JStr(s) => s
    case JArr(_) => "[array]"
    case JObj(_) => "[object Object]"
  }

  /** A tool-use block: name defaults to `unknown`, input to `{}`. */
  datatype ToolBlock = ToolBlock(name: Json, input: Json)

  predicate IsTextBlock(block: Json) {
    Get(Some(block), "type") == Some(JStr("text")) && Truthy(Get(Some(block), "text"))
  }

  predicate IsToolUseBlock(block: Json) {
    Get(Some(block), "type") == Some(JStr("tool_use"))
  }

  function ToolBlockOf(block: Json): (t: ToolBlock)
    ensures Truthy(Get(Some(block), "name")) ==> t.name == Get(Some(block), "name").value
    ensures !Truthy(Get(Some(block), "name")) ==> t.name == JStr("unknown")
    ensures Truthy(Get(Some(block), "input")) ==> t.input == Get(Some(block), "input").value
    ensures !Truthy(Get(Some(block), "input")) ==> t.input == JObj(map[])
  {
    var name := Or(Get(Some(block), "name"), Some(JStr("unknown")));
    var input := Or(Get(Some(block), "input"), Some(JObj(map[])));
    ToolBlock(name.value, input.value)
  }

  /** The text of all text blocks, in order. */
  function TextOf(blocks: seq<Json>): string
    decreases |blocks|
  {
    if |blocks| == 0 then ""
    else
      var last := blocks[|blocks| - 1];
      TextOf(blocks[..|blocks| - 1]) + (if IsTextBlock(last) then Stringify(Get(Some(last), "text").value) else "")
  }

  /** The tool-use blocks, in order. */
  function ToolsOf(blocks: seq<Json>): (r: seq<ToolBlock>)
    ensures |r| <= |blocks|
    decreases |blocks|
  {
    if |blocks| == 0 then []
    else
      var last := blocks[|blocks| - 1];
      ToolsOf(blocks[..|blocks| - 1]) + (if !IsTextBlock(last) && IsToolUseBlock(last) then [ToolBlockOf(last)] else [])
  }

  datatype Extracted = Extracted(content: string, isUserMessage: bool, toolBlocks: seq<ToolBlock>)

  /** The entry of a parsed message (`parsed?.message?.entry`). */
  function Entry(parsed: Option<Json>): Option<Json> {
    Get(Get(parsed, "message"), "entry")
  }

  /** The message content, taken from `Message` when truthy, else from `Completion`. */
  function MessageContent(parsed: Option<Json>): (c: Option<Json>)
    ensures Truthy(Get(Get(Entry(parsed), "Message"), "content")) ==> c == Get(Get(Entry(parsed), "Message"), "content")
    ensures !Truthy(Get(Get(Entry(parsed), "Message"), "content")) ==> c == Get(Get(Entry(parsed), "Completion"), "content")
  {
    var entry := Entry(parsed);
    Or(Get(Get(entry, "Message"), "content"), Get(Get(entry, "Completion"), "content"))
  }

  /**
   * `extractMessageContent`: walks the content blocks once, appending text
   * blocks and collecting tool-use blocks, then trims the text.
   */
  method ExtractMessageContent(parsed: Option<Json>) returns (r: Extracted)
    ensures r.isUserMessage <==> Get(Get(Entry(parsed), "Message"), "role") == Some(JStr("user"))
    ensures var c := MessageContent(parsed);
      && (c.Some? && c.value.JArr? ==> r.content == Trim(TextOf(c.value.items)) && r.toolBlocks == ToolsOf(c.value.items))
      && (c.Some? && c.value.JStr? ==> r.content == Trim(c.value.s) && r.toolBlocks == [])
      && (!(c.Some? && (c.value.JArr? || c.value.JStr?)) ==> r.content == "" && r.toolBlocks == [])
  {
    var entry := Entry(parsed);
    var isUser := Get(Get(entry, "Message"), "role") == Some(JStr("user"));
    var messageContent := MessageContent(parsed);
    var content := "";
    var tools: seq<ToolBlock> := [];
    if messageContent.Some? && messageContent.value.JArr? {
      var blocks := messageContent.value.items;
      var i := 0;
      while i < |blocks|
        invariant 0 <= i <= |blocks|
        invariant content == TextOf(blocks[..i])
        invariant tools == ToolsOf(blocks[..i])
      {
        var block := blocks[i];
        assert blocks[..i + 1][..i] == blocks[..i];
        if IsTextBlock(block) {
          content := content + Stringify(Get(Some(block), "text").value);
        } else if IsToolUseBlock(block) {
          tools := tools + [ToolBlockOf(block)];
        }
        i := i + 1;
      }
      assert blocks[..i] == blocks;
    } else if messageContent.Some? && messageContent.value.JStr? {
      content := messageContent.value.s;
    }
    return Extracted(Trim(content), isUser, tools);
  }

  /** Text blocks contribute their text in order; the others contribute nothing. */
  lemma {:induction false} TextOfConcat(a: seq<Json>, b: seq<Json>)
    ensures TextOf(a + b) == TextOf(a) + TextOf(b)
    decreases |b|
  {
    if |b| == 0 {
      assert a + b == a;
    } else {
      var n := |b| - 1;
      assert (a + b)[..|a + b| - 1] == a + b[..n];
      TextOfConcat(a, b[..n]);
    }
  }

  /** A tool-use block among text blocks adds a tool and no text. */
  lemma ToolUseAddsNoText(blocks: seq<Json>, tool: Json)
    requires IsToolUseBlock(tool)
    ensures TextOf(blocks + [tool]) == TextOf(blocks)
    ensures ToolsOf(blocks + [tool]) == ToolsOf(blocks) + [ToolBlockOf(tool)]
  {
    assert (blocks + [tool])[..|blocks|] == blocks;
  }

  /** A tool-use block without name and input gets the defaults. */
  lemma ToolDefaults()
    ensures ToolBlockOf(JObj(map["type" := JStr("tool_use")])) == ToolBlock(JStr("unknown"), JObj(map[]))
  {
  }
}
