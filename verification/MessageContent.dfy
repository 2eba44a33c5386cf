// Chat message content: typed parts in, the same JSON out.

module MessageContent {
  import opened Domain
  import opened Json

  datatype ImageDetail = Auto | Low | High

  datatype AudioFormat = Wav | Mp3

  datatype Part =
    | TextPart(text: string)
    | ImageUrl(url: string, detail: Option<ImageDetail>)
    | InputAudio(data: string, format: AudioFormat)

  datatype Content = Text(text: string) | Parts(parts: seq<Part>)

  datatype ContentError = MalformedContent | MalformedPart | UnsupportedPartType

  // ---------- Parsing ----------

  predicate OnlyKeys(fields: map<string, Json>, allowed: set<string>) {
    fields.Keys <= allowed
  }

  function NonEmptyString(fields: map<string, Json>, key: string): Option<string> {
    var text := AsStr(Get(fields, key));
    if text.Some? && text.value != "" then text else None
  }

  function DetailOf(text: Option<string>): Option<ImageDetail> {
    if text == Some("auto") then Some(Auto)
    else if text == Some("low") then Some(Low)
    else if text == Some("high") then Some(High)
    else None
  }

  function FormatOf(text: Option<string>): Option<AudioFormat> {
    if text == Some("wav") then Some(Wav) else if text == Some("mp3") then Some(Mp3) else None
  }

  function ParseText(fields: map<string, Json>): Result<Part, ContentError> {
    if !OnlyKeys(fields, {"type", "text"}) then Err(MalformedPart)
    else
      var text := AsStr(Get(fields, "text"));
      if text.None? then Err(MalformedPart) else Ok(TextPart(text.value))
  }

  function ParseImage(fields: map<string, Json>): Result<Part, ContentError> {
    if !OnlyKeys(fields, {"type", "image_url"}) then Err(MalformedPart)
    else
      var image := Get(fields, "image_url");
      if image.None? || !image.value.JObject? then Err(MalformedPart)
      else if !OnlyKeys(image.value.fields, {"url", "detail"}) then Err(MalformedPart)
      else
        var url := NonEmptyString(image.value.fields, "url");
        var raw := Get(image.value.fields, "detail");
        var detail := DetailOf(AsStr(raw));
        if url.None? || (raw.Some? && detail.None?) then Err(MalformedPart) else Ok(ImageUrl(url.value, detail))
  }

  function ParseAudio(fields: map<string, Json>): Result<Part, ContentError> {
    if !OnlyKeys(fields, {"type", "input_audio"}) then Err(MalformedPart)
    else
      var audio := Get(fields, "input_audio");
      if audio.None? || !audio.value.JObject? then Err(MalformedPart)
      else if !OnlyKeys(audio.value.fields, {"data", "format"}) then Err(MalformedPart)
      else
        var data := NonEmptyString(audio.value.fields, "data");
        var format := FormatOf(AsStr(Get(audio.value.fields, "format")));
        if data.None? || format.None? then Err(MalformedPart) else Ok(InputAudio(data.value, format.value))
  }

  function ParsePart(value: Json): Result<Part, ContentError> {
    if !value.JObject? then Err(MalformedPart)
    else
      var kind := AsStr(Get(value.fields, "type"));
      if kind.None? then Err(MalformedPart)
      else if kind.value == "text" then ParseText(value.fields)
      else if kind.value == "image_url" then ParseImage(value.fields)
      else if kind.value == "input_audio" then ParseAudio(value.fields)
      else Err(UnsupportedPartType)
  }

  /** Every part, or the error of the first part that does not parse. */
  function ParseParts(values: seq<Json>): Result<seq<Part>, ContentError> {
    if values == [] then Ok([])
    else
      var head := ParsePart(values[0]);
      if head.Err? then Err(head.error)
      else
        var rest := ParseParts(values[1..]);
        if rest.Err? then rest else Ok([head.value] + rest.value)
  }

  function Parse(value: Json): Result<Content, ContentError> {
    match value
    case JString(text) => Ok(Text(text))
    case JArray(items) =>
      if items == [] then Err(MalformedContent)
      else
        var parts := ParseParts(items);
        if parts.Err? then Err(parts.error) else Ok(Parts(parts.value))
    case _ => Err(MalformedContent)
  }

  // ---------- Serializing ----------

  function DetailName(d: ImageDetail): string {
    match d case Auto => "auto" case Low => "low" case High => "high"
  }

  function FormatName(f: AudioFormat): string {
    match f case Wav => "wav" case Mp3 => "mp3"
  }

  function SerializePart(part: Part): Json {
    match part
    case TextPart(text) => JObject(map["type" := JString("text"), "text" := JString(text)])
    case ImageUrl(url, detail) =>
      var image := map["url" := JString(url)];
      var whole := if detail.None? then image else image["detail" := JString(DetailName(detail.value))];
      JObject(map["type" := JString("image_url"), "image_url" := JObject(whole)])
    case InputAudio(data, format) =>
      JObject(map["type" := JString("input_audio"),
                  "input_audio" := JObject(map["data" := JString(data), "format" := JString(FormatName(format))])])
  }

  function Serialize(content: Content): Json {
    match content
    case Text(text) => JString(text)
    case Parts(parts) => JArray(seq(|parts|, k requires 0 <= k < |parts| => SerializePart(parts[k])))
  }

  // ---------- Mutual inverses ----------

  predicate WellFormedPart(part: Part) {
    match part
    case TextPart(_) => true
    case ImageUrl(url, _) => url != ""
    case InputAudio(data, _) => data != ""
  }

  predicate WellFormed(content: Content) {
    content.Parts? ==> content.parts != [] && forall k :: 0 <= k < |content.parts| ==> WellFormedPart(content.parts[k])
  }

  lemma KeysDiffer()
    ensures "type" != "text" && "type"[1] != "text"[1]
    ensures "data" != "format" && "url" != "detail"
  {
  }

  lemma PartFromJson(value: Json)
    requires ParsePart(value).Ok?
    ensures WellFormedPart(ParsePart(value).value) && SerializePart(ParsePart(value).value) == value
  {
    KeysDiffer();
    var part := ParsePart(value).value;
    var again := SerializePart(part).fields;
    var fields := value.fields;
    if part.TextPart? {
      assert again == fields;
    } else if part.ImageUrl? {
      assert again["image_url"].fields == fields["image_url"].fields;
      assert again == fields;
    } else {
      assert again["input_audio"].fields == fields["input_audio"].fields;
      assert again == fields;
    }
  }

  lemma PartToJson(part: Part)
    requires WellFormedPart(part)
    ensures ParsePart(SerializePart(part)) == Ok(part)
  {
    KeysDiffer();
  }

  /** Parsing keeps every part in place, and fails exactly when some part fails, with the first failure's error. */
  lemma {:induction false} PartsPointwise(values: seq<Json>)
    ensures match ParseParts(values)
            case Ok(parts) =>
              |parts| == |values| && forall k :: 0 <= k < |values| ==> ParsePart(values[k]) == Ok(parts[k])
            case Err(e) => exists k :: 0 <= k < |values| && ParsePart(values[k]) == Err(e)
                                       && forall i :: 0 <= i < k ==> ParsePart(values[i]).Ok?
  {
    if values != [] && ParsePart(values[0]).Ok? {
      var rest := values[1..];
      PartsPointwise(rest);
      if ParseParts(rest).Err? {
        var e := ParseParts(rest).error;
        var k :| 0 <= k < |rest| && ParsePart(rest[k]) == Err(e) && forall i :: 0 <= i < k ==> ParsePart(rest[i]).Ok?;
        assert ParsePart(values[k + 1]) == Err(e);
        forall i | 0 <= i < k + 1
          ensures ParsePart(values[i]).Ok?
        {
          if i > 0 {
            assert values[i] == rest[i - 1];
          }
        }
      }
    }
  }

  /** Everything accepted is well-formed and serializes to the value it came from. */
  lemma ParseThenSerialize(value: Json)
    requires Parse(value).Ok?
    ensures WellFormed(Parse(value).value) && Serialize(Parse(value).value) == value
  {
    if value.JArray? {
      PartsPointwise(value.items);
      forall k | 0 <= k < |value.items|
        ensures WellFormedPart(Parse(value).value.parts[k])
        ensures SerializePart(Parse(value).value.parts[k]) == value.items[k]
      {
        PartFromJson(value.items[k]);
      }
      assert Serialize(Parse(value).value).items == value.items;
    }
  }

  /** Every well-formed content parses back to itself, and nothing else survives the trip. */
  lemma SerializeThenParseIff(content: Content)
    ensures Parse(Serialize(content)) == Ok(content) <==> WellFormed(content)
  {
    if Parse(Serialize(content)) == Ok(content) {
      ParseThenSerialize(Serialize(content));
    }
    if WellFormed(content) && content.Parts? {
      var items := Serialize(content).items;
      PartsPointwise(items);
      forall k | 0 <= k < |items|
        ensures ParsePart(items[k]) == Ok(content.parts[k])
      {
        PartToJson(content.parts[k]);
      }
      assert ParseParts(items).value == content.parts;
    }
  }

  /** The accepted values are exactly the serialized forms of well-formed content. */
  lemma AcceptedIff(value: Json)
    ensures Parse(value).Ok? <==> exists c :: WellFormed(c) && Serialize(c) == value
  {
    if Parse(value).Ok? {
      ParseThenSerialize(value);
    }
    if c :| WellFormed(c) && Serialize(c) == value {
      SerializeThenParseIff(c);
    }
  }

  // ---------- The wire format ----------

  /** The JSON of each kind of part. */
  lemma TextShape(text: string)
    ensures ParsePart(JObject(map["type" := JString("text"), "text" := JString(text)])) == Ok(TextPart(text))
  {
    KeysDiffer();
  }

  lemma ImageShape(url: string)
    requires url != ""
    ensures ParsePart(ImageJson(map["url" := JString(url)])) == Ok(ImageUrl(url, None))
    ensures ParsePart(DetailedJson(url, JString("auto"))) == Ok(ImageUrl(url, Some(Auto)))
    ensures ParsePart(DetailedJson(url, JString("low"))) == Ok(ImageUrl(url, Some(Low)))
    ensures ParsePart(DetailedJson(url, JString("high"))) == Ok(ImageUrl(url, Some(High)))
    ensures ParsePart(DetailedJson(url, JNull)) == Err(MalformedPart)
  {
    KeysDiffer();
    DetailShape(url, JString("auto"));
    DetailShape(url, JString("low"));
    DetailShape(url, JString("high"));
    DetailShape(url, JNull);
  }

  lemma DetailShape(url: string, detail: Json)
    requires url != ""
    ensures ParsePart(DetailedJson(url, detail)) ==
              var level := DetailOf(AsStr(Some(detail)));
              if level.None? then Err(MalformedPart) else Ok(ImageUrl(url, level))
  {
    KeysDiffer();
  }

  function DetailedJson(url: string, detail: Json): Json {
    ImageJson(map["url" := JString(url), "detail" := detail])
  }

  lemma AudioShape(data: string)
    requires data != ""
    ensures ParsePart(AudioJson(map["data" := JString(data), "format" := JString("wav")])) == Ok(InputAudio(data, Wav))
    ensures ParsePart(AudioJson(map["data" := JString(data), "format" := JString("mp3")])) == Ok(InputAudio(data, Mp3))
  {
    KeysDiffer();
  }

  function ImageJson(image: map<string, Json>): Json {
    JObject(map["type" := JString("image_url"), "image_url" := JObject(image)])
  }

  function AudioJson(audio: map<string, Json>): Json {
    JObject(map["type" := JString("input_audio"), "input_audio" := JObject(audio)])
  }

  /** Which error a bad part gives: another type is unsupported, whatever else is wrong with the part; everything else
      is malformed. */
  lemma PartErrors(value: Json)
    ensures ParsePart(value) == Err(UnsupportedPartType) <==>
              && value.JObject? && "type" in value.fields && value.fields["type"].JString?
              && value.fields["type"].text !in {"text", "image_url", "input_audio"}
    ensures ParsePart(value).Err? ==> ParsePart(value).error in {UnsupportedPartType, MalformedPart}
  {
  }

  /** A key that does not belong, in the part or inside it, makes the part malformed. */
  lemma ExtraKeysAreMalformed(fields: map<string, Json>, key: string)
    requires key in fields && key !in {"type", "text", "image_url", "input_audio"}
    requires "type" in fields && fields["type"].JString? && fields["type"].text in {"text", "image_url", "input_audio"}
    ensures ParsePart(JObject(fields)) == Err(MalformedPart)
  {
  }

  /** Content is text or a list of parts that is not empty. */
  lemma ContentShapes(value: Json)
    ensures value.JString? ==> Parse(value) == Ok(Text(value.text))
    ensures Parse(value) == Err(MalformedContent) <==> !value.JString? && !(value.JArray? && value.items != [])
  {
    if value.JArray? && value.items != [] {
      PartsPointwise(value.items);
      forall k | 0 <= k < |value.items|
        ensures ParsePart(value.items[k]) != Err(MalformedContent)
      {
        PartErrors(value.items[k]);
      }
    }
  }

  // ---------- A request, decoded and forwarded ----------

  datatype ChatMessage = ChatMessage(role: string, content: Content)

  datatype ChatRequest<F> = ChatRequest(
    model: string,
    messages: seq<ChatMessage>,
    stream: bool,
    temperature: Option<F>,
    maxTokens: Option<nat>
  )

  datatype RequestError = SchemaMismatch | UnsupportedContentPart | InvalidContentPart

  /** How the JSON library reads and prints numbers. */
  datatype Numbers<!F> = Numbers(
    asFloat: string -> Option<F>,
    asU32: string -> Option<nat>,
    printFloat: F -> string,
    printU32: nat -> string
  )

  /** A structure is read from an object, or from an array holding every field in order. */
  function StructFields(value: Json, names: seq<string>): Option<map<string, Json>> {
    match value
    case JObject(fields) => Some(fields)
    case JArray(items) => if |items| == |names| then Some(Positional(names, items)) else None
    case _ => None
  }

  function Positional(names: seq<string>, items: seq<Json>): map<string, Json>
    requires |names| == |items|
  {
    if names == [] then map[] else Positional(names[1..], items[1..])[names[0] := items[0]]
  }

  function MessageFields(value: Json): Option<(string, Json)> {
    var fields := StructFields(value, ["role", "content"]);
    if fields.None? then None
    else
      var role, content := AsStr(Get(fields.value, "role")), Get(fields.value, "content");
      if role.None? || content.None? then None else Some((role.value, content.value))
  }

  function WireMessages(values: seq<Json>): Option<seq<(string, Json)>> {
    if values == [] then Some([])
    else
      var head := MessageFields(values[0]);
      var rest := WireMessages(values[1..]);
      if head.None? || rest.None? then None else Some([head.value] + rest.value)
  }

  /** An optional number: absent and `null` both mean none; anything unreadable is an error. */
  function OptionalNumber<T>(fields: map<string, Json>, key: string, read: string -> Option<T>)
    : Result<Option<T>, RequestError>
  {
    match Get(fields, key)
    case None => Ok(None)
    case Some(value) =>
      match value
      case JNull => Ok(None)
      case JNumber(text) => if read(text).Some? then Ok(read(text)) else Err(SchemaMismatch)
      case _ => Err(SchemaMismatch)
  }

  function StreamFlag(fields: map<string, Json>): Result<bool, RequestError> {
    match Get(fields, "stream")
    case None => Ok(false)
    case Some(value) => if value.JBool? then Ok(value.value) else Err(SchemaMismatch)
  }

  function ContentErrorCode(e: ContentError): RequestError {
    if e.UnsupportedPartType? then UnsupportedContentPart else InvalidContentPart
  }

  function ParseMessages(wire: seq<(string, Json)>): Result<seq<ChatMessage>, RequestError> {
    if wire == [] then Ok([])
    else
      var content := Parse(wire[0].1);
      if content.Err? then Err(ContentErrorCode(content.error))
      else
        var rest := ParseMessages(wire[1..]);
        if rest.Err? then rest else Ok([ChatMessage(wire[0].0, content.value)] + rest.value)
  }

  /** The body as the schema reads it, contents not yet parsed. */
  datatype WireRequest<F> = WireRequest(
    model: string, messages: seq<(string, Json)>, stream: bool, temperature: Option<F>, maxTokens: Option<nat>)

  function FromValue<F>(n: Numbers<F>, value: Json): Option<WireRequest<F>> {
    var found := StructFields(value, RequestFields);
    if found.None? then None
    else
      var fields := found.value;
      var model, items := AsStr(Get(fields, "model")), Get(fields, "messages");
      if model.None? || items.None? || !items.value.JArray? then None
      else
        var wire, stream := WireMessages(items.value.items), StreamFlag(fields);
        var temperature := OptionalNumber(fields, "temperature", n.asFloat);
        var maxTokens := OptionalNumber(fields, "max_tokens", n.asU32);
        if wire.None? || stream.Err? || temperature.Err? || maxTokens.Err? then None
        else Some(WireRequest(model.value, wire.value, stream.value, temperature.value, maxTokens.value))
  }

  function DecodeRequest<F>(n: Numbers<F>, value: Json): Result<ChatRequest<F>, RequestError> {
    var wire := FromValue(n, value);
    if wire.None? then Err(SchemaMismatch)
    else
      var w := wire.value;
      var messages := ParseMessages(w.messages);
      if messages.Err? then Err(messages.error)
      else Ok(ChatRequest(w.model, messages.value, w.stream, w.temperature, w.maxTokens))
  }

  function EncodeMessage(m: ChatMessage): Json {
    JObject(map["role" := JString(m.role), "content" := Serialize(m.content)])
  }

  function EncodeChatCompletion<F>(n: Numbers<F>, request: ChatRequest<F>, upstreamModel: string): map<string, Json> {
    var messages := JArray(seq(|request.messages|,
        k requires 0 <= k < |request.messages| => EncodeMessage(request.messages[k])));
    var payload := map["model" := JString(upstreamModel), "messages" := messages, "stream" := JBool(request.stream)];
    var warm :=
      if request.temperature.Some? then payload["temperature" := JNumber(n.printFloat(request.temperature.value))]
      else payload;
    if request.maxTokens.Some? then warm["max_tokens" := JNumber(n.printU32(request.maxTokens.value))] else warm
  }

  lemma {:induction false} WireMessagesPointwise(values: seq<Json>)
    ensures WireMessages(values).Some? <==> forall k :: 0 <= k < |values| ==> MessageFields(values[k]).Some?
    ensures WireMessages(values).Some? ==>
              && |WireMessages(values).value| == |values|
              && forall k :: 0 <= k < |values| ==> MessageFields(values[k]) == Some(WireMessages(values).value[k])
  {
    if values != [] {
      WireMessagesPointwise(values[1..]);
      assert forall k :: 1 <= k < |values| ==> values[k] == values[1..][k - 1];
      assert forall k :: 0 <= k < |values[1..]| ==> values[1..][k] == values[k + 1];
    }
  }

  /** The messages, or the code of the first content that does not parse. */
  lemma {:induction false} MessagesPointwise(wire: seq<(string, Json)>)
    ensures match ParseMessages(wire)
            case Ok(messages) =>
              && |messages| == |wire|
              && forall k :: 0 <= k < |wire| ==>
                  Parse(wire[k].1).Ok? && messages[k] == ChatMessage(wire[k].0, Parse(wire[k].1).value)
            case Err(e) =>
              exists k :: 0 <= k < |wire|
                && Parse(wire[k].1).Err? && e == ContentErrorCode(Parse(wire[k].1).error)
                && forall i :: 0 <= i < k ==> Parse(wire[i].1).Ok?
  {
    if wire != [] && Parse(wire[0].1).Ok? {
      var rest := wire[1..];
      MessagesPointwise(rest);
      if ParseMessages(rest).Err? {
        var k :| 0 <= k < |rest| && Parse(rest[k].1).Err?
            && ParseMessages(rest).error == ContentErrorCode(Parse(rest[k].1).error)
                 && forall i :: 0 <= i < k ==> Parse(rest[i].1).Ok?;
        assert Parse(wire[k + 1].1).Err?;
        forall i | 0 <= i < k + 1
          ensures Parse(wire[i].1).Ok?
        {
          if i > 0 {
            assert wire[i] == rest[i - 1];
          }
        }
      }
    }
  }

  const RequestFields: seq<string> := ["model", "messages", "stream", "temperature", "max_tokens"]

  /** A structure is an object with any fields, or an array with as many items as it has fields, and nothing else. */
  lemma StructShapes(value: Json, names: seq<string>)
    ensures value.JObject? ==> StructFields(value, names) == Some(value.fields)
    ensures value.JArray? && |value.items| == |names| ==>
              StructFields(value, names) == Some(Positional(names, value.items))
    ensures StructFields(value, names).Some? <==> value.JObject? || (value.JArray? && |value.items| == |names|)
  {
  }

  /** A structure written as an array has its fields in order, every one of them. */
  lemma {:induction false} PositionalAt(names: seq<string>, items: seq<Json>)
    requires |names| == |items| && forall i, j :: 0 <= i < j < |names| ==> names[i] != names[j]
    ensures forall key :: key in Positional(names, items) <==> key in names
    ensures forall k :: 0 <= k < |names| ==>
              names[k] in Positional(names, items) && Positional(names, items)[names[k]] == items[k]
  {
    if names != [] {
      PositionalAt(names[1..], items[1..]);
      assert names == [names[0]] + names[1..];
      forall k | 0 <= k < |names|
        ensures names[k] in Positional(names, items) && Positional(names, items)[names[k]] == items[k]
      {
        assert k > 0 ==> names[k] == names[1..][k - 1] && items[k] == items[1..][k - 1];
      }
    }
  }

  ghost predicate IsMessage(value: Json) {
    var fields := StructFields(value, ["role", "content"]);
    && fields.Some? && "role" in fields.value && fields.value["role"].JString? && "content" in fields.value
  }

  ghost predicate IsNumberOrNone<T>(fields: map<string, Json>, key: string, read: string -> Option<T>) {
    key in fields && fields[key] != JNull ==> fields[key].JNumber? && read(fields[key].text).Some?
  }

  /** The schema of a chat completion request: a model, messages with a role and a content of any kind, and optionally a
      stream flag and two numbers, which may be null. */
  ghost predicate FitsSchema<F>(n: Numbers<F>, value: Json) {
    var found := StructFields(value, RequestFields);
    && found.Some?
    && var fields := found.value;
       && "model" in fields && fields["model"].JString?
       && "messages" in fields && fields["messages"].JArray?
       && (forall k :: 0 <= k < |fields["messages"].items| ==> IsMessage(fields["messages"].items[k]))
       && ("stream" in fields ==> fields["stream"].JBool?)
       && IsNumberOrNone(fields, "temperature", n.asFloat) && IsNumberOrNone(fields, "max_tokens", n.asU32)
  }

  lemma FromValueIff<F>(n: Numbers<F>, value: Json)
    ensures FromValue(n, value).Some? <==> FitsSchema(n, value)
    ensures FromValue(n, value).Some? ==>
              var items := StructFields(value, RequestFields).value["messages"].items;
              var wire := FromValue(n, value).value.messages;
              |wire| == |items| && forall k :: 0 <= k < |items| ==> MessageFields(items[k]) == Some(wire[k])
  {
    var found := StructFields(value, RequestFields);
    if found.Some? && "messages" in found.value && found.value["messages"].JArray? {
      var items := found.value["messages"].items;
      forall k | 0 <= k < |items|
        ensures IsMessage(items[k]) <==> MessageFields(items[k]).Some?
      {
      }
      WireMessagesPointwise(items);
    }
  }

  /** A request is a schema error exactly if it does not fit the schema. If it fits, it is accepted exactly if every
      content is the serialized form of well-formed content, and otherwise the first bad content gives the error. */
  lemma DecodeRequestIff<F>(n: Numbers<F>, value: Json)
    ensures DecodeRequest(n, value) == Err(SchemaMismatch) <==> !FitsSchema(n, value)
    ensures FitsSchema(n, value) ==>
              var items := StructFields(value, RequestFields).value["messages"].items;
              && (DecodeRequest(n, value).Ok? <==>
                    forall k :: 0 <= k < |items| ==>
                      exists c :: WellFormed(c) && Serialize(c) == MessageFields(items[k]).value.1)
              && (DecodeRequest(n, value).Err? ==>
                    exists k :: 0 <= k < |items| && FirstBadContent(items, k)
                      && DecodeRequest(n, value) == Err(CodeOf(Parse(MessageFields(items[k]).value.1))))
  {
    FromValueIff(n, value);
    if FitsSchema(n, value) {
      var items := StructFields(value, RequestFields).value["messages"].items;
      var wire := FromValue(n, value).value.messages;
      ContentsDecide(items, wire);
    }
  }

  /** An unsupported part has its own code; everything else is invalid content. */
  function CodeOf(parsed: Result<Content, ContentError>): RequestError {
    if parsed == Err(UnsupportedPartType) then UnsupportedContentPart else InvalidContentPart
  }

  /** Content `k` is the first that does not parse. */
  ghost predicate FirstBadContent(items: seq<Json>, k: nat)
    requires k < |items|
  {
    && (forall j :: 0 <= j <= k ==> MessageFields(items[j]).Some?)
    && Parse(MessageFields(items[k]).value.1).Err?
    && forall j :: 0 <= j < k ==> Parse(MessageFields(items[j]).value.1).Ok?
  }

  lemma ContentsDecide(items: seq<Json>, wire: seq<(string, Json)>)
    requires |wire| == |items| && forall k :: 0 <= k < |items| ==> MessageFields(items[k]) == Some(wire[k])
    ensures ParseMessages(wire).Ok? <==>
              forall k :: 0 <= k < |items| ==>
                exists c :: WellFormed(c) && Serialize(c) == MessageFields(items[k]).value.1
    ensures ParseMessages(wire).Err? ==>
              exists k :: 0 <= k < |items| && FirstBadContent(items, k)
                && ParseMessages(wire) == Err(CodeOf(Parse(MessageFields(items[k]).value.1)))
  {
    MessagesPointwise(wire);
    forall k | 0 <= k < |wire|
      ensures Parse(wire[k].1).Ok? <==> exists c :: WellFormed(c) && Serialize(c) == wire[k].1
    {
      AcceptedIff(wire[k].1);
    }
    if ParseMessages(wire).Err? {
      var k :| 0 <= k < |wire| && Parse(wire[k].1).Err?
               && ParseMessages(wire).error == ContentErrorCode(Parse(wire[k].1).error)
               && forall i :: 0 <= i < k ==> Parse(wire[i].1).Ok?;
      assert FirstBadContent(items, k);
    }
  }

  /** The object with exactly a role and a content. */
  function AsMessage(m: (string, Json)): Json {
    JObject(map["role" := JString(m.0), "content" := m.1])
  }

  /** What the upstream receives for an accepted request: the same messages in order, each with exactly its role
      and its content JSON. */
  lemma ForwardingKeepsMessages<F>(n: Numbers<F>, value: Json, upstreamModel: string)
    requires DecodeRequest(n, value).Ok?
    ensures
      var items := StructFields(value, RequestFields).value["messages"].items;
      var sent := EncodeChatCompletion(n, DecodeRequest(n, value).value, upstreamModel)["messages"];
      && sent.JArray? && |sent.items| == |items|
      && forall k :: 0 <= k < |items| ==>
           && MessageFields(items[k]).Some?
           && sent.items[k] == AsMessage(MessageFields(items[k]).value)
  {
    var items := StructFields(value, RequestFields).value["messages"].items;
    WireMessagesPointwise(items);
    var wire := WireMessages(items).value;
    MessagesPointwise(wire);
    var messages := ParseMessages(wire).value;
    forall k | 0 <= k < |items|
      ensures EncodeMessage(messages[k]) ==
              AsMessage(MessageFields(items[k]).value)
    {
      ParseThenSerialize(wire[k].1);
    }
  }

  /** `x` as the library prints it after reading it, when the client gave a number at all. */
  function Reprinted<T>(fields: map<string, Json>, key: string, read: string -> Option<T>, write: T -> string)
    : Option<Json>
  {
    match Get(fields, key)
    case Some(JNumber(text)) => if read(text).Some? then Some(JNumber(write(read(text).value))) else None
    case _ => None
  }

  /** The upstream model name replaces the logical one, the stream flag is kept, the numbers are sent exactly when
      the client gave them, and nothing else is sent. */
  lemma ForwardingKeepsSettings<F>(n: Numbers<F>, value: Json, upstreamModel: string)
    requires DecodeRequest(n, value).Ok?
    ensures
      var fields := StructFields(value, RequestFields).value;
      var sent := EncodeChatCompletion(n, DecodeRequest(n, value).value, upstreamModel);
      && sent.Keys <= {"model", "messages", "stream", "temperature", "max_tokens"}
      && Get(sent, "model") == Some(JString(upstreamModel))
      && Get(sent, "stream") == Some(if "stream" in fields then fields["stream"] else JBool(false))
      && Get(sent, "temperature") == Reprinted(fields, "temperature", n.asFloat, n.printFloat)
      && Get(sent, "max_tokens") == Reprinted(fields, "max_tokens", n.asU32, n.printU32)
  {
    assert "model"[0] != "stream"[0] && "messages"[1] != "max_tokens"[1];
    var fields := StructFields(value, RequestFields).value;
    assert OptionalNumber(fields, "temperature", n.asFloat).Ok? && OptionalNumber(fields, "max_tokens", n.asU32).Ok?;
  }
}
