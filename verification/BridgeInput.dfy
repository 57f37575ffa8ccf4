/** Turning a broker message into a job request: what is accepted, and which fields never get through. */
module BridgeInput {
  import opened Jobs

  datatype Json = Null | Bool(b: bool) | Num(x: real) | Str(s: string) | Arr(items: seq<Json>) | Obj(fields: map<string, Json>)

  type Fields = map<string, Json>

  /** Python's truth value. */
  predicate Truthy(j: Json) {
    match j
    case Null => false
    case Bool(b) => b
    case Num(x) => x != 0.0
    case Str(s) => s != ""
    case Arr(items) => items != []
    case Obj(fields) => fields != map[]
  }

  lemma FalsyAre(j: Json)
    ensures !Truthy(j) <==> j in {Null, Bool(false), Num(0.0), Str(""), Arr([]), Obj(map[])}
  {
  }

  /** `d.get(key)`. */
  function Get(d: Fields, key: string): Json {
    if key in d then d[key] else Null
  }

  function Without(d: Fields, key: string): Fields {
    map k | k in d && k != key :: d[k]
  }

  /** The fields of a job request. */
  const REQUEST_FIELDS: set<string> := {
    "kind", "prompt", "messages", "model", "system_prompt", "num_ctx", "options", "tags", "priority", "timeout_seconds",
    "max_retries", "retry_policy", "metadata", "parent_job_id", "run_at", "idempotency_key", "depends_on", "batch_id",
    "temperature", "top_p", "top_k", "repeat_penalty", "seed", "stop", "num_predict", "format", "keep_alive",
    "callback_key", "callback_url", "backend", "workdir", "cli_args", "label", "label_group", "label_sequence"}

  const RESERVED: set<string> := {
    "kind", "prompt", "messages", "model", "tags", "metadata", "correlation_id", "reply_to", "idempotency_key"}

  /** A broker entry: its body (nothing if it is not JSON), and what the broker says itself. */
  datatype Entry = Entry(body: Option<Json>, key: Option<string>, replyTo: Option<string>)

  datatype BridgeRequest = BridgeRequest(
    kind: Json, prompt: Json, messages: Json, model: string, tags: seq<Json>, metadata: Fields, extra: Fields)

  datatype ParsedInput = ParsedInput(request: BridgeRequest, correlation: string, replyTo: Option<string>)

  /** `_validate_request_extra`: coerces the values of the fields, or rejects the message. */
  type Validator = Fields -> Option<Fields>

  /** A validator neither adds nor drops a field, and leaves `options` alone. */
  ghost predicate KeepsFields(validate: Validator) {
    forall extra :: validate(extra).Some? ==>
      validate(extra).value.Keys == extra.Keys && Get(validate(extra).value, "options") == Get(extra, "options")
  }

  /** The body's correlation id if it is a non-empty string, or else the broker's; `None` if there is neither. */
  function Correlation(data: Fields, key: Option<string>): Option<string> {
    var own := Get(data, "correlation_id");
    if own.Str? && own.s != "" then Some(own.s)
    else if key.Some? && key.value != "" then key
    else None
  }

  /** `data.get(key) or {}`; `None` if what is there is no object. */
  function ObjectAt(data: Fields, key: string): Option<Fields> {
    var j := Get(data, key);
    if !Truthy(j) then Some(map[]) else if j.Obj? then Some(j.fields) else None
  }

  function ListAt(data: Fields, key: string): Option<seq<Json>> {
    var j := Get(data, key);
    if !Truthy(j) then Some([]) else if j.Arr? then Some(j.items) else None
  }

  /** The request fields given at the top level or among the options, the top level winning. */
  function Extra(data: Fields, options: Fields): Fields {
    var merged := options + data;
    var picked := map k | k in merged && k in REQUEST_FIELDS && k !in RESERVED && k != "cli_args" && k != "workdir" :: merged[k];
    picked["options" := if options == map[] then Null else Obj(options)]
  }

  function Routing(correlation: string, replyTo: Option<string>): Json {
    Obj(map["correlation_id" := Str(correlation), "reply_to" := if replyTo.Some? then Str(replyTo.value) else Null])
  }

  /** A string that is not empty. */
  predicate HasText(data: Fields, key: string) {
    key in data && data[key].Str? && data[key].s != ""
  }

  /**
   * `None` is an `InvalidMessageError`. The body is authoritative: a non-empty string under "correlation_id" is the
   * id whatever the broker's key, and a reply target in it wins over the broker's. With no id in the body it is the
   * broker's non-empty key, and without that the message is refused.
   */
  function ParseInputMessage(e: Entry, validate: Validator): (r: Option<ParsedInput>)
    ensures r.Some? ==> e.body.Some? && e.body.value.Obj?
    ensures r.Some? && HasText(e.body.value.fields, "correlation_id") ==>
              r.value.correlation == e.body.value.fields["correlation_id"].s
    ensures r.Some? && !HasText(e.body.value.fields, "correlation_id") ==>
              e.key.Some? && e.key.value != "" && r.value.correlation == e.key.value
    ensures r.Some? && "reply_to" in e.body.value.fields && !e.body.value.fields["reply_to"].Null? ==>
              r.value.replyTo.Some? && e.body.value.fields["reply_to"] == Str(r.value.replyTo.value)
    ensures r.Some? && ("reply_to" !in e.body.value.fields || e.body.value.fields["reply_to"].Null?) ==>
              r.value.replyTo == e.replyTo
  {
    if e.body.None? || !e.body.value.Obj? then None
    else
      var data := e.body.value.fields;
      var correlation := Correlation(data, e.key);
      var model, prompt, messages, reply := Get(data, "model"), Get(data, "prompt"), Get(data, "messages"), Get(data, "reply_to");
      var metadata, options, tags := ObjectAt(data, "metadata"), ObjectAt(data, "options"), ListAt(data, "tags");
      if correlation.None? || !model.Str? || model.s == "" then None
      else if prompt.Null? && !Truthy(messages) then None
      else if !(reply.Null? || reply.Str?) || metadata.None? || options.None? then None
      else
        var extra := validate(Extra(data, Without(options.value, "base_url")));
        if extra.None? || tags.None? then None
        else
          var replyTo := if reply.Str? then Some(reply.s) else e.replyTo;
          var meta := Without(metadata.value, "base_url")["_kafka" := Routing(correlation.value, replyTo)];
          var kind := if "kind" in data then data["kind"] else Str("generate");
          Some(ParsedInput(BridgeRequest(kind, prompt, messages, model.s, tags.value, meta, extra.value), correlation.value, replyTo))
  }

  /** A missing, null, empty or zero field counts as absent; any other must be an object. */
  predicate ObjectOrNothing(data: Fields, key: string) {
    key in data && Truthy(data[key]) ==> data[key].Obj?
  }

  /** What a message needs before the validator looks at the values of its other fields. */
  predicate WellFormed(data: Fields, key: Option<string>) {
    && (HasText(data, "correlation_id") || (key.Some? && key.value != ""))
    && HasText(data, "model")
    && (("prompt" in data && !data["prompt"].Null?) || ("messages" in data && Truthy(data["messages"])))
    && ("reply_to" in data ==> data["reply_to"].Null? || data["reply_to"].Str?)
    && ObjectOrNothing(data, "metadata") && ObjectOrNothing(data, "options")
    && ("tags" in data && Truthy(data["tags"]) ==> data["tags"].Arr?)
  }

  /** The options as the request gets them. */
  function OptionsOf(data: Fields): Fields {
    if "options" in data && data["options"].Obj? then data["options"].fields - {"base_url"} else map[]
  }

  lemma OptionsAre(data: Fields)
    requires ObjectOrNothing(data, "options")
    ensures ObjectAt(data, "options").Some? && Without(ObjectAt(data, "options").value, "base_url") == OptionsOf(data)
  {
  }

  /** A message is accepted exactly when it is well-formed and the validator takes its fields. */
  lemma AcceptedIff(e: Entry, validate: Validator)
    ensures ParseInputMessage(e, validate).Some? <==>
            && e.body.Some? && e.body.value.Obj? && WellFormed(e.body.value.fields, e.key)
            && validate(Extra(e.body.value.fields, OptionsOf(e.body.value.fields))).Some?
  {
    if e.body.Some? && e.body.value.Obj? && ObjectOrNothing(e.body.value.fields, "options") {
      OptionsAre(e.body.value.fields);
    }
  }

  lemma OptionsThrough(e: Entry, validate: Validator)
    requires ParseInputMessage(e, validate).Some? && KeepsFields(validate)
    ensures var data, extra := e.body.value.fields, ParseInputMessage(e, validate).value.request.extra;
            "options" in extra && extra["options"] == if OptionsOf(data) == map[] then Null else Obj(OptionsOf(data))
  {
    var data := e.body.value.fields;
    OptionsAre(data);
    var extra := Extra(data, OptionsOf(data));
    assert "options" in extra && validate(extra).value.Keys == extra.Keys;
    assert Get(validate(extra).value, "options") == Get(extra, "options");
  }

  /** What an accepted message says goes through. */
  lemma FieldsGoThrough(e: Entry, validate: Validator)
    requires ParseInputMessage(e, validate).Some?
    ensures var data, request := e.body.value.fields, ParseInputMessage(e, validate).value.request;
      && "model" in data && data["model"] == Str(request.model)
      && request.prompt == (if "prompt" in data then data["prompt"] else Null)
      && request.messages == (if "messages" in data then data["messages"] else Null)
      && request.kind == (if "kind" in data then data["kind"] else Str("generate"))
      && ("tags" in data && Truthy(data["tags"]) ==> data["tags"] == Arr(request.tags))
      && ("metadata" in data && data["metadata"].Obj? ==>
            forall k | k in data["metadata"].fields && k != "base_url" && k != "_kafka" ::
              k in request.metadata && request.metadata[k] == data["metadata"].fields[k])
      && (KeepsFields(validate) ==>
            "options" in request.extra && request.extra["options"] == if OptionsOf(data) == map[] then Null else Obj(OptionsOf(data)))
  {
    if KeepsFields(validate) { OptionsThrough(e, validate); }
    var data := e.body.value.fields;
    assert "metadata" in data && data["metadata"].Obj? ==> ObjectAt(data, "metadata") == Some(data["metadata"].fields);
  }

  /**
   * However a message is written, the request it makes carries no client idempotency key, no command line or
   * working directory, and no endpoint; and its routing is the bridge's own, not the sender's.
   */
  lemma ReservedFieldsStayOut(e: Entry, validate: Validator)
    requires KeepsFields(validate) && ParseInputMessage(e, validate).Some?
    ensures var p := ParseInputMessage(e, validate).value;
      && p.correlation != "" && p.request.model != ""
      && p.request.extra.Keys <= REQUEST_FIELDS - RESERVED
      && {"idempotency_key", "cli_args", "workdir", "base_url"} !! p.request.extra.Keys
      && "base_url" !in p.request.metadata
      && (Get(p.request.extra, "options").Obj? ==> "base_url" !in Get(p.request.extra, "options").fields)
      && "_kafka" in p.request.metadata
      && p.request.metadata["_kafka"] ==
           Obj(map["correlation_id" := Str(p.correlation), "reply_to" := if p.replyTo.Some? then Str(p.replyTo.value) else Null])
  {
    var data := e.body.value.fields;
    var options := Without(ObjectAt(data, "options").value, "base_url");
    ExtraIsClean(data, options);
    assert validate(Extra(data, options)).value.Keys == Extra(data, options).Keys;
  }

  lemma ExtraIsClean(data: Fields, options: Fields)
    requires "base_url" !in options
    ensures Extra(data, options).Keys <= REQUEST_FIELDS - RESERVED
    ensures {"idempotency_key", "cli_args", "workdir", "base_url"} !! Extra(data, options).Keys
    ensures Get(Extra(data, options), "options").Obj? ==> "base_url" !in Get(Extra(data, options), "options").fields
  {
    assert "base_url" !in REQUEST_FIELDS && "idempotency_key" in RESERVED;
  }

  /** A field given at the top level is taken from there, null included; one given only as an option is taken from there. */
  lemma TopLevelWins(data: Fields, options: Fields, field: string)
    requires field in REQUEST_FIELDS - RESERVED - {"cli_args", "workdir", "options"}
    ensures field in data ==> Get(Extra(data, options), field) == data[field]
    ensures field !in data && field in options ==> Get(Extra(data, options), field) == options[field]
    ensures field !in data && field !in options ==> field !in Extra(data, options)
  {
  }

  // What the store keeps of it.

  function TextOf(d: Fields, key: string): string {
    if Get(d, key).Str? then Get(d, key).s else ""
  }

  function TextOption(d: Fields, key: string): Option<string> {
    if Get(d, key).Str? then Some(Get(d, key).s) else None
  }

  function Strings(items: seq<Json>): seq<string> {
    if items == [] then [] else if items[0].Str? then [items[0].s] + Strings(items[1..]) else Strings(items[1..])
  }

  function TextsOf(d: Fields, key: string): seq<string> {
    if Get(d, key).Arr? then Strings(Get(d, key).items) else []
  }

  function NestedText(metadata: Fields, key: string, field: string): Option<string> {
    if Get(metadata, key).Obj? then TextOption(Get(metadata, key).fields, field) else None
  }

  function StoredRequest(r: BridgeRequest): Request {
    Request(TextsOf(r.extra, "depends_on"), TextOf(r.extra, "label"), TextOf(r.extra, "label_group"),
            TextsOf(r.extra, "label_sequence"), TextOption(r.extra, "idempotency_key"),
            NestedText(r.metadata, "_kafka", "correlation_id"))
  }

  /** A message as the consumer acts on it. */
  datatype Job = Job(request: Request, runAt: Option<string>, correlation: string)

  function Understood(e: Entry, validate: Validator): Option<Job> {
    var p := ParseInputMessage(e, validate);
    if p.None? then None
    else Some(Job(StoredRequest(p.value.request), TextOption(p.value.request.extra, "run_at"), p.value.correlation))
  }

  /** What scheduling reads of a request is what the request says. */
  lemma StoredAsSaid(r: BridgeRequest)
    ensures var stored := StoredRequest(r);
      && (forall s :: "label" in r.extra && r.extra["label"] == Str(s) ==> stored.jobLabel == s)
      && (forall s :: "label_group" in r.extra && r.extra["label_group"] == Str(s) ==> stored.labelGroup == s)
      && ("label" !in r.extra ==> stored.jobLabel == "") && ("label_group" !in r.extra ==> stored.labelGroup == "")
      && ("depends_on" !in r.extra ==> stored.dependsOn == []) && ("label_sequence" !in r.extra ==> stored.labelSequence == [])
      && (forall items :: "depends_on" in r.extra && r.extra["depends_on"] == Arr(items) && AllTexts(items) ==> Listed(stored.dependsOn, items))
      && (forall items :: "label_sequence" in r.extra && r.extra["label_sequence"] == Arr(items) && AllTexts(items) ==> Listed(stored.labelSequence, items))
  {
    forall items: seq<Json> | AllTexts(items) ensures Listed(Strings(items), items) { StringsAre(items); }
  }

  predicate AllTexts(items: seq<Json>) {
    forall i | 0 <= i < |items| :: items[i].Str?
  }

  predicate Listed(texts: seq<string>, items: seq<Json>) {
    |texts| == |items| && forall i | 0 <= i < |items| :: items[i] == Str(texts[i])
  }

  lemma {:induction false} StringsAre(items: seq<Json>)
    requires AllTexts(items)
    ensures Listed(Strings(items), items)
  {
    if items != [] {
      StringsAre(items[1..]);
      assert items[1..] == seq(|items| - 1, i requires 0 <= i < |items| - 1 => items[i + 1]);
    }
  }

  /** The date a message asks for is the one the job gets. */
  lemma UnderstoodDate(e: Entry, validate: Validator)
    requires Understood(e, validate).Some?
    ensures ParseInputMessage(e, validate).Some?
    ensures var extra, job := ParseInputMessage(e, validate).value.request.extra, Understood(e, validate).value;
      && job.correlation == ParseInputMessage(e, validate).value.correlation
      && (forall s :: "run_at" in extra && extra["run_at"] == Str(s) ==> job.runAt == Some(s))
      && ("run_at" !in extra ==> job.runAt == None)
  {
  }

  /** How entries are understood: the request is routed by the message's own correlation, and has no client key. */
  ghost predicate Routed(read: Entry -> Option<Job>) {
    forall e :: read(e).Some? ==>
      read(e).value.request.bridgeCorrelation == Some(read(e).value.correlation) && read(e).value.request.idempotencyKey.None?
  }

  function Reader(validate: Validator): Entry -> Option<Job> {
    (e: Entry) => Understood(e, validate)
  }

  lemma ParserRoutes(validate: Validator)
    requires KeepsFields(validate)
    ensures Routed(Reader(validate))
  {
    forall e: Entry | Reader(validate)(e).Some?
      ensures var job := Reader(validate)(e).value;
              job.request.bridgeCorrelation == Some(job.correlation) && job.request.idempotencyKey.None?
    {
      ReservedFieldsStayOut(e, validate);
      var p := ParseInputMessage(e, validate).value;
      assert Get(p.request.metadata, "_kafka") == Routing(p.correlation, p.replyTo);
      assert TextOption(Routing(p.correlation, p.replyTo).fields, "correlation_id") == Some(p.correlation);
    }
  }
}
