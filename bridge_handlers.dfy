/** The per-method handlers of mcp-bridge/bridge.py (`handle_initialize`, `handle_tools_list`,
    `handle_tools_call`, `handle_resources_list`, `handle_resources_read`,
    `handle_prompts_list`, `handle_prompts_get`). They call one flat endpoint of
    the upstream server and reshape its answer into the shape MCP clients
    expect. None of them is reachable from the bridge's routes.

    `fetch(endpoint, body)` stands for `fastmcp_request(endpoint, "POST", body)`:
    the decoded JSON answer (a plain-text answer is a `JStr`), or `Err(str(e))`
    when the call raised. `show` stands for Python's `str()` on a decoded value. */
module BridgeHandlers {
  import opened Wrappers
  import opened JsonValue

  type Fetch = (string, Json) -> Result<Json, string>

  function EmptyObject(): Json {
    JObj(map[])
  }

  /** The schema a tool gets when it declares none. */
  function EmptyObjectSchema(): (r: Json)
    ensures Truthy(r)
    ensures r.JObj? && r.fields.Keys == {"type", "properties", "required"}
    ensures r.fields["type"] == JStr("object") && r.fields["properties"] == JObj(map[])
      && r.fields["required"] == JArr([])
  {
    var fields := map["type" := JStr("object"), "properties" := EmptyObject(), "required" := JArr([])];
    var none: map<string, Json> := map[];
    assert "type" in fields && "type" !in none;
    JObj(fields)
  }

  /** `{"type": "text", "text": text}`. */
  function TextPart(text: string): Json {
    JObj(map["type" := JStr("text"), "text" := JStr(text)])
  }

  /** `handle_initialize`: the server info comes from the answer to `GET /info`
      (`info`) when that is a dict, with the bridge's defaults for missing keys;
      when the call raised or answered anything else, the defaults are used. */
  function HandleInitialize(info: Result<Json, string>): (r: Json)
    ensures r.JObj? && r.fields.Keys == {"protocolVersion", "capabilities", "serverInfo"}
    ensures r.fields["protocolVersion"] == JStr("2024-11-05")
    ensures var caps := r.fields["capabilities"];
      && caps.JObj? && caps.fields.Keys == {"tools", "resources", "prompts"}
      && caps.fields["tools"] == JObj(map[]) && caps.fields["resources"] == JObj(map[])
      && caps.fields["prompts"] == JObj(map[])
    ensures var server := r.fields["serverInfo"];
      && server.JObj? && server.fields.Keys == {"name", "version"}
      && (info.Ok? && info.value.JObj? ==>
            && server.fields["name"] == Get(info.value.fields, "name", JStr("FastMCP Bridge"))
            && server.fields["version"] == Get(info.value.fields, "version", JStr("1.0.0")))
      && (!(info.Ok? && info.value.JObj?) ==>
            server.fields["name"] == JStr("FastMCP Bridge") && server.fields["version"] == JStr("1.0.0"))
  {
    var name := if info.Ok? && info.value.JObj? then Get(info.value.fields, "name", JStr("FastMCP Bridge"))
                else JStr("FastMCP Bridge");
    var version := if info.Ok? && info.value.JObj? then Get(info.value.fields, "version", JStr("1.0.0"))
                   else JStr("1.0.0");
    JObj(map[
      "protocolVersion" := JStr("2024-11-05"),
      "capabilities" := JObj(map["tools" := EmptyObject(), "resources" := EmptyObject(), "prompts" := EmptyObject()]),
      "serverInfo" := JObj(map["name" := name, "version" := version])])
  }

  /** The entries `handle_tools_list` iterates over. A `tools` value that is not a
      list yields no dict when iterated (a dict yields its keys, a string its
      characters) or makes the iteration raise, which the handler answers with an
      empty list; either way no tool is produced, as here. */
  function ToolEntries(result: Json): seq<Json> {
    if HasKey(result, "tools") then
      match result.fields["tools"]
      case JArr(items) => items
      case _ => []
    else if result.JArr? then result.items
    else []
  }

  /** One tool in MCP shape. `name` and `description` default only when the key is
      missing; `inputSchema` falls back to `parameters` and then to the empty
      object schema whenever the earlier value is falsy. */
  function McpTool(tool: map<string, Json>): (r: Json)
    ensures r.JObj? && r.fields.Keys == {"name", "description", "inputSchema"}
    ensures r.fields["name"] == Get(tool, "name", JStr("unknown"))
    ensures r.fields["description"] == Get(tool, "description", JStr(""))
    ensures Truthy(r.fields["inputSchema"])
    ensures Truthy(Get(tool, "inputSchema", JNull)) ==> r.fields["inputSchema"] == tool["inputSchema"]
    ensures !Truthy(Get(tool, "inputSchema", JNull)) && Truthy(Get(tool, "parameters", JNull)) ==>
      r.fields["inputSchema"] == tool["parameters"]
    ensures !Truthy(Get(tool, "inputSchema", JNull)) && !Truthy(Get(tool, "parameters", JNull)) ==>
      r.fields["inputSchema"] == EmptyObjectSchema()
  {
    var schema := Get(tool, "inputSchema", JNull);
    var parameters := Get(tool, "parameters", JNull);
    JObj(map[
      "name" := Get(tool, "name", JStr("unknown")),
      "description" := Get(tool, "description", JStr("")),
      "inputSchema" := if Truthy(schema) then schema
                       else if Truthy(parameters) then parameters
                       else EmptyObjectSchema()])
  }

  /** The tools `handle_tools_list` builds from `entries`: one per dict entry, in
      order; every other entry is dropped. */
  function McpTools(entries: seq<Json>): seq<Json> {
    if entries == [] then []
    else
      var last := entries[|entries| - 1];
      McpTools(entries[..|entries| - 1]) + (if last.JObj? then [McpTool(last.fields)] else [])
  }

  /** How many entries are dicts. */
  function CountObjects(entries: seq<Json>): nat {
    if entries == [] then 0
    else CountObjects(entries[..|entries| - 1]) + (if entries[|entries| - 1].JObj? then 1 else 0)
  }

  /** The output has one tool per dict entry, so it is never longer than the
      input, and each output element is the MCP form of some dict entry. */
  lemma {:induction false} McpToolsShape(entries: seq<Json>)
    ensures |McpTools(entries)| == CountObjects(entries) <= |entries|
    ensures forall t :: t in McpTools(entries) ==>
      exists e :: e in entries && e.JObj? && t == McpTool(e.fields)
  {
    if entries != [] {
      var init := entries[..|entries| - 1];
      McpToolsShape(init);
      forall t | t in McpTools(entries)
        ensures exists e :: e in entries && e.JObj? && t == McpTool(e.fields)
      {
        if t in McpTools(init) {
          var e :| e in init && e.JObj? && t == McpTool(e.fields);
          assert e in entries;
        } else {
          assert entries[|entries| - 1] in entries;
        }
      }
    }
  }

  /** Every dict entry shows up in the output, and the output of a concatenation
      is the concatenation of the outputs: the input order is kept. */
  lemma McpToolsKeeps(a: seq<Json>, b: seq<Json>)
    ensures McpTools(a + b) == McpTools(a) + McpTools(b)
    ensures forall e :: e in a && e.JObj? ==> McpTool(e.fields) in McpTools(a)
  {
    McpToolsAppend(a, b);
    McpToolsMembers(a);
  }

  /** Normalising a concatenation normalises each part. */
  lemma {:induction false} McpToolsAppend(a: seq<Json>, b: seq<Json>)
    ensures McpTools(a + b) == McpTools(a) + McpTools(b)
    decreases |b|
  {
    if b == [] {
      assert a + b == a;
    } else {
      var init := b[..|b| - 1];
      assert (a + b)[..|a + b| - 1] == a + init;
      assert (a + b)[|a + b| - 1] == b[|b| - 1];
      McpToolsAppend(a, init);
    }
  }

  /** Every dict entry has its MCP form in the output. */
  lemma {:induction false} McpToolsMembers(a: seq<Json>)
    ensures forall e :: e in a && e.JObj? ==> McpTool(e.fields) in McpTools(a)
    decreases |a|
  {
    if a != [] {
      var init := a[..|a| - 1];
      McpToolsMembers(init);
      forall e | e in a && e.JObj? ensures McpTool(e.fields) in McpTools(a) {
        if e != a[|a| - 1] {
          assert e in init;
        }
      }
    }
  }

  /** The loop of `handle_tools_list` that appends one MCP tool per dict entry. */
  method NormaliseTools(entries: seq<Json>) returns (tools: seq<Json>)
    ensures tools == McpTools(entries)
  {
    tools := [];
    for i := 0 to |entries|
      invariant tools == McpTools(entries[..i])
    {
      assert entries[..i + 1][..i] == entries[..i];
      var entry := entries[i];
      if entry.JObj? {
        tools := tools + [McpTool(entry.fields)];
      }
    }
    assert entries[..|entries|] == entries;
  }

  /** `handle_tools_list`: `{"tools": [...]}` with the normalised tools, and an
      empty list when the upstream call raised. */
  method HandleToolsList(fetch: Fetch) returns (r: Json)
    ensures r.JObj? && r.fields.Keys == {"tools"}
    ensures fetch("/tools/list", EmptyObject()).Err? ==> r.fields["tools"] == JArr([])
    ensures fetch("/tools/list", EmptyObject()).Ok? ==>
      r.fields["tools"] == JArr(McpTools(ToolEntries(fetch("/tools/list", EmptyObject()).value)))
  {
    var result := fetch("/tools/list", EmptyObject());
    if result.Err? {
      return JObj(map["tools" := JArr([])]);
    }
    var tools := NormaliseTools(ToolEntries(result.value));
    r := JObj(map["tools" := JArr(tools)]);
  }

  /** The body `handle_tools_call` and `handle_prompts_get` send upstream. */
  function NamedCall(params: map<string, Json>): (r: Json)
    ensures r.JObj? && r.fields.Keys == {"name", "arguments"}
    ensures r.fields["name"] == Get(params, "name", JNull)
    ensures "arguments" in params ==> r.fields["arguments"] == params["arguments"]
    ensures "arguments" !in params ==> r.fields["arguments"] == EmptyObject()
  {
    JObj(map["name" := Get(params, "name", JNull),
             "arguments" := Get(params, "arguments", EmptyObject())])
  }

  /** `handle_tools_call`: an answer carrying `content` is passed through as it is;
      any other answer is wrapped as one text part holding `str(result)`; a call
      that raised gives one text part `Error: ...` and `isError: true`. */
  function HandleToolsCall(params: map<string, Json>, fetch: Fetch, show: Json -> string): (r: Json)
    ensures HasKey(r, "content")
    ensures var answer := fetch("/tools/call", NamedCall(params));
      && (answer.Ok? && HasKey(answer.value, "content") ==> r == answer.value)
      && (answer.Ok? && !HasKey(answer.value, "content") ==>
            r == JObj(map["content" := JArr([TextPart(show(answer.value))])]))
      && (answer.Err? ==>
            r == JObj(map["content" := JArr([TextPart("Error: " + answer.error)]), "isError" := JBool(true)]))
  {
    match fetch("/tools/call", NamedCall(params))
    case Ok(result) =>
      if HasKey(result, "content") then result
      else JObj(map["content" := JArr([TextPart(show(result))])])
    case Err(e) =>
      JObj(map["content" := JArr([TextPart("Error: " + e)]), "isError" := JBool(true)])
  }

  /** The shared rule of `handle_resources_list` and `handle_prompts_list`: a dict
      carrying `key` is passed through, a bare list is put under `key`, anything
      else (and a call that raised) gives an empty list under `key`. */
  function ListUnder(key: string, answer: Result<Json, string>): (r: Json)
    ensures HasKey(r, key)
    ensures answer.Ok? && HasKey(answer.value, key) ==> r == answer.value
    ensures answer.Ok? && !HasKey(answer.value, key) && answer.value.JArr? ==>
      r == JObj(map[key := answer.value])
    ensures (answer.Err? || (!HasKey(answer.value, key) && !answer.value.JArr?)) ==>
      r == JObj(map[key := JArr([])])
  {
    match answer
    case Ok(result) =>
      if HasKey(result, key) then result
      else if result.JArr? then JObj(map[key := result])
      else JObj(map[key := JArr([])])
    case Err(_) => JObj(map[key := JArr([])])
  }

  /** `handle_resources_list`. */
  function HandleResourcesList(fetch: Fetch): (r: Json)
    ensures HasKey(r, "resources")
    ensures var answer := fetch("/resources/list", EmptyObject());
      && (answer.Ok? && HasKey(answer.value, "resources") ==> r == answer.value)
      && (answer.Ok? && !HasKey(answer.value, "resources") && answer.value.JArr? ==>
            r == JObj(map["resources" := answer.value]))
      && ((answer.Err? || (!HasKey(answer.value, "resources") && !answer.value.JArr?)) ==>
            r == JObj(map["resources" := JArr([])]))
  {
    ListUnder("resources", fetch("/resources/list", EmptyObject()))
  }

  /** `handle_prompts_list`. */
  function HandlePromptsList(fetch: Fetch): (r: Json)
    ensures HasKey(r, "prompts")
    ensures var answer := fetch("/prompts/list", EmptyObject());
      && (answer.Ok? && HasKey(answer.value, "prompts") ==> r == answer.value)
      && (answer.Ok? && !HasKey(answer.value, "prompts") && answer.value.JArr? ==>
            r == JObj(map["prompts" := answer.value]))
      && ((answer.Err? || (!HasKey(answer.value, "prompts") && !answer.value.JArr?)) ==>
            r == JObj(map["prompts" := JArr([])]))
  {
    ListUnder("prompts", fetch("/prompts/list", EmptyObject()))
  }

  /** `handle_resources_read`: an answer carrying `contents` is passed through; any
      other answer becomes one plain-text entry for the requested URI; a call that
      raised raises again (`Err`). */
  function HandleResourcesRead(params: map<string, Json>, fetch: Fetch, show: Json -> string): (r: Result<Json, string>)
    ensures var uri := Get(params, "uri", JNull);
      var answer := fetch("/resources/read", JObj(map["uri" := uri]));
      && (answer.Err? <==> r.Err?)
      && (answer.Err? ==> r.error == answer.error)
      && (answer.Ok? && HasKey(answer.value, "contents") ==> r == Ok(answer.value))
      && (answer.Ok? && !HasKey(answer.value, "contents") ==>
            r == Ok(JObj(map["contents" := JArr([JObj(map[
                   "uri" := uri, "mimeType" := JStr("text/plain"), "text" := JStr(show(answer.value))])])])))
  {
    var uri := Get(params, "uri", JNull);
    match fetch("/resources/read", JObj(map["uri" := uri]))
    case Ok(result) =>
      if HasKey(result, "contents") then Ok(result)
      else Ok(JObj(map["contents" := JArr([JObj(map[
             "uri" := uri, "mimeType" := JStr("text/plain"), "text" := JStr(show(result))])])]))
    case Err(e) => Err(e)
  }

  /** `handle_prompts_get`: an answer carrying `messages` is passed through; any
      other answer becomes one user message holding `str(result)`; a call that
      raised raises again (`Err`). */
  function HandlePromptsGet(params: map<string, Json>, fetch: Fetch, show: Json -> string): (r: Result<Json, string>)
    ensures var answer := fetch("/prompts/get", NamedCall(params));
      && (answer.Err? <==> r.Err?)
      && (answer.Err? ==> r.error == answer.error)
      && (answer.Ok? && HasKey(answer.value, "messages") ==> r == Ok(answer.value))
      && (answer.Ok? && !HasKey(answer.value, "messages") ==>
            r == Ok(JObj(map["messages" := JArr([JObj(map[
                   "role" := JStr("user"), "content" := TextPart(show(answer.value))])])])))
  {
    match fetch("/prompts/get", NamedCall(params))
    case Ok(result) =>
      if HasKey(result, "messages") then Ok(result)
      else Ok(JObj(map["messages" := JArr([JObj(map[
             "role" := JStr("user"), "content" := TextPart(show(result))])])]))
    case Err(e) => Err(e)
  }
}
