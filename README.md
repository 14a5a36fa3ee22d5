# Mimir: verified model of the bridge and the document pipeline

This project is a Dafny model of four pieces of logic from the Mimir repository.
Each is proved against its own specification.

- **The MCP bridge** (`mcp-bridge/bridge.py`). A JSON-RPC front end for a FastMCP server.
  - It holds one session slot. The bridge fills it once, from the `mcp-session-id` header of an
    `initialize` handshake, or with `"default-session"`.
  - It forwards every request upstream with that header.
  - It scans the upstream Server-Sent-Events stream for the first `data: ` line that carries a
    JSON-RPC object.
  - It answers a 202 with an acknowledgement.
  - It turns every failure into a JSON-RPC error envelope with code -32603. That is "Internal error"
    in section 5.1 of the JSON-RPC 2.0 specification.
  - The per-method response normalisers (`tools/list`, `tools/call`, `resources/*`, `prompts/*`,
    `initialize`) are modelled as pure functions over a small `Json` datatype.
- **The deployment PDF extractor** (`scripts/deploy/extract-pdf-content.py`).
  - `clean_text`, the whitespace and HTML normaliser.
  - The PyMuPDF / Azure Document Intelligence routing of `extract_text_from_pdf`.
  - The page assembly of `extract_with_pymupdf`.
  - The run over a directory in `extract_all_pdfs`, with its success and failure counters.
- **The chunk indexer** (`tools/leiar-kontekst-index/chunk-and-embed.py`).
  - Title extraction: a Markdown heading, else the first line, else the file name.
  - One search record per chunk, with its numbered title, id and metadata.
  - The extension filter and the category rule of `process_directory`.
  - The per-category tally of `main`.
- **The PDF index loader** (`tools/leiar-kontekst-index/extract-pdfs.py`).
  - The ordered filename category rules.
  - Page-text joining.
  - Title clean-up with year-prefix removal.
  - The rule that skips PDFs without text, and the id that depends on the title alone.

Modules, by file:

| file | module | contents |
|---|---|---|
| `wrappers.dfy` | `Wrappers` | `Option`, `Result` |
| `json.dfy` | `JsonValue` | the JSON value, Python truthiness, `dict.get` |
| `pytext.dfy` | `PyText` | the Python `str` operations used: `isspace`, `strip`, `split`, `join`, `replace`, `lower`, `' '.join(s.split())`, `str(int)` |
| `pathnames.dfy` | `PathNames` | `pathlib` suffix and stem, name order |
| `sse_scanner.dfy` | `SseScanner` | the SSE scan of `handle_jsonrpc` |
| `bridge.dfy` | `Bridge` | the session slot and `handle_jsonrpc` (class `Gateway`) |
| `bridge_handlers.dfy` | `BridgeHandlers` | the per-method handlers |
| `clean_text.dfy` | `CleanText` | `clean_text` |
| `pdf_extraction.dfy` | `PdfExtraction` | routing, page assembly, `extract_all_pdfs` |
| `chunk_index.dfy` | `ChunkIndex` | `_extract_title`, `process_file`, `process_directory` (class `DocumentProcessor`), the tally |
| `pdf_index.dfy` | `PdfIndex` | `get_category`, `extract_pdf_text`, title clean-up, the document loop |

Some things only exist outside the program, or are too opaque to model. Each becomes an input:
- JSON parsing, `str()`, MD5 digests, `str.title()`, the token counter and the text splitter are
  function parameters;
- an upstream HTTP exchange, a PDF as a library reads it, and an Azure answer are input records;
- the clock is one timestamp per run (see "## Left out");
- a directory listing is a sequence of entries.

## Model

| member | source | states |
|---|---|---|
| `SseScanner.LineMessage` | mcp-bridge/bridge.py:388-401 | a line yields a message only if that message is an object with a `jsonrpc` key; a `json.loads` error other than `JSONDecodeError` ends the scan instead of skipping the line |
| `SseScanner.LineMessageSpec` | mcp-bridge/bridge.py:388-401 | a line yields `v` exactly when the stripped line starts with `data: `, the rest is non-empty and not `[DONE]`, parses to `v`, and `v` is a JSON-RPC object. It raises `detail` exactly when decoding that payload raises `detail` as some error other than `JSONDecodeError`; every other line is skipped |
| `SseScanner.FirstMessage` | mcp-bridge/bridge.py:381-401 | a message the scan over a text returns is a JSON-RPC object |
| `SseScanner.CompleteLinesStep` | mcp-bridge/bridge.py:386-387 | `split('\n', 1)` takes off the text up to the first line break as the next complete line |
| `SseScanner.FirstOfLinesSpec` | mcp-bridge/bridge.py:386-401 | over a list of lines the scan finds nothing exactly when every line is skipped; otherwise it returns the outcome (message or raised error) of the earliest line that is not skipped |
| `SseScanner.FirstMessageLines` | mcp-bridge/bridge.py:381-401 | the scan over a text equals the scan over its complete (newline-terminated) lines |
| `SseScanner.FirstMessageIsFirstLine` | mcp-bridge/bridge.py:381-401 | the scan result is the outcome of the first complete line that carries a message or raises, and is nothing when every complete line is skipped |
| `SseScanner.FirstMessageStep` | mcp-bridge/bridge.py:386-390 | taking off the first complete line and scanning the rest gives the same result as scanning the whole buffer |
| `SseScanner.TailIgnored` | mcp-bridge/bridge.py:381-387 | a final fragment with no line break never changes the result |
| `SseScanner.ConcatFrom` | mcp-bridge/bridge.py:382-383 | appending the next chunk to the buffer keeps buffer plus unread chunks equal to the rest of the stream |
| `SseScanner.ScanStream` | mcp-bridge/bridge.py:381-401 | the chunk loop, which stops at the first message or raised error, returns what the scan of the concatenated chunks returns, so the result does not depend on where chunk boundaries fall |
| `Bridge.Handshake` | mcp-bridge/bridge.py:91-101 | the handshake succeeds exactly on a 2xx answer. The session is the `mcp-session-id` header when that is non-empty, else `"default-session"`, so it is never empty. A non-2xx status or a lost exchange gives the matching failure |
| `Bridge.Header` | mcp-bridge/bridge.py:362-364 | the session header is attached exactly when the slot holds a non-empty session, and then it carries that session |
| `Bridge.Forward` | mcp-bridge/bridge.py:366-432 | a forwarded request is always answered, with 200 exactly when the upstream answered 2xx and either acknowledged (202) or sent a complete line carrying a message before any line on which `json.loads` raised; every other outcome is a 500, and a raised error gives the `Internal error: ` envelope with its text (the detail is in `Bridge.ForwardShape` and `Bridge.ForwardScans`) |
| `Bridge.RequestId` | mcp-bridge/bridge.py:413-432 | the error envelope's id is the body's `id` whenever the body parsed to an object holding one, and null otherwise |
| `Bridge.Serve` | mcp-bridge/bridge.py:339-432 | nothing goes upstream exactly when the body does not parse to an object; at most two requests go out, and two exactly when a non-`initialize` request on an empty slot gets a successful handshake |
| `Bridge.ServeShape` | mcp-bridge/bridge.py:339-432 | every response is a 200 with a JSON-RPC object or a 500 with a -32603 error envelope for the request's id (null when the body did not parse); the handler escapes exactly when the body is valid JSON but not an object |
| `Bridge.ServeSessionSlot` | mcp-bridge/bridge.py:349-364 | a filled slot is reused and no `initialize` is sent. An `initialize` request sends no handshake (only the body goes out) and never fills the slot. Any other request on an empty slot sends an `initialize` first, and the slot is filled exactly when that handshake succeeds. A non-empty slot never becomes empty |
| `Bridge.ServeForwards` | mcp-bridge/bridge.py:353-367 | when the request is forwarded, it goes out last, unchanged, with the session header exactly when the slot holds a non-empty session, and the response is the forwarding result |
| `Bridge.AckIgnoresStream` | mcp-bridge/bridge.py:366-377 | an upstream 202 gives `{"jsonrpc":"2.0","id":id,"result":{}}` whatever the body holds |
| `Bridge.ForwardScans` | mcp-bridge/bridge.py:379-432 | after a 2xx other than 202, the first complete line that is not skipped decides: its message is returned with status 200, and an error other than `JSONDecodeError` raised by `json.loads` on it gives the `Internal error: ` envelope with status 500. If every line is skipped, it is the "No valid JSON-RPC response found in SSE stream" envelope, or the `Internal error: ` envelope when reading the stream broke off |
| `Bridge.FailureMessages` | mcp-bridge/bridge.py:413-432 | status failures and other exceptions give -32603 envelopes for the given id, with the messages prefixed `FastMCP server error: ` and `Internal error: ` |
| `Bridge.Gateway.constructor` | mcp-bridge/bridge.py:41 | the slot starts empty and nothing has been sent |
| `Bridge.Gateway.GetOrCreateSession` | mcp-bridge/bridge.py:60-103 | a filled slot is returned unchanged and nothing is sent. An empty slot sends one `initialize` and takes the handshake's outcome. It is filled only on success, so a failed handshake leaves it empty for a later retry |
| `Bridge.Gateway.HandleJsonRpc` | mcp-bridge/bridge.py:339-432 | the response, the new slot and the requests appended to the outbound log are exactly those of `Bridge.Serve`, on which the lemmas above are proved |
| `JsonValue.Get` | mcp-bridge/bridge.py:143-144 | `dict.get`: the stored value when the key is present, the default otherwise |
| `BridgeHandlers.HandleInitialize` | mcp-bridge/bridge.py:137-163 | protocol version `2024-11-05`, empty capabilities for tools, resources and prompts; server name and version from an `/info` object (defaulting to `FastMCP Bridge` / `1.0.0`), and the defaults when `/info` fails or is not an object |
| `BridgeHandlers.EmptyObjectSchema` | mcp-bridge/bridge.py:187-191 | the fallback input schema is exactly `{"type": "object", "properties": {}, "required": []}`, a truthy value |
| `BridgeHandlers.McpTool` | mcp-bridge/bridge.py:184-192 | a tool has exactly `name` (default `unknown`), `description` (default empty) and `inputSchema`. The schema is the tool's `inputSchema` if truthy, else `parameters` if truthy, else the empty object schema, so it is always truthy |
| `BridgeHandlers.ToolEntries` | mcp-bridge/bridge.py:170-178 | the entries iterated over: the `tools` list of a dict, a bare list, and nothing for any other answer (no contract of its own; its use is stated by `BridgeHandlers.HandleToolsList`) |
| `BridgeHandlers.McpTools` | mcp-bridge/bridge.py:180-193 | the normalised tool list (no contract of its own; `BridgeHandlers.McpToolsShape` and `BridgeHandlers.McpToolsKeeps` state what it is) |
| `BridgeHandlers.McpToolsShape` | mcp-bridge/bridge.py:180-193 | the normalised list has one entry per object entry of the input, so it is never longer than the input, and each of its entries is the normalisation of some object entry |
| `BridgeHandlers.McpToolsKeeps` | mcp-bridge/bridge.py:182-193 | normalising distributes over concatenation, and operates on every object entry |
| `BridgeHandlers.NormaliseTools` | mcp-bridge/bridge.py:181-193 | the append loop builds exactly the normalised list |
| `BridgeHandlers.HandleToolsList` | mcp-bridge/bridge.py:166-201 | the answer has just a `tools` key. It is empty when the call fails, and otherwise it normalises the `tools` list of a dict or a bare list |
| `BridgeHandlers.NamedCall` | mcp-bridge/bridge.py:206-220 | the upstream call has exactly `name` and `arguments`: `name` is the request's (null when missing), and `arguments` is the request's value unchanged when present, `{}` otherwise |
| `BridgeHandlers.HandleToolsCall` | mcp-bridge/bridge.py:204-245 | the answer always has `content`. A result carrying `content` is returned unchanged. Any other result is wrapped as one text part, and a failure gives exactly `content` (one `Error: ` text part) and `isError` true |
| `BridgeHandlers.ListUnder` | mcp-bridge/bridge.py:253-258 | the answer always has the key. It is the result unchanged when that has the key, the key over a bare list, and the key over the empty list on failure or any other shape |
| `BridgeHandlers.HandleResourcesList` | mcp-bridge/bridge.py:248-261 | the answer always has `resources`: a dict carrying `resources` is returned unchanged, a bare list is put under `resources`, and any other answer or a failed call gives the empty list |
| `BridgeHandlers.HandlePromptsList` | mcp-bridge/bridge.py:288-301 | the answer always has `prompts`: a dict carrying `prompts` is returned unchanged, a bare list is put under `prompts`, and any other answer or a failed call gives the empty list |
| `BridgeHandlers.HandleResourcesRead` | mcp-bridge/bridge.py:264-285 | it fails exactly when the upstream call fails, with its error. A result with `contents` is returned unchanged; any other is wrapped as one `text/plain` entry for the requested uri |
| `BridgeHandlers.HandlePromptsGet` | mcp-bridge/bridge.py:304-335 | it fails exactly when the upstream call fails, with its error. A result with `messages` is returned unchanged; any other is wrapped as one user text message |
| `CleanText.BlankRun` | scripts/deploy/extract-pdf-content.py:87 | the length of the maximal run of spaces and tabs at the start |
| `CleanText.CollapseBlanks` | scripts/deploy/extract-pdf-content.py:86-87 | `[ \t]+` becomes one space; the text never gets longer (the rest is `CleanText.CollapseBlanksFacts`) |
| `CleanText.CollapseBlanksFacts` | scripts/deploy/extract-pdf-content.py:86-87 | after `[ \t]+` becomes one space, no tab and no two adjacent spaces remain, and the text is empty only when the input was |
| `CleanText.NewlineRun` | scripts/deploy/extract-pdf-content.py:89 | the length of the maximal run of line breaks at the start |
| `CleanText.CollapseNewlines` | scripts/deploy/extract-pdf-content.py:88-89 | `\n{3,}` becomes `\n\n`; the text never gets longer (the rest is `CleanText.CollapseNewlinesNoTriple` and `CleanText.CollapseNewlinesKeeps`) |
| `CleanText.NewlineStepLength` | scripts/deploy/extract-pdf-content.py:89 | one step of the `\n{3,}` scan consumes a whole run of line breaks, or one other character |
| `CleanText.NewlineStepHead` | scripts/deploy/extract-pdf-content.py:89 | one step emits at most two line breaks for a run, or the character itself |
| `CleanText.NewlineStep` | scripts/deploy/extract-pdf-content.py:89 | collapsing proceeds step by step from the left |
| `CleanText.CollapseNewlinesStart` | scripts/deploy/extract-pdf-content.py:89 | collapsing keeps the text non-empty and its first character |
| `CleanText.CollapseNewlinesNoTriple` | scripts/deploy/extract-pdf-content.py:88-89 | after `\n{3,}` becomes `\n\n`, no three line breaks are adjacent |
| `CleanText.CollapseNewlinesKeeps` | scripts/deploy/extract-pdf-content.py:88-89 | collapsing line breaks brings back no tab and no double space |
| `CleanText.StripEach` | scripts/deploy/extract-pdf-content.py:91 | each line is replaced by its own `strip()`, in order |
| `CleanText.TrimLines` | scripts/deploy/extract-pdf-content.py:90-92 | every line replaced by its `strip()` and joined back with `\n` (no contract of its own; `CleanText.TrimLinesFacts` states what it guarantees) |
| `CleanText.SplitKeeps` | scripts/deploy/extract-pdf-content.py:91 | the lines of a text with no tab and no double space have none either |
| `CleanText.StripTidy` | scripts/deploy/extract-pdf-content.py:91 | a stripped line has no whitespace at its ends, no tab and no double space |
| `CleanText.JoinTidy` | scripts/deploy/extract-pdf-content.py:92 | joining tidy lines with `\n` keeps whitespace away from every line break |
| `CleanText.TrimLinesFacts` | scripts/deploy/extract-pdf-content.py:90-92 | stripping every line keeps the text free of tabs and double spaces, and leaves no whitespace next to a line break |
| `CleanText.NormaliseWhitespace` | scripts/deploy/extract-pdf-content.py:86-94 | the four whitespace steps in source order (no contract of its own; `CleanText.NormaliseWhitespaceFacts` states what it guarantees) |
| `CleanText.NormaliseWhitespaceFacts` | scripts/deploy/extract-pdf-content.py:86-94 | the whitespace steps give a text with no whitespace at either end or next to a line break, no tab and no double space |
| `CleanText.LinesAreStripped` | scripts/deploy/extract-pdf-content.py:90-94 | in such a text every piece of `split('\n')` equals its own `strip()` |
| `CleanText.FindText` | scripts/deploy/extract-pdf-content.py:59 | finds the first occurrence of the pattern, which the non-greedy `.*?` match ends at, and answers none exactly when the pattern occurs nowhere |
| `CleanText.RemoveComments` | scripts/deploy/extract-pdf-content.py:59 | removing `<!--...-->` never lengthens the text |
| `CleanText.RemoveCellOpenings` | scripts/deploy/extract-pdf-content.py:73 | removing `<th...>`/`<td...>` never lengthens the text |
| `CleanText.RemoveTags` | scripts/deploy/extract-pdf-content.py:76-77 | removing `<[^>]+>` never lengthens the text |
| `CleanText.RemoveTagsChars` | scripts/deploy/extract-pdf-content.py:77 | tag removal introduces no character that was not there |
| `CleanText.RemoveTagsLeavesNoTag` | scripts/deploy/extract-pdf-content.py:77 | after `<[^>]+>` is removed, every `<` left is directly followed by `>` or has no `>` anywhere after it; a leading non-`<` character is kept |
| `CleanText.ReplaceAnyAbsent` | scripts/deploy/extract-pdf-content.py:62-74 | a substitution whose patterns all start with a character absent from the text leaves it unchanged |
| `CleanText.RemoveCommentsAbsent` | scripts/deploy/extract-pdf-content.py:59 | comment removal leaves a text with no `<` unchanged |
| `CleanText.RemoveCellOpeningsAbsent` | scripts/deploy/extract-pdf-content.py:73 | cell-opening removal leaves a text with no `<` unchanged |
| `CleanText.RemoveTagsAbsent` | scripts/deploy/extract-pdf-content.py:77 | tag removal leaves a text with no `<` unchanged |
| `CleanText.RemoveMarkupAbsent` | scripts/deploy/extract-pdf-content.py:57-77 | the markup steps leave a text with no `<` unchanged |
| `CleanText.RemoveMarkup` | scripts/deploy/extract-pdf-content.py:57-77 | the markup steps in source order never lengthen the text (row and cell endings become one-character separators) |
| `CleanText.DecodeEntities` | scripts/deploy/extract-pdf-content.py:79-84 | the five entity replacements never lengthen the text |
| `CleanText.Clean` | scripts/deploy/extract-pdf-content.py:54-95 | `clean_text`: markup removal and entity decoding only with `strip_html`, then the whitespace steps (no contract of its own; `CleanText.CleanFacts` states what it guarantees) |
| `CleanText.CleanFacts` | scripts/deploy/extract-pdf-content.py:54-95 | with or without `strip_html`, the cleaned text has no whitespace at either end, no line with whitespace at either end, no tab and no two adjacent spaces |
| `CleanText.AmpersandFirst` | scripts/deploy/extract-pdf-content.py:80-84 | entity decoding turns `&amp;lt;` into `<`, since `&amp;` is decoded first |
| `CleanText.AmpersandFirstCleaned` | scripts/deploy/extract-pdf-content.py:54-95 | `clean_text("&amp;lt;", strip_html=True)` is `<` |
| `PdfExtraction.Route` | scripts/deploy/extract-pdf-content.py:205-227 | credentials plus force always choose Azure. Without credentials Azure is never chosen. PyMuPDF plus credentials plus images choose Azure. No method is available exactly when there is neither PyMuPDF nor credentials. The fallback branch at 224-225 is never taken |
| `PdfExtraction.NonBlankIndices` | scripts/deploy/extract-pdf-content.py:118-127 | the positions of the non-blank pages, strictly increasing, each a non-blank page |
| `PdfExtraction.NonBlankComplete` | scripts/deploy/extract-pdf-content.py:126 | every non-blank page has its position among them |
| `PdfExtraction.SectionsIndexed` | scripts/deploy/extract-pdf-content.py:118-127 | section `k` is the section of the `k`-th non-blank page, and there are as many sections as non-blank pages |
| `PdfExtraction.Sections` | scripts/deploy/extract-pdf-content.py:116-128 | the sections of `extract_with_pymupdf` (no contract of its own; `PdfExtraction.SectionsSpec` states what it is) |
| `PdfExtraction.SectionsSpec` | scripts/deploy/extract-pdf-content.py:118-127 | the sections are those of the non-blank pages in page order, one each: section `k` is `--- Side n ---` plus the text of the `k`-th non-blank page, numbered `n` among all pages; blank pages give none, so there are never more sections than pages |
| `PdfExtraction.AssemblePages` | scripts/deploy/extract-pdf-content.py:116-131 | the page loop returns the sections joined with `\n\n`, and reports images exactly when some page has images |
| `PdfExtraction.Extraction` | scripts/deploy/extract-pdf-content.py:185-227 | the routed extraction of `extract_text_from_pdf` (no contract of its own; `PdfExtraction.ExtractionMethod` states it) |
| `PdfExtraction.ExtractionMethod` | scripts/deploy/extract-pdf-content.py:185-227 | the result is recorded as Azure's exactly when Azure is routed to and answers. Without credentials it is PyMuPDF's or an error. With neither method it is the `RuntimeError` message |
| `PdfExtraction.PyMuPdfResult` | scripts/deploy/extract-pdf-content.py:98-134 | what `extract_with_pymupdf` returns (no contract of its own; `PdfExtraction.ExtractionRecords` states its fields) |
| `PdfExtraction.AzureResult` | scripts/deploy/extract-pdf-content.py:137-182 | what `extract_with_azure_di` returns, or the error it raised (no contract of its own; `PdfExtraction.ExtractionRecords` states its fields) |
| `PdfExtraction.ExtractionRecords` | scripts/deploy/extract-pdf-content.py:98-182 | a PyMuPDF result holds the cleaned join of the page sections, counts every page read, flags images exactly when some page has them and never reports tables. An Azure result holds Azure's cleaned content, keeps its page count and table flag and never reports images |
| `PdfExtraction.ExtractTextFromPdf` | scripts/deploy/extract-pdf-content.py:185-227 | the branches compute the routed extraction, including the PyMuPDF pass that comes before the image check |
| `PdfExtraction.InsertByName` | scripts/deploy/extract-pdf-content.py:279 | inserting into a name-sorted list keeps it sorted and is a permutation plus the new file |
| `PdfExtraction.SortByName` | scripts/deploy/extract-pdf-content.py:279 | `sorted(all_files)` is sorted by name and a permutation of the files |
| `PdfExtraction.FileOutcome` | scripts/deploy/extract-pdf-content.py:282-346 | the result entry of one file (no contract of its own; `PdfExtraction.FileOutcomeFacts` states it) |
| `PdfExtraction.Outcomes` | scripts/deploy/extract-pdf-content.py:279-346 | the entries of the files in order (no contract of its own; `PdfExtraction.ExtractAllPdfs` is proved to produce them) |
| `PdfExtraction.FileOutcomeFacts` | scripts/deploy/extract-pdf-content.py:282-346 | each entry names its file. A success writes `<stem>.txt`, and a `.txt` input read directly has method `direct-read` and one page. An Azure success needs credentials |
| `PdfExtraction.ExtractAllPdfs` | scripts/deploy/extract-pdf-content.py:230-359 | `total_files` is the number of files, and the method is Azure's exactly with credentials. With no method it stops with no entries and zero counters. Otherwise `successful + failed == total_files == len(files)`, `successful` counts the successes, and the entries are the outcomes of the files in name order |
| `PdfExtraction.ExtractFile` | scripts/deploy/extract-pdf-content.py:282-346 | one pass of the file loop gives that file's outcome: a direct read for `.txt`, the routed extraction otherwise, and a failure entry on an extraction or write error |
| `PathNames.StemSuffix` | scripts/deploy/extract-pdf-content.py:306 | stem plus suffix is the name; the suffix is empty or one dot and no further dot |
| `PathNames.NameLeTotal` | scripts/deploy/extract-pdf-content.py:279 | any two names are ordered one way or the other |
| `PathNames.NameLeAntisymmetric` | scripts/deploy/extract-pdf-content.py:279 | names ordered both ways are equal |
| `PathNames.StemWords` | tools/leiar-kontekst-index/chunk-and-embed.py:115 | the stem with `-` and `_` turned into spaces has neither and keeps the stem's length |
| `ChunkIndex.GroupStart` | tools/leiar-kontekst-index/chunk-and-embed.py:103 | the regex engine backtracks the `\s+` run to the longest prefix that leaves a non-newline for `(.+?)` |
| `ChunkIndex.HeadingStart` | tools/leiar-kontekst-index/chunk-and-embed.py:103 | where the heading capture starts (no contract of its own; `ChunkIndex.HeadingStartSpec` states it) |
| `ChunkIndex.HeadingStartSpec` | tools/leiar-kontekst-index/chunk-and-embed.py:103-104 | the heading match starts its capture at the latest position that `#\s+(.+?)$` allows, and there is no match exactly when no position allows one |
| `ChunkIndex.LineFrom` | tools/leiar-kontekst-index/chunk-and-embed.py:103 | the captured text runs to the end of its line (`$` under `re.MULTILINE`) and holds no line break |
| `ChunkIndex.StrippedLine` | tools/leiar-kontekst-index/chunk-and-embed.py:105 | a stripped line has no break and no whitespace at either end |
| `ChunkIndex.TitleFromHeading` | tools/leiar-kontekst-index/chunk-and-embed.py:103-105 | when the heading matches, the title is the stripped captured line, a single line with no whitespace at either end |
| `ChunkIndex.TitleFromFirstLine` | tools/leiar-kontekst-index/chunk-and-embed.py:107-112 | with no heading, a non-empty stripped first line of `content.strip()` shorter than 200 characters is the title |
| `ChunkIndex.TitleFromFilename` | tools/leiar-kontekst-index/chunk-and-embed.py:114-115 | otherwise the title is the title-cased stem with `-` and `_` turned into spaces |
| `ChunkIndex.ExtractTitle` | tools/leiar-kontekst-index/chunk-and-embed.py:100-115 | `_extract_title` (no contract of its own; `ChunkIndex.TitleFromHeading`, `ChunkIndex.TitleFromFirstLine` and `ChunkIndex.TitleFromFilename` state its three cases) |
| `ChunkIndex.BlankHeadingTitle` | tools/leiar-kontekst-index/chunk-and-embed.py:103-105 | a heading whose text is only whitespace gives the empty title, not the fallback |
| `ChunkIndex.NatToStringInjective` | tools/leiar-kontekst-index/chunk-and-embed.py:185 | distinct chunk numbers print differently |
| `ChunkIndex.DigitsBeforeSlash` | tools/leiar-kontekst-index/chunk-and-embed.py:185 | equal `i+1/n` tails have equal chunk numbers |
| `ChunkIndex.ChunkTitle` | tools/leiar-kontekst-index/chunk-and-embed.py:185 | the numbered chunk title (no contract of its own; `ChunkIndex.ChunkTitlesDistinct` states what the numbering buys) |
| `ChunkIndex.ChunkTitlesDistinct` | tools/leiar-kontekst-index/chunk-and-embed.py:185 | the chunks of one multi-chunk file get pairwise distinct titles |
| `ChunkIndex.ContentVector` | tools/leiar-kontekst-index/chunk-and-embed.py:146-159 | a vector is attached only with embeddings enabled, and only a non-empty (truthy) embedding of the chunk |
| `ChunkIndex.RecordAt` | tools/leiar-kontekst-index/chunk-and-embed.py:183-201 | the record of one chunk (no contract of its own; `ChunkIndex.FileRecordsFacts` states its fields) |
| `ChunkIndex.FileRecords` | tools/leiar-kontekst-index/chunk-and-embed.py:161-205 | what `process_file` returns (no contract of its own; `ChunkIndex.FileRecordsFacts` states it) |
| `ChunkIndex.FileRecordsFacts` | tools/leiar-kontekst-index/chunk-and-embed.py:170-205 | empty or missing content gives no records. Otherwise there is one record per chunk, in order, each with: the chunk, its index, the chunk count, the plain or `(del i+1/n)` title, the id digest of `title-i`, the category, source and file, the token count, and a vector exactly when the embedding is truthy |
| `ChunkIndex.GenerateId` | tools/leiar-kontekst-index/chunk-and-embed.py:95-98 | `_generate_id`: the digest of `"<title>-<index>"` (no contract of its own; `ChunkIndex.IdsFollowTitle` states it) |
| `ChunkIndex.IdsFollowTitle` | tools/leiar-kontekst-index/chunk-and-embed.py:95-98 | chunk ids depend on the base title and index only, so two files with the same title collide chunk by chunk |
| `ChunkIndex.LastDotLower` | tools/leiar-kontekst-index/chunk-and-embed.py:223 | lower-casing does not move the last dot |
| `ChunkIndex.SuffixLower` | tools/leiar-kontekst-index/chunk-and-embed.py:223 | the suffix of the lower-cased name is the lower-cased suffix |
| `ChunkIndex.SupportedIgnoresCase` | tools/leiar-kontekst-index/chunk-and-embed.py:215-223 | the extension filter accepts a name exactly when its lower-cased suffix is listed, so names differing only in case are treated alike |
| `ChunkIndex.FirstMatch` | tools/leiar-kontekst-index/chunk-and-embed.py:227-230 | the first mapping pattern that occurs case-insensitively in the path is chosen, and no earlier one occurs |
| `ChunkIndex.Category` | tools/leiar-kontekst-index/chunk-and-embed.py:224-232 | the category of a file (no contract of its own; `ChunkIndex.CategoryRule` states it) |
| `ChunkIndex.CategoryRule` | tools/leiar-kontekst-index/chunk-and-embed.py:225-232 | with a non-empty mapping, the category is the first matching pattern's, else `generelt`; without one, it is the parent folder's name outside the input folder and `generelt` inside it |
| `ChunkIndex.EntryRecordsFrom` | tools/leiar-kontekst-index/chunk-and-embed.py:222-235 | a file adds records only when it passes the extension filter and has content, and each record carries its name, its category and its absolute path as source |
| `ChunkIndex.EntryRecords` | tools/leiar-kontekst-index/chunk-and-embed.py:223-235 | the records one walked path adds (no contract of its own; `ChunkIndex.EntryRecordsFrom` states it) |
| `ChunkIndex.CollectAppend` | tools/leiar-kontekst-index/chunk-and-embed.py:234-235 | `extend` over a listing split in two is the concatenation of the two |
| `ChunkIndex.CollectIndex` | tools/leiar-kontekst-index/chunk-and-embed.py:234-235 | every collected record comes from one entry's contribution |
| `ChunkIndex.DirectoryRecordsAppend` | tools/leiar-kontekst-index/chunk-and-embed.py:222-237 | the records of a listing are the records of its parts, in order |
| `ChunkIndex.DirectoryRecordsFrom` | tools/leiar-kontekst-index/chunk-and-embed.py:222-237 | every record comes from a file that passes the filter, with that file's category, name and absolute path |
| `ChunkIndex.DirectoryRecords` | tools/leiar-kontekst-index/chunk-and-embed.py:207-237 | what `process_directory` returns (no contract of its own; `ChunkIndex.DirectoryRecordsAppend` and `ChunkIndex.DirectoryRecordsFrom` state it) |
| `ChunkIndex.DocumentProcessor.constructor` | tools/leiar-kontekst-index/chunk-and-embed.py:56-89 | embeddings are enabled exactly when both endpoint and key are given and non-empty; the model and chunk settings are kept |
| `ChunkIndex.DocumentProcessor.ProcessFile` | tools/leiar-kontekst-index/chunk-and-embed.py:161-205 | the append loop builds exactly the file records, with `source_base_url` as source when it is truthy and the absolute path otherwise |
| `ChunkIndex.DocumentProcessor.ProcessDirectory` | tools/leiar-kontekst-index/chunk-and-embed.py:207-237 | the walk builds exactly the directory records, for which the lemmas above are proved |
| `ChunkIndex.BumpFacts` | tools/leiar-kontekst-index/chunk-and-embed.py:343 | an increment raises one category's count by one, the total by one, and keeps the keys distinct |
| `ChunkIndex.KeyOfBump` | tools/leiar-kontekst-index/chunk-and-embed.py:343 | an increment adds no key other than the category |
| `ChunkIndex.TallyOf` | tools/leiar-kontekst-index/chunk-and-embed.py:340-343 | the category tally (no contract of its own; `ChunkIndex.TallyFacts` states it) |
| `ChunkIndex.TallyFacts` | tools/leiar-kontekst-index/chunk-and-embed.py:340-343 | each category's count is the number of records with that category, the counts sum to the number of records, and no category appears twice |
| `ChunkIndex.TallyCategories` | tools/leiar-kontekst-index/chunk-and-embed.py:340-343 | the loop's counts are the per-category record counts and sum to `len(documents)` |
| `PdfIndex.GetCategory` | tools/leiar-kontekst-index/extract-pdfs.py:32-46 | the category is always one of the six labels |
| `PdfIndex.CategoryPrecedence` | tools/leiar-kontekst-index/extract-pdfs.py:32-46 | each label is chosen exactly when its keywords occur in the lower-cased name and no keyword of an earlier rule does |
| `PdfIndex.LowerTwice` | tools/leiar-kontekst-index/extract-pdfs.py:34 | lower-casing is idempotent |
| `PdfIndex.CategoryIgnoresCase` | tools/leiar-kontekst-index/extract-pdfs.py:32-46 | the category does not depend on the case of the name |
| `PdfIndex.NonEmptyPages` | tools/leiar-kontekst-index/extract-pdfs.py:19-22 | only non-empty page texts are kept |
| `PdfIndex.NonEmptyPagesAppend` | tools/leiar-kontekst-index/extract-pdfs.py:19-22 | filtering page texts distributes over concatenation |
| `PdfIndex.NonEmptyPagesMembers` | tools/leiar-kontekst-index/extract-pdfs.py:19-22 | the kept texts are exactly the non-empty ones, and none are kept exactly when all are empty |
| `PdfIndex.ExtractPdfText` | tools/leiar-kontekst-index/extract-pdfs.py:13-26 | the page loop returns the non-empty page texts joined with `\n\n`, and `""` when reading failed |
| `PdfIndex.PdfText` | tools/leiar-kontekst-index/extract-pdfs.py:13-26 | the text of one PDF (no contract of its own; `PdfIndex.PdfTextEmpty` and `PdfIndex.ExtractPdfText` state it) |
| `PdfIndex.PdfTextEmpty` | tools/leiar-kontekst-index/extract-pdfs.py:13-26 | the text is empty exactly when reading failed or every page is empty |
| `PdfIndex.DigitRun` | tools/leiar-kontekst-index/extract-pdfs.py:69 | the maximal run of at most `limit` digits at the start |
| `PdfIndex.YearPrefixLength` | tools/leiar-kontekst-index/extract-pdfs.py:69 | a prefix is removed only from a title that starts with four digits |
| `PdfIndex.SpaceRunCovers` | tools/leiar-kontekst-index/extract-pdfs.py:69 | a whitespace prefix is within the leading whitespace run |
| `PdfIndex.DigitsThenSpaceCovers` | tools/leiar-kontekst-index/extract-pdfs.py:69 | a `\d{0,2}\s*` prefix is within the greedy digits-then-whitespace run |
| `PdfIndex.DotBreaksDigits` | tools/leiar-kontekst-index/extract-pdfs.py:69 | a second `.` cannot be part of the `\d{0,2}\s*` tail |
| `PdfIndex.YearPrefixMatches` | tools/leiar-kontekst-index/extract-pdfs.py:69 | the removed prefix matches `\d{4}\.?\d{0,2}\s*` |
| `PdfIndex.YearPrefixLongest` | tools/leiar-kontekst-index/extract-pdfs.py:69 | no longer prefix matches |
| `PdfIndex.YearPrefixSpec` | tools/leiar-kontekst-index/extract-pdfs.py:67-69 | only the longest prefix matching `^\d{4}\.?\d{0,2}\s*` is removed. A title without four leading digits is unchanged, and the rest of the title is kept as it was |
| `PdfIndex.StripYear` | tools/leiar-kontekst-index/extract-pdfs.py:67-69 | the title without its year prefix (no contract of its own; `PdfIndex.YearPrefixSpec` states it) |
| `PdfIndex.CleanTitleFacts` | tools/leiar-kontekst-index/extract-pdfs.py:63-69 | the cleaned title has no `-` or `_`, no whitespace at either end, no whitespace other than single spaces, and no doubled space |
| `PdfIndex.CleanTitle` | tools/leiar-kontekst-index/extract-pdfs.py:63-69 | the cleaned title (no contract of its own; `PdfIndex.CleanTitleFacts` states it) |
| `PdfIndex.DocumentFor` | tools/leiar-kontekst-index/extract-pdfs.py:63-80 | the document of one PDF (no contract of its own; `PdfIndex.DocumentsSkipRule` and `PdfIndex.IdCollision` state it) |
| `PdfIndex.WithTextIndices` | tools/leiar-kontekst-index/extract-pdfs.py:55-61 | the positions of the PDFs with text, strictly increasing, each a PDF with text, as many as there are such PDFs |
| `PdfIndex.WithTextComplete` | tools/leiar-kontekst-index/extract-pdfs.py:58-61 | every PDF with text has its position among them |
| `PdfIndex.DocumentsIndexed` | tools/leiar-kontekst-index/extract-pdfs.py:55-82 | document `k` is built from the `k`-th PDF with text, and there are as many documents as such PDFs |
| `PdfIndex.Documents` | tools/leiar-kontekst-index/extract-pdfs.py:55-82 | the documents of the folder (no contract of its own; `PdfIndex.DocumentsSkipRule` states it) |
| `PdfIndex.DocumentsSkipRule` | tools/leiar-kontekst-index/extract-pdfs.py:55-82 | the documents are those of the PDFs with text, in folder order, one each: document `k` is built from the `k`-th PDF with text and its text; a PDF without text gives none |
| `PdfIndex.DocumentsKeepLast` | tools/leiar-kontekst-index/extract-pdfs.py:73-82 | a PDF with text appends its document at the end |
| `PdfIndex.GenerateId` | tools/leiar-kontekst-index/extract-pdfs.py:28-30 | `generate_id`: the digest of the cleaned title (no contract of its own; `PdfIndex.IdCollision` states it) |
| `PdfIndex.IdCollision` | tools/leiar-kontekst-index/extract-pdfs.py:28-30 | PDFs with equal cleaned titles get equal ids and equal output file names |
| `PdfIndex.ExtractDocuments` | tools/leiar-kontekst-index/extract-pdfs.py:55-89 | the file loop builds exactly the documents of the skip rule |
| `PyText.StripFacts` | tools/leiar-kontekst-index/chunk-and-embed.py:105 | `strip()` removes exactly the leading and trailing whitespace runs |
| `PyText.StripEmpty` | tools/leiar-kontekst-index/chunk-and-embed.py:111 | a stripped text is empty exactly when the text is all whitespace |
| `PyText.JoinSplit` | scripts/deploy/extract-pdf-content.py:91-92 | joining the pieces of a split with the separator gives back the text |
| `PyText.SingleSpaced` | tools/leiar-kontekst-index/extract-pdfs.py:65 | `' '.join(s.split())` has no whitespace at either end, no whitespace but single spaces, and no doubled space |
| `PyText.SingleSpacedChars` | tools/leiar-kontekst-index/extract-pdfs.py:65 | it adds no character but the space |
| `PyText.ReplaceCharGone` | tools/leiar-kontekst-index/extract-pdfs.py:64 | replacing one character by another leaves none of the first, changes nothing else and keeps the length |
| `PyText.Lower` | tools/leiar-kontekst-index/extract-pdfs.py:34 | lower-casing works character by character and keeps the length |
| `PyText.NatToString` | tools/leiar-kontekst-index/chunk-and-embed.py:97 | a number prints as a non-empty string of digits |

## Left out

- HTTP. The client and server layers and the routes that only report (`get_http_client`, `health_check`, `root`, `mcp_info`, `shutdown_event`) are replaced by input records. Each upstream exchange is a status, an optional `mcp-session-id` header and the body's text chunks, or the error raised.
- `asyncio.Lock`. The single-flight lock around session creation is concurrency. The slot is modelled sequentially, one request at a time.
- Decoding. The per-chunk `utf-8` decoding with `errors='ignore'` is not modelled. Chunks are text already, so chunk invariance is stated on text.
- Opaque functions. `json.loads` (as a decoded value, a `JSONDecodeError`, or any other exception with its text), `request.json()`, `str()` of a value or of an httpx error, `hashlib.md5(...).hexdigest()[:16]`, `str.title()`, `datetime.utcnow()`, the token counter, the LangChain splitter and the AzureOpenAI embedding call are function parameters or inputs. The embedding call's own error handling is folded into its `Option` result.
- Libraries. PyMuPDF, Azure Document Intelligence, PyPDF2 and python-docx are not modelled. A document is the list of pages the library reads, or the error it raised. Azure's answer is a record of content, page count and tables.
- File effects. Globbing, file reads and writes, `mkdir`, `time.sleep`, `argparse`, `print` and logging leave no trace in the model. A listing is the sequence of entries it yields, in that order. The content of a file, or a read error, is an input. A write error is an input that makes the file fail.
- `_read_file`. Per-format reading of `.txt`/`.md`/`.json`/`.docx`/`.pdf` is not modelled. A file's content arrives as an optional string, and a JSON `content` field that is not a string is outside the model.
- `_read_file` errors. A read that raises (a folder whose name passes the filter, JSON that does not parse, a file that is not UTF-8) ends `process_directory` with that exception. The model has no such outcome: every entry has content or none.
- `PyText.Lower`: lower-cases ASCII and Latin-1 capitals only, not every Unicode capital that `str.lower()` knows. The key words, patterns and suffixes compared are ASCII or Latin-1 (`økonomi`).
- `PdfIndex.YearPrefixLength`: `\d` is read as the ASCII digits `0`-`9`. Python's `re` on `str` also accepts other Unicode decimal digits there.
- Timestamps. `datetime.utcnow()` is read once per chunk record in `process_file` (tools/leiar-kontekst-index/chunk-and-embed.py:189) and once per document in extract-pdfs.py (tools/leiar-kontekst-index/extract-pdfs.py:79). The model gives every record of a run the same timestamp, so it does not capture records of one run carrying different times.
- Metadata. The `metadata` JSON string of a chunk record is modelled as separate fields: chunk index, chunk count, original file and token count.
- Listings. `extract_all_pdfs` merges the `*.pdf`/`*.PDF`/`*.txt`/`*.TXT` globs through sets. The model takes the merged list of files as input. Path order is plain character order on the names; Windows' case-insensitive path order is not modelled.
- Sorted printing. The sorted printing of the category tally and the `Embeddings: Yes/No` line are output only.
- `CleanText.CleanFacts`: does not claim that `clean_text` is idempotent. It is not: `"a\n \n \nb"` keeps three line breaks after one pass.
- `CleanText.CleanFacts`: does not claim that `strip_html=True` yields text without tags. Entity decoding can bring `<...>` back, and `CleanText.AmpersandFirstCleaned` shows `<` coming back.
- `ChunkIndex.BlankHeadingTitle`: when a heading line holds only `#` and blanks, `^#\s+(.+?)$` still matches by giving the last blank to the capture. The stripped title is then empty and no fallback applies. The model keeps this behaviour.
- `SseScanner.LineMessage`: the `Json` type has no `NaN`, `Infinity` or `-Infinity`, which `json.loads` accepts. A message carrying one is returned by the source and then fails in `JSONResponse`, whose encoder refuses non-finite numbers, so the source answers with the `Internal error: ` envelope. `Bridge.Forward` and `Bridge.ForwardScans` do not capture this case; a parser that reports such a payload as a raised error yields that 500.
- `Bridge.ServeShape`: a request body that is valid JSON but not an object raises inside the handler and again inside its `except` block. The framework answers that on its own, so the model says only that the handler escapes (`Unhandled`).
