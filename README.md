# auto-spec-ai: a Dafny model of the request pipeline

auto-spec-ai reads API route definitions, either from a YAML configuration file or from
the `--route`, `--method` and `--controller` flags. For each route it reads the
controller source files and builds a chat prompt. It sends the prompt to a local Ollama
server, cleans the text of the reply and collects one `{route, method, message_content}`
record per route into a JSON array.

This project models the data-transforming part of that pipeline and proves properties
about it:

- `Sanitizer` models `clean_json_response`. It has a `ReplaceAll` function with the
  semantics of Rust's `str::replace` (leftmost matches, no overlap, the replacement is
  not scanned again), and the source's five passes are composed in the source's order.
- `Decimal` models how `format!` writes the 1-based controller number.
- `Request` models `send_request`:
  - the message list, built by a loop that pushes onto a sequence;
  - the `"No content"` fallback when the reply has no content;
  - cleaning the reply;
  - the single push onto the caller's output list, modelled as the `OutputData` class
    with a `records: seq<Record>` field.
- `Driver` models `main`:
  - choosing between config mode and direct-flag mode;
  - the loops that enumerate each route's controllers into `(index, path, content)`
    entries;
  - the sequential route loop that threads one output list through every request.
- `Config` mirrors the `Route` struct. `Wrappers` holds `Option`.

These parts of the real program are parameters of the model:

- the HTTP exchange is `server: seq<Message> -> ServerReply`. Its result is either the
  reply's `message.content`, which may be absent, or a failure;
- controller files are read with `read: string -> string`;
- the configuration file's routes come from `loadConfig: string -> seq<Route>`;
- the system-prompt text is the `systemPrompt` string.

## Model

| member | source | states |
|---|---|---|
| `Sanitizer.ReplaceAllNotLonger` | src/request.rs:8-12 | A pass whose replacement is no longer than its pattern never makes the text longer. |
| `Sanitizer.ReplaceAllAbsent` | src/request.rs:8-12 | A pass leaves a text that does not contain the pattern unchanged. |
| `Sanitizer.ReplaceAllKeepsOut` | src/request.rs:10-12 | If a character is in neither the text nor the replacement, it is not in the result. |
| `Sanitizer.RemoveCharRemovesAll` | src/request.rs:9 | Deleting a one-character pattern removes every copy of that character. |
| `Sanitizer.ReplaceAllSkipsPrefix` | src/request.rs:8-12 | A prefix that lacks the pattern's first character is copied verbatim, and the scan then goes on after the prefix. |
| `Sanitizer.FencePassKeepsHead` | src/request.rs:12 | The final pass keeps a leading character that is not a backtick. |
| `Sanitizer.FencePassOnRun` | src/request.rs:12 | A run of k backticks followed by a non-backtick becomes k mod 3 backticks; the text after the run is processed as if the run were not there. |
| `Sanitizer.FencePassRemovesFences` | src/request.rs:12 | After the final pass, the text contains no three backticks in a row. |
| `Sanitizer.CleanHasNoFence` | src/request.rs:6-13 | The cleaned reply never contains "```". |
| `Sanitizer.CleanHasNoNewline` | src/request.rs:9-12 | The cleaned reply contains no newline: the second pass removes them all, and no later pass adds one. |
| `Sanitizer.CleanNotLonger` | src/request.rs:7-12 | The cleaned reply is never longer than the raw reply. |
| `Sanitizer.CleanIdentity` | src/request.rs:6-13 | A reply containing none of the five patterns comes out unchanged. |
| `Sanitizer.CleanIdempotentOnPatternFree` | src/request.rs:6-13 | On such a reply, cleaning twice gives the same result as cleaning once. |
| `Sanitizer.CleanNotIdempotent` | src/request.rs:8-9 | Cleaning is not idempotent in general: the four characters backslash, backslash, n, n clean to backslash-n, and cleaning that again gives the empty string. |
| `Sanitizer.CleanKeepsPlainText` | src/request.rs:6-13 | A reply with no backslash, no newline and no backtick comes out unchanged. |
| `Sanitizer.CleanFencedBlock` | src/request.rs:6-13 | A reply made of a "```json" line, one plain line and a "```" line cleans to exactly that plain line. |
| `Sanitizer.CleanFencedReply` | src/request.rs:6-13 | "```json", newline, `{"ok":true}`, newline, "```" cleans to `{"ok":true}`. |
| `Sanitizer.CleanPlaceholder` | src/request.rs:83-86 | The placeholder "No content" comes out of cleaning unchanged. |
| `Decimal.Show` | src/request.rs:47 | The controller number is written as a non-empty string of decimal digits, with no leading zero. |
| `Decimal.ParseShow` | src/request.rs:47 | Reading the written number back gives the number. |
| `Decimal.ShowInjective` | src/request.rs:47 | Different controller numbers are written differently. |
| `Request.ControllerMessages` | src/request.rs:44-49 | There is one message per controller. |
| `Request.ControllerMessagesAt` | src/request.rs:44-49 | Controller message k is the user message built from controller k, so input order is kept. |
| `Request.MessagesLayout` | src/request.rs:32-57 | The message count is 2 + the number of controllers + 1 if details are present. Message 0 is the system prompt. Message 1 is "route: P method: M". Then one message per controller, in order. The details come last. Every message after the first has the role "user". |
| `Request.BuildMessages` | src/request.rs:32-57 | The list built by pushing, loop and `if` included, equals the specified message list. |
| `Request.RecordWithoutContent` | src/request.rs:81-93 | A reply with no `message.content` is recorded as exactly "No content". |
| `Request.RecordContentIsClean` | src/request.rs:86-93 | The record keeps its route and method. Its content has no "```" and no newline, and is no longer than the reply. |
| `Request.SendRequest` | src/request.rs:16-96 | If the exchange is answered, exactly one record, built from the cleaned content or the placeholder, is appended after the earlier records, which stay unchanged. If the exchange fails, false is returned and the list is unchanged. |
| `Request.OutputData.constructor` | src/main.rs:34 | The output list starts empty. |
| `Driver.ConfigIgnoresFlags` | src/main.rs:37-38 | When a config file is given, the direct flags have no effect on the mode. |
| `Driver.DirectFlagsSingleRoute` | src/main.rs:65-86 | With no config file, the three flags give exactly one route, with its controllers in flag order and no `other_details`. |
| `Driver.EnumerateControllers` | src/main.rs:45-49 | Entry i has index i, the i-th path and that file's content, in order. The same loop appears at src/main.rs:71-74. |
| `Driver.PromptNumbersControllers` | src/main.rs:45-49 | In a route's prompt, message 2+k numbers controller k as k+1 and shows its path and content. |
| `Driver.UsersRoutePrompt` | src/request.rs:32-49 | Route `/users` GET with `a.txt` = `fn get_users() {}` is sent as exactly these three messages: the system prompt, "route: /users method: GET", and "controller 1: \n path: a.txt \n content: \n fn get_users() {}". |
| `Driver.UsersRouteRecord` | src/request.rs:81-93 | For that route, the fenced reply is recorded as `{"ok":true}`. |
| `Driver.RecordsOfLayout` | src/main.rs:42-62 | A successful run has one record per route, in route order, each with that route's path, method and cleaned content. |
| `Driver.AnsweredSnoc` | src/main.rs:42-62 | Adding an answered route to a list of answered routes keeps every route answered. |
| `Driver.RecordsOfSnoc` | src/main.rs:42-62 | The records of a route list with one route appended are the earlier records followed by that route's record. |
| `Driver.RunRoutesStep` | src/main.rs:42-62 | One loop step: if the first i routes and route i are answered, then the first i + 1 routes are answered, and their records are the first i routes' records followed by route i's. |
| `Driver.RunRoutes` | src/main.rs:42-62 | The config loop succeeds exactly when every route is answered. On success it has appended the records of all routes, in order. On failure there is a first unanswered route j: every route before j was answered, and exactly their records have been appended. |
| `Driver.Run` | src/main.rs:34-92 | Missing both a config file and any one of the three flags gives exit status 1 and no output. Otherwise the run completes exactly when every route's exchange is answered, and aborts exactly when one fails. A completed run outputs exactly one record per route, in route order; in direct-flag mode that is exactly one record. |
| `Driver.UsersScenario` | src/main.rs:65-92 | Run with the flags `/users`, GET and `a.txt`, where `a.txt` holds `fn get_users() {}` and the server answers the three-message prompt with a fenced `{"ok":true}`: the run completes with the single record `/users`, GET, `{"ok":true}`. |

## Left out

- The HTTP POST is left out: the body `{model: "llama3.1:8b", stream: false, messages}`, the `/api/chat` address, the awaiting, and the JSON parsing of the response (src/request.rs:59-78). All of it is the `server` parameter.
- A transport error (`?`) and an unparsable response (`expect`) are both `Failed`. Either one ends the run as `Aborted` with no output. The model does not separate the exit codes of the two (a returned error and a panic).
- File reads are parameters: the system prompt (src/request.rs:26-29), the controllers (src/config.rs:24-29) and the configuration file (src/config.rs:17-21). A file that cannot be read would panic; the model does not include that panic.
- YAML deserialisation and clap argument parsing are not modelled. This includes splitting `--controller` on commas, which arrives as a list already split. `Config.Route` only mirrors the struct.
- Writing the output file or printing to stdout (src/request.rs:99-108, src/main.rs:95-99) is not modelled. A completed run returns the record list that would be written.
- The `controller_contents` map (src/main.rs:40, 48) is written but never read, so it is left out.
- `Decimal.Show`: the controller number is an unbounded `nat`. The model does not include the `usize` overflow of `index + 1`, which cannot happen for a list that fits in memory.
- The server is a fixed function of the prompt, so two routes with identical prompts get the same reply. A sampled model reply need not repeat itself. No proved property depends on this: each route's record is stated in terms of the reply to that route's own prompt.
- Strings are sequences of characters, not UTF-8 bytes. All five patterns are ASCII, so replacing at character level and at byte level gives the same result.
- `Sanitizer.ReplaceAll` requires a non-empty pattern. Rust's behaviour for an empty pattern is not modelled, because every call in the source uses a non-empty literal.
