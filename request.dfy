/**
 * One route's request: the chat messages sent to the inference server, the
 * fallback for a reply without content, and the record appended to the
 * caller's output list. The HTTP exchange itself is the `server` parameter.
 */
module Request {
  import opened Wrappers
  import Decimal
  import Sanitizer

  /** A controller file of a route: its 0-based position, its path and its text. */
  datatype Controller = Controller(index: nat, path: string, content: string)

  /** One role-tagged chat message. */
  datatype Message = Message(role: string, content: string)

  /** One entry of the output document. */
  datatype Record = Record(route: string, httpMethod: string, messageContent: string)

  /**
   * What the HTTP round trip yields: either a JSON body whose
   * `message.content` is a string (`Some`) or is missing or not a string
   * (`None`), or a failure (transport error, or a body that is not JSON).
   */
  datatype ServerReply = Answered(content: Option<string>) | Failed

  function RouteLine(path: string, httpMethod: string): string
  {
    "route: " + path + " method: " + httpMethod
  }

  /** The text of a controller's message; the number shown is 1-based. */
  function ControllerText(c: Controller): string
  {
    "controller " + Decimal.Show(c.index + 1) + ": \n path: " + c.path + " \n content: \n " + c.content
  }

  /** One user message per controller, in the controllers' order. */
  function ControllerMessages(controllers: seq<Controller>): (ms: seq<Message>)
    ensures |ms| == |controllers|
    decreases |controllers|
  {
    if controllers == [] then []
    else ControllerMessages(controllers[..|controllers| - 1])
         + [Message("user", ControllerText(controllers[|controllers| - 1]))]
  }

  function DetailMessages(otherDetails: Option<string>): seq<Message>
  {
    if otherDetails.Some? then [Message("user", otherDetails.value)] else []
  }

  /** The whole message list of one request. */
  function Messages(systemPrompt: string, path: string, httpMethod: string,
                    controllers: seq<Controller>, otherDetails: Option<string>): seq<Message>
  {
    [Message("system", systemPrompt), Message("user", RouteLine(path, httpMethod))]
    + ControllerMessages(controllers) + DetailMessages(otherDetails)
  }

  /** The k-th controller message is built from the k-th controller. */
  lemma {:induction false} ControllerMessagesAt(controllers: seq<Controller>, k: nat)
    requires k < |controllers|
    ensures ControllerMessages(controllers)[k] == Message("user", ControllerText(controllers[k]))
    decreases |controllers|
  {
    var n := |controllers|;
    if k < n - 1 {
      ControllerMessagesAt(controllers[..n - 1], k);
    }
  }

  /**
   * The layout of a request: the system prompt first, then the route line,
   * one message per controller in order, and the extra details last; only
   * the first message has the system role.
   */
  lemma MessagesLayout(systemPrompt: string, path: string, httpMethod: string,
                       controllers: seq<Controller>, otherDetails: Option<string>)
    ensures var ms := Messages(systemPrompt, path, httpMethod, controllers, otherDetails);
      && |ms| == 2 + |controllers| + (if otherDetails.Some? then 1 else 0)
      && ms[0] == Message("system", systemPrompt)
      && ms[1] == Message("user", RouteLine(path, httpMethod))
      && (forall k | 0 <= k < |controllers| :: ms[2 + k] == Message("user", ControllerText(controllers[k])))
      && (otherDetails.Some? ==> ms[|ms| - 1] == Message("user", otherDetails.value))
      && (forall k | 1 <= k < |ms| :: ms[k].role == "user")
  {
    var ms := Messages(systemPrompt, path, httpMethod, controllers, otherDetails);
    forall k | 0 <= k < |controllers|
      ensures ms[2 + k] == Message("user", ControllerText(controllers[k]))
    {
      ControllerMessagesAt(controllers, k);
    }
    forall k | 1 <= k < |ms|
      ensures ms[k].role == "user"
    {
      if 2 <= k < 2 + |controllers| {
        ControllerMessagesAt(controllers, k - 2);
      }
    }
  }

  /** `message.content`, or the placeholder when the reply has none. */
  function ContentOrPlaceholder(content: Option<string>): string
  {
    if content.Some? then content.value else "No content"
  }

  /** The record one answered request contributes. */
  function RecordFor(path: string, httpMethod: string, content: Option<string>): Record
  {
    Record(path, httpMethod, Sanitizer.Clean(ContentOrPlaceholder(content)))
  }

  /** A reply without content is recorded as exactly "No content". */
  lemma RecordWithoutContent(path: string, httpMethod: string)
    ensures RecordFor(path, httpMethod, None) == Record(path, httpMethod, "No content")
  {
    Sanitizer.CleanPlaceholder();
  }

  /**
   * A recorded content is the cleaned reply: it keeps the route and method,
   * holds no code fence and no newline, and is no longer than the reply.
   */
  lemma RecordContentIsClean(path: string, httpMethod: string, content: string)
    ensures var r := RecordFor(path, httpMethod, Some(content));
      && r.route == path && r.httpMethod == httpMethod
      && !Sanitizer.Contains(r.messageContent, Sanitizer.Fence)
      && '\n' !in r.messageContent
      && |r.messageContent| <= |content|
  {
    Sanitizer.CleanHasNoFence(content);
    Sanitizer.CleanHasNoNewline(content);
    Sanitizer.CleanNotLonger(content);
  }

  /** The caller-owned list of records that every request appends to. */
  class OutputData {
    var records: seq<Record>

    constructor ()
      ensures records == []
    {
      records := [];
    }
  }

  /** Builds the message list by pushing onto it, as the request does. */
  method BuildMessages(systemPrompt: string, path: string, httpMethod: string,
                       controllers: seq<Controller>, otherDetails: Option<string>)
    returns (messages: seq<Message>)
    ensures messages == Messages(systemPrompt, path, httpMethod, controllers, otherDetails)
  {
    messages := [Message("system", systemPrompt), Message("user", RouteLine(path, httpMethod))];
    for k := 0 to |controllers|
      invariant messages == [Message("system", systemPrompt), Message("user", RouteLine(path, httpMethod))]
                            + ControllerMessages(controllers[..k])
    {
      assert controllers[..k + 1][..k] == controllers[..k];
      messages := messages + [Message("user", ControllerText(controllers[k]))];
    }
    assert controllers[..|controllers|] == controllers;
    if otherDetails.Some? {
      messages := messages + [Message("user", otherDetails.value)];
    }
  }

  /**
   * One route's request: builds the messages, asks the server, and on an
   * answer appends exactly one record at the end of `output`, leaving the
   * earlier records alone. A failed exchange returns false and appends nothing.
   */
  method SendRequest(routePath: string, routeMethod: string, controllers: seq<Controller>,
                     otherDetails: Option<string>, output: OutputData, systemPrompt: string,
                     server: seq<Message> -> ServerReply)
    returns (ok: bool)
    modifies output
    ensures var reply := server(Messages(systemPrompt, routePath, routeMethod, controllers, otherDetails));
      && ok == reply.Answered?
      && output.records == if ok then old(output.records) + [RecordFor(routePath, routeMethod, reply.content)]
                           else old(output.records)
  {
    var messages := BuildMessages(systemPrompt, routePath, routeMethod, controllers, otherDetails);
    var reply := server(messages);
    if reply.Failed? {
      return false;
    }
    var messageContent := ContentOrPlaceholder(reply.content);
    var cleaned := Sanitizer.Clean(messageContent);
    output.records := output.records + [Record(routePath, routeMethod, cleaned)];
    return true;
  }
}
