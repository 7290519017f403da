/**
 * The program's entry point: choose between the configuration file and the
 * direct flags, read each route's controllers, and run the routes one after
 * another into a single output list. File contents, the configuration
 * file's routes and the server are parameters.
 */
module Driver {
  import opened Wrappers
  import opened Config
  import opened Request
  import Decimal
  import Sanitizer

  /** The command-line options that decide what to run. */
  datatype Args = Args(config: Option<string>, route: Option<string>,
                       httpMethod: Option<string>, controller: Option<seq<string>>)

  /** Where the routes come from; resolved once at start-up. */
  datatype Mode = ConfigDriven(configFile: string) | DirectFlags(route: Route) | Missing

  /** How a run ends: the output document, the usage error with its exit status, or an abort. */
  datatype RunOutcome = Completed(output: seq<Record>) | UsageError(status: int) | Aborted

  function SelectMode(args: Args): Mode
  {
    if args.config.Some? then ConfigDriven(args.config.value)
    else if args.route.Some? && args.httpMethod.Some? && args.controller.Some? then
      DirectFlags(Route(args.route.value, args.httpMethod.value, args.controller.value, None))
    else Missing
  }

  /** The routes a mode runs, in order. */
  function RoutesOf(mode: Mode, loadConfig: string -> seq<Route>): seq<Route>
  {
    match mode
    case ConfigDriven(file) => loadConfig(file)
    case DirectFlags(route) => [route]
    case Missing => []
  }

  /** The controller entries of a route: position, path and file content, in order. */
  function Enumerated(paths: seq<string>, read: string -> string): seq<Controller>
  {
    seq(|paths|, i requires 0 <= i < |paths| => Controller(i, paths[i], read(paths[i])))
  }

  /** The messages sent for a route. */
  function PromptFor(route: Route, systemPrompt: string, read: string -> string): seq<Message>
  {
    Messages(systemPrompt, route.path, route.httpMethod, Enumerated(route.controllers, read), route.otherDetails)
  }

  function ReplyFor(route: Route, systemPrompt: string, read: string -> string,
                    server: seq<Message> -> ServerReply): ServerReply
  {
    server(PromptFor(route, systemPrompt, read))
  }

  /** Every route's request is answered. */
  predicate AllAnswered(routes: seq<Route>, systemPrompt: string, read: string -> string,
                        server: seq<Message> -> ServerReply)
  {
    forall i | 0 <= i < |routes| :: ReplyFor(routes[i], systemPrompt, read, server).Answered?
  }

  /** The output document of a run in which every request is answered. */
  function RecordsOf(routes: seq<Route>, systemPrompt: string, read: string -> string,
                     server: seq<Message> -> ServerReply): (out: seq<Record>)
    requires AllAnswered(routes, systemPrompt, read, server)
  {
    seq(|routes|, i requires 0 <= i < |routes| =>
      RecordFor(routes[i].path, routes[i].httpMethod, ReplyFor(routes[i], systemPrompt, read, server).content))
  }

  /** A successful run has one record per route, in route order. */
  lemma RecordsOfLayout(routes: seq<Route>, systemPrompt: string, read: string -> string,
                        server: seq<Message> -> ServerReply)
    requires AllAnswered(routes, systemPrompt, read, server)
    ensures var out := RecordsOf(routes, systemPrompt, read, server);
      && |out| == |routes|
      && forall i | 0 <= i < |routes| ::
           && out[i].route == routes[i].path && out[i].httpMethod == routes[i].httpMethod
           && out[i].messageContent
              == Sanitizer.Clean(ContentOrPlaceholder(ReplyFor(routes[i], systemPrompt, read, server).content))
  {
  }

  /** When a configuration file is named, the direct flags play no part. */
  lemma ConfigIgnoresFlags(a: Args, b: Args)
    requires a.config.Some? && a.config == b.config
    ensures SelectMode(a) == SelectMode(b) == ConfigDriven(a.config.value)
  {
  }

  /**
   * Without a configuration file the direct flags yield one route with the
   * given path, method and controllers in order, and no extra details.
   */
  lemma DirectFlagsSingleRoute(args: Args, loadConfig: string -> seq<Route>)
    requires args.config.None? && args.route.Some? && args.httpMethod.Some? && args.controller.Some?
    ensures RoutesOf(SelectMode(args), loadConfig)
            == [Route(args.route.value, args.httpMethod.value, args.controller.value, None)]
  {
  }

  /**
   * The prompt of a route numbers its controllers from 1 in their order and
   * shows each one's path and content.
   */
  lemma PromptNumbersControllers(route: Route, systemPrompt: string, read: string -> string, k: nat)
    requires k < |route.controllers|
    ensures var ms := PromptFor(route, systemPrompt, read);
      && |ms| == 2 + |route.controllers| + (if route.otherDetails.Some? then 1 else 0)
      && ms[2 + k] == Message("user", "controller " + Decimal.Show(k + 1) + ": \n path: "
                              + route.controllers[k] + " \n content: \n " + read(route.controllers[k]))
  {
    var cs := Enumerated(route.controllers, read);
    MessagesLayout(systemPrompt, route.path, route.httpMethod, cs, route.otherDetails);
    assert cs[k] == Controller(k, route.controllers[k], read(route.controllers[k]));
  }

  /** The message text of the controller `a.txt` holding `fn get_users() {}`, first in its route. */
  lemma UsersControllerText()
    ensures ControllerText(Controller(0, "a.txt", "fn get_users() {}"))
            == "controller 1: \n path: a.txt \n content: \n fn get_users() {}"
  {
    assert Decimal.Show(1) == "1";
    assert "controller " + "1" == "controller 1";
    assert "controller 1" + ": \n path: " == "controller 1: \n path: ";
    assert "controller 1: \n path: " + "a.txt" == "controller 1: \n path: a.txt";
    assert "controller 1: \n path: a.txt" + " \n content: \n " == "controller 1: \n path: a.txt \n content: \n ";
    assert "controller 1: \n path: a.txt \n content: \n " + "fn get_users() {}"
           == "controller 1: \n path: a.txt \n content: \n fn get_users() {}";
  }

  /**
   * A route `/users` with method GET and the controller `a.txt` holding
   * `fn get_users() {}` is sent as exactly three messages.
   */
  lemma UsersRoutePrompt(systemPrompt: string, read: string -> string)
    requires read("a.txt") == "fn get_users() {}"
    ensures PromptFor(Route("/users", "GET", ["a.txt"], None), systemPrompt, read)
            == [Message("system", systemPrompt),
                Message("user", "route: /users method: GET"),
                Message("user", "controller 1: \n path: a.txt \n content: \n fn get_users() {}")]
  {
    var cs := Enumerated(["a.txt"], read);
    assert cs == [Controller(0, "a.txt", "fn get_users() {}")];
    UsersControllerText();
    assert ControllerMessages(cs) == [Message("user", ControllerText(cs[0]))];
    assert RouteLine("/users", "GET") == "route: /users method: GET";
  }

  /** The fenced reply `{"ok":true}` is recorded as the bare JSON text. */
  lemma UsersRouteRecord()
    ensures RecordFor("/users", "GET", Some("```json\n{\"ok\":true}\n```"))
            == Record("/users", "GET", "{\"ok\":true}")
  {
    Sanitizer.CleanFencedReply();
  }

  /** Reads every controller of a route, pushing one entry per file in order. */
  method EnumerateControllers(paths: seq<string>, read: string -> string) returns (data: seq<Controller>)
    ensures |data| == |paths|
    ensures forall i | 0 <= i < |paths| ::
              data[i].index == i && data[i].path == paths[i] && data[i].content == read(paths[i])
    ensures data == Enumerated(paths, read)
  {
    data := [];
    for i := 0 to |paths|
      invariant |data| == i
      invariant forall j | 0 <= j < i :: data[j] == Controller(j, paths[j], read(paths[j]))
    {
      var content := read(paths[i]);
      data := data + [Controller(i, paths[i], content)];
    }
  }

  /** Appending an answered route keeps every route answered. */
  lemma AnsweredSnoc(routes: seq<Route>, route: Route, systemPrompt: string, read: string -> string,
                     server: seq<Message> -> ServerReply)
    requires AllAnswered(routes, systemPrompt, read, server)
    requires ReplyFor(route, systemPrompt, read, server).Answered?
    ensures AllAnswered(routes + [route], systemPrompt, read, server)
  {
    var all := routes + [route];
    forall k | 0 <= k < |all|
      ensures ReplyFor(all[k], systemPrompt, read, server).Answered?
    {
      if k < |routes| {
        assert all[k] == routes[k];
      }
    }
  }

  /** The records of an appended route follow those of the routes before it. */
  lemma RecordsOfSnoc(routes: seq<Route>, route: Route, systemPrompt: string, read: string -> string,
                      server: seq<Message> -> ServerReply)
    requires AllAnswered(routes, systemPrompt, read, server)
    requires ReplyFor(route, systemPrompt, read, server).Answered?
    requires AllAnswered(routes + [route], systemPrompt, read, server)
    ensures RecordsOf(routes + [route], systemPrompt, read, server)
            == RecordsOf(routes, systemPrompt, read, server)
               + [RecordFor(route.path, route.httpMethod, ReplyFor(route, systemPrompt, read, server).content)]
  {
    var all := routes + [route];
    var a := RecordsOf(routes, systemPrompt, read, server);
    var b := RecordsOf(all, systemPrompt, read, server);
    var r := RecordFor(route.path, route.httpMethod, ReplyFor(route, systemPrompt, read, server).content);
    forall k | 0 <= k < |b|
      ensures b[k] == (a + [r])[k]
    {
      if k < |routes| {
        assert all[k] == routes[k];
      }
    }
  }

  /**
   * One step of the route loop: if the first i routes were answered and
   * route i is answered too, the first i + 1 are, and their records are
   * those of the first i followed by route i's.
   */
  lemma RunRoutesStep(routes: seq<Route>, i: nat, systemPrompt: string, read: string -> string,
                      server: seq<Message> -> ServerReply)
    requires i < |routes|
    requires AllAnswered(routes[..i], systemPrompt, read, server)
    requires ReplyFor(routes[i], systemPrompt, read, server).Answered?
    ensures AllAnswered(routes[..i + 1], systemPrompt, read, server)
    ensures RecordsOf(routes[..i + 1], systemPrompt, read, server)
            == RecordsOf(routes[..i], systemPrompt, read, server)
               + [RecordFor(routes[i].path, routes[i].httpMethod, ReplyFor(routes[i], systemPrompt, read, server).content)]
  {
    assert routes[..i + 1] == routes[..i] + [routes[i]];
    AnsweredSnoc(routes[..i], routes[i], systemPrompt, read, server);
    RecordsOfSnoc(routes[..i], routes[i], systemPrompt, read, server);
  }

  /**
   * The loop over the configuration's routes: each route's controllers are
   * read and its request sent, in order. It stops at the first failed
   * exchange, leaving the records of the routes before it; if none fails,
   * one record per route has been appended.
   */
  method RunRoutes(routes: seq<Route>, output: OutputData, read: string -> string, systemPrompt: string,
                   server: seq<Message> -> ServerReply)
    returns (ok: bool)
    modifies output
    ensures ok == AllAnswered(routes, systemPrompt, read, server)
    ensures ok ==> output.records == old(output.records) + RecordsOf(routes, systemPrompt, read, server)
    ensures !ok ==> exists j | 0 <= j < |routes| ::
              && AllAnswered(routes[..j], systemPrompt, read, server)
              && !ReplyFor(routes[j], systemPrompt, read, server).Answered?
              && output.records == old(output.records) + RecordsOf(routes[..j], systemPrompt, read, server)
  {
    ghost var done: seq<Record> := [];
    for i := 0 to |routes|
      invariant AllAnswered(routes[..i], systemPrompt, read, server)
      invariant done == RecordsOf(routes[..i], systemPrompt, read, server)
      invariant output.records == old(output.records) + done
    {
      var route := routes[i];
      var controllersData := EnumerateControllers(route.controllers, read);
      ok := SendRequest(route.path, route.httpMethod, controllersData, route.otherDetails,
                        output, systemPrompt, server);
      if !ok {
        assert !ReplyFor(routes[i], systemPrompt, read, server).Answered?;
        return false;
      }
      RunRoutesStep(routes, i, systemPrompt, read, server);
      done := done + [RecordFor(route.path, route.httpMethod, ReplyFor(route, systemPrompt, read, server).content)];
    }
    assert routes[..|routes|] == routes;
    return true;
  }

  /**
   * The program. Without a configuration file and without all three direct
   * flags it stops with status 1 and produces nothing. Otherwise the routes
   * run in order; if any exchange fails the run aborts and no output is
   * produced; else the output is one record per route, in route order.
   */
  method Run(args: Args, loadConfig: string -> seq<Route>, read: string -> string, systemPrompt: string,
             server: seq<Message> -> ServerReply)
    returns (outcome: RunOutcome)
    ensures var mode := SelectMode(args);
      var routes := RoutesOf(mode, loadConfig);
      && (mode.Missing? <==> outcome == UsageError(1))
      && (outcome.Aborted? <==> !mode.Missing? && !AllAnswered(routes, systemPrompt, read, server))
      && (outcome.Completed? <==> !mode.Missing? && AllAnswered(routes, systemPrompt, read, server))
      && (outcome.Completed? ==>
            AllAnswered(routes, systemPrompt, read, server)
            && outcome.output == RecordsOf(routes, systemPrompt, read, server))
      && (mode.DirectFlags? && outcome.Completed? ==> |outcome.output| == 1)
  {
    var output := new OutputData();
    if args.config.Some? {
      var routes := loadConfig(args.config.value);
      var ok := RunRoutes(routes, output, read, systemPrompt, server);
      if !ok {
        return Aborted;
      }
    } else if args.route.Some? && args.httpMethod.Some? && args.controller.Some? {
      var controllersData := EnumerateControllers(args.controller.value, read);
      var ok := SendRequest(args.route.value, args.httpMethod.value, controllersData, None,
                            output, systemPrompt, server);
      ghost var routes := [Route(args.route.value, args.httpMethod.value, args.controller.value, None)];
      assert RoutesOf(SelectMode(args), loadConfig) == routes;
      if !ok {
        assert !ReplyFor(routes[0], systemPrompt, read, server).Answered?;
        return Aborted;
      }
      assert output.records == RecordsOf(routes, systemPrompt, read, server);
    } else {
      return UsageError(1);
    }
    outcome := Completed(output.records);
  }

  /**
   * The `/users` scenario end to end: given by the direct flags, with `a.txt`
   * holding `fn get_users() {}` and a fenced `{"ok":true}` as the reply, the
   * run completes with one record holding the bare JSON text.
   */
  method UsersScenario(systemPrompt: string, read: string -> string, server: seq<Message> -> ServerReply)
    returns (outcome: RunOutcome)
    requires read("a.txt") == "fn get_users() {}"
    requires server([Message("system", systemPrompt),
                     Message("user", "route: /users method: GET"),
                     Message("user", "controller 1: \n path: a.txt \n content: \n fn get_users() {}")])
             == Answered(Some("```json\n{\"ok\":true}\n```"))
    ensures outcome == Completed([Record("/users", "GET", "{\"ok\":true}")])
  {
    var args := Args(None, Some("/users"), Some("GET"), Some(["a.txt"]));
    var route := Route("/users", "GET", ["a.txt"], None);
    UsersRoutePrompt(systemPrompt, read);
    UsersRouteRecord();
    assert RoutesOf(SelectMode(args), f => []) == [route];
    assert AllAnswered([route], systemPrompt, read, server);
    outcome := Run(args, f => [], read, systemPrompt, server);
  }
}
