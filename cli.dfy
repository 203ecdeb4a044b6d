/** The command-line shell: `main` in src/main.rs. The request sent to
    the REST API is described by its URL and User-Agent; the network
    round trip with JSON decoding is an outside step that answers a
    request with a decoded record or fails. */
module Cli {
  import opened Options
  import opened Args
  import opened Profile

  /** The endpoint the username is appended to. */
  const UsersEndpoint: string := "https://api.github.com/users/"

  /** The product token of the User-Agent header. */
  const Product: string := "GitHubFetch/"

  /** The profile URL for `username`. */
  function UserUrl(username: string): (url: string)
    ensures |url| == |UsersEndpoint| + |username|
    ensures url[..|UsersEndpoint|] == UsersEndpoint
    ensures url[|UsersEndpoint|..] == username
  {
    UsersEndpoint + username
  }

  /** The username a profile URL asks for, if it is one. */
  function UsernameOfUrl(url: string): Option<string>
  {
    if |UsersEndpoint| <= |url| && url[..|UsersEndpoint|] == UsersEndpoint
    then Some(url[|UsersEndpoint|..])
    else None
  }

  lemma UrlRoundTrip(username: string)
    ensures UsernameOfUrl(UserUrl(username)) == Some(username)
  {
  }

  lemma UrlRoundTripBack(url: string)
    requires UsernameOfUrl(url).Some?
    ensures UserUrl(UsernameOfUrl(url).value) == url
  {
    assert url == url[..|UsersEndpoint|] + url[|UsersEndpoint|..];
  }

  /** Each username determines its own request URL. */
  lemma UrlInjective(a: string, b: string)
    requires UserUrl(a) == UserUrl(b)
    ensures a == b
  {
    UrlRoundTrip(a);
    UrlRoundTrip(b);
  }

  /** The User-Agent value for a build of the given version. */
  function UserAgent(version: string): (agent: string)
    ensures |agent| == |Product| + |version|
    ensures agent[..|Product|] == Product && agent[|Product|..] == version
  {
    Product + version
  }

  datatype Request = Request(url: string, userAgent: string)

  /** The one request `main` sends for a username. */
  function ProfileRequest(username: string, version: string): (r: Request)
    ensures UsernameOfUrl(r.url) == Some(username)
    ensures |Product| <= |r.userAgent| && r.userAgent[..|Product|] == Product
    ensures r.userAgent[|Product|..] == version
  {
    UrlRoundTrip(username);
    Request(UserUrl(username), UserAgent(version))
  }

  /** The four things `main` may do. */
  datatype Action = ShowHelp | ShowVersion | FetchAndRender(request: Request) | ReportMissingUsername

  /** The position of an action in `main`: help, then version, then the
      username branch. */
  function Stage(a: Action): nat
  {
    match a
    case ShowHelp => 0
    case ShowVersion => 1
    case _ => 2
  }

  /** The actions `main` takes for a parsed invocation, in order. */
  function Dispatch(inv: Invocation, version: string): (acts: seq<Action>)
    ensures ShowHelp in acts <==> inv.help
    ensures ShowVersion in acts <==> inv.version
    ensures FetchAndRender(ProfileRequest(inv.username, version)) in acts <==> inv.username != ""
    ensures forall i :: 0 <= i < |acts| && acts[i].FetchAndRender? ==>
      acts[i].request == ProfileRequest(inv.username, version)
    ensures ReportMissingUsername in acts <==> inv.username == "" && !inv.help && !inv.version
    ensures forall i, j :: 0 <= i < j < |acts| ==> Stage(acts[i]) < Stage(acts[j])
    ensures |acts| >= 1
  {
    FlagActions(inv) + UsernameActions(inv, version)
  }

  /** The two `if` statements on the flags. */
  function FlagActions(inv: Invocation): seq<Action>
  {
    (if inv.help then [ShowHelp] else []) + (if inv.version then [ShowVersion] else [])
  }

  /** The `if`/`else` on the username. */
  function UsernameActions(inv: Invocation, version: string): seq<Action>
  {
    if inv.username != "" then [FetchAndRender(ProfileRequest(inv.username, version))]
    else if !inv.help && !inv.version then [ReportMissingUsername]
    else []
  }

  /** What the network and the JSON decoder produce for a request. */
  datatype FetchOutcome = Fetched(info: UserInfo) | QueryFailed | JsonFailed

  /** What reaches the terminal; the two banners are static text. */
  datatype Output = HelpText | VersionText(version: string) | Stdout(line: string) | Stderr(line: string)

  /** A run ends normally (exit status 0, the missing-username case
      included) or by a panic from `expect`. */
  datatype Exit = Finished | Panicked(message: string)

  datatype Transcript = Transcript(outputs: seq<Output>, exit: Exit)

  const MissingUsernameError: string := "error: username not specified"
  const HelpHint: string := "help: use `-h` or `--help` to get usage help"
  const QueryFailedMessage: string := "error: failed to query GitHub"
  const JsonFailedMessage: string := "error: failed to parse JSON"

  function Prepend(outs: seq<Output>, t: Transcript): Transcript
  {
    Transcript(outs + t.outputs, t.exit)
  }

  /** Carrying out the actions in order; a failed fetch stops the run. */
  function Perform(acts: seq<Action>, version: string, fetch: Request -> FetchOutcome): Transcript
  {
    if |acts| == 0 then Transcript([], Finished)
    else
      var rest := Perform(acts[1..], version, fetch);
      match acts[0]
      case FetchAndRender(request) =>
        (match fetch(request)
         case Fetched(info) => Prepend([Stdout(Render(info))], rest)
         case QueryFailed => Transcript([], Panicked(QueryFailedMessage))
         case JsonFailed => Transcript([], Panicked(JsonFailedMessage)))
      case _ => Prepend(Emitted(acts[0], version), rest)
  }

  /** What an action that fetches nothing prints. */
  function Emitted(a: Action, version: string): seq<Output>
    requires !a.FetchAndRender?
  {
    match a
    case ShowHelp => [HelpText]
    case ShowVersion => [VersionText(version)]
    case ReportMissingUsername => [Stderr(MissingUsernameError), Stdout(HelpHint)]
  }

  /** One invocation of the program: parse, dispatch, act. */
  function Run(args: seq<string>, version: string, fetch: Request -> FetchOutcome): Transcript
  {
    Perform(Dispatch(Parse(args), version), version, fetch)
  }

  /** The banners an invocation asks for, help first. */
  function Banners(inv: Invocation, version: string): seq<Output>
  {
    (if inv.help then [HelpText] else []) + (if inv.version then [VersionText(version)] else [])
  }

  lemma PerformAppend(a: seq<Action>, b: seq<Action>, version: string, fetch: Request -> FetchOutcome)
    requires forall i :: 0 <= i < |a| ==> !a[i].FetchAndRender?
    ensures Perform(a + b, version, fetch) == Prepend(Perform(a, version, fetch).outputs, Perform(b, version, fetch))
  {
    if |a| > 0 {
      assert (a + b)[0] == a[0];
      assert (a + b)[1..] == a[1..] + b;
      PerformAppend(a[1..], b, version, fetch);
      var head := Emitted(a[0], version);
      assert Perform(a, version, fetch) == Prepend(head, Perform(a[1..], version, fetch));
      assert Perform(a + b, version, fetch) == Prepend(head, Perform(a[1..] + b, version, fetch));
      var x, y, z := head, Perform(a[1..], version, fetch).outputs, Perform(b, version, fetch).outputs;
      assert x + (y + z) == (x + y) + z;
    } else {
      assert a + b == b;
    }
  }

  lemma PerformFlags(inv: Invocation, version: string, fetch: Request -> FetchOutcome)
    ensures Perform(FlagActions(inv), version, fetch) == Transcript(Banners(inv, version), Finished)
  {
    var acts := FlagActions(inv);
    assert [ShowVersion][1..] == [];
    assert Perform([ShowVersion], version, fetch) == Transcript([VersionText(version)], Finished);
    if inv.help {
      assert acts[0] == ShowHelp;
      assert acts[1..] == (if inv.version then [ShowVersion] else []);
    }
  }

  /** What the actions dispatched for `inv` print, and how they end. */
  function Outcome(inv: Invocation, version: string, fetch: Request -> FetchOutcome): Transcript
  {
    if inv.username != "" then
      match fetch(ProfileRequest(inv.username, version))
      case Fetched(info) => Transcript(Banners(inv, version) + [Stdout(Render(info))], Finished)
      case QueryFailed => Transcript(Banners(inv, version), Panicked(QueryFailedMessage))
      case JsonFailed => Transcript(Banners(inv, version), Panicked(JsonFailedMessage))
    else if inv.help || inv.version then Transcript(Banners(inv, version), Finished)
    else Transcript([Stderr(MissingUsernameError), Stdout(HelpHint)], Finished)
  }

  lemma DispatchOutcome(inv: Invocation, version: string, fetch: Request -> FetchOutcome)
    ensures Perform(Dispatch(inv, version), version, fetch) == Outcome(inv, version, fetch)
  {
    var flags, tail := FlagActions(inv), UsernameActions(inv, version);
    PerformAppend(flags, tail, version, fetch);
    PerformFlags(inv, version, fetch);
    var banners := Banners(inv, version);
    assert Perform(Dispatch(inv, version), version, fetch) == Prepend(banners, Perform(tail, version, fetch));
    if inv.username != "" {
      var request := ProfileRequest(inv.username, version);
      assert tail == [FetchAndRender(request)];
      assert tail[1..] == [];
      match fetch(request)
      case Fetched(info) =>
        assert Perform(tail, version, fetch) == Transcript([Stdout(Render(info))], Finished);
      case QueryFailed =>
        assert Perform(tail, version, fetch) == Transcript([], Panicked(QueryFailedMessage));
        assert banners + [] == banners;
      case JsonFailed =>
        assert Perform(tail, version, fetch) == Transcript([], Panicked(JsonFailedMessage));
        assert banners + [] == banners;
    } else if !inv.help && !inv.version {
      assert tail == [ReportMissingUsername];
      assert tail[1..] == [];
      assert banners == [];
      assert Perform(tail, version, fetch) == Transcript([Stderr(MissingUsernameError), Stdout(HelpHint)], Finished);
    } else {
      assert tail == [];
      assert banners + [] == banners;
    }
  }

  /** Everything one invocation prints and how it ends: the requested
      banners (help before version), then either the rendered profile,
      or a panic if the fetch failed, or, when nothing at all was asked
      for, the error line on standard error and the hint on standard
      output. */
  lemma RunOutcome(args: seq<string>, version: string, fetch: Request -> FetchOutcome)
    ensures Run(args, version, fetch) == Outcome(Parse(args), version, fetch)
  {
    DispatchOutcome(Parse(args), version, fetch);
  }

  /** The position of an output: help banner, version banner, the rest. */
  function OutputStage(o: Output): nat
  {
    match o
    case HelpText => 0
    case VersionText(_) => 1
    case _ => 2
  }

  /** The banners followed by outputs of the last stage. */
  lemma BannersThen(inv: Invocation, version: string, tail: seq<Output>)
    requires forall i :: 0 <= i < |tail| ==> OutputStage(tail[i]) == 2
    ensures var outs := Banners(inv, version) + tail;
      && (HelpText in outs <==> inv.help)
      && (VersionText(version) in outs <==> inv.version)
      && forall i, j :: 0 <= i < j < |outs| ==> OutputStage(outs[i]) <= OutputStage(outs[j])
  {
    var banners := Banners(inv, version);
    var outs := banners + tail;
    assert forall i :: 0 <= i < |banners| ==> outs[i] == banners[i];
    assert forall i :: |banners| <= i < |outs| ==> outs[i] == tail[i - |banners|];
    assert HelpText !in tail && VersionText(version) !in tail;
  }

  /** Help and version banners are printed exactly when asked for,
      independently of each other and of the username, and all output
      comes in the order help, version, then the rest. */
  lemma BannersAndOrder(inv: Invocation, version: string, fetch: Request -> FetchOutcome)
    ensures var outs := Outcome(inv, version, fetch).outputs;
      && (HelpText in outs <==> inv.help)
      && (VersionText(version) in outs <==> inv.version)
      && forall i, j :: 0 <= i < j < |outs| ==> OutputStage(outs[i]) <= OutputStage(outs[j])
  {
    var answer := fetch(ProfileRequest(inv.username, version));
    if inv.username != "" && answer.Fetched? {
      BannersThen(inv, version, [Stdout(Render(answer.info))]);
    } else if inv.username == "" && !inv.help && !inv.version {
      assert Banners(inv, version) == [];
      BannersThen(inv, version, [Stderr(MissingUsernameError), Stdout(HelpHint)]);
    } else {
      assert Banners(inv, version) + [] == Banners(inv, version);
      BannersThen(inv, version, []);
    }
  }

  /** The missing-username error (and its hint) appear exactly when no
      username was given and neither flag was set. */
  lemma ErrorIffNothingRequested(inv: Invocation, version: string, fetch: Request -> FetchOutcome)
    ensures var outs := Outcome(inv, version, fetch).outputs;
      && (Stderr(MissingUsernameError) in outs <==> inv.username == "" && !inv.help && !inv.version)
      && (Stdout(HelpHint) in outs <==> inv.username == "" && !inv.help && !inv.version)
  {
    if inv.username != "" && fetch(ProfileRequest(inv.username, version)).Fetched? {
      var info := fetch(ProfileRequest(inv.username, version)).info;
      RenderIsNotTheHint(info);
    }
  }

  lemma RenderIsNotTheHint(info: UserInfo)
    ensures Render(info) != HelpHint
  {
    RenderBeginsWithHeader(info);
    assert Render(info)[0] == '\n' && HelpHint[0] == 'h';
  }

  /** The profile is rendered exactly when a username was given and its
      fetch succeeded, and then it is the last thing printed. A run
      panics exactly when a username was given and its fetch failed;
      every other run finishes normally. */
  lemma ProfileIffUsernameFetched(inv: Invocation, version: string, fetch: Request -> FetchOutcome)
    ensures var t := Outcome(inv, version, fetch);
      var answer := fetch(ProfileRequest(inv.username, version));
      && (t.exit.Panicked? <==> inv.username != "" && !answer.Fetched?)
      && (inv.username != "" && answer.Fetched? ==>
            |t.outputs| >= 1 && t.outputs[|t.outputs| - 1] == Stdout(Render(answer.info)))
      && (inv.username == "" ==> forall i :: 0 <= i < |t.outputs| && t.outputs[i].Stdout? ==> t.outputs[i].line == HelpHint)
  {
  }
}
