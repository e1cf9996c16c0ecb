/**
 * ProbeNagios and runNagiosCheck: resolving the check binary, building the placeholder map,
 * fetching a site's test credentials, running the check and classifying its exit code, and the
 * probe's success verdict. The file system, the URL parser, the credential service, the process
 * and the float parser are parameters.
 */
module NagiosProbe {
  import opened Wrappers
  import opened GoStrings
  import NagiosArguments
  import NagiosOutput
  import NagiosPerfData
  import ProxyEnvironment

  /** The four Nagios plugin results, numbered as plugins report them. */
  datatype Status = OK | Warning | Error | Unknown
  {
    function Code(): (c: int)
      ensures 0 <= c <= 3
    {
      match this
      case OK => 0
      case Warning => 1
      case Error => 2
      case Unknown => 3
    }
  }

  /** The status a plugin exit code stands for, if it is one of the four. */
  function StatusOfCode(code: int): (r: Option<Status>)
    ensures r.Some? <==> 0 <= code <= 3
    ensures r.Some? ==> r.value.Code() == code
  {
    if code == 0 then Some(OK)
    else if code == 1 then Some(Warning)
    else if code == 2 then Some(Error)
    else if code == 3 then Some(Unknown)
    else None
  }

  /** Numbering the statuses loses nothing: each code reads back as its status. */
  lemma StatusCodeRoundTrip(s: Status)
    ensures StatusOfCode(s.Code()) == Some(s)
  {
    match s
    case OK =>
    case Warning =>
    case Error =>
    case Unknown =>
  }

  // ---------------------------------------------------------------------------------------------
  // Resolving the check binary
  // ---------------------------------------------------------------------------------------------

  /** Why a check binary could not be resolved. */
  datatype ResolveError = NoCheckSpecified | FileDoesNotExist | LookPathFailed(reason: String)
  {
    /** The error text. */
    function Message(): String
    {
      match this
      case NoCheckSpecified => "no check specified"
      case FileDoesNotExist => "file does not exist"
      case LookPathFailed(reason) => reason
    }
  }

  /**
   * The exporter's view of the file system: its working directory, whether Stat reports that a
   * path does not exist, and the search of PATH for a command.
   */
  datatype Host = Host(cwd: String, notExist: String -> bool, lookPath: String -> Result<String, String>)

  /** filepath.IsAbs on a Unix system. */
  predicate IsAbs(path: String)
  {
    |path| > 0 && path[0] == '/'
  }

  /** filepath.Join(cwd, "checks", check) for a working directory and a check name in clean form. */
  function ChecksPath(cwd: String, check: String): String
  {
    if cwd == [] then "checks/" + check
    else if cwd[|cwd| - 1] == '/' then cwd + "checks/" + check
    else cwd + "/checks/" + check
  }

  /**
   * resolveNagiosCheckBinary: an empty name is refused; a relative name is looked for in the
   * checks directory under the working directory, then on the search path; an absolute name must
   * exist.
   */
  function ResolveCheckBinary(check: String, host: Host): (r: Result<String, ResolveError>)
    ensures r == Failure(NoCheckSpecified) <==> check == []
    ensures r == Failure(FileDoesNotExist) <==> check != [] && IsAbs(check) && host.notExist(check)
    ensures IsAbs(check) && r.Success? ==> r.value == check && !host.notExist(check)
    ensures check != [] && IsAbs(check) && !host.notExist(check) ==> r == Success(check)
    ensures r.Failure? <==>
      check == [] || (IsAbs(check) && host.notExist(check)) ||
      (check != [] && !IsAbs(check) && host.notExist(ChecksPath(host.cwd, check)) && host.lookPath(check).Failure?)
    ensures check != [] && !IsAbs(check) && !host.notExist(ChecksPath(host.cwd, check)) ==>
      r == Success(ChecksPath(host.cwd, check))
    ensures check != [] && !IsAbs(check) && host.notExist(ChecksPath(host.cwd, check)) ==>
      match host.lookPath(check)
      case Success(path) => r == Success(path)
      case Failure(reason) => r == Failure(LookPathFailed(reason))
  {
    if check == [] then Failure(NoCheckSpecified)
    else if !IsAbs(check) then
      var local := ChecksPath(host.cwd, check);
      if host.notExist(local) then
        match host.lookPath(check)
        case Success(path) => Success(path)
        case Failure(reason) => Failure(LookPathFailed(reason))
      else Success(local)
    else if host.notExist(check) then Failure(FileDoesNotExist)
    else Success(check)
  }

  /** The two fixed error texts of the resolution. */
  lemma ResolveErrorMessages(check: String, host: Host)
    ensures check == [] ==> ResolveCheckBinary(check, host).error.Message() == "no check specified"
    ensures check != [] && IsAbs(check) && host.notExist(check) ==>
      ResolveCheckBinary(check, host).error.Message() == "file does not exist"
  {
  }

  // ---------------------------------------------------------------------------------------------
  // Placeholders
  // ---------------------------------------------------------------------------------------------

  /** The parts of the target URL that url.Parse yields and the placeholders use. */
  datatype TargetUrl = TargetUrl(scheme: String, host: String, port: String, path: String)

  /** The names runNagiosCheck derives from the target URL. */
  const UrlKeys: set<String> := {"target_host", "target_port", "target_scheme", "target_path", "target_base"}

  /** The first value of every URL parameter among `keys` that has one, under its own name. */
  function FirstValues(params: map<String, seq<String>>, keys: set<String>): map<String, String>
  {
    map k | k in keys && k in params && |params[k]| > 0 :: params[k][0]
  }

  /** Taking one more parameter name adds at most that name. */
  lemma FirstValuesStep(params: map<String, seq<String>>, keys: set<String>, key: String)
    requires key in params
    ensures FirstValues(params, keys + {key}) ==
      if |params[key]| > 0 then FirstValues(params, keys)[key := params[key][0]] else FirstValues(params, keys)
  {
    var next := if |params[key]| > 0 then FirstValues(params, keys)[key := params[key][0]] else FirstValues(params, keys);
    assert FirstValues(params, keys + {key}).Keys == next.Keys;
  }

  /**
   * The placeholder map: the URL parameters' first values, then "target", then, when the target
   * parses as a URL, its host, port, scheme, path ("/" when empty) and scheme://host base.
   */
  function Placeholders(target: String, params: map<String, seq<String>>, url: Option<TargetUrl>): (r: map<String, String>)
    ensures "target" in r && r["target"] == target
    ensures forall key :: key in r <==>
      key == "target" || (url.Some? && key in UrlKeys) || (key in params && |params[key]| > 0)
    ensures forall key | key in params && |params[key]| > 0 && key != "target" && !(url.Some? && key in UrlKeys) ::
      r[key] == params[key][0]
    ensures url.Some? ==>
      r["target_host"] == url.value.host && r["target_port"] == url.value.port && r["target_scheme"] == url.value.scheme
    ensures url.Some? ==> r["target_path"] == (if url.value.path == [] then "/" else url.value.path)
    ensures url.Some? ==> r["target_base"] == url.value.scheme + "://" + url.value.host
  {
    var p := FirstValues(params, params.Keys)["target" := target];
    match url
    case None => p
    case Some(u) =>
      p["target_host" := u.host]["target_port" := u.port]["target_scheme" := u.scheme]
       ["target_path" := if |u.path| > 0 then u.path else "/"]["target_base" := u.scheme + "://" + u.host]
  }

  /** Builds the placeholder map as runNagiosCheck does, one URL parameter at a time. */
  method BuildPlaceholders(target: String, params: map<String, seq<String>>, url: Option<TargetUrl>)
    returns (placeholders: map<String, String>)
    ensures placeholders == Placeholders(target, params, url)
  {
    placeholders := map[];
    var remaining := params.Keys;
    while remaining != {}
      invariant remaining <= params.Keys
      invariant placeholders == FirstValues(params, params.Keys - remaining)
      decreases |remaining|
    {
      var key :| key in remaining;
      FirstValuesStep(params, params.Keys - remaining, key);
      assert params.Keys - (remaining - {key}) == (params.Keys - remaining) + {key};
      if |params[key]| > 0 {
        placeholders := placeholders[key := params[key][0]];
      }
      remaining := remaining - {key};
    }
    assert params.Keys - remaining == params.Keys;
    placeholders := placeholders["target" := target];
    if url.Some? {
      var u := url.value;
      placeholders := placeholders["target_host" := u.host];
      placeholders := placeholders["target_port" := u.port];
      placeholders := placeholders["target_scheme" := u.scheme];
      if |u.path| > 0 {
        placeholders := placeholders["target_path" := u.path];
      } else {
        placeholders := placeholders["target_path" := "/"];
      }
      placeholders := placeholders["target_base" := u.scheme + "://" + u.host];
    }
  }

  // ---------------------------------------------------------------------------------------------
  // Test credentials of a site
  // ---------------------------------------------------------------------------------------------

  /** A site's test client credentials. */
  datatype Credentials = Credentials(id: String, secret: String)

  /** The site accounts service: a site's test credentials, or None when they cannot be had. */
  type CredentialLookup = String -> Option<Credentials>

  const CredentialFailurePrefix: String := "Unable to retrieve test user credentials for site "

  /**
   * The failure message as runNagiosCheck builds it: the `site` it formats is the nil site record
   * returned with the error, which prints as "<nil>", not the site's name.
   */
  function CredentialFailureMessageAsWritten(site: String): String
  {
    CredentialFailurePrefix + "<nil>"
  }

  /** The failure message naming the site whose credentials could not be retrieved. */
  function CredentialFailureMessage(site: String): String
  {
    CredentialFailurePrefix + site
  }

  /** The corrected message tells every site apart. */
  lemma CredentialFailureMessageNamesSite(a: String, b: String)
    ensures CredentialFailureMessage(a) == CredentialFailureMessage(b) <==> a == b
  {
    if CredentialFailureMessage(a) == CredentialFailureMessage(b) {
      assert CredentialFailureMessage(a)[|CredentialFailurePrefix|..] == a;
      assert CredentialFailureMessage(b)[|CredentialFailurePrefix|..] == b;
    }
  }

  /** The message as written is the same for every site, so it names none of them. */
  lemma CredentialFailureMessageAsWrittenLosesSite(site: String)
    requires site != "<nil>"
    ensures CredentialFailureMessageAsWritten(site) == CredentialFailureMessageAsWritten("<nil>")
    ensures CredentialFailureMessageAsWritten(site) != CredentialFailureMessage(site)
  {
    assert CredentialFailureMessage(site)[|CredentialFailurePrefix|..] == site;
    assert CredentialFailureMessageAsWritten(site)[|CredentialFailurePrefix|..] == "<nil>";
  }

  /**
   * With a "site" placeholder, its test credentials become "testclient_id" and
   * "testclient_secret", or the check fails with the message naming the site.
   */
  function AddCredentials(placeholders: map<String, String>, lookup: CredentialLookup): (r: Result<map<String, String>, String>)
    ensures r.Failure? <==> "site" in placeholders && lookup(placeholders["site"]).None?
    ensures r.Failure? ==> r.error == CredentialFailureMessage(placeholders["site"])
    ensures r.Success? && "site" !in placeholders ==> r.value == placeholders
    ensures r.Success? && "site" in placeholders ==>
      r.value.Keys == placeholders.Keys + {"testclient_id", "testclient_secret"} &&
      r.value["testclient_id"] == lookup(placeholders["site"]).value.id &&
      r.value["testclient_secret"] == lookup(placeholders["site"]).value.secret &&
      forall key | key in placeholders && key !in {"testclient_id", "testclient_secret"} :: r.value[key] == placeholders[key]
  {
    if "site" in placeholders then
      match lookup(placeholders["site"])
      case None => Failure(CredentialFailureMessage(placeholders["site"]))
      case Some(c) => Success(placeholders["testclient_id" := c.id]["testclient_secret" := c.secret])
    else Success(placeholders)
  }

  // ---------------------------------------------------------------------------------------------
  // Running the check and classifying its exit
  // ---------------------------------------------------------------------------------------------

  /** The nagios section of a probe module. */
  datatype NagiosModule = NagiosModule(check: String, arguments: seq<String>, proxyUrl: String, treatWarningsAsFailure: bool)

  /** The command the exporter starts; `env` None means the exporter's own environment. */
  datatype Invocation = Invocation(binary: String, args: seq<String>, env: Option<seq<String>>)

  /** How the command ended: its exit code (-1 when it was killed or never exited) and its combined output. */
  datatype Termination = Termination(exitCode: int, output: String)

  /** Everything outside the exporter that a check run consults. */
  datatype Services = Services(
    parseUrl: String -> Option<TargetUrl>,
    credentials: CredentialLookup,
    parentEnv: seq<String>,
    run: Invocation -> Termination,
    parseFloat: NagiosPerfData.FloatParser)

  /** What runNagiosCheck returns: the result code as a status, the message and the perf data. */
  datatype CheckResult = CheckResult(status: Status, message: String, perfData: map<String, real>)

  const TimeoutMessage: String := "The process timed out"

  const UnexpectedExitPrefix: String := "An unexpected exit code was returned: "

  /** The message for an exit code outside the four results; it ends with the code in decimal. */
  function UnexpectedExitMessage(code: int): (m: String)
    ensures HasPrefix(m, UnexpectedExitPrefix)
    ensures ParseInt(m[|UnexpectedExitPrefix|..]) == Some(code)
  {
    var m := UnexpectedExitPrefix + IntToDecimal(code);
    assert m[|UnexpectedExitPrefix|..] == IntToDecimal(code);
    m
  }

  /**
   * The switch on the exit code: -1 is a timeout (Error), the four plugin results pass through
   * with the message and perf data of the output, anything else is Unknown.
   */
  function ClassifyExit(exitCode: int, output: String, parse: NagiosPerfData.FloatParser): (r: CheckResult)
    ensures r.status.Code() == exitCode <==> 0 <= exitCode <= 3
    ensures exitCode == -1 ==> r == CheckResult(Error, TimeoutMessage, map[])
    ensures 0 <= exitCode <= 3 ==>
      r.message == NagiosOutput.SplitOutput(output).message &&
      r.perfData == NagiosPerfData.PerfMap(NagiosOutput.SplitOutput(output).perfData, parse)
    ensures !(0 <= exitCode <= 3) ==> r.perfData == map[]
    ensures exitCode != -1 && !(0 <= exitCode <= 3) ==>
      r.status == Unknown && HasPrefix(r.message, UnexpectedExitPrefix) &&
      ParseInt(r.message[|UnexpectedExitPrefix|..]) == Some(exitCode)
  {
    if exitCode == -1 then CheckResult(Error, TimeoutMessage, map[])
    else
      match StatusOfCode(exitCode)
      case Some(status) =>
        var split := NagiosOutput.SplitOutput(output);
        CheckResult(status, split.message, NagiosPerfData.PerfMap(split.perfData, parse))
      case None => CheckResult(Unknown, UnexpectedExitMessage(exitCode), map[])
  }

  /** The result of a check run, and the command it started, if any. */
  datatype RunOutcome = RunOutcome(result: CheckResult, invocation: Option<Invocation>)

  /** runNagiosCheck. */
  function RunCheck(binary: String, target: String, params: map<String, seq<String>>, config: NagiosModule, services: Services): RunOutcome
  {
    var placeholders := Placeholders(target, params, services.parseUrl(target));
    match AddCredentials(placeholders, services.credentials)
    case Failure(message) => RunOutcome(CheckResult(Error, message, map[]), None)
    case Success(values) =>
      var invocation := Invocation(binary, NagiosArguments.ParseArguments(config.arguments, values),
                                   ProxyEnvironment.ChildEnvironment(services.parentEnv, config.proxyUrl));
      var t := services.run(invocation);
      RunOutcome(ClassifyExit(t.exitCode, t.output, services.parseFloat), Some(invocation))
  }

  /** Runs the check: builds the placeholders and the arguments, starts the command, classifies its exit. */
  method RunNagiosCheck(binary: String, target: String, params: map<String, seq<String>>, config: NagiosModule, services: Services)
    returns (result: CheckResult, invocation: Option<Invocation>)
    ensures RunOutcome(result, invocation) == RunCheck(binary, target, params, config, services)
  {
    var placeholders := BuildPlaceholders(target, params, services.parseUrl(target));
    if "site" in placeholders {
      var site := placeholders["site"];
      var credentials := services.credentials(site);
      if credentials.None? {
        return CheckResult(Error, CredentialFailureMessage(site), map[]), None;
      }
      placeholders := placeholders["testclient_id" := credentials.value.id];
      placeholders := placeholders["testclient_secret" := credentials.value.secret];
    }
    var args := NagiosArguments.ParseNagiosArguments(config.arguments, placeholders);
    var env := ProxyEnvironment.ChildEnvironment(services.parentEnv, config.proxyUrl);
    invocation := Some(Invocation(binary, args, env));
    var t := services.run(invocation.value);
    var status := StatusOfCode(t.exitCode);
    if t.exitCode == -1 {
      result := CheckResult(Error, TimeoutMessage, map[]);
    } else if status.Some? {
      var message, perfData, log := NagiosOutput.SplitNagiosOutput(t.output);
      var dataMap := NagiosPerfData.ParseNagiosPerfData(perfData, services.parseFloat);
      result := CheckResult(status.value, message, dataMap);
    } else {
      result := CheckResult(Unknown, UnexpectedExitMessage(t.exitCode), map[]);
    }
  }

  /** A credential failure ends the run with Error before any command is started. */
  lemma CredentialFailureStartsNothing(binary: String, target: String, params: map<String, seq<String>>, config: NagiosModule, services: Services)
    requires "site" in params && |params["site"]| > 0
    requires services.credentials(params["site"][0]).None?
    ensures RunCheck(binary, target, params, config, services) ==
      RunOutcome(CheckResult(Error, CredentialFailureMessage(params["site"][0]), map[]), None)
  {
    var placeholders := Placeholders(target, params, services.parseUrl(target));
    assert "site" !in UrlKeys;
    assert placeholders["site"] == params["site"][0];
  }

  /**
   * Without a credential failure the command is the resolved binary with the templated arguments
   * and, with a proxy, the exporter's environment plus the proxy variables.
   */
  lemma RunStartsCommand(binary: String, target: String, params: map<String, seq<String>>, config: NagiosModule, services: Services)
    requires AddCredentials(Placeholders(target, params, services.parseUrl(target)), services.credentials).Success?
    ensures var values := AddCredentials(Placeholders(target, params, services.parseUrl(target)), services.credentials).value;
      var run := RunCheck(binary, target, params, config, services);
      run.invocation.Some? && run.invocation.value.binary == binary &&
      run.invocation.value.args == NagiosArguments.ParseArguments(config.arguments, values) &&
      |run.invocation.value.args| == |NagiosArguments.SplitArguments(config.arguments)| &&
      run.invocation.value.env == ProxyEnvironment.ChildEnvironment(services.parentEnv, config.proxyUrl) &&
      run.result == ClassifyExit(services.run(run.invocation.value).exitCode, services.run(run.invocation.value).output, services.parseFloat)
  {
    var values := AddCredentials(Placeholders(target, params, services.parseUrl(target)), services.credentials).value;
    NagiosArguments.ParseArgumentsLength(config.arguments, values);
  }

  // ---------------------------------------------------------------------------------------------
  // The probe
  // ---------------------------------------------------------------------------------------------

  /** The verdict: OK succeeds, Warning succeeds unless warnings count as failures. */
  function Succeeded(status: Status, treatWarningsAsFailure: bool): (r: bool)
    ensures r <==> status.Code() == 0 || (status.Code() == 1 && !treatWarningsAsFailure)
  {
    status == OK || (status == Warning && !treatWarningsAsFailure)
  }

  /** Counting warnings as failures only ever turns a success into a failure, and only for Warning. */
  lemma StricterVerdict(status: Status)
    ensures Succeeded(status, true) ==> Succeeded(status, false)
    ensures Succeeded(status, false) != Succeeded(status, true) <==> status == Warning
  {
  }

  const ResolveFailureLabel: String := "Error resolving the Nagios check binary"

  /**
   * What a probe publishes and returns: the success verdict, the output label and value of the
   * probe_nagios_result gauge, the probe_nagios_perfdata gauges, and the command started, if any.
   */
  datatype ProbeOutcome = ProbeOutcome(success: bool, message: String, value: int, perfData: map<String, real>, invocation: Option<Invocation>)

  /** ProbeNagios. */
  function Probe(target: String, params: map<String, seq<String>>, config: NagiosModule, host: Host, services: Services): ProbeOutcome
  {
    match ResolveCheckBinary(config.check, host)
    case Failure(_) => ProbeOutcome(false, ResolveFailureLabel, Unknown.Code(), map[], None)
    case Success(binary) =>
      var run := RunCheck(binary, target, params, config, services);
      ProbeOutcome(Succeeded(run.result.status, config.treatWarningsAsFailure),
                   run.result.message, run.result.status.Code(), run.result.perfData, run.invocation)
  }

  /** Runs the probe: resolves the binary, runs the check and publishes its result. */
  method ProbeNagios(target: String, params: map<String, seq<String>>, config: NagiosModule, host: Host, services: Services)
    returns (outcome: ProbeOutcome)
    ensures outcome == Probe(target, params, config, host, services)
  {
    var resolved := ResolveCheckBinary(config.check, host);
    if resolved.Success? {
      var result, invocation := RunNagiosCheck(resolved.value, target, params, config, services);
      var success := Succeeded(result.status, config.treatWarningsAsFailure);
      outcome := ProbeOutcome(success, result.message, result.status.Code(), result.perfData, invocation);
    } else {
      outcome := ProbeOutcome(false, ResolveFailureLabel, Unknown.Code(), map[], None);
    }
  }

  /** A binary that cannot be resolved fails the probe, publishes Unknown and starts nothing. */
  lemma ResolutionFailureFailsProbe(target: String, params: map<String, seq<String>>, config: NagiosModule, host: Host, services: Services)
    requires ResolveCheckBinary(config.check, host).Failure?
    ensures var outcome := Probe(target, params, config, host, services);
      !outcome.success && outcome.message == ResolveFailureLabel && outcome.value == 3 &&
      outcome.perfData == map[] && outcome.invocation.None?
  {
  }

  /**
   * Once the binary is resolved, the probe succeeds exactly when the published result is 0, or 1
   * with warnings not counted as failures; the published value is always a plugin result.
   */
  lemma ProbeVerdict(target: String, params: map<String, seq<String>>, config: NagiosModule, host: Host, services: Services)
    requires ResolveCheckBinary(config.check, host).Success?
    ensures var outcome := Probe(target, params, config, host, services);
      0 <= outcome.value <= 3 &&
      (outcome.success <==> outcome.value == 0 || (outcome.value == 1 && !config.treatWarningsAsFailure))
  {
  }

  /** A check that exits with code -1 or an unknown code never makes the probe succeed. */
  lemma AbnormalExitFailsProbe(target: String, params: map<String, seq<String>>, config: NagiosModule, host: Host, services: Services, binary: String)
    requires ResolveCheckBinary(config.check, host) == Success(binary)
    requires var run := RunCheck(binary, target, params, config, services);
      run.invocation.Some? && !(0 <= services.run(run.invocation.value).exitCode <= 3)
    ensures var outcome := Probe(target, params, config, host, services);
      !outcome.success && outcome.perfData == map[] && (outcome.value == 2 || outcome.value == 3)
  {
  }
}
