/**
 * The stateful part of `SSHTunnelService`: the redirect-capability probe,
 * root commands, connection set-up and tear-down, and the reconnect decision
 * of `connectionLost`.
 *
 * Everything the service does to the outside world is recorded, in order, in
 * `trace`: commands run as root, text written to the pty, the one-second
 * pause before reconnecting, and the request to stop the service.
 */
module TunnelService {
  import opened JavaLang
  import opened IptablesRules
  import Login

  /**
   * A rule batch is a root command like the others, and the ssh command
   * line is a pty write like the others; for both the trace keeps what the
   * text was built from, and `Command` and `PtyText` give the text.
   */
  datatype Effect =
    | RootCommand(command: string)
    | RuleBatch(action: Action, config: RuleConfig)
    | SshCommand(session: Login.ConnectConfig)
    | PtyWrite(text: string)
    | Sleep(millis: int)
    | StopSelf

  /** The text handed to the root shell, for the effects that run one. */
  function Command(e: Effect): (r: Option<string>)
    ensures r.Some? <==> e.RootCommand? || e.RuleBatch?
  {
    match e
    case RootCommand(c) => Some(c)
    case RuleBatch(a, cfg) => Some(RuleText(a, cfg))
    case _ => None
  }

  /** The text written to the pty, for the effects that write one. */
  function PtyText(e: Effect): (r: Option<string>)
    ensures r.Some? <==> e.SshCommand? || e.PtyWrite?
  {
    match e
    case SshCommand(session) => Some(Login.CommandLine(session) + "\n")
    case PtyWrite(text) => Some(text)
    case _ => None
  }

  /** The stderr text by which iptables reports a missing target such as REDIRECT. */
  const NO_CHAIN: string := "No chain/target/match"

  /** The probe keeps REDIRECT support unless some stderr line carries the error text. */
  function RedirectSupported(stderr: seq<string>): (b: bool)
    ensures b <==> forall i :: 0 <= i < |stderr| ==> !Contains(stderr[i], NO_CHAIN)
  {
    if stderr == [] then true
    else !Contains(stderr[0], NO_CHAIN) && RedirectSupported(stderr[1..])
  }

  function PtyWrites(written: seq<string>): (r: seq<Effect>)
    ensures |r| == |written|
    ensures forall i :: 0 <= i < |written| ==> r[i] == PtyWrite(written[i])
  {
    seq(|written|, i requires 0 <= i < |written| => PtyWrite(written[i]))
  }

  /** What `connect` does: the command line and the answers on the pty, then on success the proxy start and the rules. */
  function ConnectEffects(session: Login.ConnectConfig, outcome: Login.Outcome, answers: seq<string>, proxyStart: string, rules: RuleConfig): seq<Effect>
  {
    [SshCommand(session)] + PtyWrites(answers) + (if outcome == Login.Connected then [RootCommand(proxyStart), RuleBatch(Append, rules)] else [])
  }

  /** A login that does not connect runs nothing as root: `finishConnection` is not reached. */
  lemma UnconnectedLoginRunsNoRootCommand(session: Login.ConnectConfig, outcome: Login.Outcome, answers: seq<string>, proxyStart: string, rules: RuleConfig)
    requires outcome != Login.Connected
    ensures var effects := ConnectEffects(session, outcome, answers, proxyStart, rules);
      |effects| == 1 + |answers| && forall i :: 0 <= i < |effects| ==> Command(effects[i]) == None
  {
    var effects := ConnectEffects(session, outcome, answers, proxyStart, rules);
    assert effects == [SshCommand(session)] + PtyWrites(answers);
    assert forall i :: 1 <= i < |effects| ==> effects[i] == PtyWrite(answers[i - 1]);
  }

  const PROXY_HTTP_STOP: string := BASE + "proxy_http.sh stop"

  /** The start command for the local proxy script of the current mode. */
  function ProxyStart(isSocks: bool, localPort: int): string
  {
    BASE + (if isSocks then "proxy_socks.sh start " else "proxy_http.sh start ") + IntToString(localPort)
  }

  class SshTunnelService {
    const host: string
    var hostIP: string
    const port: int
    const localPort: int
    const remotePort: int
    const user: string
    const password: string
    const isAutoSetProxy: bool
    const isSocks: bool
    var apps: seq<ProxiedApp>
    /** What `AppManager.getApps` would return: the installed applications and the user's choices. */
    const installedApps: seq<ProxiedApp>
    /** The start command of the local proxy script; it depends only on the mode and the local port. */
    const proxyStart: string
    var hasRedirectSupport: bool
    var connected: bool
    var trace: seq<Effect>

    constructor (host: string, port: int, localPort: int, remotePort: int, user: string, password: string,
                 isAutoSetProxy: bool, isSocks: bool, installedApps: seq<ProxiedApp>)
      ensures this.host == host && this.port == port && this.localPort == localPort
      ensures this.remotePort == remotePort && this.user == user && this.password == password
      ensures this.isAutoSetProxy == isAutoSetProxy && this.isSocks == isSocks
      ensures this.installedApps == installedApps && apps == []
      ensures proxyStart == ProxyStart(isSocks, localPort)
      ensures hostIP == "127.0.0.1" && hasRedirectSupport && !connected && trace == []
    {
      this.host := host;
      this.hostIP := "127.0.0.1";
      this.port := port;
      this.localPort := localPort;
      this.remotePort := remotePort;
      this.user := user;
      this.password := password;
      this.isAutoSetProxy := isAutoSetProxy;
      this.isSocks := isSocks;
      this.apps := [];
      this.installedApps := installedApps;
      this.proxyStart := ProxyStart(isSocks, localPort);
      this.hasRedirectSupport := true;
      this.connected := false;
      this.trace := [];
    }

    /** The configuration the rule builders read, for the given values of the mutable fields. */
    function Rules(redirect: bool, apps: seq<ProxiedApp>, ip: string): RuleConfig
    {
      RuleConfig(redirect, isAutoSetProxy, apps, Some(ip), isSocks)
    }

    /** What `connect` reads, for a given server address. */
    function Session(ip: string): Login.ConnectConfig
    {
      Login.ConnectConfig(isSocks, localPort, port, remotePort, user, ip, password)
    }

    /** `runRootCommand`: the command is handed to a root shell. */
    method RunRootCommand(command: string)
      modifies this
      ensures trace == old(trace) + [RootCommand(command)]
      ensures hostIP == old(hostIP) && apps == old(apps) && connected == old(connected)
      ensures hasRedirectSupport == old(hasRedirectSupport)
    {
      trace := trace + [RootCommand(command)];
    }

    /** `runRootCommand` on the rule text built for `action` from `config`. */
    method RunRuleBatch(action: Action, config: RuleConfig)
      modifies this
      ensures trace == old(trace) + [RuleBatch(action, config)]
      ensures hostIP == old(hostIP) && apps == old(apps) && connected == old(connected)
      ensures hasRedirectSupport == old(hasRedirectSupport)
    {
      trace := trace + [RuleBatch(action, config)];
    }

    /**
     * `initHasRedirectSupported`: the probe rule is run, its stderr scanned
     * up to the first error line, and the probe rule deleted again.
     */
    method InitHasRedirectSupported(stderr: seq<string>)
      modifies this
      ensures hasRedirectSupport == (old(hasRedirectSupport) && RedirectSupported(stderr))
      ensures trace == old(trace) + [RootCommand(ProbeRule(Append)), RootCommand(ProbeRule(Delete))]
      ensures hostIP == old(hostIP) && apps == old(apps) && connected == old(connected)
    {
      var command := ProbeRule(Append);
      trace := trace + [RootCommand(command)];
      var i := 0;
      while i < |stderr|
        invariant 0 <= i <= |stderr|
        invariant RedirectSupported(stderr) == RedirectSupported(stderr[i..])
        invariant hasRedirectSupport == old(hasRedirectSupport)
        invariant trace == old(trace) + [RootCommand(command)]
        invariant hostIP == old(hostIP) && apps == old(apps) && connected == old(connected)
      {
        assert stderr[i..][1..] == stderr[i + 1..];
        if Contains(stderr[i], NO_CHAIN) {
          hasRedirectSupport := false;
          break;
        }
        i := i + 1;
      }
      ProbeCleanupDeletesProbe();
      RunRootCommand(ReplaceAll(command, "-A", "-D"));
    }

    /** The application list is fetched from `AppManager` when needed and still empty. */
    method RefreshApps()
      modifies this
      ensures apps == (if !isAutoSetProxy && old(apps) == [] then installedApps else old(apps))
      ensures trace == old(trace) && hostIP == old(hostIP) && connected == old(connected)
      ensures hasRedirectSupport == old(hasRedirectSupport)
    {
      if !isAutoSetProxy && apps == [] {
        apps := installedApps;
      }
    }

    /** `finishConnection`: the proxy script is started and the redirect rules appended. */
    method FinishConnection()
      modifies this
      ensures apps == (if !isAutoSetProxy && old(apps) == [] then installedApps else old(apps))
      ensures trace == old(trace) + [RootCommand(proxyStart), RuleBatch(Append, Rules(hasRedirectSupport, apps, hostIP))]
      ensures hostIP == old(hostIP) && connected == old(connected)
      ensures hasRedirectSupport == old(hasRedirectSupport)
    {
      RunRootCommand(proxyStart);
      RefreshApps();
      RunRuleBatch(Append, Rules(hasRedirectSupport, apps, hostIP));
    }

    /** `onDisconnect`: the redirect rules are deleted and the HTTP proxy script stopped. */
    method OnDisconnect()
      modifies this
      ensures !connected
      ensures apps == (if !isAutoSetProxy && old(apps) == [] then installedApps else old(apps))
      ensures trace == old(trace) + [RuleBatch(Delete, Rules(hasRedirectSupport, apps, hostIP)), RootCommand(PROXY_HTTP_STOP)]
      ensures hostIP == old(hostIP) && hasRedirectSupport == old(hasRedirectSupport)
    {
      connected := false;
      RefreshApps();
      RunRuleBatch(Delete, Rules(hasRedirectSupport, apps, hostIP));
      RunRootCommand(PROXY_HTTP_STOP);
    }

    /** `connect`: the login dialogue on the pty, then, when it succeeds, `finishConnection`. */
    method Connect(script: seq<Login.PtyRead>) returns (outcome: Login.Outcome, answers: seq<string>)
      requires Login.WellFormed(script)
      modifies this
      ensures (outcome, answers) == Login.Prompts(password, script)
      ensures trace == old(trace) + ConnectEffects(Session(hostIP), outcome, answers, proxyStart, Rules(hasRedirectSupport, apps, hostIP))
      ensures apps == (if outcome == Login.Connected && !isAutoSetProxy && old(apps) == [] then installedApps else old(apps))
      ensures hostIP == old(hostIP) && connected == old(connected)
      ensures hasRedirectSupport == old(hasRedirectSupport)
    {
      trace := trace + [SshCommand(Session(hostIP))];
      outcome, answers := Login.AnswerPrompts(password, script);
      trace := trace + PtyWrites(answers);
      if outcome == Login.Connected {
        FinishConnection();
      }
    }

    /**
     * `handleCommand`: a resolved, non-empty address replaces `hostIP`; an
     * unknown host fails before any connection attempt.
     */
    method HandleCommand(resolved: Option<string>, script: seq<Login.PtyRead>) returns (outcome: Login.Outcome)
      requires Login.WellFormed(script)
      modifies this
      ensures resolved == None ==> outcome == Login.Failed && trace == old(trace) && hostIP == old(hostIP) && apps == old(apps)
      ensures resolved.Some? ==>
        hostIP == (if resolved.value != "" then resolved.value else old(hostIP))
        && outcome == Login.Prompts(password, script).0
        && trace == old(trace) + ConnectEffects(Session(hostIP), outcome, Login.Prompts(password, script).1, proxyStart,
                                                Rules(hasRedirectSupport, apps, hostIP))
        && apps == (if outcome == Login.Connected && !isAutoSetProxy && old(apps) == [] then installedApps else old(apps))
      ensures connected == old(connected) && hasRedirectSupport == old(hasRedirectSupport)
    {
      if resolved == None {
        return Login.Failed;
      }
      var ip := resolved.value;
      if ip != "" {
        hostIP := ip;
      }
      var answers;
      outcome, answers := Connect(script);
    }

    /**
     * `connectionLost`: nothing happens while disconnected; offline or without
     * auto-reconnect the service stops; otherwise it reconnects.
     */
    method ConnectionLost(isReconnect: bool, isOnline: bool, script: seq<Login.PtyRead>)
      requires Login.WellFormed(script)
      modifies this
      ensures !old(connected) ==> trace == old(trace) && !connected
      ensures old(connected) && (!isOnline || !isReconnect) ==> trace == old(trace) + [StopSelf] && !connected
      ensures !(old(connected) && isOnline && isReconnect) ==> apps == old(apps)
      ensures old(connected) && isOnline && isReconnect ==>
        connected
        && apps == (if !isAutoSetProxy && old(apps) == [] then installedApps else old(apps))
        && trace == old(trace) + [Sleep(1000), RuleBatch(Delete, Rules(hasRedirectSupport, apps, hostIP)), RootCommand(PROXY_HTTP_STOP)]
                    + ConnectEffects(Session(hostIP), Login.Prompts(password, script).0, Login.Prompts(password, script).1,
                                     proxyStart, Rules(hasRedirectSupport, apps, hostIP))
      ensures hostIP == old(hostIP) && hasRedirectSupport == old(hasRedirectSupport)
    {
      if !connected {
        return;
      }
      if !isOnline || !isReconnect {
        connected := false;
        trace := trace + [StopSelf];
        return;
      }
      var outcome, answers := Reconnect(script);
    }

    /**
     * The reconnect branch of `connectionLost`: after one second the rules are
     * deleted and the connection made again, and the service counts as
     * connected whatever the login's outcome.
     */
    method Reconnect(script: seq<Login.PtyRead>) returns (outcome: Login.Outcome, answers: seq<string>)
      requires Login.WellFormed(script)
      modifies this
      ensures connected
      ensures (outcome, answers) == Login.Prompts(password, script)
      ensures apps == (if !isAutoSetProxy && old(apps) == [] then installedApps else old(apps))
      ensures trace == old(trace) + [Sleep(1000), RuleBatch(Delete, Rules(hasRedirectSupport, apps, hostIP)), RootCommand(PROXY_HTTP_STOP)]
                       + ConnectEffects(Session(hostIP), outcome, answers, proxyStart, Rules(hasRedirectSupport, apps, hostIP))
      ensures hostIP == old(hostIP) && hasRedirectSupport == old(hasRedirectSupport)
    {
      trace := trace + [Sleep(1000)];
      OnDisconnect();
      ghost var t2 := trace;
      outcome, answers := Connect(script);
      assert trace == t2 + ConnectEffects(Session(hostIP), outcome, answers, proxyStart, Rules(hasRedirectSupport, apps, hostIP));
      connected := true;
    }
  }
}
