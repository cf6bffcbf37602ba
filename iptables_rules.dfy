/**
 * The firewall rule text that `finishConnection` installs and `onDisconnect`
 * removes, and the probe command of `initHasRedirectSupported`.
 *
 * Both builders are one function here, `RuleText`, parameterised by the
 * action flag (`-A` to append a rule, `-D` to delete it). The text is built
 * as the service builds it: a DNS rule, then the TCP template (once, or once
 * per proxied application with an owner clause spliced in by
 * `String.replace`), then the host exclusion and the SOCKS port remap, both
 * again by `String.replace`.
 */
module IptablesRules {
  import opened JavaLang

  const BASE: string := "/data/data/org.sshtunnel.beta/"

  datatype Action = Append | Delete

  function FlagChar(a: Action): char
  {
    match a
    case Append => 'A'
    case Delete => 'D'
  }

  /** The iptables option selecting the action: `-A` or `-D`. */
  function Flag(a: Action): string
  {
    "-" + [FlagChar(a)]
  }

  /** The start of every rule line, up to the action flag. */
  const NAT_PREFIX: string := BASE + "iptables -t nat "

  /** Where a matched packet goes: a local port, or (without REDIRECT support) the same port by DNAT to the loopback address. */
  function Target(hasRedirectSupport: bool, toPort: string): string
  {
    if hasRedirectSupport then "REDIRECT --to-ports " + toPort
    else "DNAT --to-destination 127.0.0.1:" + toPort
  }

  /** A rule after its action flag. */
  function RuleTail(proto: string, dport: string, target: string): string
  {
    " OUTPUT -p " + proto + " --dport " + dport + " -j " + target + "\n"
  }

  /** The DNS rule: UDP port 53 sent to the local resolver on 8153. */
  function DnsRule(a: Action, hasRedirectSupport: bool): string
  {
    NAT_PREFIX + Flag(a) + DnsTail(hasRedirectSupport)
  }

  function DnsTail(hasRedirectSupport: bool): string
  {
    RuleTail("udp", "53", Target(hasRedirectSupport, "8153"))
  }

  /** The two TCP rules of one template: port 80 to 8123 and port 443 to 8124. */
  function TcpPair(a: Action, hasRedirectSupport: bool): string
  {
    NAT_PREFIX + Flag(a) + TcpTail80(hasRedirectSupport) + NAT_PREFIX + Flag(a) + TcpTail443(hasRedirectSupport)
  }

  function TcpTail80(hasRedirectSupport: bool): string
  {
    RuleTail("tcp", "80", Target(hasRedirectSupport, "8123"))
  }

  function TcpTail443(hasRedirectSupport: bool): string
  {
    RuleTail("tcp", "443", Target(hasRedirectSupport, "8124"))
  }

  const CMD_IPTABLES_REDIRECT_ADD: string := TcpPair(Append, true)
  const CMD_IPTABLES_REDIRECT_DEL: string := TcpPair(Delete, true)
  const CMD_IPTABLES_DNAT_ADD: string := TcpPair(Append, false)
  const CMD_IPTABLES_DNAT_DEL: string := TcpPair(Delete, false)

  /** An application as the rule builder sees it: its Linux uid and whether the user chose to proxy it. */
  datatype ProxiedApp = ProxiedApp(uid: int, proxied: bool)

  /** The configuration both builders read; `hostIP == None` is the `hostIP == null` branch. */
  datatype RuleConfig = RuleConfig(
    hasRedirectSupport: bool,
    isAutoSetProxy: bool,
    apps: seq<ProxiedApp>,
    hostIP: Option<string>,
    isSocks: bool)

  function OwnerClause(uid: int): string
  {
    "-t nat -m owner --uid-owner " + IntToString(uid)
  }

  /** The per-application loop: one copy of the template for each proxied application, in order. */
  function AppRules(template: string, apps: seq<ProxiedApp>): string
  {
    if apps == [] then ""
    else
      (if apps[0].proxied then ReplaceAll(template, "-t nat", OwnerClause(apps[0].uid)) else "")
      + AppRules(template, apps[1..])
  }

  /** The per-application loop over two lists is the loop over the first, then over the second: the rules follow the application order. */
  lemma {:induction false} AppRulesConcat(template: string, xs: seq<ProxiedApp>, ys: seq<ProxiedApp>)
    ensures AppRules(template, xs + ys) == AppRules(template, xs) + AppRules(template, ys)
    decreases |xs|
  {
    if xs != [] {
      assert (xs + ys)[0] == xs[0] && (xs + ys)[1..] == xs[1..] + ys;
      AppRulesConcat(template, xs[1..], ys);
      AppendAssoc(if xs[0].proxied then ReplaceAll(template, "-t nat", OwnerClause(xs[0].uid)) else "",
        AppRules(template, xs[1..]), AppRules(template, ys));
    } else {
      assert xs + ys == ys;
    }
  }

  /** Applications the user did not choose contribute no rules. */
  lemma {:induction false} UnproxiedAppsAddNothing(template: string, apps: seq<ProxiedApp>)
    requires forall i :: 0 <= i < |apps| ==> !apps[i].proxied
    ensures AppRules(template, apps) == ""
    decreases |apps|
  {
    if apps != [] {
      assert !apps[0].proxied;
      UnproxiedAppsAddNothing(template, apps[1..]);
    }
  }

  function Exclusion443(ip: string): string { "! -d " + ip + " --dport 443" }
  function Exclusion80(ip: string): string { "! -d " + ip + " --dport 80" }

  /** The contents of the `StringBuffer` `cmd` once the rules have been appended. */
  function Commands(a: Action, cfg: RuleConfig): string
  {
    var template := TcpPair(a, cfg.hasRedirectSupport);
    DnsRule(a, cfg.hasRedirectSupport) + (if cfg.isAutoSetProxy then template else AppRules(template, cfg.apps))
  }

  /** The host exclusion and the SOCKS port remap applied to the whole text. */
  function Rewrite(cmd: string, hostIP: Option<string>, isSocks: bool): string
  {
    var rules :=
      if hostIP.Some? then
        ReplaceAll(ReplaceAll(cmd, "--dport 443", Exclusion443(hostIP.value)), "--dport 80", Exclusion80(hostIP.value))
      else cmd;
    if isSocks then ReplaceAll(rules, "8124", "8123") else rules
  }

  /** The rule text passed to `runRootCommand` by `finishConnection` (`Append`) and `onDisconnect` (`Delete`). */
  function RuleText(a: Action, cfg: RuleConfig): string
  {
    Rewrite(Commands(a, cfg), cfg.hostIP, cfg.isSocks)
  }

  /** The capability probe of `initHasRedirectSupported`, and with `Delete` its cleanup. */
  function ProbeRule(a: Action): string
  {
    NAT_PREFIX + Flag(a) + PROBE_TAIL
  }

  const PROBE_TAIL: string := " OUTPUT -p udp --dport 53 -j " + Target(true, "8153")

  // ---------------------------------------------------------------------
  // Woven text: segments that do not depend on the action, joined by its flag.
  // ---------------------------------------------------------------------

  /** `segs[0] + "-c" + segs[1] + "-c" + ... + segs[|segs| - 1]`. */
  function Weave(segs: seq<string>, c: char): string
    requires |segs| > 0
  {
    if |segs| == 1 then segs[0] else segs[0] + "-" + [c] + Weave(segs[1..], c)
  }

  /** The segments of the concatenation of two woven texts: the last of `a` joins the first of `b`. */
  function Glue(a: seq<string>, b: seq<string>): (r: seq<string>)
    requires |a| > 0 && |b| > 0
    ensures |r| == |a| + |b| - 1
  {
    a[..|a| - 1] + [a[|a| - 1] + b[0]] + b[1..]
  }

  function MapReplace(segs: seq<string>, p: string, q: string): (r: seq<string>)
    ensures |r| == |segs|
    ensures forall k :: 0 <= k < |segs| ==> r[k] == ReplaceAll(segs[k], p, q)
  {
    seq(|segs|, k requires 0 <= k < |segs| => ReplaceAll(segs[k], p, q))
  }

  lemma {:induction false} WeaveGlue(a: seq<string>, b: seq<string>, c: char)
    requires |a| > 0 && |b| > 0
    ensures Weave(a, c) + Weave(b, c) == Weave(Glue(a, b), c)
    decreases |a|
  {
    if |a| == 1 {
      assert Glue(a, b) == [a[0] + b[0]] + b[1..];
      if |b| > 1 {
        assert Glue(a, b)[1..] == b[1..];
      }
    } else {
      WeaveGlue(a[1..], b, c);
      assert Glue(a, b)[1..] == Glue(a[1..], b);
    }
  }

  /** A replacement whose pattern holds neither flag letter and does not end in `-` never meets a flag. */
  lemma ReplaceAroundFlag(x: string, y: string, c: char, p: string, q: string)
    requires |p| > 0 && c !in p && p[|p| - 1] != '-'
    ensures ReplaceAll(x + "-" + [c] + y, p, q) == ReplaceAll(x, p, q) + "-" + [c] + ReplaceAll(y, p, q)
  {
    ReplaceAroundBarrier(x + "-", y, p, q, c);
    ReplaceBeforeChar(x, '-', p, q);
  }

  lemma {:induction false} WeaveReplace(segs: seq<string>, c: char, p: string, q: string)
    requires |segs| > 0 && |p| > 0 && c !in p && p[|p| - 1] != '-'
    ensures ReplaceAll(Weave(segs, c), p, q) == Weave(MapReplace(segs, p, q), c)
    decreases |segs|
  {
    if |segs| > 1 {
      ReplaceAroundFlag(segs[0], Weave(segs[1..], c), c, p, q);
      WeaveReplace(segs[1..], c, p, q);
      assert MapReplace(segs, p, q)[1..] == MapReplace(segs[1..], p, q);
    }
  }

  // The segments of each piece of the rule text.

  function DnsSegs(hasRedirectSupport: bool): seq<string>
  {
    [NAT_PREFIX, DnsTail(hasRedirectSupport)]
  }

  function PairSegs(hasRedirectSupport: bool): seq<string>
  {
    [NAT_PREFIX, TcpTail80(hasRedirectSupport) + NAT_PREFIX, TcpTail443(hasRedirectSupport)]
  }

  /** The segments of `AppRules` for a template with segments `segs`. */
  function AppSegs(segs: seq<string>, apps: seq<ProxiedApp>): (r: seq<string>)
    requires |segs| > 0
    ensures |r| > 0
  {
    if apps == [] then [""]
    else
      Glue(if apps[0].proxied then MapReplace(segs, "-t nat", OwnerClause(apps[0].uid)) else [""],
           AppSegs(segs, apps[1..]))
  }

  function CommandSegs(cfg: RuleConfig): (r: seq<string>)
    ensures |r| > 0
  {
    var r := cfg.hasRedirectSupport;
    Glue(DnsSegs(r), if cfg.isAutoSetProxy then PairSegs(r) else AppSegs(PairSegs(r), cfg.apps))
  }

  function RewriteSegs(segs: seq<string>, hostIP: Option<string>, isSocks: bool): (r: seq<string>)
    ensures |r| == |segs|
  {
    var rules :=
      if hostIP.Some? then
        MapReplace(MapReplace(segs, "--dport 443", Exclusion443(hostIP.value)), "--dport 80", Exclusion80(hostIP.value))
      else segs;
    if isSocks then MapReplace(rules, "8124", "8123") else rules
  }

  function RuleSegs(cfg: RuleConfig): (r: seq<string>)
    ensures |r| > 0
  {
    RewriteSegs(CommandSegs(cfg), cfg.hostIP, cfg.isSocks)
  }

  lemma Weave2(x: string, y: string, c: char)
    ensures Weave([x, y], c) == x + "-" + [c] + y
  {
    assert [x, y][1..] == [y];
  }

  lemma Weave3(x: string, y: string, z: string, c: char)
    ensures Weave([x, y, z], c) == x + "-" + [c] + y + "-" + [c] + z
  {
    assert [x, y, z][1..] == [y, z];
    Weave2(y, z, c);
  }

  lemma DnsWoven(a: Action, hasRedirectSupport: bool)
    ensures DnsRule(a, hasRedirectSupport) == Weave(DnsSegs(hasRedirectSupport), FlagChar(a))
  {
    Weave2(NAT_PREFIX, DnsTail(hasRedirectSupport), FlagChar(a));
  }

  lemma PairShape(pre: string, t80: string, t443: string, c: char)
    ensures pre + ("-" + [c]) + t80 + pre + ("-" + [c]) + t443 == Weave([pre, t80 + pre, t443], c)
  {
    Weave3(pre, t80 + pre, t443, c);
  }

  lemma PairWoven(a: Action, hasRedirectSupport: bool)
    ensures TcpPair(a, hasRedirectSupport) == Weave(PairSegs(hasRedirectSupport), FlagChar(a))
  {
    PairShape(NAT_PREFIX, TcpTail80(hasRedirectSupport), TcpTail443(hasRedirectSupport), FlagChar(a));
  }

  lemma {:induction false} AppsWoven(template: string, segs: seq<string>, c: char, apps: seq<ProxiedApp>)
    requires |segs| > 0 && template == Weave(segs, c) && (c == 'A' || c == 'D')
    ensures AppRules(template, apps) == Weave(AppSegs(segs, apps), c)
  {
    if apps != [] {
      var head := if apps[0].proxied then MapReplace(segs, "-t nat", OwnerClause(apps[0].uid)) else [""];
      if apps[0].proxied {
        WeaveReplace(segs, c, "-t nat", OwnerClause(apps[0].uid));
      }
      AppsWoven(template, segs, c, apps[1..]);
      WeaveGlue(head, AppSegs(segs, apps[1..]), c);
    }
  }

  lemma CommandsWoven(a: Action, cfg: RuleConfig)
    ensures Commands(a, cfg) == Weave(CommandSegs(cfg), FlagChar(a))
  {
    var c := FlagChar(a);
    var r := cfg.hasRedirectSupport;
    DnsWoven(a, r);
    PairWoven(a, r);
    if !cfg.isAutoSetProxy {
      AppsWoven(TcpPair(a, r), PairSegs(r), c, cfg.apps);
    }
    WeaveGlue(DnsSegs(r), if cfg.isAutoSetProxy then PairSegs(r) else AppSegs(PairSegs(r), cfg.apps), c);
  }

  lemma RewriteWoven(cmd: string, segs: seq<string>, c: char, hostIP: Option<string>, isSocks: bool)
    requires |segs| > 0 && cmd == Weave(segs, c) && (c == 'A' || c == 'D')
    ensures Rewrite(cmd, hostIP, isSocks) == Weave(RewriteSegs(segs, hostIP, isSocks), c)
  {
    var rules := segs;
    if hostIP.Some? {
      var ip := hostIP.value;
      WeaveReplace(segs, c, "--dport 443", Exclusion443(ip));
      WeaveReplace(MapReplace(segs, "--dport 443", Exclusion443(ip)), c, "--dport 80", Exclusion80(ip));
      rules := MapReplace(MapReplace(segs, "--dport 443", Exclusion443(ip)), "--dport 80", Exclusion80(ip));
    }
    if isSocks {
      WeaveReplace(rules, c, "8124", "8123");
    }
  }

  /** Both builders produce the same segments; only the flag between them differs. */
  lemma RuleTextWoven(a: Action, cfg: RuleConfig)
    ensures RuleText(a, cfg) == Weave(RuleSegs(cfg), FlagChar(a))
  {
    CommandsWoven(a, cfg);
    RewriteWoven(Commands(a, cfg), CommandSegs(cfg), FlagChar(a), cfg.hostIP, cfg.isSocks);
  }

  // ---------------------------------------------------------------------
  // Flag-free segments, and replacing the flag.
  // ---------------------------------------------------------------------

  /** `s` holds no `-A`. */
  ghost predicate NoFlag(s: string)
  {
    forall k :: 0 < k < |s| && s[k] == 'A' ==> s[k - 1] != '-'
  }

  /** A flag-free segment that does not start with `A`, so no flag forms where it is appended. */
  ghost predicate Clean(s: string)
  {
    NoFlag(s) && (|s| == 0 || s[0] != 'A')
  }

  lemma NoFlagOfNotContains(s: string)
    requires !Contains(s, "-A")
    ensures NoFlag(s)
  {
    forall k | 0 < k < |s| && s[k] == 'A'
      ensures s[k - 1] != '-'
    {
      var w := s[k - 1..k + 1];
      assert !OccursAt(s, "-A", k - 1);
      assert |w| == 2 && w[0] == s[k - 1] && w[1] == 'A';
      assert w != "-A";
    }
  }

  lemma NoFlagConcat(x: string, y: string)
    requires NoFlag(x) && NoFlag(y)
    requires |x| == 0 || |y| == 0 || x[|x| - 1] != '-' || y[0] != 'A'
    ensures NoFlag(x + y)
  {
    var s := x + y;
    forall k | 0 < k < |s| && s[k] == 'A'
      ensures s[k - 1] != '-'
    {
      if k > |x| {
        assert s[k] == y[k - |x|] && s[k - 1] == y[k - 1 - |x|];
      }
    }
  }

  /** A replacement whose text is flag-free, does not start with `A` and does not end in `-` creates no flag. */
  lemma {:induction false} ReplaceKeepsNoFlag(s: string, p: string, q: string)
    requires |p| > 0 && |q| > 0 && Clean(q) && q[|q| - 1] != '-'
    requires NoFlag(s)
    ensures NoFlag(ReplaceAll(s, p, q))
    decreases |s|
  {
    if |s| >= |p| {
      if s[..|p|] == p {
        ReplaceKeepsNoFlag(s[|p|..], p, q);
        NoFlagConcat(q, ReplaceAll(s[|p|..], p, q));
      } else {
        var t := s[1..];
        ReplaceKeepsNoFlag(t, p, q);
        ReplaceFirstChar(t, p, q);
        if |t| > 0 {
          assert t[0] == s[1];
        }
        NoFlagConcat([s[0]], ReplaceAll(t, p, q));
      }
    }
  }

  lemma ReplaceKeepsClean(s: string, p: string, q: string)
    requires |p| > 0 && |q| > 0 && Clean(q) && q[|q| - 1] != '-'
    requires Clean(s)
    ensures Clean(ReplaceAll(s, p, q))
  {
    ReplaceKeepsNoFlag(s, p, q);
    ReplaceFirstChar(s, p, q);
  }

  ghost predicate AllClean(segs: seq<string>)
  {
    forall k :: 0 <= k < |segs| ==> Clean(segs[k])
  }

  lemma MapReplaceKeepsClean(segs: seq<string>, p: string, q: string)
    requires |p| > 0 && |q| > 0 && Clean(q) && q[|q| - 1] != '-'
    requires AllClean(segs)
    ensures AllClean(MapReplace(segs, p, q))
  {
    forall k | 0 <= k < |segs|
      ensures Clean(MapReplace(segs, p, q)[k])
    {
      ReplaceKeepsClean(segs[k], p, q);
    }
  }

  lemma GlueKeepsClean(a: seq<string>, b: seq<string>)
    requires |a| > 0 && |b| > 0 && AllClean(a) && AllClean(b)
    ensures AllClean(Glue(a, b))
  {
    var x, y := a[|a| - 1], b[0];
    assert Clean(x) && Clean(y);
    NoFlagConcat(x, y);
    assert Glue(a, b)[|a| - 1] == x + y;
  }

  lemma {:induction false} AppSegsClean(segs: seq<string>, apps: seq<ProxiedApp>)
    requires |segs| > 0 && AllClean(segs)
    ensures AllClean(AppSegs(segs, apps))
  {
    if apps != [] {
      var head := [""];
      if apps[0].proxied {
        var q := OwnerClause(apps[0].uid);
        OwnerClauseClean(apps[0].uid);
        MapReplaceKeepsClean(segs, "-t nat", q);
        head := MapReplace(segs, "-t nat", q);
      }
      AppSegsClean(segs, apps[1..]);
      GlueKeepsClean(head, AppSegs(segs, apps[1..]));
    }
  }

  lemma OwnerClauseClean(uid: int)
    ensures var q := OwnerClause(uid);
      |q| > 0 && Clean(q) && q[|q| - 1] != '-'
  {
    var d := IntToString(uid);
    var q := OwnerClause(uid);
    assert 'A' !in "-t nat -m owner --uid-owner ";
    assert 'A' !in d;
    assert 'A' !in q;
  }

  /** A segment holding `A` at most right after a character other than `-`, and not at its start. */
  lemma CleanAround(x: string, y: string)
    requires |x| > 0 && |y| > 0 && x[0] != 'A' && x[|x| - 1] != '-' && 'A' !in x && 'A' !in y[1..]
    ensures Clean(x + y)
  {
    assert NoFlag(x);
    assert NoFlag(y) by {
      forall k | 0 < k < |y| ensures y[k] != 'A' {
        assert y[k] == y[1..][k - 1];
      }
    }
    NoFlagConcat(x, y);
  }

  lemma TargetClean(hasRedirectSupport: bool, toPort: string)
    requires 'A' !in toPort
    ensures Clean(Target(hasRedirectSupport, toPort))
  {
    if hasRedirectSupport {
      assert 'A' !in "REDIRECT --to-ports ";
    } else {
      assert NoFlag("DNAT --to-destination 127.0.0.1:");
      NoFlagConcat("DNAT --to-destination 127.0.0.1:", toPort);
    }
  }

  lemma RuleTailClean(proto: string, dport: string, target: string)
    requires 'A' !in proto && 'A' !in dport && Clean(target)
    ensures Clean(RuleTail(proto, dport, target))
  {
    var x := " OUTPUT -p " + proto + " --dport " + dport + " -j ";
    assert 'A' !in " OUTPUT -p " && 'A' !in " --dport " && 'A' !in " -j ";
    assert 'A' !in x;
    NoFlagConcat(x, target);
    NoFlagConcat(x + target, "\n");
  }

  lemma TailsClean(hasRedirectSupport: bool)
    ensures Clean(NAT_PREFIX)
    ensures Clean(DnsTail(hasRedirectSupport))
    ensures Clean(TcpTail80(hasRedirectSupport) + NAT_PREFIX)
    ensures Clean(TcpTail443(hasRedirectSupport))
  {
    assert 'A' !in NAT_PREFIX;
    var r := hasRedirectSupport;
    TargetClean(r, "8153");
    TargetClean(r, "8123");
    TargetClean(r, "8124");
    RuleTailClean("udp", "53", Target(r, "8153"));
    RuleTailClean("tcp", "80", Target(r, "8123"));
    RuleTailClean("tcp", "443", Target(r, "8124"));
    NoFlagConcat(TcpTail80(r), NAT_PREFIX);
  }

  lemma PairSegsClean(hasRedirectSupport: bool)
    ensures AllClean(PairSegs(hasRedirectSupport))
  {
    TailsClean(hasRedirectSupport);
  }

  lemma DnsSegsClean(hasRedirectSupport: bool)
    ensures AllClean(DnsSegs(hasRedirectSupport))
  {
    TailsClean(hasRedirectSupport);
  }

  lemma CommandSegsClean(cfg: RuleConfig)
    ensures AllClean(CommandSegs(cfg))
  {
    var r := cfg.hasRedirectSupport;
    DnsSegsClean(r);
    PairSegsClean(r);
    if !cfg.isAutoSetProxy {
      AppSegsClean(PairSegs(r), cfg.apps);
    }
    GlueKeepsClean(DnsSegs(r), if cfg.isAutoSetProxy then PairSegs(r) else AppSegs(PairSegs(r), cfg.apps));
  }

  lemma ExclusionClean(ip: string)
    requires !Contains(ip, "-A")
    ensures Clean(Exclusion443(ip)) && Clean(Exclusion80(ip))
  {
    NoFlagOfNotContains(ip);
    NoFlagConcat("! -d ", ip);
    NoFlagConcat("! -d " + ip, " --dport 443");
    NoFlagConcat("! -d " + ip, " --dport 80");
  }

  lemma RewriteSegsClean(segs: seq<string>, hostIP: Option<string>, isSocks: bool)
    requires AllClean(segs)
    requires hostIP.Some? ==> !Contains(hostIP.value, "-A")
    ensures AllClean(RewriteSegs(segs, hostIP, isSocks))
  {
    var rules := segs;
    if hostIP.Some? {
      var ip := hostIP.value;
      ExclusionClean(ip);
      MapReplaceKeepsClean(segs, "--dport 443", Exclusion443(ip));
      MapReplaceKeepsClean(MapReplace(segs, "--dport 443", Exclusion443(ip)), "--dport 80", Exclusion80(ip));
      rules := MapReplace(MapReplace(segs, "--dport 443", Exclusion443(ip)), "--dport 80", Exclusion80(ip));
    }
    if isSocks {
      MapReplaceKeepsClean(rules, "8124", "8123");
    }
  }

  lemma RuleSegsClean(cfg: RuleConfig)
    requires cfg.hostIP.Some? ==> !Contains(cfg.hostIP.value, "-A")
    ensures AllClean(RuleSegs(cfg))
  {
    CommandSegsClean(cfg);
    RewriteSegsClean(CommandSegs(cfg), cfg.hostIP, cfg.isSocks);
  }

  /** With no flag in `s`, replacing the flag changes nothing. */
  lemma {:induction false} FlipNothing(s: string)
    requires NoFlag(s)
    ensures ReplaceAll(s, "-A", "-D") == s
    decreases |s|
  {
    if |s| >= 2 {
      assert s[..2][0] == s[0] && s[..2][1] == s[1];
      FlipNothing(s[1..]);
    }
  }

  /** The first flag after a flag-free prefix is the one replaced. */
  lemma {:induction false} FlipAt(x: string, y: string)
    requires NoFlag(x)
    ensures ReplaceAll(x + "-A" + y, "-A", "-D") == x + "-D" + ReplaceAll(y, "-A", "-D")
    decreases |x|
  {
    var s := x + "-A" + y;
    if x == [] {
      assert s == "-A" + y;
      ReplaceHit(y, "-A", "-D");
    } else {
      assert s[..2][0] == s[0] && s[..2][1] == s[1];
      assert s[1] == (if |x| >= 2 then x[1] else '-');
      assert s[1..] == x[1..] + "-A" + y;
      FlipAt(x[1..], y);
      ReplaceKeepFirst(s, "-A", "-D");
      AppendAssoc([x[0]], x[1..] + "-D", ReplaceAll(y, "-A", "-D"));
      ConsConcat(x, "-D");
    }
  }

  lemma {:induction false} WeaveFlip(segs: seq<string>)
    requires |segs| > 0 && forall k :: 0 <= k < |segs| ==> NoFlag(segs[k])
    ensures ReplaceAll(Weave(segs, 'A'), "-A", "-D") == Weave(segs, 'D')
    decreases |segs|
  {
    if |segs| == 1 {
      FlipNothing(segs[0]);
    } else {
      WeaveStep(segs, 'A');
      WeaveStep(segs, 'D');
      assert "-" + ['A'] == "-A" && "-" + ['D'] == "-D";
      FlipAt(segs[0], Weave(segs[1..], 'A'));
      WeaveFlip(segs[1..]);
    }
  }

  lemma WeaveStep(segs: seq<string>, c: char)
    requires |segs| > 1
    ensures Weave(segs, c) == segs[0] + ("-" + [c]) + Weave(segs[1..], c)
  {
    AppendAssoc(segs[0], "-", [c]);
  }

  /**
   * `onDisconnect` deletes exactly the rules `finishConnection` appended:
   * its text is the activation text with every `-A` replaced by `-D`, line
   * for line and in the same order.
   */
  lemma DeactivationInvertsActivation(cfg: RuleConfig)
    requires cfg.hostIP.Some? ==> !Contains(cfg.hostIP.value, "-A")
    ensures RuleText(Delete, cfg) == ReplaceAll(RuleText(Append, cfg), "-A", "-D")
  {
    RuleTextWoven(Append, cfg);
    RuleTextWoven(Delete, cfg);
    RuleSegsClean(cfg);
    WeaveFlip(RuleSegs(cfg));
  }

  /** The probe's cleanup command removes exactly the probe rule, which is also the DNS rule of the redirect variant. */
  lemma ProbeCleanupDeletesProbe()
    ensures ReplaceAll(ProbeRule(Append), "-A", "-D") == ProbeRule(Delete)
    ensures ProbeRule(Delete) + "\n" == DnsRule(Delete, true)
  {
    ProbeTailFlagFree();
    assert Flag(Append) == "-A" && Flag(Delete) == "-D";
    FlipAt(NAT_PREFIX, PROBE_TAIL);
    FlipNothing(PROBE_TAIL);
    ProbeTailIsDnsTail();
  }

  lemma ProbeTailFlagFree()
    ensures NoFlag(NAT_PREFIX) && NoFlag(PROBE_TAIL)
  {
    assert 'A' !in NAT_PREFIX && 'A' !in " OUTPUT -p udp --dport 53 -j " && 'A' !in Target(true, "8153");
  }

  lemma ProbeTailIsDnsTail()
    ensures PROBE_TAIL + "\n" == DnsTail(true)
  {
    assert " OUTPUT -p " + "udp" + " --dport " + "53" + " -j " == " OUTPUT -p udp --dport 53 -j ";
  }

  // ---------------------------------------------------------------------
  // The DNS rule leads the text, and no rewrite touches it.
  // ---------------------------------------------------------------------

  /** A pattern holding a character that `s` lacks does not occur in `s`. */
  lemma AbsentChar(s: string, p: string, c: char)
    requires c in p && c !in s
    ensures !Contains(s, p)
  {
  }

  /** A replacement leaves two occurrence-free pieces in front alone when the pieces after them start with characters foreign to the pattern. */
  lemma FrontUntouched(x: string, y: string, z: string, p: string, q: string)
    requires |p| > 0 && |y| > 0 && y[0] !in p && (z == [] || z[0] !in p)
    requires !Contains(x, p) && !Contains(y, p)
    ensures ReplaceAll(x + y + z, p, q) == x + y + ReplaceAll(z, p, q)
  {
    ReplaceConcatAtBarrier(x, y, p, q);
    ReplaceNothing(x, p, q);
    ReplaceNothing(y, p, q);
    if z == [] {
      assert x + y + z == x + y;
      assert ReplaceAll(z, p, q) == [];
    } else {
      ReplaceConcatAtBarrier(x + y, z, p, q);
    }
  }

  /** The part of the DNS rule before its target, and the target line. */
  function DnsHead(a: Action): string
  {
    NAT_PREFIX + Flag(a) + " OUTPUT -p udp --dport 53 -j "
  }

  function DnsTarget(hasRedirectSupport: bool): string
  {
    Target(hasRedirectSupport, "8153") + "\n"
  }

  /** The rewrite's three patterns: none of them occurs in `s`. */
  ghost predicate RewriteFree(s: string)
  {
    !Contains(s, "--dport 443") && !Contains(s, "--dport 80") && !Contains(s, "8124")
  }

  lemma FreeByChars(s: string, c: char)
    requires '4' !in s && c in "--dport 80" && c !in s
    ensures RewriteFree(s)
  {
    AbsentChar(s, "--dport 443", '4');
    AbsentChar(s, "8124", '4');
    AbsentChar(s, "--dport 80", c);
  }

  lemma BaseLacksDigits()
    ensures '4' !in BASE && '0' !in BASE
  {
  }

  lemma NatLacksDigits()
    ensures '4' !in "iptables -t nat " && '0' !in "iptables -t nat "
  {
  }

  lemma DnsMatchLacksDigits()
    ensures '4' !in " OUTPUT -p udp --dport 53 -j " && '0' !in " OUTPUT -p udp --dport 53 -j "
  {
  }

  lemma DnsHeadFree(a: Action)
    ensures RewriteFree(DnsHead(a))
  {
    BaseLacksDigits();
    NatLacksDigits();
    DnsMatchLacksDigits();
    FreeByChars(DnsHead(a), '0');
  }

  lemma RedirectLacksDigits()
    ensures '4' !in "REDIRECT --to-ports 8153\n" && '0' !in "REDIRECT --to-ports 8153\n"
  {
  }

  lemma DnatLacksChars()
    ensures '4' !in "DNAT --to-destination 127.0.0.1:8153\n" && 'p' !in "DNAT --to-destination 127.0.0.1:8153\n"
  {
  }

  lemma DnsTargetFree(hasRedirectSupport: bool)
    ensures RewriteFree(DnsTarget(hasRedirectSupport))
    ensures |DnsTarget(hasRedirectSupport)| > 0 && DnsTarget(hasRedirectSupport)[0] in "RD"
  {
    if hasRedirectSupport {
      RedirectLacksDigits();
      assert DnsTarget(true) == "REDIRECT --to-ports 8153\n";
      FreeByChars(DnsTarget(true), '0');
    } else {
      DnatLacksChars();
      assert DnsTarget(false) == "DNAT --to-destination 127.0.0.1:8153\n";
      FreeByChars(DnsTarget(false), 'p');
    }
  }

  lemma DnsSplit(a: Action, hasRedirectSupport: bool)
    ensures DnsRule(a, hasRedirectSupport) == DnsHead(a) + DnsTarget(hasRedirectSupport)
  {
    ProbeTailIsDnsTail();
  }

  /** Every line of the TCP rules starts with the path of the iptables binary. */
  lemma {:induction false} AppRulesStart(template: string, apps: seq<ProxiedApp>)
    requires |template| > 0 && template[0] == '/'
    ensures AppRules(template, apps) == "" || AppRules(template, apps)[0] == '/'
    decreases |apps|
  {
    if apps != [] {
      AppRulesStart(template, apps[1..]);
      if apps[0].proxied {
        ReplaceFirstChar(template, "-t nat", OwnerClause(apps[0].uid));
        if |template| >= 6 {
          assert template[..6][0] != "-t nat"[0];
        }
      }
    }
  }

  /** The start of the TCP rules as each rewrite leaves it: a path or an exclusion. */
  ghost predicate Opens(z: string)
  {
    z == [] || z[0] == '/' || z[0] == '!'
  }

  /** One replacement of `Rewrite` leaves two pattern-free pieces in front alone. */
  lemma RewriteStep(h: string, t: string, z: string, p: string, q: string)
    requires RewriteFree(h) && RewriteFree(t) && |t| > 0 && t[0] in "RD"
    requires Opens(z) && p in ["--dport 443", "--dport 80", "8124"] && |q| > 0 && q[0] in "!8"
    ensures ReplaceAll(h + t + z, p, q) == h + t + ReplaceAll(z, p, q)
    ensures q[0] == '!' ==> Opens(ReplaceAll(z, p, q))
  {
    FrontUntouched(h, t, z, p, q);
    ReplaceFirstChar(z, p, q);
  }

  /** `Rewrite` leaves two pattern-free pieces in front alone. */
  lemma RewriteKeepsFront(h: string, t: string, z: string, hostIP: Option<string>, isSocks: bool)
    requires RewriteFree(h) && RewriteFree(t) && |t| > 0 && t[0] in "RD" && Opens(z)
    ensures Rewrite(h + t + z, hostIP, isSocks) == h + t + Rewrite(z, hostIP, isSocks)
  {
    var rules := z;
    if hostIP.Some? {
      var ip := hostIP.value;
      RewriteStep(h, t, z, "--dport 443", Exclusion443(ip));
      var r1 := ReplaceAll(z, "--dport 443", Exclusion443(ip));
      RewriteStep(h, t, r1, "--dport 80", Exclusion80(ip));
      rules := ReplaceAll(r1, "--dport 80", Exclusion80(ip));
    }
    if isSocks {
      RewriteStep(h, t, rules, "8124", "8123");
    }
  }

  /**
   * The text `finishConnection` and `onDisconnect` hand to the root shell
   * opens with the UDP/53 rule of the configured kind, word for word: the
   * host exclusion and the SOCKS remap rewrite only the TCP rules after it.
   */
  lemma DnsRuleFirst(a: Action, cfg: RuleConfig)
    ensures var template := TcpPair(a, cfg.hasRedirectSupport);
      var tcp := if cfg.isAutoSetProxy then template else AppRules(template, cfg.apps);
      RuleText(a, cfg) == DnsRule(a, cfg.hasRedirectSupport) + Rewrite(tcp, cfg.hostIP, cfg.isSocks)
    ensures DnsRule(a, cfg.hasRedirectSupport) <= RuleText(a, cfg)
  {
    var template := TcpPair(a, cfg.hasRedirectSupport);
    var tcp := if cfg.isAutoSetProxy then template else AppRules(template, cfg.apps);
    DnsSplit(a, cfg.hasRedirectSupport);
    DnsHeadFree(a);
    DnsTargetFree(cfg.hasRedirectSupport);
    assert template[0] == '/';
    AppRulesStart(template, cfg.apps);
    RewriteKeepsFront(DnsHead(a), DnsTarget(cfg.hasRedirectSupport), tcp, cfg.hostIP, cfg.isSocks);
  }
}
