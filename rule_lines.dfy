/**
 * The rule text of `finishConnection` and `onDisconnect`, line by line.
 *
 * `RuleText` builds the text as the service does, by splicing with
 * `String.replace`. `RuleLines` writes the same text down directly: the DNS
 * rule, then for each owner (the whole device, or each proxied application)
 * the port-80 and the port-443 rule, with the owner match, the host
 * exclusion and the final target port already in place. `RuleTextLines`
 * proves that the two agree whenever the server address and the uids cannot
 * be mistaken for the text being replaced.
 */
module RuleLines {
  import opened JavaLang
  import opened IptablesRules

  // ---------------------------------------------------------------------
  // How one replacement acts on a piece of text, whatever follows it.
  // ---------------------------------------------------------------------

  /** Replacing `p` by `q` in `x` followed by anything gives `x'` followed by the replaced rest. */
  ghost predicate Turns(x: string, x': string, p: string, q: string)
  {
    forall y :: ReplaceAll(x + y, p, q) == x' + ReplaceAll(y, p, q)
  }

  lemma TurnsAll(x: string, x': string, p: string, q: string)
    requires |p| > 0 && Turns(x, x', p, q)
    ensures ReplaceAll(x, p, q) == x'
  {
    var none: string := [];
    assert x + none == x;
    assert ReplaceAll(x + none, p, q) == x' + ReplaceAll(none, p, q);
    assert x' + none == x';
  }

  lemma TurnsConcat(x1: string, x1': string, x2: string, x2': string, p: string, q: string)
    requires Turns(x1, x1', p, q) && Turns(x2, x2', p, q)
    ensures Turns(x1 + x2, x1' + x2', p, q)
  {
    forall y
      ensures ReplaceAll(x1 + x2 + y, p, q) == x1' + x2' + ReplaceAll(y, p, q)
    {
      AppendAssoc(x1, x2, y);
      AppendAssoc(x1', x2', ReplaceAll(y, p, q));
      assert ReplaceAll(x1 + (x2 + y), p, q) == x1' + ReplaceAll(x2 + y, p, q);
    }
  }

  /** A piece without the pattern's first character is left alone. */
  lemma TurnsSkip(x: string, p: string, q: string)
    requires |p| > 0 && p[0] !in x
    ensures Turns(x, x, p, q)
  {
    forall y
      ensures ReplaceAll(x + y, p, q) == x + ReplaceAll(y, p, q)
    {
      ReplaceSkip(x, y, p, q);
    }
  }

  /** A piece that starts like the pattern, departs from it at `j` and holds its first character nowhere else is left alone. */
  lemma TurnsMiss(x: string, p: string, q: string, j: nat)
    requires 0 < j < |x| && j < |p| && x[0] == p[0] && x[j] != p[j] && p[0] !in x[1..]
    ensures Turns(x, x, p, q)
  {
    var m := Min(|x|, |p|);
    assert x[..m][j] != p[..m][j];
    forall y
      ensures ReplaceAll(x + y, p, q) == x + ReplaceAll(y, p, q)
    {
      ReplaceMiss(x, y, p, q);
    }
  }

  /** The same for a piece opening with the pattern's first character twice, each start departing from the pattern. */
  lemma TurnsMiss2(x: string, p: string, q: string, j: nat, j2: nat)
    requires 2 <= |x| && |p| > 0 && x[0] == p[0] && x[1] == p[0] && p[0] !in x[2..]
    requires 0 < j < |x| && j < |p| && x[j] != p[j]
    requires 0 < j2 < |x| - 1 && j2 < |p| && x[j2 + 1] != p[j2]
    ensures Turns(x, x, p, q)
  {
    var x1 := x[1..];
    assert x1[1..] == x[2..] && x1[j2] == x[j2 + 1];
    TurnsMiss(x1, p, q, j2);
    forall y
      ensures ReplaceAll(x + y, p, q) == x + ReplaceAll(y, p, q)
    {
      assert |x + y| >= |p| ==> (x + y)[..|p|][j] != p[j];
      KeepFirstOfConcat(x, y, p, q);
      assert ReplaceAll(x1 + y, p, q) == x1 + ReplaceAll(y, p, q);
      ConsConcat(x, ReplaceAll(y, p, q));
    }
  }

  /** An occurrence is replaced. */
  lemma TurnsHit(p: string, q: string)
    requires |p| > 0
    ensures Turns(p, q, p, q)
  {
    forall y
      ensures ReplaceAll(p + y, p, q) == q + ReplaceAll(y, p, q)
    {
      ReplaceHit(y, p, q);
    }
  }

  /** A word without the pattern, closed by a space the pattern lacks, is left alone. */
  lemma TurnsWord(u: string, p: string, q: string)
    requires |p| > 0 && !Contains(u, p) && ' ' !in p
    ensures Turns(u + " ", u + " ", p, q)
  {
    forall y
      ensures ReplaceAll(u + " " + y, p, q) == u + " " + ReplaceAll(y, p, q)
    {
      AppendAssoc(u, " ", y);
      ReplaceNoOccurrence(u, " " + y, p, q);
      ReplaceSkip(" ", y, p, q);
      AppendAssoc(u, " ", ReplaceAll(y, p, q));
    }
  }

  // ---------------------------------------------------------------------
  // The lines of the rule text.
  // ---------------------------------------------------------------------

  /** The target of a TCP rule up to its port. */
  function TargetHead(hasRedirectSupport: bool): string
  {
    if hasRedirectSupport then "REDIRECT " + "--to" + "-ports " else "DNAT " + "--to" + "-destination 127.0.0.1:"
  }

  /** The host exclusion `! -d <ip> ` in front of a port match. */
  function Excl(ip: string): string
  {
    "! " + "-d " + (ip + " ")
  }

  function Port(dport: string): string
  {
    "--dport " + dport
  }

  /** One TCP rule line, from its owner match, exclusion, port match, target kind and target port. */
  function Shape(a: Action, owner: string, excl: string, portMatch: string, hasRedirectSupport: bool, toPort: string): string
  {
    BASE + "iptables " + (owner + " ") + Flag(a) + " OUTPUT " + "-p tcp " + excl + portMatch + " " + "-j "
    + TargetHead(hasRedirectSupport) + toPort + "\n"
  }

  /** The owner match: the plain NAT table, or the table restricted to one uid. */
  function Owner(uid: Option<int>): string
  {
    match uid
    case None => "-t nat"
    case Some(u) => OwnerClause(u)
  }

  /** The two TCP rules of one owner: port 80 to 8123, port 443 to `toPort443`. */
  function Pair(a: Action, r: bool, uid: Option<int>, excl80: string, excl443: string, toPort443: string): string
  {
    Shape(a, Owner(uid), excl80, Port("80"), r, "8123") + Shape(a, Owner(uid), excl443, Port("443"), r, toPort443)
  }

  function Pairs(a: Action, r: bool, uids: seq<Option<int>>, excl80: string, excl443: string, toPort443: string): string
    decreases |uids|
  {
    if uids == [] then "" else Pair(a, r, uids[0], excl80, excl443, toPort443) + Pairs(a, r, uids[1..], excl80, excl443, toPort443)
  }

  /** The uids of the proxied applications, in order. */
  function ProxiedUids(apps: seq<ProxiedApp>): seq<Option<int>>
  {
    if apps == [] then [] else (if apps[0].proxied then [Some(apps[0].uid)] else []) + ProxiedUids(apps[1..])
  }

  function Owners(cfg: RuleConfig): seq<Option<int>>
  {
    if cfg.isAutoSetProxy then [None] else ProxiedUids(cfg.apps)
  }

  function ExclusionOf(hostIP: Option<string>): string
  {
    if hostIP.Some? then Excl(hostIP.value) else ""
  }

  /** The rule text written down line by line. */
  function RuleLines(a: Action, cfg: RuleConfig): string
  {
    var excl := ExclusionOf(cfg.hostIP);
    DnsRule(a, cfg.hasRedirectSupport)
    + Pairs(a, cfg.hasRedirectSupport, Owners(cfg), excl, excl, if cfg.isSocks then "8123" else "8124")
  }

  // ---------------------------------------------------------------------
  // Each fixed piece of a line under each of the four replacements.
  // ---------------------------------------------------------------------

  /** The three replacements whose pattern starts with a dash. */
  ghost predicate Dashed(p: string)
  {
    p == "-t nat" || p == "--dport 443" || p == "--dport 80"
  }

  lemma DashedShape(p: string)
    requires Dashed(p)
    ensures |p| >= 6 && p[0] == '-' && (p[1] == 't' || p[1] == '-')
    ensures p[1] == 't' ==> p[2] == ' '
    ensures p[1] == '-' ==> p[2] == 'd'
  {
  }

  lemma BaseLacksMarks()
    ensures '-' !in BASE && '8' !in BASE
  {
  }

  lemma FixedLacksMarks()
    ensures '-' !in "iptables " && '8' !in "iptables "
    ensures '-' !in " OUTPUT " && '8' !in " OUTPUT "
    ensures '8' !in "-p tcp " && '8' !in "-j "
  {
  }

  lemma TargetLacksEights(r: bool)
    ensures '8' !in TargetHead(r)
  {
    assert '8' !in "REDIRECT " && '8' !in "--to" && '8' !in "-ports ";
    assert '8' !in "DNAT " && '8' !in "-destination 127.0.0.1:";
  }

  lemma ToDashed(p: string, q: string)
    requires Dashed(p)
    ensures Turns("--to", "--to", p, q)
  {
    DashedShape(p);
    if p[1] == 't' {
      TurnsMiss2("--to", p, q, 1, 2);
    } else {
      TurnsMiss2("--to", p, q, 2, 1);
    }
  }

  /** A target `head + "--to" + tail`, where `tail` is one dash and no other. */
  lemma HeadDashed(head: string, tail: string, p: string, q: string)
    requires Dashed(p) && '-' !in head && |tail| > 1 && tail[0] == '-' && tail[1] !in "t-" && '-' !in tail[1..]
    ensures Turns(head + "--to" + tail, head + "--to" + tail, p, q)
  {
    DashedShape(p);
    ToDashed(p, q);
    TurnsSkip(head, p, q);
    TurnsMiss(tail, p, q, 1);
    TurnsConcat(head, head, "--to", "--to", p, q);
    TurnsConcat(head + "--to", head + "--to", tail, tail, p, q);
  }

  /** The two heads and tails meet what `HeadDashed` asks of them. */
  lemma TargetTails()
    ensures '-' !in "REDIRECT " && '-' !in "DNAT "
    ensures var t := "-ports "; |t| > 1 && t[0] == '-' && t[1] !in "t-" && '-' !in t[1..]
    ensures var t := "-destination 127.0.0.1:"; |t| > 1 && t[0] == '-' && t[1] !in "t-" && '-' !in t[1..]
  {
  }

  lemma TargetHeadDashed(r: bool, p: string, q: string)
    requires Dashed(p)
    ensures Turns(TargetHead(r), TargetHead(r), p, q)
  {
    TargetTails();
    if r {
      HeadDashed("REDIRECT ", "-ports ", p, q);
    } else {
      HeadDashed("DNAT ", "-destination 127.0.0.1:", p, q);
    }
  }

  /** The pieces every TCP line shares are left alone by all four replacements. */
  ghost predicate FixedTurn(a: Action, r: bool, p: string, q: string)
  {
    && Turns(BASE, BASE, p, q) && Turns("iptables ", "iptables ", p, q)
    && Turns(Flag(a), Flag(a), p, q) && Turns(" OUTPUT ", " OUTPUT ", p, q)
    && Turns("-p tcp ", "-p tcp ", p, q) && Turns(" ", " ", p, q) && Turns("-j ", "-j ", p, q)
    && Turns(TargetHead(r), TargetHead(r), p, q) && Turns("\n", "\n", p, q)
  }

  lemma FixedDashed(a: Action, r: bool, p: string, q: string)
    requires Dashed(p)
    ensures FixedTurn(a, r, p, q)
  {
    DashedShape(p);
    BaseLacksMarks();
    FixedLacksMarks();
    TurnsSkip(BASE, p, q);
    TurnsSkip("iptables ", p, q);
    assert Flag(a)[1] == FlagChar(a) && Flag(a)[1..] == [FlagChar(a)];
    TurnsMiss(Flag(a), p, q, 1);
    TurnsSkip(" OUTPUT ", p, q);
    TurnsMiss("-p tcp ", p, q, 1);
    TurnsSkip(" ", p, q);
    TurnsMiss("-j ", p, q, 1);
    TargetHeadDashed(r, p, q);
    TurnsSkip("\n", p, q);
  }

  lemma FixedSocks(a: Action, r: bool, q: string)
    ensures FixedTurn(a, r, "8124", q)
  {
    var p := "8124";
    BaseLacksMarks();
    FixedLacksMarks();
    TargetLacksEights(r);
    TurnsSkip(BASE, p, q);
    TurnsSkip("iptables ", p, q);
    TurnsSkip(Flag(a), p, q);
    TurnsSkip(" OUTPUT ", p, q);
    TurnsSkip("-p tcp ", p, q);
    TurnsSkip(" ", p, q);
    TurnsSkip("-j ", p, q);
    TurnsSkip(TargetHead(r), p, q);
    TurnsSkip("\n", p, q);
  }

  /** A line turns into the line of the turned pieces. */
  lemma ShapeTurns(a: Action, r: bool, owner: string, owner': string, excl: string, excl': string,
                   pm: string, pm': string, toPort: string, toPort': string, p: string, q: string)
    requires FixedTurn(a, r, p, q)
    requires Turns(owner + " ", owner' + " ", p, q) && Turns(excl, excl', p, q)
    requires Turns(pm, pm', p, q) && Turns(toPort, toPort', p, q)
    ensures Turns(Shape(a, owner, excl, pm, r, toPort), Shape(a, owner', excl', pm', r, toPort'), p, q)
  {
    var x := BASE;
    TurnsConcat(x, x, "iptables ", "iptables ", p, q);
    var x1, y1 := x + "iptables ", x + "iptables ";
    TurnsConcat(x1, y1, owner + " ", owner' + " ", p, q);
    var x2, y2 := x1 + (owner + " "), y1 + (owner' + " ");
    TurnsConcat(x2, y2, Flag(a), Flag(a), p, q);
    var x3, y3 := x2 + Flag(a), y2 + Flag(a);
    TurnsConcat(x3, y3, " OUTPUT ", " OUTPUT ", p, q);
    var x4, y4 := x3 + " OUTPUT ", y3 + " OUTPUT ";
    TurnsConcat(x4, y4, "-p tcp ", "-p tcp ", p, q);
    var x5, y5 := x4 + "-p tcp ", y4 + "-p tcp ";
    TurnsConcat(x5, y5, excl, excl', p, q);
    var x6, y6 := x5 + excl, y5 + excl';
    TurnsConcat(x6, y6, pm, pm', p, q);
    var x7, y7 := x6 + pm, y6 + pm';
    TurnsConcat(x7, y7, " ", " ", p, q);
    var x8, y8 := x7 + " ", y7 + " ";
    TurnsConcat(x8, y8, "-j ", "-j ", p, q);
    var x9, y9 := x8 + "-j ", y8 + "-j ";
    TurnsConcat(x9, y9, TargetHead(r), TargetHead(r), p, q);
    var x10, y10 := x9 + TargetHead(r), y9 + TargetHead(r);
    TurnsConcat(x10, y10, toPort, toPort', p, q);
    TurnsConcat(x10 + toPort, y10 + toPort', "\n", "\n", p, q);
  }

  // ---------------------------------------------------------------------
  // The pieces that vary.
  // ---------------------------------------------------------------------

  /** The two port matches, under the replacements that do not target them. */
  lemma PortsUntouched(q: string)
    ensures Turns(Port("80"), Port("80"), "-t nat", q) && Turns(Port("443"), Port("443"), "-t nat", q)
    ensures Turns(Port("80"), Port("80"), "--dport 443", q) && Turns(Port("443"), Port("443"), "--dport 80", q)
    ensures Turns(Port("80"), Port("80"), "8124", q) && Turns(Port("443"), Port("443"), "8124", q)
  {
    var p80, p443 := Port("80"), Port("443");
    assert p80 == "--dport 80" && p443 == "--dport 443";
    TurnsMiss2(p80, "-t nat", q, 1, 1);
    TurnsMiss2(p443, "-t nat", q, 1, 1);
    TurnsMiss2(p80, "--dport 443", q, 8, 1);
    TurnsMiss2(p443, "--dport 80", q, 8, 1);
    TurnsSkip("--dport ", "8124", q);
    TurnsMiss("80", "8124", q, 1);
    TurnsConcat("--dport ", "--dport ", "80", "80", "8124", q);
    TurnsSkip(p443, "8124", q);
  }

  /** The replacements that target a port match hit it. */
  lemma PortsHit(q: string)
    ensures Turns(Port("443"), q, "--dport 443", q) && Turns(Port("80"), q, "--dport 80", q)
  {
    assert Port("443") == "--dport 443" && Port("80") == "--dport 80";
    TurnsHit("--dport 443", q);
    TurnsHit("--dport 80", q);
  }

  lemma TargetPorts(p: string, q: string)
    requires Dashed(p) || p == "8124"
    ensures Turns("8123", "8123", p, q)
    ensures Dashed(p) ==> Turns("8124", "8124", p, q)
  {
    if Dashed(p) {
      DashedShape(p);
      TurnsSkip("8123", p, q);
      TurnsSkip("8124", p, q);
    } else {
      TurnsMiss("8123", p, q, 3);
    }
  }

  /**
   * A uid the rewrites leave alone: non-negative when the host exclusion is inserted (so that its
   * decimal text holds no dash), and free of "8124" under the SOCKS remap.
   */
  ghost predicate UidOk(uid: Option<int>, dashes: bool, isSocks: bool)
  {
    uid.Some? ==> (dashes ==> uid.value >= 0) && (isSocks ==> !Contains(IntToString(uid.value), "8124"))
  }

  lemma OwnerClausePieces(u: int)
    ensures OwnerClause(u) + " " == "-t nat " + "-m owner " + "--uid" + "-owner " + (IntToString(u) + " ")
  {
    var d := IntToString(u);
    assert "-t nat -m owner --uid-owner " == "-t nat " + "-m owner " + "--uid" + "-owner ";
    AppendAssoc("-t nat -m owner --uid-owner ", d, " ");
  }

  lemma OwnerClauseLead(u: int)
    ensures OwnerClause(u) + " " == "-t nat -m owner --uid-owner " + (IntToString(u) + " ")
    ensures '8' !in "-t nat -m owner --uid-owner "
  {
    AppendAssoc("-t nat -m owner --uid-owner ", IntToString(u), " ");
  }

  /** The owner match under the two exclusion replacements. */
  lemma OwnerDashed(uid: Option<int>, p: string, q: string)
    requires UidOk(uid, true, false) && (p == "--dport 443" || p == "--dport 80")
    ensures Turns(Owner(uid) + " ", Owner(uid) + " ", p, q)
  {
    DashedShape(p);
    if uid.None? {
      var x := "-t nat" + " ";
      assert x[1] == 't' && '-' !in x[1..];
      TurnsMiss(x, p, q, 1);
    } else {
      var d := IntToString(uid.value) + " ";
      OwnerClausePieces(uid.value);
      OwnerLeadDashed(p, q);
      TurnsSkip(d, p, q);
      TurnsConcat("-t nat " + "-m owner " + "--uid" + "-owner ", "-t nat " + "-m owner " + "--uid" + "-owner ", d, d, p, q);
    }
  }

  /** The owner match before the uid, under a port-match replacement. */
  lemma OwnerLeadDashed(p: string, q: string)
    requires |p| > 2 && p[0] == '-' && p[1] == '-' && p[2] == 'd'
    ensures Turns("-t nat " + "-m owner " + "--uid" + "-owner ", "-t nat " + "-m owner " + "--uid" + "-owner ", p, q)
  {
    var n, m, u, o := "-t nat ", "-m owner ", "--uid", "-owner ";
    assert '-' !in n[1..] && '-' !in m[1..] && '-' !in u[2..] && '-' !in o[1..];
    TurnsMiss(n, p, q, 1);
    TurnsMiss(m, p, q, 1);
    TurnsMiss2(u, p, q, 2, 1);
    TurnsMiss(o, p, q, 1);
    TurnsConcat(n, n, m, m, p, q);
    TurnsConcat(n + m, n + m, u, u, p, q);
    TurnsConcat(n + m + u, n + m + u, o, o, p, q);
  }

  /** The owner match under the SOCKS port remap. */
  lemma OwnerSocks(uid: Option<int>, q: string)
    requires UidOk(uid, false, true)
    ensures Turns(Owner(uid) + " ", Owner(uid) + " ", "8124", q)
  {
    if uid.None? {
      TurnsSkip("-t nat" + " ", "8124", q);
    } else {
      OwnerClauseLead(uid.value);
      LeadWord("-t nat -m owner --uid-owner ", IntToString(uid.value), "8124", q);
    }
  }

  /** A lead without the pattern's first character, then a word without the pattern. */
  lemma LeadWord(lead: string, d: string, p: string, q: string)
    requires |p| > 0 && p[0] !in lead && ' ' !in p && !Contains(d, p)
    ensures Turns(lead + (d + " "), lead + (d + " "), p, q)
  {
    TurnsSkip(lead, p, q);
    TurnsWord(d, p, q);
    TurnsConcat(lead, lead, d + " ", d + " ", p, q);
  }

  /** The exclusion under a dashed replacement, and under the SOCKS remap. */
  lemma ExclTurns(ip: string, p: string, q: string)
    requires (Dashed(p) && '-' !in ip) || (p == "8124" && !Contains(ip, "8124"))
    ensures Turns(Excl(ip), Excl(ip), p, q)
  {
    var b, d := "! ", "-d ";
    if Dashed(p) {
      DashedShape(p);
      TurnsSkip(b, p, q);
      TurnsMiss(d, p, q, 1);
      TurnsSkip(ip + " ", p, q);
      TurnsConcat(b, b, d, d, p, q);
    } else {
      TurnsSkip(b + d, p, q);
      TurnsWord(ip, p, q);
    }
    TurnsConcat(b + d, b + d, ip + " ", ip + " ", p, q);
  }

  lemma ExclusionPieces(ip: string)
    ensures Exclusion443(ip) == Excl(ip) + Port("443")
    ensures Exclusion80(ip) == Excl(ip) + Port("80")
  {
    assert "! -d " == "! " + "-d ";
    assert " --dport 443" == " " + Port("443") && " --dport 80" == " " + Port("80");
    AppendAssoc("! -d " + ip, " ", Port("443"));
    AppendAssoc("! -d " + ip, " ", Port("80"));
    AppendAssoc("! " + "-d ", ip, " ");
  }

  /** An exclusion inserted before a port match is the line's exclusion. */
  lemma ShapeExclusion(a: Action, owner: string, ip: string, d: string, r: bool, toPort: string)
    ensures Shape(a, owner, "", Excl(ip) + Port(d), r, toPort) == Shape(a, owner, Excl(ip), Port(d), r, toPort)
  {
    var x := BASE + "iptables " + (owner + " ") + Flag(a) + " OUTPUT " + "-p tcp ";
    assert x + "" == x;
    AppendAssoc(x, Excl(ip), Port(d));
  }

  // ---------------------------------------------------------------------
  // The four replacements, one owner at a time.
  // ---------------------------------------------------------------------

  lemma TargetSplit(r: bool, toPort: string)
    ensures Target(r, toPort) == TargetHead(r) + toPort
  {
    if r {
      assert "REDIRECT --to-ports " == "REDIRECT " + "--to" + "-ports ";
    } else {
      assert "DNAT --to-destination 127.0.0.1:" == "DNAT " + "--to" + "-destination 127.0.0.1:";
    }
  }

  lemma TemplateSplits()
    ensures NAT_PREFIX == BASE + "iptables " + ("-t nat" + " ")
    ensures " OUTPUT -p " + "tcp" + " --dport " == " OUTPUT " + "-p tcp " + "" + "--dport "
    ensures " -j " == " " + "-j "
  {
    assert "iptables -t nat " == "iptables " + ("-t nat" + " ");
    AppendAssoc(BASE, "iptables ", "-t nat" + " ");
  }

  /** Regrouping a template line into the pieces of a rule line, over arbitrary pieces. */
  lemma Regroup(np: string, f: string, k: string, d: string, j: string, th: string, tp: string, nl: string,
                b: string, i: string, t: string, o: string, pt: string, e: string, dp: string, s: string, j2: string)
    requires np == b + i + t && k == o + pt + e + dp && j == s + j2
    ensures np + f + ((((k + d) + j) + (th + tp)) + nl)
         == b + i + t + f + o + pt + e + (dp + d) + s + j2 + th + tp + nl
  {
    AppendAssoc(k, d, j);
    AppendAssoc(k, d + j, th + tp);
    AppendAssoc(k, d + j + (th + tp), nl);
    AppendAssoc(np + f, k, (d + j + (th + tp)) + nl);
    var x := b + i + t + f + o + pt + e;
    assert np + f + k == x + dp by { AppendAssoc(np, f, k); AppendAssoc(b + i + t + f, o + pt + e, dp); AppendAssoc(b + i + t, f, o + pt + e); AppendAssoc(b + i + t + f + o, pt, e); AppendAssoc(b + i + t + f, o, pt + e); AppendAssoc(b + i + t + f + o, pt + e, dp); AppendAssoc(b + i + t + f + o + pt, e, dp); AppendAssoc(b + i + t + f + o, pt, e + dp); AppendAssoc(b + i + t + f, o, pt + (e + dp)); AppendAssoc(o, pt, e + dp); AppendAssoc(o + pt, e, dp); AppendAssoc(pt, e, dp); }
    AppendAssoc(x + dp, d, j);
    AppendAssoc(x, dp, d);
    AppendAssoc(x + (dp + d), s, j2);
    AppendAssoc(x + dp + d + j, th, tp);
    AppendAssoc(x + dp + d, j, th + tp);
    AppendAssoc(x + dp, d, j + (th + tp));
    AppendAssoc(x + dp, d + j + (th + tp), nl);
    AppendAssoc(x + dp, d + (j + (th + tp)), nl);
    AppendAssoc(d, j, th + tp);
    AppendAssoc(x + (dp + d) + s + j2, th, tp);
    AppendAssoc(x + (dp + d) + j, th + tp, nl);
    AppendAssoc(x + (dp + d) + j, th, tp);
    AppendAssoc(x + (dp + d), j, th + tp);
  }

  lemma TemplateLine(a: Action, r: bool, d: string, toPort: string)
    ensures NAT_PREFIX + Flag(a) + RuleTail("tcp", d, Target(r, toPort)) == Shape(a, Owner(None), "", Port(d), r, toPort)
  {
    TargetSplit(r, toPort);
    TemplateSplits();
    Regroup(NAT_PREFIX, Flag(a), " OUTPUT -p " + "tcp" + " --dport ", d, " -j ", TargetHead(r), toPort, "\n",
            BASE, "iptables ", "-t nat" + " ", " OUTPUT ", "-p tcp ", "", "--dport ", " ", "-j ");
  }

  /** `finishConnection`'s template is the pair of the plain NAT table. */
  lemma TcpPairIsPair(a: Action, r: bool)
    ensures TcpPair(a, r) == Pair(a, r, None, "", "", "8124")
  {
    TemplateLine(a, r, "80", "8123");
    TemplateLine(a, r, "443", "8124");
    AppendAssoc(NAT_PREFIX + Flag(a) + TcpTail80(r), NAT_PREFIX, Flag(a));
    AppendAssoc(NAT_PREFIX + Flag(a) + TcpTail80(r), NAT_PREFIX + Flag(a), TcpTail443(r));
  }

  lemma OwnerTurns(a: Action, r: bool, u: int)
    ensures Turns(Pair(a, r, None, "", "", "8124"), Pair(a, r, Some(u), "", "", "8124"), "-t nat", OwnerClause(u))
  {
    var p, q := "-t nat", OwnerClause(u);
    FixedDashed(a, r, p, q);
    TurnsHit(p, q);
    TurnsSkip(" ", p, q);
    TurnsConcat(p, q, " ", " ", p, q);
    TurnsSkip("", p, q);
    PortsUntouched(q);
    TargetPorts(p, q);
    ShapeTurns(a, r, p, q, "", "", Port("80"), Port("80"), "8123", "8123", p, q);
    ShapeTurns(a, r, p, q, "", "", Port("443"), Port("443"), "8124", "8124", p, q);
    TurnsConcat(Shape(a, p, "", Port("80"), r, "8123"), Shape(a, q, "", Port("80"), r, "8123"),
                Shape(a, p, "", Port("443"), r, "8124"), Shape(a, q, "", Port("443"), r, "8124"), p, q);
  }

  /** The owner stage: each application's copy of the template names its uid. */
  lemma OwnerStage(a: Action, r: bool, u: int)
    ensures ReplaceAll(TcpPair(a, r), "-t nat", OwnerClause(u)) == Pair(a, r, Some(u), "", "", "8124")
  {
    TcpPairIsPair(a, r);
    OwnerTurns(a, r, u);
    TurnsAll(Pair(a, r, None, "", "", "8124"), Pair(a, r, Some(u), "", "", "8124"), "-t nat", OwnerClause(u));
  }

  /** The port-443 exclusion: only the port-443 rule changes. */
  lemma Stage443(a: Action, r: bool, uid: Option<int>, ip: string)
    requires UidOk(uid, true, false) && '-' !in ip
    ensures Turns(Pair(a, r, uid, "", "", "8124"), Pair(a, r, uid, "", Excl(ip), "8124"), "--dport 443", Exclusion443(ip))
  {
    var p, q, o := "--dport 443", Exclusion443(ip), Owner(uid);
    FixedDashed(a, r, p, q);
    OwnerDashed(uid, p, q);
    TurnsSkip("", p, q);
    PortsUntouched(q);
    PortsHit(q);
    TargetPorts(p, q);
    ExclusionPieces(ip);
    ShapeExclusion(a, o, ip, "443", r, "8124");
    ShapeTurns(a, r, o, o, "", "", Port("80"), Port("80"), "8123", "8123", p, q);
    ShapeTurns(a, r, o, o, "", "", Port("443"), q, "8124", "8124", p, q);
    TurnsConcat(Shape(a, o, "", Port("80"), r, "8123"), Shape(a, o, "", Port("80"), r, "8123"),
                Shape(a, o, "", Port("443"), r, "8124"), Shape(a, o, Excl(ip), Port("443"), r, "8124"), p, q);
  }

  /** The port-80 exclusion: only the port-80 rule changes. */
  lemma Stage80(a: Action, r: bool, uid: Option<int>, ip: string)
    requires UidOk(uid, true, false) && '-' !in ip
    ensures Turns(Pair(a, r, uid, "", Excl(ip), "8124"), Pair(a, r, uid, Excl(ip), Excl(ip), "8124"), "--dport 80", Exclusion80(ip))
  {
    var p, q, o := "--dport 80", Exclusion80(ip), Owner(uid);
    FixedDashed(a, r, p, q);
    OwnerDashed(uid, p, q);
    TurnsSkip("", p, q);
    ExclTurns(ip, p, q);
    PortsUntouched(q);
    PortsHit(q);
    TargetPorts(p, q);
    ExclusionPieces(ip);
    ShapeExclusion(a, o, ip, "80", r, "8123");
    ShapeTurns(a, r, o, o, "", "", Port("80"), q, "8123", "8123", p, q);
    ShapeTurns(a, r, o, o, Excl(ip), Excl(ip), Port("443"), Port("443"), "8124", "8124", p, q);
    TurnsConcat(Shape(a, o, "", Port("80"), r, "8123"), Shape(a, o, Excl(ip), Port("80"), r, "8123"),
                Shape(a, o, Excl(ip), Port("443"), r, "8124"), Shape(a, o, Excl(ip), Port("443"), r, "8124"), p, q);
  }

  /** The SOCKS remap: only the port-443 rule's target port changes. */
  lemma StageSocks(a: Action, r: bool, uid: Option<int>, hostIP: Option<string>)
    requires UidOk(uid, false, true) && (hostIP.Some? ==> !Contains(hostIP.value, "8124"))
    ensures var e := ExclusionOf(hostIP);
      Turns(Pair(a, r, uid, e, e, "8124"), Pair(a, r, uid, e, e, "8123"), "8124", "8123")
  {
    var p, q, o, e := "8124", "8123", Owner(uid), ExclusionOf(hostIP);
    FixedSocks(a, r, q);
    OwnerSocks(uid, q);
    if hostIP.Some? {
      ExclTurns(hostIP.value, p, q);
    } else {
      TurnsSkip("", p, q);
    }
    PortsUntouched(q);
    TargetPorts(p, q);
    TurnsHit(p, q);
    ShapeTurns(a, r, o, o, e, e, Port("80"), Port("80"), "8123", "8123", p, q);
    ShapeTurns(a, r, o, o, e, e, Port("443"), Port("443"), "8124", "8123", p, q);
    TurnsConcat(Shape(a, o, e, Port("80"), r, "8123"), Shape(a, o, e, Port("80"), r, "8123"),
                Shape(a, o, e, Port("443"), r, "8124"), Shape(a, o, e, Port("443"), r, "8123"), p, q);
  }

  // ---------------------------------------------------------------------
  // The whole rule text.
  // ---------------------------------------------------------------------

  ghost predicate UidsOk(uids: seq<Option<int>>, dashes: bool, isSocks: bool)
  {
    forall i :: 0 <= i < |uids| ==> UidOk(uids[i], dashes, isSocks)
  }

  /**
   * What the line-by-line reading of the rewrites needs: a host address without a dash (an IPv4
   * or IPv6 literal has none) that does not contain "8124" under SOCKS, and proxied uids the
   * rewrites leave alone.
   */
  ghost predicate Addressable(cfg: RuleConfig)
  {
    var dashes := cfg.hostIP.Some?;
    (dashes ==> '-' !in cfg.hostIP.value && (cfg.isSocks ==> !Contains(cfg.hostIP.value, "8124")))
    && (!cfg.isAutoSetProxy ==>
          forall i :: 0 <= i < |cfg.apps| && cfg.apps[i].proxied ==> UidOk(Some(cfg.apps[i].uid), dashes, cfg.isSocks))
  }

  /** The lines of each uid in turn. */
  function Join(uids: seq<Option<int>>, line: Option<int> -> string): string
    decreases |uids|
  {
    if uids == [] then "" else line(uids[0]) + Join(uids[1..], line)
  }

  /** The per-application loop over a template whose copy for each uid is that uid's lines. */
  lemma {:induction false} AppRulesOfLine(template: string, apps: seq<ProxiedApp>, line: Option<int> -> string)
    requires forall u: int :: ReplaceAll(template, "-t nat", OwnerClause(u)) == line(Some(u))
    ensures AppRules(template, apps) == Join(ProxiedUids(apps), line)
    decreases |apps|
  {
    if apps != [] {
      AppRulesOfLine(template, apps[1..], line);
      var rest := ProxiedUids(apps[1..]);
      if apps[0].proxied {
        assert ([Some(apps[0].uid)] + rest)[1..] == rest;
      } else {
        assert [] + rest == rest;
      }
    }
  }

  lemma {:induction false} PairsJoin(a: Action, r: bool, uids: seq<Option<int>>)
    ensures Pairs(a, r, uids, "", "", "8124") == Join(uids, uid => Pair(a, r, uid, "", "", "8124"))
    decreases |uids|
  {
    if uids != [] {
      PairsJoin(a, r, uids[1..]);
    }
  }

  /** The per-application loop over the template yields one pair of lines per proxied uid. */
  lemma AppRulesPairs(a: Action, r: bool, apps: seq<ProxiedApp>)
    ensures AppRules(TcpPair(a, r), apps) == Pairs(a, r, ProxiedUids(apps), "", "", "8124")
  {
    var line := uid => Pair(a, r, uid, "", "", "8124");
    forall u: int
      ensures ReplaceAll(TcpPair(a, r), "-t nat", OwnerClause(u)) == line(Some(u))
    {
      OwnerStage(a, r, u);
    }
    AppRulesOfLine(TcpPair(a, r), apps, line);
    PairsJoin(a, r, ProxiedUids(apps));
  }

  lemma {:induction false} ProxiedUidsOk(apps: seq<ProxiedApp>, dashes: bool, isSocks: bool)
    requires forall i :: 0 <= i < |apps| && apps[i].proxied ==> UidOk(Some(apps[i].uid), dashes, isSocks)
    ensures UidsOk(ProxiedUids(apps), dashes, isSocks)
    decreases |apps|
  {
    if apps != [] {
      ProxiedUidsOk(apps[1..], dashes, isSocks);
      if apps[0].proxied {
        assert UidOk(Some(apps[0].uid), dashes, isSocks);
      }
    }
  }

  lemma {:induction false} PairsTurns443(a: Action, r: bool, uids: seq<Option<int>>, isSocks: bool, ip: string)
    requires UidsOk(uids, true, isSocks) && '-' !in ip
    ensures Turns(Pairs(a, r, uids, "", "", "8124"), Pairs(a, r, uids, "", Excl(ip), "8124"), "--dport 443", Exclusion443(ip))
    decreases |uids|
  {
    if uids == [] {
      TurnsSkip("", "--dport 443", Exclusion443(ip));
    } else {
      assert UidOk(uids[0], true, isSocks);
      Stage443(a, r, uids[0], ip);
      PairsTurns443(a, r, uids[1..], isSocks, ip);
      TurnsConcat(Pair(a, r, uids[0], "", "", "8124"), Pair(a, r, uids[0], "", Excl(ip), "8124"),
                  Pairs(a, r, uids[1..], "", "", "8124"), Pairs(a, r, uids[1..], "", Excl(ip), "8124"), "--dport 443", Exclusion443(ip));
    }
  }

  lemma {:induction false} PairsTurns80(a: Action, r: bool, uids: seq<Option<int>>, isSocks: bool, ip: string)
    requires UidsOk(uids, true, isSocks) && '-' !in ip
    ensures Turns(Pairs(a, r, uids, "", Excl(ip), "8124"), Pairs(a, r, uids, Excl(ip), Excl(ip), "8124"), "--dport 80", Exclusion80(ip))
    decreases |uids|
  {
    if uids == [] {
      TurnsSkip("", "--dport 80", Exclusion80(ip));
    } else {
      assert UidOk(uids[0], true, isSocks);
      Stage80(a, r, uids[0], ip);
      PairsTurns80(a, r, uids[1..], isSocks, ip);
      TurnsConcat(Pair(a, r, uids[0], "", Excl(ip), "8124"), Pair(a, r, uids[0], Excl(ip), Excl(ip), "8124"),
                  Pairs(a, r, uids[1..], "", Excl(ip), "8124"), Pairs(a, r, uids[1..], Excl(ip), Excl(ip), "8124"), "--dport 80", Exclusion80(ip));
    }
  }

  lemma {:induction false} PairsTurnsSocks(a: Action, r: bool, uids: seq<Option<int>>, dashes: bool, hostIP: Option<string>)
    requires UidsOk(uids, dashes, true) && (hostIP.Some? ==> !Contains(hostIP.value, "8124"))
    ensures var e := ExclusionOf(hostIP);
      Turns(Pairs(a, r, uids, e, e, "8124"), Pairs(a, r, uids, e, e, "8123"), "8124", "8123")
    decreases |uids|
  {
    var e := ExclusionOf(hostIP);
    if uids == [] {
      TurnsSkip("", "8124", "8123");
    } else {
      assert UidOk(uids[0], dashes, true);
      StageSocks(a, r, uids[0], hostIP);
      PairsTurnsSocks(a, r, uids[1..], dashes, hostIP);
      TurnsConcat(Pair(a, r, uids[0], e, e, "8124"), Pair(a, r, uids[0], e, e, "8123"),
                  Pairs(a, r, uids[1..], e, e, "8124"), Pairs(a, r, uids[1..], e, e, "8123"), "8124", "8123");
    }
  }

  /** The template part before the rewrites, as pairs of lines. */
  lemma TemplatePairs(a: Action, cfg: RuleConfig)
    requires Addressable(cfg)
    ensures var template := TcpPair(a, cfg.hasRedirectSupport);
      (if cfg.isAutoSetProxy then template else AppRules(template, cfg.apps))
      == Pairs(a, cfg.hasRedirectSupport, Owners(cfg), "", "", "8124")
    ensures UidsOk(Owners(cfg), cfg.hostIP.Some?, cfg.isSocks)
  {
    var r := cfg.hasRedirectSupport;
    if cfg.isAutoSetProxy {
      TcpPairIsPair(a, r);
      assert Owners(cfg)[1..] == [];
    } else {
      AppRulesPairs(a, r, cfg.apps);
      ProxiedUidsOk(cfg.apps, cfg.hostIP.Some?, cfg.isSocks);
    }
  }

  /** The two exclusion rewrites insert the exclusion before every port match. */
  lemma ExclusionStages(a: Action, r: bool, uids: seq<Option<int>>, isSocks: bool, hostIP: Option<string>)
    requires UidsOk(uids, hostIP.Some?, isSocks) && (hostIP.Some? ==> '-' !in hostIP.value)
    ensures var p0 := Pairs(a, r, uids, "", "", "8124");
      var e := ExclusionOf(hostIP);
      (if hostIP.Some? then
         ReplaceAll(ReplaceAll(p0, "--dport 443", Exclusion443(hostIP.value)), "--dport 80", Exclusion80(hostIP.value))
       else p0)
      == Pairs(a, r, uids, e, e, "8124")
  {
    if hostIP.Some? {
      var ip := hostIP.value;
      PairsTurns443(a, r, uids, isSocks, ip);
      TurnsAll(Pairs(a, r, uids, "", "", "8124"), Pairs(a, r, uids, "", Excl(ip), "8124"), "--dport 443", Exclusion443(ip));
      PairsTurns80(a, r, uids, isSocks, ip);
      TurnsAll(Pairs(a, r, uids, "", Excl(ip), "8124"), Pairs(a, r, uids, Excl(ip), Excl(ip), "8124"), "--dport 80", Exclusion80(ip));
    }
  }

  /** The host exclusion and the SOCKS remap over pairs of lines. */
  lemma RewritePairs(a: Action, r: bool, uids: seq<Option<int>>, hostIP: Option<string>, isSocks: bool)
    requires UidsOk(uids, hostIP.Some?, isSocks)
    requires hostIP.Some? ==> '-' !in hostIP.value && (isSocks ==> !Contains(hostIP.value, "8124"))
    ensures var e := ExclusionOf(hostIP);
      Rewrite(Pairs(a, r, uids, "", "", "8124"), hostIP, isSocks) == Pairs(a, r, uids, e, e, if isSocks then "8123" else "8124")
  {
    var e := ExclusionOf(hostIP);
    ExclusionStages(a, r, uids, isSocks, hostIP);
    if isSocks {
      PairsTurnsSocks(a, r, uids, hostIP.Some?, hostIP);
      TurnsAll(Pairs(a, r, uids, e, e, "8124"), Pairs(a, r, uids, e, e, "8123"), "8124", "8123");
    }
  }

  /**
   * The rule text `finishConnection` installs and `onDisconnect` removes, read line by line: the
   * DNS rule, then for the whole device or for each proxied application in order a port-80 rule to
   * 8123 and a port-443 rule to 8124 (8123 under SOCKS), each excluding the SSH host when its
   * address is known.
   */
  lemma RuleTextLines(a: Action, cfg: RuleConfig)
    requires Addressable(cfg)
    ensures RuleText(a, cfg) == RuleLines(a, cfg)
  {
    DnsRuleFirst(a, cfg);
    TemplatePairs(a, cfg);
    RewritePairs(a, cfg.hasRedirectSupport, Owners(cfg), cfg.hostIP, cfg.isSocks);
  }

  // ---------------------------------------------------------------------
  // A uid that contains the SOCKS port.
  // ---------------------------------------------------------------------

  /** A configuration that proxies one application, outside the whole-device mode. */
  function OneApp(r: bool, uid: int, hostIP: Option<string>, isSocks: bool): RuleConfig
  {
    RuleConfig(r, false, [ProxiedApp(uid, true)], hostIP, isSocks)
  }

  /** One application's owners, and its lines. */
  lemma OneAppOwners(r: bool, u: int, hostIP: Option<string>, isSocks: bool)
    ensures ProxiedUids(OneApp(r, u, hostIP, isSocks).apps) == [Some(u)]
  {
    var apps := OneApp(r, u, hostIP, isSocks).apps;
    assert apps[1..] == [];
    assert ProxiedUids(apps) == [Some(u)] + [];
  }

  lemma OnePairs(a: Action, r: bool, uid: Option<int>, e: string, t: string)
    ensures Pairs(a, r, [uid], e, e, t) == Pair(a, r, uid, e, e, t)
  {
    assert [uid][1..] == [];
    assert Pairs(a, r, [uid], e, e, t) == Pair(a, r, uid, e, e, t) + "";
  }

  lemma OneAppLines(a: Action, r: bool, u: int, hostIP: Option<string>, isSocks: bool)
    ensures var e := ExclusionOf(hostIP);
      RuleLines(a, OneApp(r, u, hostIP, isSocks)) == DnsRule(a, r) + Pair(a, r, Some(u), e, e, if isSocks then "8123" else "8124")
  {
    OneAppOwners(r, u, hostIP, isSocks);
    OnePairs(a, r, Some(u), ExclusionOf(hostIP), if isSocks then "8123" else "8124");
  }

  lemma UidDigits()
    ensures IntToString(18124) == "1" + "8124" && IntToString(18123) == "1" + "8123"
  {
    assert NatToString(1) == "1";
    assert NatToString(18) == "18";
    assert NatToString(181) == "181";
    assert NatToString(1812) == "1812";
  }

  lemma Uid18124()
    ensures IntToString(18124) == "1" + "8124" && IntToString(18123) == "1" + "8123"
    ensures !Contains(IntToString(18123), "8124")
  {
    UidDigits();
    var s, t := "18123", "8124";
    forall k ensures !OccursAt(s, t, k) {
      if k == 0 {
        assert s[0..4][0] != t[0];
      } else if k == 1 {
        assert s[1..5][3] != t[3];
      }
    }
  }

  lemma Addressable18123(a: Action, r: bool)
    ensures Addressable(OneApp(r, 18123, None, true))
  {
    Uid18124();
  }

  /** Under the SOCKS remap the owner match of uid 18124 becomes the owner match of uid 18123. */
  lemma OwnerRemapped()
    ensures Turns(Owner(Some(18124)) + " ", Owner(Some(18123)) + " ", "8124", "8123")
  {
    var p, q := "8124", "8123";
    var lead := "-t nat -m owner --uid-owner ";
    Uid18124();
    OwnerClauseLead(18124);
    OwnerClauseLead(18123);
    TurnsSkip(lead, p, q);
    TurnsSkip("1", p, q);
    TurnsHit(p, q);
    TurnsSkip(" ", p, q);
    TurnsConcat("1", "1", p, q, p, q);
    TurnsConcat("1" + p, "1" + q, " ", " ", p, q);
    TurnsConcat(lead, lead, "1" + p + " ", "1" + q + " ", p, q);
  }

  /** The two lines of uid 18124 under the SOCKS remap are the two lines of uid 18123. */
  lemma PairRemapped(a: Action, r: bool)
    ensures Turns(Pair(a, r, Some(18124), "", "", "8124"), Pair(a, r, Some(18123), "", "", "8123"), "8124", "8123")
  {
    var p, q, o, o' := "8124", "8123", Owner(Some(18124)), Owner(Some(18123));
    FixedSocks(a, r, q);
    OwnerRemapped();
    TurnsSkip("", p, q);
    PortsUntouched(q);
    TargetPorts(p, q);
    TurnsHit(p, q);
    ShapeTurns(a, r, o, o', "", "", Port("80"), Port("80"), "8123", "8123", p, q);
    ShapeTurns(a, r, o, o', "", "", Port("443"), Port("443"), "8124", "8123", p, q);
    TurnsConcat(Shape(a, o, "", Port("80"), r, "8123"), Shape(a, o', "", Port("80"), r, "8123"),
                Shape(a, o, "", Port("443"), r, "8124"), Shape(a, o', "", Port("443"), r, "8123"), p, q);
  }

  /** The rule text of application uid 18124 under SOCKS is the intended text of uid 18123. */
  lemma RemappedText(a: Action, r: bool)
    ensures RuleText(a, OneApp(r, 18124, None, true)) == RuleLines(a, OneApp(r, 18123, None, true))
  {
    var cfg := OneApp(r, 18124, None, true);
    var x, x' := Pair(a, r, Some(18124), "", "", "8124"), Pair(a, r, Some(18123), "", "", "8123");
    DnsRuleFirst(a, cfg);
    AppRulesPairs(a, r, cfg.apps);
    OneAppOwners(r, 18124, None, true);
    OnePairs(a, r, Some(18124), "", "8124");
    PairRemapped(a, r);
    TurnsAll(x, x', "8124", "8123");
    OneAppLines(a, r, 18123, None, true);
  }

  /**
   * As written, the SOCKS remap (`replace("8124", "8123")`) also rewrites an owner uid: the rule text
   * for the application with uid 18124 is the intended text for uid 18123, the same text the
   * application with uid 18123 gets, and not its own intended text.
   */
  lemma SocksRemapRenamesUid(a: Action, r: bool)
    ensures RuleText(a, OneApp(r, 18124, None, true)) == RuleLines(a, OneApp(r, 18123, None, true))
    ensures RuleText(a, OneApp(r, 18124, None, true)) == RuleText(a, OneApp(r, 18123, None, true))
    ensures RuleText(a, OneApp(r, 18124, None, true)) != RuleLines(a, OneApp(r, 18124, None, true))
  {
    var cfg' := OneApp(r, 18123, None, true);
    RemappedText(a, r);
    Addressable18123(a, r);
    RuleTextLines(a, cfg');
    if RuleLines(a, cfg') == RuleLines(a, OneApp(r, 18124, None, true)) {
      RuleLinesKeepUid(a, r, 18123, 18124, None, true);
    }
  }

  // ---------------------------------------------------------------------
  // The intended text names each application's uid.
  // ---------------------------------------------------------------------

  /** The text up to the first space. */
  function UpToSpace(s: string): string
  {
    if s == [] || s[0] == ' ' then [] else [s[0]] + UpToSpace(s[1..])
  }

  /** A space-free word followed by a space is what UpToSpace reads back. */
  lemma {:induction false} UpToSpaceOfWord(d: string, w: string)
    requires ' ' !in d && d + " " <= w
    ensures UpToSpace(w) == d
  {
    if d != [] {
      assert w[0] == d[0];
      assert d[1..] + " " <= w[1..];
      UpToSpaceOfWord(d[1..], w[1..]);
      assert [d[0]] + d[1..] == d;
    } else {
      assert w[0] == ' ';
    }
  }

  lemma PrefixOfNested(x: string, y1: string, y2: string, y3: string, y4: string, y5: string,
                       y6: string, y7: string, y8: string, y9: string, y10: string)
    ensures x <= x + y1 + y2 + y3 + y4 + y5 + y6 + y7 + y8 + y9 + y10
  {
  }

  lemma PrefixUnderHead(h: string, x: string, y: string, z: string)
    requires x <= y
    ensures h + x <= h + (y + z)
  {
  }

  /** The head of one application's rule text, up to its uid. */
  function UidHead(a: Action, r: bool): string
  {
    DnsRule(a, r) + (BASE + "iptables ") + "-t nat -m owner --uid-owner "
  }

  /** The text of one application's rules holds its uid after the owner option, followed by a space. */
  lemma UidPrefix(a: Action, r: bool, u: int, hostIP: Option<string>, isSocks: bool)
    ensures UidHead(a, r) + (IntToString(u) + " ") <= RuleLines(a, OneApp(r, u, hostIP, isSocks))
  {
    var e, t := ExclusionOf(hostIP), if isSocks then "8123" else "8124";
    var o, b, lead, d := Owner(Some(u)), BASE + "iptables ", "-t nat -m owner --uid-owner ", IntToString(u) + " ";
    OneAppLines(a, r, u, hostIP, isSocks);
    var x := b + (o + " ");
    PrefixOfNested(x, Flag(a), " OUTPUT ", "-p tcp ", e, Port("80"), " ", "-j ", TargetHead(r), "8123", "\n");
    PrefixUnderHead(DnsRule(a, r), x, Shape(a, o, e, Port("80"), r, "8123"), Shape(a, o, e, Port("443"), r, t));
    OwnerClauseLead(u);
    AppendAssoc(b, lead, d);
    AppendAssoc(DnsRule(a, r), b + lead, d);
    AppendAssoc(DnsRule(a, r), b, lead);
  }

  /** A text holding a space-free word and a space after a given head holds only one such word there. */
  lemma OneWordAfter(s: string, h: string, d: string, d': string)
    requires h + (d + " ") <= s && h + (d' + " ") <= s && ' ' !in d && ' ' !in d'
    ensures d == d'
  {
    assert d + " " <= s[|h|..] && d' + " " <= s[|h|..];
    UpToSpaceOfWord(d, s[|h|..]);
    UpToSpaceOfWord(d', s[|h|..]);
  }

  /** The intended text names the proxied application: different uids give different rule texts. */
  lemma RuleLinesKeepUid(a: Action, r: bool, u: int, u': int, hostIP: Option<string>, isSocks: bool)
    requires RuleLines(a, OneApp(r, u, hostIP, isSocks)) == RuleLines(a, OneApp(r, u', hostIP, isSocks))
    ensures u == u'
  {
    UidPrefix(a, r, u, hostIP, isSocks);
    UidPrefix(a, r, u', hostIP, isSocks);
    OneWordAfter(RuleLines(a, OneApp(r, u, hostIP, isSocks)), UidHead(a, r), IntToString(u), IntToString(u'));
    IntToStringInjective(u, u');
  }
}
