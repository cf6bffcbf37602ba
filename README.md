# SSHTunnel service core in Dafny

The Android application SSHTunnel tunnels the device's web traffic through an SSH
connection. Its service class, `SSHTunnelService`, types an ssh command line into a
pseudo-terminal and answers the host-key and password prompts. It then installs
iptables NAT rules that send TCP ports 80 and 443 and UDP port 53 to local proxies.
When the connection goes away it removes those rules again. This project models the
sequential logic inside that class and proves what it does:

- `byte_queue.dfy` (`ByteQueues`): the fixed-capacity circular `ByteQueue`. It is a
  class over an array with a head index, a count and a ghost sequence of its contents.
  Its `read` and `write` methods are proved against that sequence: first in, first
  out, across wrap-around.
- `shell_parse.dfy` (`ShellParse`): the three-state tokenizer `parse` and the
  argument selection of `createSubprocess`.
- `login.dfy` (`Login`): the ssh command line of `connect` and its prompt loop over
  256-byte pty reads. The loop keeps the reused buffer with its stale bytes, turns
  non-ASCII bytes into spaces and lower-cases the text. It answers `yes` before the
  password and counts unmatched chunks.
- `iptables_rules.dfy` (`IptablesRules`): the rule text built by `finishConnection`
  and `onDisconnect`, as one function of the action flag and the configuration. It
  uses a `ReplaceAll` with the semantics of Java's `String.replace`. The deletion text
  is proved to be the installation text with every `-A` turned into `-D`.
- `rule_lines.dfy` (`RuleLines`): the same rule text written line by line, as
  `RuleLines`, and the proof that the replacement chain of the source produces
  exactly those lines.
- `tunnel_service.dfy` (`TunnelService`): the service object. It covers the
  redirect-capability probe, `runRootCommand`, `connect`, `finishConnection`,
  `onDisconnect`, the host-address update of `handleCommand` and the reconnect
  decision of `connectionLost`. Every outside effect is appended to a trace.
- `java_lang.dfy` (`JavaLang`): the Java library behaviour the model relies on.
  That is `String.contains`, `String.replace`, ASCII lower-casing and decimal
  printing of `int`.

All paths below are in `src/org/sshtunnel/beta/SSHTunnelService.java`.

## Model

| member | source | states |
|---|---|---|
| ByteQueues.ArgumentCheck | src/org/sshtunnel/beta/SSHTunnelService.java:59-66 | definition of the argument checks shared by `Read` and `Write`, whose contracts use it: an `IllegalArgumentException` is thrown exactly when `length + offset > buffer.length` or `length < 0`; the overrun check comes first, and the message names the negative length only when the overrun check passed |
| ByteQueues.ByteQueue.constructor | src/org/sshtunnel/beta/SSHTunnelService.java:47-49 | a new queue has the requested capacity, is empty and has its head at 0 |
| ByteQueues.ByteQueue.GetBytesAvailable | src/org/sshtunnel/beta/SSHTunnelService.java:51-55 | returns the number of stored bytes, which lies between 0 and the capacity |
| ByteQueues.ByteQueue.Read | src/org/sshtunnel/beta/SSHTunnelService.java:57-96 | argument errors throw and change nothing; length 0 returns 0 and changes nothing; a negative offset throws with the queue unchanged; otherwise the oldest min(length, stored) bytes, at least one, are copied to `buffer[offset..]` and removed, and the rest of `buffer` is kept |
| ByteQueues.ByteQueue.CopyOut | src/org/sshtunnel/beta/SSHTunnelService.java:74-90 | the copy loop moves the oldest min(length, stored) bytes out in order, across the wrap-around, and keeps the invariant of the queue |
| ByteQueues.ByteQueue.ReadRun | src/org/sshtunnel/beta/SSHTunnelService.java:78-89 | one contiguous run: the oldest `n` bytes are copied and dropped, and the head advances and wraps to 0 at the end of the buffer |
| ByteQueues.ByteQueue.Write | src/org/sshtunnel/beta/SSHTunnelService.java:98-136 | the same error and zero-length cases as `read`; otherwise exactly `buffer[offset..offset+length]` is appended to the contents and the head does not move |
| ByteQueues.ByteQueue.WriteRun | src/org/sshtunnel/beta/SSHTunnelService.java:118-130 | one contiguous run at the tail, computed with wrap-around, appends the next bytes of the source and keeps the head |
| ShellParse.Scan | src/org/sshtunnel/beta/SSHTunnelService.java:555-593 | definition: the three-state loop of `parse` (whitespace, plain, quoted) as a recursion over the position; its meaning is stated by `Parse`, `QuoteFreeIsWords`, `OneWord`, `EscapeInsideQuotes`, `BackslashOutsideQuotes` and `EmptyGroups` |
| ShellParse.Tokens | src/org/sshtunnel/beta/SSHTunnelService.java:549-595 | definition: `Scan` from the start in the whitespace state with an empty builder; the lemmas named for `Scan` give its meaning |
| ShellParse.Parse | src/org/sshtunnel/beta/SSHTunnelService.java:549-595 | the loop over the characters, with its state, builder and result list, yields the token list `Tokens(cmd)` of the state machine |
| ShellParse.QuoteFreeIsWords | src/org/sshtunnel/beta/SSHTunnelService.java:557-593 | input without `"` splits into its whitespace-separated words, and no token is empty |
| ShellParse.WordsAreNonEmpty | src/org/sshtunnel/beta/SSHTunnelService.java:559-577 | every word is non-empty and contains no whitespace |
| ShellParse.TwoWords | src/org/sshtunnel/beta/SSHTunnelService.java:557-593 | two plain words separated by one space parse to exactly those two words |
| ShellParse.DefaultShellTokens | src/org/sshtunnel/beta/SSHTunnelService.java:155 | the default shell `"/system/bin/sh -"` parses to `["/system/bin/sh", "-"]` |
| ShellParse.QuotedGroupJoins | src/org/sshtunnel/beta/SSHTunnelService.java:564-588 | `a"b c"d` is the single token `ab cd` |
| ShellParse.EscapeInsideQuotes | src/org/sshtunnel/beta/SSHTunnelService.java:579-583 | for all quote- and backslash-free `a`, `b` and every character `x`, even a quote or a backslash, `"a\xb"` is the single token `axb`: inside quotes a backslash takes the next character literally and is itself dropped |
| ShellParse.OneWord | src/org/sshtunnel/beta/SSHTunnelService.java:559-568 | every non-empty text without whitespace and without `"`, backslashes included, is exactly one token, itself |
| ShellParse.BackslashOutsideQuotes | src/org/sshtunnel/beta/SSHTunnelService.java:559-568 | for all quote- and whitespace-free `u`, `v`, the text `u\v` is the single token `u\v`: outside quotes a backslash is an ordinary character and is kept |
| ShellParse.EmptyGroups | src/org/sshtunnel/beta/SSHTunnelService.java:559-593 | a trailing empty builder is dropped, but `""` followed by whitespace yields an empty token |
| ShellParse.CreateSubprocessArgs | src/org/sshtunnel/beta/SSHTunnelService.java:597-615 | a null or empty shell becomes the default shell; the first three tokens become `arg0`..`arg2`, absent ones null; no tokens at all is the `args.get(0)` failure; the default gives `/system/bin/sh` and `-` |
| Login.CommandLine | src/org/sshtunnel/beta/SSHTunnelService.java:356-364 | definition: the ssh command line of the mode, concatenated as the source does; `CommandLineWords` states which arguments it carries |
| Login.CommandLineWords | src/org/sshtunnel/beta/SSHTunnelService.java:356-364 | for a user and host without whitespace, the SOCKS line splits into the `openssh` program, `-NT`, `-D <localPort>`, `-p <port>`, `-L 127.0.0.1:5353:8.8.8.8:53` and finally `user@hostIP`; the HTTP line into the `ssh` program, `-NTy`, `-L 127.0.0.1:<localPort>:127.0.0.1:<remotePort>`, the same DNS forward and finally `user@hostIP/port` |
| Login.Run | src/org/sshtunnel/beta/SSHTunnelService.java:371-406 | definition: the prompt loop as a recursion over the script of reads, from a given buffer, counter and output; its meaning is stated by `YesIsAnsweredFirst`, `PasswordEndsDialogue`, `UnansweredChunksFail`, `EofAfterUnansweredConnects`, `IoErrorAfterUnansweredFails`, `StaleTextStillMatches` and `WrittenAreAnswers` |
| Login.Prompts | src/org/sshtunnel/beta/SSHTunnelService.java:371-406 | definition: `Run` from a zeroed buffer, counter 0 and nothing written; `TwelfthUnansweredChunkFails` and `ElevenUnansweredThenEofConnects` state what it gives from that start |
| Login.Refill | src/org/sshtunnel/beta/SSHTunnelService.java:372-373 | definition, used by `ReadInto` and `StaleTextStillMatches`: a read puts the new bytes at the front of the reused 256-byte buffer and leaves the stale bytes behind them |
| Login.PrintableChar | src/org/sshtunnel/beta/SSHTunnelService.java:376-379 | definition per byte, used by `Printable` and `Sanitize`: a byte in [32, 126] stays as its character, and every other byte, including the negative ones, becomes a space |
| Login.Printable | src/org/sshtunnel/beta/SSHTunnelService.java:374-382 | definition, used by `Sanitize`: the text has one character per buffer byte, each the `PrintableChar` of that byte |
| Login.Sanitize | src/org/sshtunnel/beta/SSHTunnelService.java:374-382 | the loop walks the whole buffer, stale bytes included, and builds its printable text |
| Login.ReadInto | src/org/sshtunnel/beta/SSHTunnelService.java:373 | `read(data)` overwrites only the front of the array with the chunk |
| Login.AnswerPrompts | src/org/sshtunnel/beta/SSHTunnelService.java:371-406 | the read loop, with its counter and reused array, ends with the outcome and the answers of the recursive dialogue `Prompts` |
| Login.YesIsAnsweredFirst | src/org/sshtunnel/beta/SSHTunnelService.java:383-387 | a buffer showing `yes` is answered with exactly `yes\n`, before any password check, and is not counted |
| Login.PasswordEndsDialogue | src/org/sshtunnel/beta/SSHTunnelService.java:388-393 | a password prompt is answered with the password and `exit`, and the loop ends successfully |
| Login.UnansweredChunksFail | src/org/sshtunnel/beta/SSHTunnelService.java:394-400 | unmatched chunks write nothing, and the one that finds the counter above 10 fails the login |
| Login.TwelfthUnansweredChunkFails | src/org/sshtunnel/beta/SSHTunnelService.java:371-400 | from a fresh start the twelfth unmatched chunk makes `connect` fail, and nothing has been written after the command line |
| Login.EofAfterUnansweredConnects | src/org/sshtunnel/beta/SSHTunnelService.java:371-409 | the end of the stream after at most eleven unmatched chunks leaves the loop and counts as success |
| Login.ElevenUnansweredThenEofConnects | src/org/sshtunnel/beta/SSHTunnelService.java:371-409 | from a fresh start, eleven unmatched chunks and then the end of the stream succeed with nothing written |
| Login.IoErrorAfterUnansweredFails | src/org/sshtunnel/beta/SSHTunnelService.java:403-406 | an I/O error on the pty fails the login without any further write |
| Login.StaleTextStillMatches | src/org/sshtunnel/beta/SSHTunnelService.java:372-383 | text left in the buffer beyond the end of a shorter new chunk is still matched |
| Login.WrittenAreAnswers | src/org/sshtunnel/beta/SSHTunnelService.java:383-393 | the loop only ever appends, and every string it writes is `yes\n`, the password line or `exit\n` |
| IptablesRules.DnsRule | src/org/sshtunnel/beta/SSHTunnelService.java:427-433 | definition: the UDP/53 rule, REDIRECT to 8153 or DNAT to 127.0.0.1:8153 by `hasRedirectSupport`, with `-A` or `-D`; `DnsRuleFirst` places it |
| IptablesRules.TcpPair | src/org/sshtunnel/beta/SSHTunnelService.java:187-205 | definition: the four TCP templates as one function of the action and the redirect flag; `TcpPairIsPair` states their lines |
| IptablesRules.AppRules | src/org/sshtunnel/beta/SSHTunnelService.java:444-450 | definition: the per-application loop, one owner-qualified copy of the template per proxied application; `AppRulesConcat`, `UnproxiedAppsAddNothing` and `AppRulesPairs` give its meaning |
| IptablesRules.Commands | src/org/sshtunnel/beta/SSHTunnelService.java:420-453 | definition: the `StringBuffer` contents, the DNS rule followed by the template in global mode or by the per-application rules otherwise |
| IptablesRules.Rewrite | src/org/sshtunnel/beta/SSHTunnelService.java:455-463 | definition: the host exclusion for both ports when the address is set, then the SOCKS remap of `8124` to `8123` over the whole text; `RewritePairs` states its effect on the rule pairs |
| IptablesRules.RuleText | src/org/sshtunnel/beta/SSHTunnelService.java:416-463 | definition: the text `finishConnection` (with `-A`) and `onDisconnect` (with `-D`) run; `DeactivationInvertsActivation`, `DnsRuleFirst`, `RuleTextLines` and `SocksRemapRenamesUid` give its meaning |
| IptablesRules.ProbeRule | src/org/sshtunnel/beta/SSHTunnelService.java:283-284 | definition: the UDP/53 REDIRECT probe, with `-D` its cleanup; `ProbeCleanupDeletesProbe` relates the two |
| IptablesRules.DeactivationInvertsActivation | src/org/sshtunnel/beta/SSHTunnelService.java:427-463 | the text `onDisconnect` runs is the text `finishConnection` runs for the same configuration with every `-A` replaced by `-D`, so both have the same lines in the same order |
| IptablesRules.ProbeCleanupDeletesProbe | src/org/sshtunnel/beta/SSHTunnelService.java:283-318 | the cleanup command of the probe is the probe with `-A` replaced by `-D`, and it is the REDIRECT variant of the DNS deletion rule |
| IptablesRules.AppRulesConcat | src/org/sshtunnel/beta/SSHTunnelService.java:444-450 | the per-application loop over two lists is the loop over the first followed by the loop over the second, so the rules follow the application order |
| IptablesRules.UnproxiedAppsAddNothing | src/org/sshtunnel/beta/SSHTunnelService.java:445 | applications that are not proxied contribute no rules |
| IptablesRules.DnsRuleFirst | src/org/sshtunnel/beta/SSHTunnelService.java:427-463 | the text starts with the UDP/53 rule, REDIRECT or DNAT by `hasRedirectSupport`, untouched by the rewrites, followed by the rewritten TCP rules |
| RuleLines.TcpPairIsPair | src/org/sshtunnel/beta/SSHTunnelService.java:187-205 | each of the four templates is the port-80 rule to 8123 followed by the port-443 rule to 8124, for its action and target |
| RuleLines.AppRulesPairs | src/org/sshtunnel/beta/SSHTunnelService.java:444-450 | the owner replacement makes one copy of the template per proxied application, in order, each with the clause `-m owner --uid-owner <uid>` |
| RuleLines.RewritePairs | src/org/sshtunnel/beta/SSHTunnelService.java:455-463 | the host-exclusion rewrites put `! -d <hostIP>` before both port matches of every TCP rule, and the SOCKS rewrite sends only the port-443 rules to 8123 |
| RuleLines.RuleTextLines | src/org/sshtunnel/beta/SSHTunnelService.java:427-463 | the activation text is exactly the DNS rule followed by, for the whole device or for each proxied application in order, the port-80 and port-443 rules with their exclusion and target port |
| RuleLines.RuleLines | src/org/sshtunnel/beta/SSHTunnelService.java:427-463 | definition: the rule text line by line, the DNS rule and then per application (or once for the whole device) the port-80 rule to 8123 and the port-443 rule to 8124, with the owner clause, the host exclusion and the SOCKS target for both ports; `RuleTextLines` ties it to `RuleText` and `RuleLinesKeepUid` shows each uid survives |
| RuleLines.RuleLinesKeepUid | src/org/sshtunnel/beta/SSHTunnelService.java:444-450 | the line-by-line text of one proxied application determines its uid: two uids give the same text only if they are equal |
| RuleLines.SocksRemapRenamesUid | src/org/sshtunnel/beta/SSHTunnelService.java:455-463 | under SOCKS, with no host address, the source's text for the single application uid 18124 equals the intended lines — and the source's text — for uid 18123, and differs from the intended lines for 18124 |
| TunnelService.RedirectSupported | src/org/sshtunnel/beta/SSHTunnelService.java:295-301 | the probe keeps REDIRECT support exactly when no stderr line contains `No chain/target/match` |
| TunnelService.Command | src/org/sshtunnel/beta/SSHTunnelService.java:321-331 | definition, used by `UnconnectedLoginRunsNoRootCommand`: exactly the root-command effects hand text to the root shell |
| TunnelService.PtyText | src/org/sshtunnel/beta/SSHTunnelService.java:368-390 | definition, used by `UnconnectedLoginRunsNoRootCommand`: exactly the command-line and answer effects write to the pty |
| TunnelService.PtyWrites | src/org/sshtunnel/beta/SSHTunnelService.java:384-391 | definition, used by `Connect`: one pty write per answer, in order |
| TunnelService.ProxyStart | src/org/sshtunnel/beta/SSHTunnelService.java:422-425 | definition: `proxy_socks.sh start` or `proxy_http.sh start` with the decimal local port, by mode; `FinishConnection` runs it before the rules |
| TunnelService.UnconnectedLoginRunsNoRootCommand | src/org/sshtunnel/beta/SSHTunnelService.java:394-408 | when the login does not connect, `connect` writes only the command line and the answers, and runs nothing as root |
| TunnelService.SshTunnelService.constructor | src/org/sshtunnel/beta/SSHTunnelService.java:163-207 | `hostIP` starts as `127.0.0.1`, REDIRECT support as assumed, and the service as not connected |
| TunnelService.SshTunnelService.RunRootCommand | src/org/sshtunnel/beta/SSHTunnelService.java:321-346 | the command is handed to the root shell, and no field changes |
| TunnelService.SshTunnelService.InitHasRedirectSupported | src/org/sshtunnel/beta/SSHTunnelService.java:275-319 | the flag is cleared exactly when some stderr line reports the missing target, and the probe rule is run and then removed with `-A` replaced by `-D` |
| TunnelService.SshTunnelService.RefreshApps | src/org/sshtunnel/beta/SSHTunnelService.java:441-442 | outside global mode an empty application list is fetched from the application manager |
| TunnelService.SshTunnelService.FinishConnection | src/org/sshtunnel/beta/SSHTunnelService.java:416-468 | the proxy script of the mode is started, and then the activation text of the current configuration is run |
| TunnelService.SshTunnelService.OnDisconnect | src/org/sshtunnel/beta/SSHTunnelService.java:686-731 | the service becomes disconnected, the deactivation text of the current configuration is run, and the HTTP proxy script is stopped |
| TunnelService.SshTunnelService.Connect | src/org/sshtunnel/beta/SSHTunnelService.java:348-410 | the command line of the mode goes to the pty, then the answers of the dialogue; only a successful login starts the proxy and installs the rules |
| TunnelService.SshTunnelService.HandleCommand | src/org/sshtunnel/beta/SSHTunnelService.java:476-498 | an unknown host fails with no effect; a resolved non-empty address replaces `hostIP`, an empty one keeps it, and then `connect` runs |
| TunnelService.SshTunnelService.ConnectionLost | src/org/sshtunnel/beta/SSHTunnelService.java:817-853 | nothing happens while disconnected; offline or without auto-reconnect the service only stops and becomes disconnected, with no rule command; otherwise it reconnects |
| TunnelService.SshTunnelService.Reconnect | src/org/sshtunnel/beta/SSHTunnelService.java:837-849 | after a one-second pause the rules are deleted before `connect` runs, and the service counts as connected whatever the login's outcome |
| JavaLang.Contains | src/org/sshtunnel/beta/SSHTunnelService.java:383-388 | `String.contains` holds exactly when the pattern occurs at some position |
| JavaLang.ToLowerAscii | src/org/sshtunnel/beta/SSHTunnelService.java:383-388 | definition, used by `Matched` and the prompt lemmas: lower-casing maps every character and keeps the length |
| JavaLang.ReplaceAll | src/org/sshtunnel/beta/SSHTunnelService.java:447-461 | definition of Java's `String.replace`, left to right and without overlaps; its meaning comes from the lemmas of `java_lang.dfy` on misses, hits and concatenation, used by `DeactivationInvertsActivation` and `RuleTextLines` |
| JavaLang.IntToString | src/org/sshtunnel/beta/SSHTunnelService.java:446-448 | the decimal text of an `int` is non-empty, made of digits and a minus sign, and has no minus sign when the value is non-negative |
| JavaLang.NatToStringRoundTrip | src/org/sshtunnel/beta/SSHTunnelService.java:423-425 | reading back the decimal text of a non-negative number gives the number |
| JavaLang.IntToStringRoundTrip | src/org/sshtunnel/beta/SSHTunnelService.java:446-448 | reading back the decimal text of any `int`, with its minus sign, gives the number |
| JavaLang.IntToStringInjective | src/org/sshtunnel/beta/SSHTunnelService.java:446-448 | different numbers have different decimal texts |

## Left out

- Concurrency: `synchronized`, `wait` and `notify` in `ByteQueue`, the `SSHMonitor` thread and the `DNSServer` thread started by `handleCommand` are not modelled.
- ByteQueues.ByteQueue.Read: requires a non-empty queue when it would transfer, because the wait for data is not modelled.
- ByteQueues.ByteQueue.Write: requires room for the whole write when it would transfer, because the wait for space is not modelled. So a write larger than the free space, which Java completes in several rounds as a reader drains the queue, lies outside the contract.
- Process and pty primitives (`Runtime.exec("su")`, `Exec.createSubprocess`, the streams on the pty) are not modelled. A root command is recorded in the trace. The pty is a given script of reads, and stderr lines are given input.
- TunnelService.SshTunnelService.RunRootCommand: has no result. The source returns false only when `exec` throws, and no caller uses the value.
- The exception paths of `runRootCommand`, `initHasRedirectSupported` and the probe stream are not modelled. Of the pty `IOException` caught at lines 403-406 only a failing read is modelled (`IoError`).
- Failing pty writes, of the command line and of the answers (`getBytes` writes at lines 368, 384 and 389-390), are not modelled: every write succeeds. In the source such a failure also ends in the catch at lines 403-406 and `connect` returns false.
- Login.AnswerPrompts: a script that runs out before the end of the stream gives `Waiting`, where the service would block in `read`.
- `InetAddress.getByName`, `isOnline` and `AppManager.getApps` are inputs: an optional resolved address, a flag, and the fixed list `installedApps`.
- `Thread.sleep(1000)` is a `Sleep` entry in the trace. The notification before `stopSelf` is not modelled.
- `onStart` sets `connected = true` at lines 782-787 after a successful `handleCommand`. That is outside this model, so `connected` becomes true only through `Reconnect` here.
- Notifications, sound and vibration, the reflection-based foreground code, `onCreate`/`onDestroy`/`onStart` and the SharedPreferences handler are not modelled.
- The ssh command line writes `getBytes()` of the text. Encoding is not modelled: the trace keeps strings.
- Java `int` overflow of `length + offset` in `ByteQueue` is not modelled: Dafny integers are unbounded.
- `toLowerCase` is modelled for ASCII letters only. Locale-dependent and non-ASCII case mappings are not.
- `hostIP == null` is kept as an option in the rule builder (`None`), although the service never sets it to null.
- IptablesRules.DeactivationInvertsActivation: requires that the host address does not contain `-A`. If it did, the replacement would also rewrite the address. An IP literal never contains it.
- RuleLines.RuleTextLines: holds only for host addresses without `-` (true of every IPv4 and IPv6 literal) and, in SOCKS mode, addresses and proxied uids without `8124`. It also needs non-negative uids when the host exclusion applies. Outside these conditions the source's replacements also rewrite the address or the uid: for example, uid 18124 becomes 18123 under SOCKS. `RuleText` keeps that behaviour; only this line-by-line reading excludes it. The uid case is the finding below.

## Findings

| source | as written | input that shows it | evidently intended | confidence | as-written member | corrected member |
|---|---|---|---|---|---|---|
| src/org/sshtunnel/beta/SSHTunnelService.java:455-463 | in SOCKS mode the port remap `rules.replace("8124", "8123")` runs over the whole text, owner clauses included | SOCKS mode, no host exclusion, one proxied application with uid 18124: its rules are written for uid 18123 | only the port-443 target `8124` becomes `8123`; each rule keeps its application's uid | not executed | `IptablesRules.RuleText`, with the counterexample `RuleLines.SocksRemapRenamesUid` | `RuleLines.RuleLines`, with `RuleLines.RuleLinesKeepUid` proved of it |
