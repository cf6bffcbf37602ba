/**
 * The login dialogue of `SSHTunnelService.connect`: the ssh command line it
 * types into the pty, and the loop that reads the pty in 256-byte chunks and
 * answers host-key and password prompts.
 *
 * The pty is a script of reads given in advance; what the service writes
 * back is collected as a sequence of strings.
 */
module Login {
  import opened JavaLang
  import ShellParse

  datatype ConnectConfig = ConnectConfig(
    isSocks: bool,
    localPort: int,
    port: int,
    remotePort: int,
    user: string,
    hostIP: string,
    password: string)

  /** The ssh invocation: a SOCKS proxy, or a local forward to the remote HTTP proxy port. */
  function CommandLine(cfg: ConnectConfig): string
  {
    if cfg.isSocks then
      "/data/data/org.sshtunnel.beta/openssh -NT -D " + IntToString(cfg.localPort)
      + " -p " + IntToString(cfg.port) + " -L " + "127.0.0.1:5353:8.8.8.8:53 " + cfg.user + "@" + cfg.hostIP
    else
      "/data/data/org.sshtunnel.beta/ssh -NTy -L 127.0.0.1:" + IntToString(cfg.localPort)
      + ":" + "127.0.0.1" + ":" + IntToString(cfg.remotePort) + " -L " + "127.0.0.1:5353:8.8.8.8:53 "
      + cfg.user + "@" + cfg.hostIP + "/" + IntToString(cfg.port)
  }

  // ---------------------------------------------------------------------
  // The arguments the command line spells out.
  // ---------------------------------------------------------------------

  const SOCKS_PROGRAM: string := "/data/data/org.sshtunnel.beta/openssh"
  const HTTP_PROGRAM: string := "/data/data/org.sshtunnel.beta/ssh"

  /** The fixed local forward of DNS queries to Google's resolver. */
  const DNS_FORWARD: string := "127.0.0.1:5353:8.8.8.8:53"

  ghost predicate IsWord(w: string)
  {
    |w| > 0 && ShellParse.NoWhitespace(w)
  }

  /** Nine words joined by single spaces split back into those words. */
  lemma NineWords(w1: string, w2: string, w3: string, w4: string, w5: string, w6: string, w7: string, w8: string, w9: string)
    requires IsWord(w1) && IsWord(w2) && IsWord(w3) && IsWord(w4) && IsWord(w5)
    requires IsWord(w6) && IsWord(w7) && IsWord(w8) && IsWord(w9)
    ensures ShellParse.Words(w1 + " " + w2 + " " + w3 + " " + w4 + " " + w5 + " " + w6 + " " + w7 + " " + w8 + " " + w9)
         == [w1, w2, w3, w4, w5, w6, w7, w8, w9]
  {
    ShellParse.OneWordText(w1);
    var x2 := w1 + " " + w2;
    var x3 := x2 + " " + w3;
    var x4 := x3 + " " + w4;
    var x5 := x4 + " " + w5;
    var x6 := x5 + " " + w6;
    var x7 := x6 + " " + w7;
    var x8 := x7 + " " + w8;
    ShellParse.AppendWord(w1, w2);
    assert ShellParse.Words(x2) == [w1, w2];
    ShellParse.AppendWord(x2, w3);
    assert ShellParse.Words(x3) == [w1, w2, w3];
    ShellParse.AppendWord(x3, w4);
    assert ShellParse.Words(x4) == [w1, w2, w3, w4];
    ShellParse.AppendWord(x4, w5);
    assert ShellParse.Words(x5) == [w1, w2, w3, w4, w5];
    ShellParse.AppendWord(x5, w6);
    assert ShellParse.Words(x6) == [w1, w2, w3, w4, w5, w6];
    ShellParse.AppendWord(x6, w7);
    assert ShellParse.Words(x7) == [w1, w2, w3, w4, w5, w6, w7];
    ShellParse.AppendWord(x7, w8);
    assert ShellParse.Words(x8) == [w1, w2, w3, w4, w5, w6, w7, w8];
    ShellParse.AppendWord(x8, w9);
  }

  /** Seven words joined by single spaces split back into those words. */
  lemma SevenWords(w1: string, w2: string, w3: string, w4: string, w5: string, w6: string, w7: string)
    requires IsWord(w1) && IsWord(w2) && IsWord(w3) && IsWord(w4) && IsWord(w5) && IsWord(w6) && IsWord(w7)
    ensures ShellParse.Words(w1 + " " + w2 + " " + w3 + " " + w4 + " " + w5 + " " + w6 + " " + w7)
         == [w1, w2, w3, w4, w5, w6, w7]
  {
    ShellParse.OneWordText(w1);
    var x2 := w1 + " " + w2;
    var x3 := x2 + " " + w3;
    var x4 := x3 + " " + w4;
    var x5 := x4 + " " + w5;
    var x6 := x5 + " " + w6;
    ShellParse.AppendWord(w1, w2);
    assert ShellParse.Words(x2) == [w1, w2];
    ShellParse.AppendWord(x2, w3);
    assert ShellParse.Words(x3) == [w1, w2, w3];
    ShellParse.AppendWord(x3, w4);
    assert ShellParse.Words(x4) == [w1, w2, w3, w4];
    ShellParse.AppendWord(x4, w5);
    assert ShellParse.Words(x5) == [w1, w2, w3, w4, w5];
    ShellParse.AppendWord(x5, w6);
    assert ShellParse.Words(x6) == [w1, w2, w3, w4, w5, w6];
    ShellParse.AppendWord(x6, w7);
  }

  lemma SocksProgramSplit()
    ensures "/data/data/org.sshtunnel.beta/openssh -NT -D " == SOCKS_PROGRAM + " " + "-NT" + " " + "-D" + " "
  {
  }

  lemma HttpProgramSplit()
    ensures "/data/data/org.sshtunnel.beta/ssh -NTy -L 127.0.0.1:" == HTTP_PROGRAM + " " + "-NTy" + " " + "-L" + " " + "127.0.0.1:"
  {
  }

  lemma SocksProgramText()
    ensures IsWord(SOCKS_PROGRAM)
  {
  }

  lemma HttpProgramText()
    ensures IsWord(HTTP_PROGRAM)
  {
  }

  lemma DnsForwardText()
    ensures IsWord(DNS_FORWARD) && "127.0.0.1:5353:8.8.8.8:53 " == DNS_FORWARD + " "
  {
  }

  lemma OptionText()
    ensures IsWord("-NT") && IsWord("-D") && IsWord("-NTy") && IsWord("-L") && IsWord("-p")
    ensures " -p " == " " + "-p" + " " && " -L " == " " + "-L" + " "
  {
  }

  lemma PunctuationText()
    ensures IsWord("127.0.0.1:") && IsWord("127.0.0.1") && IsWord(":") && IsWord("@") && IsWord("/")
  {
  }

  lemma NumberText(n: int)
    ensures IsWord(IntToString(n))
  {
  }

  lemma Regroup3(a: string, b1: string, b2: string, b3: string)
    ensures a + b1 + b2 + b3 == a + (b1 + b2 + b3)
  {
    AppendAssoc(a, b1, b2);
    AppendAssoc(a, b1 + b2, b3);
  }

  lemma Regroup5(a: string, b1: string, b2: string, b3: string, b4: string, b5: string)
    ensures a + b1 + b2 + b3 + b4 + b5 == a + (b1 + b2 + b3 + b4 + b5)
  {
    Regroup3(a, b1, b2, b3);
    Regroup3(a, b1 + b2 + b3, b4, b5);
  }

  /** The SOCKS line is its nine words joined by single spaces. */
  lemma SocksLine(cfg: ConnectConfig)
    requires cfg.isSocks
    ensures CommandLine(cfg)
         == SOCKS_PROGRAM + " " + "-NT" + " " + "-D" + " " + IntToString(cfg.localPort) + " " + "-p" + " " + IntToString(cfg.port)
            + " " + "-L" + " " + DNS_FORWARD + " " + (cfg.user + "@" + cfg.hostIP)
  {
    var lp, pt := IntToString(cfg.localPort), IntToString(cfg.port);
    SocksProgramSplit();
    OptionText();
    DnsForwardText();
    var x1 := SOCKS_PROGRAM + " " + "-NT" + " " + "-D" + " " + lp;
    Regroup3(x1, " ", "-p", " ");
    var x3 := x1 + " " + "-p" + " " + pt;
    Regroup3(x3, " ", "-L", " ");
    var x5 := x3 + " " + "-L" + " ";
    AppendAssoc(x5, DNS_FORWARD, " ");
    Regroup3(x5 + DNS_FORWARD + " ", cfg.user, "@", cfg.hostIP);
  }

  /** The HTTP line is its seven words joined by single spaces. */
  lemma HttpLine(cfg: ConnectConfig)
    requires !cfg.isSocks
    ensures CommandLine(cfg)
         == HTTP_PROGRAM + " " + "-NTy" + " " + "-L" + " "
            + ("127.0.0.1:" + IntToString(cfg.localPort) + ":" + "127.0.0.1" + ":" + IntToString(cfg.remotePort))
            + " " + "-L" + " " + DNS_FORWARD + " " + (cfg.user + "@" + cfg.hostIP + "/" + IntToString(cfg.port))
  {
    var lp, rp := IntToString(cfg.localPort), IntToString(cfg.remotePort);
    HttpProgramSplit();
    OptionText();
    DnsForwardText();
    var a := HTTP_PROGRAM + " " + "-NTy" + " " + "-L" + " ";
    Regroup5(a, "127.0.0.1:", lp, ":", "127.0.0.1", ":");
    AppendAssoc(a, "127.0.0.1:" + lp + ":" + "127.0.0.1" + ":", rp);
    var x1 := a + ("127.0.0.1:" + lp + ":" + "127.0.0.1" + ":" + rp);
    Regroup3(x1, " ", "-L", " ");
    var x3 := x1 + " " + "-L" + " ";
    AppendAssoc(x3, DNS_FORWARD, " ");
    Regroup5(x3 + DNS_FORWARD + " ", cfg.user, "@", cfg.hostIP, "/", IntToString(cfg.port));
  }

  lemma JoinedWord3(x: string, y: string, z: string)
    requires IsWord(x) && IsWord(y) && IsWord(z)
    ensures IsWord(x + y + z)
  {
    ShellParse.NoWhitespaceConcat(x, y);
    ShellParse.NoWhitespaceConcat(x + y, z);
  }

  lemma JoinedWord5(x1: string, x2: string, x3: string, x4: string, x5: string)
    requires IsWord(x1) && IsWord(x2) && IsWord(x3) && IsWord(x4) && IsWord(x5)
    ensures IsWord(x1 + x2 + x3 + x4 + x5)
  {
    JoinedWord3(x1, x2, x3);
    JoinedWord3(x1 + x2 + x3, x4, x5);
  }

  /** The SOCKS line: the dynamic forward on the local port, the ssh port, the DNS forward, then `user@host`. */
  lemma SocksCommandWords(cfg: ConnectConfig)
    requires cfg.isSocks && ShellParse.NoWhitespace(cfg.user) && ShellParse.NoWhitespace(cfg.hostIP)
    ensures ShellParse.Words(CommandLine(cfg))
         == [SOCKS_PROGRAM, "-NT", "-D", IntToString(cfg.localPort), "-p", IntToString(cfg.port),
             "-L", DNS_FORWARD, cfg.user + "@" + cfg.hostIP]
  {
    SocksLine(cfg);
    SocksProgramText();
    OptionText();
    DnsForwardText();
    NumberText(cfg.localPort);
    NumberText(cfg.port);
    PunctuationText();
    ShellParse.NoWhitespaceConcat(cfg.user, "@");
    ShellParse.NoWhitespaceConcat(cfg.user + "@", cfg.hostIP);
    NineWords(SOCKS_PROGRAM, "-NT", "-D", IntToString(cfg.localPort), "-p", IntToString(cfg.port),
              "-L", DNS_FORWARD, cfg.user + "@" + cfg.hostIP);
  }

  /** The HTTP line: the local port forwarded to the remote proxy port, the DNS forward, then `user@host/port`. */
  lemma HttpCommandWords(cfg: ConnectConfig)
    requires !cfg.isSocks && ShellParse.NoWhitespace(cfg.user) && ShellParse.NoWhitespace(cfg.hostIP)
    ensures ShellParse.Words(CommandLine(cfg))
         == [HTTP_PROGRAM, "-NTy", "-L", "127.0.0.1:" + IntToString(cfg.localPort) + ":" + "127.0.0.1" + ":" + IntToString(cfg.remotePort),
             "-L", DNS_FORWARD, cfg.user + "@" + cfg.hostIP + "/" + IntToString(cfg.port)]
  {
    var lp, rp, pt := IntToString(cfg.localPort), IntToString(cfg.remotePort), IntToString(cfg.port);
    HttpLine(cfg);
    HttpProgramText();
    OptionText();
    DnsForwardText();
    NumberText(cfg.localPort);
    NumberText(cfg.remotePort);
    NumberText(cfg.port);
    PunctuationText();
    JoinedWord5("127.0.0.1:", lp, ":", "127.0.0.1", ":");
    ShellParse.NoWhitespaceConcat("127.0.0.1:" + lp + ":" + "127.0.0.1" + ":", rp);
    ShellParse.NoWhitespaceConcat(cfg.user, "@");
    ShellParse.NoWhitespaceConcat(cfg.user + "@", cfg.hostIP);
    ShellParse.NoWhitespaceConcat(cfg.user + "@" + cfg.hostIP, "/");
    ShellParse.NoWhitespaceConcat(cfg.user + "@" + cfg.hostIP + "/", pt);
    SevenWords(HTTP_PROGRAM, "-NTy", "-L", "127.0.0.1:" + lp + ":" + "127.0.0.1" + ":" + rp,
               "-L", DNS_FORWARD, cfg.user + "@" + cfg.hostIP + "/" + pt);
  }

  /**
   * The command line `connect` types, split at whitespace, is the ssh invocation of the mode:
   * the program, its flags, the forwards, and the destination as its last word.
   */
  lemma CommandLineWords(cfg: ConnectConfig)
    requires ShellParse.NoWhitespace(cfg.user) && ShellParse.NoWhitespace(cfg.hostIP)
    ensures cfg.isSocks ==>
      ShellParse.Words(CommandLine(cfg))
      == [SOCKS_PROGRAM, "-NT", "-D", IntToString(cfg.localPort), "-p", IntToString(cfg.port),
          "-L", DNS_FORWARD, cfg.user + "@" + cfg.hostIP]
    ensures !cfg.isSocks ==>
      ShellParse.Words(CommandLine(cfg))
      == [HTTP_PROGRAM, "-NTy", "-L", "127.0.0.1:" + IntToString(cfg.localPort) + ":" + "127.0.0.1" + ":" + IntToString(cfg.remotePort),
          "-L", DNS_FORWARD, cfg.user + "@" + cfg.hostIP + "/" + IntToString(cfg.port)]
  {
    if cfg.isSocks {
      SocksCommandWords(cfg);
    } else {
      HttpCommandWords(cfg);
    }
  }

  /** One `read(data)` on the pty: some bytes, the end of the stream, or an `IOException`. */
  datatype PtyRead = Chunk(bytes: seq<byte>) | Eof | IoError

  const BUFFER_SIZE: nat := 256

  /** A read fills at most the whole buffer and, when not at the end of the stream, at least one byte. */
  ghost predicate WellFormed(script: seq<PtyRead>)
  {
    forall k :: 0 <= k < |script| && script[k].Chunk? ==> 0 < |script[k].bytes| <= BUFFER_SIZE
  }

  /** The reused buffer after a read: the new bytes at the front, stale bytes from earlier reads behind them. */
  function Refill(window: seq<byte>, bytes: seq<byte>): (w: seq<byte>)
    requires |bytes| <= |window|
    ensures |w| == |window|
    ensures w[..|bytes|] == bytes && w[|bytes|..] == window[|bytes|..]
  {
    bytes + window[|bytes|..]
  }

  /** The character the sanitiser appends for one byte: printable ASCII is kept, everything else is a space. */
  function PrintableChar(b: byte): (c: char)
    ensures 32 <= c as int <= 126
    ensures (32 <= b <= 126) ==> c as int == b as int
    ensures !(32 <= b <= 126) ==> c == ' '
  {
    if b < 32 || b > 126 then ' ' else (b as int) as char
  }

  function Printable(window: seq<byte>): (line: string)
    ensures |line| == |window|
    ensures forall i :: 0 <= i < |window| ==> line[i] == PrintableChar(window[i])
  {
    seq(|window|, i requires 0 <= i < |window| => PrintableChar(window[i]))
  }

  /** The text the prompts are matched against. */
  function Matched(window: seq<byte>): string
  {
    ToLowerAscii(Printable(window))
  }

  datatype Outcome =
    | Connected   // the loop ended normally; `finishConnection` runs and `connect` returns true
    | Failed      // `connect` returns false without `finishConnection`
    | Waiting     // the script ran out while the service still blocks in `read`

  /** What the loop does from a given buffer, unmatched-chunk counter and output so far. */
  function Run(password: string, script: seq<PtyRead>, window: seq<byte>, count: int, written: seq<string>): (Outcome, seq<string>)
    requires |window| == BUFFER_SIZE && WellFormed(script)
    decreases |script|
  {
    if script == [] then (Waiting, written)
    else
      match script[0]
      case Eof => (Connected, written)
      case IoError => (Failed, written)
      case Chunk(bytes) =>
        var w := Refill(window, bytes);
        var line := Matched(w);
        if Contains(line, "yes") then Run(password, script[1..], w, count, written + ["yes\n"])
        else if Contains(line, "password") then (Connected, written + [password + "\n", "exit\n"])
        else if count > 10 then (Failed, written)
        else Run(password, script[1..], w, count + 1, written)
  }

  function ZeroBuffer(): (w: seq<byte>)
    ensures |w| == BUFFER_SIZE
  {
    seq(BUFFER_SIZE, _ => 0)
  }

  /** The loop from a fresh buffer: its outcome and the answers it writes after the command line. */
  function Prompts(password: string, script: seq<PtyRead>): (Outcome, seq<string>)
    requires WellFormed(script)
  {
    Run(password, script, ZeroBuffer(), 0, [])
  }

  /** One chunk read by `Run`: the four ways the sanitised buffer can send the dialogue on. */
  lemma ChunkStep(password: string, script: seq<PtyRead>, window: seq<byte>, count: int, written: seq<string>)
    requires |window| == BUFFER_SIZE && WellFormed(script) && 0 < |script| && script[0].Chunk?
    ensures WellFormed(script[1..])
    ensures
      var w := Refill(window, script[0].bytes);
      var line := Matched(w);
      var r := Run(password, script, window, count, written);
      && (Contains(line, "yes") ==> r == Run(password, script[1..], w, count, written + ["yes\n"]))
      && (!Contains(line, "yes") && Contains(line, "password") ==> r == (Connected, written + [password + "\n", "exit\n"]))
      && (!Contains(line, "yes") && !Contains(line, "password") && count > 10 ==> r == (Failed, written))
      && (!Contains(line, "yes") && !Contains(line, "password") && count <= 10 ==> r == Run(password, script[1..], w, count + 1, written))
  {
    assert forall k :: 0 <= k < |script[1..]| ==> script[1..][k] == script[k + 1];
  }

  /** The sanitising loop over the whole buffer. */
  method Sanitize(data: array<byte>) returns (line: string)
    ensures line == Printable(data[..])
  {
    var sb := "";
    var i := 0;
    while i < data.Length
      invariant 0 <= i <= data.Length
      invariant sb == Printable(data[..i])
    {
      var printableB := ((data[i] as int) % 0x1_0000) as char;
      if data[i] < 32 || data[i] > 126 {
        printableB := ' ';
      }
      sb := sb + [printableB];
      i := i + 1;
    }
    assert data[..i] == data[..];
    return sb;
  }

  /** `read(data)`: the chunk is copied to the front of the buffer. */
  method ReadInto(data: array<byte>, bytes: seq<byte>)
    requires |bytes| <= data.Length
    modifies data
    ensures data[..] == Refill(old(data[..]), bytes)
  {
    var i := 0;
    while i < |bytes|
      invariant 0 <= i <= |bytes|
      invariant data[..i] == bytes[..i]
      invariant data[i..] == old(data[..])[i..]
    {
      data[i] := bytes[i];
      i := i + 1;
    }
  }

  /** The read loop of `connect`, after the command line has been written. */
  method AnswerPrompts(password: string, script: seq<PtyRead>) returns (outcome: Outcome, answers: seq<string>)
    requires WellFormed(script)
    ensures (outcome, answers) == Prompts(password, script)
  {
    answers := [];
    var count := 0;
    var data := new byte[BUFFER_SIZE](_ => 0);
    assert data[..] == ZeroBuffer();
    var i := 0;
    while i < |script|
      invariant 0 <= i <= |script| && data.Length == BUFFER_SIZE
      invariant WellFormed(script[i..])
      invariant Run(password, script[i..], data[..], count, answers) == Prompts(password, script)
      decreases |script| - i
    {
      ghost var rest := script[i..];
      assert rest[0] == script[i] && rest[1..] == script[i + 1..];
      match script[i]
      case Eof =>
        return Connected, answers;
      case IoError =>
        return Failed, answers;
      case Chunk(bytes) =>
        ChunkStep(password, rest, data[..], count, answers);
        ReadInto(data, bytes);
        var line := Sanitize(data);
        var lower := ToLowerAscii(line);
        if Contains(lower, "yes") {
          answers := answers + ["yes\n"];
        } else if Contains(lower, "password") {
          answers := answers + [password + "\n", "exit\n"];
          return Connected, answers;
        } else {
          if count > 10 {
            return Failed, answers;
          }
          count := count + 1;
        }
      i := i + 1;
    }
    return Waiting, answers;
  }

  // ---------------------------------------------------------------------
  // Properties of the dialogue.
  // ---------------------------------------------------------------------

  /** The first `n` reads are chunks after each of which the buffer matches neither prompt. */
  ghost predicate Unanswered(script: seq<PtyRead>, window: seq<byte>, n: nat)
    requires |window| == BUFFER_SIZE && WellFormed(script)
    decreases n
  {
    n == 0 ||
    (0 < |script| && script[0].Chunk? &&
      (var w := Refill(window, script[0].bytes);
       !Contains(Matched(w), "yes") && !Contains(Matched(w), "password") &&
       Unanswered(script[1..], w, n - 1)))
  }

  /** Unanswered chunks are counted, nothing is written back, and the one that finds the counter above 10 fails the login. */
  lemma {:induction false} UnansweredChunksFail(password: string, script: seq<PtyRead>, window: seq<byte>, count: nat, written: seq<string>)
    requires |window| == BUFFER_SIZE && WellFormed(script) && count <= 11
    requires Unanswered(script, window, 12 - count)
    ensures Run(password, script, window, count, written) == (Failed, written)
    decreases 12 - count
  {
    var w := Refill(window, script[0].bytes);
    if count <= 10 {
      UnansweredChunksFail(password, script[1..], w, count + 1, written);
    }
  }

  /** Up to eleven unanswered chunks and then the end of the stream: the login is taken as done. */
  lemma {:induction false} EofAfterUnansweredConnects(password: string, script: seq<PtyRead>, window: seq<byte>, count: nat, n: nat, written: seq<string>)
    requires |window| == BUFFER_SIZE && WellFormed(script) && count + n <= 11
    requires Unanswered(script, window, n) && n < |script| && script[n] == Eof
    ensures Run(password, script, window, count, written) == (Connected, written)
    decreases n
  {
    if n > 0 {
      var w := Refill(window, script[0].bytes);
      assert script[1..][n - 1] == script[n];
      EofAfterUnansweredConnects(password, script[1..], w, count + 1, n - 1, written);
    }
  }

  /** An I/O error on the pty, after up to eleven unanswered chunks, fails the login with nothing more written. */
  lemma {:induction false} IoErrorAfterUnansweredFails(password: string, script: seq<PtyRead>, window: seq<byte>, count: nat, n: nat, written: seq<string>)
    requires |window| == BUFFER_SIZE && WellFormed(script) && count + n <= 11
    requires Unanswered(script, window, n) && n < |script| && script[n] == IoError
    ensures Run(password, script, window, count, written) == (Failed, written)
    decreases n
  {
    if n > 0 {
      var w := Refill(window, script[0].bytes);
      assert script[1..][n - 1] == script[n];
      IoErrorAfterUnansweredFails(password, script[1..], w, count + 1, n - 1, written);
    }
  }

  /** From a fresh start, the twelfth unanswered chunk fails the login and nothing follows the command line. */
  lemma TwelfthUnansweredChunkFails(password: string, script: seq<PtyRead>)
    requires WellFormed(script) && Unanswered(script, ZeroBuffer(), 12)
    ensures Prompts(password, script) == (Failed, [])
  {
    var w := ZeroBuffer();
    var c: nat := 0;
    assert 12 - c == 12;
    UnansweredChunksFail(password, script, w, c, []);
  }

  /** From a fresh start, eleven unanswered chunks and then the end of the stream count as success. */
  lemma ElevenUnansweredThenEofConnects(password: string, script: seq<PtyRead>)
    requires WellFormed(script) && Unanswered(script, ZeroBuffer(), 11) && |script| > 11 && script[11] == Eof
    ensures Prompts(password, script) == (Connected, [])
  {
    var w := ZeroBuffer();
    var c: nat, n: nat := 0, 11;
    EofAfterUnansweredConnects(password, script, w, c, n, []);
  }

  /**
   * Stale bytes take part in matching: text found at or beyond the end of a
   * shorter new chunk is still found after it.
   */
  lemma StaleTextStillMatches(window: seq<byte>, bytes: seq<byte>, t: string, k: int)
    requires |bytes| <= |window| && |bytes| <= k
    requires OccursAt(Matched(window), t, k)
    ensures OccursAt(Matched(Refill(window, bytes)), t, k)
    ensures Contains(Matched(Refill(window, bytes)), t)
  {
    var before, after := Matched(window), Matched(Refill(window, bytes));
    assert forall i :: |bytes| <= i < |window| ==> after[i] == before[i];
    assert after[k..k + |t|] == before[k..k + |t|];
    assert OccursAt(after, t, k);
  }

  /** A chunk whose buffer shows `yes` is answered with exactly `yes`, even when it also shows `password`, and is not counted. */
  lemma YesIsAnsweredFirst(password: string, script: seq<PtyRead>, window: seq<byte>, count: int, written: seq<string>)
    requires |window| == BUFFER_SIZE && WellFormed(script) && |script| > 0 && script[0].Chunk?
    requires Contains(Matched(Refill(window, script[0].bytes)), "yes")
    ensures Run(password, script, window, count, written)
         == Run(password, script[1..], Refill(window, script[0].bytes), count, written + ["yes\n"])
  {
  }

  /** A password prompt is answered with the password and `exit`, and ends the loop successfully. */
  lemma PasswordEndsDialogue(password: string, script: seq<PtyRead>, window: seq<byte>, count: int, written: seq<string>)
    requires |window| == BUFFER_SIZE && WellFormed(script) && |script| > 0 && script[0].Chunk?
    requires !Contains(Matched(Refill(window, script[0].bytes)), "yes")
    requires Contains(Matched(Refill(window, script[0].bytes)), "password")
    ensures Run(password, script, window, count, written) == (Connected, written + [password + "\n", "exit\n"])
  {
  }

  /** Whatever happens, what was written before is kept, and every later write is an answer to a prompt. */
  lemma {:induction false} WrittenAreAnswers(password: string, script: seq<PtyRead>, window: seq<byte>, count: int, written: seq<string>)
    requires |window| == BUFFER_SIZE && WellFormed(script)
    ensures var out := Run(password, script, window, count, written).1;
      |out| >= |written| && out[..|written|] == written
      && forall i :: |written| <= i < |out| ==> out[i] in {"yes\n", password + "\n", "exit\n"}
    decreases |script|
  {
    if script != [] && script[0].Chunk? {
      var w := Refill(window, script[0].bytes);
      var line := Matched(w);
      if Contains(line, "yes") {
        WrittenAreAnswers(password, script[1..], w, count, written + ["yes\n"]);
        var out := Run(password, script[1..], w, count, written + ["yes\n"]).1;
        assert out[..|written| + 1][..|written|] == out[..|written|];
      } else if !Contains(line, "password") && count <= 10 {
        WrittenAreAnswers(password, script[1..], w, count + 1, written);
      }
    }
  }
}
