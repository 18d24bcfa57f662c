/** What the text of a configuration means: digits, words, lines and the whole file. */
module Grammar {
  import opened Keys
  import opened Wrappers
  import opened Escape
  import opened Text
  import opened Config

  // ---- characters ----

  /** The byte of a character. */
  function Code(c: char): Byte
    requires (c as int) < 128
  {
    (c as int) as Byte
  }

  /** What each character does to a text, a line, a host and a number. */
  lemma Characters(c: char)
    requires (c as int) < 128
    ensures ByLine(Code(c)) == if c == '\n' || c == '\r' then Separator else Piece
    ensures ByWord(Code(c)) == if c == ' ' || c == '\t' || c == ',' then Separator else if c == '#' then Stop else Piece
    ensures ByColon(Code(c)) == if c == ':' then Separator else Piece
    ensures IsDigit(Code(c)) <==> '0' <= c <= '9'
    ensures IsHex(Code(c)) <==> '0' <= c <= '9' || 'A' <= c <= 'F' || 'a' <= c <= 'f'
  {
  }

  // ---- numbers ----

  ghost function Pow10(n: nat): nat { if n == 0 then 1 else 10 * Pow10(n - 1) }

  /** The first `n` digits of a number, each with the power of ten of its place. */
  ghost function Weighted(s: Line, n: nat): nat
    requires AllDigits(s) && n <= |s|
  {
    if n == 0 then 0 else Weighted(s, n - 1) + (s[n - 1] as nat - Code('0') as nat) * Pow10(|s| - n)
  }

  ghost function ValueOf(s: Line): nat
    requires AllDigits(s)
  {
    Weighted(s, |s|)
  }

  lemma {:induction false} WeightedSnoc(s: Line, d: Byte, n: nat)
    requires AllDigits(s + [d]) && n <= |s|
    ensures AllDigits(s) && Weighted(s + [d], n) == 10 * Weighted(s, n)
  {
    assert forall i :: 0 <= i < |s| ==> (s + [d])[i] == s[i];
    if n > 0 {
      WeightedSnoc(s, d, n - 1);
      assert (s + [d])[n - 1] == s[n - 1];
      hide AllDigits, IsDigit;
      TenTimes(s[n - 1] as int - Code('0') as int, |s| - n);
    }
  }

  lemma TenTimes(digit: int, k: nat)
    ensures digit * Pow10(k + 1) == 10 * (digit * Pow10(k))
  {
  }

  /** Digits are read as the sum of the digits times their powers of ten. */
  lemma {:induction false} NumberIs(s: Line)
    requires AllDigits(s)
    ensures Number(s, 0) == ValueOf(s)
  {
    if s != [] {
      var front, d := s[..|s| - 1], s[|s| - 1];
      assert s == front + [d];
      WeightedSnoc(front, d, |front|);
      NumberIs(front);
      NumberSplit(front, [d], 0);
      LastDigit(d, Number(front, 0));
    }
  }

  lemma LastDigit(d: Byte, so: nat)
    requires IsDigit(d)
    ensures Number([d], so) == 10 * so + (d as nat - 48)
  {
    assert Number([d][1..], 10 * so + (d as nat - 48)) == 10 * so + (d as nat - 48);
  }

  /** The number at the front of a text, with or without a sign; whatever follows the digits does not count. */
  lemma AtoiIs(s: Line, rest: Line)
    requires AllDigits(s) && (rest != [] ==> !IsDigit(rest[0]))
    ensures Atoi([Code('-')] + s + rest) == -(ValueOf(s) as int)
    ensures Atoi([Code('+')] + s + rest) == ValueOf(s)
    ensures s != [] ==> Atoi(s + rest) == ValueOf(s)
  {
    NumberIs(s);
    NumberSplit(s, rest, 0);
    assert ([Code('-')] + s + rest)[1..] == s + rest && ([Code('+')] + s + rest)[1..] == s + rest;
  }

  /** A printed number has no zero in front. */
  lemma {:induction false} DecimalIs(n: nat)
    ensures AllDigits(Decimal(n)) && ValueOf(Decimal(n)) == n && (Decimal(n)[0] == Code('0') ==> n == 0)
  {
    NumberOfDecimal(n);
    NumberIs(Decimal(n));
    hide Number, Weighted;
    if n >= 10 { DecimalIs(n / 10); }
  }

  // ---- words ----

  /** A host, a colon and digits are read as they stand if the number is a port; without a colon there is none. */
  lemma HostPortReads(host: Line, port: Line)
    requires host != [] && AllPiece(host, ByColon) && port != [] && AllDigits(port)
    ensures HostPort(host + [Code(':')] + port) ==
      if 1 <= ValueOf(port) <= 65535 then Some((host, ValueOf(port))) else None
    ensures HostPort(host) == None
  {
    assert AllPiece(port, ByColon);
    assert host + [Code(':')] + port == host + ([COLON] + port) && host + [] == host && port + [] == port;
    AtoiIs(port, []);
    PiecesWord(host, [COLON] + port, ByColon, 2);
    PiecesGap(COLON, port, ByColon, 1);
    PiecesWord(host, [], ByColon, 2);
    assert Pieces(port, ByColon, 1) == [port];
    hide Atoi, Weighted;
  }

  /** The words of a proxy line. */
  lemma ProxyWordsRead(host: Line, port: Line)
    requires host != [] && AllPiece(host, ByColon) && port != [] && AllDigits(port)
    ensures ReadWords([Ascii("proxy"), host + [Code(':')] + port]) ==
      if 1 <= ValueOf(port) <= 65535 then ProxyEntry(Proxy(host, ValueOf(port))) else BadEntry(BadHost)
  {
    HostPortReads(host, port);
    hide HostPort, Weighted, Ascii;
  }

  /** What a server line gives for its host, its weight and its key, and what is found wrong with them first. */
  function ServerOf(host: Line, port: nat, weight: nat, key: Key): Entry
  {
    if port < 1 || port > 65535 then BadEntry(BadHost)
    else if weight < 1 || weight > 999999 then BadEntry(BadWeight)
    else if |key| > 256 then BadEntry(BadKey)
    else ServerEntry(Server(host, port, weight, key))
  }

  lemma ServerParts(words: seq<Line>, host: Line, port: nat, weight: nat, key: Key)
    requires 3 <= |words| <= 4 && words[0] == Ascii("server") && Atoi(words[2]) == weight
    requires HostPort(words[1]) == if 1 <= port <= 65535 then Some((host, port)) else None
    requires if |words| == 3 then key == [] else KeyText(words[3]) == if |key| > 256 then None else Some(key)
    ensures ReadWords(words) == ServerOf(host, port, weight, key)
  {
    KeywordsInert();
    hide Ascii, HostPort, Atoi, KeyText, AllInert;
  }

  /** The words of a server line, with and without a start key. */
  lemma ServerWordsRead(host: Line, port: Line, weight: Line, key: Key)
    requires host != [] && AllPiece(host, ByColon) && port != [] && AllDigits(port) && weight != [] && AllDigits(weight)
    ensures var hp := host + [Code(':')] + port;
      && ReadWords([Ascii("server"), hp, weight, Hex(key, 0)]) == ServerOf(host, ValueOf(port), ValueOf(weight), key)
      && ReadWords([Ascii("server"), hp, weight]) == ServerOf(host, ValueOf(port), ValueOf(weight), [])
  {
    HostPortReads(host, port);
    AtoiIs(weight, []);
    KeyTextReads(key);
    assert weight + [] == weight;
    var hp := host + [Code(':')] + port;
    hide HostPort, ReadWords, ServerOf, ValueOf, Ascii, Atoi, Hex, KeyText, AllPiece, AllDigits;
    ServerParts([Ascii("server"), hp, weight, Hex(key, 0)], host, ValueOf(port), ValueOf(weight), key);
    ServerParts([Ascii("server"), hp, weight], host, ValueOf(port), ValueOf(weight), []);
  }

  lemma KeyTextReads(key: Key)
    ensures KeyText(Hex(key, 0)) == if |key| > 256 then None else Some(key)
  {
    UnhexInverts(key, 0);
    assert key[0..] == key;
    hide Hex, Unhex;
  }

  /** Lines with the wrong number of words or another keyword are refused; an empty one is not. */
  lemma OtherLines(words: seq<Line>)
    ensures words == [] <==> ReadWords(words) == Blank
    ensures words != [] && words[0] == Ascii("proxy") && |words| != 2 ==> ReadWords(words) == BadEntry(WrongCount)
    ensures words != [] && words[0] == Ascii("server") && |words| !in {3, 4} ==> ReadWords(words) == BadEntry(WrongCount)
    ensures words != [] && words[0] != Ascii("proxy") && words[0] != Ascii("server") ==> ReadWords(words) == BadEntry(Unrecognized)
  {
    KeywordsInert();
    hide HostPort, Ascii, Atoi, KeyText, AllInert;
  }

  // ---- the whole file ----

  /** What a configuration that was read promises to its users. */
  ghost predicate InRange(o: Outcome)
  {
    o.Loaded? ==>
      && (forall i :: 0 <= i < |o.proxies| ==> 1 <= o.proxies[i].port <= 65535)
      && (forall i :: 0 <= i < |o.servers| ==> 1 <= o.servers[i].port <= 65535 && 1 <= o.servers[i].weight <= 999999)
  }

  lemma EntryInRange(words: seq<Line>)
    ensures var e := ReadWords(words);
      && (e.ProxyEntry? ==> 1 <= e.proxy.port <= 65535)
      && (e.ServerEntry? ==> 1 <= e.server.port <= 65535 && 1 <= e.server.weight <= 999999)
  {
    hide Ascii, Atoi, Pieces, KeyText;
  }

  lemma {:induction false} LinesInRange(lines: seq<Line>, n: nat, testing: bool)
    requires n <= |lines|
    ensures var o := ReadLines(lines, n, testing); InRange(o) && (o.Loaded? && !testing ==> Distinct(o))
  {
    if n > 0 {
      LinesInRange(lines, n - 1, testing);
      var words := Pieces(lines[n - 1], ByWord, MAX_WORDS);
      EntryInRange(words);
      hide ReadWords, Pieces, InRange, Distinct, AddEntry;
      var before := ReadLines(lines, n - 1, testing);
      if before.Loaded? { AddInRange(before, ReadWords(words), n, testing); }
    }
  }

  lemma AddInRange(o: Outcome, e: Entry, line: nat, testing: bool)
    requires o.Loaded? && InRange(o) && (!testing ==> Distinct(o))
    requires e.ProxyEntry? ==> 1 <= e.proxy.port <= 65535
    requires e.ServerEntry? ==> 1 <= e.server.port <= 65535 && 1 <= e.server.weight <= 999999
    ensures var now := AddEntry(o, e, line, testing); InRange(now) && (now.Loaded? && !testing ==> Distinct(now))
  {
  }

  /** Every text that is accepted names a proxy and a server, with ports and weights in range, and repeats nothing. */
  lemma LoadedMeans(text: Line, testing: bool)
    ensures var o := Read(text, testing);
      o.Loaded? ==> o.proxies != [] && o.servers != [] && InRange(o) && (!testing ==> Distinct(o))
  {
    var lines := Pieces(text, ByLine, MAX_LINES);
    LinesInRange(lines, |lines|, testing);
    hide ReadLines, Pieces, InRange, Distinct;
  }

  /** What is wrong with a line: it cannot be read, or a real load meets what it has read before. */
  ghost predicate Wrong(o: Outcome, e: Entry, fault: Fault, testing: bool)
    requires o.Loaded?
  {
    match e
    case Blank => false
    case BadEntry(f) => fault == f
    case ProxyEntry(p) => fault == DuplicateProxy && !testing && p in o.proxies
    case ServerEntry(s) => fault == DuplicateServer && !testing && exists i :: 0 <= i < |o.servers| && o.servers[i].key == s.key
  }

  lemma AddWrong(o: Outcome, e: Entry, line: nat, testing: bool)
    requires o.Loaded?
    ensures var now := AddEntry(o, e, line, testing); now.Broken? ==> now.line == line && Wrong(o, e, now.fault, testing)
  {
  }

  /** Line `n` is the first that is wrong. */
  ghost predicate WrongAt(lines: seq<Line>, n: nat, fault: Fault, testing: bool)
  {
    && 0 < n <= |lines| && ReadLines(lines, n - 1, testing).Loaded?
    && Wrong(ReadLines(lines, n - 1, testing), ReadWords(Pieces(lines[n - 1], ByWord, 32)), fault, testing)
  }

  /** Reading stays as it is from the first wrong line on. */
  lemma {:induction false} BrokenSince(lines: seq<Line>, n: nat, testing: bool)
    requires n <= |lines| && ReadLines(lines, n, testing).Broken?
    ensures var o := ReadLines(lines, n, testing);
      0 < o.line <= n && ReadLines(lines, o.line, testing) == o && ReadLines(lines, o.line - 1, testing).Loaded?
  {
    hide ReadWords, Pieces, AddEntry;
    var before := ReadLines(lines, n - 1, testing);
    if before.Loaded? {
      AddWrong(before, ReadWords(Pieces(lines[n - 1], ByWord, MAX_WORDS)), n, testing);
    } else {
      BrokenSince(lines, n - 1, testing);
    }
  }

  lemma FirstWrong(lines: seq<Line>, n: nat, testing: bool)
    requires n <= |lines| && ReadLines(lines, n, testing).Broken?
    ensures var o := ReadLines(lines, n, testing); o.line <= n && WrongAt(lines, o.line, o.fault, testing)
  {
    BrokenSince(lines, n, testing);
    hide ReadWords, Pieces, AddEntry;
    var line := ReadLines(lines, n, testing).line;
    AddWrong(ReadLines(lines, line - 1, testing), ReadWords(Pieces(lines[line - 1], ByWord, MAX_WORDS)), line, testing);
  }

  /** A refused text is refused at its first wrong line, or behind the last for want of a proxy or a server. */
  lemma RefusedWhere(text: Line, testing: bool)
    ensures var o, lines := Read(text, testing), Pieces(text, ByLine, 1024);
      o.Broken? ==>
        if o.line <= |lines| then WrongAt(lines, o.line, o.fault, testing)
        else
          var all := ReadLines(lines, |lines|, testing);
          && o.line == |lines| + 1 && all.Loaded? && (o.fault == NoProxies <==> all.proxies == [])
          && (o.fault == NoServers <==> all.proxies != [] && all.servers == [])
  {
    var lines := Pieces(text, ByLine, MAX_LINES);
    if ReadLines(lines, |lines|, testing).Broken? { FirstWrong(lines, |lines|, testing); }
    hide ReadLines, Pieces, WrongAt;
  }

  // ---- a line in full ----

  ghost predicate Spells(b: Line, s: string)
  {
    |b| == |s| && forall i :: 0 <= i < |s| ==> b[i] as int == s[i] as int
  }

  /** Numbers and keys as they are printed. */
  lemma NumbersPrinted()
    ensures Spells(Decimal(22133), "22133") && Spells(Decimal(5), "5") && Spells(Hex([0x2F, 0xA0], 0), "2FA0")
  {
    assert Decimal(2) == [50];
    assert Decimal(22) == Decimal(2) + [50];
    assert Decimal(221) == Decimal(22) + [49];
    assert Decimal(2213) == Decimal(221) + [51];
    assert Decimal(22133) == Decimal(2213) + [51];
    assert Decimal(5) == [53];
    assert Hex([0x2F, 0xA0], 2) == [];
    assert Hex([0x2F, 0xA0], 1) == Digits(0xA0);
    assert Hex([0x2F, 0xA0], 0) == Digits(0x2F) + Digits(0xA0);
  }

  /** What is printed of a configuration: it reads back if the buffer is larger than the text; of one that just fits a byte is lost. */
  lemma PrintedReads(cfg: Outcome, created: Line, hostname: Line, space: nat, testing: bool)
    requires GoodConfig(cfg, testing) && AllPiece(created, ByLine) && AllPiece(hostname, ByLine)
    ensures var full := Printed(cfg, created, hostname);
      var out := Fitted(full, space);
      && (out == None <==> |full| > space)
      && (|full| == space > 0 ==> out == Some(full[..space - 1] + [0]))
      && (|full| < space && 2 + |cfg.proxies| + |cfg.servers| < 1024 ==> out.Some? && Read(out.value, testing) == cfg)
  {
    if 2 + |cfg.proxies| + |cfg.servers| < MAX_LINES { ReadInvertsPrint(cfg, created, hostname, testing); }
    hide Printed, Read;
  }

  /** A server line as it is printed. */
  lemma ServerLineIs()
    ensures Spells(ServerText(Server([Code('h')], 22133, 5, [0x2F, 0xA0])), "server\th:22133, 5, 2FA0")
  {
    NumbersPrinted();
    hide Decimal, Hex;
  }
}
