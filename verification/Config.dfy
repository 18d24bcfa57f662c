/** The proxy's configuration as text, printed and read back. */
module Config {
  import opened Keys
  import opened Wrappers
  import opened Escape
  import opened Text

  datatype Proxy = Proxy(host: Line, port: nat)
  datatype Server = Server(host: Line, port: nat, weight: nat, key: Key)

  const MAX_LINES := 1024
  const MAX_WORDS := 32
  const MAX_WEIGHT := 999999
  const MAX_PORT := 65535

  const NEWLINE: Byte := 10
  const TAB: Byte := 9
  const COMMA: Byte := 44
  const SPACE: Byte := 32
  const HASH: Byte := 35
  const COLON: Byte := 58

  function Ascii(s: string): Line { seq(|s|, i requires 0 <= i < |s| => (s[i] as int % 256) as Byte) }

  function ByLine(c: Byte): Class { if c == NEWLINE || c == 13 then Separator else Piece }

  function ByWord(c: Byte): Class
  {
    if c == SPACE || c == COMMA || c == TAB then Separator else if c == HASH then Stop else Piece
  }

  function ByColon(c: Byte): Class { if c == COLON then Separator else Piece }

  // ---- numbers ----

  predicate IsDigit(c: Byte) { 48 <= c <= 57 }

  /** The value of the leading digits. */
  function Number(s: Line, so: nat): nat
  {
    if s == [] || !IsDigit(s[0]) then so else Number(s[1..], 10 * so + (s[0] as nat - 48))
  }

  function Atoi(s: Line): int
  {
    if s != [] && s[0] == 45 then -(Number(s[1..], 0) as int)
    else if s != [] && s[0] == 43 then Number(s[1..], 0)
    else Number(s, 0)
  }

  function Decimal(n: nat): (r: Line)
    ensures r != [] && forall i :: 0 <= i < |r| ==> IsDigit(r[i])
  {
    (if n < 10 then [] else Decimal(n / 10)) + [(48 + n % 10) as Byte]
  }

  ghost predicate AllDigits(s: Line)
  {
    forall i :: 0 <= i < |s| ==> IsDigit(s[i])
  }

  lemma {:induction false} NumberSplit(s: Line, t: Line, so: nat)
    requires AllDigits(s)
    ensures Number(s + t, so) == Number(t, Number(s, so))
    decreases s
  {
    if s == [] {
      assert s + t == t;
    } else {
      assert (s + t)[1..] == s[1..] + t;
      NumberSplit(s[1..], t, 10 * so + (s[0] as nat - 48));
    }
  }

  lemma {:induction false} NumberOfDecimal(n: nat)
    ensures Number(Decimal(n), 0) == n
  {
    var front, last: Line := if n < 10 then [] else Decimal(n / 10), [(48 + n % 10) as Byte];
    NumberSplit(front, last, 0);
    if n >= 10 { NumberOfDecimal(n / 10); }
    var so := Number(front, 0);
    assert Number(last, so) == Number(last[1..], 10 * so + n % 10) == 10 * so + n % 10;
  }

  lemma AtoiDecimal(n: nat)
    ensures Atoi(Decimal(n)) == n
  {
    NumberOfDecimal(n);
    assert IsDigit(Decimal(n)[0]);
  }

  // ---- reading ----

  datatype Fault = WrongCount | BadHost | BadWeight | BadKey | Unrecognized | DuplicateProxy | DuplicateServer
                 | NoProxies | NoServers

  datatype Entry = Blank | ProxyEntry(proxy: Proxy) | ServerEntry(server: Server) | BadEntry(fault: Fault)

  function HostPort(word: Line): Option<(Line, nat)>
  {
    var argv := Pieces(word, ByColon, 2);
    if |argv| != 2 then None
    else
      var port := Atoi(argv[1]);
      if port < 1 || port > MAX_PORT then None else Some((argv[0], port))
  }

  function KeyText(word: Line): Option<Key>
  {
    var k := Unhex(word);
    if k.Some? && |k.value| > MAX_HEX_KEY then None else k
  }

  function ReadWords(argv: seq<Line>): Entry
  {
    if argv == [] then Blank
    else if argv[0] == Ascii("proxy") then
      if |argv| != 2 then BadEntry(WrongCount)
      else
        var hp := HostPort(argv[1]);
        if hp.None? then BadEntry(BadHost) else ProxyEntry(Proxy(hp.value.0, hp.value.1))
    else if argv[0] == Ascii("server") then
      if |argv| != 4 && |argv| != 3 then BadEntry(WrongCount)
      else
        var hp := HostPort(argv[1]);
        if hp.None? then BadEntry(BadHost)
        else
          var weight := Atoi(argv[2]);
          if weight < 1 || weight > MAX_WEIGHT then BadEntry(BadWeight)
          else
            var key := if |argv| == 4 then KeyText(argv[3]) else Some([]);
            if key.None? then BadEntry(BadKey) else ServerEntry(Server(hp.value.0, hp.value.1, weight, key.value))
    else BadEntry(Unrecognized)
  }

  datatype Outcome = Loaded(proxies: seq<Proxy>, servers: seq<Server>) | Broken(fault: Fault, line: nat)

  /** Adds a line's entry to what was read so far; a test run does not notice a repeated one. */
  function AddEntry(o: Outcome, e: Entry, line: nat, testing: bool): Outcome
    requires o.Loaded?
  {
    match e
    case Blank => o
    case BadEntry(f) => Broken(f, line)
    case ProxyEntry(p) =>
      if !testing && p in o.proxies then Broken(DuplicateProxy, line) else o.(proxies := o.proxies + [p])
    case ServerEntry(s) =>
      if !testing && exists i :: 0 <= i < |o.servers| && o.servers[i].key == s.key then Broken(DuplicateServer, line)
      else o.(servers := o.servers + [s])
  }

  /** What the first `n` lines give. */
  function ReadLines(lines: seq<Line>, n: nat, testing: bool): Outcome
    requires n <= |lines|
  {
    if n == 0 then Loaded([], [])
    else
      var o := ReadLines(lines, n - 1, testing);
      if o.Broken? then o else AddEntry(o, ReadWords(Pieces(lines[n - 1], ByWord, MAX_WORDS)), n, testing)
  }

  function Finished(o: Outcome, lines: nat): Outcome
  {
    if o.Broken? then o
    else if o.proxies == [] then Broken(NoProxies, lines + 1)
    else if o.servers == [] then Broken(NoServers, lines + 1)
    else o
  }

  function Read(text: Line, testing: bool): Outcome
  {
    var lines := Pieces(text, ByLine, MAX_LINES);
    Finished(ReadLines(lines, |lines|, testing), |lines|)
  }

  // ---- printing ----

  function ProxyText(p: Proxy): Line { Ascii("proxy") + [TAB] + p.host + [COLON] + Decimal(p.port) }

  function ServerText(s: Server): Line
  {
    Ascii("server") + [TAB] + (s.host + [COLON] + Decimal(s.port)) + [COMMA, SPACE] + Decimal(s.weight) + [COMMA, SPACE]
    + Hex(s.key, 0)
  }

  /** Lines as one text. */
  function Joined(lines: seq<Line>): Line
  {
    if lines == [] then [] else lines[0] + [NEWLINE] + Joined(lines[1..])
  }

  /** The header: two comments and an empty line. */
  function Header(created: Line, hostname: Line): (r: seq<Line>)
    ensures |r| == 3
  {
    [Ascii("# This file is ") + Ascii("automatically ") + Ascii("generated. ") + Ascii("Do not edit."),
     Ascii("#Created on ") + created + [COMMA, SPACE] + hostname, []]
  }

  // ---- well-formed configurations ----

  /** A byte that no cut touches. */
  predicate Inert(c: Byte) { c != 0 && ByLine(c).Piece? && ByWord(c).Piece? && ByColon(c).Piece? }

  ghost predicate AllInert(s: Line)
  {
    forall i :: 0 <= i < |s| ==> Inert(s[i])
  }

  ghost predicate GoodHost(h: Line) { h != [] && AllInert(h) }

  ghost predicate GoodProxy(p: Proxy) { GoodHost(p.host) && 1 <= p.port <= MAX_PORT }

  ghost predicate GoodServer(s: Server)
  {
    GoodHost(s.host) && 1 <= s.port <= MAX_PORT && 1 <= s.weight <= MAX_WEIGHT && |s.key| <= MAX_HEX_KEY
  }

  /** Entries that can be printed and read. */
  ghost predicate GoodEntries(cfg: Outcome)
  {
    && cfg.Loaded? && cfg.proxies != [] && cfg.servers != []
    && (forall i :: 0 <= i < |cfg.proxies| ==> GoodProxy(cfg.proxies[i]))
    && (forall i :: 0 <= i < |cfg.servers| ==> GoodServer(cfg.servers[i]))
  }

  /** No proxy and no start key is repeated. */
  ghost predicate Distinct(cfg: Outcome)
    requires cfg.Loaded?
  {
    && (forall i, j :: 0 <= i < j < |cfg.proxies| ==> cfg.proxies[i] != cfg.proxies[j])
    && (forall i, j :: 0 <= i < j < |cfg.servers| ==> cfg.servers[i].key != cfg.servers[j].key)
  }

  /** What the trees of a running proxy hold; a test run asks less. */
  ghost predicate GoodConfig(cfg: Outcome, testing: bool)
  {
    GoodEntries(cfg) && (testing || Distinct(cfg))
  }

  // ---- lines ----

  function NonEmpty(lines: seq<Line>): seq<Line>
  {
    if lines == [] then [] else (if lines[0] == [] then [] else [lines[0]]) + NonEmpty(lines[1..])
  }

  /** The lines of a text are its non-empty lines, if the table has room for one more. */
  lemma {:induction false} LinesOfText(lines: seq<Line>, max: nat)
    requires (forall i :: 0 <= i < |lines| ==> AllPiece(lines[i], ByLine)) && |NonEmpty(lines)| < max
    ensures Pieces(Joined(lines), ByLine, max) == NonEmpty(lines)
    decreases lines
  {
    if lines != [] {
      var l, rest := lines[0], Joined(lines[1..]);
      if l == [] {
        assert Joined(lines) == [NEWLINE] + rest;
        PiecesGap(NEWLINE, rest, ByLine, max);
        LinesOfText(lines[1..], max);
      } else {
        assert Joined(lines) == l + ([NEWLINE] + rest);
        PiecesWord(l, [NEWLINE] + rest, ByLine, max);
        PiecesGap(NEWLINE, rest, ByLine, max - 1);
        LinesOfText(lines[1..], max - 1);
      }
    }
  }

  lemma {:induction false} NonEmptySplit(xs: seq<Line>, ys: seq<Line>)
    ensures NonEmpty(xs + ys) == NonEmpty(xs) + NonEmpty(ys)
  {
    if xs == [] {
      assert xs + ys == ys;
    } else {
      assert (xs + ys)[1..] == xs[1..] + ys;
      NonEmptySplit(xs[1..], ys);
    }
  }

  lemma {:induction false} NonEmptyAll(xs: seq<Line>)
    requires forall i :: 0 <= i < |xs| ==> xs[i] != []
    ensures NonEmpty(xs) == xs
  {
    if xs != [] { NonEmptyAll(xs[1..]); }
  }

  // ---- words ----

  lemma InertPieces(w: Line)
    requires AllInert(w)
    ensures AllPiece(w, ByLine) && AllPiece(w, ByWord) && AllPiece(w, ByColon)
  {
  }

  lemma DecimalInert(n: nat)
    ensures AllInert(Decimal(n))
  {
  }

  lemma {:induction false} HexInert(key: Key, i: nat)
    requires i <= |key|
    ensures AllInert(Hex(key, i)) && (Hex(key, i) == [] <==> i == |key|)
    decreases |key| - i
  {
    if i < |key| { HexInert(key, i + 1); }
  }

  lemma HostPortText(host: Line, port: nat)
    requires GoodHost(host) && 1 <= port <= MAX_PORT
    ensures var w := host + [COLON] + Decimal(port);
      HostPort(w) == Some((host, port)) && AllPiece(w, ByWord) && AllPiece(w, ByLine) && w != []
  {
    var d := Decimal(port);
    DecimalInert(port);
    InertPieces(host);
    InertPieces(d);
    AtoiDecimal(port);
    assert host + [COLON] + d == host + ([COLON] + d);
    PiecesWord(host, [COLON] + d, ByColon, 2);
    PiecesGap(COLON, d, ByColon, 1);
    assert Pieces(d, ByColon, 1) == [d];
  }

  /** One word after a keyword and a tab. */
  lemma AfterKeyword(keyword: Line, rest: Line, max: nat)
    requires keyword != [] && AllPiece(keyword, ByWord) && max >= 2
    ensures Pieces(keyword + [TAB] + rest, ByWord, max) == [keyword] + Pieces(rest, ByWord, max - 1)
  {
    assert keyword + [TAB] + rest == keyword + ([TAB] + rest);
    PiecesWord(keyword, [TAB] + rest, ByWord, max);
    PiecesGap(TAB, rest, ByWord, max - 1);
  }

  lemma BeforeComma(w: Line, rest: Line, max: nat)
    requires w != [] && AllPiece(w, ByWord) && max >= 2
    ensures Pieces(w + [COMMA, SPACE] + rest, ByWord, max) == [w] + Pieces(rest, ByWord, max - 1)
  {
    assert w + [COMMA, SPACE] + rest == w + ([COMMA] + ([SPACE] + rest));
    PiecesWord(w, [COMMA] + ([SPACE] + rest), ByWord, max);
    PiecesGap(COMMA, [SPACE] + rest, ByWord, max - 1);
    PiecesGap(SPACE, rest, ByWord, max - 1);
  }

  lemma LastWord(w: Line, max: nat)
    requires AllPiece(w, ByWord) && max >= 2
    ensures Pieces(w, ByWord, max) == if w == [] then [] else [w]
  {
    if w != [] {
      PiecesWord(w, [], ByWord, max);
      assert w + [] == w;
    }
  }

  lemma LettersInert(s: string)
    requires forall i :: 0 <= i < |s| ==> 'a' <= s[i] <= 'z'
    ensures AllInert(Ascii(s))
  {
  }

  lemma KeywordsInert()
    ensures Ascii("proxy") != [] && Ascii("server") != [] && Ascii("proxy") != Ascii("server")
    ensures AllInert(Ascii("proxy")) && AllInert(Ascii("server"))
  {
    assert Ascii("proxy")[0] == 112 && Ascii("server")[0] == 115;
    LettersInert("proxy");
    LettersInert("server");
    hide Ascii, AllInert;
  }

  lemma ProxyLineReads(p: Proxy)
    requires GoodProxy(p)
    ensures ReadWords(Pieces(ProxyText(p), ByWord, MAX_WORDS)) == ProxyEntry(p)
    ensures AllPiece(ProxyText(p), ByLine) && ProxyText(p) != []
  {
    var k, w := Ascii("proxy"), p.host + [COLON] + Decimal(p.port);
    KeywordsInert();
    InertPieces(k);
    HostPortText(p.host, p.port);
    assert ProxyText(p) == k + [TAB] + w;
    hide Ascii, Pieces, Decimal, HostPort;
    AfterKeyword(k, w, MAX_WORDS);
    LastWord(w, MAX_WORDS - 1);
  }

  function ServerWords(s: Server): seq<Line>
  {
    [Ascii("server"), s.host + [COLON] + Decimal(s.port), Decimal(s.weight)] + if s.key == [] then [] else [Hex(s.key, 0)]
  }

  lemma WordsOfServer(k: Line, w: Line, weight: Line, hex: Line)
    requires k != [] && w != [] && weight != []
    requires AllPiece(k, ByWord) && AllPiece(w, ByWord) && AllPiece(weight, ByWord) && AllPiece(hex, ByWord)
    ensures Pieces(k + [TAB] + w + [COMMA, SPACE] + weight + [COMMA, SPACE] + hex, ByWord, MAX_WORDS)
         == [k, w, weight] + if hex == [] then [] else [hex]
  {
    hide Pieces, AllPiece;
    var two := weight + [COMMA, SPACE] + hex;
    assert k + [TAB] + w + [COMMA, SPACE] + weight + [COMMA, SPACE] + hex == k + [TAB] + (w + [COMMA, SPACE] + two);
    AfterKeyword(k, w + [COMMA, SPACE] + two, MAX_WORDS);
    BeforeComma(w, two, MAX_WORDS - 1);
    BeforeComma(weight, hex, MAX_WORDS - 2);
    LastWord(hex, MAX_WORDS - 3);
  }

  lemma ServerTextWords(s: Server)
    requires GoodServer(s)
    ensures Pieces(ServerText(s), ByWord, MAX_WORDS) == ServerWords(s)
    ensures AllPiece(ServerText(s), ByLine) && ServerText(s) != []
  {
    var k, w, weight, hex := Ascii("server"), s.host + [COLON] + Decimal(s.port), Decimal(s.weight), Hex(s.key, 0);
    KeywordsInert();
    InertPieces(k);
    HostPortText(s.host, s.port);
    DecimalInert(s.weight);
    InertPieces(weight);
    HexInert(s.key, 0);
    InertPieces(hex);
    hide Ascii, Pieces, Decimal, Hex, AllInert, ByLine, ByWord, AllPiece, HostPort;
    WordsOfServer(k, w, weight, hex);
    LineOfServer(k, w, weight, hex);
  }

  lemma LineOfServer(k: Line, w: Line, weight: Line, hex: Line)
    requires AllPiece(k, ByLine) && AllPiece(w, ByLine) && AllPiece(weight, ByLine) && AllPiece(hex, ByLine)
    ensures AllPiece(k + [TAB] + w + [COMMA, SPACE] + weight + [COMMA, SPACE] + hex, ByLine)
  {
    SeparatorsStay();
    hide ByLine;
    AllPieceJoin(k, [TAB]);
    AllPieceJoin(k + [TAB], w);
    AllPieceJoin(k + [TAB] + w, [COMMA, SPACE]);
    AllPieceJoin(k + [TAB] + w + [COMMA, SPACE], weight);
    AllPieceJoin(k + [TAB] + w + [COMMA, SPACE] + weight, [COMMA, SPACE]);
    AllPieceJoin(k + [TAB] + w + [COMMA, SPACE] + weight + [COMMA, SPACE], hex);
  }

  lemma AllPieceJoin(a: Line, b: Line)
    requires AllPiece(a, ByLine) && AllPiece(b, ByLine)
    ensures AllPiece(a + b, ByLine)
  {
  }

  lemma SeparatorsStay()
    ensures ByLine(TAB).Piece? && ByLine(COMMA).Piece? && ByLine(SPACE).Piece?
  {
  }

  lemma ServerLineReads(s: Server)
    requires GoodServer(s)
    ensures ReadWords(Pieces(ServerText(s), ByWord, MAX_WORDS)) == ServerEntry(s)
    ensures AllPiece(ServerText(s), ByLine) && ServerText(s) != []
  {
    ServerTextWords(s);
    KeywordsInert();
    HostPortText(s.host, s.port);
    AtoiDecimal(s.weight);
    UnhexInverts(s.key, 0);
    assert s.key[0..] == s.key;
    hide Ascii, Pieces, Decimal, HostPort, Hex, Unhex, Atoi, ServerText, AllPiece, AllInert;
  }

  lemma CommentReads(rest: Line)
    ensures ReadWords(Pieces([HASH] + rest, ByWord, MAX_WORDS)) == Blank
  {
  }

  // ---- there and back ----

  function ProxyTexts(ps: seq<Proxy>): (r: seq<Line>)
    ensures |r| == |ps|
  {
    seq(|ps|, i requires 0 <= i < |ps| => ProxyText(ps[i]))
  }

  function ServerTexts(ss: seq<Server>): (r: seq<Line>)
    ensures |r| == |ss|
  {
    seq(|ss|, i requires 0 <= i < |ss| => ServerText(ss[i]))
  }

  /** The lines that are not empty. */
  function Body(cfg: Outcome, c1: Line, c2: Line): seq<Line>
    requires cfg.Loaded?
  {
    [c1, c2] + ProxyTexts(cfg.proxies) + ServerTexts(cfg.servers)
  }

  ghost predicate Comment(c: Line)
  {
    c != [] && c[0] == HASH && AllPiece(c, ByLine)
  }

  lemma CommentIsBlank(c: Line)
    requires Comment(c)
    ensures ReadWords(Pieces(c, ByWord, MAX_WORDS)) == Blank
  {
    CommentReads(c[1..]);
    assert c == [HASH] + c[1..];
  }

  /** What reading has gathered after `n` lines of the body. */
  ghost function Gathered(cfg: Outcome, n: nat): Outcome
    requires cfg.Loaded? && n <= 2 + |cfg.proxies| + |cfg.servers|
  {
    var p := |cfg.proxies|;
    if n <= 2 then Loaded([], [])
    else if n <= 2 + p then Loaded(cfg.proxies[..n - 2], [])
    else Loaded(cfg.proxies, cfg.servers[..n - 2 - p])
  }

  lemma GatheredProxy(cfg: Outcome, n: nat, testing: bool)
    requires GoodConfig(cfg, testing) && 2 <= n < 2 + |cfg.proxies|
    ensures AddEntry(Gathered(cfg, n), ProxyEntry(cfg.proxies[n - 2]), n + 1, testing) == Gathered(cfg, n + 1)
  {
    assert cfg.proxies[..n - 1] == cfg.proxies[..n - 2] + [cfg.proxies[n - 2]];
    assert cfg.proxies[..|cfg.proxies|] == cfg.proxies;
  }

  lemma GatheredServer(cfg: Outcome, n: nat, testing: bool)
    requires GoodConfig(cfg, testing) && 2 + |cfg.proxies| <= n < 2 + |cfg.proxies| + |cfg.servers|
    ensures AddEntry(Gathered(cfg, n), ServerEntry(cfg.servers[n - 2 - |cfg.proxies|]), n + 1, testing) == Gathered(cfg, n + 1)
  {
    var j := n - 2 - |cfg.proxies|;
    assert cfg.servers[..j + 1] == cfg.servers[..j] + [cfg.servers[j]];
    assert cfg.proxies[..|cfg.proxies|] == cfg.proxies && cfg.servers[..0] == [];
  }

  lemma BodyAt(cfg: Outcome, c1: Line, c2: Line, n: nat)
    requires cfg.Loaded? && n < |Body(cfg, c1, c2)|
    ensures |Body(cfg, c1, c2)| == 2 + |cfg.proxies| + |cfg.servers|
    ensures Body(cfg, c1, c2)[n] ==
      if n == 0 then c1 else if n == 1 then c2
      else if n < 2 + |cfg.proxies| then ProxyText(cfg.proxies[n - 2]) else ServerText(cfg.servers[n - 2 - |cfg.proxies|])
  {
    hide ProxyText, ServerText;
  }

  /** One more line of the body adds its own entry. */
  lemma BodyStep(cfg: Outcome, c1: Line, c2: Line, n: nat, testing: bool)
    requires GoodConfig(cfg, testing) && Comment(c1) && Comment(c2) && n < |Body(cfg, c1, c2)| == 2 + |cfg.proxies| + |cfg.servers|
    ensures AddEntry(Gathered(cfg, n), ReadWords(Pieces(Body(cfg, c1, c2)[n], ByWord, MAX_WORDS)), n + 1, testing) == Gathered(cfg, n + 1)
  {
    BodyAt(cfg, c1, c2, n);
    hide Pieces, ProxyText, ServerText, ReadWords, Comment, Body;
    if n == 0 {
      CommentIsBlank(c1);
    } else if n == 1 {
      CommentIsBlank(c2);
    } else if n < 2 + |cfg.proxies| {
      ProxyLineReads(cfg.proxies[n - 2]);
      GatheredProxy(cfg, n, testing);
    } else {
      ServerLineReads(cfg.servers[n - 2 - |cfg.proxies|]);
      GatheredServer(cfg, n, testing);
    }
  }

  lemma {:induction false} BodyReads(cfg: Outcome, c1: Line, c2: Line, n: nat, testing: bool)
    requires GoodConfig(cfg, testing) && Comment(c1) && Comment(c2) && n <= |Body(cfg, c1, c2)| == 2 + |cfg.proxies| + |cfg.servers|
    ensures ReadLines(Body(cfg, c1, c2), n, testing) == Gathered(cfg, n)
  {
    hide Pieces, ReadWords, Comment, Body, AddEntry;
    if n > 0 {
      BodyReads(cfg, c1, c2, n - 1, testing);
      BodyStep(cfg, c1, c2, n - 1, testing);
    }
  }

  /** The whole text: comments, proxies, an empty line, servers. */
  function Printed(cfg: Outcome, created: Line, hostname: Line): Line
    requires cfg.Loaded?
  {
    Joined(Header(created, hostname) + ProxyTexts(cfg.proxies) + [[]] + ServerTexts(cfg.servers))
  }

  lemma HeaderComments(created: Line, hostname: Line)
    requires AllPiece(created, ByLine) && AllPiece(hostname, ByLine)
    ensures var h := Header(created, hostname); Comment(h[0]) && Comment(h[1]) && h[2] == [] && |h| == 3
  {
    var a, b := "# This file is ", "#Created on ";
    assert a[0] == '#' && b[0] == '#' && Ascii(a)[0] == HASH && Ascii(b)[0] == HASH;
    PlainText(a);
    PlainText("automatically ");
    PlainText("generated. ");
    PlainText("Do not edit.");
    PlainText(b);
    hide Ascii, ByLine;
    assert ByLine(COMMA).Piece? && ByLine(SPACE).Piece? by { SeparatorsStay(); }
  }

  lemma PlainText(s: string)
    requires forall i :: 0 <= i < |s| ==> s[i] >= ' ' && (s[i] as int) < 128
    ensures AllPiece(Ascii(s), ByLine)
  {
  }

  lemma TextsAllFit(cfg: Outcome, created: Line, hostname: Line)
    requires GoodEntries(cfg) && AllPiece(created, ByLine) && AllPiece(hostname, ByLine)
    ensures var h := Header(created, hostname);
      var lines := h + ProxyTexts(cfg.proxies) + [[]] + ServerTexts(cfg.servers);
      && (forall i :: 0 <= i < |lines| ==> AllPiece(lines[i], ByLine))
      && NonEmpty(lines) == Body(cfg, h[0], h[1])
  {
    hide ProxyText, ServerText, Header, AllPiece;
    var h := Header(created, hostname);
    HeaderComments(created, hostname);
    var ps, ss := ProxyTexts(cfg.proxies), ServerTexts(cfg.servers);
    forall i | 0 <= i < |ps|
      ensures AllPiece(ps[i], ByLine) && ps[i] != []
    {
      ProxyLineReads(cfg.proxies[i]);
    }
    forall i | 0 <= i < |ss|
      ensures AllPiece(ss[i], ByLine) && ss[i] != []
    {
      ServerLineReads(cfg.servers[i]);
    }
    assert AllPiece([], ByLine) by { NothingCut(); }
    hide NonEmpty, GoodEntries, ProxyTexts, ServerTexts;
    NonEmptySplit(h + ps + [[]], ss);
    NonEmptySplit(h + ps, [[]]);
    NonEmptySplit(h, ps);
    NonEmptyAll(ps);
    NonEmptyAll(ss);
    HeaderNonEmpty(h);
    assert [h[0], h[1]] + ps + [] == [h[0], h[1]] + ps;
  }

  lemma NothingCut()
    ensures AllPiece([], ByLine)
  {
  }

  lemma HeaderNonEmpty(h: seq<Line>)
    requires |h| == 3 && Comment(h[0]) && Comment(h[1]) && h[2] == []
    ensures NonEmpty(h) == [h[0], h[1]] && NonEmpty([[]]) == []
  {
    assert h == [h[0], h[1]] + [[]];
    NonEmptySplit([h[0], h[1]], [[]]);
    NonEmptyAll([h[0], h[1]]);
    assert NonEmpty([[]]) == NonEmpty([]);
    assert [h[0], h[1]] + [] == [h[0], h[1]];
  }

  /** Printing a configuration and reading the text gives the same configuration. */
  lemma ReadInvertsPrint(cfg: Outcome, created: Line, hostname: Line, testing: bool)
    requires GoodConfig(cfg, testing) && AllPiece(created, ByLine) && AllPiece(hostname, ByLine)
    requires 2 + |cfg.proxies| + |cfg.servers| < MAX_LINES
    ensures Read(Printed(cfg, created, hostname), testing) == cfg
  {
    var h := Header(created, hostname);
    var lines := h + ProxyTexts(cfg.proxies) + [[]] + ServerTexts(cfg.servers);
    var body := Body(cfg, h[0], h[1]);
    HeaderComments(created, hostname);
    TextsAllFit(cfg, created, hostname);
    hide Header, AllPiece, NonEmpty, Pieces, ReadLines;
    LinesOfText(lines, MAX_LINES);
    BodyReads(cfg, h[0], h[1], |body|, testing);
    assert cfg.servers[..|cfg.servers|] == cfg.servers;
  }

  // ---- when the table of lines is full ----

  /** A full table: the last line in it runs on. */
  ghost function Overflow(lines: seq<Line>, max: nat, tail: Line): seq<Line>
    requires 1 <= max <= |lines|
  {
    lines[..max - 1] + [lines[max - 1] + [NEWLINE] + tail]
  }

  lemma OverflowCons(l: Line, lines: seq<Line>, max: nat, tail: Line)
    requires 1 <= max <= |lines|
    ensures [l] + Overflow(lines, max, tail) == Overflow([l] + lines, max + 1, tail)
  {
    assert ([l] + lines)[..max] == [l] + lines[..max - 1];
  }

  lemma JoinedCons(lines: seq<Line>)
    requires lines != []
    ensures Joined(lines) == lines[0] + ([NEWLINE] + Joined(lines[1..]))
  {
    var rest := Joined(lines[1..]);
    assert Joined(lines) == lines[0] + [NEWLINE] + rest;
    hide Joined;
    Regroup(lines[0], [NEWLINE], rest);
  }

  lemma Regroup(a: Line, b: Line, c: Line)
    ensures a + b + c == a + (b + c)
  {
  }

  lemma NonEmptyCons(lines: seq<Line>)
    requires lines != []
    ensures NonEmpty(lines) == if lines[0] == [] then NonEmpty(lines[1..]) else [lines[0]] + NonEmpty(lines[1..])
  {
    var rest := NonEmpty(lines[1..]);
    assert NonEmpty(lines) == (if lines[0] == [] then [] else [lines[0]]) + rest;
    hide NonEmpty;
  }

  lemma PiecesLine(l: Line, rest: Line, max: nat)
    requires AllPiece(l, ByLine) && (l != [] ==> max >= 2)
    ensures Pieces(l + ([NEWLINE] + rest), ByLine, max)
         == if l == [] then Pieces(rest, ByLine, max) else [l] + Pieces(rest, ByLine, max - 1)
  {
    if l == [] {
      assert l + ([NEWLINE] + rest) == [NEWLINE] + rest;
      PiecesGap(NEWLINE, rest, ByLine, max);
    } else {
      PiecesWord(l, [NEWLINE] + rest, ByLine, max);
      PiecesGap(NEWLINE, rest, ByLine, max - 1);
    }
  }

  lemma PiecesUncut(l: Line, rest: Line, lines: seq<Line>)
    requires l != [] && AllPiece(l, ByLine)
    ensures Pieces(l + ([NEWLINE] + rest), ByLine, 1) == Overflow([l] + lines, 1, rest)
  {
    assert (l + ([NEWLINE] + rest))[0] == l[0];
    assert l + ([NEWLINE] + rest) == l + [NEWLINE] + rest;
  }

  ghost predicate AllLines(lines: seq<Line>)
  {
    forall i :: 0 <= i < |lines| ==> AllPiece(lines[i], ByLine)
  }

  lemma LinesTail(lines: seq<Line>)
    requires AllLines(lines) && lines != []
    ensures AllPiece(lines[0], ByLine) && AllLines(lines[1..])
  {
    hide AllPiece;
  }

  /** With too many lines the last one in the table is not cut: it runs on through the rest of the text. */
  lemma {:induction false} LinesOverflow(lines: seq<Line>, max: nat) returns (tail: Line)
    requires AllLines(lines) && 1 <= max <= |NonEmpty(lines)|
    ensures Pieces(Joined(lines), ByLine, max) == Overflow(NonEmpty(lines), max, tail)
    decreases lines
  {
    assert lines != [];
    hide Pieces, Overflow, NonEmpty, Joined, AllPiece, AllLines;
    JoinedCons(lines);
    NonEmptyCons(lines);
    LinesTail(lines);
    var l, rest := lines[0], Joined(lines[1..]);
    if l != [] && max == 1 {
      tail := rest;
      PiecesUncut(l, rest, NonEmpty(lines[1..]));
    } else {
      PiecesLine(l, rest, max);
      tail := LinesOverflow(lines[1..], if l == [] then max else max - 1);
      if l != [] { OverflowCons(l, NonEmpty(lines[1..]), max - 1, tail); }
    }
  }

  lemma {:induction false} UnhexNewline(key: Key, i: nat, w: Line)
    requires i <= |key|
    ensures Unhex(Hex(key, i) + [NEWLINE] + w) == None
    decreases |key| - i
  {
    var text := Hex(key, i) + [NEWLINE] + w;
    if i < |key| {
      UnhexNewline(key, i + 1, w);
      assert text[2..] == Hex(key, i + 1) + [NEWLINE] + w;
    } else {
      assert text[0] == NEWLINE;
    }
  }

  lemma {:induction false} RunAtLeast(u: Line, rest: Line, cls: Classes)
    requires AllPiece(u, cls)
    ensures Run(u + rest, cls) >= |u|
  {
    if u != [] {
      assert (u + rest)[1..] == u[1..] + rest;
      RunAtLeast(u[1..], rest, cls);
    }
  }

  /** A text that starts with `u` has a first word that starts with `u`. */
  lemma FirstWord(u: Line, rest: Line, max: nat) returns (w: Line)
    requires u != [] && AllPiece(u, ByWord) && max >= 2
    ensures Pieces(u + rest, ByWord, max) != [] && Pieces(u + rest, ByWord, max)[0] == u + w
  {
    var n := Run(u + rest, ByWord);
    RunAtLeast(u, rest, ByWord);
    w := (u + rest)[|u|..n];
    assert (u + rest)[..n] == u + w;
    assert (u + rest)[0] == u[0];
  }

  /** The words of a server line that runs on: the fourth has the newline in it. */
  lemma RunOnWords(s: Server, tail: Line) returns (words: seq<Line>, w: Line)
    requires GoodServer(s)
    ensures Pieces(ServerText(s) + [NEWLINE] + tail, ByWord, MAX_WORDS) == words && |words| >= 4
    ensures words[0] == Ascii("server") && words[1] == s.host + [COLON] + Decimal(s.port) && words[2] == Decimal(s.weight)
    ensures words[3] == Hex(s.key, 0) + [NEWLINE] + w
  {
    var k, hp, weight, hex := Ascii("server"), s.host + [COLON] + Decimal(s.port), Decimal(s.weight), Hex(s.key, 0);
    KeywordsInert();
    InertPieces(k);
    HostPortText(s.host, s.port);
    DecimalInert(s.weight);
    InertPieces(weight);
    HexInert(s.key, 0);
    InertPieces(hex);
    var u := hex + [NEWLINE];
    assert AllPiece(u, ByWord);
    assert ServerText(s) + [NEWLINE] + tail == k + [TAB] + hp + [COMMA, SPACE] + weight + [COMMA, SPACE] + (u + tail);
    hide Ascii, Decimal, Hex, Pieces, AllPiece, ServerText, AllInert, HostPort;
    w := FirstWord(u, tail, MAX_WORDS - 3);
    WordsOfRunOn(k, hp, weight, u + tail);
    words := [k, hp, weight] + Pieces(u + tail, ByWord, MAX_WORDS - 3);
  }

  /** A server line that runs on has a newline in its key, or too many words. */
  lemma RunOnServerBreaks(s: Server, tail: Line)
    requires GoodServer(s)
    ensures ReadWords(Pieces(ServerText(s) + [NEWLINE] + tail, ByWord, MAX_WORDS)).BadEntry?
  {
    var words, w := RunOnWords(s, tail);
    UnhexNewline(s.key, 0, w);
    KeywordsInert();
    hide Ascii, Decimal, Hex, Unhex, Pieces, HostPort, Atoi, ServerText, AllInert;
  }

  lemma WordsOfRunOn(k: Line, hp: Line, weight: Line, rest: Line)
    requires k != [] && hp != [] && weight != []
    requires AllPiece(k, ByWord) && AllPiece(hp, ByWord) && AllPiece(weight, ByWord)
    ensures Pieces(k + [TAB] + hp + [COMMA, SPACE] + weight + [COMMA, SPACE] + rest, ByWord, MAX_WORDS)
         == [k, hp, weight] + Pieces(rest, ByWord, MAX_WORDS - 3)
  {
    hide Pieces, AllPiece;
    var two := weight + [COMMA, SPACE] + rest;
    assert k + [TAB] + hp + [COMMA, SPACE] + weight + [COMMA, SPACE] + rest == k + [TAB] + (hp + [COMMA, SPACE] + two);
    AfterKeyword(k, hp + [COMMA, SPACE] + two, MAX_WORDS);
    BeforeComma(hp, two, MAX_WORDS - 1);
    BeforeComma(weight, rest, MAX_WORDS - 2);
  }

  lemma {:induction false} ReadLinesPrefix(xs: seq<Line>, ys: seq<Line>, n: nat, testing: bool)
    requires n <= |xs| && n <= |ys| && xs[..n] == ys[..n]
    ensures ReadLines(xs, n, testing) == ReadLines(ys, n, testing)
  {
    if n > 0 {
      assert xs[..n - 1] == xs[..n][..n - 1] == ys[..n - 1];
      assert xs[n - 1] == xs[..n][n - 1] == ys[n - 1];
      ReadLinesPrefix(xs, ys, n - 1, testing);
    }
  }

  /** The lines in a full table: those that fit, the last of them running on. */
  lemma TableOf(cfg: Outcome, created: Line, hostname: Line, h: seq<Line>) returns (tail: Line)
    requires GoodEntries(cfg) && AllPiece(created, ByLine) && AllPiece(hostname, ByLine)
    requires 2 + |cfg.proxies| + |cfg.servers| >= MAX_LINES && h == Header(created, hostname)
    ensures |Body(cfg, h[0], h[1])| >= MAX_LINES
    ensures Pieces(Printed(cfg, created, hostname), ByLine, MAX_LINES) == Overflow(Body(cfg, h[0], h[1]), MAX_LINES, tail)
  {
    var lines := h + ProxyTexts(cfg.proxies) + [[]] + ServerTexts(cfg.servers);
    TextsAllFit(cfg, created, hostname);
    hide Header, AllPiece, NonEmpty, Pieces, ProxyTexts, ServerTexts;
    assert AllLines(lines);
    tail := LinesOverflow(lines, MAX_LINES);
  }

  /** What is read with a full table: all but the last line, and the last one run on. */
  lemma FullTable(cfg: Outcome, created: Line, hostname: Line, h: seq<Line>, testing: bool) returns (last: Line, o: Outcome)
    requires GoodConfig(cfg, testing) && AllPiece(created, ByLine) && AllPiece(hostname, ByLine)
    requires 2 + |cfg.proxies| + |cfg.servers| >= MAX_LINES && h == Header(created, hostname)
    ensures o == Gathered(cfg, MAX_LINES - 1)
    ensures Read(Printed(cfg, created, hostname), testing)
         == Finished(AddEntry(o, ReadWords(Pieces(last, ByWord, MAX_WORDS)), MAX_LINES, testing), MAX_LINES)
    ensures |Body(cfg, h[0], h[1])| >= MAX_LINES && Body(cfg, h[0], h[1])[MAX_LINES - 1] + [NEWLINE] <= last
  {
    var n := MAX_LINES - 1;
    var tail := TableOf(cfg, created, hostname, h);
    HeaderComments(created, hostname);
    hide Header, AllPiece, Pieces, ReadLines, ReadWords, AddEntry, Printed, Body, Comment, Gathered, Finished;
    var body := Body(cfg, h[0], h[1]);
    BodyAt(cfg, h[0], h[1], n);
    last := body[n] + [NEWLINE] + tail;
    var cut := body[..n] + [last];
    BodyReads(cfg, h[0], h[1], n, testing);
    o := Gathered(cfg, n);
    assert cut[..n] == body[..n];
    ReadLinesPrefix(cut, body, n, testing);
    LastLine(cut, n, testing);
  }

  lemma LastLine(lines: seq<Line>, n: nat, testing: bool)
    requires |lines| == n + 1 && ReadLines(lines, n, testing).Loaded?
    ensures ReadLines(lines, n + 1, testing) == AddEntry(ReadLines(lines, n, testing), ReadWords(Pieces(lines[n], ByWord, MAX_WORDS)), n + 1, testing)
  {
    hide Pieces, ReadWords, AddEntry;
  }

  function Entries(o: Outcome): nat { if o.Loaded? then |o.proxies| + |o.servers| else 0 }

  lemma GatheredEntries(cfg: Outcome, n: nat)
    requires cfg.Loaded? && 2 <= n <= 2 + |cfg.proxies| + |cfg.servers|
    ensures Entries(Gathered(cfg, n)) == n - 2
  {
  }

  lemma AddOne(o: Outcome, e: Entry, line: nat, lines: nat, testing: bool)
    requires o.Loaded?
    ensures Entries(Finished(AddEntry(o, e, line, testing), lines)) <= Entries(o) + 1
    ensures e.BadEntry? ==> Finished(AddEntry(o, e, line, testing), lines).Broken?
  {
  }

  /** Printing and reading is the identity exactly on the configurations of fewer than 1024 lines. */
  lemma ReadInvertsPrintIff(cfg: Outcome, created: Line, hostname: Line, testing: bool)
    requires GoodConfig(cfg, testing) && AllPiece(created, ByLine) && AllPiece(hostname, ByLine)
    ensures Read(Printed(cfg, created, hostname), testing) == cfg <==> 2 + |cfg.proxies| + |cfg.servers| < MAX_LINES
  {
    hide Read, Printed, AllPiece, ReadWords, Pieces, AddEntry, Finished, ServerText, Gathered;
    if 2 + |cfg.proxies| + |cfg.servers| < MAX_LINES {
      ReadInvertsPrint(cfg, created, hostname, testing);
    } else {
      var h := Header(created, hostname);
      var last, o := FullTable(cfg, created, hostname, h, testing);
      GatheredEntries(cfg, MAX_LINES - 1);
      AddOne(o, ReadWords(Pieces(last, ByWord, MAX_WORDS)), MAX_LINES, MAX_LINES, testing);
      if 2 + |cfg.proxies| + |cfg.servers| == MAX_LINES {
        var s := cfg.servers[|cfg.servers| - 1];
        BodyAt(cfg, h[0], h[1], MAX_LINES - 1);
        var text := ServerText(s) + [NEWLINE];
        assert last == text + last[|text|..];
        RunOnServerBreaks(s, last[|text|..]);
      }
    }
  }

  // ---- the loops ----

  /** Cuts a word at its colon. */
  method GetHostPort(buf: array<Byte>, at: nat, ghost word: Line) returns (hp: Option<(Line, nat)>)
    requires TextAt(buf[..], at, word)
    modifies buf
    ensures hp == HostPort(word) && OnlyInside(old(buf[..]), buf[..], at, at + |word|)
  {
    var end := StrEnd(buf, at, word);
    var argv := SplitLine(buf, at, end, ByColon, 2);
    if |argv| != 2 {
      return None;
    }
    ghost var pieces := Pieces(word, ByColon, 2);
    var host := TextFrom(buf, argv[0], pieces[0]);
    var number := TextFrom(buf, argv[1], pieces[1]);
    var port := Atoi(number);
    hp := if port < 1 || port > MAX_PORT then None else Some((host, port));
  }

  /** A word after the second one, when only the second has been cut. */
  lemma LaterWord(was: Line, now: Line, argv: seq<nat>, words: seq<Line>, k: nat)
    requires TextsAt(was, argv, words) && 1 < k < |words| && OnlyInside(was, now, argv[1], argv[1] + |words[1]|)
    ensures TextAt(now, argv[k], words[k])
  {
    TextKept(was, now, argv[1] + |words[1]|, argv[k], words[k]);
  }

  /** The entry of a proxy line whose words have been cut. */
  method ProxyLine(buf: array<Byte>, argv: seq<nat>, ghost words: seq<Line>) returns (e: Entry)
    requires TextsAt(buf[..], argv, words) && |words| > 0 && words[0] == Ascii("proxy")
    modifies buf
    ensures e == ReadWords(words)
    ensures if |words| == 1 then buf[..] == old(buf[..]) else OnlyInside(old(buf[..]), buf[..], argv[1], argv[1] + |words[1]|)
  {
    KeywordsInert();
    hide Ascii;
    if |argv| != 2 {
      return BadEntry(WrongCount);
    }
    var hp := GetHostPort(buf, argv[1], words[1]);
    e := if hp.None? then BadEntry(BadHost) else ProxyEntry(Proxy(hp.value.0, hp.value.1));
  }

  /** The entry of a server line whose words have been cut. */
  method ServerLine(buf: array<Byte>, argv: seq<nat>, ghost words: seq<Line>) returns (e: Entry)
    requires TextsAt(buf[..], argv, words) && |words| > 0 && words[0] == Ascii("server")
    modifies buf
    ensures e == ReadWords(words)
    ensures if |words| == 1 then buf[..] == old(buf[..]) else OnlyInside(old(buf[..]), buf[..], argv[1], argv[1] + |words[1]|)
  {
    KeywordsInert();
    hide Ascii;
    if |argv| != 4 && |argv| != 3 {
      return BadEntry(WrongCount);
    }
    var hp := GetHostPort(buf, argv[1], words[1]);
    if hp.None? {
      return BadEntry(BadHost);
    }
    LaterWord(old(buf[..]), buf[..], argv, words, 2);
    var number := TextFrom(buf, argv[2], words[2]);
    var weight := Atoi(number);
    if weight < 1 || weight > MAX_WEIGHT {
      return BadEntry(BadWeight);
    }
    var key: Option<Key> := Some([]);
    if |argv| == 4 {
      LaterWord(old(buf[..]), buf[..], argv, words, 3);
      var hex := TextFrom(buf, argv[3], words[3]);
      key := DecodeHex(hex);
    }
    e := if key.None? then BadEntry(BadKey) else ServerEntry(Server(hp.value.0, hp.value.1, weight, key.value));
  }

  /** The entry of a line whose words have been cut. */
  method ReadCut(buf: array<Byte>, argv: seq<nat>, ghost words: seq<Line>, ghost was: Line, ghost from: nat, ghost end: nat)
      returns (e: Entry)
    requires TextsAt(buf[..], argv, words) && StartsIn(argv, from, end)
    requires OnlyInside(was, buf[..], from, end) && end < |was| && was[end] == 0
    modifies buf
    ensures e == ReadWords(words) && OnlyInside(was, buf[..], from, end)
  {
    ghost var cut := buf[..];
    assert |argv| == |words|;
    OtherWords(words);
    hide ReadWords, Ascii, TextsAt, TextAt, StartsIn, OnlyInside;
    if |argv| == 0 {
      return Blank;
    }
    WordAt(cut, argv, words, 0, from, end);
    if |argv| > 1 { WordAt(cut, argv, words, 1, from, end); }
    var keyword := TextFrom(buf, argv[0], words[0]);
    if keyword == Ascii("proxy") {
      e := ProxyLine(buf, argv, words);
      if |argv| > 1 { WordInside(was, cut, buf[..], from, end, argv[1], words[1]); }
    } else if keyword == Ascii("server") {
      e := ServerLine(buf, argv, words);
      if |argv| > 1 { WordInside(was, cut, buf[..], from, end, argv[1], words[1]); }
    } else {
      e := BadEntry(Unrecognized);
    }
  }

  /** Cuts a line into words and the second word at its colon, all in the one buffer. */
  method ReadLine(buf: array<Byte>, from: nat, ghost line: Line) returns (e: Entry)
    requires TextAt(buf[..], from, line)
    modifies buf
    ensures e == ReadWords(Pieces(line, ByWord, MAX_WORDS))
    ensures OnlyInside(old(buf[..]), buf[..], from, from + |line|)
  {
    hide ReadWords, Pieces, TextsAt, TextAt, StartsIn, OnlyInside;
    var end := StrEnd(buf, from, line);
    var argv := SplitLine(buf, from, end, ByWord, MAX_WORDS);
    e := ReadCut(buf, argv, Pieces(line, ByWord, MAX_WORDS), old(buf[..]), from, end);
  }

  lemma OtherWords(words: seq<Line>)
    ensures words == [] ==> ReadWords(words) == Blank
    ensures words != [] && words[0] != Ascii("proxy") && words[0] != Ascii("server") ==> ReadWords(words) == BadEntry(Unrecognized)
  {
    hide Ascii, HostPort, Atoi, KeyText;
  }

  lemma WordAt(buf: Line, argv: seq<nat>, words: seq<Line>, k: nat, from: nat, end: nat)
    requires TextsAt(buf, argv, words) && StartsIn(argv, from, end) && k < |argv|
    ensures TextAt(buf, argv[k], words[k]) && from <= argv[k] < end
  {
  }

  /** Cutting inside a word of a line stays inside the line. */
  lemma WordInside(was: Line, cut: Line, now: Line, from: nat, end: nat, at: nat, word: Line)
    requires OnlyInside(was, cut, from, end) && OnlyInside(cut, now, at, at + |word|) && end < |was| && was[end] == 0
    requires from <= at < end && TextAt(cut, at, word)
    ensures OnlyInside(was, now, from, end)
  {
    assert cut[end..][0] == was[end..][0];
    TextInside(cut, at, word, end);
    assert now[..from] == now[..at][..from] && cut[..from] == cut[..at][..from];
    var n := at + |word|;
    assert now[end..] == now[n..][end - n..] && cut[end..] == cut[n..][end - n..];
  }

  /** Lines from the `i`-th on are still there. */
  ghost predicate LinesFrom(buf: Line, argv: seq<nat>, lines: seq<Line>, i: nat)
  {
    |argv| == |lines| && forall j :: i <= j < |argv| ==> TextAt(buf, argv[j], lines[j])
  }

  lemma NextLines(was: Line, now: Line, argv: seq<nat>, lines: seq<Line>, i: nat)
    requires i < |argv| && Apart(argv, lines) && LinesFrom(was, argv, lines, i)
    requires OnlyInside(was, now, argv[i], argv[i] + |lines[i]|)
    ensures LinesFrom(now, argv, lines, i + 1)
  {
    forall j | i + 1 <= j < |argv|
      ensures TextAt(now, argv[j], lines[j])
    {
      TextKept(was, now, argv[i] + |lines[i]|, argv[j], lines[j]);
    }
  }

  /** Reads a zero-terminated configuration line by line, cutting lines, words and hosts in the buffer itself. */
  method Load(buf: array<Byte>, ghost text: Line, testing: bool) returns (o: Outcome)
    requires TextAt(buf[..], 0, text)
    modifies buf
    ensures o == Read(text, testing)
  {
    var end := StrEnd(buf, 0, text);
    var argv := SplitLine(buf, 0, end, ByLine, MAX_LINES);
    ghost var lines := Pieces(text, ByLine, MAX_LINES);
    assert LinesFrom(buf[..], argv, lines, 0) && Apart(argv, lines);
    hide Pieces, ReadWords, TextAt, Apart;
    o := Loaded([], []);
    for i := 0 to |argv|
      invariant o.Loaded? && o == ReadLines(lines, i, testing) && LinesFrom(buf[..], argv, lines, i)
    {
      ghost var was := buf[..];
      var e := ReadLine(buf, argv[i], lines[i]);
      NextLines(was, buf[..], argv, lines, i);
      o := AddEntry(o, e, i + 1, testing);
      if o.Broken? {
        StaysBroken(lines, i + 1, |lines|, testing);
        return;
      }
    }
    o := Finished(o, |argv|);
  }

  lemma {:induction false} StaysBroken(lines: seq<Line>, n: nat, m: nat, testing: bool)
    requires n <= m <= |lines| && ReadLines(lines, n, testing).Broken?
    ensures ReadLines(lines, m, testing) == ReadLines(lines, n, testing)
    decreases m
  {
    if n < m { StaysBroken(lines, n, m - 1, testing); }
  }

  lemma {:induction false} JoinedSnoc(lines: seq<Line>, l: Line)
    ensures Joined(lines + [l]) == Joined(lines) + l + [NEWLINE]
  {
    if lines == [] {
      assert [l][1..] == [];
    } else {
      assert (lines + [l])[1..] == lines[1..] + [l];
      JoinedSnoc(lines[1..], l);
    }
  }

  lemma {:induction false} JoinedGrows(xs: seq<Line>, ys: seq<Line>)
    ensures |Joined(xs)| <= |Joined(xs + ys)|
  {
    if xs != [] {
      assert (xs + ys)[1..] == xs[1..] + ys;
      JoinedGrows(xs[1..], ys);
    }
  }

  /** A text in an output buffer of `space` bytes: a text that just fits has its last byte overwritten by the final zero. */
  function Fitted(text: Line, space: nat): Option<Line>
  {
    if |text| > space then None
    else if |text| == space && space > 0 then Some(text[..space - 1] + [0])
    else Some(text)
  }

  /** Prints one piece behind what is there, if it is not longer than the space that is left. */
  method WriteLine(out: Line, left: nat, piece: Line, ghost full: Line) returns (r: Option<Line>)
    requires piece != [] && Fitted(full, |full| + left) == Some(out)
    ensures r == Fitted(full + piece, |full| + left)
  {
    if |piece| > left {
      return None;
    }
    if |piece| == left {
      r := Some(out + piece[..left - 1] + [0]);
      assert (full + piece)[..|full| + left - 1] == full + piece[..left - 1];
    } else {
      r := Some(out + piece);
    }
  }

  lemma TooLong(lines: seq<Line>, all: seq<Line>, space: nat)
    requires lines <= all && Fitted(Joined(lines), space) == None
    ensures Fitted(Joined(all), space) == None
  {
    JoinedGrows(lines, all[|lines|..]);
    assert all == lines + all[|lines|..];
  }

  /** One line more. */
  method PrintLine(out: Line, line: Line, space: nat, ghost lines: seq<Line>) returns (r: Option<Line>)
    requires Fitted(Joined(lines), space) == Some(out) && |out| <= space
    ensures r == Fitted(Joined(lines + [line]), space)
    ensures r.Some? ==> |r.value| <= space
  {
    JoinedSnoc(lines, line);
    assert Joined(lines) + line + [NEWLINE] == Joined(lines) + (line + [NEWLINE]);
    r := WriteLine(out, space - |out|, line + [NEWLINE], Joined(lines));
  }

  /** Prints a configuration into a buffer: the header, the proxies, an empty line, the servers. */
  method Print(cfg: Outcome, created: Line, hostname: Line, space: nat) returns (text: Option<Line>)
    requires cfg.Loaded?
    ensures text == Fitted(Printed(cfg, created, hostname), space)
  {
    hide ProxyText, ServerText, Joined, Fitted, Header;
    var h := Header(created, hostname);
    ghost var all := h + ProxyTexts(cfg.proxies) + [[]] + ServerTexts(cfg.servers);
    text := PrintHeader(h, space);
    if text.None? {
      TooLong(h, all, space);
      return;
    }
    assert h + ProxyTexts(cfg.proxies[..0]) == h;
    for i := 0 to |cfg.proxies|
      invariant text.Some? && |text.value| <= space
      invariant text == Fitted(Joined(h + ProxyTexts(cfg.proxies[..i])), space)
    {
      ghost var lines := h + ProxyTexts(cfg.proxies[..i]);
      assert lines + [ProxyText(cfg.proxies[i])] == h + ProxyTexts(cfg.proxies[..i + 1]);
      text := PrintLine(text.value, ProxyText(cfg.proxies[i]), space, lines);
      if text.None? {
        TooLong(h + ProxyTexts(cfg.proxies[..i + 1]), all, space);
        return;
      }
    }
    assert cfg.proxies[..|cfg.proxies|] == cfg.proxies;
    ghost var above := h + ProxyTexts(cfg.proxies) + [[]];
    text := PrintLine(text.value, [], space, h + ProxyTexts(cfg.proxies));
    if text.None? {
      TooLong(above, all, space);
      return;
    }
    assert above + ServerTexts(cfg.servers[..0]) == above;
    for i := 0 to |cfg.servers|
      invariant text.Some? && |text.value| <= space
      invariant text == Fitted(Joined(above + ServerTexts(cfg.servers[..i])), space)
    {
      ghost var lines := above + ServerTexts(cfg.servers[..i]);
      assert lines + [ServerText(cfg.servers[i])] == above + ServerTexts(cfg.servers[..i + 1]);
      text := PrintLine(text.value, ServerText(cfg.servers[i]), space, lines);
      if text.None? {
        TooLong(above + ServerTexts(cfg.servers[..i + 1]), all, space);
        return;
      }
    }
    assert cfg.servers[..|cfg.servers|] == cfg.servers;
  }

  /** The comment lines and the empty line below them. */
  method PrintHeader(h: seq<Line>, space: nat) returns (text: Option<Line>)
    requires |h| == 3
    ensures text == Fitted(Joined(h), space) && (text.Some? ==> |text.value| <= space)
  {
    hide Joined;
    assert Fitted(Joined([]), space) == Some([]) by { NothingPrinted(space); }
    text := PrintLine([], h[0], space, []);
    if text.Some? { text := PrintLine(text.value, h[1], space, [] + [h[0]]); }
    if text.Some? { text := PrintLine(text.value, h[2], space, [] + [h[0]] + [h[1]]); }
    assert [] + [h[0]] + [h[1]] + [h[2]] == h;
    TooLong3(h, space);
  }

  lemma TooLong3(h: seq<Line>, space: nat)
    requires |h| == 3
    ensures Fitted(Joined([] + [h[0]]), space).None? || Fitted(Joined([] + [h[0]] + [h[1]]), space).None? ==>
      Fitted(Joined(h), space).None?
  {
    JoinedGrows([] + [h[0]], h[1..]);
    JoinedGrows([] + [h[0]] + [h[1]], h[2..]);
    assert [] + [h[0]] + h[1..] == h && [] + [h[0]] + [h[1]] + h[2..] == h;
  }

  lemma NothingPrinted(space: nat)
    ensures Fitted(Joined([]), space) == Some([])
  {
  }
}
