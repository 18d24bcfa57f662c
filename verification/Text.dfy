/** Cutting a line of text into pieces, in place. */
module Text {
  import opened Keys

  type Line = seq<Byte>

  /** What a byte does to the line it is in. */
  datatype Class = Piece | Separator | Stop

  type Classes = Byte -> Class

  /** The number of leading bytes that belong to a piece. */
  function Run(s: Line, cls: Classes): (n: nat)
    ensures n <= |s|
    ensures forall i :: 0 <= i < n ==> cls(s[i]).Piece?
    ensures n < |s| ==> !cls(s[n]).Piece?
  {
    if s != [] && cls(s[0]).Piece? then 1 + Run(s[1..], cls) else 0
  }

  /** The pieces of a line, at most `max`; the last one allowed is not cut. */
  function Pieces(s: Line, cls: Classes, max: nat): (r: seq<Line>)
    ensures |r| <= max
  {
    if s == [] || cls(s[0]).Stop? || max == 0 then []
    else if cls(s[0]).Separator? then Pieces(s[1..], cls, max)
    else if max == 1 then [s]
    else [s[..Run(s, cls)]] + Pieces(s[Run(s, cls)..], cls, max - 1)
  }

  // ---- laws ----

  ghost predicate AllPiece(w: Line, cls: Classes)
  {
    forall i :: 0 <= i < |w| ==> cls(w[i]).Piece?
  }

  lemma {:induction false} RunOf(w: Line, rest: Line, cls: Classes)
    requires AllPiece(w, cls) && (rest != [] ==> !cls(rest[0]).Piece?)
    ensures Run(w + rest, cls) == |w|
  {
    if w == [] {
      assert w + rest == rest;
    } else {
      assert (w + rest)[1..] == w[1..] + rest;
      RunOf(w[1..], rest, cls);
    }
  }

  /** A word and what follows it. */
  lemma PiecesWord(w: Line, rest: Line, cls: Classes, max: nat)
    requires w != [] && AllPiece(w, cls) && (rest != [] ==> !cls(rest[0]).Piece?) && max >= 2
    ensures Pieces(w + rest, cls, max) == [w] + Pieces(rest, cls, max - 1)
  {
    RunOf(w, rest, cls);
    assert (w + rest)[..|w|] == w && (w + rest)[|w|..] == rest;
  }

  lemma PiecesGap(c: Byte, rest: Line, cls: Classes, max: nat)
    requires cls(c).Separator?
    ensures Pieces([c] + rest, cls, max) == Pieces(rest, cls, max)
  {
    assert ([c] + rest)[1..] == rest;
  }

  // ---- in place ----

  /** The zero-terminated text at an offset. */
  ghost predicate TextAt(buf: Line, at: nat, text: Line)
  {
    && at + |text| < |buf| && buf[at..at + |text|] == text && buf[at + |text|] == 0
    && forall i :: 0 <= i < |text| ==> text[i] != 0
  }

  /** Each text ends before the next one starts. */
  ghost predicate Apart(argv: seq<nat>, texts: seq<Line>)
  {
    |texts| <= |argv| && forall i, j :: 0 <= i < |texts| && i < j < |argv| ==> argv[i] + |texts[i]| < argv[j]
  }

  ghost predicate TextsAt(buf: Line, argv: seq<nat>, texts: seq<Line>)
  {
    |argv| == |texts| && Apart(argv, texts) && forall i :: 0 <= i < |argv| ==> TextAt(buf, argv[i], texts[i])
  }

  ghost predicate NoZero(s: Line)
  {
    forall i :: 0 <= i < |s| ==> s[i] != 0
  }

  /** Nothing outside a range of the buffer has changed. */
  ghost predicate OnlyInside(was: Line, now: Line, from: nat, end: nat)
  {
    from <= end <= |was| == |now| && now[..from] == was[..from] && now[end..] == was[end..]
  }

  /** All pieces start in a range. */
  ghost predicate StartsIn(argv: seq<nat>, from: nat, end: nat)
  {
    forall i :: 0 <= i < |argv| ==> from <= argv[i] < end
  }

  lemma StartsLater(argv: seq<nat>, from: nat, end: nat, later: nat)
    requires StartsIn(argv, from, end) && end <= later
    ensures StartsIn(argv, from, later)
  {
  }

  /** From `p` on the line is as it was. */
  ghost predicate Uncut(orig: Line, buf: Line, from: nat, end: nat, p: nat)
  {
    && from <= p <= end < |orig| == |buf| && orig[end] == 0 && NoZero(orig[from..end])
    && buf[p..] == orig[p..] && buf[..from] == orig[..from]
  }

  /** The texts that are finished lie before `p`. */
  ghost predicate Done(buf: Line, p: nat, argv: seq<nat>, texts: seq<Line>)
  {
    && Apart(argv, texts)
    && forall i :: 0 <= i < |texts| ==> argv[i] + |texts[i]| < p && TextAt(buf, argv[i], texts[i])
  }

  /** Perhaps one piece is begun; the pieces still to come are those of the text from its start on. */
  ghost predicate Ahead(orig: Line, buf: Line, from: nat, end: nat, p: nat, cls: Classes, max: nat,
                        argv: seq<nat>, texts: seq<Line>, open: bool)
    requires from <= p <= end < |orig| == |buf|
  {
    && |argv| == |texts| + (if open then 1 else 0) && |argv| < max
    && var start := if open then argv[|argv| - 1] else p;
       && from <= start <= p && (open ==> start < p) && buf[start..p] == orig[start..p] && AllPiece(orig[start..p], cls)
       && Pieces(orig[from..end], cls, max) == texts + Pieces(orig[start..end], cls, max - |texts|)
  }

  /** The cut stands at `p`: texts that are finished, then perhaps one that is begun, then the uncut rest. */
  ghost predicate Scan(orig: Line, buf: Line, from: nat, end: nat, p: nat, cls: Classes, max: nat,
                       argv: seq<nat>, texts: seq<Line>, open: bool)
  {
    && Uncut(orig, buf, from, end, p) && Done(buf, p, argv, texts)
    && Ahead(orig, buf, from, end, p, cls, max, argv, texts, open)
  }

  lemma ScanStart(orig: Line, from: nat, end: nat, cls: Classes, max: nat)
    requires from <= end < |orig| && orig[end] == 0 && NoZero(orig[from..end]) && max > 0
    ensures Scan(orig, orig, from, end, from, cls, max, [], [], false) && StartsIn([], from, from)
  {
    assert [] + Pieces(orig[from..end], cls, max) == Pieces(orig[from..end], cls, max);
  }

  /** A byte of a piece begins or continues one. */
  lemma ScanPiece(orig: Line, buf: Line, from: nat, end: nat, p: nat, cls: Classes, max: nat,
                  argv: seq<nat>, texts: seq<Line>, open: bool)
    requires Scan(orig, buf, from, end, p, cls, max, argv, texts, open) && p < end && cls(buf[p]).Piece?
    ensures buf[p] != 0
    ensures open ==> Scan(orig, buf, from, end, p + 1, cls, max, argv, texts, true)
    ensures !open && |argv| + 1 < max ==> Scan(orig, buf, from, end, p + 1, cls, max, argv + [p], texts, true)
    ensures !open && |argv| + 1 == max ==> TextsAt(buf, argv + [p], Pieces(orig[from..end], cls, max))
  {
    UncutNext(orig, buf, from, end, p);
    DoneLater(buf, p, argv, texts);
    if open {
      hide Pieces, Done, Uncut;
      var start := argv[|argv| - 1];
      assert buf[start..p + 1] == buf[start..p] + [buf[p]] && orig[start..p + 1] == orig[start..p] + [orig[p]];
    } else if |argv| + 1 == max {
      LastPiece(orig, buf, from, end, p);
      assert Pieces(orig[p..end], cls, 1) == [orig[p..end]];
      hide Pieces, TextAt;
    } else {
      hide Pieces, Done, Uncut;
      assert buf[p..p + 1] == [buf[p]] && orig[p..p + 1] == [orig[p]];
    }
  }

  lemma DoneLater(buf: Line, p: nat, argv: seq<nat>, texts: seq<Line>)
    requires Done(buf, p, argv, texts)
    ensures Done(buf, p + 1, argv, texts) && Done(buf, p + 1, argv + [p], texts)
  {
    hide TextAt;
  }

  lemma LastPiece(orig: Line, buf: Line, from: nat, end: nat, p: nat)
    requires from <= p <= end < |orig| == |buf| && orig[end] == 0 && NoZero(orig[from..end]) && buf[p..] == orig[p..]
    ensures TextAt(buf, p, orig[p..end])
  {
    assert buf[p..end] == buf[p..][..end - p] == orig[p..end];
    assert buf[p..][end - p] == orig[end];
    forall i | 0 <= i < end - p
      ensures orig[p..end][i] != 0
    {
      assert orig[from..end][p - from + i] == orig[p + i];
    }
  }

  lemma FinishText(orig: Line, buf: Line, from: nat, end: nat, start: nat, p: nat)
    requires from <= start <= p <= end < |orig| == |buf| && NoZero(orig[from..end]) && buf[start..p] == orig[start..p]
    ensures TextAt(buf[p := 0], start, orig[start..p])
  {
    assert buf[p := 0][start..p] == buf[start..p];
    forall i | 0 <= i < p - start
      ensures orig[start..p][i] != 0
    {
      assert orig[from..end][start - from + i] == orig[start + i];
    }
  }

  lemma FinishPieces(orig: Line, end: nat, start: nat, p: nat, cls: Classes, max: nat)
    requires start < p <= end < |orig| && AllPiece(orig[start..p], cls) && (p < end ==> !cls(orig[p]).Piece?) && max >= 2
    ensures Pieces(orig[start..end], cls, max) == [orig[start..p]] + Pieces(orig[p..end], cls, max - 1)
  {
    assert orig[start..end] == orig[start..p] + orig[p..end];
    PiecesWord(orig[start..p], orig[p..end], cls, max);
  }

  /** The piece begun is finished at `p`, where the buffer gets a zero. */
  lemma ScanFinish(orig: Line, buf: Line, from: nat, end: nat, p: nat, cls: Classes, max: nat,
                   argv: seq<nat>, texts: seq<Line>)
    requires Scan(orig, buf, from, end, p, cls, max, argv, texts, true) && (p < end ==> !cls(orig[p]).Piece?)
    ensures var start, cut := argv[|argv| - 1], buf[p := 0];
      && TextAt(cut, start, orig[start..p])
      && Pieces(orig[start..end], cls, max - |texts|) == [orig[start..p]] + Pieces(orig[p..end], cls, max - |argv|)
  {
    hide Pieces, TextAt, NoZero, AllPiece;
    var start := argv[|argv| - 1];
    FinishText(orig, buf, from, end, start, p);
    FinishPieces(orig, end, start, p, cls, max - |texts|);
  }

  /** The texts finished earlier are not touched. */
  lemma DoneKeeps(buf: Line, p: nat, argv: seq<nat>, texts: seq<Line>)
    requires Done(buf, p, argv, texts) && p < |buf|
    ensures Done(buf[p := 0], p + 1, argv, texts)
  {
    forall i | 0 <= i < |texts|
      ensures TextAt(buf[p := 0], argv[i], texts[i])
    {
      var at, text := argv[i], texts[i];
      assert buf[p := 0][at..at + |text|] == buf[at..at + |text|];
    }
  }

  lemma DoneMore(buf: Line, p: nat, argv: seq<nat>, texts: seq<Line>, text: Line)
    requires Done(buf, p, argv, texts) && |texts| + 1 == |argv|
    requires argv[|texts|] + |text| < p && TextAt(buf, argv[|texts|], text)
    ensures Done(buf, p, argv, texts + [text])
  {
    hide TextAt;
  }

  lemma DoneAll(buf: Line, p: nat, argv: seq<nat>, texts: seq<Line>)
    requires Done(buf, p, argv, texts) && |texts| == |argv|
    ensures TextsAt(buf, argv, texts) && texts + [] == texts
  {
    hide TextAt;
  }

  /** The texts there are when a zero is written at `p`. */
  ghost function Closed(orig: Line, p: nat, argv: seq<nat>, texts: seq<Line>, open: bool): seq<Line>
    requires open ==> argv != [] && argv[|argv| - 1] <= p <= |orig|
  {
    if open then texts + [orig[argv[|argv| - 1]..p]] else texts
  }

  lemma Regroup(xs: seq<Line>, y: Line, zs: seq<Line>)
    ensures xs + ([y] + zs) == xs + [y] + zs
  {
  }

  lemma ScanCut(orig: Line, buf: Line, from: nat, end: nat, p: nat, cls: Classes, max: nat,
                argv: seq<nat>, texts: seq<Line>, open: bool)
    requires Scan(orig, buf, from, end, p, cls, max, argv, texts, open) && (p < end ==> !cls(orig[p]).Piece?)
    ensures var now := Closed(orig, p, argv, texts, open);
      && Done(buf[p := 0], p + 1, argv, now) && |now| == |argv|
      && Pieces(orig[from..end], cls, max) == now + Pieces(orig[p..end], cls, max - |argv|)
  {
    DoneKeeps(buf, p, argv, texts);
    hide Done, TextAt, Pieces;
    if open {
      ScanFinish(orig, buf, from, end, p, cls, max, argv, texts);
      var w := orig[argv[|argv| - 1]..p];
      Regroup(texts, w, Pieces(orig[p..end], cls, max - |argv|));
      DoneMore(buf[p := 0], p + 1, argv, texts, w);
    }
  }

  lemma UncutNext(orig: Line, buf: Line, from: nat, end: nat, p: nat)
    requires Uncut(orig, buf, from, end, p) && p < end
    ensures buf[p] == orig[p] != 0 && Uncut(orig, buf, from, end, p + 1) && Uncut(orig, buf[p := 0], from, end, p + 1)
  {
    assert buf[p..][0] == orig[p..][0];
    assert orig[from..end][p - from] == orig[p];
    assert buf[p + 1..] == buf[p..][1..] == orig[p + 1..];
    assert buf[p := 0][p + 1..] == buf[p + 1..] && buf[p := 0][..from] == buf[..from];
  }

  /** A separator ends the piece before it. */
  lemma ScanSeparator(orig: Line, buf: Line, from: nat, end: nat, p: nat, cls: Classes, max: nat,
                      argv: seq<nat>, texts: seq<Line>, open: bool)
    requires Scan(orig, buf, from, end, p, cls, max, argv, texts, open) && p < end && cls(buf[p]).Separator?
    ensures Scan(orig, buf[p := 0], from, end, p + 1, cls, max, argv, Closed(orig, p, argv, texts, open), false)
  {
    UncutNext(orig, buf, from, end, p);
    ScanCut(orig, buf, from, end, p, cls, max, argv, texts, open);
    hide Pieces, Done, TextAt, Uncut, NoZero, AllPiece, Closed;
    AheadOfSeparator(orig, buf[p := 0], from, end, p, cls, max, argv, Closed(orig, p, argv, texts, open));
  }

  lemma AheadOfSeparator(orig: Line, buf: Line, from: nat, end: nat, p: nat, cls: Classes, max: nat,
                         argv: seq<nat>, now: seq<Line>)
    requires from <= p < end < |orig| == |buf| && cls(orig[p]).Separator? && |now| == |argv| < max
    requires Pieces(orig[from..end], cls, max) == now + Pieces(orig[p..end], cls, max - |argv|)
    ensures Ahead(orig, buf, from, end, p + 1, cls, max, argv, now, false)
  {
    PiecesGap(orig[p], orig[p + 1..end], cls, max - |argv|);
    assert orig[p..end] == [orig[p]] + orig[p + 1..end];
    hide Pieces;
    assert orig[p + 1..p + 1] == [] && buf[p + 1..p + 1] == [];
  }

  lemma UncutHere(orig: Line, buf: Line, from: nat, end: nat, p: nat)
    requires Uncut(orig, buf, from, end, p)
    ensures p <= end < |orig| == |buf| && buf[p] == orig[p] && (p == end ==> buf[p := 0] == buf)
  {
    assert buf[p..][0] == orig[p..][0];
  }

  lemma NoMore(orig: Line, p: nat, end: nat, cls: Classes, max: nat)
    requires p <= end < |orig| && (p == end || cls(orig[p]).Stop?)
    ensures Pieces(orig[p..end], cls, max) == []
  {
  }

  /** A stop byte, or the end of the line, ends the cut. */
  lemma ScanStop(orig: Line, buf: Line, from: nat, end: nat, p: nat, cls: Classes, max: nat,
                 argv: seq<nat>, texts: seq<Line>, open: bool)
    requires Scan(orig, buf, from, end, p, cls, max, argv, texts, open) && (p == end || cls(buf[p]).Stop?)
    ensures TextsAt(buf[p := 0], argv, Pieces(orig[from..end], cls, max)) && (p == end ==> buf[p := 0] == buf)
  {
    UncutHere(orig, buf, from, end, p);
    hide Done, TextAt, TextsAt, AllPiece, NoZero, Uncut, Pieces, Ahead;
    ScanCut(orig, buf, from, end, p, cls, max, argv, texts, open);
    NoMore(orig, p, end, cls, max - |argv|);
    hide Scan, Closed;
    DoneAll(buf[p := 0], p + 1, argv, Closed(orig, p, argv, texts, open));
  }

  method ZeroAt(buf: array<Byte>, p: nat)
    requires p < buf.Length
    modifies buf
    ensures buf[..] == old(buf[..])[p := 0]
  {
    buf[p] := 0;
  }

  /** Looks at one byte: it begins or continues a piece, separates, or stops the cut. */
  method CutByte(buf: array<Byte>, p: nat, cls: Classes, max: nat, argv: seq<nat>, open: bool,
                 ghost orig: Line, ghost from: nat, ghost end: nat, ghost texts: seq<Line>)
      returns (stop: bool, argv': seq<nat>, ghost texts': seq<Line>)
    requires Scan(orig, buf[..], from, end, p, cls, max, argv, texts, open) && p < end && StartsIn(argv, from, p)
    modifies buf
    ensures !stop ==> p < buf.Length && Scan(orig, buf[..], from, end, p + 1, cls, max, argv', texts', buf[p] != 0)
    ensures stop ==> TextsAt(buf[..], argv', Pieces(orig[from..end], cls, max))
    ensures StartsIn(argv', from, p + 1)
    ensures OnlyInside(orig, buf[..], from, end)
  {
    ScanBounds(orig, buf[..], from, end, p, cls, max, argv, texts, open);
    hide Scan, Pieces, TextsAt;
    stop, argv', texts' := false, argv, texts;
    ghost var cut := buf[..][p := 0];
    assert cut[..from] == orig[..from] && cut[end..] == orig[end..];
    match cls(buf[p]) {
      case Separator =>
        ScanSeparator(orig, buf[..], from, end, p, cls, max, argv, texts, open);
        texts' := Closed(orig, p, argv, texts, open);
        ZeroAt(buf, p);
      case Stop =>
        ScanStop(orig, buf[..], from, end, p, cls, max, argv, texts, open);
        ZeroAt(buf, p);
        stop := true;
      case Piece =>
        ScanPiece(orig, buf[..], from, end, p, cls, max, argv, texts, open);
        if !open {
          argv' := argv + [p];
          stop := |argv'| == max;
        }
    }
  }

  /** Cuts the text from `from` to `end` with zeros; returns where its pieces start, in order and apart. */
  method SplitLine(buf: array<Byte>, from: nat, end: nat, cls: Classes, max: nat) returns (argv: seq<nat>)
    requires from <= end < buf.Length && buf[end] == 0 && NoZero(buf[..][from..end]) && max > 0
    modifies buf
    ensures TextsAt(buf[..], argv, Pieces(old(buf[..])[from..end], cls, max)) && StartsIn(argv, from, end)
    ensures OnlyInside(old(buf[..]), buf[..], from, end)
  {
    ghost var orig := buf[..];
    argv := [];
    var p, prev: Byte := from, 0;
    ghost var texts: seq<Line> := [];
    ScanStart(orig, from, end, cls, max);
    hide Pieces, TextsAt, Scan, StartsIn, NoZero, OnlyInside;
    while p < end
      invariant p <= end && Scan(orig, buf[..], from, end, p, cls, max, argv, texts, prev != 0)
      invariant StartsIn(argv, from, p)
    {
      var stop;
      stop, argv, texts := CutByte(buf, p, cls, max, argv, prev != 0, orig, from, end, texts);
      if stop {
        StartsLater(argv, from, p + 1, end);
        return;
      }
      prev := buf[p];
      p := p + 1;
    }
    ScanBounds(orig, buf[..], from, end, p, cls, max, argv, texts, prev != 0);
    ScanStop(orig, buf[..], from, end, p, cls, max, argv, texts, prev != 0);
  }

  lemma ScanBounds(orig: Line, buf: Line, from: nat, end: nat, p: nat, cls: Classes, max: nat,
                   argv: seq<nat>, texts: seq<Line>, open: bool)
    requires Scan(orig, buf, from, end, p, cls, max, argv, texts, open)
    ensures p <= |buf| == |orig| && from <= p <= end && |argv| < max && buf[..from] == orig[..from]
    ensures open ==> argv != [] && argv[|argv| - 1] <= p
    ensures buf[end..] == orig[end..] && OnlyInside(orig, buf, from, end)
  {
    assert buf[end..] == buf[p..][end - p..];
  }

  /** The end of the zero-terminated text at an offset. */
  method StrEnd(buf: array<Byte>, at: nat, ghost text: Line) returns (end: nat)
    requires TextAt(buf[..], at, text)
    ensures end == at + |text| < buf.Length && buf[end] == 0 && buf[..][at..end] == text && NoZero(text)
  {
    end := at;
    assert buf[..][at..at + |text|] == text;
    while buf[end] != 0
      invariant at <= end <= at + |text|
      decreases at + |text| - end
    {
      assert end < at + |text|;
      end := end + 1;
    }
  }

  /** Reads the zero-terminated text at an offset. */
  method TextFrom(buf: array<Byte>, at: nat, ghost text: Line) returns (t: Line)
    requires TextAt(buf[..], at, text)
    ensures t == text && NoZero(t)
  {
    var end := StrEnd(buf, at, text);
    t := buf[at..end];
    assert t == buf[..][at..end];
  }

  /** A text that starts before a zero ends there at the latest. */
  lemma TextInside(buf: Line, at: nat, text: Line, end: nat)
    requires TextAt(buf, at, text) && at <= end < |buf| && buf[end] == 0
    ensures at + |text| <= end
  {
    assert forall i :: 0 <= i < |text| ==> buf[at + i] == text[i];
  }

  /** A text is as it was when nothing from its start on has changed. */
  lemma TextKept(was: Line, buf: Line, from: nat, at: nat, text: Line)
    requires from <= |was| == |buf| && buf[from..] == was[from..] && from <= at && TextAt(was, at, text)
    ensures TextAt(buf, at, text)
  {
    forall i | at <= i <= at + |text|
      ensures buf[i] == was[i]
    {
      assert buf[from..][i - from] == was[from..][i - from];
    }
  }
}
