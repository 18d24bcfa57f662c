/** The built-in commands, one by one and in groups. */
module Commands {
  import opened Keys
  import opened Frames
  import opened Parsing
  import opened Wrappers
  import opened Storage

  const SET: Byte := 0x01
  const ADD: Byte := 0x02
  const REPLACE: Byte := 0x03

  const OK := 0x00
  const KEY_NOT_FOUND := 0x01
  const KEY_EXISTS := 0x02
  const INVALID_ARGUMENTS := 0x04
  const ITEM_NOT_STORED := 0x05
  const UNKNOWN_COMMAND := 0x81
  const INTERNAL_ERROR := 0x82

  // ---- requests and answers ----

  datatype Request = Request(opcode: Byte, tag: Bytes, cas: nat, extras: Bytes, key: Key, value: Bytes)

  function Be64(b: Bytes, i: nat): nat
    requires i + 8 <= |b|
  {
    Be32(b, i) * 0x1_0000_0000 + Be32(b, i + 4)
  }

  /** Where the value of a request starts. */
  function ValueOffset(f: Bytes): nat
    requires HEADER_SIZE <= |f|
  {
    HEADER_SIZE + f[4] as nat + KeyLength(f)
  }

  function Unpack(f: Bytes): Request
    requires HEADER_SIZE <= |f| && ValueOffset(f) <= |f|
  {
    var e := HEADER_SIZE + f[4] as nat;
    Request(f[1], f[12..16], Be64(f, 16), f[HEADER_SIZE..e], f[e..ValueOffset(f)], f[ValueOffset(f)..])
  }

  lemma SaneFits(f: Bytes)
    requires SaneFrame(f)
    ensures HEADER_SIZE <= |f| && ValueOffset(f) <= |f| == FrameSize(f)
    ensures Unpack(f).value == f[ValueOffset(f)..]
  {
    SaneSizeFits(f, REQUEST_MAGIC);
  }

  datatype Answer = Answer(status: nat, cas: nat, extras: Bytes, value: Bytes)

  /** The answer as it goes to the client. */
  function Pack(req: Request, a: Answer): Bytes
  {
    [RESPONSE_MAGIC, req.opcode, 0, 0] + Be(|a.extras|, 1) + [0] + Be(a.status, 2) + Be(|a.extras| + |a.value|, 4)
    + req.tag + Be(a.cas, 8) + a.extras + a.value
  }

  function ErrorText(status: nat): Bytes
  {
    if status == KEY_NOT_FOUND then [75, 101, 121, 32, 110, 111, 116, 32, 102, 111, 117, 110, 100]
    else if status == KEY_EXISTS then [75, 101, 121, 32, 101, 120, 105, 115, 116, 115]
    else if status == INVALID_ARGUMENTS then
      [73, 110, 118, 97, 108, 105, 100, 32, 97, 114, 103, 117, 109, 101, 110, 116, 115]
    else if status == ITEM_NOT_STORED then [73, 116, 101, 109, 32, 110, 111, 116, 32, 115, 116, 111, 114, 101, 100]
    else if status == UNKNOWN_COMMAND then [85, 110, 107, 110, 111, 119, 110, 32, 99, 111, 109, 109, 97, 110, 100]
    else UNKNOWN_ERROR
  }

  function Error(status: nat): Answer { Answer(status, 0, [], ErrorText(status)) }

  // ---- what the commands mean ----

  type Items = map<Key, Entry>

  datatype Fn = CmdGet | CmdSet | CmdDelete | CmdNoop | NoCommand

  /** A row of the dispatch table. */
  datatype Slot = Slot(fn: Fn, flags: nat)

  /** The arguments have the shape the command asks for. */
  predicate WellFormed(fn: Fn, r: Request)
  {
    match fn
    case CmdGet => r.extras == [] && r.key != [] && r.value == []
    case CmdSet => |r.extras| == 8 && r.key != []
    case CmdDelete => r.extras == [] && r.key != [] && r.value == []
    case CmdNoop => r.extras == [] && r.key == [] && r.value == []
    case NoCommand => true
  }

  /** When a store is refused, and why. */
  function Refusal(items: Items, r: Request): Option<nat>
  {
    if r.cas != 0 && r.key !in items then Some(KEY_NOT_FOUND)
    else if r.cas != 0 && items[r.key].meta.cas != r.cas then Some(ITEM_NOT_STORED)
    else if r.opcode == ADD && r.key in items then Some(KEY_EXISTS)
    else if r.opcode == REPLACE && r.key !in items then Some(KEY_NOT_FOUND)
    else None
  }

  /** The item that a store writes; its version is always 1. */
  function Written(r: Request): Entry
    requires |r.extras| == 8
  {
    Entry(r.value, Meta(Be32(r.extras, 0), Be32(r.extras, 4), 1))
  }

  function Expected(items: Items, fn: Fn, r: Request): (Items, Answer)
  {
    if !WellFormed(fn, r) then (items, Error(INVALID_ARGUMENTS))
    else
      match fn
      case CmdNoop => (items, Answer(OK, 0, [], []))
      case CmdGet =>
        if r.key !in items then (items, Error(KEY_NOT_FOUND))
        else var e := items[r.key]; (items, Answer(OK, e.meta.cas, Be(e.meta.flags, 4), e.value))
      case CmdDelete =>
        if r.key !in items then (items, Error(KEY_NOT_FOUND)) else (items - {r.key}, Answer(OK, 0, [], []))
      case CmdSet =>
        var why := Refusal(items, r);
        if why.Some? then (items, Error(why.value)) else (items[r.key := Written(r)], Answer(OK, 1, [], []))
      case NoCommand => (items, Error(UNKNOWN_COMMAND))
  }

  // ---- the items behind the raw data ----

  /** Everything stored carries its metadata. */
  ghost predicate Whole(raw: Raw)
  {
    forall k :: k in raw ==> |raw[k]| >= META_SIZE
  }

  ghost function Abs(raw: Raw): Items
  {
    map k | k in raw && Decode(raw[k]).Some? :: Decode(raw[k]).value
  }

  lemma AbsAt(raw: Raw, k: Key)
    requires Whole(raw)
    ensures k in Abs(raw) <==> k in raw
    ensures k in raw ==> Decode(raw[k]) == Some(Abs(raw)[k])
  {
    if k in raw { assert |raw[k]| >= META_SIZE; }
  }

  lemma AbsPut(raw: Raw, k: Key, e: Entry)
    requires Whole(raw) && Fits(e.meta)
    ensures Whole(raw[k := Encode(e)]) && Abs(raw[k := Encode(e)]) == Abs(raw)[k := e]
  {
    EntryRoundTrip(e);
    hide Decode, Encode, Fits;
  }

  lemma AbsDrop(raw: Raw, k: Key)
    requires Whole(raw)
    ensures Whole(raw - {k}) && Abs(raw - {k}) == Abs(raw) - {k}
  {
    hide Decode;
  }

  // ---- laws of the commands ----

  ghost predicate Succeeds(items: Items, fn: Fn, r: Request)
  {
    Expected(items, fn, r).1.status == OK
  }

  /** A store succeeds exactly when its arguments, its version and its opcode allow it. */
  lemma StoresWhen(items: Items, r: Request)
    ensures Succeeds(items, CmdSet, r) <==>
      && |r.extras| == 8 && r.key != []
      && (r.cas != 0 ==> r.key in items && items[r.key].meta.cas == r.cas)
      && (r.opcode == ADD ==> r.key !in items)
      && (r.opcode == REPLACE ==> r.key in items)
  {
  }

  /** A deletion succeeds exactly when it is well formed and the key is there, and then the key is gone. */
  lemma DeletesWhen(items: Items, r: Request)
    ensures Succeeds(items, CmdDelete, r) <==> r.extras == [] && r.key != [] && r.value == [] && r.key in items
    ensures Succeeds(items, CmdDelete, r) ==> r.key !in Expected(items, CmdDelete, r).0
  {
  }

  /** A GET succeeds exactly when it is well formed and the key is there, and answers with the item. */
  lemma GetsWhen(items: Items, r: Request)
    ensures Succeeds(items, CmdGet, r) <==> r.extras == [] && r.key != [] && r.value == [] && r.key in items
    ensures Succeeds(items, CmdGet, r) ==>
      Expected(items, CmdGet, r).1.value == items[r.key].value && Expected(items, CmdGet, r).1.cas == items[r.key].meta.cas
  {
  }

  /** A no-op succeeds exactly when it carries nothing. */
  lemma NoopsWhen(items: Items, r: Request)
    ensures Succeeds(items, CmdNoop, r) <==> r.extras == [] && r.key == [] && r.value == []
  {
  }

  /** Which status stands for which refusal. */
  lemma StatusOf(items: Items, fn: Fn, r: Request)
    ensures var status, there := Expected(items, fn, r).1.status, r.key in items;
      var wrong := match fn
        case CmdGet => r.extras != [] || r.key == [] || r.value != []
        case CmdSet => |r.extras| != 8 || r.key == []
        case CmdDelete => r.extras != [] || r.key == [] || r.value != []
        case CmdNoop => r.extras != [] || r.key != [] || r.value != []
        case NoCommand => false;
      && (status == 0x04 <==> wrong)
      && (status == 0x01 <==> !wrong && !there && match fn
           case CmdSet => r.cas != 0 || r.opcode == 0x03
           case _ => fn == CmdGet || fn == CmdDelete)
      && (status == 0x02 <==> !wrong && fn == CmdSet && r.opcode == 0x02 && there && (r.cas == 0 || r.cas == items[r.key].meta.cas))
      && (status == 0x05 <==> !wrong && fn == CmdSet && r.cas != 0 && there && r.cas != items[r.key].meta.cas)
      && (status == 0x81 <==> fn == NoCommand)
      && (status != OK ==> Expected(items, fn, r).1 == Error(status))
  {
    hide ErrorText;
  }

  /** What a store that succeeds leaves under its key: the value, with flags and expiration read from the extras, highest byte first. */
  lemma StoredIs(items: Items, r: Request)
    requires Succeeds(items, CmdSet, r)
    ensures var (now, a), x := Expected(items, CmdSet, r), r.extras;
      && |x| == 8 && r.key in now && now[r.key].value == r.value && now[r.key].meta.cas == 1
      && now[r.key].meta.flags == 0x100_0000 * x[0] as nat + 0x1_0000 * x[1] as nat + 0x100 * x[2] as nat + x[3] as nat
      && now[r.key].meta.expiration == 0x100_0000 * x[4] as nat + 0x1_0000 * x[5] as nat + 0x100 * x[6] as nat + x[7] as nat
      && a == Answer(0x00, 1, [], [])
  {
    StoresWhen(items, r);
  }

  /** `b` spells `s`. */
  ghost predicate Spells(b: Bytes, s: string)
  {
    |b| == |s| && forall i :: 0 <= i < |s| ==> b[i] as int == s[i] as int
  }

  /** An error answer says what is wrong. */
  lemma ErrorTexts()
    ensures Spells(ErrorText(0x01), "Key not found") && Spells(ErrorText(0x02), "Key exists")
    ensures Spells(ErrorText(0x04), "Invalid arguments") && Spells(ErrorText(0x05), "Item not stored")
    ensures Spells(ErrorText(0x81), "Unknown command")
  {
  }

  /** And so does one for any other reason. */
  lemma OtherErrors(status: nat)
    requires status !in {0x01, 0x02, 0x04, 0x05, 0x81}
    ensures ErrorText(status) == UNKNOWN_ERROR && Spells(UNKNOWN_ERROR, "Unknown error code")
  {
  }

  /** A refused request changes nothing, and no request changes another key. */
  lemma OnlyItsKey(items: Items, fn: Fn, r: Request, k: Key)
    ensures !Succeeds(items, fn, r) ==> Expected(items, fn, r).0 == items
    ensures k != r.key || fn == CmdGet || fn == CmdNoop || fn == NoCommand ==>
      var after := Expected(items, fn, r).0;
      (k in after <==> k in items) && (k in items ==> after[k] == items[k])
  {
  }

  /** The items after the first `n` requests of a history. */
  ghost function After(items: Items, history: seq<(Fn, Request)>, n: nat): Items
    requires n <= |history|
  {
    if n == 0 then items else Expected(After(items, history, n - 1), history[n - 1].0, history[n - 1].1).0
  }

  /** Request `j` stores or deletes `k`. */
  ghost predicate Changes(items: Items, history: seq<(Fn, Request)>, j: nat, k: Key)
    requires j < |history|
  {
    var (fn, r) := history[j];
    r.key == k && (fn == CmdSet || fn == CmdDelete) && Succeeds(After(items, history, j), fn, r)
  }

  lemma {:induction false} StaysPut(items: Items, history: seq<(Fn, Request)>, i: nat, n: nat, k: Key)
    requires i <= n <= |history| && forall j :: i <= j < n ==> !Changes(items, history, j, k)
    ensures var was, now := After(items, history, i), After(items, history, n);
      (k in now <==> k in was) && (k in was ==> now[k] == was[k])
    decreases n
  {
    if i < n {
      StaysPut(items, history, i, n - 1, k);
      var (fn, r) := history[n - 1];
      assert !Changes(items, history, n - 1, k);
      OnlyItsKey(After(items, history, n - 1), fn, r, k);
    }
  }

  /** GET answers with exactly what the last successful store of the key wrote. */
  lemma GetReturnsLastStore(items: Items, history: seq<(Fn, Request)>, i: nat, get: Request)
    requires i < |history| && history[i].0 == CmdSet && WellFormed(CmdGet, get)
    requires Changes(items, history, i, get.key)
    requires forall j :: i < j < |history| ==> !Changes(items, history, j, get.key)
    ensures var r := history[i].1;
      && |r.extras| == 8
      && Expected(After(items, history, |history|), CmdGet, get).1 == Answer(OK, 1, r.extras[..4], r.value)
  {
    var r := history[i].1;
    StoresWhen(After(items, history, i), r);
    StaysPut(items, history, i + 1, |history|, get.key);
    FlagsComeBack(r.extras);
  }

  lemma BeStep(high: nat, low: Byte, w: nat)
    ensures Be(high * 256 + low as nat, w + 1) == Be(high, w) + [low]
  {
  }

  lemma FlagsComeBack(x: Bytes)
    requires 4 <= |x|
    ensures Be(Be32(x, 0), 4) == x[..4]
  {
    var a := x[0] as nat;
    var b := a * 256 + x[1] as nat;
    var c := b * 256 + x[2] as nat;
    BeStep(0, x[0], 0);
    BeStep(a, x[1], 1);
    BeStep(b, x[2], 2);
    BeStep(c, x[3], 3);
    assert Be32(x, 0) == c * 256 + x[3] as nat;
    hide Be;
    assert x[..4] == [] + [x[0]] + [x[1]] + [x[2]] + [x[3]];
  }

  /** Every version is 1. */
  ghost predicate AllOne(items: Items)
  {
    forall k :: k in items ==> items[k].meta.cas == 1
  }

  lemma {:induction false} VersionsStayOne(items: Items, history: seq<(Fn, Request)>, n: nat)
    requires n <= |history| && AllOne(items)
    ensures AllOne(After(items, history, n))
  {
    if n > 0 { VersionsStayOne(items, history, n - 1); }
  }

  /** So a version never tells an item from the one that replaced it: a conditional SET sees only that the key exists. */
  lemma VersionsDoNotDetect(items: Items, history: seq<(Fn, Request)>, r: Request)
    requires AllOne(items) && r.opcode == SET && r.cas != 0 && WellFormed(CmdSet, r)
    ensures var now := After(items, history, |history|);
      Succeeds(now, CmdSet, r) <==> r.cas == 1 && r.key in now
  {
    VersionsStayOne(items, history, |history|);
    StoresWhen(After(items, history, |history|), r);
  }

  /** A client that read an item overwrites another client's change although it named the version it had read. */
  lemma LostUpdate()
    ensures exists items: Items, mine: Request, theirs: Request ::
      && AllOne(items) && mine.key == theirs.key && mine.key in items && mine.cas == items[mine.key].meta.cas
      && Succeeds(items, CmdSet, theirs) && Written(theirs).value != items[mine.key].value
      && Succeeds(Expected(items, CmdSet, theirs).0, CmdSet, mine)
  {
    var x: Bytes := [0, 0, 0, 0, 0, 0, 0, 0];
    var items: Items := map[[1] := Entry([1], Meta(0, 0, 1))];
    var mine, theirs := Request(SET, [], 1, x, [1], [2]), Request(SET, [], 0, x, [1], [3]);
    StoresWhen(items, theirs);
    StoresWhen(Expected(items, CmdSet, theirs).0, mine);
  }

  // ---- a batch, request by request ----

  /** One request on its own: the items after it and the bytes to send; a full send buffer turns it away. */
  ghost function One(items: Items, out: Bytes, fn: Fn, f: Bytes): (Items, Bytes)
    requires SaneFrame(f)
  {
    SaneFits(f);
    if |out| < 3 * MAX_REQUEST_SIZE then
      var (now, a) := Expected(items, fn, Unpack(f));
      (now, out + Pack(Unpack(f), a))
    else (items, out + Pack(Unpack(f), Error(INTERNAL_ERROR)))
  }

  ghost function Row(table: Byte -> Slot, f: Bytes): Slot
  {
    if |f| < 2 then Slot(NoCommand, 0) else table(f[1])
  }

  /** The first `n` requests, one after another. */
  ghost function Each(items: Items, out: Bytes, table: Byte -> Slot, fs: seq<Bytes>, n: nat): (Items, Bytes)
    requires n <= |fs| && AllSane(fs)
  {
    if n == 0 then (items, out)
    else
      var (m, o) := Each(items, out, table, fs, n - 1);
      One(m, o, Row(table, fs[n - 1]).fn, fs[n - 1])
  }
}
