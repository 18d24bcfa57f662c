/** Paging through the file store: directories by two hashes, files in name order, resumed after a key. */
module Listing {
  import opened Keys
  import opened Wrappers
  import opened Escape
  import opened Radix
  import Storage

  datatype Sub = Sub(b: nat, names: seq<Name>)
  datatype Dir = Dir(a: nat, subs: seq<Sub>)

  /** A listed key with its version. */
  datatype Item = Item(cas: nat, key: Key)

  /** An answer being filled: what it holds, the space left, and whether an item did not fit. */
  datatype Page = Page(items: seq<Item>, space: nat, full: bool)

  const ITEM_SIZE := 9
  const MAX_FILENAME := 772
  const MAX_KEY := 256

  /** The version of a file, if its status can be read. */
  type Versions = Name -> Option<nat>

  // ---- the reference: all files in one list ----

  ghost function FlatSubs(subs: seq<Sub>): seq<Name>
  {
    if subs == [] then [] else subs[0].names + FlatSubs(subs[1..])
  }

  ghost function Flat(dirs: seq<Dir>): seq<Name>
  {
    if dirs == [] then [] else FlatSubs(dirs[0].subs) + Flat(dirs[1..])
  }

  /** The key that a listing reads from a file name; none for a broken name or a key of 256 bytes. */
  ghost function KeyOf(name: Name): Option<Key>
  {
    match Unescaped(name, 0)
    case None => None
    case Some(k) => if |k| < MAX_KEY then Some(k) else None
  }

  /** A name that is the one of its key. */
  ghost predicate Good(name: Name)
  {
    KeyOf(name).Some? && KeyOf(name).value != [] && Escaped(KeyOf(name).value, |KeyOf(name).value|) == name
  }

  /** A file that is listed is named as its key is. */
  ghost predicate Fair(name: Name) { KeyOf(name).Some? ==> Good(name) }

  /** What a file contributes to a listing: nothing if its name or its status cannot be read. */
  ghost function ItemsOf(version: Versions, name: Name): seq<Item>
  {
    if KeyOf(name).Some? && version(name).Some? then [Item(version(name).value, KeyOf(name).value)] else []
  }

  ghost function Shown(version: Versions, names: seq<Name>): seq<Item>
  {
    if names == [] then [] else ItemsOf(version, names[0]) + Shown(version, names[1..])
  }

  /** Adds one file to the page, unless it or an earlier one does not fit. */
  ghost function Put(version: Versions, p: Page, name: Name): Page
  {
    if p.full || KeyOf(name).None? then p
    else if p.space < ITEM_SIZE + |KeyOf(name).value| then p.(full := true)
    else if version(name).None? then p
    else Page(p.items + ItemsOf(version, name), p.space - ITEM_SIZE - |KeyOf(name).value|, false)
  }

  ghost function Fill(version: Versions, p: Page, names: seq<Name>): Page
    decreases names
  {
    if names == [] then p else Fill(version, Put(version, p, names[0]), names[1..])
  }

  lemma {:induction false} FillSplit(version: Versions, p: Page, xs: seq<Name>, ys: seq<Name>)
    ensures Fill(version, p, xs + ys) == Fill(version, Fill(version, p, xs), ys)
    decreases xs
  {
    if xs == [] {
      assert xs + ys == ys;
    } else {
      assert (xs + ys)[1..] == xs[1..] + ys;
      FillSplit(version, Put(version, p, xs[0]), xs[1..], ys);
    }
  }

  lemma {:induction false} FillFull(version: Versions, p: Page, names: seq<Name>)
    requires p.full
    ensures Fill(version, p, names) == p
  {
    if names != [] { FillFull(version, p, names[1..]); }
  }

  // ---- what a listing visits ----

  /** The files after a name; all of them without a name, none if it is missing. */
  ghost function AfterName(names: seq<Name>, f: Option<Name>): seq<Name>
  {
    if f.None? || names == [] then names
    else if names[0] == f.value then names[1..]
    else AfterName(names[1..], f)
  }

  ghost function VisitSubs(subs: seq<Sub>, b: int, f: Option<Name>): seq<Name>
  {
    if subs == [] then []
    else (if subs[0].b < b then [] else if subs[0].b == b then AfterName(subs[0].names, f) else subs[0].names)
         + VisitSubs(subs[1..], b, f)
  }

  ghost function VisitDirs(dirs: seq<Dir>, a: nat, b: nat, f: Option<Name>): seq<Name>
  {
    if dirs == [] then []
    else (if dirs[0].a < a then [] else if dirs[0].a == a then VisitSubs(dirs[0].subs, b, f) else VisitSubs(dirs[0].subs, -1, None))
         + VisitDirs(dirs[1..], a, b, f)
  }

  lemma {:induction false} AllSubs(subs: seq<Sub>, b: int)
    requires b <= 0
    ensures VisitSubs(subs, b, None) == FlatSubs(subs)
  {
    if subs != [] { AllSubs(subs[1..], b); }
  }

  lemma {:induction false} AllDirs(dirs: seq<Dir>)
    ensures VisitDirs(dirs, 0, 0, None) == Flat(dirs)
  {
    if dirs != [] {
      AllDirs(dirs[1..]);
      AllSubs(dirs[0].subs, 0);
      AllSubs(dirs[0].subs, -1);
    }
  }

  // ---- the traversal ----

  method TraverseFiles(names: seq<Name>, f: Option<Name>, version: Versions, page: Page) returns (p: Page)
    requires !page.full
    ensures p == Fill(version, page, AfterName(names, f))
  {
    var filename := f;
    p := page;
    ghost var rest := names;
    for i := 0 to |names|
      invariant rest == names[i..] && !p.full
      invariant Fill(version, page, AfterName(names, f)) == Fill(version, p, AfterName(rest, filename))
    {
      var name := names[i];
      assert rest[0] == name && rest[1..] == names[i + 1..];
      rest := rest[1..];
      if filename.Some? {
        if name == filename.value {
          filename := None;
        }
        continue;
      }
      var key := KeyUnescape(name, MAX_KEY);
      if key.None? {
        continue;
      }
      var size := ITEM_SIZE + |key.value|;
      if p.space < size {
        p := p.(full := true);
        FillFull(version, p, rest);
        return;
      }
      var cas := version(name);
      if cas.None? {
        continue;
      }
      p := Page(p.items + [Item(cas.value, key.value)], p.space - size, false);
    }
  }

  method TraverseSubs(subs: seq<Sub>, b: int, f: Option<Name>, version: Versions, page: Page) returns (p: Page)
    requires !page.full
    ensures p == Fill(version, page, VisitSubs(subs, b, f))
  {
    p := page;
    for i := 0 to |subs|
      invariant !p.full && Fill(version, page, VisitSubs(subs, b, f)) == Fill(version, p, VisitSubs(subs[i..], b, f))
    {
      ghost var rest := VisitSubs(subs[i + 1..], b, f);
      assert subs[i..][0] == subs[i] && subs[i..][1..] == subs[i + 1..];
      if subs[i].b >= b {
        var name := if subs[i].b == b then f else None;
        FillSplit(version, p, AfterName(subs[i].names, name), rest);
        p := TraverseFiles(subs[i].names, name, version, p);
        if p.full {
          FillFull(version, p, rest);
          return;
        }
      } else {
        assert [] + rest == rest;
      }
    }
  }

  method TraverseDirs(dirs: seq<Dir>, a: nat, b: nat, f: Option<Name>, version: Versions, page: Page) returns (p: Page)
    requires !page.full
    ensures p == Fill(version, page, VisitDirs(dirs, a, b, f))
  {
    p := page;
    for i := 0 to |dirs|
      invariant !p.full && Fill(version, page, VisitDirs(dirs, a, b, f)) == Fill(version, p, VisitDirs(dirs[i..], a, b, f))
    {
      ghost var rest := VisitDirs(dirs[i + 1..], a, b, f);
      assert dirs[i..][0] == dirs[i] && dirs[i..][1..] == dirs[i + 1..];
      if dirs[i].a >= a {
        var same := dirs[i].a == a;
        FillSplit(version, p, VisitSubs(dirs[i].subs, if same then b else -1, if same then f else None), rest);
        p := TraverseSubs(dirs[i].subs, if same then b else -1, if same then f else None, version, p);
        if p.full {
          FillFull(version, p, rest);
          return;
        }
      } else {
        assert [] + rest == rest;
      }
    }
  }

  // ---- resuming after a key ----

  /** The two hashes of a file name. */
  datatype Hashes = Hashes(a: Name -> nat, b: Name -> nat)

  /** A listed file lies where its hashes say. */
  ghost predicate FileOk(h: Hashes, name: Name, a: nat, b: nat)
  {
    Fair(name) && (Good(name) ==> h.a(name) == a && h.b(name) == b)
  }

  ghost predicate NamesOk(h: Hashes, names: seq<Name>, a: nat, b: nat)
  {
    NoDup(names) && forall i :: 0 <= i < |names| ==> FileOk(h, names[i], a, b)
  }

  /** No file of a key is there twice. */
  ghost predicate NoDup(names: seq<Name>)
  {
    forall i, j :: 0 <= i < j < |names| && Good(names[i]) ==> names[i] != names[j]
  }

  /** Subdirectories above `low`, in order, each with the files that belong there. */
  ghost predicate SubsOk(h: Hashes, subs: seq<Sub>, a: nat, low: int)
  {
    subs == [] || (low < subs[0].b && NamesOk(h, subs[0].names, a, subs[0].b) && SubsOk(h, subs[1..], a, subs[0].b))
  }

  ghost predicate DirsOk(h: Hashes, dirs: seq<Dir>, low: int)
  {
    dirs == [] || (low < dirs[0].a && SubsOk(h, dirs[0].subs, dirs[0].a, -1) && DirsOk(h, dirs[1..], dirs[0].a))
  }

  lemma {:induction false} SubsRange(h: Hashes, subs: seq<Sub>, a: nat, low: int, f: Name)
    requires SubsOk(h, subs, a, low) && f in FlatSubs(subs)
    ensures Fair(f) && (Good(f) ==> h.a(f) == a && h.b(f) > low)
  {
    if f !in subs[0].names { SubsRange(h, subs[1..], a, subs[0].b, f); }
  }

  lemma {:induction false} DirsRange(h: Hashes, dirs: seq<Dir>, low: int, f: Name)
    requires DirsOk(h, dirs, low) && f in Flat(dirs)
    ensures Fair(f) && (Good(f) ==> h.a(f) > low)
  {
    if f in FlatSubs(dirs[0].subs) {
      SubsRange(h, dirs[0].subs, dirs[0].a, -1, f);
    } else {
      DirsRange(h, dirs[1..], dirs[0].a, f);
    }
  }

  lemma {:induction false} AfterSkips(xs: seq<Name>, ys: seq<Name>, f: Name)
    ensures f !in xs ==> AfterName(xs + ys, Some(f)) == AfterName(ys, Some(f))
    ensures f in xs ==> AfterName(xs + ys, Some(f)) == AfterName(xs, Some(f)) + ys
  {
    if xs == [] {
      assert xs + ys == ys;
    } else {
      assert (xs + ys)[1..] == xs[1..] + ys;
      AfterSkips(xs[1..], ys, f);
    }
  }

  lemma {:induction false} LaterSubs(h: Hashes, subs: seq<Sub>, a: nat, low: int, b: int, f: Option<Name>)
    requires SubsOk(h, subs, a, low) && b <= low
    ensures VisitSubs(subs, b, f) == FlatSubs(subs)
  {
    if subs != [] { LaterSubs(h, subs[1..], a, subs[0].b, b, f); }
  }

  lemma {:induction false} LaterDirs(h: Hashes, dirs: seq<Dir>, low: int, a: nat, b: nat, f: Option<Name>)
    requires DirsOk(h, dirs, low) && a <= low
    ensures VisitDirs(dirs, a, b, f) == Flat(dirs)
  {
    if dirs != [] {
      LaterDirs(h, dirs[1..], dirs[0].a, a, b, f);
      AllSubs(dirs[0].subs, -1);
    }
  }

  lemma HeadHashes(h: Hashes, subs: seq<Sub>, a: nat, low: int, f: Name)
    requires SubsOk(h, subs, a, low) && subs != []
    ensures f in subs[0].names && Good(f) ==> h.a(f) == a && h.b(f) == subs[0].b
  {
  }

  lemma {:induction false} ResumeSubs(h: Hashes, subs: seq<Sub>, a: nat, low: int, f: Name)
    requires SubsOk(h, subs, a, low) && f in FlatSubs(subs) && Good(f)
    ensures VisitSubs(subs, h.b(f), Some(f)) == AfterName(FlatSubs(subs), Some(f))
  {
    HeadHashes(h, subs, a, low, f);
    hide Good, NamesOk;
    var b := h.b(f);
    AfterSkips(subs[0].names, FlatSubs(subs[1..]), f);
    if f in subs[0].names {
      LaterSubs(h, subs[1..], a, subs[0].b, b, Some(f));
    } else {
      SubsRange(h, subs[1..], a, subs[0].b, f);
      ResumeSubs(h, subs[1..], a, subs[0].b, f);
    }
  }

  /** The traversal that starts at a file's directories visits exactly the files after it. */
  lemma {:induction false} ResumeDirs(h: Hashes, dirs: seq<Dir>, low: int, f: Name)
    requires DirsOk(h, dirs, low) && f in Flat(dirs) && Good(f)
    ensures VisitDirs(dirs, h.a(f), h.b(f), Some(f)) == AfterName(Flat(dirs), Some(f))
  {
    hide Good;
    AfterSkips(FlatSubs(dirs[0].subs), Flat(dirs[1..]), f);
    if f in FlatSubs(dirs[0].subs) {
      SubsRange(h, dirs[0].subs, dirs[0].a, -1, f);
      ResumeSubs(h, dirs[0].subs, dirs[0].a, -1, f);
      LaterDirs(h, dirs[1..], dirs[0].a, h.a(f), h.b(f), Some(f));
    } else {
      DirsRange(h, dirs[1..], dirs[0].a, f);
      ResumeDirs(h, dirs[1..], dirs[0].a, f);
    }
  }

  ghost predicate Apart(xs: seq<Name>, ys: seq<Name>)
  {
    forall i, j :: 0 <= i < |xs| && 0 <= j < |ys| && Good(xs[i]) ==> xs[i] != ys[j]
  }

  lemma NoDupJoin(xs: seq<Name>, ys: seq<Name>)
    requires NoDup(xs) && NoDup(ys) && Apart(xs, ys)
    ensures NoDup(xs + ys)
  {
  }

  lemma {:induction false} SubsNoDup(h: Hashes, subs: seq<Sub>, a: nat, low: int)
    requires SubsOk(h, subs, a, low)
    ensures NoDup(FlatSubs(subs))
  {
    if subs != [] {
      SubsNoDup(h, subs[1..], a, subs[0].b);
      var xs, ys := subs[0].names, FlatSubs(subs[1..]);
      forall i, j | 0 <= i < |xs| && 0 <= j < |ys| && Good(xs[i])
        ensures xs[i] != ys[j]
      {
        SubsRange(h, subs[1..], a, subs[0].b, ys[j]);
      }
      NoDupJoin(xs, ys);
    }
  }

  lemma {:induction false} DirsNoDup(h: Hashes, dirs: seq<Dir>, low: int)
    requires DirsOk(h, dirs, low)
    ensures NoDup(Flat(dirs))
  {
    if dirs != [] {
      SubsNoDup(h, dirs[0].subs, dirs[0].a, -1);
      DirsNoDup(h, dirs[1..], dirs[0].a);
      var xs, ys := FlatSubs(dirs[0].subs), Flat(dirs[1..]);
      forall i, j | 0 <= i < |xs| && 0 <= j < |ys| && Good(xs[i])
        ensures xs[i] != ys[j]
      {
        SubsRange(h, dirs[0].subs, dirs[0].a, -1, xs[i]);
        DirsRange(h, dirs[1..], dirs[0].a, ys[j]);
      }
      NoDupJoin(xs, ys);
    }
  }

  /** After the file at position `n - 1` come the files from `n` on. */
  lemma AfterAt(names: seq<Name>, n: nat)
    requires NoDup(names) && 0 < n <= |names| && Good(names[n - 1])
    ensures AfterName(names, Some(names[n - 1])) == names[n..]
  {
    var xs, ys := names[..n - 1], names[n - 1..];
    assert names == xs + ys && names[n - 1] !in xs;
    AfterSkips(xs, ys, names[n - 1]);
    assert ys[1..] == names[n..];
  }

  // ---- pages ----

  lemma {:induction false} ShownSplit(version: Versions, xs: seq<Name>, ys: seq<Name>)
    ensures Shown(version, xs + ys) == Shown(version, xs) + Shown(version, ys)
  {
    if xs == [] {
      assert xs + ys == ys;
    } else {
      assert (xs + ys)[1..] == xs[1..] + ys;
      ShownSplit(version, xs[1..], ys);
    }
  }

  /** How many files a page gets through. */
  ghost function FitCount(version: Versions, p: Page, names: seq<Name>): (n: nat)
    ensures n <= |names|
    decreases names
  {
    if names == [] || Put(version, p, names[0]).full then 0
    else 1 + FitCount(version, Put(version, p, names[0]), names[1..])
  }

  lemma {:induction false} FillTakes(version: Versions, p: Page, names: seq<Name>)
    requires !p.full
    ensures Fill(version, p, names).items == p.items + Shown(version, names[..FitCount(version, p, names)])
    decreases names
  {
    if names == [] || Put(version, p, names[0]).full {
      if names != [] { FillFull(version, Put(version, p, names[0]), names[1..]); }
      assert p.items + [] == p.items;
    } else {
      var q := Put(version, p, names[0]);
      FillTakes(version, q, names[1..]);
      var n := FitCount(version, q, names[1..]);
      assert names[..n + 1][1..] == names[1..][..n];
      assert q.items == p.items + ItemsOf(version, names[0]);
    }
  }

  /** Where a listing starts: at the file of a key, or at the beginning. */
  datatype From = From(a: nat, b: nat, name: Option<Name>)

  function StartAt(h: Hashes, start: Key): From
  {
    if start == [] then From(0, 0, None)
    else var name := Escaped(start, |start|); From(h.a(name), h.b(name), Some(name))
  }

  /** The server's side: the page that follows a key, stored or not. */
  method FsGetKeys(dirs: seq<Dir>, h: Hashes, version: Versions, start: Key, space: nat) returns (p: Page)
    requires |start| <= MAX_KEY
    ensures p == var at := StartAt(h, start); Fill(version, Page([], space, false), VisitDirs(dirs, at.a, at.b, at.name))
  {
    var a, b, filename := 0, 0, None;
    if start != [] {
      var name := KeyEscape(MAX_FILENAME - 1, start);
      a, b, filename := h.a(name), h.b(name), Some(name);
    }
    p := TraverseDirs(dirs, a, b, filename, version, Page([], space, false));
  }

  lemma AfterNone(names: seq<Name>)
    ensures AfterName(names, None) == names
  {
  }

  // ---- a page as bytes ----

  function EncodeItem(i: Item): (r: seq<Byte>)
    ensures |r| == ITEM_SIZE + |i.key|
  {
    Storage.Le(i.cas, 8) + [(|i.key| % 256) as Byte] + i.key
  }

  /** The bytes of the items from number `n` on. */
  function Encoded(items: seq<Item>, n: nat): seq<Byte>
    requires n <= |items|
    decreases |items| - n
  {
    if n == |items| then [] else EncodeItem(items[n]) + Encoded(items, n + 1)
  }

  ghost predicate Sized(items: seq<Item>)
  {
    forall i :: 0 <= i < |items| ==> |items[i].key| < 256 && items[i].cas < Pow256(8)
  }

  lemma ItemHead(i: Item, rest: seq<Byte>)
    requires |i.key| < 256 && i.cas < Pow256(8)
    ensures var v := EncodeItem(i) + rest;
      && Storage.FromLe(v[..8]) == i.cas && v[8] as nat == |i.key|
      && v[9..9 + |i.key|] == i.key && v[9 + |i.key|..] == rest
  {
    Storage.LeRoundTrip(i.cas, 8);
    assert (EncodeItem(i) + rest)[..8] == Storage.Le(i.cas, 8);
  }

  /** The client's side: takes a page apart. */
  method ParsePage(v: seq<Byte>, ghost items: seq<Item>) returns (a: seq<Item>)
    requires Sized(items) && v == Encoded(items, 0)
    ensures a == items
  {
    hide EncodeItem, Storage.FromLe;
    a := [];
    var i := 0;
    ghost var n := 0;
    while i < |v|
      invariant 0 <= i <= |v| && n <= |items| && v[i..] == Encoded(items, n) && a == items[..n]
      decreases |items| - n
    {
      ghost var rest := v[i..];
      ItemHead(items[n], Encoded(items, n + 1));
      assert v[i..i + 8] == rest[..8] && v[i + 8] == rest[8];
      var cas, size := Storage.FromLe(v[i..i + 8]), v[i + 8] as nat;
      assert v[i + 9..i + 9 + size] == rest[9..9 + size] && v[i + 9 + size..] == rest[9 + size..];
      a := a + [Item(cas, v[i + 9..i + 9 + size])];
      i := i + 9 + size;
      n := n + 1;
    }
  }

  // ---- the whole listing ----

  /** A page without items means that nothing is left to list. */
  lemma {:induction false} SomeFit(version: Versions, space: nat, names: seq<Name>)
    requires space >= ITEM_SIZE + MAX_KEY
    requires Shown(version, names[..FitCount(version, Page([], space, false), names)]) == []
    ensures Shown(version, names) == []
  {
    var p := Page([], space, false);
    if names != [] {
      assert !Put(version, p, names[0]).full;
      var n := FitCount(version, p, names);
      assert names[..n][0] == names[0] && names[..n][1..] == names[1..][..n - 1];
      assert ItemsOf(version, names[0]) == [];
      SomeFit(version, space, names[1..]);
    }
  }

  /** The last file that is listed. */
  lemma {:induction false} LastShown(version: Versions, names: seq<Name>) returns (m: nat)
    requires Shown(version, names) != []
    ensures 0 < m <= |names| && Shown(version, names[..m]) == Shown(version, names) && KeyOf(names[m - 1]).Some?
    ensures Shown(version, names)[|Shown(version, names)| - 1].key == KeyOf(names[m - 1]).value
    decreases |names|
  {
    var front, last := names[..|names| - 1], names[|names| - 1];
    assert names == front + [last];
    ShownSnoc(version, front, last);
    LastItem(version, last);
    hide Shown, KeyOf, ItemsOf;
    if ItemsOf(version, last) != [] {
      m := |names|;
      assert names[..m] == names;
    } else {
      m := LastShown(version, front);
      assert front[..m] == names[..m];
    }
  }

  lemma ShownSnoc(version: Versions, front: seq<Name>, last: Name)
    ensures Shown(version, front + [last]) == Shown(version, front) + ItemsOf(version, last)
  {
    ShownSplit(version, front, [last]);
    ShownOne(version, last);
    hide Shown, ItemsOf;
  }

  lemma LastItem(version: Versions, name: Name)
    ensures |ItemsOf(version, name)| <= 1
    ensures ItemsOf(version, name) != [] ==> KeyOf(name).Some? && ItemsOf(version, name)[0].key == KeyOf(name).value
  {
  }

  lemma ShownOne(version: Versions, name: Name)
    ensures Shown(version, [name]) == ItemsOf(version, name) && Shown(version, []) == []
  {
    assert [name][1..] == [];
  }

  /** The key to resume after, once the first `n` files are done. */
  ghost predicate ResumesAt(names: seq<Name>, n: nat, key: Key)
  {
    && n <= |names| && |key| < MAX_KEY
    && (n == 0 <==> key == [])
    && (n > 0 ==> Escaped(key, |key|) == names[n - 1] && Good(names[n - 1]))
  }

  ghost predicate AllFair(names: seq<Name>)
  {
    forall i :: 0 <= i < |names| ==> Fair(names[i])
  }

  lemma DirsAllFair(h: Hashes, dirs: seq<Dir>)
    requires DirsOk(h, dirs, -1)
    ensures AllFair(Flat(dirs))
  {
    hide Fair, DirsOk, Flat;
    forall i | 0 <= i < |Flat(dirs)|
      ensures Fair(Flat(dirs)[i])
    {
      DirsRange(h, dirs, -1, Flat(dirs)[i]);
    }
  }

  ghost predicate Bounded(version: Versions)
  {
    forall name :: version(name).Some? ==> version(name).value < Pow256(8)
  }

  lemma {:induction false} ShownSized(version: Versions, names: seq<Name>)
    requires Bounded(version)
    ensures Sized(Shown(version, names))
  {
    if names != [] { ShownSized(version, names[1..]); }
  }

  /** The files from `n` on are those after the key to resume at. */
  lemma RestAfter(all: seq<Name>, n: nat, key: Key)
    requires NoDup(all) && ResumesAt(all, n, key)
    ensures AfterName(all, if key == [] then None else Some(Escaped(key, |key|))) == all[n..]
  {
    if n == 0 {
      AfterNone(all);
    } else {
      AfterAt(all, n);
    }
  }

  lemma ResumesAfter(all: seq<Name>, m: nat)
    requires AllFair(all) && 0 < m <= |all| && KeyOf(all[m - 1]).Some?
    ensures ResumesAt(all, m, KeyOf(all[m - 1]).value)
  {
    assert Fair(all[m - 1]);
  }

  /** The files that a page gets through when the first `n` are done. */
  lemma NextFiles(version: Versions, all: seq<Name>, space: nat, n: nat, items: seq<Item>) returns (m: nat)
    requires AllFair(all) && n <= |all| && space >= ITEM_SIZE + MAX_KEY
    requires items == Fill(version, Page([], space, false), all[n..]).items
    ensures n <= m <= |all| && items == Shown(version, all[n..m]) && (items == [] ==> Shown(version, all[n..]) == [])
    ensures items != [] ==> n < m && ResumesAt(all, m, items[|items| - 1].key)
  {
    hide Fill, ItemsOf, Shown, FitCount, Put, KeyOf, AllFair, ResumesAt, Escaped;
    var rest, p := all[n..], Page([], space, false);
    PageShows(version, p, rest);
    var k := FitCount(version, p, rest);
    if items == [] { SomeFit(version, space, rest); }
    assert rest[..k] == all[n..n + k];
    m := n + k;
    if items != [] { m := LastListed(version, all, n, n + k); }
  }

  lemma PageShows(version: Versions, p: Page, names: seq<Name>)
    requires !p.full && p.items == []
    ensures Fill(version, p, names).items == Shown(version, names[..FitCount(version, p, names)])
  {
    FillTakes(version, p, names);
    hide Fill, Shown, FitCount;
  }

  /** The last file of a stretch that is listed is where to resume. */
  lemma LastListed(version: Versions, all: seq<Name>, n: nat, k: nat) returns (m: nat)
    requires AllFair(all) && n <= k <= |all| && Shown(version, all[n..k]) != []
    ensures var items := Shown(version, all[n..k]);
      n < m <= k && Shown(version, all[n..m]) == items && ResumesAt(all, m, items[|items| - 1].key)
  {
    hide Shown, KeyOf, AllFair, ResumesAt, Escaped;
    var j := LastShown(version, all[n..k]);
    m := n + j;
    assert all[n..k][..j] == all[n..m] && all[n..k][j - 1] == all[m - 1];
    ResumesAfter(all, m);
  }

  /** No key is listed twice. */
  ghost predicate Once(items: seq<Item>)
  {
    forall i, j :: 0 <= i < j < |items| ==> items[i].key != items[j].key
  }

  lemma {:induction false} ShownFrom(version: Versions, names: seq<Name>, i: nat) returns (j: nat)
    requires i < |Shown(version, names)|
    ensures j < |names| && KeyOf(names[j]) == Some(Shown(version, names)[i].key)
  {
    var k := |ItemsOf(version, names[0])|;
    if i < k {
      j := 0;
    } else {
      var l := ShownFrom(version, names[1..], i - k);
      j := l + 1;
    }
  }

  lemma {:induction false} ShownOnce(version: Versions, names: seq<Name>)
    requires NoDup(names) && AllFair(names)
    ensures Once(Shown(version, names))
  {
    if names != [] {
      var first, rest := ItemsOf(version, names[0]), Shown(version, names[1..]);
      assert NoDup(names[1..]) && AllFair(names[1..]);
      ShownOnce(version, names[1..]);
      forall j | 0 <= j < |rest| && first != []
        ensures first[0].key != rest[j].key
      {
        var l := ShownFrom(version, names[1..], j);
        assert Fair(names[0]) && Fair(names[l + 1]);
        assert names[0] != names[l + 1];
      }
    }
  }

  // ---- what is listed, in terms of keys and files ----

  /** The store holds a file of this name in some directory. */
  ghost predicate Holds(dirs: seq<Dir>, name: Name)
  {
    exists i, j :: 0 <= i < |dirs| && 0 <= j < |dirs[i].subs| && name in dirs[i].subs[j].names
  }

  ghost predicate SubHolds(subs: seq<Sub>, name: Name)
  {
    exists j :: 0 <= j < |subs| && name in subs[j].names
  }

  lemma {:induction false} FlatSubsHolds(subs: seq<Sub>, name: Name)
    ensures name in FlatSubs(subs) <==> SubHolds(subs, name)
  {
    if subs != [] {
      FlatSubsHolds(subs[1..], name);
      assert forall j :: 0 <= j < |subs| - 1 ==> subs[1..][j] == subs[j + 1];
      if SubHolds(subs, name) && name !in subs[0].names {
        var j :| 0 <= j < |subs| && name in subs[j].names;
        assert name in subs[1..][j - 1].names;
      }
    }
  }

  lemma {:induction false} FlatHolds(dirs: seq<Dir>, name: Name)
    ensures name in Flat(dirs) <==> Holds(dirs, name)
  {
    if dirs != [] {
      FlatHolds(dirs[1..], name);
      FlatSubsHolds(dirs[0].subs, name);
      assert forall i :: 0 <= i < |dirs| - 1 ==> dirs[1..][i] == dirs[i + 1];
      if Holds(dirs, name) && !SubHolds(dirs[0].subs, name) {
        var i, j :| 0 <= i < |dirs| && 0 <= j < |dirs[i].subs| && name in dirs[i].subs[j].names;
        assert name in dirs[1..][i - 1].subs[j].names;
      }
    }
  }

  /** A key of legal size whose file is there, with the version that its status shows. */
  ghost predicate Listable(names: seq<Name>, version: Versions, c: nat, k: Key)
  {
    1 <= |k| <= 255 && Escaped(k, |k|) in names && version(Escaped(k, |k|)) == Some(c)
  }

  lemma KeyOfEscaped(k: Key)
    ensures KeyOf(Escaped(k, |k|)) == if |k| <= 255 then Some(k) else None
  {
    UnescapeInverts(k);
    hide Escaped, Unescaped;
  }

  /** What one file shows: its own key with its own version. */
  lemma ItemIn(version: Versions, name: Name, c: nat, k: Key)
    requires Fair(name)
    ensures Item(c, k) in ItemsOf(version, name) <==> Listable([name], version, c, k)
  {
    KeyOfEscaped(k);
    hide Escaped, Unescaped;
  }

  /** Exactly the keys of legal size that have a file are shown, with its version. */
  lemma {:induction false} ShownIn(version: Versions, names: seq<Name>, c: nat, k: Key)
    requires AllFair(names)
    ensures Item(c, k) in Shown(version, names) <==> Listable(names, version, c, k)
  {
    if names != [] {
      assert Fair(names[0]) && AllFair(names[1..]);
      hide Fair, KeyOf, Escaped, AllFair, ItemsOf;
      ItemIn(version, names[0], c, k);
      ShownIn(version, names[1..], c, k);
    }
  }

  ghost function NameOf(item: Item): Name { Escaped(item.key, |item.key|) }

  ghost predicate Before(names: seq<Name>, m: Name, n: Name)
  {
    forall p, q :: 0 <= p < |names| && 0 <= q < |names| && names[p] == m && names[q] == n ==> p < q
  }

  /** Keys are shown in the order of their files. */
  ghost predicate InOrder(names: seq<Name>, items: seq<Item>)
  {
    forall i, j :: 0 <= i < j < |items| ==>
      Before(names, NameOf(items[i]), NameOf(items[j]))
  }

  /** A shown item is that of the first file or of a later one. */
  lemma ShownAt(version: Versions, names: seq<Name>, i: nat)
    requires AllFair(names) && i < |Shown(version, names)|
    ensures var k, rest := |ItemsOf(version, names[0])|, Shown(version, names[1..]);
      && AllFair(names[1..]) && k <= 1
      && if i < k then NameOf(Shown(version, names)[i]) == names[0] && Good(names[0])
         else i - k < |rest| && Shown(version, names)[i] == rest[i - k]
  {
    assert Fair(names[0]);
    hide Escaped;
  }

  /** The file of item `i` is the one with `i` items before it. */
  lemma {:induction false} ShownPlace(version: Versions, names: seq<Name>, i: nat) returns (p: nat)
    requires AllFair(names) && i < |Shown(version, names)|
    ensures p < |names| && names[p] == NameOf(Shown(version, names)[i]) && Good(names[p])
    ensures |Shown(version, names[..p])| == i
    decreases |names|
  {
    var rest := names[1..];
    var k := |ItemsOf(version, names[0])|;
    ShownAt(version, names, i);
    if i < k {
      p := 0;
    } else {
      p := ShownPlace(version, rest, i - k);
      ShownFirst(version, names, p);
      hide Shown, ItemsOf, NameOf, Good, AllFair;
      assert rest[p] == names[p + 1];
      p := p + 1;
    }
  }

  lemma ShownFirst(version: Versions, names: seq<Name>, p: nat)
    requires p < |names|
    ensures Shown(version, names[..p + 1]) == ItemsOf(version, names[0]) + Shown(version, names[1..][..p])
  {
    assert names[..p + 1][1..] == names[1..][..p];
  }

  lemma FewerBefore(version: Versions, names: seq<Name>, p: nat, q: nat)
    requires p <= q <= |names|
    ensures |Shown(version, names[..p])| <= |Shown(version, names[..q])|
  {
    ShownJoin(version, names, p, q);
  }

  lemma OnlyPlaces(names: seq<Name>, p: nat, q: nat)
    requires NoDup(names) && p < q < |names| && Good(names[p]) && Good(names[q])
    ensures Before(names, names[p], names[q])
  {
  }

  lemma ShownInOrder(version: Versions, names: seq<Name>)
    requires AllFair(names) && NoDup(names)
    ensures InOrder(names, Shown(version, names))
  {
    hide Before, NoDup, AllFair, Shown, NameOf;
    forall i, j | 0 <= i < j < |Shown(version, names)|
      ensures Before(names, NameOf(Shown(version, names)[i]), NameOf(Shown(version, names)[j]))
    {
      var p := ShownPlace(version, names, i);
      var q := ShownPlace(version, names, j);
      if q <= p { FewerBefore(version, names, q, p); }
      OnlyPlaces(names, p, q);
    }
  }

  /** A listing of everything: for every key, its version exactly if the store has a file for it that it can list. */
  ghost predicate Complete(dirs: seq<Dir>, version: Versions, items: seq<Item>)
  {
    forall c: nat, k: Key ::
      Item(c, k) in items <==> 1 <= |k| <= 255 && Holds(dirs, Escaped(k, |k|)) && version(Escaped(k, |k|)) == Some(c)
  }

  lemma ShownComplete(h: Hashes, dirs: seq<Dir>, version: Versions)
    requires DirsOk(h, dirs, -1)
    ensures Complete(dirs, version, Shown(version, Flat(dirs))) && InOrder(Flat(dirs), Shown(version, Flat(dirs)))
  {
    DirsAllFair(h, dirs);
    DirsNoDup(h, dirs, -1);
    ShownInOrder(version, Flat(dirs));
    hide Shown, Flat, AllFair, Escaped, Holds, InOrder, DirsOk, NoDup;
    forall c: nat, k: Key
      ensures Item(c, k) in Shown(version, Flat(dirs)) <==>
        1 <= |k| <= 255 && Holds(dirs, Escaped(k, |k|)) && version(Escaped(k, |k|)) == Some(c)
    {
      ShownIn(version, Flat(dirs), c, k);
      FlatHolds(dirs, Escaped(k, |k|));
    }
  }

  lemma ShownJoin(version: Versions, all: seq<Name>, n: nat, m: nat)
    requires n <= m <= |all|
    ensures Shown(version, all[..m]) == Shown(version, all[..n]) + Shown(version, all[n..m])
  {
    ShownSplit(version, all[..n], all[n..m]);
    assert all[..n] + all[n..m] == all[..m];
  }

  /** What is visited from the key to resume at on. */
  lemma VisitRest(h: Hashes, dirs: seq<Dir>, n: nat, key: Key)
    requires DirsOk(h, dirs, -1) && NoDup(Flat(dirs)) && ResumesAt(Flat(dirs), n, key)
    ensures var at := StartAt(h, key); VisitDirs(dirs, at.a, at.b, at.name) == Flat(dirs)[n..]
  {
    hide Good, DirsOk, Flat, VisitDirs, NoDup;
    RestAfter(Flat(dirs), n, key);
    if key == [] {
      AllDirs(dirs);
    } else {
      ResumeDirs(h, dirs, -1, Flat(dirs)[n - 1]);
    }
  }

  /** Paging through an unchanging store ends and lists every file that can be listed exactly once, in order. */
  method GetKeys(dirs: seq<Dir>, h: Hashes, version: Versions, space: nat) returns (b: seq<Item>)
    requires DirsOk(h, dirs, -1) && space >= ITEM_SIZE + MAX_KEY && Bounded(version)
    ensures b == Shown(version, Flat(dirs)) && Once(b) && Complete(dirs, version, b) && InOrder(Flat(dirs), b)
  {
    ShownComplete(h, dirs, version);
    hide Fill, Good, Complete, InOrder, Holds, NameOf, Before, AllFair, NoDup, Sized, DirsOk, Pow256, Shown, Flat, Encoded, VisitDirs, StartAt, Bounded, Once;
    var key: Key := [];
    b := [];
    ghost var all, n := Flat(dirs), 0;
    DirsNoDup(h, dirs, -1);
    DirsAllFair(h, dirs);
    ShownOnce(version, all);
    assert b == Shown(version, all[..0]) by { ShownOne(version, []); }
    while true
      invariant ResumesAt(all, n, key) && b == Shown(version, all[..n])
      decreases |all| - n
    {
      VisitRest(h, dirs, n, key);
      var p := FsGetKeys(dirs, h, version, key, space);
      var m := NextFiles(version, all, space, n, p.items);
      ShownSized(version, all[n..m]);
      ShownJoin(version, all, n, m);
      var a := ParsePage(Encoded(p.items, 0), p.items);
      if a == [] {
        ShownJoin(version, all, n, |all|);
        assert all[..|all|] == all && all[n..|all|] == all[n..];
        break;
      }
      b := b + a;
      key := a[|a| - 1].key;
      n := m;
    }
  }
}
