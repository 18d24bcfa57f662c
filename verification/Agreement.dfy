/** The server of the shard split answers as the built-in commands do. */
module Agreement {
  import opened Keys
  import opened Frames
  import opened Parsing
  import opened Storage
  import Batch
  import Commands
  import Layout
  import Store

  const GET: Byte := 0x00
  const DELETE: Byte := 0x04

  /** The table holds the items, whatever version a listing shows for them. */
  ghost predicate Same(t: Store.Table, items: Commands.Items)
  {
    && t.Keys == items.Keys
    && forall k :: k in t ==> t[k].item == Store.Item(items[k].meta.flags, items[k].value)
  }

  /** The rows of the dispatch table that clients use for items. */
  function BuiltIn(opcode: Byte): Commands.Fn
  {
    if opcode == 0x00 then Commands.CmdGet
    else if opcode == 0x01 || opcode == 0x02 || opcode == 0x03 then Commands.CmdSet
    else if opcode == 0x04 then Commands.CmdDelete
    else if opcode == 0x0A then Commands.CmdNoop
    else Commands.NoCommand
  }

  /** The arguments of a store: flags and expiration. */
  function Arguments(item: Store.Item, expiration: nat): Bytes { Be(item.flags, 4) + Be(expiration, 4) }

  /** The request of a client that asks for an operation and names no version. */
  function RequestOf(op: Store.Op, tag: Bytes, expiration: nat): Commands.Request
  {
    match op
    case Get(k) => Commands.Request(GET, tag, 0, [], k, [])
    case Set(k, i) => Commands.Request(Commands.SET, tag, 0, Arguments(i, expiration), k, i.value)
    case Add(k, i) => Commands.Request(Commands.ADD, tag, 0, Arguments(i, expiration), k, i.value)
    case Replace(k, i) => Commands.Request(Commands.REPLACE, tag, 0, Arguments(i, expiration), k, i.value)
    case Delete(k) => Commands.Request(DELETE, tag, 0, [], k, [])
  }

  /** What an answer tells the client. */
  ghost predicate Tells(a: Commands.Answer, r: Store.Resp)
  {
    match r
    case Found(i) => a.status == 0x00 && a.extras == Be(i.flags, 4) && a.value == i.value
    case Done => a.status == 0x00 && a.extras == [] && a.value == []
    case NotFound => a.status == 0x01
    case Exists => a.status == 0x02
  }

  /** Flags fit their field, and keys are not empty. */
  ghost predicate Proper(op: Store.Op)
  {
    op.key != [] && (op.Set? || op.Add? || op.Replace? ==> op.item.flags < 0x1_0000_0000)
  }

  lemma FlagsRead(item: Store.Item, expiration: nat)
    requires item.flags < 0x1_0000_0000
    ensures |Arguments(item, expiration)| == 8 && Be32(Arguments(item, expiration), 0) == item.flags
  {
    var x := Arguments(item, expiration);
    hide Be, Be32;
    assert x[0..4] == Be(item.flags, 4);
    Layout.ReadBe32(x, 0, item.flags);
  }

  /** Operation and command answer alike, and leave the same items. */
  lemma ServeAsCommands(t: Store.Table, items: Commands.Items, op: Store.Op, cas: nat, tag: Bytes, expiration: nat)
    requires Same(t, items) && Proper(op)
    ensures var r, (stored, resp) := RequestOf(op, tag, expiration), Store.Serve(t, op, cas);
      var (now, answer) := Commands.Expected(items, BuiltIn(r.opcode), r);
      Same(stored, now) && Tells(answer, resp)
  {
    if op.Set? || op.Add? || op.Replace? { FlagsRead(op.item, expiration); }
    hide Be, Be32, Arguments, Commands.ErrorText;
  }

  /** And so it is with the bytes that the client sends and gets back, unless the send buffer is full. */
  lemma ServeBytes(t: Store.Table, items: Commands.Items, op: Store.Op, cas: nat, tag: Bytes, expiration: nat, out: Bytes)
    requires Same(t, items) && Proper(op) && Layout.Legal(RequestOf(op, tag, expiration), 0) && |out| < 3 * MAX_REQUEST_SIZE
    ensures var r, (stored, resp) := RequestOf(op, tag, expiration), Store.Serve(t, op, cas);
      var f := Layout.Written(r, 0);
      && SaneFrame(f) && Batch.KeyOf(f) == op.key
      && var (now, sent) := Commands.One(items, out, BuiltIn(f[1]), f);
         Same(stored, now) && exists a :: Tells(a, resp) && sent == out + Commands.Pack(r, a)
  {
    var r := RequestOf(op, tag, expiration);
    ServeAsCommands(t, items, op, cas, tag, expiration);
    Layout.UnpackReads(r, 0);
    Layout.HeaderOf(r, 0);
    var f := Layout.Written(r, 0);
    hide Store.Serve, Same, Tells, Commands.Expected, Commands.Pack, Layout.Written, Commands.Unpack, Batch.KeyOf, SaneSize, RequestOf, Proper, Layout.Legal;
    var (now, answer) := Commands.Expected(items, BuiltIn(r.opcode), r);
    assert Commands.One(items, out, BuiltIn(f[1]), f) == (now, out + Commands.Pack(r, answer));
  }
}
