/** The server's record of a round's drawing (pysketch/game.py `Pen` and
    `Drawing`): one pen per drawing user, each holding the packets that user
    sent, prefixed with the pen's index byte, so that a late joiner can be
    sent the whole picture. Payloads are the bytes after base64 decoding;
    `None` stands for input that base64 cannot decode. */
module Strokes {
  import opened Outcomes
  import opened Users
  import PenCodec

  type Byte = PenCodec.Byte

  /** A pen on the server: whose it is, its index and what was written to it. */
  datatype Pen = Pen(owner: User, index: nat, buffer: seq<Byte>)

  /** Pens in creation order, which is the order a Python dict iterates in. */
  datatype Drawing = Drawing(pens: seq<Pen>, nextPenIndex: nat)

  /** Pens are numbered 0, 1, 2, ... in creation order, the next index is the
      pen count, and no user owns two pens. */
  predicate Valid(d: Drawing) {
    d.nextPenIndex == |d.pens|
    && (forall i :: 0 <= i < |d.pens| ==> d.pens[i].index == i)
    && (forall i, j :: 0 <= i < j < |d.pens| ==> d.pens[i].owner != d.pens[j].owner)
  }

  function Empty(): (d: Drawing)
    ensures Valid(d) && Replay(d) == []
  {
    Drawing([], 0)
  }

  /** Position of the pen `u` owns, if any. */
  function FindPen(pens: seq<Pen>, u: User): (r: Option<nat>)
    ensures r.Some? ==> r.value < |pens| && pens[r.value].owner == u
    ensures r.Some? ==> forall i :: 0 <= i < r.value ==> pens[i].owner != u
    ensures r.None? <==> forall i :: 0 <= i < |pens| ==> pens[i].owner != u
  {
    if |pens| == 0 then None
    else if pens[0].owner == u then Some(0)
    else match FindPen(pens[1..], u)
      case None => None
      case Some(k) => Some(k + 1)
  }

  /** What `u`'s pen holds so far; a user without a pen has written nothing. */
  function Written(d: Drawing, u: User): seq<Byte> {
    match FindPen(d.pens, u)
    case None => []
    case Some(k) => d.pens[k].buffer
  }

  /** `if user not in self.pens`: a first-time user gets the next index. */
  function EnsurePen(d: Drawing, u: User): (r: Drawing)
    requires Valid(d)
    ensures Valid(r)
    ensures FindPen(r.pens, u).Some?
    ensures FindPen(d.pens, u).Some? ==> r == d
    ensures FindPen(d.pens, u).None? ==> r.pens == d.pens + [Pen(u, d.nextPenIndex, [])]
    ensures |d.pens| <= |r.pens| && forall i :: 0 <= i < |d.pens| ==> r.pens[i] == d.pens[i]
  {
    match FindPen(d.pens, u)
    case Some(_) => d
    case None =>
      var r := Drawing(d.pens + [Pen(u, d.nextPenIndex, [])], d.nextPenIndex + 1);
      assert FindPen(r.pens, u).Some? by {
        assert r.pens[|d.pens|].owner == u;
      }
      r
  }

  /** What one `draw` call did: the drawing afterwards and the enveloped
      packet sent to the other players, if any. */
  datatype DrawResult = DrawResult(drawing: Drawing, broadcast: Option<seq<Byte>>)

  /** `Drawing.draw`. The pen is created before the `try`, so input that
      fails still uses up an index. Inside the `try` the packet fails when
      it does not decode, when it is empty (`struct.unpack` of zero bytes
      raises) and when the pen index does not fit one byte (`struct.pack`
      raises). The comparison with `PACKET_CLEAR` compares the 1-tuple that
      `struct.unpack` returns with an int, which is never equal in Python,
      so every accepted packet, a clear included, is appended. */
  function Draw(d: Drawing, u: User, decoded: Option<seq<Byte>>): (r: DrawResult)
    requires Valid(d)
    ensures Valid(r.drawing)
    ensures FindPen(d.pens, u).None? ==> |r.drawing.pens| == |d.pens| + 1 && r.drawing.pens[|d.pens|].owner == u
    ensures FindPen(d.pens, u).Some? ==> |r.drawing.pens| == |d.pens|
    ensures forall i :: 0 <= i < |d.pens| && d.pens[i].owner != u ==> r.drawing.pens[i] == d.pens[i]
    ensures FindPen(r.drawing.pens, u).Some?
    ensures var k := FindPen(r.drawing.pens, u).value;
      (r.broadcast.Some? <==> decoded.Some? && |decoded.value| > 0 && k <= 255)
      && (r.broadcast.Some? ==>
            r.broadcast.value == [k as Byte] + decoded.value
            && Written(r.drawing, u) == Written(d, u) + r.broadcast.value)
      && (r.broadcast.None? ==> Written(r.drawing, u) == Written(d, u))
  {
    var d1 := EnsurePen(d, u);
    var k := FindPen(d1.pens, u).value;
    var index := d1.pens[k].index;
    assert index == k;
    if decoded.None? || |decoded.value| == 0 || index > 255 then
      DrawResult(d1, None)
    else
      var enveloped := [index as Byte] + decoded.value;
      var r := AppendAt(d1, k, enveloped);
      FindPenSameOwners(d1.pens, r.pens, u);
      DrawResult(r, Some(enveloped))
  }

  /** Pen `k` gets `e` appended to its buffer; every pen keeps its owner
      and index, and every other pen its buffer. */
  function AppendAt(d: Drawing, k: nat, e: seq<Byte>): (r: Drawing)
    requires Valid(d) && k < |d.pens|
    ensures Valid(r)
    ensures |r.pens| == |d.pens|
    ensures forall i :: 0 <= i < |d.pens| ==> r.pens[i].owner == d.pens[i].owner
    ensures forall i :: 0 <= i < |d.pens| && i != k ==> r.pens[i] == d.pens[i]
    ensures r.pens[k].buffer == d.pens[k].buffer + e
  {
    Drawing(d.pens[k := d.pens[k].(buffer := d.pens[k].buffer + e)], d.nextPenIndex)
  }

  /** Pen lookup only looks at owners. */
  lemma {:induction false} FindPenSameOwners(a: seq<Pen>, b: seq<Pen>, u: User)
    requires |a| == |b|
    requires forall i :: 0 <= i < |a| ==> a[i].owner == b[i].owner
    ensures FindPen(a, u) == FindPen(b, u)
    decreases |a|
  {
    if |a| > 0 {
      FindPenSameOwners(a[1..], b[1..], u);
    }
  }

  /** Everything written to the pens, in pen order. */
  function Concat(pens: seq<Pen>): seq<Byte> {
    if |pens| == 0 then [] else pens[0].buffer + Concat(pens[1..])
  }

  /** `send_drawn`: the bytes a late joiner receives. */
  function Replay(d: Drawing): seq<Byte> {
    Concat(d.pens)
  }

  /** The replay is the pens' buffers back to back: it splits at any pen. */
  lemma {:induction false} ConcatSplit(pens: seq<Pen>, k: nat)
    requires k <= |pens|
    ensures Concat(pens) == Concat(pens[..k]) + Concat(pens[k..])
  {
    if k > 0 {
      ConcatSplit(pens[1..], k - 1);
      assert pens[1..][..k - 1] == pens[..k][1..];
      assert pens[1..][k - 1..] == pens[k..];
    } else {
      assert pens[..0] == [];
      assert pens[0..] == pens;
    }
  }

  /** Appending to one pen inserts the packet into the replay right after
      that pen's earlier packets. */
  lemma {:induction false} ConcatAppendAt(pens: seq<Pen>, k: nat, e: seq<Byte>)
    requires k < |pens|
    ensures Concat(pens[k := pens[k].(buffer := pens[k].buffer + e)])
         == Concat(pens[..k + 1]) + e + Concat(pens[k + 1..])
  {
    var q := pens[k := pens[k].(buffer := pens[k].buffer + e)];
    ConcatSplit(q, k);
    ConcatSplit(pens, k);
    ConcatSplit(pens[..k + 1], k);
    assert q[..k] == pens[..k];
    assert q[k..] == [q[k]] + pens[k + 1..];
    assert pens[..k + 1][..k] == pens[..k];
    assert pens[..k + 1][k..] == [pens[k]];
    assert Concat([q[k]] + pens[k + 1..]) == q[k].buffer + Concat(pens[k + 1..]) by {
      assert ([q[k]] + pens[k + 1..])[1..] == pens[k + 1..];
    }
    assert Concat([pens[k]]) == pens[k].buffer by {
      assert [pens[k]][1..] == [];
    }
  }

  /** A late joiner's replay after an accepted packet holds it right after
      the sender's earlier packets; the other pens' bytes keep their place. */
  lemma DrawReplay(d: Drawing, u: User, decoded: Option<seq<Byte>>)
    requires Valid(d)
    requires Draw(d, u, decoded).broadcast.Some?
    ensures var r := Draw(d, u, decoded);
      var k := FindPen(r.drawing.pens, u).value;
      var p := EnsurePen(d, u).pens;
      Replay(r.drawing) == Concat(p[..k + 1]) + r.broadcast.value + Concat(p[k + 1..])
  {
    var r := Draw(d, u, decoded);
    var d1 := EnsurePen(d, u);
    var k := FindPen(d1.pens, u).value;
    var e := r.broadcast.value;
    assert r.drawing == AppendAt(d1, k, e);
    FindPenSameOwners(d1.pens, r.drawing.pens, u);
    ReplayAppendAt(d1, k, e);
  }

  /** The replay after appending to pen `k`. */
  lemma ReplayAppendAt(d: Drawing, k: nat, e: seq<Byte>)
    requires Valid(d) && k < |d.pens|
    ensures Replay(AppendAt(d, k, e)) == Concat(d.pens[..k + 1]) + e + Concat(d.pens[k + 1..])
  {
    ConcatAppendAt(d.pens, k, e);
  }

  /** A packet starting with the clear opcode does not clear the sender's
      pen: it is appended like any other packet. */
  lemma ClearIsAppended(d: Drawing, u: User, payload: seq<Byte>)
    requires Valid(d)
    requires |payload| > 0 && payload[0] == PenCodec.PacketClear
    requires |EnsurePen(d, u).pens| <= 256
    ensures var r := Draw(d, u, Some(payload));
      var k := FindPen(r.drawing.pens, u).value;
      Written(r.drawing, u) == Written(d, u) + [k as Byte] + payload
      && |Written(r.drawing, u)| > |Written(d, u)|
  {
  }

  /** Input that fails still allocates a pen index: after one undecodable
      packet from a new user, the next new user gets index 1, not 0. */
  lemma FailedDrawUsesIndex(a: User, b: User, payload: seq<Byte>)
    requires a != b && |payload| > 0
    ensures var d1 := Draw(Empty(), a, None).drawing;
      var r := Draw(d1, b, Some(payload));
      r.broadcast == Some([1 as Byte] + payload) && Replay(d1) == []
  {
    var d1 := Draw(Empty(), a, None).drawing;
    assert d1.pens == [Pen(a, 0, [])];
    var r := Draw(d1, b, Some(payload));
    assert FindPen(r.drawing.pens, b) == Some(1);
    assert Concat(d1.pens) == [] + Concat(d1.pens[1..]);
  }

  /** From the 257th pen on, the index does not fit the envelope byte and
      every packet of that user is refused. */
  lemma PenIndexOverflowRefuses(d: Drawing, u: User, payload: seq<Byte>)
    requires Valid(d) && FindPen(d.pens, u).None? && |d.pens| >= 256
    ensures Draw(d, u, Some(payload)).broadcast.None?
  {
  }
}

/** The older server's drawing record (pysketchd.py `Drawing`): a list of
    client commands where a `clear` command does start the log afresh. */
module CommandLog {
  import opened Outcomes

  /** A client drawing command. `action` is absent when the message has no
      `action` key; the remaining fields are carried along unexamined. */
  datatype Command = Command(action: Option<string>, fields: map<string, string>)

  datatype DrawError = MissingAction

  /** The command log after `draw(data)`: a missing action raises before
      anything changes; a clear empties the log before it is appended. */
  function Draw(log: seq<Command>, c: Command): (r: Result<seq<Command>, DrawError>)
    ensures r.Err? <==> c.action.None?
    ensures r.Ok? ==> |r.value| > 0 && r.value[|r.value| - 1] == c
    ensures r.Ok? && c.action == Some("clear") ==> r.value == [c]
    ensures r.Ok? && c.action != Some("clear") ==> r.value[..|r.value| - 1] == log
  {
    match c.action
    case None => Err(MissingAction)
    case Some(a) => Ok((if a == "clear" then [] else log) + [c])
  }

  predicate IsClear(c: Command) {
    c.action == Some("clear")
  }

  /** The log after drawing `cs` in order starting from an empty log; `None`
      if some command lacks an action (the handler raises). */
  function DrawAll(log: seq<Command>, cs: seq<Command>): Option<seq<Command>>
    decreases |cs|
  {
    if |cs| == 0 then Some(log)
    else match Draw(log, cs[0])
      case Err(_) => None
      case Ok(l) => DrawAll(l, cs[1..])
  }

  /** Index of the last clear command in `cs`, if any. */
  function LastClear(cs: seq<Command>): (r: Option<nat>)
    ensures r.Some? ==> r.value < |cs| && IsClear(cs[r.value])
    ensures r.Some? ==> forall i :: r.value < i < |cs| ==> !IsClear(cs[i])
    ensures r.None? ==> forall i :: 0 <= i < |cs| ==> !IsClear(cs[i])
  {
    if |cs| == 0 then None
    else match LastClear(cs[1..])
      case Some(j) => Some(j + 1)
      case None => if IsClear(cs[0]) then Some(0) else None
  }

  /** Replay sends exactly the commands from the last clear on, or all of
      them, appended to the starting log, when none was a clear. */
  lemma {:induction false} ReplayFromLastClear(log: seq<Command>, cs: seq<Command>)
    requires forall i :: 0 <= i < |cs| ==> cs[i].action.Some?
    ensures DrawAll(log, cs) == Some(match LastClear(cs)
                                     case None => log + cs
                                     case Some(k) => cs[k..])
    decreases |cs|
  {
    if |cs| == 0 {
      assert log + cs == log;
    } else {
      var l := Draw(log, cs[0]).value;
      var rest := cs[1..];
      assert Draw(log, cs[0]) == Ok(l);
      assert DrawAll(log, cs) == DrawAll(l, rest);
      ReplayFromLastClear(l, rest);
      match LastClear(rest)
      case Some(j) =>
        assert LastClear(cs) == Some(j + 1);
        assert rest[j..] == cs[j + 1..];
      case None =>
        if IsClear(cs[0]) {
          assert LastClear(cs) == Some(0);
          assert l == [cs[0]];
          assert l + rest == cs == cs[0..];
        } else {
          assert LastClear(cs) == None;
          assert l == log + [cs[0]];
          assert l + rest == log + cs;
        }
    }
  }
}
