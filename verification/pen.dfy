/** The client's stroke codec (resources/assets/js/pen.js): a pen that turns
    drawing calls into small binary packets, suppressing calls that change
    nothing, the decoder that replays packets onto a pen, and the networked
    canvas that routes packets to pens by a leading index byte.  Only pen
    state and bytes are modelled; canvas painting is not. Coordinates are
    integers. */
module PenCodec {
  import opened Outcomes

  type Byte = x: int | 0 <= x < 256

  const PacketClear: Byte := 0
  const PacketColor: Byte := 1
  const PacketLineWidth: Byte := 2
  const PacketMoveTo: Byte := 3
  const PacketMoveToRel: Byte := 4
  const PacketLineTo: Byte := 5
  const PacketLineToRel: Byte := 6

  datatype Color = Color(r: int, g: int, b: int)

  /** `color` and `lineWidth` are `null` until first set. */
  datatype Pen = Pen(color: Option<Color>, x: int, y: int, lineWidth: Option<int>)

  /** A drawing call's effect: the new pen and the bytes handed to
      `writePacket`, empty when nothing was sent. */
  datatype Written = Written(pen: Pen, packet: seq<Byte>)

  /** `Pen.reset`. */
  function Reset(): Pen {
    Pen(None, -1, -1, None)
  }

  /** lodash `_.clamp(v, lo, hi)` for `lo <= hi`. */
  function Clamp(v: int, lo: int, hi: int): int
    requires lo <= hi
  {
    if v < lo then lo else if v > hi then hi else v
  }

  /** `DataView.setUint8`: the value modulo 256. */
  function Uint8(v: int): Byte {
    v % 256
  }

  /** `DataView.setUint16`, big-endian: the value modulo 65536, high byte first. */
  function Uint16Bytes(v: int): seq<Byte> {
    var m := v % 65536;
    [m / 256, m % 256]
  }

  /** `DataView.getUint16`, big-endian. */
  function GetUint16(hi: Byte, lo: Byte): int {
    hi * 256 + lo
  }

  /** `DataView.getInt8`: a byte read as two's complement. */
  function GetInt8(b: Byte): int {
    if b >= 128 then b - 256 else b
  }

  /** The JavaScript ToInt32 conversion of an integer. */
  function ToInt32(v: int): int {
    var m := v % 0x1_0000_0000;
    if m >= 0x8000_0000 then m - 0x1_0000_0000 else m
  }

  function Pow2(n: nat): (p: nat)
    ensures p >= 1
  {
    if n == 0 then 1 else 2 * Pow2(n - 1)
  }

  /** An arithmetic right shift by `n` bits: `n` halvings, each rounding
      toward minus infinity (Dafny's `/` by a positive divisor floors). */
  function ShiftRight(v: int, n: nat): int
    decreases n
  {
    if n == 0 then v else ShiftRight(v / 2, n - 1)
  }

  /** JavaScript `v >> count`: the left operand becomes a 32-bit signed
      integer, only the low five bits of the count are used, and the shift is
      arithmetic. */
  function JsShiftRight(v: int, count: int): int {
    ShiftRight(ToInt32(v), count % 32)
  }

  /** Shifting an `n + 1`-bit signed value right by `n` leaves only its sign. */
  lemma {:induction false} ShiftLeavesSign(v: int, n: nat)
    requires -(Pow2(n) as int) <= v < Pow2(n)
    ensures ShiftRight(v, n) == (if v < 0 then -1 else 0)
    decreases n
  {
    if n > 0 {
      ShiftLeavesSign(v / 2, n - 1);
    }
  }

  /** `y >> 127` is `y >> 31`: it is non-zero exactly when `y` is negative
      as a 32-bit integer, and so is zero for every coordinate in
      [0, 2^31). It is not a `dy > 127` test. */
  lemma ShiftBy127IsSignTest(y: int)
    ensures JsShiftRight(y, 127) == (if ToInt32(y) < 0 then -1 else 0)
    ensures 0 <= y < 0x8000_0000 ==> JsShiftRight(y, 127) == 0
  {
    assert 127 % 32 == 31;
    PowTwo31();
    ShiftLeavesSign(ToInt32(y), 31);
  }

  lemma PowTwo31()
    ensures Pow2(31) == 0x8000_0000
  {
    assert Pow2(1) == 2 && Pow2(2) == 4 && Pow2(3) == 8;
    assert Pow2(6) == 64 by { Pow2Add(3, 3); }
    assert Pow2(12) == 4096 by { Pow2Add(6, 6); }
    assert Pow2(24) == 0x100_0000 by { Pow2Add(12, 12); }
    assert Pow2(30) == 0x4000_0000 by { Pow2Add(24, 6); }
    Pow2Add(30, 1);
  }

  lemma {:induction false} Pow2Add(a: nat, b: nat)
    ensures Pow2(a + b) == Pow2(a) * Pow2(b)
  {
    if a > 0 {
      Pow2Add(a - 1, b);
    }
  }

  /** `setColor(r, g, b)`: sends `[1, r, g, b]` only when no colour is set or
      it differs; afterwards the pen's colour is `(r, g, b)`. */
  function SetColor(p: Pen, r: int, g: int, b: int): (w: Written)
    ensures w.pen.color == Some(Color(r, g, b))
    ensures w.pen == p.(color := Some(Color(r, g, b)))
    ensures w.packet != [] <==> p.color != Some(Color(r, g, b))
    ensures w.packet != [] ==> w.packet == [PacketColor, Uint8(r), Uint8(g), Uint8(b)]
  {
    if p.color.None? || p.color.value.r != r || p.color.value.g != g || p.color.value.b != b then
      Written(p.(color := Some(Color(r, g, b))), [PacketColor, Uint8(r), Uint8(g), Uint8(b)])
    else
      Written(p, [])
  }

  /** `setLineWidth(w)`: the width is clamped to [0, 255] and `[2, w]` is
      sent only when the clamped width is unset or differs. */
  function SetLineWidth(p: Pen, width: int): (w: Written)
    ensures var c := Clamp(width, 0, 255);
      && w.pen == p.(lineWidth := Some(c))
      && (w.packet != [] <==> p.lineWidth != Some(c))
      && (w.packet != [] ==> w.packet == [PacketLineWidth, c])
  {
    var c := Clamp(width, 0, 255);
    if p.lineWidth.None? || p.lineWidth.value != c then
      Written(p.(lineWidth := Some(c)), [PacketLineWidth, c])
    else
      Written(p, [])
  }

  /** `clear()`: always sends the single byte `[0]`; the pen is unchanged. */
  function Clear(p: Pen): (w: Written)
    ensures w.pen == p && w.packet == [PacketClear]
  {
    Written(p, [PacketClear])
  }

  /** The guard shared by `moveTo` and `lineTo` for choosing the absolute
      form, as written: `xx < -128 || xx > 127 || yy < -128 || y >> 127`. */
  predicate UseAbsolute(xx: int, yy: int, y: int) {
    xx < -128 || xx > 127 || yy < -128 || JsShiftRight(y, 127) != 0
  }

  /** The packet for a move or line to `(x, y)` from `(px, py)`: the
      absolute opcode with two big-endian 16-bit coordinates, or the relative
      opcode with two 8-bit deltas. */
  function PositionPacket(absOp: Byte, relOp: Byte, px: int, py: int, x: int, y: int): (packet: seq<Byte>)
    ensures UseAbsolute(x - px, y - py, y) ==> packet == [absOp] + Uint16Bytes(x) + Uint16Bytes(y)
    ensures !UseAbsolute(x - px, y - py, y) ==> packet == [relOp, Uint8(x - px), Uint8(y - py)]
  {
    if UseAbsolute(x - px, y - py, y) then [absOp] + Uint16Bytes(x) + Uint16Bytes(y)
    else [relOp, Uint8(x - px), Uint8(y - py)]
  }

  /** `moveTo(x, y)`: both coordinates are clamped to [0, 65536]; nothing is
      sent when the position does not change; otherwise an absolute or a
      relative move is sent and the pen moves there. */
  function MoveTo(p: Pen, x: int, y: int): (w: Written)
    ensures var cx, cy := Clamp(x, 0, 65536), Clamp(y, 0, 65536);
      && w.pen == p.(x := cx, y := cy)
      && (w.packet == [] <==> p.x == cx && p.y == cy)
      && (w.packet != [] ==> w.packet == PositionPacket(PacketMoveTo, PacketMoveToRel, p.x, p.y, cx, cy))
  {
    var cx, cy := Clamp(x, 0, 65536), Clamp(y, 0, 65536);
    if p.x != cx || p.y != cy then
      Written(p.(x := cx, y := cy), PositionPacket(PacketMoveTo, PacketMoveToRel, p.x, p.y, cx, cy))
    else
      Written(p, [])
  }

  /** `_drawLineTo(x, y)`: moves the pen to the end of the line. Painting
      reads the colour, so a pen without one raises a TypeError and stays
      where it is. */
  function DrawLineTo(p: Pen, x: int, y: int): Option<Pen> {
    if p.color.None? then None else Some(p.(x := x, y := y))
  }

  /** The outcome of `lineTo`: the packet is sent before the line is painted,
      so it goes out even when painting then raises. */
  datatype Stroke = Stroke(pen: Pen, packet: seq<Byte>, raised: bool)

  /** `lineTo(x, y)`: like `moveTo` with opcodes 5 and 6 and without
      clamping. */
  function LineTo(p: Pen, x: int, y: int): (s: Stroke)
    ensures s.packet == [] <==> p.x == x && p.y == y
    ensures s.packet != [] ==> s.packet == PositionPacket(PacketLineTo, PacketLineToRel, p.x, p.y, x, y)
    ensures s.raised <==> s.packet != [] && p.color.None?
    ensures s.pen == (if s.packet != [] && !s.raised then p.(x := x, y := y) else p)
  {
    if p.x != x || p.y != y then
      var packet := PositionPacket(PacketLineTo, PacketLineToRel, p.x, p.y, x, y);
      match DrawLineTo(p, x, y)
      case Some(q) => Stroke(q, packet, false)
      case None => Stroke(p, packet, true)
    else
      Stroke(p, [], false)
  }

  /** What `readPacket` does with the bytes from its offset on: a packet is
      consumed (the returned length is the amount the reader skips), an
      unknown opcode makes it return `undefined` (which ends the read loop),
      or reading raises (too few bytes, or painting without a colour). */
  datatype Decoded = Consumed(pen: Pen, n: nat) | Unknown | Raised

  /** `Pen.readPacket`. Opcode 5 reads five bytes but reports three, as
      written. */
  function ReadPacket(p: Pen, d: seq<Byte>): (r: Decoded)
    ensures r.Consumed? ==> 1 <= r.n <= |d|
  {
    if |d| == 0 then Raised
    else if d[0] == PacketClear then Consumed(p, 1)
    else if d[0] == PacketColor then
      if |d| < 4 then Raised else Consumed(p.(color := Some(Color(d[1], d[2], d[3]))), 4)
    else if d[0] == PacketLineWidth then
      if |d| < 2 then Raised else Consumed(p.(lineWidth := Some(d[1])), 2)
    else if d[0] == PacketMoveTo then
      if |d| < 5 then Raised else Consumed(p.(x := GetUint16(d[1], d[2]), y := GetUint16(d[3], d[4])), 5)
    else if d[0] == PacketMoveToRel then
      if |d| < 3 then Raised else Consumed(p.(x := p.x + GetInt8(d[1]), y := p.y + GetInt8(d[2])), 3)
    else if d[0] == PacketLineTo then
      if |d| < 5 then Raised
      else match DrawLineTo(p, GetUint16(d[1], d[2]), GetUint16(d[3], d[4]))
        case Some(q) => Consumed(q, 3)
        case None => Raised
    else if d[0] == PacketLineToRel then
      if |d| < 3 then Raised
      else match DrawLineTo(p, p.x + GetInt8(d[1]), p.y + GetInt8(d[2]))
        case Some(q) => Consumed(q, 3)
        case None => Raised
    else Unknown
  }

  /** `Pen.read`: packets are decoded one after another until the bytes run
      out, an opcode is unknown, or a packet raises. */
  function ReadAll(p: Pen, d: seq<Byte>): Pen
    decreases |d|
  {
    if |d| == 0 then p
    else match ReadPacket(p, d)
      case Consumed(q, n) => ReadAll(q, d[n..])
      case _ => p
  }

  /** The number of bytes `readPacket` reports for each opcode 0 to 6, given
      enough bytes (and, for the line opcodes, a colour). */
  function DecodedLength(op: Byte): nat {
    if op == PacketClear then 1
    else if op == PacketColor then 4
    else if op == PacketLineWidth then 2
    else if op == PacketMoveTo then 5
    else 3
  }

  /** Decoder lengths: opcodes 0 to 6 report 1, 4, 2, 5, 3, 3, 3 bytes, and
      every opcode from 7 up is unknown. */
  lemma DecoderLengths(p: Pen, d: seq<Byte>)
    requires |d| >= 5 && p.color.Some?
    ensures d[0] <= 6 ==> ReadPacket(p, d) == Consumed(ReadPacket(p, d).pen, DecodedLength(d[0]))
    ensures d[0] > 6 ==> ReadPacket(p, d) == Unknown
  {
  }

  /** An absolute line packet is five bytes long but the decoder skips only
      three, so its last two bytes are read as the next packet. */
  lemma AbsoluteLineDesyncs(p: Pen, x: int, y: int)
    requires p.color.Some?
    requires UseAbsolute(x - p.x, y - p.y, y) && (p.x != x || p.y != y)
    ensures |LineTo(p, x, y).packet| == 5
    ensures ReadPacket(p, LineTo(p, x, y).packet).Consumed?
    ensures ReadPacket(p, LineTo(p, x, y).packet).n == 3
  {
  }

  /** A colour packet replays the colour onto any receiving pen. */
  lemma SetColorRoundTrip(p: Pen, q: Pen, r: Byte, g: Byte, b: Byte, rest: seq<Byte>)
    requires SetColor(p, r, g, b).packet != []
    ensures ReadPacket(q, SetColor(p, r, g, b).packet + rest)
      == Consumed(q.(color := SetColor(p, r, g, b).pen.color), 4)
  {
  }

  /** A width packet replays the clamped width onto any receiving pen. */
  lemma SetLineWidthRoundTrip(p: Pen, q: Pen, width: int, rest: seq<Byte>)
    requires SetLineWidth(p, width).packet != []
    ensures ReadPacket(q, SetLineWidth(p, width).packet + rest)
      == Consumed(q.(lineWidth := SetLineWidth(p, width).pen.lineWidth), 2)
  {
  }

  /** A clear packet is one byte long and leaves the receiving pen alone. */
  lemma ClearRoundTrip(p: Pen, q: Pen, rest: seq<Byte>)
    ensures ReadPacket(q, Clear(p).packet + rest) == Consumed(q, 1)
  {
  }

  lemma Uint16RoundTrip(v: int)
    requires 0 <= v < 65536
    ensures GetUint16(Uint16Bytes(v)[0], Uint16Bytes(v)[1]) == v
  {
  }

  lemma Int8RoundTrip(v: int)
    requires -128 <= v <= 127
    ensures GetInt8(Uint8(v)) == v
  {
  }

  /** A move replays faithfully onto a receiver at the same position when
      the target fits in 16 bits and the vertical step is at most 127 unless
      the horizontal step alone forces the absolute form. */
  lemma MoveToRoundTrip(p: Pen, q: Pen, x: int, y: int, rest: seq<Byte>)
    requires q.x == p.x && q.y == p.y
    requires x <= 65535 && y <= 65535
    requires var cx, cy := Clamp(x, 0, 65536), Clamp(y, 0, 65536);
      && (cx != p.x || cy != p.y)
      && (cy - p.y <= 127 || cx - p.x < -128 || cx - p.x > 127)
    ensures var w := MoveTo(p, x, y);
      ReadPacket(q, w.packet + rest) == Consumed(q.(x := w.pen.x, y := w.pen.y), |w.packet|)
  {
    var cx, cy := Clamp(x, 0, 65536), Clamp(y, 0, 65536);
    var w := MoveTo(p, x, y);
    if UseAbsolute(cx - p.x, cy - p.y, cy) {
      assert w.packet == [PacketMoveTo] + Uint16Bytes(cx) + Uint16Bytes(cy);
      AbsoluteMoveDecodes(q, cx, cy, rest);
    } else {
      assert w.packet == [PacketMoveToRel, Uint8(cx - p.x), Uint8(cy - p.y)];
      RelativeMoveDecodes(q, cx - p.x, cy - p.y, rest);
    }
  }

  /** An absolute move packet decodes to its two 16-bit coordinates. */
  lemma AbsoluteMoveDecodes(q: Pen, x: int, y: int, rest: seq<Byte>)
    requires 0 <= x < 65536 && 0 <= y < 65536
    ensures ReadPacket(q, [PacketMoveTo] + Uint16Bytes(x) + Uint16Bytes(y) + rest) == Consumed(q.(x := x, y := y), 5)
  {
    var d := [PacketMoveTo] + Uint16Bytes(x) + Uint16Bytes(y) + rest;
    Uint16RoundTrip(x);
    Uint16RoundTrip(y);
    assert d[1] == Uint16Bytes(x)[0] && d[2] == Uint16Bytes(x)[1];
    assert d[3] == Uint16Bytes(y)[0] && d[4] == Uint16Bytes(y)[1];
  }

  /** A relative move packet decodes to its two signed steps. */
  lemma RelativeMoveDecodes(q: Pen, dx: int, dy: int, rest: seq<Byte>)
    requires -128 <= dx <= 127 && -128 <= dy <= 127
    ensures ReadPacket(q, [PacketMoveToRel, Uint8(dx), Uint8(dy)] + rest) == Consumed(q.(x := q.x + dx, y := q.y + dy), 3)
  {
    var d := [PacketMoveToRel, Uint8(dx), Uint8(dy)] + rest;
    Int8RoundTrip(dx);
    Int8RoundTrip(dy);
    assert d[1] == Uint8(dx) && d[2] == Uint8(dy);
  }

  /** As written, a move between 128 and 255 pixels downward is sent in the
      relative form (the `y >> 127` guard never fires for a clamped y), so
      the receiver ends 256 pixels above the sender: from (0, 0) to (0, 200)
      it lands at (0, -56). */
  lemma LargeDownwardMoveWraps(p: Pen, dy: int)
    requires 0 <= p.x <= 65536 && 0 <= p.y && p.y + dy <= 65536
    requires 127 < dy < 256
    ensures var w := MoveTo(p, p.x, p.y + dy);
      && w.packet == [PacketMoveToRel, 0, dy]
      && w.pen.y == p.y + dy
      && ReadPacket(p, w.packet) == Consumed(p.(y := p.y + dy - 256), 3)
  {
    ShiftBy127IsSignTest(p.y + dy);
    assert !UseAbsolute(0, dy, p.y + dy);
    assert Uint8(0) == 0 && Uint8(dy) == dy;
    assert GetInt8(dy) == dy - 256 && GetInt8(0) == 0;
  }

  /** The clamp's upper bound 65536 does not fit in 16 bits: a move to or
      past the far edge, from a pen more than 127 pixels short of it, is
      sent as x coordinate 0 while the sender's pen stands at 65536. */
  lemma FarEdgeWrapsToZero(p: Pen, x: int, y: int)
    requires x >= 65536 && p.x < 65536 - 127
    ensures var w := MoveTo(p, x, y);
      && w.pen.x == 65536
      && w.packet == [PacketMoveTo, 0, 0] + Uint16Bytes(Clamp(y, 0, 65536))
      && GetUint16(w.packet[1], w.packet[2]) == 0
  {
  }

  /** A relative line replays faithfully onto a coloured receiver at the same
      position when the vertical step fits in a signed byte. */
  lemma LineToRelRoundTrip(p: Pen, q: Pen, x: int, y: int, rest: seq<Byte>)
    requires q.x == p.x && q.y == p.y && q.color.Some? && p.color.Some?
    requires LineTo(p, x, y).packet != [] && !UseAbsolute(x - p.x, y - p.y, y)
    requires y - p.y <= 127
    ensures var s := LineTo(p, x, y);
      ReadPacket(q, s.packet + rest) == Consumed(q.(x := s.pen.x, y := s.pen.y), 3)
  {
    Int8RoundTrip(x - p.x);
    Int8RoundTrip(y - p.y);
  }

  /** A freshly reset pen sends its first colour, its first width and its
      first move whatever their values: nothing is set and (-1, -1) is
      outside the clamping range. */
  lemma ResetForcesFirstPackets(r: int, g: int, b: int, width: int, x: int, y: int)
    ensures SetColor(Reset(), r, g, b).packet != []
    ensures SetLineWidth(Reset(), width).packet != []
    ensures MoveTo(Reset(), x, y).packet != []
  {
  }

  /** Decoding a packet that is consumed whole continues with what follows. */
  lemma ReadAllStep(p: Pen, packet: seq<Byte>, rest: seq<Byte>, q: Pen)
    requires ReadPacket(p, packet + rest) == Consumed(q, |packet|)
    ensures ReadAll(p, packet + rest) == ReadAll(q, rest)
  {
    assert (packet + rest)[|packet|..] == rest;
  }

  /** The client's set of remote pens, keyed by the index byte. */
  datatype Canvas = Canvas(pens: map<Byte, Pen>)

  /** `NetworkedCanvas.getPen`: the pen at `index`, created reset on first use. */
  function GetPen(c: Canvas, index: Byte): (r: (Canvas, Pen))
    ensures index in r.0.pens && r.0.pens[index] == r.1
    ensures index in c.pens ==> r.0 == c && r.1 == c.pens[index]
    ensures index !in c.pens ==> r.0.pens == c.pens[index := Reset()]
  {
    if index in c.pens then (c, c.pens[index])
    else (Canvas(c.pens[index := Reset()]), Reset())
  }

  /** Asking twice for the same index returns the same pen and creates
      nothing more. */
  lemma GetPenStable(c: Canvas, index: Byte)
    ensures GetPen(GetPen(c, index).0, index) == GetPen(c, index)
  {
  }

  /** `NetworkedCanvas.read`: each packet is preceded by its pen index; the
      reader moves on by one plus the length the pen reports. */
  function CanvasRead(c: Canvas, d: seq<Byte>): Canvas
    decreases |d|
  {
    if |d| == 0 then c
    else
      var (c1, p) := GetPen(c, d[0]);
      match ReadPacket(p, d[1..])
      case Consumed(q, n) => CanvasRead(Canvas(c1.pens[d[0] := q]), d[1 + n..])
      case _ => c1
  }

  /** Demultiplexing: an enveloped packet that its pen consumes whole updates
      that pen only, and reading continues after it. */
  lemma CanvasReadStep(c: Canvas, index: Byte, packet: seq<Byte>, rest: seq<Byte>, q: Pen)
    requires ReadPacket(GetPen(c, index).1, packet + rest) == Consumed(q, |packet|)
    ensures CanvasRead(c, [index] + packet + rest)
      == CanvasRead(Canvas(GetPen(c, index).0.pens[index := q]), rest)
  {
    var d := [index] + packet + rest;
    assert d[0] == index;
    assert d[1..] == packet + rest;
    assert d[1 + |packet|..] == rest;
  }
}
