/**
  The schema-driven packing of the host library: integers, groups of bits that fill
  bytes, sized blobs and one unsized blob, which takes what the fields after it leave.
  */
module PacketSchema {
  import opened Bytes
  import opened Framing
  import opened Lists
  import opened Options

  // ---------- Big-endian integers ----------

  function Power(dim: nat): (p: nat)
    ensures p > 0
  {
    if dim == 0 then 1 else 256 * Power(dim - 1)
  }

  function Decode(v: seq<Byte>): (r: nat)
    decreases |v|
  {
    if v == [] then 0 else Decode(v[..|v| - 1]) * 256 + v[|v| - 1] as int
  }

  function Encode(val: int, dim: nat): (r: seq<Byte>)
    ensures |r| == dim
    decreases dim
  {
    if dim == 0 then [] else Encode(val / 256, dim - 1) + [ByteOf(val % 256)]
  }

  method DecodeBytes(v: seq<Byte>) returns (r: nat)
    ensures r == Decode(v)
  {
    r := 0;
    for k := 0 to |v|
      invariant r == Decode(v[..k])
    {
      assert v[..k + 1][..k] == v[..k];
      r := r * 256 + v[k] as int;
    }
    assert v[..|v|] == v;
  }

  /** The low byte first, then reversed. */
  method EncodeInt(val: int, dim: nat) returns (output: seq<Byte>)
    ensures output == Encode(val, dim)
  {
    var rest := val;
    output := [];
    for i := 0 to dim
      invariant Encode(rest, dim - i) + Reversed(output) == Encode(val, dim)
    {
      var b := ByteOf(rest % 256);
      EncodeOneMore(rest, dim - i, Reversed(output));
      ReversedSnoc(output, b);
      output := output + [b];
      rest := rest / 256;
    }
    output := Reversed(output);
  }

  lemma EncodeOneMore(val: int, dim: nat, tail: seq<Byte>)
    requires dim > 0
    ensures Encode(val, dim) + tail == Encode(val / 256, dim - 1) + ([ByteOf(val % 256)] + tail)
  {
  }

  lemma {:induction false} DecodeEncode(val: nat, dim: nat)
    requires val < Power(dim)
    ensures Decode(Encode(val, dim)) == val
  {
    if dim > 0 {
      DecodeEncode(val / 256, dim - 1);
      var e := Encode(val, dim);
      assert e[..dim - 1] == Encode(val / 256, dim - 1);
    }
  }

  lemma EncodeAppend(high: nat, b: Byte, dim: nat)
    ensures Encode(high * 256 + b as int, dim + 1) == Encode(high, dim) + [b]
  {
    ByteOfValue(b);
    LastDigit(high, b as int);
  }

  lemma DecodeAppend(v: seq<Byte>, b: Byte)
    ensures Decode(v + [b]) == Decode(v) * 256 + b as int
  {
    assert (v + [b])[..|v|] == v;
  }

  lemma {:induction false} EncodeDecode(v: seq<Byte>)
    ensures Encode(Decode(v), |v|) == v
    ensures Decode(v) < Power(|v|)
    decreases |v|
  {
    if v != [] {
      hide Encode, Decode;
      var n := |v| - 1;
      EncodeDecode(v[..n]);
      EncodeAppend(Decode(v[..n]), v[n], n);
      DecodeAppend(v[..n], v[n]);
      ByteOfValue(v[n]);
      assert v == v[..n] + [v[n]];
    }
  }

  lemma LastDigit(high: nat, low: int)
    requires 0 <= low < 256
    ensures (high * 256 + low) / 256 == high && (high * 256 + low) % 256 == low
  {
  }

  // ---------- Bits within a byte ----------

  // The bit operations under names of their own: proofs hide them and use only the
  // laws below, each of which is a fact about one byte.

  function Meet(x: Byte, y: Byte): Byte { x & y }

  function Join(x: Byte, y: Byte): Byte { x | y }

  function Double(x: Byte): Byte { x << 1 }

  function Half(x: Byte): Byte { x >> 1 }

  function DoubleOne(x: Byte): Byte { (x << 1) | 1 }

  lemma DoubleMeets(x: Byte, y: Byte)
    ensures Double(Meet(x, y)) == Meet(Double(x), Double(y))
    ensures Double(Join(x, y)) == Join(Double(x), Double(y))
  {
  }

  lemma HalfBack(r: Byte, m: Byte)
    ensures Double(Meet(Half(r), m)) == Meet(r, Double(m))
  {
  }

  lemma FillStep(x: Byte, y: Byte)
    requires Join(x, y) == 0xff && Meet(x, y) == 0
    ensures Join(Double(x), DoubleOne(y)) == 0xff && Meet(Double(x), DoubleOne(y)) == 0
  {
  }

  lemma FillStart()
    ensures Join(0xff, 0) == 0xff && Meet(0xff, 0) == 0 && Double(0) == 0
  {
  }

  lemma MeetZero(x: Byte)
    ensures Meet(0, x) == 0 && Meet(x, 0) == 0
  {
  }

  lemma Distributes(p: Byte, x: Byte, y: Byte)
    ensures Join(Meet(p, x), Meet(p, y)) == Meet(p, Join(x, y))
  {
  }

  lemma GrowStep(x: Byte, y: Byte)
    requires Meet(x, y) == x
    ensures Meet(DoubleOne(x), DoubleOne(y)) == DoubleOne(x)
  {
  }

  lemma FitsStep(v: Byte, m: Byte)
    requires Meet(v, m) == v && Meet(m, 0x7f) == m
    ensures Meet(Double(v), DoubleOne(m)) == Double(v) && Half(Double(v)) == v
  {
  }

  lemma SevenSteps()
    ensures DoubleOne(0x00) == 0x01 && DoubleOne(0x01) == 0x03 && DoubleOne(0x03) == 0x07
    ensures DoubleOne(0x07) == 0x0f && DoubleOne(0x0f) == 0x1f && DoubleOne(0x1f) == 0x3f
    ensures DoubleOne(0x3f) == 0x7f && DoubleOne(0x7f) == 0xff
  {
  }

  lemma MeetTwice(x: Byte, y: Byte)
    ensures Meet(Meet(x, y), y) == Meet(x, y)
  {
  }

  lemma MeetChain(v: Byte, x: Byte, y: Byte)
    requires Meet(v, x) == v && Meet(x, y) == x
    ensures Meet(v, y) == v
  {
  }

  lemma SameLow(p: Byte, z: Byte, top: Byte, low: Byte, placed: Byte, both: Byte, e: Byte)
    requires e == Meet(p, low) && Meet(z, top) == z && Meet(top, low) == 0 && Join(top, low) == both
    requires Meet(placed, low) == placed && Meet(p, both) == Join(z, placed)
    ensures e == placed
  {
  }

  lemma WholeByte(p: Byte)
    ensures Meet(p, 0xff) == p && Meet(p, 0) == 0 && Join(0, p) == p
  {
  }

  function Left(v: Byte, k: nat): Byte
    decreases k
  {
    if k == 0 then v else Left(Double(v), k - 1)
  }

  function Right(v: Byte, k: nat): Byte {
    if k == 0 then v else Half(Right(v, k - 1))
  }

  /** (1 << s) - 1, the s low bits. */
  function LowMask(s: nat): Byte {
    if s == 0 then 0 else DoubleOne(LowMask(s - 1))
  }

  predicate Fits(v: Byte, s: nat) {
    Meet(v, LowMask(s)) == v
  }

  function TopMask(b: nat): Byte
    requires b <= 8
  {
    Left(0xff, 8 - b)
  }

  /** The s bits that start b bits from the top: (p >> doffset) & ((1 << s) - 1). */
  function Extract(p: Byte, b: nat, s: nat): Byte
    requires b + s <= 8
  {
    Meet(Right(p, 8 - (b + s)), LowMask(s))
  }

  /** The same bits put in place below b bits already there: z | v << doffset. */
  function Place(z: Byte, v: Byte, b: nat, s: nat): Byte
    requires b + s <= 8
  {
    Join(z, Left(v, 8 - (b + s)))
  }

  lemma {:induction false} LeftMeets(x: Byte, y: Byte, k: nat)
    ensures Left(Meet(x, y), k) == Meet(Left(x, k), Left(y, k))
    ensures Left(Join(x, y), k) == Join(Left(x, k), Left(y, k))
    decreases k
  {
    hide Meet, Join, Double;
    if k > 0 {
      DoubleMeets(x, y);
      LeftMeets(Double(x), Double(y), k - 1);
    }
  }

  lemma {:induction false} LeftAdds(v: Byte, j: nat, k: nat)
    ensures Left(v, j + k) == Left(Left(v, j), k)
    decreases j
  {
    hide Double;
    if j > 0 { LeftAdds(Double(v), j - 1, k); }
  }

  /** Shifting right, masking and shifting back keeps the masked bits in place. */
  lemma {:induction false} ShiftBack(p: Byte, m: Byte, k: nat)
    ensures Left(Meet(Right(p, k), m), k) == Meet(p, Left(m, k))
    decreases k
  {
    hide Meet, Double, Half;
    if k > 0 {
      HalfBack(Right(p, k - 1), m);
      ShiftBack(p, Double(m), k - 1);
    }
  }

  lemma {:induction false} MasksFill(s: nat)
    ensures Join(Left(0xff, s), LowMask(s)) == 0xff && Meet(Left(0xff, s), LowMask(s)) == 0
  {
    hide Meet, Join, Double, DoubleOne;
    FillStart();
    if s > 0 {
      MasksFill(s - 1);
      LeftAdds(0xff, s - 1, 1);
      FillStep(Left(0xff, s - 1), LowMask(s - 1));
    }
  }

  lemma {:induction false} LeftZero(k: nat)
    ensures Left(0, k) == 0
  {
    hide Double;
    FillStart();
    if k > 0 { LeftZero(k - 1); }
  }

  lemma MasksJoin(b: nat, s: nat)
    requires b + s <= 8
    ensures Join(TopMask(b), Left(LowMask(s), 8 - (b + s))) == TopMask(b + s)
    ensures Meet(TopMask(b), Left(LowMask(s), 8 - (b + s))) == 0
  {
    hide Left, LowMask, Meet, Join;
    var d := 8 - (b + s);
    MasksFill(s);
    LeftAdds(0xff, s, d);
    LeftMeets(Left(0xff, s), LowMask(s), d);
    LeftZero(d);
  }

  /** Bits taken out and put back below the bits above them restore the byte so far. */
  lemma PlaceExtract(p: Byte, b: nat, s: nat)
    requires b + s <= 8
    ensures Place(Meet(p, TopMask(b)), Extract(p, b, s), b, s) == Meet(p, TopMask(b + s))
  {
    hide Left, Right, LowMask, TopMask, Meet, Join;
    ShiftBack(p, LowMask(s), 8 - (b + s));
    MasksJoin(b, s);
    Distributes(p, TopMask(b), Left(LowMask(s), 8 - (b + s)));
  }

  lemma {:induction false} LowMaskGrows(j: nat, k: nat)
    requires j <= k
    ensures Meet(LowMask(j), LowMask(k)) == LowMask(j)
  {
    hide Meet, DoubleOne;
    if j > 0 {
      LowMaskGrows(j - 1, k - 1);
      GrowStep(LowMask(j - 1), LowMask(k - 1));
    } else {
      MeetZero(LowMask(k));
    }
  }

  lemma SevenBits()
    ensures LowMask(7) == 0x7f && LowMask(8) == 0xff
  {
    hide DoubleOne;
    SevenSteps();
    assert LowMask(2) == 0x03;
    assert LowMask(4) == 0x0f;
    assert LowMask(6) == 0x3f;
  }

  /** A value that leaves room for the shift comes back from it. */
  lemma {:induction false} RightLeft(v: Byte, k: nat)
    requires k <= 8 && Fits(v, 8 - k)
    ensures Right(Left(v, k), k) == v
    decreases k
  {
    hide Meet, Double, DoubleOne, Half;
    if k > 0 {
      LowMaskGrows(8 - k, 7);
      SevenBits();
      FitsStep(v, LowMask(8 - k));
      assert LowMask(9 - k) == DoubleOne(LowMask(8 - k));
      RightLeft(Double(v), k - 1);
    }
  }

  lemma FitsWider(v: Byte, s: nat, t: nat)
    requires Fits(v, s) && s <= t
    ensures Fits(v, t)
  {
    hide LowMask, Meet;
    LowMaskGrows(s, t);
    MeetChain(v, LowMask(s), LowMask(t));
  }

  /** Bits put in place are found there again, whatever is put below them later. */
  lemma ExtractPlace(p: Byte, z: Byte, v: Byte, b: nat, s: nat)
    requires b + s <= 8 && Fits(v, s)
    requires Meet(z, TopMask(b)) == z
    requires Meet(p, TopMask(b + s)) == Place(z, v, b, s)
    ensures Extract(p, b, s) == v
  {
    hide Left, Right, LowMask, TopMask, Meet, Join;
    var d := 8 - (b + s);
    var e := Extract(p, b, s);
    ShiftBack(p, LowMask(s), d);
    LeftMeets(v, LowMask(s), d);
    MasksJoin(b, s);
    SameLow(p, z, TopMask(b), Left(LowMask(s), d), Left(v, d), TopMask(b + s), Left(e, d));
    MeetTwice(Right(p, d), LowMask(s));
    FitsWider(v, s, 8 - d);
    FitsWider(e, s, 8 - d);
    RightLeft(v, d);
    RightLeft(e, d);
  }

  lemma PlacedStays(z: Byte, placed: Byte, top: Byte, low: Byte, both: Byte)
    requires Meet(z, top) == z && Meet(placed, low) == placed && Meet(top, low) == 0 && Join(top, low) == both
    ensures Meet(Join(z, placed), both) == Join(z, placed) && Meet(Join(z, placed), top) == z
  {
  }

  /** Placing keeps the bits above and leaves the bits below clear. */
  lemma PlaceKeeps(z: Byte, v: Byte, b: nat, s: nat)
    requires b + s <= 8 && Fits(v, s) && Meet(z, TopMask(b)) == z
    ensures Meet(Place(z, v, b, s), TopMask(b + s)) == Place(z, v, b, s)
    ensures Meet(Place(z, v, b, s), TopMask(b)) == z
  {
    hide Left, LowMask, TopMask, Meet, Join;
    LeftMeets(v, LowMask(s), 8 - (b + s));
    MasksJoin(b, s);
    PlacedStays(z, Left(v, 8 - (b + s)), TopMask(b), Left(LowMask(s), 8 - (b + s)), TopMask(b + s));
  }

  lemma MaskEnds()
    ensures TopMask(0) == 0 && TopMask(8) == 0xff
  {
    hide LowMask, Meet, Join, Double;
    MasksFill(8);
    SevenBits();
    WholeByte(Left(0xff, 8));
  }

  // ---------- Schemas ----------

  datatype Size = Unsized | Sized(n: int)

  /** A field: an integer of so many bytes, a group of so many bits, or a blob. */
  datatype Field = IntField(size: nat) | BitsField(bits: nat) | BlobField(room: Size)

  datatype Value = Number(n: int) | BitGroup(v: Byte) | Blob(bytes: seq<Byte>)

  predicate IsUnsized(f: Field) {
    f.BlobField? && f.room.Unsized?
  }

  /** A described size, as the constructor adds it up; bits count like bytes. */
  function SizeOf(f: Field): int {
    match f
    case IntField(s) => s
    case BitsField(s) => s
    case BlobField(Sized(n)) => n
    case BlobField(Unsized) => 0
  }

  function TotalSize(desc: seq<Field>): int
    decreases |desc|
  {
    if desc == [] then 0 else SizeOf(desc[0]) + TotalSize(desc[1..])
  }

  function LastUnsized(desc: seq<Field>): (i: int)
    ensures -1 <= i < |desc|
    ensures i >= 0 ==> IsUnsized(desc[i])
    ensures forall j | i < j < |desc| :: !IsUnsized(desc[j])
    decreases |desc|
  {
    if desc == [] then -1
    else if IsUnsized(desc[|desc| - 1]) then |desc| - 1
    else LastUnsized(desc[..|desc| - 1])
  }

  /** The last unsized blob gets the negative of the sizes after it, to be counted from the packet's end. */
  function Resolve(desc: seq<Field>): (schema: seq<Field>)
    ensures |schema| == |desc|
  {
    var i := LastUnsized(desc);
    if i >= 0 && TotalSize(desc[i + 1..]) > 0 then
      desc[i := BlobField(Sized(-TotalSize(desc[i + 1..])))]
    else desc
  }

  method ResolveSizes(desc: seq<Field>) returns (schema: seq<Field>)
    ensures schema == Resolve(desc)
  {
    hide LastUnsized, TotalSize;
    schema := desc;
    var sum := 0;
    TotalOfNone();
    var i := |desc| - 1;
    assert desc[i + 1..] == [];
    while i >= 0
      invariant -1 <= i < |desc|
      invariant schema == desc
      invariant forall j | i < j < |desc| :: !IsUnsized(desc[j])
      invariant sum == TotalSize(desc[i + 1..])
      decreases i
    {
      if IsUnsized(schema[i]) {
        LastIs(desc, i);
        if sum > 0 {
          schema := schema[i := BlobField(Sized(-sum))];
        }
        return;
      }
      TotalFrom(desc, i);
      sum := sum + SizeOf(schema[i]);
      i := i - 1;
    }
    NoneUnsized(desc);
  }

  lemma TotalOfNone()
    ensures TotalSize([]) == 0
  {
  }

  lemma TotalFrom(desc: seq<Field>, i: nat)
    requires i < |desc|
    ensures TotalSize(desc[i..]) == SizeOf(desc[i]) + TotalSize(desc[i + 1..])
  {
    assert desc[i..][1..] == desc[i + 1..];
  }

  lemma NoneUnsized(desc: seq<Field>)
    requires forall j | 0 <= j < |desc| :: !IsUnsized(desc[j])
    ensures LastUnsized(desc) == -1
  {
  }

  lemma LastIs(desc: seq<Field>, i: nat)
    requires i < |desc| && IsUnsized(desc[i])
    requires forall j | i < j < |desc| :: !IsUnsized(desc[j])
    ensures LastUnsized(desc) == i
  {
  }

  // ---------- Unpacking and packing ----------

  function Prepend(v: Value, rest: Option<seq<Value>>): Option<seq<Value>> {
    match rest
    case None => None
    case Some(vs) => Some([v] + vs)
  }

  /** Python's packet[i], where it exists. */
  predicate HasIndex(packet: seq<Byte>, i: int) {
    -|packet| <= i < |packet|
  }

  function At(packet: seq<Byte>, i: int): Byte
    requires HasIndex(packet, i)
  {
    if i >= 0 then packet[i] else packet[|packet| + i]
  }

  /** Unpacking from a byte offset and a bit offset; None stands for the exceptions Python raises. */
  function ParseFrom(schema: seq<Field>, packet: seq<Byte>, offset: int, b: nat): Option<seq<Value>>
    decreases |schema|
  {
    if schema == [] then Some([])
    else
      match schema[0]
      case IntField(s) =>
        Prepend(Number(Decode(Slice(packet, offset, offset + s))), ParseFrom(schema[1..], packet, offset + s, b))
      case BitsField(s) =>
        if b + s > 8 || !HasIndex(packet, offset) then None
        else
          Prepend(BitGroup(Extract(At(packet, offset), b, s)),
                  if b + s == 8 then ParseFrom(schema[1..], packet, offset + 1, 0)
                  else ParseFrom(schema[1..], packet, offset, b + s))
      case BlobField(Sized(n)) =>
        if n > 0 then
          Prepend(Blob(Slice(packet, offset, offset + n)), ParseFrom(schema[1..], packet, offset + n, b))
        else if n < 0 then
          Prepend(Blob(Slice(packet, offset, n)), ParseFrom(schema[1..], packet, |packet| + n, b))
        else
          Prepend(Blob(Slice(packet, offset, |packet|)), ParseFrom(schema[1..], packet, offset, b))
      case BlobField(Unsized) =>
        Prepend(Blob(Slice(packet, offset, |packet|)), ParseFrom(schema[1..], packet, offset, b))
  }

  function Parse(schema: seq<Field>, packet: seq<Byte>): Option<seq<Value>> {
    ParseFrom(schema, packet, 0, 0)
  }

  /** Packing onto the bytes so far; None stands for a value that does not suit its field. */
  function PayloadFrom(schema: seq<Field>, values: seq<Value>, r: seq<Byte>, b: nat): Option<seq<Byte>>
    requires |schema| == |values|
    decreases |schema|
  {
    if schema == [] then Some(r)
    else
      match (schema[0], values[0])
      case (IntField(s), Number(n)) => PayloadFrom(schema[1..], values[1..], r + Encode(n, s), 0)
      case (BitsField(s), BitGroup(v)) =>
        if b + s > 8 || !Fits(v, b + s) || (b > 0 && r == []) then None
        else
          PayloadFrom(schema[1..], values[1..],
                      if b == 0 then r + [Place(0, v, 0, s)]
                      else r[..|r| - 1] + [Place(r[|r| - 1], v, b, s)],
                      if b + s == 8 then 0 else b + s)
      case (BlobField(_), Blob(bytes)) => PayloadFrom(schema[1..], values[1..], r + bytes, b)
      case _ => None
  }

  function Payload(schema: seq<Field>, values: seq<Value>): Option<seq<Byte>>
    requires |schema| == |values|
  {
    PayloadFrom(schema, values, [], 0)
  }

  // ---------- The schemas and values that round-trip ----------

  predicate Plain(f: Field) {
    f.IntField? || (f.BlobField? && f.room.Sized? && f.room.n > 0)
  }

  predicate AllPlain(schema: seq<Field>) {
    forall i | 0 <= i < |schema| :: Plain(schema[i])
  }

  /** A blob that takes what the later fields leave, which are all of fixed whole-byte sizes. */
  predicate TakesRest(schema: seq<Field>)
    requires schema != []
  {
    && schema[0].BlobField?
    && AllPlain(schema[1..])
    && schema[0].room == if TotalSize(schema[1..]) > 0 then Sized(-TotalSize(schema[1..])) else Unsized
  }

  /** Bit groups fill whole bytes, sized blobs are not empty, and at most one blob takes the rest. */
  predicate WellFormed(schema: seq<Field>, b: nat)
    decreases |schema|
  {
    if schema == [] then b == 0
    else if schema[0].BitsField? then
      schema[0].bits > 0 && b + schema[0].bits <= 8
      && WellFormed(schema[1..], if b + schema[0].bits == 8 then 0 else b + schema[0].bits)
    else
      b == 0 && (Plain(schema[0]) || TakesRest(schema)) && WellFormed(schema[1..], 0)
  }

  predicate Suits(f: Field, v: Value) {
    match f
    case IntField(s) => v.Number? && 0 <= v.n < Power(s)
    case BitsField(s) => v.BitGroup? && Fits(v.v, s)
    case BlobField(Sized(n)) => v.Blob? && (n > 0 ==> |v.bytes| == n)
    case BlobField(Unsized) => v.Blob?
  }

  predicate AllSuit(schema: seq<Field>, values: seq<Value>) {
    |schema| == |values| && forall i | 0 <= i < |schema| :: Suits(schema[i], values[i])
  }

  /** Bytes the fields need at least, from a bit offset. */
  function Needed(schema: seq<Field>, b: nat): nat
    decreases |schema|
  {
    if schema == [] then 0
    else
      match schema[0]
      case IntField(s) => s + Needed(schema[1..], b)
      case BitsField(s) => (if b == 0 then 1 else 0) + Needed(schema[1..], if b + s == 8 then 0 else b + s)
      case BlobField(Sized(n)) => (if n > 0 then n else 0) + Needed(schema[1..], b)
      case BlobField(Unsized) => Needed(schema[1..], b)
  }

  lemma {:induction false} PlainNeeds(schema: seq<Field>)
    requires AllPlain(schema)
    ensures Needed(schema, 0) == TotalSize(schema)
    decreases |schema|
  {
    if schema != [] { PlainNeeds(schema[1..]); }
  }

  // ---------- Packing, then unpacking ----------

  /** What packing has so far, at a bit offset: a byte begun holds nothing below the offset. */
  predicate Begun(r: seq<Byte>, b: nat) {
    b < 8 && (b > 0 ==> r != [] && Meet(r[|r| - 1], TopMask(b)) == r[|r| - 1])
  }

  /** More packing keeps the whole bytes, and the bits of the byte begun. */
  predicate Keeps(r: seq<Byte>, b: nat, packet: seq<Byte>)
    requires b < 8
  {
    && |r| <= |packet|
    && (b == 0 ==> packet[..|r|] == r)
    && (b > 0 ==> r != [] && packet[..|r| - 1] == r[..|r| - 1] && Meet(packet[|r| - 1], TopMask(b)) == r[|r| - 1])
  }

  function Offset(r: seq<Byte>, b: nat): int {
    if b == 0 then |r| else |r| - 1
  }

  lemma {:induction false} PayloadParses(schema: seq<Field>, values: seq<Value>, r: seq<Byte>, b: nat)
    returns (packet: seq<Byte>)
    requires WellFormed(schema, b) && AllSuit(schema, values) && Begun(r, b)
    ensures PayloadFrom(schema, values, r, b) == Some(packet)
    ensures Keeps(r, b, packet)
    ensures AllPlain(schema) && b == 0 ==> |packet| == |r| + TotalSize(schema)
    ensures ParseFrom(schema, packet, Offset(r, b), b) == Some(values)
    decreases |schema|
  {
    hide Encode, Decode, Power, Extract, Place, Fits, Meet, TopMask, Slice;
    if schema == [] {
      packet := r;
      assert values == [];
    } else {
      match schema[0]
      case IntField(s) =>
        packet := IntParses(schema, values, r);
      case BitsField(s) =>
        packet := BitsParse(schema, values, r, b);
      case BlobField(_) =>
        packet := BlobParses(schema, values, r);
    }
  }

  lemma Prefixed(r: seq<Byte>, more: seq<Byte>, packet: seq<Byte>)
    requires Keeps(r + more, 0, packet)
    ensures Keeps(r, 0, packet)
    ensures Slice(packet, |r|, |r| + |more|) == more
  {
    assert packet[..|r + more|] == r + more;
    assert packet[|r|..|r| + |more|] == more;
    assert packet[..|r|] == (r + more)[..|r|];
  }

  lemma Tail(schema: seq<Field>, values: seq<Value>)
    requires AllSuit(schema, values) && schema != []
    ensures AllSuit(schema[1..], values[1..]) && Suits(schema[0], values[0])
    ensures [values[0]] + values[1..] == values
    ensures AllPlain(schema) ==> AllPlain(schema[1..]) && Plain(schema[0])
  {
  }

  lemma IntParses(schema: seq<Field>, values: seq<Value>, r: seq<Byte>) returns (packet: seq<Byte>)
    requires schema != [] && schema[0].IntField?
    requires WellFormed(schema, 0) && AllSuit(schema, values)
    ensures PayloadFrom(schema, values, r, 0) == Some(packet)
    ensures Keeps(r, 0, packet)
    ensures AllPlain(schema) ==> |packet| == |r| + TotalSize(schema)
    ensures ParseFrom(schema, packet, |r|, 0) == Some(values)
    decreases |schema|, 0
  {
    hide Encode, Decode, Power, Fits, Meet, TopMask, Slice;
    Tail(schema, values);
    var more := Encode(values[0].n, schema[0].size);
    packet := PayloadParses(schema[1..], values[1..], r + more, 0);
    Prefixed(r, more, packet);
    DecodeEncode(values[0].n, schema[0].size);
  }

  lemma BlobParses(schema: seq<Field>, values: seq<Value>, r: seq<Byte>) returns (packet: seq<Byte>)
    requires schema != [] && schema[0].BlobField?
    requires WellFormed(schema, 0) && AllSuit(schema, values)
    ensures PayloadFrom(schema, values, r, 0) == Some(packet)
    ensures Keeps(r, 0, packet)
    ensures AllPlain(schema) ==> |packet| == |r| + TotalSize(schema)
    ensures ParseFrom(schema, packet, |r|, 0) == Some(values)
    decreases |schema|, 0
  {
    hide Encode, Decode, Power, Fits, Meet, TopMask, Slice;
    Tail(schema, values);
    var more := values[0].bytes;
    packet := PayloadParses(schema[1..], values[1..], r + more, 0);
    Prefixed(r, more, packet);
    if TakesRest(schema) {
      SliceToEnd(packet, |r|, |r| + |more|);
      PlainTotal(schema[1..]);
      if TotalSize(schema[1..]) == 0 {
        NothingLeft(schema[1..], packet, |r|, |r| + |more|);
      }
    }
  }

  lemma {:induction false} PlainTotal(schema: seq<Field>)
    requires AllPlain(schema)
    ensures TotalSize(schema) >= 0
    decreases |schema|
  {
    if schema != [] { PlainTotal(schema[1..]); }
  }

  /** After an unsized blob the offset stays behind, which does not matter to fields without size. */
  lemma {:induction false} NothingLeft(schema: seq<Field>, packet: seq<Byte>, i: nat, j: nat)
    requires AllPlain(schema) && TotalSize(schema) == 0
    ensures ParseFrom(schema, packet, i, 0) == ParseFrom(schema, packet, j, 0)
    decreases |schema|
  {
    if schema != [] {
      PlainTotal(schema[1..]);
      assert Plain(schema[0]);
      NothingLeft(schema[1..], packet, i, j);
    }
  }

  /** The same slice, with its end counted from the packet's end. */
  lemma SliceToEnd(packet: seq<Byte>, from: nat, to: nat)
    requires from <= to <= |packet|
    ensures to < |packet| ==> Slice(packet, from, to - |packet|) == Slice(packet, from, to)
    ensures to == |packet| ==> Slice(packet, from, |packet|) == Slice(packet, from, to)
  {
  }

  lemma BitsParse(schema: seq<Field>, values: seq<Value>, r: seq<Byte>, b: nat) returns (packet: seq<Byte>)
    requires schema != [] && schema[0].BitsField?
    requires WellFormed(schema, b) && AllSuit(schema, values) && Begun(r, b)
    ensures PayloadFrom(schema, values, r, b) == Some(packet)
    ensures Keeps(r, b, packet) && !AllPlain(schema)
    ensures ParseFrom(schema, packet, Offset(r, b), b) == Some(values)
    decreases |schema|, 0
  {
    WellFormedBits(schema, b);
    Tail(schema, values);
    NotPlain(schema);
    hide *;
    var s, v := schema[0].bits, values[0].v;
    BitsBegin(r, b, v, s);
    SuitedLength(schema, values);
    var c := NextBit(b, s);
    packet := PayloadParses(schema[1..], values[1..], WithBits(r, b, v, s), c);
    BitsEnd(r, b, v, s, packet);
    BitsPack(schema, values, r, b);
    var offset, next := Offset(r, b), Offset(WithBits(r, b, v, s), c);
    TakenBits(schema[0], packet, offset, b, v, next);
    TakenIs(schema, packet, offset, b, values[0], next, c);
    PrependBack(values);
  }

  lemma WellFormedBits(schema: seq<Field>, b: nat)
    requires schema != [] && schema[0].BitsField? && WellFormed(schema, b)
    ensures 0 < schema[0].bits && b + schema[0].bits <= 8 && WellFormed(schema[1..], NextBit(b, schema[0].bits))
  {
  }

  lemma NotPlain(schema: seq<Field>)
    requires schema != [] && schema[0].BitsField?
    ensures !AllPlain(schema)
  {
    assert !Plain(schema[0]);
  }

  lemma PrependBack(values: seq<Value>)
    requires values != []
    ensures Prepend(values[0], Some(values[1..])) == Some(values)
  {
    assert [values[0]] + values[1..] == values;
  }

  lemma TakenBits(f: Field, packet: seq<Byte>, offset: int, b: nat, v: Byte, next: int)
    requires f.BitsField? && b + f.bits <= 8 && HasIndex(packet, offset) && Extract(At(packet, offset), b, f.bits) == v
    requires next == offset + if b + f.bits == 8 then 1 else 0
    ensures Taken(f, packet, offset, b, BitGroup(v), next, NextBit(b, f.bits))
  {
    hide Extract, At, HasIndex;
  }

  /** A group of bits keeps the packing begun, up to its own last bit. */
  lemma BitsBegin(r: seq<Byte>, b: nat, v: Byte, s: nat)
    requires Begun(r, b) && 0 < s && b + s <= 8 && Fits(v, s)
    ensures (b > 0 ==> r != []) && Fits(v, b + s) && Begun(WithBits(r, b, v, s), NextBit(b, s))
    ensures WithBits(r, b, v, s) != []
    ensures Offset(WithBits(r, b, v, s), NextBit(b, s)) == Offset(r, b) + if b + s == 8 then 1 else 0
  {
    hide Place, Fits, Meet, TopMask;
    var z := if b == 0 then 0 else r[|r| - 1];
    MaskEnds();
    MeetZero(TopMask(b));
    PlaceKeeps(z, v, b, s);
    FitsWider(v, s, b + s);
  }

  /** And is found again in a packet that keeps what follows it. */
  lemma BitsEnd(r: seq<Byte>, b: nat, v: Byte, s: nat, packet: seq<Byte>)
    requires Begun(r, b) && 0 < s && b + s <= 8 && Fits(v, s)
    requires NextBit(b, s) < 8 && Keeps(WithBits(r, b, v, s), NextBit(b, s), packet)
    ensures Keeps(r, b, packet) && HasIndex(packet, Offset(r, b))
    ensures Extract(At(packet, Offset(r, b)), b, s) == v
  {
    hide Extract, Place, Fits, Meet, TopMask;
    var z := if b == 0 then 0 else r[|r| - 1];
    var whole := if b == 0 then r else r[..|r| - 1];
    var byte := Place(z, v, b, s);
    MaskEnds();
    MeetZero(TopMask(b));
    assert WithBits(r, b, v, s) == whole + [byte];
    KeptByte(whole, byte, b + s, packet);
    BitsFoundAgain(packet[|whole|], z, v, b, s);
    assert b == 0 ==> packet[..|r|] == r;
  }

  lemma KeptByte(whole: seq<Byte>, byte: Byte, t: nat, packet: seq<Byte>)
    requires 0 < t <= 8 && Keeps(whole + [byte], if t == 8 then 0 else t, packet)
    ensures |whole| < |packet| && packet[..|whole|] == whole
    ensures if t == 8 then packet[|whole|] == byte else Meet(packet[|whole|], TopMask(t)) == byte
  {
    hide Meet, TopMask;
    var next := whole + [byte];
    if t == 8 {
      assert packet[..|next|][|whole|] == byte;
      assert packet[..|whole|] == packet[..|next|][..|whole|];
    } else {
      assert next[..|next| - 1] == whole;
    }
  }

  /** The bits placed in a byte are found in whatever that byte becomes, and those above them are kept. */
  lemma BitsFoundAgain(p: Byte, z: Byte, v: Byte, b: nat, s: nat)
    requires 0 < s && b + s <= 8 && Fits(v, s) && Meet(z, TopMask(b)) == z
    requires if b + s == 8 then p == Place(z, v, b, s) else Meet(p, TopMask(b + s)) == Place(z, v, b, s)
    ensures Extract(p, b, s) == v
    ensures Meet(p, TopMask(b)) == z
  {
    hide Extract, Place, Fits, Meet, TopMask, Left, LowMask;
    MaskEnds();
    PlaceKeeps(z, v, b, s);
    WholeByte(p);
    ExtractPlace(p, z, v, b, s);
    MasksJoin(b, s);
    Above(p, TopMask(b), Left(LowMask(s), 8 - (b + s)), TopMask(b + s), Place(z, v, b, s), z);
  }

  lemma Above(p: Byte, top: Byte, low: Byte, both: Byte, placed: Byte, z: Byte)
    requires Join(top, low) == both && Meet(p, both) == placed && Meet(placed, top) == z
    ensures Meet(p, top) == z
  {
  }

  /** Unpacking what was packed gives the values back. */
  lemma ValuesRoundTrip(schema: seq<Field>, values: seq<Value>) returns (packet: seq<Byte>)
    requires WellFormed(schema, 0) && AllSuit(schema, values)
    ensures Payload(schema, values) == Some(packet) && Parse(schema, packet) == Some(values)
  {
    hide WellFormed, AllSuit, PayloadFrom, ParseFrom;
    packet := PayloadParses(schema, values, [], 0);
  }

  // ---------- Unpacking, then packing ----------

  predicate TakesAll(schema: seq<Field>) {
    exists i :: 0 <= i < |schema| && schema[i].BlobField? && !Plain(schema[i])
  }

  /** The packet up to an offset, with the bits already read of the byte there. */
  function ReadSoFar(packet: seq<Byte>, offset: nat, b: nat): seq<Byte>
    requires b < 8 && offset + (if b > 0 then 1 else 0) <= |packet|
  {
    packet[..offset] + if b > 0 then [Meet(packet[offset], TopMask(b))] else []
  }

  /** Where unpacking ends. */
  function End(schema: seq<Field>, packet: seq<Byte>, offset: nat, b: nat): int {
    if TakesAll(schema) then |packet| else offset + (if b > 0 then 1 else 0) + Needed(schema, b)
  }

  lemma {:induction false} ParsePays(schema: seq<Field>, packet: seq<Byte>, offset: nat, b: nat)
    returns (values: seq<Value>)
    requires b < 8 && WellFormed(schema, b)
    requires offset + (if b > 0 then 1 else 0) + Needed(schema, b) <= |packet|
    ensures ParseFrom(schema, packet, offset, b) == Some(values) && AllSuit(schema, values)
    ensures 0 <= End(schema, packet, offset, b) <= |packet|
    ensures PayloadFrom(schema, values, ReadSoFar(packet, offset, b), b)
         == Some(packet[..End(schema, packet, offset, b)])
    decreases |schema|
  {
    hide Encode, Decode, Power, Extract, Place, Fits, Meet, TopMask, Slice;
    if schema == [] {
      values := [];
      assert ReadSoFar(packet, offset, b) == packet[..offset];
    } else {
      match schema[0]
      case IntField(s) => values := IntPays(schema, packet, offset);
      case BitsField(s) => values := BitsPay(schema, packet, offset, b);
      case BlobField(_) => values := BlobPays(schema, packet, offset);
    }
  }

  lemma AllSuitCons(schema: seq<Field>, v: Value, rest: seq<Value>)
    requires schema != [] && Suits(schema[0], v) && AllSuit(schema[1..], rest)
    ensures AllSuit(schema, [v] + rest)
    ensures ([v] + rest)[1..] == rest
  {
  }

  lemma TakesAllCons(schema: seq<Field>)
    requires schema != []
    ensures TakesAll(schema) <==> (schema[0].BlobField? && !Plain(schema[0])) || TakesAll(schema[1..])
  {
    if TakesAll(schema[1..]) {
      var i :| 0 <= i < |schema[1..]| && schema[1..][i].BlobField? && !Plain(schema[1..][i]);
      assert schema[i + 1].BlobField? && !Plain(schema[i + 1]);
    }
    if schema[0].BlobField? && !Plain(schema[0]) {
      assert TakesAll(schema);
    }
    if TakesAll(schema) {
      var i :| 0 <= i < |schema| && schema[i].BlobField? && !Plain(schema[i]);
      if i > 0 {
        assert schema[1..][i - 1].BlobField? && !Plain(schema[1..][i - 1]);
      }
    }
  }

  /** A field's bytes, cut out of the packet and appended again. */
  lemma CutOut(packet: seq<Byte>, from: nat, to: nat)
    requires from <= to <= |packet|
    ensures |Slice(packet, from, to)| == to - from
    ensures packet[..from] + Slice(packet, from, to) == packet[..to]
  {
  }

  lemma IntStep(schema: seq<Field>, packet: seq<Byte>, offset: nat, n: int, rest: seq<Value>, r: seq<Byte>)
    requires schema != [] && schema[0].IntField? && |rest| + 1 == |schema|
    ensures
      var s := schema[0].size;
      && ParseFrom(schema, packet, offset, 0)
           == Prepend(Number(Decode(Slice(packet, offset, offset + s))), ParseFrom(schema[1..], packet, offset + s, 0))
      && PayloadFrom(schema, [Number(n)] + rest, r, 0) == PayloadFrom(schema[1..], rest, r + Encode(n, s), 0)
  {
    hide Encode, Decode, Slice;
    assert ([Number(n)] + rest)[1..] == rest;
  }

  lemma BitsStep(schema: seq<Field>, packet: seq<Byte>, offset: nat, b: nat, v: Byte, rest: seq<Value>, r: seq<Byte>)
    requires schema != [] && schema[0].BitsField? && |rest| + 1 == |schema|
    requires offset < |packet| && b + schema[0].bits <= 8 && Fits(v, b + schema[0].bits) && (b > 0 ==> r != [])
    ensures
      var s := schema[0].bits;
      var c := if b + s == 8 then 0 else b + s;
      && ParseFrom(schema, packet, offset, b)
           == Prepend(BitGroup(Extract(packet[offset], b, s)),
                      ParseFrom(schema[1..], packet, if b + s == 8 then offset + 1 else offset, c))
      && PayloadFrom(schema, [BitGroup(v)] + rest, r, b)
           == PayloadFrom(schema[1..], rest,
                          if b == 0 then r + [Place(0, v, 0, s)] else r[..|r| - 1] + [Place(r[|r| - 1], v, b, s)], c)
  {
    hide Extract, Place, Fits;
    assert ([BitGroup(v)] + rest)[1..] == rest;
  }

  lemma IntPays(schema: seq<Field>, packet: seq<Byte>, offset: nat) returns (values: seq<Value>)
    requires schema != [] && schema[0].IntField? && WellFormed(schema, 0)
    requires offset + Needed(schema, 0) <= |packet|
    ensures ParseFrom(schema, packet, offset, 0) == Some(values) && AllSuit(schema, values)
    ensures 0 <= End(schema, packet, offset, 0) <= |packet|
    ensures PayloadFrom(schema, values, ReadSoFar(packet, offset, 0), 0)
         == Some(packet[..End(schema, packet, offset, 0)])
    decreases |schema|, 0
  {
    hide Encode, Decode, Power, Fits, Meet, TopMask, Slice, TakesAll, AllSuit, ParseFrom, PayloadFrom;
    var s := schema[0].size;
    var cut := Slice(packet, offset, offset + s);
    CutOut(packet, offset, offset + s);
    EncodeDecode(cut);
    var rest := ParsePays(schema[1..], packet, offset + s, 0);
    values := [Number(Decode(cut))] + rest;
    AllSuitCons(schema, values[0], rest);
    TakesAllCons(schema);
    IntStep(schema, packet, offset, Decode(cut), rest, ReadSoFar(packet, offset, 0));
    assert ReadSoFar(packet, offset, 0) + cut == ReadSoFar(packet, offset + s, 0);
  }

  lemma BlobPays(schema: seq<Field>, packet: seq<Byte>, offset: nat) returns (values: seq<Value>)
    requires schema != [] && schema[0].BlobField? && WellFormed(schema, 0)
    requires offset + Needed(schema, 0) <= |packet|
    ensures ParseFrom(schema, packet, offset, 0) == Some(values) && AllSuit(schema, values)
    ensures 0 <= End(schema, packet, offset, 0) <= |packet|
    ensures PayloadFrom(schema, values, ReadSoFar(packet, offset, 0), 0)
         == Some(packet[..End(schema, packet, offset, 0)])
    decreases |schema|, 0
  {
    hide Encode, Decode, Power, Fits, Meet, TopMask, Slice, TakesAll, AllSuit, PayloadFrom, ParseFrom;
    TakesAllCons(schema);
    var to: nat;
    if Plain(schema[0]) {
      to := offset + schema[0].room.n;
    } else {
      PlainNeeds(schema[1..]);
      PlainTotal(schema[1..]);
      to := |packet| - TotalSize(schema[1..]);
      PlainTakesNothing(schema[1..]);
    }
    BlobReads(schema, packet, offset, to);
    var cut := Slice(packet, offset, to);
    CutOut(packet, offset, to);
    var rest := ParsePays(schema[1..], packet, to, 0);
    values := [Blob(cut)] + rest;
    AllSuitCons(schema, values[0], rest);
    BlobStep(schema, cut, rest, ReadSoFar(packet, offset, 0));
    assert ReadSoFar(packet, offset, 0) + cut == ReadSoFar(packet, to, 0);
  }

  lemma BlobReads(schema: seq<Field>, packet: seq<Byte>, offset: nat, to: nat)
    requires schema != [] && schema[0].BlobField? && (Plain(schema[0]) || TakesRest(schema))
    requires offset <= to == if Plain(schema[0]) then offset + schema[0].room.n else |packet| - TotalSize(schema[1..])
    requires to <= |packet|
    ensures ParseFrom(schema, packet, offset, 0)
         == Prepend(Blob(Slice(packet, offset, to)), ParseFrom(schema[1..], packet, to, 0))
  {
    hide Decode, Slice;
    if !Plain(schema[0]) {
      SliceToEnd(packet, offset, to);
      PlainTotal(schema[1..]);
      if TotalSize(schema[1..]) == 0 {
        NothingLeft(schema[1..], packet, offset, to);
      }
    }
  }

  lemma BlobStep(schema: seq<Field>, bytes: seq<Byte>, rest: seq<Value>, r: seq<Byte>)
    requires schema != [] && schema[0].BlobField? && |rest| + 1 == |schema|
    ensures PayloadFrom(schema, [Blob(bytes)] + rest, r, 0) == PayloadFrom(schema[1..], rest, r + bytes, 0)
  {
    assert ([Blob(bytes)] + rest)[1..] == rest;
  }

  lemma PlainTakesNothing(schema: seq<Field>)
    requires AllPlain(schema)
    ensures !TakesAll(schema)
  {
  }

  lemma BitsPay(schema: seq<Field>, packet: seq<Byte>, offset: nat, b: nat) returns (values: seq<Value>)
    requires schema != [] && schema[0].BitsField? && b < 8 && WellFormed(schema, b)
    requires offset + (if b > 0 then 1 else 0) + Needed(schema, b) <= |packet|
    ensures ParseFrom(schema, packet, offset, b) == Some(values) && AllSuit(schema, values)
    ensures 0 <= End(schema, packet, offset, b) <= |packet|
    ensures PayloadFrom(schema, values, ReadSoFar(packet, offset, b), b)
         == Some(packet[..End(schema, packet, offset, b)])
    decreases |schema|, 0
  {
    hide Encode, Decode, Power, Extract, Place, Fits, Meet, TopMask, Slice, TakesAll, AllSuit, ParseFrom, PayloadFrom;
    TakesAllCons(schema);
    var s := schema[0].bits;
    var c := if b + s == 8 then 0 else b + s;
    var p := packet[offset];
    var v := Extract(p, b, s);
    ExtractFits(p, b, s);
    FitsWider(v, s, b + s);
    var next := if b + s == 8 then offset + 1 else offset;
    var rest := ParsePays(schema[1..], packet, next, c);
    values := [BitGroup(v)] + rest;
    AllSuitCons(schema, values[0], rest);
    BitsStep(schema, packet, offset, b, v, rest, ReadSoFar(packet, offset, b));
    ReadMore(packet, offset, b, s);
  }

  /** Putting the next bits in place brings the packing level with the reading. */
  lemma ReadMore(packet: seq<Byte>, offset: nat, b: nat, s: nat)
    requires 0 < s && b < 8 && b + s <= 8 && offset < |packet|
    ensures
      var r := ReadSoFar(packet, offset, b);
      var v := Extract(packet[offset], b, s);
      (if b == 0 then r + [Place(0, v, 0, s)] else r[..|r| - 1] + [Place(r[|r| - 1], v, b, s)])
        == if b + s == 8 then ReadSoFar(packet, offset + 1, 0) else ReadSoFar(packet, offset, b + s)
  {
    hide Extract, Place, Fits, Meet, TopMask;
    var p := packet[offset];
    var r := ReadSoFar(packet, offset, b);
    MaskEnds();
    WholeByte(p);
    PlaceExtract(p, b, s);
    assert packet[..offset + 1] == packet[..offset] + [p];
    assert b > 0 ==> r[..|r| - 1] == packet[..offset] && r[|r| - 1] == Meet(p, TopMask(b));
  }

  lemma ExtractFits(p: Byte, b: nat, s: nat)
    requires b + s <= 8
    ensures Fits(Extract(p, b, s), s)
  {
    hide Right, LowMask, Meet;
    MeetTwice(Right(p, 8 - (b + s)), LowMask(s));
  }

  /** Packing what was unpacked from a long enough packet gives its bytes back. */
  lemma BytesRoundTrip(schema: seq<Field>, packet: seq<Byte>) returns (values: seq<Value>)
    requires WellFormed(schema, 0) && |packet| >= Needed(schema, 0)
    ensures Parse(schema, packet) == Some(values) && AllSuit(schema, values)
    ensures Payload(schema, values)
         == Some(if TakesAll(schema) then packet else packet[..Needed(schema, 0)])
  {
    hide WellFormed, AllSuit, PayloadFrom, ParseFrom, TakesAll;
    values := ParsePays(schema, packet, 0, 0);
    assert ReadSoFar(packet, 0, 0) == [];
    assert packet[..|packet|] == packet;
  }

  // ---------- From descriptions to schemas ----------

  /** Descriptions as the library's own packets use them: at most one unsized blob, and no bits after it. */
  predicate Described(desc: seq<Field>, b: nat)
    decreases |desc|
  {
    if desc == [] then b == 0
    else
      match desc[0]
      case BitsField(s) => s > 0 && b + s <= 8 && Described(desc[1..], if b + s == 8 then 0 else b + s)
      case IntField(_) => b == 0 && Described(desc[1..], 0)
      case BlobField(Sized(n)) => b == 0 && n > 0 && Described(desc[1..], 0)
      case BlobField(Unsized) => b == 0 && AllPlain(desc[1..])
  }

  lemma {:induction false} PlainIsWellFormed(schema: seq<Field>)
    requires AllPlain(schema)
    ensures WellFormed(schema, 0)
    decreases |schema|
  {
    if schema != [] {
      assert Plain(schema[0]);
      PlainIsWellFormed(schema[1..]);
    }
  }

  lemma {:induction false} LastUnsizedAfter(first: Field, rest: seq<Field>)
    ensures LastUnsized([first] + rest)
         == if LastUnsized(rest) >= 0 then LastUnsized(rest) + 1 else if IsUnsized(first) then 0 else -1
    decreases |rest|
  {
    var desc := [first] + rest;
    var i := LastUnsized(rest);
    if i >= 0 {
      assert desc[i + 1] == rest[i];
      forall j | i + 1 < j < |desc| ensures !IsUnsized(desc[j]) {
        assert desc[j] == rest[j - 1];
      }
      LastIs(desc, i + 1);
    } else {
      forall j | 0 < j < |desc| ensures !IsUnsized(desc[j]) {
        assert desc[j] == rest[j - 1];
      }
      if IsUnsized(first) {
        LastIs(desc, 0);
      } else {
        assert !IsUnsized(desc[0]);
        assert forall j | 0 <= j < |desc| :: !IsUnsized(desc[j]);
      }
    }
  }

  /** Resolving sizes makes every such description a schema that round-trips. */
  lemma {:induction false} ResolvedIsWellFormed(desc: seq<Field>, b: nat)
    requires Described(desc, b)
    ensures WellFormed(Resolve(desc), b)
    decreases |desc|
  {
    hide LastUnsized;
    if desc == [] {
      assert Resolve(desc) == [];
    } else {
      var rest := desc[1..];
      assert desc == [desc[0]] + rest;
      LastUnsizedAfter(desc[0], rest);
      if IsUnsized(desc[0]) {
        PlainHasNoUnsized(rest);
        PlainIsWellFormed(rest);
        PlainTotal(rest);
        var schema := Resolve(desc);
        assert schema[1..] == rest;
      } else {
        var end := if desc[0].BitsField? then b + desc[0].bits else 0;
        ResolvedIsWellFormed(rest, if end == 8 then 0 else end);
        ResolveAfter(desc, rest);
        assert Resolve(desc)[1..] == Resolve(rest);
      }
    }
  }

  lemma PlainHasNoUnsized(schema: seq<Field>)
    requires AllPlain(schema)
    ensures LastUnsized(schema) == -1
  {
    assert forall j | 0 <= j < |schema| :: Plain(schema[j]) && !IsUnsized(schema[j]);
  }

  lemma ResolveAfter(desc: seq<Field>, rest: seq<Field>)
    requires desc != [] && rest == desc[1..] && !IsUnsized(desc[0])
    ensures Resolve(desc) == [desc[0]] + Resolve(rest)
  {
    hide LastUnsized;
    assert desc == [desc[0]] + rest;
    LastUnsizedAfter(desc[0], rest);
    var i := LastUnsized(rest);
    if i >= 0 {
      assert desc[i + 2..] == rest[i + 1..];
    }
  }

  /** A packet that is long enough, or values that suit, survive the round trip of any such description. */
  lemma DescribedRoundTrips(desc: seq<Field>, packet: seq<Byte>, values: seq<Value>)
    requires Described(desc, 0)
    ensures
      var schema := Resolve(desc);
      && (|packet| >= Needed(schema, 0) ==>
            && Parse(schema, packet).Some?
            && AllSuit(schema, Parse(schema, packet).value)
            && Payload(schema, Parse(schema, packet).value)
                 == Some(if TakesAll(schema) then packet else packet[..Needed(schema, 0)]))
      && (AllSuit(schema, values) ==>
            && Payload(schema, values).Some?
            && Parse(schema, Payload(schema, values).value) == Some(values))
  {
    hide Described, WellFormed, AllSuit, TakesAll, Parse, Payload, Resolve;
    ResolvedIsWellFormed(desc, 0);
    var schema := Resolve(desc);
    if |packet| >= Needed(schema, 0) {
      var vs := BytesRoundTrip(schema, packet);
    }
    if AllSuit(schema, values) {
      var p := ValuesRoundTrip(schema, values);
    }
  }

  // ---------- Which descriptions round-trip ----------

  /** The bit offset after a group of bits. */
  function NextBit(b: nat, s: nat): nat {
    if b + s == 8 then 0 else b + s
  }

  /** Fields of fixed sizes, none of them empty blobs, whose bit groups fill whole bytes. */
  predicate Fixed(schema: seq<Field>, b: nat)
    decreases |schema|
  {
    if schema == [] then b == 0
    else if schema[0].BitsField? then
      schema[0].bits > 0 && b + schema[0].bits <= 8 && Fixed(schema[1..], NextBit(b, schema[0].bits))
    else b == 0 && Plain(schema[0]) && Fixed(schema[1..], 0)
  }

  /** Fixed fields, with at most one unsized blob anywhere among them. */
  predicate Shaped(desc: seq<Field>, b: nat)
    decreases |desc|
  {
    if desc == [] then b == 0
    else if desc[0].BitsField? then
      desc[0].bits > 0 && b + desc[0].bits <= 8 && Shaped(desc[1..], NextBit(b, desc[0].bits))
    else if IsUnsized(desc[0]) then b == 0 && Fixed(desc[1..], 0)
    else b == 0 && Plain(desc[0]) && Shaped(desc[1..], 0)
  }

  predicate HasBits(schema: seq<Field>) {
    exists i :: 0 <= i < |schema| && schema[i].BitsField?
  }

  predicate BitsAfterUnsized(desc: seq<Field>) {
    exists i, j :: 0 <= i < j < |desc| && IsUnsized(desc[i]) && desc[j].BitsField?
  }

  predicate RoundTrips(schema: seq<Field>, values: seq<Value>) {
    |schema| == |values| && Payload(schema, values).Some?
    && Parse(schema, Payload(schema, values).value) == Some(values)
  }

  lemma {:induction false} FixedIsWellFormed(schema: seq<Field>, b: nat)
    requires Fixed(schema, b)
    ensures WellFormed(schema, b)
    ensures forall i | 0 <= i < |schema| :: !IsUnsized(schema[i])
    decreases |schema|
  {
    if schema != [] {
      FixedIsWellFormed(schema[1..], if schema[0].BitsField? then NextBit(b, schema[0].bits) else 0);
      assert forall i | 1 <= i < |schema| :: schema[i] == schema[1..][i - 1];
    }
  }

  lemma HasBitsCons(schema: seq<Field>)
    requires schema != []
    ensures HasBits(schema) <==> schema[0].BitsField? || HasBits(schema[1..])
  {
    if HasBits(schema[1..]) {
      var i :| 0 <= i < |schema[1..]| && schema[1..][i].BitsField?;
      assert schema[i + 1].BitsField?;
    }
    if HasBits(schema) {
      var i :| 0 <= i < |schema| && schema[i].BitsField?;
      assert i == 0 || schema[1..][i - 1].BitsField?;
    }
  }

  /** Sizes count bits like bytes: each byte of bits counts for seven more than it takes. */
  lemma {:induction false} BitsCountMore(schema: seq<Field>, b: nat)
    requires Fixed(schema, b)
    ensures TotalSize(schema) >= Needed(schema, b) + if b > 0 then 8 - b else if HasBits(schema) then 7 else 0
    decreases |schema|
  {
    hide HasBits;
    if schema == [] {
      NoneHasBits();
    } else {
      HasBitsCons(schema);
      BitsCountMore(schema[1..], if schema[0].BitsField? then NextBit(b, schema[0].bits) else 0);
    }
  }

  lemma NoneHasBits()
    ensures !HasBits([])
  {
  }

  /** Packing fixed fields adds exactly the bytes they need. */
  lemma {:induction false} PayloadGrows(schema: seq<Field>, values: seq<Value>, r: seq<Byte>, b: nat)
    requires Fixed(schema, b) && AllSuit(schema, values) && (b > 0 ==> r != [])
    ensures PayloadFrom(schema, values, r, b).Some?
      ==> |PayloadFrom(schema, values, r, b).value| == |r| + Needed(schema, b)
    decreases |schema|
  {
    hide Encode, Power, Place, Fits;
    if schema != [] {
      Tail(schema, values);
      match (schema[0], values[0])
      case (IntField(s), Number(n)) => PayloadGrows(schema[1..], values[1..], r + Encode(n, s), 0);
      case (BitsField(s), BitGroup(v)) =>
        if Fits(v, b + s) {
          var next := if b == 0 then r + [Place(0, v, 0, s)] else r[..|r| - 1] + [Place(r[|r| - 1], v, b, s)];
          PayloadGrows(schema[1..], values[1..], next, NextBit(b, s));
        }
      case (BlobField(_), Blob(bytes)) => PayloadGrows(schema[1..], values[1..], r + bytes, 0);
    }
  }

  /**
    Fixed fields around one blob whose end is found wrongly: a blob of size zero before
    fields that need bytes, or one with more counted after it than the fields there need.
    */
  predicate Misplaced(schema: seq<Field>, b: nat)
    decreases |schema|
  {
    if schema == [] then false
    else if schema[0].BitsField? then
      schema[0].bits > 0 && b + schema[0].bits <= 8 && Misplaced(schema[1..], NextBit(b, schema[0].bits))
    else if schema[0].IntField? || Plain(schema[0]) then b == 0 && Misplaced(schema[1..], 0)
    else b == 0 && Fixed(schema[1..], 0) && schema[0].room.Sized?
         && if schema[0].room.n == 0 then Needed(schema[1..], 0) > 0 else -schema[0].room.n > Needed(schema[1..], 0)
  }

  /** Every blob counted from the packet's end holds something. */
  predicate HoldsBytes(schema: seq<Field>, values: seq<Value>)
    requires AllSuit(schema, values)
  {
    forall i | 0 <= i < |schema| && schema[i].BlobField? && schema[i].room.Sized? && schema[i].room.n < 0 ::
      values[i].bytes != []
  }

  lemma HoldsTail(schema: seq<Field>, values: seq<Value>)
    requires AllSuit(schema, values) && schema != [] && HoldsBytes(schema, values)
    ensures AllSuit(schema[1..], values[1..]) && HoldsBytes(schema[1..], values[1..])
  {
    assert forall i | 0 <= i < |schema[1..]| :: schema[1..][i] == schema[i + 1] && values[1..][i] == values[i + 1];
  }

  lemma MisplacedLength(packet: seq<Byte>, from: nat, length: nat, need: nat, n: int)
    requires |packet| == from + length + need
    ensures need > 0 ==> |Slice(packet, from, |packet|)| != length
    ensures n < 0 && -n > need && length > 0 ==> |Slice(packet, from, n)| != length
  {
  }

  lemma MisplacedHead(schema: seq<Field>)
    requires Misplaced(schema, 0) && schema[0].BlobField? && !Plain(schema[0])
    ensures schema[0].room.Sized? && Fixed(schema[1..], 0)
    ensures
      var n, need := schema[0].room.n, Needed(schema[1..], 0);
      n <= 0 && if n == 0 then need > 0 else -n > need
  {
    hide Fixed, Needed;
  }

  lemma BlobUnfolds(schema: seq<Field>, values: seq<Value>, r: seq<Byte>, packet: seq<Byte>)
    requires schema != [] && schema[0].BlobField? && schema[0].room.Sized? && schema[0].room.n <= 0
    requires AllSuit(schema, values)
    ensures PayloadFrom(schema, values, r, 0) == PayloadFrom(schema[1..], values[1..], r + values[0].bytes, 0)
    ensures
      var n := schema[0].room.n;
      ParseFrom(schema, packet, |r|, 0)
        == Prepend(Blob(Slice(packet, |r|, if n == 0 then |packet| else n)),
                   ParseFrom(schema[1..], packet, if n == 0 then |r| else |packet| + n, 0))
  {
    hide Slice, Encode, Decode, Place, Extract, Fits, Power;
  }

  lemma HoldsHead(schema: seq<Field>, values: seq<Value>)
    requires AllSuit(schema, values) && HoldsBytes(schema, values)
    requires schema != [] && schema[0].BlobField? && schema[0].room.Sized?
    ensures values[0].Blob? && (schema[0].room.n < 0 ==> values[0].bytes != [])
  {
  }

  /** The misplaced blob comes back with another length than it had. */
  lemma Misread(schema: seq<Field>, values: seq<Value>, r: seq<Byte>, packet: seq<Byte>)
    requires Misplaced(schema, 0) && AllSuit(schema, values) && HoldsBytes(schema, values)
    requires schema[0].BlobField? && !Plain(schema[0])
    requires PayloadFrom(schema, values, r, 0) == Some(packet)
    ensures ParseFrom(schema, packet, |r|, 0) != Some(values)
  {
    MisplacedNonempty(schema, values);
    hide *;
    MisplacedHead(schema);
    HoldsHead(schema, values);
    Tail(schema, values);
    BlobUnfolds(schema, values, r, packet);
    var bytes, n := values[0].bytes, schema[0].room.n;
    PayloadGrows(schema[1..], values[1..], r + bytes, 0);
    MisplacedLength(packet, |r|, |bytes|, Needed(schema[1..], 0), n);
    var read := Slice(packet, |r|, if n == 0 then |packet| else n);
    FirstDiffers(Blob(read), ParseFrom(schema[1..], packet, if n == 0 then |r| else |packet| + n, 0), values);
  }

  lemma MisplacedNonempty(schema: seq<Field>, values: seq<Value>)
    requires Misplaced(schema, 0) && AllSuit(schema, values)
    ensures schema != [] && values != []
  {
    hide Needed, Fixed;
  }

  lemma FirstDiffers(v: Value, rest: Option<seq<Value>>, values: seq<Value>)
    requires values != [] && v != values[0]
    ensures Prepend(v, rest) != Some(values)
  {
  }

  lemma {:induction false} MisplacedFails(schema: seq<Field>, values: seq<Value>, r: seq<Byte>, b: nat,
                                          packet: seq<Byte>)
    requires Misplaced(schema, b) && AllSuit(schema, values) && HoldsBytes(schema, values) && (b > 0 ==> r != [])
    requires PayloadFrom(schema, values, r, b) == Some(packet)
    ensures ParseFrom(schema, packet, Offset(r, b), b) != Some(values)
    decreases |schema|
  {
    hide Encode, Decode, Power, Place, Extract, Fits, Slice, HoldsBytes, Needed, Fixed, PayloadFrom, ParseFrom;
    Tail(schema, values);
    match schema[0]
    case IntField(s) => MisplacedAfterInt(schema, values, r, b, packet);
    case BitsField(s) => MisplacedAfterBits(schema, values, r, b, packet);
    case BlobField(_) =>
      if Plain(schema[0]) {
        MisplacedAfterBlob(schema, values, r, b, packet);
      } else {
        Misread(schema, values, r, packet);
      }
  }

  lemma MisplacedTail(schema: seq<Field>, b: nat)
    requires Misplaced(schema, b) && !(schema[0].BlobField? && !Plain(schema[0]))
    ensures schema != []
    ensures if schema[0].BitsField? then b + schema[0].bits <= 8 && schema[0].bits > 0 else b == 0
    ensures Misplaced(schema[1..], if schema[0].BitsField? then NextBit(b, schema[0].bits) else 0)
  {
    hide Fixed, Needed;
  }

  lemma IntUnfolds(schema: seq<Field>, values: seq<Value>, r: seq<Byte>, packet: seq<Byte>)
    requires schema != [] && schema[0].IntField? && |schema| == |values| && values[0].Number?
    ensures PayloadFrom(schema, values, r, 0)
         == PayloadFrom(schema[1..], values[1..], r + Encode(values[0].n, schema[0].size), 0)
    ensures
      var to := |r| + schema[0].size;
      ParseFrom(schema, packet, |r|, 0)
        == Prepend(Number(Decode(Slice(packet, |r|, to))), ParseFrom(schema[1..], packet, to, 0))
  {
    hide Slice, Encode, Decode;
  }

  lemma FullBlobUnfolds(schema: seq<Field>, values: seq<Value>, r: seq<Byte>, packet: seq<Byte>)
    requires schema != [] && schema[0].BlobField? && Plain(schema[0]) && |schema| == |values| && values[0].Blob?
    ensures PayloadFrom(schema, values, r, 0) == PayloadFrom(schema[1..], values[1..], r + values[0].bytes, 0)
    ensures
      var to := |r| + schema[0].room.n;
      ParseFrom(schema, packet, |r|, 0)
        == Prepend(Blob(Slice(packet, |r|, to)), ParseFrom(schema[1..], packet, to, 0))
  {
    hide Slice, Encode, Decode;
  }

  lemma MisplacedAfterInt(schema: seq<Field>, values: seq<Value>, r: seq<Byte>, b: nat, packet: seq<Byte>)
    requires Misplaced(schema, b) && schema[0].IntField?
    requires AllSuit(schema, values) && HoldsBytes(schema, values)
    requires PayloadFrom(schema, values, r, b) == Some(packet)
    ensures ParseFrom(schema, packet, Offset(r, b), b) != Some(values)
    decreases |schema|, 0
  {
    hide Encode, Decode, Power, Slice, HoldsBytes, AllSuit, Misplaced, PayloadFrom, ParseFrom;
    MisplacedTail(schema, b);
    SuitedLength(schema, values);
    Tail(schema, values);
    HoldsTail(schema, values);
    IntUnfolds(schema, values, r, packet);
    var s := schema[0].size;
    MisplacedFails(schema[1..], values[1..], r + Encode(values[0].n, s), 0, packet);
    RestDiffers(Number(Decode(Slice(packet, |r|, |r| + s))), ParseFrom(schema[1..], packet, |r| + s, 0), values);
  }

  lemma MisplacedAfterBlob(schema: seq<Field>, values: seq<Value>, r: seq<Byte>, b: nat, packet: seq<Byte>)
    requires Misplaced(schema, b) && schema[0].BlobField? && Plain(schema[0])
    requires AllSuit(schema, values) && HoldsBytes(schema, values)
    requires PayloadFrom(schema, values, r, b) == Some(packet)
    ensures ParseFrom(schema, packet, Offset(r, b), b) != Some(values)
    decreases |schema|, 0
  {
    hide Encode, Decode, Power, Slice, HoldsBytes, AllSuit, Misplaced, PayloadFrom, ParseFrom;
    MisplacedTail(schema, b);
    SuitedLength(schema, values);
    Tail(schema, values);
    HoldsTail(schema, values);
    FullBlobUnfolds(schema, values, r, packet);
    var n := schema[0].room.n;
    MisplacedFails(schema[1..], values[1..], r + values[0].bytes, 0, packet);
    RestDiffers(Blob(Slice(packet, |r|, |r| + n)), ParseFrom(schema[1..], packet, |r| + n, 0), values);
  }

  /** What packing has after a group of bits. */
  function WithBits(r: seq<Byte>, b: nat, v: Byte, s: nat): seq<Byte>
    requires b + s <= 8 && (b > 0 ==> r != [])
  {
    if b == 0 then r + [Place(0, v, 0, s)] else r[..|r| - 1] + [Place(r[|r| - 1], v, b, s)]
  }

  lemma BitsPack(schema: seq<Field>, values: seq<Value>, r: seq<Byte>, b: nat)
    requires schema != [] && schema[0].BitsField? && |schema| == |values| && values[0].BitGroup?
    requires b + schema[0].bits <= 8 && (b > 0 ==> r != [])
    ensures
      var s, v := schema[0].bits, values[0].v;
      PayloadFrom(schema, values, r, b)
        == if Fits(v, b + s) then PayloadFrom(schema[1..], values[1..], WithBits(r, b, v, s), NextBit(b, s)) else None
  {
    hide Place, Fits;
  }

  lemma BitsUnpack(schema: seq<Field>, packet: seq<Byte>, offset: int, b: nat) returns (v: Value)
    requires schema != [] && schema[0].BitsField? && b + schema[0].bits <= 8
    ensures ParseFrom(schema, packet, offset, b).Some? ==>
      ParseFrom(schema, packet, offset, b)
        == Prepend(v, ParseFrom(schema[1..], packet, offset + (if b + schema[0].bits == 8 then 1 else 0),
                                NextBit(b, schema[0].bits)))
  {
    hide Extract, At, Slice, Decode;
    v := if HasIndex(packet, offset) then BitGroup(Extract(At(packet, offset), b, schema[0].bits)) else Number(0);
  }

  lemma OffsetAfterBits(r: seq<Byte>, b: nat, v: Byte, s: nat)
    requires 0 < s && b + s <= 8 && (b > 0 ==> r != [])
    ensures WithBits(r, b, v, s) != []
    ensures Offset(WithBits(r, b, v, s), NextBit(b, s)) == Offset(r, b) + if b + s == 8 then 1 else 0
  {
    hide Place;
  }

  lemma MisplacedAfterBits(schema: seq<Field>, values: seq<Value>, r: seq<Byte>, b: nat, packet: seq<Byte>)
    requires Misplaced(schema, b) && schema[0].BitsField? && (b > 0 ==> r != [])
    requires AllSuit(schema, values) && HoldsBytes(schema, values)
    requires PayloadFrom(schema, values, r, b) == Some(packet)
    ensures ParseFrom(schema, packet, Offset(r, b), b) != Some(values)
    decreases |schema|, 0
  {
    hide Fits, HoldsBytes, AllSuit, Misplaced, PayloadFrom, ParseFrom, Offset, Prepend, WithBits, NextBit;
    MisplacedTail(schema, b);
    SuitedLength(schema, values);
    Tail(schema, values);
    HoldsTail(schema, values);
    var s, v := schema[0].bits, values[0].v;
    BitsPack(schema, values, r, b);
    OffsetAfterBits(r, b, v, s);
    MisplacedFails(schema[1..], values[1..], WithBits(r, b, v, s), NextBit(b, s), packet);
    var first := BitsUnpack(schema, packet, Offset(r, b), b);
    RestDiffers(first, ParseFrom(schema[1..], packet, Offset(r, b) + (if b + s == 8 then 1 else 0), NextBit(b, s)),
                values);
  }

  lemma RestDiffers(v: Value, rest: Option<seq<Value>>, values: seq<Value>)
    requires values != [] && rest != Some(values[1..])
    ensures Prepend(v, rest) != Some(values)
  {
    if rest.Some? {
      assert ([v] + rest.value)[1..] == rest.value;
    }
  }

  /** With bits after the unsized blob, its end is counted from too far before the packet's end. */
  lemma {:induction false} ResolvedIsMisplaced(desc: seq<Field>, b: nat)
    requires Shaped(desc, b) && BitsAfterUnsized(desc)
    ensures Misplaced(Resolve(desc), b)
    decreases |desc|
  {
    hide LastUnsized, HasBits, TotalSize, Needed, BitsAfterUnsized;
    NoneAfterUnsized();
    BitsAfterCons(desc);
    var rest := desc[1..];
    if IsUnsized(desc[0]) {
      BitsCountMore(rest, 0);
      FixedIsWellFormed(rest, 0);
      LastIs(desc, 0);
      var schema := Resolve(desc);
      assert schema[1..] == rest;
    } else {
      ResolvedIsMisplaced(rest, if desc[0].BitsField? then NextBit(b, desc[0].bits) else 0);
      ResolveAfter(desc, rest);
      assert Resolve(desc)[1..] == Resolve(rest);
    }
  }

  lemma BitsAfterCons(desc: seq<Field>)
    requires desc != []
    ensures BitsAfterUnsized(desc)
       <==> if IsUnsized(desc[0]) then HasBits(desc[1..]) else BitsAfterUnsized(desc[1..])
  {
    assert forall i | 1 <= i < |desc| :: desc[i] == desc[1..][i - 1];
    if IsUnsized(desc[0]) && HasBits(desc[1..]) {
      var j :| 0 <= j < |desc[1..]| && desc[1..][j].BitsField?;
      assert desc[j + 1].BitsField?;
    }
    if BitsAfterUnsized(desc[1..]) {
      var i, j :| 0 <= i < j < |desc[1..]| && IsUnsized(desc[1..][i]) && desc[1..][j].BitsField?;
      assert IsUnsized(desc[i + 1]) && desc[j + 1].BitsField?;
    }
    if BitsAfterUnsized(desc) {
      var i, j :| 0 <= i < j < |desc| && IsUnsized(desc[i]) && desc[j].BitsField?;
      assert desc[1..][j - 1].BitsField?;
      assert i == 0 || IsUnsized(desc[1..][i - 1]);
    }
  }

  lemma NoneAfterUnsized()
    ensures !BitsAfterUnsized([])
  {
  }

  /** With bits after the unsized blob, no values round-trip unless that blob is empty. */
  lemma BitsAfterUnsizedFail(desc: seq<Field>, values: seq<Value>)
    requires Shaped(desc, 0) && BitsAfterUnsized(desc)
    requires AllSuit(Resolve(desc), values) && HoldsBytes(Resolve(desc), values)
    ensures !RoundTrips(Resolve(desc), values)
  {
    hide *;
    ResolvedIsMisplaced(desc, 0);
    MisplacedNeverTrips(Resolve(desc), values);
  }

  /** Some value that suits a field; a byte for a blob of no fixed size. */
  function Filler(f: Field): (v: Value)
    ensures Suits(f, v) && (v.Blob? ==> v.bytes != [])
  {
    match f
    case IntField(s) => Number(0)
    case BitsField(s) => assert Fits(0, s) by { NothingFits(s); } BitGroup(0)
    case BlobField(Sized(n)) => if n > 0 then Blob(seq(n, i => 0)) else Blob([0])
    case BlobField(Unsized) => Blob([0])
  }

  lemma NothingFits(s: nat)
    ensures Fits(0, s)
  {
    MeetZero(LowMask(s));
    MeetSwaps(0, LowMask(s));
  }

  lemma MeetSwaps(x: Byte, y: Byte)
    ensures Meet(x, y) == Meet(y, x)
  {
  }

  function Fillers(schema: seq<Field>): (values: seq<Value>)
    ensures AllSuit(schema, values) && HoldsBytes(schema, values)
  {
    seq(|schema|, i requires 0 <= i < |schema| => Filler(schema[i]))
  }

  lemma {:induction false} ShapedIsDescribed(desc: seq<Field>, b: nat)
    requires Shaped(desc, b) && !BitsAfterUnsized(desc)
    ensures Described(desc, b)
    decreases |desc|
  {
    if desc != [] {
      BitsAfterCons(desc);
      if IsUnsized(desc[0]) {
        FixedWithoutBits(desc[1..]);
      } else {
        ShapedIsDescribed(desc[1..], if desc[0].BitsField? then NextBit(b, desc[0].bits) else 0);
      }
    }
  }

  lemma {:induction false} FixedWithoutBits(schema: seq<Field>)
    requires Fixed(schema, 0) && !HasBits(schema)
    ensures AllPlain(schema)
    decreases |schema|
  {
    hide HasBits;
    if schema != [] {
      HasBitsCons(schema);
      FixedWithoutBits(schema[1..]);
      assert forall i | 1 <= i < |schema| :: schema[i] == schema[1..][i - 1];
    }
  }

  /**
    Descriptions whose bit groups fill bytes, whose blobs are not of size zero and of which
    at most one is unsized: all suited values round-trip exactly if no bits follow that blob.
    */
  lemma RoundTripsIff(desc: seq<Field>)
    requires Shaped(desc, 0)
    ensures (forall values | AllSuit(Resolve(desc), values) :: RoundTrips(Resolve(desc), values))
       <==> !BitsAfterUnsized(desc)
  {
    hide Shaped, BitsAfterUnsized, Resolve, AllSuit, HoldsBytes, PayloadFrom, ParseFrom, WellFormed, Fillers;
    var schema := Resolve(desc);
    if BitsAfterUnsized(desc) {
      BitsAfterUnsizedFail(desc, Fillers(schema));
    } else {
      ShapedIsDescribed(desc, 0);
      ResolvedIsWellFormed(desc, 0);
      forall values | AllSuit(schema, values) ensures RoundTrips(schema, values) {
        SuitedLength(schema, values);
        var packet := ValuesRoundTrip(schema, values);
      }
    }
  }

  lemma SuitedLength(schema: seq<Field>, values: seq<Value>)
    requires AllSuit(schema, values)
    ensures |schema| == |values|
  {
  }

  // ---------- Bytes when bits follow the unsized blob ----------

  predicate NoEmptyBlobs(schema: seq<Field>) {
    forall i | 0 <= i < |schema| :: schema[i] != BlobField(Sized(0))
  }

  /** By how many bytes the blob that is counted from the packet's end misses its own. */
  function Excess(schema: seq<Field>): int
    decreases |schema|
  {
    if schema == [] then 0
    else if schema[0].BlobField? && !Plain(schema[0]) && schema[0].room.Sized? then
      -schema[0].room.n - Needed(schema[1..], 0)
    else Excess(schema[1..])
  }

  /** The bytes that unpacking needs for the blob not to end before it starts. */
  function Room(schema: seq<Field>, b: nat): nat
    decreases |schema|
  {
    if schema == [] then 0
    else if schema[0].BitsField? then
      (if b == 0 then 1 else 0) + Room(schema[1..], NextBit(b, schema[0].bits))
    else if schema[0].BlobField? && !Plain(schema[0]) then
      if schema[0].room.Sized? && schema[0].room.n < 0 then -schema[0].room.n else 0
    else (if schema[0].IntField? then schema[0].size else schema[0].room.n) + Room(schema[1..], 0)
  }

  /** What is left of a packet when the blob ends too early: its last bytes are not packed again. */
  lemma {:induction false} MisplacedPays(schema: seq<Field>, packet: seq<Byte>, offset: nat, b: nat)
    returns (values: seq<Value>)
    requires b < 8 && Misplaced(schema, b) && NoEmptyBlobs(schema)
    requires offset + (if b > 0 then 1 else 0) + Room(schema, b) <= |packet|
    ensures ParseFrom(schema, packet, offset, b) == Some(values) && |values| == |schema|
    ensures 0 < Excess(schema) <= |packet|
    ensures PayloadFrom(schema, values, ReadSoFar(packet, offset, b), b) == Some(packet[..|packet| - Excess(schema)])
    decreases |schema|
  {
    hide Encode, Decode, Power, Extract, Place, Fits, Meet, TopMask, Slice, ParseFrom, PayloadFrom, AllSuit, ReadSoFar;
    NoEmptyTail(schema);
    match schema[0]
    case IntField(s) =>
      MisplacedTail(schema, b);
      var cut := Slice(packet, offset, offset + s);
      CutOut(packet, offset, offset + s);
      EncodeDecode(cut);
      var rest := MisplacedPays(schema[1..], packet, offset + s, 0);
      values := [Number(Decode(cut))] + rest;
      IntStep(schema, packet, offset, Decode(cut), rest, ReadSoFar(packet, offset, 0));
      ReadCut(packet, offset, offset + s);
    case BitsField(s) =>
      MisplacedTail(schema, b);
      var v, next := Extract(packet[offset], b, s), if b + s == 8 then offset + 1 else offset;
      ExtractFits(packet[offset], b, s);
      FitsWider(v, s, b + s);
      var rest := MisplacedPays(schema[1..], packet, next, NextBit(b, s));
      values := [BitGroup(v)] + rest;
      ReadBegun(packet, offset, b);
      BitsStep(schema, packet, offset, b, v, rest, ReadSoFar(packet, offset, b));
      ReadMore(packet, offset, b, s);
    case BlobField(_) =>
      if Plain(schema[0]) {
        MisplacedTail(schema, b);
        var to := offset + schema[0].room.n;
        var rest := MisplacedPays(schema[1..], packet, to, 0);
        BlobReads(schema, packet, offset, to);
        values := CutBlob(schema, packet, offset, to, rest);
      } else {
        MisplacedHead(schema);
        FixedIsWellFormed(schema[1..], 0);
        FixedTakesNothing(schema[1..]);
        var to := |packet| + schema[0].room.n;
        var rest := ParsePays(schema[1..], packet, to, 0);
        SuitedLength(schema[1..], rest);
        BlobReadsTo(schema, packet, offset);
        values := CutBlob(schema, packet, offset, to, rest);
      }
  }

  lemma NoEmptyTail(schema: seq<Field>)
    requires NoEmptyBlobs(schema) && schema != []
    ensures NoEmptyBlobs(schema[1..]) && schema[0] != BlobField(Sized(0))
  {
  }

  lemma ReadCut(packet: seq<Byte>, from: nat, to: nat)
    requires from <= to <= |packet|
    ensures ReadSoFar(packet, from, 0) + Slice(packet, from, to) == ReadSoFar(packet, to, 0)
  {
    hide Slice;
    CutOut(packet, from, to);
  }

  lemma ReadBegun(packet: seq<Byte>, offset: nat, b: nat)
    requires b < 8 && offset + (if b > 0 then 1 else 0) <= |packet|
    ensures b > 0 ==> ReadSoFar(packet, offset, b) != []
  {
  }

  lemma CutBlob(schema: seq<Field>, packet: seq<Byte>, offset: nat, to: nat, rest: seq<Value>)
    returns (values: seq<Value>)
    requires schema != [] && schema[0].BlobField? && |rest| + 1 == |schema| && offset <= to <= |packet|
    ensures values == [Blob(Slice(packet, offset, to))] + rest
    ensures PayloadFrom(schema, values, ReadSoFar(packet, offset, 0), 0)
         == PayloadFrom(schema[1..], rest, ReadSoFar(packet, to, 0), 0)
  {
    hide *;
    values := [Blob(Slice(packet, offset, to))] + rest;
    BlobStep(schema, Slice(packet, offset, to), rest, ReadSoFar(packet, offset, 0));
    ReadCut(packet, offset, to);
  }

  lemma FixedTakesNothing(schema: seq<Field>)
    requires Fixed(schema, 0)
    ensures !TakesAll(schema)
  {
    FixedHasNoRest(schema, 0);
  }

  /** A blob whose end is counted from the packet's end, and found after its start. */
  lemma BlobReadsTo(schema: seq<Field>, packet: seq<Byte>, offset: nat)
    requires schema != [] && schema[0].BlobField? && schema[0].room.Sized? && schema[0].room.n < 0
    requires offset <= |packet| + schema[0].room.n
    ensures
      var to := |packet| + schema[0].room.n;
      ParseFrom(schema, packet, offset, 0)
        == Prepend(Blob(Slice(packet, offset, to)), ParseFrom(schema[1..], packet, to, 0))
  {
    hide Decode, Slice;
    SliceToEnd(packet, offset, |packet| + schema[0].room.n);
  }

  /** A packet is unpacked and packed again: all of it, or all that the fields take. */
  predicate Survives(schema: seq<Field>, packet: seq<Byte>)
    requires |packet| >= Needed(schema, 0)
  {
    var values := Parse(schema, packet);
    && values.Some? && |values.value| == |schema|
    && Payload(schema, values.value) == Some(if TakesAll(schema) then packet else packet[..Needed(schema, 0)])
  }

  /**
    With bits after the unsized blob, every packet long enough for the blob to end behind its
    start loses its last bytes: as many as the sizes after the blob add up to beyond the bytes
    there.
    */
  lemma BytesAfterUnsizedLost(desc: seq<Field>, packet: seq<Byte>) returns (values: seq<Value>)
    requires Shaped(desc, 0) && BitsAfterUnsized(desc) && |packet| >= Room(Resolve(desc), 0)
    ensures Parse(Resolve(desc), packet) == Some(values) && |values| == |desc|
    ensures 0 < Excess(Resolve(desc)) <= |packet|
    ensures Payload(Resolve(desc), values) == Some(packet[..|packet| - Excess(Resolve(desc))])
  {
    hide *;
    var schema := Resolve(desc);
    ResolvedIsMisplaced(desc, 0);
    ResolvedHoldsRoom(desc, 0);
    values := MisplacedPays(schema, packet, 0, 0);
    ParsesWhole(schema, packet);
    PacksFromNothing(schema, values, packet);
  }

  lemma ParsesWhole(schema: seq<Field>, packet: seq<Byte>)
    ensures Parse(schema, packet) == ParseFrom(schema, packet, 0, 0)
  {
    hide ParseFrom;
  }

  lemma PacksFromNothing(schema: seq<Field>, values: seq<Value>, packet: seq<Byte>)
    requires |schema| == |values|
    ensures Payload(schema, values) == PayloadFrom(schema, values, ReadSoFar(packet, 0, 0), 0)
  {
    hide PayloadFrom;
    assert ReadSoFar(packet, 0, 0) == [];
  }

  lemma {:induction false} ResolvedHoldsRoom(desc: seq<Field>, b: nat)
    requires Shaped(desc, b) && BitsAfterUnsized(desc)
    ensures NoEmptyBlobs(Resolve(desc)) && TakesAll(Resolve(desc)) && |Resolve(desc)| == |desc|
    ensures Room(Resolve(desc), b) >= Needed(Resolve(desc), b)
    decreases |desc|
  {
    hide LastUnsized, HasBits, BitsAfterUnsized, TakesAll;
    NoneAfterUnsized();
    BitsAfterCons(desc);
    var rest := desc[1..];
    var schema := Resolve(desc);
    if IsUnsized(desc[0]) {
      BitsCountMore(rest, 0);
      FixedIsWellFormed(rest, 0);
      FixedHasNoRest(rest, 0);
      LastIs(desc, 0);
      assert schema[1..] == rest;
    } else {
      ResolvedHoldsRoom(rest, if desc[0].BitsField? then NextBit(b, desc[0].bits) else 0);
      ResolveAfter(desc, rest);
      assert schema[1..] == Resolve(rest);
    }
    TakesAllCons(schema);
  }

  /**
    Descriptions whose bit groups fill bytes, whose blobs are not of size zero and of which
    at most one is unsized: all packets that are long enough survive exactly if no bits
    follow that blob.
    */
  lemma BytesSurviveIff(desc: seq<Field>)
    requires Shaped(desc, 0)
    ensures (forall packet | |packet| >= Needed(Resolve(desc), 0) :: Survives(Resolve(desc), packet))
       <==> !BitsAfterUnsized(desc)
  {
    hide Shaped, BitsAfterUnsized, Resolve, AllSuit, PayloadFrom, ParseFrom, WellFormed, Room, Excess, Needed, TakesAll;
    var schema := Resolve(desc);
    if BitsAfterUnsized(desc) {
      ResolvedHoldsRoom(desc, 0);
      var packet := seq(Room(schema, 0), i => 0);
      var values := BytesAfterUnsizedLost(desc, packet);
      assert !Survives(schema, packet);
    } else {
      ShapedIsDescribed(desc, 0);
      ResolvedIsWellFormed(desc, 0);
      forall packet | |packet| >= Needed(schema, 0) ensures Survives(schema, packet) {
        var values := BytesRoundTrip(schema, packet);
        SuitedLength(schema, values);
      }
    }
  }

  // ---------- Blobs of size zero ----------

  /** A blob of size zero among fixed fields. */
  function ZeroSized(before: seq<Field>, after: seq<Field>): (schema: seq<Field>)
    ensures |schema| == |before| + 1 + |after|
  {
    before + [BlobField(Sized(0))] + after
  }

  lemma {:induction false} ZeroIsMisplaced(before: seq<Field>, after: seq<Field>, b: nat)
    requires Fixed(before, b) && Fixed(after, 0) && Needed(after, 0) > 0
    ensures Misplaced(ZeroSized(before, after), b)
    decreases |before|
  {
    var schema := ZeroSized(before, after);
    if before == [] {
      assert schema[1..] == after;
    } else {
      assert schema[0] == before[0] && schema[1..] == ZeroSized(before[1..], after);
      ZeroIsMisplaced(before[1..], after, if before[0].BitsField? then NextBit(b, before[0].bits) else 0);
    }
  }

  lemma {:induction false} FixedHasNoRest(schema: seq<Field>, b: nat)
    requires Fixed(schema, b)
    ensures forall i | 0 <= i < |schema| && schema[i].BlobField? :: schema[i].room.Sized? && schema[i].room.n > 0
    decreases |schema|
  {
    if schema != [] {
      FixedHasNoRest(schema[1..], if schema[0].BitsField? then NextBit(b, schema[0].bits) else 0);
      assert forall i | 1 <= i < |schema| :: schema[i] == schema[1..][i - 1];
    }
  }

  lemma ZeroHoldsBytes(before: seq<Field>, after: seq<Field>, values: seq<Value>)
    requires Fixed(before, 0) && Fixed(after, 0) && AllSuit(ZeroSized(before, after), values)
    ensures HoldsBytes(ZeroSized(before, after), values)
  {
    FixedHasNoRest(before, 0);
    FixedHasNoRest(after, 0);
  }

  /** If nothing after it needs bytes, a blob of size zero is read and packed as an unsized one. */
  lemma {:induction false} ZeroActsUnsized(before: seq<Field>, after: seq<Field>, values: seq<Value>,
                                           packet: seq<Byte>, r: seq<Byte>, offset: int, b: nat)
    requires |values| == |before| + 1 + |after|
    ensures
      var unsized := before + [BlobField(Unsized)] + after;
      && PayloadFrom(ZeroSized(before, after), values, r, b) == PayloadFrom(unsized, values, r, b)
      && ParseFrom(ZeroSized(before, after), packet, offset, b) == ParseFrom(unsized, packet, offset, b)
    decreases |before|
  {
    hide Encode, Decode, Place, Extract, Fits, Slice, Power;
    var schema, unsized := ZeroSized(before, after), before + [BlobField(Unsized)] + after;
    if before == [] {
      assert schema[1..] == after && unsized[1..] == after;
    } else {
      var rest := before[1..];
      assert schema[1..] == ZeroSized(rest, after) && unsized[1..] == rest + [BlobField(Unsized)] + after;
      assert schema[0] == before[0] == unsized[0];
      forall s: seq<Byte>, c: nat
        ensures PayloadFrom(schema[1..], values[1..], s, c) == PayloadFrom(unsized[1..], values[1..], s, c)
      {
        ZeroActsUnsized(rest, after, values[1..], packet, s, offset, c);
      }
      forall o: int, c: nat
        ensures ParseFrom(schema[1..], packet, o, c) == ParseFrom(unsized[1..], packet, o, c)
      {
        ZeroActsUnsized(rest, after, values[1..], packet, r, o, c);
      }
    }
  }

  lemma {:induction false} NothingNeeded(schema: seq<Field>)
    requires Fixed(schema, 0) && Needed(schema, 0) == 0
    ensures AllPlain(schema) && TotalSize(schema) == 0
    decreases |schema|
  {
    if schema != [] {
      NothingNeeded(schema[1..]);
      assert forall i | 1 <= i < |schema| :: schema[i] == schema[1..][i - 1];
    }
  }

  lemma {:induction false} UnsizedIsWellFormed(before: seq<Field>, after: seq<Field>, b: nat)
    requires Fixed(before, b) && AllPlain(after) && TotalSize(after) == 0
    ensures WellFormed(before + [BlobField(Unsized)] + after, b)
    decreases |before|
  {
    var schema := before + [BlobField(Unsized)] + after;
    if before == [] {
      assert schema[1..] == after;
      PlainIsWellFormed(after);
    } else {
      assert schema[1..] == before[1..] + [BlobField(Unsized)] + after;
      UnsizedIsWellFormed(before[1..], after, if before[0].BitsField? then NextBit(b, before[0].bits) else 0);
    }
  }

  lemma ZeroSuits(before: seq<Field>, after: seq<Field>, values: seq<Value>)
    requires AllSuit(ZeroSized(before, after), values)
    ensures AllSuit(before + [BlobField(Unsized)] + after, values)
  {
    var schema, unsized := ZeroSized(before, after), before + [BlobField(Unsized)] + after;
    forall i | 0 <= i < |unsized| ensures Suits(unsized[i], values[i]) {
      assert Suits(schema[i], values[i]);
      assert i != |before| ==> unsized[i] == schema[i];
    }
  }

  /** Whatever it holds, a blob of size zero round-trips exactly if the fields after it need no bytes. */
  lemma ZeroSizeBlobIff(before: seq<Field>, after: seq<Field>, values: seq<Value>)
    requires Fixed(before, 0) && Fixed(after, 0) && AllSuit(ZeroSized(before, after), values)
    ensures RoundTrips(ZeroSized(before, after), values) <==> Needed(after, 0) == 0
  {
    hide *;
    var schema, unsized := ZeroSized(before, after), before + [BlobField(Unsized)] + after;
    SuitedLength(schema, values);
    if Needed(after, 0) > 0 {
      ZeroIsMisplaced(before, after, 0);
      ZeroHoldsBytes(before, after, values);
      MisplacedNeverTrips(schema, values);
    } else {
      NothingNeeded(after);
      UnsizedIsWellFormed(before, after, 0);
      ZeroSuits(before, after, values);
      var packet := ValuesRoundTrip(unsized, values);
      ZeroActsUnsized(before, after, values, packet, [], 0, 0);
      TripsMeans(schema, values, packet);
      TripsMeans(unsized, values, packet);
    }
  }

  lemma MisplacedNeverTrips(schema: seq<Field>, values: seq<Value>)
    requires Misplaced(schema, 0) && AllSuit(schema, values) && HoldsBytes(schema, values)
    ensures !RoundTrips(schema, values)
  {
    hide Misplaced, AllSuit, HoldsBytes, PayloadFrom, ParseFrom;
    if RoundTrips(schema, values) {
      MisplacedFails(schema, values, [], 0, Payload(schema, values).value);
    }
  }

  lemma TripsMeans(schema: seq<Field>, values: seq<Value>, packet: seq<Byte>)
    requires |schema| == |values|
    ensures Payload(schema, values) == PayloadFrom(schema, values, [], 0)
    ensures Parse(schema, packet) == ParseFrom(schema, packet, 0, 0)
    ensures Payload(schema, values) == Some(packet)
      ==> (RoundTrips(schema, values) <==> Parse(schema, packet) == Some(values))
  {
    hide PayloadFrom, ParseFrom;
  }

  // ---------- The packet object ----------

  class Packet {
    var schema: seq<Field>
    var values: seq<Value>

    constructor (desc: seq<Field>)
      ensures schema == Resolve(desc) && values == []
    {
      schema, values := [], [];
      new;
      schema := ResolveSizes(desc);
    }

    /** Unpack a packet field by field; false stands for the exceptions Python raises. */
    method Unpack(packet: seq<Byte>) returns (ok: bool)
      modifies this`values
      ensures ok <==> Parse(schema, packet).Some?
      ensures ok ==> Parse(schema, packet) == Some(values)
    {
      hide Decode, Extract, Slice, ParseFrom, PrependAll, HasIndex, At;
      values := [];
      var offset, boffset := 0, 0;
      var k := 0;
      assert schema[0..] == schema;
      PrependNone(Parse(schema, packet));
      while k < |schema|
        invariant 0 <= k <= |schema| && 0 <= boffset <= 8
        invariant Parse(schema, packet) == PrependAll(values, ParseFrom(schema[k..], packet, offset, boffset))
        decreases |schema| - k
      {
        assert schema[k..][0] == schema[k] && schema[k..][1..] == schema[k + 1..];
        ghost var before, from, bits := values, offset, boffset;
        var v: Value;
        match schema[k] {
          case IntField(s) =>
            var n := DecodeBytes(Slice(packet, offset, offset + s));
            v := Number(n);
            offset := offset + s;
          case BitsField(s) =>
            if boffset + s > 8 || !HasIndex(packet, offset) {
              NotTaken(schema[k..], packet, offset, boffset);
              NothingToPrepend(values);
              return false;
            }
            v := BitGroup(Extract(At(packet, offset), boffset, s));
            boffset := boffset + s;
            if boffset == 8 {
              offset := offset + 1;
              boffset := 0;
            }
          case BlobField(Sized(n)) =>
            if n > 0 {
              v := Blob(Slice(packet, offset, offset + n));
              offset := offset + n;
            } else if n < 0 {
              v := Blob(Slice(packet, offset, n));
              offset := |packet| + n;
            } else {
              v := Blob(Slice(packet, offset, |packet|));
            }
          case BlobField(Unsized) =>
            v := Blob(Slice(packet, offset, |packet|));
        }
        values := values + [v];
        TakenIs(schema[k..], packet, from, bits, v, offset, boffset);
        PrependMore(before, v, ParseFrom(schema[k + 1..], packet, offset, boffset));
        k := k + 1;
      }
      ok := true;
      assert schema[k..] == [];
      TakenAll(values, packet, offset, boffset);
    }

    /** Pack the values; None stands for the exceptions Python raises, and for bits that do not fit. */
    method Pack() returns (r: Option<seq<Byte>>)
      ensures r == PackAll(schema, values)
    {
      hide Encode, Place, Fits;
      var bytes: seq<Byte> := [];
      var boffset := 0;
      var k := 0;
      var n := |schema|;
      assert n <= |values| ==> values[0..n] == values[..n];
      while k < |schema|
        invariant 0 <= k <= n && k <= |values| && 0 <= boffset <= 8
        invariant n <= |values| ==>
          PayloadFrom(schema[k..], values[k..n], bytes, boffset) == Payload(schema, values[..n])
        decreases |schema| - k
      {
        if k >= |values| { return None; }
        assert schema[k..][0] == schema[k] && schema[k..][1..] == schema[k + 1..];
        assert n <= |values| ==> values[k..n][0] == values[k] && values[k..n][1..] == values[k + 1..n];
        match (schema[k], values[k]) {
          case (IntField(s), Number(n)) =>
            var output := EncodeInt(n, s);
            bytes := bytes + output;
            boffset := 0;
          case (BitsField(s), BitGroup(v)) =>
            if boffset + s > 8 || !Fits(v, boffset + s) || (boffset > 0 && bytes == []) { return None; }
            if boffset == 0 {
              bytes := bytes + [Place(0, v, 0, s)];
            } else {
              bytes := bytes[..|bytes| - 1] + [Place(bytes[|bytes| - 1], v, boffset, s)];
            }
            boffset := boffset + s;
            if boffset == 8 {
              boffset := 0;
            }
          case (BlobField(_), Blob(b)) =>
            bytes := bytes + b;
          case _ =>
            return None;
        }
        k := k + 1;
      }
      PackedSoFar(schema, values, bytes);
      r := AppendValues(bytes, values[n..]);
    }
  }

  lemma PackedSoFar(schema: seq<Field>, values: seq<Value>, bytes: seq<Byte>)
    requires |schema| <= |values| && Payload(schema, values[..|schema|]) == Some(bytes)
    ensures PackAll(schema, values) == AppendAll(bytes, values[|schema|..])
  {
    hide Payload, AppendAll;
  }

  /** The loop over the values beyond the schema. */
  method AppendValues(bytes: seq<Byte>, more: seq<Value>) returns (r: Option<seq<Byte>>)
    ensures r == AppendAll(bytes, more)
  {
    var all := bytes;
    for k := 0 to |more|
      invariant AppendAll(bytes, more) == AppendAll(all, more[k..])
    {
      assert more[k..][0] == more[k] && more[k..][1..] == more[k + 1..];
      if !more[k].Blob? { return None; }
      all := all + more[k].bytes;
    }
    r := Some(all);
  }

  /** Values beyond the schema are appended as they are; only lists of bytes can be. */
  function AppendAll(r: seq<Byte>, more: seq<Value>): Option<seq<Byte>>
    decreases |more|
  {
    if more == [] then Some(r)
    else if more[0].Blob? then AppendAll(r + more[0].bytes, more[1..])
    else None
  }

  /** Packing any values: too few are an error, more than the schema's are appended. */
  function PackAll(schema: seq<Field>, values: seq<Value>): Option<seq<Byte>> {
    if |values| < |schema| then None
    else
      match Payload(schema, values[..|schema|])
      case None => None
      case Some(r) => AppendAll(r, values[|schema|..])
  }

  /** One field taken out of a packet, and the offsets after it. */
  predicate Taken(f: Field, packet: seq<Byte>, offset: int, b: nat, v: Value, next: int, c: nat) {
    match f
    case IntField(s) => v == Number(Decode(Slice(packet, offset, offset + s))) && next == offset + s && c == b
    case BitsField(s) =>
      && b + s <= 8 && HasIndex(packet, offset) && v == BitGroup(Extract(At(packet, offset), b, s))
      && next == (if b + s == 8 then offset + 1 else offset) && c == NextBit(b, s)
    case BlobField(Unsized) => v == Blob(Slice(packet, offset, |packet|)) && next == offset && c == b
    case BlobField(Sized(n)) =>
      && c == b
      && if n > 0 then v == Blob(Slice(packet, offset, offset + n)) && next == offset + n
         else if n < 0 then v == Blob(Slice(packet, offset, n)) && next == |packet| + n
         else v == Blob(Slice(packet, offset, |packet|)) && next == offset
  }

  lemma TakenIs(schema: seq<Field>, packet: seq<Byte>, offset: int, b: nat, v: Value, next: int, c: nat)
    requires schema != [] && Taken(schema[0], packet, offset, b, v, next, c)
    ensures ParseFrom(schema, packet, offset, b) == Prepend(v, ParseFrom(schema[1..], packet, next, c))
  {
    hide Decode, Extract, Slice, HasIndex, At, Prepend;
  }

  lemma NotTaken(schema: seq<Field>, packet: seq<Byte>, offset: int, b: nat)
    requires schema != [] && schema[0].BitsField? && (b + schema[0].bits > 8 || !HasIndex(packet, offset))
    ensures ParseFrom(schema, packet, offset, b) == None
  {
    hide Decode, Extract, Slice, HasIndex, At, Prepend;
  }

  lemma NothingToPrepend(vs: seq<Value>)
    ensures PrependAll(vs, None) == None
  {
  }

  lemma TakenAll(vs: seq<Value>, packet: seq<Byte>, offset: int, b: nat)
    ensures PrependAll(vs, ParseFrom([], packet, offset, b)) == Some(vs)
  {
    assert vs + [] == vs;
  }

  function PrependAll(vs: seq<Value>, rest: Option<seq<Value>>): Option<seq<Value>> {
    match rest
    case None => None
    case Some(more) => Some(vs + more)
  }

  lemma PrependNone(rest: Option<seq<Value>>)
    ensures PrependAll([], rest) == rest
  {
    if rest.Some? {
      assert [] + rest.value == rest.value;
    }
  }

  lemma PrependMore(vs: seq<Value>, v: Value, rest: Option<seq<Value>>)
    ensures PrependAll(vs + [v], rest) == PrependAll(vs, Prepend(v, rest))
  {
    if rest.Some? {
      assert vs + [v] + rest.value == vs + ([v] + rest.value);
    }
  }
}
