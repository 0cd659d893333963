/**
 * The address codec of the fabric (f10_controller.py and jelly_controller.py
 * carry identical copies).
 *
 * A node's address is `10.x.y.z`: the high byte is the tag 10 and the low 24
 * bits pack `location` (14 bits) | `level` (2 bits) | `index` (8 bits).
 */
module Address {
  import opened Wrappers
  import opened Bits
  import opened Text

  /** The constant high-order byte of every fabric address. */
  const Tag: nat := 10

  /** `index(ip_val)`: `ip_val & 0xff`. */
  function Index(v: int): (r: nat)
    ensures r < 256
  {
    v % 256
  }

  /** `level(ip_val)`: `(ip_val >> 8) & 0b11`. */
  function Level(v: int): (r: nat)
    ensures r < 4
  {
    (v / 256) % 4
  }

  /** `location(ip_val)`: `(ip_val >> 10) & 0x3fff`. */
  function Location(v: int): (r: nat)
    ensures r < 16384
  {
    (v / 1024) % 16384
  }

  /**
   * The builders' `10 << 24 | loc << 10 | lvl << 8 | idx`, with Python's `|`
   * evaluated left to right.
   */
  function Pack(loc: nat, lvl: nat, idx: nat): nat
  {
    BitOr(BitOr(BitOr(Tag * Pow2(24), loc * Pow2(10)), lvl * Pow2(8)), idx)
  }

  /** `prefix = loc >> (b * lvl)`: the subtree a location lies in at a level. */
  function Prefix(loc: int, b: nat, lvl: nat): int
  {
    Shr(loc, b * lvl)
  }

  /** `int(math.ceil(math.log(n, 2)))`, computed on integers. */
  function CeilLog2(n: nat): (b: nat)
    requires n >= 1
    ensures n <= Pow2(b)
    ensures b > 0 ==> Pow2(b - 1) < n
  {
    if n <= 1 then 0 else 1 + CeilLog2((n + 1) / 2)
  }

  predicate FieldsInRange(loc: nat, lvl: nat, idx: nat)
  {
    loc < 16384 && lvl < 4 && idx < 256
  }

  lemma Pow2Constants()
    ensures Pow2(2) == 4 && Pow2(8) == 256 && Pow2(10) == 1024
    ensures Pow2(14) == 16384 && Pow2(16) == 65536 && Pow2(24) == 16777216
    ensures Pow2(32) == 4294967296
  {
  }

  /** With every field in range the `|`s of Pack are additions. */
  lemma PackIsSum(loc: nat, lvl: nat, idx: nat)
    requires FieldsInRange(loc, lvl, idx)
    ensures Pack(loc, lvl, idx) == ((Tag * 16384 + loc) * 4 + lvl) * 256 + idx
  {
    Pow2Constants();
    var hi := Tag * 16384;
    assert Tag * Pow2(24) == hi * Pow2(10);
    BitOrScaled(hi, loc, 10);
    BitOrDisjoint(Tag, 14, loc);
    var x := (hi + loc) * 4;
    assert BitOr(Tag * Pow2(24), loc * Pow2(10)) == x * Pow2(8);
    BitOrScaled(x, lvl, 8);
    BitOrDisjoint(hi + loc, 2, lvl);
    var y := x + lvl;
    assert BitOr(x * Pow2(8), lvl * Pow2(8)) == y * Pow2(8);
    BitOrDisjoint(y, 8, idx);
  }

  /** Decoding a packed address yields its fields. */
  lemma DecodePack(loc: nat, lvl: nat, idx: nat)
    requires FieldsInRange(loc, lvl, idx)
    ensures Index(Pack(loc, lvl, idx)) == idx
    ensures Level(Pack(loc, lvl, idx)) == lvl
    ensures Location(Pack(loc, lvl, idx)) == loc
    ensures Pack(loc, lvl, idx) / 16777216 == Tag
  {
    PackIsSum(loc, lvl, idx);
    DecodeFields(Pack(loc, lvl, idx), loc, lvl, idx);
  }

  /** The fields of the address whose tag, location, level and index are given. */
  lemma DecodeFields(v: nat, loc: nat, lvl: nat, idx: nat)
    requires FieldsInRange(loc, lvl, idx)
    requires v == ((Tag * 16384 + loc) * 4 + lvl) * 256 + idx
    ensures Index(v) == idx && Level(v) == lvl && Location(v) == loc && v / 16777216 == Tag
  {
    DecodeSum(Tag * 16384 + loc, lvl, idx);
    DivModOf(Tag, 16384, loc);
    assert v == Tag * 16777216 + (loc * 1024 + lvl * 256 + idx);
    DivModOf(Tag, 16777216, loc * 1024 + lvl * 256 + idx);
  }

  /** The low ten bits of `(w * 4 + lvl) * 256 + idx` are lvl and idx, the rest is w. */
  lemma DecodeSum(w: nat, lvl: nat, idx: nat)
    requires lvl < 4 && idx < 256
    ensures var v := (w * 4 + lvl) * 256 + idx;
            v % 256 == idx && (v / 256) % 4 == lvl && v / 1024 == w
  {
    var y := w * 4 + lvl;
    DivModOf(y, 256, idx);
    DivModOf(w, 4, lvl);
    assert (w * 4 + lvl) * 256 + idx == w * 1024 + (lvl * 256 + idx);
    DivModOf(w, 1024, lvl * 256 + idx);
  }

  /** Every address whose high byte is the tag is the packing of its own fields. */
  lemma PackDecode(v: nat)
    requires v / 16777216 == Tag
    ensures Pack(Location(v), Level(v), Index(v)) == v
  {
    var loc, lvl, idx := Location(v), Level(v), Index(v);
    PackIsSum(loc, lvl, idx);
    var w := v / 256;
    var w' := w / 4;
    assert v == 1024 * w' + (256 * lvl + idx);
    DivModOf(w', 1024, 256 * lvl + idx);
    var t := w' / 16384;
    assert w' == 16384 * t + loc;
    assert v == 16777216 * t + (1024 * loc + 256 * lvl + idx);
    DivModOf(t, 16777216, 1024 * loc + 256 * lvl + idx);
  }

  // ------------------------------------------------------------- ip_to_val

  /** `int(piece)` for every piece, or None when one of them is not a number. */
  function ParsePieces(pieces: seq<string>): (r: Option<seq<nat>>)
    ensures r.Some? <==> AllNumeric(pieces)
    ensures r.Some? ==> |r.value| == |pieces|
    ensures r.Some? ==> forall i :: 0 <= i < |pieces| ==> Some(r.value[i]) == ParseNat(pieces[i])
  {
    if |pieces| == 0 then Some([])
    else
      match ParseNat(pieces[0])
      case None => None
      case Some(first) =>
        match ParsePieces(pieces[1..])
        case None => None
        case Some(rest) => Some([first] + rest)
  }

  /**
   * The accumulation loop of ip_to_val: iteration i ors in
   * `parts[n - i - 1] << 8i`, so the first part lands highest.
   */
  function OrFold(parts: seq<nat>): nat
  {
    if |parts| == 0 then 0
    else BitOr(OrFold(parts[1..]), parts[0] * Pow2(8 * (|parts| - 1)))
  }

  /** Base-256 value of the parts, most significant first. */
  function BigEndian(parts: seq<nat>): nat
  {
    if |parts| == 0 then 0
    else parts[0] * Pow2(8 * (|parts| - 1)) + BigEndian(parts[1..])
  }

  predicate AllBytes(parts: seq<nat>)
  {
    forall i :: 0 <= i < |parts| ==> parts[i] < 256
  }

  /** Every piece is something `int()` accepts. */
  predicate AllNumeric(pieces: seq<string>)
  {
    forall i :: 0 <= i < |pieces| ==> ParseNat(pieces[i]).Some?
  }

  /** `ip_to_val(ip)`: split on '.', int() every piece, or them together. */
  function IpToVal(ip: string): (r: Option<nat>)
    ensures r.Some? <==> AllNumeric(Split(ip, '.'))
  {
    var parsed := ParsePieces(Split(ip, '.'));
    if parsed.None? then None else Some(OrFold(parsed.value))
  }

  /** For byte-valued parts the or-fold is the base-256 number they spell. */
  lemma {:induction false} OrFoldOfBytes(parts: seq<nat>)
    requires AllBytes(parts)
    ensures OrFold(parts) == BigEndian(parts)
    ensures BigEndian(parts) < Pow2(8 * |parts|)
  {
    if |parts| > 0 {
      var n := |parts| - 1;
      var rest, head, scale := parts[1..], parts[0], Pow2(8 * n);
      OrFoldOfBytes(rest);
      var low := BigEndian(rest);
      BitOrDisjoint(head, 8 * n, low);
      Pow2Add(8, 8 * n);
      assert Pow2(8) == 256;
      ByteOnTop(head, scale, low);
    }
  }

  /** A byte written above a value below `scale` stays below `256 * scale`. */
  lemma ByteOnTop(head: nat, scale: nat, low: nat)
    requires head < 256 && low < scale
    ensures head * scale + low < 256 * scale
  {
    MulLe(head, 255, scale);
  }

  /** `[str(n) for n in ns]`. */
  function Decimals(ns: seq<nat>): (r: seq<string>)
    ensures |r| == |ns|
    ensures forall i :: 0 <= i < |ns| ==> r[i] == NatToString(ns[i])
  {
    if |ns| == 0 then [] else [NatToString(ns[0])] + Decimals(ns[1..])
  }

  function Quad(a: nat, b: nat, c: nat, d: nat): string
  {
    Join(Decimals([a, b, c, d]), '.')
  }

  lemma {:induction false} ParseDecimals(ns: seq<nat>)
    ensures ParsePieces(Decimals(ns)) == Some(ns)
  {
    if |ns| > 0 {
      ParseNatToString(ns[0]);
      ParseDecimals(ns[1..]);
      assert Decimals(ns)[1..] == Decimals(ns[1..]);
      assert [ns[0]] + ns[1..] == ns;
    }
  }

  /** ip_to_val of dotted decimal numbers is the or-fold of the numbers. */
  lemma IpToValOfDecimals(ns: seq<nat>)
    requires |ns| >= 1
    ensures IpToVal(Join(Decimals(ns), '.')) == Some(OrFold(ns))
  {
    var pieces := Decimals(ns);
    forall i | 0 <= i < |pieces|
      ensures '.' !in pieces[i]
    {
      NatToStringHasNo(ns[i], '.');
    }
    SplitJoin(pieces, '.');
    ParseDecimals(ns);
  }

  lemma BigEndianQuad(a: nat, b: nat, c: nat, d: nat)
    ensures BigEndian([a, b, c, d]) == a * 16777216 + b * 65536 + c * 256 + d
  {
    Pow2Constants();
    var s := [a, b, c, d];
    assert s[1..] == [b, c, d] && s[1..][1..] == [c, d] && s[1..][1..][1..] == [d];
    assert BigEndian([d]) == d;
    assert BigEndian([c, d]) == c * 256 + d;
    assert BigEndian([b, c, d]) == b * 65536 + c * 256 + d;
  }

  /** `ip_to_val("a.b.c.d") == a*2^24 + b*2^16 + c*2^8 + d` for byte-valued a, b, c, d. */
  lemma IpToValDottedQuad(a: nat, b: nat, c: nat, d: nat)
    requires a < 256 && b < 256 && c < 256 && d < 256
    ensures IpToVal(Quad(a, b, c, d)) == Some(a * 16777216 + b * 65536 + c * 256 + d)
  {
    IpToValOfDecimals([a, b, c, d]);
    OrFoldOfBytes([a, b, c, d]);
    BigEndianQuad(a, b, c, d);
  }

  /** `inet_ntoa(struct.pack('!L', v))`: the four bytes of v in dotted decimal. */
  function InetNtoa(v: nat): string
    requires v < 4294967296
  {
    Quad(v / 16777216, v / 65536 % 256, v / 256 % 256, v % 256)
  }

  /** The controllers' ip_to_val inverts the builders' inet_ntoa. */
  lemma IpToValInetNtoa(v: nat)
    requires v < 4294967296
    ensures IpToVal(InetNtoa(v)) == Some(v)
  {
    QuadOfBytes(v, v / 16777216, v / 65536 % 256, v / 256 % 256, v % 256);
  }

  /** The dotted quad of v's four bytes reads back as v. */
  lemma QuadOfBytes(v: nat, a: nat, b: nat, c: nat, d: nat)
    requires v < 4294967296
    requires a == v / 16777216 && b == v / 65536 % 256 && c == v / 256 % 256 && d == v % 256
    ensures IpToVal(Quad(a, b, c, d)) == Some(v)
  {
    ByteSplit(v);
    IpToValDottedQuad(a, b, c, d);
  }

  /** A 32-bit value is the base-256 number of its four bytes, most significant first. */
  lemma ByteSplit(v: nat)
    requires v < 4294967296
    ensures v / 16777216 < 256
    ensures v == v / 16777216 * 16777216 + v / 65536 % 256 * 65536 + v / 256 % 256 * 256 + v % 256
  {
    var w1 := v / 256;
    var d := v % 256;
    var w2 := w1 / 256;
    var c := w1 % 256;
    var a := w2 / 256;
    var b := w2 % 256;
    assert v == 65536 * w2 + (256 * c + d);
    DivModOf(w2, 65536, 256 * c + d);
    assert v == 16777216 * a + (65536 * b + 256 * c + d);
    DivModOf(a, 16777216, 65536 * b + 256 * c + d);
  }
}
