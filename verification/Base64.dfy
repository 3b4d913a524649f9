/**
 Base64 with the program's 32-bit accumulator, against the definition by groups in section 4 of
 RFC 4648.
 */
module Base64 {
  import opened Bytes

  type Sextet = n: int | 0 <= n < 64

  /** The alphabet: table 1 of RFC 4648. */
  function Symbol(n: Sextet): char {
    if n < 26 then ('A' as int + n) as char
    else if n < 52 then ('a' as int + n - 26) as char
    else if n < 62 then ('0' as int + n - 52) as char
    else if n == 62 then '+' else '/'
  }

  /** The lookup table: -1 for a character outside the alphabet. */
  function Index(c: char): (i: int)
    ensures -1 <= i < 64
    ensures i != -1 ==> Symbol(i) == c
  {
    if 'A' <= c <= 'Z' then c as int - 'A' as int
    else if 'a' <= c <= 'z' then c as int - 'a' as int + 26
    else if '0' <= c <= '9' then c as int - '0' as int + 52
    else if c == '+' then 62
    else if c == '/' then 63
    else -1
  }

  lemma SymbolIndexed(n: Sextet)
    ensures Index(Symbol(n)) == n && Symbol(n) != '='
  {
  }

  // ---- The definition by groups ----

  /** The four sextets that three bytes spell. */
  function Sextet1(a: Byte): Sextet {
    a / 4
  }

  function Sextet2(a: Byte, b: Byte): Sextet {
    a % 4 * 16 + b / 16
  }

  function Sextet3(b: Byte, c: Byte): Sextet {
    b % 16 * 4 + c / 64
  }

  function Sextet4(c: Byte): Sextet {
    c % 64
  }

  function Encoded(s: seq<Byte>): string {
    if s == [] then ""
    else if |s| == 1 then [Symbol(Sextet1(s[0])), Symbol(Sextet2(s[0], 0)), '=', '=']
    else if |s| == 2 then
      [Symbol(Sextet1(s[0])), Symbol(Sextet2(s[0], s[1])), Symbol(Sextet3(s[1], 0)), '=']
    else
      [Symbol(Sextet1(s[0])), Symbol(Sextet2(s[0], s[1])), Symbol(Sextet3(s[1], s[2])), Symbol(Sextet4(s[2]))]
      + Encoded(s[3..])
  }

  /** The four sextets of a group are the digits to base 64 of the number whose digits to base 256 are its
      bytes. */
  lemma GroupValue(a: Byte, b: Byte, c: Byte)
    ensures ((Sextet1(a) as int * 64 + Sextet2(a, b)) * 64 + Sextet3(b, c)) * 64 + Sextet4(c)
         == (a as int * 256 + b) * 256 + c
  {
  }

  const UPPER := "ABCDEFGHIJKLMNOPQRSTUVWXYZ"
  const LOWER := "abcdefghijklmnopqrstuvwxyz"
  const DIGITS := "0123456789"

  /** The alphabet in the order of the table. */
  lemma SymbolByPosition(n: Sextet)
    ensures n < 26 ==> Symbol(n) == UPPER[n]
    ensures 26 <= n < 52 ==> Symbol(n) == LOWER[n - 26]
    ensures 52 <= n < 62 ==> Symbol(n) == DIGITS[n - 52]
    ensures Symbol(62) == '+' && Symbol(63) == '/'
  {
    if n < 26 {
      UpperAt(n);
    } else if n < 52 {
      LowerAt(n - 26);
    }
  }

  lemma UpperAt(n: nat)
    requires n < 26
    ensures UPPER[n] == ('A' as int + n) as char
  {
  }

  lemma LowerAt(n: nat)
    requires n < 26
    ensures LOWER[n] == ('a' as int + n) as char
  {
  }

  /** Some of the examples in section 10 of RFC 4648. */
  lemma Examples()
    ensures Encoded([]) == "" && Encoded([102]) == "Zg==" && Encoded([102, 111]) == "Zm8="
    ensures Encoded([102, 111, 111]) == "Zm9v"
  {
    var three: seq<Byte> := [102, 111, 111];
    assert three[3..] == [];
  }

  /** The symbols before the first character outside the alphabet. */
  function Sextets(s: string): seq<Sextet> {
    if s == "" || Index(s[0]) == -1 then [] else [Index(s[0])] + Sextets(s[1..])
  }

  /** The three bytes that four sextets spell. */
  function Byte1(a: Sextet, b: Sextet): Byte {
    a as int * 4 + b / 16
  }

  function Byte2(b: Sextet, c: Sextet): Byte {
    b as int % 16 * 16 + c / 4
  }

  function Byte3(c: Sextet, d: Sextet): Byte {
    c as int % 4 * 64 + d
  }

  /** Each four sextets are three bytes; bits that do not fill a byte are dropped. */
  function Packed(v: seq<Sextet>): seq<Byte> {
    if |v| < 2 then []
    else if |v| == 2 then [Byte1(v[0], v[1])]
    else if |v| == 3 then [Byte1(v[0], v[1]), Byte2(v[1], v[2])]
    else [Byte1(v[0], v[1]), Byte2(v[1], v[2]), Byte3(v[2], v[3])] + Packed(v[4..])
  }

  // ---- 32-bit arithmetic ----

  type Int32 = n: int | -0x8000_0000 <= n < 0x8000_0000

  /** The value of 32 bits read as a signed number. */
  function Wrap(n: int): (w: Int32)
    ensures (w - n) % 0x1_0000_0000 == 0
  {
    (n + 0x8000_0000) % 0x1_0000_0000 - 0x8000_0000
  }

  /** The powers of two the code shifts by. */
  function Power(k: nat): (p: nat)
    requires k in {0, 2, 4, 6, 8}
    ensures 0 < p
  {
    if k == 0 then 1 else if k == 2 then 4 else if k == 4 then 16 else if k == 6 then 64 else 256
  }

  /** An arithmetic shift to the right rounds down. */
  function ShiftRight(v: Int32, k: nat): int
    requires k in {0, 2, 4, 6, 8}
  {
    v / Power(k)
  }

  lemma WrapIs(n: int) returns (k: int)
    ensures Wrap(n) == n + k * 0x1_0000_0000
  {
    k := -((n + 0x8000_0000) / 0x1_0000_0000);
  }

  lemma Mod64(n: int, k: int, r: int)
    requires n == 64 * k + r && 0 <= r < 64
    ensures n % 64 == r
  {
  }

  lemma Mod256(n: int, k: int, r: int)
    requires n == 256 * k + r && 0 <= r < 256
    ensures n % 256 == r
  {
  }

  lemma Mod4096(n: int, k: int, r: int)
    requires n == 0x1000 * k + r && 0 <= r < 0x1000
    ensures n % 0x1000 == r
  {
  }

  lemma Mod65536(n: int, k: int, r: int)
    requires n == 0x1_0000 * k + r && 0 <= r < 0x1_0000
    ensures n % 0x1_0000 == r
  {
  }

  /** A multiple of 256 below the 32-bit limit leaves room for a byte. */
  lemma RoomForByte(w: Int32)
    requires w % 256 == 0
    ensures w + 255 < 0x8000_0000
  {
  }

  lemma RoomForSextet(w: Int32)
    requires w % 64 == 0
    ensures w + 63 < 0x8000_0000
  {
  }

  /** The low bits of v * 256 + c survive the wrap: c is there, and above it the end of v; and
      adding c cannot overflow. */
  lemma LowBits(v: Int32, c: Byte)
    ensures Wrap(v * 256) + 255 < 0x8000_0000
    ensures (Wrap(v * 256) + c) % 0x1_0000 == v % 256 * 256 + c
    ensures (Wrap(v * 256) + c) % 256 == c
  {
    var k := WrapIs(v * 256);
    hide Wrap;
    var w := Wrap(v * 256);
    Mod256(w, v + k * 0x100_0000, 0);
    RoomForByte(w);
    Mod256(w + c, v + k * 0x100_0000, c);
    Mod65536(w + c, v / 256 + k * 0x1_0000, v % 256 * 256 + c);
  }

  lemma LowSextets(v: Int32, c: Sextet)
    ensures Wrap(v * 64) + 63 < 0x8000_0000
    ensures (Wrap(v * 64) + c) % 0x1000 == v % 64 * 64 + c
    ensures (Wrap(v * 64) + c) % 64 == c
  {
    var k := WrapIs(v * 64);
    hide Wrap;
    var w := Wrap(v * 64);
    Mod64(w, v + k * 0x400_0000, 0);
    RoomForSextet(w);
    Mod64(w + c, v + k * 0x400_0000, c);
    Mod4096(w + c, v / 64 + k * 0x10_0000, v % 64 * 64 + c);
  }

  // ---- The program ----

  /** The symbols that are complete when only the first bytes of a group have been read. */
  function Begun(group: seq<Byte>): string
    requires |group| < 3
  {
    if group == [] then ""
    else if |group| == 1 then [Symbol(Sextet1(group[0]))]
    else [Symbol(Sextet1(group[0])), Symbol(Sextet2(group[0], group[1]))]
  }

  lemma ShiftedBy2(q: int, b: Byte, c: Byte)
    ensures (q * 0x1_0000 + b * 256 + c) / 4 % 64 == Sextet1(c)
  {
    var v := q * 0x1_0000 + b * 256 + c;
    assert v / 4 == 64 * (q * 0x100 + b) + c / 4;
    Mod64(v / 4, q * 0x100 + b, c / 4);
  }

  lemma ShiftedBy4(q: int, b: Byte, c: Byte)
    ensures (q * 0x1_0000 + b * 256 + c) / 16 % 64 == Sextet2(b, c)
  {
    var v := q * 0x1_0000 + b * 256 + c;
    assert v / 16 == 64 * (q * 0x40 + b / 4) + (b % 4 * 16 + c / 16);
    Mod64(v / 16, q * 0x40 + b / 4, b % 4 * 16 + c / 16);
  }

  lemma ShiftedBy6(q: int, b: Byte, c: Byte)
    ensures (q * 0x1_0000 + b * 256 + c) / 64 % 64 == Sextet3(b, c)
  {
    var v := q * 0x1_0000 + b * 256 + c;
    assert v / 64 == 64 * (q * 0x10 + b / 16) + (b % 16 * 4 + c / 64);
    Mod64(v / 64, q * 0x10 + b / 16, b % 16 * 4 + c / 64);
  }

  lemma ShiftedBy0(q: int, b: Byte, c: Byte)
    ensures (q * 0x1_0000 + b * 256 + c) % 64 == Sextet4(c)
  {
    Mod64(q * 0x1_0000 + b * 256 + c, q * 0x400 + b * 4 + c / 64, c % 64);
  }

  /** What the shifts read off the accumulator right after byte c followed byte b. */
  lemma Shifted(v: Int32, b: Byte, c: Byte)
    requires v % 0x1_0000 == b * 256 + c
    ensures ShiftRight(v, 2) % 64 == Sextet1(c)
    ensures ShiftRight(v, 4) % 64 == Sextet2(b, c)
    ensures ShiftRight(v, 6) % 64 == Sextet3(b, c)
    ensures ShiftRight(v, 0) % 64 == Sextet4(c)
  {
    hide Sextet1, Sextet2, Sextet3, Sextet4;
    var q := v / 0x1_0000;
    ShiftedBy2(q, b, c);
    ShiftedBy4(q, b, c);
    ShiftedBy6(q, b, c);
    ShiftedBy0(q, b, c);
  }

  /** The inner loop of the encoder: a symbol for every six bits that are there. */
  method EmitSymbols(val: Int32, pending: int, soFar: string) returns (out: string, valb: int)
    requires pending in {2, 4, 6}
    ensures valb == if pending == 6 then -6 else pending - 6
    ensures out == soFar + [Symbol(ShiftRight(val, pending) % 64)]
                 + (if pending == 6 then [Symbol(ShiftRight(val, 0) % 64)] else "")
  {
    out, valb := soFar, pending;
    while 0 <= valb
      invariant valb == pending || valb == pending - 6 || (pending == 6 && valb == -6)
      invariant valb == pending ==> out == soFar
      invariant valb == pending - 6 ==> out == soFar + [Symbol(ShiftRight(val, pending) % 64)]
      invariant valb == pending - 12 ==>
                  out == soFar + [Symbol(ShiftRight(val, pending) % 64)] + [Symbol(ShiftRight(val, 0) % 64)]
    {
      out := out + [Symbol(ShiftRight(val, valb) % 64)];
      valb := valb - 6;
    }
  }

  lemma NothingBegun()
    ensures Begun([]) == ""
  {
  }

  /** One more byte of input, in terms of the groups. */
  lemma GroupGrows(group: seq<Byte>, c: Byte)
    requires |group| < 2
    ensures |group| == 0 ==> Begun(group + [c]) == Begun(group) + [Symbol(Sextet1(c))]
    ensures |group| == 1 ==> Begun(group + [c]) == Begun(group) + [Symbol(Sextet2(group[0], c))]
  {
  }

  /** The four symbols of a group. */
  function Quad(group: seq<Byte>, c: Byte): string
    requires |group| == 2
  {
    Begun(group) + [Symbol(Sextet3(group[1], c))] + [Symbol(Sextet4(c))]
  }

  lemma GroupCompletes(group: seq<Byte>, c: Byte, rest: seq<Byte>)
    requires |group| == 2
    ensures Encoded(group + [c] + rest)
         == Quad(group, c) + Encoded(rest)
    ensures |Quad(group, c)| == 4
  {
    var s := group + [c] + rest;
    assert s[0] == group[0] && s[1] == group[1] && s[2] == c && s[3..] == rest;
    hide Symbol, Sextet1, Sextet2, Sextet3, Sextet4;
  }

  /** The end of the input: one more symbol if a group was begun, and padding to a multiple of four. */
  lemma GroupEnds(group: seq<Byte>)
    requires |group| < 3
    ensures |group| == 0 ==> Encoded(group) == Begun(group)
    ensures |group| == 1 ==> Encoded(group) == Begun(group) + [Symbol(Sextet2(group[0], 0))] + "=="
    ensures |group| == 2 ==> Encoded(group) == Begun(group) + [Symbol(Sextet3(group[1], 0))] + "="
    ensures |Encoded(group)| % 4 == 0
  {
  }

  method Pad(text: string, ghost padding: string) returns (out: string)
    requires padding in {"", "=", "=="} && (|text| + |padding|) % 4 == 0
    ensures out == text + padding
  {
    out := text;
    while |out| % 4 != 0
      invariant |text| <= |out| <= |text| + |padding|
      invariant out == text + padding[..|out| - |text|]
      decreases |text| + |padding| - |out|
    {
      out := out + "=";
    }
    assert padding[..|padding|] == padding;
  }

  /** The accumulator after the bytes of an unfinished group. */
  predicate Accumulates(val: Int32, valb: int, group: seq<Byte>) {
    && |group| < 3
    && valb == -6 + |group| * 2
    && (group != [] ==> val % 256 == group[|group| - 1])
  }

  /** The body of the encoder's outer loop. */
  method AddByte(val: Int32, valb: int, soFar: string, c: Byte, ghost whole: string, ghost group: seq<Byte>)
    returns (val': Int32, valb': int, out: string)
    requires Accumulates(val, valb, group) && soFar == whole + Begun(group)
    ensures Accumulates(val', valb', if |group| == 2 then [] else group + [c])
    ensures out == whole + if |group| == 2 then Quad(group, c) else Begun(group + [c])
  {
    hide Begun, Sextet1, Sextet2, Sextet3, Sextet4, Symbol, Wrap, ShiftRight;
    LowBits(val, c);
    val' := Wrap(val * 256) + c;
    Shifted(val', val % 256, c);
    out, valb' := EmitSymbols(val', valb + 8, soFar);
    if |group| < 2 {
      GroupGrows(group, c);
    }
  }

  method Encode(input: seq<Byte>) returns (out: string)
    ensures out == Encoded(input)
  {
    hide Encoded, Begun, Sextet1, Sextet2, Sextet3, Sextet4, Symbol, Wrap, ShiftRight;
    out := "";
    var val: Int32 := 0;
    var valb := -6;
    ghost var whole, group := "", [];
    NothingBegun();
    assert [] + input[0..] == input;
    for i := 0 to |input|
      invariant Accumulates(val, valb, group)
      invariant Encoded(input) == whole + Encoded(group + input[i..])
      invariant |whole| % 4 == 0
      invariant out == whole + Begun(group)
    {
      var c := input[i];
      assert group + input[i..] == group + [c] + input[i + 1..];
      val, valb, out := AddByte(val, valb, out, c, whole, group);
      if |group| == 2 {
        GroupCompletes(group, c, input[i + 1..]);
        NothingBegun();
        assert [] + input[i + 1..] == input[i + 1..];
        whole := whole + Quad(group, c);
        group := [];
      } else {
        group := group + [c];
      }
    }
    assert group + input[|input|..] == group;
    out := Finish(val, valb, out, whole, group);
  }

  /** What follows the encoder's outer loop. */
  method Finish(val: Int32, valb: int, soFar: string, ghost whole: string, ghost group: seq<Byte>)
    returns (out: string)
    requires Accumulates(val, valb, group) && soFar == whole + Begun(group) && |whole| % 4 == 0
    ensures out == whole + Encoded(group)
  {
    hide Encoded, Begun, Sextet1, Sextet2, Sextet3, Sextet4, Symbol, Wrap, ShiftRight;
    out := soFar;
    GroupEnds(group);
    ghost var padding := if |group| == 0 then "" else if |group| == 1 then "==" else "=";
    if -6 < valb {
      LowBits(val, 0);
      Shifted(Wrap(val * 256), val % 256, 0);
      out := out + [Symbol(ShiftRight(Wrap(val * 256), valb + 8) % 64)];
    }
    assert out + padding == whole + Encoded(group);
    out := Pad(out, padding);
  }

  // ---- Decoding ----

  /** The bytes that are complete when only the first sextets of a group have been read. */
  function Unpacked(group: seq<Sextet>): seq<Byte>
    requires |group| < 4
  {
    if |group| < 2 then []
    else if |group| == 2 then [Byte1(group[0], group[1])]
    else [Byte1(group[0], group[1]), Byte2(group[1], group[2])]
  }

  lemma ByteBy4(q: int, a: Sextet, b: Sextet)
    ensures (q * 0x1000 + a * 64 + b) / 16 % 256 == Byte1(a, b)
  {
    var v := q * 0x1000 + a as int * 64 + b;
    assert v / 16 == 256 * q + (a as int * 4 + b / 16);
    Mod256(v / 16, q, a as int * 4 + b / 16);
  }

  lemma ByteBy2(q: int, a: Sextet, b: Sextet)
    ensures (q * 0x1000 + a * 64 + b) / 4 % 256 == Byte2(a, b)
  {
    var v := q * 0x1000 + a as int * 64 + b;
    assert v / 4 == 256 * (q * 4 + a / 16) + (a as int % 16 * 16 + b / 4);
    Mod256(v / 4, q * 4 + a / 16, a as int % 16 * 16 + b / 4);
  }

  lemma ByteBy0(q: int, a: Sextet, b: Sextet)
    ensures (q * 0x1000 + a * 64 + b) % 256 == Byte3(a, b)
  {
    Mod256(q * 0x1000 + a as int * 64 + b, q * 16 + a / 4, a as int % 4 * 64 + b);
  }

  lemma ShiftedByte(v: Int32, a: Sextet, b: Sextet)
    requires v % 0x1000 == a as int * 64 + b
    ensures ShiftRight(v, 4) % 256 == Byte1(a, b)
    ensures ShiftRight(v, 2) % 256 == Byte2(a, b)
    ensures ShiftRight(v, 0) % 256 == Byte3(a, b)
  {
    hide Byte1, Byte2, Byte3;
    var q := v / 0x1000;
    ByteBy4(q, a, b);
    ByteBy2(q, a, b);
    ByteBy0(q, a, b);
  }

  /** The accumulator after the sextets of an unfinished group. */
  predicate Collects(val: Int32, valb: int, group: seq<Sextet>) {
    && |group| < 4
    && valb == (if |group| == 0 then -8 else if |group| == 1 then -2 else if |group| == 2 then -4 else -6)
    && (group != [] ==> val % 64 == group[|group| - 1])
  }

  lemma NothingUnpacked()
    ensures Unpacked([]) == [] && Packed([]) == []
  {
  }

  lemma UnpackedGrows(group: seq<Sextet>, c: Sextet)
    requires |group| < 3
    ensures |group| == 0 ==> Unpacked(group + [c]) == Unpacked(group)
    ensures |group| == 1 ==> Unpacked(group + [c]) == Unpacked(group) + [Byte1(group[0], c)]
    ensures |group| == 2 ==> Unpacked(group + [c]) == Unpacked(group) + [Byte2(group[1], c)]
  {
  }

  /** The three bytes of a group. */
  function Triple(group: seq<Sextet>, c: Sextet): seq<Byte>
    requires |group| == 3
  {
    Unpacked(group) + [Byte3(group[2], c)]
  }

  lemma UnpackedCompletes(group: seq<Sextet>, c: Sextet, rest: seq<Sextet>)
    requires |group| == 3
    ensures Packed(group + [c] + rest) == Triple(group, c) + Packed(rest)
  {
    var v := group + [c] + rest;
    assert v[0] == group[0] && v[1] == group[1] && v[2] == group[2] && v[3] == c && v[4..] == rest;
    hide Byte1, Byte2, Byte3;
  }

  lemma UnpackedEnds(group: seq<Sextet>)
    requires |group| < 4
    ensures Packed(group) == Unpacked(group)
  {
  }

  /** The body of the decoder's loop for a symbol of the alphabet. */
  method AddSextet(val: Int32, valb: int, soFar: seq<Byte>, c: Sextet, ghost whole: seq<Byte>, ghost group: seq<Sextet>)
    returns (val': Int32, valb': int, out: seq<Byte>)
    requires Collects(val, valb, group) && soFar == whole + Unpacked(group)
    ensures Collects(val', valb', if |group| == 3 then [] else group + [c])
    ensures out == whole + if |group| == 3 then Triple(group, c) else Unpacked(group + [c])
  {
    hide Unpacked, Byte1, Byte2, Byte3, Wrap, ShiftRight;
    LowSextets(val, c);
    val' := Wrap(val * 64) + c;
    valb' := valb + 6;
    ShiftedByte(val', val % 64, c);
    out := soFar;
    if |group| < 3 {
      UnpackedGrows(group, c);
    }
    if 0 <= valb' {
      out := out + [ShiftRight(val', valb') % 256];
      valb' := valb' - 8;
    }
  }

  method Decode(input: string) returns (out: seq<Byte>)
    ensures out == Packed(Sextets(input))
  {
    hide Packed, Unpacked, Byte1, Byte2, Byte3, Wrap, ShiftRight, Index;
    out := [];
    var val: Int32 := 0;
    var valb := -8;
    ghost var whole: seq<Byte>, group: seq<Sextet> := [], [];
    NothingUnpacked();
    assert input[0..] == input && [] + Sextets(input) == Sextets(input);
    var i := 0;
    while i < |input|
      invariant i <= |input|
      invariant Collects(val, valb, group)
      invariant Packed(Sextets(input)) == whole + Packed(group + Sextets(input[i..]))
      invariant out == whole + Unpacked(group)
    {
      if Index(input[i]) == -1 {
        break;
      }
      var c: Sextet := Index(input[i]);
      assert Sextets(input[i..]) == [c] + Sextets(input[i + 1..]) by {
        assert input[i..][1..] == input[i + 1..];
      }
      assert group + Sextets(input[i..]) == group + [c] + Sextets(input[i + 1..]);
      val, valb, out := AddSextet(val, valb, out, c, whole, group);
      if |group| == 3 {
        UnpackedCompletes(group, c, Sextets(input[i + 1..]));
        NothingUnpacked();
        assert [] + Sextets(input[i + 1..]) == Sextets(input[i + 1..]);
        whole := whole + Triple(group, c);
        group := [];
      } else {
        group := group + [c];
      }
      i := i + 1;
    }
    assert group + Sextets(input[i..]) == group;
    UnpackedEnds(group);
  }

  // ---- Decoding undoes encoding ----

  lemma {:induction false} SymbolsRead(sextets: seq<Sextet>, rest: string)
    ensures Sextets(Symbols(sextets) + rest) == sextets + Sextets(rest)
  {
    if sextets == [] {
      assert Symbols(sextets) + rest == rest;
    } else {
      SymbolIndexed(sextets[0]);
      assert Symbols(sextets) == [Symbol(sextets[0])] + Symbols(sextets[1..]);
      assert (Symbols(sextets) + rest)[1..] == Symbols(sextets[1..]) + rest;
      SymbolsRead(sextets[1..], rest);
    }
  }

  function Symbols(sextets: seq<Sextet>): string {
    seq(|sextets|, i requires 0 <= i < |sextets| => Symbol(sextets[i]))
  }

  /** Three bytes become four sextets and come back. */
  lemma BytesComeBack(a: Byte, b: Byte, c: Byte)
    ensures Byte1(Sextet1(a), Sextet2(a, b)) == a
    ensures Byte2(Sextet2(a, b), Sextet3(b, c)) == b
    ensures Byte3(Sextet3(b, c), Sextet4(c)) == c
  {
  }

  /** base64Decode(base64Encode(s)) is s, for every byte string. */
  lemma {:induction false} RoundTrip(s: seq<Byte>)
    ensures Packed(Sextets(Encoded(s))) == s
  {
    hide Byte1, Byte2, Byte3, Sextet1, Sextet2, Sextet3, Sextet4;
    if |s| == 0 {
    } else if |s| == 1 {
      var v := [Sextet1(s[0]), Sextet2(s[0], 0)];
      BytesComeBack(s[0], 0, 0);
      assert Encoded(s) == Symbols(v) + "==";
      SymbolsRead(v, "==");
    } else if |s| == 2 {
      var v := [Sextet1(s[0]), Sextet2(s[0], s[1]), Sextet3(s[1], 0)];
      BytesComeBack(s[0], s[1], 0);
      assert Encoded(s) == Symbols(v) + "=";
      SymbolsRead(v, "=");
    } else {
      var v := [Sextet1(s[0]), Sextet2(s[0], s[1]), Sextet3(s[1], s[2]), Sextet4(s[2])];
      BytesComeBack(s[0], s[1], s[2]);
      assert Encoded(s) == Symbols(v) + Encoded(s[3..]);
      SymbolsRead(v, Encoded(s[3..]));
      RoundTrip(s[3..]);
      assert (v + Sextets(Encoded(s[3..])))[4..] == Sextets(Encoded(s[3..]));
    }
  }
}
