/** Percent-encoding as in section 2.1 of RFC 3986, with '+' for a space. Characters stand for bytes. */
module Url {
  import opened Bytes
  import opened Wrappers

  predicate Octets(s: string) {
    forall i :: 0 <= i < |s| ==> s[i] as int < 256
  }

  function HexDigit(n: nat): char
    requires n < 16
  {
    if n < 10 then ('0' as int + n) as char else ('a' as int - 10 + n) as char
  }

  predicate IsHex(c: char) {
    '0' <= c <= '9' || 'a' <= c <= 'f' || 'A' <= c <= 'F'
  }

  function HexValue(c: char): (n: nat)
    requires IsHex(c)
    ensures n < 16
  {
    if 'a' <= c <= 'f' then c as int - 'a' as int + 10
    else if 'A' <= c <= 'F' then c as int - 'A' as int + 10
    else c as int - '0' as int
  }

  /** The two hexadecimal digits of a byte. */
  method CharHex(ch: Byte) returns (out: string)
    ensures out == [HexDigit(ch / 16), HexDigit(ch % 16)]
  {
    out := "";
    var nibbles := [ch / 16, ch % 16];
    for i := 0 to 2
      invariant |out| == i
      invariant forall k :: 0 <= k < i ==> out[k] == HexDigit(nibbles[k])
    {
      var nibble := nibbles[i];
      out := out + [(nibble + if nibble < 10 then '0' as int else 'a' as int - 10) as char];
    }
  }

  predicate Kept(c: char) {
    c == '.' || c == '_' || '0' <= c <= '9' || 'A' <= c <= 'Z' || 'a' <= c <= 'z'
  }

  function EscapedChar(c: char): string
    requires c as int < 256
  {
    if c == ' ' then "+"
    else if Kept(c) then [c]
    else ['%', HexDigit(c as int / 16), HexDigit(c as int % 16)]
  }

  function Escaped(s: string): string
    requires Octets(s)
  {
    if s == "" then "" else EscapedChar(s[0]) + Escaped(s[1..])
  }

  lemma {:induction false} EscapedSnoc(s: string, c: char)
    requires Octets(s) && c as int < 256
    ensures Octets(s + [c]) && Escaped(s + [c]) == Escaped(s) + EscapedChar(c)
  {
    if s == "" {
      assert s + [c] == [c];
    } else {
      assert (s + [c])[1..] == s[1..] + [c];
      EscapedSnoc(s[1..], c);
    }
  }

  /** `char` is signed in the program, so bytes from 128 up compare below '0' and are escaped. */
  function Signed(c: char): int
    requires c as int < 256
  {
    if c as int < 128 then c as int else c as int - 256
  }

  method EscapeUrl(view: string) returns (out: string)
    requires Octets(view)
    ensures out == Escaped(view)
  {
    out := "";
    for i := 0 to |view|
      invariant out == Escaped(view[..i])
    {
      var c := view[i];
      var ch := Signed(c);
      if c == ' ' {
        out := out + "+";
      } else if c == '.' || c == '_' {
        out := out + [c];
      } else if ch < '0' as int || '9' as int < ch < 'A' as int || 'Z' as int < ch < 'a' as int || 'z' as int < ch {
        var hex := CharHex(c as int);
        out := out + ("%" + hex);
      } else {
        out := out + [c];
      }
      assert view[..i + 1] == view[..i] + [c];
      EscapedSnoc(view[..i], c);
    }
    assert view[..|view|] == view;
  }

  /** Decoding read from the left: an escape needs its two digits inside the string, and anything
      else stands for itself. */
  function Decoded(s: string, plusToSpace: bool): string {
    if s == "" then ""
    else if plusToSpace && s[0] == '+' then " " + Decoded(s[1..], plusToSpace)
    else if s[0] == '%' && 3 <= |s| && IsHex(s[1]) && IsHex(s[2]) then
      [(HexValue(s[1]) * 16 + HexValue(s[2])) as char] + Decoded(s[3..], plusToSpace)
    else [s[0]] + Decoded(s[1..], plusToSpace)
  }

  /** None where the program would read past the end: `size - 3` wraps for strings of fewer than
      three bytes, which makes every '%' in them look like the start of an escape. */
  function Unescaped(s: string, plusToSpace: bool): Option<string> {
    if '%' in s && |s| < 3 then None else Some(Decoded(s, plusToSpace))
  }

  lemma {:induction false} NothingToDecode(s: string, plusToSpace: bool)
    requires '%' !in s && !(plusToSpace && '+' in s)
    ensures Decoded(s, plusToSpace) == s
  {
    if s != "" {
      NothingToDecode(s[1..], plusToSpace);
      assert s == [s[0]] + s[1..];
    }
  }

  /** Decoding from position i on. */
  function DecodedAt(s: string, i: nat, plusToSpace: bool): string
    requires i <= |s|
  {
    Decoded(s[i..], plusToSpace)
  }

  lemma DecodedEnds(s: string, plusToSpace: bool)
    ensures DecodedAt(s, 0, plusToSpace) == Decoded(s, plusToSpace)
    ensures DecodedAt(s, |s|, plusToSpace) == ""
  {
    assert s[0..] == s;
  }

  /** One step of decoding at position i, behind what was decoded already. */
  lemma DecodedNext(out: string, s: string, i: nat, plusToSpace: bool)
    requires i < |s|
    ensures out + DecodedAt(s, i, plusToSpace)
         == if plusToSpace && s[i] == '+' then out + " " + DecodedAt(s, i + 1, plusToSpace)
            else if s[i] == '%' && i + 2 < |s| && IsHex(s[i + 1]) && IsHex(s[i + 2]) then
              out + [(HexValue(s[i + 1]) * 16 + HexValue(s[i + 2])) as char] + DecodedAt(s, i + 3, plusToSpace)
            else out + [s[i]] + DecodedAt(s, i + 1, plusToSpace)
  {
    hide IsHex, HexValue;
    var rest := s[i..];
    assert s[i + 1..] == rest[1..];
    if i + 2 < |s| {
      assert s[i + 3..] == rest[3..];
    }
  }

  const SIZES := 0x1_0000_0000_0000_0000

  lemma SizeMinusThree(n: nat)
    requires n < SIZES
    ensures (n - 3) % SIZES == if n < 3 then SIZES + n - 3 else n - 3
  {
  }

  method Unescape(path: string, plusToSpace: bool) returns (result: Option<string>)
    requires |path| < SIZES
    ensures result == Unescaped(path, plusToSpace)
  {
    if '%' !in path && !(plusToSpace && '+' in path) {
      NothingToDecode(path, plusToSpace);
      return Some(path);
    }
    hide Decoded, DecodedAt, IsHex, HexValue;
    DecodedEnds(path, plusToSpace);
    ghost var decoded := Decoded(path, plusToSpace);
    SizeMinusThree(|path|);
    var out := "";
    var i := 0;
    assert out + DecodedAt(path, 0, plusToSpace) == decoded;
    while i < |path|
      invariant i <= |path|
      invariant decoded == out + DecodedAt(path, i, plusToSpace)
      invariant |path| < 3 ==> forall k :: 0 <= k < i ==> path[k] != '%'
    {
      var ch := path[i];
      DecodedNext(out, path, i, plusToSpace);
      if plusToSpace && ch == '+' {
        out := out + " ";
        i := i + 1;
        continue;
      }
      if ch != '%' || (|path| - 3) % SIZES < i {
        out := out + [ch];
        i := i + 1;
        continue;
      }
      if |path| <= i + 2 {
        return None;
      }
      var next, after := path[i + 1], path[i + 2];
      if !IsHex(next) || !IsHex(after) {
        out := out + [ch];
        i := i + 1;
        continue;
      }
      var toAdd := (HexValue(next) * 16 + HexValue(after)) as char;
      out := out + [toAdd];
      i := i + 3;
    }
    assert out + "" == out;
    result := Some(out);
  }

  lemma HexUndone(n: Byte)
    ensures IsHex(HexDigit(n / 16)) && IsHex(HexDigit(n % 16))
    ensures HexValue(HexDigit(n / 16)) * 16 + HexValue(HexDigit(n % 16)) == n
  {
  }

  lemma EscapedCharDecoded(c: char, rest: string)
    requires c as int < 256
    ensures Decoded(EscapedChar(c) + rest, true) == [c] + Decoded(rest, true)
  {
    var e := EscapedChar(c);
    var s := e + rest;
    assert s[|e|..] == rest;
    HexUndone(c as int);
  }

  lemma {:induction false} EscapedDecoded(s: string)
    requires Octets(s)
    ensures Decoded(Escaped(s), true) == s
  {
    if s != "" {
      EscapedDecoded(s[1..]);
      EscapedCharDecoded(s[0], Escaped(s[1..]));
      assert s == [s[0]] + s[1..];
    }
  }

  /** An escaped string is empty only for the empty string, and never a short string with '%'. */
  lemma {:induction false} EscapedSafe(s: string)
    requires Octets(s)
    ensures '%' in Escaped(s) ==> 3 <= |Escaped(s)|
    ensures Escaped(s) == "" <==> s == ""
    ensures forall c :: c in Escaped(s) ==> Kept(c) || c == '%' || c == '+'
  {
    if s != "" {
      EscapedSafe(s[1..]);
    }
  }

  /** Unescaping undoes escaping on every byte string. */
  lemma UnescapeUndoesEscape(s: string)
    requires Octets(s)
    ensures Unescaped(Escaped(s), true) == Some(s)
  {
    EscapedSafe(s);
    EscapedDecoded(s);
  }

  /** Exactly the strings free of escapes and pluses come back unchanged. */
  lemma UnescapedUnchanged(s: string)
    ensures Unescaped(s, true) == Some(s) <==> '+' !in s && !HasEscape(s) && ('%' in s ==> 3 <= |s|)
  {
    DecodedLength(s);
    DecodedUnchanged(s);
  }

  predicate EscapeAt(s: string, i: nat) {
    i + 2 < |s| && s[i] == '%' && IsHex(s[i + 1]) && IsHex(s[i + 2])
  }

  /** Some '%' in s is followed by two hexadecimal digits. */
  ghost predicate HasEscape(s: string) {
    exists i: nat :: EscapeAt(s, i)
  }

  lemma {:induction false} DecodedLength(s: string)
    ensures |Decoded(s, true)| <= |s|
  {
    if s == "" {
    } else if s[0] == '%' && 3 <= |s| && IsHex(s[1]) && IsHex(s[2]) {
      DecodedLength(s[3..]);
    } else {
      DecodedLength(s[1..]);
    }
  }

  lemma HasEscapeFromFirst(s: string)
    requires s != ""
    ensures HasEscape(s) <==> EscapeAt(s, 0) || HasEscape(s[1..])
  {
    var t := s[1..];
    assert forall i: nat :: EscapeAt(t, i) <==> EscapeAt(s, i + 1);
    if HasEscape(s) {
      var i: nat :| EscapeAt(s, i);
      assert i != 0 ==> EscapeAt(t, i - 1);
    }
  }

  lemma {:induction false} DecodedUnchanged(s: string)
    ensures Decoded(s, true) == s <==> '+' !in s && !HasEscape(s)
  {
    if s != "" {
      var t := s[1..];
      assert s == [s[0]] + t;
      HasEscapeFromFirst(s);
      if EscapeAt(s, 0) {
        DecodedLength(s[3..]);
      } else {
        DecodedUnchanged(t);
        assert Decoded(s, true)[1..] == Decoded(t, true);
      }
    }
  }

  /** A string that keeps its length when decoded has no escape and changes only in its pluses. */
  lemma {:induction false} SameLength(s: string)
    requires |Decoded(s, true)| == |s|
    ensures !HasEscape(s)
    ensures forall i :: 0 <= i < |s| ==> Decoded(s, true)[i] == if s[i] == '+' then ' ' else s[i]
  {
    if s != "" {
      HasEscapeFromFirst(s);
      if EscapeAt(s, 0) {
        DecodedLength(s[3..]);
      } else {
        SameLength(s[1..]);
        assert Decoded(s, true)[1..] == Decoded(s[1..], true);
      }
    }
  }

  /** What such a string becomes would itself come back unchanged. */
  lemma SameLengthPlain(s: string)
    ensures Unescaped(s, true).Some? ==> |Unescaped(s, true).value| <= |s|
    ensures Unescaped(s, true).Some? && |Unescaped(s, true).value| == |s| ==>
              var d := Unescaped(s, true).value;
              && '+' !in d && !HasEscape(d) && ('%' in d ==> 3 <= |d|)
              && (forall c :: c in d ==> c == ' ' || c in s)
  {
    DecodedLength(s);
    var d := Decoded(s, true);
    if Unescaped(s, true).Some? && |d| == |s| {
      SameLength(s);
      hide Decoded;
      assert forall i: nat :: EscapeAt(d, i) ==> EscapeAt(s, i);
      assert forall i :: 0 <= i < |d| && d[i] == '%' ==> s[i] == '%';
    }
  }

  // ---- The tables, by their positions ----

  const LOWER_DIGITS := "0123456789abcdef"
  const UPPER_DIGITS := "0123456789ABCDEF"

  /** c is a spelling of the hexadecimal digit n. */
  predicate Spells(c: char, n: nat) {
    n < 16 && (c == LOWER_DIGITS[n] || c == UPPER_DIGITS[n])
  }

  lemma DigitSpelled(c: char, n: nat)
    requires Spells(c, n)
    ensures IsHex(c) && HexValue(c) == n && c != '%' && c != '+'
  {
  }

  /** Exactly the spelled digits are hexadecimal. */
  lemma HexExactly(c: char)
    ensures IsHex(c) <==> exists n :: Spells(c, n)
  {
    if IsHex(c) {
      assert Spells(c, HexValue(c));
    }
    if n :| Spells(c, n) {
      DigitSpelled(c, n);
    }
  }

  /** What stands before an escape or a character that is no escape is decoded on its own, provided it
      does not end in the middle of one. */
  lemma {:induction false} DecodedAfter(before: string, rest: string, plusToSpace: bool)
    requires '%' !in before
    ensures Decoded(before + rest, plusToSpace) == Decoded(before, plusToSpace) + Decoded(rest, plusToSpace)
  {
    if before == "" {
      assert before + rest == rest;
    } else {
      assert (before + rest)[1..] == before[1..] + rest;
      DecodedAfter(before[1..], rest, plusToSpace);
    }
  }

  /** An escape, in either spelling of its digits, is decoded to its byte, wherever it stands. */
  lemma EscapeDecoded(before: string, high: char, low: char, n: Byte, rest: string, plusToSpace: bool)
    requires '%' !in before && Spells(high, n / 16) && Spells(low, n % 16)
    ensures Decoded(before + (['%', high, low] + rest), plusToSpace)
         == Decoded(before, plusToSpace) + ([n as char] + Decoded(rest, plusToSpace))
  {
    DigitSpelled(high, n / 16);
    DigitSpelled(low, n % 16);
    hide IsHex, HexValue, Spells, Decoded;
    OneEscape(high, low, n, rest, plusToSpace);
    DecodedAfter(before, ['%', high, low] + rest, plusToSpace);
  }

  /** Unescaping an escape gives its byte. */
  lemma EscapeUnescaped(high: char, low: char, n: Byte, plusToSpace: bool)
    requires Spells(high, n / 16) && Spells(low, n % 16)
    ensures Unescaped(['%', high, low], plusToSpace) == Some([n as char])
  {
    DigitSpelled(high, n / 16);
    DigitSpelled(low, n % 16);
    hide IsHex, HexValue, Spells;
    OneEscape(high, low, n, "", plusToSpace);
    assert ['%', high, low] + "" == ['%', high, low] && [n as char] + Decoded("", plusToSpace) == [n as char];
  }

  lemma OneEscape(high: char, low: char, n: Byte, rest: string, plusToSpace: bool)
    requires IsHex(high) && IsHex(low) && HexValue(high) == n / 16 && HexValue(low) == n % 16
    ensures Decoded(['%', high, low] + rest, plusToSpace) == [n as char] + Decoded(rest, plusToSpace)
  {
    hide IsHex, HexValue;
    var s := ['%', high, low] + rest;
    assert s[3..] == rest;
  }

  /** A percent sign without two digits behind it stands for itself. */
  lemma PercentKept(before: string, rest: string, plusToSpace: bool)
    requires '%' !in before && !EscapeAt("%" + rest, 0)
    ensures Decoded(before + ("%" + rest), plusToSpace)
         == Decoded(before, plusToSpace) + ("%" + Decoded(rest, plusToSpace))
  {
    var s := "%" + rest;
    assert s[1..] == rest;
    DecodedAfter(before, s, plusToSpace);
    hide IsHex, HexValue;
  }

  /** A plus is a space if that is asked for, and itself otherwise. */
  lemma PlusDecoded(before: string, rest: string, plusToSpace: bool)
    requires '%' !in before
    ensures Decoded(before + ("+" + rest), plusToSpace)
         == Decoded(before, plusToSpace) + ((if plusToSpace then " " else "+") + Decoded(rest, plusToSpace))
  {
    var s := "+" + rest;
    assert s[1..] == rest;
    DecodedAfter(before, s, plusToSpace);
    hide IsHex, HexValue;
  }

  /** What escaping does to one byte: letters, digits, dot and underscore stay, a space becomes a plus,
      and every other byte its two lower-case digits. */
  lemma EscapedByPosition(n: Byte)
    ensures var c := n as char;
            Escaped([c])
            == if '0' <= c <= '9' || 'A' <= c <= 'Z' || 'a' <= c <= 'z' || c == '.' || c == '_' then [c]
               else if c == ' ' then "+"
               else ['%', LOWER_DIGITS[n / 16], LOWER_DIGITS[n % 16]]
  {
    assert [n as char][1..] == "";
    DigitByPosition(n / 16);
    DigitByPosition(n % 16);
    hide HexDigit;
  }

  lemma DigitByPosition(n: nat)
    requires n < 16
    ensures HexDigit(n) == LOWER_DIGITS[n]
  {
  }
}
