/** Bytes, big-endian numbers and hexadecimal text. */
module Bytes {
  import opened Wrappers
  import opened Text

  type byte = x: int | 0 <= x < 256
  type Bytes = seq<byte>

  // --- Big-endian numbers ---------------------------------------------------

  function Pow256(w: nat): (p: nat)
    ensures p > 0
  {
    if w == 0 then 1 else 256 * Pow256(w - 1)
  }

  /** The w low bytes of v, most significant first. */
  function ToBE(v: nat, w: nat): (b: Bytes)
    ensures |b| == w
  {
    if w == 0 then [] else ToBE(v / 256, w - 1) + [v % 256]
  }

  function FromBE(b: Bytes): (v: nat)
    ensures v < Pow256(|b|)
  {
    if b == [] then 0 else FromBE(b[..|b| - 1]) * 256 + b[|b| - 1]
  }

  lemma {:induction false} ReadsWhatWasWritten(v: nat, w: nat)
    requires v < Pow256(w)
    ensures FromBE(ToBE(v, w)) == v
  {
    if w > 0 {
      ReadsWhatWasWritten(v / 256, w - 1);
      assert ToBE(v, w)[..w - 1] == ToBE(v / 256, w - 1);
    }
  }

  lemma {:induction false} WritesWhatWasRead(b: Bytes)
    ensures ToBE(FromBE(b), |b|) == b
  {
    if b != [] {
      WritesWhatWasRead(b[..|b| - 1]);
      assert b == b[..|b| - 1] + [b[|b| - 1]];
    }
  }

  /** Big-endian: every byte counts in 256 to the power of the bytes after it. */
  predicate IsBigEndian(b: Bytes, v: nat) {
    forall i :: 0 <= i < |b| ==> b[i] == v / Pow256(|b| - 1 - i) % 256
  }

  lemma WritesBigEndian(v: nat, w: nat)
    ensures IsBigEndian(ToBE(v, w), v)
  {
    forall i: nat | i < w
      ensures ToBE(v, w)[i] == v / Pow256(w - 1 - i) % 256
    {
      DigitAt(v, w, i);
    }
    hide ToBE, Pow256;
  }

  lemma {:induction false} DigitAt(v: nat, w: nat, i: nat)
    requires i < w
    ensures ToBE(v, w)[i] == v / Pow256(w - 1 - i) % 256
    decreases w
  {
    if i < w - 1 {
      DigitAt(v / 256, w - 1, i);
      DividesTwice(v, Pow256(w - 2 - i));
    }
  }

  lemma DividesTwice(v: nat, p: nat)
    requires p > 0
    ensures v / 256 / p == v / (256 * p)
  {
    var q, r := v / 256 / p, v / 256 % p;
    var low := v % 256;
    assert v / 256 == q * p + r && v == 256 * (v / 256) + low;
    assert 256 * (q * p) == q * (256 * p);
    Quotient(v, 256 * p, q, 256 * r + low);
  }

  lemma TimesGrows(a: int, b: int, n: nat)
    requires a <= b
    ensures a * n <= b * n
  {}

  lemma Quotient(v: nat, n: nat, q: nat, r: nat)
    requires n > 0 && v == q * n + r && r < n
    ensures v / n == q
  {
    var d := v / n;
    assert v == d * n + v % n && (d + 1) * n == d * n + n && (q + 1) * n == q * n + n;
    if d < q { TimesGrows(d + 1, q, n); }
    if q < d { TimesGrows(q + 1, d, n); }
  }

  lemma Widths()
    ensures Pow256(2) == 0x1_0000 && Pow256(4) == 0x1_0000_0000 && Pow256(8) == 0x1_0000_0000_0000_0000
  {
    assert Pow256(1) == 256;
    assert Pow256(2) == 256 * Pow256(1);
    assert Pow256(3) == 256 * Pow256(2);
    assert Pow256(4) == 256 * Pow256(3);
    assert Pow256(5) == 256 * Pow256(4);
    assert Pow256(6) == 256 * Pow256(5);
    assert Pow256(7) == 256 * Pow256(6);
    assert Pow256(8) == 256 * Pow256(7);
  }

  // --- Hexadecimal text --------------------------------------------------------

  const DIGITS: string := "0123456789abcdef"

  function DigitOf(v: int): char
    requires 0 <= v < 16
  {
    DIGITS[v]
  }

  predicate IsDigit(c: char) {
    '0' <= c <= '9' || 'a' <= c <= 'f'
  }

  /** Letters A to Z become small; characters outside them are never hexadecimal digits or dashes once lowered. */
  function Lower(c: char): char {
    if 'A' <= c <= 'Z' then c + 32 as char else c
  }

  function LowerAll(s: string): (r: string)
    ensures |r| == |s| && forall i :: 0 <= i < |s| ==> r[i] == Lower(s[i])
  {
    seq(|s|, i requires 0 <= i < |s| => Lower(s[i]))
  }

  function ValueOf(c: char): (v: int)
    requires IsDigit(c)
    ensures 0 <= v < 16
  {
    if c <= '9' then c as int - '0' as int else c as int - 'a' as int + 10
  }

  predicate AllDigits(s: string) {
    forall i :: 0 <= i < |s| ==> IsDigit(s[i])
  }

  lemma DigitsMatch(v: int)
    requires 0 <= v < 16
    ensures IsDigit(DigitOf(v)) && ValueOf(DigitOf(v)) == v
  {
    assert DIGITS[0] == '0' && DIGITS[5] == '5' && DIGITS[9] == '9' && DIGITS[10] == 'a' && DIGITS[15] == 'f';
  }

  lemma DigitRestored(c: char)
    requires IsDigit(c)
    ensures DigitOf(ValueOf(c)) == c
  {}

  function Join(high: int, low: int): (b: byte)
    requires 0 <= high < 16 && 0 <= low < 16
  {
    16 * high + low
  }

  function Hex(b: Bytes): (s: string)
    ensures |s| == 2 * |b|
  {
    if b == [] then ""
    else Hex(b[..|b| - 1]) + [DigitOf(b[|b| - 1] / 16), DigitOf(b[|b| - 1] % 16)]
  }

  function Unhex(s: string): (b: Bytes)
    requires AllDigits(s) && |s| % 2 == 0
    ensures 2 * |b| == |s|
  {
    if |s| < 2 then [] else Unhex(s[..|s| - 2]) + [Join(ValueOf(s[|s| - 2]), ValueOf(s[|s| - 1]))]
  }

  lemma {:induction false} HexIsDigits(b: Bytes)
    ensures AllDigits(Hex(b))
  {
    if b != [] {
      HexIsDigits(b[..|b| - 1]);
      DigitsMatch(b[|b| - 1] / 16);
      DigitsMatch(b[|b| - 1] % 16);
      hide IsDigit, DigitOf;
    }
  }

  lemma Nibbles(high: int, low: int)
    requires 0 <= high < 16 && 0 <= low < 16
    ensures Join(high, low) / 16 == high && Join(high, low) % 16 == low
  {}

  lemma HexLast(b: Bytes, last: byte)
    ensures Hex(b + [last]) == Hex(b) + [DigitOf(last / 16), DigitOf(last % 16)]
  {
    hide DigitOf;
    var c := b + [last];
    assert c[..|c| - 1] == b;
  }

  lemma UnhexLast(s: string, high: char, low: char)
    requires AllDigits(s) && |s| % 2 == 0 && IsDigit(high) && IsDigit(low)
    requires AllDigits(s + [high, low])
    ensures Unhex(s + [high, low]) == Unhex(s) + [Join(ValueOf(high), ValueOf(low))]
  {
    hide ValueOf, IsDigit, Join;
    var t := s + [high, low];
    assert t[..|t| - 2] == s;
  }

  lemma ByteRestored(last: byte)
    ensures Join(last / 16, last % 16) == last
    ensures IsDigit(DigitOf(last / 16)) && IsDigit(DigitOf(last % 16))
    ensures ValueOf(DigitOf(last / 16)) == last / 16 && ValueOf(DigitOf(last % 16)) == last % 16
  {
    DigitsMatch(last / 16);
    DigitsMatch(last % 16);
    hide IsDigit, DigitOf, ValueOf;
  }

  lemma HexNothing()
    ensures Hex([]) == "" && Unhex("") == []
  {}

  lemma UnhexHexLast(rest: Bytes, last: byte)
    requires AllDigits(Hex(rest)) && AllDigits(Hex(rest + [last])) && Unhex(Hex(rest)) == rest
    ensures Unhex(Hex(rest + [last])) == rest + [last]
  {
    hide *;
    ByteRestored(last);
    HexLast(rest, last);
    UnhexLast(Hex(rest), DigitOf(last / 16), DigitOf(last % 16));
  }

  lemma {:induction false} UnhexHex(b: Bytes)
    ensures AllDigits(Hex(b)) && Unhex(Hex(b)) == b
  {
    hide *;
    HexIsDigits(b);
    if |b| > 0 {
      UnhexHex(b[..|b| - 1]);
      assert b == b[..|b| - 1] + [b[|b| - 1]];
      UnhexHexLast(b[..|b| - 1], b[|b| - 1]);
    } else {
      HexNothing();
    }
  }

  /** Every byte is two digits, the high half first. */
  lemma {:induction false} HexIs(b: Bytes, i: nat)
    requires i < |b|
    ensures Hex(b)[2 * i] == "0123456789abcdef"[b[i] as int / 16]
    ensures Hex(b)[2 * i + 1] == "0123456789abcdef"[b[i] as int % 16]
  {
    var rest, last := b[..|b| - 1], b[|b| - 1];
    assert b == rest + [last];
    HexLast(rest, last);
    DigitIs(last);
    hide Hex, DigitOf;
    if i < |rest| { HexIs(rest, i); }
  }

  lemma DigitIs(x: byte)
    ensures DigitOf(x / 16) == "0123456789abcdef"[x as int / 16] && DigitOf(x % 16) == "0123456789abcdef"[x as int % 16]
  {}

  lemma DigitsSplit(s: string)
    requires AllDigits(s) && |s| > 1
    ensures AllDigits(s[..|s| - 2]) && IsDigit(s[|s| - 2]) && IsDigit(s[|s| - 1])
    ensures s == s[..|s| - 2] + [s[|s| - 2], s[|s| - 1]]
  {}

  lemma PairRestored(high: char, low: char)
    requires IsDigit(high) && IsDigit(low)
    ensures
      var last := Join(ValueOf(high), ValueOf(low));
      DigitOf(last / 16) == high && DigitOf(last % 16) == low
  {
    DigitRestored(high);
    DigitRestored(low);
    Nibbles(ValueOf(high), ValueOf(low));
    hide IsDigit, DigitOf, ValueOf;
  }

  lemma {:induction false} HexUnhex(s: string)
    requires AllDigits(s) && |s| % 2 == 0
    ensures Hex(Unhex(s)) == s
  {
    if |s| > 1 {
      var n := |s| - 2;
      var rest, high, low := s[..n], s[n], s[n + 1];
      hide *;
      DigitsSplit(s);
      HexUnhex(rest);
      UnhexLast(rest, high, low);
      PairRestored(high, low);
      HexLast(Unhex(rest), Join(ValueOf(high), ValueOf(low)));
    } else {
      HexNothing();
    }
  }

  // --- The loops of the web client ---------------------------------------------

  /** Joins byte strings into one buffer. */
  function Flat(parts: seq<Bytes>): Bytes {
    if parts == [] then [] else Flat(parts[..|parts| - 1]) + parts[|parts| - 1]
  }

  method Concat(parts: seq<Bytes>) returns (joined: Bytes)
    ensures joined == Flat(parts)
  {
    var n := 0;
    var i := 0;
    while i < |parts|
      invariant 0 <= i <= |parts| && n == |Flat(parts[..i])|
    {
      assert parts[..i + 1][..i] == parts[..i];
      n := n + |parts[i]|;
      i := i + 1;
    }
    assert parts[..|parts|] == parts;
    var out := new byte[n];
    var off := 0;
    i := 0;
    while i < |parts|
      invariant 0 <= i <= |parts| && off == |Flat(parts[..i])| <= n
      invariant out[..off] == Flat(parts[..i])
      invariant n == |Flat(parts)|
    {
      assert parts[..i + 1][..i] == parts[..i];
      FlatGrows(parts, i + 1);
      Put(out, off, parts[i]);
      off := off + |parts[i]|;
      i := i + 1;
    }
    joined := out[..];
  }

  lemma {:induction false} FlatGrows(parts: seq<Bytes>, i: nat)
    requires i <= |parts|
    ensures |Flat(parts[..i])| <= |Flat(parts)|
    decreases |parts| - i
  {
    if i == |parts| {
      assert parts[..i] == parts;
    } else {
      assert parts[..i + 1][..i] == parts[..i];
      FlatGrows(parts, i + 1);
    }
  }

  /** Writes a byte string into a buffer at an offset. */
  method Put(out: array<byte>, off: nat, part: Bytes)
    requires off + |part| <= out.Length
    modifies out
    ensures out[..] == old(out[..off]) + part + old(out[off + |part|..])
    ensures out[..off + |part|] == old(out[..off]) + part
  {
    forall i | 0 <= i < |part| {
      out[off + i] := part[i];
    }
  }

  method BytesToHex(b: Bytes) returns (s: string)
    ensures s == Hex(b)
  {
    s := "";
    var i := 0;
    while i < |b|
      invariant 0 <= i <= |b| && s == Hex(b[..i])
    {
      assert b[..i + 1][..i] == b[..i];
      s := s + [DigitOf(b[i] / 16), DigitOf(b[i] % 16)];
      i := i + 1;
    }
    assert b[..|b|] == b;
  }

  /**
   What the runtime parses from two characters as a hexadecimal number: white space and a
   sign are skipped, "0x" is a prefix, and what follows the digits is ignored.
   */
  function PairValue(a: char, b: char): Option<int> {
    if HexValue(a) >= 0 then
      if a == '0' && (b == 'x' || b == 'X') then None
      else if HexValue(b) >= 0 then Some(16 * HexValue(a) + HexValue(b))
      else Some(HexValue(a))
    else if HexValue(b) < 0 then None
    else if a == '-' then Some(-HexValue(b))
    else if a == '+' || IsSpace(a) then Some(HexValue(b))
    else None
  }

  function SkipSpace(s: string): string {
    if s != "" && IsSpace(s[0]) then SkipSpace(s[1..]) else s
  }

  function SkipPrefix(s: string): string {
    if |s| >= 2 && s[0] == '0' && (s[1] == 'x' || s[1] == 'X') then s[2..] else s
  }

  /** The digits at the front of s, read after `before`. */
  function DigitRun(s: string, before: Option<int>): Option<int> {
    if s == "" || HexValue(s[0]) < 0 then before
    else DigitRun(s[1..], Some((if before.Some? then 16 * before.value else 0) + HexValue(s[0])))
  }

  /** What section 19.2.5 of ECMA-262 parses from a text of any length as a hexadecimal number; None when it is none. */
  function ParseInt16(s: string): Option<int> {
    var t := SkipSpace(s);
    var n := DigitRun(SkipPrefix(if t != "" && (t[0] == '-' || t[0] == '+') then t[1..] else t), None);
    if n.Some? && t != "" && t[0] == '-' then Some(-n.value) else n
  }

  lemma RunOfOne(b: char, before: Option<int>)
    ensures DigitRun([b], before) ==
            if HexValue(b) < 0 then before
            else Some((if before.Some? then 16 * before.value else 0) + HexValue(b))
  {
    hide HexValue;
    assert [b][1..] == "";
  }

  lemma RunOfTwo(a: char, b: char)
    ensures DigitRun([a, b], None) == if HexValue(a) < 0 then None else DigitRun([b], Some(HexValue(a)))
  {
    hide HexValue;
    assert [a, b][1..] == [b];
  }

  lemma SkipsSpace(a: char, b: char)
    ensures SkipSpace([b]) == if IsSpace(b) then "" else [b]
    ensures SkipSpace([a, b]) == if IsSpace(a) then SkipSpace([b]) else [a, b]
  {
    hide IsSpace;
    assert [b][1..] == "" && [a, b][1..] == [b];
  }

  /** Two characters are parsed as texts of any length are. */
  lemma PairParses(a: char, b: char)
    ensures PairValue(a, b) == ParseInt16([a, b])
  {
    SkipsSpace(a, b);
    RunOfTwo(a, b);
    RunOfOne(b, if HexValue(a) < 0 then None else Some(HexValue(a)));
    RunOfOne(b, None);
    assert [a, b][1..] == [b] && [a, b][2..] == "" && [b][1..] == "";
    hide SkipSpace, DigitRun;
    assert DigitRun("", None) == None by { RunOfNothing(); }
  }

  lemma RunOfNothing()
    ensures DigitRun("", None) == None
  {}

  /** The i-th pair of a text. */
  function PairAt(s: string, i: nat): Option<int>
    requires 2 * i + 1 < |s|
  {
    PairValue(s[2 * i], s[2 * i + 1])
  }

  predicate PairsParse(s: string) {
    forall i :: 0 <= i < |s| / 2 ==> PairAt(s, i).Some?
  }

  /** Digits parse as their byte. */
  lemma DigitsParse(a: char, b: char)
    requires IsDigit(a) && IsDigit(b)
    ensures PairValue(a, b) == Some(Join(ValueOf(a), ValueOf(b)))
  {}

  /** None is the error for text of odd length, or with a pair that is no number. */
  method HexToBytes(s: string) returns (r: Option<Bytes>)
    ensures r.Some? <==> |s| % 2 == 0 && PairsParse(s)
    ensures r.Some? ==> |r.value| == |s| / 2
    ensures r.Some? ==>
      forall i :: 0 <= i < |r.value| ==> r.value[i] == PairAt(s, i).value % 256
    ensures r.Some? && AllDigits(s) ==> r.value == Unhex(s)
  {
    if |s| % 2 != 0 {
      return None;
    }
    var out := new byte[|s| / 2];
    var i := 0;
    hide PairValue, PairAt, IsDigit, ValueOf, Join, Unhex, AllDigits;
    while i < out.Length
      invariant 0 <= i <= out.Length
      invariant forall j :: 0 <= j < i ==> PairAt(s, j).Some?
      invariant forall j :: 0 <= j < i ==> out[j] == PairAt(s, j).value % 256
    {
      var v := PairValue(s[2 * i], s[2 * i + 1]);
      PairIs(s, i);
      if v.None? {
        return None;
      }
      out[i] := v.value % 256;
      i := i + 1;
    }
    r := Some(out[..]);
    if AllDigits(s) { PairsAreBytes(s, out[..]); }
  }

  lemma PairIs(s: string, i: nat)
    requires 2 * i + 1 < |s|
    ensures PairAt(s, i) == PairValue(s[2 * i], s[2 * i + 1])
  {}

  /** The i-th pair of digits is the i-th byte. */
  lemma {:induction false} PairIsByte(s: string, i: nat)
    requires AllDigits(s) && |s| % 2 == 0 && 2 * i + 1 < |s|
    ensures PairAt(s, i) == Some(Unhex(s)[i] as int)
    decreases |s|
  {
    var n := |s| - 2;
    DigitsSplit(s);
    UnhexLast(s[..n], s[n], s[n + 1]);
    hide PairValue, IsDigit, ValueOf, Join, Unhex;
    if 2 * i < n {
      PairIsByte(s[..n], i);
    } else {
      DigitsParse(s[n], s[n + 1]);
    }
  }

  lemma PairsAreBytes(s: string, b: Bytes)
    requires AllDigits(s) && |s| % 2 == 0 && 2 * |b| == |s|
    requires forall i :: 0 <= i < |b| ==> PairAt(s, i).Some? && b[i] == PairAt(s, i).value % 256
    ensures b == Unhex(s)
  {
    hide *;
    forall i | 0 <= i < |b| ensures b[i] == Unhex(s)[i] {
      PairIsByte(s, i);
    }
  }
}
