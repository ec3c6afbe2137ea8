/** Invitation links: printing one, and reading a link or a bare code back. */
module Invite {
  import opened Wrappers
  import opened Text

  // --- Characters and text --------------------------------------------------------------

  predicate IsLetter(c: char) {
    'a' <= c <= 'z' || 'A' <= c <= 'Z'
  }

  predicate IsAlnum(c: char) {
    IsLetter(c) || '0' <= c <= '9'
  }

  function TrimStart(s: string): string {
    if s != "" && IsSpace(s[0]) then TrimStart(s[1..]) else s
  }

  function TrimEnd(s: string): string {
    if s != "" && IsSpace(s[|s| - 1]) then TrimEnd(s[..|s| - 1]) else s
  }

  function Trim(s: string): string {
    TrimEnd(TrimStart(s))
  }

  function StripSlashes(s: string): string {
    if s != "" && s[|s| - 1] == '/' then StripSlashes(s[..|s| - 1]) else s
  }

  function TrimSlashes(origin: string): string {
    StripSlashes(Trim(origin))
  }

  /** Where c first occurs, or -1. */
  function IndexOf(s: string, c: char): (i: int)
    ensures i == -1 ==> c !in s
    ensures i != -1 ==> 0 <= i < |s| && s[i] == c && c !in s[..i] && forall j :: 0 <= j < i ==> s[j] != c
  {
    if s == "" then -1
    else if s[0] == c then 0
    else
      var i := IndexOf(s[1..], c);
      assert s == [s[0]] + s[1..];
      if i == -1 then -1
      else
        assert s[..i + 1] == [s[0]] + s[1..][..i];
        i + 1
  }

  predicate EndsWith(s: string, tail: string) {
    |s| >= |tail| && s[|s| - |tail|..] == tail
  }

  // --- Percent encoding --------------------------------------------------------------------

  const UPPER_DIGITS := "0123456789ABCDEF"

  predicate IsUnreserved(c: char) {
    || IsAlnum(c) || c == '-' || c == '_' || c == '.' || c == '!' || c == '~' || c == '*'
    || c == '\'' || c == '(' || c == ')'
  }

  function Percent(b: int): (s: string)
    requires 0 <= b < 256
    ensures |s| == 3
  {
    ['%', UPPER_DIGITS[b / 16], UPPER_DIGITS[b % 16]]
  }

  /** The bytes of a character in UTF-8, percent-encoded. */
  function EncodedChar(c: char): string {
    var n := c as int;
    if IsUnreserved(c) then [c]
    else if n < 0x80 then Percent(n)
    else if n < 0x800 then Percent(0xC0 + n / 64) + Percent(0x80 + n % 64)
    else if n < 0x10000 then Percent(0xE0 + n / 4096) + Percent(0x80 + n / 64 % 64) + Percent(0x80 + n % 64)
    else
      Percent(0xF0 + n / 262144 % 8) + Percent(0x80 + n / 4096 % 64) + Percent(0x80 + n / 64 % 64)
      + Percent(0x80 + n % 64)
  }

  function EncodeComponent(s: string): string {
    if s == "" then "" else EncodedChar(s[0]) + EncodeComponent(s[1..])
  }

  /** The byte of a percent triplet at position i, or -1. */
  function ByteAt(s: string, i: nat): (b: int)
    ensures b < 256
  {
    if i + 2 < |s| && s[i] == '%' && HexValue(s[i + 1]) >= 0 && HexValue(s[i + 2]) >= 0
    then 16 * HexValue(s[i + 1]) + HexValue(s[i + 2]) else -1
  }

  function Tail(s: string, i: nat): int {
    var b := ByteAt(s, i);
    if 0x80 <= b < 0xC0 then b - 0x80 else -1
  }

  /** The character encoded at the front of s and how many characters that took; None when malformed. */
  function DecodedFront(s: string): (r: Option<(char, nat)>)
    requires s != ""
    ensures r.Some? ==> 0 < r.value.1 <= |s|
  {
    if s[0] != '%' then Some((s[0], 1))
    else
      var b := ByteAt(s, 0);
      var t1, t2, t3 := Tail(s, 3), Tail(s, 6), Tail(s, 9);
      if b < 0 then None
      else if b < 0x80 then Some((b as char, 3))
      else if 0xC2 <= b < 0xE0 && t1 >= 0 then Some(((64 * (b - 0xC0) + t1) as char, 6))
      else if 0xE0 <= b < 0xF0 && t1 >= 0 && t2 >= 0 then
        var n := 4096 * (b - 0xE0) + 64 * t1 + t2;
        if n >= 0x800 && !(0xD800 <= n < 0xE000) then Some((n as char, 9)) else None
      else if 0xF0 <= b < 0xF5 && t1 >= 0 && t2 >= 0 && t3 >= 0 then
        var n := 262144 * (b - 0xF0) + 4096 * t1 + 64 * t2 + t3;
        if 0x10000 <= n < 0x110000 then Some((n as char, 12)) else None
      else None
  }

  function DecodeComponent(s: string): Option<string> {
    if s == "" then Some("")
    else
      match DecodedFront(s)
      case None => None
      case Some((c, n)) =>
        match DecodeComponent(s[n..])
        case None => None
        case Some(rest) => Some([c] + rest)
  }

  // --- Links -----------------------------------------------------------------------------------

  predicate IsCode(s: string) {
    3 <= |s| <= 64 && IsAlnum(s[0]) && forall i :: 0 <= i < |s| ==> IsAlnum(s[i]) || s[i] == '_' || s[i] == '-'
  }

  function InviteLink(code: string, origin: string): string {
    TrimSlashes(origin) + "/#/join?code=" + EncodeComponent(Trim(code))
  }

  datatype Parsed = Parsed(server: string, code: string)

  /** The value of a name among pairs joined by '&'. */
  function FindPair(query: string, name: string): Option<string> {
    var amp := IndexOf(query, '&');
    var pair := if amp < 0 then query else query[..amp];
    var eq := IndexOf(pair, '=');
    if eq >= 0 && pair[..eq] == name then Some(pair[eq + 1..])
    else if amp < 0 then None
    else FindPair(query[amp + 1..], name)
  }

  function QueryParam(part: string, name: string): Option<string> {
    var q := IndexOf(part, '?');
    FindPair(if q >= 0 then part[q + 1..] else if IndexOf(part, '=') >= 0 then part else "", name)
  }

  predicate IsBare(s: string) {
    IndexOf(s, '/') < 0 && IndexOf(s, '?') < 0 && IndexOf(s, '#') < 0 && IndexOf(s, ':') < 0
  }

  predicate IsSchemeChar(c: char) {
    IsAlnum(c) || c == '+' || c == '.' || c == '-'
  }

  /** Starts with a letter, scheme characters and "://". */
  predicate HasScheme(s: string) {
    var i := IndexOf(s, ':');
    i > 0 && IsLetter(s[0]) && (forall j :: 0 <= j < i ==> IsSchemeChar(s[j])) && i + 3 <= |s| && s[i..i + 3] == "://"
  }

  function WithoutJoin(s: string): string {
    if EndsWith(s, "/join") then s[..|s| - 5] else s
  }

  function BeforeQuery(base: string): string {
    var q := IndexOf(base, '?');
    if q < 0 then base else base[..q]
  }

  function ServerOf(base: string): string {
    var server := WithoutJoin(TrimSlashes(BeforeQuery(base)));
    if server != "" && !HasScheme(server) then "https://" + server else server
  }

  function ParseInviteLink(value: string): Option<Parsed> {
    var s := Trim(value);
    if s == "" then None
    else if IsBare(s) then if IsCode(s) then Some(Parsed("", s)) else None
    else
      var hash := IndexOf(s, '#');
      var base := if hash < 0 then s else s[..hash];
      var fragment := if hash < 0 then "" else s[hash + 1..];
      var raw := match QueryParam(fragment, "code") case Some(v) => Some(v) case None => QueryParam(base, "code");
      if raw.None? then None
      else
        var code := match DecodeComponent(raw.value) case Some(d) => Trim(d) case None => Trim(raw.value);
        if IsCode(code) then Some(Parsed(ServerOf(base), code)) else None
  }

  // --- Small facts ---------------------------------------------------------------------------

  lemma FirstAt(s: string, c: char, i: int)
    requires 0 <= i < |s| && s[i] == c && c !in s[..i]
    ensures IndexOf(s, c) == i
  {
    forall j | 0 <= j < i ensures s[j] != c {
      assert s[..i][j] == s[j];
    }
    assert IndexOf(s, c) != -1;
  }

  lemma NotThere(s: string, c: char)
    requires c !in s
    ensures IndexOf(s, c) == -1
  {}

  lemma {:induction false} TrimEndMeans(s: string)
    ensures TrimEnd(s) <= s && (TrimEnd(s) != "" ==> !IsSpace(TrimEnd(s)[|TrimEnd(s)| - 1]))
  {
    if s != "" && IsSpace(s[|s| - 1]) {
      TrimEndMeans(s[..|s| - 1]);
    }
  }

  lemma {:induction false} TrimStartMeans(s: string)
    ensures TrimStart(s) != "" ==> !IsSpace(TrimStart(s)[0])
    ensures forall c :: c in TrimStart(s) ==> c in s
  {
    if s != "" && IsSpace(s[0]) {
      TrimStartMeans(s[1..]);
    }
  }

  lemma {:induction false} StripMeans(s: string)
    ensures StripSlashes(s) <= s && (StripSlashes(s) != "" ==> StripSlashes(s)[|StripSlashes(s)| - 1] != '/')
  {
    if s != "" && s[|s| - 1] == '/' {
      StripMeans(s[..|s| - 1]);
    }
  }

  /** A trimmed origin starts with no space and ends with no slash. */
  lemma TrimmedShape(origin: string)
    ensures var b := TrimSlashes(origin);
            && (b != "" ==> !IsSpace(b[0]) && b[|b| - 1] != '/')
            && forall c :: c in b ==> c in origin
  {
    var t := TrimStart(origin);
    TrimStartMeans(origin);
    TrimEndMeans(t);
    StripMeans(TrimEnd(t));
    hide TrimStart, TrimEnd, StripSlashes, IsSpace;
  }

  lemma NothingToTrim(s: string)
    requires s != "" ==> !IsSpace(s[0]) && !IsSpace(s[|s| - 1])
    ensures Trim(s) == s
  {}

  lemma TrimmedWithSlash(b: string)
    requires b != "" ==> !IsSpace(b[0]) && b[|b| - 1] != '/'
    ensures TrimSlashes(b + "/") == b
  {
    var t := b + "/";
    assert t[0] == if b == "" then '/' else b[0];
    assert !IsSpace('/');
    hide IsSpace;
    NothingToTrim(t);
    assert t[..|t| - 1] == b && t[|t| - 1] == '/';
    assert StripSlashes(t) == StripSlashes(b);
  }

  lemma {:induction false} PlainEncodes(s: string)
    requires forall c :: c in s ==> IsUnreserved(c)
    ensures EncodeComponent(s) == s
  {
    if s != "" {
      PlainEncodes(s[1..]);
      assert s == [s[0]] + s[1..];
    }
  }

  lemma DigitReads(k: int)
    requires 0 <= k < 16
    ensures HexValue(UPPER_DIGITS[k]) == k
  {
    assert UPPER_DIGITS[0] == '0' && UPPER_DIGITS[5] == '5' && UPPER_DIGITS[9] == '9';
    assert UPPER_DIGITS[10] == 'A' && UPPER_DIGITS[15] == 'F';
  }

  /** A percent triplet reads back as its byte. */
  lemma PercentReads(s: string, i: nat, b: int)
    requires 0 <= b < 256 && i + 3 <= |s| && s[i..i + 3] == Percent(b)
    ensures ByteAt(s, i) == b
  {
    var t := s[i..i + 3];
    assert s[i] == t[0] && s[i + 1] == t[1] && s[i + 2] == t[2];
    DigitReads(b / 16);
    DigitReads(b % 16);
    hide HexValue;
  }

  lemma TailReads(s: string, i: nat, low: int)
    requires 0 <= low < 64 && i + 3 <= |s| && s[i..i + 3] == Percent(0x80 + low)
    ensures Tail(s, i) == low
  {
    PercentReads(s, i, 0x80 + low);
    hide ByteAt, Percent;
  }

  /** What lies where behind an encoded front. */
  lemma Pieces(a: string, b: string, c: string, d: string, rest: string)
    requires |a| == 3 && (|b| == 3 || b == "") && (|c| == 3 || c == "") && (|d| == 3 || d == "")
    requires (c != "" ==> b != "") && (d != "" ==> c != "")
    ensures
      var s := a + b + c + d + rest;
      && s[0..3] == a && s[0] == a[0] && (b != "" ==> s[3..6] == b) && (c != "" ==> s[6..9] == c)
      && (d != "" ==> s[9..12] == d)
      && s[|a| + |b| + |c| + |d|..] == rest
  {}

  lemma TwoBytes(n: int)
    requires 0x80 <= n < 0x800
    ensures 0xC2 <= 0xC0 + n / 64 < 0xE0 && 64 * (n / 64) + n % 64 == n
  {}

  /** A percent sign and the two large digits of one byte, at position i. */
  predicate IsTriplet(s: string, i: nat, b: int) {
    && 0 <= b < 256 && i + 2 < |s| && s[i] == '%'
    && s[i + 1] == "0123456789ABCDEF"[b / 16] && s[i + 2] == "0123456789ABCDEF"[b % 16]
  }

  predicate IsLow(b: int) {
    0x80 <= b < 0xC0
  }

  /** What section 3 of RFC 3629 gives a number, in triplets. */
  predicate IsUtf8(s: string, n: int) {
    var a, b, d, e := ByteAt(s, 0), ByteAt(s, 3), ByteAt(s, 6), ByteAt(s, 9);
    if n < 0x80 then |s| == 3 && IsTriplet(s, 0, n)
    else if n < 0x800 then
      && |s| == 6 && IsTriplet(s, 0, a) && IsTriplet(s, 3, b)
      && 0xC0 <= a < 0xE0 && IsLow(b) && n == 64 * (a - 0xC0) + (b - 0x80)
    else if n < 0x10000 then
      && |s| == 9 && IsTriplet(s, 0, a) && IsTriplet(s, 3, b) && IsTriplet(s, 6, d)
      && 0xE0 <= a < 0xF0 && IsLow(b) && IsLow(d) && n == 4096 * (a - 0xE0) + 64 * (b - 0x80) + (d - 0x80)
    else
      && |s| == 12 && IsTriplet(s, 0, a) && IsTriplet(s, 3, b) && IsTriplet(s, 6, d) && IsTriplet(s, 9, e)
      && 0xF0 <= a < 0xF8 && IsLow(b) && IsLow(d) && IsLow(e)
      && n == 262144 * (a - 0xF0) + 4096 * (b - 0x80) + 64 * (d - 0x80) + (e - 0x80)
  }

  /** A character stays as it is or becomes the triplets of its number. */
  lemma EncodedIs(c: char)
    ensures
      if 'a' <= c <= 'z' || 'A' <= c <= 'Z' || '0' <= c <= '9' || c in "-_.!~*'()" then EncodedChar(c) == [c]
      else IsUtf8(EncodedChar(c), c as int)
  {
    Unreserved(c);
    hide IsUnreserved, IsUtf8, Percent;
    var n := c as int;
    if n < 0x80 {
      One(n);
    } else if n < 0x800 {
      TwoBytes(n);
      Two(n, n / 64, n % 64);
    } else if n < 0x10000 {
      ThreeBytes(n);
      Three(n, n / 4096, n / 64 % 64, n % 64);
    } else {
      FourBytes(n);
      Four(n, n / 262144 % 8, n / 4096 % 64, n / 64 % 64, n % 64);
    }
  }

  lemma Unreserved(c: char)
    ensures IsUnreserved(c) <==>
            'a' <= c <= 'z' || 'A' <= c <= 'Z' || '0' <= c <= '9' || c in "-_.!~*'()"
  {}

  lemma One(n: int)
    requires 0 <= n < 0x80
    ensures IsUtf8(Percent(n), n)
  {
    Triplets(n, 0, 0, 0);
    hide IsTriplet, ByteAt, Percent;
  }

  lemma Two(n: int, a: int, b: int)
    requires 0x80 <= n < 0x800 && 0 <= a < 32 && 0 <= b < 64 && n == 64 * a + b
    ensures IsUtf8(Percent(0xC0 + a) + Percent(0x80 + b), n)
  {
    Triplets(0xC0 + a, 0x80 + b, 0, 0);
    hide IsTriplet, ByteAt, Percent;
  }

  lemma Three(n: int, a: int, b: int, d: int)
    requires 0x800 <= n < 0x10000 && 0 <= a < 16 && 0 <= b < 64 && 0 <= d < 64 && n == 4096 * a + 64 * b + d
    ensures IsUtf8(Percent(0xE0 + a) + Percent(0x80 + b) + Percent(0x80 + d), n)
  {
    Triplets(0xE0 + a, 0x80 + b, 0x80 + d, 0);
    hide IsTriplet, ByteAt, Percent;
  }

  lemma Four(n: int, a: int, b: int, d: int, e: int)
    requires 0x10000 <= n < 0x110000 && 0 <= a < 8 && 0 <= b < 64 && 0 <= d < 64 && 0 <= e < 64
    requires n == 262144 * a + 4096 * b + 64 * d + e
    ensures IsUtf8(Percent(0xF0 + a) + Percent(0x80 + b) + Percent(0x80 + d) + Percent(0x80 + e), n)
  {
    Triplets(0xF0 + a, 0x80 + b, 0x80 + d, 0x80 + e);
    hide IsTriplet, ByteAt, Percent;
  }

  lemma Triplets(a: int, b: int, d: int, e: int)
    requires 0 <= a < 256 && 0 <= b < 256 && 0 <= d < 256 && 0 <= e < 256
    ensures |Percent(a)| == 3 && IsTriplet(Percent(a), 0, a)
    ensures var s := Percent(a) + Percent(b);
            |s| == 6 && IsTriplet(s, 0, a) && IsTriplet(s, 3, b) && ByteAt(s, 0) == a && ByteAt(s, 3) == b
    ensures var s := Percent(a) + Percent(b) + Percent(d);
            && |s| == 9 && IsTriplet(s, 0, a) && IsTriplet(s, 3, b) && IsTriplet(s, 6, d)
            && ByteAt(s, 0) == a && ByteAt(s, 3) == b && ByteAt(s, 6) == d
    ensures var s := Percent(a) + Percent(b) + Percent(d) + Percent(e);
            && |s| == 12 && IsTriplet(s, 0, a) && IsTriplet(s, 3, b) && IsTriplet(s, 6, d) && IsTriplet(s, 9, e)
            && ByteAt(s, 0) == a && ByteAt(s, 3) == b && ByteAt(s, 6) == d && ByteAt(s, 9) == e
  {
    var s := Percent(a);
    TripletAt(s, 0, a);
    hide IsTriplet, ByteAt, Percent;
    s := s + Percent(b);
    TripletAt(s, 0, a);
    TripletAt(s, 3, b);
    s := s + Percent(d);
    TripletAt(s, 0, a);
    TripletAt(s, 3, b);
    TripletAt(s, 6, d);
    s := s + Percent(e);
    TripletAt(s, 0, a);
    TripletAt(s, 3, b);
    TripletAt(s, 6, d);
    TripletAt(s, 9, e);
  }

  lemma TripletAt(s: string, i: nat, b: int)
    requires 0 <= b < 256 && i + 3 <= |s| && s[i..i + 3] == Percent(b)
    ensures ByteAt(s, i) == b && IsTriplet(s, i, b)
  {
    PercentReads(s, i, b);
    var t := s[i..i + 3];
    assert s[i] == t[0] && s[i + 1] == t[1] && s[i + 2] == t[2];
    hide ByteAt;
  }

  lemma ThreeBytes(n: int)
    requires 0x800 <= n < 0x10000
    ensures 0xE0 <= 0xE0 + n / 4096 < 0xF0 && 4096 * (n / 4096) + 64 * (n / 64 % 64) + n % 64 == n
  {}

  lemma FourBytes(n: int)
    requires 0x10000 <= n < 0x110000
    ensures 0xF0 <= 0xF0 + n / 262144 % 8 < 0xF5
    ensures 262144 * (n / 262144 % 8) + 4096 * (n / 4096 % 64) + 64 * (n / 64 % 64) + n % 64 == n
  {
    assert n / 262144 < 5 && n / 262144 % 8 == n / 262144;
    assert n / 262144 == n / 4096 / 64 && n / 4096 == n / 64 / 64;
  }

  /** An encoded character is what stands in front. */
  lemma FrontReads(c: char, rest: string)
    ensures DecodedFront(EncodedChar(c) + rest) == Some((c, |EncodedChar(c)|))
    ensures (EncodedChar(c) + rest)[|EncodedChar(c)|..] == rest
  {
    var n, s := c as int, EncodedChar(c) + rest;
    hide HexValue, ByteAt, Tail, Percent;
    if IsUnreserved(c) {
      assert c != '%';
    } else if n < 0x80 {
      FirstTriplet(n, rest);
    } else if n < 0x800 {
      TwoTriplets(n, rest);
    } else if n < 0x10000 {
      ThreeTriplets(n, rest);
    } else {
      FourTriplets(n, rest);
    }
  }

  lemma StartsPercent(b: int)
    requires 0 <= b < 256
    ensures |Percent(b)| == 3 && Percent(b)[0] == '%'
  {}

  lemma FirstTriplet(b: int, rest: string)
    requires 0 <= b < 256
    ensures var s := Percent(b) + rest; s[0] == '%' && ByteAt(s, 0) == b && s[3..] == rest
  {
    StartsPercent(b);
    assert (Percent(b) + rest)[0..3] == Percent(b);
    PercentReads(Percent(b) + rest, 0, b);
    hide ByteAt, Percent;
  }

  lemma TwoTriplets(n: int, rest: string)
    requires 0x80 <= n < 0x800
    ensures
      var s := Percent(0xC0 + n / 64) + Percent(0x80 + n % 64) + rest;
      && s[0] == '%' && ByteAt(s, 0) == 0xC0 + n / 64 && Tail(s, 3) == n % 64 && s[6..] == rest
      && 0xC2 <= 0xC0 + n / 64 < 0xE0 && 64 * (n / 64) + n % 64 == n && |s| >= 6
  {
    TwoBytes(n);
    var a, b := 0xC0 + n / 64, n % 64;
    StartsPercent(a);
    StartsPercent(0x80 + b);
    hide ByteAt, Percent, Tail;
    Pieces(Percent(a), Percent(0x80 + b), "", "", rest);
    var s := Percent(a) + Percent(0x80 + b) + rest;
    assert s == Percent(a) + Percent(0x80 + b) + "" + "" + rest;
    PercentReads(s, 0, a);
    TailReads(s, 3, b);
  }

  lemma ThreeTriplets(n: int, rest: string)
    requires 0x800 <= n < 0x10000
    ensures
      var s := Percent(0xE0 + n / 4096) + Percent(0x80 + n / 64 % 64) + Percent(0x80 + n % 64) + rest;
      && s[0] == '%' && ByteAt(s, 0) == 0xE0 + n / 4096 && Tail(s, 3) == n / 64 % 64 && Tail(s, 6) == n % 64
      && s[9..] == rest && 0xE0 <= 0xE0 + n / 4096 < 0xF0 && |s| >= 9
      && 4096 * (n / 4096) + 64 * (n / 64 % 64) + n % 64 == n
  {
    ThreeBytes(n);
    var a, b, c := 0xE0 + n / 4096, n / 64 % 64, n % 64;
    StartsPercent(a);
    StartsPercent(0x80 + b);
    StartsPercent(0x80 + c);
    hide ByteAt, Percent, Tail;
    Pieces(Percent(a), Percent(0x80 + b), Percent(0x80 + c), "", rest);
    var s := Percent(a) + Percent(0x80 + b) + Percent(0x80 + c) + rest;
    assert s == Percent(a) + Percent(0x80 + b) + Percent(0x80 + c) + "" + rest;
    PercentReads(s, 0, a);
    TailReads(s, 3, b);
    TailReads(s, 6, c);
  }

  lemma FourTriplets(n: int, rest: string)
    requires 0x10000 <= n < 0x110000
    ensures
      var s := Percent(0xF0 + n / 262144 % 8) + Percent(0x80 + n / 4096 % 64) + Percent(0x80 + n / 64 % 64)
               + Percent(0x80 + n % 64) + rest;
      && s[0] == '%' && ByteAt(s, 0) == 0xF0 + n / 262144 % 8 && s[12..] == rest
      && Tail(s, 3) == n / 4096 % 64 && Tail(s, 6) == n / 64 % 64 && Tail(s, 9) == n % 64
      && 0xF0 <= 0xF0 + n / 262144 % 8 < 0xF5 && |s| >= 12
      && 262144 * (n / 262144 % 8) + 4096 * (n / 4096 % 64) + 64 * (n / 64 % 64) + n % 64 == n
  {
    FourBytes(n);
    var a, b, c, d := 0xF0 + n / 262144 % 8, n / 4096 % 64, n / 64 % 64, n % 64;
    StartsPercent(a);
    StartsPercent(0x80 + b);
    StartsPercent(0x80 + c);
    StartsPercent(0x80 + d);
    hide ByteAt, Percent, Tail;
    Pieces(Percent(a), Percent(0x80 + b), Percent(0x80 + c), Percent(0x80 + d), rest);
    var s := Percent(a) + Percent(0x80 + b) + Percent(0x80 + c) + Percent(0x80 + d) + rest;
    PercentReads(s, 0, a);
    TailReads(s, 3, b);
    TailReads(s, 6, c);
    TailReads(s, 9, d);
  }

  lemma NotEmpty(c: char)
    ensures EncodedChar(c) != ""
  {
    hide IsUnreserved;
  }

  lemma DecodesFirst(c: char, t: string)
    requires DecodeComponent(t).Some?
    ensures DecodeComponent(EncodedChar(c) + t) == Some([c] + DecodeComponent(t).value)
  {
    FrontReads(c, t);
    NotEmpty(c);
    hide EncodedChar, DecodedFront;
  }

  lemma EncodesFirst(s: string)
    requires s != ""
    ensures EncodeComponent(s) == EncodedChar(s[0]) + EncodeComponent(s[1..]) && s == [s[0]] + s[1..]
  {
    FirstAndRest(s);
    hide EncodedChar;
  }

  lemma FirstAndRest(s: string)
    requires s != ""
    ensures s == [s[0]] + s[1..]
  {
    hide *;
  }

  /** Any text reads back from its percent encoding. */
  lemma {:induction false} EncodingReadsBack(s: string)
    ensures DecodeComponent(EncodeComponent(s)) == Some(s)
  {
    if s != "" {
      hide *;
      EncodingReadsBack(s[1..]);
      EncodesFirst(s);
      DecodesFirst(s[0], EncodeComponent(s[1..]));
    }
  }

  /** The characters that divide a link or an encoding. */
  predicate Divides(c: char) {
    c == '/' || c == '?' || c == '#' || c == ':' || c == '&' || c == '=' || c == '%'
  }

  /** A code prints and reads as itself and holds none of the characters that divide a link. */
  lemma CodeIsPlain(code: string)
    requires IsCode(code)
    ensures EncodeComponent(code) == code && DecodeComponent(code) == Some(code) && Trim(code) == code
    ensures forall c :: Divides(c) ==> c !in code
    ensures !IsSpace(code[|code| - 1])
  {
    CodeChars(code);
    assert code[0] in code && code[|code| - 1] in code;
    assert Divides('%');
    hide IsCode, IsUnreserved, IsSpace, Divides;
    PlainEncodes(code);
    EncodingReadsBack(code);
    NothingToTrim(code);
  }

  lemma CodeChars(code: string)
    requires IsCode(code)
    ensures forall c :: c in code ==> IsUnreserved(c) && !Divides(c) && !IsSpace(c)
  {
    forall c | c in code ensures IsUnreserved(c) && !Divides(c) && !IsSpace(c) {
      var i :| 0 <= i < |code| && code[i] == c;
    }
  }

  lemma PairIsFound(name: string, value: string)
    requires '=' !in name && '&' !in name && '&' !in value
    ensures FindPair(name + "=" + value, name) == Some(value)
  {
    var pair := name + "=" + value;
    NotThere(pair, '&');
    FirstAt(pair, '=', |name|);
    assert pair[..|name|] == name && pair[|name| + 1..] == value;
    hide IndexOf;
  }

  lemma QueryFollows(path: string, query: string, name: string)
    requires '?' !in path
    ensures QueryParam(path + "?" + query, name) == FindPair(query, name)
  {
    hide IndexOf, FindPair;
    var part := path + "?" + query;
    assert part[..|path|] == path && part[|path| + 1..] == query;
    FirstAt(part, '?', |path|);
  }

  lemma QuerySplits(path: string, code: string)
    ensures path + "?code=" + code == path + "?" + ("code=" + code)
    ensures "code=" + code == "code" + "=" + code
  {
    assert "?code=" == "?" + "code=" && "code=" == "code" + "=";
  }

  lemma NameIsPlain()
    ensures '=' !in "code" && '&' !in "code"
  {}

  lemma CodeHasNoAmp(code: string)
    requires IsCode(code)
    ensures '&' !in code
  {
    CodeChars(code);
    assert Divides('&');
    hide IsCode, IsUnreserved, IsSpace;
  }

  lemma CodeIsFound(path: string, code: string)
    requires IsCode(code) && '?' !in path
    ensures QueryParam(path + "?code=" + code, "code") == Some(code)
  {
    hide *;
    CodeHasNoAmp(code);
    NameIsPlain();
    var name := "code";
    PairIsFound(name, code);
    QueryFollows(path, name + "=" + code, name);
    QuerySplits(path, code);
  }

  // --- What the parser gives ---------------------------------------------------------------------

  lemma WithoutJoinMeans(s: string)
    ensures WithoutJoin(s) <= s
  {}

  lemma PartOf(part: string, whole: string, c: char)
    requires part <= whole && c !in whole
    ensures c !in part
  {}

  /** Whatever parses carries a well-formed code, and a server without query or fragment. */
  lemma ParsedShape(value: string)
    requires ParseInviteLink(value).Some?
    ensures var r := ParseInviteLink(value).value;
            IsCode(r.code) && '#' !in r.server && '?' !in r.server && (r.server != "" ==> HasScheme(r.server))
  {
    var s := Trim(value);
    if !IsBare(s) {
      var hash := IndexOf(s, '#');
      var base := if hash < 0 then s else s[..hash];
      assert '#' !in base;
      hide *;
      ServerShape(base);
      assert ParseInviteLink(value).value.server == ServerOf(base) && IsCode(ParseInviteLink(value).value.code) by {
        ParsedParts(value);
      }
    }
  }

  lemma ParsedParts(value: string)
    requires ParseInviteLink(value).Some? && !IsBare(Trim(value))
    ensures var s := Trim(value);
            var hash := IndexOf(s, '#');
            && ParseInviteLink(value).value.server == ServerOf(if hash < 0 then s else s[..hash])
            && IsCode(ParseInviteLink(value).value.code)
  {
    hide Trim, IndexOf, ServerOf, QueryParam, DecodeComponent, IsCode, IsBare;
  }

  lemma ServerShape(base: string)
    requires '#' !in base
    ensures '#' !in ServerOf(base) && '?' !in ServerOf(base)
    ensures ServerOf(base) != "" ==> HasScheme(ServerOf(base))
  {
    BeforeQueryShape(base);
    hide BeforeQuery, TrimSlashes, WithoutJoin, HasScheme, IndexOf;
    TrimmedShape(BeforeQuery(base));
    var trimmed := TrimSlashes(BeforeQuery(base));
    WithoutJoinMeans(trimmed);
    var server := WithoutJoin(trimmed);
    PartOf(server, trimmed, '#');
    PartOf(server, trimmed, '?');
    GetsScheme(server);
    assert '#' !in "https://" && '?' !in "https://";
  }

  lemma BeforeQueryShape(base: string)
    ensures '?' !in BeforeQuery(base) && ('#' !in base ==> '#' !in BeforeQuery(base))
  {
    hide IndexOf;
    if IndexOf(base, '?') >= 0 {
      PrefixChars(base, IndexOf(base, '?'));
    }
  }

  lemma PrefixChars(s: string, i: nat)
    requires i <= |s|
    ensures forall c :: c in s[..i] ==> c in s
  {}

  lemma GetsScheme(server: string)
    ensures HasScheme("https://" + server)
  {
    var full := "https://" + server;
    FirstAt(full, ':', 5);
    assert full[5..8] == "://";
    assert forall j :: 0 <= j < 5 ==> full[j] == "https"[j];
    hide IndexOf;
  }

  // --- Round trip ------------------------------------------------------------------------------------

  /** The origins whose links name them again. */
  predicate Faithful(base: string) {
    && '#' !in base && '?' !in base && !EndsWith(base, "/join") && (base == "" || HasScheme(base))
  }

  lemma LinkIsTrimmed(base: string, code: string)
    requires IsCode(code) && (base != "" ==> !IsSpace(base[0]))
    ensures Trim(base + "/#/join?code=" + code) == base + "/#/join?code=" + code
  {
    CodeIsPlain(code);
    var link := base + "/#/join?code=" + code;
    assert link[0] == if base == "" then '/' else base[0];
    assert link[|link| - 1] == code[|code| - 1];
    hide EncodeComponent, DecodeComponent, IsCode;
    NothingToTrim(link);
  }

  /** A link whose origin has no fragment carries its code, and the server in front of it. */
  lemma LinkParses(base: string, code: string)
    requires IsCode(code) && (base != "" ==> !IsSpace(base[0])) && '#' !in base
    ensures ParseInviteLink(base + "/#/join?code=" + code) == Some(Parsed(ServerOf(base + "/"), code))
  {
    var link := base + "/#/join?code=" + code;
    var i := |base| + 1;
    hide Trim, IndexOf, ServerOf, QueryParam, DecodeComponent, EncodeComponent, IsCode, IsSpace, Divides;
    LinkIsTrimmed(base, code);
    CodeIsPlain(code);
    CodeIsFound("/join", code);
    LinkPieces(base, code);
    FirstAt(link, '#', i);
    assert "/join" + "?code=" + code == "/join?code=" + code;
  }

  lemma LinkPieces(base: string, code: string)
    requires '#' !in base
    ensures var link, i := base + "/#/join?code=" + code, |base| + 1;
            && i < |link| && link[..i] == base + "/" && link[i] == '#' && link[i + 1..] == "/join?code=" + code
            && '#' !in link[..i] && !IsBare(link)
  {
    var link, i := base + "/#/join?code=" + code, |base| + 1;
    assert link[..i] == base + "/";
    assert link[i - 1] == '/';
    hide IndexOf;
    assert IndexOf(link, '/') != -1;
  }

  lemma ServerIsBase(base: string)
    requires '?' !in base && (base != "" ==> !IsSpace(base[0]) && base[|base| - 1] != '/')
    ensures ServerOf(base + "/") == base <==> !EndsWith(base, "/join") && (base == "" || HasScheme(base))
  {
    NotThere(base + "/", '?');
    TrimmedWithSlash(base);
    hide HasScheme, TrimSlashes, IndexOf;
    var server := WithoutJoin(base);
    assert |"https://" + server| == |server| + 8;
  }

  /**
   Round trip: a link reads back as the trimmed code and the trimmed origin exactly when
   the trimmed code is well formed and the trimmed origin is empty or has a scheme, holds
   no '?' and no '#', and does not end in "/join".
   */
  lemma InviteRoundTrip(code: string, origin: string)
    ensures ParseInviteLink(InviteLink(code, origin)) == Some(Parsed(TrimSlashes(origin), Trim(code)))
            <==> IsCode(Trim(code)) && Faithful(TrimSlashes(origin))
  {
    var link := InviteLink(code, origin);
    if !IsCode(Trim(code)) {
      hide *;
      if ParseInviteLink(link).Some? { ParsedShape(link); }
    } else {
      PrintedShape(code, origin);
      TrimmedShape(origin);
      hide *;
      BaseRoundTrip(TrimSlashes(origin), Trim(code));
    }
  }

  lemma PrintedShape(code: string, origin: string)
    requires IsCode(Trim(code))
    ensures InviteLink(code, origin) == TrimSlashes(origin) + "/#/join?code=" + Trim(code)
  {
    CodeIsPlain(Trim(code));
    hide TrimSlashes, Trim, IsCode, IsSpace, Divides, EncodeComponent, DecodeComponent;
  }

  lemma BaseRoundTrip(base: string, code: string)
    requires IsCode(code) && (base != "" ==> !IsSpace(base[0]) && base[|base| - 1] != '/')
    ensures ParseInviteLink(base + "/#/join?code=" + code) == Some(Parsed(base, code)) <==> Faithful(base)
  {
    var link := base + "/#/join?code=" + code;
    hide ParseInviteLink, ServerOf, HasScheme, EndsWith, IsSpace, IsCode;
    if '#' !in base {
      LinkParses(base, code);
      if '?' !in base {
        ServerIsBase(base);
      } else {
        ParsedShape(link);
      }
    } else if ParseInviteLink(link).Some? {
      ParsedShape(link);
    }
  }

  predicate IsOneOf(c: char) {
    'a' <= c <= 'z' || 'A' <= c <= 'Z' || '0' <= c <= '9' || c == '_' || c == '-'
  }

  /**
   What is no link, with space around it or not: 3 to 64 letters, digits, underscores and hyphens
   that start with a letter or digit read as themselves, and nothing else reads at all.
   */
  lemma BareCodeReads(value: string)
    requires forall c :: c in Trim(value) ==> c !in "/?#:"
    ensures
      var s := Trim(value);
      ParseInviteLink(value) ==
      if 3 <= |s| <= 64 && s[0] != '_' && s[0] != '-' && forall i :: 0 <= i < |s| ==> IsOneOf(s[i])
      then Some(Parsed("", s)) else None
  {
    var s := Trim(value);
    hide Trim;
    NotThere(s, '/');
    NotThere(s, '?');
    NotThere(s, '#');
    NotThere(s, ':');
    hide IndexOf;
  }

  lemma QueryLinkPieces(base: string, code: string)
    requires IsCode(code) && base != "" && '#' !in base && !IsSpace(base[0])
    ensures var link := base + "/join" + "?code=" + code;
            Trim(link) == link && link != "" && IndexOf(link, '#') == -1 && !IsBare(link)
  {
    var link := base + "/join" + "?code=" + code;
    CodeIsPlain(code);
    assert Divides('#');
    QueryLinkEnds(base, code);
    hide *;
    NothingToTrim(link);
    QueryLinkChars(base, code);
    NotThere(link, '#');
    HasPath(link, |base|);
  }

  lemma QueryLinkEnds(base: string, code: string)
    requires base != "" && code != ""
    ensures var link := base + "/join" + "?code=" + code;
            link != "" && link[0] == base[0] && link[|link| - 1] == code[|code| - 1] && link[|base|] == '/'
  {}

  lemma QueryLinkChars(base: string, code: string)
    requires '#' !in base && '#' !in code
    ensures '#' !in base + "/join" + "?code=" + code
  {
    assert '#' !in "/join" && '#' !in "?code=";
  }

  lemma HasPath(link: string, i: nat)
    requires i < |link| && link[i] == '/'
    ensures !IsBare(link)
  {
    assert IndexOf(link, '/') != -1;
  }

  lemma NothingAsked()
    ensures QueryParam("", "code") == None
  {
    NotThere("", '?');
    NotThere("", '=');
    NotThere("", '&');
  }

  lemma PathServer(base: string, code: string)
    requires base != "" && Faithful(base) && !IsSpace(base[0])
    ensures ServerOf(base + "/join" + "?code=" + code) == base
  {
    var path := base + "/join";
    var link := path + "?code=" + code;
    assert link[..|path|] == path;
    FirstAt(link, '?', |path|);
    NothingToTrim(path);
    assert TrimSlashes(path) == path;
    assert path[|path| - 5..] == "/join" && path[..|path| - 5] == base;
    hide HasScheme, TrimSlashes, IndexOf;
  }

  /** A link without a fragment. */
  lemma QueryLinkParses(link: string, code: string)
    requires Trim(link) == link && link != "" && !IsBare(link) && IndexOf(link, '#') == -1
    requires QueryParam("", "code") == None && QueryParam(link, "code") == Some(code)
    requires DecodeComponent(code) == Some(code) && Trim(code) == code && IsCode(code)
    ensures ParseInviteLink(link) == Some(Parsed(ServerOf(link), code))
  {
    hide Trim, IndexOf, ServerOf, QueryParam, DecodeComponent, IsCode, IsBare;
  }

  /** A link that carries the code in its query names the same server. */
  lemma QueryLinkReads(base: string, code: string)
    requires IsCode(code) && base != "" && Faithful(base) && !IsSpace(base[0])
    ensures ParseInviteLink(base + "/join?code=" + code) == Some(Parsed(base, code))
  {
    var path := base + "/join";
    var link := path + "?code=" + code;
    assert base + "/join?code=" + code == link;
    PathHasNoQuery(base);
    hide *;
    QueryLinkPieces(base, code);
    CodeIsPlain(code);
    CodeIsFound(path, code);
    NothingAsked();
    PathServer(base, code);
    QueryLinkParses(link, code);
  }

  lemma PathHasNoQuery(base: string)
    requires Faithful(base)
    ensures '#' !in base && '?' !in base + "/join"
  {
    assert '?' !in "/join";
  }
}
