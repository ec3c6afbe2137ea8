/** Sixteen-byte identifiers and their text, as the server and the web client each read and write it. */
module Ids {
  import opened Wrappers
  import opened Bytes

  type Id = b: Bytes | |b| == 16 witness seq(16, _ => 0)

  /** Thirty-two digits in the groups 8-4-4-4-12. */
  function Dashed(h: string): (s: string)
    requires |h| == 32
    ensures |s| == 36
  {
    h[0..8] + "-" + h[8..12] + "-" + h[12..16] + "-" + h[16..20] + "-" + h[20..32]
  }

  /** The server's String; the web client's bytesToUuid gives the same for sixteen bytes. */
  function IdText(id: Id): string {
    Dashed(Hex(id))
  }

  function NoDashes(s: string): (r: string)
    ensures forall i :: 0 <= i < |r| ==> r[i] != '-' && r[i] in s
  {
    if s == "" then ""
    else if s[|s| - 1] == '-' then NoDashes(s[..|s| - 1])
    else NoDashes(s[..|s| - 1]) + [s[|s| - 1]]
  }

  /** The server's parser: dashes anywhere or nowhere, digits in either case. */
  function ParseID(s: string): Option<Id> {
    var t := LowerAll(NoDashes(s));
    if |t| == 32 && AllDigits(t) then Some(Unhex(t)) else None
  }

  predicate IsDashAt(i: int) {
    i == 8 || i == 13 || i == 18 || i == 23
  }

  /** Dashes where the canonical form has them and nowhere else. */
  predicate DashesInPlace(s: string) {
    |s| == 36 && forall i :: 0 <= i < 36 ==> (s[i] == '-' <==> IsDashAt(i))
  }

  /** What the client's regular expression matches: small digits in the canonical groups. */
  predicate IsUuid(s: string) {
    |s| == 36 && forall i :: 0 <= i < 36 ==> if IsDashAt(i) then s[i] == '-' else IsDigit(s[i])
  }

  /** The web client's parser. */
  function UuidToBytes(s: string): Option<Id> {
    var l := LowerAll(s);
    if !IsUuid(l) then None
    else
      UuidDigits(l);
      Some(Unhex(NoDashes(l)))
  }

  // --- Dashes in and out ------------------------------------------------------

  lemma {:induction false} NoDashesAdds(a: string, b: string)
    ensures NoDashes(a + b) == NoDashes(a) + NoDashes(b)
  {
    if b == "" {
      assert a + b == a;
    } else {
      assert (a + b)[..|a + b| - 1] == a + b[..|b| - 1];
      NoDashesAdds(a, b[..|b| - 1]);
    }
  }

  lemma {:induction false} NoDashesKeeps(s: string)
    requires '-' !in s
    ensures NoDashes(s) == s
  {
    if s != "" {
      NoDashesKeeps(s[..|s| - 1]);
      assert s[..|s| - 1] + [s[|s| - 1]] == s;
    }
  }

  lemma NoDashesGroup(a: string, s: string)
    requires '-' !in s
    ensures NoDashes(a + "-" + s) == NoDashes(a) + s
  {
    NoDashesAdds(a + "-", s);
    NoDashesAdds(a, "-");
    assert NoDashes("-") == "" by {
      assert "-"[..0] == "";
    }
    NoDashesKeeps(s);
  }

  /** Five groups around four dashes lose the dashes and nothing else. */
  lemma NoDashesDashed(h: string)
    requires |h| == 32 && '-' !in h
    ensures NoDashes(Dashed(h)) == h
  {
    hide NoDashes;
    NoDashesKeeps(h[0..8]);
    NoDashesGroup(h[0..8], h[8..12]);
    NoDashesGroup(h[0..8] + "-" + h[8..12], h[12..16]);
    NoDashesGroup(h[0..8] + "-" + h[8..12] + "-" + h[12..16], h[16..20]);
    NoDashesGroup(h[0..8] + "-" + h[8..12] + "-" + h[12..16] + "-" + h[16..20], h[20..32]);
    assert h == h[0..8] + h[8..12] + h[12..16] + h[16..20] + h[20..32];
  }

  /** A string with its dashes in place is what its other characters look like when dashed. */
  lemma DashesRestored(s: string)
    requires DashesInPlace(s)
    ensures |NoDashes(s)| == 32 && Dashed(NoDashes(s)) == s
  {
    var h := s[0..8] + s[9..13] + s[14..18] + s[19..23] + s[24..36];
    assert s == s[0..8] + "-" + s[9..13] + "-" + s[14..18] + "-" + s[19..23] + "-" + s[24..36];
    assert h[0..8] == s[0..8] && h[8..12] == s[9..13] && h[12..16] == s[14..18] && h[16..20] == s[19..23]
           && h[20..32] == s[24..36];
    assert s == Dashed(h);
    hide IsDashAt;
    assert '-' !in h by {
      forall i | 0 <= i < 32 ensures h[i] != '-' {
        GroupsHaveNoDash(s, h, i);
      }
    }
    NoDashesDashed(h);
  }

  lemma GroupsHaveNoDash(s: string, h: string, i: nat)
    requires DashesInPlace(s) && i < 32
    requires h == s[0..8] + s[9..13] + s[14..18] + s[19..23] + s[24..36]
    ensures h[i] != '-'
  {
    var j := if i < 8 then i else if i < 12 then i + 1 else if i < 16 then i + 2 else if i < 20 then i + 3 else i + 4;
    assert h[i] == s[j] && !IsDashAt(j);
  }

  /** The dashed form of 32 digits matches the client's pattern. */
  lemma DashedIsUuid(h: string)
    requires |h| == 32 && AllDigits(h)
    ensures IsUuid(Dashed(h)) && DashesInPlace(Dashed(h))
  {
    var s := Dashed(h);
    forall i | 0 <= i < 36 ensures if IsDashAt(i) then s[i] == '-' else IsDigit(s[i]) && s[i] != '-' {
      if !IsDashAt(i) {
        var j :=
          if i < 8 then i else if i < 13 then i - 1 else if i < 18 then i - 2 else if i < 23 then i - 3 else i - 4;
        assert s[i] == h[j];
      }
    }
  }

  lemma UuidDigits(l: string)
    requires IsUuid(l)
    ensures DashesInPlace(l) && |NoDashes(l)| == 32 && AllDigits(NoDashes(l))
  {
    forall i | 0 <= i < 36 ensures l[i] == '-' <==> IsDashAt(i) {}
    DashesRestored(l);
    var h := NoDashes(l);
    forall i | 0 <= i < |h| ensures IsDigit(h[i]) {
      var j :| 0 <= j < |l| && l[j] == h[i];
    }
  }

  lemma {:induction false} LowerThenDashes(s: string)
    ensures NoDashes(LowerAll(s)) == LowerAll(NoDashes(s))
  {
    if s != "" {
      var l := LowerAll(s);
      assert l[..|s| - 1] == LowerAll(s[..|s| - 1]);
      LowerThenDashes(s[..|s| - 1]);
    }
  }

  lemma SmallDigits(s: string)
    requires AllDigits(s)
    ensures '-' !in s && LowerAll(s) == s
  {}

  lemma SmallUuid(s: string)
    requires IsUuid(s)
    ensures LowerAll(s) == s
  {
    forall i | 0 <= i < 36 ensures Lower(s[i]) == s[i] {}
  }

  // --- Round trips and agreement ----------------------------------------------

  /** An identifier's text reads back as that identifier, on the server and in the client. */
  lemma TextRoundTrip(id: Id)
    ensures ParseID(IdText(id)) == Some(id)
    ensures UuidToBytes(IdText(id)) == Some(id)
  {
    var h := Hex(id);
    UnhexHex(id);
    SmallDigits(h);
    NoDashesDashed(h);
    DashedIsUuid(h);
    SmallUuid(Dashed(h));
  }

  /** Where in the text the digits of byte i begin. */
  function DigitsAt(i: nat): nat {
    2 * i + if i < 4 then 0 else if i < 6 then 1 else if i < 8 then 2 else if i < 10 then 3 else 4
  }

  /** The text of an identifier, character by character: two small digits a byte and four dashes. */
  lemma TextIs(id: Id, i: nat)
    requires i < 16
    ensures
      var s := IdText(id);
      && |s| == 36 && s[8] == '-' && s[13] == '-' && s[18] == '-' && s[23] == '-'
      && s[DigitsAt(i)] == "0123456789abcdef"[id[i] as int / 16]
      && s[DigitsAt(i) + 1] == "0123456789abcdef"[id[i] as int % 16]
  {
    HexIs(id, i);
    hide Hex;
    DashedAt(Hex(id), i);
    hide Dashed, DigitsAt;
  }

  lemma DashedAt(h: string, i: nat)
    requires |h| == 32 && i < 16
    ensures var s := Dashed(h);
            && s[8] == '-' && s[13] == '-' && s[18] == '-' && s[23] == '-'
            && DigitsAt(i) + 1 < 36 && s[DigitsAt(i)] == h[2 * i] && s[DigitsAt(i) + 1] == h[2 * i + 1]
  {}

  /** The same character, or the large letter of a small one. */
  predicate SameLetter(given: char, small: char) {
    given == small || ('A' <= given <= 'Z' && small as int == given as int + 32)
  }

  /** Any mixture of small and large letters reads back as the identifier, on the server and in the client. */
  lemma AnyCaseReads(id: Id, s: string)
    requires |s| == 36 && forall i :: 0 <= i < 36 ==> SameLetter(s[i], IdText(id)[i])
    ensures ParseID(s) == Some(id) && UuidToBytes(s) == Some(id)
  {
    var t := IdText(id);
    TextIsSmall(id);
    forall i | 0 <= i < 36 ensures Lower(s[i]) == t[i] {
      assert SameLetter(s[i], t[i]);
    }
    assert LowerAll(s) == t;
    AcceptsTexts(s, id);
    ParsersAgree(s);
    hide ParseID, UuidToBytes, IdText, LowerAll;
  }

  lemma TextIsSmall(id: Id)
    ensures forall i :: 0 <= i < 36 ==> !('A' <= IdText(id)[i] <= 'Z')
  {
    UnhexHex(id);
    DashedIsUuid(Hex(id));
    hide Dashed, Hex;
  }

  /** The client accepts exactly the texts of identifiers, in either case. */
  lemma AcceptsTexts(s: string, id: Id)
    ensures UuidToBytes(s) == Some(id) <==> LowerAll(s) == IdText(id)
  {
    var l := LowerAll(s);
    if IsUuid(l) {
      UuidDigits(l);
      DashesRestored(l);
      HexUnhex(NoDashes(l));
      UnhexHex(id);
      SmallDigits(Hex(id));
      NoDashesDashed(Hex(id));
    } else {
      UnhexHex(id);
      DashedIsUuid(Hex(id));
    }
  }

  lemma LowerKeepsDashes(s: string)
    ensures DashesInPlace(LowerAll(s)) <==> DashesInPlace(s)
  {
    if |s| == 36 {
      forall i | 0 <= i < 36 ensures Lower(s[i]) == '-' <==> s[i] == '-' {}
    }
  }

  /** The client takes what the server takes with its dashes in place, and reads the same bytes. */
  lemma ParsersAgree(s: string)
    ensures UuidToBytes(s) == if DashesInPlace(s) then ParseID(s) else None
  {
    var l := LowerAll(s);
    LowerThenDashes(s);
    LowerKeepsDashes(s);
    if DashesInPlace(s) {
      DashesRestored(l);
      var t := NoDashes(l);
      if AllDigits(t) {
        DashedIsUuid(t);
      } else if IsUuid(l) {
        UuidDigits(l);
      }
    } else if IsUuid(l) {
      UuidDigits(l);
    }
  }

  /** The server reads one identifier from every spelling of its digits. */
  lemma ParseReadsDigits(s: string, id: Id)
    ensures ParseID(s) == Some(id) <==> LowerAll(NoDashes(s)) == Hex(id)
  {
    var t := LowerAll(NoDashes(s));
    UnhexHex(id);
    if |t| == 32 && AllDigits(t) {
      HexUnhex(t);
    }
  }

  /** Different identifiers have different texts. */
  lemma TextsDiffer(a: Id, b: Id)
    requires IdText(a) == IdText(b)
    ensures a == b
  {
    TextRoundTrip(a);
    TextRoundTrip(b);
  }
}
