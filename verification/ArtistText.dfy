/** Names as collector_line_artist.py compares them, and the contradiction test with its joint
    credits. */
module ArtistText {

  // ----- normal forms -----

  /** `str.lower` as far as ASCII letters and digits can tell. Besides A-Z, only two characters have
      one in their lower-case form without being one: the Kelvin sign and the dotted capital I. */
  function Lower(c: char): string {
    if 'A' <= c <= 'Z' then [((c as int) + 32) as char]
    else if c == '\U{212A}' then "k"
    else if c == '\U{0130}' then ['i', '\U{0307}']
    else [c]
  }

  function LowerText(text: string): string {
    if text == "" then "" else Lower(text[0]) + LowerText(text[1..])
  }

  predicate Alphanumeric(c: char) { 'a' <= c <= 'z' || '0' <= c <= '9' }

  function KeepAlphanumeric(text: string): string {
    if text == "" then "" else (if Alphanumeric(text[0]) then [text[0]] else "") + KeepAlphanumeric(text[1..])
  }

  /** _normalize */
  function Normalize(text: string): string { KeepAlphanumeric(LowerText(text)) }

  // ----- splitting a credit -----

  predicate Space(c: char) {
    || c == ' ' || '\U{0009}' <= c <= '\U{000D}' || '\U{001C}' <= c <= '\U{001F}' || c == '\U{0085}' || c == '\U{00A0}'
    || c == '\U{1680}' || '\U{2000}' <= c <= '\U{200A}' || c == '\U{2028}' || c == '\U{2029}' || c == '\U{202F}'
    || c == '\U{205F}' || c == '\U{3000}'
  }

  function StripLeft(s: string): string {
    if s != "" && Space(s[0]) then StripLeft(s[1..]) else s
  }

  function StripRight(s: string): string {
    if s != "" && Space(s[|s| - 1]) then StripRight(s[..|s| - 1]) else s
  }

  function Strip(s: string): string { StripRight(StripLeft(s)) }

  /** The pieces between ampersands, stripped. The separator pattern also eats the spaces around each
      ampersand, which stripping makes no difference to. */
  function SplitCredit(s: string, piece: string): seq<string>
    decreases |s|
  {
    if s == "" then [Strip(piece)]
    else if s[0] == '&' then [Strip(piece)] + SplitCredit(s[1..], "")
    else SplitCredit(s[1..], piece + [s[0]])
  }

  function CountNonEmpty(parts: seq<string>): nat {
    if parts == [] then 0 else (if parts[0] != "" then 1 else 0) + CountNonEmpty(parts[1..])
  }

  /** _joint_credit_components */
  function JointComponents(artist: string): seq<string> {
    if '&' !in artist then []
    else
      var parts := SplitCredit(artist, "");
      if CountNonEmpty(parts) < 2 then [] else parts
  }

  // ----- readings -----

  datatype RecoveredArtist = RecoveredArtist(candidate: string, ratio: real, compatibleNames: seq<string>) {

    /** The one value that may be stored. */
    function CanonicalName(): string
      requires HasCanonicalName()
    {
      compatibleNames[0]
    }

    predicate HasCanonicalName() { |compatibleNames| == 1 }

    predicate IsCompatibleWith(artist: string) {
      artist == "" ||
      var compatible := NormalForms(compatibleNames);
      Normalize(artist) in compatible || exists c | c in JointComponents(artist) :: Normalize(c) in compatible
    }
  }

  function NormalForms(names: seq<string>): set<string> { set n | n in names :: Normalize(n) }

  // ----- what splitting does -----

  lemma {:induction false} SplitPiece(a: string, rest: string, piece: string)
    requires '&' !in a
    ensures SplitCredit(a + rest, piece) == SplitCredit(rest, piece + a)
    decreases |a|
  {
    if a == "" {
      assert a + rest == rest && piece + a == piece;
    } else {
      assert (a + rest)[1..] == a[1..] + rest;
      SplitPiece(a[1..], rest, piece + [a[0]]);
      assert piece + [a[0]] + a[1..] == piece + a;
    }
  }

  lemma {:induction false} SplitMembers(s: string, piece: string)
    ensures |SplitCredit(s, piece)| >= 1
    ensures '&' !in piece ==> forall c :: c in SplitCredit(s, piece) ==> '&' !in c
    decreases |s|
  {
    if s == "" {
      StripMembers(piece);
    } else if s[0] == '&' {
      SplitMembers(s[1..], "");
      StripMembers(piece);
    } else {
      SplitMembers(s[1..], piece + [s[0]]);
    }
  }

  /** Decomposition goes all the way: no component is itself a joint credit. */
  lemma ComponentsArePlain(artist: string)
    ensures forall c :: c in JointComponents(artist) ==> JointComponents(c) == []
  {
    SplitMembers(artist, "");
  }

  lemma {:induction false} StripMembers(s: string)
    ensures forall c :: c in Strip(s) ==> c in s
  {
    StripLeftMembers(s);
    StripRightMembers(StripLeft(s));
  }

  lemma {:induction false} StripLeftMembers(s: string)
    ensures forall c :: c in StripLeft(s) ==> c in s
  {
    if s != "" && Space(s[0]) {
      StripLeftMembers(s[1..]);
    }
  }

  lemma {:induction false} StripRightMembers(s: string)
    ensures forall c :: c in StripRight(s) ==> c in s
  {
    if s != "" && Space(s[|s| - 1]) {
      StripRightMembers(s[..|s| - 1]);
    }
  }

  /** Names joined by ampersands; `Stripped` is what the code should find in it. */
  function Credit(names: seq<string>): string
    requires names != []
  {
    if |names| == 1 then names[0] else names[0] + "&" + Credit(names[1..])
  }

  function Stripped(names: seq<string>): (r: seq<string>)
    ensures |r| == |names|
  {
    if names == [] then [] else [Strip(names[0])] + Stripped(names[1..])
  }

  ghost predicate NoAmpersand(names: seq<string>) { forall n :: n in names ==> '&' !in n }

  lemma {:induction false} SplitOfCredit(names: seq<string>)
    requires names != [] && NoAmpersand(names)
    ensures SplitCredit(Credit(names), "") == Stripped(names)
  {
    var first, rest := names[0], names[1..];
    if rest == [] {
      assert first + "" == first && "" + first == first;
      SplitPiece(first, "", "");
    } else {
      SplitOfCredit(rest);
      assert "&" + Credit(rest) == ['&'] + Credit(rest) && (['&'] + Credit(rest))[1..] == Credit(rest);
      assert Credit(names) == first + ("&" + Credit(rest)) && "" + first == first;
      SplitPiece(first, "&" + Credit(rest), "");
    }
  }

  lemma {:induction false} CountAtMost(parts: seq<string>)
    ensures CountNonEmpty(parts) <= |parts|
  {
    if parts != [] {
      CountAtMost(parts[1..]);
    }
  }

  lemma JointOfPieces(names: seq<string>)
    requires names != [] && NoAmpersand(names)
    ensures JointComponents(Credit(names)) == if CountNonEmpty(Stripped(names)) >= 2 then Stripped(names) else []
  {
    SplitOfCredit(names);
    CountAtMost(Stripped(names));
    if |names| > 1 {
      assert Credit(names)[|names[0]|] == '&';
    } else {
      assert names[0] in names;
    }
  }

  lemma {:induction false} PiecesOf(text: string) returns (names: seq<string>)
    ensures names != [] && NoAmpersand(names) && Credit(names) == text
    decreases |text|
  {
    if '&' !in text {
      names := [text];
    } else {
      FirstAmpersand(text);
      var i :| 0 <= i < |text| && text[i] == '&' && '&' !in text[..i];
      var rest := PiecesOf(text[i + 1..]);
      names := [text[..i]] + rest;
      assert names[1..] == rest && text == text[..i] + "&" + text[i + 1..];
    }
  }

  lemma {:induction false} FirstAmpersand(text: string)
    requires '&' in text
    ensures exists i :: 0 <= i < |text| && text[i] == '&' && '&' !in text[..i]
  {
    if text[0] == '&' {
      assert '&' !in text[..0];
    } else {
      assert text == [text[0]] + text[1..];
      FirstAmpersand(text[1..]);
      var i :| 0 <= i < |text[1..]| && text[1..][i] == '&' && '&' !in text[1..][..i];
      assert text[..i + 1] == [text[0]] + text[1..][..i];
      assert text[i + 1] == '&';
    }
  }

  // ----- what compatibility promises -----

  /** A plain credit is compared directly; an absent one contradicts nothing. */
  lemma PlainCreditComparedDirectly(r: RecoveredArtist, artist: string)
    requires '&' !in artist && artist != ""
    ensures r.IsCompatibleWith(artist) <==> Normalize(artist) in NormalForms(r.compatibleNames)
  {
  }

  /** And never the other way round: a reading of the joint credit contradicts each of its artists
      alone, and a reading of one artist contradicts the other, unless their normal forms coincide. */
  lemma CompatibilityIsOneWay(r: RecoveredArtist, joint: string, a: string, b: string)
    requires '&' !in a && '&' !in b && a != "" && b != ""
    ensures r.compatibleNames == [joint] ==> (r.IsCompatibleWith(a) <==> Normalize(a) == Normalize(joint))
    ensures r.compatibleNames == [a] ==> (r.IsCompatibleWith(b) <==> Normalize(a) == Normalize(b))
  {
    PlainCreditComparedDirectly(r, a);
    PlainCreditComparedDirectly(r, b);
    assert NormalForms([joint]) == {Normalize(joint)} && NormalForms([a]) == {Normalize(a)};
  }

  /** More plausible names never contradict more. */
  lemma MoreNamesContradictLess(r: RecoveredArtist, wider: RecoveredArtist, artist: string)
    requires forall n :: n in r.compatibleNames ==> n in wider.compatibleNames
    requires r.IsCompatibleWith(artist)
    ensures wider.IsCompatibleWith(artist)
  {
    assert NormalForms(r.compatibleNames) <= NormalForms(wider.compatibleNames);
  }

  /** A component whose normal form is empty matches nothing, so it never decides the test. */
  lemma EmptyComponentNeverMatches(r: RecoveredArtist, artist: string)
    requires artist != "" && forall n :: n in r.compatibleNames ==> Normalize(n) != ""
    ensures "" !in NormalForms(r.compatibleNames)
    ensures r.IsCompatibleWith(artist) <==>
              (Normalize(artist) != "" && Normalize(artist) in NormalForms(r.compatibleNames))
              || exists c :: c in JointComponents(artist) && Normalize(c) != "" && Normalize(c) in NormalForms(r.compatibleNames)
  {
  }
}
