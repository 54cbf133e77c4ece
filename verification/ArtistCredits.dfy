/** What a credit says, read off its letters: the names between its ampersands with the spaces around them
    gone, and a name's normal form letter by letter (collector_line_artist.py). */
module ArtistCredits {
  import opened ArtistText

  // ----- normal forms, letter by letter -----

  const LETTERS: string := "abcdefghijklmnopqrstuvwxyz0123456789"
  const CAPITALS: string := "ABCDEFGHIJKLMNOPQRSTUVWXYZ"

  lemma {:induction false} LowerJoin(a: string, b: string)
    ensures LowerText(a + b) == LowerText(a) + LowerText(b)
    decreases |a|
  {
    if a == "" {
      assert a + b == b;
    } else {
      LowerJoin(a[1..], b);
      assert (a + b)[1..] == a[1..] + b && (a + b)[0] == a[0];
      assert LowerText(a + b) == Lower(a[0]) + (LowerText(a[1..]) + LowerText(b));
    }
  }

  lemma {:induction false} KeepJoin(a: string, b: string)
    ensures KeepAlphanumeric(a + b) == KeepAlphanumeric(a) + KeepAlphanumeric(b)
    decreases |a|
  {
    if a == "" {
      assert a + b == b;
    } else {
      KeepJoin(a[1..], b);
      assert (a + b)[1..] == a[1..] + b;
    }
  }

  /** The normal form of a text is that of its parts, one after the other. */
  lemma NormalizeJoin(a: string, b: string)
    ensures Normalize(a + b) == Normalize(a) + Normalize(b) && Normalize("") == ""
  {
    LowerJoin(a, b);
    KeepJoin(LowerText(a), LowerText(b));
  }

  lemma OneLetter(c: char)
    ensures Normalize([c]) == KeepAlphanumeric(Lower(c))
    ensures KeepAlphanumeric([c]) == if Alphanumeric(c) then [c] else ""
  {
    assert [c][1..] == "" && Lower(c) + "" == Lower(c);
    assert LowerText([c]) == Lower(c);
  }

  lemma AlphabetInOrder()
    ensures forall i :: 0 <= i < 26 ==> LETTERS[i] as int == 97 + i && CAPITALS[i] as int == 65 + i
    ensures forall i :: 26 <= i < 36 ==> LETTERS[i] as int == 22 + i
  {
  }

  /** A small letter or digit stays and a capital becomes the small letter at its place in the alphabet. */
  lemma NormalizeLetter(i: nat)
    ensures i < 36 ==> Normalize([LETTERS[i]]) == [LETTERS[i]]
    ensures i < 26 ==> Normalize([CAPITALS[i]]) == [LETTERS[i]]
  {
    AlphabetInOrder();
    if i < 36 {
      SmallLetter(LETTERS[i]);
    }
    if i < 26 {
      OneLetter(CAPITALS[i]);
      OneLetter(LETTERS[i]);
      assert Lower(CAPITALS[i]) == [LETTERS[i]];
    }
  }

  lemma SmallLetter(c: char)
    requires Alphanumeric(c)
    ensures Normalize([c]) == [c]
  {
    OneLetter(c);
  }

  lemma InAlphabet(c: char)
    ensures Alphanumeric(c) ==> c in LETTERS
    ensures 'A' <= c <= 'Z' ==> c in CAPITALS
  {
    AlphabetInOrder();
    if 'A' <= c <= 'Z' { assert CAPITALS[c as int - 65] == c; }
    if 'a' <= c <= 'z' { assert LETTERS[c as int - 97] == c; }
    if '0' <= c <= '9' { assert LETTERS[c as int - 22] == c; }
  }

  /** Nothing is left of any other character, but for two whose lower case has a plain letter in it. */
  lemma NormalizeOther(c: char)
    requires c !in LETTERS && c !in CAPITALS
    ensures Normalize([c]) == if c == '\U{212A}' then "k" else if c == '\U{0130}' then "i" else ""
  {
    InAlphabet(c);
    OneLetter(c);
    OneLetter('k');
    KeepJoin("i", ['\U{0307}']);
    OneLetter('i');
    OneLetter('\U{0307}');
    assert ['i', '\U{0307}'] == "i" + ['\U{0307}'];
  }

  // ----- names with spaces around them -----

  /** A name as a credit shows it: the name itself between arbitrary spaces. */
  datatype Padded = Padded(left: string, name: string, right: string)

  predicate AllSpaces(s: string) { forall i :: 0 <= i < |s| ==> Space(s[i]) }

  /** The spaces are outside the name. */
  predicate WellPadded(p: Padded) {
    && AllSpaces(p.left) && AllSpaces(p.right) && '&' !in p.name
    && (p.name != "" ==> !Space(p.name[0]) && !Space(p.name[|p.name| - 1]))
  }

  function Shown(p: Padded): string { p.left + p.name + p.right }

  function ShownAll(ps: seq<Padded>): (r: seq<string>)
    ensures |r| == |ps| && forall i :: 0 <= i < |ps| ==> r[i] == Shown(ps[i])
  {
    if ps == [] then [] else [Shown(ps[0])] + ShownAll(ps[1..])
  }

  lemma {:induction false} StripLeftSpaces(a: string, s: string)
    requires AllSpaces(a) && (s != "" ==> !Space(s[0]))
    ensures StripLeft(a + s) == s
    decreases |a|
  {
    if a == "" {
      assert a + s == s;
    } else {
      assert (a + s)[1..] == a[1..] + s;
      StripLeftSpaces(a[1..], s);
    }
  }

  lemma {:induction false} StripRightSpaces(s: string, b: string)
    requires AllSpaces(b) && (s != "" ==> !Space(s[|s| - 1]))
    ensures StripRight(s + b) == s
    decreases |b|
  {
    if b == "" {
      assert s + b == s;
    } else {
      assert (s + b)[..|s + b| - 1] == s + b[..|b| - 1] && (s + b)[|s + b| - 1] == b[|b| - 1];
      StripRightSpaces(s, b[..|b| - 1]);
    }
  }

  /** Stripping takes the spaces off both ends, all of them and nothing else. */
  lemma StripOfPadded(p: Padded)
    requires WellPadded(p)
    ensures Strip(Shown(p)) == p.name
  {
    if p.name == "" {
      assert Shown(p) == (p.left + p.right) + "";
      StripLeftSpaces(p.left + p.right, "");
    } else {
      assert Shown(p) == p.left + (p.name + p.right) && (p.name + p.right)[0] == p.name[0];
      StripLeftSpaces(p.left, p.name + p.right);
      StripRightSpaces(p.name, p.right);
    }
  }

  /** Every text is a name between spaces. */
  lemma {:induction false} PadOf(text: string) returns (p: Padded)
    requires '&' !in text
    ensures WellPadded(p) && Shown(p) == text
    decreases |text|
  {
    if text != "" && Space(text[0]) {
      var q := PadOf(text[1..]);
      p := Padded([text[0]] + q.left, q.name, q.right);
      assert text == [text[0]] + text[1..];
    } else if text != "" && Space(text[|text| - 1]) {
      var q := PadOf(text[..|text| - 1]);
      p := Padded(q.left, q.name, q.right + [text[|text| - 1]]);
      assert text == text[..|text| - 1] + [text[|text| - 1]];
    } else {
      p := Padded("", text, "");
    }
  }

  // ----- joint credits -----

  ghost predicate AllPadded(ps: seq<Padded>) { ps != [] && forall i :: 0 <= i < |ps| ==> WellPadded(ps[i]) }

  /** Two of the places between the ampersands hold a name. */
  ghost predicate TwoNamed(ps: seq<Padded>) { exists i, j :: 0 <= i < j < |ps| && ps[i].name != "" && ps[j].name != "" }

  ghost predicate OneFilled(parts: seq<string>) { exists i :: 0 <= i < |parts| && parts[i] != "" }

  ghost predicate TwoFilled(parts: seq<string>) { exists i, j :: 0 <= i < j < |parts| && parts[i] != "" && parts[j] != "" }

  lemma FilledStep(first: string, rest: seq<string>)
    ensures OneFilled([first] + rest) <==> first != "" || OneFilled(rest)
    ensures TwoFilled([first] + rest) <==> TwoFilled(rest) || (first != "" && OneFilled(rest))
  {
    var parts := [first] + rest;
    assert parts[0] == first && forall i :: 0 <= i < |rest| ==> parts[i + 1] == rest[i];
    if i :| 0 <= i < |rest| && rest[i] != "" {
      assert parts[i + 1] != "";
    }
    if i, j :| 0 <= i < j < |rest| && rest[i] != "" && rest[j] != "" {
      assert parts[i + 1] != "" && parts[j + 1] != "";
    }
    if i, j :| 0 <= i < j < |parts| && parts[i] != "" && parts[j] != "" {
      assert parts[j] == rest[j - 1] && (i > 0 ==> parts[i] == rest[i - 1]);
    }
  }

  lemma {:induction false} CountFilled(parts: seq<string>)
    ensures CountNonEmpty(parts) >= 1 <==> OneFilled(parts)
    ensures CountNonEmpty(parts) >= 2 <==> TwoFilled(parts)
  {
    if parts != [] {
      CountFilled(parts[1..]);
      FilledStep(parts[0], parts[1..]);
      assert parts == [parts[0]] + parts[1..];
    }
  }

  lemma {:induction false} StrippedNames(ps: seq<Padded>)
    requires forall i :: 0 <= i < |ps| ==> WellPadded(ps[i])
    ensures forall i :: 0 <= i < |ps| ==> Stripped(ShownAll(ps))[i] == ps[i].name
  {
    if ps != [] {
      assert ShownAll(ps)[1..] == ShownAll(ps[1..]);
      StripOfPadded(ps[0]);
      StrippedNames(ps[1..]);
    }
  }

  lemma NamedAreFilled(ps: seq<Padded>, parts: seq<string>)
    requires |parts| == |ps| && forall i :: 0 <= i < |ps| ==> parts[i] == ps[i].name
    ensures TwoFilled(parts) <==> TwoNamed(ps)
  {
    if i, j :| 0 <= i < j < |ps| && ps[i].name != "" && ps[j].name != "" {
      assert parts[i] != "" && parts[j] != "";
    }
  }

  lemma ShownHaveNoAmpersand(ps: seq<Padded>)
    requires AllPadded(ps)
    ensures NoAmpersand(ShownAll(ps))
  {
    forall n | n in ShownAll(ps) ensures '&' !in n {
      var i :| 0 <= i < |ps| && ShownAll(ps)[i] == n;
      assert !Space('&') && WellPadded(ps[i]);
    }
  }

  /** A credit that shows names between ampersands decomposes into exactly those names, wherever spaces
      are; it is not a joint credit when fewer than two of them are there, as with a leading or trailing
      ampersand. */
  lemma JointOfMany(ps: seq<Padded>)
    requires AllPadded(ps)
    ensures var parts := JointComponents(Credit(ShownAll(ps)));
            if TwoNamed(ps) then |parts| == |ps| && forall i :: 0 <= i < |ps| ==> parts[i] == ps[i].name else parts == []
  {
    ShownHaveNoAmpersand(ps);
    JointOfPieces(ShownAll(ps));
    StrippedNames(ps);
    CountFilled(Stripped(ShownAll(ps)));
    NamedAreFilled(ps, Stripped(ShownAll(ps)));
  }

  lemma {:induction false} PadAll(names: seq<string>) returns (ps: seq<Padded>)
    requires NoAmpersand(names)
    ensures |ps| == |names| && ShownAll(ps) == names && forall i :: 0 <= i < |ps| ==> WellPadded(ps[i])
  {
    ps := [];
    if names != [] {
      var first := PadOf(names[0]);
      var rest := PadAll(names[1..]);
      ps := [first] + rest;
      assert ps[1..] == rest;
    }
  }

  /** Every text is such a credit, so nothing is left out. */
  lemma EveryTextIsACredit(text: string) returns (ps: seq<Padded>)
    ensures AllPadded(ps) && Credit(ShownAll(ps)) == text
  {
    var names := PiecesOf(text);
    ps := PadAll(names);
  }

  /** One of the reading's names has this normal form. */
  ghost predicate Reads(r: RecoveredArtist, name: string) { exists n :: n in r.compatibleNames && Normalize(n) == Normalize(name) }

  /** A credit is compatible with a reading exactly if it is empty, is read as a whole, or is joint and has
      one of its own names read, whichever place that has. */
  lemma JointExplainedByComponent(r: RecoveredArtist, ps: seq<Padded>)
    requires AllPadded(ps)
    ensures var credit := Credit(ShownAll(ps));
            r.IsCompatibleWith(credit)
            <==> credit == "" || Reads(r, credit) || (TwoNamed(ps) && exists i :: 0 <= i < |ps| && Reads(r, ps[i].name))
  {
    JointOfMany(ps);
    var credit := Credit(ShownAll(ps));
    ReadsForm(r, credit);
    PartRead(r, ps, JointComponents(credit));
  }

  lemma ReadsForm(r: RecoveredArtist, name: string)
    ensures Normalize(name) in NormalForms(r.compatibleNames) <==> Reads(r, name)
  {
  }

  lemma PartRead(r: RecoveredArtist, ps: seq<Padded>, parts: seq<string>)
    ensures |parts| == |ps| && (forall i :: 0 <= i < |ps| ==> parts[i] == ps[i].name) ==>
              ((exists c :: c in parts && Normalize(c) in NormalForms(r.compatibleNames)) <==> exists i :: 0 <= i < |ps| && Reads(r, ps[i].name))
  {
    if |parts| == |ps| && forall i :: 0 <= i < |ps| ==> parts[i] == ps[i].name {
      if c :| c in parts && Normalize(c) in NormalForms(r.compatibleNames) {
        var i :| 0 <= i < |parts| && parts[i] == c;
        ReadsForm(r, ps[i].name);
      }
      if i :| 0 <= i < |ps| && Reads(r, ps[i].name) {
        ReadsForm(r, ps[i].name);
        assert parts[i] in parts;
      }
    }
  }
}
