/** Text for badges and pages: grouped numbers, printed by two loops, and escaped SVG labels. */
module Printing {
  import opened AlertKeys

  // ---------- Grouped numbers ----------

  /** The text in groups of three from the right. */
  function Grouped(s: string, sep: string): string {
    if |s| <= 3 then s else Grouped(s[..|s| - 3], sep) + sep + s[|s| - 3..]
  }

  /** What the badge's loop has written after `i` characters of `n`. */
  function Written(s: string, i: nat, n: int, sep: string): string
    requires i <= |s|
  {
    if i == 0 then ""
    else Written(s, i - 1, n, sep) + (if i > 1 && (n - i + 1) % 3 == 0 then sep else "") + [s[i - 1]]
  }

  lemma {:induction false} WrittenInFewer(s: string, i: nat, n: int, sep: string)
    requires i + 3 <= |s|
    ensures Written(s, i, n, sep) == Written(s[..|s| - 3], i, n - 3, sep)
  {
    if i > 0 {
      WrittenInFewer(s, i - 1, n, sep);
    }
  }

  lemma {:induction false} WrittenIsGrouped(s: string, sep: string)
    ensures Written(s, |s|, |s|, sep) == Grouped(s, sep)
  {
    var n := |s|;
    if n <= 3 {
      ShortIsWritten(s, n, sep);
    } else {
      var front := s[..n - 3];
      WrittenIsGrouped(front, sep);
      WrittenInFewer(s, n - 3, n, sep);
      assert Written(s, n - 2, n, sep) == Grouped(front, sep) + sep + [s[n - 3]];
      assert Written(s, n - 1, n, sep) == Grouped(front, sep) + sep + [s[n - 3], s[n - 2]];
      assert Written(s, n, n, sep) == Grouped(front, sep) + sep + [s[n - 3], s[n - 2], s[n - 1]];
      assert s[n - 3..] == [s[n - 3], s[n - 2], s[n - 1]];
    }
  }

  lemma {:induction false} ShortIsWritten(s: string, i: nat, sep: string)
    requires i <= |s| <= 3
    ensures Written(s, i, |s|, sep) == s[..i]
  {
    if i > 0 {
      ShortIsWritten(s, i - 1, sep);
    }
  }

  /** `formatBadgeNumber`. */
  method FormatBadgeNumber(n: int) returns (text: string)
    ensures text == Grouped(Itoa(n), ",")
  {
    var s := Itoa(n);
    if |s| <= 3 {
      return s;
    }
    text := "";
    for i := 0 to |s|
      invariant text == Written(s, i, |s|, ",")
    {
      if i > 0 && (|s| - i) % 3 == 0 {
        text := text + ",";
      }
      text := text + [s[i]];
    }
    WrittenIsGrouped(s, ",");
  }

  function GroupSep(locale: string): string {
    if locale == "es" || locale == "de" || locale == "pt-br" then "."
    else if locale == "fr" then " "
    else ","
  }

  /** `groupedCount`, for a locale already normalized. */
  method GroupedCount(n: int, locale: string) returns (text: string)
    ensures text == Grouped(Itoa(n), GroupSep(locale))
  {
    ItoaIsNotEmpty(n);
    text := GroupText(Itoa(n), GroupSep(locale));
  }

  method GroupText(s: string, sep: string) returns (text: string)
    requires s != ""
    ensures text == Grouped(s, sep)
  {
    var start := |s| % 3;
    if start == 0 {
      start := 3;
    }
    text := s[..start];
    var i := start;
    while i < |s|
      invariant 0 < i <= |s| && (|s| - i) % 3 == 0
      invariant text == Grouped(s[..i], sep)
    {
      assert i + 3 <= |s|;
      OneMoreGroup(s, i, sep);
      text := text + sep + s[i..i + 3];
      i := i + 3;
    }
    assert s[..|s|] == s;
  }

  lemma OneMoreGroup(s: string, i: nat, sep: string)
    requires 0 < i && i + 3 <= |s|
    ensures Grouped(s[..i + 3], sep) == Grouped(s[..i], sep) + sep + s[i..i + 3]
  {
    var t := s[..i + 3];
    assert t[..i] == s[..i] && t[i..] == s[i..i + 3];
  }

  lemma ItoaIsNotEmpty(n: int)
    ensures |Itoa(n)| > 0
  {
    AtoiOfItoa(n);
  }

  function Without(s: string, c: char): string {
    if s == "" then "" else Without(s[..|s| - 1], c) + (if s[|s| - 1] == c then "" else [s[|s| - 1]])
  }

  lemma {:induction false} WithoutConcat(a: string, b: string, c: char)
    ensures Without(a + b, c) == Without(a, c) + Without(b, c)
  {
    if b == "" {
      assert a + b == a;
    } else {
      assert (a + b)[..|a + b| - 1] == a + b[..|b| - 1];
      WithoutConcat(a, b[..|b| - 1], c);
    }
  }

  lemma {:induction false} NothingToDelete(s: string, c: char)
    requires c !in s
    ensures Without(s, c) == s
  {
    if s != "" {
      NothingToDelete(s[..|s| - 1], c);
    }
  }

  lemma OneSeparator(a: string, c: char, b: string)
    ensures Without(a + [c] + b, c) == Without(a, c) + Without(b, c)
  {
    WithoutConcat(a + [c], b, c);
    SeparatorAtEnd(a, c);
  }

  lemma SeparatorAtEnd(a: string, c: char)
    ensures Without(a + [c], c) == Without(a, c)
  {
    var s := a + [c];
    assert s[..|s| - 1] == a;
    assert Without(a, c) + "" == Without(a, c);
  }

  lemma {:induction false} UngroupText(s: string, c: char)
    requires c !in s
    ensures Without(Grouped(s, [c]), c) == s
  {
    if |s| <= 3 {
      NothingToDelete(s, c);
    } else {
      var n := |s| - 3;
      var front, back := s[..n], s[n..];
      UngroupText(front, c);
      NothingToDelete(back, c);
      OneSeparator(Grouped(front, [c]), c, back);
      assert front + back == s;
    }
  }

  lemma ItoaIsPlain(n: int, c: char)
    requires c == ',' || c == '.' || c == ' '
    ensures c !in Itoa(n)
  {
    var m: nat := if n < 0 then -n else n;
    assert AllDigits(Digits(m)) by {
      DigitsRoundTrip(m);
    }
    DigitsArePlain(Digits(m), c);
  }

  lemma DigitsArePlain(s: string, c: char)
    requires AllDigits(s) && (c == ',' || c == '.' || c == ' ')
    ensures c !in s && c !in "-" + s
  {
  }

  /** Deleting the separators of any locale gives back the decimal digits, and so the number. */
  lemma UngroupNumber(n: int, locale: string)
    ensures |GroupSep(locale)| == 1
    ensures Without(Grouped(Itoa(n), GroupSep(locale)), GroupSep(locale)[0]) == Itoa(n)
    ensures Atoi(Without(Grouped(Itoa(n), GroupSep(locale)), GroupSep(locale)[0])) == n
  {
    var sep := GroupSep(locale);
    ItoaIsPlain(n, sep[0]);
    UngroupText(Itoa(n), sep[0]);
    AtoiOfItoa(n);
  }

  // ---------- Escaped text ----------

  /** `strings.ReplaceAll` of one character. */
  function ReplaceAll(s: string, c: char, with: string): string {
    if s == "" then "" else (if s[0] == c then with else [s[0]]) + ReplaceAll(s[1..], c, with)
  }

  const Amp := "&amp;"
  const Lt := "&lt;"
  const Gt := "&gt;"
  const Quot := "&quot;"

  function SvgEscape(s: string): string {
    ReplaceAll(ReplaceAll(ReplaceAll(ReplaceAll(s, '&', Amp), '<', Lt), '>', Gt), '"', Quot)
  }

  function EscapedChar(c: char): string {
    if c == '&' then Amp else if c == '<' then Lt else if c == '>' then Gt else if c == '"' then Quot else [c]
  }

  /** One pass over the characters. */
  function Escaped(s: string): string {
    if s == "" then "" else EscapedChar(s[0]) + Escaped(s[1..])
  }

  /** The predefined entities of section 4.6 of XML 1.0 that the escape uses, read back. */
  function Decoded(s: string): string {
    if s == "" then ""
    else if Amp <= s then "&" + Decoded(s[5..])
    else if Lt <= s then "<" + Decoded(s[4..])
    else if Gt <= s then ">" + Decoded(s[4..])
    else if Quot <= s then "\"" + Decoded(s[6..])
    else [s[0]] + Decoded(s[1..])
  }

  lemma {:induction false} ReplaceConcat(a: string, b: string, c: char, with: string)
    ensures ReplaceAll(a + b, c, with) == ReplaceAll(a, c, with) + ReplaceAll(b, c, with)
  {
    if a == "" {
      assert a + b == b;
    } else {
      assert (a + b)[1..] == a[1..] + b;
      ReplaceConcat(a[1..], b, c, with);
    }
  }

  lemma {:induction false} NothingToReplace(s: string, c: char, with: string)
    requires c !in s
    ensures ReplaceAll(s, c, with) == s
  {
    if s != "" {
      NothingToReplace(s[1..], c, with);
    }
  }

  lemma EntitiesArePlain()
    ensures '<' !in Amp && '>' !in Amp && '"' !in Amp
    ensures '>' !in Lt && '"' !in Lt
    ensures '"' !in Gt
  {
  }

  lemma SvgEscapeConcat(a: string, b: string)
    ensures SvgEscape(a + b) == SvgEscape(a) + SvgEscape(b)
  {
    ReplaceConcat(a, b, '&', Amp);
    var a1, b1 := ReplaceAll(a, '&', Amp), ReplaceAll(b, '&', Amp);
    ReplaceConcat(a1, b1, '<', Lt);
    var a2, b2 := ReplaceAll(a1, '<', Lt), ReplaceAll(b1, '<', Lt);
    ReplaceConcat(a2, b2, '>', Gt);
    ReplaceConcat(ReplaceAll(a2, '>', Gt), ReplaceAll(b2, '>', Gt), '"', Quot);
  }

  lemma ReplaceOne(c: char, d: char, with: string)
    ensures ReplaceAll([c], d, with) == if c == d then with else [c]
  {
    assert ReplaceAll([c][1..], d, with) == "";
  }

  lemma SvgEscapeOne(c: char)
    ensures SvgEscape([c]) == EscapedChar(c)
  {
    EntitiesArePlain();
    ReplaceOne(c, '&', Amp);
    ReplaceOne(c, '<', Lt);
    ReplaceOne(c, '>', Gt);
    ReplaceOne(c, '"', Quot);
    if c == '&' {
      NothingToReplace(Amp, '<', Lt);
      NothingToReplace(Amp, '>', Gt);
      NothingToReplace(Amp, '"', Quot);
    } else if c == '<' {
      NothingToReplace(Lt, '>', Gt);
      NothingToReplace(Lt, '"', Quot);
    } else if c == '>' {
      NothingToReplace(Gt, '"', Quot);
    }
  }

  /** The four replacements, one after the other, equal one pass: none touches another's output. */
  lemma {:induction false} SvgEscapeIsOnePass(s: string)
    ensures SvgEscape(s) == Escaped(s)
  {
    if s != "" {
      assert s == [s[0]] + s[1..];
      SvgEscapeConcat([s[0]], s[1..]);
      SvgEscapeOne(s[0]);
      SvgEscapeIsOnePass(s[1..]);
    }
  }

  lemma DecodedEntity(c: char, rest: string)
    ensures Decoded(EscapedChar(c) + rest) == [c] + Decoded(rest)
  {
    var s := EscapedChar(c) + rest;
    if c == '&' {
      assert Amp <= s && s[5..] == rest;
    } else if c == '<' {
      assert s[1] == 'l' && Lt <= s && s[4..] == rest;
    } else if c == '>' {
      assert s[1] == 'g' && Gt <= s && s[4..] == rest;
    } else if c == '"' {
      assert s[1] == 'q' && Quot <= s && s[6..] == rest;
    } else {
      assert s[0] == c && s[1..] == rest;
    }
  }

  lemma {:induction false} EscapedDecodes(s: string)
    ensures Decoded(Escaped(s)) == s
  {
    if s != "" {
      DecodedEntity(s[0], Escaped(s[1..]));
      EscapedDecodes(s[1..]);
    }
  }

  /** Decoding undoes the escape, for every text. */
  lemma SvgEscapeRoundTrip(s: string)
    ensures Decoded(SvgEscape(s)) == s
  {
    SvgEscapeIsOnePass(s);
    EscapedDecodes(s);
  }

  /** Nothing of the text can open a tag or end an attribute. */
  lemma {:induction false} EscapedIsInert(s: string)
    ensures '<' !in Escaped(s) && '>' !in Escaped(s) && '"' !in Escaped(s)
  {
    if s != "" {
      EscapedIsInert(s[1..]);
      var head := EscapedChar(s[0]);
      assert '<' !in head && '>' !in head && '"' !in head;
    }
  }
}
