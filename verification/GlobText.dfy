/** What glob patterns say about texts, byte for byte: literals, case, wildcards, escapes and classes. */
module GlobText {
  import opened Bytes
  import opened Glob

  /** Equal, or the two cases of one ASCII letter. */
  predicate SameLetter(a: Byte, b: Byte) {
    a == b || (65 <= a <= 90 && b == a + 32) || (65 <= b <= 90 && a == b + 32)
  }

  /** How two bytes compare in either mode. */
  predicate Same(a: Byte, b: Byte, nocase: bool) { if nocase then SameLetter(a, b) else a == b }

  lemma LowerIsSame(a: Byte, b: Byte, nocase: bool)
    ensures ByteEq(a, b, nocase) == Same(a, b, nocase)
  {
  }

  predicate SameText(a: seq<Byte>, b: seq<Byte>, nocase: bool) {
    |a| == |b| && forall i :: 0 <= i < |a| ==> Same(a[i], b[i], nocase)
  }

  /** Neither `*`, `?`, `[` nor `\`. */
  predicate IsLiteral(b: Byte) { b != 42 && b != 63 && b != 91 && b != 92 }

  /** A pattern of literal bytes matches exactly the text it spells, up to case where case is ignored. */
  lemma {:induction false} LiteralMatches(pat: seq<Byte>, text: seq<Byte>, nocase: bool)
    requires forall i :: 0 <= i < |pat| ==> IsLiteral(pat[i])
    ensures Matches(pat, text, nocase) <==> SameText(pat, text, nocase)
    decreases |pat|
  {
    if pat != [] && text != [] {
      LowerIsSame(pat[0], text[0], nocase);
      LiteralMatches(pat[1..], text[1..], nocase);
      if SameText(pat[1..], text[1..], nocase) && Same(pat[0], text[0], nocase) {
        forall i | 0 <= i < |pat| ensures Same(pat[i], text[i], nocase) {
          if i > 0 { assert pat[1..][i - 1] == pat[i] && text[1..][i - 1] == text[i]; }
        }
      }
    }
  }

  /** Every text matches a star, every byte a question mark; an escape stands for the byte behind it, at the end for itself. */
  lemma Wildcards(text: seq<Byte>, x: Byte, nocase: bool)
    ensures Matches([42], text, nocase)
    ensures Matches([63], text, nocase) <==> |text| == 1
    ensures Matches([92, x], text, nocase) <==> |text| == 1 && Same(x, text[0], nocase)
    ensures Matches([92], text, nocase) <==> |text| == 1 && text[0] == 92
  {
    LoneStar(text, nocase);
    if text != [] {
      LowerIsSame(x, text[0], nocase);
      LowerIsSame(92, text[0], nocase);
    }
    assert [92, x][2..] == [] && [92][1..] == [] && [63][1..] == [];
  }

  /** A pattern that is one class, on a text of one byte. */
  lemma ClassMatch(pat: seq<Byte>, b: Byte, nocase: bool)
    requires pat != [] && pat[0] == 91
    ensures ClassLen(pat) == |pat| ==> (Matches(pat, [b], nocase) <==> ClassContains(pat, b, nocase))
  {
    assert pat[|pat|..] == [] && [b][1..] == [];
  }

  /** `[x]`, `[^x]` and the unclosed `[x` accept x, all but x, and x, for any x that is not special in a class. */
  lemma OneByteClass(x: Byte, b: Byte, nocase: bool)
    requires x != 92 && x != 93
    ensures x != 94 ==> (Matches([91, x, 93], [b], nocase) <==> Same(x, b, nocase))
    ensures x != 94 ==> (Matches([91, x], [b], nocase) <==> Same(x, b, nocase))
    ensures Matches([91, 94, x, 93], [b], nocase) <==> !Same(x, b, nocase)
  {
    LowerIsSame(x, b, nocase);
    SingleItem([x, 93], x, b, nocase);
    SingleItem([x], x, b, nocase);
    assert [91, x, 93][1..] == [x, 93] && [91, x][1..] == [x] && [91, 94, x, 93][2..] == [x, 93];
    ClassMatch([91, x, 93], b, nocase);
    ClassMatch([91, x], b, nocase);
    ClassMatch([91, 94, x, 93], b, nocase);
  }

  lemma SingleItem(body: seq<Byte>, x: Byte, b: Byte, nocase: bool)
    requires x != 92 && x != 93 && (body == [x, 93] || body == [x])
    ensures ParseItems(body).1 == (if |body| == 2 then [93] else [])
    ensures AnyDenotes(ParseItems(body).0, b, nocase) == Denotes(Single(x), b, nocase)
  {
    assert body[1..] == if |body| == 2 then [93] else [];
    assert ParseItems(body).0 == [Single(x)];
    assert Single(x) in [Single(x)];
  }

  /** `[x-y]` accepts the bytes between its ends, whichever comes first; `[\x]` accepts x alone, whatever the mode. */
  lemma RangeAndEscape(x: Byte, y: Byte, b: Byte, nocase: bool)
    requires x != 92 && x != 93 && x != 94
    ensures Matches([91, x, 45, y, 93], [b], false) <==> x <= b <= y || y <= b <= x
    ensures Matches([91, 92, y, 93], [b], nocase) <==> b == y
  {
    var range: seq<Byte>, escape: seq<Byte> := [x, 45, y, 93], [92, y, 93];
    assert range[3..] == [93] && escape[2..] == [93];
    assert ParseItems(range).0 == [Span(x, y)] && ParseItems(range).1 == [93];
    assert ParseItems(escape).0 == [Escaped(y)] && ParseItems(escape).1 == [93];
    assert Span(x, y) in [Span(x, y)] && Escaped(y) in [Escaped(y)];
    assert [91, x, 45, y, 93][1..] == range && [91, 92, y, 93][1..] == escape;
    ClassMatch([91, x, 45, y, 93], b, false);
    ClassMatch([91, 92, y, 93], b, nocase);
  }

  // ------------------------------------------------------------------ ignoring case

  /** No class of the pattern escapes a byte. */
  predicate ClassesUnescaped(pat: seq<Byte>)
    decreases |pat|
  {
    pat == []
    || (pat[0] == 42 && ClassesUnescaped(pat[1..]))
    || (pat[0] != 42 && (pat[0] == 91 ==> 92 !in pat[..ClassLen(pat)]) && ClassesUnescaped(pat[ElementLen(pat)..]))
  }

  /** Where case is ignored, the case of the text's letters does not matter; escaped class bytes are the exception. */
  lemma {:induction false} CaseOfTextIsIgnored(pat: seq<Byte>, text: seq<Byte>, other: seq<Byte>)
    requires ClassesUnescaped(pat) && SameText(text, other, true)
    ensures Matches(pat, text, true) <==> Matches(pat, other, true)
    decreases |pat| + |text|
  {
    if pat != [] {
      if text != [] {
        assert SameText(text[1..], other[1..], true);
        LowerIsSame(text[0], other[0], true);
      }
      if pat[0] == 42 {
        CaseOfTextIsIgnored(pat[1..], text, other);
        if text != [] { CaseOfTextIsIgnored(pat, text[1..], other[1..]); }
      } else if text != [] {
        CaseOfTextIsIgnored(pat[ElementLen(pat)..], text[1..], other[1..]);
        ElementIgnoresCase(pat, text[0], other[0]);
      }
    }
  }

  lemma ElementIgnoresCase(pat: seq<Byte>, a: Byte, b: Byte)
    requires pat != [] && (pat[0] == 91 ==> 92 !in pat[..ClassLen(pat)]) && Lower(a) == Lower(b)
    ensures ElementAccepts(pat, a, true) == ElementAccepts(pat, b, true)
  {
    if pat[0] == 91 {
      var body := ClassBody(pat);
      var (items, rest) := ParseItems(body);
      var skip := |pat| - |body|;
      assert forall i :: 0 <= i < |body| - |rest| ==> body[i] == pat[..ClassLen(pat)][skip + i];
      PlainItems(body);
      assert forall item :: item in items ==> Denotes(item, a, true) == Denotes(item, b, true);
    }
  }

  lemma {:induction false} PlainItems(body: seq<Byte>)
    requires var n := |body| - |ParseItems(body).1|; forall i :: 0 <= i < n ==> body[i] != 92
    ensures forall item :: item in ParseItems(body).0 ==> !item.Escaped?
    decreases |body|
  {
    if body != [] && body[0] != CLOSE {
      var n := HeadItem(body).1;
      PlainItems(body[n..]);
    }
  }

  /** The exception at work: `[\a]` takes "a" and refuses "A", even where case is ignored. */
  lemma EscapedClassByteKeepsCase()
    ensures Matches([91, 92, 97, 93], [97], true) && !Matches([91, 92, 97, 93], [65], true)
  {
    RangeAndEscape(0, 97, 97, true);
    RangeAndEscape(0, 97, 65, true);
  }
}
