/** Glob matching: the single-backtrack-point loop against the nondeterministic meaning of a pattern. */
module Glob {
  import opened Bytes
  import opened Wrappers

  const STAR: Byte := 42
  const QUESTION: Byte := 63
  const OPEN: Byte := 91
  const ESCAPE: Byte := 92
  const CLOSE: Byte := 93
  const CARET: Byte := 94
  const DASH: Byte := 45

  // ------------------------------------------------------------------ byte comparisons

  function Lower(b: Byte): Byte { if 65 <= b <= 90 then b + 32 else b }

  predicate ByteEq(a: Byte, b: Byte, nocase: bool) {
    if nocase then Lower(a) == Lower(b) else a == b
  }

  function WrappingSub(a: Byte, b: Byte): Byte { (a - b) % 256 }

  /** Endpoints are ordered by raw value first and only then lowered. */
  predicate InRange(ch: Byte, low: Byte, high: Byte, nocase: bool) {
    var (lo, hi) := if low <= high then (low, high) else (high, low);
    if nocase then Lower(lo) <= Lower(ch) <= Lower(hi)
    else WrappingSub(ch, lo) <= hi - lo
  }

  // ------------------------------------------------------------------ meaning of a character class

  datatype Item = Escaped(b: Byte) | Single(b: Byte) | Span(low: Byte, high: Byte)

  /** Set of bytes an item stands for. An escaped byte always compares exactly. */
  predicate Denotes(item: Item, ch: Byte, nocase: bool) {
    match item
    case Escaped(b) => b == ch
    case Single(b) => if nocase then Lower(b) == Lower(ch) else b == ch
    case Span(a, b) =>
      if nocase then
        (if a <= b then Lower(a) <= Lower(ch) <= Lower(b) else Lower(b) <= Lower(ch) <= Lower(a))
      else a <= ch <= b || b <= ch <= a
  }

  /** The first item of a class body and its length in the pattern. */
  function HeadItem(body: seq<Byte>): (r: (Item, nat))
    requires body != []
    ensures 1 <= r.1 <= |body|
  {
    if body[0] == ESCAPE && |body| >= 2 then (Escaped(body[1]), 2)
    else if |body| >= 3 && body[1] == DASH then (Span(body[0], body[2]), 3)
    else (Single(body[0]), 1)
  }

  /** Items of a class body and what follows them; reads the pattern only. */
  function ParseItems(body: seq<Byte>): (r: (seq<Item>, seq<Byte>))
    ensures |r.1| <= |body| && (r.1 != [] ==> r.1[0] == CLOSE)
  {
    if body == [] || body[0] == CLOSE then ([], body)
    else
      var (item, n) := HeadItem(body);
      var (items, rest) := ParseItems(body[n..]);
      ([item] + items, rest)
  }

  predicate Negated(pat: seq<Byte>) { |pat| >= 2 && pat[1] == CARET }

  function ClassBody(pat: seq<Byte>): seq<Byte>
    requires pat != []
  {
    if Negated(pat) then pat[2..] else pat[1..]
  }

  /** An unclosed class swallows the rest of the pattern. */
  function ClassLen(pat: seq<Byte>): (n: nat)
    requires pat != []
    ensures 1 <= n <= |pat|
  {
    var rest := ParseItems(ClassBody(pat)).1;
    if rest == [] then |pat| else |pat| - |rest| + 1
  }

  /** Whether some item of the list contains the byte. */
  predicate AnyDenotes(items: seq<Item>, ch: Byte, nocase: bool) {
    exists item :: item in items && Denotes(item, ch, nocase)
  }

  predicate ClassContains(pat: seq<Byte>, ch: Byte, nocase: bool)
    requires pat != []
  {
    AnyDenotes(ParseItems(ClassBody(pat)).0, ch, nocase) != Negated(pat)
  }

  // ------------------------------------------------------------------ meaning of a pattern

  /** Length of the leading one-byte element of a pattern that does not start with a star. */
  function ElementLen(pat: seq<Byte>): (n: nat)
    requires pat != []
    ensures 1 <= n <= |pat|
  {
    if pat[0] == OPEN then ClassLen(pat)
    else if pat[0] == ESCAPE && |pat| >= 2 then 2
    else 1
  }

  predicate ElementAccepts(pat: seq<Byte>, ch: Byte, nocase: bool)
    requires pat != []
  {
    if pat[0] == QUESTION then true
    else if pat[0] == OPEN then ClassContains(pat, ch, nocase)
    else if pat[0] == ESCAPE && |pat| >= 2 then ByteEq(pat[1], ch, nocase)
    else ByteEq(pat[0], ch, nocase)
  }

  /** The nondeterministic matcher: a star stands for any number of bytes, any other element for one. */
  predicate Matches(pat: seq<Byte>, text: seq<Byte>, nocase: bool)
    decreases |pat| + |text|
  {
    if pat == [] then text == []
    else if pat[0] == STAR then
      Matches(pat[1..], text, nocase) || (text != [] && Matches(pat, text[1..], nocase))
    else
      text != [] && ElementAccepts(pat, text[0], nocase) && Matches(pat[ElementLen(pat)..], text[1..], nocase)
  }

  // ------------------------------------------------------------------ the class scanner

  lemma RangeIsInterval(ch: Byte, low: Byte, high: Byte, nocase: bool)
    ensures InRange(ch, low, high, nocase) == Denotes(Span(low, high), ch, nocase)
  {
  }

  lemma ScanOne(pat: seq<Byte>, i: nat, ch: Byte, nocase: bool)
    requires i < |pat| && pat[i] != CLOSE
    ensures var (item, n) := HeadItem(pat[i..]);
            && i + n <= |pat|
            && ParseItems(pat[i..]).1 == ParseItems(pat[i + n..]).1
            && AnyDenotes(ParseItems(pat[i..]).0, ch, nocase)
               == (Denotes(item, ch, nocase) || AnyDenotes(ParseItems(pat[i + n..]).0, ch, nocase))
  {
  }

  lemma ScanEnd(pat: seq<Byte>, i: nat, ch: Byte, nocase: bool)
    requires i == |pat| || (i < |pat| && pat[i] == CLOSE)
    ensures ParseItems(pat[i..]).1 == pat[i..] && !AnyDenotes(ParseItems(pat[i..]).0, ch, nocase)
  {
  }

  method MatchBracket(pat: seq<Byte>, ch: Byte, nocase: bool) returns (accepted: bool, consumed: nat)
    requires pat != []
    ensures accepted == ClassContains(pat, ch, nocase)
    ensures consumed == ClassLen(pat)
  {
    hide ParseItems, AnyDenotes;
    var i := 1;
    var invert := false;
    if i < |pat| && pat[i] == CARET {
      invert := true;
      i := i + 1;
    }
    var matched := false;
    ghost var all := ParseItems(ClassBody(pat));
    while i < |pat| && pat[i] != CLOSE
      invariant 1 <= i <= |pat|
      invariant ParseItems(pat[i..]).1 == all.1
      invariant AnyDenotes(all.0, ch, nocase) == (matched || AnyDenotes(ParseItems(pat[i..]).0, ch, nocase))
    {
      ScanOne(pat, i, ch, nocase);
      if pat[i] == ESCAPE && i + 1 < |pat| {
        if !matched && pat[i + 1] == ch {
          matched := true;
        }
        i := i + 2;
      } else if |pat| - i >= 3 && pat[i + 1] == DASH {
        RangeIsInterval(ch, pat[i], pat[i + 2], nocase);
        if !matched && InRange(ch, pat[i], pat[i + 2], nocase) {
          matched := true;
        }
        i := i + 3;
      } else {
        if !matched && ByteEq(pat[i], ch, nocase) {
          matched := true;
        }
        i := i + 1;
      }
    }
    ScanEnd(pat, i, ch, nocase);
    if i >= |pat| {
      return matched != invert, |pat|;
    }
    return matched != invert, i + 1;
  }

  // ------------------------------------------------------------------ only the last star matters

  /** The pattern from p against the text from t. */
  ghost predicate At(pat: seq<Byte>, p: nat, text: seq<Byte>, t: nat, nocase: bool) {
    p <= |pat| && t <= |text| && Matches(pat[p..], text[t..], nocase)
  }

  /** However the pattern matches from q, it goes on to match from p after m more bytes: the stretch
      between them holds m one-byte elements and no star. */
  ghost predicate Stretch(pat: seq<Byte>, q: nat, p: nat, m: nat, text: seq<Byte>, nocase: bool) {
    forall k: nat :: At(pat, q, text, k, nocase) ==> At(pat, p, text, k + m, nocase)
  }

  lemma StarUnfold(pat: seq<Byte>, p: nat, text: seq<Byte>, t: nat, nocase: bool)
    requires p < |pat| && pat[p] == STAR && t <= |text|
    ensures At(pat, p, text, t, nocase) <==> At(pat, p + 1, text, t, nocase) || At(pat, p, text, t + 1, nocase)
  {
  }

  lemma ElementUnfold(pat: seq<Byte>, p: nat, text: seq<Byte>, t: nat, nocase: bool)
    requires p < |pat| && pat[p] != STAR && t < |text|
    ensures At(pat, p, text, t, nocase)
       <==> ElementAccepts(pat[p..], text[t], nocase) && At(pat, p + ElementLen(pat[p..]), text, t + 1, nocase)
  {
  }

  /** What a star matches from j on, it also matches from any earlier i. */
  lemma {:induction false} StarEarlier(pat: seq<Byte>, p: nat, text: seq<Byte>, i: nat, j: nat, nocase: bool)
    requires p < |pat| && pat[p] == STAR && i <= j && At(pat, p, text, j, nocase)
    ensures At(pat, p, text, i, nocase)
    decreases j - i
  {
    if i < j {
      StarEarlier(pat, p, text, i + 1, j, nocase);
      StarUnfold(pat, p, text, i, nocase);
    }
  }

  /** A star matches from t on iff what follows it matches from some later position. */
  lemma {:induction false} StarWitness(pat: seq<Byte>, p: nat, text: seq<Byte>, t: nat, nocase: bool) returns (k: nat)
    requires p < |pat| && pat[p] == STAR && At(pat, p, text, t, nocase)
    ensures t <= k && At(pat, p + 1, text, k, nocase)
    decreases |text| - t
  {
    StarUnfold(pat, p, text, t, nocase);
    if At(pat, p + 1, text, t, nocase) {
      k := t;
    } else {
      k := StarWitness(pat, p, text, t + 1, nocase);
    }
  }

  /** Retrying the previous star later cannot help once the attempt has reached a new star or the end. */
  lemma EarlierStarIsSubsumed(pat: seq<Byte>, sp: nat, p: nat, text: seq<Byte>, st: nat, t: nat, nocase: bool)
    requires sp < |pat| && pat[sp] == STAR && st <= t <= |text|
    requires Stretch(pat, sp + 1, p, t - st, text, nocase)
    requires t == |text| || (p < |pat| && pat[p] == STAR)
    requires At(pat, sp, text, st + 1, nocase)
    ensures t < |text| && At(pat, p, text, t, nocase)
  {
    var k := StarWitness(pat, sp, text, st + 1, nocase);
    StarEarlier(pat, p, text, t, k + (t - st), nocase);
  }

  lemma LoneStar(text: seq<Byte>, nocase: bool)
    ensures Matches([STAR], text, nocase)
    decreases |text|
  {
  }

  /** The text is used up: only stars may remain. */
  lemma {:induction false} OnlyStarsLeft(pat: seq<Byte>, p: nat, text: seq<Byte>, nocase: bool)
    requires p <= |pat|
    ensures At(pat, p, text, |text|, nocase) <==> forall i :: p <= i < |pat| ==> pat[i] == STAR
    decreases |pat| - p
  {
    if p < |pat| {
      OnlyStarsLeft(pat, p + 1, text, nocase);
      if pat[p] == STAR { StarUnfold(pat, p, text, |text|, nocase); }
    }
  }

  // ------------------------------------------------------------------ the matching loop

  /** Lexicographic measure: the last star moves right, then its retry moves right, then the text does. */
  function StarsLeft(pat: seq<Byte>, star: Option<nat>): int {
    match star case None => |pat| + 1 case Some(sp) => |pat| - sp
  }

  ghost predicate LoopInv(pat: seq<Byte>, text: seq<Byte>, nocase: bool, p: nat, t: nat, star: Option<nat>, st: nat) {
    && p <= |pat| && st <= t <= |text|
    && match star
       case None => st == 0 && Matches(pat, text, nocase) == At(pat, p, text, t, nocase)
       case Some(sp) =>
         && sp < p && pat[sp] == STAR
         && Stretch(pat, sp + 1, p, t - st, text, nocase)
         && Matches(pat, text, nocase) == (At(pat, p, text, t, nocase) || At(pat, sp, text, st + 1, nocase))
  }

  lemma LoopStart(pat: seq<Byte>, text: seq<Byte>, nocase: bool)
    ensures LoopInv(pat, text, nocase, 0, 0, None, 0)
  {
  }

  /** A run of stars from p to q is one star; it becomes the new backtrack point. */
  lemma StarStep(pat: seq<Byte>, text: seq<Byte>, nocase: bool, p: nat, t: nat, star: Option<nat>, st: nat, q: nat)
    requires LoopInv(pat, text, nocase, p, t, star, st)
    requires p <= q < |pat| && forall i :: p <= i <= q ==> pat[i] == STAR
    ensures LoopInv(pat, text, nocase, q + 1, t, Some(q), t)
    ensures q + 1 == |pat| ==> Matches(pat, text, nocase)
  {
    NewStarDecides(pat, text, nocase, p, t, star, st, q);
    StarUnfold(pat, q, text, t, nocase);
    if q + 1 == |pat| {
      assert pat[q..] == [STAR];
      LoneStar(text[t..], nocase);
    }
  }

  lemma NewStarDecides(pat: seq<Byte>, text: seq<Byte>, nocase: bool, p: nat, t: nat, star: Option<nat>, st: nat, q: nat)
    requires LoopInv(pat, text, nocase, p, t, star, st)
    requires p <= q < |pat| && forall i :: p <= i <= q ==> pat[i] == STAR
    ensures Matches(pat, text, nocase) == At(pat, q, text, t, nocase)
  {
    StarRuns(pat, p, q, text, t, nocase);
    if star.Some? && At(pat, star.value, text, st + 1, nocase) {
      EarlierStarIsSubsumed(pat, star.value, p, text, st, t, nocase);
    }
  }

  lemma {:induction false} StarRuns(pat: seq<Byte>, p: nat, q: nat, text: seq<Byte>, t: nat, nocase: bool)
    requires p <= q < |pat| && t <= |text| && forall i :: p <= i <= q ==> pat[i] == STAR
    ensures At(pat, p, text, t, nocase) == At(pat, q, text, t, nocase)
    decreases q - p
  {
    if p < q {
      StarRun(pat, p, text, t, nocase);
      StarRuns(pat, p + 1, q, text, t, nocase);
    }
  }

  lemma ElementStep(pat: seq<Byte>, text: seq<Byte>, nocase: bool, p: nat, t: nat, star: Option<nat>, st: nat, p': nat)
    requires LoopInv(pat, text, nocase, p, t, star, st)
    requires p < |pat| && pat[p] != STAR && t < |text| && ElementAccepts(pat[p..], text[t], nocase)
    requires p' == p + ElementLen(pat[p..])
    ensures LoopInv(pat, text, nocase, p', t + 1, star, st)
  {
    hide At, Stretch, Matches, ElementAccepts;
    ElementUnfold(pat, p, text, t, nocase);
    if star.Some? {
      StretchSnoc(pat, star.value + 1, p, t - st, text, nocase, p');
    }
  }

  lemma StretchSnoc(pat: seq<Byte>, q: nat, p: nat, m: nat, text: seq<Byte>, nocase: bool, p': nat)
    requires Stretch(pat, q, p, m, text, nocase)
    requires p < |pat| && pat[p] != STAR && p' == p + ElementLen(pat[p..])
    ensures Stretch(pat, q, p', m + 1, text, nocase)
  {
  }

  lemma Mismatch(pat: seq<Byte>, text: seq<Byte>, nocase: bool, p: nat, t: nat, star: Option<nat>, st: nat)
    requires LoopInv(pat, text, nocase, p, t, star, st) && t < |text|
    requires p < |pat| ==> pat[p] != STAR && !ElementAccepts(pat[p..], text[t], nocase)
    ensures star.None? ==> !Matches(pat, text, nocase)
    ensures star.Some? ==> LoopInv(pat, text, nocase, star.value + 1, st + 1, star, st + 1)
  {
  }

  lemma Exhausted(pat: seq<Byte>, text: seq<Byte>, nocase: bool, p: nat, star: Option<nat>, st: nat)
    requires LoopInv(pat, text, nocase, p, |text|, star, st)
    ensures Matches(pat, text, nocase) <==> forall i :: p <= i < |pat| ==> pat[i] == STAR
  {
    OnlyStarsLeft(pat, p, text, nocase);
    if star.Some? && At(pat, star.value, text, st + 1, nocase) {
      EarlierStarIsSubsumed(pat, star.value, p, text, st, |text|, nocase);
    }
  }

  /** The arms of the main match that compare one text byte. */
  method MatchElement(pat: seq<Byte>, ch: Byte, nocase: bool) returns (matched: bool, consumed: nat)
    requires pat != [] && pat[0] != STAR
    ensures matched == ElementAccepts(pat, ch, nocase)
    ensures consumed == ElementLen(pat)
  {
    if pat[0] == QUESTION {
      return true, 1;
    } else if pat[0] == OPEN {
      matched, consumed := MatchBracket(pat, ch, nocase);
    } else if pat[0] == ESCAPE {
      var b := if 1 < |pat| then pat[1] else ESCAPE;
      return ByteEq(b, ch, nocase), if 1 < |pat| then 2 else 1;
    } else {
      return ByteEq(pat[0], ch, nocase), 1;
    }
  }

  method GlobMatchOpt(pat: seq<Byte>, text: seq<Byte>, nocase: bool) returns (r: bool)
    ensures text == [] ==> r == (pat == [])
    ensures text != [] ==> r == Matches(pat, text, nocase)
  {
    hide Matches, At, Stretch, ElementAccepts, ElementLen;
    if text == [] {
      return pat == [];
    }
    var p: nat, t: nat, st: nat := 0, 0, 0;
    var star: Option<nat> := None;
    LoopStart(pat, text, nocase);
    while t < |text|
      invariant LoopInv(pat, text, nocase, p, t, star, st)
      decreases StarsLeft(pat, star), |text| - st, |text| - t
    {
      if p < |pat| {
        if pat[p] == STAR {
          var q := LastOfRun(pat, p);
          StarStep(pat, text, nocase, p, t, star, st, q);
          if q + 1 == |pat| {
            return true;
          }
          star, p, st := Some(q), q + 1, t;
          continue;
        } else {
          var matched, consumed := MatchElement(pat[p..], text[t], nocase);
          if matched {
            ElementStep(pat, text, nocase, p, t, star, st, p + consumed);
            p, t := p + consumed, t + 1;
            continue;
          }
        }
      }
      Mismatch(pat, text, nocase, p, t, star, st);
      match star
      case Some(sp) =>
        p, st := sp + 1, st + 1;
        t := st;
      case None =>
        return false;
    }
    Exhausted(pat, text, nocase, p, star, st);
    r := OnlyStars(pat, p);
  }

  /** Skips to the last star of the run that starts at p. */
  method LastOfRun(pat: seq<Byte>, p: nat) returns (q: nat)
    requires p < |pat| && pat[p] == STAR
    ensures p <= q < |pat| && forall i :: p <= i <= q ==> pat[i] == STAR
    ensures q + 1 < |pat| ==> pat[q + 1] != STAR
  {
    q := p;
    while q + 1 < |pat| && pat[q + 1] == STAR
      invariant p <= q < |pat| && forall i :: p <= i <= q ==> pat[i] == STAR
    {
      q := q + 1;
    }
  }

  /** The trailing skip once the text is used up. */
  method OnlyStars(pat: seq<Byte>, p: nat) returns (r: bool)
    requires p <= |pat|
    ensures r <==> forall i :: p <= i < |pat| ==> pat[i] == STAR
  {
    var q := p;
    while q < |pat| && pat[q] == STAR
      invariant p <= q <= |pat| && forall i :: p <= i < q ==> pat[i] == STAR
    {
      q := q + 1;
    }
    return q == |pat|;
  }

  /** Two stars in a row mean one. */
  lemma {:induction false} StarRun(pat: seq<Byte>, p: nat, text: seq<Byte>, t: nat, nocase: bool)
    requires p + 1 < |pat| && pat[p] == STAR && pat[p + 1] == STAR && t <= |text|
    ensures At(pat, p, text, t, nocase) == At(pat, p + 1, text, t, nocase)
    decreases |text| - t
  {
    StarUnfold(pat, p, text, t, nocase);
    if t < |text| {
      StarRun(pat, p, text, t + 1, nocase);
      StarUnfold(pat, p + 1, text, t, nocase);
    }
  }
}
