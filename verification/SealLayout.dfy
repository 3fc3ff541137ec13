/** The bytes under the checkpoint seal, at their offsets. */
module SealLayout {
  import opened Bytes
  import opened Wrappers
  import opened Layout
  import opened Seal

  lemma {:induction false} WordInside(ws: seq<U64>, k: nat)
    requires k < |ws|
    ensures Field(Words(ws), 8 * k, ws[k], 8)
  {
    hide LE, Words;
    Unfold(ws);
    var w, rest := Words(ws), Words(ws[1..]);
    if k == 0 {
      assert w == [] + LE(ws[0], 8) + rest;
      FieldAt(w, [], ws[0], 8, rest);
    } else {
      WordInside(ws[1..], k - 1);
      forall i | 0 <= i < 8 ensures w[8 * k + i] == ByteOf(ws[k], i) {
        assert rest[8 * (k - 1) + i] == ByteOf(ws[1..][k - 1], i);
      }
    }
  }

  /** Word k of a list that stands behind `pre`. */
  lemma WordAt(w: seq<Byte>, pre: seq<Byte>, ws: seq<U64>, post: seq<Byte>, k: nat)
    requires w == pre + Words(ws) + post && k < |ws|
    ensures Field(w, |pre| + 8 * k, ws[k], 8)
  {
    hide Words;
    WordInside(ws, k);
    forall i | 0 <= i < 8 ensures w[|pre| + 8 * k + i] == ByteOf(ws[k], i) {
      assert Words(ws)[8 * k + i] == ByteOf(ws[k], i);
    }
  }

  /** A field of the front of a string is a field of the string. */
  lemma FieldOfFront(w: seq<Byte>, front: seq<Byte>, off: nat, n: nat, width: nat)
    requires front <= w && Field(front, off, n, width)
    ensures Field(w, off, n, width)
  {
    forall i | 0 <= i < width ensures w[off + i] == ByteOf(n, i) {
      assert front[off + i] == w[off + i];
    }
  }

  /** The fixed part, in source order: version, token, type, log addresses, index figures, store figures, flags, cache. */
  ghost predicate HeadIs(w: seq<Byte>, m: Contents) {
    && |w| >= 135
    && Field(w, 0, m.formatVersion, 4) && Field(w, 4, m.token, 16)
    && w[20] == (if m.cpType == FoldOver then 0 else 1)
    && Field(w, 21, m.hlog.begin, 8) && Field(w, 29, m.hlog.head, 8)
    && Field(w, 37, m.hlog.flushedUntil, 8) && Field(w, 45, m.hlog.tail, 8)
    && Field(w, 53, m.index.size, 8) && Field(w, 61, m.index.overflowCount, 8)
    && Field(w, 69, m.index.entryCount, 8) && Field(w, 77, m.indexStart, 8)
    && Field(w, 85, m.store.indexSize, 8) && Field(w, 93, m.store.pageSize, 8) && Field(w, 101, m.store.numPages, 8)
    && Field(w, 109, m.store.fractionBits, 8) && Field(w, 117, m.store.maxSessions, 8)
    && w[125] == (if m.store.enableRevivification then 1 else 0)
    && w[126] == (if m.store.enableReadCache then 1 else 0)
    && Field(w, 127, m.store.readCacheNumPages, 8)
  }

  lemma HeadLayout(m: Contents, rest: seq<Byte>)
    ensures |Head(m)| == 135 && HeadIs(Head(m) + rest, m)
  {
    hide LE, Words, Field;
    var w := Head(m) + rest;
    var f1 := LE(m.formatVersion, 4);
    var f2 := f1 + LE(m.token, 16);
    var f3 := f2 + [TypeByte(m.cpType)];
    var f4 := f3 + Words(LogWords(m));
    var f5 := f4 + Words(IndexWords(m));
    var f6 := f5 + Words(StoreWords(m.store));
    var f7 := f6 + [Flag(m.store.enableRevivification), Flag(m.store.enableReadCache)];
    var f8 := f7 + Words([m.store.readCacheNumPages]);
    assert f8 == Head(m);
    Front(w, f8, f7, f6);
    Front(w, f6, f5, f4);
    Front(w, f4, f3, f2);
    Front(w, f2, f1, []);
    Numbers(w, f1, f2, m);
    FourWordsAt(w, f3, LogWords(m), f4);
    FourWordsAt(w, f4, IndexWords(m), f5);
    StoreAt(w, f5, m.store, f6);
    WordFront(w, f7, [m.store.readCacheNumPages], f8, 0);
    Shown(w, f2, f3, f6, f7, m);
  }

  lemma Front(w: seq<Byte>, a: seq<Byte>, b: seq<Byte>, c: seq<Byte>)
    requires a <= w && b <= a && c <= b
    ensures b <= w && c <= w
  {
  }

  lemma Numbers(w: seq<Byte>, f1: seq<Byte>, f2: seq<Byte>, m: Contents)
    requires f1 == LE(m.formatVersion, 4) && f2 == f1 + LE(m.token, 16) && f2 <= w
    ensures Field(w, 0, m.formatVersion, 4) && Field(w, 4, m.token, 16)
  {
    hide LE, Field;
    assert f1 == [] + f1 + [] && f2 == f1 + LE(m.token, 16) + [];
    FieldAt(f1, [], m.formatVersion, 4, []);
    FieldAt(f2, f1, m.token, 16, []);
    Front(w, f2, f1, []);
    FieldOfFront(w, f1, 0, m.formatVersion, 4);
    FieldOfFront(w, f2, 4, m.token, 16);
  }

  lemma Shown(w: seq<Byte>, f2: seq<Byte>, f3: seq<Byte>, f6: seq<Byte>, f7: seq<Byte>, m: Contents)
    requires f3 == f2 + [TypeByte(m.cpType)] && f3 <= w
    requires f7 == f6 + [Flag(m.store.enableRevivification), Flag(m.store.enableReadCache)] && f7 <= w
    ensures w[|f2|] == (if m.cpType == FoldOver then 0 else 1)
    ensures w[|f6|] == (if m.store.enableRevivification then 1 else 0)
    ensures w[|f6| + 1] == (if m.store.enableReadCache then 1 else 0)
  {
    assert f3[|f2|] == w[|f2|] && f7[|f6|] == w[|f6|] && f7[|f6| + 1] == w[|f6| + 1];
  }

  lemma WordFront(w: seq<Byte>, pre: seq<Byte>, ws: seq<U64>, front: seq<Byte>, k: nat)
    requires front == pre + Words(ws) && front <= w && k < |ws|
    ensures Field(w, |pre| + 8 * k, ws[k], 8)
  {
    hide Words, Field;
    WordAt(w, pre, ws, w[|front|..], k);
  }

  lemma FourWordsAt(w: seq<Byte>, pre: seq<Byte>, ws: seq<U64>, front: seq<Byte>)
    requires front == pre + Words(ws) && front <= w && |ws| == 4
    ensures Field(w, |pre|, ws[0], 8) && Field(w, |pre| + 8, ws[1], 8)
    ensures Field(w, |pre| + 16, ws[2], 8) && Field(w, |pre| + 24, ws[3], 8)
  {
    hide Words, Field;
    WordFront(w, pre, ws, front, 0);
    WordFront(w, pre, ws, front, 1);
    WordFront(w, pre, ws, front, 2);
    WordFront(w, pre, ws, front, 3);
  }

  lemma StoreAt(w: seq<Byte>, pre: seq<Byte>, s: StoreMeta, front: seq<Byte>)
    requires front == pre + Words(StoreWords(s)) && front <= w
    ensures Field(w, |pre|, s.indexSize, 8) && Field(w, |pre| + 8, s.pageSize, 8) && Field(w, |pre| + 16, s.numPages, 8)
    ensures Field(w, |pre| + 24, s.fractionBits, 8) && Field(w, |pre| + 32, s.maxSessions, 8)
  {
    hide Words, Field;
    var ws := StoreWords(s);
    WordFront(w, pre, ws, front, 0);
    WordFront(w, pre, ws, front, 1);
    WordFront(w, pre, ws, front, 2);
    WordFront(w, pre, ws, front, 3);
    WordFront(w, pre, ws, front, 4);
  }

  /** The variable part: the path behind its length, or a length of all ones; next key and creation time; then the
      addresses behind their count, or a count of all ones. Nothing follows. */
  lemma StreamLayout(m: Contents)
    ensures var w, path, addrs := Stream(m), m.store.rangeIndexDir, m.aofAddress;
            var a := 143 + (if path.Some? then |path.value| else 0);
            && HeadIs(w, m)
            && Field(w, 135, if path.Some? then |path.value| else 0xFFFF_FFFF_FFFF_FFFF, 8)
            && a + 24 <= |w| && (path.Some? ==> w[143..a] == path.value)
            && Field(w, a, m.store.nextKeyId, 8) && Field(w, a + 8, m.createdAt, 8)
            && Field(w, a + 16, if addrs.Some? then |addrs.value| else 0xFFFF_FFFF_FFFF_FFFF, 8)
            && |w| == a + 24 + (if addrs.Some? then 8 * |addrs.value| else 0)
            && (addrs.Some? ==> forall k :: 0 <= k < |addrs.value| ==> Field(w, a + 24 + 8 * k, addrs.value[k], 8))
  {
    hide LE, Words, Field, Head, HeadIs;
    var w, head, path := Stream(m), Head(m), PathBytes(m.store.rangeIndexDir);
    var stamps, addrs := Stamps(m), AddressBytes(m.aofAddress);
    assert w == head + (path + stamps + addrs);
    HeadLayout(m, path + stamps + addrs);
    PathAt(w, head, m.store.rangeIndexDir, stamps + addrs);
    assert w == (head + path) + stamps + addrs;
    WordAt(w, head + path, [m.store.nextKeyId, m.createdAt], addrs, 0);
    WordAt(w, head + path, [m.store.nextKeyId, m.createdAt], addrs, 1);
    AddressesAt(w, head + path + stamps, m.aofAddress);
  }

  lemma PathAt(w: seq<Byte>, pre: seq<Byte>, p: Option<Path>, post: seq<Byte>)
    requires w == pre + (PathBytes(p) + post)
    ensures Field(w, |pre|, if p.Some? then |p.value| else U64_MAX, 8)
    ensures |PathBytes(p)| == 8 + (if p.Some? then |p.value| else 0)
    ensures p.Some? ==> |pre| + 8 + |p.value| <= |w| && w[|pre| + 8..|pre| + 8 + |p.value|] == p.value
  {
    hide Words, Field;
    match p
    case Some(s) =>
      assert w == pre + Words([|s|]) + (s + post);
      WordAt(w, pre, [|s|], s + post, 0);
      assert w == (pre + Words([|s|])) + s + post;
      SliceAt(w, pre + Words([|s|]), s, post);
    case None =>
      assert w == pre + Words([U64_MAX]) + post;
      WordAt(w, pre, [U64_MAX], post, 0);
  }

  lemma AddressesAt(w: seq<Byte>, pre: seq<Byte>, p: Option<Addresses>)
    requires w == pre + AddressBytes(p)
    ensures Field(w, |pre|, if p.Some? then |p.value| else U64_MAX, 8)
    ensures |w| == |pre| + 8 + (if p.Some? then 8 * |p.value| else 0)
    ensures p.Some? ==> forall k :: 0 <= k < |p.value| ==> Field(w, |pre| + 8 + 8 * k, p.value[k], 8)
  {
    hide Words, Field;
    match p
    case Some(ws) =>
      assert w == pre + Words([|ws|]) + Words(ws);
      WordAt(w, pre, [|ws|], Words(ws), 0);
      var front := pre + Words([|ws|]);
      assert w == front + Words(ws) + [];
      forall k | 0 <= k < |ws| ensures Field(w, |pre| + 8 + 8 * k, ws[k], 8) {
        WordAt(w, front, ws, [], k);
      }
    case None =>
      assert w == pre + Words([U64_MAX]) + [];
      WordAt(w, pre, [U64_MAX], [], 0);
  }
}
