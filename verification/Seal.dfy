/** Checkpoint metadata: the byte stream under the integrity seal, sealing and verification. */
module Seal {
  import opened Bytes
  import opened Wrappers

  const FORMAT_VERSION: nat := 5

  type U128 = n: nat | n < 0x1_0000_0000_0000_0000_0000_0000_0000_0000

  /** Lengths of allocated buffers stay below half the address space. */
  type Path = s: seq<Byte> | |s| < 0x8000_0000_0000_0000
  type Addresses = s: seq<U64> | |s| < 0x1000_0000_0000_0000

  datatype CheckpointType = FoldOver | Snapshot

  datatype IndexMeta = IndexMeta(size: U64, overflowCount: U64, entryCount: U64)

  datatype HlogMeta = HlogMeta(begin: U64, head: U64, flushedUntil: U64, tail: U64)

  /** The mutable fraction is kept as its bit pattern. */
  datatype StoreMeta = StoreMeta(
    indexSize: U64, pageSize: U64, numPages: U64, fractionBits: U64, maxSessions: U64,
    enableRevivification: bool, enableReadCache: bool, readCacheNumPages: U64,
    rangeIndexDir: Option<Path>, nextKeyId: U64)

  datatype Contents = Contents(
    token: U128, cpType: CheckpointType, index: IndexMeta, indexStart: U64, hlog: HlogMeta, store: StoreMeta,
    createdAt: U64, aofAddress: Option<Addresses>, formatVersion: U32)

  /** Metadata is its contents and the seal over them. */
  datatype CheckpointMeta = CheckpointMeta(contents: Contents, integrityCrc32: U32)

  // ------------------------------------------------------------------ the stream

  function Words(ws: seq<U64>): (s: seq<Byte>)
    ensures |s| == 8 * |ws|
  {
    if ws == [] then [] else LE(ws[0], 8) + Words(ws[1..])
  }

  function Flag(b: bool): Byte { if b then 1 else 0 }

  function PathBytes(p: Option<Path>): seq<Byte> {
    match p
    case Some(s) => Words([|s|]) + s
    case None => Words([U64_MAX])
  }

  function AddressBytes(a: Option<Addresses>): seq<Byte> {
    match a
    case Some(ws) => Words([|ws|]) + Words(ws)
    case None => Words([U64_MAX])
  }

  function TypeByte(t: CheckpointType): Byte { if t.FoldOver? then 0 else 1 }

  function LogWords(m: Contents): seq<U64> {
    [m.hlog.begin, m.hlog.head, m.hlog.flushedUntil, m.hlog.tail]
  }

  function IndexWords(m: Contents): seq<U64> {
    [m.index.size, m.index.overflowCount, m.index.entryCount, m.indexStart]
  }

  function StoreWords(s: StoreMeta): seq<U64> {
    [s.indexSize, s.pageSize, s.numPages, s.fractionBits, s.maxSessions]
  }

  /** Leading fields, all of fixed width. */
  function Head(m: Contents): seq<Byte> {
    LE(m.formatVersion, 4) + LE(m.token, 16) + [TypeByte(m.cpType)]
    + Words(LogWords(m)) + Words(IndexWords(m)) + Words(StoreWords(m.store))
    + [Flag(m.store.enableRevivification), Flag(m.store.enableReadCache)] + Words([m.store.readCacheNumPages])
  }

  function Stamps(m: Contents): seq<Byte> { Words([m.store.nextKeyId, m.createdAt]) }

  /** Every byte that the seal covers, in the order it is fed. */
  function Stream(m: Contents): seq<Byte> {
    Head(m) + PathBytes(m.store.rangeIndexDir) + Stamps(m) + AddressBytes(m.aofAddress)
  }

  lemma {:induction false} WordsAppend(a: seq<U64>, b: seq<U64>)
    ensures Words(a + b) == Words(a) + Words(b)
  {
    hide Words, LE;
    var c := a + b;
    if a == [] {
      assert c == b;
    } else {
      WordsAppend(a[1..], b);
      Unfold(a);
      Unfold(c);
      assert c[1..] == a[1..] + b;
    }
  }

  lemma Unfold(ws: seq<U64>)
    requires ws != []
    ensures Words(ws) == LE(ws[0], 8) + Words(ws[1..])
  {
  }

  /** Equal-length word lists with equal bytes in front are equal, and so is what follows them. */
  lemma {:induction false} WordsSplit(a: seq<U64>, b: seq<U64>, u: seq<Byte>, v: seq<Byte>)
    requires |a| == |b| && Words(a) + u == Words(b) + v
    ensures a == b && u == v
  {
    hide Words, LE, Pow256;
    if a == [] {
      assert Words(a) + u == u && Words(b) + v == v;
    } else {
      WideWidths();
      Unfold(a);
      Unfold(b);
      var l, r := Words(a[1..]) + u, Words(b[1..]) + v;
      assert Words(a) + u == LE(a[0], 8) + l && Words(b) + v == LE(b[0], 8) + r;
      Cancel(a[0], b[0], 8, l, r);
      WordsSplit(a[1..], b[1..], u, v);
      assert a == [a[0]] + a[1..] && b == [b[0]] + b[1..];
    }
  }

  lemma Cancel(x: nat, y: nat, n: nat, u: seq<Byte>, v: seq<Byte>)
    requires n in {4, 8, 16} && x < Pow256(n) && y < Pow256(n) && LE(x, n) + u == LE(y, n) + v
    ensures x == y && u == v
  {
    hide LE, Pow256;
    assert LE(x, n) == (LE(x, n) + u)[..n] == (LE(y, n) + v)[..n] == LE(y, n);
    assert u == (LE(x, n) + u)[n..] && v == (LE(y, n) + v)[n..];
    LEInjective(x, y, n);
  }

  lemma HeadSplits(m: Contents, n: Contents, u: seq<Byte>, v: seq<Byte>)
    requires Head(m) + u == Head(n) + v
    ensures u == v && m.formatVersion == n.formatVersion && m.token == n.token && m.cpType == n.cpType
    ensures m.hlog == n.hlog && m.index == n.index && m.indexStart == n.indexStart
    ensures StoreWords(m.store) == StoreWords(n.store) && m.store.readCacheNumPages == n.store.readCacheNumPages
    ensures m.store.enableRevivification == n.store.enableRevivification
    ensures m.store.enableReadCache == n.store.enableReadCache
  {
    hide LE, Words, Pow256;
    WideWidths();
    var mf, ml := After(m, u);
    var nf, nl := After(n, v);
    Cancel(m.formatVersion, n.formatVersion, 4, LE(m.token, 16) + ([TypeByte(m.cpType)] + ml),
           LE(n.token, 16) + ([TypeByte(n.cpType)] + nl));
    Cancel(m.token, n.token, 16, [TypeByte(m.cpType)] + ml, [TypeByte(n.cpType)] + nl);
    First(TypeByte(m.cpType), TypeByte(n.cpType), ml, nl);
    WordsSplit(LogWords(m) + IndexWords(m) + StoreWords(m.store), LogWords(n) + IndexWords(n) + StoreWords(n.store), mf, nf);
    SameWords(m, n);
    var mr, nr := Words([m.store.readCacheNumPages]) + u, Words([n.store.readCacheNumPages]) + v;
    First(Flag(m.store.enableRevivification), Flag(n.store.enableRevivification),
          [Flag(m.store.enableReadCache)] + mr, [Flag(n.store.enableReadCache)] + nr);
    First(Flag(m.store.enableReadCache), Flag(n.store.enableReadCache), mr, nr);
    WordsSplit([m.store.readCacheNumPages], [n.store.readCacheNumPages], u, v);
    assert [m.store.readCacheNumPages][0] == [n.store.readCacheNumPages][0];
  }

  /** What follows the words of the head, and what follows its type byte. */
  lemma After(m: Contents, u: seq<Byte>) returns (flags: seq<Byte>, words: seq<Byte>)
    ensures flags == [Flag(m.store.enableRevivification)]
                     + ([Flag(m.store.enableReadCache)] + (Words([m.store.readCacheNumPages]) + u))
    ensures words == Words(LogWords(m) + IndexWords(m) + StoreWords(m.store)) + flags
    ensures Head(m) + u == LE(m.formatVersion, 4) + (LE(m.token, 16) + ([TypeByte(m.cpType)] + words))
  {
    hide LE, Words;
    WordsAppend(LogWords(m) + IndexWords(m), StoreWords(m.store));
    WordsAppend(LogWords(m), IndexWords(m));
    flags := [Flag(m.store.enableRevivification)]
             + ([Flag(m.store.enableReadCache)] + (Words([m.store.readCacheNumPages]) + u));
    words := Words(LogWords(m) + IndexWords(m) + StoreWords(m.store)) + flags;
  }

  lemma First(a: Byte, b: Byte, u: seq<Byte>, v: seq<Byte>)
    requires [a] + u == [b] + v
    ensures a == b && u == v
  {
    assert ([a] + u)[0] == ([b] + v)[0];
    assert u == ([a] + u)[1..] && v == ([b] + v)[1..];
  }

  lemma SameWords(m: Contents, n: Contents)
    requires LogWords(m) + IndexWords(m) + StoreWords(m.store) == LogWords(n) + IndexWords(n) + StoreWords(n.store)
    ensures m.hlog == n.hlog && m.index == n.index && m.indexStart == n.indexStart
    ensures StoreWords(m.store) == StoreWords(n.store)
  {
    var a, b := LogWords(m) + IndexWords(m) + StoreWords(m.store), LogWords(n) + IndexWords(n) + StoreWords(n.store);
    assert LogWords(m) == a[..4] == b[..4] == LogWords(n);
    assert IndexWords(m) == a[4..8] == b[4..8] == IndexWords(n);
    assert StoreWords(m.store) == a[8..] == b[8..] == StoreWords(n.store);
    assert LogWords(m)[0] == LogWords(n)[0] && LogWords(m)[1] == LogWords(n)[1];
    assert LogWords(m)[2] == LogWords(n)[2] && LogWords(m)[3] == LogWords(n)[3];
    assert IndexWords(m)[0] == IndexWords(n)[0] && IndexWords(m)[1] == IndexWords(n)[1];
    assert IndexWords(m)[2] == IndexWords(n)[2] && IndexWords(m)[3] == IndexWords(n)[3];
  }

  lemma WideWidths()
    ensures Pow256(4) == 0x1_0000_0000 && Pow256(8) == 0x1_0000_0000_0000_0000
    ensures Pow256(16) == 0x1_0000_0000_0000_0000_0000_0000_0000_0000
  {
  }

  /** The length in front, or the sentinel no length can reach, tells both optional fields apart. */
  lemma PathSplits(p: Option<Path>, q: Option<Path>, u: seq<Byte>, v: seq<Byte>)
    requires PathBytes(p) + u == PathBytes(q) + v
    ensures p == q && u == v
  {
    hide Words;
    var a: U64, b: U64 := if p.Some? then |p.value| else U64_MAX, if q.Some? then |q.value| else U64_MAX;
    var s: seq<Byte>, t: seq<Byte> := if p.Some? then p.value + u else u, if q.Some? then q.value + v else v;
    assert PathBytes(p) + u == Words([a]) + s && PathBytes(q) + v == Words([b]) + t;
    WordsSplit([a], [b], s, t);
    assert [a][0] == [b][0];
    if p.Some? {
      assert p.value == s[..a] == t[..a] == q.value;
      assert u == s[a..] == t[a..] == v;
    }
  }

  lemma AddressesSplit(p: Option<Addresses>, q: Option<Addresses>, u: seq<Byte>, v: seq<Byte>)
    requires AddressBytes(p) + u == AddressBytes(q) + v
    ensures p == q && u == v
  {
    hide Words, AddressBytes;
    var a, s := AddressForm(p, u);
    var b, t := AddressForm(q, v);
    WordsSplit([a], [b], s, t);
    assert [a][0] == [b][0];
    if p.Some? {
      WordsSplit(p.value, q.value, u, v);
    }
  }

  lemma AddressForm(p: Option<Addresses>, u: seq<Byte>) returns (count: U64, rest: seq<Byte>)
    ensures count == (if p.Some? then |p.value| else U64_MAX)
    ensures rest == (if p.Some? then Words(p.value) + u else u)
    ensures AddressBytes(p) + u == Words([count]) + rest
  {
    hide Words;
    count := if p.Some? then |p.value| else U64_MAX;
    rest := if p.Some? then Words(p.value) + u else u;
  }

  /** The stream determines every field under the seal, and no stream opens another. */
  lemma StreamSplits(m: Contents, n: Contents, u: seq<Byte>, v: seq<Byte>)
    requires Stream(m) + u == Stream(n) + v
    ensures m == n && u == v
  {
    hide Head, PathBytes, AddressBytes, Words;
    var ma, na := AddressBytes(m.aofAddress) + u, AddressBytes(n.aofAddress) + v;
    var mp, np := PathBytes(m.store.rangeIndexDir) + (Stamps(m) + ma), PathBytes(n.store.rangeIndexDir) + (Stamps(n) + na);
    assert Stream(m) + u == Head(m) + mp && Stream(n) + v == Head(n) + np;
    HeadSplits(m, n, mp, np);
    PathSplits(m.store.rangeIndexDir, n.store.rangeIndexDir, Stamps(m) + ma, Stamps(n) + na);
    WordsSplit([m.store.nextKeyId, m.createdAt], [n.store.nextKeyId, n.createdAt], ma, na);
    AddressesSplit(m.aofAddress, n.aofAddress, u, v);
    var a, b := [m.store.nextKeyId, m.createdAt], [n.store.nextKeyId, n.createdAt];
    assert a[0] == b[0] && a[1] == b[1];
    SameStore(m.store, n.store);
  }

  lemma SameStore(s: StoreMeta, t: StoreMeta)
    requires StoreWords(s) == StoreWords(t) && s.readCacheNumPages == t.readCacheNumPages
    requires s.enableRevivification == t.enableRevivification && s.enableReadCache == t.enableReadCache
    requires s.rangeIndexDir == t.rangeIndexDir && s.nextKeyId == t.nextKeyId
    ensures s == t
  {
  }

  // ------------------------------------------------------------------ sealing

  /** The checksum is a parameter: any function of the bytes fed to it. */
  type Crc = seq<Byte> -> U32

  /** Streaming checksum: the digest is that of all bytes fed, in order. */
  class Hasher {
    var fed: seq<Byte>

    constructor ()
      ensures fed == []
    {
      fed := [];
    }

    method Update(bytes: seq<Byte>)
      modifies this
      ensures fed == old(fed) + bytes
    {
      fed := fed + bytes;
    }

    method UpdateU64(v: U64)
      modifies this
      ensures fed == old(fed) + Words([v])
    {
      hide LE;
      Update(LE(v, 8));
    }

    method UpdateU32(v: U32)
      modifies this
      ensures fed == old(fed) + LE(v, 4)
    {
      Update(LE(v, 4));
    }
  }

  lemma FourWords(a: U64, b: U64, c: U64, d: U64)
    ensures Words([a, b, c, d]) == Words([a]) + Words([b]) + Words([c]) + Words([d])
    ensures Words([a, b]) == Words([a]) + Words([b])
  {
    hide Words;
    WordsAppend([a], [b]);
    WordsAppend([a, b], [c]);
    WordsAppend([a, b, c], [d]);
    assert [a] + [b] == [a, b] && [a, b] + [c] == [a, b, c] && [a, b, c] + [d] == [a, b, c, d];
  }

  /** Feeds every field but the seal, and digests exactly the stream. */
  method IntegrityDigest(crc: Crc, m: Contents) returns (digest: U32)
    ensures digest == crc(Stream(m))
  {
    hide LE, Words;
    var h := new Hasher();
    FeedHead(h, m);
    match m.store.rangeIndexDir {
      case Some(p) =>
        h.UpdateU64(|p|);
        h.Update(p);
      case None => h.UpdateU64(U64_MAX);
    }
    assert h.fed == Head(m) + PathBytes(m.store.rangeIndexDir);
    h.UpdateU64(m.store.nextKeyId);
    h.UpdateU64(m.createdAt);
    FourWords(m.store.nextKeyId, m.createdAt, 0, 0);
    assert h.fed == Head(m) + PathBytes(m.store.rangeIndexDir) + Stamps(m);
    FeedAddresses(h, m.aofAddress);
    digest := crc(h.fed);
  }

  /** Four consecutive words of the head. */
  method FeedFour(h: Hasher, a: U64, b: U64, c: U64, d: U64)
    modifies h
    ensures h.fed == old(h.fed) + Words([a, b, c, d])
  {
    hide LE, Words;
    h.UpdateU64(a);
    h.UpdateU64(b);
    h.UpdateU64(c);
    h.UpdateU64(d);
    FourWords(a, b, c, d);
  }

  method FeedHead(h: Hasher, m: Contents)
    requires h.fed == []
    modifies h
    ensures h.fed == Head(m)
  {
    hide LE, Words;
    h.UpdateU32(m.formatVersion);
    h.Update(LE(m.token, 16));
    h.Update([TypeByte(m.cpType)]);
    FeedFour(h, m.hlog.begin, m.hlog.head, m.hlog.flushedUntil, m.hlog.tail);
    FeedFour(h, m.index.size, m.index.overflowCount, m.index.entryCount, m.indexStart);
    FeedStore(h, m.store);
    h.Update([Flag(m.store.enableRevivification), Flag(m.store.enableReadCache)]);
    h.UpdateU64(m.store.readCacheNumPages);
  }

  method FeedStore(h: Hasher, s: StoreMeta)
    modifies h
    ensures h.fed == old(h.fed) + Words(StoreWords(s))
  {
    hide LE, Words;
    FeedFour(h, s.indexSize, s.pageSize, s.numPages, s.fractionBits);
    h.UpdateU64(s.maxSessions);
    WordsAppend([s.indexSize, s.pageSize, s.numPages, s.fractionBits], [s.maxSessions]);
    assert StoreWords(s) == [s.indexSize, s.pageSize, s.numPages, s.fractionBits] + [s.maxSessions];
  }

  method FeedAddresses(h: Hasher, a: Option<Addresses>)
    modifies h
    ensures h.fed == old(h.fed) + AddressBytes(a)
  {
    hide LE, Words;
    match a {
      case Some(addrs) =>
        h.UpdateU64(|addrs|);
        assert Words([]) == [] by { assert |Words([])| == 0; }
        for i := 0 to |addrs|
          invariant h.fed == old(h.fed) + (Words([|addrs|]) + Words(addrs[..i]))
        {
          WordsAppend(addrs[..i], [addrs[i]]);
          assert addrs[..i + 1] == addrs[..i] + [addrs[i]];
          h.UpdateU64(addrs[i]);
        }
        assert addrs[..|addrs|] == addrs;
      case None => h.UpdateU64(U64_MAX);
    }
  }

  /** Metadata about to be published. */
  class Draft {
    var meta: CheckpointMeta

    constructor (m: CheckpointMeta)
      ensures meta == m
    {
      meta := m;
    }

    method Seal(crc: Crc)
      modifies this
      ensures meta.contents == old(meta).contents && Sealed(crc, meta)
      ensures meta.contents.formatVersion == FORMAT_VERSION ==> Trusted(crc, meta, meta.contents.token)
    {
      var digest := IntegrityDigest(crc, meta.contents);
      meta := meta.(integrityCrc32 := digest);
    }
  }

  predicate Sealed(crc: Crc, m: CheckpointMeta) { m.integrityCrc32 == crc(Stream(m.contents)) }

  // ------------------------------------------------------------------ verification

  datatype Error =
    | Undecodable
    | TokenMismatch(expected: U128, actual: U128)
    | UnsupportedMetaVersion(version: U32, supported: nat)
    | MetaChecksumMismatch(sealExpected: U32, sealActual: U32)

  /** Decoding the stored bytes is a parameter. */
  type Decoder = seq<Byte> -> Option<CheckpointMeta>

  method VerifySealed(crc: Crc, decode: Decoder, bytes: seq<Byte>, token: U128)
    returns (r: Result<CheckpointMeta, Error>)
    ensures r.Ok? <==> decode(bytes).Some? && Trusted(crc, decode(bytes).value, token)
    ensures r.Ok? ==> decode(bytes) == Some(r.value) && r.value.contents.formatVersion == 5
    ensures r.Err? ==> FirstFault(crc, decode(bytes), token) == r.error
  {
    var decoded := decode(bytes);
    if decoded.None? {
      return Err(Undecodable);
    }
    var meta := decoded.value;
    if meta.contents.token != token {
      return Err(TokenMismatch(token, meta.contents.token));
    }
    if meta.contents.formatVersion != FORMAT_VERSION {
      return Err(UnsupportedMetaVersion(meta.contents.formatVersion, FORMAT_VERSION));
    }
    var digest := IntegrityDigest(crc, meta.contents);
    if digest != meta.integrityCrc32 {
      return Err(MetaChecksumMismatch(meta.integrityCrc32, digest));
    }
    r := Ok(meta);
  }

  /** Right token, current version, intact seal. */
  predicate Trusted(crc: Crc, m: CheckpointMeta, token: U128) {
    m.contents.token == token && m.contents.formatVersion == FORMAT_VERSION && Sealed(crc, m)
  }

  /** Faults in the order they are reported. */
  function FirstFault(crc: Crc, decoded: Option<CheckpointMeta>, token: U128): Error {
    match decoded
    case None => Undecodable
    case Some(m) =>
      if m.contents.token != token then TokenMismatch(token, m.contents.token)
      else if m.contents.formatVersion != FORMAT_VERSION then
        UnsupportedMetaVersion(m.contents.formatVersion, FORMAT_VERSION)
      else MetaChecksumMismatch(m.integrityCrc32, crc(Stream(m.contents)))
  }

  /**
    * Against trusted metadata: altered contents have another stream, so under the old seal they are
    * trusted exactly when the checksum collides on the two; an altered seal alone is never trusted.
    */
  lemma TamperingNeedsCollision(crc: Crc, m: CheckpointMeta, tampered: CheckpointMeta, token: U128)
    requires Trusted(crc, m, token) && tampered != m
    ensures tampered.contents == m.contents ==> !Trusted(crc, tampered, token)
    ensures tampered.contents != m.contents ==> Stream(tampered.contents) != Stream(m.contents)
    ensures tampered.integrityCrc32 == m.integrityCrc32 ==>
              (Trusted(crc, tampered, token) <==>
               && tampered.contents.token == token && tampered.contents.formatVersion == FORMAT_VERSION
               && crc(Stream(tampered.contents)) == crc(Stream(m.contents)))
  {
    hide Stream;
    if Stream(tampered.contents) == Stream(m.contents) {
      assert Stream(tampered.contents) + [] == Stream(m.contents) + [];
      StreamSplits(tampered.contents, m.contents, [], []);
    }
  }
}
