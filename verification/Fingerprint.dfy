/** Run fingerprints: hex digests of files and of the concatenated run description. */
module Fingerprint {
  import opened Sha256Standard
  import opened Sha256Stream
  import opened Wrappers

  const CHUNK_SIZE: nat := 65536

  // ---- hexadecimal text ----

  function HexDigit(d: Byte): char
    requires d < 16
  {
    "0123456789abcdef"[d as nat]
  }

  function DigitValue(c: char): Byte {
    if '0' <= c <= '9' then ((c as int - '0' as int) % 16) as Byte
    else if 'a' <= c <= 'f' then ((c as int - 'a' as int + 10) % 16) as Byte
    else 0
  }

  lemma DigitRoundTrip(d: Byte)
    requires d < 16
    ensures DigitValue(HexDigit(d)) == d
  {
    var n := d as nat;
    assert n as Byte == d;
    assert n < 16;
    if n < 10 {
      assert HexDigit(d) as int == '0' as int + n;
    } else {
      assert HexDigit(d) as int == 'a' as int + n - 10;
    }
  }

  function High(b: Byte): (d: Byte)
    ensures d < 16
  {
    b >> 4
  }

  function Low(b: Byte): (d: Byte)
    ensures d < 16
  {
    b & 0x0f
  }

  function Join(high: Byte, low: Byte): Byte {
    (high << 4) | low
  }

  function HexOf(s: seq<Byte>): string {
    if s == [] then ""
    else HexOf(s[..|s| - 1]) + [HexDigit(High(s[|s| - 1])), HexDigit(Low(s[|s| - 1]))]
  }

  function FromHex(t: string): seq<Byte> {
    if |t| < 2 then []
    else FromHex(t[..|t| - 2]) + [Join(DigitValue(t[|t| - 2]), DigitValue(t[|t| - 1]))]
  }

  lemma NibblesJoin(b: Byte)
    ensures Join(High(b), Low(b)) == b
  {
  }

  lemma ByteRoundTrip(b: Byte)
    ensures Join(DigitValue(HexDigit(High(b))), DigitValue(HexDigit(Low(b)))) == b
  {
    hide HexDigit, DigitValue, High, Low, Join;
    DigitRoundTrip(High(b));
    DigitRoundTrip(Low(b));
    NibblesJoin(b);
  }

  lemma FromHexSnoc(t: string, c: char, d: char)
    ensures FromHex(t + [c, d]) == FromHex(t) + [Join(DigitValue(c), DigitValue(d))]
  {
    hide DigitValue, Join;
    assert (t + [c, d])[..|t|] == t;
  }

  lemma HexOfSnoc(s: seq<Byte>, b: Byte)
    ensures HexOf([]) == "" && FromHex("") == []
    ensures HexOf(s + [b]) == HexOf(s) + [HexDigit(High(b)), HexDigit(Low(b))]
  {
    hide HexDigit, High, Low;
    assert (s + [b])[..|s|] == s;
  }

  /** The hex text determines the digest. */
  lemma {:induction false} HexRoundTrip(s: seq<Byte>)
    ensures |HexOf(s)| == 2 * |s| && FromHex(HexOf(s)) == s
  {
    hide HexDigit, DigitValue, High, Low, Join, HexOf, FromHex;
    if s == [] {
      HexOfSnoc([], 0);
    } else {
      var front, b := s[..|s| - 1], s[|s| - 1];
      assert s == front + [b];
      HexRoundTrip(front);
      ByteRoundTrip(b);
      HexOfSnoc(front, b);
      FromHexSnoc(HexOf(front), HexDigit(High(b)), HexDigit(Low(b)));
    }
  }

  /** Two lower-case hex characters a byte, closed by a zero character. */
  method ToHex(hash: array<Byte>) returns (hex: array<char>)
    requires hash.Length == 32
    ensures fresh(hex) && hex.Length == 65 && hex[..64] == HexOf(hash[..]) && hex[64] == '\0'
  {
    hide HexDigit, High, Low;
    hex := new char[65];
    for i := 0 to 32
      invariant hex[..2 * i] == HexOf(hash[..i])
    {
      hex[2 * i] := HexDigit(High(hash[i]));
      hex[2 * i + 1] := HexDigit(Low(hash[i]));
      assert hash[..i + 1][..i] == hash[..i];
    }
    hex[64] := '\0';
    assert hash[..32] == hash[..];
  }

  // ---- hashing however the input arrives ----

  function Flatten(chunks: seq<seq<Byte>>): seq<Byte> {
    if chunks == [] then [] else Flatten(chunks[..|chunks| - 1]) + chunks[|chunks| - 1]
  }

  /** The pieces in order, and nothing else. */
  lemma {:induction false} FlattenIsInOrder(a: seq<seq<Byte>>, b: seq<seq<Byte>>, piece: seq<Byte>)
    ensures Flatten(a + b) == Flatten(a) + Flatten(b) && Flatten([piece]) == piece
  {
    assert [piece][..0] == [] && Flatten([]) == [] && [] + piece == piece;
    if b == [] {
      assert a + b == a;
    } else {
      FlattenIsInOrder(a, b[..|b| - 1], piece);
      assert (a + b)[..|a + b| - 1] == a + b[..|b| - 1];
    }
  }

  /** Streaming equals one shot, for every cutting of the message into updates, empty ones and
      ones that straddle blocks included. */
  method HashChunks(chunks: seq<seq<Byte>>) returns (hash: array<Byte>)
    ensures fresh(hash) && hash.Length == 32
    ensures |Flatten(chunks)| < MAX_BYTES ==> hash[..] == Sha256(Flatten(chunks))
  {
    hide Sha256, HashBlocks, Sha256State.Buffered;
    var s := new Sha256State();
    for i := 0 to |chunks|
      invariant s.Valid() && fresh(s) && fresh(s.h) && fresh(s.buf)
      invariant s.Message() == Flatten(chunks[..i])
    {
      s.Update(chunks[i]);
      assert chunks[..i + 1][..i] == chunks[..i];
    }
    assert chunks[..|chunks|] == chunks;
    hash := s.Final();
  }

  /** A file is read in fixed chunks until a read returns nothing. */
  method HashFile(content: seq<Byte>) returns (hash: array<Byte>)
    ensures fresh(hash) && hash.Length == 32
    ensures |content| < MAX_BYTES ==> hash[..] == Sha256(content)
  {
    hide Sha256, HashBlocks, Sha256State.Buffered;
    var s := new Sha256State();
    var pos := 0;
    while pos < |content|
      invariant pos <= |content| && s.Valid() && fresh(s) && fresh(s.h) && fresh(s.buf)
      invariant s.Message() == content[..pos]
    {
      var n := if |content| - pos < CHUNK_SIZE then |content| - pos else CHUNK_SIZE;
      s.Update(content[pos..pos + n]);
      assert content[..pos] + content[pos..pos + n] == content[..pos + n];
      pos := pos + n;
    }
    assert content[..pos] == content;
    hash := s.Final();
  }

  // ---- the combined fingerprint ----

  /** The digests of the readable data files, in order; the others contribute nothing. */
  function FileHashes(files: seq<Option<seq<Byte>>>): seq<Byte> {
    if files == [] then []
    else
      var last := files[|files| - 1];
      FileHashes(files[..|files| - 1]) + if last.Some? then Sha256(last.value) else []
  }

  /** The files in order: each readable one adds its digest, each other one nothing. */
  lemma {:induction false} FilesInOrder(a: seq<Option<seq<Byte>>>, b: seq<Option<seq<Byte>>>, content: seq<Byte>)
    ensures FileHashes(a + b) == FileHashes(a) + FileHashes(b)
    ensures FileHashes([Some(content)]) == Sha256(content) && FileHashes([None]) == []
  {
    hide Sha256;
    assert [Some(content)][..0] == [] && FileHashes([]) == [] && [] + Sha256(content) == Sha256(content);
    if b == [] {
      assert a + b == a;
    } else {
      FilesInOrder(a, b[..|b| - 1], content);
      assert (a + b)[..|a + b| - 1] == a + b[..|b| - 1];
    }
  }

  function Material(cfg: seq<Byte>, version: seq<Byte>, lookbacks: seq<Byte>, files: seq<Option<seq<Byte>>>): seq<Byte> {
    cfg + version + lookbacks + FileHashes(files)
  }

  ghost predicate Short(files: seq<Option<seq<Byte>>>) {
    forall i :: 0 <= i < |files| ==> files[i].Some? ==> |files[i].value| < MAX_BYTES
  }

  method UpdateFiles(s: Sha256State, files: seq<Option<seq<Byte>>>)
    requires s.Valid() && Short(files)
    modifies s, s.h, s.buf
    ensures s.Valid() && s.Message() == old(s.Message()) + FileHashes(files)
  {
    hide Sha256, HashBlocks, Sha256State.Buffered;
    for i := 0 to |files|
      invariant s.Valid() && s.Message() == old(s.Message()) + FileHashes(files[..i])
    {
      assert files[..i + 1][..i] == files[..i];
      if files[i].Some? {
        var fileHash := HashFile(files[i].value);
        s.Update(fileHash[..]);
      }
    }
    assert files[..|files|] == files;
  }

  /** The fingerprint is the hex digest of the concatenated run description. */
  method Compute(cfg: seq<Byte>, version: seq<Byte>, lookbacks: seq<Byte>, files: seq<Option<seq<Byte>>>)
    returns (hex: array<char>)
    requires Short(files) && |Material(cfg, version, lookbacks, files)| < MAX_BYTES
    ensures fresh(hex) && hex.Length == 65
    ensures hex[..64] == HexOf(Sha256(cfg + version + lookbacks + FileHashes(files)))
  {
    hide Sha256, HexOf, HashBlocks, FileHashes, Sha256State.Buffered;
    var s := new Sha256State();
    s.Update(cfg);
    assert s.Message() == cfg;
    s.Update(version);
    s.Update(lookbacks);
    UpdateFiles(s, files);
    var hash := s.Final();
    hex := ToHex(hash);
  }

  /** A file that cannot be read leaves no trace: the fingerprint is the one of the run without
      it, so "same fingerprint" does not mean "same list of files". */
  lemma {:induction false} UnreadableFileLeavesNoTrace(before: seq<Option<seq<Byte>>>, after: seq<Option<seq<Byte>>>)
    ensures FileHashes(before + [None] + after) == FileHashes(before + after)
  {
    hide Sha256;
    if after == [] {
      assert (before + [None] + after)[..|before|] == before;
      assert before + after == before;
    } else {
      var k := |after| - 1;
      UnreadableFileLeavesNoTrace(before, after[..k]);
      assert (before + [None] + after)[..|before| + 1 + k] == before + [None] + after[..k];
      assert (before + after)[..|before| + k] == before + after[..k];
    }
  }

  /** The digests of the readable files, one after the other. */
  function Digests(files: seq<Option<seq<Byte>>>): seq<seq<Byte>> {
    if files == [] then []
    else
      var last := files[|files| - 1];
      Digests(files[..|files| - 1]) + if last.Some? then [Sha256(last.value)] else []
  }

  lemma {:induction false} HashesAreDigests(files: seq<Option<seq<Byte>>>)
    ensures FileHashes(files) == Flatten(Digests(files))
    ensures forall i :: 0 <= i < |Digests(files)| ==> |Digests(files)[i]| == 32
  {
    hide Sha256;
    if files != [] {
      var k := |files| - 1;
      HashesAreDigests(files[..k]);
      if files[k].Some? {
        DigestLength(files[k].value);
        assert Digests(files)[..|Digests(files)| - 1] == Digests(files[..k]);
      } else {
        assert Digests(files) == Digests(files[..k]);
      }
    }
  }

  /** Pieces of one width are recovered from their concatenation. */
  lemma {:induction false} FixedWidth(a: seq<seq<Byte>>, b: seq<seq<Byte>>, width: nat)
    requires width > 0 && Flatten(a) == Flatten(b)
    requires (forall i :: 0 <= i < |a| ==> |a[i]| == width) && (forall i :: 0 <= i < |b| ==> |b[i]| == width)
    ensures a == b
    decreases |a|
  {
    assert a != [] ==> |Flatten(a)| >= |a[|a| - 1]|;
    assert b != [] ==> |Flatten(b)| >= |b[|b| - 1]|;
    if a != [] && b != [] {
      var k, m := |a| - 1, |b| - 1;
      var text := Flatten(a);
      var cut := |text| - width;
      assert text == Flatten(a[..k]) + a[k] && text == Flatten(b[..m]) + b[m];
      assert text[cut..] == a[k] && text[cut..] == b[m];
      assert text[..cut] == Flatten(a[..k]) && text[..cut] == Flatten(b[..m]);
      FixedWidth(a[..k], b[..m], width);
      assert a == a[..k] + [a[k]] && b == b[..m] + [b[m]];
    }
  }

  /** What the fingerprint knows of the files: two lists contribute the same bytes if and only if
      their readable files have the same digests in the same order. */
  lemma FileHashesExactly(a: seq<Option<seq<Byte>>>, b: seq<Option<seq<Byte>>>)
    ensures FileHashes(a) == FileHashes(b) <==> Digests(a) == Digests(b)
  {
    hide FileHashes, Digests, Flatten;
    HashesAreDigests(a);
    HashesAreDigests(b);
    if FileHashes(a) == FileHashes(b) {
      FixedWidth(Digests(a), Digests(b), 32);
    }
  }
}
