/** Local digests: `md5_checksum` (the MD5 of the whole file, fed in 1 MiB
    buffers), `etag_checksum` (the multipart ETag: MD5 of the concatenated
    per-chunk MD5s, with a `-<parts>` suffix when there is more than one
    chunk) and `etag_compare`. MD5 itself is a parameter: any function from
    bytes to 16-byte digests. A file is given by its content. */
module ETag {
  import opened Wrappers
  import opened Text

  type Digest = s: Bytes | |s| == 16 witness [0, 0, 0, 0, 0, 0, 0, 0, 0, 0, 0, 0, 0, 0, 0, 0]

  /** hashlib.md5(data).digest() */
  type Hash = Bytes -> Digest

  const Md5BufferSize: int := 1024 * 1024
  const CompareDefaultChunkSize: int := 8 * 1024 * 1024

  /** `f.read(n)` on a binary file with this content, positioned at pos:
      a negative n reads the rest of the file, otherwise at most n bytes. */
  function Read(content: Bytes, pos: nat, n: int): (r: Bytes)
    requires pos <= |content|
    ensures pos + |r| <= |content| && r == content[pos..pos + |r|]
    ensures n >= 0 ==> |r| == if pos + n <= |content| then n else |content| - pos
    ensures n < 0 ==> |r| == |content| - pos
  {
    if n < 0 || pos + n > |content| then content[pos..] else content[pos..pos + n]
  }

  /** The chunks the loop `iter(lambda: f.read(n), b"")` yields, in order. */
  function Parts(content: Bytes, n: int): seq<Bytes>
    decreases |content|
  {
    var chunk := Read(content, 0, n);
    if chunk == [] then [] else [chunk] + Parts(content[|chunk|..], n)
  }

  /** b"".join(parts) */
  function Flatten(parts: seq<Bytes>): Bytes {
    if parts == [] then [] else parts[0] + Flatten(parts[1..])
  }

  /** The raw digest of every part, in order. */
  function DigestsOf(md5: Hash, parts: seq<Bytes>): (ds: seq<Bytes>)
    ensures |ds| == |parts|
  {
    if parts == [] then [] else [md5(parts[0])] + DigestsOf(md5, parts[1..])
  }

  /** The ETag `etag_checksum` returns for this content and chunk size. */
  function EtagOf(md5: Hash, content: Bytes, n: int): string {
    var parts := Parts(content, n);
    var combined := md5(Flatten(DigestsOf(md5, parts)));
    if |parts| > 1 then Hex(combined) + "-" + Decimal(|parts|) else Hex(combined)
  }

  // ---------------------------------------------------------------------
  // The two checksum loops

  method Md5Checksum(md5: Hash, content: Bytes) returns (hex: string)
    ensures hex == Hex(md5(content))
  {
    var fed: Bytes := [];  // everything passed to m.update so far
    var pos := 0;
    var data := Read(content, pos, Md5BufferSize);
    while data != []
      invariant pos <= |content| && fed == content[..pos]
      invariant data == Read(content, pos, Md5BufferSize)
      decreases |content| - pos
    {
      fed := fed + data;
      pos := pos + |data|;
      data := Read(content, pos, Md5BufferSize);
    }
    assert fed == content;
    hex := Hex(md5(fed));
  }

  method EtagChecksum(md5: Hash, content: Bytes, chunkSize: int) returns (etag: string)
    ensures etag == EtagOf(md5, content, chunkSize)
  {
    var md5s: seq<Bytes> := [];
    var pos := 0;
    var data := Read(content, pos, chunkSize);
    while data != []
      invariant pos <= |content|
      invariant data == Read(content, pos, chunkSize)
      invariant md5s + DigestsOf(md5, Parts(content[pos..], chunkSize)) == DigestsOf(md5, Parts(content, chunkSize))
      decreases |content| - pos
    {
      DigestsFrom(md5, content, pos, chunkSize);
      ghost var next := DigestsOf(md5, Parts(content[pos + |data|..], chunkSize));
      assert md5s + ([md5(data)] + next) == (md5s + [md5(data)]) + next;
      md5s := md5s + [md5(data)];
      pos := pos + |data|;
      data := Read(content, pos, chunkSize);
    }
    ReadFrom(content, pos, chunkSize);
    assert Parts(content[pos..], chunkSize) == [];
    assert md5s == DigestsOf(md5, Parts(content, chunkSize));
    var m := md5(Flatten(md5s));
    etag := if |md5s| > 1 then Hex(m) + "-" + Decimal(|md5s|) else Hex(m);
  }

  /** One more read at pos yields the next part of what is left of the file. */
  lemma DigestsFrom(md5: Hash, content: Bytes, pos: nat, n: int)
    requires pos <= |content| && Read(content, pos, n) != []
    ensures var data := Read(content, pos, n);
      DigestsOf(md5, Parts(content[pos..], n)) == [md5(data)] + DigestsOf(md5, Parts(content[pos + |data|..], n))
  {
    var data := Read(content, pos, n);
    ReadFrom(content, pos, n);
    assert content[pos..][|data|..] == content[pos + |data|..];
  }

  /** Reading the rest of the file from pos is reading that suffix from its start. */
  lemma ReadFrom(content: Bytes, pos: nat, n: int)
    requires pos <= |content|
    ensures Read(content[pos..], 0, n) == Read(content, pos, n)
  {
  }

  // ---------------------------------------------------------------------
  // Chunking

  /** A file longer than one chunk starts with a full chunk, followed by the parts of the rest. */
  lemma PartsStep(content: Bytes, n: int)
    requires n > 0 && |content| > n
    ensures Parts(content, n) == [content[..n]] + Parts(content[n..], n)
  {
  }

  /** Every part but the last is a full chunk of n bytes; the last holds between 1 and n bytes. */
  lemma {:induction false} PartSizes(content: Bytes, n: int)
    requires n > 0
    ensures var parts := Parts(content, n);
      && (forall j :: 0 <= j < |parts| - 1 ==> |parts[j]| == n)
      && (parts != [] ==> 0 < |parts[|parts| - 1]| <= n)
    decreases |content|
  {
    if |content| <= n {
      if content != [] {
        assert Read(content, 0, n) == content;
        assert content[|content|..] == [];
        assert Parts(content[|content|..], n) == [];
      }
    } else {
      PartsStep(content, n);
      var rest := content[n..];
      PartSizes(rest, n);
      assert Read(rest, 0, n) != [];
      var parts := Parts(content, n);
      forall j | 0 <= j < |parts| - 1
        ensures |parts[j]| == n
      {
        if j > 0 {
          assert parts[j] == Parts(rest, n)[j - 1];
        }
      }
    }
  }

  /** q is ceil(x / n): the least count of n-byte chunks that covers x bytes. */
  predicate IsCeilDiv(q: int, x: int, n: int) {
    (q - 1) * n < x <= q * n
  }

  lemma CeilDivStep(q: int, x: int, n: int)
    requires IsCeilDiv(q, x - n, n)
    ensures IsCeilDiv(q + 1, x, n)
  {
    assert (q + 1 - 1) * n == (q - 1) * n + n;
    assert (q + 1) * n == q * n + n;
  }

  /** There are ceil(|content| / n) parts: none for an empty file. */
  lemma {:induction false} PartsCount(content: Bytes, n: int)
    requires n > 0
    ensures IsCeilDiv(|Parts(content, n)|, |content|, n)
    decreases |content|
  {
    if |content| <= n {
      if content != [] {
        assert content[|content|..] == [];
      }
    } else {
      PartsStep(content, n);
      var rest := content[n..];
      PartsCount(rest, n);
      CeilDivStep(|Parts(rest, n)|, |content|, n);
    }
  }

  /** The chunking of `etag_checksum`: ceil(|content| / n) parts that concatenate back to
      the content, all full chunks of n bytes except a last one of 1 to n bytes. */
  lemma PartsAt(content: Bytes, n: int)
    requires n > 0
    ensures var parts := Parts(content, n);
      && IsCeilDiv(|parts|, |content|, n)
      && Flatten(parts) == content
      && (forall j :: 0 <= j < |parts| - 1 ==> |parts[j]| == n)
      && (parts != [] ==> 0 < |parts[|parts| - 1]| <= n)
  {
    PartsCount(content, n);
    PartsFlatten(content, n);
    PartSizes(content, n);
  }

  /** The parts concatenate back to the content, whatever the chunk size, except 0, which reads nothing. */
  lemma {:induction false} PartsFlatten(content: Bytes, n: int)
    requires n != 0
    ensures Flatten(Parts(content, n)) == content
    decreases |content|
  {
    if content != [] {
      var chunk := Read(content, 0, n);
      PartsFlatten(content[|chunk|..], n);
      assert Parts(content, n)[1..] == Parts(content[|chunk|..], n);
      assert chunk + content[|chunk|..] == content;
    }
  }

  /** A negative chunk size reads the whole (non-empty) file as one part; 0 reads no part at all. */
  lemma PartsDegenerate(content: Bytes, n: int)
    requires n <= 0
    ensures Parts(content, n) == if n < 0 && content != [] then [content] else []
  {
    if n < 0 && content != [] {
      assert content[|content|..] == [];
    }
  }

  // ---------------------------------------------------------------------
  // The single-part / multi-part branch

  /** An empty file has no part: the ETag is the MD5 of the empty string, without suffix. */
  lemma EmptyFileEtag(md5: Hash, n: int)
    ensures EtagOf(md5, [], n) == Hex(md5([]))
  {
  }

  /** One part: the MD5 of that part's 16-byte digest, not of the content, and no suffix. */
  lemma SinglePartEtag(md5: Hash, content: Bytes, n: int)
    requires content != [] && (n < 0 || |content| <= n)
    ensures EtagOf(md5, content, n) == Hex(md5(md5(content)))
  {
    assert Read(content, 0, n) == content;
    assert content[|content|..] == [];
    assert Parts(content, n) == [content];
    assert Flatten([md5(content)]) == md5(content);
  }

  /** More than one part: the MD5 of the concatenated raw digests, in part order, then "-" and the part count. */
  lemma MultiPartEtag(md5: Hash, content: Bytes, n: int)
    requires n > 0 && |content| > n
    ensures |Parts(content, n)| > 1 && IsCeilDiv(|Parts(content, n)|, |content|, n)
    ensures EtagOf(md5, content, n)
      == Hex(md5(Flatten(DigestsOf(md5, Parts(content, n))))) + "-" + Decimal(|Parts(content, n)|)
  {
    PartsCount(content, n);
  }

  /** The part digests are the digests of the chunks of the content, in chunk order. */
  lemma DigestsOfAt(md5: Hash, parts: seq<Bytes>, j: nat)
    requires j < |parts|
    ensures DigestsOf(md5, parts)[j] == md5(parts[j])
  {
    if j > 0 {
      DigestsOfAt(md5, parts[1..], j - 1);
    }
  }

  /** Chunk size 0 (which `validate_chunks` accepts) reads nothing, so every file gets the empty-string ETag. */
  lemma ZeroChunkSizeEtag(md5: Hash, content: Bytes)
    ensures EtagOf(md5, content, 0) == Hex(md5([]))
  {
    PartsDegenerate(content, 0);
  }

  /** The ETag carries a '-' exactly when the file had more than one part. */
  lemma SuffixIffMultiPart(md5: Hash, content: Bytes, n: int)
    ensures '-' in EtagOf(md5, content, n) <==> |Parts(content, n)| > 1
  {
    var parts := Parts(content, n);
    var h := Hex(md5(Flatten(DigestsOf(md5, parts))));
    assert !IsHexDigit('-');
    if |parts| > 1 {
      assert (h + "-" + Decimal(|parts|))[|h|] == '-';
    }
  }

  /** For a single part the ETag equals the plain MD5 hex digest only if re-hashing the digest gives the digest back. */
  lemma SinglePartVersusMd5(md5: Hash, content: Bytes, n: int)
    requires content != [] && (n < 0 || |content| <= n)
    ensures EtagOf(md5, content, n) == Hex(md5(content)) <==> md5(md5(content)) == md5(content)
  {
    SinglePartEtag(md5, content, n);
    if Hex(md5(md5(content))) == Hex(md5(content)) {
      HexInjective(md5(md5(content)), md5(content));
    }
  }

  // ---------------------------------------------------------------------
  // etag_compare

  datatype Comparison = Comparison(matched: bool, computed: string, expected: string)

  /** A mode other than "etag" or "md5" leaves the computed digest unbound. */
  datatype CompareError = UnboundDigest

  method EtagCompare(md5: Hash, content: Bytes, etag: string, mode: string, chunkSize: int)
    returns (r: Result<Comparison, CompareError>)
    ensures r.Failure? <==> mode != "etag" && mode != "md5"
    ensures r.Success? ==> r.value.expected == StripQuotes(etag)
    ensures r.Success? ==> r.value.computed == if mode == "etag" then EtagOf(md5, content, chunkSize) else Hex(md5(content))
    ensures r.Success? ==> (r.value.matched <==> r.value.expected == r.value.computed)
  {
    var et := StripQuotes(etag);
    var a;
    if mode == "etag" {
      a := EtagChecksum(md5, content, chunkSize);
    } else if mode == "md5" {
      a := Md5Checksum(md5, content);
    } else {
      return Failure(UnboundDigest);
    }
    r := Success(Comparison(et == a, a, et));
  }
}
