/** `check_hashes`: reconciles a batch of (expected digest, identifier) pairs
    in one of three modes and reports one line per outcome. In the "etag"
    and "md5" modes each identifier is a local file whose digest is computed
    and compared; in the "s3uri" mode the identifiers are matched, as
    substrings, against the keys of one batch retrieval of remote ETags. Any
    other mode reports itself as not recognized. Printing is modelled as the
    sequence of lines printed. */
module Reconcile {
  import opened Wrappers
  import opened Text
  import opened ETag
  import opened S3

  /** One (e, i) row of the input: the expected digest and the file name or key fragment. */
  datatype Entry = Entry(expected: string, id: string)

  /** The file system as the tool reads it: the content of the file at each path. */
  type Files = string -> Bytes

  // ---------------------------------------------------------------------
  // Report lines

  function ComparingLine(mode: string, id: string): string {
    "Comparing " + mode + "s for " + id + " ..."
  }

  /** "\t".join([e, i, "Ok!"]) */
  function OkLine(e: string, id: string): string {
    e + "\t" + id + "\tOk!"
  }

  /** "\t".join([e, i, "-->", got, "NO MATCH!"]) */
  function NoMatchLine(e: string, id: string, got: string): string {
    e + "\t" + id + "\t-->\t" + got + "\tNO MATCH!"
  }

  function NotFoundLine(id: string): string {
    id + " not found!"
  }

  function UnrecognizedLine(mode: string): string {
    "Mode '" + mode + "' not recognized!"
  }

  function Verdict(e: string, id: string, got: string, matched: bool): string {
    if matched then OkLine(e, id) else NoMatchLine(e, id, got)
  }

  /** A match line and a mismatch line for the same entry never coincide, and mismatch lines name what was found. */
  lemma VerdictLines(e: string, id: string, got: string, got': string)
    ensures OkLine(e, id) != NoMatchLine(e, id, got)
    ensures NoMatchLine(e, id, got) == NoMatchLine(e, id, got') ==> got == got'
  {
    var k := |e| + 1 + |id| + 1;
    assert OkLine(e, id)[k] == 'O';
    assert NoMatchLine(e, id, got)[k] == '-';
    if NoMatchLine(e, id, got) == NoMatchLine(e, id, got') {
      var a, b := NoMatchLine(e, id, got), NoMatchLine(e, id, got');
      assert |got| == |got'|;
      assert got == a[k + 4..k + 4 + |got|];
      assert got' == b[k + 4..k + 4 + |got'|];
    }
  }

  // ---------------------------------------------------------------------
  // The local modes

  /** `etag_compare` falls back to its 8 MiB default when no chunk size is given. */
  function EffectiveChunkSize(chunkSize: Option<int>): int {
    if chunkSize.None? then CompareDefaultChunkSize else chunkSize.value
  }

  /** What `etag_compare` computes for a file in a local mode. */
  function Computed(md5: Hash, content: Bytes, mode: string, n: int): string {
    if mode == "etag" then EtagOf(md5, content, n) else Hex(md5(content))
  }

  /** The two lines printed for one entry: progress, then the verdict. The verdict shows the
      expected digest as given and compares it with its quotes stripped. */
  function EntryLines(md5: Hash, files: Files, h: Entry, mode: string, n: int): seq<string> {
    var got := Computed(md5, files(h.id), mode, n);
    [ComparingLine(mode, h.id), Verdict(h.expected, h.id, got, StripQuotes(h.expected) == got)]
  }

  /** The blocks of lines for the entries, one after the other in input order. */
  function Blocks(lines: Entry -> seq<string>, hashes: seq<Entry>): seq<string> {
    if hashes == [] then []
    else Blocks(lines, hashes[..|hashes| - 1]) + lines(hashes[|hashes| - 1])
  }

  /** The lines printed for the entries, in input order. */
  function LocalReport(md5: Hash, files: Files, hashes: seq<Entry>, mode: string, n: int): seq<string> {
    Blocks(h => EntryLines(md5, files, h, mode, n), hashes)
  }

  lemma {:induction false} BlocksLength(lines: Entry -> seq<string>, hashes: seq<Entry>)
    requires forall h :: |lines(h)| == 2
    ensures |Blocks(lines, hashes)| == 2 * |hashes|
  {
    if hashes != [] {
      BlocksLength(lines, hashes[..|hashes| - 1]);
    }
  }

  /** With two lines per entry, lines 2k and 2k + 1 are entry k's block. */
  lemma {:induction false} BlocksAt(lines: Entry -> seq<string>, hashes: seq<Entry>, k: nat)
    requires k < |hashes| && forall h :: |lines(h)| == 2
    ensures |Blocks(lines, hashes)| == 2 * |hashes|
    ensures Blocks(lines, hashes)[2 * k] == lines(hashes[k])[0]
    ensures Blocks(lines, hashes)[2 * k + 1] == lines(hashes[k])[1]
  {
    var init := hashes[..|hashes| - 1];
    BlocksLength(lines, init);
    BlocksLength(lines, hashes);
    if k < |init| {
      BlocksAt(lines, init, k);
      assert hashes[k] == init[k];
    }
  }

  lemma LocalReportAt(md5: Hash, files: Files, hashes: seq<Entry>, mode: string, n: int, k: nat)
    requires k < |hashes|
    ensures |LocalReport(md5, files, hashes, mode, n)| == 2 * |hashes|
    ensures LocalReport(md5, files, hashes, mode, n)[2 * k] == EntryLines(md5, files, hashes[k], mode, n)[0]
    ensures LocalReport(md5, files, hashes, mode, n)[2 * k + 1] == EntryLines(md5, files, hashes[k], mode, n)[1]
  {
    BlocksAt(h => EntryLines(md5, files, h, mode, n), hashes, k);
  }

  lemma LocalReportLength(md5: Hash, files: Files, hashes: seq<Entry>, mode: string, n: int)
    ensures |LocalReport(md5, files, hashes, mode, n)| == 2 * |hashes|
  {
    BlocksLength(h => EntryLines(md5, files, h, mode, n), hashes);
  }

  /** Two lines per entry, in input order: the progress line, then Ok! when the unquoted
      expected digest equals the computed one and NO MATCH! with the computed digest otherwise. */
  lemma LocalReportLines(md5: Hash, files: Files, hashes: seq<Entry>, mode: string, n: int)
    ensures |LocalReport(md5, files, hashes, mode, n)| == 2 * |hashes|
    ensures forall k :: 0 <= k < |hashes| ==>
      LocalReport(md5, files, hashes, mode, n)[2 * k] == ComparingLine(mode, hashes[k].id)
    ensures forall k :: 0 <= k < |hashes| ==>
      var got := Computed(md5, files(hashes[k].id), mode, n);
      LocalReport(md5, files, hashes, mode, n)[2 * k + 1] ==
        Verdict(hashes[k].expected, hashes[k].id, got, StripQuotes(hashes[k].expected) == got)
  {
    LocalReportLength(md5, files, hashes, mode, n);
    forall k | 0 <= k < |hashes|
      ensures LocalReport(md5, files, hashes, mode, n)[2 * k] == ComparingLine(mode, hashes[k].id)
      ensures var got := Computed(md5, files(hashes[k].id), mode, n);
        LocalReport(md5, files, hashes, mode, n)[2 * k + 1] ==
          Verdict(hashes[k].expected, hashes[k].id, got, StripQuotes(hashes[k].expected) == got)
    {
      LocalReportAt(md5, files, hashes, mode, n, k);
    }
  }

  /** A quoted expected digest is judged as the bare one: with the same file the verdict is the same. */
  lemma LocalVerdictIgnoresQuotes(md5: Hash, content: Bytes, e: string, mode: string, n: int)
    ensures var got := Computed(md5, content, mode, n);
      (StripQuotes("\"" + e + "\"") == got) == (StripQuotes(e) == got)
  {
    StripQuotesWrapped(e);
  }

  method CheckLocal(md5: Hash, files: Files, hashes: seq<Entry>, mode: string, chunkSize: Option<int>)
    returns (out: seq<string>)
    requires mode == "etag" || mode == "md5"
    ensures out == LocalReport(md5, files, hashes, mode, EffectiveChunkSize(chunkSize))
  {
    var n := EffectiveChunkSize(chunkSize);
    out := [];
    for k := 0 to |hashes|
      invariant out == LocalReport(md5, files, hashes[..k], mode, n)
    {
      var h := hashes[k];
      var r := EtagCompare(md5, files(h.id), h.expected, mode, n);
      var v := r.value;
      var verdict := if v.matched then OkLine(h.expected, h.id) else NoMatchLine(h.expected, h.id, v.computed);
      assert [ComparingLine(mode, h.id), verdict] == EntryLines(md5, files, h, mode, n);
      LocalReportStep(md5, files, hashes, mode, n, k);
      out := out + [ComparingLine(mode, h.id), verdict];
    }
    assert hashes[..|hashes|] == hashes;
  }

  lemma LocalReportStep(md5: Hash, files: Files, hashes: seq<Entry>, mode: string, n: int, k: nat)
    requires k < |hashes|
    ensures LocalReport(md5, files, hashes[..k + 1], mode, n)
         == LocalReport(md5, files, hashes[..k], mode, n) + EntryLines(md5, files, hashes[k], mode, n)
  {
    assert hashes[..k + 1][..k] == hashes[..k];
  }

  // ---------------------------------------------------------------------
  // The remote mode

  /** `[i for e, i in hashes]` */
  function Ids(hashes: seq<Entry>): (ids: seq<string>)
    ensures |ids| == |hashes| && forall k :: 0 <= k < |hashes| ==> ids[k] == hashes[k].id
  {
    if hashes == [] then [] else [hashes[0].id] + Ids(hashes[1..])
  }

  /** Without a pattern, one is compiled from every identifier joined by alternation. */
  function RemotePattern(hashes: seq<Entry>, pattern: Pattern): Pattern {
    if PatternGiven(pattern) then pattern else PatternRegex(Join(Ids(hashes), "|"))
  }

  /** What the s3uri mode retrieves: compiling the joined identifiers fails before anything is
      listed, otherwise the retrieval runs under the pattern. */
  function RemoteData(store: Storage, compiles: Compiles, search: Search, hashes: seq<Entry>,
                      bucket: Names, key: Names, pattern: Pattern): Result<seq<Remote>, S3Error>
  {
    if !PatternGiven(pattern) && !compiles(Join(Ids(hashes), "|")) then Failure(InvalidPattern)
    else Retrieved(store, compiles, search, bucket, key, RemotePattern(hashes, pattern))
  }

  /** The distinct remote ETags of the keys that contain the identifier. */
  function FoundEtags(data: seq<Remote>, id: string): set<string> {
    set j | 0 <= j < |data| && Contains(data[j].key, id) :: data[j].etag
  }

  predicate NoDup(s: seq<string>) {
    forall i, j :: 0 <= i < j < |s| ==> s[i] != s[j]
  }

  /** order lists the elements of s, each once (Python's set iteration order is unspecified). */
  ghost predicate Enumerates(order: seq<string>, s: set<string>) {
    NoDup(order) && forall x :: x in order <==> x in s
  }

  /** The remote ETag is compared with the expected digest as given, without stripping. */
  function RemoteLine(e: string, id: string, et: string): string {
    Verdict(e, id, et, et == e)
  }

  function RemoteLines(e: string, id: string, order: seq<string>): (ls: seq<string>)
    ensures |ls| == |order| && forall j :: 0 <= j < |order| ==> ls[j] == RemoteLine(e, id, order[j])
  {
    seq(|order|, j requires 0 <= j < |order| => RemoteLine(e, id, order[j]))
  }

  function RemoteBlock(e: string, id: string, order: seq<string>): seq<string> {
    if order == [] then [NotFoundLine(id)] else RemoteLines(e, id, order)
  }

  /** The lines for the entries in input order, entry k listing its ETags in orders[k]. */
  function RemoteReport(hashes: seq<Entry>, orders: seq<seq<string>>): seq<string>
    requires |orders| == |hashes|
  {
    if hashes == [] then []
    else
      var h := hashes[|hashes| - 1];
      RemoteReport(hashes[..|hashes| - 1], orders[..|orders| - 1]) + RemoteBlock(h.expected, h.id, orders[|orders| - 1])
  }

  lemma {:induction false} NoDupCount(order: seq<string>)
    requires NoDup(order)
    ensures |set x | x in order| == |order|
  {
    if order != [] {
      var init, last := order[..|order| - 1], order[|order| - 1];
      NoDupCount(init);
      assert (set x | x in order) == (set x | x in init) + {last};
      assert last !in (set x | x in init);
    }
  }

  /** An entry whose identifier is in no remote key gets one "not found!" line; otherwise one
      line per distinct ETag found, Ok! exactly when that ETag is the expected digest. */
  lemma RemoteBlockLines(e: string, id: string, order: seq<string>, found: set<string>)
    requires Enumerates(order, found)
    ensures found == {} ==> RemoteBlock(e, id, order) == [NotFoundLine(id)]
    ensures found != {} ==> |RemoteBlock(e, id, order)| == |found|
    ensures found != {} ==> forall l :: l in RemoteBlock(e, id, order) <==> exists et :: et in found && l == RemoteLine(e, id, et)
    ensures found != {} ==> (OkLine(e, id) in RemoteBlock(e, id, order) <==> e in found)
  {
    NoDupCount(order);
    assert found == set x | x in order;
    if found != {} {
      var ls := RemoteBlock(e, id, order);
      assert ls == RemoteLines(e, id, order);
      forall l ensures l in ls <==> exists et :: et in found && l == RemoteLine(e, id, et) {
        if l in ls {
          var j :| 0 <= j < |ls| && ls[j] == l;
          assert l == RemoteLine(e, id, order[j]);
        }
        if et :| et in found && l == RemoteLine(e, id, et) {
          var j :| 0 <= j < |order| && order[j] == et;
          assert ls[j] == l;
        }
      }
      if OkLine(e, id) in ls {
        var et :| et in found && OkLine(e, id) == RemoteLine(e, id, et);
        VerdictLines(e, id, et, et);
      }
    }
  }

  /** Remote ETags come without quotes and are compared with the expected digest as given,
      so a quoted expected digest never gets an Ok! line in the remote mode. */
  lemma QuotedExpectedNeverFound(data: seq<Remote>, id: string, e: string)
    requires forall j :: 0 <= j < |data| ==> QuoteFree(data[j].etag)
    requires e != [] && e[0] == '"'
    ensures e !in FoundEtags(data, id)
  {
  }

  method CheckRemote(store: Storage, compiles: Compiles, search: Search, hashes: seq<Entry>, bucket: Names, key: Names, pattern: Pattern)
    returns (out: seq<string>, failure: Option<S3Error>, orders: seq<seq<string>>)
    ensures !PatternGiven(pattern) && !compiles(Join(Ids(hashes), "|")) ==> out == [] && failure == Some(InvalidPattern)
    ensures var data := RemoteData(store, compiles, search, hashes, bucket, key, pattern);
      && (data.Failure? ==> out == [] && failure == Some(data.error))
      && (data.Success? ==>
            && failure == None
            && |orders| == |hashes|
            && (forall k :: 0 <= k < |hashes| ==> Enumerates(orders[k], FoundEtags(data.value, hashes[k].id)))
            && out == RemoteReport(hashes, orders))
  {
    var p := pattern;
    if !PatternGiven(p) {
      var source := Join(Ids(hashes), "|");
      if !compiles(source) {
        return [], Some(InvalidPattern), [];
      }
      p := PatternRegex(source);
    }
    var data := RetrieveS3UriEtag(store, compiles, search, bucket, key, p);
    if data.Failure? {
      return [], Some(data.error), [];
    }
    out, orders := ReportRemote(data.value, hashes);
    failure := None;
  }

  /** The report for every entry, given the retrieved (ETag, key) pairs. */
  method ReportRemote(data: seq<Remote>, hashes: seq<Entry>) returns (out: seq<string>, orders: seq<seq<string>>)
    ensures |orders| == |hashes|
    ensures forall k :: 0 <= k < |hashes| ==> Enumerates(orders[k], FoundEtags(data, hashes[k].id))
    ensures out == RemoteReport(hashes, orders)
  {
    out, orders := [], [];
    for k := 0 to |hashes|
      invariant |orders| == k
      invariant forall j :: 0 <= j < k ==> Enumerates(orders[j], FoundEtags(data, hashes[j].id))
      invariant out == RemoteReport(hashes[..k], orders)
    {
      var h := hashes[k];
      var block, order := ReportFound(h.expected, h.id, FoundEtags(data, h.id));
      RemoteReportStep(hashes, orders, order, k);
      out := out + block;
      orders := orders + [order];
    }
    assert hashes[..|hashes|] == hashes;
  }

  /** The lines for one entry: "not found!" when no remote ETag was found for it, otherwise
      one line per distinct ETag, in the set's iteration order. */
  method ReportFound(e: string, id: string, found: set<string>) returns (lines: seq<string>, order: seq<string>)
    ensures Enumerates(order, found)
    ensures lines == RemoteBlock(e, id, order)
  {
    order := [];
    if found == {} {
      return [NotFoundLine(id)], order;
    }
    lines := [];
    var rest := found;
    while rest != {}
      invariant rest <= found
      invariant NoDup(order) && forall x :: x in order <==> x in found && x !in rest
      invariant lines == RemoteLines(e, id, order)
      decreases rest
    {
      var et :| et in rest;
      lines := lines + [RemoteLine(e, id, et)];
      order := order + [et];
      rest := rest - {et};
    }
    assert order != [] by {
      var x :| x in found;
    }
  }

  lemma RemoteReportStep(hashes: seq<Entry>, orders: seq<seq<string>>, order: seq<string>, k: nat)
    requires k < |hashes| && |orders| == k
    ensures RemoteReport(hashes[..k + 1], orders + [order])
         == RemoteReport(hashes[..k], orders) + RemoteBlock(hashes[k].expected, hashes[k].id, order)
  {
    assert hashes[..k + 1][..k] == hashes[..k];
    assert (orders + [order])[..k] == orders;
  }

  // ---------------------------------------------------------------------
  // check_hashes

  method CheckHashes(md5: Hash, files: Files, store: Storage, compiles: Compiles, search: Search, hashes: seq<Entry>, mode: string,
                     chunkSize: Option<int>, bucket: Names, key: Names, pattern: Pattern)
    returns (out: seq<string>, failure: Option<S3Error>, orders: seq<seq<string>>)
    ensures mode == "etag" || mode == "md5" ==>
      failure == None && out == LocalReport(md5, files, hashes, mode, EffectiveChunkSize(chunkSize))
    ensures mode == "s3uri" ==>
      var data := RemoteData(store, compiles, search, hashes, bucket, key, pattern);
      && (data.Failure? ==> out == [] && failure == Some(data.error))
      && (data.Success? ==>
            && failure == None
            && |orders| == |hashes|
            && (forall k :: 0 <= k < |hashes| ==> Enumerates(orders[k], FoundEtags(data.value, hashes[k].id)))
            && out == RemoteReport(hashes, orders))
    ensures mode != "etag" && mode != "md5" && mode != "s3uri" ==> failure == None && out == [UnrecognizedLine(mode)]
  {
    if mode == "etag" || mode == "md5" {
      out := CheckLocal(md5, files, hashes, mode, chunkSize);
      failure, orders := None, [];
    } else if mode == "s3uri" {
      out, failure, orders := CheckRemote(store, compiles, search, hashes, bucket, key, pattern);
    } else {
      out, failure, orders := [UnrecognizedLine(mode)], None, [];
    }
  }
}
