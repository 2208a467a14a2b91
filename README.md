# compETAG in Dafny

compETAG checks that files copied to Amazon S3 arrived intact. It does so by
comparing digests. In the "etag" mode it recomputes the multipart ETag of a
local file: the file is read in chunks, each chunk is hashed with MD5, and
the MD5 of the concatenated raw digests is taken. More than one chunk adds a
`-<parts>` suffix. In the "md5" mode it recomputes the plain MD5 of the
file. In the "s3uri" mode it lists objects under bucket/key prefixes, keeps
those whose key a regular expression finds, and compares their reported
ETags with the expected ones. The command line's chunk size argument
(`8MB`, `512KB`, `1024`, ...) is parsed by `validate_chunks`.

This project models that core:

- `text.dfy` (module `Text`): bytes, and the text formats the tool uses:
  hexdigest, decimal, `str.join`, substring `in`, and `str.strip('"')`.
- `args_parser.dfy` (module `ArgsParser`): `validate_chunks`. Both copies
  of `argsParser.py` hold the same function, so one module models both.
- `etag.dfy` (module `ETag`): `md5_checksum`, `etag_checksum` and
  `etag_compare`.
- `s3.dfy`: module `S3` holds `get_objects`, `get_object_etag`,
  `get_etags_from_s3uri` and `retrieve_s3uri_etag`; module `S3Properties`
  holds what is proved about them.
- `reconcile.dfy` (module `Reconcile`): `check_hashes`, with printing
  modelled as the sequence of printed lines.
- `wrappers.dfy` (module `Wrappers`): `Option` and `Result`.

The model treats the following as parameters:

- MD5: any function from bytes to 16-byte digests.
- The file system: the content of the file at each path.
- The storage service: the keys listed under a prefix of a bucket, and each object's reported ETag.
- The regular-expression search engine.

Exceptions become `Failure` values.

The loops of the source are methods with loop invariants. Each method is
proved equal to a specification function (`EtagOf`, `ObjectsUnder`,
`Retrieved`, `LocalReport`, `RemoteReport`), and the lemmas state what those
functions mean.

For a file that fits in one chunk, `etag_checksum` returns the MD5 of
that chunk's 16-byte digest, not the plain MD5 of the content. Amazon S3
reports the plain MD5 of the content as the ETag of a single-part upload,
so for such files the two differ. The model follows the code.
`ETag.SinglePartEtag` states the value the code computes, and
`ETag.SinglePartVersusMd5` shows it equals `md5_checksum` only when
re-hashing the digest gives the digest back.

## Model

| member | source | states |
|---|---|---|
| ArgsParser.ValidateChunks | src/comp_etag/argsParser.py:32-33 | a refused argument fails with the message "invalid chunk size <argument>!" |
| ArgsParser.ValidateChunksAccepts | src/comp_etag/argsParser.py:31-33 | the argument is accepted exactly when `(\d+)([KMGT]B)?` matches all of it |
| ArgsParser.MatchAtUnique | build/lib/etag/argsParser.py:31 | the full match is unique: the digits end where the optional unit starts |
| ArgsParser.ValidateChunksValue | build/lib/etag/argsParser.py:34-35 | an accepted argument yields int(digits) times the unit's factor |
| ArgsParser.UnitFactorIsPower | src/comp_etag/argsParser.py:23-29 | the unit table maps "", KB, MB, GB, TB to 1024^0 .. 1024^4 |
| ArgsParser.ValidateChunksSuffixed | src/comp_etag/argsParser.py:34-35 | digits followed by the k-th unit are int(digits) * 1024^k |
| ArgsParser.ValidateChunksRoundTrip | build/lib/etag/argsParser.py:31-37 | writing n in decimal followed by any unit reads back as n * 1024^k |
| ArgsParser.ValidateChunksMonotone | build/lib/etag/argsParser.py:23-35 | for fixed digits the size never decreases from one unit to the next, and grows strictly unless the digits are all zero |
| ArgsParser.DefaultChunkSize | src/comp_etag/argsParser.py:11 | the default "8MB" is 8388608 bytes |
| ArgsParser.ZeroAndLeadingZeros | build/lib/etag/argsParser.py:31-37 | "0" is accepted as 0 and "008KB" as 8192: there is no positivity check |
| ArgsParser.RejectsMalformed | build/lib/etag/argsParser.py:32-33 | a lower-case unit, a bare B, the empty string and an inner space are refused |
| Text.Hex | src/comp_etag/core.py:28 | hexdigest gives two lower-case hex digits per byte |
| Text.UnHexHex | src/comp_etag/core.py:48 | a hexdigest reads back to the digest it came from |
| Text.HexInjective | src/comp_etag/core.py:77 | two hexdigests are equal only when the digests are equal |
| Text.Decimal | src/comp_etag/core.py:48 | the part count is written as a non-empty run of decimal digits |
| Text.DecimalRoundTrip | src/comp_etag/core.py:48 | the written part count reads back as the count |
| Text.ContainsIff | src/comp_etag/core.py:243 | `i in m` holds exactly when i occurs at some position of m |
| Text.StripLeadingRemovesQuotes | src/comp_etag/core.py:72 | stripping leading quotes removes only quotes, and leaves no leading quote |
| Text.StripTrailingRemovesQuotes | src/comp_etag/core.py:72 | stripping trailing quotes removes only quotes, and leaves no trailing quote |
| Text.StripQuotesShape | src/comp_etag/core.py:72 | the input is some quotes, the stripped string, then some quotes; the stripped string has no quote at either end |
| Text.StripQuotesFree | src/comp_etag/core.py:127 | the stripped ETag has no quote at either end |
| Text.StripQuotesOf | src/comp_etag/core.py:72 | quotes around a quote-free string are removed exactly |
| Text.StripQuotesWrapped | src/comp_etag/core.py:72 | a quoted digest and the bare digest strip to the same string |
| Text.StripQuotesIdempotent | src/comp_etag/core.py:72 | stripping twice is stripping once |
| ETag.Read | src/comp_etag/core.py:26 | `f.read(n)` returns the next bytes of the file: the rest for a negative n, otherwise min(n, remaining) bytes |
| ETag.Md5Checksum | src/comp_etag/core.py:24-28 | feeding the file in 1 MiB buffers gives the hexdigest of the MD5 of the whole content |
| ETag.EtagChecksum | src/comp_etag/core.py:43-48 | the loop returns the ETag of the content's chunking: hexdigest of the MD5 of the joined part digests, with "-<parts>" when there is more than one part |
| ETag.PartSizes | src/comp_etag/core.py:45 | every chunk but the last has exactly n bytes; the last has 1 to n |
| ETag.PartsCount | src/comp_etag/core.py:45-46 | there are ceil(size / n) parts, none for an empty file |
| ETag.PartsAt | src/comp_etag/core.py:45-46 | the parts number ceil(size / n), concatenate back to the content, and are full chunks except the last |
| ETag.PartsFlatten | src/comp_etag/core.py:45 | for any chunk size other than 0 the chunks concatenate back to the file |
| ETag.PartsDegenerate | src/comp_etag/core.py:45 | a negative chunk size reads a non-empty file as one part; 0 reads no part at all |
| ETag.DigestsOfAt | src/comp_etag/core.py:46 | the k-th collected digest is the MD5 of the k-th chunk |
| ETag.EmptyFileEtag | src/comp_etag/core.py:47-48 | an empty file's ETag is the hexdigest of the MD5 of the empty string, without suffix |
| ETag.SinglePartEtag | src/comp_etag/core.py:46-48 | a one-part file's ETag is the hexdigest of the MD5 of the part's raw digest, without suffix |
| ETag.MultiPartEtag | src/comp_etag/core.py:46-48 | a file longer than the chunk size has ceil(size / n) > 1 parts, and its ETag is the combined hexdigest, "-" and the part count |
| ETag.ZeroChunkSizeEtag | src/comp_etag/core.py:45-48 | with chunk size 0 every file gets the empty-string ETag |
| ETag.SuffixIffMultiPart | src/comp_etag/core.py:48 | the ETag contains '-' exactly when there is more than one part |
| ETag.SinglePartVersusMd5 | src/comp_etag/core.py:24-48 | for a one-part file the ETag equals md5_checksum only if MD5 maps the file's digest to itself |
| ETag.EtagCompare | src/comp_etag/core.py:72-80 | fails exactly for a mode other than etag/md5; otherwise it returns the stripped expected digest, the digest computed for the mode, and whether the two are equal |
| S3.KeptKeysMembers | src/comp_etag/core.py:102-109 | a key is kept exactly when it was listed and the pattern hits it; nothing is added |
| S3.KeptKeysWithoutPattern | src/comp_etag/core.py:103-104 | with no pattern, every listed (non-empty) key is kept, in listing order |
| S3.GetObjects | src/comp_etag/core.py:99-111 | the loop returns the kept keys in listing order, or fails when a plain string pattern meets a listed key |
| S3.GetObjectEtag | src/comp_etag/core.py:126-127 | the row keeps the key and carries an ETag without quotes at either end |
| S3.GetEtagsFromS3Uri | src/comp_etag/core.py:146-149 | returns one (unquoted ETag, key) row per kept key, or the listing's failure |
| S3.RetrieveS3UriEtag | src/comp_etag/core.py:168-189 | fails for a missing bucket, a missing key, or a list pattern whose alternation does not compile; otherwise the nested loops return the rows of every bucket and key prefix in order, or the first failure |
| S3.FailureFromHere | src/comp_etag/core.py:183-187 | a failure at one bucket and key prefix is the result of the whole retrieval |
| S3.ForKeysFailurePersists | src/comp_etag/core.py:184-185 | once a key prefix fails, the bucket's result is that failure |
| S3.AcrossFailurePersists | src/comp_etag/core.py:183-185 | once a bucket fails, the whole retrieval is that failure |
| S3Properties.EtagsUnderMembers | src/comp_etag/core.py:146-147 | a row is returned for a prefix exactly when its key is listed there, kept by the pattern and paired with its unquoted ETag |
| S3Properties.ForKeysRowSound | src/comp_etag/core.py:184-187 | every row of a bucket comes from one of the key prefixes |
| S3Properties.ForKeysRowComplete | src/comp_etag/core.py:184-187 | every row of any key prefix is among the bucket's rows |
| S3Properties.AcrossRowSound | src/comp_etag/core.py:183-187 | every retrieved row comes from some bucket and key prefix |
| S3Properties.AcrossRowComplete | src/comp_etag/core.py:183-187 | every row of any bucket and key prefix is retrieved |
| S3Properties.RetrievedMembers | src/comp_etag/core.py:168-189 | a successful retrieval had both names and a compilable pattern, and holds exactly the rows of the given buckets and key prefixes, under the pattern as compiled and passed on |
| S3Properties.RetrievedFailure | src/comp_etag/core.py:178-185 | with both names given, retrieval fails exactly for a list pattern whose alternation does not compile (with `InvalidPattern`) or for a non-empty plain string pattern with some non-empty listing (with `PatternNotCompiled`) |
| S3Properties.ForKeysFailureIff | src/comp_etag/core.py:102-106 | one bucket fails exactly when the pattern cannot search and some prefix lists a key; the error is PatternNotCompiled |
| S3Properties.AcrossFailureIff | src/comp_etag/core.py:183-185 | the retrieval over the buckets fails exactly when the pattern cannot search and some bucket lists a key under some prefix; the error is PatternNotCompiled |
| Reconcile.VerdictLines | src/comp_etag/core.py:233-235 | an Ok! line never coincides with a NO MATCH! line, and NO MATCH! lines differ when the found digests differ |
| Reconcile.LocalReportAt | src/comp_etag/core.py:229-235 | lines 2k and 2k+1 of the local report are entry k's progress and verdict lines |
| Reconcile.LocalReportLength | src/comp_etag/core.py:229-235 | the local report has two lines per entry |
| Reconcile.LocalReportLines | src/comp_etag/core.py:220-235 | per entry in order: "Comparing ...", then Ok! when the stripped expected digest equals the computed one, else NO MATCH! with the computed digest |
| Reconcile.LocalVerdictIgnoresQuotes | src/comp_etag/core.py:72-77 | in the local modes a quoted expected digest gets the same verdict as the bare one |
| Reconcile.CheckLocal | src/comp_etag/core.py:220-235 | the loop prints the local report, with the 8 MiB default when no chunk size is given |
| Reconcile.RemoteBlockLines | src/comp_etag/core.py:243-252 | an entry with no found ETag gets one "not found!" line; otherwise one line per distinct ETag, with Ok! exactly when the expected digest is among them |
| Reconcile.QuotedExpectedNeverFound | src/comp_etag/core.py:243-248 | remote ETags have no quotes and are compared unstripped, so a quoted expected digest never gets Ok! in the s3uri mode |
| Reconcile.ReportFound | src/comp_etag/core.py:244-252 | returns an enumeration of the entry's found ETags, each once, and its block: "not found!" when there is none, otherwise one verdict line per ETag in that order |
| Reconcile.ReportRemote | src/comp_etag/core.py:242-252 | the blocks of every entry in input order, each entry's found ETags enumerated once |
| Reconcile.CheckRemote | src/comp_etag/core.py:237-252 | with no pattern, the identifiers joined by "\|" are compiled, and if that fails nothing is printed and the error is `InvalidPattern`; a failed retrieval prints nothing; otherwise the remote report is printed |
| Reconcile.CheckHashes | src/comp_etag/core.py:220-254 | dispatches on the mode: local report, remote report, or "Mode '<mode>' not recognized!" |

## Left out

- I/O is not modelled: file opening, boto3 and the network. Files are their contents; the storage service is a fixed snapshot given as two functions. Missing files, permission errors and service errors are not modelled.
- MD5 itself is a parameter, so nothing depends on its internals.
- The regex engine is two parameters: `compiles(source)`, whether `re.compile` accepts the source rather than raising `re.error`, and `search(source, key)`. The one concrete pattern, `(\d+)([KMGT]B)?` in `validate_chunks`, is modelled by hand with ASCII digits only; Python's `\d` also matches other Unicode decimal digits.
- `print` is modelled as the sequence of lines printed. In the remote functions an exception is a `Failure` carrying an `S3Error` that names its kind and cause (`MissingBucket`, `PatternNotCompiled`, `InvalidPattern`, ...), not its message text. `ArgsParser.ValidateChunks` carries the message that `validate_chunks` raises. argparse replaces it with `invalid validate_chunks value: '<argument>'`, and that replacement is not modelled.
- Reconcile.CheckLocal: the numpy coercion of the batch is not modelled. The chunk size reaches `etag_compare` as a Python int, or as the 8 MiB default when it is None. Not covered: fixed-width string truncation of the inserted column, int64 overflow of `astype(int)`, and the numpy error an empty batch raises. In the model an empty batch prints nothing.
- Reconcile.CheckLocal: `zip` draws from the lazy `map` before the loop body runs, so each file is hashed before its "Comparing" line is printed; the model does the same. A file that cannot be read would raise before its "Comparing" line, but read errors are not modelled.
- Reconcile.CheckLocal: the precondition restricts the mode to "etag" and "md5", the only modes for which `check_hashes` enters that branch.
- ETag.EtagCompare: a mode other than "etag" or "md5" leaves `a` unbound, and the model returns `UnboundDigest` for it. `check_hashes` never calls it with such a mode.
- Reconcile.CheckRemote: a set's iteration order is unspecified in Python. The remote methods therefore also return, for each entry, the order in which they enumerated its found ETags, each ETag once. The lines are stated for that order, not for one order fixed in advance.
- S3.RetrieveS3UriEtag: rows are gathered per bucket and then appended to the result. The result is the same as appending row by row, and on a failure the partial result is discarded, as the exception discards it.
- S3.GetEtagsFromS3Uri: the empty string returned when nothing is found is modelled as the empty list; the caller iterates both alike.
- S3.GetObjectEtag: an object deleted between listing and lookup is not modelled. The lookup reads the same snapshot as the listing.
- ArgsParser.ValidateChunksMonotone: growth from one unit to the next is strict only for nonzero digits, because 0 times any factor is 0.
- `parse_arguments`, the package's `main` and `setup.py` are command-line wiring and packaging, and are not part of this model.
