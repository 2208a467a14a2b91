/** Remote ETags: `get_objects` lists the keys under a prefix of one bucket
    and keeps those the pattern finds, `get_object_etag` reads an object's
    reported ETag without its quotes, `get_etags_from_s3uri` pairs the two,
    and `retrieve_s3uri_etag` runs them over every bucket and every key
    prefix. The storage service and the regular-expression engine are
    parameters. */
module S3 {
  import opened Wrappers
  import opened Text

  /** The storage service as the tool sees it: the keys listed under a prefix
      of a bucket, in listing order, and an object's reported (quoted) ETag. */
  datatype Storage = Storage(listKeys: (string, string) -> seq<string>, eTag: (string, string) -> string)

  /** search(source, key): the regular expression `source` is found somewhere in key. */
  type Search = (string, string) -> bool

  /** compiles(source): `re.compile(source)` succeeds rather than raising `re.error`. */
  type Compiles = string -> bool

  /** A bucket or key argument: None, one string, or a list of strings. */
  datatype Names = NoNames | OneName(name: string) | NameList(names: seq<string>)

  /** A pattern argument: None, a string, a list of fragments, or a compiled expression. */
  datatype Pattern = NoPattern | PatternText(text: string) | PatternList(fragments: seq<string>) | PatternRegex(source: string)

  /** One (ETag, key) row of the result. */
  datatype Remote = Remote(etag: string, key: string)

  datatype S3Error =
    | MissingBucket        // AssertionError "Missing Bucket name!"
    | MissingKey           // AssertionError "Missing Key!"
    | PatternNotCompiled   // AttributeError: the pattern is a plain string, which has no search()
    | InvalidPattern       // re.error: the joined fragments are not a regular expression

  /** Python truthiness of the argument. */
  predicate NamesGiven(n: Names) {
    match n
    case NoNames => false
    case OneName(s) => s != ""
    case NameList(ss) => ss != []
  }

  /** A single string stands for the one-element list. */
  function NameSeq(n: Names): seq<string> {
    match n
    case NoNames => []
    case OneName(s) => [s]
    case NameList(ss) => ss
  }

  /** Python truthiness of the pattern argument (a compiled expression is always true). */
  predicate PatternGiven(p: Pattern) {
    match p
    case NoPattern => false
    case PatternText(t) => t != ""
    case PatternList(fs) => fs != []
    case PatternRegex(_) => true
  }

  /** Whether `get_objects` keeps the key: with no pattern, any non-empty key; otherwise a search hit. */
  predicate Hit(search: Search, p: Pattern, key: string) {
    if !PatternGiven(p) then key != "" else p.PatternRegex? && search(p.source, key)
  }

  /** Whether `pattern.search` can be called at all. */
  predicate Searchable(p: Pattern) {
    !PatternGiven(p) || p.PatternRegex?
  }

  /** The listed keys that hit, in listing order. */
  function KeptKeys(search: Search, p: Pattern, listed: seq<string>): seq<string> {
    if listed == [] then []
    else
      var last := listed[|listed| - 1];
      KeptKeys(search, p, listed[..|listed| - 1]) + (if Hit(search, p, last) then [last] else [])
  }

  /** A key is kept exactly when it was listed and the pattern hits it. */
  lemma {:induction false} KeptKeysMembers(search: Search, p: Pattern, listed: seq<string>)
    ensures |KeptKeys(search, p, listed)| <= |listed|
    ensures forall x :: x in KeptKeys(search, p, listed) <==> x in listed && Hit(search, p, x)
  {
    if listed != [] {
      var init := listed[..|listed| - 1];
      KeptKeysMembers(search, p, init);
      assert listed == init + [listed[|listed| - 1]];
    }
  }

  /** With no pattern every listed object is kept, since storage keys are never empty. */
  lemma {:induction false} KeptKeysWithoutPattern(search: Search, p: Pattern, listed: seq<string>)
    requires !PatternGiven(p)
    requires forall i :: 0 <= i < |listed| ==> listed[i] != ""
    ensures KeptKeys(search, p, listed) == listed
  {
    if listed != [] {
      var init := listed[..|listed| - 1];
      KeptKeysWithoutPattern(search, p, init);
      assert listed == init + [listed[|listed| - 1]];
    }
  }

  /** What `get_objects` returns. */
  function ObjectsUnder(store: Storage, search: Search, bucket: string, prefix: string, p: Pattern)
    : Result<seq<string>, S3Error>
  {
    var listed := store.listKeys(bucket, prefix);
    if !Searchable(p) && listed != [] then Failure(PatternNotCompiled)
    else Success(KeptKeys(search, p, listed))
  }

  method GetObjects(store: Storage, search: Search, bucket: string, prefix: string, p: Pattern)
    returns (r: Result<seq<string>, S3Error>)
    ensures r == ObjectsUnder(store, search, bucket, prefix, p)
  {
    var listed := store.listKeys(bucket, prefix);
    var k: seq<string> := [];
    for j := 0 to |listed|
      invariant k == KeptKeys(search, p, listed[..j])
      invariant !Searchable(p) ==> j == 0
    {
      var key := listed[j];
      var hit: bool;
      if !PatternGiven(p) {
        hit := key != "";
      } else if p.PatternRegex? {
        hit := search(p.source, key);
      } else {
        return Failure(PatternNotCompiled);
      }
      if hit {
        k := k + [key];
      }
      assert listed[..j + 1][..j] == listed[..j];
    }
    assert listed[..|listed|] == listed;
    return Success(k);
  }

  /** `get_object_etag`: the reported ETag with every surrounding quote removed, and the key. */
  function GetObjectEtag(store: Storage, bucket: string, key: string): (r: Remote)
    ensures r.key == key && QuoteFree(r.etag)
  {
    StripQuotesFree(store.eTag(bucket, key));
    Remote(StripQuotes(store.eTag(bucket, key)), key)
  }

  /** What `get_etags_from_s3uri` returns (the empty string it gives for no hit iterates like the empty list). */
  function EtagsUnder(store: Storage, search: Search, bucket: string, prefix: string, p: Pattern)
    : Result<seq<Remote>, S3Error>
  {
    match ObjectsUnder(store, search, bucket, prefix, p)
    case Failure(e) => Failure(e)
    case Success(keys) => Success(seq(|keys|, j requires 0 <= j < |keys| => GetObjectEtag(store, bucket, keys[j])))
  }

  /** `get_etags_from_s3uri` runs the `get_objects` loop and then builds its rows with the same
      comprehension as `EtagsUnder`; it is a method only because `GetObjects` is one. */
  method GetEtagsFromS3Uri(store: Storage, search: Search, bucket: string, prefix: string, p: Pattern)
    returns (r: Result<seq<Remote>, S3Error>)
    ensures r == EtagsUnder(store, search, bucket, prefix, p)
  {
    var k := GetObjects(store, search, bucket, prefix, p);
    if k.Failure? {
      return Failure(k.error);
    }
    var keys := k.value;
    r := Success(seq(|keys|, j requires 0 <= j < |keys| => GetObjectEtag(store, bucket, keys[j])));
  }

  /** Results concatenated in order; the first failure wins. */
  function Then(a: Result<seq<Remote>, S3Error>, b: Result<seq<Remote>, S3Error>): Result<seq<Remote>, S3Error> {
    if a.Failure? then a else if b.Failure? then b else Success(a.value + b.value)
  }

  /** One bucket, every key prefix in order. */
  function EtagsForKeys(store: Storage, search: Search, bucket: string, keys: seq<string>, p: Pattern)
    : Result<seq<Remote>, S3Error>
  {
    if keys == [] then Success([])
    else Then(EtagsForKeys(store, search, bucket, keys[..|keys| - 1], p),
              EtagsUnder(store, search, bucket, keys[|keys| - 1], p))
  }

  /** Every bucket in order, each over every key prefix in order. */
  function EtagsAcross(store: Storage, search: Search, buckets: seq<string>, keys: seq<string>, p: Pattern)
    : Result<seq<Remote>, S3Error>
  {
    if buckets == [] then Success([])
    else Then(EtagsAcross(store, search, buckets[..|buckets| - 1], keys, p),
              EtagsForKeys(store, search, buckets[|buckets| - 1], keys, p))
  }

  /** A list pattern is compiled as the alternation of its fragments. */
  function Compiled(p: Pattern): Pattern {
    if p.PatternList? then PatternRegex(Join(p.fragments, "|")) else p
  }

  /** Only a list pattern is compiled, and that compilation can fail. */
  predicate Compilable(compiles: Compiles, p: Pattern) {
    !p.PatternList? || compiles(Join(p.fragments, "|"))
  }

  /** The pattern is passed on only when it is truthy. */
  function Passed(p: Pattern): Pattern {
    if PatternGiven(p) then p else NoPattern
  }

  /** What `retrieve_s3uri_etag` returns. */
  function Retrieved(store: Storage, compiles: Compiles, search: Search, bucket: Names, key: Names, pattern: Pattern)
    : Result<seq<Remote>, S3Error>
  {
    if !NamesGiven(bucket) then Failure(MissingBucket)
    else if !NamesGiven(key) then Failure(MissingKey)
    else if !Compilable(compiles, pattern) then Failure(InvalidPattern)
    else EtagsAcross(store, search, NameSeq(bucket), NameSeq(key), Passed(Compiled(pattern)))
  }

  method RetrieveS3UriEtag(store: Storage, compiles: Compiles, search: Search, bucket: Names, key: Names, pattern: Pattern)
    returns (r: Result<seq<Remote>, S3Error>)
    ensures r == Retrieved(store, compiles, search, bucket, key, pattern)
  {
    if !NamesGiven(bucket) {
      return Failure(MissingBucket);
    }
    if !NamesGiven(key) {
      return Failure(MissingKey);
    }
    var buckets, keys := NameSeq(bucket), NameSeq(key);
    var p := pattern;
    if p.PatternList? {
      var source := Join(p.fragments, "|");
      if !compiles(source) {
        return Failure(InvalidPattern);
      }
      p := PatternRegex(source);
    }
    p := Passed(p);
    var data: seq<Remote> := [];
    for bi := 0 to |buckets|
      invariant EtagsAcross(store, search, buckets[..bi], keys, p) == Success(data)
    {
      var row: seq<Remote> := [];  // what this bucket contributes
      assert keys[..0] == [];
      for ki := 0 to |keys|
        invariant EtagsForKeys(store, search, buckets[bi], keys[..ki], p) == Success(row)
      {
        var found := GetEtagsFromS3Uri(store, search, buckets[bi], keys[ki], p);
        ForKeysStep(store, search, buckets[bi], keys, ki, p);
        if found.Failure? {
          FailureFromHere(store, search, buckets, keys, bi, ki, p);
          return Failure(found.error);
        }
        row := row + found.value;
      }
      assert keys[..|keys|] == keys;
      AcrossStep(store, search, buckets, keys, bi, p);
      data := data + row;
    }
    assert buckets[..|buckets|] == buckets;
    r := Success(data);
  }

  lemma ForKeysStep(store: Storage, search: Search, bucket: string, keys: seq<string>, ki: nat, p: Pattern)
    requires ki < |keys|
    ensures EtagsForKeys(store, search, bucket, keys[..ki + 1], p)
         == Then(EtagsForKeys(store, search, bucket, keys[..ki], p), EtagsUnder(store, search, bucket, keys[ki], p))
  {
    assert keys[..ki + 1][..ki] == keys[..ki];
  }

  lemma AcrossStep(store: Storage, search: Search, buckets: seq<string>, keys: seq<string>, bi: nat, p: Pattern)
    requires bi < |buckets|
    ensures EtagsAcross(store, search, buckets[..bi + 1], keys, p)
         == Then(EtagsAcross(store, search, buckets[..bi], keys, p), EtagsForKeys(store, search, buckets[bi], keys, p))
  {
    assert buckets[..bi + 1][..bi] == buckets[..bi];
  }

  /** A failure at bucket bi, key prefix ki is the result of the whole retrieval. */
  lemma FailureFromHere(store: Storage, search: Search, buckets: seq<string>, keys: seq<string>, bi: nat, ki: nat, p: Pattern)
    requires bi < |buckets| && ki < |keys|
    requires EtagsAcross(store, search, buckets[..bi], keys, p).Success?
    requires EtagsForKeys(store, search, buckets[bi], keys[..ki], p).Success?
    requires EtagsUnder(store, search, buckets[bi], keys[ki], p).Failure?
    ensures EtagsAcross(store, search, buckets, keys, p) == EtagsUnder(store, search, buckets[bi], keys[ki], p)
  {
    ForKeysStep(store, search, buckets[bi], keys, ki, p);
    ForKeysFailurePersists(store, search, buckets[bi], keys, ki + 1, p);
    assert keys[..|keys|] == keys;
    AcrossStep(store, search, buckets, keys, bi, p);
    AcrossFailurePersists(store, search, buckets, keys, bi + 1, p);
    assert buckets[..|buckets|] == buckets;
  }

  /** Once one key prefix fails, the whole bucket fails with that error. */
  lemma {:induction false} ForKeysFailurePersists(store: Storage, search: Search, bucket: string, keys: seq<string>, i: nat, p: Pattern)
    requires i <= |keys| && EtagsForKeys(store, search, bucket, keys[..i], p).Failure?
    ensures EtagsForKeys(store, search, bucket, keys, p) == EtagsForKeys(store, search, bucket, keys[..i], p)
    decreases |keys|
  {
    if i < |keys| {
      var init := keys[..|keys| - 1];
      assert init[..i] == keys[..i];
      ForKeysFailurePersists(store, search, bucket, init, i, p);
    } else {
      assert keys[..i] == keys;
    }
  }

  /** Once one bucket fails, the whole retrieval fails with that error. */
  lemma {:induction false} AcrossFailurePersists(store: Storage, search: Search, buckets: seq<string>, keys: seq<string>, i: nat, p: Pattern)
    requires i <= |buckets| && EtagsAcross(store, search, buckets[..i], keys, p).Failure?
    ensures EtagsAcross(store, search, buckets, keys, p) == EtagsAcross(store, search, buckets[..i], keys, p)
    decreases |buckets|
  {
    if i < |buckets| {
      var init := buckets[..|buckets| - 1];
      assert init[..i] == buckets[..i];
      AcrossFailurePersists(store, search, init, keys, i, p);
    } else {
      assert buckets[..i] == buckets;
    }
  }
}

module S3Properties {
  import opened Wrappers
  import opened Text
  import opened S3

  /** x is the row for key x.key listed in bucket b under prefix k: kept by the pattern and
      paired with the object's unquoted reported ETag. */
  predicate Row(store: Storage, search: Search, p: Pattern, b: string, k: string, x: Remote) {
    x.key in store.listKeys(b, k) && Hit(search, p, x.key) && x.etag == StripQuotes(store.eTag(b, x.key))
  }

  /** The rows for one prefix are the kept keys, each with its unquoted reported ETag. */
  lemma EtagsUnderMembers(store: Storage, search: Search, bucket: string, prefix: string, p: Pattern, x: Remote)
    requires EtagsUnder(store, search, bucket, prefix, p).Success?
    ensures x in EtagsUnder(store, search, bucket, prefix, p).value <==> Row(store, search, p, bucket, prefix, x)
  {
    var keys := KeptKeys(search, p, store.listKeys(bucket, prefix));
    KeptKeysMembers(search, p, store.listKeys(bucket, prefix));
    var rows := EtagsUnder(store, search, bucket, prefix, p).value;
    if x.key in keys && x.etag == StripQuotes(store.eTag(bucket, x.key)) {
      var j :| 0 <= j < |keys| && keys[j] == x.key;
      assert rows[j] == x;
    }
  }

  lemma ThenSuccess(a: Result<seq<Remote>, S3Error>, b: Result<seq<Remote>, S3Error>, x: Remote)
    requires Then(a, b).Success?
    ensures a.Success? && b.Success?
    ensures x in Then(a, b).value <==> x in a.value || x in b.value
  {
  }

  /** Every row of one bucket comes from one of the key prefixes. */
  lemma {:induction false} ForKeysRowSound(store: Storage, search: Search, bucket: string, keys: seq<string>, p: Pattern, x: Remote)
    returns (k: string)
    requires EtagsForKeys(store, search, bucket, keys, p).Success?
    requires x in EtagsForKeys(store, search, bucket, keys, p).value
    ensures k in keys && Row(store, search, p, bucket, k, x)
  {
    var init, last := keys[..|keys| - 1], keys[|keys| - 1];
    ThenSuccess(EtagsForKeys(store, search, bucket, init, p), EtagsUnder(store, search, bucket, last, p), x);
    if x in EtagsForKeys(store, search, bucket, init, p).value {
      k := ForKeysRowSound(store, search, bucket, init, p, x);
      assert k in init;
    } else {
      EtagsUnderMembers(store, search, bucket, last, p, x);
      k := last;
    }
  }

  /** Every row found under one of the key prefixes is among the rows of the bucket. */
  lemma {:induction false} ForKeysRowComplete(store: Storage, search: Search, bucket: string, keys: seq<string>, p: Pattern, k: string, x: Remote)
    requires EtagsForKeys(store, search, bucket, keys, p).Success?
    requires k in keys && Row(store, search, p, bucket, k, x)
    ensures x in EtagsForKeys(store, search, bucket, keys, p).value
  {
    var init, last := keys[..|keys| - 1], keys[|keys| - 1];
    ThenSuccess(EtagsForKeys(store, search, bucket, init, p), EtagsUnder(store, search, bucket, last, p), x);
    assert keys == init + [last];
    if k in init {
      ForKeysRowComplete(store, search, bucket, init, p, k, x);
    } else {
      EtagsUnderMembers(store, search, bucket, last, p, x);
    }
  }

  lemma {:induction false} AcrossRowSound(store: Storage, search: Search, buckets: seq<string>, keys: seq<string>, p: Pattern, x: Remote)
    returns (b: string, k: string)
    requires EtagsAcross(store, search, buckets, keys, p).Success?
    requires x in EtagsAcross(store, search, buckets, keys, p).value
    ensures b in buckets && k in keys && Row(store, search, p, b, k, x)
  {
    var init, last := buckets[..|buckets| - 1], buckets[|buckets| - 1];
    ThenSuccess(EtagsAcross(store, search, init, keys, p), EtagsForKeys(store, search, last, keys, p), x);
    if x in EtagsAcross(store, search, init, keys, p).value {
      b, k := AcrossRowSound(store, search, init, keys, p, x);
      assert b in init;
    } else {
      k := ForKeysRowSound(store, search, last, keys, p, x);
      b := last;
    }
  }

  lemma {:induction false} AcrossRowComplete(store: Storage, search: Search, buckets: seq<string>, keys: seq<string>, p: Pattern, b: string, k: string, x: Remote)
    requires EtagsAcross(store, search, buckets, keys, p).Success?
    requires b in buckets && k in keys && Row(store, search, p, b, k, x)
    ensures x in EtagsAcross(store, search, buckets, keys, p).value
  {
    var init, last := buckets[..|buckets| - 1], buckets[|buckets| - 1];
    ThenSuccess(EtagsAcross(store, search, init, keys, p), EtagsForKeys(store, search, last, keys, p), x);
    assert buckets == init + [last];
    if b in init {
      AcrossRowComplete(store, search, init, keys, p, b, k, x);
    } else {
      ForKeysRowComplete(store, search, last, keys, p, k, x);
    }
  }

  /** `retrieve_s3uri_etag` returns exactly the rows found under some bucket and some key prefix:
      listed there, kept by the pattern, and paired with the object's unquoted ETag. */
  lemma RetrievedMembers(store: Storage, compiles: Compiles, search: Search, bucket: Names, key: Names, pattern: Pattern, x: Remote)
    requires Retrieved(store, compiles, search, bucket, key, pattern).Success?
    ensures NamesGiven(bucket) && NamesGiven(key) && Compilable(compiles, pattern)
    ensures x in Retrieved(store, compiles, search, bucket, key, pattern).value <==>
      exists b, k :: b in NameSeq(bucket) && k in NameSeq(key) && Row(store, search, Passed(Compiled(pattern)), b, k, x)
  {
    var bs, ks, p := NameSeq(bucket), NameSeq(key), Passed(Compiled(pattern));
    if x in Retrieved(store, compiles, search, bucket, key, pattern).value {
      var b, k := AcrossRowSound(store, search, bs, ks, p, x);
    }
    if b, k :| b in bs && k in ks && Row(store, search, p, b, k, x) {
      AcrossRowComplete(store, search, bs, ks, p, b, k, x);
    }
  }

  /** With both names given, the retrieval fails for a list pattern whose alternation does not
      compile, and for a plain, non-empty string pattern exactly when some bucket lists something
      under some prefix; nothing else fails. */
  lemma RetrievedFailure(store: Storage, compiles: Compiles, search: Search, bucket: Names, key: Names, pattern: Pattern)
    requires NamesGiven(bucket) && NamesGiven(key)
    ensures Retrieved(store, compiles, search, bucket, key, pattern).Failure? <==>
      || (pattern.PatternList? && !compiles(Join(pattern.fragments, "|")))
      || (pattern.PatternText? && pattern.text != "" &&
          exists b, k :: b in NameSeq(bucket) && k in NameSeq(key) && store.listKeys(b, k) != [])
    ensures pattern.PatternList? && !compiles(Join(pattern.fragments, "|")) ==>
      Retrieved(store, compiles, search, bucket, key, pattern) == Failure(InvalidPattern)
    ensures pattern.PatternText? && Retrieved(store, compiles, search, bucket, key, pattern).Failure? ==>
      Retrieved(store, compiles, search, bucket, key, pattern).error == PatternNotCompiled
  {
    var bs, ks, p := NameSeq(bucket), NameSeq(key), Passed(Compiled(pattern));
    assert !Searchable(p) <==> pattern.PatternText? && pattern.text != "";
    AcrossFailureIff(store, search, bs, ks, p);
  }

  lemma {:induction false} ForKeysFailureIff(store: Storage, search: Search, bucket: string, keys: seq<string>, p: Pattern)
    ensures EtagsForKeys(store, search, bucket, keys, p).Failure? <==>
      !Searchable(p) && exists k :: k in keys && store.listKeys(bucket, k) != []
    ensures EtagsForKeys(store, search, bucket, keys, p).Failure? ==> EtagsForKeys(store, search, bucket, keys, p).error == PatternNotCompiled
  {
    if keys != [] {
      var init := keys[..|keys| - 1];
      ForKeysFailureIff(store, search, bucket, init, p);
      assert keys == init + [keys[|keys| - 1]];
    }
  }

  lemma {:induction false} AcrossFailureIff(store: Storage, search: Search, buckets: seq<string>, keys: seq<string>, p: Pattern)
    ensures EtagsAcross(store, search, buckets, keys, p).Failure? <==>
      !Searchable(p) && exists b, k :: b in buckets && k in keys && store.listKeys(b, k) != []
    ensures EtagsAcross(store, search, buckets, keys, p).Failure? ==> EtagsAcross(store, search, buckets, keys, p).error == PatternNotCompiled
  {
    if buckets != [] {
      var init := buckets[..|buckets| - 1];
      var last := buckets[|buckets| - 1];
      AcrossFailureIff(store, search, init, keys, p);
      ForKeysFailureIff(store, search, last, keys, p);
      assert buckets == init + [last];
    }
  }
}
