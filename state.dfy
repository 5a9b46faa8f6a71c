/**
 * The state package: saving and loading JSON state documents in a bucket
 * of an object store. The store is an `ObjectStore` whose objects are a map
 * from bucket and key to bytes. Compression and JSON parsing are passed in
 * as functions; random draws are passed in as sequences.
 */
module State {
  import opened Wrappers
  import opened Bytes
  import opened Base64
  import opened Digits
  import opened Unique
  import opened Utils

  /** The bucket the HTTP handlers use. */
  const StateBucket := "state-server"

  /** The path under which states are served. */
  const JSONStateEP := "/json"

  datatype Error =
    | NewClientFailed                   // no client for the store could be created
    | ObjectUnreadable(objectName: string)
    | WriteFailed(objectName: string)
    | UniqueIdFailed(cause: Error)      // the allocator failed
    | BodyUnreadable                    // reading the request body failed
    | CompressFailed                    // gzip refused the header
    | CorruptBase64
    | CorruptGzip
    | InvalidJson

  /** What the save handler answers: 200 with the public reference, or 500 with the error. */
  datatype Response = Ok(reference: string) | InternalServerError(cause: Error)

  /** A gzip header comment: `Some(text)` when the comment field is set. */
  type Comment = Option<string>

  /** The bytes written for an ASCII string. */
  function AsciiBytes(s: string): (b: seq<byte>)
    requires forall i :: 0 <= i < |s| ==> s[i] < 128 as char
    ensures |b| == |s| && forall i :: 0 <= i < |s| ==> b[i] == s[i] as int
  {
    seq(|s|, i requires 0 <= i < |s| => s[i] as int)
  }

  /** Bytes read as a string, one character per byte, which is how the decoder looks at them. */
  function AsText(raw: seq<byte>): (s: string)
    ensures |s| == |raw| && forall i :: 0 <= i < |s| ==> s[i] as int == raw[i]
  {
    seq(|raw|, i requires 0 <= i < |raw| => raw[i] as char)
  }

  /** The object written for `data`: its standard Base64 text. */
  function StoredText(data: seq<byte>): (stored: seq<byte>)
    ensures |stored| == 4 * ((|data| + 2) / 3)
    ensures DecodeString(Std, AsText(stored)) == Some(data)
  {
    var text := Encode(Std, data);
    var stored := AsciiBytes(text);
    assert AsText(stored) == text;
    DecodeStringEncode(Std, data);
    stored
  }

  /** What gzip writes in front of the user in a save handler's header comment. */
  const UserCommentPrefix := "Generated by user: "

  /** A string gzip can write into its header: every character in U+0001..U+00FF. */
  predicate Latin1(s: string) {
    forall i :: 0 <= i < |s| ==> 0 < s[i] as int <= 0xff
  }

  /** Whether gzip can write a header with this comment. */
  predicate HeaderWritable(comment: Comment) {
    comment.None? || Latin1(comment.value)
  }

  /**
   * Compressing bytes into memory. The header goes out with the first write
   * (or at close, for no data), and it fails exactly when the comment holds
   * a NUL or a character above U+00FF. `deflate` gives the stream otherwise.
   */
  function Compress(comment: Comment, data: seq<byte>, deflate: (Comment, seq<byte>) -> seq<byte>): (r: Option<seq<byte>>)
    ensures r.None? <==> !HeaderWritable(comment)
    ensures r.Some? ==> r.value == deflate(comment, data)
  {
    if HeaderWritable(comment) then Some(deflate(comment, data)) else None
  }

  lemma {:induction false} Latin1Concat(a: string, b: string)
    ensures Latin1(a + b) <==> Latin1(a) && Latin1(b)
  {
    if Latin1(a) && Latin1(b) {
      forall i | 0 <= i < |a + b|
        ensures 0 < (a + b)[i] as int <= 0xff
      {
        if i < |a| { assert (a + b)[i] == a[i]; } else { assert (a + b)[i] == b[i - |a|]; }
      }
    }
    if Latin1(a + b) {
      forall i | 0 <= i < |a| ensures 0 < a[i] as int <= 0xff { assert (a + b)[i] == a[i]; }
      forall i | 0 <= i < |b| ensures 0 < b[i] as int <= 0xff { assert (a + b)[|a| + i] == b[i]; }
    }
  }

  /** The attributed comment can be written exactly when the user is Latin-1. */
  lemma PrefixedCommentWritable(user: string)
    ensures HeaderWritable(Some(UserCommentPrefix + user)) <==> Latin1(user)
    ensures HeaderWritable(UserComment(user)) <==> Latin1(user)
  {
    Latin1Concat(UserCommentPrefix, user);
  }

  /** A user name with a character above U+00FF makes compression fail. */
  lemma WideUserRefused(data: seq<byte>, deflate: (Comment, seq<byte>) -> seq<byte>)
    ensures Compress(UserComment("\U{674E}"), data, deflate) == None
  {
    var c := UserComment("\U{674E}").value;
    assert c[|UserCommentPrefix|] == '\U{674E}';
  }

  /**
   * Decompressing and parsing a compressed document. The gzip step only
   * checks the header; inflating the body, checking the trailer and parsing
   * the first JSON value are one streaming step whose failure is a JSON error.
   */
  function Decompressed<D>(compressed: seq<byte>, gzipHeader: seq<byte> -> bool,
                           readJson: seq<byte> -> Option<D>): (r: Result<D, Error>)
    ensures !gzipHeader(compressed) ==> r == Failure(CorruptGzip)
    ensures gzipHeader(compressed) && readJson(compressed).None? ==> r == Failure(InvalidJson)
    ensures r.Success? <==> gzipHeader(compressed) && readJson(compressed).Some?
    ensures r.Success? ==> r.value == readJson(compressed).value
  {
    if !gzipHeader(compressed) then Failure(CorruptGzip)
    else
      match readJson(compressed)
      case None => Failure(InvalidJson)
      case Some(doc) => Success(doc)
  }

  /** What loading makes of a stored object: strict Base64, then decompression and parsing. */
  function DecodeStored<D>(stored: seq<byte>, gzipHeader: seq<byte> -> bool,
                           readJson: seq<byte> -> Option<D>): (r: Result<D, Error>)
    ensures DecodeString(Std, AsText(stored)).None? ==> r == Failure(CorruptBase64)
    ensures DecodeString(Std, AsText(stored)).Some? ==>
              r == Decompressed(DecodeString(Std, AsText(stored)).value, gzipHeader, readJson)
  {
    match DecodeString(Std, AsText(stored))
    case None => Failure(CorruptBase64)
    case Some(compressed) => Decompressed(compressed, gzipHeader, readJson)
  }

  /** Loading what was stored for `compressed` sees exactly `compressed`. */
  lemma DecodeStoredText<D>(compressed: seq<byte>, gzipHeader: seq<byte> -> bool,
                            readJson: seq<byte> -> Option<D>)
    ensures DecodeStored(StoredText(compressed), gzipHeader, readJson) == Decompressed(compressed, gzipHeader, readJson)
  {
  }

  /** A stored object with a byte that is neither a standard symbol, padding nor a line break is an error. */
  lemma CorruptStoredText<D>(stored: seq<byte>, i: nat, gzipHeader: seq<byte> -> bool,
                             readJson: seq<byte> -> Option<D>)
    requires i < |stored| && Value(Std, stored[i] as char).None?
    requires !IsNewline(stored[i] as char) && stored[i] as char != Pad
    ensures DecodeStored(stored, gzipHeader, readJson) == Failure(CorruptBase64)
  {
    var text := AsText(stored);
    StripNewlinesKeeps(text, i);
    var j :| 0 <= j < |StripNewlines(text)| && StripNewlines(text)[j] == text[i];
    DecodeRejectsStraySymbol(Std, StripNewlines(text), j);
  }

  /**
   * Padding anywhere but at the end of the text the decoder sees (line
   * breaks skipped) makes a stored object an error: only "x=" or "==" may
   * close it.
   */
  lemma MisplacedStoredPadding<D>(stored: seq<byte>, j: nat, gzipHeader: seq<byte> -> bool,
                                  readJson: seq<byte> -> Option<D>)
    requires var t := StripNewlines(AsText(stored));
             j < |t| && t[j] == Pad && (j < |t| - 2 || (j == |t| - 2 && t[|t| - 1] != Pad))
    ensures DecodeStored(stored, gzipHeader, readJson) == Failure(CorruptBase64)
  {
    DecodeRejectsStraySymbol(Std, StripNewlines(AsText(stored)), j);
  }

  /** The comment the bucket writer gives its gzip stream: set only for a named user. */
  function UserComment(user: string): (c: Comment)
    ensures c.Some? <==> user != ""
    ensures c.Some? ==> c.value == UserCommentPrefix + user
  {
    if user != "" then Some(UserCommentPrefix + user) else None
  }

  /** Who a save is attributed to: the forwarded user, or else the remote address. */
  function Attribution(req: Request): (user: string)
    ensures req.forwardedUser != "" ==> user == req.forwardedUser
    ensures req.forwardedUser == "" ==> user == req.remoteAddr
  {
    if req.forwardedUser == "" then req.remoteAddr else req.forwardedUser
  }

  /** The key the bucket writer writes under: the given key, or the allocated one when none is given. */
  function Destination(readable: set<ObjectPath>, bucket: string, key: string, draws: seq<Draw>): (k: string)
    requires key == "" ==> HasFree(readable, bucket, draws)
    ensures key != "" ==> k == key
    ensures key == "" ==> k == AsWrittenAllocation(readable, bucket, draws).key && ObjectPath(bucket, k) !in readable
  {
    if key == "" then AsWrittenAllocation(readable, bucket, draws).key else key
  }

  class ObjectStore {
    /** The objects of every bucket. */
    var objects: map<ObjectPath, seq<byte>>
    /** Whether a client for the store can be created. */
    const clientAvailable: bool
    /** Objects whose reads fail although they may exist (timeouts, permissions). */
    const readFaults: set<ObjectPath>
    /** Objects whose writes fail. */
    const writeFaults: set<ObjectPath>

    constructor (objects: map<ObjectPath, seq<byte>>, clientAvailable: bool,
                 readFaults: set<ObjectPath>, writeFaults: set<ObjectPath>)
      ensures this.objects == objects && this.clientAvailable == clientAvailable
      ensures this.readFaults == readFaults && this.writeFaults == writeFaults
    {
      this.objects := objects;
      this.clientAvailable := clientAvailable;
      this.readFaults := readFaults;
      this.writeFaults := writeFaults;
    }

    /** The objects a reader can be opened on. */
    function Readable(): (r: set<ObjectPath>)
      reads this
      ensures r <= objects.Keys
      ensures forall p :: p in r <==> p in objects && p !in readFaults
    {
      objects.Keys - readFaults
    }

    /**
     * The unique-ID allocator as written: draws candidates until a probe
     * fails, but returns the identifier of the first candidate. It only
     * reads the store.
     */
    method GetUniqueObjectID(bucket: string, draws: seq<Draw>) returns (r: Result<Allocation, Error>, ghost probes: nat)
      requires HasFree(Readable(), bucket, draws)
      ensures !clientAvailable ==> r == Failure(NewClientFailed) && probes == 0
      ensures clientAvailable ==> r == Success(AsWrittenAllocation(Readable(), bucket, draws))
      ensures clientAvailable ==> probes == FirstFree(Readable(), bucket, draws) + 1
    {
      if !clientAvailable {
        return Failure(NewClientFailed), 0;
      }
      ghost var last := FirstFree(Readable(), bucket, draws);
      var id := Candidate(draws[0]);
      var obj := ObjectPath(bucket, StateKey(Decimal(id)));
      var found := obj in Readable();
      probes := 1;
      var n := 0;
      while found
        invariant 0 <= n <= last
        invariant obj == CandidatePath(bucket, draws[n])
        invariant found <==> obj in Readable()
        invariant probes == n + 1
        decreases last - n
      {
        n := n + 1;
        var id := Candidate(draws[n]);
        obj := ObjectPath(bucket, StateKey(Decimal(id)));
        found := obj in Readable();
        probes := probes + 1;
      }
      r := Success(Allocation(Decimal(id), obj.key));
    }

    /** The allocator with the retry loop assigning the outer identifier. */
    method GetUniqueObjectIDCorrected(bucket: string, draws: seq<Draw>) returns (r: Result<Allocation, Error>)
      requires HasFree(Readable(), bucket, draws)
      ensures !clientAvailable ==> r == Failure(NewClientFailed)
      ensures clientAvailable ==> r == Success(CorrectedAllocation(Readable(), bucket, draws))
      ensures r.Success? ==> r.value.key == StateKey(r.value.id) && ObjectPath(bucket, r.value.key) !in Readable()
    {
      if !clientAvailable {
        return Failure(NewClientFailed);
      }
      ghost var last := FirstFree(Readable(), bucket, draws);
      var id := Candidate(draws[0]);
      var obj := ObjectPath(bucket, StateKey(Decimal(id)));
      var found := obj in Readable();
      var n := 0;
      while found
        invariant 0 <= n <= last
        invariant id == Candidate(draws[n])
        invariant obj == CandidatePath(bucket, draws[n])
        invariant found <==> obj in Readable()
        decreases last - n
      {
        n := n + 1;
        id := Candidate(draws[n]);
        obj := ObjectPath(bucket, StateKey(Decimal(id)));
        found := obj in Readable();
      }
      r := Success(Allocation(Decimal(id), obj.key));
    }

    /**
     * Writes `data` to `bucket` under `key`, allocating a key when none is
     * given. The data are compressed, but what is written is the Base64 text
     * of the uncompressed `data`. Returns the allocated identifier, or ""
     * when a key was given.
     */
    method WriteDataToBucket(data: seq<byte>, bucket: string, key: string, user: string,
                             deflate: (Comment, seq<byte>) -> seq<byte>, draws: seq<Draw>)
      returns (r: Result<string, Error>)
      requires key == "" ==> HasFree(Readable(), bucket, draws)
      modifies this
      ensures !Latin1(user) ==> r == Failure(CompressFailed)
      ensures Latin1(user) && key == "" && !clientAvailable ==> r == Failure(UniqueIdFailed(NewClientFailed))
      ensures Latin1(user) && key != "" && !clientAvailable ==> r == Failure(NewClientFailed)
      ensures Latin1(user) && clientAvailable ==>
                var target := ObjectPath(bucket, Destination(old(Readable()), bucket, key, draws));
                if target in writeFaults then r == Failure(WriteFailed(target.key))
                else r == Success(if key == "" then AsWrittenAllocation(old(Readable()), bucket, draws).id else "")
                     && objects == old(objects)[target := StoredText(data)]
      ensures r.Failure? ==> objects == old(objects)
    {
      PrefixedCommentWritable(user);
      var compressed := Compress(UserComment(user), data, deflate);  // not used further
      if compressed.None? {
        return Failure(CompressFailed);
      }
      var id := "";
      var target := key;
      if key == "" {
        var a;
        ghost var probes;
        a, probes := GetUniqueObjectID(bucket, draws);
        if a.Failure? {
          return Failure(UniqueIdFailed(a.error));
        }
        id, target := a.value.id, a.value.key;
      }
      if !clientAvailable {
        return Failure(NewClientFailed);
      }
      var obj := ObjectPath(bucket, target);
      if obj in writeFaults {
        return Failure(WriteFailed(target));
      }
      objects := objects[obj := StoredText(data)];
      r := Success(id);
    }

    /** Reads the object "states/<id>" of `bucket`, bytes unchanged. */
    method ReadFromBucket(bucket: string, id: string) returns (r: Result<seq<byte>, Error>)
      ensures !clientAvailable ==> r == Failure(NewClientFailed)
      ensures clientAvailable ==> (r.Success? <==> ObjectPath(bucket, StateKey(id)) in Readable())
      ensures clientAvailable && r.Failure? ==> r.error == ObjectUnreadable(StateKey(id))
      ensures r.Success? ==> r.value == objects[ObjectPath(bucket, StateKey(id))]
    {
      var objectName := StateKey(id);
      if !clientAvailable {
        return Failure(NewClientFailed);
      }
      var obj := ObjectPath(bucket, objectName);
      if obj !in Readable() {
        return Failure(ObjectUnreadable(objectName));
      }
      r := Success(objects[obj]);
    }

    /** Writes compressed state to a fresh object of the state bucket and returns its identifier. */
    method WriteToBucket(data: seq<byte>, draws: seq<Draw>) returns (r: Result<string, Error>)
      requires HasFree(Readable(), StateBucket, draws)
      modifies this
      ensures !clientAvailable ==> r == Failure(UniqueIdFailed(NewClientFailed))
      ensures clientAvailable ==>
                var a := AsWrittenAllocation(old(Readable()), StateBucket, draws);
                var target := ObjectPath(StateBucket, a.key);
                if target in writeFaults then r == Failure(WriteFailed(a.key))
                else r == Success(a.id) && objects == old(objects)[target := StoredText(data)]
      ensures r.Failure? ==> objects == old(objects)
    {
      var a;
      ghost var probes;
      a, probes := GetUniqueObjectID(StateBucket, draws);
      if a.Failure? {
        return Failure(UniqueIdFailed(a.error));
      }
      if !clientAvailable {
        return Failure(NewClientFailed);
      }
      var obj := ObjectPath(StateBucket, a.value.key);
      if obj in writeFaults {
        return Failure(WriteFailed(a.value.key));
      }
      objects := objects[obj := StoredText(data)];
      r := Success(a.value.id);
    }

    /**
     * The save handler: compresses the request body with the attribution
     * as gzip comment, stores it, and answers with the public reference
     * "<scheme>://<host>/json/<id>".
     */
    method SaveJSON(req: Request, deflate: (Comment, seq<byte>) -> seq<byte>, draws: seq<Draw>)
      returns (resp: Response)
      requires HasFree(Readable(), StateBucket, draws)
      modifies this
      ensures req.body.None? ==> resp == InternalServerError(BodyUnreadable)
      ensures req.body.Some? && !Latin1(Attribution(req)) ==> resp == InternalServerError(CompressFailed)
      ensures req.body.Some? && Latin1(Attribution(req)) && !clientAvailable ==>
                resp == InternalServerError(UniqueIdFailed(NewClientFailed))
      ensures req.body.Some? && Latin1(Attribution(req)) && clientAvailable ==>
                var a := AsWrittenAllocation(old(Readable()), StateBucket, draws);
                var target := ObjectPath(StateBucket, a.key);
                if target in writeFaults then resp == InternalServerError(WriteFailed(a.key))
                else resp == Ok(GetRequestSchemeAndHostURL(req) + "/json/" + a.id)
                     && objects == old(objects)[target := StoredText(deflate(Some(UserCommentPrefix + Attribution(req)), req.body.value))]
      ensures resp.InternalServerError? ==> objects == old(objects)
    {
      var user := Attribution(req);
      if req.body.None? {
        return InternalServerError(BodyUnreadable);
      }
      PrefixedCommentWritable(user);
      var compressed := Compress(Some(UserCommentPrefix + user), req.body.value, deflate);
      if compressed.None? {
        return InternalServerError(CompressFailed);
      }
      var id := WriteToBucket(compressed.value, draws);
      if id.Failure? {
        return InternalServerError(id.error);
      }
      resp := Ok(GetRequestSchemeAndHostURL(req) + JSONStateEP + "/" + id.value);
    }

    /** The load handler: reads "states/<id>" of the state bucket, decodes it strictly and parses it. */
    method GetJSON<D>(id: string, gzipHeader: seq<byte> -> bool, readJson: seq<byte> -> Option<D>)
      returns (r: Result<D, Error>)
      ensures !clientAvailable ==> r == Failure(NewClientFailed)
      ensures clientAvailable && ObjectPath(StateBucket, StateKey(id)) !in Readable() ==>
                r == Failure(ObjectUnreadable(StateKey(id)))
      ensures clientAvailable && ObjectPath(StateBucket, StateKey(id)) in Readable() ==>
                r == DecodeStored(objects[ObjectPath(StateBucket, StateKey(id))], gzipHeader, readJson)
    {
      var raw := ReadFromBucket(StateBucket, id);
      if raw.Failure? {
        return Failure(raw.error);
      }
      var compressed := DecodeString(Std, AsText(raw.value));
      if compressed.None? {
        return Failure(CorruptBase64);
      }
      if !gzipHeader(compressed.value) {
        return Failure(CorruptGzip);
      }
      var doc := readJson(compressed.value);
      if doc.None? {
        return Failure(InvalidJson);
      }
      r := Success(doc.value);
    }

    /**
     * A save followed by a load of the returned identifier. When the first
     * candidate was free the load sees what was saved; after a retry it
     * sees the older object the first candidate collided with.
     */
    method WriteThenGet<D>(compressed: seq<byte>, draws: seq<Draw>,
                           gzipHeader: seq<byte> -> bool, readJson: seq<byte> -> Option<D>)
      returns (id: Result<string, Error>, loaded: Result<D, Error>)
      requires HasFree(Readable(), StateBucket, draws)
      requires clientAvailable
      requires ObjectPath(StateBucket, AsWrittenAllocation(Readable(), StateBucket, draws).key) !in writeFaults
      requires ObjectPath(StateBucket, AsWrittenAllocation(Readable(), StateBucket, draws).key) !in readFaults
      modifies this
      ensures id == Success(AsWrittenAllocation(old(Readable()), StateBucket, draws).id)
      ensures FirstFree(old(Readable()), StateBucket, draws) == 0 ==>
                loaded == Decompressed(compressed, gzipHeader, readJson)
      ensures FirstFree(old(Readable()), StateBucket, draws) > 0 ==>
                loaded == DecodeStored(old(objects)[ObjectPath(StateBucket, StateKey(id.value))], gzipHeader, readJson)
    {
      ghost var a := AsWrittenAllocation(Readable(), StateBucket, draws);
      id := WriteToBucket(compressed, draws);
      assert ObjectPath(StateBucket, a.key) in Readable();
      loaded := GetJSON(id.value, gzipHeader, readJson);
      DecodeStoredText(compressed, gzipHeader, readJson);
    }
  }
}
