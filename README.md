# State server: verified model of the state persistence core

The state server stores JSON "state" documents in a cloud object-store
bucket and hands them back by identifier. This project models its core in
Dafny:

- the **unique-ID allocator** (`state/unique.go`). It draws 18-digit
  candidates and probes `states/<id>` until a probe fails. The model keeps
  the shadowed `id` of the retry loop.
- the **bucket writer and reader** (`state/storage.go`).
- the **save and load handlers** and their bucket writer (`state/base.go`).
  Saving compresses the body, allocates, and writes Base64 text. Loading
  reads `states/<id>`, decodes the Base64 strictly, then decompresses and
  parses.
- the **utilities** (`utils/base.go`): random strings, mapped in place to
  62 letters and encoded with URL-safe Base64, and the `scheme://host`
  origin of a request.

Base64 follows RFC 4648: the standard alphabet of section 4 and the URL-
and filename-safe alphabet of section 5, both with `=` padding. The decoder
is the non-strict one the server calls. It skips carriage returns and line
feeds. It requires whole four-symbol quanta and allows padding only at the
end. It ignores bits that a final quantum leaves over.

Modules:

- `Wrappers`: `Option` and `Result`.
- `Bytes`: the `byte` type and ASCII letters and digits, shared by the modules below.
- `Base64`: encoding, decoding, the round trip, and rejection of malformed text.
- `Digits`: decimal rendering of integers (`strconv.Itoa`, `%d`), its inverse, digit counts.
- `Unique`: the identifier space, the key form, and what the allocator returns, as functions.
- `Utils`: `utils/base.go`.
- `State`: the store as class `ObjectStore`, with the allocator, the writers, the reader and both handlers as its methods.

The store is `ObjectStore.objects`, a map from bucket and key (`ObjectPath`)
to bytes. Three constants describe how the store behaves:

- `clientAvailable`: whether a client can be created.
- `readFaults`: objects whose reads fail even if they exist.
- `writeFaults`: objects whose writes fail.

Other inputs are parameters:

- **Randomness.** `rand.Intn` results come in as a sequence of `Draw`s. The `crypto/rand` bytes come in as a sequence; a source that holds fewer bytes than requested is a failing source.
- **Compression and parsing.** The deflated stream, the gzip header check on load, and the streaming inflate-and-parse step are function parameters. The in-memory gzip writer's failure is modelled explicitly: it refuses a header comment holding a NUL or a character above U+00FF.
- **The request body.** `Request.body` is `None` when reading it fails.
- **Header strings.** The strings of a `Request` are the characters Go decodes from the header's UTF-8.

## Model

| member | source | states |
|---|---|---|
| `Unique.Candidate` | state/unique.go:14-15 | a draw gives a candidate in [100000000000000000, 999999999999999999), whose decimal form has exactly 18 digits |
| `Unique.StateKey` | state/unique.go:32 | the key of identifier `id` is `"states/"` followed by `id`, and `id` can be read back from it |
| `Unique.FirstFree` | state/unique.go:33-42 | the draw where the retry loop stops: every earlier candidate was readable, and this one was not |
| `Unique.AsWrittenAllocation` | state/unique.go:29-44 | the returned id is the decimal form of the FIRST candidate (18 digits), and the key is not readable. The key equals `"states/" + id` exactly when no retry happened. After a retry, `"states/" + id` names an object that already exists |
| `Unique.CorrectedAllocation` | state/unique.go:39-44 | with the shadowing removed, the key is always `"states/" + id`, and it is not readable |
| `State.ObjectStore.GetUniqueObjectID` | state/unique.go:20-45 | with no client, returns the NewClient error without probing. Otherwise returns `AsWrittenAllocation` after exactly (readable candidates drawn + 1) probes. It has no `modifies` clause, so the store is unchanged |
| `State.ObjectStore.GetUniqueObjectIDCorrected` | state/unique.go:29-44 | the corrected loop returns `CorrectedAllocation`: the key is `"states/" + id`, and that object is not readable |
| `Digits.Decimal` | state/unique.go:44 | the decimal form is non-empty, holds only digits, and has no leading zero |
| `Digits.ParseDecimal` | state/unique.go:44 | reading the decimal form back gives the number |
| `Digits.DecimalInjective` | state/unique.go:32 | distinct numbers have distinct decimal forms |
| `Unique.CandidatePathInjective` | state/unique.go:29-32 | two draws probe the same object of a bucket exactly when they are equal |
| `Digits.DecimalLength` | state/unique.go:14-15 | a number in [10^(k-1), 10^k) has exactly k digits |
| `Base64.Encode` | state/storage.go:51 | the output length is 4*ceil(n/3). Every character is an alphabet symbol or `=`, `=` appears only in the last two places, and the text is ASCII without line breaks |
| `Base64.Decode` | state/base.go:131 | decoding succeeds only if the length is a multiple of 4. It then yields between 3*(len/4)-2 and 3*(len/4) bytes |
| `Base64.DecodeEncode` | state/base.go:131 | decoding the encoding of any bytes gives back exactly those bytes |
| `Base64.DecodeStringEncode` | state/base.go:131 | the same round trip through the decoder that skips line breaks |
| `Base64.StripNewlinesKeeps` | state/base.go:131 | a character that is not CR or LF is still present after the decoder drops line breaks |
| `Base64.DecodeRejectsStraySymbol` | state/base.go:131-135 | a character outside the alphabet is an error unless it is padding that closes the final quantum (`xxx=` or `xx==`) |
| `Base64.Symbol` | utils/base.go:39 | each six-bit value has one symbol, which decodes back to it and is never `=` or a line break |
| `State.StoredText` | state/storage.go:51 | the stored object is 4*ceil(n/3) bytes long, and decoding it as standard Base64 gives back the data exactly |
| `State.Decompressed` | state/base.go:137-150 | a bad gzip header is a gzip error. A failure of the streaming step after it is a JSON error: inflating the body, checking the trailer, or parsing the first JSON value. Success means both steps succeeded, and the result is the parsed document |
| `State.DecodeStored` | state/base.go:131-150 | text that is not valid standard Base64 is an error, with no fallback to raw bytes. Otherwise the result is that of decompressing and parsing the decoded bytes |
| `State.CorruptStoredText` | state/base.go:131-135 | any stored object, line breaks included, that holds a byte which is not a standard symbol, `=`, CR or LF loads as a Base64 error |
| `State.MisplacedStoredPadding` | state/base.go:131-135 | once line breaks are dropped, a `=` anywhere except as the closing `x=` or `==` makes the object load as a Base64 error |
| `State.Compress` | state/storage.go:19-32 | compressing into memory fails exactly when the header comment holds a NUL or a character above U+00FF. Otherwise the result is the deflated stream |
| `State.PrefixedCommentWritable` | state/base.go:38-49 | the comment `"Generated by user: " + user`, and the writer's optional comment, can be written exactly when the user is Latin-1 |
| `State.WideUserRefused` | state/storage.go:21-29 | a user `李` (U+674E) makes compression fail |
| `State.UserComment` | state/storage.go:21-23 | the gzip comment is set exactly when the user is non-empty, and then it is `"Generated by user: " + user` |
| `State.Attribution` | state/base.go:34-37 | the save is attributed to X-Forwarded-User, or to the remote address when that header is empty |
| `State.Destination` | state/storage.go:34-40 | a given key is written as it is. With no key, the allocated key is used, and it was not readable when probed |
| `State.ObjectStore.Readable` | state/unique.go:33 | a probe succeeds exactly for stored objects without a read fault |
| `State.ObjectStore.WriteDataToBucket` | state/storage.go:18-64 | a user that is not Latin-1 fails the compression before any allocation, and nothing is written. The allocator runs only when the key is `""`, and an allocation failure writes nothing. Exactly one object changes: (bucket, destination) gets the Base64 text of the uncompressed `data`. The result is the allocated id, or `""` when a key was given. A write failure leaves the store unchanged |
| `State.ObjectStore.ReadFromBucket` | state/storage.go:67-91 | reads `states/<id>` in the given bucket. Success happens exactly when that object is readable, and the bytes come back unchanged |
| `State.ObjectStore.WriteToBucket` | state/base.go:68-102 | allocates in bucket `state-server` and writes the Base64 text of the compressed bytes under the allocated key. Returns the allocated id. Any failure writes nothing |
| `State.ObjectStore.SaveJSON` | state/base.go:30-64 | an unreadable body, or an attribution that is not Latin-1, answers 500 before allocating. Otherwise it stores the body compressed with comment `"Generated by user: " + attribution`, and answers `scheme://host + "/json/" + id`. On any failure it answers 500 and changes nothing |
| `State.ObjectStore.GetJSON` | state/base.go:105-158 | reads `states/<id>` of bucket `state-server`. An unreadable object is an error. Otherwise the result is `DecodeStored` of its bytes |
| `State.DecodeStoredText` | state/base.go:87 | loading what the writer stored for the compressed bytes sees exactly those bytes |
| `State.ObjectStore.WriteThenGet` | state/base.go:70-131 | save then load. If the first candidate was free, the load returns the saved document. After a retry, it returns the older object that the first candidate collided with |
| `Utils.GenerateRandomBytes` | utils/base.go:17-24 | returns exactly `n` fresh bytes, the source's first `n`, or fails exactly when the source cannot deliver them |
| `Utils.LetterByte` | utils/base.go:31-37 | byte `b` becomes `letters[b % 62]`, an ASCII letter or digit |
| `Utils.LettersAreAlphanumeric` | utils/base.go:31 | all 62 letters are ASCII letters or digits |
| `Utils.ToLetters` | utils/base.go:36-38 | same length, and position i holds the letter of byte i |
| `Utils.GenerateRandomString` | utils/base.go:30-40 | the in-place loop maps every byte to its letter. The result is the padded URL-safe Base64 of those letters, of length 4*ceil(n/3) (16 for n = 12). A failing source gives `""` and an error |
| `Utils.RandomStringSymbols` | utils/base.go:39 | a random string contains only URL-safe symbols and `=` |
| `Utils.GetRequestSchemeAndHostURL` | utils/base.go:44-55 | the forwarded host and protocol are used unless both are empty, in which case the request's own are used. The result is `scheme + "://" + host` |
| `Utils.SplitOriginRoundTrip` | utils/base.go:54 | when the scheme has no `:`, the scheme and host can be split back out of the URL |
| `Utils.ForwardedExample` | utils/base_test.go:13-21 | forwarded `zetta.ai` and `https` give `https://zetta.ai` |
| `Utils.HalfForwarded` | utils/base.go:50-54 | with only the forwarded host set, the scheme is empty: `"://" + host` |
| `Unique.AllocationsShareKey` | state/unique.go:39-44 | the as-written and corrected allocators settle on the same key. They agree entirely exactly when no retry happened |

## Left out

- GCS client I/O is left out: the 5 s and 50 s timeouts, `defer Close`, and errors from `io.ReadAll`. Other read/write failures are modelled only as `readFaults` and `writeFaults`. A failed `Fprint` and a failed `w.Close` are both `WriteFailed`, and nothing is written.
- One `clientAvailable` stands for every `storage.NewClient` call. So an allocation can never succeed and then be followed by a failure of the writer's own client (state/storage.go:43-46, state/base.go:75-78). The `NewClientFailed` branch after a successful allocation in `WriteToBucket` and `WriteDataToBucket` is therefore unreachable.
- The race between the probe and the later write is left out. Each method runs alone against the map; concurrency is out of scope.
- gzip compression and decompression (RFC 1952, comment in FCOMMENT) are function parameters. On the writing side the model keeps the failure of compressing into memory: the header comment is refused when it holds a NUL or a character above U+00FF. The library reports this from the first write, or from `Close` when there is no data.
- State.ObjectStore.SaveJSON: an `X-Forwarded-User` or `RemoteAddr` that is not valid UTF-8 is not represented. An example is `Jos\xE9`, é in Latin-1. Go's gzip writer reads each invalid byte as U+FFFD, which is above U+00FF, and refuses it, so the source answers 500. The model's strings are already-decoded characters, so such a header cannot be written down.
- State.ObjectStore.WriteDataToBucket: a `user` that is not valid UTF-8 is not represented, for the same reason. The source fails on it before allocating.
- State.ObjectStore.SaveJSON: when the body read fails AND the attribution is not Latin-1, the model reports the body error. The source reports whichever of the two it meets first.
- State.Decompressed: `gzipHeader` stands for what `gzip.NewReader` checks, the header only. `readJson` stands for the JSON decoder reading through the inflating reader. Body and trailer corruption fail there, when the decoder reaches them, so the model reports them as JSON errors, as the source does. Whether the decoder reads far enough to reach the trailer is left to `readJson`.
- JSON decoding into a map is a function parameter that may fail. The JSON encoding of the responses is left out: `Ok(reference)` holds the string before encoding.
- `log.Fatal` when closing the gzip reader fails (state/base.go:152-154) is left out: it is process exit.
- Logging, echo routing, CORS, `main.go` and `state/layers.go` are left out. `layers.go` only prints layer names, so there is no directive processing to model.
- How echo computes `c.Scheme()` is left out: the model takes the request scheme as an input field, and an absent header reads as `""`.
- State.ObjectStore.GetUniqueObjectID: a run where every draw collides is not modelled. The source loops forever there, so the method requires that some draw is free (`HasFree`).
- state/base.go:70 calls `GetUniqueObjectID()` with no bucket, which does not match the signature at state/unique.go:20. The model allocates in `state-server`, the bucket that `writeToBucket` writes to (state/base.go:81).
- Utils.GenerateRandomString: negative `n` is excluded by typing `n` as `nat`. The source panics there, in `make`. Modulo bias of `b % 62` is not stated.
- State.ObjectStore.GetJSON: it reads through `ReadFromBucket`. That function has the same branches as the source's inline reader, which differs only in its timeout and error text.
- Error texts are left out: errors are the `Error` datatype, one constructor per failing step, and wrapping is kept as `UniqueIdFailed`.

## Findings

| source | as written | input that shows it | evidently intended | confidence | as-written member | corrected member |
|---|---|---|---|---|---|---|
| state/unique.go:39 | `id :=` inside the retry loop declares a new variable. So line 44 returns the FIRST candidate's id, together with the LAST candidate's key | a bucket that already holds `states/<c0>`, drawing `c0` and then a free `c1`: the server writes `states/<c1>` but returns `c0`. Loading `c0` then serves the older document | return the id of the free candidate, so that `states/<id>` is the key written | high; not executed | `Unique.AsWrittenAllocation` (and `State.ObjectStore.WriteThenGet`) | `Unique.CorrectedAllocation`, `State.ObjectStore.GetUniqueObjectIDCorrected` |

The pipeline methods (`WriteDataToBucket`, `WriteToBucket`, `SaveJSON`) call
the allocator as written, so the store updates they state are the ones the
server makes. The corrected allocator settles on the same key
(`Unique.AllocationsShareKey`). It differs only in the identifier returned.
