# Wire codec, loaders and small parsers: a Dafny model

The repository's web client bundles protobuf.js 6.7.2. This project models that library's wire codec and
the parts around it whose correctness is not obvious from one function, and proves what they promise:

* **Reading and writing** (`Varints`, `Reading`, `Readers`, `Longs`, `Ops`, `Writers`, `Runs`). The writer
  is a linked list of deferred operations with a stack of forked states. It is proved, over every sequence
  of calls, to be a stack of byte strings. The reader is a cursor over bytes, and every method is tied to a
  pure function of buffer and cursor. `Varints` and `Wire` define the reference, after the sections "Base
  128 Varints", "Signed Integers", "Length-Delimited Records" and "Groups" of the Protocol Buffers Encoding
  specification.
* **Encoder and decoder** (`Schemas`, `Encoding`, `Encoders`, `Decoding`, `RoundTrip`, `Conformance`,
  `Merging`, `Typing`). The generated code is modelled as an interpreter of a schema: scalars, packed and
  unpacked arrays, string-keyed maps, nested messages, groups. The main results are what the bytes of an
  encoding are, said without the encoder (`Conformance`), round trip, forward compatibility and merging of
  concatenated encodings, on the functions and end to end on writer, slab pool and reader
  (`Encoders.Transfer`), and what the decoder can return on arbitrary bytes (`Typing`).
* **Byte-level helpers** (`Utf8` after section 3 of RFC 3629, `Base64` after section 4 of RFC 4648, `Pools`).
* **`Root.load`** (`RootLoad`, `LoadOrder`) as a step system under any order of completions, with the closure
  as a class.
* **`Namespace.lookup`** (`Lookup`) and **`path.normalize`** (`Paths`), each against a definition of what a
  path means.
* **Elsewhere in the repository**: the operator-precedence parser of the bundled esprima (`Precedence`), the
  signed multi-byte accessors of the bundled Buffer (`BufferInts`), and the conversion between longs and
  bytes of the storage layer (`LongBytes`).

`Bits` has JavaScript's 32-bit operators as functions on naturals, `Strings` has `split` and `join`, and
`Buffers` says that a stretch of a buffer was filled.

State that the source updates in place is a class or an array here, with methods proved against
specification functions; the theorems are lemmas about those functions.

Where the code does less than one might expect of it, the code is modelled, a failing input is given and
the exact condition is proved:

* `Reader.uint32` moves ten bytes on varints of six to nine or more than ten bytes (`Uint32Exact`,
  `SixBytes`), and `readLongVarint` does not check its fourth byte near the end (`LongTruncated`,
  `ThreeBytes`).
* A map entry of key `__proto__` is encoded but lost on decoding; messages without one, and without unknown
  fields and empty arrays or maps, are exactly those that come back as they were (`DecodeInverts`,
  `ProtoLost`).
* `utf8.write` encodes lone surrogates, and `utf8.read` accepts overlong forms (`EncodeLayout`,
  `LenientRead`).
* `utf8.read` can repeat a stale unit after a surrogate pair on a chunk border (`ReadInverse`, `StaleUnit`).
* The empty path and paths that end in a dot escape the filter of `lookup` (`Filtered`, `FilteredString`,
  `TrailingDot`).
* `normalize` makes a drive of a relative path whose components cancel out down to one (`SamePlace`,
  `Idempotent`, `DriveAppears`).
* Whether `Root.load` succeeds can depend on the order of completions (`OutcomeDependsOnOrder`). Which loads
  can fail, which can succeed, and hence where the order matters is decided by their imports
  (`ErrorPossible`, `SuccessPossible`, `OrderMatters`); where files that cannot be fetched are requested
  always weakly or never weakly, it does not (`OneOutcome`).

To check everything, run `dafny verify dfyconfig.toml` (Dafny 4.11).

## Model

| member | source | states |
|---|---|---|
| RoundTrip.DecodeInverts | src/main/resources/web/js/protobuf.js:1832-2023 | For every well-formed schema (distinct ids below 2^29 in each type) and every valid message whose encoding is shorter than 2^32 bytes, decoding consumes exactly the bytes of the encoding; it gives back the same message if and only if that has, at every depth, no unknown properties, no empty arrays or maps and no map key `__proto__`, and else the message without them |
| RoundTrip.ProtoLost | src/main/resources/web/js/protobuf.js:1853-1870 | A map with an own property `__proto__` comes back without it |
| RoundTrip.ForwardCompatible | src/main/resources/web/js/protobuf.js:1832-1921 | Decoding with a schema that lacks fields, at any depth, and that may read packed fields as unpacked ones and the other way round, gives the message restricted to the known fields and consumes all bytes |
| RoundTrip.ConcatMerges | src/main/resources/web/js/protobuf.js:1837-1908 | The concatenation of two encodings decodes to their merge: arrays appended, map entries overridden by key, singular fields (nested messages as a whole) replaced |
| RoundTrip.LoopMerges | src/main/resources/web/js/protobuf.js:1837-1908 | The same from any position, with any suffix and any message decoded so far |
| Merging.ConcatSays | src/main/resources/web/js/protobuf.js:1837-1908 | What that merge is, field by field: the later singular value, both arrays one after the other, and for a map at each key the last value given to it, with known keys in their places and new ones behind them |
| Typing.DecodeTyped | src/main/resources/web/js/protobuf.js:1832-1921 | On any bytes at all, and for any well-formed schema, the decoder throws or returns a message of that schema: at every depth all properties are fields of the right shape and type, no map has a key twice or the key `__proto__`, and no required field is missing |
| Typing.Reencoded | src/main/resources/web/js/protobuf.js:1832-2023 | Whatever bytes a message was decoded from, if its strings survive `utf8` and it is not too long, it can be encoded, and decoding that gives it back up to empty arrays and maps |
| RoundTrip.InvalidThrows | src/main/resources/web/js/protobuf.js:4879-4906 | After any encoding and before any bytes, an unknown field of wire type 6 or 7, or an end of a group outside of one, makes the decoder throw |
| RoundTrip.ScalarAt | src/main/resources/web/js/protobuf.js:1885-1898 | Every scalar of every basic type is read back from where it was written, with the cursor exactly past it |
| RoundTrip.PackedAt | src/main/resources/web/js/protobuf.js:1878-1884 | A packed array is read back element by element up to its end |
| RoundTrip.MapEntryAt | src/main/resources/web/js/protobuf.js:1853-1870 | An encoded map field is decoded to the map with its entries put in one by one, although the decoder ignores entry lengths and tags; putting in the key `__proto__` adds none |
| RoundTrip.PutRevived | src/main/resources/web/js/protobuf.js:1853-1870 | So a map comes back without its entries of key `__proto__` |
| RoundTrip.SoundMessage | src/main/resources/web/js/protobuf.js:1951-2023 | Every record that the encoder of a valid message makes, at any depth, has an id below 2^29 and payloads that fit their prefixes and wire types |
| Encoders.Transfer | src/main/resources/web/js/protobuf.js:1832-2023 | End to end: the generated encoder on a linked-list writer, `finish` into the slab pool, the generated decoder on that buffer; the buffer conforms to the message, the kept message comes back, the reader stands at the end of the buffer, and buffers finished earlier keep their bytes |
| Encoders.EncodeMessage | src/main/resources/web/js/protobuf.js:1951-2023 | The generated encoder, fields sorted by id, appends exactly the encoding to the current level of the writer; those bytes are a sequence of records that conforms to the message (next row) |
| Conformance.EncodeWritten | src/main/resources/web/js/protobuf.js:1951-2023 | For every valid message a byte string is its encoding if and only if it splits into records, in rising order of ids, such that: a singular field that is present has one record; an array has one per element, unless it is declared packed and of a basic type other than string and bytes, in which case it has none if empty and otherwise one of wire type 2 that holds the elements one after the other; a map has one of wire type 2 per entry, in order, which holds the key as field 1 and the value as field 2; a nested message is a group of its records or, elsewhere and always in a map, a record of wire type 2 that holds them; nothing else is written. Wire types and numbers are those of the specification |
| Conformance.ScalarConforms | src/main/resources/web/js/protobuf.js:6546-6562 | Each basic type has its wire type and its payload: two's complement of 64 bits for a negative int32, 2n or -2n-1 for zig-zag types, base 256 with the lowest byte first for fixed-size ones, and the code points of a string one by one |
| Conformance.RecordsUnique | src/main/resources/web/js/protobuf.js:1951-2023 | No other sequence of records conforms to a message |
| Varints.VarintShape | src/main/resources/web/js/protobuf.js:7711-7717 | A varint has seven bits in each byte, lowest first, the top bit set in all but the last byte, and no more bytes than it needs |
| Encoders.EncodePacked | src/main/resources/web/js/protobuf.js:1984-1993 | A packed field is forked, written and joined; an empty array writes nothing |
| Encoders.EncodeDict | src/main/resources/web/js/protobuf.js:1969-1981 | Map fields: one length-delimited entry per key, key first |
| Encoders.EncodeValue | src/main/resources/web/js/protobuf.js:1940-1944 | A nested message is a group between two tags where its type is one, else length-delimited by `fork` and `ldelim` |
| Encoding.ByIdSorted | src/main/resources/web/js/protobuf.js:6747-6749 | Sorting by id puts the fields in rising order |
| Encoding.ByIdSame | src/main/resources/web/js/protobuf.js:6747-6749 | and keeps exactly the same fields |
| Readers.Reader.Decode | src/main/resources/web/js/protobuf.js:1832-1921 | The generated decoder on a cursor, for any schema (recursive ones included) and any bytes: it returns or throws what the decoding function says and leaves the cursor there, never beyond one past the buffer |
| Decoding.DecodeLoop | src/main/resources/web/js/protobuf.js:1837-1908 | Terminates on every buffer and schema, with `len + 1 - pos` as its measure; the cursor moves forward and stays within one past the buffer |
| Readers.Reader.ReadEntry | src/main/resources/web/js/protobuf.js:1853-1870 | A map entry: the length is skipped, key and value are read behind skipped tags |
| Readers.Reader.ReadPacked | src/main/resources/web/js/protobuf.js:1878-1884 | The loop over a packed array up to its end position |
| Readers.Reader.ReadField | src/main/resources/web/js/protobuf.js:1844-1905 | The switch on the field id, unknown fields skipped by wire type |
| Readers.Reader.Missing | src/main/resources/web/js/protobuf.js:1909-1916 | Finds a required field that is missing exactly when there is one |
| Readers.Reader.Uint32 | src/main/resources/web/js/protobuf.js:4612-4628 | Reads what the pure reader reads, five unrolled groups and then five bytes at a time |
| Reading.Uint32Exact | src/main/resources/web/js/protobuf.js:4612-4628 | On any varint: the value modulo 2^32; the cursor is right if and only if the varint has one to five or ten bytes, otherwise ten bytes are consumed |
| Reading.SixBytes | src/main/resources/web/js/protobuf.js:4612-4628 | A varint of six bytes leaves the cursor four bytes too far |
| Reading.Uint32Truncated | src/main/resources/web/js/protobuf.js:4612-4628 | A varint cut off by the end of the buffer throws if and only if fewer than ten bytes are left |
| Reading.NegativeInt32 | src/main/resources/web/js/protobuf.js:4634-4636 | The ten bytes of a negative int32 are read back as that number, cursor exactly past them |
| Readers.Reader.Int32 | src/main/resources/web/js/protobuf.js:4634-4636 | Reads the unsigned varint and reinterprets it as signed |
| Reading.ZigZagInverse | src/main/resources/web/js/protobuf.js:4642-4645 | Zig-zag decoding inverts n to 2n or -2n-1; 32-bit numbers are exactly those with 32-bit codes |
| Readers.Reader.Sint32 | src/main/resources/web/js/protobuf.js:4642-4645 | The shifts and masks of `sint32` compute zig-zag decoding |
| Reading.LongExact | src/main/resources/web/js/protobuf.js:4649-4700 | On any varint, on the fast and the short route: the value modulo 2^64 for up to ten bytes, an exception beyond |
| Reading.LongTruncated | src/main/resources/web/js/protobuf.js:4649-4700 | A truncated varint is let through if and only if three or four bytes are left, and then the cursor is four further, so that with three it is one past the buffer |
| Reading.ThreeBytes | src/main/resources/web/js/protobuf.js:4649-4700 | Three continuation bytes are read, with the cursor one past the buffer |
| Reading.LongAt | src/main/resources/web/js/protobuf.js:4649-4700 | Every 64-bit value written as a varint is read back from any position with any suffix |
| Readers.Reader.ReadLongVarint | src/main/resources/web/js/protobuf.js:4649-4700 | The two words joined in place agree with the pure reader, unchecked fourth byte included |
| Readers.Reader.Fixed32 | src/main/resources/web/js/protobuf.js:4744-4751 | Four bytes, lowest first, or an exception without enough bytes |
| Readers.Reader.Sfixed32 | src/main/resources/web/js/protobuf.js:4757-4764 | The same, signed |
| Readers.Reader.Fixed64 | src/main/resources/web/js/protobuf.js:4768-4775 | Two words of four bytes |
| Readers.Reader.Bytes | src/main/resources/web/js/protobuf.js:4829-4842 | A length-delimited slice, or an exception if it does not fit |
| Readers.Reader.String | src/main/resources/web/js/protobuf.js:4848-4851 | A length-delimited string through `utf8.read` |
| Wire.SkipRecord | src/main/resources/web/js/protobuf.js:4879-4906 | `skipType` advances past exactly one encoded element of any wire type, nested groups included |
| Readers.Reader.SkipElement | src/main/resources/web/js/protobuf.js:4879-4906 | `skipType` as a loop over a group, with the recursion's cursor and exceptions |
| Readers.Reader.SkipOverVarint | src/main/resources/web/js/protobuf.js:4864-4871 | `skip` without a length runs to the end of a varint of any length |
| Readers.Reader.SkipBytes | src/main/resources/web/js/protobuf.js:4858-4863 | `skip` with a length checks it and moves the cursor by it |
| Runs.RunCalls | src/main/resources/web/js/protobuf.js:7701-7994 | For every sequence of writes, `fork`, `reset` and `ldelim`, the first `finish` returns a buffer of exactly the innermost byte string of the stack machine, and no earlier buffer changes |
| Runs.ForkLdelim | src/main/resources/web/js/protobuf.js:7938-7977 | Between `fork` and `ldelim`, nested calls write their length as a varint and then exactly the bytes they write on their own, and leave the levels below alone |
| Runs.EffectsApart | src/main/resources/web/js/protobuf.js:7938-7977 | Calls that never drop the level they started on do the same whatever is below it |
| Writers.Writer.Push | src/main/resources/web/js/protobuf.js:7701-7705 | Appends one operation to the list, and its bytes to the current level |
| Writers.Writer.Uint32 | src/main/resources/web/js/protobuf.js:7742-7754 | The length by comparison is the length of the varint; its bytes are appended |
| Writers.Writer.Int32 | src/main/resources/web/js/protobuf.js:7762-7766 | A negative number takes the ten bytes of its 64-bit complement |
| Writers.Writer.Sint32 | src/main/resources/web/js/protobuf.js:7773-7775 | Appends the varint of the zig-zag code |
| Writers.Writer.Uint64 | src/main/resources/web/js/protobuf.js:7796-7799 | The length that `LongBits.length` gives is the length of the bytes appended |
| Writers.Writer.Sint64 | src/main/resources/web/js/protobuf.js:7816-7819 | The same for the 64-bit zig-zag code |
| Writers.Writer.Bool | src/main/resources/web/js/protobuf.js:7826-7828 | One byte, which is the varint of the flag |
| Writers.Writer.WriteFixed | src/main/resources/web/js/protobuf.js:7842-7852 | Four bytes, lowest first, of the number modulo 2^32 |
| Writers.Writer.Fixed64 | src/main/resources/web/js/protobuf.js:7860-7872 | Two operations for the two words |
| Writers.Writer.WriteDelimited | src/main/resources/web/js/protobuf.js:7909-7919 | The length and the bytes; a single zero if there are none |
| Writers.Writer.String | src/main/resources/web/js/protobuf.js:7926-7931 | The length that `utf8.length` gives and the bytes of `utf8.write` |
| Writers.Writer.Fork | src/main/resources/web/js/protobuf.js:7938-7943 | A new empty level above the current one |
| Writers.Writer.Reset | src/main/resources/web/js/protobuf.js:7949-7960 | Drops the current level; without a saved one the writer is empty again |
| Writers.Writer.Ldelim | src/main/resources/web/js/protobuf.js:7966-7977 | Splices the child list in behind its length: the child's bytes, length-delimited, end up on the parent level |
| Writers.Writer.Finish | src/main/resources/web/js/protobuf.js:7983-7994 | Walks the list into a buffer of exactly `len` bytes; slices handed out earlier keep their bytes |
| Ops.Op.Run | src/main/resources/web/js/protobuf.js:7707-7931 | Each operation writes exactly the bytes it was scheduled for, and nothing else |
| Ops.Op.PutVarint64 | src/main/resources/web/js/protobuf.js:7777-7788 | The two in-place shifting loops emit the 64-bit varint and use the value up |
| Ops.PutVarint32 | src/main/resources/web/js/protobuf.js:7711-7717 | The loop emits the varint of a word |
| Ops.PutFixed32 | src/main/resources/web/js/protobuf.js:7830-7835 | Four bytes by masks and shifts |
| Longs.LongBits.Length | src/main/resources/web/js/protobuf.js:6938-6951 | The number of bytes of the varint of the two words, by comparisons on three parts |
| Longs.LongBits.FromNumber | src/main/resources/web/js/protobuf.js:6806-6824 | The two words of a number modulo 2^64, its negation carried by hand |
| Longs.LongBits.ToNumber | src/main/resources/web/js/protobuf.js:6849-6858 | The number that the words stand for, signed or unsigned |
| Longs.SignedInverse | src/main/resources/web/js/protobuf.js:6806-6858 | Reading the words of any signed 64-bit number gives that number, so `toNumber` inverts `fromNumber` on every safe integer |
| Longs.LongBits.ZzEncode | src/main/resources/web/js/protobuf.js:6916-6921 | The masked shifts across both words compute the 64-bit zig-zag code |
| Longs.LongBits.ZzDecode | src/main/resources/web/js/protobuf.js:6927-6932 | and its inverse |
| Longs.ZigZagLongInverse | src/main/resources/web/js/protobuf.js:6916-6932 | 64-bit zig-zag decoding inverts encoding on every pair of words |
| Pools.Pool.Alloc | src/main/resources/web/js/protobuf.js:1005-1022 | Exactly the requested size, eight-byte aligned, disjoint from every slice handed out before, over every run of the pool; from the current slab up to half its size, and a buffer of its own beyond |
| Utf8.ReadInverse | src/main/resources/web/js/protobuf.js:1064-1129 | `utf8.read` inverts `utf8.write` if and only if no chunk of 8192 units is flushed after one of 8193 |
| Utf8.DecodeInverse | src/main/resources/web/js/protobuf.js:1072-1084 | The decoding loop itself inverts the encoder on every sequence of 16-bit units, lone surrogates included |
| Utf8.PairFree | src/main/resources/web/js/protobuf.js:1064-1095 | That condition holds of strings of any length without surrogate pairs |
| Utf8.ShortFaithful | src/main/resources/web/js/protobuf.js:1064-1095 | and of every string of at most 16384 units |
| Utf8.StaleUnit | src/main/resources/web/js/protobuf.js:1085-1091 | A string that is read back wrong, because the flush takes the whole chunk array and the end only a slice of it |
| Utf8.EncodeLayout | src/main/resources/web/js/protobuf.js:1104-1129 | The bytes of every string are one block for each code point, as section 3 of RFC 3629 lays it out: never longer than need be, with its lead and second bytes in range and its bits in order; only lone surrogates, which it forbids, are written too, in three bytes |
| Utf8.LayoutUnique | src/main/resources/web/js/protobuf.js:1104-1129 | and no other bytes have that layout |
| Utf8.LenientRead | src/main/resources/web/js/protobuf.js:1072-1084 | The reader also takes overlong forms of two and three bytes, and a stray continuation byte as the start of three |
| Utf8.Length | src/main/resources/web/js/protobuf.js:1039-1055 | `utf8.length` is the number of bytes that `utf8.write` emits: one, two, three or four for each code point as it is below 0x80, 0x800, 0x10000 or not |
| Utf8.Write | src/main/resources/web/js/protobuf.js:1104-1129 | Emits the encoding, which has that layout, at the offset and changes nothing else |
| Utf8.ReadString | src/main/resources/web/js/protobuf.js:1064-1095 | The loop with its chunk buffer and parts computes the pure reader |
| Base64.RoundTrip | src/main/resources/web/js/protobuf.js:122-200 | `decode` inverts `encode` on every byte string, for all three paddings |
| Base64.Padding | src/main/resources/web/js/protobuf.js:122-154 | How many padding characters end an encoding, by the length modulo three |
| Base64.Accepts | src/main/resources/web/js/protobuf.js:166-200 | Which strings decode, and to how many bytes: the digits must not stop behind the first of a group of four, and only padding behind the second or third of a group may follow them, itself followed by anything |
| Base64.EncodeGrouped | src/main/resources/web/js/protobuf.js:122-154 | Every three bytes become the four characters of the alphabet of RFC 4648, given as a literal, at the indices that their 24 bits spell, and a shorter rest is padded |
| Base64.SymbolAlphabet | src/main/resources/web/js/protobuf.js:105-113 | The encoding table is that alphabet |
| Base64.DigitAlphabet | src/main/resources/web/js/protobuf.js:105-113 | and the decoding table its inverse, with no other entry |
| Base64.Length | src/main/resources/web/js/protobuf.js:95-103 | `base64.length` of an encoding is the number of encoded bytes |
| Base64.EncodeRange | src/main/resources/web/js/protobuf.js:122-154 | The three-state loop over a range computes the encoding of that range |
| Base64.Decode | src/main/resources/web/js/protobuf.js:166-200 | The four-state loop decodes into the buffer from the offset on and reports the number of bytes, or fails exactly where the pure decoder does |
| RootLoad.LoadContract | src/main/resources/web/js/protobuf.js:5057-5183 | In every run of one asynchronous load: each file is requested at most once and never again if an earlier load had it; the callback is called at most once, and exactly once when nothing is pending; a success means that every requested file was processed or is a failed weak import |
| RootLoad.ReportIsRight | src/main/resources/web/js/protobuf.js:5069-5165 | In every run, an error is reported if and only if some completion, before any report, delivers a file that cannot be parsed or fails a file that is not a weak import; a success means that a completion of every requested file delivered a parsed file or failed a weak import |
| RootLoad.DeliverInv | src/main/resources/web/js/protobuf.js:5109-5165 | Each completion keeps the bookkeeping invariant |
| RootLoad.RunLength | src/main/resources/web/js/protobuf.js:5109-5165 | Each request is delivered at most once, so that runs are as long as requests are used up |
| RootLoad.SuccessRequestsLeast | src/main/resources/web/js/protobuf.js:5081-5107 | A successful load has requested exactly the least set of files that holds the named ones and the imports of its members |
| RootLoad.OrderDoesNotMatter | src/main/resources/web/js/protobuf.js:5057-5183 | Two successful loads of the same names request the same files, whatever the orders of completion |
| RootLoad.OutcomeDependsOnOrder | src/main/resources/web/js/protobuf.js:5112-5121 | Two runs of one load, of which one succeeds and one fails: the first import of a file decides whether its failure is forgiven |
| LoadOrder.OrderMatters | src/main/resources/web/js/protobuf.js:5057-5183 | A load has both a run that succeeds and one that fails if and only if the conditions of the next two rows both hold of its imports |
| LoadOrder.ErrorPossible | src/main/resources/web/js/protobuf.js:5081-5165 | Some run of a load ends in an error if and only if a path of imports leads from the names to a malformed file, or to a strong import (or a name) that cannot be fetched and avoids the files that import it only weakly |
| LoadOrder.SuccessPossible | src/main/resources/web/js/protobuf.js:5081-5165 | Some run succeeds if and only if there is a least set of needed files with none malformed, all names can be fetched, and in every set of needed files that parse one can be reached from the others and insists only on missing files that the others import weakly |
| LoadOrder.OneOutcome | src/main/resources/web/js/protobuf.js:5057-5183 | Where every file that cannot be fetched is requested always weakly or never weakly, any two runs with nothing left pending report the same |
| LoadOrder.ConsistentOutcome | src/main/resources/web/js/protobuf.js:5057-5183 | and no run succeeds if some path endangers the load |
| LoadOrder.DeliverKnown | src/main/resources/web/js/protobuf.js:5109-5165 | In every run, each pending file has a path of processed files to the request that decided its weakness, which is sharp for strong requests |
| RootLoad.LastIndexOf | src/main/resources/web/js/protobuf.js:5112-5117 | The last occurrence of the bundle directory in a name |
| RootLoad.FetchAsks | src/main/resources/web/js/protobuf.js:5109-5121 | Fetching a bundled definition under any prefix requests exactly that definition, unless it is known, and nothing else |
| RootLoad.FetchPlain | src/main/resources/web/js/protobuf.js:5109-5121 | Any name that does not end in one is requested as it is |
| RootLoad.Loader.Load | src/main/resources/web/js/protobuf.js:5166-5183 | The call itself, on the closure's variables, does the first step of the step system |
| RootLoad.Loader.Complete | src/main/resources/web/js/protobuf.js:5128-5164 | A timer or fetch callback does one delivery step |
| RootLoad.Loader.ProcessFile | src/main/resources/web/js/protobuf.js:5081-5107 | Processing a file and fetching its imports |
| RootLoad.Loader.FetchFile | src/main/resources/web/js/protobuf.js:5109-5165 | Requests just the bundled definition `google/protobuf/...` that a name ends in, whatever path comes before, and every other name as it is; skips known files, counts and marks the others |
| Lookup.NearestScope | src/main/resources/web/js/protobuf.js:3306-3338 | In every acyclic tree, a relative path is resolved in the nearest enclosing scope in which the whole of it leads to an object of an allowed class, and nowhere if there is no such scope, so a nearer match of the wrong class hides nothing |
| Lookup.FindsMember | src/main/resources/web/js/protobuf.js:3325-3337 | A plain name is looked up in the maps of its scope by class: the fields of a type before its oneofs before what is nested in it, the methods of a service before that, just what is nested elsewhere; the parent is asked if and only if none of these holds it, and nothing is found if there is no parent |
| Lookup.AbsolutePath | src/main/resources/web/js/protobuf.js:3322-3324 | A path with a leading empty component is resolved downwards from the root |
| Lookup.CheckedWalks | src/main/resources/web/js/protobuf.js:3306-3338 | With `parentAlreadyChecked`, lookup only walks down |
| Lookup.FoundAllowed | src/main/resources/web/js/protobuf.js:3325-3333 | What a path with a non-empty last component finds is of an allowed class, in any tree |
| Lookup.Filtered | src/main/resources/web/js/protobuf.js:3306-3338 | In a tree whose namespaces share a root: what is found is of an allowed class, if and only if the path is empty and the scope itself is, or the last component is non-empty, or the root is |
| Lookup.FilteredString | src/main/resources/web/js/protobuf.js:3315-3320 | The same of strings: only the empty string and strings that end in a dot escape the filter |
| Lookup.DotFindsRoot | src/main/resources/web/js/protobuf.js:3322-3333 | Whatever a path with an empty last component finds is the root |
| Lookup.TrailingDot | src/main/resources/web/js/protobuf.js:3315-3324 | A name of a namespace with a dot behind it leads to the root whatever the filter says |
| Lookup.FullNameFinds | src/main/resources/web/js/protobuf.js:3498-3509 | In a tree whose objects are each held under their name by the fields, oneofs, methods or nested objects of their parent, an object's full name, looked up anywhere in it, leads to that object if its class is allowed; the root's own full name is empty and leads to where the search starts |
| Lookup.RootOf | src/main/resources/web/js/protobuf.js:3483-3490 | The loop of the `root` getter ends at the topmost object |
| Lookup.FullName | src/main/resources/web/js/protobuf.js:3498-3509 | The loop of the `fullName` getter joins the names from the top down |
| Paths.Normalize | src/main/resources/web/js/protobuf.js:933-955 | The in-place rewriting of the component list terminates and computes the fold over components |
| Paths.SlashesAt | src/main/resources/web/js/protobuf.js:933-936 | Backslashes become slashes, one for one, and no other character changes |
| Paths.WordCharacters | src/main/resources/web/js/protobuf.js:923-925 | The characters before the colon of a drive are the letters, the digits and the underscore |
| Paths.SamePlace | src/main/resources/web/js/protobuf.js:933-955 | A path and its normalized form lead to the same place from every directory, if and only if it is not a relative path with a drive-like component that is left first: before it names and parent references cancel out without going above the start, and no parent reference behind it takes it away |
| Paths.MisreadExactly | src/main/resources/web/js/protobuf.js:933-955 | That condition on the components of the path says when the normalized form of a relative path is taken for an absolute one |
| Paths.ReduceLeft | src/main/resources/web/js/protobuf.js:940-953 | Counting names and parent references tells what the rewriting of a relative path leaves first, and how much |
| Paths.Idempotent | src/main/resources/web/js/protobuf.js:933-955 | Normalizing again changes nothing, if and only if not just such a component, and nothing behind it, is left |
| Paths.Tidy | src/main/resources/web/js/protobuf.js:940-953 | What remains holds no `.`, and `..` only as a leading run of a relative path |
| Paths.ReadBack | src/main/resources/web/js/protobuf.js:933-955 | A normalized path holds no backslash and no double slash, and splits into exactly the remaining components |
| Paths.ColonFree | src/main/resources/web/js/protobuf.js:923-925 | Paths without a colon never meet the exception |
| Paths.DriveAppears | src/main/resources/web/js/protobuf.js:937-939 | `x/../c:` does |
| Precedence.Parser.ParseBinaryExpression | src/main/resources/swagger/swagger-ui-standalone-preset.js:15 | Consumes the longest chain of operands and operators and returns a tree whose in-order reading is that chain, whose left children bind at least as tightly and right children more tightly than their parent, and whose nodes start and end with their outermost operands; throws exactly when an operator lacks its right operand |
| Precedence.TreeUnique | src/main/resources/swagger/swagger-ui-standalone-preset.js:15 | There is only one such tree for a chain |
| Precedence.PrecLevel | src/main/resources/swagger/swagger-ui-standalone-preset.js:14-15 | The precedence of a token that continues a chain is that of its operator in the tree |
| Precedence.Operators | src/main/resources/swagger/swagger-ui-standalone-preset.js:14-15 | A token continues a chain if and only if it is one of the operators of ECMAScript, listed in ten groups, with `instanceof` and `in` as keywords and `in` only where it is allowed |
| Precedence.GroupOrder | src/main/resources/swagger/swagger-ui-standalone-preset.js:14-15 | Operators of one group bind equally, those of a later group more tightly |
| Precedence.ParseThree | src/main/resources/swagger/swagger-ui-standalone-preset.js:15 | The parser makes of `x o1 y o2 z` the tree in which the second operator takes the middle operand if and only if its group comes later, and else the tree in which the first does |
| Precedence.RootOperator | src/main/resources/swagger/swagger-ui-standalone-preset.js:15 | In the tree of any chain, the root is the last of the operators of the first group that occurs |
| Precedence.Parser.Reduce | src/main/resources/swagger/swagger-ui-standalone-preset.js:15 | The inner loop keeps the reading of the stack and leaves an operator of lower precedence on it |
| Precedence.Parser.Fold | src/main/resources/swagger/swagger-ui-standalone-preset.js:15 | The final loop joins the rest of the stack from the top |
| BufferInts.WriteIntLE | src/main/resources/swagger/swagger-ui-standalone-preset.js:14 | Range and bounds checks for any number of bytes, then exactly the n bytes of the two's complement, lowest first; all other bytes keep their values |
| BufferInts.NextDigit | src/main/resources/swagger/swagger-ui-standalone-preset.js:14 | One turn of the loop: the next byte by division towards zero and the sticky borrow flag |
| BufferInts.WriteIntBE | src/main/resources/swagger/swagger-ui-standalone-preset.js:14 | The same, highest first, from the far end |
| BufferInts.ReadIntLE | src/main/resources/swagger/swagger-ui-standalone-preset.js:14 | Bounds check, then the signed value of the n bytes |
| BufferInts.ReadIntBE | src/main/resources/swagger/swagger-ui-standalone-preset.js:14 | The same, highest first |
| BufferInts.WriteAndReadLE | src/main/resources/swagger/swagger-ui-standalone-preset.js:14 | Every value that the writer accepts is read back; other bytes keep their values |
| BufferInts.WriteAndReadBE | src/main/resources/swagger/swagger-ui-standalone-preset.js:14 | The same for the other byte order |
| BufferInts.BorrowedByte | src/main/resources/swagger/swagger-ui-standalone-preset.js:14 | The sticky borrow flag turns division towards zero into division towards minus infinity |
| BufferInts.SignedInverse | src/main/resources/swagger/swagger-ui-standalone-preset.js:14 | n bytes are read back as the value that was written, if and only if it was in range |
| BufferInts.LittleInverse | src/main/resources/swagger/swagger-ui-standalone-preset.js:14 | Writing the value of any n bytes gives those bytes, and that value is in range |
| LongBytes.LongToByte | src/main/scala/rep/storage/util/pathUtil.java:161-168 | The loop with signed remainder and arithmetic shift gives the eight bytes of the two's complement, highest first |
| LongBytes.LongInverse | src/main/scala/rep/storage/util/pathUtil.java:161-173 | `byteToLong` inverts `longToByte` on every long |
| LongBytes.BytesInverse | src/main/scala/rep/storage/util/pathUtil.java:161-173 | `longToByte` inverts `byteToLong` on every array of eight bytes |
| LongBytes.Chain | src/main/scala/rep/storage/util/pathUtil.java:170-173 | The chain of shifts and ors is the signed value of the first eight bytes |

## Left out

- Longs.LongBits.ToNumber: exact integers; doubles round results beyond 2^53, which is why the round trip is claimed for safe integers.
- Writers.Writer.Int32: numbers below -2^63 are excluded; `fromNumber` wraps them, and then fewer bytes than the ten announced may be written.
- Writers.Writer.Finish: the first `finish` only, because `writeVarint64` uses its value up in place; a writer is not valid any more afterwards.
- Writers.Writer.WriteDelimited: base64 strings given to `bytes` are not modelled, nor a typed array of 2^32 bytes or more.
- Readers.Reader.Bytes: the result is a value, not a view that shares the buffer; the cursor after an exception is not described.
- Base64.Decode: the characters past 122, for which the decoding table has no entry, fail like any other invalid one; bytes past the end of the buffer are dropped, and then the contents are not described.
- RoundTrip.DecodeInverts: strings must be faithful (`Utf8.ReadInverse`) and the encoding shorter than 2^32 bytes, since lengths are words (`Reading.LengthPrefixExact`).
- Lookup.NearestScope: names that plain objects inherit, such as `constructor`, are not members here.
- Precedence.Parser.ParseBinaryExpression: operands are single items of the token stream, so that what `parseExponentiationExpression` accepts is not modelled; nor are the cover grammar flags.
- BufferInts.WriteIntLE: offsets are natural numbers below 2^31, which `| 0` leaves alone, values are integers, and `noAssert` is off; so too for the other accessors.
- BufferInts.ReadIntLE: lengths are 1 to 6, also for `ReadIntBE`; from seven bytes on the sum is rounded as a double.
- RoundTrip.MapEntryAt: a message put under the key `__proto__` becomes the prototype of the map; that its accessors would then intercept later keys is not modelled, nor are fields that are named `__proto__`.
- RootLoad.LoadContract: what parsing a file does to the root is not modelled, only its imports or its failure before any import; `resolvePath` is a parameter of the model.
- Float and double conversion: four- and eight-byte values are opaque bytes.
- `BufferReader`, `BufferWriter` and the choice between constructors.
- The text that `codegen` and `sprintf` produce; what the generated functions do is modelled instead.
- Negative enum values, map keys that are not strings, integer-like property names that JavaScript reorders, the optional Long library.
- Repeated `finish`, and `encodeDelimited`.
- Verifiers and the `fromObject` and `toObject` converters.
- The synchronous mode of `Root.load`, `fetch` and `path.resolve`.
- The .proto tokenizer and parser, and rpc services.
- The rest of the swagger bundles, and of `pathUtil.java` (`bytesToInt` and `IsPrime` would only add easy members).
- Messages of exceptions; an exception is a constructor of an error type here.
