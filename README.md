# Bencode codec: two decoders, one encoder, the info-hash input

This project models the core of a small BitTorrent metadata tool in Dafny
and proves properties of it. The tool decodes and re-encodes bencode, the
serialisation of `.torrent` files. It also picks out the bytes whose
SHA-1 digest is the torrent's info-hash. The repository holds two
independent variants, and both are modelled:

- `bendecode.py` is the byte-oriented, validating variant. Its tokenizer is
  a generator that walks a byte buffer with a cursor. It checks integer
  literals, length prefixes and payload bounds. A recursive-descent
  decoder pulls tokens from it. Module `Strict` (strict.dfy) models it.
- `decoder.py` is the lax variant. Its tokenizer is one regular-expression
  loop over the file decoded as latin-1 text. Its decoder builds a
  dictionary by pairing up alternate list items. Module `Lax` (lax.dfy)
  models it. Latin-1 maps each byte to one character, so the text is
  modelled as the file's bytes.
- Module `Codec` (codec.dfy) holds what the two share:
  - the value tree and the encoder, which is the same function in both
    files;
  - decimal text and Python's byte order;
  - Python's dictionary semantics of insertion order and `d[k] = v`;
  - the generator as a stream of tokens plus the exception it ends with;
  - the selection of the `info` subtree.

Each tokenizer appears twice:
- as `Scan`, a function giving everything the generator yields and what it
  raises at the end;
- as a class `Tokenizer` whose `Next` resumes the generator by one token.

Each decoder also appears twice:
- as functions over that stream;
- as methods that pull from a `Tokenizer` and are proved equal to the
  functions.

Lazy pulling is kept, so when both a decoder error and a tokenizer error
are possible, the model raises the one the source raises first.

Main results:
- Both decoders return exactly the value for any encoder output whose
  dictionaries are in key order (`DocumentRoundTrip`). For any value
  Python can hold, decoding its encoding gives the value with its
  dictionaries sorted (`DecodeEncode`).
- The encoder sorts keys by raw bytes and ignores insertion order.
- The code's departures from the bencode grammar are each pinned down by
  a lemma:
  - `bendecode.py` accepts `i-0e` and lets a repeated key overwrite;
  - `decoder.py` accepts `i03e`, truncated strings and unpaired keys.
- `decoder.py` computes a wrong info-hash for any info dictionary holding a
  byte from 0x80 up (see Findings).

The bencode format as BEP 3 (the BitTorrent protocol specification)
defines it forbids `i-0e` and integers with leading zeros such as `i03e`,
and gives a string exactly as many bytes as its length prefix says. The
model follows the code where the two differ:
- `bendecode.py` accepts `i-0e`, and its length prefix may carry leading
  zeros (`03:abc`).
- `decoder.py` accepts `i03e` and reads `5:ab` as the shorter string `ab`.

The code also has these behaviours:
- Both variants keep the last value of a repeated key.
- Both hash whatever value sits under `info`.

## Model

| member | source | states |
|---|---|---|
| Codec.Digits | bendecode.py:19-21 | `%d` of a natural number: only ASCII digits, read back by int() as the number, a leading 0 exactly for zero |
| Codec.DecimalInt | bendecode.py:19 | `%d` of any integer is canonical (optional minus, no leading zero, no `-0`), int() reads it back as the integer, and it has a minus exactly when the integer is negative |
| Codec.CanonicalLiteralUnique | bendecode.py:19 | a canonical literal that int() reads as n is the encoder's text for n, so each integer has exactly one encoding |
| Codec.DigitsUnique | bendecode.py:21 | a run of ASCII digits without a superfluous leading zero is exactly the `%d` text of the number int() reads from it |
| Codec.IndexOf | bendecode.py:39 | `data.index(b, start)`: the first offset at or after start holding b, or none, where Python raises ValueError |
| Codec.ParseInt | bendecode.py:74 | `int()` on an optional minus and ASCII digits, None where int() raises ValueError; Codec.DecimalInt and Codec.CanonicalLiteralUnique state that it inverts `%d` |
| Codec.Lookup | bendecode.py:198-199 | `key in d` / `d[key]`: absent exactly when no entry has the key, otherwise the value of an entry with that key |
| Codec.Put | bendecode.py:93 | `d[key] = v`: a new key is appended, an existing one keeps its place, and every other entry is unchanged |
| Codec.PutLookup | bendecode.py:93 | after `d[key] = v` the key maps to v and every other key to what it mapped to before |
| Codec.PutDistinct | bendecode.py:93 | `d[key] = v` keeps keys distinct and replaces exactly the entry for key |
| Codec.LookupDistinct | bendecode.py:198-199 | in a dictionary with distinct keys, looking up a stored key finds its stored value |
| Codec.PutAllDistinct | bendecode.py:88-94 | storing pairs whose keys are all new appends them in order |
| Codec.PutTwice | bendecode.py:93 | storing the same key twice keeps only the second value, in one entry |
| Codec.LessIrreflexive | bendecode.py:27 | Python's byte order: no byte string sorts before itself |
| Codec.LessTransitive | bendecode.py:27 | Python's byte order is transitive |
| Codec.LessTotal | bendecode.py:27 | Python's byte order ranks any two different byte strings |
| Codec.LessAsymmetric | bendecode.py:27 | Python's byte order never ranks a before b and b before a |
| Codec.Less | bendecode.py:27 | Python's byte-string comparison, byte by byte with a proper prefix first; its order properties are the four lemmas above |
| Codec.Insert | bendecode.py:27 | one insertion step of `sorted`: the result has exactly one entry more |
| Codec.SortByKey | bendecode.py:27 | `sorted(obj.items())`, ordering by key only since keys are distinct: same length; SortPermutes and SortedAscending state that it permutes into ascending order |
| Codec.InsertPermutes | bendecode.py:27 | one insertion step of the sort adds the entry and keeps every other one |
| Codec.SortPermutes | bendecode.py:27 | `sorted(obj.items())` keeps exactly the entries it was given (a permutation) |
| Codec.SortedAscending | bendecode.py:27 | with distinct keys, `sorted(obj.items())` is in strictly ascending byte order of the keys |
| Codec.SortAscendingIdentity | bendecode.py:27 | entries already in ascending key order are left as they are by the sort |
| Codec.AscendingUnique | bendecode.py:27 | two ascending sequences holding the same entries are equal |
| Codec.SortIgnoresOrder | bendecode.py:27 | the sorted items do not depend on the insertion order of the dictionary |
| Codec.EncodeValuesSort | bendecode.py:27-28 | sorting the items and encoding their values commute, since the sort looks only at keys |
| Codec.EncodeString | bendecode.py:20-21 | `b"%d:%s"`: the length in decimal, a colon, the payload; Codec.EncodeStringLayout states how a reader finds each part |
| Codec.EncodeStringLayout | bendecode.py:20-21 | in a byte string's text the first colon ends the length prefix, the prefix is the payload length's digits, and the payload follows the colon |
| Codec.Join | bendecode.py:28 | `b"".join(encode(k) + encode(v) for k, v in items)` over already encoded values |
| Codec.Encode | bendecode.py:17-30 | `encode`; the round-trip lemmas Strict.DocumentRoundTrip and Lax.DocumentRoundTrip and Codec.EncodeDictAscending state what it writes |
| Codec.EncodeFirstByte | bendecode.py:17-30 | an encoding is never empty and its first byte gives the value's type: `i` for integers, `l` for lists, `d` for dictionaries and a digit for byte strings |
| Codec.EncodeDictAscending | bendecode.py:26-28 | a dictionary is written as `d`, its entries in ascending key order (a permutation of its entries), each key as a byte string followed by its value, then `e` |
| Codec.EncodeIgnoresOrder | bendecode.py:26-28 | two dictionaries holding the same entries encode to the same bytes, whatever their insertion order |
| Codec.EncodeKeyOrderExample | bendecode.py:26-28 | keys `b`, `a`, `aa` inserted in that order are written as `a` < `aa` < `b` |
| Codec.AscendingDistinct | bendecode.py:27 | keys in strictly ascending order are distinct |
| Codec.CanonicalWellFormed | bendecode.py:17-30 | a value whose dictionaries are in key order has distinct keys throughout |
| Codec.CanonicalizeFixes | bendecode.py:17-30 | sorting the dictionaries of a value already in key order changes nothing |
| Codec.CanonicalizeCanonical | bendecode.py:17-30 | a Python value with its dictionaries sorted is in key order throughout |
| Codec.EncodeCanonicalize | bendecode.py:17-30 | the encoding of a value equals the encoding of the same value with its dictionaries sorted |
| Codec.EncodeCanonicalDict | bendecode.py:26-28 | a dictionary already in key order is written in its own entry order |
| Codec.Rest | bendecode.py:102 | the generator after one `next()` has one token fewer and ends with the same exception |
| Codec.PullRest | bendecode.py:102 | `next()` and the generator it leaves are inverse to pushing the token back: putting the returned token in front of the rest gives the generator back, and a generator that raised is left as it was |
| Codec.Then | bendecode.py:48-50 | a pass of the loop that yields ts and then goes on as s adds the tokens of ts and keeps s's exception |
| Codec.PullThen | bendecode.py:48-50 | pulling from a pass that yields ts hands out ts in order |
| Codec.TokensStart | bendecode.py:83 | the tokens of any value start with something other than `e`, so the loops never end early on one |
| Codec.SelectInfo | bendecode.py:198-199 | `b"info" in torrent` / `torrent[b"info"]`: yields a value exactly when the torrent is a dictionary with an info key, and then that key's value; a dictionary without one takes the `else` that raises InvalidFileException; any other top-level shape yields no value |
| Strict.StripMinus | bendecode.py:44 | `number.lstrip(b"-")`: the suffix left after all leading minus signs are removed |
| Strict.LiteralAccepted | bendecode.py:41-46 | the tokenizer's literal check: not empty, not a lone `-`, and no leading zero after the minus signs unless the zero stands alone; Strict.AcceptedLiterals and Strict.CanonicalAccepted state what it lets through |
| Strict.Lex | bendecode.py:35-69 | one pass of the loop body, which dispatches on the byte at the cursor; a pass that does not raise yields at least one token, moves the cursor forward, and leaves it within the data |
| Strict.LexInteger | bendecode.py:37-51 | the integer branch yields exactly three tokens and moves the cursor past the first `e` |
| Strict.LexString | bendecode.py:55-67 | the string branch yields exactly two tokens and never reads past the end of the data |
| Strict.Tokenizer.constructor | bendecode.py:33-34 | `tokenize(data)`: a fresh generator that will yield what Scan gives from offset 0 |
| Strict.Tokenizer.Next | bendecode.py:33-69 | one `next()`: the token or exception the stream gives first, and the generator becomes the rest of the stream |
| Strict.Scan | bendecode.py:33-69 | the whole `tokenize` generator from offset i: StopIteration once i reaches the end, otherwise one pass and the rest; Strict.ScanStep and Strict.ScanEncoding state what it yields |
| Strict.Pass | bendecode.py:35-69 | one pass of the `while` loop followed by the loop from where it leaves the cursor, or the exception the pass raises |
| Strict.LexAt | bendecode.py:36-69 | the loop body as statements computes the same pass as Lex |
| Strict.ScanStep | bendecode.py:35-69 | the generator from offset i is the pass at i followed by the generator from where the pass leaves the cursor |
| Strict.ScanFails | bendecode.py:35-69 | a pass that raises ends the generator with that exception before any token |
| Strict.ScanInteger | bendecode.py:37-51 | where the encoder's text for an integer is written, the integer branch yields `i`, the literal and `e` and moves the cursor past it |
| Strict.ScanLiteral | bendecode.py:37-51 | any literal the check accepts that holds no `e`, written between `i` and `e`, is yielded as `i`, the literal, `e` |
| Strict.ScanMarker | bendecode.py:52-54 | `l`, `d` and `e` are yielded as themselves and the cursor moves on by one |
| Strict.ScanString | bendecode.py:55-67 | where the encoder's text for a byte string is written, the string branch yields `s` and exactly its payload and moves past it |
| Strict.ScanList | bendecode.py:33-69 | the encoding of a list in key order is tokenized as `l`, the tokens of its items, `e` |
| Strict.ScanDict | bendecode.py:33-69 | the encoding of a dictionary in key order is tokenized as `d`, each key's `s` and payload followed by its value's tokens, `e` |
| Strict.Item | bendecode.py:72-97 | `decode_item(next_token, token)` consumes at least one token when it succeeds |
| Strict.NextItem | bendecode.py:72-97 | `decode_item(next_token, next_token())` consumes at least one token when it succeeds |
| Strict.Elements | bendecode.py:80-86 | the list loop consumes tokens and yields a list |
| Strict.Entries | bendecode.py:87-95 | the dictionary loop consumes tokens and yields a dictionary |
| Strict.DecodeItem | bendecode.py:72-97 | `decode_item` pulling from the generator returns what Item gives and leaves the generator where Item leaves the stream |
| Strict.DecodeNext | bendecode.py:102 | `decode_item(next_token, next(tokens))` returns what NextItem gives and leaves the generator where NextItem leaves the stream |
| Strict.DecodeList | bendecode.py:80-86 | the list loop as a `while` returns what Elements gives |
| Strict.DecodeDict | bendecode.py:87-95 | the dictionary loop as a `while` returns what Entries gives |
| Strict.Document | bendecode.py:100-105 | `decode(data)`: empty input raises StopIteration |
| Strict.Decode | bendecode.py:100-105 | `decode` as statements returns what Document gives |
| Strict.LiteralLexes | bendecode.py:37-51 | an integer literal the check accepts and that contains no `e` is one pass yielding `i`, the literal and `e` |
| Strict.StringLexes | bendecode.py:55-67 | a byte string the encoder wrote is one pass yielding `s` and exactly its payload |
| Strict.ScanValue | bendecode.py:33-69 | where the encoding of a value in key order is written, the generator yields the value's tokens and carries on after it |
| Strict.ScanEncoding | bendecode.py:33-69 | on the encoding of a value in key order the generator yields the value's tokens and then raises StopIteration |
| Strict.StringItem | bendecode.py:78-79 | the `s` branch returns the payload token as a byte string |
| Strict.IntegerItem | bendecode.py:73-77 | the `i` branch returns what int() reads from the literal when `e` follows |
| Strict.MissingValueTokens | bendecode.py:91-97 | the tokens `d`, a key, `e` make the value's `decode_item` see `e` and raise ValueError |
| Strict.UnterminatedTokens | bendecode.py:82-85 | a list whose items' tokens run out before an `e` raises StopIteration from `next_token()` |
| Strict.NextItemTokens | bendecode.py:72-97 | pulling the tokens of a well-formed value rebuilds the value and stops right after its last token |
| Strict.ElementsTokens | bendecode.py:80-86 | the list loop over the tokens of some values appends exactly those values |
| Strict.EntriesTokens | bendecode.py:87-95 | the dictionary loop over entries with new, distinct keys stores them in order |
| Strict.EntryStep | bendecode.py:90-94 | one pass of the dictionary loop: key, then value, then `result[key] = value` |
| Strict.DocumentRoundTrip | bendecode.py:17-105 | `decode(encode(v)) == v` for every value whose dictionaries are in key order |
| Strict.DecodeEncode | bendecode.py:17-105 | `decode(encode(v))` is v with its dictionaries sorted, for every value Python can hold |
| Strict.ReencodeStable | bendecode.py:17-105 | `encode(decode(encode(v))) == encode(v)` |
| Strict.DocumentWellFormed | bendecode.py:87-95 | every dictionary `decode` builds has distinct keys |
| Strict.NextItemWellFormed | bendecode.py:72-97 | every value `decode_item` returns has distinct keys in all its dictionaries |
| Strict.EntriesWellFormed | bendecode.py:87-95 | the dictionary loop keeps the keys of the dictionary it builds distinct |
| Strict.PutWellFormed | bendecode.py:93 | `result[key] = value` keeps a dictionary of well-formed values with distinct keys |
| Strict.DuplicateKeyLastWins | bendecode.py:93 | a key given twice in one dictionary is stored once, with the second value, and no error is raised |
| Strict.DuplicateEntries | bendecode.py:90-94 | the dictionary loop over a key, a value, the same key, another value and `e` builds one entry holding the second value |
| Strict.ListFrame | bendecode.py:80-86 | the `l` branch around a body whose loop yields l returns l |
| Strict.DictFrame | bendecode.py:87-95 | the `d` branch around a body whose loop yields d returns d |
| Strict.InfoHashOfEncoding | bendecode.py:198-201 | for a torrent file the encoder wrote, the bytes hashed are the encoding of the stored info value |
| Strict.InfoHashInput | bendecode.py:198-200 | `encode(torrent[b"info"])` for `torrent = decode(data)`, or the error raised on the way; Strict.InfoHashOfEncoding and Strict.InfoHashMissing state its value |
| Strict.InfoHashMissing | bendecode.py:226-227 | a torrent without an info key raises InvalidFileException |
| Strict.RejectedInteger | bendecode.py:37-47 | a literal the check refuses fails the document with "Invalid integer value", whatever follows |
| Strict.AcceptedInteger | bendecode.py:37-51 | a document that is one accepted literal decodes to what int() reads |
| Strict.RejectsEmptyInteger | bendecode.py:42 | `ie` is refused |
| Strict.RejectsLoneMinus | bendecode.py:43 | `i-e` is refused |
| Strict.RejectsLeadingZero | bendecode.py:44-45 | `i03e` is refused |
| Strict.RejectsNegativeLeadingZero | bendecode.py:44-45 | `i-03e` is refused |
| Strict.AcceptsNegativeZero | bendecode.py:41-49 | `i-0e` passes the check and decodes to 0 |
| Strict.MissingTerminator | bendecode.py:39 | an `i` with no `e` after it fails through `data.index` (ValueError) |
| Strict.TruncatedPayload | bendecode.py:61-64 | a length prefix promising more bytes than remain fails with "Unexpected end of data in string" |
| Strict.TruncatedExample | bendecode.py:61-64 | `5:ab` fails with "Unexpected end of data in string" |
| Strict.UnexpectedFirstByte | bendecode.py:68-69 | a first byte that starts no token fails with "Unexpected character" and offset 0 |
| Strict.InvalidPrefix | bendecode.py:56-59 | a digit whose text up to the first colon is not all digits fails with "Invalid string length prefix" naming that text |
| Strict.InvalidPrefixExample | bendecode.py:56-59 | `1a:x` fails with "Invalid string length prefix" on `1a` |
| Strict.MissingColon | bendecode.py:56 | a digit with no colon anywhere after it fails through `data.index(b":")` (ValueError) |
| Strict.MissingColonExample | bendecode.py:56 | `12` fails through `data.index(b":")` |
| Strict.PaddedPrefix | bendecode.py:55-67 | any run of digits before the colon is accepted as a length prefix, leading zeros included, and a payload of exactly that length decodes to that byte string |
| Strict.PrefixBranch | bendecode.py:55-67 | the string branch with its colon found and its payload fitting yields `s` and the bytes up to the end |
| Strict.PaddedPrefixExample | bendecode.py:55-67 | `03:abc` decodes to `abc` |
| Strict.UnterminatedIntegerTokens | bendecode.py:73-76 | an `i` token and a literal int() reads, followed by any token other than `e`, raise ValueError ("Invalid integer termination") |
| Strict.MissingValue | bendecode.py:91-97 | a dictionary whose key is followed by `e` fails with "Unexpected token" |
| Strict.MissingValueExample | bendecode.py:91-97 | `d1:ae` fails with "Unexpected token" |
| Strict.TrailingValue | bendecode.py:103-104 | a second value after the first fails with "Trailing data after valid bencode" |
| Strict.UnterminatedList | bendecode.py:82-85 | a list that the data ends inside fails with StopIteration |
| Strict.CanonicalAccepted | bendecode.py:41-47 | every literal the encoder writes passes the tokenizer's check |
| Strict.AcceptedLiterals | bendecode.py:41-47 | with int() read as Codec.ParseInt, the check lets through only canonical literals and `-0` (see Left out for the literals Python's int() also reads) |
| Strict.NegativeAccepted | bendecode.py:41-47 | a minus and digits pass the check only when canonical or `-0` |
| Strict.PlainAccepted | bendecode.py:41-47 | digits without a minus pass the check only when canonical |
| Strict.LiteralHasNoE | bendecode.py:39 | the encoder's integer text contains no `e`, so `data.index` finds the closing one |
| Lax.DigitsEnd | decoder.py:33 | `\d+` at i: the end of the run of ASCII digits starting there |
| Lax.Lex | decoder.py:35-46 | one pass of the loop body, which tries `[idel]`, then `digits:`, then `-?digits`; a match yields at least one token and moves the cursor forward, possibly past the end when a length prefix overshoots; no match raises SyntaxError naming the offset |
| Lax.Tokenizer.constructor | decoder.py:33-34 | `tokenize(text)`: a fresh generator that will yield what Scan gives from offset 0 |
| Lax.Tokenizer.Next | decoder.py:33-46 | one `next()`: the token or exception the stream gives first, and the generator becomes the rest of the stream |
| Lax.Scan | decoder.py:33-46 | the whole `tokenize` generator from offset i: StopIteration once i reaches the end, otherwise one pass and the rest; Lax.ScanStep and Lax.ScanEncoding state what it yields |
| Lax.Pass | decoder.py:35-46 | one pass of the `while` loop followed by the loop from where it leaves the cursor, or the SyntaxError of a position no alternative matches |
| Lax.MatchAt | decoder.py:36-46 | the loop body as statements computes the same pass as Lex |
| Lax.ScanStep | decoder.py:35-46 | the generator from offset i is the pass at i followed by the generator from where the pass leaves the cursor |
| Lax.ScanFails | decoder.py:37-38 | a position no alternative matches ends the generator with SyntaxError |
| Lax.ScanMarker | decoder.py:33-46 | `i`, `l`, `d` and `e` match the first alternative and are yielded as themselves |
| Lax.ScanString | decoder.py:39-44 | where the encoder's text for a byte string is written, the second alternative yields `s` and exactly its payload and moves past it |
| Lax.ScanNumber | decoder.py:33-46 | any int()-readable literal between `i` and `e` is yielded as `i`, the literal, `e` |
| Lax.ScanList | decoder.py:33-46 | the encoding of a list in key order is tokenized as `l`, the tokens of its items, `e` |
| Lax.ScanDict | decoder.py:33-46 | the encoding of a dictionary in key order is tokenized as `d`, each key's `s` and payload followed by its value's tokens, `e` |
| Lax.FromPairs | decoder.py:63 | `dict(zip(items[0::2], items[1::2]))` fails only on a key that is not a byte string |
| Lax.Item | decoder.py:49-66 | `decode_item` consumes at least one token when it succeeds, keeps the generator's final exception, and fails either with the generator's exception or with one it raises itself |
| Lax.NextItem | decoder.py:49-66 | as Item, after pulling the first token |
| Lax.Elements | decoder.py:57-61 | the item loop consumes tokens, yields a list, and fails as Item does |
| Lax.DecodeItem | decoder.py:49-66 | `decode_item` pulling from the generator returns what Item gives and leaves the generator where Item leaves the stream |
| Lax.DecodeNext | decoder.py:72 | `decode_item(src.__next__, next(src))` returns what NextItem gives |
| Lax.DecodeElements | decoder.py:57-61 | the item loop as a `while` returns what Elements gives |
| Lax.Document | decoder.py:69-77 | `decode(text)`: empty input raises StopIteration, which is then re-raised as SyntaxError |
| Lax.Surfaced | decoder.py:75-76 | ValueError and StopIteration never reach the caller: they become SyntaxError |
| Lax.Decode | decoder.py:69-77 | `decode` as statements returns what Document gives |
| Lax.DigitsEndAt | decoder.py:33 | `\d+` over digits followed by a non-digit ends right after them |
| Lax.NumberLexes | decoder.py:33-46 | a literal int() accepts that is followed by neither a digit nor a colon is one pass through the third alternative |
| Lax.StringLexes | decoder.py:39-44 | a byte string the encoder wrote is one pass yielding `s` and exactly its payload |
| Lax.ScanValue | decoder.py:33-46 | where the encoding of a value in key order is written, the generator yields the value's tokens and carries on after it |
| Lax.ScanEncoding | decoder.py:33-46 | on the encoding of a value in key order the generator yields the value's tokens and then raises StopIteration |
| Lax.Flatten | decoder.py:56-61 | the items the `d` branch collects: each key as a byte string at an even index, its value right after it |
| Lax.FromPairsFlatten | decoder.py:63 | pairing keys and values stores each pair with `d[k] = v` in order, so a repeated key keeps its first place and its last value |
| Lax.StringItem | decoder.py:54-55 | the `s` branch returns the payload token as a byte string |
| Lax.IntegerItem | decoder.py:50-53 | the `i` branch returns what int() reads from the literal when `e` follows |
| Lax.DictItem | decoder.py:56-63 | the `d` branch returns the dictionary that pairing up the collected items gives |
| Lax.DictFails | decoder.py:56-63 | the `d` branch raises what pairing up the collected items raises |
| Lax.NextItemTokens | decoder.py:49-66 | pulling the tokens of a well-formed value rebuilds the value and stops right after its last token |
| Lax.DictTokens | decoder.py:56-63 | the `d` branch over any entries, repeated keys included, builds the dictionary the entries give when stored in order |
| Lax.ElementsTokens | decoder.py:57-61 | the item loop over the tokens of some values appends exactly those values |
| Lax.EntriesTokens | decoder.py:57-61 | the item loop over a dictionary's tokens collects each key and then its value |
| Lax.DocumentRoundTrip | decoder.py:17-77 | `decode(encode(v)) == v` for every value whose dictionaries are in key order |
| Lax.DecodeEncode | decoder.py:17-77 | `decode(encode(v))` is v with its dictionaries sorted, for every value Python can hold |
| Lax.ReencodeStable | decoder.py:17-77 | `encode(decode(encode(v))) == encode(v)` |
| Lax.DecodersAgree | decoder.py:69-77 | on every encoder output the lax decoder gives what the validating decoder gives |
| Lax.ScanStop | decoder.py:35-38 | the generator ends with StopIteration or with the SyntaxError of a position no alternative matches |
| Lax.DocumentRaises | decoder.py:69-77 | every failure of `decode` reaches the caller as SyntaxError, except a key that cannot be hashed, which raises TypeError |
| Lax.AcceptedInteger | decoder.py:50-53 | `i`, any text int() accepts, `e` decodes to what int() reads, leading zeros and `-0` included |
| Lax.AcceptsLeadingZero | decoder.py:50-53 | `i03e` decodes to 3 |
| Lax.AcceptsNegativeZero | decoder.py:50-53 | `i-0e` decodes to 0 |
| Lax.TruncatedString | decoder.py:41-44 | a length prefix larger than the rest of the data yields the bytes there are, and the document is that shorter byte string |
| Lax.TruncatedExample | decoder.py:41-44 | `5:ab` decodes to `ab` |
| Lax.LoneMinus | decoder.py:36-38 | `i-e` raises SyntaxError at offset 1 |
| Lax.UnterminatedInteger | decoder.py:52-53 | `i5le` raises ValueError, because `l` follows the integer token |
| Lax.UnterminatedIntegerTokens | decoder.py:50-53 | an `i` token and a literal int() reads, followed by any token other than `e`, raise ValueError |
| Lax.DictOfItems | decoder.py:56-63 | a dictionary decodes as its items read as a list and then paired up, or fails as the pairing fails |
| Lax.FromPairsOdd | decoder.py:63 | with an odd number of items the last one is dropped |
| Lax.UnpairedKey | decoder.py:63 | `d1:ae` decodes to the empty dictionary |
| Lax.UnhashableKey | decoder.py:63 | `dlei2ee`, a list as a key, raises TypeError |
| Lax.DuplicateKeyLastWins | decoder.py:63 | a key given twice is stored once, with the second value |
| Lax.TrailingValue | decoder.py:73-74 | a second value after the first raises "Trailing junk in file" |
| Lax.Utf8Char | decoder.py:22-23 | `str.encode()` of one latin-1 character: the byte itself below 0x80; from 0x80 up, two bytes, a lead byte 0xC2 or 0xC3 and a continuation byte, whose payload bits give back the code point |
| Lax.Utf8 | decoder.py:22-23 | `str.encode()` of latin-1 text is never shorter than the text |
| Lax.TextEncode | decoder.py:17-30 | `encode` as `main` calls it on text decoded as latin-1: every byte string, key or value, written as its UTF-8; Lax.TextEncodeAscii and Lax.InfoHashCorrupted state where it agrees with the byte encoder and where it does not |
| Lax.TextEncodeValues | decoder.py:26-28 | the text encoder keeps each dictionary key and the number of entries |
| Lax.Utf8Ascii | decoder.py:22-23 | `str.encode()` leaves ASCII text unchanged |
| Lax.Utf8Grows | decoder.py:22-23 | text with a character from 0x80 up is longer after `str.encode()` |
| Lax.TextEncodeAscii | decoder.py:17-30 | on a value whose text is all ASCII, `encode` as `main` calls it writes the same bytes as the byte encoder |
| Lax.InfoHashOf | decoder.py:83-84 | once the torrent and its info value are known, the as-written input is the text encoding of the info value and the corrected one is its byte encoding |
| Lax.InfoHashInputAsWritten | decoder.py:81-84 | as written: `encode(torrent["info"])` on the latin-1 text tree, or the error raised on the way |
| Lax.InfoHashInput | decoder.py:81-84 | corrected: the info value's own bytes, as the byte encoder writes them |
| Lax.InfoHashAscii | decoder.py:81-84 | where the info value is ASCII throughout, the code as written hashes the intended bytes |
| Lax.InfoHashCorrupted | decoder.py:81-84 | for `d4:infod1:x1:\xffee` the code as written hashes `d1:x2:\xc3\xbfe`, not the info dictionary's bytes `d1:x1:\xffe` |
| Lax.InfoHashOfEncoding | decoder.py:83-84 | corrected: for a torrent file the encoder wrote, the bytes hashed are the encoding of the stored info value, the same bytes `bendecode.py` hashes |
| Lax.InfoHashMissing | decoder.py:95-96 | a torrent without an info key raises InvalidFileException |

## Left out

- Reading files, command-line handling, suffix filtering and per-file error printing (bendecode.py:230-249, decoder.py:99-117): these are I/O.
- Display and JSON output: `convert_bytes`, `mydecode`, `print_files`, the table printing, `json.dumps`, and the name lookup and print after hashing (bendecode.py:108-196, 203-225; decoder.py:87-90). These are presentation over foreign text codecs. In particular, `decoder.py`'s `print(torrent["info"]["name"])` can raise after the digest is computed, and that is not modelled.
- The SHA-1 digest and its hex form (bendecode.py:201, decoder.py:85): the model stops at the bytes handed to `hashlib.sha1`.
- Codec.ParseInt: models int() as an optional minus followed by ASCII digits. Python's int() also accepts surrounding whitespace, `_` between digits and a leading `+`. `bendecode.py`'s check lets such text through, so the model refuses some literals that the source accepts. In `decoder.py` the regex never produces such a token, so the model is exact there.
- Strict.AcceptedLiterals: holds for int() as Codec.ParseInt reads it. The literal check refuses neither `i+05e` nor `i 05e` nor `i1_0e`, and Python's int() reads them as 5, 5 and 10, so `bendecode.py` accepts those non-canonical literals too.
- Strict.Entries: refuses every key that is not a byte string. Python also stores an integer key, and the model does not.
- Lax.FromPairs: refuses every key that is not a byte string. Python stores an integer key and raises TypeError only for list and dictionary keys, so the model wrongly refuses integer keys. Keys are modelled as byte strings throughout.
- The `str` branch of `bendecode.py`'s encoder (bendecode.py:22-23): a decoded tree holds no `str`, so `main` never reaches it.
- `encode`'s TypeError for unsupported types, and `sorted` failing on mixed key types: the value tree holds only integers, byte strings, lists and byte-keyed dictionaries.
- Codec.Rest: after a pull that raised, a Python generator is finished and raises StopIteration next time, while the model raises the same exception again. Both decoders stop at the first exception, so they never pull again after one.
- Exception messages: only the exception class and the data that picks the error out are modelled, such as the offset, the refused literal or the token.
- AttributeError, which `decoder.py`'s `decode` also catches: none of the modelled code raises it.
- The regular-expression engine: `Lax.Lex` encodes the one pattern the tokenizer uses as its three alternatives. For latin-1 text, `\d` matches exactly the ASCII digits.
- Integer width: Python integers are unbounded, and so are the model's.
- Display before the info check in `bendecode.py` (bendecode.py:170-196): without `--json`, `main` walks `torrent.items()` before it looks for `info`. A torrent that is not a dictionary raises AttributeError there, and the command line at bendecode.py:246 does not catch it. Strict.InfoHashInput's InfoTypeError and MissingInfo outcomes for such torrents therefore hold only with `--json`.
- Recursion depth: `decode_item` recurses once per nesting level in both files, so Python raises RecursionError on deeply nested input, and neither command line catches it. The model decodes any depth.

## Findings

| source | as written | input that shows it | evidently intended | confidence | as-written member | corrected member |
|---|---|---|---|---|---|---|
| decoder.py:81-84 | `main` decodes the file as latin-1, and `encode` then writes every `str` as its UTF-8. Each byte from 0x80 up in the info dictionary reaches SHA-1 as two bytes, with its length prefix grown to match. | `d4:infod1:x1:\xffee` hashes `d1:x2:\xc3\xbfe`. Real torrents hit this through the binary `pieces` value. | hash the info dictionary's own bytes, `d1:x1:\xffe`, as `bendecode.py` does | high (not executed) | Lax.InfoHashCorrupted | Lax.InfoHashOfEncoding |
