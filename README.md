# pytorrent in Dafny

This project models the `PyTorrent` class of `pytorrent.py`. The class reads a
bencoded `.torrent` file, as described in BEP 3 (The BitTorrent Protocol
Specification), and exposes four things:

- the `created by` field;
- the `creation date` field;
- the announce tiers, as in BEP 12 (Multitracker Metadata Extension);
- a `files` map with the same shape for single-file and multi-file torrents.

The model has seven modules:

- `BValues` (`bvalue.dfy`) holds the decoded values. A Python `dict` is a
  sequence of pairs with distinct keys, kept in insertion order. `d[k] = v`
  overwrites the value of a key in place or appends the pair (`Insert`).
  `dict(pairs)` inserts the pairs from left to right (`Build`). The lemmas
  relate `Build` to a reference definition: the last pair with a given key wins.
- `Tokens` (`tokens.dfy`) is the regular expression `([idle])|(\d+):|(-?\d+)`,
  matched byte by byte (`MatchToken`), and `int()` of a digit run.
- `Decoder` (`decoder.dfy`) is `parse`. `Scan` is the specification of one
  call: the loop written as a recursive function over the cursor.
  `ParseScope` is the recursive method with the `while` loop, and it is proved
  equal to `Scan`. `Decode` is the top-level call. These inputs, on which the
  Python code raises, become a `ParseError`:
  - no token matches;
  - a nested scope runs off the end;
  - a dict key is a list or dict;
  - nothing was decoded.

  The interpreter's own limits, which make Python raise on some other inputs,
  are listed under "Left out".
- `Encoder` (`encoder.dfy`) is the BEP 3 encoding, the partner of `Decode`.
  The lemmas prove that decoding an encoded well-formed value gives the value
  back.
- `Metainfo` (`metainfo.dfy`) covers the announce tiers and `generateFileList`.
  Every `KeyError` or `TypeError` these lines can raise becomes a `MetaError`.
- `Torrent` (`torrent.dfy`) is the `PyTorrent` class. Its fields are updated
  by `Parse`, `GenerateFileList` and `Init`, and `Init` is proved against the
  pure reading `Load`.
- `Quirks` (`quirks.dfy`) holds concrete buffers on which the reader's
  unusual choices show.

The file contents are a parameter of `Init`, as a byte sequence. The path is
only stored.

## Model

| member | source | states |
|---|---|---|
| `Decoder.ParseScope` | pytorrent.py:74-97 | One call of `parse` from a cursor. The result is what the loop specification `Scan` gives. The cases are: returned at `e` with the cursor past it; ran to the end of the buffer; or raised. |
| `Decoder.Decode` | pytorrent.py:98 | The empty buffer is an `EmptyDocument` error, because `result[0]` fails. |
| `Decoder.Slice` | pytorrent.py:92 | `string[a:b]` is never longer than `b - a`, and it is exact when `b` is inside the buffer. |
| `Decoder.SliceClipped` | pytorrent.py:92 | `string[a:b]` with `b` past the end is the rest of the buffer from `a`. Its length is `min(b, len) - a`, and element k is the byte at `a + k`. |
| `Decoder.EndLetterCloses` | pytorrent.py:89-90 | `e` returns the cursor just past it and the elements collected so far. |
| `Decoder.ListLetterNests` | pytorrent.py:84-88 | `l` recurses, and the nested elements are appended as one list. The loop resumes where the nested call stopped. |
| `Decoder.DictLetterNests` | pytorrent.py:84-88 | `d` recurses, and the paired dict is appended. The loop resumes where the nested call stopped. |
| `Decoder.DictScope` | pytorrent.py:86-88 | A `d` scope with hashable keys: pair m is elements 2m and 2m+1, an unpaired last element is dropped, keys are distinct, and each key holds its last value. |
| `Decoder.IntLetterIsNoOp` | pytorrent.py:83-90 | The letter `i` is consumed and changes nothing. |
| `Decoder.IntegerToken` | pytorrent.py:94-96 | `i<digits>` and `i-<digits>` append the signed value of the digits. The cursor moves one byte past the digits, whatever that byte is. |
| `Decoder.StringToken` | pytorrent.py:91-93 | `<n>:` appends the next n bytes and moves the cursor n bytes past the colon. When fewer than n bytes remain, it appends the rest of the buffer. |
| `Tokens.MatchTokenCases` | pytorrent.py:74 | The alternatives are tried in order. There is no match exactly when the byte is not a letter of `[idle]`, not a digit, and not `-` followed by a digit. A letter is a one-byte control token. |
| `Tokens.MatchLengthPrefix` | pytorrent.py:74 | A digit run followed by `:` is a length prefix with the value of the digits. The match ends after the colon. |
| `Tokens.MatchNonNegative` | pytorrent.py:74 | A digit run not followed by `:` is an integer token. The match ends after the digits. |
| `Tokens.MatchNegative` | pytorrent.py:74 | `-` followed by a digit run is a negative integer token, whatever follows the digits. |
| `Tokens.DigitsRoundTrip` | pytorrent.py:92-95 | `int(str(n)) == n` for the digit reading used by `int(m_str)`. |
| `Tokens.SignedDigitsSign` | pytorrent.py:59 | `str(n)` of an integer, as `SignedDigits` renders it for both the encoder and a numeric `name`, is never empty, and it starts with `-` exactly when `n` is negative. |
| `Tokens.DigitRun` | pytorrent.py:74 | The greedy `\d+` consumes only digits. |
| `BValues.BuildLastWins` | pytorrent.py:87 | In `dict(pairs)`, each key reads as the value of its last pair. |
| `BValues.BuildKeys` | pytorrent.py:87 | `dict(pairs)` has distinct keys, and they are exactly the keys of the pairs. |
| `BValues.BuildDistinct` | pytorrent.py:87 | Pairs whose keys are already distinct come out unchanged and in order. |
| `BValues.InsertGet` | pytorrent.py:87 | After `d[k] = v`, `k` reads as `v` and every other key reads as before. |
| `BValues.InsertPosition` | pytorrent.py:87 | A new key is appended at the end. An existing key keeps its position. |
| `BValues.InsertKeys` | pytorrent.py:87 | `d[k] = v` adds `k` to the keys and keeps the keys distinct. |
| `BValues.PairsAt` | pytorrent.py:87 | `zip(r[0::2], r[1::2])` has `len(r) // 2` pairs, and pair m is `(r[2m], r[2m+1])`. |
| `BValues.PairsFlatten` | pytorrent.py:87 | Pairing the flat key/value sequence gives the pairs back. |
| `BValues.MakeDictSpec` | pytorrent.py:87 | The dict exists exactly when every paired key is hashable. It then has distinct keys, the paired keys, and the last value of each key. |
| `BValues.GetConcat` | pytorrent.py:68-70 | A lookup in pairs followed by more pairs finds the first part's value first. |
| `Encoder.RoundTrip` | pytorrent.py:74-98 | Decoding the bencoding of a well-formed value stores that value. |
| `Encoder.FirstValueKept` | pytorrent.py:79-98 | Of several encoded values in one buffer, the top level stores the first. |
| `Encoder.ScanEncoded` | pytorrent.py:79-96 | An encoded value in the buffer is read as that value, and the cursor moves past its encoding. |
| `Encoder.ListScopeReturns` | pytorrent.py:84-90 | The nested call opened by an encoded list returns at the list's `e` with the list's elements. |
| `Encoder.DictScopeReturns` | pytorrent.py:84-90 | The nested call opened by an encoded dict returns at its `e` with key, value, key, value ... |
| `Encoder.DictOfFlattened` | pytorrent.py:87 | Pairing the elements of an encoded dict with string keys rebuilds that dict. |
| `Encoder.ScanEncodedList` | pytorrent.py:79-96 | Values encoded one after another are appended in order. |
| `Encoder.ScanEncodedPairs` | pytorrent.py:79-96 | Encoded pairs are appended as key, value, key, value ... |
| `Encoder.ScanEncodedString` | pytorrent.py:91-93 | An encoded byte string is read back exactly. |
| `Encoder.ScanEncodedInteger` | pytorrent.py:94-96 | An encoded integer, negative or not, is read back exactly. |
| `Metainfo.Field` | pytorrent.py:37-38 | `d[key]` succeeds exactly when `d` is a dict holding `key`, and it gives the stored value. |
| `Metainfo.AnnounceTiersCases` | pytorrent.py:42-44 | `announce-list` is used unchanged when present. Otherwise there is one tier holding `announce`, or a KeyError when `announce` is missing. |
| `Metainfo.AnnounceLegacyForm` | pytorrent.py:42-44 | A torrent with only `announce` reads the same as one whose `announce-list` is the single tier `[[announce]]`. |
| `Metainfo.AnnounceListWins` | pytorrent.py:42-44 | With `announce-list` present, changing or adding `announce` does not change the tiers. |
| `Metainfo.SplitOnSlash` | pytorrent.py:59 | Splitting on `/` always gives at least one piece. |
| `Metainfo.SplitJoin` | pytorrent.py:59 | Splitting `'/'.join(parts)` gives the parts back when none of them holds a slash. |
| `Metainfo.FileEntryKey` | pytorrent.py:59-60 | A multi-file entry maps `name/joined path` to the `files` element itself. Splitting the key gives back the name and the path pieces. |
| `Metainfo.FileEntriesSpec` | pytorrent.py:59-60 | There is one entry per `files` element, in order. An exception occurs exactly when some element raises one. |
| `Metainfo.MultiFileShape` | pytorrent.py:58-60 | The multi-file map has distinct keys, exactly the entry keys, and a path given twice keeps its last entry. |
| `Metainfo.SingleFileShape` | pytorrent.py:61-70 | The single-file map exists exactly when `name` is hashable, and its one key is `name`. The record maps `path` to `name`, and holds `length` and `md5sum` exactly as `info` does. It has no other key. |
| `Metainfo.RecordGet` | pytorrent.py:67-70 | The record's keys are distinct. `path` reads as `info['name']`, and `length` and `md5sum` read as in `info`. |
| `Metainfo.FileList` | pytorrent.py:56-58 | A file map exists only when `info` and `info['name']` can be read. |
| `Torrent.ReadAttributes` | pytorrent.py:37-46 | The attributes are `created by`, `creation date`, the announce tiers and the file map of the decoded value. Failure means one of these reads raised. |
| `Torrent.LoadEncoded` | pytorrent.py:30-46 | A well-formed encoded torrent reads as its own attributes, whatever the object held before. |
| `Torrent.StrayEndLeavesDefault` | pytorrent.py:89-98 | Every buffer that starts with a stray `e` stores nothing. The empty class-level `torrent_data` remains, so `created by` is missing. |
| `Torrent.PyTorrent.constructor` | pytorrent.py:22-28 | The class-level defaults, which an object has before `__init__` assigns its own. |
| `Torrent.PyTorrent.Parse` | pytorrent.py:74-98 | The result is `Decode` of the buffer. `torrent_data` changes only when a first value was stored. |
| `Torrent.PyTorrent.GenerateFileList` | pytorrent.py:51-70 | `files` becomes the file map, or the call raises and `files` keeps its value. |
| `Torrent.PyTorrent.Init` | pytorrent.py:30-46 | The path is kept. `Init` succeeds exactly when `Load` of the contents does, and then the four attributes are `Load`'s. On failure it raises `Load`'s error. |
| `Quirks.IntegerTerminatorUnchecked` | pytorrent.py:94-96 | `i42x` decodes to 42: the byte after the digits is skipped without being checked. |
| `Quirks.BareDigitsAreInteger` | pytorrent.py:74-96 | `42` without `i` decodes to 42. |
| `Quirks.RepeatedKeyScope` | pytorrent.py:84-90 | The scope of `d1:ai1e1:ai2ee` yields `a`, 1, `a`, 2 and closes at the final `e`, index 13, with the cursor at 14. The `e` at index 12 is the byte skipped after the integer 2. |
| `Quirks.RepeatedKeyDict` | pytorrent.py:87 | Pairing `a`, 1, `a`, 2 keeps only `a: 2`. |
| `Quirks.RepeatedKeyLastWins` | pytorrent.py:84-98 | `d1:ai1e1:ai2ee` decodes to the dict `{a: 2}`. |

## Left out

- Reading the file is not modelled. `os.path.getsize` and `open(...).read` become the `contents` parameter of `Init`, and the path is only stored.
- The file is read in text mode. The model reads bytes, one character per byte, and ignores text decoding.
- In text mode, `\d` also matches non-ASCII digits. The model accepts only ASCII `0`-`9`.
- The regular-expression engine is not modelled. `MatchToken` states the same matches directly.
- When a nested scope reaches the end of the buffer after collecting at least one element, the nested call assigns its first element to `torrent_data` before its caller raises. When it collected nothing, `result[0]` raises first and nothing is assigned. The model only records the error in both cases, because the exception escapes `__init__`.
- The recursion limit is not modelled. `parse` calls itself once per `d` or `l`, so CPython raises `RecursionError` on nesting deeper than about 1000, while the model decodes any depth.
- The limit on integer conversion is not modelled. From Python 3.11 on, `int(m_str)` raises `ValueError` on a run of more than 4300 digits, while the model reads any number of digits.
- Torrent.PyTorrent.Init: on failure, the contract does not state the attributes assigned before the failing line.
- Metainfo.NameText: a list or dict `name` would be formatted with its Python `repr`. The model returns `UnformattedName` instead.
- `__del__` does nothing and `__all__` only lists the class, so neither is modelled.
