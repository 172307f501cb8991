/**
  What `PyTorrent.__init__` and `generateFileList` read out of the decoded
  torrent: the announce tiers of BEP 12 and one uniform `files` map for
  single-file and multi-file torrents.  Every Python exception these lines can
  raise on a decoded value is an error result.
 */
module Metainfo {
  import opened Wrappers
  import opened BValues
  import opened Tokens

  const SLASH: byte := 47   // '/'

  /** The exceptions raised while reading fields out of the decoded value. */
  datatype MetaError =
    | MissingKey(key: seq<byte>)    // KeyError: `key` is not in the dict
    | NotADict(key: seq<byte>)      // TypeError: a list, string or integer indexed by `key`
    | NotIterable(key: seq<byte>)   // TypeError: the integer under `key` is iterated
    | NotText(key: seq<byte>)       // TypeError: `'/'.join` meets an element that is not a string
    | UnhashableName                // TypeError: a list or dict `name` used as a dict key
    | UnformattedName               // a list or dict `name` formatted into a path (not modelled)

  /** `d[key]` for a text key. */
  function Field(d: BValue, key: seq<byte>): (r: Result<BValue, MetaError>)
    ensures r.Ok? <==> d.BDict? && Get(d.pairs, BStr(key)).Some?
    ensures r.Ok? ==> Get(d.pairs, BStr(key)) == Some(r.value)
  {
    if !d.BDict? then Err(NotADict(key))
    else match Get(d.pairs, BStr(key))
      case None => Err(MissingKey(key))
      case Some(x) => Ok(x)
  }

  /** `key in d` on a dict. */
  predicate Has(d: BValue, key: seq<byte>)
    requires d.BDict?
  {
    Get(d.pairs, BStr(key)).Some?
  }

  /**
    `self.torrent_data['announce-list'] if "announce-list" in self.torrent_data
    else [[self.torrent_data['announce']]]`: a list of tiers of trackers.
   */
  function AnnounceTiers(root: BValue): Result<BValue, MetaError>
    requires root.BDict?
  {
    if Has(root, Ascii("announce-list")) then Field(root, Ascii("announce-list"))
    else match Field(root, Ascii("announce"))
      case Err(e) => Err(e)
      case Ok(a) => Ok(BList([BList([a])]))
  }

  /**
    The tiers: `announce-list` unchanged when present, whatever `announce`
    holds; otherwise one tier holding the one tracker `announce`, and a
    KeyError when that is missing too.
   */
  lemma AnnounceTiersCases(root: BValue)
    requires root.BDict?
    ensures Get(root.pairs, BStr(Ascii("announce-list"))).Some? ==>
      AnnounceTiers(root) == Ok(Get(root.pairs, BStr(Ascii("announce-list"))).value)
    ensures Get(root.pairs, BStr(Ascii("announce-list"))).None? ==>
      match Get(root.pairs, BStr(Ascii("announce")))
      case None => AnnounceTiers(root) == Err(MissingKey(Ascii("announce")))
      case Some(a) => AnnounceTiers(root) == Ok(BList([BList([a])]))
  {
  }

  /**
    A torrent with only `announce` reads exactly as the same torrent with an
    `announce-list` of one tier holding that tracker.
   */
  lemma {:induction false} AnnounceLegacyForm(root: BValue, a: BValue)
    requires root.BDict?
    requires Get(root.pairs, BStr(Ascii("announce-list"))).None?
    requires Get(root.pairs, BStr(Ascii("announce"))) == Some(a)
    ensures AnnounceTiers(root) ==
      AnnounceTiers(BDict(Insert(root.pairs, BStr(Ascii("announce-list")), BList([BList([a])]))))
  {
    var tiers := BList([BList([a])]);
    InsertGet(root.pairs, BStr(Ascii("announce-list")), tiers, BStr(Ascii("announce-list")));
  }

  /** With `announce-list` present, changing or adding `announce` does not change the tiers. */
  lemma {:induction false} AnnounceListWins(root: BValue, a: BValue)
    requires root.BDict?
    requires Get(root.pairs, BStr(Ascii("announce-list"))).Some?
    ensures AnnounceTiers(root) == AnnounceTiers(BDict(Insert(root.pairs, BStr(Ascii("announce")), a)))
  {
    assert |Ascii("announce")| != |Ascii("announce-list")|;
    InsertGet(root.pairs, BStr(Ascii("announce")), a, BStr(Ascii("announce-list")));
  }

  /** `for f in x`: a list yields its elements, a dict its keys, a string its characters. */
  function Iterate(x: BValue, key: seq<byte>): Result<seq<BValue>, MetaError>
  {
    match x
    case BList(vs) => Ok(vs)
    case BDict(ps) => Ok(seq(|ps|, m requires 0 <= m < |ps| => ps[m].0))
    case BStr(b) => Ok(seq(|b|, m requires 0 <= m < |b| => BStr([b[m]])))
    case BInt(_) => Err(NotIterable(key))
  }

  /** The strings `'/'.join` receives from `f['path']`. */
  function TextParts(x: BValue): (r: Result<seq<seq<byte>>, MetaError>)
  {
    match Iterate(x, Ascii("path"))
    case Err(e) => Err(e)
    case Ok(items) =>
      if forall m :: 0 <= m < |items| ==> items[m].BStr?
      then Ok(seq(|items|, m requires 0 <= m < |items| => items[m].bytes))
      else Err(NotText(Ascii("path")))
  }

  /** `'/'.join(parts)`. */
  function Join(parts: seq<seq<byte>>): seq<byte>
  {
    if parts == [] then []
    else if |parts| == 1 then parts[0]
    else parts[0] + [SLASH] + Join(parts[1..])
  }

  /** `s.split('/')`: the pieces between slashes; there is always at least one. */
  function SplitOnSlash(b: seq<byte>): (r: seq<seq<byte>>)
    ensures |r| >= 1
  {
    if b == [] then [[]]
    else
      var rest := SplitOnSlash(b[1..]);
      if b[0] == SLASH then [[]] + rest else [[b[0]] + rest[0]] + rest[1..]
  }

  /** Bytes without a slash, then a slash, then more: the split starts with those bytes. */
  lemma {:induction false} SplitAfterPiece(a: seq<byte>, c: seq<byte>)
    requires SLASH !in a
    ensures SplitOnSlash(a + [SLASH] + c) == [a] + SplitOnSlash(c)
    ensures SplitOnSlash(a) == [a]
  {
    if a != [] {
      SplitAfterPiece(a[1..], c);
      assert (a + [SLASH] + c)[1..] == a[1..] + [SLASH] + c;
      assert [a[0]] + a[1..] == a;
    }
  }

  /** Splitting a join of slash-free pieces gives the pieces back. */
  lemma {:induction false} SplitJoin(parts: seq<seq<byte>>)
    requires parts != []
    requires forall m :: 0 <= m < |parts| ==> SLASH !in parts[m]
    ensures SplitOnSlash(Join(parts)) == parts
  {
    if |parts| == 1 {
      SplitAfterPiece(parts[0], []);
    } else {
      SplitJoin(parts[1..]);
      SplitAfterPiece(parts[0], Join(parts[1..]));
      assert [parts[0]] + parts[1..] == parts;
    }
  }

  /** `"{0}".format(name)`: a string as itself, an integer in decimal. */
  function NameText(name: BValue): Result<seq<byte>, MetaError>
  {
    match name
    case BStr(b) => Ok(b)
    case BInt(n) => Ok(SignedDigits(n))
    case _ => Err(UnformattedName)
  }

  /** One pair of the multi-file comprehension: `("{0}/{1}".format(name, '/'.join(f['path'])), f)`. */
  function FileEntry(name: BValue, f: BValue): Result<(BValue, BValue), MetaError>
  {
    match Field(f, Ascii("path"))
    case Err(e) => Err(e)
    case Ok(path) =>
      match TextParts(path)
      case Err(e) => Err(e)
      case Ok(parts) =>
        match NameText(name)
        case Err(e) => Err(e)
        case Ok(n) => Ok((BStr(n + [SLASH] + Join(parts)), f))
  }

  /**
    The key of an entry is the name, a slash and the joined path, and splitting
    it on slashes gives back the name and the path pieces when none of them
    holds a slash; the value is the `files` element itself.
   */
  lemma FileEntryKey(name: BValue, f: BValue)
    requires FileEntry(name, f).Ok?
    ensures FileEntry(name, f).value.1 == f
    ensures FileEntry(name, f).value.0.BStr?
    ensures var path := Field(f, Ascii("path")).value;
      var parts := TextParts(path).value;
      var n := NameText(name).value;
      && FileEntry(name, f).value.0.bytes == n + [SLASH] + Join(parts)
      && (parts != [] && SLASH !in n && (forall m :: 0 <= m < |parts| ==> SLASH !in parts[m]) ==>
            SplitOnSlash(FileEntry(name, f).value.0.bytes) == [n] + parts)
  {
    var path := Field(f, Ascii("path")).value;
    var parts := TextParts(path).value;
    var n := NameText(name).value;
    if parts != [] && SLASH !in n && (forall m :: 0 <= m < |parts| ==> SLASH !in parts[m]) {
      assert Join([n] + parts) == n + [SLASH] + Join(parts) by {
        assert ([n] + parts)[1..] == parts;
      }
      SplitJoin([n] + parts);
    }
  }

  /** The comprehension's pairs, one per element of `info['files']`, stopping at the first exception. */
  function FileEntries(name: BValue, fs: seq<BValue>): Result<seq<(BValue, BValue)>, MetaError>
  {
    if fs == [] then Ok([])
    else match FileEntry(name, fs[0])
      case Err(e) => Err(e)
      case Ok(p) =>
        match FileEntries(name, fs[1..])
        case Err(e) => Err(e)
        case Ok(rest) => Ok([p] + rest)
  }

  /** One pair per `files` element, in order, and an exception exactly when some element raises one. */
  lemma {:induction false} FileEntriesSpec(name: BValue, fs: seq<BValue>)
    ensures FileEntries(name, fs).Ok? <==> forall m :: 0 <= m < |fs| ==> FileEntry(name, fs[m]).Ok?
    ensures FileEntries(name, fs).Ok? ==>
      |FileEntries(name, fs).value| == |fs| &&
      forall m :: 0 <= m < |fs| ==> FileEntries(name, fs).value[m] == FileEntry(name, fs[m]).value
  {
    if fs != [] {
      FileEntriesSpec(name, fs[1..]);
      if FileEntry(name, fs[0]).Ok? && FileEntries(name, fs[1..]).Ok? {
        var r := FileEntries(name, fs).value;
        forall m | 0 < m < |fs| ensures r[m] == FileEntry(name, fs[m]).value {
          assert fs[1..][m - 1] == fs[m];
        }
      }
      if forall m :: 0 <= m < |fs| ==> FileEntry(name, fs[m]).Ok? {
        forall m | 0 <= m < |fs| - 1 ensures FileEntry(name, fs[1..][m]).Ok? {
          assert fs[1..][m] == fs[m + 1];
        }
      }
    }
  }

  /** The multi-file branch: `dict(...)` over the entries of `info['files']`. */
  function MultiFileList(info: BValue, name: BValue): Result<BValue, MetaError>
  {
    match Field(info, Ascii("files"))
    case Err(e) => Err(e)
    case Ok(files) =>
      match Iterate(files, Ascii("files"))
      case Err(e) => Err(e)
      case Ok(fs) =>
        match FileEntries(name, fs)
        case Err(e) => Err(e)
        case Ok(entries) => Ok(BDict(Build(entries)))
  }

  /**
    The multi-file map: its keys are distinct and are exactly the entry keys,
    and a path given by several entries keeps the last of them.
   */
  lemma MultiFileShape(info: BValue, name: BValue)
    requires MultiFileList(info, name).Ok?
    ensures var fs := Iterate(Field(info, Ascii("files")).value, Ascii("files")).value;
      var entries := FileEntries(name, fs).value;
      var files := MultiFileList(info, name).value;
      && files.BDict?
      && DistinctKeys(files.pairs)
      && Keys(files.pairs) == Keys(entries)
      && forall k :: Get(files.pairs, k) == LastValue(entries, k)
  {
    var fs := Iterate(Field(info, Ascii("files")).value, Ascii("files")).value;
    var entries := FileEntries(name, fs).value;
    BuildKeys(entries);
    forall k ensures Get(Build(entries), k) == LastValue(entries, k) {
      BuildLastWins(entries, k);
    }
  }

  /** `(key, info[key])` when `key in info`, else nothing; `shown` is the key the record uses. */
  function Copied(info: BValue, key: seq<byte>, shown: seq<byte>): seq<(BValue, BValue)>
    requires info.BDict?
  {
    if Has(info, key) then [(BStr(shown), Get(info.pairs, BStr(key)).value)] else []
  }

  /** The single-file record: `name` renamed to `path`, then `length` and `md5sum` when present. */
  function SingleRecord(info: BValue): seq<(BValue, BValue)>
    requires info.BDict?
  {
    Copied(info, Ascii("name"), Ascii("path"))
    + Copied(info, Ascii("length"), Ascii("length"))
    + Copied(info, Ascii("md5sum"), Ascii("md5sum"))
  }

  /** The single-file branch: `{ name: record }`. */
  function SingleFileList(info: BValue, name: BValue): Result<BValue, MetaError>
    requires info.BDict?
  {
    if Hashable(name) then Ok(BDict([(name, BDict(SingleRecord(info)))])) else Err(UnhashableName)
  }

  /**
    The single-file map has exactly one key, `name`; its record holds `path`
    equal to `name`, `length` and `md5sum` exactly when `info` has them and with
    their values, and no other key.
   */
  lemma SingleFileShape(info: BValue, name: BValue)
    requires info.BDict? && Get(info.pairs, BStr(Ascii("name"))) == Some(name)
    ensures SingleFileList(info, name).Ok? <==> Hashable(name)
    ensures SingleFileList(info, name).Ok? ==>
      var files := SingleFileList(info, name).value;
      && files.BDict? && Keys(files.pairs) == {name}
      && Get(files.pairs, name).Some? && Get(files.pairs, name).value.BDict?
      && var rec := Get(files.pairs, name).value.pairs;
      && DistinctKeys(rec)
      && Get(rec, BStr(Ascii("path"))) == Some(name)
      && Get(rec, BStr(Ascii("length"))) == Get(info.pairs, BStr(Ascii("length")))
      && Get(rec, BStr(Ascii("md5sum"))) == Get(info.pairs, BStr(Ascii("md5sum")))
      && forall k :: k in Keys(rec) ==>
           k == BStr(Ascii("path")) || k == BStr(Ascii("length")) || k == BStr(Ascii("md5sum"))
  {
    if Hashable(name) {
      var files := SingleFileList(info, name).value;
      assert forall p :: p in files.pairs ==> p == files.pairs[0];
      var rec := SingleRecord(info);
      var path, length, md5 := BStr(Ascii("path")), BStr(Ascii("length")), BStr(Ascii("md5sum"));
      assert |Ascii("path")| == 4 && |Ascii("length")| == 6 && |Ascii("md5sum")| == 6;
      assert Ascii("length") != Ascii("md5sum") by {
        assert Ascii("length")[0] != Ascii("md5sum")[0];
      }
      assert forall p :: p in rec ==> p.0 == path || p.0 == length || p.0 == md5;
      RecordGet(info, rec);
    }
  }

  /** The three keys of the single-file record are different. */
  lemma RecordKeysDiffer()
    ensures BStr(Ascii("path")) != BStr(Ascii("length"))
    ensures BStr(Ascii("path")) != BStr(Ascii("md5sum"))
    ensures BStr(Ascii("length")) != BStr(Ascii("md5sum"))
  {
    assert |Ascii("path")| == 4 && |Ascii("length")| == 6 && |Ascii("md5sum")| == 6;
    assert Ascii("length")[0] != Ascii("md5sum")[0];
  }

  /** Lookups in the single-file record. */
  lemma RecordGet(info: BValue, rec: seq<(BValue, BValue)>)
    requires info.BDict? && rec == SingleRecord(info)
    requires Has(info, Ascii("name"))
    ensures DistinctKeys(rec)
    ensures Get(rec, BStr(Ascii("path"))) == Get(info.pairs, BStr(Ascii("name")))
    ensures Get(rec, BStr(Ascii("length"))) == Get(info.pairs, BStr(Ascii("length")))
    ensures Get(rec, BStr(Ascii("md5sum"))) == Get(info.pairs, BStr(Ascii("md5sum")))
  {
    var path, length, md5 := BStr(Ascii("path")), BStr(Ascii("length")), BStr(Ascii("md5sum"));
    RecordKeysDiffer();
    var a := Copied(info, Ascii("name"), Ascii("path"));
    var b := Copied(info, Ascii("length"), Ascii("length"));
    var c := Copied(info, Ascii("md5sum"), Ascii("md5sum"));
    assert rec == a + (b + c);
    RecordDistinct(a, b, c);
    GetConcat(a, b + c, path);
    GetConcat(a, b + c, length);
    GetConcat(b, c, length);
    GetConcat(a, b + c, md5);
    GetConcat(b, c, md5);
  }

  /** Three runs of at most one pair each, with three different keys, have distinct keys. */
  lemma RecordDistinct(a: seq<(BValue, BValue)>, b: seq<(BValue, BValue)>, c: seq<(BValue, BValue)>)
    requires |a| <= 1 && |b| <= 1 && |c| <= 1
    requires forall p :: p in a ==> p.0 == BStr(Ascii("path"))
    requires forall p :: p in b ==> p.0 == BStr(Ascii("length"))
    requires forall p :: p in c ==> p.0 == BStr(Ascii("md5sum"))
    ensures DistinctKeys(a + (b + c))
  {
    RecordKeysDiffer();
    var d := a + (b + c);
    forall x, y | 0 <= x < y < |d| ensures d[x].0 != d[y].0 {
      if x < |a| {
        assert d[x] in a;
        if y < |a| + |b| { assert d[y] in b; } else { assert d[y] in c; }
      } else {
        assert d[x] in b && d[y] in c;
      }
    }
  }

  /**
    `generateFileList` on the decoded torrent: `info['name']`, then the
    multi-file map when `info` has `files`, else the single-file map.
   */
  function FileList(root: BValue): (r: Result<BValue, MetaError>)
    ensures r.Ok? ==> Field(root, Ascii("info")).Ok? && Field(Field(root, Ascii("info")).value, Ascii("name")).Ok?
  {
    match Field(root, Ascii("info"))
    case Err(e) => Err(e)
    case Ok(info) =>
      match Field(info, Ascii("name"))
      case Err(e) => Err(e)
      case Ok(name) =>
        if Has(info, Ascii("files")) then MultiFileList(info, name) else SingleFileList(info, name)
  }
}
