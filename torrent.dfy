/**
  The `PyTorrent` object: the decoded torrent and the attributes `__init__`
  fills from it.  Reading the file is left to the caller, who passes the
  bytes it holds.
 */
module Torrent {
  import opened Wrappers
  import opened BValues
  import opened Decoder
  import opened Encoder
  import opened Metainfo
  import opened Tokens

  /** Why building a `PyTorrent` raises. */
  datatype InitError =
    | ParseFailed(parseError: ParseError)  // raised inside `parse`
    | ReadFailed(readError: MetaError)    // raised reading fields of the decoded value

  /** The attributes `__init__` sets from the decoded value. */
  datatype Attributes = Attributes(createdBy: BValue, creationDate: BValue, announce: BValue, files: BValue)

  /**
    Lines 37-46 of `__init__` on the decoded value `data`, in their order: the
    first lookup that raises decides the error.
   */
  function ReadAttributes(data: BValue): (r: Result<Attributes, MetaError>)
    ensures r.Ok? ==>
      && data.BDict?
      && Get(data.pairs, BStr(Ascii("created by"))) == Some(r.value.createdBy)
      && Get(data.pairs, BStr(Ascii("creation date"))) == Some(r.value.creationDate)
      && AnnounceTiers(data) == Ok(r.value.announce)
      && FileList(data) == Ok(r.value.files)
    ensures r.Err? ==>
      || Field(data, Ascii("created by")).Err?
      || Field(data, Ascii("creation date")).Err?
      || (data.BDict? && AnnounceTiers(data).Err?)
      || FileList(data).Err?
  {
    match Field(data, Ascii("created by"))
    case Err(e) => Err(e)
    case Ok(createdBy) =>
      match Field(data, Ascii("creation date"))
      case Err(e) => Err(e)
      case Ok(creationDate) =>
        match AnnounceTiers(data)
        case Err(e) => Err(e)
        case Ok(announce) =>
          match FileList(data)
          case Err(e) => Err(e)
          case Ok(files) => Ok(Attributes(createdBy, creationDate, announce, files))
  }

  /**
    What `PyTorrent(path)` makes of the bytes of the file, on an object whose
    `torrent_data` was `previous` before `parse` ran.
   */
  function Load(contents: seq<byte>, previous: BValue): Result<Attributes, InitError>
  {
    match Decode(contents)
    case Err(e) => Err(ParseFailed(e))
    case Ok(top) =>
      var data := if top.Stored? then top.value else previous;
      match ReadAttributes(data)
      case Err(e) => Err(ReadFailed(e))
      case Ok(attrs) => Ok(attrs)
  }

  /** The bencoding of a well-formed torrent is read the same whatever the object held before. */
  lemma LoadEncoded(v: BValue, previous: BValue)
    requires WellFormed(v)
    ensures Load(Encode(v), previous) ==
      match ReadAttributes(v)
      case Err(e) => Err(ReadFailed(e))
      case Ok(attrs) => Ok(attrs)
  {
    RoundTrip(v);
  }

  /**
    A buffer whose first token is a stray `e` stores nothing, so a new object
    still holds the empty class-level `torrent_data` and `created by` is missing.
   */
  lemma StrayEndLeavesDefault(s: seq<byte>)
    requires |s| > 0 && s[0] == END
    ensures Load(s, BDict([])) == Err(ReadFailed(MissingKey(Ascii("created by"))))
  {
    EndLetterCloses(s, 0, []);
  }

  class PyTorrent {
    var torFile: string
    var torrentData: BValue
    var createdBy: BValue
    var creationDate: BValue
    var announce: BValue
    var files: BValue

    /** The class-level attribute values, which an object has before `__init__` assigns its own. */
    constructor ()
      ensures torFile == "" && torrentData == BDict([])
      ensures createdBy == BStr([]) && creationDate == BStr([]) && announce == BStr([])
      ensures files == BDict([])
    {
      torFile := "";
      torrentData := BDict([]);
      createdBy := BStr([]);
      creationDate := BStr([]);
      announce := BStr([]);
      files := BDict([]);
    }

    /**
      `parse(string)` from cursor 0: the top-level call stores its first value
      in `torrent_data`; when it returns early at a stray `e`, or raises,
      `torrent_data` keeps what it held.
     */
    method Parse(s: seq<byte>) returns (r: Result<TopLevel, ParseError>)
      modifies this`torrentData
      ensures r == Decode(s)
      ensures torrentData == if r.Ok? && r.value.Stored? then r.value.value else old(torrentData)
    {
      var top := ParseScope(s, 0);
      match top
      case Err(e) =>
        r := Err(e);
      case Ok(Closed(next, items)) =>
        r := Ok(ReturnedEarly(next, items));
      case Ok(Exhausted(items)) =>
        if items == [] {
          r := Err(EmptyDocument);
        } else {
          torrentData := items[0];
          r := Ok(Stored(items[0]));
        }
    }

    /** `generateFileList`: `files` becomes the uniform file map, or the lookup raises. */
    method GenerateFileList() returns (r: Outcome<MetaError>)
      modifies this`files
      ensures FileList(torrentData).Ok? ==> r == Pass && files == FileList(torrentData).value
      ensures FileList(torrentData).Err? ==> r == Fail(FileList(torrentData).error) && files == old(files)
    {
      var list := FileList(torrentData);
      if list.Err? {
        return Fail(list.error);
      }
      files := list.value;
      return Pass;
    }

    /**
      `__init__(path)` given the bytes of the file: parse, copy `created by` and
      `creation date`, normalise the announce tiers and build the file map.
     */
    method Init(path: string, contents: seq<byte>) returns (r: Outcome<InitError>)
      modifies this
      ensures torFile == path
      ensures Decode(contents).Ok? ==>
        torrentData == if Decode(contents).value.Stored? then Decode(contents).value.value else old(torrentData)
      ensures r.Pass? <==> Load(contents, old(torrentData)).Ok?
      ensures r.Fail? ==> r.error == Load(contents, old(torrentData)).error
      ensures r.Pass? ==>
        Attributes(createdBy, creationDate, announce, files) == Load(contents, old(torrentData)).value
    {
      torFile := path;
      var parsed := Parse(contents);
      if parsed.Err? {
        return Fail(ParseFailed(parsed.error));
      }
      var created := Field(torrentData, Ascii("created by"));
      if created.Err? {
        return Fail(ReadFailed(created.error));
      }
      createdBy := created.value;
      var date := Field(torrentData, Ascii("creation date"));
      if date.Err? {
        return Fail(ReadFailed(date.error));
      }
      creationDate := date.value;
      var tiers := AnnounceTiers(torrentData);
      if tiers.Err? {
        return Fail(ReadFailed(tiers.error));
      }
      announce := tiers.value;
      var listed := GenerateFileList();
      if listed.Fail? {
        return Fail(ReadFailed(listed.error));
      }
      r := Pass;
    }
  }
}
