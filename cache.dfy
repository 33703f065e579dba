/** The show-info cache of libs/cache.py: one pickle file per show in the
    add-on's cache directory, named after the show's id, holding the record
    wrapped in the envelope `{'show_info': record}`.

    The pure functions `Store` and `Load` say what caching a record and
    loading one do to and with the directory's files; the class
    `ShowInfoCache` is the module's process state (the directory `CACHE_DIR`
    and the file system it lives on), with the three operations of the
    source as methods proved against those functions. */
module Cache {
  import opened Python

  /** A show-info record: a dict from string keys to values. */
  type Record = map<string, Value>

  /** What `pickle.load` makes of a cache file. */
  datatype Unpickled =
    | Dict(entries: map<string, Record>)   // a dict; the envelope the cache writes is one
    | Unsubscriptable                      // an object that cannot be subscripted by a string:
                                           // a list, a string, a number, None, ...

  /** The bytes of one file, known by what reading and unpickling them does. */
  datatype Blob =
    | Pickled(obj: Unpickled)   // a complete pickle of `obj`
    | Unreadable(error: Exc)    // bytes on which reading or `pickle.load` raises `error`
                                // (a zero-length file raises EOFError, garbage UnpicklingError)

  /** The files of the cache directory, by file name. */
  type Files = map<string, Blob>

  /** A debug line the cache passes to the add-on's logger. */
  datatype LogEntry =
    | CacheDirIs(path: string)   // 'the cache dir is ' + path
    | CacheMessage(error: Exc)   // 'Cache message: ' + type and text of the absorbed exception

  const EnvelopeKey := "show_info"
  const Extension := ".pickle"
  const IdKey := "id"

  /** `path.join(translatePath('special://temp'), 'scrapers', <add-on id>)`:
      for a relative add-on id, the temp directory, a '/' unless the temp
      directory is empty or already ends in one, "scrapers", a '/', and the
      add-on id; an absolute add-on id replaces the whole path. */
  function CacheDirPath(tempDir: string, addonId: string): (p: string)
    ensures (|addonId| == 0 || addonId[0] != '/') ==>
              p == SeparatedFrom(tempDir) + "scrapers/" + addonId
    ensures |addonId| > 0 && addonId[0] == '/' ==> p == addonId
  {
    Join(Join(tempDir, "scrapers"), addonId)
  }

  /** `dir` followed by a path separator, unless it is empty or already ends in one. */
  function SeparatedFrom(dir: string): string
  {
    if dir == [] || dir[|dir| - 1] == '/' then dir else dir + "/"
  }

  /** The name of the file that holds the show with id `showId`. */
  function FileName(showId: Value): string
  {
    Str(showId) + Extension
  }

  /** Two ids name the same file exactly when they print the same. */
  lemma FileNameIff(a: Value, b: Value)
    ensures FileName(a) == FileName(b) <==> Str(a) == Str(b)
  {
    if FileName(a) == FileName(b) {
      assert Str(a) == FileName(a)[..|FileName(a)| - |Extension|];
    }
  }

  /** Shows with distinct integer ids are kept in distinct files. */
  lemma DistinctIntIdsDistinctFiles(a: int, b: int)
    ensures FileName(Int(a)) == FileName(Int(b)) <==> a == b
  {
    FileNameIff(Int(a), Int(b));
    IntToDecimalInjective(a, b);
  }

  /** The envelope `{'show_info': record}` that is pickled. */
  function Envelope(record: Record): Unpickled
  {
    Dict(map[EnvelopeKey := record])
  }

  /** `pickle.load(fo, encoding='bytes')` on a file holding `b`. */
  function Unpickle(b: Blob): Outcome<Unpickled>
  {
    match b
    case Pickled(obj) => Ok(obj)
    case Unreadable(e) => Raised(e)
  }

  /** `cache['show_info']` on the unpickled object. */
  function Unwrap(obj: Unpickled): Outcome<Record>
  {
    match obj
    case Dict(entries) => if EnvelopeKey in entries then Ok(entries[EnvelopeKey]) else Raised(KeyError)
    case Unsubscriptable => Raised(TypeError)
  }

  /** The body of the `try` in `load_show_info_from_cache`: open the file
      named `name`, unpickle it and unwrap the envelope, or the exception one
      of those steps raises. A missing file raises FileNotFoundError, an IOError. */
  function Read(files: Files, name: string): Outcome<Record>
  {
    if name !in files then Raised(IOError)
    else
      match Unpickle(files[name])
      case Raised(e) => Raised(e)
      case Ok(obj) => Unwrap(obj)
  }

  /** The exceptions `except (IOError, PickleError)` catches. */
  predicate Absorbed(e: Exc)
  {
    e.IOError? || e.PickleError?
  }

  /** `load_show_info_from_cache(showId)`: the cached record, `None` when the
      read raised IOError or PickleError, or the exception it raised otherwise. */
  function Load(files: Files, showId: Value): (r: Outcome<Option<Record>>)
    ensures r.Raised? ==> !Absorbed(r.error)
    ensures r.Ok? && r.value.Some? ==> FileName(showId) in files && files[FileName(showId)].Pickled?
  {
    match Read(files, FileName(showId))
    case Ok(record) => Ok(Some(record))
    case Raised(e) => if Absorbed(e) then Ok(None) else Raised(e)
  }

  /** The debug lines a load with this outcome of the read logs: one for an
      absorbed exception, none otherwise. */
  function LoadLog(read: Outcome<Record>): seq<LogEntry>
  {
    if read.Raised? && Absorbed(read.error) then [CacheMessage(read.error)] else []
  }

  /** `cache_show_info(record)`: the files afterwards, or KeyError when the
      record has no 'id'. Only the file named after the id is (over)written. */
  function Store(files: Files, record: Record): (r: Outcome<Files>)
    ensures r.Ok? <==> IdKey in record
    ensures r.Raised? ==> r.error == KeyError
    ensures r.Ok? ==> r.value.Keys == files.Keys + {FileName(record[IdKey])}
    ensures r.Ok? ==> forall name :: name in files && name != FileName(record[IdKey]) ==>
                        r.value[name] == files[name]
    ensures r.Ok? ==> Read(r.value, FileName(record[IdKey])) == Ok(record)
  {
    if IdKey !in record then Raised(KeyError)
    else Ok(files[FileName(record[IdKey]) := Pickled(Envelope(record))])
  }

  // ---------------------------------------------------------------------------
  // Properties of storing and loading

  /** Round trip: a stored record is loaded back, both by its id and by the
      id's text (the show ID a caller passes to the loader is a string). */
  lemma StoreThenLoad(files: Files, record: Record)
    requires IdKey in record
    ensures Store(files, record).Ok?
    ensures Load(Store(files, record).value, record[IdKey]) == Ok(Some(record))
    ensures Load(Store(files, record).value, Text(Str(record[IdKey]))) == Ok(Some(record))
  {
    assert FileName(Text(Str(record[IdKey]))) == FileName(record[IdKey]);
  }

  /** Last write wins: caching a second record under the same file name
      leaves the files as if only the second had been cached. */
  lemma LastStoreWins(files: Files, first: Record, second: Record)
    requires IdKey in first && IdKey in second
    requires Str(first[IdKey]) == Str(second[IdKey])
    ensures Store(Store(files, first).value, second) == Store(files, second)
    ensures Load(Store(Store(files, first).value, second).value, first[IdKey]) == Ok(Some(second))
  {
    var name := FileName(second[IdKey]);
    assert FileName(first[IdKey]) == name;
    var after := Store(Store(files, first).value, second).value;
    assert after == files[name := Pickled(Envelope(second))];
    assert Read(after, name) == Ok(second);
  }

  /** Caching a record changes what loading any other show id gives in no way. */
  lemma StoreKeepsOtherShows(files: Files, record: Record, showId: Value)
    requires IdKey in record
    requires Str(showId) != Str(record[IdKey])
    ensures Load(Store(files, record).value, showId) == Load(files, showId)
  {
    FileNameIff(showId, record[IdKey]);
  }

  /** A show that was never cached loads as `None`, after logging the
      FileNotFoundError (an IOError) that opening its file raised. */
  lemma LoadMissing(files: Files, showId: Value)
    requires FileName(showId) !in files
    ensures Load(files, showId) == Ok(None)
    ensures LoadLog(Read(files, FileName(showId))) == [CacheMessage(IOError)]
  {
  }

  /** A file that cannot be read or unpickled loads as `None` (with one
      debug line) exactly when the exception is an IOError or a PickleError;
      any other exception, such as the EOFError of an empty file, propagates. */
  lemma LoadUnreadable(files: Files, showId: Value, e: Exc)
    requires FileName(showId) in files && files[FileName(showId)] == Unreadable(e)
    ensures Absorbed(e) ==> Load(files, showId) == Ok(None)
    ensures Absorbed(e) ==> LoadLog(Read(files, FileName(showId))) == [CacheMessage(e)]
    ensures !Absorbed(e) ==> Load(files, showId) == Raised(e)
    ensures !Absorbed(e) ==> LoadLog(Read(files, FileName(showId))) == []
  {
  }

  /** A pickled object that is not the envelope makes the load raise:
      KeyError for a dict without 'show_info', TypeError for an object that
      cannot be subscripted by a string. */
  lemma LoadForeignPickle(files: Files, showId: Value, obj: Unpickled)
    requires FileName(showId) in files && files[FileName(showId)] == Pickled(obj)
    requires !(obj.Dict? && EnvelopeKey in obj.entries)
    ensures Load(files, showId) == Raised(if obj.Dict? then KeyError else TypeError)
  {
  }

  /** A worked example. Show 12345 is cached and loaded back by the string
      id "12345"; show 99999 was never cached and loads as `None`; once the
      file of show 12345 is truncated to zero bytes, `pickle.load` raises
      EOFError, which the loader does not catch. */
  lemma CachedShowExample()
    ensures var show := map[IdKey := Int(12345), "name" := Text("Show A")];
            var files := Store(map[], show).value;
            && Load(files, Text("12345")) == Ok(Some(show))
            && Load(files, Text("99999")) == Ok(None)
            && Load(files[FileName(Text("12345")) := Unreadable(EOFError)], Text("12345")) == Raised(EOFError)
  {
    var show := map[IdKey := Int(12345), "name" := Text("Show A")];
    assert NatToDecimal(1) == "1";
    assert NatToDecimal(12) == "12";
    assert NatToDecimal(123) == "123";
    assert NatToDecimal(1234) == "1234";
    assert NatToDecimal(12345) == "12345";
    assert FileName(show[IdKey]) == FileName(Text("12345"));
    StoreThenLoad(map[], show);
    assert FileName(Text("99999"))[0] != FileName(Text("12345"))[0];
  }

  // ---------------------------------------------------------------------------
  // The module's state

  /** The cache module as it runs: the directories of the file system, the
      cache directory `CACHE_DIR` chosen at import, the files in it, and the
      debug lines logged so far. */
  class ShowInfoCache {
    var dirs: set<string>
    var cacheDir: string
    var files: Files
    ghost var debugLog: seq<LogEntry>

    /** Importing the module: `CACHE_DIR = _get_cache_directory()`, on a
        file system with directories `dirs` whose cache directory, if it
        exists already, holds `files`. */
    constructor Import(tempDir: string, addonId: string, dirs: set<string>, files: Files)
      requires CacheDirPath(tempDir, addonId) !in dirs ==> files == map[]
      ensures cacheDir == CacheDirPath(tempDir, addonId)
      ensures this.dirs == dirs + {cacheDir}
      ensures this.files == files
      ensures debugLog == [CacheDirIs(cacheDir)]
    {
      this.dirs := dirs;
      this.files := files;
      cacheDir := "";
      debugLog := [];
      new;
      cacheDir := GetCacheDirectory(tempDir, addonId);
    }

    /** `_get_cache_directory()`: the directory's path, created when it does
        not exist. Repeating it returns the same path and creates nothing. */
    method GetCacheDirectory(tempDir: string, addonId: string) returns (dir: string)
      modifies this`dirs, this`debugLog
      ensures dir == CacheDirPath(tempDir, addonId)
      ensures dirs == old(dirs) + {dir}
      ensures old(dir in dirs) ==> dirs == old(dirs)
      ensures debugLog == old(debugLog) + [CacheDirIs(dir)]
    {
      var tempRoot := tempDir;                       // translatePath('special://temp')
      dir := Join(Join(tempRoot, "scrapers"), addonId);
      if dir !in dirs {
        dirs := dirs + {dir};                        // mkdir(cache_dir)
      }
      debugLog := debugLog + [CacheDirIs(dir)];
    }

    /** `cache_show_info(showInfo)`: overwrite the file named after the id
        with the pickled envelope; KeyError, and no write, without an id. */
    method CacheShowInfo(showInfo: Record) returns (outcome: Outcome<()>)
      modifies this`files
      ensures outcome.Ok? <==> Store(old(files), showInfo).Ok?
      ensures outcome.Raised? ==> outcome.error == KeyError && files == old(files)
      ensures outcome.Ok? ==> files == Store(old(files), showInfo).value
    {
      if IdKey !in showInfo {
        return Raised(KeyError);
      }
      var fileName := Str(showInfo[IdKey]) + Extension;
      var cache := Dict(map[EnvelopeKey := showInfo]);
      files := files[fileName := Pickled(cache)];   // open(..., 'wb'); dump(cache, fo, protocol=2)
      outcome := Ok(());
    }

    /** `load_show_info_from_cache(showId)`: never changes the files; logs
        one debug line exactly when it returns `None`. */
    method LoadShowInfoFromCache(showId: Value) returns (result: Outcome<Option<Record>>)
      modifies this`debugLog
      ensures files == old(files)
      ensures result == Load(files, showId)
      ensures debugLog == old(debugLog) + LoadLog(Read(files, FileName(showId)))
      ensures |debugLog| == |old(debugLog)| + (if result == Ok(None) then 1 else 0)
    {
      var fileName := Str(showId) + Extension;
      var attempt: Outcome<Record>;
      if fileName !in files {
        attempt := Raised(IOError);                  // open(..., 'rb') raises FileNotFoundError
      } else {
        match Unpickle(files[fileName])
        case Raised(e) =>
          attempt := Raised(e);
        case Ok(cache) =>
          attempt := Unwrap(cache);                  // cache['show_info']
      }
      match attempt
      case Ok(showInfo) =>
        result := Ok(Some(showInfo));
      case Raised(e) =>
        if e.IOError? || e.PickleError? {
          debugLog := debugLog + [CacheMessage(e)];
          result := Ok(None);
        } else {
          result := Raised(e);
        }
    }
  }
}
