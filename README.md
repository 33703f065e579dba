# Show-info cache and trailer log of a Kodi TV-show scraper, in Dafny

This project models the two stateful pieces of the scraper add-on's `libs`
package and proves properties about them.

- **The show-info cache** (`libs/cache.py`). Each show's info record is
  stored as one pickle file, `str(id) + '.pickle'`, in the add-on's cache
  directory `<temp>/scrapers/<add-on id>`. The record is wrapped in the
  envelope `{'show_info': record}`. Loading a show derives the same file
  name from the show id and unwraps the envelope. A load returns `None`, and
  logs one debug line, only when reading raises `IOError` or `PickleError`.
  Every other exception propagates.
- **`safe_get`** (`libs/utils.py`). A dict lookup with a default. A key that
  holds `None` counts as missing.
- **The line-update rule of `trailer_log`** (`libs/utils.py`). The log file
  is read as lines. The first line that mentions the title is replaced by
  `key + msg + title + '\n'` unless it already holds the message. When no
  line mentions the title, that entry is appended.

Modules, one per file:

- `Python` (`python.dfy`): the runtime behaviour the two files rely on.
  This covers `None`, the exceptions the cache tells apart, `str()` of record
  values (decimal notation of ints included), `os.path.join` on POSIX, the
  substring test `sub in s`, `readlines()` (cut after every `'\n'`,
  terminators kept) and `"".join(lines)`.
- `Cache` (`cache.dfy`): `libs/cache.py`. The cache directory's files are a
  map from file name to an abstract blob. A blob is either a complete pickle
  of an object or bytes on which reading raises a given exception. The pure
  functions `Store` and `Load` specify the two operations. The class
  `ShowInfoCache` holds the module's process state: the directories of the
  file system, `CACHE_DIR`, the files, and the debug lines logged. Its
  methods `GetCacheDirectory`, `CacheShowInfo` and `LoadShowInfoFromCache`
  follow the source step by step. They are proved against `CacheDirPath`,
  `Store` and `Load` respectively.
- `Utils` (`utils.dfy`): `libs/utils.py`. `SafeGet` is a function. The log
  file is the class `TrailerLogFile`, whose `contents` field is the file's
  text. Its method `TrailerLog` reads the lines and scans them with a `found`
  flag and an early `break`. It then rewrites or appends, and it is proved
  against the function `TrailerLogged`.

A load does not absorb every exception. Only `IOError` and `PickleError`
are caught:

- `pickle.load` on a file truncated to zero bytes raises `EOFError`, which
  propagates (`Cache.CachedShowExample`, `Cache.LoadUnreadable`).
- An envelope without `'show_info'` raises `KeyError`, which also
  propagates (`Cache.LoadForeignPickle`).

## Model

| member | source | states |
|---|---|---|
| `Python.IntToDecimalInjective` | libs/cache.py:49 | `str()` of two ints is the same text exactly when the ints are equal |
| `Python.NatToDecimal` | libs/cache.py:49 | `str()` of a non-negative int is a non-empty string of digits with no leading zero |
| `Python.DecimalValueOfNatToDecimal` | libs/cache.py:49 | reading back the digits `str()` writes for a non-negative int gives the int |
| `Python.Join` | libs/cache.py:34 | `path.join(a, b)`: an absolute `b` replaces `a`; otherwise the result is `a + b` or `a + '/' + b`, and the `'/'` is inserted exactly when `a` is non-empty and does not end in `'/'` |
| `Python.ContainsIffOccurs` | libs/utils.py:94 | `sub in s` holds exactly when `sub` occurs in `s` at some index |
| `Python.ReadLines` | libs/utils.py:90 | `readlines()` yields non-empty lines with no interior newline, every line but the last ends in a newline, and joining them gives the text back |
| `Python.ReadLinesConcat` | libs/utils.py:99 | joining lines that `readlines()` could yield and reading the result back gives the same lines |
| `Python.ReadLinesAppend` | libs/utils.py:103-104 | appending a newline-terminated line to a text adds it as a new last line, or merges it into an unterminated last line |
| `Python.ReadLinesReplace` | libs/utils.py:97-99 | writing back the lines with one replaced by a terminated line and reading them again gives the updated list |
| `Cache.CacheDirPath` | libs/cache.py:33-34 | for a relative add-on id, the cache directory is the temp directory, a `'/'` unless the temp directory is empty or already ends in one, then `scrapers/` and the add-on id; an absolute add-on id is the whole path |
| `Cache.ShowInfoCache.GetCacheDirectory` | libs/cache.py:31-38 | returns the path derived from the temp directory and the add-on id; creates the directory only when absent, so a second call returns the same path and creates nothing; logs the path |
| `Cache.ShowInfoCache.Import` | libs/cache.py:41 | importing the module sets `CACHE_DIR` to that path, makes sure the directory exists and leaves existing cache files alone |
| `Cache.FileNameIff` | libs/cache.py:49 | two show ids name the same cache file exactly when their `str()` is the same |
| `Cache.DistinctIntIdsDistinctFiles` | libs/cache.py:49 | shows with distinct integer ids are stored in distinct files |
| `Cache.Store` | libs/cache.py:44-54 | caching succeeds exactly when the record has an `'id'` (`KeyError` otherwise); the file named after the id is added or overwritten and reading it back gives the record; every other file is unchanged |
| `Cache.ShowInfoCache.CacheShowInfo` | libs/cache.py:44-54 | the files afterwards are those of `Store`; without an id it raises `KeyError` and writes nothing |
| `Cache.Load` | libs/cache.py:57-74 | a load never raises `IOError` or `PickleError`; a record it returns comes from a pickled file with the id's name |
| `Cache.ShowInfoCache.LoadShowInfoFromCache` | libs/cache.py:57-74 | returns what `Load` says, never changes the files, and logs exactly one debug line when it returns `None` and none otherwise |
| `Cache.StoreThenLoad` | libs/cache.py:49-71 | a cached record is loaded back both by its id and by the id's string form |
| `Cache.LastStoreWins` | libs/cache.py:53 | caching two records whose ids print the same leaves the files as if only the second had been cached, and loading returns the second |
| `Cache.StoreKeepsOtherShows` | libs/cache.py:49-53 | caching a record does not change what loading any show id whose `str()` differs from the record's id returns |
| `Cache.LoadMissing` | libs/cache.py:65-74 | a show that was never cached loads as `None`, with one debug line for the `IOError` raised by opening its file |
| `Cache.LoadUnreadable` | libs/cache.py:66-74 | an unreadable file loads as `None`, with one debug line, exactly when the exception is an `IOError` or a `PickleError`; any other exception propagates, with no line |
| `Cache.LoadForeignPickle` | libs/cache.py:70-71 | a pickled dict without `'show_info'` makes the load raise `KeyError`; a pickled object that cannot be subscripted by a string (a list, a string, a number, `None`) raises `TypeError` |
| `Cache.CachedShowExample` | libs/cache.py:44-74 | show 12345 is loaded back by `"12345"`, show 99999 loads as `None`, and a zero-length file raises `EOFError` |
| `Utils.SafeGet` | libs/utils.py:63-72 | returns `dct[key]` when the key is present and not `None`, and `default` when it is absent or holds `None` |
| `Utils.SafeGetIsLookupInPresent` | libs/utils.py:70-72 | `safe_get` is an ordinary lookup with a default in the dict with its `None` entries dropped |
| `Utils.FirstContaining` | libs/utils.py:93-95 | the index found is that of a line containing the title with no earlier such line; `None` only when no line contains it |
| `Utils.TrailerLogFile.TrailerLog` | libs/utils.py:79-105 | the file afterwards holds what `TrailerLogged` says: appended entry, replaced first title line, or unchanged |
| `Utils.EntryContains` | libs/utils.py:82 | the entry `key + msg + title + '\n'` contains both the title and the message |
| `Utils.TrailerLogAppends` | libs/utils.py:102-105 | with no line mentioning the title, the entry is appended; it is a new last line when the file is empty or ends in a newline, and merged into the last line otherwise |
| `Utils.TrailerLogFirstTitleLine` | libs/utils.py:93-101 | when the first title line lacks the message, that line alone becomes the entry and the line count is kept; when it has the message, the file is unchanged whatever later lines hold |
| `Utils.TrailerLogGrowsByAtMostOneLine` | libs/utils.py:92-105 | the file gains at most one line |
| `Utils.TrailerLogRecords` | libs/utils.py:79-105 | afterwards, the first line mentioning the title holds the message |
| `Utils.TrailerLogIdempotent` | libs/utils.py:79-105 | logging the same key, message and title twice changes the file only the first time |
| `Utils.LineLacksBrokenTitle` | libs/utils.py:90-94 | no line `readlines()` yields contains a title with a newline before its last character |
| `Utils.TrailerLogBrokenTitleAppends` | libs/utils.py:79-105 | for such a title, every call appends the entry again, so logging the same message twice writes it twice and `trailer_log` is not idempotent |

The `trailer_log` properties above `Utils.LineLacksBrokenTitle` hold for the
program when `key + msg + title` contains neither `'\n'` nor `'\r'`: the log
file is opened in text mode with universal newlines (libs/utils.py:88), so
`readlines()` breaks lines at `'\r'` as well. Without that, one entry can
become several lines. When the title has a newline before its last character,
no line read back can contain the title, so the entry is appended on every
call (`Utils.TrailerLogBrokenTitleAppends` proves this for `'\n'`; in the
program a `'\r'` in the title has the same effect).

## Left out

- File I/O: `open`, `translatePath`, `exists`, `mkdir`, and the `'a+'`, `'w'`
  and `'a'` opens of the log file. The files are a map, the directories a
  set, and the log file a string held by a class. `translatePath('special://temp')`
  and the add-on id are parameters.
- Cache.ShowInfoCache.GetCacheDirectory: assumes `mkdir` succeeds. The
  source ignores its result, so a failed `mkdir` is not modelled.
- Cache.ShowInfoCache.CacheShowInfo: write failures (disk full, no
  permission) are not modelled. In the source they propagate unchanged.
- The pickle byte format (`dump` with protocol 2, `load` with
  `encoding='bytes'`). A blob is known only by what loading it gives, and
  pickling is assumed to round-trip the records stored.
- Cache.Load: a pickled dict whose `'show_info'` entry is not itself a dict
  is not modelled: the value of an unpickled dict is always a record here.
  So a file holding `{'show_info': None}`, on which the source returns `None`
  without a debug line, is not covered. The promise of
  `Cache.ShowInfoCache.LoadShowInfoFromCache` that exactly one debug line is
  logged when it returns `None` relies on this omission.
- Cache.LoadForeignPickle: an unpickled object is either a dict or one that
  cannot be subscripted by a string. Other mappings are not modelled: on a
  `collections.UserDict` or `ChainMap` holding `'show_info'`, the source
  returns the entry, and an object with its own `__getitem__` may raise some
  other exception (a numpy array raises `IndexError`).
- Record values other than `None`, booleans, ints and strings are known only
  by their `str()`.
- File names: an id whose `str()` contains `'/'` names a file in a
  subdirectory of the cache directory, and one that starts with `'/'` or has
  a `'..'` part names a path outside it under `path.join`. File names are
  treated as plain names here.
- Logging: `xbmc.log`, the logger's message prefix, and the exact text of
  the debug lines. Debug lines are a ghost sequence of structured entries.
- Utils.TrailerLogFile.TrailerLog: `title` is taken as already a string in NFC
  form (`str(title)` and `unicodedata.normalize`).
- Python.ReadLines: text-mode newline translation is not modelled. `'\r'`
  is an ordinary character here, while `readlines()` on the log file turns
  `'\r'` and `"\r\n"` into `'\n'` line ends, so joining its lines back
  gives the translated text rather than the file's bytes.
- The `makedirs(addonDataDir)` call of `trailer_log`. `makedirs` is never
  imported, and the bare `except` swallows the resulting `NameError`, so the
  call has no effect.
- Utils.SafeGet: the optional `default=None` argument is an explicit
  parameter.
- Module-import-time initialisation of `CACHE_DIR` is the constructor
  `ShowInfoCache.Import`.
- Concurrent writers to a cache file or the log file. The source has no
  locking.
