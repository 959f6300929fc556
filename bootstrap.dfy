/**
 * The batch's JDBC driver holder: on start it reads the driver index from the
 * server, fetches the driver into the local cache when it is not there yet,
 * rejects a driver whose checksum differs from the index, and installs a class
 * loader over the driver as the thread's context class loader; on stop it puts
 * the previous context class loader back.
 */
module Bootstrap {
  import opened Wrappers
  import opened ClassLoading
  import opened Cache

  /** Where the server publishes the driver index. */
  const IndexPath: string := "/deploy/jdbc-driver.txt"

  /** The directory on the server the driver itself is downloaded from. */
  const DeployDir: string := "/deploy/"

  /** The marker every checksum failure message carries. */
  const InvalidChecksumMarker: string := "INVALID CHECKSUM"

  /** The driver index: the driver's file name and its expected checksum. */
  datatype DriverIndex = DriverIndex(fileName: string, checksum: string)

  /** The fatal errors of `start()`. */
  datatype DriverError =
    | TransportFailure(path: string)
    | MalformedIndex(text: string)
    | InvalidChecksum(fileName: string, expected: string, actual: string)

  /** `s` holds `sub` somewhere. */
  ghost predicate Contains(s: string, sub: string)
  {
    exists i :: 0 <= i <= |s| && sub <= s[i..]
  }

  /** The message of the `SonarException` that reports an error. */
  function Message(e: DriverError): (m: string)
    ensures e.InvalidChecksum? ==> Contains(m, InvalidChecksumMarker)
  {
    match e
    case TransportFailure(path) => "Fail to download " + path
    case MalformedIndex(text) => "Fail to parse the JDBC driver index: " + text
    case InvalidChecksum(name, expected, actual) =>
      var m := InvalidChecksumMarker + ": File " + name + " was expected to have checksum "
               + expected + " but was downloaded with checksum " + actual;
      assert InvalidChecksumMarker <= m[0..];
      m
  }

  /** A line ends at a line feed or a carriage return. */
  predicate IsLineEnd(c: char)
  {
    c == '\n' || c == '\r'
  }

  /** The first line of a text, without its terminator (`BufferedReader.readLine`). */
  function FirstLine(text: string): (line: string)
    ensures line <= text
    ensures forall k :: 0 <= k < |line| ==> !IsLineEnd(line[k])
    ensures |line| < |text| ==> IsLineEnd(text[|line|])
  {
    if text == [] || IsLineEnd(text[0]) then [] else [text[0]] + FirstLine(text[1..])
  }

  /** The pieces of `s` between the `|` separators, empty pieces included. */
  function Fields(s: string): (fs: seq<string>)
    ensures |fs| >= 1
    ensures forall k :: 0 <= k < |fs| ==> '|' !in fs[k]
  {
    if s == [] then [""]
    else
      var rest := Fields(s[1..]);
      if s[0] == '|' then [""] + rest
      else [[s[0]] + rest[0]] + rest[1..]
  }

  /** Drops the empty pieces at the end, as Java's `String.split` does. */
  function DropTrailingEmpty(fs: seq<string>): (r: seq<string>)
    ensures r <= fs
    ensures r != [] ==> r[|r| - 1] != ""
    ensures forall k :: |r| <= k < |fs| ==> fs[k] == ""
  {
    if fs == [] then []
    else if fs[|fs| - 1] == "" then DropTrailingEmpty(fs[..|fs| - 1])
    else fs
  }

  /**
   * Reads the index line `<file>|<checksum>`: the first two `|`-separated pieces
   * of its first line; fewer than two pieces is a malformed index.
   */
  function ParseIndex(text: string): (r: Result<DriverIndex, DriverError>)
    ensures r.Failure? ==> r.error == MalformedIndex(text)
    ensures r.Success? ==> '|' !in r.value.fileName && '|' !in r.value.checksum
  {
    var fields := DropTrailingEmpty(Fields(FirstLine(text)));
    if |fields| < 2 then Failure(MalformedIndex(text))
    else Success(DriverIndex(fields[0], fields[1]))
  }

  lemma {:induction false} FieldsWithoutSeparator(s: string)
    requires '|' !in s
    ensures Fields(s) == [s]
  {
    if s != [] {
      FieldsWithoutSeparator(s[1..]);
      assert s == [s[0]] + s[1..];
    }
  }

  lemma {:induction false} FieldsSplit(a: string, b: string)
    requires '|' !in a
    ensures Fields(a + "|" + b) == [a] + Fields(b)
  {
    if a == [] {
      assert a + "|" + b == "|" + b;
      assert ("|" + b)[1..] == b;
    } else {
      assert (a + "|" + b)[1..] == a[1..] + "|" + b;
      FieldsSplit(a[1..], b);
      assert a == [a[0]] + a[1..];
    }
  }

  lemma {:induction false} FirstLineWhole(s: string)
    requires forall k :: 0 <= k < |s| ==> !IsLineEnd(s[k])
    ensures FirstLine(s) == s
  {
    if s != [] {
      FirstLineWhole(s[1..]);
      assert s == [s[0]] + s[1..];
    }
  }

  /**
   * The index the server publishes for a file name and a checksum, neither holding
   * a separator or a line end, reads back as that name and checksum; an empty
   * checksum makes it malformed.
   */
  lemma ParseIndexRoundTrip(name: string, checksum: string)
    requires '|' !in name && '|' !in checksum
    requires forall k :: 0 <= k < |name| ==> !IsLineEnd(name[k])
    requires forall k :: 0 <= k < |checksum| ==> !IsLineEnd(checksum[k])
    ensures checksum != "" ==> ParseIndex(name + "|" + checksum) == Success(DriverIndex(name, checksum))
    ensures checksum == "" ==> ParseIndex(name + "|" + checksum).Failure?
  {
    var text := name + "|" + checksum;
    FirstLineWhole(text);
    FieldsSplit(name, checksum);
    FieldsWithoutSeparator(checksum);
    var fs := [name, checksum];
    assert Fields(text) == fs;
    if checksum == "" {
      assert DropTrailingEmpty(fs) == DropTrailingEmpty([name]);
    }
  }

  /** What `start()` does once dry-run is ruled out: the requests it sends, the cache afterwards, the driver or the error. */
  datatype Fetch = Fetch(requests: seq<string>, entries: map<CacheKey, CachedFile>,
                         result: Result<CachedFile, DriverError>)

  /**
   * The fetch `start()` performs against a server answering `responses` and a cache
   * holding `entries`: read the index; take the driver from the cache under the
   * index's name and checksum; otherwise download it from the deploy directory,
   * store it, and accept it only when the computed checksum is the expected one.
   */
  function FetchDriver(responses: map<string, string>, entries: map<CacheKey, CachedFile>,
                       digest: string -> string): (f: Fetch)
    ensures 1 <= |f.requests| <= 2 && f.requests[0] == IndexPath
    ensures entries.Keys <= f.entries.Keys
    ensures f.result.Success? ==> f.result.value in f.entries.Values
  {
    if IndexPath !in responses then Fetch([IndexPath], entries, Failure(TransportFailure(IndexPath)))
    else match ParseIndex(responses[IndexPath])
      case Failure(e) => Fetch([IndexPath], entries, Failure(e))
      case Success(index) =>
        var key := CacheKey(index.fileName, index.checksum);
        if key in entries then Fetch([IndexPath], entries, Success(entries[key]))
        else
          var path := DeployDir + index.fileName;
          if path !in responses then Fetch([IndexPath, path], entries, Failure(TransportFailure(path)))
          else
            var md5 := digest(responses[path]);
            var stored := entries[CacheKey(index.fileName, md5) := CachedFile(index.fileName, responses[path])];
            if md5 != index.checksum then
              Fetch([IndexPath, path], stored, Failure(InvalidChecksum(index.fileName, index.checksum, md5)))
            else Fetch([IndexPath, path], stored, Success(stored[CacheKey(index.fileName, md5)]))
  }

  /**
   * The index is always requested first, and the driver, when it is requested,
   * comes from the deploy directory under the index's file name.
   */
  lemma FetchRequests(responses: map<string, string>, entries: map<CacheKey, CachedFile>,
                      digest: string -> string)
    ensures var f := FetchDriver(responses, entries, digest);
      && 1 <= |f.requests| <= 2
      && f.requests[0] == IndexPath
      && (|f.requests| == 2 <==>
            IndexPath in responses && ParseIndex(responses[IndexPath]).Success?
            && CacheKey(ParseIndex(responses[IndexPath]).value.fileName,
                        ParseIndex(responses[IndexPath]).value.checksum) !in entries)
      && (|f.requests| == 2 ==> f.requests[1] == DeployDir + ParseIndex(responses[IndexPath]).value.fileName)
  {
  }

  /**
   * The checksum gate: a driver is only ever handed on when the cache holds it
   * under the index's name and expected checksum, and a downloaded driver only
   * when its computed checksum is the expected one.
   */
  lemma ChecksumGate(responses: map<string, string>, entries: map<CacheKey, CachedFile>,
                     digest: string -> string)
    ensures var f := FetchDriver(responses, entries, digest);
      f.result.Success? ==>
        && IndexPath in responses && ParseIndex(responses[IndexPath]).Success?
        && var index := ParseIndex(responses[IndexPath]).value;
        && CacheKey(index.fileName, index.checksum) in f.entries
        && f.entries[CacheKey(index.fileName, index.checksum)] == f.result.value
        && (|f.requests| == 2 ==> digest(f.result.value.content) == index.checksum)
  {
  }

  /**
   * A downloaded driver whose computed checksum differs from the index's is a
   * fatal error whose message says INVALID CHECKSUM.
   */
  lemma MismatchIsFatal(responses: map<string, string>, entries: map<CacheKey, CachedFile>,
                        digest: string -> string)
    requires IndexPath in responses && ParseIndex(responses[IndexPath]).Success?
    requires var index := ParseIndex(responses[IndexPath]).value;
      && CacheKey(index.fileName, index.checksum) !in entries
      && DeployDir + index.fileName in responses
      && digest(responses[DeployDir + index.fileName]) != index.checksum
    ensures var f := FetchDriver(responses, entries, digest);
      && f.result.Failure? && f.result.error.InvalidChecksum?
      && Contains(Message(f.result.error), InvalidChecksumMarker)
  {
  }

  /**
   * The fetch removes no cache entry and changes none when it downloads nothing;
   * the only entry it adds or replaces holds the downloaded file under the file's
   * name and its own computed checksum.
   */
  lemma FetchKeepsCache(responses: map<string, string>, entries: map<CacheKey, CachedFile>,
                        digest: string -> string)
    ensures var f := FetchDriver(responses, entries, digest);
      && entries.Keys <= f.entries.Keys
      && (|f.requests| == 1 ==> f.entries == entries)
      && (forall k :: k in f.entries && (k !in entries || f.entries[k] != entries[k]) ==>
           && |f.requests| == 2
           && k.name == f.entries[k].name
           && k.checksum == digest(f.entries[k].content))
      && forall k1, k2 ::
           && k1 in f.entries && (k1 !in entries || f.entries[k1] != entries[k1])
           && k2 in f.entries && (k2 !in entries || f.entries[k2] != entries[k2])
           ==> k1 == k2
  {
    var f := FetchDriver(responses, entries, digest);
    if IndexPath in responses && ParseIndex(responses[IndexPath]).Success? {
      var index := ParseIndex(responses[IndexPath]).value;
      var path := DeployDir + index.fileName;
      if CacheKey(index.fileName, index.checksum) !in entries && path in responses {
        var md5 := digest(responses[path]);
        var added := CacheKey(index.fileName, md5);
        assert f.entries == entries[added := CachedFile(index.fileName, responses[path])];
        assert |f.requests| == 2;
      }
    }
  }

  /** The ghost life cycle of a holder. */
  datatype HolderState = Idle | Disabled | Loaded | Failed | Stopped

  /** The server as the holder sees it: a text per path, and the requests sent so far. */
  class ServerClient {
    const responses: map<string, string>
    var requests: seq<string>

    constructor (responses: map<string, string>)
      ensures this.responses == responses && requests == []
    {
      this.responses := responses;
      this.requests := [];
    }

    /** `request(path)`: the text at `path`, or a transport failure when there is none. */
    method Request(path: string) returns (r: Result<string, DriverError>)
      modifies this
      ensures requests == old(requests) + [path]
      ensures path in responses ==> r == Success(responses[path])
      ensures path !in responses ==> r == Failure(TransportFailure(path))
    {
      requests := requests + [path];
      if path in responses {
        r := Success(responses[path]);
      } else {
        r := Failure(TransportFailure(path));
      }
    }
  }

  class JdbcDriverHolder {
    const cache: SonarCache
    const server: ServerClient
    const thread: JvmThread
    /** The dry-run setting. */
    const dryRun: bool
    /** The resources a jar with this content holds (the JDK reads them from the archive). */
    const jarEntries: string -> set<string>

    /** The loader over the driver while it is installed (`getClassLoader()`). */
    var classLoader: ClassLoader?
    /** The thread's context class loader before `start()` installed the driver's. */
    var initialThreadClassloader: ClassLoader?
    ghost var state: HolderState

    /**
     * The holder's invariant: a loader exists exactly while the driver is loaded;
     * it holds the driver's resources on top of the saved context loader.
     */
    ghost predicate Valid()
      reads this, thread
    {
      && thread.Valid()
      && (classLoader != null <==> state == Loaded)
      && (state == Disabled ==> dryRun)
      && (classLoader != null ==>
            && classLoader.Valid()
            && classLoader.parent == initialThreadClassloader)
    }

    constructor (cache: SonarCache, dryRun: bool, server: ServerClient, thread: JvmThread,
                 jarEntries: string -> set<string>)
      requires thread.Valid()
      ensures Valid() && state == Idle && classLoader == null
      ensures this.cache == cache && this.server == server && this.thread == thread
      ensures this.dryRun == dryRun && this.jarEntries == jarEntries
    {
      this.cache := cache;
      this.server := server;
      this.thread := thread;
      this.dryRun := dryRun;
      this.jarEntries := jarEntries;
      this.classLoader := null;
      this.initialThreadClassloader := null;
      this.state := Idle;
    }

    /**
     * `start()`: in dry-run mode nothing happens; otherwise the driver is fetched
     * (see `FetchDriver`) and, when it passes the checksum gate, a new loader over
     * it whose parent is the current context loader becomes the context loader.
     * A fatal error leaves the thread and the holder's loader untouched.
     */
    method Start() returns (r: Outcome<DriverError>)
      requires Valid() && state == Idle
      modifies this, server, cache, thread
      ensures Valid()
      ensures dryRun ==>
        && r == Pass && state == Disabled && classLoader == null
        && server.requests == old(server.requests)
        && cache.entries == old(cache.entries)
        && thread.contextClassLoader == old(thread.contextClassLoader)
      ensures !dryRun ==>
        var f := FetchDriver(server.responses, old(cache.entries), cache.digest);
        && server.requests == old(server.requests) + f.requests
        && cache.entries == f.entries
        && match f.result
           case Success(driver) =>
             && r == Pass && state == Loaded
             && classLoader != null && fresh(classLoader)
             && classLoader.resources == jarEntries(driver.content)
             && (forall n :: classLoader.GetResource(n) <==>
                   n in jarEntries(driver.content)
                   || (old(thread.contextClassLoader) != null && old(thread.contextClassLoader).GetResource(n)))
             && classLoader.parent == old(thread.contextClassLoader)
             && initialThreadClassloader == old(thread.contextClassLoader)
             && thread.contextClassLoader == classLoader
           case Failure(e) =>
             && r == Fail(e) && state == Failed && classLoader == null
             && thread.contextClassLoader == old(thread.contextClassLoader)
    {
      if dryRun {
        state := Disabled;
        return Pass;
      }
      var driver := ResolveDriver();
      if driver.Failure? {
        state := Failed;
        return Fail(driver.error);
      }
      initialThreadClassloader := thread.contextClassLoader;
      classLoader := new ClassLoader(initialThreadClassloader, jarEntries(driver.value.content));
      thread.contextClassLoader := classLoader;
      state := Loaded;
      r := Pass;
    }

    /**
     * The fetch part of `start()`: reads the index, looks the driver up in the
     * cache and downloads, stores and checks it on a miss, as `FetchDriver` says.
     */
    method ResolveDriver() returns (r: Result<CachedFile, DriverError>)
      modifies server, cache
      ensures var f := FetchDriver(server.responses, old(cache.entries), cache.digest);
        && server.requests == old(server.requests) + f.requests
        && cache.entries == f.entries
        && r == f.result
    {
      var text := server.Request(IndexPath);
      if text.Failure? {
        return Failure(text.error);
      }
      var index := ParseIndex(text.value);
      if index.Failure? {
        return Failure(index.error);
      }
      var name, checksum := index.value.fileName, index.value.checksum;
      var driver := cache.GetFileFromCache(name, checksum);
      if driver.Some? {
        return Success(driver.value);
      }
      var binary := server.Request(DeployDir + name);
      if binary.Failure? {
        return Failure(binary.error);
      }
      var md5 := cache.CacheFile(binary.value, name);
      if md5 != checksum {
        return Failure(InvalidChecksum(name, checksum, md5));
      }
      driver := cache.GetFileFromCache(name, md5);
      r := Success(driver.value);
    }

    /**
     * `stop()`: when a driver loader is installed, the saved context loader is put
     * back; the holder's loader is cleared in every case and nothing fails.
     */
    method Stop()
      requires Valid()
      modifies this, thread
      ensures Valid() && classLoader == null && state == Stopped
      ensures initialThreadClassloader == old(initialThreadClassloader)
      ensures old(classLoader) != null ==> thread.contextClassLoader == old(initialThreadClassloader)
      ensures old(classLoader) == null ==> thread.contextClassLoader == old(thread.contextClassLoader)
    {
      if classLoader != null {
        classLoader := null;
        thread.contextClassLoader := initialThreadClassloader;
      }
      state := Stopped;
    }
  }
}
