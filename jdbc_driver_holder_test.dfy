/**
 * The three scenarios of the holder's unit tests, replayed against the model:
 * each method builds the collaborators the test mocks and proves the test's assertions.
 */
module JdbcDriverHolderTest {
  import opened Wrappers
  import opened ClassLoading
  import opened Cache
  import opened Bootstrap

  /** The one resource inside the test's driver jar. */
  const DriverResource: string := "foo/foo.txt"

  /** The server of the tests: the index names `ojdbc14.jar` with checksum `fakemd5`. */
  function TestResponses(): (m: map<string, string>)
    ensures IndexPath in m && ParseIndex(m[IndexPath]) == Success(DriverIndex("ojdbc14.jar", "fakemd5"))
    ensures DeployDir + "ojdbc14.jar" in m
  {
    ParseIndexRoundTrip("ojdbc14.jar", "fakemd5");
    map[IndexPath := "ojdbc14.jar" + "|" + "fakemd5", DeployDir + "ojdbc14.jar" := "fakecontent"]
  }

  /** The driver is fetched, installed on top of the previous context loader, and removed on stop. */
  method ShouldExtendClassloaderWithJdbcDriver() returns (r: Outcome<DriverError>, requests: seq<string>)
    ensures r == Pass && requests == [IndexPath, DeployDir + "ojdbc14.jar"]
  {
    var initial := new ClassLoader(null, {});
    var thread := new JvmThread(initial);
    assert !initial.GetResource(DriverResource);

    var cache := new SonarCache(_ => "fakemd5");
    var server := new ServerClient(TestResponses());
    var holder := new JdbcDriverHolder(cache, false, server, thread, _ => {DriverResource});
    r := holder.Start();

    assert holder.classLoader != null && holder.classLoader.GetResource(DriverResource);
    assert thread.contextClassLoader == holder.classLoader;
    assert holder.classLoader.parent == initial;
    requests := server.requests;

    holder.Stop();
    assert thread.contextClassLoader == initial;
    assert holder.classLoader == null;
  }

  /** A driver whose computed checksum is not the index's makes `start()` fail with INVALID CHECKSUM. */
  method ShouldFailIfChecksumMismatch() returns (r: Outcome<DriverError>)
    ensures r.Fail? && r.error.InvalidChecksum? && Contains(Message(r.error), InvalidChecksumMarker)
  {
    var initial := new ClassLoader(null, {});
    var thread := new JvmThread(initial);
    var cache := new SonarCache(_ => "anotherfakemd5");
    var server := new ServerClient(TestResponses());
    var holder := new JdbcDriverHolder(cache, false, server, thread, _ => {DriverResource});
    MismatchIsFatal(server.responses, map[], cache.digest);
    r := holder.Start();

    assert holder.classLoader == null;
    assert thread.contextClassLoader == initial;
  }

  /** In dry-run mode `start()` talks to no server and installs no loader; `stop()` then succeeds. */
  method ShouldBeDisabledIfDryRun() returns (r: Outcome<DriverError>, requests: seq<string>)
    ensures r == Pass && requests == []
  {
    var initial := new ClassLoader(null, {});
    var thread := new JvmThread(initial);
    var cache := new SonarCache(_ => "fakemd5");
    var server := new ServerClient(TestResponses());
    var holder := new JdbcDriverHolder(cache, true, server, thread, _ => {DriverResource});
    r := holder.Start();

    assert holder.classLoader == null;
    requests := server.requests;

    holder.Stop();
    assert thread.contextClassLoader == initial;
  }
}
