# SonarQube: JDBC driver holder and issues file facet, modelled in Dafny

This project models two small parts of SonarQube.

**The batch's JDBC driver holder** (`org.sonar.batch.bootstrap.JdbcDriverHolder`). The
production class `JdbcDriverHolder.java` is not part of this model. Its behaviour is taken from
its unit test `JdbcDriverHolderTest.java`, which drives it through `start()`, `stop()` and
`getClassLoader()`. When dry-run is off, `start()` does the following:
- It requests the driver index `/deploy/jdbc-driver.txt` from the server. The index is a line
  `<file>|<checksum>`.
- It looks the file up in the local cache under that name and checksum.
- On a miss, it downloads `/deploy/<file>` and stores it with `cacheFile`, which returns the
  checksum the cache computed. If that checksum is not the one in the index, `start()` fails
  with a `SonarException` whose message contains `INVALID CHECKSUM`.
- Otherwise it builds a class loader over the driver, with the previous context class loader as
  parent, and installs it as the thread's context class loader.

`stop()` puts the previous context loader back and clears the holder's loader. With dry-run on,
`start()` does nothing.

Modules `ClassLoading`, `Cache` and `Bootstrap` model this. The server is a map from path to
text plus a log of the requests sent. The cache is a map from (name, checksum) to file, with the
checksum given by an opaque digest function. Class loaders are objects with a parent link and a
set of resources. The thread is an object holding the context class loader. `Start` is proved
against the specification function `Bootstrap.FetchDriver`, and the lemmas beside that function
state the checksum gate, the request order and the cache discipline. Module
`JdbcDriverHolderTest` replays the test's three scenarios and proves their assertions:
- the driver is installed and then removed;
- a checksum mismatch is fatal;
- dry-run makes no server calls.

**The files facet of the issues sidebar** (`FileFacet.tsx`). Module `FileFacet`, with
`StringOrder` for Lodash's order on strings, models the facet's logic:
- `handleItemClick` removes a selected file, or appends an unselected one, then sorts;
- `handleClear` empties the selection;
- `getStat` and `getFileName`;
- the item list of `renderList`: stat keys by descending count (Lodash `sortBy` is stable), each
  marked active when it is selected.

## Model

| member | source | states |
|---|---|---|
| `StringOrder.LexLe` | server/sonar-web/src/main/js/apps/issues/sidebar/FileFacet.tsx:51-53 | the string order `sortBy` uses puts a prefix no later than any string it begins |
| `StringOrder.LexLeReflexive` | server/sonar-web/src/main/js/apps/issues/sidebar/FileFacet.tsx:51-53 | the string order `sortBy` uses is reflexive |
| `StringOrder.LexLeAntisymmetric` | server/sonar-web/src/main/js/apps/issues/sidebar/FileFacet.tsx:51-53 | two strings that are each no later than the other are equal |
| `StringOrder.LexLeTransitive` | server/sonar-web/src/main/js/apps/issues/sidebar/FileFacet.tsx:51-53 | the string order is transitive |
| `StringOrder.LexLeTotal` | server/sonar-web/src/main/js/apps/issues/sidebar/FileFacet.tsx:51-53 | any two strings are comparable |
| `StringOrder.Insert` | server/sonar-web/src/main/js/apps/issues/sidebar/FileFacet.tsx:51-53 | inserting adds exactly that one element to the list |
| `StringOrder.SortedHeadFirst` | server/sonar-web/src/main/js/apps/issues/sidebar/FileFacet.tsx:51-53 | the first element of a sorted list comes no later than any of its elements |
| `StringOrder.InsertSorted` | server/sonar-web/src/main/js/apps/issues/sidebar/FileFacet.tsx:51-53 | inserting into a sorted list keeps it sorted |
| `StringOrder.Sort` | server/sonar-web/src/main/js/apps/issues/sidebar/FileFacet.tsx:51-53 | `sortBy` on strings returns a sorted permutation of its input |
| `StringOrder.SortedSameHead` | server/sonar-web/src/main/js/apps/issues/sidebar/FileFacet.tsx:51-53 | two non-empty sorted lists with the same elements start with the same element |
| `StringOrder.SortedUnique` | server/sonar-web/src/main/js/apps/issues/sidebar/FileFacet.tsx:51-53 | two sorted lists with the same elements and multiplicities are equal, so the sorted result does not depend on the sort used |
| `StringOrder.SortSorted` | server/sonar-web/src/main/js/apps/issues/sidebar/FileFacet.tsx:51-53 | sorting an already sorted list returns it unchanged |
| `FileFacet.Without` | server/sonar-web/src/main/js/apps/issues/sidebar/FileFacet.tsx:52 | `without` removes every occurrence of the value and keeps every other element with its multiplicity |
| `FileFacet.HandleItemClick` | server/sonar-web/src/main/js/apps/issues/sidebar/FileFacet.tsx:49-55 | the change goes under `files` and its list is sorted; a selected file is removed entirely while every other file keeps its multiplicity; an unselected file yields a permutation of the selection plus that file |
| `FileFacet.HandleClear` | server/sonar-web/src/main/js/apps/issues/sidebar/FileFacet.tsx:61-63 | the change goes under `files` and is the empty list |
| `FileFacet.SingleOccurrence` | server/sonar-web/src/main/js/apps/issues/sidebar/FileFacet.tsx:52 | in a list without duplicates, a selected file occurs exactly once |
| `FileFacet.ToggleTwice` | server/sonar-web/src/main/js/apps/issues/sidebar/FileFacet.tsx:49-55 | clicking the same file twice on a sorted, duplicate-free selection gives back the same selection |
| `FileFacet.DeselectThenSelect` | server/sonar-web/src/main/js/apps/issues/sidebar/FileFacet.tsx:49-55 | deselecting a file of a sorted, duplicate-free selection and selecting it again restores the selection |
| `FileFacet.SelectThenDeselect` | server/sonar-web/src/main/js/apps/issues/sidebar/FileFacet.tsx:49-55 | selecting a file missing from a sorted selection and deselecting it again restores the selection |
| `FileFacet.NoDuplicatesMultiset` | server/sonar-web/src/main/js/apps/issues/sidebar/FileFacet.tsx:52 | a list has no duplicates exactly when no element has a multiplicity above one |
| `FileFacet.ToggleKeepsNoDuplicates` | server/sonar-web/src/main/js/apps/issues/sidebar/FileFacet.tsx:49-55 | a click keeps a duplicate-free selection duplicate-free |
| `FileFacet.GetStat` | server/sonar-web/src/main/js/apps/issues/sidebar/FileFacet.tsx:65-68 | the file's count when stats exist and list the file; absent when stats are absent or do not list it |
| `FileFacet.GetFileName` | server/sonar-web/src/main/js/apps/issues/sidebar/FileFacet.tsx:70-73 | the key itself when no component is referenced under it; otherwise the referenced path collapsed to 15 |
| `FileFacet.InsertByCount` | server/sonar-web/src/main/js/apps/issues/sidebar/FileFacet.tsx:92 | inserting adds exactly that key to the list |
| `FileFacet.InsertByCountOrdered` | server/sonar-web/src/main/js/apps/issues/sidebar/FileFacet.tsx:92 | inserting into a list in descending count order keeps that order |
| `FileFacet.SortByCount` | server/sonar-web/src/main/js/apps/issues/sidebar/FileFacet.tsx:92 | `sortBy(keys, k => -stats[k])` returns a permutation of the keys in descending count order |
| `FileFacet.InsertByCountTies` | server/sonar-web/src/main/js/apps/issues/sidebar/FileFacet.tsx:92 | an inserted key goes first among the keys with its own count, and no other key with that count moves |
| `FileFacet.SortByCountStable` | server/sonar-web/src/main/js/apps/issues/sidebar/FileFacet.tsx:92 | the sort is stable: keys with the same count keep their input order |
| `FileFacet.SortedStatKeys` | server/sonar-web/src/main/js/apps/issues/sidebar/FileFacet.tsx:92 | every sorted key is a stat key, and for every count the keys with that count keep their `Object.keys` order |
| `FileFacet.MakeItem` | server/sonar-web/src/main/js/apps/issues/sidebar/FileFacet.tsx:97-104 | an item carries its file as value, is active exactly when the file is selected, and carries the file's stat and name |
| `FileFacet.RenderList` | server/sonar-web/src/main/js/apps/issues/sidebar/FileFacet.tsx:85-109 | no list when there are no stats. Otherwise the items are a permutation of the stat keys, in descending count order, with ties in key order. Each item is active exactly when its file is selected, and carries the file's count and its name |
| `ClassLoading.ClassLoader.constructor` | sonar-batch/src/test/java/org/sonar/batch/bootstrap/JdbcDriverHolderTest.java:83-85 | a new loader has the given parent and resources, and its parent chain is finite |
| `ClassLoading.ClassLoader.GetResource` | sonar-batch/src/test/java/org/sonar/batch/bootstrap/JdbcDriverHolderTest.java:83 | a loader resolves a resource exactly when some loader on its parent chain, itself included, holds it |
| `ClassLoading.JvmThread.constructor` | sonar-batch/src/test/java/org/sonar/batch/bootstrap/JdbcDriverHolderTest.java:51-54 | the thread starts with the given context class loader |
| `Cache.SonarCache.constructor` | sonar-batch/src/test/java/org/sonar/batch/bootstrap/JdbcDriverHolderTest.java:63-65 | a new cache is empty and computes checksums with the given digest |
| `Cache.SonarCache.GetFileFromCache` | sonar-batch/src/test/java/org/sonar/batch/bootstrap/JdbcDriverHolderTest.java:69-71 | returns the file stored under exactly that name and checksum, or nothing when none is stored there |
| `Cache.SonarCache.CacheFile` | sonar-batch/src/test/java/org/sonar/batch/bootstrap/JdbcDriverHolderTest.java:68 | returns the checksum the cache computes for the content, and stores the file under its name and that checksum without touching other entries |
| `Bootstrap.Message` | sonar-batch/src/test/java/org/sonar/batch/bootstrap/JdbcDriverHolderTest.java:110-111 | a checksum failure's message contains `INVALID CHECKSUM` |
| `Bootstrap.FirstLine` | sonar-batch/src/test/java/org/sonar/batch/bootstrap/JdbcDriverHolderTest.java:77 | the index's first line is a prefix of it with no line end inside, ending at a line end or at the end of the text |
| `Bootstrap.Fields` | sonar-batch/src/test/java/org/sonar/batch/bootstrap/JdbcDriverHolderTest.java:77 | splitting at `\|` yields at least one piece and no piece holds a separator |
| `Bootstrap.DropTrailingEmpty` | sonar-batch/src/test/java/org/sonar/batch/bootstrap/JdbcDriverHolderTest.java:77 | drops exactly the trailing empty pieces and keeps the prefix before them |
| `Bootstrap.ParseIndex` | sonar-batch/src/test/java/org/sonar/batch/bootstrap/JdbcDriverHolderTest.java:77 | a parsed index has a file name and a checksum without separators; any other outcome is a malformed-index error |
| `Bootstrap.FieldsWithoutSeparator` | sonar-batch/src/test/java/org/sonar/batch/bootstrap/JdbcDriverHolderTest.java:77 | text without a separator is one piece |
| `Bootstrap.FieldsSplit` | sonar-batch/src/test/java/org/sonar/batch/bootstrap/JdbcDriverHolderTest.java:77 | text split at its first separator is the part before it followed by the pieces of the rest |
| `Bootstrap.FirstLineWhole` | sonar-batch/src/test/java/org/sonar/batch/bootstrap/JdbcDriverHolderTest.java:77 | text without a line end is its own first line |
| `Bootstrap.ParseIndexRoundTrip` | sonar-batch/src/test/java/org/sonar/batch/bootstrap/JdbcDriverHolderTest.java:77 | `name\|checksum` reads back as that name and checksum, and an empty checksum is malformed |
| `Bootstrap.FetchDriver` | sonar-batch/src/test/java/org/sonar/batch/bootstrap/JdbcDriverHolderTest.java:67-78 | the fetch sends one or two requests, the index first; it removes no cache key; a driver it hands on is one the cache holds afterwards |
| `Bootstrap.FetchRequests` | sonar-batch/src/test/java/org/sonar/batch/bootstrap/JdbcDriverHolderTest.java:76-78 | the index is requested first. The driver is requested second, from `/deploy/<file>`, exactly when the index parses and the cache misses |
| `Bootstrap.ChecksumGate` | sonar-batch/src/test/java/org/sonar/batch/bootstrap/JdbcDriverHolderTest.java:92-113 | a driver is handed on only when it is the one stored under the index's name and checksum; a downloaded one only when its computed checksum equals the index's |
| `Bootstrap.MismatchIsFatal` | sonar-batch/src/test/java/org/sonar/batch/bootstrap/JdbcDriverHolderTest.java:99-113 | a cache miss whose download's computed checksum differs from the index's fails with an `INVALID CHECKSUM` message |
| `Bootstrap.FetchKeepsCache` | sonar-batch/src/test/java/org/sonar/batch/bootstrap/JdbcDriverHolderTest.java:67-71 | fetching adds at most one cache entry, keyed by its own computed checksum, and removes none |
| `Bootstrap.ServerClient.constructor` | sonar-batch/src/test/java/org/sonar/batch/bootstrap/JdbcDriverHolderTest.java:76-78 | a server answers the given texts and has received no request yet |
| `Bootstrap.ServerClient.Request` | sonar-batch/src/test/java/org/sonar/batch/bootstrap/JdbcDriverHolderTest.java:76-78 | logs the request, then answers with the text at that path or fails with a transport error |
| `Bootstrap.JdbcDriverHolder.constructor` | sonar-batch/src/test/java/org/sonar/batch/bootstrap/JdbcDriverHolderTest.java:80 | a new holder keeps its collaborators and dry-run flag and has no class loader |
| `Bootstrap.JdbcDriverHolder.ResolveDriver` | sonar-batch/src/test/java/org/sonar/batch/bootstrap/JdbcDriverHolderTest.java:76-78 | the requests sent, the cache afterwards and the driver or error returned are those `FetchDriver` gives for the server and the cache before the call |
| `Bootstrap.JdbcDriverHolder.Start` | sonar-batch/src/test/java/org/sonar/batch/bootstrap/JdbcDriverHolderTest.java:80-85 | In dry-run mode there are no requests, no cache change and no loader. Otherwise requests and cache follow `FetchDriver`. On success a fresh loader over the driver becomes the context loader; it resolves exactly the driver's resources and what the previous context loader resolved, and its parent is that previous loader. On failure the error is returned and neither the thread nor the holder gets a loader |
| `Bootstrap.JdbcDriverHolder.Stop` | sonar-batch/src/test/java/org/sonar/batch/bootstrap/JdbcDriverHolderTest.java:87-89 | the holder's loader is cleared. If a loader was installed, the context loader is again the one saved by `start()`; otherwise the thread is untouched |
| `JdbcDriverHolderTest.TestResponses` | sonar-batch/src/test/java/org/sonar/batch/bootstrap/JdbcDriverHolderTest.java:77-78 | the test server's index reads back as `ojdbc14.jar` with checksum `fakemd5`, and the server also answers the driver's path |
| `JdbcDriverHolderTest.ShouldExtendClassloaderWithJdbcDriver` | sonar-batch/src/test/java/org/sonar/batch/bootstrap/JdbcDriverHolderTest.java:61-90 | `start()` succeeds after requesting the index and then the driver; the installed loader resolves `foo/foo.txt`, is the context loader, has the previous context loader as parent; `stop()` puts that loader back and clears the holder's |
| `JdbcDriverHolderTest.ShouldFailIfChecksumMismatch` | sonar-batch/src/test/java/org/sonar/batch/bootstrap/JdbcDriverHolderTest.java:92-114 | with a cache computing `anotherfakemd5`, `start()` fails with a checksum error whose message contains `INVALID CHECKSUM` |
| `JdbcDriverHolderTest.ShouldBeDisabledIfDryRun` | sonar-batch/src/test/java/org/sonar/batch/bootstrap/JdbcDriverHolderTest.java:116-129 | in dry-run mode `start()` succeeds without any request and installs no loader, and `stop()` succeeds |

## Left out

- The HTTP transport behind `ServerClient.request` is left out: the server is a map from path to text, and a missing path is a transport failure.
- The cache's on-disk storage and its MD5 computation are left out: the checksum is an opaque function of the content, fixed per cache.
- `URLClassLoader` reading the jar and the per-thread nature of the context class loader are left out. The resources a jar holds come from an opaque function of its content. The thread is one explicit object.
- `Settings`, `CoreProperties`, the JUnit rules (`TemporaryFolder`, `ExpectedException`, the `@After` reset of the context loader), Mockito, and logging are left out. Only a boolean dry-run flag remains.
- Bootstrap.JdbcDriverHolder.Start: on a cache hit the cached file is used without a download or a new checksum check. This is an assumption of the model; no test exercises a hit.
- Bootstrap.JdbcDriverHolder.Start: calling `start()` twice, or after `stop()`, is excluded by the precondition that the holder is idle; no test exercises it.
- Bootstrap.JdbcDriverHolder.Start: the driver loader's parent is the context loader from before `start()`. The test compares the parent with its own class's loader (`getClass().getClassLoader()`); that this is the context loader at the time is an assumption of the model, which has no separate class loader of the test class.
- Bootstrap.JdbcDriverHolder.Stop: puts back the context loader saved by `start()`. The test compares the context loader after `stop()` with its own class's loader; the model assumes the two are the same loader, as for `Start`.
- Bootstrap.Message: the tests fix only the `INVALID CHECKSUM` part of the message. The rest of its wording and the wording of the other errors are illustrative.
- Bootstrap.ParseIndex: reads the first line the way `BufferedReader.readLine` does and splits it at `|`, dropping trailing empty pieces as `String.split("\\|")` does. It differs on empty text: Java's `readLine` gives no line and `"".split("\\|")` gives one empty piece, while the model gives no pieces. Both end in a malformed-index error, so the result is the same. The production parser is not part of this model.
- A failed `start()` leaves the holder in a ghost `Failed` state. Only `stop()` may follow it.
- StringOrder.Sort: compares characters by Unicode code point. JavaScript compares UTF-16 code units, which orders characters above U+FFFF differently against those in U+E000–U+FFFF.
- FileFacet.GetStat: JavaScript objects also expose inherited prototype properties, such as `stats["constructor"]`. They are not modelled, and neither is the same lookup in `getFileName`.
- The React rendering is left out: `render`, `renderName`, `handleHeaderClick` (it only passes `files` to `onToggle`), `FacetBox`, `FacetHeader`, `FacetItem`, `FacetItemsList`, `QualifierIcon`, `translate` and the `loading` prop.
- `collapsePath` is a function parameter of `GetFileName`. `formatFacetStat` is left out: an item carries the unformatted result of `getStat`.
- Counts are integers rather than JavaScript numbers.
- FileFacet.SortByCount: takes the count of a key missing from the stats to be 0. `renderList` only sorts the object's own keys, so that case never arises.
