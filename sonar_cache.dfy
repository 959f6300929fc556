/**
 * The batch's local file cache as the holder uses it: files stored under
 * their name and the checksum the cache computes for them.
 */
module Cache {
  import opened Wrappers

  /** A cached file: its name and its content. */
  datatype CachedFile = CachedFile(name: string, content: string)

  /** Where a file sits in the cache: its name and its checksum. */
  datatype CacheKey = CacheKey(name: string, checksum: string)

  class SonarCache {
    /** The files stored so far. */
    var entries: map<CacheKey, CachedFile>
    /** The checksum the cache computes over a file's content (MD5 on disk). */
    const digest: string -> string

    constructor (digest: string -> string)
      ensures entries == map[] && this.digest == digest
    {
      this.entries := map[];
      this.digest := digest;
    }

    /** `getFileFromCache(name, checksum)`: the file stored under that key, if any. */
    method GetFileFromCache(name: string, checksum: string) returns (f: Option<CachedFile>)
      ensures f.Some? <==> CacheKey(name, checksum) in entries
      ensures f.Some? ==> f.value == entries[CacheKey(name, checksum)]
    {
      var key := CacheKey(name, checksum);
      if key in entries {
        f := Some(entries[key]);
      } else {
        f := None;
      }
    }

    /**
     * `cacheFile(file, name)`: stores the content under its name and computed
     * checksum and returns that checksum; no other entry changes.
     */
    method CacheFile(content: string, name: string) returns (checksum: string)
      modifies this
      ensures checksum == digest(content)
      ensures entries == old(entries)[CacheKey(name, checksum) := CachedFile(name, content)]
    {
      checksum := digest(content);
      entries := entries[CacheKey(name, checksum) := CachedFile(name, content)];
    }
  }
}
