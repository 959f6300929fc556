/**
 * Class loaders as objects with a parent link and the resources they hold
 * themselves, and the thread whose context class loader the holder swaps.
 */
module ClassLoading {

  class ClassLoader {
    /** The loader asked when a resource is not found here (`getParent()`). */
    const parent: ClassLoader?
    /** The names of the resources this loader holds itself (the entries of its jars). */
    const resources: set<string>
    /** Length of the parent chain; it makes resolution terminate. */
    ghost const depth: nat

    /** The parent chain is finite: each ancestor is strictly shallower. */
    ghost predicate Valid()
      decreases depth
    {
      parent != null ==> parent.depth < depth && parent.Valid()
    }

    constructor (parent: ClassLoader?, resources: set<string>)
      requires parent != null ==> parent.Valid()
      ensures Valid() && this.parent == parent && this.resources == resources
    {
      this.parent := parent;
      this.resources := resources;
      this.depth := if parent == null then 0 else parent.depth + 1;
    }

    /** This loader followed by its ancestors, nearest first. */
    ghost function Chain(): (c: seq<ClassLoader>)
      requires Valid()
      ensures |c| >= 1 && c[0] == this
      decreases depth
    {
      [this] + (if parent == null then [] else parent.Chain())
    }

    /**
     * `getResource(name) != null`: the parent is asked when the resource is not
     * held here, so a loader resolves exactly the resources some loader on its
     * parent chain holds.
     */
    predicate GetResource(name: string)
      requires Valid()
      ensures GetResource(name) <==> exists i :: 0 <= i < |Chain()| && name in Chain()[i].resources
      decreases depth
    {
      if name in resources then
        assert name in Chain()[0].resources;
        true
      else if parent == null then
        false
      else
        var found := parent.GetResource(name);
        var up := parent.Chain();
        assert Chain() == [this] + up;
        assert name !in Chain()[0].resources;
        assert forall j :: 0 <= j < |up| ==> Chain()[j + 1] == up[j];
        found
    }
  }

  /** The running thread; only its context class loader matters here. */
  class JvmThread {
    var contextClassLoader: ClassLoader?

    ghost predicate Valid()
      reads this
    {
      contextClassLoader != null ==> contextClassLoader.Valid()
    }

    constructor (loader: ClassLoader?)
      requires loader != null ==> loader.Valid()
      ensures Valid() && contextClassLoader == loader
    {
      contextClassLoader := loader;
    }
  }
}
