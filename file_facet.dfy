/**
 * Selection logic of the "files" facet of the issues sidebar: toggling one file
 * in the selected list, clearing it, looking up a file's count, naming a file and
 * ordering the facet's items by count. The React rendering around it is not modelled.
 */
module FileFacet {
  import opened Wrappers
  import opened StringOrder

  /** The query property the facet edits. */
  const Property: string := "files"

  /** How many characters `collapsePath` keeps of a component's path. */
  const CollapsedPathLength: int := 15

  /** The partial query handed to `onChange`: one property and its new value. */
  datatype QueryChange = QueryChange(property: string, files: seq<string>)

  /** The part of a referenced component the facet reads. */
  datatype ReferencedComponent = ReferencedComponent(key: string, name: string, path: string)

  /**
   * The `stats` object: `keys` is the order `Object.keys` enumerates it in,
   * `counts` the number of issues per file.
   */
  datatype Stats = Stats(keys: seq<string>, counts: map<string, int>)
  {
    /** An object's own keys are distinct and are exactly the keys it maps. */
    ghost predicate WellFormed()
    {
      && (forall i, j :: 0 <= i < j < |keys| ==> keys[i] != keys[j])
      && (forall k :: k in counts <==> k in keys)
    }
  }

  /** One entry of the facet's list, as `renderList` passes it to `FacetItem`. */
  datatype Item = Item(value: string, active: bool, name: string, stat: Option<int>)

  /** Lodash `without(files, v)`: every element except the occurrences of `v`, in order. */
  function Without(files: seq<string>, v: string): (r: seq<string>)
    ensures v !in r
    ensures multiset(r) == multiset(files)[v := 0]
  {
    if files == [] then []
    else
      assert files == [files[0]] + files[1..];
      if files[0] == v then Without(files[1..], v)
      else [files[0]] + Without(files[1..], v)
  }

  /**
   * `handleItemClick`: removes `item` from the selection when it is selected,
   * appends it otherwise, and sorts the result.
   */
  function HandleItemClick(files: seq<string>, item: string): (c: QueryChange)
    ensures c.property == Property
    ensures Sorted(c.files)
    ensures item in files ==> item !in c.files && multiset(c.files) == multiset(files)[item := 0]
    ensures item !in files ==> multiset(c.files) == multiset(files + [item])
  {
    var selected := Sort(if item in files then Without(files, item) else files + [item]);
    assert item in files ==> multiset(selected)[item] == 0;
    QueryChange(Property, selected)
  }

  /** `handleClear`: the selection becomes empty. */
  function HandleClear(): (c: QueryChange)
    ensures c.property == Property && |c.files| == 0
  {
    QueryChange(Property, [])
  }

  /** No file occurs twice. */
  ghost predicate NoDuplicates(files: seq<string>)
  {
    forall i, j :: 0 <= i < j < |files| ==> files[i] != files[j]
  }

  /** A file that occurs once in `files` accounts for a multiplicity of one. */
  lemma {:induction false} SingleOccurrence(files: seq<string>, item: string)
    requires NoDuplicates(files) && item in files
    ensures multiset(files)[item] == 1
  {
    if files[0] == item {
      assert item !in files[1..];
      assert files == [files[0]] + files[1..];
    } else {
      assert files == [files[0]] + files[1..];
      SingleOccurrence(files[1..], item);
    }
  }

  /** Clicking the same file twice on a sorted selection without duplicates restores it. */
  lemma ToggleTwice(files: seq<string>, item: string)
    requires Sorted(files) && NoDuplicates(files)
    ensures HandleItemClick(HandleItemClick(files, item).files, item).files == files
  {
    if item in files {
      DeselectThenSelect(files, item);
    } else {
      SelectThenDeselect(files, item);
    }
  }

  lemma DeselectThenSelect(files: seq<string>, item: string)
    requires Sorted(files) && NoDuplicates(files) && item in files
    ensures HandleItemClick(HandleItemClick(files, item).files, item).files == files
  {
    var once := HandleItemClick(files, item).files;
    var twice := HandleItemClick(once, item).files;
    SingleOccurrence(files, item);
    assert item !in once;
    assert multiset(twice) == multiset(once) + multiset{item} by {
      assert multiset(twice) == multiset(once + [item]);
    }
    assert multiset(files) == multiset(files)[item := 0] + multiset{item};
    SortedUnique(twice, files);
  }

  lemma SelectThenDeselect(files: seq<string>, item: string)
    requires Sorted(files) && item !in files
    ensures HandleItemClick(HandleItemClick(files, item).files, item).files == files
  {
    var once := HandleItemClick(files, item).files;
    var twice := HandleItemClick(once, item).files;
    assert multiset(once) == multiset(files) + multiset{item} by {
      assert multiset(once) == multiset(files + [item]);
    }
    assert item in multiset(once);
    assert multiset(twice) == multiset(once)[item := 0];
    assert multiset(files)[item] == 0;
    assert multiset(twice) == multiset(files);
    SortedUnique(twice, files);
  }

  /** A sequence has no duplicates exactly when no element occurs twice in its multiset. */
  lemma {:induction false} NoDuplicatesMultiset(files: seq<string>)
    ensures NoDuplicates(files) <==> forall x :: multiset(files)[x] <= 1
  {
    if files != [] {
      NoDuplicatesMultiset(files[1..]);
      assert files == [files[0]] + files[1..];
      assert multiset(files) == multiset{files[0]} + multiset(files[1..]);
      if NoDuplicates(files) {
        assert files[0] !in files[1..];
        assert NoDuplicates(files[1..]);
      } else {
        var i, j :| 0 <= i < j < |files| && files[i] == files[j];
        if i == 0 {
          assert files[j] in files[1..];
          assert multiset(files[1..])[files[0]] >= 1;
          assert multiset(files)[files[0]] >= 2;
        } else {
          assert !NoDuplicates(files[1..]) by { assert files[1..][i - 1] == files[1..][j - 1]; }
          var x :| multiset(files[1..])[x] > 1;
          assert multiset(files)[x] > 1;
        }
      }
    }
  }

  /** Clicking a file keeps a selection without duplicates free of duplicates. */
  lemma ToggleKeepsNoDuplicates(files: seq<string>, item: string)
    requires NoDuplicates(files)
    ensures NoDuplicates(HandleItemClick(files, item).files)
  {
    var r := HandleItemClick(files, item).files;
    NoDuplicatesMultiset(files);
    NoDuplicatesMultiset(r);
    if item !in files {
      assert multiset(files + [item]) == multiset(files) + multiset{item};
    }
  }

  /** `getStat`: the file's count when there are stats and they list it, absent otherwise. */
  function GetStat(stats: Option<Stats>, file: string): (r: Option<int>)
    ensures r.Some? <==> stats.Some? && file in stats.value.counts
    ensures r.Some? ==> r.value == stats.value.counts[file]
  {
    if stats.Some? && file in stats.value.counts then Some(stats.value.counts[file]) else None
  }

  /**
   * `getFileName`: the collapsed path of the referenced component of that key,
   * or the key itself when no component is referenced under it.
   * `collapse` stands for `collapsePath`, which is not part of this model.
   */
  function GetFileName(refs: map<string, ReferencedComponent>, file: string,
                       collapse: (string, int) -> string): (name: string)
    ensures file !in refs ==> name == file
    ensures file in refs ==> name == collapse(refs[file].path, CollapsedPathLength)
  {
    if file in refs then collapse(refs[file].path, CollapsedPathLength) else file
  }

  /**
   * `stats[k]`: the count of a key of the stats object. The sort only ever
   * looks up the object's own keys, so the value given for other keys is never used.
   */
  function Count(counts: map<string, int>, k: string): int
  {
    if k in counts then counts[k] else 0
  }

  /** Counts never increase from left to right. */
  ghost predicate ByDescendingCount(s: seq<string>, counts: map<string, int>)
  {
    forall i, j :: 0 <= i < j < |s| ==> Count(counts, s[i]) >= Count(counts, s[j])
  }

  /** The elements of `s` whose count is `c`, in their order in `s`. */
  function WithCount(s: seq<string>, counts: map<string, int>, c: int): seq<string>
  {
    if s == [] then []
    else (if Count(counts, s[0]) == c then [s[0]] else []) + WithCount(s[1..], counts, c)
  }

  /** Places `x` before the first element whose count is not larger than its own. */
  function InsertByCount(x: string, s: seq<string>, counts: map<string, int>): (r: seq<string>)
    ensures multiset(r) == multiset(s) + multiset{x}
  {
    if s == [] || Count(counts, s[0]) <= Count(counts, x) then [x] + s
    else
      assert s == [s[0]] + s[1..];
      [s[0]] + InsertByCount(x, s[1..], counts)
  }

  /** A key whose count is at least every count of an ordered list can go in front of it. */
  lemma ConsByDescendingCount(y: string, t: seq<string>, counts: map<string, int>)
    requires ByDescendingCount(t, counts)
    requires forall j :: 0 <= j < |t| ==> Count(counts, y) >= Count(counts, t[j])
    ensures ByDescendingCount([y] + t, counts)
  {
    var r := [y] + t;
    forall i, j | 0 <= i < j < |r| ensures Count(counts, r[i]) >= Count(counts, r[j]) {
      assert r[j] == t[j - 1];
      if i > 0 { assert r[i] == t[i - 1]; }
    }
  }

  /** The tail of a list in descending count order is in that order. */
  lemma ByDescendingCountTail(s: seq<string>, counts: map<string, int>)
    requires s != [] && ByDescendingCount(s, counts)
    ensures ByDescendingCount(s[1..], counts)
  {
    forall i, j | 0 <= i < j < |s[1..]| ensures Count(counts, s[1..][i]) >= Count(counts, s[1..][j]) {
      assert s[1..][i] == s[i + 1] && s[1..][j] == s[j + 1];
    }
  }

  /** Inserting into a list in descending count order keeps it in that order. */
  lemma {:induction false} InsertByCountOrdered(x: string, s: seq<string>, counts: map<string, int>)
    requires ByDescendingCount(s, counts)
    ensures ByDescendingCount(InsertByCount(x, s, counts), counts)
  {
    if s == [] || Count(counts, s[0]) <= Count(counts, x) {
      ConsByDescendingCount(x, s, counts);
    } else {
      var t := InsertByCount(x, s[1..], counts);
      ByDescendingCountTail(s, counts);
      InsertByCountOrdered(x, s[1..], counts);
      forall k | 0 <= k < |t| ensures Count(counts, s[0]) >= Count(counts, t[k]) {
        assert t[k] in multiset(s[1..]) + multiset{x};
        if t[k] != x {
          var m :| 0 <= m < |s[1..]| && s[1..][m] == t[k];
          assert s[m + 1] == t[k];
        }
      }
      ConsByDescendingCount(s[0], t, counts);
    }
  }

  /**
   * Lodash `sortBy(keys, k => -counts[k])`: a stable insertion sort by descending count.
   * Each element is inserted ahead of the equal-count elements that follow it in `keys`.
   */
  function SortByCount(keys: seq<string>, counts: map<string, int>): (r: seq<string>)
    ensures multiset(r) == multiset(keys)
    ensures ByDescendingCount(r, counts)
  {
    if keys == [] then []
    else
      assert keys == [keys[0]] + keys[1..];
      InsertByCountOrdered(keys[0], SortByCount(keys[1..], counts), counts);
      InsertByCount(keys[0], SortByCount(keys[1..], counts), counts)
  }

  /** Filtering by count a list with one more key in front. */
  lemma WithCountCons(y: string, t: seq<string>, counts: map<string, int>, c: int)
    ensures WithCount([y] + t, counts, c)
            == (if Count(counts, y) == c then [y] else []) + WithCount(t, counts, c)
  {
    assert ([y] + t)[1..] == t;
  }

  /** Inserting `x` puts it first among the elements of its own count and moves no other. */
  lemma {:induction false} InsertByCountTies(x: string, s: seq<string>, counts: map<string, int>, c: int)
    ensures WithCount(InsertByCount(x, s, counts), counts, c)
            == (if Count(counts, x) == c then [x] else []) + WithCount(s, counts, c)
  {
    var r := InsertByCount(x, s, counts);
    if s == [] || Count(counts, s[0]) <= Count(counts, x) {
      assert r == [x] + s;
      WithCountCons(x, s, counts, c);
    } else {
      var t := InsertByCount(x, s[1..], counts);
      assert r == [s[0]] + t;
      assert s == [s[0]] + s[1..];
      InsertByCountTies(x, s[1..], counts, c);
      WithCountCons(s[0], t, counts, c);
      WithCountCons(s[0], s[1..], counts, c);
      var rest := WithCount(s[1..], counts, c);
      if Count(counts, x) == c {
        assert WithCount(r, counts, c) == [x] + rest;
        assert WithCount(s, counts, c) == rest;
      } else if Count(counts, s[0]) == c {
        assert WithCount(r, counts, c) == [s[0]] + rest;
        assert WithCount(s, counts, c) == [s[0]] + rest;
      } else {
        assert WithCount(r, counts, c) == rest;
        assert WithCount(s, counts, c) == rest;
      }
    }
  }

  /** The sort is stable: the elements of each count keep their order in `keys`. */
  lemma {:induction false} SortByCountStable(keys: seq<string>, counts: map<string, int>, c: int)
    ensures WithCount(SortByCount(keys, counts), counts, c) == WithCount(keys, counts, c)
  {
    if keys != [] {
      InsertByCountTies(keys[0], SortByCount(keys[1..], counts), counts, c);
      SortByCountStable(keys[1..], counts, c);
    }
  }

  /** The values of a list of items, in order. */
  function ItemValues(items: seq<Item>): (vs: seq<string>)
    ensures |vs| == |items| && forall i :: 0 <= i < |items| ==> vs[i] == items[i].value
  {
    seq(|items|, i requires 0 <= i < |items| => items[i].value)
  }

  /** The facet item of one file: its value, selection state, display name and stat. */
  function MakeItem(file: string, stats: Option<Stats>, files: seq<string>,
                    refs: map<string, ReferencedComponent>,
                    collapse: (string, int) -> string): (it: Item)
    ensures it.value == file && it.active == (file in files)
    ensures it.stat == GetStat(stats, file) && it.name == GetFileName(refs, file, collapse)
  {
    Item(file, file in files, GetFileName(refs, file, collapse), GetStat(stats, file))
  }

  /** The sorted keys are the stat keys, in descending count order, each count's keys in key order. */
  lemma SortedStatKeys(st: Stats)
    requires st.WellFormed()
    ensures var sorted := SortByCount(st.keys, st.counts);
      && (forall k :: k in sorted ==> k in st.counts)
      && (forall c :: WithCount(sorted, st.counts, c) == WithCount(st.keys, st.counts, c))
  {
    var sorted := SortByCount(st.keys, st.counts);
    forall k | k in sorted ensures k in st.counts {
      assert k in multiset(st.keys);
    }
    forall c ensures WithCount(sorted, st.counts, c) == WithCount(st.keys, st.counts, c) {
      SortByCountStable(st.keys, st.counts, c);
    }
  }

  /**
   * `renderList`: nothing without stats; otherwise one item per stat key, by
   * descending count with ties in key order, active exactly when the file is selected.
   */
  function RenderList(stats: Option<Stats>, files: seq<string>,
                      refs: map<string, ReferencedComponent>,
                      collapse: (string, int) -> string): (items: Option<seq<Item>>)
    requires stats.Some? ==> stats.value.WellFormed()
    ensures stats.None? <==> items.None?
    ensures items.Some? ==>
      && multiset(ItemValues(items.value)) == multiset(stats.value.keys)
      && ByDescendingCount(ItemValues(items.value), stats.value.counts)
      && (forall c :: WithCount(ItemValues(items.value), stats.value.counts, c)
                      == WithCount(stats.value.keys, stats.value.counts, c))
      && (forall i :: 0 <= i < |items.value| ==>
            var it := items.value[i];
            && it.value in stats.value.counts
            && it.active == (it.value in files)
            && it.stat == Some(stats.value.counts[it.value])
            && it.name == GetFileName(refs, it.value, collapse))
  {
    match stats
    case None => None
    case Some(st) =>
      var sorted := SortByCount(st.keys, st.counts);
      var items := seq(|sorted|, i requires 0 <= i < |sorted| => MakeItem(sorted[i], stats, files, refs, collapse));
      assert ItemValues(items) == sorted;
      SortedStatKeys(st);
      Some(items)
  }
}
