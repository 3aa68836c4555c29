/** `getDBFeatureClasses` (serviceData.py): the upper-cased listing of one
    database workspace. The listings themselves come from the GIS library
    and are inputs here. */
module Catalogs {
  import opened Text

  /** The feature classes and tables listed inside one feature dataset. */
  datatype DatasetListing = DatasetListing(name: string, featureClasses: seq<string>, tables: seq<string>)

  /** What the workspace lists at its top level, and inside each dataset. */
  datatype WorkspaceListing = WorkspaceListing(
    featureClasses: seq<string>,
    tables: seq<string>,
    datasets: seq<DatasetListing>)

  function UpperAll(names: seq<string>): (r: seq<string>)
    ensures |r| == |names|
    ensures forall i :: 0 <= i < |names| ==> r[i] == Upper(names[i])
  {
    seq(|names|, i requires 0 <= i < |names| => Upper(names[i]))
  }

  /** Each dataset contributes its feature classes, then its tables. */
  function NestedContent(datasets: seq<DatasetListing>): seq<string> {
    if |datasets| == 0 then []
    else
      var last := datasets[|datasets| - 1];
      NestedContent(datasets[..|datasets| - 1]) + UpperAll(last.featureClasses) + UpperAll(last.tables)
  }

  /** The catalog of a workspace in listing order: top-level feature
      classes, top-level tables, then the contents of each dataset. */
  function CatalogOf(w: WorkspaceListing): seq<string> {
    UpperAll(w.featureClasses) + UpperAll(w.tables) + NestedContent(w.datasets)
  }

  /** A name the workspace lists at the top level or one dataset down.
      Dataset names themselves are not catalog members. */
  predicate Listed(w: WorkspaceListing, name: string) {
    || name in w.featureClasses
    || name in w.tables
    || exists k :: 0 <= k < |w.datasets| && (name in w.datasets[k].featureClasses || name in w.datasets[k].tables)
  }

  predicate ListedIn(datasets: seq<DatasetListing>, name: string) {
    exists k :: 0 <= k < |datasets| && (name in datasets[k].featureClasses || name in datasets[k].tables)
  }

  lemma {:induction false} NestedContentMembers(datasets: seq<DatasetListing>, x: string)
    ensures x in NestedContent(datasets) <==> exists n :: ListedIn(datasets, n) && Upper(n) == x
  {
    if |datasets| > 0 {
      var init := datasets[..|datasets| - 1];
      var last := datasets[|datasets| - 1];
      NestedContentMembers(init, x);
      assert forall n :: ListedIn(datasets, n) <==>
                          ListedIn(init, n) || n in last.featureClasses || n in last.tables by {
        forall n ensures ListedIn(init, n) ==> ListedIn(datasets, n) {
          if ListedIn(init, n) {
            var k :| 0 <= k < |init| && (n in init[k].featureClasses || n in init[k].tables);
            assert init[k] == datasets[k];
          }
        }
      }
      if x in UpperAll(last.featureClasses) {
        var i :| 0 <= i < |last.featureClasses| && UpperAll(last.featureClasses)[i] == x;
        assert ListedIn(datasets, last.featureClasses[i]);
      }
      if x in UpperAll(last.tables) {
        var i :| 0 <= i < |last.tables| && UpperAll(last.tables)[i] == x;
        assert ListedIn(datasets, last.tables[i]);
      }
    }
  }

  /** A string is in the catalog exactly when it is the upper-cased form of
      a listed name, and every catalog entry is upper-case. */
  lemma CatalogMembers(w: WorkspaceListing, x: string)
    ensures x in CatalogOf(w) <==> exists n :: Listed(w, n) && Upper(n) == x
    ensures x in CatalogOf(w) ==> IsUpper(x)
  {
    NestedContentMembers(w.datasets, x);
    assert forall n :: Listed(w, n) <==> n in w.featureClasses || n in w.tables || ListedIn(w.datasets, n);
    if x in UpperAll(w.featureClasses) {
      var i :| 0 <= i < |w.featureClasses| && UpperAll(w.featureClasses)[i] == x;
      assert Listed(w, w.featureClasses[i]);
    }
    if x in UpperAll(w.tables) {
      var i :| 0 <= i < |w.tables| && UpperAll(w.tables)[i] == x;
      assert Listed(w, w.tables[i]);
    }
    if x in CatalogOf(w) {
      var n :| Listed(w, n) && Upper(n) == x;
      UpperIsUpper(n);
    }
  }

  /** Appends the upper-cased form of every name, in order. */
  method AppendUpper(content: seq<string>, names: seq<string>) returns (r: seq<string>)
    ensures r == content + UpperAll(names)
  {
    r := content;
    var i := 0;
    while i < |names|
      invariant 0 <= i <= |names|
      invariant r == content + UpperAll(names[..i])
    {
      assert UpperAll(names[..i + 1]) == UpperAll(names[..i]) + [Upper(names[i])];
      r := r + [Upper(names[i])];
      i := i + 1;
    }
    assert names[..|names|] == names;
  }

  /** The source's loops: top-level feature classes, top-level tables, then
      for each dataset its feature classes and tables, all upper-cased. */
  method GetDBFeatureClasses(w: WorkspaceListing) returns (content: seq<string>)
    ensures content == CatalogOf(w)
    ensures |content| >= |w.featureClasses| + |w.tables|
  {
    content := AppendUpper([], w.featureClasses);
    content := AppendUpper(content, w.tables);
    var k := 0;
    while k < |w.datasets|
      invariant 0 <= k <= |w.datasets|
      invariant content == UpperAll(w.featureClasses) + UpperAll(w.tables) + NestedContent(w.datasets[..k])
    {
      assert w.datasets[..k + 1][..k] == w.datasets[..k];
      content := AppendUpper(content, w.datasets[k].featureClasses);
      content := AppendUpper(content, w.datasets[k].tables);
      k := k + 1;
    }
    assert w.datasets[..|w.datasets|] == w.datasets;
  }
}
