/** `checkIfMissingAssets` (serviceData.py): the deduplicated asset list is
    checked against the catalog of every configured database, with a
    fallback to the last path component. */
module Reconciler {
  import opened Wrappers
  import opened Text
  import opened Catalogs

  /** One configured database: its name and what its workspace lists. */
  datatype CatalogConfig = CatalogConfig(name: string, workspace: WorkspaceListing)

  /** The fallback applies to a candidate holding a `\` and no `"`. */
  predicate HasFallback(d: string) {
    '\\' in d && '"' !in d
  }

  /** `rsplit('\\', 1)[1]`: the text after the last `\`. */
  function Basename(d: string): string
    requires '\\' in d
  {
    SplitLast(d, '\\').value.1
  }

  /** What one catalog reports for one candidate: nothing when the
      upper-cased candidate, or for a fallback candidate its upper-cased
      basename, is listed; otherwise the basename or the candidate itself. */
  function Report(d: string, catalog: seq<string>): Option<string> {
    if Upper(d) !in catalog then
      if HasFallback(d) then
        if Upper(Basename(d)) !in catalog then Some(Basename(d)) else None
      else
        Some(d)
    else
      None
  }

  function AsSeq(o: Option<string>): seq<string> {
    if o.Some? then [o.value] else []
  }

  /** The reports of one catalog, in candidate order. */
  function CatalogReports(assets: seq<string>, catalog: seq<string>): seq<string> {
    if |assets| == 0 then []
    else CatalogReports(assets[..|assets| - 1], catalog) + AsSeq(Report(assets[|assets| - 1], catalog))
  }

  /** The missing list: each catalog's reports, catalog after catalog. */
  function MissingFrom(assets: seq<string>, catalogs: seq<seq<string>>): seq<string> {
    if |catalogs| == 0 then []
    else MissingFrom(assets, catalogs[..|catalogs| - 1]) + CatalogReports(assets, catalogs[|catalogs| - 1])
  }

  function CatalogsOf(configs: seq<CatalogConfig>): (r: seq<seq<string>>)
    ensures |r| == |configs|
    ensures forall i :: 0 <= i < |configs| ==> r[i] == CatalogOf(configs[i].workspace)
  {
    seq(|configs|, i requires 0 <= i < |configs| => CatalogOf(configs[i].workspace))
  }

  /** The inner loop for one catalog: each candidate in order, reported
      unchanged, or as its basename when the fallback was tried, unless the
      catalog lists it. */
  method ReportMissing(assets: seq<string>, catalog: seq<string>) returns (reports: seq<string>)
    ensures reports == CatalogReports(assets, catalog)
  {
    reports := [];
    var j := 0;
    while j < |assets|
      invariant 0 <= j <= |assets|
      invariant reports == CatalogReports(assets[..j], catalog)
    {
      assert assets[..j + 1][..j] == assets[..j];
      assert CatalogReports(assets[..j + 1], catalog)
             == CatalogReports(assets[..j], catalog) + AsSeq(Report(assets[j], catalog));
      var d := assets[j];
      if Upper(d) !in catalog {
        if '\\' in d && '"' !in d {
          d := SplitLast(d, '\\').value.1;
          if Upper(d) !in catalog {
            reports := reports + [d];
          }
        } else {
          reports := reports + [d];
        }
      }
      j := j + 1;
    }
    assert assets[..|assets|] == assets;
  }

  /** `checkIfMissingAssets`: for every configured database in order, list
      its catalog and append what it reports missing. */
  method CheckIfMissingAssets(assets: seq<string>, configs: seq<CatalogConfig>) returns (missing: seq<string>)
    ensures missing == MissingFrom(assets, CatalogsOf(configs))
  {
    ghost var catalogs := CatalogsOf(configs);
    missing := [];
    var i := 0;
    while i < |configs|
      invariant 0 <= i <= |configs|
      invariant missing == MissingFrom(assets, catalogs[..i])
    {
      var catalog := GetDBFeatureClasses(configs[i].workspace);
      var reports := ReportMissing(assets, catalog);
      assert catalogs[..i + 1][..i] == catalogs[..i];
      missing := missing + reports;
      i := i + 1;
    }
    assert catalogs[..|configs|] == catalogs;
  }

  // ---------------------------------------------------------------------------
  // Properties
  // ---------------------------------------------------------------------------

  /** The per-catalog rule: a listed candidate is silent; a fallback
      candidate whose upper-cased basename is listed is silent; any other
      candidate is reported once, as its basename when the fallback was
      tried and unchanged otherwise. */
  lemma ReportRule(d: string, catalog: seq<string>)
    ensures Upper(d) in catalog ==> Report(d, catalog).None?
    ensures HasFallback(d) && Upper(Basename(d)) in catalog ==> Report(d, catalog).None?
    ensures Upper(d) !in catalog && !(HasFallback(d) && Upper(Basename(d)) in catalog) ==>
              Report(d, catalog) == Some(if HasFallback(d) then Basename(d) else d)
  {
  }

  /** The fallback compares the text after the last `\`. */
  lemma BasenameOfPath(dir: string, name: string)
    requires '\\' !in name
    ensures '\\' in dir + "\\" + name
    ensures Basename(dir + "\\" + name) == name
  {
    SplitLastOfJoin(dir, '\\', name);
  }

  /** Reports keep candidate order: the reports for `a + b` are those for
      `a` followed by those for `b`. */
  lemma {:induction false} CatalogReportsAppend(a: seq<string>, b: seq<string>, catalog: seq<string>)
    ensures CatalogReports(a + b, catalog) == CatalogReports(a, catalog) + CatalogReports(b, catalog)
  {
    if |b| == 0 {
      assert a + b == a;
    } else {
      var b' := b[..|b| - 1];
      CatalogReportsAppend(a, b', catalog);
      assert (a + b)[..|a + b| - 1] == a + b';
      assert (a + b)[|a + b| - 1] == b[|b| - 1];
    }
  }

  /** Some candidate makes `catalog` report `r`. */
  predicate ReportedBy(assets: seq<string>, catalog: seq<string>, r: string) {
    exists j :: 0 <= j < |assets| && Report(assets[j], catalog) == Some(r)
  }

  /** A string is among one catalog's reports exactly when the catalog
      reports it for some candidate. */
  lemma {:induction false} CatalogReportsMembers(assets: seq<string>, catalog: seq<string>, r: string)
    ensures r in CatalogReports(assets, catalog) <==> ReportedBy(assets, catalog, r)
  {
    if |assets| > 0 {
      var n := |assets| - 1;
      var init := assets[..n];
      CatalogReportsMembers(init, catalog, r);
      assert forall j :: 0 <= j < n ==> init[j] == assets[j];
      assert CatalogReports(assets, catalog) == CatalogReports(init, catalog) + AsSeq(Report(assets[n], catalog));
      if ReportedBy(assets, catalog, r) {
        var j :| 0 <= j < |assets| && Report(assets[j], catalog) == Some(r);
        if j < n {
          assert ReportedBy(init, catalog, r);
        }
      }
      if ReportedBy(init, catalog, r) {
        var j :| 0 <= j < n && Report(init[j], catalog) == Some(r);
        assert Report(assets[j], catalog) == Some(r);
      }
    }
  }

  /** The lists of `xss` one after another. */
  function Concat(xss: seq<seq<string>>): seq<string> {
    if |xss| == 0 then [] else Concat(xss[..|xss| - 1]) + xss[|xss| - 1]
  }

  lemma {:induction false} ConcatMembers(xss: seq<seq<string>>, r: string)
    ensures r in Concat(xss) <==> exists i :: 0 <= i < |xss| && r in xss[i]
  {
    if |xss| > 0 {
      var n := |xss| - 1;
      var init := xss[..n];
      ConcatMembers(init, r);
      assert forall i :: 0 <= i < n ==> init[i] == xss[i];
    }
  }

  /** Each catalog's reports, in configured order. */
  function ReportLists(assets: seq<string>, catalogs: seq<seq<string>>): (r: seq<seq<string>>)
    ensures |r| == |catalogs|
    ensures forall i :: 0 <= i < |catalogs| ==> r[i] == CatalogReports(assets, catalogs[i])
  {
    seq(|catalogs|, i requires 0 <= i < |catalogs| => CatalogReports(assets, catalogs[i]))
  }

  /** The missing list is the catalogs' reports one after another. */
  lemma {:induction false} MissingIsConcat(assets: seq<string>, catalogs: seq<seq<string>>)
    ensures MissingFrom(assets, catalogs) == Concat(ReportLists(assets, catalogs))
  {
    if |catalogs| > 0 {
      var n := |catalogs| - 1;
      MissingIsConcat(assets, catalogs[..n]);
      assert ReportLists(assets, catalogs)[..n] == ReportLists(assets, catalogs[..n]);
    }
  }

  /** A string is missing exactly when some catalog reports it for some
      candidate. */
  lemma MissingMembers(assets: seq<string>, catalogs: seq<seq<string>>, r: string)
    ensures r in MissingFrom(assets, catalogs) <==>
              exists i :: 0 <= i < |catalogs| && ReportedBy(assets, catalogs[i], r)
  {
    MissingIsConcat(assets, catalogs);
    ConcatMembers(ReportLists(assets, catalogs), r);
    forall i | 0 <= i < |catalogs|
      ensures r in CatalogReports(assets, catalogs[i]) <==> ReportedBy(assets, catalogs[i], r)
    {
      CatalogReportsMembers(assets, catalogs[i], r);
    }
  }

  /** The indices of the catalogs that report candidate `d`. */
  function MissedIn(d: string, catalogs: seq<seq<string>>): set<nat> {
    set i: nat | i < |catalogs| && Report(d, catalogs[i]).Some?
  }

  /** Adding a catalog adds its index exactly when it reports `d`. */
  lemma MissedInStep(d: string, catalogs: seq<seq<string>>)
    requires |catalogs| > 0
    ensures var n := |catalogs| - 1;
            && n !in MissedIn(d, catalogs[..n])
            && MissedIn(d, catalogs) == MissedIn(d, catalogs[..n]) + (if Report(d, catalogs[n]).Some? then {n} else {})
  {
    var n := |catalogs| - 1;
    assert forall i :: 0 <= i < n ==> catalogs[..n][i] == catalogs[i];
  }

  /** A candidate missing from k catalogs is reported k times. */
  lemma {:induction false} ReportedOncePerCatalog(d: string, catalogs: seq<seq<string>>)
    ensures |MissingFrom([d], catalogs)| == |MissedIn(d, catalogs)|
  {
    if |catalogs| > 0 {
      var n := |catalogs| - 1;
      ReportedOncePerCatalog(d, catalogs[..n]);
      assert [d][..0] == [];
      assert CatalogReports([d], catalogs[n]) == AsSeq(Report(d, catalogs[n]));
      MissedInStep(d, catalogs);
    }
  }

  /** Counted with multiplicity, the missing list of `a + b` is the missing
      list of `a` together with that of `b`. */
  lemma {:induction false} MissingFromAppend(a: seq<string>, b: seq<string>, catalogs: seq<seq<string>>)
    ensures multiset(MissingFrom(a + b, catalogs)) == multiset(MissingFrom(a, catalogs)) + multiset(MissingFrom(b, catalogs))
  {
    if |catalogs| > 0 {
      var n := |catalogs| - 1;
      MissingFromAppend(a, b, catalogs[..n]);
      CatalogReportsAppend(a, b, catalogs[n]);
    }
  }

  /** The text a candidate is reported as: its basename when the fallback
      was tried, the candidate itself otherwise. */
  function ReportedName(d: string): string {
    if HasFallback(d) then Basename(d) else d
  }

  /** Every report for a single candidate is that candidate's reported name. */
  lemma {:induction false} SingleCandidateReports(d: string, catalogs: seq<seq<string>>)
    ensures forall k :: 0 <= k < |MissingFrom([d], catalogs)| ==> MissingFrom([d], catalogs)[k] == ReportedName(d)
  {
    if |catalogs| > 0 {
      var n := |catalogs| - 1;
      SingleCandidateReports(d, catalogs[..n]);
      assert [d][..0] == [];
      assert CatalogReports([d], catalogs[n]) == AsSeq(Report(d, catalogs[n]));
    }
  }

  /** A sequence holding only `x` counts `x` once per element. */
  lemma {:induction false} CountOfConstant(s: seq<string>, x: string)
    requires forall k :: 0 <= k < |s| ==> s[k] == x
    ensures multiset(s)[x] == |s|
  {
    if |s| > 0 {
      var init := s[..|s| - 1];
      CountOfConstant(init, x);
      assert s == init + [x];
    }
  }

  /** A candidate that `k` catalogs miss adds its reported name exactly `k`
      times to the missing list, wherever it stands among the candidates,
      and adds nothing else. */
  lemma ReportedKTimes(a: seq<string>, d: string, b: seq<string>, catalogs: seq<seq<string>>, x: string)
    ensures multiset(MissingFrom(a + [d] + b, catalogs))[x]
            == multiset(MissingFrom(a, catalogs))[x] + multiset(MissingFrom(b, catalogs))[x]
               + (if x == ReportedName(d) then |MissedIn(d, catalogs)| else 0)
  {
    MissingFromAppend(a + [d], b, catalogs);
    MissingFromAppend(a, [d], catalogs);
    var single := MissingFrom([d], catalogs);
    SingleCandidateReports(d, catalogs);
    ReportedOncePerCatalog(d, catalogs);
    if x == ReportedName(d) {
      CountOfConstant(single, x);
    } else {
      assert x !in single;
    }
  }

  /** With one catalog and no candidate holding a `\`, the missing list is
      the candidates whose upper-cased form is not listed, in order. */
  lemma {:induction false} SingleCatalogDifference(assets: seq<string>, catalog: seq<string>, x: string)
    requires forall j :: 0 <= j < |assets| ==> '\\' !in assets[j]
    ensures x in MissingFrom(assets, [catalog]) <==> x in assets && Upper(x) !in catalog
  {
    MissingMembers(assets, [catalog], x);
    assert [catalog][0] == catalog;
  }

  /** A fallback candidate whose basename every catalog lists is never
      reported. */
  lemma {:induction false} FallbackSatisfied(dir: string, name: string, catalogs: seq<seq<string>>)
    requires '\\' !in name && '"' !in dir && '"' !in name
    requires forall i :: 0 <= i < |catalogs| ==> Upper(name) in catalogs[i]
    ensures MissingFrom([dir + "\\" + name], catalogs) == []
  {
    var d := dir + "\\" + name;
    BasenameOfPath(dir, name);
    if |catalogs| > 0 {
      var n := |catalogs| - 1;
      assert forall i :: 0 <= i < n ==> catalogs[..n][i] == catalogs[i];
      FallbackSatisfied(dir, name, catalogs[..n]);
      assert [d][..0] == [];
      assert '"' !in d;
      assert Upper(name) in catalogs[n];
      assert Report(d, catalogs[n]).None?;
      assert CatalogReports([d], catalogs[n]) == [];
    }
  }
}
