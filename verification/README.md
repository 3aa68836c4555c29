# Service data-source reconciliation, modelled in Dafny

This project models the reconciliation core of `serviceData.py`. That script
audits published ArcGIS REST services against the enterprise geodatabases
behind them. For every service it reads the deployment manifest. It
classifies each `OnPremiseConnectionString` as a file geodatabase or an
enterprise database and extracts a catalog-relative path for each
`SVCDataset`. It records the publishing document from `SVCResource`. It
collects the non-query enterprise paths and deduplicates them. Finally it
checks that list against the upper-cased feature-class and table listing of
every configured database and reports what is missing.

The model starts from already-parsed data. A manifest is three sequences:
the `SVCResource` path texts, the connection-string texts and the
seven-field dataset records. The GIS library's workspace listings are
inputs too. Everything else is pure functions over strings and sequences,
plus four loop methods that mirror the source's loops: `Catalogs.AppendUpper`,
`Catalogs.GetDBFeatureClasses`, `Reconciler.ReportMissing` and
`Reconciler.CheckIfMissingAssets`.

Modules:

- `Wrappers` (`wrappers.dfy`): `Option` and `Result`.
- `Text` (`text.dfy`): the Python string operations the code uses, namely
  ASCII `upper()`, substring `in` and `find`, `replace(marker, '')`,
  `split(';')` and `rsplit('\\', 1)`, with their round-trip lemmas.
- `ConnectionStrings` (`connection.dfy`): connection-string classification.
- `Manifests` (`manifest.dfy`): the source-document split, the layer loop,
  one manifest, all services, and the deduplication of the asset list.
- `Catalogs` (`catalog.dfy`): `getDBFeatureClasses`.
- `Reconciler` (`reconcile.dfy`): `checkIfMissingAssets`.

Points of the code's behaviour worth stating explicitly:

- The relative path is cut at the **first** marker (`find`), not the last.
  Then **every** marker is removed (`replace`), so later markers vanish from
  the middle of the path (`Manifests.RelativePathDropsLaterMarkers`).
- The reconciler appends a report **once per catalog** that misses an item,
  so an item missing from several databases is listed several times
  (`Reconciler.ReportedKTimes`).
- A file-geodatabase connection gets the instance text `**File Geodatabase**`,
  not an empty instance.
- Its database is the text with **every** `DATABASE=` removed.
- Classification fails on a token index only in two cases: with at most
  three tokens, or with exactly four tokens when token 3 holds
  `DB_CONNECTION_PROPERTIES`. Python's `and` stops before reading token 4
  when token 3 does not match, so four tokens without that key are simply
  unrecognised.
- A three-token string whose first two tokens are the
  `DB_CONNECTION_PROPERTIES=` and `DATABASE=` entries is therefore not an
  enterprise connection: it fails on the index, because the code looks for
  those entries at positions 3 and 4 only
  (`ConnectionStrings.ShortEnterpriseTextFails`).
- An index failure is not caught anywhere in the code, so it ends the whole
  run. The model returns `Failure` for the whole survey.

## Model

| member | source | states |
|---|---|---|
| Text.UpperIsUpper | serviceData.py:362-372 | upper-casing gives an upper-case string, is idempotent, and fixes exactly the strings that are already upper-case |
| Text.Find | serviceData.py:255 | `find` returns a position where the pattern occurs with no earlier occurrence, and returns nothing exactly when the pattern occurs nowhere |
| Text.RemoveAllAbsent | serviceData.py:249 | `replace(p, '')` leaves a string without `p` unchanged |
| Text.RemoveAllAfterCleanPrefix | serviceData.py:256 | when a marker whose last character is unique follows a marker-free prefix, `replace` keeps the prefix and drops that marker |
| Text.FindAfterCleanPrefix | serviceData.py:255 | `find` of such a marker lands right after a marker-free prefix |
| Text.Split | serviceData.py:246 | `split(';')` yields at least one token, no token holds `;`, joining the tokens with `;` gives back the text, and there is one token exactly when the text has no `;` |
| Text.SplitJoin | serviceData.py:246 | splitting undoes joining when no token holds the separator |
| Text.SplitLast | serviceData.py:239-240 | `rsplit('\\', 1)` fails exactly when there is no `\`; otherwise head, `\` and tail rebuild the text and the tail holds no `\` |
| Text.SplitLastOfJoin | serviceData.py:389 | the split point is the last separator: `head + '\' + tail` with a `\`-free tail splits back into `head` and `tail` |
| ConnectionStrings.ClassifyShape | serviceData.py:246-297 | file geodatabase exactly for `;`-free text containing `DATABASE` and `.gdb`, with the fixed instance text and the database being the text with `DATABASE=` removed; enterprise exactly when token 3 holds `DB_CONNECTION_PROPERTIES` and token 4 holds `DATABASE`, with those prefixes removed; index failure exactly for the short shapes |
| ConnectionStrings.FiveTokensNeverFail | serviceData.py:294-297 | five or more tokens never fail on an index |
| ConnectionStrings.FileGeodatabaseConnection | serviceData.py:247-249 | `DATABASE=` + a `;`-free `.gdb` path classifies as a file geodatabase whose database is exactly that path |
| ConnectionStrings.EnterpriseConnection | serviceData.py:295-297 | a joined string whose tokens 3 and 4 are `DB_CONNECTION_PROPERTIES=i` and `DATABASE=d` classifies as enterprise with instance `i` and database `d` |
| ConnectionStrings.ShortEnterpriseTextFails | serviceData.py:295 | a three-token string starting with those two entries fails on the token index |
| Manifests.SourceDocSplit | serviceData.py:237-243 | fails exactly for an `.aprx`/`.mxd` path without `\`; otherwise location + `\` + document equals the path and the document has no `\`; any other path is its own document with an empty location |
| Manifests.SourceDocument | serviceData.py:236-243 | fails exactly when some resource fails, with the first failing resource's error; otherwise the last resource decides, and no resource gives none |
| Manifests.QueryFlag | serviceData.py:261-264 | the flag is `Yes` or `No`, and `Yes` exactly when the layer name contains `(query layer)` |
| Manifests.RelativePathAfterCleanPrefix | serviceData.py:255-256 | when the text before the first marker is marker-free, the relative path is what `replace` leaves of the text after that marker |
| Manifests.LayerSourceOfJoin | serviceData.py:250-304 | for the real markers `.gdb\` and `.sde\`, a dataset path `prefix + marker + rel` with neither part holding the marker gives exactly `rel` as the layer source |
| Manifests.RelativePathOfJoin | serviceData.py:255-256 | for `prefix + marker + rel` with neither part holding the marker, the extracted relative path is exactly `rel` |
| Manifests.RelativePathDropsLaterMarkers | serviceData.py:303-304 | every later marker is removed as well, so `prefix + m + middle + m + rel` yields `middle + rel` |
| Manifests.ExtractLayers | serviceData.py:250-324 | no more assets than rows and no more rows than datasets; assets are exactly the relative paths of non-query `.sde\` datasets of an enterprise connection; a file geodatabase contributes no asset |
| Manifests.ExtractLayersRows | serviceData.py:250-324 | every row is the row of a dataset carrying the connection kind's marker, and every such dataset has its row |
| Manifests.KeptIndices | serviceData.py:249-250 | the indices of the datasets whose path carries the marker, strictly increasing, each such dataset's index included and no other |
| Manifests.ExtractLayersOrder | serviceData.py:249-324 | the dataset loop writes exactly one row per dataset carrying the marker, in dataset order: row `k` is the row of the `k`-th such dataset |
| Manifests.ConnectionRowIn | serviceData.py:246-299 | for a recognised connection string, the rows it writes are exactly the dataset loop's rows for its connection |
| Manifests.ManifestLayersRows | serviceData.py:244-324 | a manifest's rows are exactly the rows that its recognised connection strings write for the datasets carrying their marker; an unrecognised string writes none |
| Manifests.UnrecognizedConnectionSkipped | serviceData.py:294-295 | an unrecognised connection string adds no row, no asset and no failure: the manifest's result is that of the remaining strings |
| Manifests.ManifestLayers | serviceData.py:245-324 | fails exactly when some connection string fails on an index; otherwise an asset is exactly a path from a recognised enterprise string and a non-query `.sde\` dataset, over all pairs |
| Manifests.RepeatedConnectionRepeatsLayers | serviceData.py:245-250 | the dataset loop reruns for every connection string, so a repeated string repeats every row and asset |
| Manifests.ProcessManifest | serviceData.py:233-324 | a manifest fails exactly when its source document or one of its connection strings fails; its assets are characterised as above |
| Manifests.Dedup | serviceData.py:346 | the result has no duplicates and exactly the members of the payload |
| Manifests.Collect | serviceData.py:204-324 | the survey fails exactly when some service's manifest fails; the payload's members are exactly the enterprise assets of all services |
| Manifests.FindServicesData | serviceData.py:204-348 | the returned asset list is duplicate-free and holds exactly the enterprise, non-query assets of all services |
| Catalogs.CatalogMembers | serviceData.py:360-374 | a string is in a catalog exactly when it is the upper-cased form of a listed feature class or table, top-level or one dataset down, and every entry is upper-case |
| Catalogs.AppendUpper | serviceData.py:361-364 | each listing is appended upper-cased and in order |
| Catalogs.GetDBFeatureClasses | serviceData.py:350-374 | the loops build top-level feature classes, then top-level tables, then each dataset's feature classes and tables, upper-cased, in listing order |
| Reconciler.ReportMissing | serviceData.py:386-396 | the inner loop produces exactly one catalog's reports in candidate order |
| Reconciler.CheckIfMissingAssets | serviceData.py:376-397 | the missing list is each configured catalog's reports, catalog after catalog in configured order |
| Reconciler.ReportRule | serviceData.py:387-396 | a listed candidate is silent; a candidate with `\` and no `"` whose upper-cased last component is listed is silent; anything else is reported once, as its last component when it has `\` and no `"`, else unchanged |
| Reconciler.BasenameOfPath | serviceData.py:389 | the fallback compares the text after the last `\` |
| Reconciler.CatalogReportsAppend | serviceData.py:386-396 | one catalog's reports keep candidate order |
| Reconciler.CatalogReportsMembers | serviceData.py:386-396 | a string is among one catalog's reports exactly when that catalog reports it for some candidate |
| Reconciler.MissingIsConcat | serviceData.py:381-397 | the missing list is each configured catalog's reports one after another |
| Reconciler.MissingMembers | serviceData.py:381-397 | a string is missing exactly when some catalog reports it for some candidate |
| Reconciler.ReportedOncePerCatalog | serviceData.py:382-396 | a candidate missing from k catalogs appears k times |
| Reconciler.MissingFromAppend | serviceData.py:381-397 | counted with multiplicity, the missing list of `a + b` is the missing list of `a` together with that of `b` |
| Reconciler.SingleCandidateReports | serviceData.py:387-396 | every report for one candidate is its basename when the fallback was tried and the candidate itself otherwise |
| Reconciler.ReportedKTimes | serviceData.py:381-397 | a candidate that `k` catalogs miss adds its reported name exactly `k` times to the missing list, wherever it stands among the candidates, and adds nothing else |
| Reconciler.SingleCatalogDifference | serviceData.py:386-396 | with one catalog and no `\` in any candidate, the missing strings are exactly the candidates whose upper-cased form is not listed |
| Reconciler.FallbackSatisfied | serviceData.py:388-394 | a candidate `dir\name` without `"` whose upper-cased `name` every catalog lists is never reported |

## Left out

- Token fetch, folder and service listing, and the manifest and lifecycle HTTP calls (serviceData.py:133-194, 222-234) are network I/O. Services arrive as inputs with their folder, name, last-update text and public URL already formed.
- XML parsing is done by a foreign library. Records always have seven fields, so the index failure for a dataset with fewer children cannot arise. `None` element text is not represented either.
- The conversion of the last-modified milliseconds into a local timestamp depends on floating point and the time zone.
- CSV writing and its swallowed exceptions are file I/O. Rows are returned as values. Rows written before a later index failure are not in the model's failure result.
- The arcpy listing calls are foreign, so workspace listings are inputs.
- The HTML, MIME and SMTP notification (serviceData.py:399-525) is I/O. So is `main`, which only passes the asset list on to the reconciler and the notifier.
- Folder filtering and sorting, the service-type filter and the URL substitution are glue.
- Module-level configuration and the unused `concurrent.futures` import are left out. The configured databases are a parameter of `Reconciler.CheckIfMissingAssets`.
- Text.Upper: maps only ASCII `a`–`z`. Python's `str.upper()` is Unicode-wide and can change a string's length.
- Manifests.Dedup: keeps first occurrences. Python's `[*set(...)]` has an unspecified order, so the contract states only membership and absence of duplicates.
- Manifests.SourceDocument: a manifest without any `SVCResource` gives `None`. The source would then reuse the previous service's document or fail inside the swallowed CSV write.
