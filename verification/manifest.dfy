/** The layer loop of `findServicesData` (serviceData.py): a parsed service
    manifest becomes report rows and the list of enterprise-database assets
    to reconcile, and the assets of all services are deduplicated. */
module Manifests {
  import opened Wrappers
  import opened Text
  import opened ConnectionStrings

  /** One `SVCDataset` element: its seven children in document order. */
  datatype Dataset = Dataset(
    layerId: string,
    layerName: string,
    path: string,
    serverPath: string,
    packagePath: string,
    serverName: string,
    dataType: string)

  /** A parsed manifest: the fourth-child text of every `SVCResource`, the
      text of every `OnPremiseConnectionString`, and every `SVCDataset`,
      each in document order. */
  datatype Manifest = Manifest(resources: seq<string>, connections: seq<string>, datasets: seq<Dataset>)

  /** A published service as the enumeration hands it over, with its
      already formatted public URL and last-modified time. */
  datatype Service = Service(folder: string, name: string, lastUpdated: string, url: string, manifest: Manifest)

  /** The publishing document and the folder holding it. */
  datatype SourceDoc = SourceDoc(document: string, location: string)

  /** The two out-of-range index accesses that abort the whole run. */
  datatype Failure =
    | ConnectionIndexError(connection: string)
    | SourceDocIndexError(path: string)

  /** One report row: the eleven CSV columns. `sourceDoc` is `None` when the
      manifest has no `SVCResource`. */
  datatype LayerRow = LayerRow(
    folder: string,
    serviceName: string,
    lastUpdated: string,
    layerName: string,
    queryLayer: string,
    layerSource: string,
    instance: string,
    database: string,
    sourceDoc: Option<SourceDoc>,
    serviceUrl: string)

  /** Report rows and the asset payload gathered from them. */
  datatype Extraction = Extraction(rows: seq<LayerRow>, assets: seq<string>)

  const GdbMarker: string := ".gdb\\"
  const SdeMarker: string := ".sde\\"
  const QueryLayerTag: string := "(query layer)"

  /** The path marker a dataset must carry to belong to a connection kind. */
  function Marker(kind: StoreKind): string {
    match kind
    case FileGeodatabase => GdbMarker
    case EnterpriseDatabase => SdeMarker
  }

  /** The last character of each marker, the `\`, occurs nowhere else in
      it, which is what makes the first-marker cut well behaved. */
  lemma MarkersLastCharUnique()
    ensures LastCharUnique(GdbMarker) && LastCharUnique(SdeMarker)
  {
  }

  // ---------------------------------------------------------------------------
  // Source document
  // ---------------------------------------------------------------------------

  predicate IsProjectDocument(raw: string) {
    Contains(raw, ".aprx") || Contains(raw, ".mxd")
  }

  /** A project or map document path is split at its last `\`; any other
      text is the document itself with an empty location. */
  function SplitSourceDoc(raw: string): Result<SourceDoc, Failure> {
    if IsProjectDocument(raw) then
      match SplitLast(raw, '\\')
      case None => Failure(SourceDocIndexError(raw))
      case Some((location, document)) => Success(SourceDoc(document, location))
    else
      Success(SourceDoc(raw, ""))
  }

  /** The split fails exactly for a project or map document path without
      any `\`; otherwise location, `\` and document rebuild the path and the
      document holds no `\`, and any other path is its own document. */
  lemma SourceDocSplit(raw: string)
    ensures SplitSourceDoc(raw).Failure? <==> IsProjectDocument(raw) && '\\' !in raw
    ensures SplitSourceDoc(raw).Failure? ==> SplitSourceDoc(raw).error == SourceDocIndexError(raw)
    ensures SplitSourceDoc(raw).Success? && IsProjectDocument(raw) ==>
              var doc := SplitSourceDoc(raw).value;
              doc.location + "\\" + doc.document == raw && '\\' !in doc.document
    ensures !IsProjectDocument(raw) ==> SplitSourceDoc(raw) == Success(SourceDoc(raw, ""))
  {
  }

  /** The loop over `SVCResource` overwrites its variables, so the last
      resource decides; the first one that fails aborts. */
  function SourceDocument(resources: seq<string>): (r: Result<Option<SourceDoc>, Failure>)
    ensures r.Failure? <==> exists i :: 0 <= i < |resources| && SplitSourceDoc(resources[i]).Failure?
    ensures r.Failure? ==> exists i :: 0 <= i < |resources| && SplitSourceDoc(resources[i]) == Failure(r.error)
                                       && forall j :: 0 <= j < i ==> SplitSourceDoc(resources[j]).Success?
    ensures r.Success? && |resources| == 0 ==> r.value.None?
    ensures r.Success? && |resources| > 0 ==> r.value == Some(SplitSourceDoc(resources[|resources| - 1]).value)
  {
    if |resources| == 0 then Success(None)
    else
      var init := resources[..|resources| - 1];
      assert forall i :: 0 <= i < |init| ==> init[i] == resources[i];
      match SourceDocument(init)
      case Failure(e) =>
        ghost var i :| 0 <= i < |init| && SplitSourceDoc(init[i]) == Failure(e)
                       && forall j :: 0 <= j < i ==> SplitSourceDoc(init[j]).Success?;
        assert SplitSourceDoc(resources[i]) == Failure(e);
        Failure(e)
      case Success(_) =>
        assert forall j :: 0 <= j < |init| ==> SplitSourceDoc(resources[j]).Success?;
        match SplitSourceDoc(resources[|resources| - 1])
        case Failure(e) => Failure(e)
        case Success(doc) => Success(Some(doc))
  }

  // ---------------------------------------------------------------------------
  // One dataset
  // ---------------------------------------------------------------------------

  /** The report's "Query Layer" column. */
  function QueryFlag(layerName: string): (f: string)
    ensures f == "Yes" || f == "No"
    ensures f == "Yes" <==> Contains(layerName, QueryLayerTag)
  {
    if Contains(layerName, QueryLayerTag) then "Yes" else "No"
  }

  /** The catalog-relative path: cut at the first marker (`find`), then drop
      every marker (`replace`). */
  function RelativePath(path: string, marker: string): (r: string)
    requires |marker| > 0 && Contains(path, marker)
    ensures |r| + |marker| <= |path|
  {
    var k := Find(path, marker).value;
    assert path[k..][|marker|..] == path[k + |marker|..];
    RemoveAll(path[k..], marker)
  }

  /** After a prefix free of the marker, the relative path is what
      `replace` leaves of the text following the first marker. */
  lemma RelativePathAfterCleanPrefix(prefix: string, marker: string, rest: string)
    requires LastCharUnique(marker)
    requires !Contains(prefix, marker)
    ensures Contains(prefix + marker + rest, marker)
    ensures RelativePath(prefix + marker + rest, marker) == RemoveAll(rest, marker)
  {
    var path := prefix + marker + rest;
    FindAfterCleanPrefix(prefix, marker, rest);
    assert Contains(path, marker);
    assert path[|prefix|..] == marker + rest;
    RemoveAllLeading(marker, rest);
    assert RelativePath(path, marker) == RemoveAll(marker + rest, marker);
  }

  /** Re-joining a relative path with a marker and any prefix free of the
      marker extracts the same relative path again. */
  lemma RelativePathOfJoin(prefix: string, marker: string, rel: string)
    requires LastCharUnique(marker)
    requires !Contains(prefix, marker) && !Contains(rel, marker)
    ensures Contains(prefix + marker + rel, marker)
    ensures RelativePath(prefix + marker + rel, marker) == rel
  {
    RelativePathAfterCleanPrefix(prefix, marker, rel);
    RemoveAllAbsent(rel, marker);
  }

  /** Every later marker is removed too, so the text between two markers
      and the text after the second run together. */
  lemma RelativePathDropsLaterMarkers(prefix: string, marker: string, middle: string, rel: string)
    requires LastCharUnique(marker)
    requires !Contains(prefix, marker) && !Contains(middle, marker) && !Contains(rel, marker)
    ensures Contains(prefix + marker + middle + marker + rel, marker)
    ensures RelativePath(prefix + marker + middle + marker + rel, marker) == middle + rel
  {
    assert prefix + marker + middle + marker + rel == prefix + marker + (middle + marker + rel);
    RelativePathAfterCleanPrefix(prefix, marker, middle + marker + rel);
    RemoveAllAfterCleanPrefix(middle, marker, rel);
    RemoveAllAbsent(rel, marker);
  }

  /** The round trip for the two markers the source uses: a dataset path
      built as `prefix + marker + rel`, with neither part holding the
      marker, yields `rel` as its layer source. */
  lemma {:induction false} LayerSourceOfJoin(kind: StoreKind, prefix: string, rel: string)
    requires !Contains(prefix, Marker(kind)) && !Contains(rel, Marker(kind))
    ensures Contains(prefix + Marker(kind) + rel, Marker(kind))
    ensures RelativePath(prefix + Marker(kind) + rel, Marker(kind)) == rel
  {
    MarkersLastCharUnique();
    RelativePathOfJoin(prefix, Marker(kind), rel);
  }

  /** A dataset belongs to a connection when its path carries the
      connection kind's marker. */
  predicate Keeps(conn: Connection, d: Dataset) {
    Contains(d.path, Marker(conn.kind))
  }

  /** A dataset whose relative path enters the asset payload. */
  predicate IsAsset(conn: Connection, d: Dataset) {
    conn.kind == EnterpriseDatabase && Keeps(conn, d) && QueryFlag(d.layerName) != "Yes"
  }

  /** The report row written for a kept dataset. */
  function RowOf(svc: Service, conn: Connection, d: Dataset, doc: Option<SourceDoc>): LayerRow
    requires Keeps(conn, d)
  {
    LayerRow(svc.folder, svc.name, svc.lastUpdated, d.serverName, QueryFlag(d.layerName),
             RelativePath(d.path, Marker(conn.kind)), conn.instance, conn.database, doc, svc.url)
  }

  // ---------------------------------------------------------------------------
  // One connection string over all datasets
  // ---------------------------------------------------------------------------

  /** The inner dataset loop for one recognised connection. */
  function ExtractLayers(svc: Service, conn: Connection, datasets: seq<Dataset>, doc: Option<SourceDoc>)
    : (r: Extraction)
    ensures |r.assets| <= |r.rows| <= |datasets|
    ensures forall x :: x in r.assets <==>
              exists i :: 0 <= i < |datasets| && IsAsset(conn, datasets[i]) && x == RelativePath(datasets[i].path, SdeMarker)
    ensures conn.kind == FileGeodatabase ==> r.assets == []
  {
    if |datasets| == 0 then Extraction([], [])
    else
      var rest := ExtractLayers(svc, conn, datasets[1..], doc);
      assert forall i :: 1 <= i < |datasets| ==> datasets[1..][i - 1] == datasets[i];
      var d := datasets[0];
      if Keeps(conn, d) then
        var row := RowOf(svc, conn, d, doc);
        var asset := if IsAsset(conn, d) then [row.layerSource] else [];
        Extraction([row] + rest.rows, asset + rest.assets)
      else
        rest
  }

  /** Every row comes from a kept dataset, and every kept dataset has its
      row. */
  lemma {:induction false} ExtractLayersRows(svc: Service, conn: Connection, datasets: seq<Dataset>, doc: Option<SourceDoc>)
    ensures var rows := ExtractLayers(svc, conn, datasets, doc).rows;
            && (forall k :: 0 <= k < |rows| ==>
                  exists i :: 0 <= i < |datasets| && Keeps(conn, datasets[i]) && rows[k] == RowOf(svc, conn, datasets[i], doc))
            && (forall i :: 0 <= i < |datasets| && Keeps(conn, datasets[i]) ==> RowOf(svc, conn, datasets[i], doc) in rows)
  {
    if |datasets| > 0 {
      var tail := datasets[1..];
      ExtractLayersRows(svc, conn, tail, doc);
      assert forall i :: 1 <= i < |datasets| ==> tail[i - 1] == datasets[i];
      var rows := ExtractLayers(svc, conn, datasets, doc).rows;
      var restRows := ExtractLayers(svc, conn, tail, doc).rows;
      var offset := if Keeps(conn, datasets[0]) then 1 else 0;
      assert rows[offset..] == restRows;
      forall k | 0 <= k < |rows|
        ensures exists i :: 0 <= i < |datasets| && Keeps(conn, datasets[i]) && rows[k] == RowOf(svc, conn, datasets[i], doc)
      {
        if k < offset {
          assert rows[k] == RowOf(svc, conn, datasets[0], doc);
        } else {
          assert rows[k] == restRows[k - offset];
          var i :| 0 <= i < |tail| && Keeps(conn, tail[i]) && restRows[k - offset] == RowOf(svc, conn, tail[i], doc);
          assert tail[i] == datasets[i + 1];
        }
      }
    }
  }

  /** The indices from `start` on of the datasets carrying the connection
      kind's marker, in increasing order. */
  function KeptIndices(conn: Connection, datasets: seq<Dataset>, start: nat): (r: seq<nat>)
    requires start <= |datasets|
    ensures forall k :: 0 <= k < |r| ==> start <= r[k] < |datasets| && Keeps(conn, datasets[r[k]])
    ensures forall i :: start <= i < |datasets| && Keeps(conn, datasets[i]) ==> i in r
    ensures forall k, l :: 0 <= k < l < |r| ==> r[k] < r[l]
    decreases |datasets| - start
  {
    if start == |datasets| then []
    else if Keeps(conn, datasets[start]) then [start] + KeptIndices(conn, datasets, start + 1)
    else KeptIndices(conn, datasets, start + 1)
  }

  /** The dataset loop over `datasets[start..]` writes exactly one row per
      dataset carrying the marker, in dataset order. */
  lemma {:induction false} ExtractLayersOrder(svc: Service, conn: Connection, datasets: seq<Dataset>, start: nat, doc: Option<SourceDoc>)
    requires start <= |datasets|
    ensures var rows := ExtractLayers(svc, conn, datasets[start..], doc).rows;
            var idx := KeptIndices(conn, datasets, start);
            && |rows| == |idx|
            && forall k :: 0 <= k < |idx| ==> rows[k] == RowOf(svc, conn, datasets[idx[k]], doc)
    decreases |datasets| - start
  {
    if start < |datasets| {
      ExtractLayersOrder(svc, conn, datasets, start + 1, doc);
      var here := datasets[start..];
      assert here[1..] == datasets[start + 1..];
      assert here[0] == datasets[start];
      var rows := ExtractLayers(svc, conn, here, doc).rows;
      var restRows := ExtractLayers(svc, conn, datasets[start + 1..], doc).rows;
      var idx := KeptIndices(conn, datasets, start);
      var later := KeptIndices(conn, datasets, start + 1);
      var offset := if Keeps(conn, datasets[start]) then 1 else 0;
      assert rows[offset..] == restRows;
      assert idx[offset..] == later;
      forall k | 0 <= k < |idx|
        ensures rows[k] == RowOf(svc, conn, datasets[idx[k]], doc)
      {
        if k >= offset {
          assert idx[k] == later[k - offset];
          assert rows[k] == restRows[k - offset];
        }
      }
    }
  }

  /** A dataset's relative path is an enterprise asset of a connection
      string when that string is a recognised connection and the dataset is
      a non-query layer carrying the `.sde\` marker. */
  predicate EnterpriseAsset(text: string, d: Dataset, x: string) {
    && Classify(text).Recognized?
    && IsAsset(Classify(text).conn, d)
    && x == RelativePath(d.path, SdeMarker)
  }

  /** `x` is an enterprise asset of connection string `text` and one of the
      datasets. */
  predicate ConnectionAsset(text: string, datasets: seq<Dataset>, x: string) {
    exists j :: 0 <= j < |datasets| && EnterpriseAsset(text, datasets[j], x)
  }

  /** The outer loop over connection strings: every recognised string
      re-runs the dataset loop over all datasets. */
  function ManifestLayers(svc: Service, conns: seq<string>, datasets: seq<Dataset>, doc: Option<SourceDoc>)
    : (r: Result<Extraction, Failure>)
    ensures r.Failure? <==> exists i :: 0 <= i < |conns| && Classify(conns[i]).TokenIndexError?
    ensures r.Failure? ==> exists i :: 0 <= i < |conns| && r.error == ConnectionIndexError(conns[i])
    ensures r.Success? ==> forall x :: x in r.value.assets <==>
              exists i :: 0 <= i < |conns| && ConnectionAsset(conns[i], datasets, x)
  {
    if |conns| == 0 then Success(Extraction([], []))
    else
      assert forall i :: 1 <= i < |conns| ==> conns[1..][i - 1] == conns[i];
      match Classify(conns[0])
      case TokenIndexError => Failure(ConnectionIndexError(conns[0]))
      case Unrecognized => ManifestLayers(svc, conns[1..], datasets, doc)
      case Recognized(conn) =>
        var here := ExtractLayers(svc, conn, datasets, doc);
        assert forall x :: x in here.assets <==> ConnectionAsset(conns[0], datasets, x);
        match ManifestLayers(svc, conns[1..], datasets, doc)
        case Failure(e) => Failure(e)
        case Success(later) => Success(Extraction(here.rows + later.rows, here.assets + later.assets))
  }

  /** `row` is the row that connection string `text` writes for one of the
      datasets. */
  predicate ConnectionRow(svc: Service, text: string, datasets: seq<Dataset>, doc: Option<SourceDoc>, row: LayerRow) {
    && Classify(text).Recognized?
    && exists j :: 0 <= j < |datasets| && Keeps(Classify(text).conn, datasets[j])
                   && row == RowOf(svc, Classify(text).conn, datasets[j], doc)
  }

  /** For a recognised string, its rows are exactly the dataset loop's rows. */
  lemma ConnectionRowIn(svc: Service, text: string, datasets: seq<Dataset>, doc: Option<SourceDoc>, row: LayerRow)
    requires Classify(text).Recognized?
    ensures ConnectionRow(svc, text, datasets, doc, row) <==> row in ExtractLayers(svc, Classify(text).conn, datasets, doc).rows
  {
  }

  /** A manifest's rows are exactly the rows of its recognised connection
      strings and the datasets carrying their marker; an unrecognised
      string writes none. */
  lemma {:induction false} ManifestLayersRows(
    svc: Service, conns: seq<string>, datasets: seq<Dataset>, doc: Option<SourceDoc>, row: LayerRow)
    ensures var r := ManifestLayers(svc, conns, datasets, doc);
            r.Success? ==> (row in r.value.rows <==> exists i :: 0 <= i < |conns| && ConnectionRow(svc, conns[i], datasets, doc, row))
  {
    if |conns| > 0 {
      var tail := conns[1..];
      ManifestLayersRows(svc, tail, datasets, doc, row);
      assert (exists i :: 0 <= i < |conns| && ConnectionRow(svc, conns[i], datasets, doc, row)) <==>
             ConnectionRow(svc, conns[0], datasets, doc, row) || exists i :: 0 <= i < |tail| && ConnectionRow(svc, tail[i], datasets, doc, row)
      by {
        assert forall i :: 1 <= i < |conns| ==> tail[i - 1] == conns[i];
        if exists i :: 0 <= i < |conns| && ConnectionRow(svc, conns[i], datasets, doc, row) {
          var i :| 0 <= i < |conns| && ConnectionRow(svc, conns[i], datasets, doc, row);
          if i > 0 {
            assert ConnectionRow(svc, tail[i - 1], datasets, doc, row);
          }
        }
      }
      match Classify(conns[0])
      case TokenIndexError =>
      case Unrecognized =>
      case Recognized(conn) =>
        ConnectionRowIn(svc, conns[0], datasets, doc, row);
    }
  }

  /** An unrecognised connection string is skipped: it adds no row, no
      asset and no failure. */
  lemma UnrecognizedConnectionSkipped(
    svc: Service, text: string, rest: seq<string>, datasets: seq<Dataset>, doc: Option<SourceDoc>)
    requires Classify(text).Unrecognized?
    ensures ManifestLayers(svc, [text] + rest, datasets, doc) == ManifestLayers(svc, rest, datasets, doc)
  {
  }

  /** Two copies of a recognised connection string produce every row and
      every asset twice. */
  lemma RepeatedConnectionRepeatsLayers(svc: Service, text: string, datasets: seq<Dataset>, doc: Option<SourceDoc>)
    requires Classify(text).Recognized?
    ensures var e := ExtractLayers(svc, Classify(text).conn, datasets, doc);
            ManifestLayers(svc, [text, text], datasets, doc) == Success(Extraction(e.rows + e.rows, e.assets + e.assets))
  {
    var e := ExtractLayers(svc, Classify(text).conn, datasets, doc);
    assert [text, text][1..] == [text];
    assert [text][1..] == [];
    assert ManifestLayers(svc, [text], datasets, doc) == Success(Extraction(e.rows + [], e.assets + []));
    assert e.rows + [] == e.rows && e.assets + [] == e.assets;
  }

  /** `x` is an enterprise asset of some connection string and some
      dataset of the manifest. */
  predicate ManifestAsset(m: Manifest, x: string) {
    exists i :: 0 <= i < |m.connections| && ConnectionAsset(m.connections[i], m.datasets, x)
  }

  /** One manifest: source document first, then the connection strings. */
  function ProcessManifest(svc: Service): (r: Result<Extraction, Failure>)
    ensures r.Failure? <==>
              || SourceDocument(svc.manifest.resources).Failure?
              || exists i :: 0 <= i < |svc.manifest.connections| && Classify(svc.manifest.connections[i]).TokenIndexError?
    ensures r.Success? ==> forall x :: x in r.value.assets <==> ManifestAsset(svc.manifest, x)
  {
    match SourceDocument(svc.manifest.resources)
    case Failure(e) => Failure(e)
    case Success(doc) => ManifestLayers(svc, svc.manifest.connections, svc.manifest.datasets, doc)
  }

  // ---------------------------------------------------------------------------
  // All services
  // ---------------------------------------------------------------------------

  predicate NoDuplicates(xs: seq<string>) {
    forall i, j :: 0 <= i < j < |xs| ==> xs[i] != xs[j]
  }

  /** `[*set(payload)]`: the same members, each once. Python's set order is
      unspecified; first occurrences are kept here. */
  function Dedup(xs: seq<string>): (r: seq<string>)
    ensures NoDuplicates(r)
    ensures forall x :: x in r <==> x in xs
    ensures |r| <= |xs|
  {
    if |xs| == 0 then []
    else
      var init := Dedup(xs[..|xs| - 1]);
      var last := xs[|xs| - 1];
      assert xs == xs[..|xs| - 1] + [last];
      if last in init then init else init + [last]
  }

  /** True when `x` is an enterprise asset of one of the services. */
  predicate SurveyAsset(services: seq<Service>, x: string) {
    exists k :: 0 <= k < |services| && ManifestAsset(services[k].manifest, x)
  }

  /** Rows and asset payload of all services in order, before deduplication. */
  function Collect(services: seq<Service>): (r: Result<Extraction, Failure>)
    ensures r.Failure? <==> exists k :: 0 <= k < |services| && ProcessManifest(services[k]).Failure?
    ensures r.Success? ==> forall x :: x in r.value.assets <==> SurveyAsset(services, x)
  {
    if |services| == 0 then Success(Extraction([], []))
    else
      assert forall k :: 1 <= k < |services| ==> services[1..][k - 1] == services[k];
      match ProcessManifest(services[0])
      case Failure(e) => Failure(e)
      case Success(here) =>
        match Collect(services[1..])
        case Failure(e) => Failure(e)
        case Success(later) =>
          assert forall x :: SurveyAsset(services, x) <==> ManifestAsset(services[0].manifest, x) || SurveyAsset(services[1..], x);
          Success(Extraction(here.rows + later.rows, here.assets + later.assets))
  }

  /** `findServicesData`: the report rows and the deduplicated asset list. */
  function FindServicesData(services: seq<Service>): (r: Result<Extraction, Failure>)
    ensures r.Failure? <==> exists k :: 0 <= k < |services| && ProcessManifest(services[k]).Failure?
    ensures r.Success? ==> NoDuplicates(r.value.assets)
    ensures r.Success? ==> forall x :: x in r.value.assets <==> SurveyAsset(services, x)
  {
    var payload :- Collect(services);
    Success(Extraction(payload.rows, Dedup(payload.assets)))
  }
}
