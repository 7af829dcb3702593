/**
 * One run of the territorial-authority loader. Its inputs are the
 * configuration, what the ArcGIS service and the database answer, and the
 * state of the output table before the run. A run ends in one of three
 * ways: the table is updated, it is already current, or the run exits
 * fatally. `Pipeline` states what a run does; the class `OutputTable` and
 * the method `Run` perform it step by step, and `Run` is proved to agree
 * with `Pipeline`.
 */
module TaLoader {
  import opened Common
  import opened Text
  import opened Geometry
  import opened LayerSelection
  import opened PgConnection
  import opened FeatureFetch

  /**
   * The settings a run reads from its configuration file. Two of them stand
   * for checks made by the spatial-reference library: whether
   * `output_srid` names a valid reference system, and whether that system
   * is geographic.
   */
  datatype Config = Config(
    db: DbConfig,
    schema: string,
    layerName: string,
    geomColumn: string,
    srsValid: bool,
    srsGeographic: bool,
    createGrid: bool,
    gridRes: real,
    shiftGeometry: bool,
    forceUpdate: bool)

  /**
   * What the outside world answers during a run:
   * - the layer list of the service;
   * - whether the database opens;
   * - the GDAL release and the server's version and paging flag;
   * - the paged layer's fields and features;
   * - the object ids and the feature returned for each id;
   * - whether the grid function succeeds.
   */
  datatype Remote = Remote(
    layers: seq<LayerInfo>,
    dbOpens: bool,
    gdalVersion: int,
    serverVersion: real,
    paginationFlag: string,
    pagedFields: seq<string>,
    pagedFeatures: seq<Feature>,
    objectIds: seq<int>,
    objects: map<int, Feature>,
    gridBuilds: bool)

  /** A row of the output table: the authority's name and its boundary. */
  datatype Row = Row(name: Option<string>, geom: Geom)

  /**
   * The output table as the run sees it: whether it exists, its comment
   * (which holds the year of the data loaded), its rows, and whether
   * `public` may select from it.
   */
  datatype TableState = TableState(present: bool, comment: Option<string>, rows: seq<Row>, publicSelect: bool)

  datatype Reason =
    | BadSrid            // output_srid is not a valid reference system
    | BadGridRes         // create_grid with grid_res not above 0
    | NoTaLayer          // no layer name matches the pattern
    | DbOpenFailed       // the PostgreSQL data source does not open
    | BadVersionComment  // the table comment is not an integer: int() raises
    | FetchFailed        // an object id gets no feature back
    | NoFeatures         // the input layer is empty
    | NoNameField        // no TA<year>...NAME field
    | MissingGeometry    // a feature has no geometry: GetGeometryType on None raises
    | GridFailed         // the grid function raises

  /** `Updated` and `UpToDate` exit with status 0, `Fatal` with status 1. */
  datatype Exit = Updated | UpToDate | Fatal(reason: Reason)

  /** What a run asks of the service and of the database, in order. */
  datatype Action =
    | ListLayers
    | OpenDatabase(uri: string)
    | SetRole(role: string)
    | ReadComment(schema: string, table: string)
    | Truncate(table: string)
    | CreateTable(table: string, geomColumn: string)
    | GrantSelect(table: string)
    | FetchFeatures(layerId: int, paged: bool)
    | WriteRows(rows: seq<Row>)
    | Analyse(table: string)
    | SetComment(table: string, text: string)
    | BuildGrid(schema: string, table: string, column: string, xres: real, yres: real)

  /** The SQL text that `ExecuteSQL` receives for the statements the loader spells out itself. */
  function Statement(a: Action): Option<string> {
    match a
    case SetRole(role) => Some("SET ROLE " + role)
    case Truncate(t) => Some("TRUNCATE " + t)
    case GrantSelect(t) => Some("GRANT SELECT ON TABLE " + t + " TO public")
    case Analyse(t) => Some("ANALYSE " + t)
    case SetComment(t, text) => Some("COMMENT ON TABLE " + t + " IS '" + text + "'")
    case _ => None
  }

  datatype RunResult = RunResult(exit: Exit, table: TableState, actions: seq<Action>)

  /** The input layer the copy reads: its field names and its features. */
  datatype InputLayer = InputLayer(fields: seq<string>, features: seq<Feature>)

  function FullName(cfg: Config): string {
    cfg.schema + "." + cfg.layerName
  }

  /** The role switch after connecting, as actions. */
  function RoleActions(rolename: Option<string>): (r: seq<Action>)
    ensures |r| == |RoleStatements(rolename)|
    ensures forall i :: 0 <= i < |r| ==> r[i].SetRole? && Statement(r[i]) == Some(RoleStatements(rolename)[i])
  {
    if Given(rolename) then [SetRole(rolename.value)] else []
  }

  // ---------------------------------------------------------------------------
  // The version gate

  datatype GateOutcome =
    | Current                                    // exit 0, nothing changed
    | Unreadable                                 // the comment does not parse
    | Cleared(table: TableState, actions: seq<Action>)  // the table is empty and ready

  /**
   * The check of an existing table's comment. A comment that parses to a
   * version no greater than the year found ends the run unless
   * `force_update` is set. Otherwise an existing table is truncated, and a
   * missing table is created and opened to `public`.
   */
  function Gate(cfg: Config, before: TableState, year: nat): (g: GateOutcome)
    ensures g.Cleared? ==> g.table.present && g.table.rows == []
  {
    if before.present then
      var cleared := Cleared(before.(rows := []), [Truncate(FullName(cfg))]);
      match before.comment
      case None => cleared
      case Some(c) =>
        match ParseInt(c)
        case None => Unreadable
        case Some(v) => if v <= year && !cfg.forceUpdate then Current else cleared
    else
      Cleared(TableState(true, None, [], true), [CreateTable(FullName(cfg), cfg.geomColumn), GrantSelect(FullName(cfg))])
  }

  // ---------------------------------------------------------------------------
  // The copy

  /** A polygon becomes a one-polygon multi-polygon; then the longitudes are shifted when asked. */
  function Normalised(g: Geom, shift: bool): Geom {
    var m := if g.PolygonGeom? then ForceToMultiPolygon(g) else g;
    if shift then ShiftGeom(m) else m
  }

  /**
   * The rows the copy loop writes: one per input feature, in order, named by
   * the name field, with the normalised geometry; `None` when a feature has
   * no geometry, where the loop raises.
   */
  function CopiedRows(features: seq<Feature>, nameField: string, shift: bool): (r: Option<seq<Row>>)
    ensures r.None? <==> exists k :: 0 <= k < |features| && features[k].geom.None?
    ensures r.Some? ==> |r.value| == |features| && forall k :: 0 <= k < |features| ==>
      r.value[k] == Row(FieldValue(features[k], nameField), Normalised(features[k].geom.value, shift))
  {
    if |features| == 0 then Some([])
    else
      var n := |features|;
      var prev := CopiedRows(features[..n - 1], nameField, shift);
      var f := features[n - 1];
      if prev.None? then
        var k :| 0 <= k < n - 1 && features[..n - 1][k].geom.None?;
        assert features[k].geom.None?;
        None
      else if f.geom.None? then None
      else
        assert forall k :: 0 <= k < n - 1 ==> features[..n - 1][k] == features[k];
        Some(prev.value + [Row(FieldValue(f, nameField), Normalised(f.geom.value, shift))])
  }

  // ---------------------------------------------------------------------------
  // A whole run

  /** The features to copy: the paged layer, or the per-object fetch. */
  function FetchInput(remote: Remote): Option<InputLayer> {
    if UsePagination(remote.gdalVersion, remote.serverVersion, remote.paginationFlag) then
      Some(InputLayer(remote.pagedFields, remote.pagedFeatures))
    else match FetchedFeatures(remote.objectIds, remote.objects)
      case None => None
      case Some(fs) => Some(InputLayer(FirstFields(remote.objectIds, remote.objects), fs))
  }

  /** The grid index call: the resolution goes in for both x and y. */
  function GridAction(cfg: Config): Action {
    BuildGrid(cfg.schema, cfg.layerName, cfg.geomColumn, cfg.gridRes, cfg.gridRes)
  }

  /** The rest of a run once the table is ready: fetch, find the name field, copy, stamp, grid. */
  function Load(cfg: Config, remote: Remote, sel: Selection, t: TableState, acts: seq<Action>): RunResult {
    var paged := UsePagination(remote.gdalVersion, remote.serverVersion, remote.paginationFlag);
    var fetched := acts + [FetchFeatures(sel.id, paged)];
    match FetchInput(remote)
    case None => RunResult(Fatal(FetchFailed), t, fetched)
    case Some(input) =>
      if |input.features| < 1 then RunResult(Fatal(NoFeatures), t, fetched)
      else match LastNameField(input.fields, sel.year)
        case None => RunResult(Fatal(NoNameField), t, fetched)
        case Some(nameField) =>
          match CopiedRows(input.features, nameField, cfg.srsGeographic && cfg.shiftGeometry)
          case None => RunResult(Fatal(MissingGeometry), t, fetched)
          case Some(rows) =>
            var stamp := NatToString(sel.year);
            var written := t.(rows := t.rows + rows, comment := Some(stamp));
            var stamped := fetched + [WriteRows(rows), Analyse(FullName(cfg)), SetComment(FullName(cfg), stamp)];
            if !cfg.createGrid then RunResult(Updated, written, stamped)
            else RunResult(if remote.gridBuilds then Updated else Fatal(GridFailed), written, stamped + [GridAction(cfg)])
  }

  /** From the comment check on. */
  function Gated(cfg: Config, remote: Remote, before: TableState, sel: Selection, acts: seq<Action>): RunResult {
    var read := if before.present then acts + [ReadComment(cfg.schema, cfg.layerName)] else acts;
    match Gate(cfg, before, sel.year)
    case Current => RunResult(UpToDate, before, read)
    case Unreadable => RunResult(Fatal(BadVersionComment), before, read)
    case Cleared(t, more) => Load(cfg, remote, sel, t, read + more)
  }

  /** What a run does, from the configuration checks to the grid. */
  function Pipeline(cfg: Config, remote: Remote, before: TableState): RunResult {
    if !cfg.srsValid then RunResult(Fatal(BadSrid), before, [])
    else if cfg.createGrid && !(cfg.gridRes > 0.0) then RunResult(Fatal(BadGridRes), before, [])
    else match LatestLayer(remote.layers)
      case None => RunResult(Fatal(NoTaLayer), before, [ListLayers])
      case Some(sel) =>
        var connected := [ListLayers, OpenDatabase(PgUri(cfg.db))];
        if !remote.dbOpens then RunResult(Fatal(DbOpenFailed), before, connected)
        else Gated(cfg, remote, before, sel, connected + RoleActions(cfg.db.rolename))
  }

  // ---------------------------------------------------------------------------
  // The table and the run, step by step

  /**
   * The PostgreSQL output table. Rows created inside a transaction are
   * `pending` until the commit; a run that dies first leaves them out.
   */
  class OutputTable {
    var present: bool
    var comment: Option<string>
    var rows: seq<Row>
    var publicSelect: bool
    var pending: seq<Row>

    function State(): TableState
      reads this
    {
      TableState(present, comment, rows, publicSelect)
    }

    constructor (s: TableState)
      ensures State() == s && pending == []
    {
      present := s.present;
      comment := s.comment;
      rows := s.rows;
      publicSelect := s.publicSelect;
      pending := [];
    }

    /** `TRUNCATE`: every row goes. */
    method TruncateRows()
      modifies this
      ensures State() == old(State()).(rows := [])
    {
      rows := [];
    }

    /** `CreateLayer` with its `name` field: a new, empty, uncommented table. */
    method Create()
      requires !present
      modifies this
      ensures State() == TableState(true, None, [], false)
    {
      present := true;
      comment := None;
      rows := [];
      publicSelect := false;
    }

    /** `GRANT SELECT ... TO public`. */
    method Grant()
      modifies this
      ensures State() == old(State()).(publicSelect := true)
    {
      publicSelect := true;
    }

    method StartTransaction()
      modifies this
      ensures State() == old(State()) && pending == []
    {
      pending := [];
    }

    /** `CreateFeature` inside the transaction. */
    method AddRow(r: Row)
      modifies this
      ensures State() == old(State()) && pending == old(pending) + [r]
    {
      pending := pending + [r];
    }

    /** `CommitTransaction`: the pending rows join the table. */
    method Commit()
      modifies this
      ensures State() == old(State()).(rows := old(rows) + old(pending)) && pending == []
    {
      rows := rows + pending;
      pending := [];
    }

    /** `COMMENT ON TABLE ... IS '<text>'`. */
    method SetTableComment(text: string)
      modifies this
      ensures State() == old(State()).(comment := Some(text))
    {
      comment := Some(text);
    }
  }

  /**
   * The copy loop: a transaction, then for each input feature in turn a row
   * named from the name field whose geometry is made a multi-polygon and,
   * when asked, shifted; then the commit. A feature without geometry ends
   * the run before the commit.
   */
  method CopyFeatures(features: seq<Feature>, nameField: string, shift: bool, table: OutputTable)
    returns (ok: bool, written: seq<Row>)
    modifies table
    ensures ok <==> CopiedRows(features, nameField, shift).Some?
    ensures ok ==> written == CopiedRows(features, nameField, shift).value
    ensures ok ==> table.State() == old(table.State()).(rows := old(table.rows) + written)
    ensures !ok ==> table.State() == old(table.State())
  {
    table.StartTransaction();
    var k := 0;
    while k < |features|
      invariant 0 <= k <= |features|
      invariant table.State() == old(table.State())
      invariant CopiedRows(features[..k], nameField, shift) == Some(table.pending)
    {
      assert features[..k + 1][..k] == features[..k];
      var input := features[k];
      if input.geom.None? {
        assert CopiedRows(features[..k + 1], nameField, shift).None?;
        NoGeometryPersists(features, nameField, shift, k + 1);
        return false, [];
      }
      var geom := input.geom.value;
      if geom.PolygonGeom? {
        geom := ForceToMultiPolygon(geom);
      }
      if shift {
        geom := ShiftGeom(geom);
      }
      table.AddRow(Row(FieldValue(input, nameField), geom));
      k := k + 1;
    }
    assert features[..k] == features;
    written := table.pending;
    table.Commit();
    return true, written;
  }

  /** A feature without geometry in the first `k` makes the whole copy fail. */
  lemma NoGeometryPersists(features: seq<Feature>, nameField: string, shift: bool, k: nat)
    requires k <= |features| && CopiedRows(features[..k], nameField, shift).None?
    ensures CopiedRows(features, nameField, shift).None?
  {
    var j :| 0 <= j < k && features[..k][j].geom.None?;
    assert features[j].geom.None?;
  }

  /** The part of a run after the table is ready. */
  method LoadTable(cfg: Config, remote: Remote, sel: Selection, table: OutputTable, acts: seq<Action>)
    returns (exit: Exit, actions: seq<Action>)
    modifies table
    ensures RunResult(exit, table.State(), actions) == Load(cfg, remote, sel, old(table.State()), acts)
  {
    var paged := UsePagination(remote.gdalVersion, remote.serverVersion, remote.paginationFlag);
    actions := acts + [FetchFeatures(sel.id, paged)];
    var fields: seq<string>;
    var features: seq<Feature>;
    if paged {
      fields, features := remote.pagedFields, remote.pagedFeatures;
    } else {
      var scratch := new ScratchLayer();
      var fetched := FetchPerObject(remote.objectIds, remote.objects, scratch);
      if !fetched {
        return Fatal(FetchFailed), actions;
      }
      fields, features := scratch.fields, scratch.features;
    }
    assert FetchInput(remote) == Some(InputLayer(fields, features));
    if |features| < 1 {
      return Fatal(NoFeatures), actions;
    }
    var nameField := FindNameField(fields, sel.year);
    if nameField.None? {
      return Fatal(NoNameField), actions;
    }
    var copied, rows := CopyFeatures(features, nameField.value, cfg.srsGeographic && cfg.shiftGeometry, table);
    if !copied {
      return Fatal(MissingGeometry), actions;
    }
    var stamp := NatToString(sel.year);
    table.SetTableComment(stamp);
    actions := actions + [WriteRows(rows), Analyse(FullName(cfg)), SetComment(FullName(cfg), stamp)];
    if cfg.createGrid {
      actions := actions + [GridAction(cfg)];
      if !remote.gridBuilds {
        return Fatal(GridFailed), actions;
      }
    }
    return Updated, actions;
  }

  /**
   * The comment check: a current table ends the run; otherwise the table is
   * truncated or created, and loaded.
   */
  method CheckTable(cfg: Config, remote: Remote, sel: Selection, table: OutputTable, acts: seq<Action>)
    returns (exit: Exit, actions: seq<Action>)
    modifies table
    ensures RunResult(exit, table.State(), actions) == Gated(cfg, remote, old(table.State()), sel, acts)
  {
    actions := acts;
    ghost var before := table.State();
    if table.present {
      actions := actions + [ReadComment(cfg.schema, cfg.layerName)];
      var comment := table.comment;
      if comment.Some? {
        var version := ParseInt(comment.value);
        if version.None? {
          return Fatal(BadVersionComment), actions;
        }
        if version.value <= sel.year && !cfg.forceUpdate {
          return UpToDate, actions;
        }
      }
      table.TruncateRows();
      actions := actions + [Truncate(FullName(cfg))];
    } else {
      table.Create();
      table.Grant();
      actions := actions + [CreateTable(FullName(cfg), cfg.geomColumn), GrantSelect(FullName(cfg))];
    }
    assert Gate(cfg, before, sel.year) == Cleared(table.State(), actions[|acts| + (if before.present then 1 else 0)..]);
    exit, actions := LoadTable(cfg, remote, sel, table, actions);
  }

  /**
   * `main` after the configuration is read: the SRS and grid checks, the
   * layer search, the connection, the comment check with its truncate or
   * create, then the load.
   */
  method Run(cfg: Config, remote: Remote, table: OutputTable) returns (exit: Exit, actions: seq<Action>)
    modifies table
    ensures RunResult(exit, table.State(), actions) == Pipeline(cfg, remote, old(table.State()))
  {
    if !cfg.srsValid {
      return Fatal(BadSrid), [];
    }
    if cfg.createGrid && !(cfg.gridRes > 0.0) {
      return Fatal(BadGridRes), [];
    }
    actions := [ListLayers];
    var latest := SelectLatestLayer(remote.layers);
    if latest.None? {
      return Fatal(NoTaLayer), actions;
    }
    var sel := latest.value;
    var uri := BuildPgUri(cfg.db);
    actions := actions + [OpenDatabase(uri)];
    if !remote.dbOpens {
      return Fatal(DbOpenFailed), actions;
    }
    if Given(cfg.db.rolename) {
      actions := actions + [SetRole(cfg.db.rolename.value)];
    }
    assert actions == [ListLayers, OpenDatabase(PgUri(cfg.db))] + RoleActions(cfg.db.rolename);
    exit, actions := CheckTable(cfg, remote, sel, table, actions);
  }
}
