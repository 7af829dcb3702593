/**
 * What a run of the territorial-authority loader guarantees, stated over
 * `Pipeline`: when it stops without touching the table, what an update
 * writes, and how a second run behaves after an update.
 */
module TaLoaderProperties {
  import opened Common
  import opened Text
  import opened Geometry
  import opened LayerSelection
  import opened PgConnection
  import opened FeatureFetch
  import opened TaLoader

  /** Everything a run needs before it reaches the table: valid settings, a TA layer, an open database. */
  predicate Reaches(cfg: Config, remote: Remote) {
    && cfg.srsValid
    && !(cfg.createGrid && !(cfg.gridRes > 0.0))
    && LatestLayer(remote.layers).Some?
    && remote.dbOpens
  }

  /** The table carries a version stamp no newer than `year`. */
  predicate StampNoNewer(before: TableState, year: nat) {
    && before.present
    && before.comment.Some?
    && ParseInt(before.comment.value).Some?
    && ParseInt(before.comment.value).value <= year
  }

  /**
   * The run ends with status 0 without changing anything exactly when the
   * table exists, its comment is a version no newer than the latest layer's
   * year, and `force_update` is off. Such a run connects, reads the comment
   * and stops: no truncate, no create, no fetch.
   */
  lemma UpToDateExactly(cfg: Config, remote: Remote, before: TableState)
    ensures Pipeline(cfg, remote, before).exit == UpToDate <==>
      Reaches(cfg, remote) && StampNoNewer(before, LatestLayer(remote.layers).value.year) && !cfg.forceUpdate
    ensures Pipeline(cfg, remote, before).exit == UpToDate ==>
      && Pipeline(cfg, remote, before).table == before
      && Pipeline(cfg, remote, before).actions ==
           [ListLayers, OpenDatabase(PgUri(cfg.db))] + RoleActions(cfg.db.rolename) + [ReadComment(cfg.schema, cfg.layerName)]
  {
    if Reaches(cfg, remote) {
      var sel := LatestLayer(remote.layers).value;
      var acts := [ListLayers, OpenDatabase(PgUri(cfg.db))] + RoleActions(cfg.db.rolename);
      assert Pipeline(cfg, remote, before) == Gated(cfg, remote, before, sel, acts);
      var g := Gate(cfg, before, sel.year);
      if g.Cleared? {
        LoadNeverUpToDate(cfg, remote, sel, g.table, acts + (if before.present then [ReadComment(cfg.schema, cfg.layerName)] else []) + g.actions);
      }
    }
  }

  /** Once the table is ready the run either updates it or fails; it is never "up to date". */
  lemma LoadNeverUpToDate(cfg: Config, remote: Remote, sel: Selection, t: TableState, acts: seq<Action>)
    ensures Load(cfg, remote, sel, t, acts).exit != UpToDate
  {
  }

  /** With `force_update` set a run never stops as up to date. */
  lemma ForceNeverUpToDate(cfg: Config, remote: Remote, before: TableState)
    requires cfg.forceUpdate
    ensures Pipeline(cfg, remote, before).exit != UpToDate
  {
    UpToDateExactly(cfg, remote, before);
  }

  /**
   * A table is truncated only when it existed, and created only when it did
   * not; so no run both truncates and creates.
   */
  lemma TruncateOrCreate(cfg: Config, remote: Remote, before: TableState)
    ensures Truncate(FullName(cfg)) in Pipeline(cfg, remote, before).actions ==> before.present
    ensures CreateTable(FullName(cfg), cfg.geomColumn) in Pipeline(cfg, remote, before).actions ==> !before.present
    ensures !(Truncate(FullName(cfg)) in Pipeline(cfg, remote, before).actions
              && CreateTable(FullName(cfg), cfg.geomColumn) in Pipeline(cfg, remote, before).actions)
  {
    if before.present {
      PresentNeverCreated(cfg, remote, before);
    } else {
      AbsentNeverTruncated(cfg, remote, before);
    }
  }

  /** The actions up to the comment check neither truncate nor create. */
  lemma Preamble(cfg: Config, before: TableState)
    ensures var acts := [ListLayers, OpenDatabase(PgUri(cfg.db))] + RoleActions(cfg.db.rolename);
      var read := if before.present then acts + [ReadComment(cfg.schema, cfg.layerName)] else acts;
      forall a :: a in read ==> !a.Truncate? && !a.CreateTable?
  {
  }

  lemma PresentNeverCreated(cfg: Config, remote: Remote, before: TableState)
    requires before.present
    ensures forall a :: a in Pipeline(cfg, remote, before).actions ==> !a.CreateTable?
  {
    if Reaches(cfg, remote) {
      var sel := LatestLayer(remote.layers).value;
      var acts := [ListLayers, OpenDatabase(PgUri(cfg.db))] + RoleActions(cfg.db.rolename);
      Preamble(cfg, before);
      assert Pipeline(cfg, remote, before) == Gated(cfg, remote, before, sel, acts);
      GatedNeverCreates(cfg, remote, before, sel, acts);
    }
  }

  /** `PresentNeverCreated` from the comment check on. */
  lemma GatedNeverCreates(cfg: Config, remote: Remote, before: TableState, sel: Selection, acts: seq<Action>)
    requires before.present
    requires forall a :: a in acts ==> !a.CreateTable?
    ensures forall a :: a in Gated(cfg, remote, before, sel, acts).actions ==> !a.CreateTable?
  {
    var read := acts + [ReadComment(cfg.schema, cfg.layerName)];
    var g := Gate(cfg, before, sel.year);
    if g.Cleared? {
      GateTruncates(cfg, before, sel.year);
      var ready := read + g.actions;
      var r := Load(cfg, remote, sel, g.table, ready);
      assert Gated(cfg, remote, before, sel, acts) == r;
      LoadAppends(cfg, remote, sel, g.table, ready);
      NoCreateIn(ready, r.actions);
    }
  }

  /** An existing table that gets past the comment check is only truncated. */
  lemma GateTruncates(cfg: Config, before: TableState, year: nat)
    requires before.present && Gate(cfg, before, year).Cleared?
    ensures Gate(cfg, before, year).actions == [Truncate(FullName(cfg))]
  {
  }

  /** No creation in a prefix and none after it: none at all. */
  lemma NoCreateIn(ready: seq<Action>, all: seq<Action>)
    requires |all| >= |ready| && all[..|ready|] == ready
    requires forall a :: a in ready ==> !a.CreateTable?
    requires forall a :: a in all[|ready|..] ==> !a.CreateTable?
    ensures forall a :: a in all ==> !a.CreateTable?
  {
    assert all == ready + all[|ready|..];
  }

  lemma AbsentNeverTruncated(cfg: Config, remote: Remote, before: TableState)
    requires !before.present
    ensures forall a :: a in Pipeline(cfg, remote, before).actions ==> !a.Truncate?
  {
    var r := Pipeline(cfg, remote, before);
    if Reaches(cfg, remote) {
      var sel := LatestLayer(remote.layers).value;
      var acts := [ListLayers, OpenDatabase(PgUri(cfg.db))] + RoleActions(cfg.db.rolename);
      Preamble(cfg, before);
      assert r == Gated(cfg, remote, before, sel, acts);
      var g := Gate(cfg, before, sel.year);
      LoadAppends(cfg, remote, sel, g.table, acts + g.actions);
      assert r.actions == acts + g.actions + r.actions[|acts + g.actions|..];
    }
  }

  /**
   * The converse: a run that gets past the comment check truncates an
   * existing table, and creates a missing one and grants `public` select on
   * it; either way the table then exists.
   */
  lemma ClearedRunResets(cfg: Config, remote: Remote, before: TableState)
    requires Reaches(cfg, remote)
    requires Pipeline(cfg, remote, before).exit !in {UpToDate, Fatal(BadVersionComment)}
    ensures Pipeline(cfg, remote, before).table.present
    ensures before.present ==> Truncate(FullName(cfg)) in Pipeline(cfg, remote, before).actions
    ensures !before.present ==>
      && CreateTable(FullName(cfg), cfg.geomColumn) in Pipeline(cfg, remote, before).actions
      && GrantSelect(FullName(cfg)) in Pipeline(cfg, remote, before).actions
  {
    var sel := LatestLayer(remote.layers).value;
    var acts := [ListLayers, OpenDatabase(PgUri(cfg.db))] + RoleActions(cfg.db.rolename);
    assert Pipeline(cfg, remote, before) == Gated(cfg, remote, before, sel, acts);
    GatedResets(cfg, remote, before, sel, acts);
  }

  /** `ClearedRunResets` from the comment check on. */
  lemma GatedResets(cfg: Config, remote: Remote, before: TableState, sel: Selection, acts: seq<Action>)
    requires Gated(cfg, remote, before, sel, acts).exit !in {UpToDate, Fatal(BadVersionComment)}
    ensures Gated(cfg, remote, before, sel, acts).table.present
    ensures before.present ==> Truncate(FullName(cfg)) in Gated(cfg, remote, before, sel, acts).actions
    ensures !before.present ==>
      && CreateTable(FullName(cfg), cfg.geomColumn) in Gated(cfg, remote, before, sel, acts).actions
      && GrantSelect(FullName(cfg)) in Gated(cfg, remote, before, sel, acts).actions
  {
    var read := if before.present then acts + [ReadComment(cfg.schema, cfg.layerName)] else acts;
    var g := Gate(cfg, before, sel.year);
    assert g.Cleared?;
    var ready := read + g.actions;
    var r := Load(cfg, remote, sel, g.table, ready);
    assert Gated(cfg, remote, before, sel, acts) == r;
    LoadAppends(cfg, remote, sel, g.table, ready);
    LoadKeepsTable(cfg, remote, sel, g.table, ready);
    assert r.actions == ready + r.actions[|ready|..];
  }

  /**
   * `public` may select from the table after a run exactly when it could
   * before, or the run reached a missing table and created it.
   */
  lemma PublicSelectGranted(cfg: Config, remote: Remote, before: TableState)
    ensures Pipeline(cfg, remote, before).table.publicSelect ==
      (before.publicSelect || (!before.present && Reaches(cfg, remote)))
  {
    if Reaches(cfg, remote) {
      var sel := LatestLayer(remote.layers).value;
      var acts := [ListLayers, OpenDatabase(PgUri(cfg.db))] + RoleActions(cfg.db.rolename);
      assert Pipeline(cfg, remote, before) == Gated(cfg, remote, before, sel, acts);
      GatedPublicSelect(cfg, remote, before, sel, acts);
    }
  }

  /** `PublicSelectGranted` from the comment check on. */
  lemma GatedPublicSelect(cfg: Config, remote: Remote, before: TableState, sel: Selection, acts: seq<Action>)
    ensures Gated(cfg, remote, before, sel, acts).table.publicSelect == (before.publicSelect || !before.present)
  {
    var read := if before.present then acts + [ReadComment(cfg.schema, cfg.layerName)] else acts;
    var g := Gate(cfg, before, sel.year);
    if g.Cleared? {
      LoadKeepsTable(cfg, remote, sel, g.table, read + g.actions);
    }
  }

  /** The load never drops the table or changes who may select from it. */
  lemma LoadKeepsTable(cfg: Config, remote: Remote, sel: Selection, t: TableState, acts: seq<Action>)
    ensures Load(cfg, remote, sel, t, acts).table.present == t.present
    ensures Load(cfg, remote, sel, t, acts).table.publicSelect == t.publicSelect
  {
  }

  /** The load only adds actions after those it is given, and none of them truncates or creates. */
  lemma LoadAppends(cfg: Config, remote: Remote, sel: Selection, t: TableState, acts: seq<Action>)
    ensures |Load(cfg, remote, sel, t, acts).actions| >= |acts|
    ensures Load(cfg, remote, sel, t, acts).actions[..|acts|] == acts
    ensures forall a :: a in Load(cfg, remote, sel, t, acts).actions[|acts|..] ==> !a.Truncate? && !a.CreateTable?
  {
  }

  /**
   * `create_grid` with a resolution that is not positive stops the run
   * before anything is fetched or opened, once the reference system is
   * known to be valid.
   */
  lemma GridResolutionCheckedFirst(cfg: Config, remote: Remote, before: TableState)
    requires cfg.srsValid && cfg.createGrid && !(cfg.gridRes > 0.0)
    ensures Pipeline(cfg, remote, before) == RunResult(Fatal(BadGridRes), before, [])
  {
  }

  /**
   * After an update the table exists, holds one row per input feature, in
   * order, named from the name field with the normalised geometry, and its
   * comment is the latest layer's year.
   */
  lemma UpdateWritesEveryFeature(cfg: Config, remote: Remote, before: TableState)
    requires Pipeline(cfg, remote, before).exit == Updated
    ensures Reaches(cfg, remote) && FetchInput(remote).Some?
    ensures LastNameField(FetchInput(remote).value.fields, LatestLayer(remote.layers).value.year).Some?
    ensures
      var r := Pipeline(cfg, remote, before);
      var year := LatestLayer(remote.layers).value.year;
      var input := FetchInput(remote).value;
      var nameField := LastNameField(input.fields, year).value;
      && r.table.present
      && r.table.comment == Some(NatToString(year))
      && |r.table.rows| == |input.features| >= 1
      && forall k :: 0 <= k < |input.features| ==>
           input.features[k].geom.Some?
           && r.table.rows[k] == Row(FieldValue(input.features[k], nameField),
                                     Normalised(input.features[k].geom.value, cfg.srsGeographic && cfg.shiftGeometry))
  {
    UpdatedTable(cfg, remote, before);
  }

  /** The table an updated (or grid-failed) run leaves, spelled out. */
  lemma UpdatedTable(cfg: Config, remote: Remote, before: TableState)
    requires Pipeline(cfg, remote, before).exit in {Updated, Fatal(GridFailed)}
    ensures Reaches(cfg, remote) && FetchInput(remote).Some?
    ensures LastNameField(FetchInput(remote).value.fields, LatestLayer(remote.layers).value.year).Some?
    ensures
      var year := LatestLayer(remote.layers).value.year;
      var input := FetchInput(remote).value;
      var nameField := LastNameField(input.fields, year).value;
      && |input.features| >= 1
      && CopiedRows(input.features, nameField, cfg.srsGeographic && cfg.shiftGeometry).Some?
      && Pipeline(cfg, remote, before).table.present
      && Pipeline(cfg, remote, before).table.comment == Some(NatToString(year))
      && Pipeline(cfg, remote, before).table.rows ==
           CopiedRows(input.features, nameField, cfg.srsGeographic && cfg.shiftGeometry).value
  {
    var sel := LatestLayer(remote.layers).value;
    var acts := [ListLayers, OpenDatabase(PgUri(cfg.db))] + RoleActions(cfg.db.rolename);
    assert Pipeline(cfg, remote, before) == Gated(cfg, remote, before, sel, acts);
    var g := Gate(cfg, before, sel.year);
    assert g.Cleared?;
    assert g.table.rows == [];
  }

  /**
   * A run repeated after an update, with `force_update` off and the same
   * service and database, stops as up to date: the stamp written is read
   * back as the same year.
   */
  lemma RerunIsUpToDate(cfg: Config, remote: Remote, before: TableState)
    requires Pipeline(cfg, remote, before).exit in {Updated, Fatal(GridFailed)}
    requires !cfg.forceUpdate
    ensures Pipeline(cfg, remote, Pipeline(cfg, remote, before).table).exit == UpToDate
  {
    UpdatedTable(cfg, remote, before);
    var after := Pipeline(cfg, remote, before).table;
    var year := LatestLayer(remote.layers).value.year;
    ParseIntNatToString(year);
    assert StampNoNewer(after, year);
    UpToDateExactly(cfg, remote, after);
  }

  /**
   * The comment check as the loader writes it: without `force_update` an
   * existing table whose comment holds a version is reloaded only when that
   * version is newer than the latest layer's year; an older stamp means
   * "no update needed".
   */
  lemma UpdateOnlyOverNewerStamp(cfg: Config, remote: Remote, before: TableState)
    requires Pipeline(cfg, remote, before).exit == Updated
    requires !cfg.forceUpdate && before.present && before.comment.Some?
    ensures ParseInt(before.comment.value).Some?
    ensures ParseInt(before.comment.value).value > LatestLayer(remote.layers).value.year
  {
    UpToDateExactly(cfg, remote, before);
    UpdatedTable(cfg, remote, before);
    var sel := LatestLayer(remote.layers).value;
    var acts := [ListLayers, OpenDatabase(PgUri(cfg.db))] + RoleActions(cfg.db.rolename);
    assert Pipeline(cfg, remote, before) == Gated(cfg, remote, before, sel, acts);
    assert Gate(cfg, before, sel.year).Cleared?;
  }

  /** A service that returns no features leaves the table existing and empty. */
  lemma NoFeaturesLeavesTableEmpty(cfg: Config, remote: Remote, before: TableState)
    requires Pipeline(cfg, remote, before).exit == Fatal(NoFeatures)
    ensures Pipeline(cfg, remote, before).table.present
    ensures Pipeline(cfg, remote, before).table.rows == []
  {
    var sel := LatestLayer(remote.layers).value;
    var acts := [ListLayers, OpenDatabase(PgUri(cfg.db))] + RoleActions(cfg.db.rolename);
    assert Pipeline(cfg, remote, before) == Gated(cfg, remote, before, sel, acts);
  }

  /**
   * The grid is built exactly when `create_grid` is set and the table was
   * written, as the last step, with `grid_res` for both resolutions.
   */
  lemma GridBuiltLast(cfg: Config, remote: Remote, before: TableState)
    requires Pipeline(cfg, remote, before).exit in {Updated, Fatal(GridFailed)}
    ensures var acts := Pipeline(cfg, remote, before).actions;
      |acts| > 0 && (cfg.createGrid <==>
        acts[|acts| - 1] == BuildGrid(cfg.schema, cfg.layerName, cfg.geomColumn, cfg.gridRes, cfg.gridRes))
    ensures Pipeline(cfg, remote, before).exit == Fatal(GridFailed) ==> cfg.createGrid && cfg.gridRes > 0.0 && !remote.gridBuilds
  {
    UpdatedTable(cfg, remote, before);
    var sel := LatestLayer(remote.layers).value;
    var acts := [ListLayers, OpenDatabase(PgUri(cfg.db))] + RoleActions(cfg.db.rolename);
    assert Pipeline(cfg, remote, before) == Gated(cfg, remote, before, sel, acts);
  }

  /**
   * What the copy does to a geometry: it is never left a single polygon; a
   * polygon becomes the one-polygon multi-polygon of the same rings; and
   * its vertices are the input's, shifted into 0..360 longitude when asked.
   */
  lemma NormalisedGeometry(g: Geom, shift: bool)
    ensures !Normalised(g, shift).PolygonGeom?
    ensures Vertices(Normalised(g, shift)) == if shift then ShiftRing(Vertices(g)) else Vertices(g)
    ensures !shift && g.PolygonGeom? ==> Normalised(g, shift) == MultiPolygonGeom([g.polygon])
    ensures !shift && !g.PolygonGeom? ==> Normalised(g, shift) == g
  {
    ForceKeepsVertices(g);
    var m := if g.PolygonGeom? then ForceToMultiPolygon(g) else g;
    ShiftOnlyMovesX(m);
  }
}
