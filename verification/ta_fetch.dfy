/**
 * How the TA loader gets the features of the chosen layer from the ArcGIS
 * REST service: either the whole layer through OGR's paging, or, when paging
 * is not available, one request per object id, each feature copied into a
 * scratch in-memory layer whose fields are taken from the first feature.
 */
module FeatureFetch {
  import opened Common
  import opened Text
  import opened Geometry

  /**
   * A feature as the service hands it over: the field names of its
   * definition, the values of the fields that are set, and its geometry
   * (which may be missing).
   */
  datatype Feature = Feature(fields: seq<string>, attrs: map<string, string>, geom: Option<Geom>)

  /** `feature[name]`: the field's value, `None` when it is unset. */
  function FieldValue(f: Feature, name: string): (v: Option<string>)
    ensures v.Some? <==> name in f.attrs
    ensures v.Some? ==> v.value == f.attrs[name]
  {
    if name in f.attrs then Some(f.attrs[name]) else None
  }

  // ---------------------------------------------------------------------------
  // Which way to fetch

  /** The GDAL release from which OGR can page through an ArcGIS layer (2.0.0). */
  const PagingGdal: int := 2000000

  /** The ArcGIS server release from which the service pages (10.1). */
  const PagingServer: real := 10.1

  /**
   * The paginated path is taken when GDAL is at least 2.0, the server at
   * least 10.1, and the server's `supportsPagination` flag, written out as
   * text and lower-cased, is `true`.
   */
  predicate UsePagination(gdalVersion: int, serverVersion: real, flagText: string) {
    gdalVersion >= PagingGdal && serverVersion >= PagingServer && Lower(flagText) == "true"
  }

  /** The flag test ignores case: `True` (what a JSON `true` prints as) and `TRUE` count, anything else does not. */
  lemma PaginationFlag(gdalVersion: int, serverVersion: real, flagText: string)
    requires gdalVersion >= PagingGdal && serverVersion >= PagingServer
    ensures UsePagination(gdalVersion, serverVersion, flagText) <==>
      |flagText| == 4 && LowerChar(flagText[0]) == 't' && LowerChar(flagText[1]) == 'r'
        && LowerChar(flagText[2]) == 'u' && LowerChar(flagText[3]) == 'e'
  {
    if |flagText| == 4 && LowerChar(flagText[0]) == 't' && LowerChar(flagText[1]) == 'r'
        && LowerChar(flagText[2]) == 'u' && LowerChar(flagText[3]) == 'e' {
      assert Lower(flagText) == "true";
    }
    if UsePagination(gdalVersion, serverVersion, flagText) {
      assert Lower(flagText)[0] == 't';
    }
  }

  /** Either release too old, and the loader falls back to one request per object. */
  lemma OldReleasesFallBack(gdalVersion: int, serverVersion: real, flagText: string)
    requires gdalVersion < PagingGdal || serverVersion < PagingServer
    ensures !UsePagination(gdalVersion, serverVersion, flagText)
  {
  }

  // ---------------------------------------------------------------------------
  // The per-object fallback

  /**
   * What the fallback loop fetches: the feature the service returns for
   * each object id, in id order; `None` as soon as one id gets no feature,
   * which ends the run.
   */
  function FetchedFeatures(ids: seq<int>, objects: map<int, Feature>): (r: Option<seq<Feature>>)
    ensures r.None? <==> exists k :: 0 <= k < |ids| && ids[k] !in objects
    ensures r.Some? ==> |r.value| == |ids| && forall k :: 0 <= k < |ids| ==> r.value[k] == objects[ids[k]]
  {
    if |ids| == 0 then Some([])
    else
      var prev := FetchedFeatures(ids[..|ids| - 1], objects);
      var id := ids[|ids| - 1];
      if prev.None? then
        var k :| 0 <= k < |ids| - 1 && ids[..|ids| - 1][k] !in objects;
        assert ids[k] !in objects;
        None
      else if id !in objects then None
      else
        assert forall k :: 0 <= k < |ids| - 1 ==> ids[..|ids| - 1][k] == ids[k];
        Some(prev.value + [objects[id]])
  }

  /** The fields of the scratch layer: those of the first fetched feature, none when there is none. */
  function FirstFields(ids: seq<int>, objects: map<int, Feature>): seq<string>
    requires FetchedFeatures(ids, objects).Some?
  {
    if |ids| == 0 then [] else objects[ids[0]].fields
  }

  /** The in-memory layer the fallback fills: its field definitions and its features. */
  class ScratchLayer {
    var fields: seq<string>
    var features: seq<Feature>

    constructor ()
      ensures fields == [] && features == []
    {
      fields := [];
      features := [];
    }

    /** `CreateField`: one more field definition. */
    method CreateField(name: string)
      modifies this
      ensures fields == old(fields) + [name] && features == old(features)
    {
      fields := fields + [name];
    }

    /** `CreateFeature`: one more feature. */
    method CreateFeature(f: Feature)
      modifies this
      ensures features == old(features) + [f] && fields == old(fields)
    {
      features := features + [f];
    }
  }

  /**
   * The fallback loop: for each object id fetch its feature; the first time
   * round copy the feature's field definitions into the layer one by one;
   * then add the feature. An id the service returns nothing for is fatal.
   */
  method FetchPerObject(ids: seq<int>, objects: map<int, Feature>, layer: ScratchLayer) returns (ok: bool)
    requires layer.fields == [] && layer.features == []
    modifies layer
    ensures ok <==> FetchedFeatures(ids, objects).Some?
    ensures ok ==> layer.features == FetchedFeatures(ids, objects).value
    ensures ok ==> layer.fields == FirstFields(ids, objects)
  {
    var defn: Option<seq<string>> := None;
    for n := 0 to |ids|
      invariant |layer.features| == n
      invariant forall k :: 0 <= k < n ==> ids[k] in objects && layer.features[k] == objects[ids[k]]
      invariant defn.None? <==> n == 0
      invariant n == 0 ==> layer.fields == []
      invariant n > 0 ==> layer.fields == objects[ids[0]].fields
    {
      if ids[n] !in objects {
        return false;
      }
      var feature := objects[ids[n]];
      if defn.None? {
        defn := Some(feature.fields);
        var i := 0;
        while i < |feature.fields|
          invariant 0 <= i <= |feature.fields|
          invariant layer.fields == feature.fields[..i]
          invariant layer.features == []
        {
          layer.CreateField(feature.fields[i]);
          i := i + 1;
        }
        assert feature.fields[..i] == feature.fields;
      }
      layer.CreateFeature(feature);
    }
    return true;
  }
}
