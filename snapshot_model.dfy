/**
 * The rows toweb/snapshot.py reads: media files, points of interest and edit
 * points as laid out in toweb/create_db.py, timestamps as whole UTC seconds,
 * and the two queries the per-recording loop issues (the latest POI update and
 * the edit points joined with their output files).
 */
module SnapshotModel {
  import opened Wrappers

  /**
   * A TEXT timestamp column: NULL, the empty string, or an ISO 8601 UTC
   * instant with second precision, kept as seconds since the epoch.
   */
  datatype TsCell = Null | Blank | Iso(secs: int)

  /**
   * Instants are compared in microseconds, the resolution of Python's
   * datetime: file modification times carry fractions of a second, the
   * stored ISO strings do not.
   */
  const Micro: int := 1000000

  /** parse_ts: NULL and the empty string are both "no timestamp"; a stored instant is a whole second. */
  function ParseTs(c: TsCell): (r: Option<int>)
    ensures r.Some? <==> c.Iso?
    ensures r.Some? ==> r.value % Micro == 0 && r.value / Micro == c.secs
  {
    match c
    case Iso(s) => Some(s * Micro)
    case _ => None
  }

  /** `dt.isoformat(timespec="seconds")`: the instant truncated to its second. */
  function FormatTs(us: int): (c: TsCell)
    ensures c.Iso? && ParseTs(c).value <= us < ParseTs(c).value + Micro
  {
    Iso(us / Micro)
  }

  /** Formatting a parsed instant gives the same cell back. */
  lemma FormatParse(c: TsCell)
    requires c.Iso?
    ensures FormatTs(ParseTs(c).value) == c
  {
  }

  /** A media_file row (its id is the key it is stored under). */
  datatype MediaFile = MediaFile(
    parentId: Option<int>,
    path: string,
    kind: string,
    width: Option<int>,
    height: Option<int>,
    frameRate: Option<real>,
    codec: Option<string>,
    duration: Option<real>,
    startTime: Option<real>,
    cfgStart: Option<real>,
    cfgMaxDuration: Option<real>,
    rawMtime: TsCell,
    poiMtime: TsCell,
    convMtime: TsCell,
    note: Option<string>)

  /** A poi row. */
  datatype Poi = Poi(
    id: int,
    mediaId: int,
    t: Option<real>,
    x: Option<real>,
    y: Option<real>,
    z: Option<real>,
    distance: Option<real>,
    defaultCameraId: Option<int>,
    updatedAt: TsCell)

  /** An edit_point row, with the POI values it copied when it was made. */
  datatype EditPoint = EditPoint(
    id: int,
    originalMediaId: int,
    outputMediaId: int,
    poiId: Option<int>,
    cameraId: Option<int>,
    poiT: Option<real>,
    poiX: Option<real>,
    poiY: Option<real>,
    poiZ: Option<real>,
    poiDistance: Option<real>)

  /**
   * One row of load_edit_points. The query selects `ep.*` first, so the names
   * poi_t, poi_x, poi_y and poi_z resolve to the edit point's own copies;
   * poi_updated_at has no such twin and comes from the joined poi.
   */
  datatype EditView = EditView(
    outId: int,
    outPath: string,
    outKind: string,
    outWidth: Option<int>,
    outHeight: Option<int>,
    outFrameRate: Option<real>,
    outCodec: Option<string>,
    outCfgStart: Option<real>,
    outCfgMaxDuration: Option<real>,
    poiT: Option<real>,
    poiX: Option<real>,
    poiY: Option<real>,
    poiZ: Option<real>,
    poiUpdatedAt: TsCell)

  /** `LEFT JOIN poi p ON p.id = ep.poi_id`: the joined updated_at, NULL without a match. */
  function PoiUpdatedAt(pois: seq<Poi>, poiId: Option<int>): (c: TsCell)
    ensures c != Null ==> poiId.Some? && exists k :: 0 <= k < |pois| && pois[k].id == poiId.value && pois[k].updatedAt == c
    ensures poiId.Some? && (forall k :: 0 <= k < |pois| ==> pois[k].id != poiId.value) ==> c == Null
  {
    if poiId.None? || pois == [] then Null
    else if pois[0].id == poiId.value then pois[0].updatedAt
    else PoiUpdatedAt(pois[1..], poiId)
  }

  /** With several poi rows of the same id, the first in table order supplies updated_at. */
  lemma {:induction false} PoiUpdatedAtFirstMatch(pois: seq<Poi>, poiId: int, k: nat)
    requires k < |pois| && pois[k].id == poiId
    requires forall j :: 0 <= j < k ==> pois[j].id != poiId
    ensures PoiUpdatedAt(pois, Some(poiId)) == pois[k].updatedAt
  {
    if k > 0 {
      assert pois[0].id != poiId;
      PoiUpdatedAtFirstMatch(pois[1..], poiId, k - 1);
    }
  }

  function View(e: EditPoint, out: MediaFile, poiUpdatedAt: TsCell): EditView {
    EditView(e.outputMediaId, out.path, out.kind, out.width, out.height, out.frameRate,
             out.codec, out.cfgStart, out.cfgMaxDuration,
             e.poiT, e.poiX, e.poiY, e.poiZ, poiUpdatedAt)
  }

  /**
   * load_edit_points: the recording's edit points whose output file exists
   * (an inner join), in table order.
   */
  function EditViews(files: map<int, MediaFile>, pois: seq<Poi>, edits: seq<EditPoint>, mediaId: int): (r: seq<EditView>)
    ensures |r| <= |edits|
    ensures forall k :: 0 <= k < |r| ==> r[k].outId in files
  {
    if edits == [] then []
    else
      var e := edits[0];
      var rest := EditViews(files, pois, edits[1..], mediaId);
      if e.originalMediaId == mediaId && e.outputMediaId in files
      then [View(e, files[e.outputMediaId], PoiUpdatedAt(pois, e.poiId))] + rest
      else rest
  }

  /** An edit point load_edit_points returns for the recording: its own, with an existing output row. */
  predicate Selected(files: map<int, MediaFile>, e: EditPoint, mediaId: int) {
    e.originalMediaId == mediaId && e.outputMediaId in files
  }

  /** The joined row of a selected edit point. */
  function ViewOf(files: map<int, MediaFile>, pois: seq<Poi>, e: EditPoint): EditView
    requires e.outputMediaId in files
  {
    View(e, files[e.outputMediaId], PoiUpdatedAt(pois, e.poiId))
  }

  /** v is the joined row of one of the selected edit points. */
  predicate FromSelected(files: map<int, MediaFile>, pois: seq<Poi>, edits: seq<EditPoint>, mediaId: int, v: EditView) {
    exists i :: 0 <= i < |edits| && Selected(files, edits[i], mediaId) && v == ViewOf(files, pois, edits[i])
  }

  /**
   * The rows of load_edit_points are exactly the joined rows of the selected
   * edit points: each row comes from one of them, and each of them appears.
   */
  lemma {:induction false} EditViewsMembers(files: map<int, MediaFile>, pois: seq<Poi>, edits: seq<EditPoint>, mediaId: int)
    ensures forall v :: v in EditViews(files, pois, edits, mediaId) ==> FromSelected(files, pois, edits, mediaId, v)
    ensures forall i :: 0 <= i < |edits| && Selected(files, edits[i], mediaId) ==>
              ViewOf(files, pois, edits[i]) in EditViews(files, pois, edits, mediaId)
  {
    if edits != [] {
      var tail := edits[1..];
      EditViewsMembers(files, pois, tail, mediaId);
      var r, rest := EditViews(files, pois, edits, mediaId), EditViews(files, pois, tail, mediaId);
      var head := if Selected(files, edits[0], mediaId) then [ViewOf(files, pois, edits[0])] else [];
      assert r == head + rest;
      forall v | v in r
        ensures FromSelected(files, pois, edits, mediaId, v)
      {
        if v in head {
          assert Selected(files, edits[0], mediaId) && v == ViewOf(files, pois, edits[0]);
        } else {
          assert FromSelected(files, pois, tail, mediaId, v);
          var i :| 0 <= i < |tail| && Selected(files, tail[i], mediaId) && v == ViewOf(files, pois, tail[i]);
          assert tail[i] == edits[i + 1];
        }
      }
      forall i | 0 <= i < |edits| && Selected(files, edits[i], mediaId)
        ensures ViewOf(files, pois, edits[i]) in r
      {
        if i > 0 {
          assert edits[i] == tail[i - 1];
        }
      }
    }
  }

  /** load_edit_points keeps table order: the rows of a concatenation are the rows of its parts, in turn. */
  lemma {:induction false} EditViewsAppend(files: map<int, MediaFile>, pois: seq<Poi>, a: seq<EditPoint>, b: seq<EditPoint>, mediaId: int)
    ensures EditViews(files, pois, a + b, mediaId) == EditViews(files, pois, a, mediaId) + EditViews(files, pois, b, mediaId)
  {
    if a == [] {
      assert a + b == b;
    } else {
      assert (a + b)[0] == a[0];
      assert (a + b)[1..] == a[1..] + b;
      EditViewsAppend(files, pois, a[1..], b, mediaId);
    }
  }

  /** One step of load_poi_max_ts's loop: a present timestamp later than the running maximum replaces it. */
  function MaxStep(maxTs: Option<int>, ts: Option<int>): Option<int> {
    if ts.Some? && (maxTs.None? || ts.value > maxTs.value) then ts else maxTs
  }

  /** The updated_at a poi row contributes to its recording's maximum. */
  function Contribution(p: Poi, mediaId: int): Option<int> {
    if p.mediaId == mediaId then ParseTs(p.updatedAt) else None
  }

  /** load_poi_max_ts as the fold its loop performs over the rows in order. */
  function PoiMaxTs(pois: seq<Poi>, mediaId: int): (r: Option<int>)
    ensures r.Some? ==> r.value % Micro == 0
    decreases |pois|
  {
    if pois == [] then None
    else MaxStep(PoiMaxTs(pois[..|pois| - 1], mediaId), Contribution(pois[|pois| - 1], mediaId))
  }

  /**
   * The fold yields the greatest present updated_at among the recording's
   * POIs, and None exactly when none of them has one.
   */
  lemma {:induction false} PoiMaxIsGreatest(pois: seq<Poi>, mediaId: int)
    ensures PoiMaxTs(pois, mediaId).Some? ==>
              exists k :: 0 <= k < |pois| && Contribution(pois[k], mediaId) == PoiMaxTs(pois, mediaId)
    ensures forall k :: 0 <= k < |pois| && Contribution(pois[k], mediaId).Some? ==>
              PoiMaxTs(pois, mediaId).Some? && Contribution(pois[k], mediaId).value <= PoiMaxTs(pois, mediaId).value
  {
    if pois != [] {
      var init := pois[..|pois| - 1];
      PoiMaxIsGreatest(init, mediaId);
      assert forall k :: 0 <= k < |init| ==> init[k] == pois[k];
      var m := PoiMaxTs(init, mediaId);
      var c := Contribution(pois[|pois| - 1], mediaId);
      if c.Some? && (m.None? || c.value > m.value) {
        assert Contribution(pois[|pois| - 1], mediaId) == PoiMaxTs(pois, mediaId);
      } else if m.Some? {
        var k :| 0 <= k < |init| && Contribution(init[k], mediaId) == m;
        assert Contribution(pois[k], mediaId) == PoiMaxTs(pois, mediaId);
      }
    }
  }
}
