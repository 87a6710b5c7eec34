/**
 * The fixture of toweb/seed_db.py worked through in lemmas: two originals with
 * a base and two POI outputs each, and the timestamps the seed writes
 * relative to its base time (seconds).
 */
module SnapshotSeed {
  import opened Wrappers
  import opened SnapshotModel
  import opened SnapshotCommands
  import opened SnapshotPlan

  const Hour: int := 3600

  /** An original as the seed inserts it (its note, which nothing reads, is left empty). */
  function Original(path: string, w: int, h: int, fr: real, codec: string, duration: real,
                    cfgStart: Option<real>, cfgMax: Option<real>, raw: int, poi: int, conv: TsCell): MediaFile {
    MediaFile(None, path, "original", Some(w), Some(h), Some(fr), Some(codec), Some(duration), Some(0.0),
              cfgStart, cfgMax, Iso(raw), Iso(poi), conv, None)
  }

  /** An output row as the seed inserts it: 320x180 at 25 fps, h264, three seconds. */
  function Output(parent: int, path: string, kind: string): MediaFile {
    MediaFile(Some(parent), path, kind, Some(320), Some(180), Some(25.0), Some("h264"), Some(3.0), None,
              None, Some(3.0), Null, Null, Null, None)
  }

  /** The first original: 1080p ProRes, 30 s, configured to start at 1 s for at most 3 s. */
  function FirstOriginal(base: int, conv: TsCell): MediaFile {
    Original("media/orig_01.mov", 1920, 1080, 25.0, "prores", 30.0, Some(1.0), Some(3.0), base, base + 2 * Hour, conv)
  }

  /** The second original: 2160p H.264, 45 s, nothing configured. */
  function SecondOriginal(base: int, conv: TsCell): MediaFile {
    Original("media/orig_02.mov", 3840, 2160, 24.0, "h264", 45.0, None, None, base, base + 2 * Hour, conv)
  }

  /** media_file after seeding: originals 1 and 2, outputs 3-5 of the first and 6-8 of the second. */
  function SeedFiles(base: int, clearConv: bool): map<int, MediaFile> {
    map[1 := FirstOriginal(base, if clearConv then Null else Iso(base + Hour)),
        2 := SecondOriginal(base, if clearConv then Null else Iso(base + 5 * Hour)),
        3 := Output(1, "out/orig_01_base.mp4", "snapshot_base"),
        4 := Output(1, "out/orig_01_poi_1.mp4", "snapshot_poi"),
        5 := Output(1, "out/orig_01_poi_2.mp4", "snapshot_poi"),
        6 := Output(2, "out/orig_02_base.mp4", "snapshot_base"),
        7 := Output(2, "out/orig_02_poi_1.mp4", "snapshot_poi"),
        8 := Output(2, "out/orig_02_poi_2.mp4", "snapshot_poi")]
  }

  /** The four POIs: only the second POI of the second original is updated after its conversion. */
  function SeedPoi(id: int, media: int, idx: int, updated: int): Poi {
    Poi(id, media, Some(idx as real), Some((960 + 20 * idx) as real), Some((540 + 10 * idx) as real),
        Some(1.0 + 0.1 * idx as real), Some(3.5), Some(1), Iso(updated))
  }

  function SeedPois(base: int): seq<Poi> {
    [SeedPoi(1, 1, 1, base + Hour), SeedPoi(2, 1, 2, base + Hour),
     SeedPoi(3, 2, 1, base + Hour), SeedPoi(4, 2, 2, base + 6 * Hour)]
  }

  /** The edit points, copying their POI's t, x, y, z and distance. */
  function SeedEdit(id: int, orig: int, out: int, poi: Option<Poi>): EditPoint {
    if poi.None? then EditPoint(id, orig, out, None, Some(1), None, None, None, None, None)
    else var p := poi.value;
      EditPoint(id, orig, out, Some(p.id), Some(1), p.t, p.x, p.y, p.z, p.distance)
  }

  function SeedEdits(base: int): seq<EditPoint> {
    var p := SeedPois(base);
    [SeedEdit(1, 1, 3, None), SeedEdit(2, 1, 4, Some(p[0])), SeedEdit(3, 1, 5, Some(p[1])),
     SeedEdit(4, 2, 6, None), SeedEdit(5, 2, 7, Some(p[2])), SeedEdit(6, 2, 8, Some(p[3]))]
  }

  /** Every ffmpeg run succeeds; the input exists; nothing needs probing. */
  function AllGood(now: int): Env {
    Env(true, None, None, (j: nat) => true, now)
  }

  /** The latest POI update of each seeded original, by unfolding the fold row by row. */
  lemma SeedPoiMax(base: int)
    ensures PoiMaxTs(SeedPois(base), 1) == Some((base + Hour) * Micro)
    ensures PoiMaxTs(SeedPois(base), 2) == Some((base + 6 * Hour) * Micro)
  {
    var p := SeedPois(base);
    assert p[..4][..3] == p[..3] && p[..3][..2] == p[..2] && p[..2][..1] == p[..1] && p[..1][..0] == [];
    assert p[..4] == p;
    assert PoiMaxTs(p[..1], 1) == Some((base + Hour) * Micro);
    assert PoiMaxTs(p[..2], 1) == Some((base + Hour) * Micro);
    assert PoiMaxTs(p[..3], 1) == Some((base + Hour) * Micro);
    assert PoiMaxTs(p[..1], 2) == None;
    assert PoiMaxTs(p[..2], 2) == None;
    assert PoiMaxTs(p[..3], 2) == Some((base + Hour) * Micro);
  }

  /** The joined POI update of each seeded POI edit point. */
  lemma SeedPoiUpdated(base: int)
    ensures var p := SeedPois(base);
            && PoiUpdatedAt(p, Some(1)) == Iso(base + Hour) && PoiUpdatedAt(p, Some(2)) == Iso(base + Hour)
            && PoiUpdatedAt(p, Some(3)) == Iso(base + Hour) && PoiUpdatedAt(p, Some(4)) == Iso(base + 6 * Hour)
  {
    var p := SeedPois(base);
    assert p[1..] == [p[1], p[2], p[3]];
    assert p[1..][1..] == [p[2], p[3]];
    assert p[1..][1..][1..] == [p[3]];
    assert PoiUpdatedAt(p[1..][1..][1..], Some(4)) == Iso(base + 6 * Hour);
    assert PoiUpdatedAt(p[1..][1..], Some(4)) == Iso(base + 6 * Hour);
    assert PoiUpdatedAt(p[1..][1..], Some(3)) == Iso(base + Hour);
  }

  /** The six output rows as seeded. */
  predicate OutputsSeeded(files: map<int, MediaFile>) {
    && 3 in files && files[3] == Output(1, "out/orig_01_base.mp4", "snapshot_base")
    && 4 in files && files[4] == Output(1, "out/orig_01_poi_1.mp4", "snapshot_poi")
    && 5 in files && files[5] == Output(1, "out/orig_01_poi_2.mp4", "snapshot_poi")
    && 6 in files && files[6] == Output(2, "out/orig_02_base.mp4", "snapshot_base")
    && 7 in files && files[7] == Output(2, "out/orig_02_poi_1.mp4", "snapshot_poi")
    && 8 in files && files[8] == Output(2, "out/orig_02_poi_2.mp4", "snapshot_poi")
  }

  /** The rows load_edit_points returns for the first original. */
  function FirstViews(base: int): seq<EditView> {
    var e := SeedEdits(base);
    [View(e[0], Output(1, "out/orig_01_base.mp4", "snapshot_base"), Null),
     View(e[1], Output(1, "out/orig_01_poi_1.mp4", "snapshot_poi"), Iso(base + Hour)),
     View(e[2], Output(1, "out/orig_01_poi_2.mp4", "snapshot_poi"), Iso(base + Hour))]
  }

  /** The rows load_edit_points returns for the second original. */
  function SecondViews(base: int): seq<EditView> {
    var e := SeedEdits(base);
    [View(e[3], Output(2, "out/orig_02_base.mp4", "snapshot_base"), Null),
     View(e[4], Output(2, "out/orig_02_poi_1.mp4", "snapshot_poi"), Iso(base + Hour)),
     View(e[5], Output(2, "out/orig_02_poi_2.mp4", "snapshot_poi"), Iso(base + 6 * Hour))]
  }

  lemma FirstViewsLoaded(base: int, files: map<int, MediaFile>)
    requires OutputsSeeded(files)
    ensures EditViews(files, SeedPois(base), SeedEdits(base), 1) == FirstViews(base)
  {
    var e, p := SeedEdits(base), SeedPois(base);
    SeedPoiUpdated(base);
    var v := FirstViews(base);
    assert e[1..][1..][1..] == [e[3], e[4], e[5]];
    assert e[1..][1..][1..][1..] == [e[4], e[5]];
    assert e[1..][1..][1..][1..][1..] == [e[5]];
    assert EditViews(files, p, e[1..][1..][1..][1..][1..][1..], 1) == [];
    assert EditViews(files, p, e[1..][1..][1..][1..][1..], 1) == [];
    assert EditViews(files, p, e[1..][1..][1..][1..], 1) == [];
    assert EditViews(files, p, e[1..][1..][1..], 1) == [];
    assert EditViews(files, p, e[1..][1..], 1) == v[2..];
    assert EditViews(files, p, e[1..], 1) == v[1..];
  }

  lemma SecondViewsLoaded(base: int, files: map<int, MediaFile>)
    requires OutputsSeeded(files)
    ensures EditViews(files, SeedPois(base), SeedEdits(base), 2) == SecondViews(base)
  {
    var e, p := SeedEdits(base), SeedPois(base);
    SeedPoiUpdated(base);
    var v := SecondViews(base);
    assert e[1..][1..][1..] == [e[3], e[4], e[5]];
    assert e[1..][1..][1..][1..] == [e[4], e[5]];
    assert e[1..][1..][1..][1..][1..] == [e[5]];
    assert EditViews(files, p, e[1..][1..][1..][1..][1..], 2) == v[2..];
    assert EditViews(files, p, e[1..][1..][1..][1..], 2) == v[1..];
    assert EditViews(files, p, e[1..][1..][1..], 2) == v;
    assert EditViews(files, p, e[1..][1..], 2) == v;
    assert EditViews(files, p, e[1..], 2) == v;
  }

  /** The report of Process on a recording that needs no probe and has the given edit-point rows. */
  lemma ProcessRan(files: map<int, MediaFile>, pois: seq<Poi>, edits: seq<EditPoint>,
                   mediaId: int, media: MediaFile, cli: Cli, env: Env,
                   views: seq<EditView>, ts: Times, plans: seq<Plan>, updated: seq<int>)
    requires mediaId in files && env.inputExists && !NeedsProbe(media)
    requires EditViews(files, pois, edits, mediaId) == views && views != []
    requires RecordingTimes(media, env.mtime, pois, mediaId) == ts
    requires plans == Plans(views, media, ResolvePath(cli.baseDir, media.path), ts, cli)
    requires updated == Updated(views, plans, env.ok, |views|)
    ensures Process(files, pois, edits, mediaId, media, cli, env).0 == Ran(false, views, plans, updated)
  {
  }

  /** The instants of the first original: raw at the base time, POI edit +2h, conversion +1h, latest POI +1h. */
  lemma FirstTimes(base: int)
    ensures RecordingTimes(FirstOriginal(base, Iso(base + Hour)), None, SeedPois(base), 1)
            == Times(Some(base * Micro), Some((base + 2 * Hour) * Micro), Some((base + Hour) * Micro),
                     Some((base + Hour) * Micro))
  {
    SeedPoiMax(base);
  }

  /** The instants of the second original: raw at the base time, POI edit +2h, conversion +5h, latest POI +6h. */
  lemma SecondTimes(base: int)
    ensures RecordingTimes(SecondOriginal(base, Iso(base + 5 * Hour)), None, SeedPois(base), 2)
            == Times(Some(base * Micro), Some((base + 2 * Hour) * Micro), Some((base + 5 * Hour) * Micro),
                     Some((base + 6 * Hour) * Micro))
  {
    SeedPoiMax(base);
  }

  /** updated_outputs over three outputs, written out. */
  lemma UpdatedThree(views: seq<EditView>, plans: seq<Plan>, ok: nat -> bool)
    requires |views| == |plans| == 3
    ensures Updated(views, plans, ok, 3)
            == (if plans[0].Render? && ok(0) then [views[0].outId] else [])
               + (if plans[1].Render? && ok(1) then [views[1].outId] else [])
               + (if plans[2].Render? && ok(2) then [views[2].outId] else [])
  {
    assert Updated(views, plans, ok, 1) == (if plans[0].Render? && ok(0) then [views[0].outId] else []);
  }

  /** Only the second and third outputs rendered, both successfully. */
  lemma UpdatedLastTwo(views: seq<EditView>, plans: seq<Plan>, ok: nat -> bool)
    requires |views| == |plans| == 3
    requires plans[0].Skip? && plans[1].Render? && plans[2].Render? && ok(1) && ok(2)
    ensures Updated(views, plans, ok, 3) == [views[1].outId, views[2].outId]
  {
    UpdatedThree(views, plans, ok);
  }

  /** Only the third output rendered, successfully. */
  lemma UpdatedLast(views: seq<EditView>, plans: seq<Plan>, ok: nat -> bool)
    requires |views| == |plans| == 3
    requires plans[0].Skip? && plans[1].Skip? && plans[2].Render? && ok(2)
    ensures Updated(views, plans, ok, 3) == [views[2].outId]
  {
    UpdatedThree(views, plans, ok);
  }

  /** The plans of the first original's three outputs. */
  lemma FirstPlans(base: int, cli: Cli, inPath: string)
    ensures var ts := Times(Some(base * Micro), Some((base + 2 * Hour) * Micro), Some((base + Hour) * Micro),
                            Some((base + Hour) * Micro));
            var v := FirstViews(base);
            var plans := Plans(v, FirstOriginal(base, Iso(base + Hour)), inPath, ts, cli);
            plans[0] == Skip(BaseFresh) && plans[1].Render? && plans[2].Render?
  {
  }

  /** The plans of the second original's three outputs. */
  lemma SecondPlans(base: int, cli: Cli, inPath: string)
    ensures var ts := Times(Some(base * Micro), Some((base + 2 * Hour) * Micro), Some((base + 5 * Hour) * Micro),
                            Some((base + 6 * Hour) * Micro));
            var v := SecondViews(base);
            var plans := Plans(v, SecondOriginal(base, Iso(base + 5 * Hour)), inPath, ts, cli);
            plans[0] == Skip(BaseFresh) && plans[1] == Skip(KeyframeFresh) && plans[2].Render?
  {
  }

  /** The seeded table meets the requirements of the scenario lemmas below. */
  lemma SeedFilesSeeded(base: int, clearConv: bool)
    ensures var files := SeedFiles(base, clearConv);
            && OutputsSeeded(files)
            && 1 in files && files[1] == FirstOriginal(base, if clearConv then Null else Iso(base + Hour))
            && 2 in files && files[2] == SecondOriginal(base, if clearConv then Null else Iso(base + 5 * Hour))
  {
  }

  /**
   * The first original, whose seed comment announces a full rebuild: its raw
   * input (base time) is older than its conversion (one hour later), so the
   * base output is skipped; its POI edit (two hours) is newer than the
   * conversion, so both POI outputs are rendered and stamped with the
   * recording.
   */
  lemma SeedFirstOriginal(files: map<int, MediaFile>, base: int, cli: Cli, now: int)
    requires OutputsSeeded(files) && 1 in files && files[1] == FirstOriginal(base, Iso(base + Hour))
    ensures var rep := Process(files, SeedPois(base), SeedEdits(base), 1, files[1], cli, AllGood(now)).0;
            && rep.Ran? && |rep.plans| == 3
            && rep.plans[0] == Skip(BaseFresh) && rep.plans[1].Render? && rep.plans[2].Render?
            && rep.updated == [4, 5]
  {
    var media := files[1];
    var v := FirstViews(base);
    FirstViewsLoaded(base, files);
    FirstTimes(base);
    var inPath := ResolvePath(cli.baseDir, media.path);
    FirstPlans(base, cli, inPath);
    var ts := Times(Some(base * Micro), Some((base + 2 * Hour) * Micro), Some((base + Hour) * Micro),
                    Some((base + Hour) * Micro));
    var plans := Plans(v, media, inPath, ts, cli);
    UpdatedLastTwo(v, plans, AllGood(now).ok);
    assert v[1].outId == 4 && v[2].outId == 5;
    ProcessRan(files, SeedPois(base), SeedEdits(base), 1, media, cli, AllGood(now), v, ts, plans, [4, 5]);
  }

  /** The stamps of the first original's pass: the recording and both POI outputs get the clock, the base output keeps its row. */
  lemma SeedFirstStamps(files: map<int, MediaFile>, base: int, cli: Cli, now: int)
    requires OutputsSeeded(files) && 1 in files && files[1] == FirstOriginal(base, Iso(base + Hour))
    ensures var out := Process(files, SeedPois(base), SeedEdits(base), 1, files[1], cli, AllGood(now)).1;
            && out.Keys == files.Keys
            && (forall id :: id in files && id !in {1, 4, 5} ==> out[id] == files[id])
            && out[1] == files[1].(convMtime := Iso(now))
            && out[4] == files[4].(convMtime := Iso(now)) && out[5] == files[5].(convMtime := Iso(now))
  {
    SeedFirstOriginal(files, base, cli, now);
    var pois, edits := SeedPois(base), SeedEdits(base);
    StampingExact(files, pois, edits, 1, files[1], cli, AllGood(now));
    RawBackfill(files, pois, edits, 1, files[1], cli, AllGood(now));
    OnlyTimesChange(files, pois, edits, 1, files[1], cli, AllGood(now));
  }

  /**
   * The second original: its conversion is newer than the raw input and its
   * POI edit, so the base output and the first POI output are skipped; the
   * second POI was updated after the conversion and only its output is
   * rendered and stamped, together with the recording.
   */
  lemma SeedSecondOriginal(files: map<int, MediaFile>, base: int, cli: Cli, now: int)
    requires OutputsSeeded(files) && 2 in files && files[2] == SecondOriginal(base, Iso(base + 5 * Hour))
    ensures var rep := Process(files, SeedPois(base), SeedEdits(base), 2, files[2], cli, AllGood(now)).0;
            && rep.Ran? && |rep.plans| == 3
            && rep.plans[0] == Skip(BaseFresh) && rep.plans[1] == Skip(KeyframeFresh) && rep.plans[2].Render?
            && rep.updated == [8]
  {
    var media := files[2];
    var v := SecondViews(base);
    SecondViewsLoaded(base, files);
    SecondTimes(base);
    var inPath := ResolvePath(cli.baseDir, media.path);
    SecondPlans(base, cli, inPath);
    var ts := Times(Some(base * Micro), Some((base + 2 * Hour) * Micro), Some((base + 5 * Hour) * Micro),
                    Some((base + 6 * Hour) * Micro));
    var plans := Plans(v, media, inPath, ts, cli);
    UpdatedLast(v, plans, AllGood(now).ok);
    assert v[2].outId == 8;
    ProcessRan(files, SeedPois(base), SeedEdits(base), 2, media, cli, AllGood(now), v, ts, plans, [8]);
  }

  /** The stamps of the second original's pass: the recording and its second POI output get the clock, every other row is kept. */
  lemma SeedSecondStamps(files: map<int, MediaFile>, base: int, cli: Cli, now: int)
    requires OutputsSeeded(files) && 2 in files && files[2] == SecondOriginal(base, Iso(base + 5 * Hour))
    ensures var out := Process(files, SeedPois(base), SeedEdits(base), 2, files[2], cli, AllGood(now)).1;
            && out.Keys == files.Keys
            && (forall id :: id in files && id !in {2, 8} ==> out[id] == files[id])
            && out[2] == files[2].(convMtime := Iso(now)) && out[8] == files[8].(convMtime := Iso(now))
  {
    SeedSecondOriginal(files, base, cli, now);
    var pois, edits := SeedPois(base), SeedEdits(base);
    StampingExact(files, pois, edits, 2, files[2], cli, AllGood(now));
    RawBackfill(files, pois, edits, 2, files[2], cli, AllGood(now));
    OnlyTimesChange(files, pois, edits, 2, files[2], cli, AllGood(now));
  }

  /** After `--clear-conv` the recordings count as never converted, so each seeded output of either original is rendered. */
  lemma SeedClearedRenders(base: int, cli: Cli, inPath: string, k: int)
    requires 0 <= k < 3
    ensures var media := FirstOriginal(base, Null);
            Decide(FirstViews(base)[k], media, inPath, RecordingTimes(media, None, SeedPois(base), 1), cli).Render?
    ensures var media := SecondOriginal(base, Null);
            Decide(SecondViews(base)[k], media, inPath, RecordingTimes(media, None, SeedPois(base), 2), cli).Render?
  {
    var v1, v2 := FirstViews(base)[k], SecondViews(base)[k];
    assert SizeKnown(v1, cli) && SizeKnown(v2, cli);
    NeverConvertedRendersAll(v1, FirstOriginal(base, Null), inPath, RecordingTimes(FirstOriginal(base, Null), None, SeedPois(base), 1), cli);
    NeverConvertedRendersAll(v2, SecondOriginal(base, Null), inPath, RecordingTimes(SecondOriginal(base, Null), None, SeedPois(base), 2), cli);
  }
}
