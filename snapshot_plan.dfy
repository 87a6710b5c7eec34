/**
 * What the per-recording loop of toweb/snapshot.py's main decides and
 * writes: staleness of the recording, the render-or-skip choice per output,
 * the probe fill-in, and the timestamps written at the end.
 */
module SnapshotPlan {
  import opened Wrappers
  import opened SnapshotModel
  import opened SnapshotCommands

  /** The command-line values the loop uses: --out-w, --out-h, --duration, the database's directory and --out-dir. */
  datatype Cli = Cli(outW: Option<int>, outH: Option<int>, duration: Option<real>, baseDir: string, outDir: Option<string>)

  /** `args.out_dir or base_dir`: an empty --out-dir counts as absent. */
  function OutBase(cli: Cli): (r: string)
    ensures cli.outDir.Some? && cli.outDir.value != [] ==> r == cli.outDir.value
    ensures cli.outDir.None? || cli.outDir.value == [] ==> r == cli.baseDir
  {
    if cli.outDir.Some? && cli.outDir.value != [] then cli.outDir.value else cli.baseDir
  }

  /** `ep["out_width"] or args.out_w` followed by `if not out_w`: the size to use, None when both are missing or 0. */
  function Size(own: Option<int>, fallback: Option<int>): (r: Option<int>)
    ensures r.Some? ==> r.value != 0 && (r == own || r == fallback)
    ensures own.Some? && own.value != 0 ==> r == own
    ensures own.None? || own.value == 0 ==> (r.Some? <==> fallback.Some? && fallback.value != 0)
  {
    if own.Some? && own.value != 0 then own
    else if fallback.Some? && fallback.value != 0 then fallback
    else None
  }

  predicate SizeKnown(ev: EditView, cli: Cli) {
    Size(ev.outWidth, cli.outW).Some? && Size(ev.outHeight, cli.outH).Some?
  }

  /** The four instants the loop compares, in microseconds: raw input, recording POI edit, last conversion, latest POI update. */
  datatype Times = Times(raw: Option<int>, poi: Option<int>, conv: Option<int>, poiMax: Option<int>)

  /** `a and a > b`: strictly later; an absent instant is never later. */
  predicate After(a: Option<int>, b: int) {
    a.Some? && a.value > b
  }

  /** needs_base: never converted, or the raw input is newer than the conversion. */
  predicate NeedsBase(ts: Times) {
    ts.conv.None? || After(ts.raw, ts.conv.value)
  }

  /** poi_changed: never converted, or the recording's POI edit or some POI update is newer than the conversion. */
  predicate PoiChanged(ts: Times) {
    ts.conv.None? || After(ts.poi, ts.conv.value) || After(ts.poiMax, ts.conv.value)
  }

  /** The per-keyframe exemption of a POI output: its own POI and the recording's POI edit are no newer than the conversion. */
  predicate Exempt(ts: Times, poiUpdated: Option<int>) {
    && !NeedsBase(ts) && ts.conv.Some?
    && poiUpdated.Some? && poiUpdated.value <= ts.conv.value
    && (ts.poi.None? || ts.poi.value <= ts.conv.value)
  }

  /**
   * A recording never converted is stale on both counts and exempts nothing;
   * a stale raw input is never overridden by the per-keyframe exemption; an
   * exempt output's own POI and the recording's POI edit are no newer than
   * the conversion.
   */
  lemma StalenessFlags(ts: Times, poiUpdated: Option<int>)
    ensures ts.conv.None? ==> NeedsBase(ts) && PoiChanged(ts) && !Exempt(ts, poiUpdated)
    ensures NeedsBase(ts) ==> !Exempt(ts, poiUpdated)
    ensures Exempt(ts, poiUpdated) ==>
              && ts.conv.Some? && poiUpdated.Some? && !After(poiUpdated, ts.conv.value)
              && !After(ts.poi, ts.conv.value) && !After(ts.raw, ts.conv.value)
  {
  }

  /**
   * A later conversion time makes a recording no staler: needs_base and
   * poi_changed can only turn off, and an exemption stays.
   */
  lemma LaterConversionIsFresher(ts: Times, conv: int, poiUpdated: Option<int>)
    requires ts.conv.Some? && ts.conv.value <= conv
    ensures var later := ts.(conv := Some(conv));
            && (NeedsBase(later) ==> NeedsBase(ts))
            && (PoiChanged(later) ==> PoiChanged(ts))
            && (Exempt(ts, poiUpdated) ==> Exempt(later, poiUpdated))
  {
  }

  /** Why an output is not rendered. */
  datatype Reason = SizeMissing | BaseFresh | NothingChanged | KeyframeFresh

  datatype Plan = Skip(reason: Reason) | Render(cmd: seq<Arg>)

  const BaseKind: string := "snapshot_base"

  /** The output's cfg_start, else the recording's. */
  function CfgStart(ev: EditView, media: MediaFile): (r: Option<real>)
    ensures ev.outCfgStart.Some? ==> r == ev.outCfgStart
    ensures r.Some? ==> r == ev.outCfgStart || r == media.cfgStart
    ensures r.None? <==> ev.outCfgStart.None? && media.cfgStart.None?
  {
    if ev.outCfgStart.Some? then ev.outCfgStart else media.cfgStart
  }

  /** The output's cfg_max_duration, else the recording's, else --duration: a fallback, never an override. */
  function MaxDuration(ev: EditView, media: MediaFile, cli: Cli): (r: Option<real>)
    ensures ev.outCfgMaxDuration.Some? ==> r == ev.outCfgMaxDuration
    ensures ev.outCfgMaxDuration.None? && media.cfgMaxDuration.Some? ==> r == media.cfgMaxDuration
    ensures r.Some? ==> r == ev.outCfgMaxDuration || r == media.cfgMaxDuration || r == cli.duration
    ensures r.None? <==> ev.outCfgMaxDuration.None? && media.cfgMaxDuration.None? && cli.duration.None?
  {
    if ev.outCfgMaxDuration.Some? then ev.outCfgMaxDuration
    else if media.cfgMaxDuration.Some? then media.cfgMaxDuration
    else cli.duration
  }

  /** The render-or-skip choice for one output, with the command a render runs. */
  function Decide(ev: EditView, media: MediaFile, inPath: string, ts: Times, cli: Cli): (p: Plan)
    ensures !SizeKnown(ev, cli) ==> p == Skip(SizeMissing)
    ensures ev.outKind == BaseKind ==> (p.Render? <==> SizeKnown(ev, cli) && NeedsBase(ts))
    ensures ev.outKind != BaseKind ==>
              (p.Render? <==> SizeKnown(ev, cli) && (NeedsBase(ts) || PoiChanged(ts)) && !Exempt(ts, ParseTs(ev.poiUpdatedAt)))
  {
    var outW := Size(ev.outWidth, cli.outW);
    var outH := Size(ev.outHeight, cli.outH);
    if outW.None? || outH.None? then Skip(SizeMissing)
    else
      var outPath := ResolvePath(OutBase(cli), ev.outPath);
      var start := CfgStart(ev, media);
      var duration := MaxDuration(ev, media, cli);
      if ev.outKind == BaseKind then
        if !NeedsBase(ts) then Skip(BaseFresh)
        else Render(BaseCommand(inPath, outPath, outW.value, outH.value, start, duration, ev.outCodec, ev.outFrameRate))
      else if !(NeedsBase(ts) || PoiChanged(ts)) then Skip(NothingChanged)
      else if Exempt(ts, ParseTs(ev.poiUpdatedAt)) then Skip(KeyframeFresh)
      else Render(PoiCommand(inPath, outPath, outW.value, outH.value, start, duration, ev.outCodec, ev.outFrameRate,
                             ev.poiT, ev.poiX, ev.poiY, ev.poiZ))
  }

  /** A base output ignores keyframe state: neither the POI columns nor the POI instants change its plan. */
  lemma BaseIgnoresKeyframes(ev: EditView, media: MediaFile, inPath: string, ts: Times, cli: Cli,
                             poiT: Option<real>, poiX: Option<real>, poiY: Option<real>, poiZ: Option<real>,
                             poiUpdatedAt: TsCell, poi: Option<int>, poiMax: Option<int>)
    requires ev.outKind == BaseKind
    ensures Decide(ev.(poiT := poiT, poiX := poiX, poiY := poiY, poiZ := poiZ, poiUpdatedAt := poiUpdatedAt),
                   media, inPath, ts.(poi := poi, poiMax := poiMax), cli)
            == Decide(ev, media, inPath, ts, cli)
  {
  }

  /**
   * Once converted and with the raw input not newer, a POI output is
   * rendered exactly when the recording's POI edit is newer than the
   * conversion, or some POI of the recording was updated later and the
   * output's own POI has no update at or before the conversion.
   */
  lemma PoiOutputRule(ev: EditView, media: MediaFile, inPath: string, ts: Times, cli: Cli)
    requires ev.outKind != BaseKind && SizeKnown(ev, cli)
    requires ts.conv.Some? && !After(ts.raw, ts.conv.value)
    ensures var c, pu := ts.conv.value, ParseTs(ev.poiUpdatedAt);
            Decide(ev, media, inPath, ts, cli).Render?
            <==> After(ts.poi, c) || (After(ts.poiMax, c) && !(pu.Some? && pu.value <= c))
  {
  }

  /** Equal instants count as fresh: with nothing strictly newer than the conversion every output is skipped. */
  lemma NothingNewerSkipsAll(ev: EditView, media: MediaFile, inPath: string, ts: Times, cli: Cli)
    requires ts.conv.Some?
    requires !After(ts.raw, ts.conv.value) && !After(ts.poi, ts.conv.value) && !After(ts.poiMax, ts.conv.value)
    ensures Decide(ev, media, inPath, ts, cli).Skip?
  {
  }

  /** A recording never converted renders every output whose size is known. */
  lemma NeverConvertedRendersAll(ev: EditView, media: MediaFile, inPath: string, ts: Times, cli: Cli)
    requires ts.conv.None? && SizeKnown(ev, cli)
    ensures Decide(ev, media, inPath, ts, cli).Render?
  {
  }

  /**
   * The command a rendered output runs: the configured start and duration
   * fall back from the output to the recording to --duration, the rate flag
   * comes just before -vf, and a POI output crops by its zoom (1 when unset).
   */
  lemma RenderCommand(ev: EditView, media: MediaFile, inPath: string, ts: Times, cli: Cli)
    requires IsAbs(inPath)
    requires Decide(ev, media, inPath, ts, cli).Render?
    ensures var w, h := Size(ev.outWidth, cli.outW).value, Size(ev.outHeight, cli.outH).value;
            var outp := ResolvePath(OutBase(cli), ev.outPath);
            var start, duration := CfgStart(ev, media), MaxDuration(ev, media, cli);
            Decide(ev, media, inPath, ts, cli).cmd ==
              if ev.outKind == BaseKind
              then Layout(start, inPath, duration, ev.outFrameRate, Letterbox(w, h), ev.outCodec, outp)
              else Layout(PoiSeek(start, ev.poiT), inPath, duration, ev.outFrameRate,
                          PoiCrop(w, h, Zoom(ev.poiZ), ev.poiX, ev.poiY), ev.outCodec, outp)
  {
    var w, h := Size(ev.outWidth, cli.outW).value, Size(ev.outHeight, cli.outH).value;
    var outp := ResolvePath(OutBase(cli), ev.outPath);
    var start, duration := CfgStart(ev, media), MaxDuration(ev, media, cli);
    assert inPath != "-vf";
    if ev.outKind == BaseKind {
      SpliceIsLayout(start, inPath, duration, ev.outFrameRate, Letterbox(w, h), ev.outCodec, outp);
    } else {
      SpliceIsLayout(PoiSeek(start, ev.poiT), inPath, duration, ev.outFrameRate,
                     PoiCrop(w, h, Zoom(ev.poiZ), ev.poiX, ev.poiY), ev.outCodec, outp);
    }
  }

  /** The plans of all outputs, in order. */
  function Plans(views: seq<EditView>, media: MediaFile, inPath: string, ts: Times, cli: Cli): (r: seq<Plan>)
    ensures |r| == |views|
    ensures forall j :: 0 <= j < |views| ==> r[j] == Decide(views[j], media, inPath, ts, cli)
  {
    seq(|views|, j requires 0 <= j < |views| => Decide(views[j], media, inPath, ts, cli))
  }

  /** updated_outputs after the first n outputs: the ids of those rendered successfully, in order. */
  function Updated(views: seq<EditView>, plans: seq<Plan>, ok: nat -> bool, n: nat): (r: seq<int>)
    requires n <= |views| == |plans|
    ensures |r| <= n
  {
    if n == 0 then []
    else Updated(views, plans, ok, n - 1)
         + (if plans[n - 1].Render? && ok(n - 1) then [views[n - 1].outId] else [])
  }

  /** An id is recorded as updated exactly when some output with that id was rendered and ffmpeg succeeded. */
  lemma {:induction false} UpdatedIsSuccesses(views: seq<EditView>, plans: seq<Plan>, ok: nat -> bool, n: nat, id: int)
    requires n <= |views| == |plans|
    ensures id in Updated(views, plans, ok, n) <==>
            exists j :: 0 <= j < n && plans[j].Render? && ok(j) && views[j].outId == id
  {
    if n > 0 {
      UpdatedIsSuccesses(views, plans, ok, n - 1, id);
    }
  }

  /** Nothing is updated when no output is rendered. */
  lemma {:induction false} NoRenderNoUpdate(views: seq<EditView>, plans: seq<Plan>, ok: nat -> bool, n: nat)
    requires n <= |views| == |plans|
    requires forall j :: 0 <= j < n ==> plans[j].Skip?
    ensures Updated(views, plans, ok, n) == []
  {
    if n > 0 {
      NoRenderNoUpdate(views, plans, ok, n - 1);
    }
  }

  /** The UPDATEs of conv_mtime, one per id in order; an id with no row changes nothing. */
  function Stamp(files: map<int, MediaFile>, ids: seq<int>, secs: int): (r: map<int, MediaFile>)
    ensures r.Keys == files.Keys
    decreases |ids|
  {
    if ids == [] then files
    else
      var f := Stamp(files, ids[..|ids| - 1], secs);
      var id := ids[|ids| - 1];
      if id in f then f[id := f[id].(convMtime := Iso(secs))] else f
  }

  /** Stamping sets conv_mtime on exactly the listed rows and leaves everything else as it was. */
  lemma {:induction false} StampExact(files: map<int, MediaFile>, ids: seq<int>, secs: int)
    ensures Stamp(files, ids, secs).Keys == files.Keys
    ensures forall id :: id in files ==>
              Stamp(files, ids, secs)[id] == if id in ids then files[id].(convMtime := Iso(secs)) else files[id]
  {
    if ids != [] {
      var init := ids[..|ids| - 1];
      StampExact(files, init, secs);
      assert forall id :: id in ids <==> id in init || id == ids[|ids| - 1];
    }
  }

  /** The six fields ffprobe reports; a failed probe is None. */
  datatype Probe = Probe(width: Option<int>, height: Option<int>, frameRate: Option<real>,
                         codec: Option<string>, duration: Option<real>, startTime: Option<real>)

  /** The probe runs when any of the six fields is unset in the recording's row. */
  predicate NeedsProbe(m: MediaFile) {
    m.width.None? || m.height.None? || m.frameRate.None? || m.codec.None? || m.duration.None? || m.startTime.None?
  }

  /** One field: written when it was unset when the recording was read and the probe found a value. */
  function Fill<T>(read: Option<T>, current: Option<T>, probed: Option<T>): Option<T> {
    if read.None? && probed.Some? then probed else current
  }

  /** The fill-in UPDATEs applied to the current row, judged against the row as it was read. */
  function FillProbe(row: MediaFile, read: MediaFile, probe: Option<Probe>): MediaFile {
    if probe.None? then row
    else
      var p := probe.value;
      row.(width := Fill(read.width, row.width, p.width),
           height := Fill(read.height, row.height, p.height),
           frameRate := Fill(read.frameRate, row.frameRate, p.frameRate),
           codec := Fill(read.codec, row.codec, p.codec),
           duration := Fill(read.duration, row.duration, p.duration),
           startTime := Fill(read.startTime, row.startTime, p.startTime))
  }

  /** One probed column after the fill: kept when it was set as read or the probe has no value, else the probe's value. */
  predicate FillRule<T(==)>(read: Option<T>, before: Option<T>, probed: Option<T>, after: Option<T>) {
    && (read.Some? ==> after == before)
    && (probed.None? ==> after == before)
    && (read.None? && probed.Some? ==> after == probed)
  }

  /**
   * The fill-in UPDATEs: a failed probe changes nothing; each of the six
   * columns follows the fill rule against the row as read; no other column
   * changes.
   */
  lemma FillProbeFields(row: MediaFile, read: MediaFile, probe: Option<Probe>)
    ensures probe.None? ==> FillProbe(row, read, probe) == row
    ensures var r := FillProbe(row, read, probe);
            r.(width := row.width, height := row.height, frameRate := row.frameRate, codec := row.codec,
               duration := row.duration, startTime := row.startTime) == row
    ensures probe.Some? ==>
              var r, p := FillProbe(row, read, probe), probe.value;
              && FillRule(read.width, row.width, p.width, r.width)
              && FillRule(read.height, row.height, p.height, r.height)
              && FillRule(read.frameRate, row.frameRate, p.frameRate, r.frameRate)
              && FillRule(read.codec, row.codec, p.codec, r.codec)
              && FillRule(read.duration, row.duration, p.duration, r.duration)
              && FillRule(read.startTime, row.startTime, p.startTime, r.startTime)
  {
  }

  /**
   * Filling a row from a probe settles it: the same probe finds nothing more
   * to write, and a probe with all six values leaves nothing to probe.
   */
  lemma FillProbeSettles(read: MediaFile, p: Probe)
    ensures var f := FillProbe(read, read, Some(p));
            FillProbe(f, f, Some(p)) == f
    ensures var f := FillProbe(read, read, Some(p));
            p.width.Some? && p.height.Some? && p.frameRate.Some? && p.codec.Some? && p.duration.Some? && p.startTime.Some?
            ==> !NeedsProbe(f)
  {
  }

  /** What the outside world answers for one recording. */
  datatype Env = Env(
    inputExists: bool,        // os.path.exists(in_path)
    mtime: Option<int>,       // file_mtime(in_path), microseconds
    probe: Option<Probe>,     // probe_media(in_path)
    ok: nat -> bool,          // whether ffmpeg succeeds for the output at this position
    now: int)                 // iso_now(), seconds

  /** What one pass over a recording did. */
  datatype Report =
    | MissingInput(inPath: string)
    | NoEditPoints(probed: bool)
    | Ran(probed: bool, views: seq<EditView>, plans: seq<Plan>, updated: seq<int>)

  /** `parse_ts(...) or file_mtime(...)`: a datetime is always true, so only a missing one falls through. */
  function OrElse<T>(a: Option<T>, b: Option<T>): Option<T> {
    if a.Some? then a else b
  }

  function RecordingTimes(media: MediaFile, mtime: Option<int>, pois: seq<Poi>, mediaId: int): Times {
    Times(OrElse(ParseTs(media.rawMtime), mtime), ParseTs(media.poiMtime), ParseTs(media.convMtime), PoiMaxTs(pois, mediaId))
  }

  function AfterProbe(files: map<int, MediaFile>, mediaId: int, media: MediaFile, probe: Option<Probe>): map<int, MediaFile>
    requires mediaId in files
  {
    if NeedsProbe(media) then files[mediaId := FillProbe(files[mediaId], media, probe)] else files
  }

  /** One timestamp for the recording and every successful output, written only if anything succeeded. */
  function AfterStamp(files: map<int, MediaFile>, mediaId: int, updated: seq<int>, now: int): map<int, MediaFile> {
    if updated == [] then files else Stamp(files, [mediaId] + updated, now)
  }

  /** raw_mtime is backfilled only when it was NULL. */
  function AfterRaw(files: map<int, MediaFile>, mediaId: int, media: MediaFile, raw: Option<int>): map<int, MediaFile>
    requires mediaId in files
  {
    if media.rawMtime.Null? && raw.Some? then files[mediaId := files[mediaId].(rawMtime := FormatTs(raw.value))] else files
  }

  /** One iteration of main's loop over the originals, for the recording `media` read under `mediaId`. */
  function Process(files: map<int, MediaFile>, pois: seq<Poi>, edits: seq<EditPoint>,
                   mediaId: int, media: MediaFile, cli: Cli, env: Env): (r: (Report, map<int, MediaFile>))
    requires mediaId in files
    ensures r.1.Keys == files.Keys
  {
    var inPath := ResolvePath(cli.baseDir, media.path);
    if !env.inputExists then (MissingInput(inPath), files)
    else
      var ts := RecordingTimes(media, env.mtime, pois, mediaId);
      var probed := NeedsProbe(media);
      var files1 := AfterProbe(files, mediaId, media, env.probe);
      var views := EditViews(files1, pois, edits, mediaId);
      if views == [] then (NoEditPoints(probed), files1)
      else
        var plans := Plans(views, media, inPath, ts, cli);
        var updated := Updated(views, plans, env.ok, |views|);
        var files2 := AfterStamp(files1, mediaId, updated, env.now);
        (Ran(probed, views, plans, updated), AfterRaw(files2, mediaId, media, ts.raw))
  }

  /**
   * Stamping after a recording: when some render succeeded, the recording
   * and exactly the successful outputs get conv_mtime = now; failed and
   * skipped outputs, and every row when nothing succeeded, keep theirs.
   * Rows other than the recording's own change in nothing else.
   */
  lemma StampingExact(files: map<int, MediaFile>, pois: seq<Poi>, edits: seq<EditPoint>,
                      mediaId: int, media: MediaFile, cli: Cli, env: Env)
    requires mediaId in files
    ensures var (rep, out) := Process(files, pois, edits, mediaId, media, cli, env);
            && out.Keys == files.Keys
            && forall id :: id in files ==>
                 var stamped := rep.Ran? && rep.updated != [] && (id == mediaId || id in rep.updated);
                 && out[id].convMtime == (if stamped then Iso(env.now) else files[id].convMtime)
                 && (id != mediaId ==> out[id] == if stamped then files[id].(convMtime := Iso(env.now)) else files[id])
  {
    if env.inputExists {
      var ts := RecordingTimes(media, env.mtime, pois, mediaId);
      var files1 := AfterProbe(files, mediaId, media, env.probe);
      var views := EditViews(files1, pois, edits, mediaId);
      if views != [] {
        var plans := Plans(views, media, ResolvePath(cli.baseDir, media.path), ts, cli);
        var updated := Updated(views, plans, env.ok, |views|);
        AfterStampExact(files1, mediaId, updated, env.now);
        var files2 := AfterStamp(files1, mediaId, updated, env.now);
        assert Process(files, pois, edits, mediaId, media, cli, env).1 == AfterRaw(files2, mediaId, media, ts.raw);
      }
    }
  }

  /** AfterStamp on its own: the listed rows and the recording get the clock when the list is not empty. */
  lemma AfterStampExact(files: map<int, MediaFile>, mediaId: int, updated: seq<int>, now: int)
    ensures AfterStamp(files, mediaId, updated, now).Keys == files.Keys
    ensures forall id :: id in files ==>
              AfterStamp(files, mediaId, updated, now)[id]
              == if updated != [] && (id == mediaId || id in updated) then files[id].(convMtime := Iso(now)) else files[id]
  {
    if updated != [] {
      StampExact(files, [mediaId] + updated, now);
    }
  }

  /** raw_mtime changes only when it was NULL, the recording has edit points and the file has an mtime; it is then that mtime truncated to the second. */
  lemma RawBackfill(files: map<int, MediaFile>, pois: seq<Poi>, edits: seq<EditPoint>,
                    mediaId: int, media: MediaFile, cli: Cli, env: Env)
    requires mediaId in files
    ensures var (rep, out) := Process(files, pois, edits, mediaId, media, cli, env);
            && mediaId in out
            && out[mediaId].rawMtime ==
                 if rep.Ran? && media.rawMtime.Null? && env.mtime.Some? then FormatTs(env.mtime.value)
                 else files[mediaId].rawMtime
  {
    if env.inputExists {
      var ts := RecordingTimes(media, env.mtime, pois, mediaId);
      var files1 := AfterProbe(files, mediaId, media, env.probe);
      var views := EditViews(files1, pois, edits, mediaId);
      if views != [] {
        var plans := Plans(views, media, ResolvePath(cli.baseDir, media.path), ts, cli);
        var updated := Updated(views, plans, env.ok, |views|);
        AfterStampExact(files1, mediaId, updated, env.now);
      }
    }
  }

  /** After the probe fill-in, a pass over a recording changes its row only in raw_mtime and conv_mtime. */
  lemma OnlyTimesChange(files: map<int, MediaFile>, pois: seq<Poi>, edits: seq<EditPoint>,
                        mediaId: int, media: MediaFile, cli: Cli, env: Env)
    requires mediaId in files && env.inputExists
    ensures var out := Process(files, pois, edits, mediaId, media, cli, env).1;
            && mediaId in out
            && out[mediaId] == AfterProbe(files, mediaId, media, env.probe)[mediaId]
                                 .(rawMtime := out[mediaId].rawMtime, convMtime := out[mediaId].convMtime)
  {
    var ts := RecordingTimes(media, env.mtime, pois, mediaId);
    var files1 := AfterProbe(files, mediaId, media, env.probe);
    var views := EditViews(files1, pois, edits, mediaId);
    if views != [] {
      var plans := Plans(views, media, ResolvePath(cli.baseDir, media.path), ts, cli);
      var updated := Updated(views, plans, env.ok, |views|);
      if updated != [] {
        StampExact(files1, [mediaId] + updated, env.now);
      }
    }
  }

  /**
   * Probing reads from the recording as it was read: the probe is consulted
   * exactly when one of the six fields is unset, a field that was set keeps
   * its value, an unset one takes the probe's value when it has one, and no
   * other column of the recording changes on the way.
   */
  lemma ProbeFillsGaps(files: map<int, MediaFile>, pois: seq<Poi>, edits: seq<EditPoint>,
                       mediaId: int, media: MediaFile, cli: Cli, env: Env)
    requires mediaId in files && files[mediaId] == media
    requires env.inputExists
    ensures var (rep, out) := Process(files, pois, edits, mediaId, media, cli, env);
            var row := out[mediaId];
            var p := env.probe;
            && rep.probed == NeedsProbe(media)
            && row.width == (if p.Some? then OrElse(media.width, p.value.width) else media.width)
            && row.height == (if p.Some? then OrElse(media.height, p.value.height) else media.height)
            && row.frameRate == (if p.Some? then OrElse(media.frameRate, p.value.frameRate) else media.frameRate)
            && row.codec == (if p.Some? then OrElse(media.codec, p.value.codec) else media.codec)
            && row.duration == (if p.Some? then OrElse(media.duration, p.value.duration) else media.duration)
            && row.startTime == (if p.Some? then OrElse(media.startTime, p.value.startTime) else media.startTime)
            && row.(width := media.width, height := media.height, frameRate := media.frameRate, codec := media.codec,
                    duration := media.duration, startTime := media.startTime,
                    rawMtime := media.rawMtime, convMtime := media.convMtime) == media
  {
    OnlyTimesChange(files, pois, edits, mediaId, media, cli, env);
  }

  /**
   * The outputs recorded as updated are exactly those whose plan was a
   * render and whose ffmpeg run succeeded; plans are taken against the
   * recording's instants, after the probe fill-in.
   */
  lemma UpdatedOutputs(files: map<int, MediaFile>, pois: seq<Poi>, edits: seq<EditPoint>,
                       mediaId: int, media: MediaFile, cli: Cli, env: Env, id: int)
    requires mediaId in files
    ensures var rep := Process(files, pois, edits, mediaId, media, cli, env).0;
            rep.Ran? ==>
              && rep.views == EditViews(AfterProbe(files, mediaId, media, env.probe), pois, edits, mediaId)
              && |rep.plans| == |rep.views|
              && rep.updated == Updated(rep.views, rep.plans, env.ok, |rep.views|)
              && rep.probed == NeedsProbe(media)
              && (forall j :: 0 <= j < |rep.views| ==>
                    rep.plans[j] == Decide(rep.views[j], media, ResolvePath(cli.baseDir, media.path),
                                           RecordingTimes(media, env.mtime, pois, mediaId), cli))
              && (id in rep.updated <==>
                    exists j :: 0 <= j < |rep.views| && rep.plans[j].Render? && env.ok(j) && rep.views[j].outId == id)
  {
    var rep := Process(files, pois, edits, mediaId, media, cli, env).0;
    if rep.Ran? {
      UpdatedIsSuccesses(rep.views, rep.plans, env.ok, |rep.views|, id);
    }
  }

  /** id is the recording itself or the output of one of its edit points. */
  predicate Owns(edits: seq<EditPoint>, mediaId: int, id: int) {
    id == mediaId || exists i :: 0 <= i < |edits| && edits[i].originalMediaId == mediaId && edits[i].outputMediaId == id
  }

  /** Every row of load_edit_points is the output of one of the recording's edit points. */
  lemma ViewOwned(files: map<int, MediaFile>, pois: seq<Poi>, edits: seq<EditPoint>, mediaId: int, v: EditView)
    requires v in EditViews(files, pois, edits, mediaId)
    ensures Owns(edits, mediaId, v.outId)
  {
    EditViewsMembers(files, pois, edits, mediaId);
    var i :| 0 <= i < |edits| && Selected(files, edits[i], mediaId) && v == ViewOf(files, pois, edits[i]);
  }

  /** One pass writes only the recording's own row and its outputs' rows. */
  lemma ProcessFrame(files: map<int, MediaFile>, pois: seq<Poi>, edits: seq<EditPoint>,
                     mediaId: int, media: MediaFile, cli: Cli, env: Env, id: int)
    requires mediaId in files && id in files && !Owns(edits, mediaId, id)
    ensures Process(files, pois, edits, mediaId, media, cli, env).1[id] == files[id]
  {
    var rep := Process(files, pois, edits, mediaId, media, cli, env).0;
    StampingExact(files, pois, edits, mediaId, media, cli, env);
    UpdatedOutputs(files, pois, edits, mediaId, media, cli, env, id);
    if rep.Ran? && id in rep.updated {
      var files1 := AfterProbe(files, mediaId, media, env.probe);
      var j :| 0 <= j < |rep.views| && rep.plans[j].Render? && env.ok(j) && rep.views[j].outId == id;
      ViewOwned(files1, pois, edits, mediaId, rep.views[j]);
      assert false;
    }
  }

  /**
   * Rerunning after a run in which something succeeded renders nothing,
   * provided no instant involved is later than that run's clock: in
   * particular an output whose ffmpeg run failed beside a successful sibling
   * is not retried, and no conv_mtime changes.
   */
  lemma SecondRunIsQuiet(files: map<int, MediaFile>, pois: seq<Poi>, edits: seq<EditPoint>,
                         mediaId: int, media: MediaFile, cli: Cli, env1: Env, env2: Env)
    requires mediaId in files && files[mediaId] == media
    requires Process(files, pois, edits, mediaId, media, cli, env1).0.Ran?
    requires Process(files, pois, edits, mediaId, media, cli, env1).0.updated != []
    requires var clock := env1.now * Micro;
             && (ParseTs(media.rawMtime).Some? ==> ParseTs(media.rawMtime).value <= clock)
             && (ParseTs(media.poiMtime).Some? ==> ParseTs(media.poiMtime).value <= clock)
             && (env1.mtime.Some? ==> env1.mtime.value <= clock)
             && (env2.mtime.Some? ==> env2.mtime.value <= clock)
             && (forall k :: 0 <= k < |pois| && Contribution(pois[k], mediaId).Some? ==>
                   Contribution(pois[k], mediaId).value <= clock)
    ensures var out1 := Process(files, pois, edits, mediaId, media, cli, env1).1;
            && mediaId in out1
            && var (rep2, out2) := Process(out1, pois, edits, mediaId, out1[mediaId], cli, env2);
               && (rep2.Ran? ==> rep2.updated == [] && forall j :: 0 <= j < |rep2.plans| ==> rep2.plans[j].Skip?)
               && out2.Keys == out1.Keys
               && forall id :: id in out1 ==> out2[id].convMtime == out1[id].convMtime
  {
    var out1 := Process(files, pois, edits, mediaId, media, cli, env1).1;
    QuietInstants(files, pois, edits, mediaId, media, cli, env1, env2);
    var media2 := out1[mediaId];
    var ts2 := RecordingTimes(media2, env2.mtime, pois, mediaId);
    StampingExact(out1, pois, edits, mediaId, media2, cli, env2);
    UpdatedOutputs(out1, pois, edits, mediaId, media2, cli, env2, 0);
    var rep2 := Process(out1, pois, edits, mediaId, media2, cli, env2).0;
    if rep2.Ran? {
      var inPath := ResolvePath(cli.baseDir, media2.path);
      forall j | 0 <= j < |rep2.plans| ensures rep2.plans[j].Skip? {
        NothingNewerSkipsAll(rep2.views[j], media2, inPath, ts2, cli);
      }
      NoRenderNoUpdate(rep2.views, rep2.plans, env2.ok, |rep2.views|);
    }
  }

  /** After a run that stamped the recording, none of its instants is later than the new conversion stamp. */
  lemma QuietInstants(files: map<int, MediaFile>, pois: seq<Poi>, edits: seq<EditPoint>,
                      mediaId: int, media: MediaFile, cli: Cli, env1: Env, env2: Env)
    requires mediaId in files && files[mediaId] == media
    requires Process(files, pois, edits, mediaId, media, cli, env1).0.Ran?
    requires Process(files, pois, edits, mediaId, media, cli, env1).0.updated != []
    requires var clock := env1.now * Micro;
             && (ParseTs(media.rawMtime).Some? ==> ParseTs(media.rawMtime).value <= clock)
             && (ParseTs(media.poiMtime).Some? ==> ParseTs(media.poiMtime).value <= clock)
             && (env1.mtime.Some? ==> env1.mtime.value <= clock)
             && (env2.mtime.Some? ==> env2.mtime.value <= clock)
             && (forall k :: 0 <= k < |pois| && Contribution(pois[k], mediaId).Some? ==>
                   Contribution(pois[k], mediaId).value <= clock)
    ensures var out1 := Process(files, pois, edits, mediaId, media, cli, env1).1;
            && mediaId in out1
            && var ts2 := RecordingTimes(out1[mediaId], env2.mtime, pois, mediaId);
               && ts2.conv == Some(env1.now * Micro)
               && !After(ts2.raw, env1.now * Micro) && !After(ts2.poi, env1.now * Micro)
               && !After(ts2.poiMax, env1.now * Micro)
  {
    var out1 := Process(files, pois, edits, mediaId, media, cli, env1).1;
    StampingExact(files, pois, edits, mediaId, media, cli, env1);
    RawBackfill(files, pois, edits, mediaId, media, cli, env1);
    ProbeFillsGaps(files, pois, edits, mediaId, media, cli, env1);
    var media2 := out1[mediaId];
    assert media2.convMtime == Iso(env1.now);
    assert media2.poiMtime == media.poiMtime;
    var ts2 := RecordingTimes(media2, env2.mtime, pois, mediaId);
    var clock := env1.now * Micro;
    assert !After(ts2.raw, clock) by {
      if media.rawMtime.Null? && env1.mtime.Some? {
        assert ts2.raw == ParseTs(FormatTs(env1.mtime.value));
      }
    }
    PoiMaxIsGreatest(pois, mediaId);
  }

  /**
   * The raw_mtime backfill keeps only whole seconds. When the stored
   * conversion lies in the same second as the file's modification time, the
   * first run finds the raw input newer and renders the base outputs; if none
   * of its renders succeeds nothing is stamped, yet raw_mtime is written
   * truncated, and the next run over the unchanged file finds the raw input
   * no newer and skips every base output.
   */
  lemma TruncatedBackfillForgetsRebuild(files: map<int, MediaFile>, pois: seq<Poi>, edits: seq<EditPoint>,
                                        mediaId: int, media: MediaFile, cli: Cli, env1: Env, env2: Env)
    requires mediaId in files && files[mediaId] == media
    requires media.rawMtime.Null? && media.convMtime.Iso?
    requires env1.mtime.Some? && env1.mtime.value / Micro == media.convMtime.secs && env1.mtime.value % Micro != 0
    requires env2.mtime == env1.mtime
    requires Process(files, pois, edits, mediaId, media, cli, env1).0.Ran?
    requires Process(files, pois, edits, mediaId, media, cli, env1).0.updated == []
    ensures NeedsBase(RecordingTimes(media, env1.mtime, pois, mediaId))
    ensures var rep1 := Process(files, pois, edits, mediaId, media, cli, env1).0;
            forall j :: 0 <= j < |rep1.plans| && rep1.views[j].outKind == BaseKind && SizeKnown(rep1.views[j], cli) ==>
              rep1.plans[j].Render?
    ensures var out1 := Process(files, pois, edits, mediaId, media, cli, env1).1;
            && mediaId in out1
            && !NeedsBase(RecordingTimes(out1[mediaId], env2.mtime, pois, mediaId))
            && var rep2 := Process(out1, pois, edits, mediaId, out1[mediaId], cli, env2).0;
               rep2.Ran? ==> forall j :: 0 <= j < |rep2.plans| && rep2.views[j].outKind == BaseKind ==> rep2.plans[j].Skip?
  {
    var out1 := Process(files, pois, edits, mediaId, media, cli, env1).1;
    UpdatedOutputs(files, pois, edits, mediaId, media, cli, env1, 0);
    StampingExact(files, pois, edits, mediaId, media, cli, env1);
    RawBackfill(files, pois, edits, mediaId, media, cli, env1);
    var media2 := out1[mediaId];
    assert media2.rawMtime == Iso(media.convMtime.secs);
    assert media2.convMtime == media.convMtime;
    UpdatedOutputs(out1, pois, edits, mediaId, media2, cli, env2, 0);
  }
}
