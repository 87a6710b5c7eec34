/**
 * The store toweb/snapshot.py works on, as an object whose rows the main
 * loop updates in place: the media_file table keyed by id, and the poi and
 * edit_point tables in table order.
 */
module SnapshotStore {
  import opened Wrappers
  import opened SnapshotModel
  import opened SnapshotCommands
  import opened SnapshotPlan

  /** `parent_id IS NULL AND kind = 'original'`. */
  predicate IsOriginal(m: MediaFile) {
    m.parentId.None? && m.kind == "original"
  }

  /** The originals query: every original row exactly once, as it was when the query ran. */
  predicate IsSnapshot(files: map<int, MediaFile>, originals: seq<(int, MediaFile)>) {
    && (forall k :: 0 <= k < |originals| ==>
          originals[k].0 in files && files[originals[k].0] == originals[k].1 && IsOriginal(originals[k].1))
    && (forall k, l :: 0 <= k < l < |originals| ==> originals[k].0 != originals[l].0)
    && (forall id :: id in files && IsOriginal(files[id]) ==> exists k :: 0 <= k < |originals| && originals[k].0 == id)
  }

  /** main's loop over the originals, each processed against the row it was read as. */
  function Batch(files: map<int, MediaFile>, pois: seq<Poi>, edits: seq<EditPoint>,
                 originals: seq<(int, MediaFile)>, cli: Cli, envs: nat -> Env): (r: (seq<Report>, map<int, MediaFile>))
    requires forall k :: 0 <= k < |originals| ==> originals[k].0 in files
    ensures |r.0| == |originals| && r.1.Keys == files.Keys
    decreases |originals|
  {
    if originals == [] then ([], files)
    else
      var n := |originals| - 1;
      var before := Batch(files, pois, edits, originals[..n], cli, envs);
      var step := Process(before.1, pois, edits, originals[n].0, originals[n].1, cli, envs(n));
      (before.0 + [step.0], step.1)
  }

  /** Report k of the loop is the pass over original k against the store the first k passes left. */
  lemma {:induction false} BatchReports(files: map<int, MediaFile>, pois: seq<Poi>, edits: seq<EditPoint>,
                                        originals: seq<(int, MediaFile)>, cli: Cli, envs: nat -> Env, k: nat)
    requires forall k :: 0 <= k < |originals| ==> originals[k].0 in files
    requires k < |originals|
    ensures var before := Batch(files, pois, edits, originals[..k], cli, envs).1;
            originals[k].0 in before
            && Batch(files, pois, edits, originals, cli, envs).0[k]
               == Process(before, pois, edits, originals[k].0, originals[k].1, cli, envs(k)).0
    decreases |originals|
  {
    var n := |originals| - 1;
    if k < n {
      assert originals[..n][..k] == originals[..k];
      assert originals[..n][k] == originals[k];
      BatchReports(files, pois, edits, originals[..n], cli, envs, k);
    } else {
      assert originals[..n] == originals[..k];
    }
  }

  /** The loop leaves alone every row that is neither a listed original nor an output of one of their edit points. */
  lemma {:induction false} BatchFrame(files: map<int, MediaFile>, pois: seq<Poi>, edits: seq<EditPoint>,
                                      originals: seq<(int, MediaFile)>, cli: Cli, envs: nat -> Env, id: int)
    requires forall k :: 0 <= k < |originals| ==> originals[k].0 in files
    requires id in files && forall k :: 0 <= k < |originals| ==> !Owns(edits, originals[k].0, id)
    ensures Batch(files, pois, edits, originals, cli, envs).1[id] == files[id]
    decreases |originals|
  {
    if originals != [] {
      var n := |originals| - 1;
      assert forall k :: 0 <= k < n ==> originals[..n][k] == originals[k];
      BatchFrame(files, pois, edits, originals[..n], cli, envs, id);
      var before := Batch(files, pois, edits, originals[..n], cli, envs);
      ProcessFrame(before.1, pois, edits, originals[n].0, originals[n].1, cli, envs(n), id);
    }
  }

  /** The per-output body of the loop over edit points, up to the ffmpeg call. */
  method PlanOutput(ev: EditView, media: MediaFile, inPath: string, ts: Times, cli: Cli) returns (plan: Plan)
    ensures plan == Decide(ev, media, inPath, ts, cli)
  {
    var outPath := ResolvePath(OutBase(cli), ev.outPath);
    var outW := Size(ev.outWidth, cli.outW);
    var outH := Size(ev.outHeight, cli.outH);
    if outW.None? || outH.None? {
      return Skip(SizeMissing);
    }
    var cfgStart := ev.outCfgStart;
    if cfgStart.None? {
      cfgStart := media.cfgStart;
    }
    var maxDuration := ev.outCfgMaxDuration;
    if maxDuration.None? {
      maxDuration := media.cfgMaxDuration;
    }
    if maxDuration.None? && cli.duration.Some? {
      maxDuration := cli.duration;
    }
    if ev.outKind == BaseKind {
      if !NeedsBase(ts) {
        return Skip(BaseFresh);
      }
      var cmd := RenderBaseCommand(inPath, outPath, outW.value, outH.value, cfgStart, maxDuration,
                                   ev.outCodec, ev.outFrameRate);
      plan := Render(cmd);
    } else {
      if !(NeedsBase(ts) || PoiChanged(ts)) {
        return Skip(NothingChanged);
      }
      var poiUpdated := ParseTs(ev.poiUpdatedAt);
      if Exempt(ts, poiUpdated) {
        return Skip(KeyframeFresh);
      }
      var cmd := RenderPoiCommand(inPath, outPath, outW.value, outH.value, cfgStart, maxDuration,
                                  ev.outCodec, ev.outFrameRate, ev.poiT, ev.poiX, ev.poiY, ev.poiZ);
      plan := Render(cmd);
    }
  }

  /** One more output in updated_outputs. */
  lemma UpdatedStep(views: seq<EditView>, plans: seq<Plan>, ok: nat -> bool, j: nat)
    requires j < |views| == |plans|
    ensures Updated(views, plans, ok, j + 1)
            == Updated(views, plans, ok, j) + (if plans[j].Render? && ok(j) then [views[j].outId] else [])
  {
  }

  /** The plans of one more output. */
  lemma PlansSnoc(views: seq<EditView>, media: MediaFile, inPath: string, ts: Times, cli: Cli, j: nat)
    requires j < |views|
    ensures Plans(views[..j + 1], media, inPath, ts, cli)
            == Plans(views[..j], media, inPath, ts, cli) + [Decide(views[j], media, inPath, ts, cli)]
    ensures Plans(views[..j + 1], media, inPath, ts, cli)[j] == Plans(views, media, inPath, ts, cli)[j]
  {
    assert views[..j + 1][j] == views[j];
    assert forall k :: 0 <= k < j ==> views[..j + 1][k] == views[..j][k];
  }

  /**
   * The loop over the recording's edit points: each output's plan, and in
   * updated_outputs the ids of those rendered successfully, in order.
   */
  method RunOutputs(views: seq<EditView>, media: MediaFile, inPath: string, ts: Times, cli: Cli, env: Env)
    returns (plans: seq<Plan>, updated: seq<int>)
    ensures plans == Plans(views, media, inPath, ts, cli)
    ensures updated == Updated(views, plans, env.ok, |views|)
  {
    ghost var spec := Plans(views, media, inPath, ts, cli);
    updated := [];
    plans := [];
    var j := 0;
    while j < |views|
      invariant 0 <= j <= |views|
      invariant plans == Plans(views[..j], media, inPath, ts, cli)
      invariant updated == Updated(views, spec, env.ok, j)
    {
      var plan := PlanOutput(views[j], media, inPath, ts, cli);
      PlansSnoc(views, media, inPath, ts, cli, j);
      plans := plans + [plan];
      UpdatedStep(views, spec, env.ok, j);
      if plan.Render? {
        var ok := env.ok(j);
        if ok {
          updated := updated + [views[j].outId];
        }
      }
      j := j + 1;
    }
    assert views[..j] == views;
  }

  class Store {
    var files: map<int, MediaFile>
    var pois: seq<Poi>
    var edits: seq<EditPoint>

    constructor(files: map<int, MediaFile>, pois: seq<Poi>, edits: seq<EditPoint>)
      ensures this.files == files && this.pois == pois && this.edits == edits
    {
      this.files := files;
      this.pois := pois;
      this.edits := edits;
    }

    /** load_poi_max_ts: the latest updated_at among the recording's POIs, None when none has one. */
    method LoadPoiMaxTs(mediaId: int) returns (maxTs: Option<int>)
      ensures maxTs == PoiMaxTs(pois, mediaId)
      ensures maxTs.Some? ==> exists k :: 0 <= k < |pois| && Contribution(pois[k], mediaId) == maxTs
      ensures forall k :: 0 <= k < |pois| && Contribution(pois[k], mediaId).Some? ==>
                maxTs.Some? && Contribution(pois[k], mediaId).value <= maxTs.value
    {
      maxTs := None;
      var i := 0;
      while i < |pois|
        invariant 0 <= i <= |pois|
        invariant maxTs == PoiMaxTs(pois[..i], mediaId)
      {
        assert pois[..i + 1][..i] == pois[..i];
        var row := pois[i];
        if row.mediaId == mediaId && row.updatedAt != Null {
          var ts := ParseTs(row.updatedAt);
          if ts.Some? && (maxTs.None? || ts.value > maxTs.value) {
            maxTs := ts;
          }
        }
        i := i + 1;
      }
      assert pois[..i] == pois;
      PoiMaxIsGreatest(pois, mediaId);
    }

    /** The fill-in UPDATEs after a successful probe. */
    method FillFromProbe(mediaId: int, media: MediaFile, p: Probe)
      requires mediaId in files
      modifies this
      ensures files == old(files)[mediaId := FillProbe(old(files)[mediaId], media, Some(p))]
      ensures pois == old(pois) && edits == old(edits)
    {
      var row := files[mediaId];
      if media.width.None? && p.width.Some? {
        row := row.(width := p.width);
      }
      if media.height.None? && p.height.Some? {
        row := row.(height := p.height);
      }
      if media.frameRate.None? && p.frameRate.Some? {
        row := row.(frameRate := p.frameRate);
      }
      if media.codec.None? && p.codec.Some? {
        row := row.(codec := p.codec);
      }
      if media.duration.None? && p.duration.Some? {
        row := row.(duration := p.duration);
      }
      if media.startTime.None? && p.startTime.Some? {
        row := row.(startTime := p.startTime);
      }
      files := files[mediaId := row];
    }

    /** The conv_mtime UPDATEs: the recording first, then each updated output. */
    method StampOutputs(mediaId: int, updated: seq<int>, now: int)
      requires mediaId in files
      modifies this
      ensures files == Stamp(old(files), [mediaId] + updated, now)
      ensures pois == old(pois) && edits == old(edits)
    {
      ghost var before := files;
      var tsNow := Iso(now);
      files := files[mediaId := files[mediaId].(convMtime := tsNow)];
      assert ([mediaId] + updated[..0])[..0] == [];
      var k := 0;
      while k < |updated|
        invariant 0 <= k <= |updated|
        invariant files == Stamp(before, [mediaId] + updated[..k], now)
        invariant pois == old(pois) && edits == old(edits)
      {
        ghost var ids := [mediaId] + updated[..k + 1];
        assert ids[..|ids| - 1] == [mediaId] + updated[..k];
        var id := updated[k];
        if id in files {
          files := files[id := files[id].(convMtime := tsNow)];
        }
        k := k + 1;
      }
      assert updated[..k] == updated;
    }

    /** One iteration of main's loop over the originals. */
    method ProcessRecording(mediaId: int, media: MediaFile, cli: Cli, env: Env) returns (report: Report)
      requires mediaId in files
      modifies this
      ensures (report, files) == Process(old(files), pois, edits, mediaId, media, cli, env)
      ensures pois == old(pois) && edits == old(edits)
    {
      var inPath := ResolvePath(cli.baseDir, media.path);
      if !env.inputExists {
        return MissingInput(inPath);
      }
      var rawTs := OrElse(ParseTs(media.rawMtime), env.mtime);
      var poiTs := ParseTs(media.poiMtime);
      var convTs := ParseTs(media.convMtime);
      var poiMaxTs := LoadPoiMaxTs(mediaId);
      var probed := NeedsProbe(media);
      if probed && env.probe.Some? {
        FillFromProbe(mediaId, media, env.probe.value);
      } else if probed {
        assert files == old(files)[mediaId := FillProbe(old(files)[mediaId], media, None)];
      }
      ghost var files1 := files;
      var ts := Times(rawTs, poiTs, convTs, poiMaxTs);
      var views := EditViews(files, pois, edits, mediaId);
      if |views| == 0 {
        return NoEditPoints(probed);
      }
      var plans, updated := RunOutputs(views, media, inPath, ts, cli, env);
      assert files == AfterProbe(old(files), mediaId, media, env.probe);
      assert ts == RecordingTimes(media, env.mtime, pois, mediaId);
      var ranAny := updated != [];
      if ranAny {
        StampOutputs(mediaId, updated, env.now);
      }
      if media.rawMtime.Null? && rawTs.Some? {
        files := files[mediaId := files[mediaId].(rawMtime := FormatTs(rawTs.value))];
      }
      report := Ran(probed, views, plans, updated);
    }

    /** main's loop over the originals read before it starts. */
    method RunBatch(originals: seq<(int, MediaFile)>, cli: Cli, envs: nat -> Env) returns (reports: seq<Report>)
      requires IsSnapshot(files, originals)
      modifies this
      ensures (reports, files) == Batch(old(files), pois, edits, originals, cli, envs)
      ensures pois == old(pois) && edits == old(edits)
    {
      reports := [];
      var k := 0;
      while k < |originals|
        invariant 0 <= k <= |originals|
        invariant files.Keys == old(files).Keys
        invariant pois == old(pois) && edits == old(edits)
        invariant (reports, files) == Batch(old(files), pois, edits, originals[..k], cli, envs)
      {
        assert originals[..k + 1][..k] == originals[..k];
        var report := ProcessRecording(originals[k].0, originals[k].1, cli, envs(k));
        reports := reports + [report];
        k := k + 1;
      }
      assert originals[..k] == originals;
    }
  }
}
