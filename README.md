# Snapshot scheduler and POI reframing, modelled in Dafny

This project models two small tools that share one video database.

- **toweb/snapshot.py** regenerates small snapshot videos for every original recording. For each recording it:
  - decides from four timestamps which of its derived outputs are stale (raw input, POI edit, last conversion, latest POI update);
  - fills missing media metadata from a probe;
  - builds each ffmpeg command line;
  - after the renders, stamps the recording and the successful outputs with one conversion time;
  - backfills `raw_mtime` when it was unset.
- **poi_crop/poi_crop.py** reads point-of-interest keyframes (t, x, y, z) from a CSV file. It folds them into three nested ffmpeg expressions, `if(between(t,t0,t1), lerp, previous)`, and assembles a crop-and-scale command.

The model follows the code's structure.

- **Pure helpers are functions** (`parse_ts`, `choose_codec`, `resolve_path`, the staleness rules). Each comes with lemmas about its meaning.
- **Loops are methods with loop invariants.** Each is proved equal to a recursive specification function: `build_expr`, `read_poi`, `load_poi_max_ts`, the argv growth with `+=` and `cmd.index("-vf")`, the loop over edit points, and the stamping UPDATEs.
- **The database is a class.** `SnapshotStore.Store` holds the `media_file` rows as a map from id to row, plus the `poi` and `edit_point` tables. Its methods update the map in place. Each state-changing method's new state is tied to the pure function `SnapshotPlan.Process`, which states one pass over a recording, or to `SnapshotStore.Batch`, which states the whole loop. The properties of the scheduler are proved as lemmas about those functions.
- **The seeded database of toweb/seed_db.py is worked through in lemmas** (the `SnapshotSeed` module). The lemmas there show which outputs a run renders and stamps on that data.

Modules and files:

| file | module | contents |
|---|---|---|
| wrappers.dfy | Wrappers | `Option`, `Result` |
| poi_expr.dfy | PoiExpr | keyframes, `Expr`, `build_expr`, printing, evaluation |
| poi_rows.dfy | PoiRows | `str.strip`, row filtering of `read_poi` |
| poi_main.dfy | PoiReframe | main of poi_crop.py up to the ffmpeg call |
| snapshot_model.dfy | SnapshotModel | rows, timestamps, the two queries run per recording |
| snapshot_commands.dfy | SnapshotCommands | `choose_codec`, `resolve_path`, `render_base`/`render_poi` argv |
| snapshot_plan.dfy | SnapshotPlan | staleness, render-or-skip, probe fill, stamping, one pass as a function |
| snapshot_store.dfy | SnapshotStore | the store class and the imperative loops |
| snapshot_seed.dfy | SnapshotSeed | the seeded database as a worked scenario |

Modelling decisions:

- **Timestamps are integers in microseconds.** A stored timestamp is an ISO 8601 UTC string with whole seconds. It becomes `Iso(secs)`; `NULL` becomes `Null` and the empty string becomes `Blank`. `parse_ts` treats both `Null` and `Blank` as absent. Microseconds are needed because the file modification time carries fractions of a second, and these fractions are lost when `raw_mtime` is written back (see `SnapshotPlan.TruncatedBackfillForgetsRebuild`).
- **A blank `raw_mtime` is never backfilled.** The guard at toweb/snapshot.py:361 is `is None`, which the empty string does not meet.
- **`media` is the row as it was read.** The originals are fetched once before the loop, so `media` is the row as read. The database row it was read from is `files[mediaId]`. The probe fill is judged against `media` and applied to the current row, as the `UPDATE`s do.
- **Duplicate column names in `load_edit_points`.** The query selects `ep.*` first. Lookups by name therefore return the edit point's own copies of `poi_t`, `poi_x`, `poi_y` and `poi_z`, not the joined POI's; only `poi_updated_at` comes from the join.
- **Argv elements are `Str(s)`, `Num(v)` or `Vf(filter)`.** `Num(v)` stands for Python's `str(v)` of a float. `Vf` carries the filter's parameters rather than its text.
- **Evaluation of build_expr's output is interpreted by `PoiExpr.Eval`.** It takes the numeric reading of a cell as a parameter `num`, and a zero-length segment gives `None` (ffmpeg's NaN).
- **Three behaviours of the code worth stating outright.**
  - **Failed outputs are not retried.** When one output of a recording renders, the recording's own `conv_mtime` advances (toweb/snapshot.py:349-353). Staleness reads only that field, so an output whose ffmpeg run failed beside a successful sibling is not rendered again until one of its inputs changes. `SnapshotPlan.SecondRunIsQuiet` proves this.
  - **No held last value.** Before the first and after the last keyframe, no `between` holds. The expression then falls back to 0 for the centre axes and 1 for zoom (`PoiExpr.OutsideIsBase`).
  - **The latest segment wins.** build_expr nests each later pair outside the earlier ones, so where segments overlap the latest covering segment decides (`PoiExpr.LatestCoveringSegmentWins`). With strictly increasing times, segments meet only at shared keyframes, where both give that keyframe's value (`PoiExpr.BoundaryAgrees`).
- **`--duration` is a fallback, not an override.** Its help text (toweb/snapshot.py:231) says it overrides the maximum duration. The code uses it only when neither the output nor the recording has a cfg_max_duration (toweb/snapshot.py:304-308, `SnapshotPlan.MaxDuration`).
- **A wrong seed comment.** The comment at toweb/seed_db.py:56 says the first original needs a full rebuild, but its seeded raw time is earlier than its conversion time. `SnapshotSeed.SeedFirstOriginal` shows that the base output is skipped and only the POI outputs render.

## Model

| member | source | states |
|---|---|---|
| PoiExpr.BuildExpr | poi_crop/poi_crop.py:8-25 | the loop's accumulated text equals the printing of the recursive fold `Build`, in which every later pair wraps the previous expression; with fewer than two rows it is "0" for the centre axes and "1" for zoom |
| PoiExpr.SegmentCount | poi_crop/poi_crop.py:9-24 | n rows give exactly n - 1 nested `if(between(...))` segments, none below two rows |
| PoiExpr.SegmentOrder | poi_crop/poi_crop.py:11-24 | the segment for rows i and i+1 sits n-2-i levels deep, and everything beneath it is built from rows 0..i only |
| PoiExpr.LatestCoveringSegmentWins | poi_crop/poi_crop.py:20-24 | when segment i covers t and no later segment does, the expression evaluates to segment i's interpolation, whatever the order of the times |
| PoiExpr.UncoveredIsBase | poi_crop/poi_crop.py:9-24 | a time covered by no segment evaluates to the base value |
| PoiExpr.LerpAtEnds | poi_crop/poi_crop.py:10 | the interpolation template yields a at t0 and b at t1 |
| PoiExpr.InteriorIsLinear | poi_crop/poi_crop.py:10-24 | for increasing times and t in [t_i, t_{i+1}) (or up to the last keyframe's time inclusive), the value is v_i + (v_{i+1} - v_i)(t - t_i)/(t_{i+1} - t_i) |
| PoiExpr.KeyframeIsExact | poi_crop/poi_crop.py:20-24 | at every keyframe's own time the expression yields that row's selected value exactly |
| PoiExpr.BoundaryAgrees | poi_crop/poi_crop.py:20-24 | at a shared boundary both neighbouring segments cover the time and give the keyframe's value, and the later, outer one is the one evaluated |
| PoiExpr.OutsideIsBase | poi_crop/poi_crop.py:9-24 | before the first or after the last keyframe the value is 0 for x and y and 1 for zoom |
| PoiRows.StripLeftIsSuffix | poi_crop/poi_crop.py:36-40 | stripping the left end keeps the suffix that starts at the first non-whitespace character, and everything dropped is whitespace |
| PoiRows.StripRightIsPrefix | poi_crop/poi_crop.py:36-40 | stripping the right end keeps the prefix that ends at the last non-whitespace character, and everything dropped is whitespace |
| PoiRows.Strip | poi_crop/poi_crop.py:40 | `str.strip()` is no longer than its input and has no whitespace at either end |
| PoiRows.StripKeepsMiddle | poi_crop/poi_crop.py:40 | the input is a run of whitespace, then the stripped cell, then a run of whitespace |
| PoiRows.BlankCellIff | poi_crop/poi_crop.py:36 | `not cell.strip()` holds exactly when every character of the cell is whitespace |
| PoiRows.ReadData | poi_crop/poi_crop.py:35-41 | a successful read yields at most one keyframe per data row |
| PoiRows.ReadDataIsKeptRows | poi_crop/poi_crop.py:35-41 | the row loop fails with the row-shape error exactly when some non-blank row has fewer than four cells; otherwise it returns the first four stripped cells of every non-blank row, in order |
| PoiRows.ReadDataError | poi_crop/poi_crop.py:38-39 | the only error raised is "poi.csv rows must be: t,x,y,z" |
| PoiRows.KeptRowsBounded | poi_crop/poi_crop.py:36-40 | at most one keyframe per data row, and every kept cell is stripped |
| PoiRows.HeaderIgnored | poi_crop/poi_crop.py:32-35 | the first row's contents never affect the result |
| PoiRows.FailureSticks | poi_crop/poi_crop.py:38-39 | once a prefix of the data rows raises, the whole file raises the same error |
| PoiRows.ReadPoi | poi_crop/poi_crop.py:28-41 | the loop with `continue` and `raise` computes the specification; an empty file gives the empty list |
| PoiReframe.ExitStatus | poi_crop/poi_crop.py:57-92 | a short row or fewer than two keyframes gives 1; otherwise the status is ffmpeg's own, so 0 only when ffmpeg ran and succeeded |
| PoiReframe.Reframe | poi_crop/poi_crop.py:57-91 | main's steps compute the outcome: error from read_poi, refusal below two rows, or the ffmpeg argv |
| PoiReframe.ArgvPositions | poi_crop/poi_crop.py:76-91 | the argv has 14 elements, with the input after -i, the filter after -vf, the encoder, the bitrate and the output last |
| PoiReframe.ReframeOutcomes | poi_crop/poi_crop.py:57-91 | main raises exactly when a data row is short, returns 1 exactly when fewer than two keyframes remain, and otherwise calls ffmpeg with the -vf filter built from the printed expressions of build_expr for x, y and zoom, each with one segment per neighbouring pair |
| SnapshotModel.ParseTs | toweb/snapshot.py:11-14 | NULL and the empty string give no instant; a stored instant is a whole second |
| SnapshotModel.FormatTs | toweb/snapshot.py:361-365 | `isoformat(timespec="seconds")` gives the second that contains the instant |
| SnapshotModel.FormatParse | toweb/snapshot.py:11-18 | formatting a parsed stored instant gives it back |
| SnapshotModel.PoiUpdatedAt | toweb/snapshot.py:68-71 | the LEFT JOIN's updated_at is NULL without a POI id or without a poi row of that id, and otherwise the value of a poi row with that id |
| SnapshotModel.PoiUpdatedAtFirstMatch | toweb/snapshot.py:68-71 | with several poi rows of one id, the first in table order supplies updated_at |
| SnapshotModel.EditViews | toweb/snapshot.py:49-76 | the inner join yields at most one row per edit point, each for an output row that exists |
| SnapshotModel.EditViewsMembers | toweb/snapshot.py:49-76 | every row is the joined row of an edit point of the recording whose output exists, and every such edit point's joined row is returned |
| SnapshotModel.EditViewsAppend | toweb/snapshot.py:49-76 | rows come in table order: the rows of two tables in turn are the rows of the first, then those of the second |
| SnapshotModel.PoiMaxTs | toweb/snapshot.py:36-46 | the maximum, when there is one, is a whole second, as every stored instant is |
| SnapshotModel.PoiMaxIsGreatest | toweb/snapshot.py:36-46 | the fold yields the greatest present updated_at among the recording's POIs, and None exactly when none has one |
| SnapshotCommands.ChooseCodec | toweb/snapshot.py:147-152 | no codec, the empty string and h264 in any letter case select libx264; any other codec is kept unchanged |
| SnapshotCommands.ResolvePath | toweb/snapshot.py:79-82 | an absolute path is kept; a relative one is the base, then a separator unless the base is empty or already ends in one, then the path |
| SnapshotCommands.Head | toweb/snapshot.py:160-165 | the argv before the filter: ffmpeg, its flags, -ss with the seek exactly when there is one, -i with the input, -t with the duration exactly when there is one |
| SnapshotCommands.Layout | toweb/snapshot.py:155-222 | the finished command: its length, and -r with the frame rate immediately before -vf exactly when the frame rate is truthy, with the codec and output path at the end |
| SnapshotCommands.FirstIndex | toweb/snapshot.py:179 | `cmd.index`: the first position holding the key, and the length when the key is absent |
| SnapshotCommands.SpliceIsLayout | toweb/snapshot.py:178-180 | splicing the rate flag at the first -vf puts it just before the filter, unless the input path is itself "-vf" |
| SnapshotCommands.Zoom | toweb/snapshot.py:187 | a missing or zero poi_z gives zoom 1; any other value is kept |
| SnapshotCommands.PoiSeek | toweb/snapshot.py:188-203 | -ss is given exactly when the start plus the POI time (each 0 when missing) is non-zero |
| SnapshotCommands.PoiSeekValue | toweb/snapshot.py:199-201 | the seek is the start plus the POI time |
| SnapshotCommands.IndexOf | toweb/snapshot.py:179 | the scan finds the first position of the key |
| SnapshotCommands.Assemble | toweb/snapshot.py:160-180 | the argv grown with `+=` and spliced at the first -vf is the intended layout |
| SnapshotCommands.RenderBaseCommand | toweb/snapshot.py:155-180 | render_base's argv: seek exactly when a start is set (0 included), letterboxed to the output size |
| SnapshotCommands.RenderPoiCommand | toweb/snapshot.py:184-221 | render_poi's argv: seek from the POI time, crop window of the output size divided by the zoom around (x, y) |
| SnapshotPlan.OutBase | toweb/snapshot.py:236 | the output directory is --out-dir unless that is missing or empty, then the database's directory |
| SnapshotPlan.Size | toweb/snapshot.py:295-297 | the output's size, else the CLI size; 0 and missing both count as absent |
| SnapshotPlan.StalenessFlags | toweb/snapshot.py:277-328 | a recording never converted needs its base and has changed POIs, and exempts nothing; a stale raw input is never overridden by the exemption; an exempt output's POI and the recording's POI edit are no newer than the conversion |
| SnapshotPlan.LaterConversionIsFresher | toweb/snapshot.py:277-328 | a later conversion time can only turn needs_base and poi_changed off, and keeps every exemption |
| SnapshotPlan.CfgStart | toweb/snapshot.py:301-303 | the output's own cfg_start wins; otherwise the recording's; none only when both are missing |
| SnapshotPlan.MaxDuration | toweb/snapshot.py:304-308 | the output's cfg_max_duration wins, then the recording's, then --duration; none only when all three are missing |
| SnapshotPlan.Decide | toweb/snapshot.py:292-341 | an unknown size skips; a base output renders iff needs_base; another output renders iff needs_base or poi_changed, and it is not exempt |
| SnapshotPlan.BaseIgnoresKeyframes | toweb/snapshot.py:310-323 | neither the POI columns nor the POI instants change a base output's plan |
| SnapshotPlan.PoiOutputRule | toweb/snapshot.py:277-329 | once converted and with the raw input not newer, a POI output renders iff the recording's POI edit is newer than the conversion, or some POI is newer and the output's own POI has no update at or before the conversion |
| SnapshotPlan.NothingNewerSkipsAll | toweb/snapshot.py:277-329 | comparisons are strict: with no instant later than the conversion every output is skipped |
| SnapshotPlan.NeverConvertedRendersAll | toweb/snapshot.py:277-329 | a recording never converted renders every output whose size is known |
| SnapshotPlan.RenderCommand | toweb/snapshot.py:301-341 | a rendered output runs the command with start from the output then the recording, duration from the output then the recording then --duration, and the base or POI filter |
| SnapshotPlan.Updated | toweb/snapshot.py:343-345 | at most one id is recorded per output |
| SnapshotPlan.UpdatedIsSuccesses | toweb/snapshot.py:343-347 | an id is recorded as updated exactly when an output with that id was rendered and ffmpeg succeeded |
| SnapshotPlan.NoRenderNoUpdate | toweb/snapshot.py:343-347 | with no output rendered nothing is recorded |
| SnapshotPlan.Stamp | toweb/snapshot.py:349-359 | the conv_mtime UPDATEs keep the set of rows |
| SnapshotPlan.StampExact | toweb/snapshot.py:349-359 | stamping sets conv_mtime on exactly the listed rows and leaves every other row, and every other column, unchanged |
| SnapshotPlan.AfterStampExact | toweb/snapshot.py:349-359 | with some success the recording and exactly the updated outputs get the one clock value; with none no row changes |
| SnapshotPlan.Process | toweb/snapshot.py:254-367 | one pass over a recording never adds or removes a media_file row |
| SnapshotPlan.StampingExact | toweb/snapshot.py:343-359 | after a pass, the recording and exactly the successful outputs carry the same new conv_mtime; failed and skipped outputs, and every row when nothing succeeded, keep theirs |
| SnapshotPlan.RawBackfill | toweb/snapshot.py:361-365 | raw_mtime is written, truncated to the second, only when it was NULL and the file time is known |
| SnapshotPlan.OnlyTimesChange | toweb/snapshot.py:266-275 | apart from the two timestamps, the recording's row after a pass is the row after the probe fill |
| SnapshotPlan.FillProbeFields | toweb/snapshot.py:266-275 | a failed probe changes nothing; each of the six columns keeps its current value when it was set as read or the probe has no value, and otherwise takes the probe's; no other column changes |
| SnapshotPlan.FillProbeSettles | toweb/snapshot.py:266-275 | after a fill, the same probe finds nothing more to write, and a probe with all six values leaves nothing to probe |
| SnapshotPlan.ProbeFillsGaps | toweb/snapshot.py:266-275 | the probe runs exactly when one of the six fields is unset; a set field keeps its value, an unset one takes the probe's value when it has one, and no other column changes |
| SnapshotPlan.UpdatedOutputs | toweb/snapshot.py:284-347 | the views, plans and updated ids of a pass, and an id is updated iff its output rendered and succeeded |
| SnapshotPlan.QuietInstants | toweb/snapshot.py:349-365 | after a pass that stamped the recording, none of its instants is later than the new stamp |
| SnapshotPlan.SecondRunIsQuiet | toweb/snapshot.py:277-359 | a rerun after a successful pass renders and stamps nothing when no instant is later than that pass's clock, so a failed sibling is not retried |
| SnapshotPlan.ViewOwned | toweb/snapshot.py:284-347 | every output a pass considers is the output of one of the recording's edit points |
| SnapshotPlan.ProcessFrame | toweb/snapshot.py:254-367 | a pass leaves alone every row that is neither the recording nor an output of one of its edit points |
| SnapshotPlan.TruncatedBackfillForgetsRebuild | toweb/snapshot.py:261-365 | when the file time lies inside the conversion's second, a pass whose renders all fail still writes a truncated raw_mtime, and the next pass no longer rebuilds the base outputs |
| SnapshotStore.Batch | toweb/snapshot.py:254-367 | the loop over the originals yields one report per original and keeps the set of rows |
| SnapshotStore.BatchReports | toweb/snapshot.py:254-367 | report k is the pass over original k against the store as the first k passes left it |
| SnapshotStore.BatchFrame | toweb/snapshot.py:254-367 | the loop leaves alone every row that is neither a listed original nor an output of one of their edit points |
| SnapshotStore.PlanOutput | toweb/snapshot.py:292-341 | the loop body over one edit point computes that output's decision |
| SnapshotStore.RunOutputs | toweb/snapshot.py:289-347 | the loop over edit points yields every output's plan and, in order, the ids of those rendered successfully |
| SnapshotStore.Store.LoadPoiMaxTs | toweb/snapshot.py:36-46 | the loop yields the greatest present updated_at among the recording's POIs, None when there is none |
| SnapshotStore.Store.FillFromProbe | toweb/snapshot.py:268-275 | the fill-in UPDATEs write each unset field the probe found, and nothing else |
| SnapshotStore.Store.StampOutputs | toweb/snapshot.py:349-359 | the UPDATEs stamp the recording and then each updated output |
| SnapshotStore.Store.ProcessRecording | toweb/snapshot.py:254-367 | one iteration of main's loop reports and updates the store as `Process` states |
| SnapshotStore.Store.RunBatch | toweb/snapshot.py:246-367 | main's loop over the originals read up front updates the store as `Batch` states |
| SnapshotSeed.SeedPoiMax | toweb/seed_db.py:157-172 | the latest POI update is +1h for the first original and +6h for the second |
| SnapshotSeed.SeedPoiUpdated | toweb/seed_db.py:157-172 | the joined POI updates: +1h for three POIs, +6h for the second POI of the second original |
| SnapshotSeed.FirstViewsLoaded | toweb/seed_db.py:195-226 | the first original's edit points load as its base output and two POI outputs |
| SnapshotSeed.SecondViewsLoaded | toweb/seed_db.py:195-226 | the second original's edit points load as its base output and two POI outputs |
| SnapshotSeed.SeedFilesSeeded | toweb/seed_db.py:28-155 | the seeded or cleared table holds the two originals and the six outputs |
| SnapshotSeed.FirstTimes | toweb/seed_db.py:50-80 | the first original's instants: raw at the base time, POI edit +2h, conversion +1h, latest POI +1h |
| SnapshotSeed.SecondTimes | toweb/seed_db.py:82-106 | the second original's instants: raw at the base time, POI edit +2h, conversion +5h, latest POI +6h |
| SnapshotSeed.SeedFirstOriginal | toweb/seed_db.py:56-80 | the base output is skipped as fresh, both POI outputs render, and with both succeeding they are recorded |
| SnapshotSeed.SeedFirstStamps | toweb/seed_db.py:56-80 | the recording and both POI outputs get the clock, and every other row is unchanged |
| SnapshotSeed.SeedSecondOriginal | toweb/seed_db.py:82-106 | the base output is skipped, the first POI output is exempt, and only the +6h POI's output renders and is recorded |
| SnapshotSeed.SeedSecondStamps | toweb/seed_db.py:82-106 | the recording and the second POI output get the clock, and every other row is unchanged |
| SnapshotSeed.SeedClearedRenders | toweb/seed_db.py:28-32 | after clearing conv_mtime, each seeded output of either original is rendered |

## Left out

- probe_media (toweb/snapshot.py:93-144) is not modelled. Running ffprobe, decoding its JSON and parsing its numbers are I/O; the probe's result is the parameter `Env.probe`, with `None` for a failed probe.
- run_ffmpeg (toweb/snapshot.py:85-90) is not modelled. The ffmpeg call, its dry-run `print` and its exit status are I/O; success per output position is the parameter `Env.ok`.
- The final `subprocess.call` of poi_crop.py is not modelled; its exit status is the parameter of `PoiReframe.ExitStatus`.
- `os.path.exists` and `file_mtime` are parameters (`Env.inputExists`, `Env.mtime`); `iso_now` is the parameter `Env.now`.
- `os.makedirs` is not modelled. It only creates directories.
- `os.path.abspath`/`dirname` of `--db` are not modelled; the result is the parameter `Cli.baseDir`.
- argparse is not modelled; the options are plain values (`Cli`, `PoiReframe.ReframeArgs`).
- sqlite and `conn.commit` are replaced by the in-memory store. ensure_schema (toweb/snapshot.py:29-33) is not modelled, and neither is the top-level "no originals" message (toweb/snapshot.py:250-252).
- The `ORDER BY mf.kind, mf.id` of load_edit_points (toweb/snapshot.py:73) is not modelled; edit points are taken in table order. Which outputs render and which are stamped depends only on each output's own row, not on order (`SnapshotPlan.UpdatedIsSuccesses`, `SnapshotPlan.StampExact`). The seed's table order already matches this ordering.
- Log lines printed by snapshot.py, and the message to stderr in poi_crop.py, are not modelled.
- The text of floats and filter graphs is not modelled: `str(float)` is the argv element `Num(v)`, and the two -vf strings of snapshot.py are `Filter` values. poi_crop.py's filter text is modelled in full.
- Floating-point arithmetic is modelled as real arithmetic, both in the seek sum and in the evaluation of the crop expressions.
- ffmpeg's evaluation of the `max`/`min` clamp in the crop window is not modelled.
- CSV tokenisation is not modelled; `read_poi` receives the rows already split into cells.
- The `.replace` chain at poi_crop/poi_crop.py:22 is modelled as direct substitution. The two agree for numeric cells, which contain no `a`, `b` or `t`.
- Comparing a naive datetime with an aware one raises in Python. This is not modelled, because every timestamp is a UTC instant here.
- The camera and lens columns, notes, markers and the camera table of create_db.py and seed_db.py are not modelled. Nothing in the two cores reads them.
- toweb/create_db.py is not part of this model beyond the columns of the row types.
- SnapshotSeed.SeedClearedRenders: states the plan of each output after `--clear-conv` one at a time, not the full report of the pass, which is how the other seed lemmas are stated.
