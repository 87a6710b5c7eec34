/**
 * main of poi_crop/poi_crop.py: read the keyframes, refuse fewer than two,
 * build the three expressions and assemble the ffmpeg command that scales,
 * crops around the interpolated point of interest and scales back.
 */
module PoiReframe {
  import opened Wrappers
  import opened PoiExpr
  import opened PoiRows

  /** The command-line options, all kept as the strings argparse returns. */
  datatype ReframeArgs = ReframeArgs(
    inp: string, poi: string, out: string,
    outW: string, outH: string, venc: string, vb: string)

  /** The argparse defaults. */
  function DefaultArgs(): ReframeArgs {
    ReframeArgs("in.mov", "poi.csv", "out_reframe.mp4", "1920", "1080", "h264_videotoolbox", "20M")
  }

  /** How main ends before the exit status of ffmpeg is known. */
  datatype ReframeOutcome =
    | RowError(msg: string)         // read_poi raised ValueError
    | TooFewRows                    // fewer than two data rows: main returns 1
    | Invoke(argv: seq<string>)     // ffmpeg is called with argv

  /** The -vf filter graph: cover-scale, crop a window of size W/z by H/z centred on (cx, cy) and clamped to the frame, scale back. */
  function ReframeFilter(args: ReframeArgs, cx: string, cy: string, z: string): string {
    "scale=" + args.outW + ":" + args.outH + ":force_original_aspect_ratio=increase,"
    + "crop="
    + "w='" + args.outW + "/(" + z + ")':"
    + "h='" + args.outH + "/(" + z + ")':"
    + "x='max(0, min(iw-ow, (" + cx + ")-ow/2))':"
    + "y='max(0, min(ih-oh, (" + cy + ")-oh/2))',"
    + "scale=" + args.outW + ":" + args.outH
  }

  function ReframeArgv(args: ReframeArgs, vf: string): seq<string> {
    ["ffmpeg", "-hide_banner", "-y", "-i", args.inp, "-vf", vf,
     "-c:v", args.venc, "-b:v", args.vb, "-c:a", "copy", args.out]
  }

  /** What main decides for the rows of the POI file. */
  function ReframeSpec(args: ReframeArgs, csv: seq<seq<string>>): ReframeOutcome {
    match ReadPoiSpec(csv)
    case Failure(e) => RowError(e)
    case Success(lines) =>
      if |lines| < 2 then TooFewRows
      else Invoke(ReframeArgv(args, ReframeFilter(args,
             Print(Build(lines, 0)), Print(Build(lines, 1)), Print(Build(lines, 2)))))
  }

  /** The process exit status: an uncaught ValueError and the row check give 1; otherwise ffmpeg's status. */
  function ExitStatus(o: ReframeOutcome, ffmpegStatus: int): (code: int)
    ensures code == 0 ==> o.Invoke? && ffmpegStatus == 0
    ensures !o.Invoke? ==> code == 1
    ensures o.Invoke? ==> code == ffmpegStatus
  {
    match o
    case RowError(_) => 1
    case TooFewRows => 1
    case Invoke(_) => ffmpegStatus
  }

  /** main, up to the call of ffmpeg. */
  method Reframe(args: ReframeArgs, csv: seq<seq<string>>) returns (o: ReframeOutcome)
    ensures o == ReframeSpec(args, csv)
  {
    var read := ReadPoi(csv);
    if read.Failure? {
      return RowError(read.error);
    }
    var lines := read.value;
    if |lines| < 2 {
      return TooFewRows;
    }
    var exprCx := BuildExpr(lines, 0);
    var exprCy := BuildExpr(lines, 1);
    var exprZ := BuildExpr(lines, 2);
    var vf := ReframeFilter(args, exprCx, exprCy, exprZ);
    o := Invoke(ReframeArgv(args, vf));
  }

  /** The fixed positions of the ffmpeg command line. */
  lemma ArgvPositions(args: ReframeArgs, vf: string)
    ensures var argv := ReframeArgv(args, vf);
            && |argv| == 14 && argv[0] == "ffmpeg" && argv[3] == "-i" && argv[4] == args.inp
            && argv[5] == "-vf" && argv[6] == vf && argv[8] == args.venc && argv[10] == args.vb
            && argv[13] == args.out
  {
  }

  /**
   * main's three outcomes: it raises exactly when a data row is short, stops
   * with status 1 exactly when fewer than two keyframes remain, and otherwise
   * calls ffmpeg on the input and output it was given, with one interpolated
   * segment per pair of neighbouring keyframes in each expression.
   */
  lemma ReframeOutcomes(args: ReframeArgs, csv: seq<seq<string>>)
    ensures ReframeSpec(args, csv).RowError? <==> ReadPoiSpec(csv).Failure?
    ensures ReframeSpec(args, csv).RowError? ==> ReframeSpec(args, csv).msg == RowShapeError
    ensures ReframeSpec(args, csv).TooFewRows? <==> ReadPoiSpec(csv).Success? && |ReadPoiSpec(csv).value| < 2
    ensures ReframeSpec(args, csv).Invoke? ==>
              var argv := ReframeSpec(args, csv).argv;
              var lines := ReadPoiSpec(csv).value;
              && |argv| == 14 && argv[0] == "ffmpeg" && argv[3] == "-i" && argv[4] == args.inp
              && argv[5] == "-vf" && argv[8] == args.venc && argv[10] == args.vb && argv[13] == args.out
              && argv[6] == ReframeFilter(args, Print(Build(lines, 0)), Print(Build(lines, 1)), Print(Build(lines, 2)))
              && |lines| >= 2
              && forall idx :: 0 <= idx <= 2 ==> IfCount(Build(lines, idx)) == |lines| - 1
  {
    if csv != [] {
      ReadDataError(csv[1..]);
    }
    match ReadPoiSpec(csv)
    case Failure(_) =>
    case Success(lines) =>
      if |lines| >= 2 {
        var vf := ReframeFilter(args, Print(Build(lines, 0)), Print(Build(lines, 1)), Print(Build(lines, 2)));
        ArgvPositions(args, vf);
        forall idx | 0 <= idx <= 2
          ensures IfCount(Build(lines, idx)) == |lines| - 1
        {
          SegmentCount(lines, idx);
        }
      }
  }
}
