/**
 * The helpers of toweb/snapshot.py that turn a media row into an ffmpeg
 * command line: codec choice, path resolution and the argv assembled by
 * render_base and render_poi.
 */
module SnapshotCommands {
  import opened Wrappers

  /** `value.lower() == "h264"`: the letter h in either case followed by 264 (no other character lowers to these). */
  predicate IsH264(v: string) {
    |v| == 4 && (v[0] == 'h' || v[0] == 'H') && v[1..] == "264"
  }

  /** choose_codec: no codec, the empty string and h264 in any case select libx264; any other codec is kept. */
  function ChooseCodec(value: Option<string>): (r: string)
    ensures r != [] && !IsH264(r)
    ensures r == "libx264" || (value.Some? && r == value.value)
    ensures value.Some? && value.value != [] && !IsH264(value.value) ==> r == value.value
    ensures value.None? || value.value == [] || IsH264(value.value) ==> r == "libx264"
  {
    if value.None? || value.value == [] then "libx264"
    else if IsH264(value.value) then "libx264"
    else value.value
  }

  /** os.path.isabs on POSIX. */
  predicate IsAbs(p: string) {
    |p| > 0 && p[0] == '/'
  }

  /** resolve_path: an absolute path is kept; a relative one is joined to the base as posixpath.join does. */
  function ResolvePath(baseDir: string, p: string): (r: string)
    ensures IsAbs(p) ==> r == p
    ensures !IsAbs(p) ==> |r| >= |baseDir| + |p| && r[..|baseDir|] == baseDir && r[|r| - |p|..] == p
    ensures !IsAbs(p) && baseDir != [] && baseDir[|baseDir| - 1] != '/' ==> r == baseDir + "/" + p
    ensures !IsAbs(p) && (baseDir == [] || baseDir[|baseDir| - 1] == '/') ==> r == baseDir + p
    ensures IsAbs(baseDir) || IsAbs(p) ==> IsAbs(r)
  {
    if IsAbs(p) then p
    else if baseDir == [] || baseDir[|baseDir| - 1] == '/' then baseDir + p
    else baseDir + "/" + p
  }

  /** The -vf filter graphs: letterbox to the output size, or crop around the POI and scale. */
  datatype Filter =
    | Letterbox(w: int, h: int)
    | PoiCrop(w: int, h: int, zoom: real, x: Option<real>, y: Option<real>)

  /** One argv element; Num(v) stands for Python's str(v) of a float. */
  datatype Arg = Str(s: string) | Num(v: real) | Vf(f: Filter)

  /** The part of the command before the filter: program, flags, optional seek, input, optional duration. */
  function Head(seek: Option<real>, inp: string, duration: Option<real>): (r: seq<Arg>)
    ensures var s := if seek.Some? then 2 else 0;
            && |r| == 5 + s + (if duration.Some? then 2 else 0)
            && r[0] == Str("ffmpeg") && r[1] == Str("-hide_banner") && r[2] == Str("-y")
            && (r[3] == Str("-ss") <==> seek.Some?)
            && (seek.Some? ==> r[4] == Num(seek.value))
            && r[3 + s] == Str("-i") && r[4 + s] == Str(inp)
            && (duration.Some? ==> r[5 + s] == Str("-t") && r[6 + s] == Num(duration.value))
  {
    [Str("ffmpeg"), Str("-hide_banner"), Str("-y")]
    + (if seek.Some? then [Str("-ss"), Num(seek.value)] else [])
    + [Str("-i"), Str(inp)]
    + (if duration.Some? then [Str("-t"), Num(duration.value)] else [])
  }

  /** The filter, fixed encoder settings and the output path. */
  function Tail(vf: Filter, codec: Option<string>, outp: string): seq<Arg> {
    [Str("-vf"), Vf(vf), Str("-an"), Str("-c:v"), Str(ChooseCodec(codec)),
     Str("-crf"), Str("28"), Str("-preset"), Str("veryfast"), Str(outp)]
  }

  /** `if frame_rate:` — a frame rate of 0 counts as none. */
  predicate HasRate(frameRate: Option<real>) {
    frameRate.Some? && frameRate.value != 0.0
  }

  function RateFlag(frameRate: Option<real>): seq<Arg> {
    if HasRate(frameRate) then [Str("-r"), Num(frameRate.value)] else []
  }

  /** The first position of key in s, or |s| when it does not occur. */
  function FirstIndex(s: seq<Arg>, key: Arg): (i: nat)
    ensures i <= |s|
    ensures i < |s| ==> s[i] == key
    ensures forall j :: 0 <= j < i ==> s[j] != key
    ensures key in s ==> i < |s|
  {
    if s == [] then 0
    else if s[0] == key then 0
    else 1 + FirstIndex(s[1..], key)
  }

  /** `cmd[i:i] = ["-r", str(frame_rate)]` at the first "-vf", when there is a frame rate. */
  function Spliced(cmd: seq<Arg>, frameRate: Option<real>): seq<Arg> {
    if HasRate(frameRate) then
      var i := FirstIndex(cmd, Str("-vf"));
      cmd[..i] + RateFlag(frameRate) + cmd[i..]
    else cmd
  }

  /** The command render_base and render_poi mean to build: the rate flag sits just before -vf. */
  function Layout(seek: Option<real>, inp: string, duration: Option<real>, frameRate: Option<real>,
                  vf: Filter, codec: Option<string>, outp: string): (r: seq<Arg>)
    ensures var n := |r|;
            var s := if seek.Some? then 2 else 0;
            && n == 15 + s + (if duration.Some? then 2 else 0) + (if HasRate(frameRate) then 2 else 0)
            && r[0] == Str("ffmpeg") && r[1] == Str("-hide_banner") && r[2] == Str("-y")
            && (r[3] == Str("-ss") <==> seek.Some?)
            && (seek.Some? ==> r[4] == Num(seek.value))
            && r[3 + s] == Str("-i") && r[4 + s] == Str(inp)
            && (r[5 + s] == Str("-t") <==> duration.Some?)
            && (duration.Some? ==> r[6 + s] == Num(duration.value))
            && (r[n - 12] == Str("-r") <==> HasRate(frameRate))
            && (HasRate(frameRate) ==> r[n - 11] == Num(frameRate.value))
            && r[n - 10] == Str("-vf") && r[n - 9] == Vf(vf)
            && r[n - 6] == Str(ChooseCodec(codec)) && r[n - 1] == Str(outp)
  {
    var h, m, t := Head(seek, inp, duration), RateFlag(frameRate), Tail(vf, codec, outp);
    assert |t| == 10 && |m| == if HasRate(frameRate) then 2 else 0;
    h + m + t
  }

  lemma {:induction false} FirstIndexAfter(a: seq<Arg>, b: seq<Arg>, key: Arg)
    requires key !in a
    ensures FirstIndex(a + b, key) == |a| + FirstIndex(b, key)
  {
    if a == [] {
      assert a + b == b;
    } else {
      assert (a + b)[0] == a[0] != key;
      assert (a + b)[1..] == a[1..] + b;
      assert key !in a[1..] by {
        forall j | 0 <= j < |a| - 1 ensures a[1..][j] != key {
          assert a[1..][j] == a[j + 1];
        }
      }
      FirstIndexAfter(a[1..], b, key);
    }
  }

  /** Splicing at the first -vf lands the rate flag just before the filter, unless the input path is itself "-vf". */
  lemma SpliceIsLayout(seek: Option<real>, inp: string, duration: Option<real>, frameRate: Option<real>,
                       vf: Filter, codec: Option<string>, outp: string)
    requires inp != "-vf"
    ensures Spliced(Head(seek, inp, duration) + Tail(vf, codec, outp), frameRate)
            == Layout(seek, inp, duration, frameRate, vf, codec, outp)
  {
    var head, tail := Head(seek, inp, duration), Tail(vf, codec, outp);
    if HasRate(frameRate) {
      assert Str("-vf") !in head;
      FirstIndexAfter(head, tail, Str("-vf"));
      assert (head + tail)[..|head|] == head;
      assert (head + tail)[|head|..] == tail;
    }
  }

  /** `z = poi["poi_z"] or 1.0`: a missing or zero zoom is 1. */
  function Zoom(poiZ: Option<real>): (z: real)
    ensures z != 0.0
    ensures poiZ.Some? && poiZ.value != 0.0 ==> z == poiZ.value
    ensures poiZ.None? || poiZ.value == 0.0 ==> z == 1.0
  {
    if poiZ.Some? && poiZ.value != 0.0 then poiZ.value else 1.0
  }

  /**
   * render_poi's seek: the POI time (0 when missing), offset by the start
   * when there is one; -ss is given only for a non-zero seek.
   */
  function PoiSeek(start: Option<real>, poiT: Option<real>): (seek: Option<real>)
    ensures seek.Some? ==> seek.value != 0.0
    ensures seek.None? <==> (if start.Some? then start.value else 0.0) + (if poiT.Some? then poiT.value else 0.0) == 0.0
  {
    var t := if poiT.Some? then poiT.value else 0.0;
    var s := if start.Some? then start.value + t else t;
    if s != 0.0 then Some(s) else None
  }

  /** The -ss argument of render_poi is the start plus the POI time, each defaulting to 0. */
  lemma PoiSeekValue(start: Option<real>, poiT: Option<real>)
    requires PoiSeek(start, poiT).Some?
    ensures PoiSeek(start, poiT).value == (if start.Some? then start.value else 0.0) + (if poiT.Some? then poiT.value else 0.0)
  {
  }

  /** The first position of key in cmd, as `cmd.index(key)` finds it. */
  method IndexOf(cmd: seq<Arg>, key: Arg) returns (i: nat)
    ensures i == FirstIndex(cmd, key)
  {
    i := 0;
    while i < |cmd| && cmd[i] != key
      invariant i <= |cmd|
      invariant FirstIndex(cmd, key) == i + FirstIndex(cmd[i..], key)
    {
      assert cmd[i..][1..] == cmd[i + 1..];
      i := i + 1;
    }
  }

  /** The argv growing with `+=`, then the rate flag spliced in before -vf. */
  method Assemble(seek: Option<real>, inp: string, duration: Option<real>, frameRate: Option<real>,
                  vf: Filter, codec: Option<string>, outp: string) returns (cmd: seq<Arg>)
    ensures cmd == Spliced(Head(seek, inp, duration) + Tail(vf, codec, outp), frameRate)
    ensures inp != "-vf" ==> cmd == Layout(seek, inp, duration, frameRate, vf, codec, outp)
  {
    cmd := [Str("ffmpeg"), Str("-hide_banner"), Str("-y")];
    if seek.Some? {
      cmd := cmd + [Str("-ss"), Num(seek.value)];
    }
    cmd := cmd + [Str("-i"), Str(inp)];
    if duration.Some? {
      cmd := cmd + [Str("-t"), Num(duration.value)];
    }
    assert cmd == Head(seek, inp, duration);
    cmd := cmd + [Str("-vf"), Vf(vf), Str("-an"), Str("-c:v"), Str(ChooseCodec(codec)),
                  Str("-crf"), Str("28"), Str("-preset"), Str("veryfast"), Str(outp)];
    assert cmd == Head(seek, inp, duration) + Tail(vf, codec, outp);
    if HasRate(frameRate) {
      var vfIndex := IndexOf(cmd, Str("-vf"));
      cmd := cmd[..vfIndex] + [Str("-r"), Num(frameRate.value)] + cmd[vfIndex..];
    }
    if inp != "-vf" {
      SpliceIsLayout(seek, inp, duration, frameRate, vf, codec, outp);
    }
  }

  /** render_base's command: -ss exactly when a start is configured (0 included), letterboxed to the output size. */
  function BaseCommand(inp: string, outp: string, outW: int, outH: int, start: Option<real>,
                       duration: Option<real>, codec: Option<string>, frameRate: Option<real>): seq<Arg> {
    Spliced(Head(start, inp, duration) + Tail(Letterbox(outW, outH), codec, outp), frameRate)
  }

  /** render_poi's command: seek from the POI time, crop window of the output size divided by the zoom. */
  function PoiCommand(inp: string, outp: string, outW: int, outH: int, start: Option<real>,
                      duration: Option<real>, codec: Option<string>, frameRate: Option<real>,
                      poiT: Option<real>, poiX: Option<real>, poiY: Option<real>, poiZ: Option<real>): seq<Arg> {
    Spliced(Head(PoiSeek(start, poiT), inp, duration)
            + Tail(PoiCrop(outW, outH, Zoom(poiZ), poiX, poiY), codec, outp), frameRate)
  }

  /** render_base up to the call of ffmpeg. */
  method RenderBaseCommand(inp: string, outp: string, outW: int, outH: int, start: Option<real>,
                           duration: Option<real>, codec: Option<string>, frameRate: Option<real>)
    returns (cmd: seq<Arg>)
    ensures cmd == BaseCommand(inp, outp, outW, outH, start, duration, codec, frameRate)
    ensures inp != "-vf" ==> cmd == Layout(start, inp, duration, frameRate, Letterbox(outW, outH), codec, outp)
  {
    cmd := Assemble(start, inp, duration, frameRate, Letterbox(outW, outH), codec, outp);
  }

  /** render_poi up to the call of ffmpeg. */
  method RenderPoiCommand(inp: string, outp: string, outW: int, outH: int, start: Option<real>,
                          duration: Option<real>, codec: Option<string>, frameRate: Option<real>,
                          poiT: Option<real>, poiX: Option<real>, poiY: Option<real>, poiZ: Option<real>)
    returns (cmd: seq<Arg>)
    ensures cmd == PoiCommand(inp, outp, outW, outH, start, duration, codec, frameRate, poiT, poiX, poiY, poiZ)
    ensures inp != "-vf" ==>
              cmd == Layout(PoiSeek(start, poiT), inp, duration, frameRate,
                            PoiCrop(outW, outH, Zoom(poiZ), poiX, poiY), codec, outp)
  {
    var z := Zoom(poiZ);
    var seek := PoiSeek(start, poiT);
    cmd := Assemble(seek, inp, duration, frameRate, PoiCrop(outW, outH, z, poiX, poiY), codec, outp);
  }
}
