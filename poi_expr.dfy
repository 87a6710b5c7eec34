/**
 * The crop-expression builder of poi_crop/poi_crop.py (build_expr): the
 * keyframes of one axis are folded, pair by pair, into a nested ffmpeg
 * expression `if(between(t,t0,t1), <lerp>, <previous>)`.
 *
 * The builder works on the cell texts exactly as read from the CSV file.  The
 * meaning of those texts as numbers (ffmpeg's reading of a numeric literal)
 * is the parameter `num` of the evaluator; the deviations of floating point
 * from real arithmetic are not modelled.
 */
module PoiExpr {
  import opened Wrappers

  /** One keyframe row as read_poi returns it: the stripped cells t, x, y, z. */
  datatype Keyframe = Keyframe(t: string, x: string, y: string, z: string)

  /** The nested conditional expression that build_expr prints. */
  datatype Expr =
    | Const(c: string)
    | Lerp(a: string, b: string, t0: string, t1: string)
    | IfBetween(t0: string, t1: string, inside: Expr, outside: Expr)

  /** The value outside every segment: 0 for the centre axes, 1 for zoom. */
  function BaseValue(idx: int): string {
    if idx < 2 then "0" else "1"
  }

  /** Axis 0 reads column x, axis 1 column y, every other axis column z. */
  function Column(k: Keyframe, idx: int): string {
    if idx == 0 then k.x else if idx == 1 then k.y else k.z
  }

  /** The segment for the keyframe pair (k0, k1), falling back to `rest`. */
  function Segment(k0: Keyframe, k1: Keyframe, idx: int, rest: Expr): Expr {
    IfBetween(k0.t, k1.t, Lerp(Column(k0, idx), Column(k1, idx), k0.t, k1.t), rest)
  }

  /**
   * The expression build_expr constructs: the base value wrapped by one
   * segment per consecutive pair, the last pair outermost.
   */
  function Build(lines: seq<Keyframe>, idx: int): Expr
    decreases |lines|
  {
    if |lines| < 2 then Const(BaseValue(idx))
    else Segment(lines[|lines| - 2], lines[|lines| - 1], idx, Build(lines[..|lines| - 1], idx))
  }

  /** The interpolation template `(a + (b-a)*((t-t0)/(t1-t0)))` with its holes filled. */
  function LerpText(a: string, b: string, t0: string, t1: string): string {
    "(" + a + " + (" + b + "-" + a + ")*((t-" + t0 + ")/(" + t1 + "-" + t0 + ")))"
  }

  /** The text of an expression, in the shape of build_expr's f-strings. */
  function Print(e: Expr): string {
    match e
    case Const(c) => c
    case Lerp(a, b, t0, t1) => LerpText(a, b, t0, t1)
    case IfBetween(t0, t1, inside, outside) =>
      "if(between(t," + t0 + "," + t1 + "), " + Print(inside) + "," + Print(outside) + ")"
  }

  /**
   * build_expr: the accumulator starts at the base value and every pair of
   * consecutive rows wraps it in one more segment.
   */
  method BuildExpr(lines: seq<Keyframe>, idx: int) returns (expr: string)
    ensures expr == Print(Build(lines, idx))
    ensures |lines| < 2 ==> expr == (if idx < 2 then "0" else "1")
  {
    expr := if idx < 2 then "0" else "1";
    var i := 0;
    while i + 1 < |lines|
      invariant |lines| == 0 || i < |lines|
      invariant expr == Print(Build(if |lines| == 0 then [] else lines[..i + 1], idx))
    {
      var k0, k1 := lines[i], lines[i + 1];
      var a, b := Column(k0, idx), Column(k1, idx);
      var seg := "if(between(t," + k0.t + "," + k1.t + "), " + LerpText(a, b, k0.t, k1.t) + ",";
      expr := seg + expr + ")";
      assert lines[..i + 2][..i + 1] == lines[..i + 1];
      i := i + 1;
    }
    assert |lines| > 0 ==> lines[..i + 1] == lines;
  }

  /** Number of `if(between(...))` segments in an expression. */
  function IfCount(e: Expr): nat {
    match e
    case Const(_) => 0
    case Lerp(_, _, _, _) => 0
    case IfBetween(_, _, inside, outside) => 1 + IfCount(inside) + IfCount(outside)
  }

  /** The expression reached by stepping `d` times into the fallback branch. */
  function Outer(e: Expr, d: nat): Expr {
    if d == 0 then e
    else match e
      case IfBetween(_, _, _, outside) => Outer(outside, d - 1)
      case _ => e
  }

  /** With n rows the expression has exactly n - 1 segments (none below two rows). */
  lemma {:induction false} SegmentCount(lines: seq<Keyframe>, idx: int)
    ensures IfCount(Build(lines, idx)) == if |lines| < 2 then 0 else |lines| - 1
  {
    if |lines| >= 2 {
      SegmentCount(lines[..|lines| - 1], idx);
    }
  }

  /**
   * Later pairs wrap earlier ones: the segment for rows i and i + 1 sits
   * n - 2 - i levels deep, and everything below it was built from rows 0..i.
   */
  lemma {:induction false} SegmentOrder(lines: seq<Keyframe>, idx: int, i: nat)
    requires i < |lines| - 1
    ensures Outer(Build(lines, idx), |lines| - 2 - i)
         == Segment(lines[i], lines[i + 1], idx, Build(lines[..i + 1], idx))
  {
    var n := |lines|;
    if i < n - 2 {
      var init := lines[..n - 1];
      SegmentOrder(init, idx, i);
      assert init[..i + 1] == lines[..i + 1];
    }
  }

  // ----- Evaluation (ffmpeg's semantics of the printed expression) -----

  /** Where t lies within [t0, t1], as a fraction: (t - t0) / (t1 - t0). */
  function Ratio(t: real, t0: real, t1: real): real
    requires t1 - t0 != 0.0
  {
    (t - t0) / (t1 - t0)
  }

  /** The point at fraction r of the way from a to b: a + (b - a) * r. */
  function Mix(a: real, b: real, r: real): real {
    a + (b - a) * r
  }

  /**
   * The interpolation at time t; None stands for the NaN that 0/0 produces
   * when a segment has equal end times.
   */
  function LerpValue(a: real, b: real, t0: real, t1: real, t: real): Option<real> {
    if t1 - t0 == 0.0 then None else Some(Mix(a, b, Ratio(t, t0, t1)))
  }

  /** Value of an expression at time t; `between` is inclusive at both ends. */
  function Eval(e: Expr, t: real, num: string -> real): Option<real> {
    match e
    case Const(c) => Some(num(c))
    case Lerp(a, b, t0, t1) => LerpValue(num(a), num(b), num(t0), num(t1), t)
    case IfBetween(t0, t1, inside, outside) =>
      if num(t0) <= t <= num(t1) then Eval(inside, t, num) else Eval(outside, t, num)
  }

  /** Time t lies in the closed interval of segment i (rows i and i + 1). */
  predicate InSegment(lines: seq<Keyframe>, num: string -> real, i: nat, t: real)
    requires i < |lines| - 1
  {
    num(lines[i].t) <= t <= num(lines[i + 1].t)
  }

  /** The interpolation of segment i at time t. */
  function SegmentValue(lines: seq<Keyframe>, idx: int, num: string -> real, i: nat, t: real): Option<real>
    requires i < |lines| - 1
  {
    LerpValue(num(Column(lines[i], idx)), num(Column(lines[i + 1], idx)),
              num(lines[i].t), num(lines[i + 1].t), t)
  }

  /** Consecutive keyframe times are strictly increasing. */
  predicate Increasing(lines: seq<Keyframe>, num: string -> real) {
    forall i :: 0 <= i < |lines| - 1 ==> num(lines[i].t) < num(lines[i + 1].t)
  }

  /**
   * First match from the outside wins: when segment i covers t and no later
   * segment does, the expression evaluates to segment i's interpolation.
   * No ordering of the times is needed.
   */
  lemma {:induction false} LatestCoveringSegmentWins(lines: seq<Keyframe>, idx: int, num: string -> real, t: real, i: nat)
    requires i < |lines| - 1
    requires InSegment(lines, num, i, t)
    requires forall j :: i < j < |lines| - 1 ==> !InSegment(lines, num, j, t)
    ensures Eval(Build(lines, idx), t, num) == SegmentValue(lines, idx, num, i, t)
  {
    var n := |lines|;
    if i < n - 2 {
      assert !InSegment(lines, num, n - 2, t);
      var init := lines[..n - 1];
      forall j | i < j < |init| - 1
        ensures !InSegment(init, num, j, t)
      {
        assert !InSegment(lines, num, j, t);
      }
      LatestCoveringSegmentWins(init, idx, num, t, i);
    }
  }

  /** A time covered by no segment evaluates to the base value. */
  lemma {:induction false} UncoveredIsBase(lines: seq<Keyframe>, idx: int, num: string -> real, t: real)
    requires forall j :: 0 <= j < |lines| - 1 ==> !InSegment(lines, num, j, t)
    ensures Eval(Build(lines, idx), t, num) == Some(num(BaseValue(idx)))
  {
    var n := |lines|;
    if n >= 2 {
      assert !InSegment(lines, num, n - 2, t);
      var init := lines[..n - 1];
      forall j | 0 <= j < |init| - 1
        ensures !InSegment(init, num, j, t)
      {
        assert !InSegment(lines, num, j, t);
      }
      UncoveredIsBase(init, idx, num, t);
    }
  }

  /** Strictly increasing consecutive times are strictly increasing overall. */
  lemma {:induction false} IncreasingApart(lines: seq<Keyframe>, num: string -> real, i: nat, j: nat)
    requires Increasing(lines, num)
    requires i < j < |lines|
    ensures num(lines[i].t) < num(lines[j].t)
  {
    if j > i + 1 {
      IncreasingApart(lines, num, i, j - 1);
    }
  }

  /**
   * Between keyframes i and i + 1 (up to, not including, t_{i+1} unless it is
   * the last keyframe) the expression is the linear interpolation
   * a + (b - a) * (t - t_i) / (t_{i+1} - t_i).
   */
  lemma InteriorIsLinear(lines: seq<Keyframe>, idx: int, num: string -> real, t: real, i: nat)
    requires Increasing(lines, num)
    requires i < |lines| - 1
    requires num(lines[i].t) <= t <= num(lines[i + 1].t)
    requires t < num(lines[i + 1].t) || i == |lines| - 2
    ensures Eval(Build(lines, idx), t, num)
         == Some(Mix(num(Column(lines[i], idx)), num(Column(lines[i + 1], idx)),
                     Ratio(t, num(lines[i].t), num(lines[i + 1].t))))
  {
    forall j | i < j < |lines| - 1
      ensures !InSegment(lines, num, j, t)
    {
      if j > i + 1 {
        IncreasingApart(lines, num, i + 1, j);
      }
    }
    LatestCoveringSegmentWins(lines, idx, num, t, i);
  }

  lemma SelfRatio(d: real)
    requires d > 0.0
    ensures d / d == 1.0
  {}

  /** The interpolation hits its end values at the two end times. */
  lemma LerpAtEnds(a: real, b: real, t0: real, t1: real)
    requires t0 < t1
    ensures LerpValue(a, b, t0, t1, t0) == Some(a)
    ensures LerpValue(a, b, t0, t1, t1) == Some(b)
  {
    SelfRatio(t1 - t0);
    assert Ratio(t1, t0, t1) == 1.0;
    assert Ratio(t0, t0, t1) == 0.0;
    assert Mix(a, b, 1.0) == b && Mix(a, b, 0.0) == a;
  }

  /** At every keyframe's own time the expression yields that row's value exactly. */
  lemma KeyframeIsExact(lines: seq<Keyframe>, idx: int, num: string -> real, k: nat)
    requires Increasing(lines, num)
    requires 2 <= |lines| && k < |lines|
    ensures Eval(Build(lines, idx), num(lines[k].t), num) == Some(num(Column(lines[k], idx)))
  {
    var n := |lines|;
    var t := num(lines[k].t);
    var i := if k < n - 1 then k else n - 2;
    LatestCoveringSegmentWins(lines, idx, num, t, i) by {
      forall j | i < j < n - 1
        ensures !InSegment(lines, num, j, t)
      {
        IncreasingApart(lines, num, k, j);
      }
    }
    LerpAtEnds(num(Column(lines[i], idx)), num(Column(lines[i + 1], idx)), num(lines[i].t), num(lines[i + 1].t));
  }

  /**
   * On a shared boundary t_k both neighbouring segments cover t_k and agree
   * on the value there; the later (outer) one is the one evaluated.
   */
  lemma BoundaryAgrees(lines: seq<Keyframe>, idx: int, num: string -> real, k: nat)
    requires Increasing(lines, num)
    requires 0 < k < |lines| - 1
    ensures InSegment(lines, num, k - 1, num(lines[k].t)) && InSegment(lines, num, k, num(lines[k].t))
    ensures SegmentValue(lines, idx, num, k - 1, num(lines[k].t)) == Some(num(Column(lines[k], idx)))
    ensures SegmentValue(lines, idx, num, k, num(lines[k].t)) == Some(num(Column(lines[k], idx)))
    ensures Eval(Build(lines, idx), num(lines[k].t), num) == SegmentValue(lines, idx, num, k, num(lines[k].t))
  {
    IncreasingApart(lines, num, k, k + 1);
    LerpAtEnds(num(Column(lines[k - 1], idx)), num(Column(lines[k], idx)), num(lines[k - 1].t), num(lines[k].t));
    LerpAtEnds(num(Column(lines[k], idx)), num(Column(lines[k + 1], idx)), num(lines[k].t), num(lines[k + 1].t));
    KeyframeIsExact(lines, idx, num, k);
  }

  /**
   * Before the first keyframe and after the last one the expression yields
   * 0 for the centre axes and 1 for zoom.
   */
  lemma OutsideIsBase(lines: seq<Keyframe>, idx: int, num: string -> real, t: real)
    requires Increasing(lines, num)
    requires |lines| > 0
    requires t < num(lines[0].t) || t > num(lines[|lines| - 1].t)
    requires num("0") == 0.0 && num("1") == 1.0
    ensures Eval(Build(lines, idx), t, num) == Some(if idx < 2 then 0.0 else 1.0)
  {
    var n := |lines|;
    forall j | 0 <= j < n - 1
      ensures !InSegment(lines, num, j, t)
    {
      if j > 0 {
        IncreasingApart(lines, num, 0, j);
      }
      if j + 1 < n - 1 {
        IncreasingApart(lines, num, j + 1, n - 1);
      }
    }
    UncoveredIsBase(lines, idx, num, t);
  }
}
