/** The 3-D surface plotter: the sanitizer that turns the typed formula into
    JavaScript, the evaluation that maps every failure to 0, and the sampling
    of the surface on a 41-by-41 grid. */
module SurfacePlot {
  import opened Wrappers
  import opened Text

  // ---------------------------------------------------------------------------
  // Sanitizer
  // ---------------------------------------------------------------------------

  /** The rewrites applied to the formula, in this order, each to every
      occurrence: the caret becomes the exponent operator and each function
      name is qualified with `Math.`. */
  const SanitizeRules: seq<Substitution> := [
    ("^", "**"),
    ("sqrt", "Math.sqrt"),
    ("sin", "Math.sin"),
    ("cos", "Math.cos"),
    ("tan", "Math.tan"),
    ("log", "Math.log"),
    ("exp", "Math.exp")
  ]

  /** Each rule after the first qualifies its function name with `Math.`, and
      no replacement contains a caret. */
  lemma SanitizeRulesShape()
    ensures WellFormed(SanitizeRules) && |SanitizeRules| == 7
    ensures SanitizeRules[0] == ("^", "**")
    ensures forall i :: 1 <= i < 7 ==> SanitizeRules[i].1 == "Math." + SanitizeRules[i].0
    ensures forall i :: 0 <= i < 7 ==> Disjoint("^", SanitizeRules[i].1)
  {
  }

  /** The text handed to `eval`. */
  function Sanitize(expr: string): string {
    SanitizeRulesShape();
    ReplaceEach(expr, SanitizeRules)
  }

  /** No caret survives: the first rule removes every one, and no later
      replacement writes one. */
  lemma SanitizeRemovesCaret(expr: string)
    ensures !Occurs(Sanitize(expr), "^")
  {
    SanitizeRulesShape();
    var s1 := ReplaceAll(expr, "^", "**");
    ReplaceLeavesNoMatch(expr, "^", "**", "^");
    ReplaceEachKeepsAbsent(s1, SanitizeRules[1..], "^");
    assert ReplaceEach(expr, SanitizeRules) == ReplaceEach(s1, SanitizeRules[1..]);
  }

  /** The caret rule, scanned left to right, rewrites each caret on its own:
      it is the character-wise expansion of `^` into `**`. */
  lemma CaretRuleExpands(expr: string)
    ensures ReplaceAll(expr, "^", "**") == ExpandChar(expr, '^', "**")
  {
    ReplaceCharIsExpand(expr, '^', "**");
  }

  /** Text without a caret and without any of the six function names reaches
      `eval` as typed. */
  lemma SanitizePlainText(expr: string)
    requires forall i :: 0 <= i < |SanitizeRules| ==> !Occurs(expr, SanitizeRules[i].0)
    ensures Sanitize(expr) == expr
  {
    SanitizeRulesShape();
    ReplaceEachAbsent(expr, SanitizeRules);
  }

  /** Operand text: none of the characters used below to show that a rule
      does not apply (letters such as x and y, digits and operators qualify). */
  predicate IsOperand(s: string) {
    forall k :: 0 <= k < |s| ==> s[k] !in {'^', 'q', 'i', 'c', 'n', 'g', 'e'}
  }

  /** A rule whose pattern has a character the text lacks leaves it as it is. */
  lemma AbsentRule(s: string, p: string, rep: string, c: char)
    requires |p| > 0 && c in p && c !in s
    ensures ReplaceAll(s, p, rep) == s
  {
    CharAbsent(s, p, c);
    ReplaceAbsent(s, p, rep);
  }

  lemma Regroup(p: string, a: string, q: string, b: string, r: string)
    ensures p + a + q + b + r == (p + a) + (q + (b + r))
  {
  }

  lemma CaretStep(a: string, b: string)
    requires IsOperand(a) && IsOperand(b)
    ensures ReplaceAll("sqrt(" + a + "^" + b + ")", "^", "**") == "sqrt(" + a + "**" + b + ")"
  {
    Regroup("sqrt(", a, "^", b, ")");
    assert '^' !in "sqrt(" + a;
    ReplaceSkip("sqrt(" + a, "^" + (b + ")"), "^", "**");
    ReplaceFront("^", b + ")", "**");
    assert '^' !in b + ")";
    AbsentRule(b + ")", "^", "**", '^');
    Regroup("sqrt(", a, "**", b, ")");
  }

  /** The characters that show the later rules do not apply. */
  predicate LacksRuleLetters(m: string) {
    'q' !in m && 'i' !in m && 'c' !in m && 'n' !in m && 'g' !in m && 'e' !in m
  }

  lemma PowerLacks(a: string, b: string)
    requires IsOperand(a) && IsOperand(b)
    ensures LacksRuleLetters(a + "**" + b)
  {
  }

  lemma SqrtStep(m: string)
    requires LacksRuleLetters(m)
    ensures ReplaceAll("sqrt(" + m + ")", "sqrt", "Math.sqrt") == "Math.sqrt(" + m + ")"
  {
    var rest := "(" + m + ")";
    assert "sqrt(" + m + ")" == "sqrt" + rest;
    ReplaceFront("sqrt", rest, "Math.sqrt");
    assert 'q' !in rest;
    AbsentRule(rest, "sqrt", "Math.sqrt", 'q');
    assert "Math.sqrt" + rest == "Math.sqrt(" + m + ")";
  }

  /** Once qualified, the call has no character that would let a later rule
      apply. */
  lemma SqrtCallUntouched(m: string)
    requires LacksRuleLetters(m)
    ensures var s := "Math.sqrt(" + m + ")";
      && ReplaceAll(s, "sin", "Math.sin") == s
      && ReplaceAll(s, "cos", "Math.cos") == s
      && ReplaceAll(s, "tan", "Math.tan") == s
      && ReplaceAll(s, "log", "Math.log") == s
      && ReplaceAll(s, "exp", "Math.exp") == s
  {
    var s := "Math.sqrt(" + m + ")";
    assert 'i' !in s && 'c' !in s && 'n' !in s && 'g' !in s && 'e' !in s;
    LaterRulesAbsent(s, 'i', 'c', 'n', 'g', 'e');
  }

  /** The sin, cos, tan, log and exp rules leave alone text lacking one letter
      of each name. The letters are parameters pinned by the precondition
      rather than literals in the body: as literals, each membership test over
      the literal rule names is evaluated character by character, which makes
      the proof far more expensive. */
  lemma LaterRulesAbsent(s: string, i: char, c: char, n: char, g: char, e: char)
    requires i == 'i' && c == 'c' && n == 'n' && g == 'g' && e == 'e'
    requires i !in s && c !in s && n !in s && g !in s && e !in s
    ensures ReplaceAll(s, "sin", "Math.sin") == s
    ensures ReplaceAll(s, "cos", "Math.cos") == s
    ensures ReplaceAll(s, "tan", "Math.tan") == s
    ensures ReplaceAll(s, "log", "Math.log") == s
    ensures ReplaceAll(s, "exp", "Math.exp") == s
  {
    AbsentRule(s, "sin", "Math.sin", i);
    AbsentRule(s, "cos", "Math.cos", c);
    AbsentRule(s, "tan", "Math.tan", n);
    AbsentRule(s, "log", "Math.log", g);
    AbsentRule(s, "exp", "Math.exp", e);
  }

  /** The chain for a formula in which only the caret and `sqrt` rules apply. */
  lemma SanitizeChain(t: string, s1: string, s2: string)
    requires ReplaceAll(t, "^", "**") == s1
    requires ReplaceAll(s1, "sqrt", "Math.sqrt") == s2
    requires ReplaceAll(s2, "sin", "Math.sin") == s2
    requires ReplaceAll(s2, "cos", "Math.cos") == s2
    requires ReplaceAll(s2, "tan", "Math.tan") == s2
    requires ReplaceAll(s2, "log", "Math.log") == s2
    requires ReplaceAll(s2, "exp", "Math.exp") == s2
    ensures Sanitize(t) == s2
  {
    SanitizeRulesShape();
    var rules := SanitizeRules;
    assert ReplaceEach(t, rules) == ReplaceEach(s1, rules[1..]);
    assert ReplaceEach(s1, rules[1..]) == ReplaceEach(s2, rules[2..]);
    assert ReplaceEach(s2, rules[2..]) == s2;
  }

  /** `sqrt(A^B)` reaches `eval` as `Math.sqrt(A**B)`: the caret is rewritten
      first, then the function name is qualified. */
  lemma SanitizeSqrtOfPower(a: string, b: string)
    requires IsOperand(a) && IsOperand(b)
    ensures Sanitize("sqrt(" + a + "^" + b + ")") == "Math.sqrt(" + (a + "**" + b) + ")"
  {
    var m := a + "**" + b;
    CaretStep(a, b);
    assert "sqrt(" + a + "**" + b + ")" == "sqrt(" + m + ")";
    PowerLacks(a, b);
    SqrtStep(m);
    SqrtCallUntouched(m);
    SanitizeChain("sqrt(" + a + "^" + b + ")", "sqrt(" + m + ")", "Math.sqrt(" + m + ")");
  }

  /** `sqrt(x^2)` is handed to `eval` as `Math.sqrt(x**2)`. */
  lemma SanitizeExample()
    ensures Sanitize("sqrt(" + "x" + "^" + "2" + ")") == "Math.sqrt(" + ("x" + "**" + "2") + ")"
  {
    SanitizeSqrtOfPower("x", "2");
  }

  // ---------------------------------------------------------------------------
  // Evaluation
  // ---------------------------------------------------------------------------

  /** JavaScript `eval` of the sanitized text with `x` and `y` in scope:
      `None` when it throws. */
  type Evaluator = (string, real, real) -> Option<real>

  /** The height at (x, y): what `eval` returns, or 0 when it throws. */
  function EvaluateAt(x: real, y: real, expr: string, eval: Evaluator): (z: real)
    ensures eval(Sanitize(expr), x, y).Some? ==> z == eval(Sanitize(expr), x, y).value
    ensures eval(Sanitize(expr), x, y).None? ==> z == 0.0
  {
    match eval(Sanitize(expr), x, y)
    case Some(v) => v
    case None => 0.0
  }

  // ---------------------------------------------------------------------------
  // Sampling grid
  // ---------------------------------------------------------------------------

  /** Intervals between samples along each axis. */
  const Points := 40

  datatype Range = Range(min: real, max: real)

  function Step(r: Range): real {
    (r.max - r.min) / Points as real
  }

  /** The i-th sample along an axis. */
  function AxisValue(r: Range, i: int): real {
    r.min + i as real * Step(r)
  }

  /** The first sample is the range's min and the last is its max. */
  lemma AxisEnds(r: Range)
    ensures AxisValue(r, 0) == r.min
    ensures AxisValue(r, Points) == r.max
  {
  }

  /** Samples move from min towards max: they increase when min < max,
      decrease when the range is reversed, and are all equal when min == max.
      No range is rejected. */
  lemma AxisDirection(r: Range, i: int, j: int)
    requires 0 <= i < j <= Points
    ensures r.min < r.max ==> AxisValue(r, i) < AxisValue(r, j)
    ensures r.min > r.max ==> AxisValue(r, i) > AxisValue(r, j)
    ensures r.min == r.max ==> AxisValue(r, i) == AxisValue(r, j)
  {
    var d := (j - i) as real;
    assert AxisValue(r, j) - AxisValue(r, i) == d * Step(r);
    assert d > 0.0;
    if r.min < r.max {
      assert Step(r) > 0.0;
      assert d * Step(r) > 0.0;
    } else if r.min > r.max {
      assert Step(r) < 0.0;
      assert d * Step(r) < 0.0;
    }
  }

  /** The data handed to the plotting library: the x and y samples, and the
      heights, one row per y sample. */
  datatype Surface = Surface(xValues: seq<real>, yValues: seq<real>, zValues: seq<seq<real>>)

  /** One row of heights: the formula at every x sample, for one y. */
  method SampleRow(xValues: seq<real>, y: real, expr: string, eval: Evaluator) returns (row: seq<real>)
    requires |xValues| == Points + 1
    ensures |row| == Points + 1
    ensures forall c :: 0 <= c <= Points ==> row[c] == EvaluateAt(xValues[c], y, expr, eval)
  {
    row := [];
    var j := 0;
    while j <= Points
      invariant 0 <= j <= Points + 1
      invariant |row| == j
      invariant forall c :: 0 <= c < j ==> row[c] == EvaluateAt(xValues[c], y, expr, eval)
    {
      var z := EvaluateAt(xValues[j], y, expr, eval);
      row := row + [z];
      j := j + 1;
    }
  }

  /** The 41 samples along each axis, from min to max in equal steps. */
  method SampleAxes(xRange: Range, yRange: Range) returns (xValues: seq<real>, yValues: seq<real>)
    ensures |xValues| == Points + 1 && |yValues| == Points + 1
    ensures forall i :: 0 <= i <= Points ==>
              xValues[i] == AxisValue(xRange, i) && yValues[i] == AxisValue(yRange, i)
  {
    var xStep := (xRange.max - xRange.min) / Points as real;
    var yStep := (yRange.max - yRange.min) / Points as real;
    xValues := [];
    yValues := [];
    var i := 0;
    while i <= Points
      invariant 0 <= i <= Points + 1
      invariant |xValues| == i && |yValues| == i
      invariant forall k :: 0 <= k < i ==>
                  xValues[k] == AxisValue(xRange, k) && yValues[k] == AxisValue(yRange, k)
    {
      xValues := xValues + [xRange.min + i as real * xStep];
      yValues := yValues + [yRange.min + i as real * yStep];
      i := i + 1;
    }
  }

  /** Samples the formula: 41 values per axis, then the heights row by row,
      row i at y sample i and column j at x sample j. */
  method SampleSurface(expr: string, xRange: Range, yRange: Range, eval: Evaluator) returns (s: Surface)
    ensures |s.xValues| == Points + 1 && |s.yValues| == Points + 1
    ensures forall i :: 0 <= i <= Points ==>
              s.xValues[i] == AxisValue(xRange, i) && s.yValues[i] == AxisValue(yRange, i)
    ensures |s.zValues| == Points + 1
    ensures forall i :: 0 <= i <= Points ==> |s.zValues[i]| == Points + 1
    ensures forall i, j :: 0 <= i <= Points && 0 <= j <= Points ==>
              s.zValues[i][j] == EvaluateAt(s.xValues[j], s.yValues[i], expr, eval)
  {
    var xValues, yValues := SampleAxes(xRange, yRange);
    var zValues: seq<seq<real>> := [];
    var i := 0;
    while i <= Points
      invariant 0 <= i <= Points + 1
      invariant |zValues| == i
      invariant forall r :: 0 <= r < i ==> |zValues[r]| == Points + 1
      invariant forall r, c :: 0 <= r < i && 0 <= c <= Points ==>
                  zValues[r][c] == EvaluateAt(xValues[c], yValues[r], expr, eval)
    {
      var row := SampleRow(xValues, yValues[i], expr, eval);
      zValues := zValues + [row];
      i := i + 1;
    }
    s := Surface(xValues, yValues, zValues);
  }

  /** The plotter's state: the formula, the two ranges and the busy flag. */
  class SurfacePlotter {
    var functionExpr: string
    var xRange: Range
    var yRange: Range
    var isLoading: bool

    constructor()
      ensures functionExpr == "sin(sqrt(x^2 + y^2))"
      ensures xRange == Range(-5.0, 5.0) && yRange == Range(-5.0, 5.0)
      ensures !isLoading
    {
      functionExpr := "sin(sqrt(x^2 + y^2))";
      xRange := Range(-5.0, 5.0);
      yRange := Range(-5.0, 5.0);
      isLoading := false;
    }

    /** Plots the current formula. Nothing happens while the plot container
        is not mounted; otherwise the sampled surface is returned for drawing
        and the busy flag ends cleared. */
    method HandlePlot(mounted: bool, eval: Evaluator) returns (plot: Option<Surface>)
      modifies this
      ensures !mounted ==> plot == None && isLoading == old(isLoading)
      ensures mounted ==> plot.Some? && !isLoading
      ensures plot.Some? ==>
                |plot.value.xValues| == Points + 1 && |plot.value.yValues| == Points + 1
                && forall i :: 0 <= i <= Points ==>
                     plot.value.xValues[i] == AxisValue(xRange, i)
                     && plot.value.yValues[i] == AxisValue(yRange, i)
      ensures plot.Some? ==>
                |plot.value.zValues| == Points + 1
                && forall i, j :: 0 <= i <= Points && 0 <= j <= Points ==>
                     |plot.value.zValues[i]| == Points + 1
                     && plot.value.zValues[i][j]
                        == EvaluateAt(AxisValue(xRange, j), AxisValue(yRange, i), functionExpr, eval)
      ensures functionExpr == old(functionExpr) && xRange == old(xRange) && yRange == old(yRange)
    {
      if !mounted {
        return None;
      }
      isLoading := true;
      var s := SampleSurface(functionExpr, xRange, yRange, eval);
      plot := Some(s);
      isLoading := false;
    }
  }
}
