/** The woven call: what a caller of an advised method observes once the logging aspect
    is woven in. The pointcut decides whether the call is advised; an advised call
    prints the before lines, runs the method, and then prints the lines of exactly one
    of the after-returning and after-throwing advice, while the caller still receives
    the method's own result or exception. */
module Weaving {
  import opened JavaLang
  import opened Decimal
  import opened Console
  import opened LoggingAspect
  import Calculator

  /** The lines printed around one call whose method completes with `outcome`. */
  function WovenTrace(jp: JoinPoint, outcome: Outcome<int>): seq<string> {
    if !MethodService(jp.signature) then []
    else BeforeLines(jp) + AfterLines(outcome)
  }

  /** A call of the method described by `jp`, with the aspect woven in; `proceed` runs
      the method itself on the join point's arguments. */
  method Woven(out: PrintStream, jp: JoinPoint, proceed: () -> Outcome<int>) returns (r: Outcome<int>)
    modifies out
    ensures r == proceed()
    ensures out.text == old(out.text) + Flatten(WovenTrace(jp, r))
  {
    ghost var start := out.text;
    if MethodService(jp.signature) {
      BeforeExecution(out, jp);
      ghost var afterBefore := out.text;
      r := proceed();
      match r {
        case Returned(v) => AfterSuccess(out, jp, v);
        case Threw(e) => AfterException(out, jp, e);
      }
      assert out.text == afterBefore + Flatten(AfterLines(r));
      PrintedInTurn(start, BeforeLines(jp), AfterLines(r));
      assert WovenTrace(jp, r) == BeforeLines(jp) + AfterLines(r);
    } else {
      r := proceed();
    }
  }

  /** Every line the aspect prints starts with this tag; the character after it tells
      the kinds of line apart. */
  const TAG: string := "<<<ASPECT>>> "

  predicate StartsWith(s: string, prefix: string) {
    |prefix| <= |s| && s[..|prefix|] == prefix
  }

  /** How many of the lines start with `prefix`. */
  function CountStartingWith(lines: seq<string>, prefix: string): nat {
    if lines == [] then 0
    else (if StartsWith(lines[0], prefix) then 1 else 0) + CountStartingWith(lines[1..], prefix)
  }

  lemma {:induction false} CountStartingWithAppend(a: seq<string>, b: seq<string>, prefix: string)
    ensures CountStartingWith(a + b, prefix) == CountStartingWith(a, prefix) + CountStartingWith(b, prefix)
    decreases |a|
  {
    if a != [] {
      assert (a + b)[1..] == a[1..] + b;
      CountStartingWithAppend(a[1..], b, prefix);
    } else {
      assert a + b == b;
    }
  }

  function Indicator(b: bool): nat {
    if b then 1 else 0
  }

  lemma CountOne(x: string, prefix: string)
    ensures CountStartingWith([x], prefix) == Indicator(StartsWith(x, prefix))
  {
    assert [x][1..] == [];
  }

  lemma CountTwo(x: string, y: string, prefix: string)
    ensures CountStartingWith([x, y], prefix) ==
            Indicator(StartsWith(x, prefix)) + Indicator(StartsWith(y, prefix))
  {
    assert [x, y][1..] == [y];
    CountOne(y, prefix);
  }

  /** A line that starts with one kind's prefix does not start with another's. */
  lemma KindsDiffer(head: string, rest: string, prefix: string)
    requires |TAG| < |head| && |TAG| < |prefix| && head[|TAG|] != prefix[|TAG|]
    ensures !StartsWith(head + rest, prefix)
  {
    assert |prefix| <= |head + rest| ==> (head + rest)[..|prefix|][|TAG|] == head[|TAG|];
  }

  /** A line whose prefix is `prefix` starts with it. */
  lemma StartsWithOwnPrefix(prefix: string, rest: string)
    ensures StartsWith(prefix + rest, prefix)
  {
    assert (prefix + rest)[..|prefix|] == prefix;
  }

  /** The marker of each kind of line, the character after the tag. */
  lemma KindMarkers()
    ensures |TAG| == 13
    ensures |BEFORE_PREFIX| > 13 && BEFORE_PREFIX[13] == 'B'
    ensures |ARGS_PREFIX| > 13 && ARGS_PREFIX[13] == 'A'
    ensures |RETURNED_LINE| > 13 && RETURNED_LINE[13] == 'M'
    ensures |RETURN_PREFIX| > 13 && RETURN_PREFIX[13] == 'R'
    ensures |CAUGHT_PREFIX| > 13 && CAUGHT_PREFIX[13] == 'E'
  {
  }

  /** The before lines never look like the lines of either after advice. */
  lemma BeforeLinesAreNotAfterLines(jp: JoinPoint)
    ensures CountStartingWith(BeforeLines(jp), RETURNED_LINE) == 0
    ensures CountStartingWith(BeforeLines(jp), CAUGHT_PREFIX) == 0
  {
    KindMarkers();
    var first := BEFORE_PREFIX + jp.signature.name;
    KindsDiffer(BEFORE_PREFIX, jp.signature.name, RETURNED_LINE);
    KindsDiffer(BEFORE_PREFIX, jp.signature.name, CAUGHT_PREFIX);
    if |jp.args| > 0 {
      var argsLine := Join(ArgTexts(jp.args));
      KindsDiffer(ARGS_PREFIX, argsLine, RETURNED_LINE);
      KindsDiffer(ARGS_PREFIX, argsLine, CAUGHT_PREFIX);
      assert BeforeLines(jp) == [first, ARGS_PREFIX + argsLine];
      CountTwo(first, ARGS_PREFIX + argsLine, RETURNED_LINE);
      CountTwo(first, ARGS_PREFIX + argsLine, CAUGHT_PREFIX);
    } else {
      assert BeforeLines(jp) == [first];
      CountOne(first, RETURNED_LINE);
      CountOne(first, CAUGHT_PREFIX);
    }
  }

  /** The lines of one after advice for an outcome. */
  function AfterLines(outcome: Outcome<int>): seq<string> {
    match outcome
    case Returned(v) => AfterReturningLines(v)
    case Threw(e) => AfterThrowingLines(e)
  }

  /** The after-returning lines hold one "returned" line and no "caught" line; the
      after-throwing line is the other way round. */
  lemma AfterLinesKinds(outcome: Outcome<int>)
    ensures CountStartingWith(AfterLines(outcome), RETURNED_LINE) == (if outcome.Returned? then 1 else 0)
    ensures CountStartingWith(AfterLines(outcome), CAUGHT_PREFIX) == (if outcome.Threw? then 1 else 0)
  {
    KindMarkers();
    match outcome {
      case Returned(v) =>
        var ret := RETURN_PREFIX + IntToString(v);
        StartsWithOwnPrefix(RETURNED_LINE, "");
        assert RETURNED_LINE + "" == RETURNED_LINE;
        KindsDiffer(RETURNED_LINE, "", CAUGHT_PREFIX);
        KindsDiffer(RETURN_PREFIX, IntToString(v), RETURNED_LINE);
        KindsDiffer(RETURN_PREFIX, IntToString(v), CAUGHT_PREFIX);
        CountTwo(RETURNED_LINE, ret, RETURNED_LINE);
        CountTwo(RETURNED_LINE, ret, CAUGHT_PREFIX);
      case Threw(e) =>
        var caught := CAUGHT_PREFIX + e.message;
        StartsWithOwnPrefix(CAUGHT_PREFIX, e.message);
        KindsDiffer(CAUGHT_PREFIX, e.message, RETURNED_LINE);
        CountOne(caught, RETURNED_LINE);
        CountOne(caught, CAUGHT_PREFIX);
    }
  }

  /** An advised call prints the before lines first and then the lines of exactly one
      of the two after advices: the after-returning lines precisely when the method
      returned, the after-throwing line precisely when it threw. An unadvised call
      prints nothing. */
  lemma ExactlyOneAfterAdvice(jp: JoinPoint, outcome: Outcome<int>)
    ensures !MethodService(jp.signature) ==> WovenTrace(jp, outcome) == []
    ensures MethodService(jp.signature) ==>
              var trace := WovenTrace(jp, outcome);
              |BeforeLines(jp)| <= |trace| && trace[..|BeforeLines(jp)|] == BeforeLines(jp) &&
              trace[0] == BEFORE_PREFIX + jp.signature.name &&
              CountStartingWith(trace, RETURNED_LINE) == (if outcome.Returned? then 1 else 0) &&
              CountStartingWith(trace, CAUGHT_PREFIX) == (if outcome.Threw? then 1 else 0)
  {
    if MethodService(jp.signature) {
      var before, after := BeforeLines(jp), AfterLines(outcome);
      assert WovenTrace(jp, outcome) == before + after;
      BeforeLinesAreNotAfterLines(jp);
      AfterLinesKinds(outcome);
      CountStartingWithAppend(before, after, RETURNED_LINE);
      CountStartingWithAppend(before, after, CAUGHT_PREFIX);
      assert (before + after)[..|before|] == before;
    }
  }

  /** An advised call prints exactly one Args line when the method has arguments and
      none when it has none. */
  lemma ArgsLineOnlyWithArguments(jp: JoinPoint, outcome: Outcome<int>)
    requires MethodService(jp.signature)
    ensures CountStartingWith(WovenTrace(jp, outcome), ARGS_PREFIX) == (if |jp.args| > 0 then 1 else 0)
  {
    KindMarkers();
    var before, after := BeforeLines(jp), AfterLines(outcome);
    assert WovenTrace(jp, outcome) == before + after;
    CountStartingWithAppend(before, after, ARGS_PREFIX);
    var first := BEFORE_PREFIX + jp.signature.name;
    KindsDiffer(BEFORE_PREFIX, jp.signature.name, ARGS_PREFIX);
    if |jp.args| > 0 {
      var argsLine := Join(ArgTexts(jp.args));
      StartsWithOwnPrefix(ARGS_PREFIX, argsLine);
      assert before == [first, ARGS_PREFIX + argsLine];
      CountTwo(first, ARGS_PREFIX + argsLine, ARGS_PREFIX);
    } else {
      assert before == [first];
      CountOne(first, ARGS_PREFIX);
    }
    match outcome {
      case Returned(v) =>
        assert RETURNED_LINE + "" == RETURNED_LINE;
        KindsDiffer(RETURNED_LINE, "", ARGS_PREFIX);
        KindsDiffer(RETURN_PREFIX, IntToString(v), ARGS_PREFIX);
        CountTwo(RETURNED_LINE, RETURN_PREFIX + IntToString(v), ARGS_PREFIX);
      case Threw(e) =>
        KindsDiffer(CAUGHT_PREFIX, e.message, ARGS_PREFIX);
        CountOne(CAUGHT_PREFIX + e.message, ARGS_PREFIX);
    }
  }

  /** The three public methods of `CalculatorService`. */
  datatype CalculatorMethod = SumMethod | MultiplyMethod | DivideMethod

  function MethodName(m: CalculatorMethod): string {
    match m
    case SumMethod => "sum"
    case MultiplyMethod => "multiply"
    case DivideMethod => "divide"
  }

  function CalculatorSignature(m: CalculatorMethod): MethodSignature {
    MethodSignature(Public, ["com", "example", "service"], "CalculatorService", "int",
                    MethodName(m), ["int", "int"])
  }

  /** `Main.main`, the demo's entry point. */
  const MAIN_SIGNATURE: MethodSignature :=
    MethodSignature(Public, ["com", "example"], "Main", "void", "main", ["String[]"])

  /** The unwoven call of a calculator method. */
  function Execute(m: CalculatorMethod, a: Int32, b: Int32): Outcome<int> {
    match m
    case SumMethod => Returned(Calculator.Sum(a, b))
    case MultiplyMethod => Returned(Calculator.Multiply(a, b))
    case DivideMethod =>
      match Calculator.Divide(a, b)
      case Returned(q) => Returned(q)
      case Threw(e) => Threw(e)
  }

  /** A call of a calculator method through the woven aspect: the caller receives what
      the unwoven call gives, and the trace shows the call's arguments and outcome. */
  method CalculatorCall(out: PrintStream, m: CalculatorMethod, a: Int32, b: Int32)
    returns (r: Outcome<int>)
    modifies out
    ensures r == Execute(m, a, b)
    ensures out.text == old(out.text) + Flatten(WovenTrace(JoinPoint(CalculatorSignature(m), [a, b]), r))
  {
    r := Woven(out, JoinPoint(CalculatorSignature(m), [a, b]), () => Execute(m, a, b));
  }

  /** The pointcut selects the three calculator methods and nothing outside package
      com.example.service: not `Main.main`, not the aspect's own advice, not a
      sub-package, and not a method that is not public. */
  lemma PointcutSelection(m: CalculatorMethod, s: MethodSignature)
    ensures MethodService(CalculatorSignature(m))
    ensures !MethodService(MAIN_SIGNATURE)
    ensures s.packageName == ["com", "example", "aspect"] ==> !MethodService(s)
    ensures |s.packageName| > 3 ==> !MethodService(s)
    ensures s.visibility != Public ==> !MethodService(s)
    ensures MethodService(s) <==>
              MethodService(s.(returnType := "", name := "", parameterTypes := []))
  {
    assert "CalculatorService"[0] == 'C';
    assert forall i :: 0 <= i < |"CalculatorService"| ==> "CalculatorService"[i] != '.';
  }

  lemma JoinTwo(x: string, y: string)
    ensures Join([x, y]) == x + SEPARATOR + y
  {
    assert [x, y][1..] == [y];
  }

  /** The trace of an advised call with two arguments. */
  lemma TwoArgumentTrace(sig: MethodSignature, a: int, b: int, outcome: Outcome<int>)
    requires MethodService(sig)
    ensures WovenTrace(JoinPoint(sig, [a, b]), outcome) ==
            [BEFORE_PREFIX + sig.name, ARGS_PREFIX + (IntToString(a) + SEPARATOR + IntToString(b))] +
            AfterLines(outcome)
  {
    var texts := ArgTexts([a, b]);
    assert texts == [IntToString(a), IntToString(b)];
    JoinTwo(IntToString(a), IntToString(b));
  }

  /** `divide(2, 0)` in the demo throws the calculator's exception unchanged. */
  lemma DivideByZeroOutcome()
    ensures Execute(DivideMethod, 2, 0) == Threw(IllegalArgumentException(Calculator.DIVIDE_BY_ZERO_MESSAGE))
  {
  }

  /** The trace of `divide(2, 0)`, whose outcome `DivideByZeroOutcome` gives: the
      before lines followed by the after-throwing line with the exception's message. */
  lemma DivideByZeroTrace()
    ensures WovenTrace(JoinPoint(CalculatorSignature(DivideMethod), [2, 0]),
                       Threw(IllegalArgumentException(Calculator.DIVIDE_BY_ZERO_MESSAGE))) ==
            [BEFORE_PREFIX + "divide", ARGS_PREFIX + "2, 0", CAUGHT_PREFIX + Calculator.DIVIDE_BY_ZERO_MESSAGE]
  {
    PointcutSelection(DivideMethod, MAIN_SIGNATURE);
    TwoArgumentTrace(CalculatorSignature(DivideMethod), 2, 0,
                     Threw(IllegalArgumentException(Calculator.DIVIDE_BY_ZERO_MESSAGE)));
    assert IntToString(2) + SEPARATOR + IntToString(0) == "2, 0";
  }

  /** `sum(5, 3)` in the demo: the caller receives 8, and the trace shows the
      arguments and then the returned value. */
  lemma SumTrace()
    ensures Execute(SumMethod, 5, 3) == Returned(8)
    ensures WovenTrace(JoinPoint(CalculatorSignature(SumMethod), [5, 3]), Returned(8)) ==
            [BEFORE_PREFIX + "sum", ARGS_PREFIX + "5, 3", RETURNED_LINE, RETURN_PREFIX + "8"]
  {
    Calculator.DemoVectors();
    PointcutSelection(SumMethod, MAIN_SIGNATURE);
    TwoArgumentTrace(CalculatorSignature(SumMethod), 5, 3, Returned(8));
    assert IntToString(5) + SEPARATOR + IntToString(3) == "5, 3";
    assert IntToString(8) == "8";
  }

  /** `multiply(4, 7)` in the demo: the caller receives 28, and the trace shows the
      arguments and then the returned value. */
  lemma MultiplyTrace()
    ensures Execute(MultiplyMethod, 4, 7) == Returned(28)
    ensures WovenTrace(JoinPoint(CalculatorSignature(MultiplyMethod), [4, 7]), Returned(28)) ==
            [BEFORE_PREFIX + "multiply", ARGS_PREFIX + "4, 7", RETURNED_LINE, RETURN_PREFIX + "28"]
  {
    Calculator.DemoVectors();
    PointcutSelection(MultiplyMethod, MAIN_SIGNATURE);
    TwoArgumentTrace(CalculatorSignature(MultiplyMethod), 4, 7, Returned(28));
    assert IntToString(4) + SEPARATOR + IntToString(7) == "4, 7";
    assert IntToString(28) == "28";
  }

  /** `divide(4, 2)` in the demo: the caller receives 2, and the trace shows the
      arguments and then the returned value. */
  lemma DivideTrace()
    ensures Execute(DivideMethod, 4, 2) == Returned(2)
    ensures WovenTrace(JoinPoint(CalculatorSignature(DivideMethod), [4, 2]), Returned(2)) ==
            [BEFORE_PREFIX + "divide", ARGS_PREFIX + "4, 2", RETURNED_LINE, RETURN_PREFIX + "2"]
  {
    Calculator.DemoVectors();
    PointcutSelection(DivideMethod, MAIN_SIGNATURE);
    TwoArgumentTrace(CalculatorSignature(DivideMethod), 4, 2, Returned(2));
    assert IntToString(4) + SEPARATOR + IntToString(2) == "4, 2";
    assert IntToString(2) == "2";
  }
}
