/** `com.example.aspect.LoggingAspect`: one fixed pointcut, `methodService`, and three
    pieces of advice that write trace lines to `System.out` before a matched method
    runs and after it returns or throws. */
module LoggingAspect {
  import opened JavaLang
  import opened Decimal
  import opened Console

  datatype Visibility = Public | Protected | Private | PackagePrivate

  /** The static shape of a method, as far as the pointcut can see it. The declaring
      type is split into its package segments and its simple name. */
  datatype MethodSignature = MethodSignature(
    visibility: Visibility,
    packageName: seq<string>,
    typeName: string,
    returnType: string,
    name: string,
    parameterTypes: seq<string>)

  /** One intercepted call: the executing method and its argument values. */
  datatype JoinPoint = JoinPoint(signature: MethodSignature, args: seq<int>)

  const SERVICE_PACKAGE: seq<string> := ["com", "example", "service"]

  /** A type name as the wildcard `*` matches it: any non-empty name without a dot,
      so exactly one segment and never a sub-package. */
  predicate IsSimpleName(t: string) {
    |t| > 0 && '.' !in t
  }

  /** `execution(public * com.example.service.*.*(..))`: a public method, of any
      return type, name and parameter list, declared by a type that sits directly in
      package com.example.service. */
  predicate MethodService(m: MethodSignature) {
    m.visibility == Public && m.packageName == SERVICE_PACKAGE && IsSimpleName(m.typeName)
  }

  const BEFORE_PREFIX: string := "<<<ASPECT>>> Before execution: "
  const ARGS_PREFIX: string := "<<<ASPECT>>> Args: "
  const SEPARATOR: string := ", "
  const RETURNED_LINE: string := "<<<ASPECT>>> Method returned succesfully."
  const RETURN_PREFIX: string := "<<<ASPECT>>> Return: "
  const CAUGHT_PREFIX: string := "<<<ASPECT>>> Exception caught: "

  /** The printed text of each argument, in order. */
  function ArgTexts(args: seq<int>): seq<string> {
    seq(|args|, i requires 0 <= i < |args| => IntToString(args[i]))
  }

  /** The texts in their original order, separated by ", ". */
  function Join(texts: seq<string>): string {
    if |texts| == 0 then ""
    else if |texts| == 1 then texts[0]
    else texts[0] + SEPARATOR + Join(texts[1..])
  }

  /** What the argument loop of `beforeExecution` has printed after its first `i`
      rounds: each round prints one argument and, unless it was the last, a separator. */
  function Printed(texts: seq<string>, i: nat): string
    requires i <= |texts|
  {
    if i == 0 then ""
    else Printed(texts, i - 1) + texts[i - 1] + (if i < |texts| then SEPARATOR else "")
  }

  /** Appending a text appends a separator and that text. */
  lemma {:induction false} JoinSnoc(texts: seq<string>, t: string)
    requires |texts| > 0
    ensures Join(texts + [t]) == Join(texts) + SEPARATOR + t
    decreases |texts|
  {
    if |texts| > 1 {
      assert (texts + [t])[1..] == texts[1..] + [t];
      JoinSnoc(texts[1..], t);
    }
  }

  /** After `i` rounds the loop has printed the join of the first `i` texts, followed
      by a separator when more remain. */
  lemma {:induction false} PrintedIsJoinPrefix(texts: seq<string>, i: nat)
    requires 0 < i <= |texts|
    ensures Printed(texts, i) == Join(texts[..i]) + (if i < |texts| then SEPARATOR else "")
  {
    if i > 1 {
      PrintedIsJoinPrefix(texts, i - 1);
      JoinSnoc(texts[..i - 1], texts[i - 1]);
      assert texts[..i - 1] + [texts[i - 1]] == texts[..i];
    } else {
      assert texts[..1] == [texts[0]];
    }
  }

  /** When the loop finishes it has printed exactly the joined texts. */
  lemma PrintedComplete(texts: seq<string>)
    ensures Printed(texts, |texts|) == Join(texts)
  {
    if |texts| > 0 {
      PrintedIsJoinPrefix(texts, |texts|);
      assert texts[..|texts|] == texts;
    }
  }

  /** One round of the loop extends what it has printed by one text and, unless it was
      the last, a separator. */
  lemma PrintedStep(start: string, texts: seq<string>, i: nat)
    requires i < |texts|
    ensures i < |texts| - 1 ==>
      start + Printed(texts, i) + texts[i] + SEPARATOR == start + Printed(texts, i + 1)
    ensures i == |texts| - 1 ==>
      start + Printed(texts, i) + texts[i] == start + Printed(texts, i + 1)
  {
    var p := Printed(texts, i);
    if i < |texts| - 1 {
      assert start + p + texts[i] + SEPARATOR == start + (p + texts[i] + SEPARATOR);
    } else {
      assert p + texts[i] + "" == p + texts[i];
    }
  }

  /** No text contains a comma. */
  predicate CommaFree(texts: seq<string>) {
    forall i :: 0 <= i < |texts| ==> ',' !in texts[i]
  }

  /** Index of the first comma in `s`, or |s| when there is none. */
  function FirstComma(s: string): (k: nat)
    ensures k <= |s|
    ensures k < |s| ==> s[k] == ','
    ensures forall j :: 0 <= j < k ==> s[j] != ','
  {
    if s == [] then 0 else if s[0] == ',' then 0 else 1 + FirstComma(s[1..])
  }

  /** Cuts a line at every ", " into the pieces it was joined from. */
  function SplitArgs(s: string): seq<string>
    decreases |s|
  {
    var k := FirstComma(s);
    if k == |s| then [s] else [s[..k]] + SplitArgs(s[if k + 2 <= |s| then k + 2 else |s|..])
  }

  lemma FirstCommaAfter(t: string, u: string)
    requires ',' !in t && |u| > 0 && u[0] == ','
    ensures FirstComma(t + u) == |t|
  {
    assert (t + u)[|t|] == ',';
  }

  lemma SplitSingle(t: string)
    requires ',' !in t
    ensures SplitArgs(t) == [t]
  {
  }

  lemma SplitCons(t: string, rest: string)
    requires ',' !in t
    ensures SplitArgs(t + SEPARATOR + rest) == [t] + SplitArgs(rest)
  {
    var s := t + SEPARATOR + rest;
    assert s == t + (SEPARATOR + rest);
    FirstCommaAfter(t, SEPARATOR + rest);
    assert s[..|t|] == t;
    assert s[|t| + 2..] == rest;
  }

  /** Splitting the joined texts at the separators gives the texts back, in order. */
  lemma {:induction false} SplitJoin(texts: seq<string>)
    requires |texts| > 0 && CommaFree(texts)
    ensures SplitArgs(Join(texts)) == texts
    decreases |texts|
  {
    if |texts| == 1 {
      SplitSingle(texts[0]);
    } else {
      assert ',' !in texts[0];
      SplitCons(texts[0], Join(texts[1..]));
      SplitJoin(texts[1..]);
    }
  }

  function CountChar(s: string, c: char): nat {
    if s == [] then 0 else (if s[0] == c then 1 else 0) + CountChar(s[1..], c)
  }

  lemma {:induction false} CountCharAppend(s: string, t: string, c: char)
    ensures CountChar(s + t, c) == CountChar(s, c) + CountChar(t, c)
    decreases |s|
  {
    if s != [] {
      assert (s + t)[1..] == s[1..] + t;
      CountCharAppend(s[1..], t, c);
    } else {
      assert s + t == t;
    }
  }

  lemma {:induction false} CountCharAbsent(s: string, c: char)
    requires c !in s
    ensures CountChar(s, c) == 0
    decreases |s|
  {
    if s != [] {
      CountCharAbsent(s[1..], c);
    }
  }

  /** n comma-free texts are joined by exactly n - 1 separators. */
  lemma {:induction false} JoinSeparatorCount(texts: seq<string>)
    requires |texts| > 0 && CommaFree(texts)
    ensures CountChar(Join(texts), ',') == |texts| - 1
    decreases |texts|
  {
    var t := texts[0];
    assert ',' !in t;
    CountCharAbsent(t, ',');
    if |texts| > 1 {
      JoinSeparatorCount(texts[1..]);
      var rest := Join(texts[1..]);
      assert Join(texts) == t + (SEPARATOR + rest);
      CountCharAppend(t, SEPARATOR + rest, ',');
      CountCharAppend(SEPARATOR, rest, ',');
      assert CountChar(SEPARATOR, ',') == 1 by {
        assert SEPARATOR[1..] == " ";
        assert " "[1..] == "";
      }
    }
  }

  /** The joined texts end with the last text, never with a separator. */
  lemma JoinEndsWithLast(texts: seq<string>)
    requires |texts| > 0
    ensures var s, last := Join(texts), texts[|texts| - 1];
            |last| <= |s| && s[|s| - |last|..] == last
  {
    var n := |texts|;
    if n > 1 {
      JoinSnoc(texts[..n - 1], texts[n - 1]);
      assert texts[..n - 1] + [texts[n - 1]] == texts;
    }
  }

  /** The Args text of a call with arguments ends with a digit of the last argument,
      never with a separator. */
  lemma ArgsTextEndsWithDigit(args: seq<int>)
    requires |args| > 0
    ensures var s := Join(ArgTexts(args)); |s| > 0 && IsDigit(s[|s| - 1])
  {
    var texts := ArgTexts(args);
    JoinEndsWithLast(texts);
    var s, last := Join(texts), texts[|texts| - 1];
    IntToStringChars(args[|args| - 1]);
    assert s[|s| - |last|..][|last| - 1] == s[|s| - 1];
  }

  /** The text of an `int` holds no comma, so it cannot be mistaken for a separator. */
  lemma ArgTextsCommaFree(args: seq<int>)
    ensures CommaFree(ArgTexts(args))
  {
    forall i | 0 <= i < |args|
      ensures ',' !in ArgTexts(args)[i]
    {
      IntToStringChars(args[i]);
    }
  }

  /** The Args text of a call loses nothing: cutting it at the separators and parsing
      each piece gives back the arguments, in their original order. */
  lemma ArgsTextRoundTrip(args: seq<int>)
    requires |args| > 0
    ensures var pieces := SplitArgs(Join(ArgTexts(args)));
            |pieces| == |args| &&
            forall i :: 0 <= i < |args| ==> IsIntLiteral(pieces[i]) && ParseInt(pieces[i]) == args[i]
  {
    ArgTextsCommaFree(args);
    SplitJoin(ArgTexts(args));
    forall i | 0 <= i < |args|
      ensures IsIntLiteral(IntToString(args[i])) && ParseInt(IntToString(args[i])) == args[i]
    {
      IntToStringRoundTrip(args[i]);
    }
  }

  /** The lines `beforeExecution` prints: the method name, then the Args line when
      there is at least one argument. */
  function BeforeLines(jp: JoinPoint): seq<string> {
    [BEFORE_PREFIX + jp.signature.name] +
    (if |jp.args| > 0 then [ARGS_PREFIX + Join(ArgTexts(jp.args))] else [])
  }

  /** The lines `afterSuccess` prints for a returned value. */
  function AfterReturningLines(result: int): seq<string> {
    [RETURNED_LINE, RETURN_PREFIX + IntToString(result)]
  }

  /** The line `afterException` prints for a thrown exception. */
  function AfterThrowingLines(e: Exception): seq<string> {
    [CAUGHT_PREFIX + e.message]
  }

  /** The loop of `beforeExecution` that prints each argument followed, unless it is
      the last, by a separator. */
  method PrintArgs(out: PrintStream, args: seq<int>)
    modifies out
    ensures out.text == old(out.text) + Join(ArgTexts(args))
  {
    ghost var texts := ArgTexts(args);
    var i := 0;
    while i < |args|
      invariant 0 <= i <= |args|
      invariant out.text == old(out.text) + Printed(texts, i)
    {
      out.Print(IntToString(args[i]));
      if i < |args| - 1 {
        out.Print(SEPARATOR);
      }
      PrintedStep(old(out.text), texts, i);
      i := i + 1;
    }
    PrintedComplete(texts);
  }

  /** `@Before` advice. */
  method BeforeExecution(out: PrintStream, jp: JoinPoint)
    modifies out
    ensures out.text == old(out.text) + Flatten(BeforeLines(jp))
  {
    var first := BEFORE_PREFIX + jp.signature.name;
    out.Println(first);
    var args := jp.args;
    if |args| > 0 {
      out.Print(ARGS_PREFIX);
      PrintArgs(out, args);
      out.Println("");
      AppendTwoLines(old(out.text), first, ARGS_PREFIX, Join(ArgTexts(args)));
      assert BeforeLines(jp) == [first, ARGS_PREFIX + Join(ArgTexts(args))];
    } else {
      assert BeforeLines(jp) == [first];
    }
  }

  /** `@AfterReturning` advice; `result` is the value the method returned. */
  method AfterSuccess(out: PrintStream, jp: JoinPoint, result: int)
    modifies out
    ensures out.text == old(out.text) + Flatten(AfterReturningLines(result))
  {
    var valueLine := RETURN_PREFIX + IntToString(result);
    out.Println(RETURNED_LINE);
    out.Println(valueLine);
    TwoPrintlns(old(out.text), RETURNED_LINE, valueLine);
  }

  /** `@AfterThrowing` advice; `exception` is what the method threw. */
  method AfterException(out: PrintStream, jp: JoinPoint, exception: Exception)
    modifies out
    ensures out.text == old(out.text) + Flatten(AfterThrowingLines(exception))
  {
    out.Println(CAUGHT_PREFIX + exception.message);
  }
}
