# Logging aspect around a calculator service

This is a model of a small AspectJ demonstration. `CalculatorService` in package
`com.example.service` offers `sum`, `multiply` and `divide` on Java `int`s. `divide`
throws `IllegalArgumentException("Can't divide by 0")` when the divisor is zero.
`LoggingAspect` declares one pointcut, `methodService`, which matches every public
method of every type directly in `com.example.service`. It attaches three pieces of
advice to it:

- `beforeExecution` prints the method name, then an `Args:` line when the method has
  arguments. A loop prints each argument and, unless it is the last, a `", "`.
- `afterSuccess` prints a "returned" line and the returned value.
- `afterException` prints the exception's message.

The model is split into six modules:

- `JavaLang` (`java_lang.dfy`): the 32-bit `int` type, two's-complement wrap-around
  (`Wrap`), and division truncated toward zero (`TruncDiv`, section 15.17.2 of the Java
  Language Specification). It also defines the one exception and the `Outcome` of a
  call: a value that was returned or an exception that was thrown.
- `Decimal` (`decimal.dfy`): the decimal text of an `int` (`Integer.toString`),
  together with a parser that recovers the value from its text (a left inverse: the
  parser also accepts texts such as "07" that no value prints as).
- `Console` (`console.dfy`): `System.out` as a `PrintStream` class whose `text` field
  `print` and `println` append to. A sequence of lines is turned into that text by
  `Flatten`.
- `Calculator` (`calculator.dfy`): the three service operations as pure functions.
- `LoggingAspect` (`logging_aspect.dfy`): the pointcut as a predicate on a method's
  signature, and the three advice methods with the argument loop. Each advice method is
  proved to append exactly the lines a line-level function describes (`BeforeLines`,
  `AfterReturningLines`, `AfterThrowingLines`).
- `Weaving` (`weaving.dfy`): the woven call. `Woven` runs the before advice, then the
  method, then exactly one after advice. It hands the method's own outcome back to the
  caller. The module also holds the calculator's methods as join points and the
  traces of the four calculator calls of the demo program.

The code has one fixed aspect with one fixed pointcut. The model has no registry,
priorities or pattern parser.

## Model

| member | source | states |
|---|---|---|
| JavaLang.Wrap | src/main/java/com/example/service/CalculatorService.java:5 | the reduced value is a Java `int` congruent to the exact result modulo 2^32, and equal to it when it is in range |
| JavaLang.WrapUnique | src/main/java/com/example/service/CalculatorService.java:5 | any `int` congruent to the exact result modulo 2^32 is the reduced value, so the reduction is unique |
| JavaLang.TruncDiv | src/main/java/com/example/service/CalculatorService.java:16 | the quotient leaves a remainder smaller than the divisor in magnitude that is zero or has the dividend's sign; it is no larger than the dividend in magnitude |
| JavaLang.TruncDivUnique | src/main/java/com/example/service/CalculatorService.java:16 | the truncated quotient is the only integer with that remainder property |
| Calculator.Sum | src/main/java/com/example/service/CalculatorService.java:4-6 | `a + b` when it fits in an `int`; `a + b - 2^32` above the range and `a + b + 2^32` below it |
| Calculator.Multiply | src/main/java/com/example/service/CalculatorService.java:8-10 | the result is congruent to `a * b` modulo 2^32, and equal to it when it fits |
| Calculator.MultiplyIsLow32Bits | src/main/java/com/example/service/CalculatorService.java:9 | the product is the only `int` congruent to `a * b` modulo 2^32 |
| Calculator.Divide | src/main/java/com/example/service/CalculatorService.java:12-16 | throws exactly when the divisor is zero, with an `IllegalArgumentException` carrying "Can't divide by 0"; otherwise returns the quotient truncated toward zero; INT_MIN / -1 returns INT_MIN |
| Calculator.QuotientInRange | src/main/java/com/example/service/CalculatorService.java:16 | the truncated quotient of two `int`s fits in an `int` if and only if the division is not INT_MIN / -1, so the cast changes nothing elsewhere |
| Calculator.ResultsInRange | src/main/java/com/example/service/CalculatorService.java:4-16 | every result of `sum` and `multiply` is an `int`; with a non-zero divisor `divide` returns, and returns an `int` |
| Calculator.SumCommutes | src/main/java/com/example/service/CalculatorService.java:4-6 | `sum(a, b) == sum(b, a)`, wrap-around included |
| Calculator.MultiplyCommutes | src/main/java/com/example/service/CalculatorService.java:8-10 | `multiply(a, b) == multiply(b, a)`, wrap-around included |
| Calculator.DemoVectors | src/main/java/com/example/Main.java:12-22 | sum(5, 3) = 8, multiply(4, 7) = 28, divide(4, 2) = 2, and divide(2, 0) throws the zero-divisor exception |
| Calculator.OverflowVectors | src/main/java/com/example/service/CalculatorService.java:4-16 | INT_MAX + 1 wraps to INT_MIN and INT_MIN - 1 to INT_MAX; 2^16 * 2^16 wraps to 0; INT_MIN / -1 is INT_MIN; -7 / 2 and 7 / -2 are -3 |
| Decimal.IntToStringChars | src/main/java/com/example/aspect/LoggingAspect.java:24 | the printed text of an `int` is digits, led by a minus sign exactly when the value is negative, and ends with a digit |
| Decimal.IntToStringRoundTrip | src/main/java/com/example/aspect/LoggingAspect.java:24 | the printed text of an `int` is a well-formed literal that parses back to the same value |
| Decimal.IntToStringInjective | src/main/java/com/example/aspect/LoggingAspect.java:24 | distinct values print differently |
| Console.FlattenAppend | src/main/java/com/example/aspect/LoggingAspect.java:16 | printing two blocks of lines one after the other writes the text of the concatenated block |
| Console.PrintStream.Print | src/main/java/com/example/aspect/LoggingAspect.java:21 | `print` appends exactly its argument to the stream |
| Console.PrintStream.Println | src/main/java/com/example/aspect/LoggingAspect.java:16 | `println` appends its argument and one line terminator |
| Weaving.PointcutSelection | src/main/java/com/example/aspect/LoggingAspect.java:10 | the pointcut matches `sum`, `multiply` and `divide`; it does not match `Main.main`, the aspect's own package, a sub-package or a non-public method; return type, name and parameter list never affect it |
| LoggingAspect.PrintArgs | src/main/java/com/example/aspect/LoggingAspect.java:23-29 | the argument loop appends exactly the argument texts joined by ", " |
| LoggingAspect.PrintedIsJoinPrefix | src/main/java/com/example/aspect/LoggingAspect.java:23-29 | after `i` rounds the loop has printed the first `i` texts joined by ", ", followed by one separator when more remain |
| LoggingAspect.PrintedComplete | src/main/java/com/example/aspect/LoggingAspect.java:23-29 | after the last round the loop has printed the whole join and nothing more |
| LoggingAspect.JoinSeparatorCount | src/main/java/com/example/aspect/LoggingAspect.java:26-28 | n comma-free texts are joined with exactly n - 1 separators |
| LoggingAspect.JoinEndsWithLast | src/main/java/com/example/aspect/LoggingAspect.java:26-28 | the joined text ends with the last text, since no separator follows the last round |
| LoggingAspect.ArgsTextEndsWithDigit | src/main/java/com/example/aspect/LoggingAspect.java:23-29 | the Args text of a call with arguments ends with a digit of the last argument, so never with a separator |
| LoggingAspect.SplitJoin | src/main/java/com/example/aspect/LoggingAspect.java:23-29 | cutting the joined text at each ", " gives back the comma-free texts in order |
| LoggingAspect.ArgTextsCommaFree | src/main/java/com/example/aspect/LoggingAspect.java:24 | no argument's text contains a comma |
| LoggingAspect.ArgsTextRoundTrip | src/main/java/com/example/aspect/LoggingAspect.java:21-31 | the Args text loses nothing: its pieces are as many as the arguments and parse back to them in their original order |
| LoggingAspect.BeforeExecution | src/main/java/com/example/aspect/LoggingAspect.java:15-33 | the before advice appends the line naming the method, then the Args line only when there are arguments |
| LoggingAspect.AfterSuccess | src/main/java/com/example/aspect/LoggingAspect.java:38-41 | the after-returning advice appends the "returned" line and then the line with the returned value |
| LoggingAspect.AfterException | src/main/java/com/example/aspect/LoggingAspect.java:45-47 | the after-throwing advice appends one line with the exception's message |
| Weaving.Woven | src/main/java/com/example/aspect/LoggingAspect.java:10-47 | the caller receives exactly the method's outcome; an advised call appends the before lines and then the lines of the after advice matching the outcome; an unadvised call appends nothing |
| Weaving.ExactlyOneAfterAdvice | src/main/java/com/example/aspect/LoggingAspect.java:14-47 | an advised trace starts with the before lines, and its first line names the method; it holds one "returned" line and no "caught" line after a return, the reverse after a throw; an unadvised call has no trace |
| Weaving.BeforeLinesAreNotAfterLines | src/main/java/com/example/aspect/LoggingAspect.java:16-31 | no before line can be taken for a "returned" or a "caught" line |
| Weaving.AfterLinesKinds | src/main/java/com/example/aspect/LoggingAspect.java:39-46 | after a return there is one "returned" line and no "caught" line; after a throw, one "caught" line and no "returned" line |
| Weaving.ArgsLineOnlyWithArguments | src/main/java/com/example/aspect/LoggingAspect.java:20-32 | an advised call prints exactly one Args line when the method has arguments and none otherwise |
| Weaving.CalculatorCall | src/main/java/com/example/service/CalculatorService.java:3-17 | a woven calculator call gives the caller what the unwoven call gives, and appends that call's trace |
| Weaving.TwoArgumentTrace | src/main/java/com/example/aspect/LoggingAspect.java:15-31 | the trace of an advised two-argument call: the method name, then both argument texts separated by ", ", then the after lines |
| Weaving.DivideByZeroOutcome | src/main/java/com/example/Main.java:22 | `divide(2, 0)` throws the zero-divisor exception to its caller, unchanged by the aspect |
| Weaving.DivideByZeroTrace | src/main/java/com/example/Main.java:21-24 | the trace of `divide(2, 0)` is "Before execution: divide", "Args: 2, 0", "Exception caught: Can't divide by 0" |
| Weaving.SumTrace | src/main/java/com/example/Main.java:12-13 | `sum(5, 3)` returns 8, and its trace is "Before execution: sum", "Args: 5, 3", the "returned" line, "Return: 8" |
| Weaving.MultiplyTrace | src/main/java/com/example/Main.java:15-16 | `multiply(4, 7)` returns 28, and its trace is "Before execution: multiply", "Args: 4, 7", the "returned" line, "Return: 28" |
| Weaving.DivideTrace | src/main/java/com/example/Main.java:18-19 | `divide(4, 2)` returns 2, and its trace is "Before execution: divide", "Args: 4, 2", the "returned" line, "Return: 2" |

## Left out

- The AspectJ weaving machinery is not modelled: bytecode instrumentation, annotation processing, and `org.aspectj.lang.JoinPoint` and `Signature`. The woven call is an explicit wrapper, `Weaving.Woven`. The method it wraps is a function value `proceed`.
- The pointcut is one fixed predicate, not the AspectJ pattern language. A type nested inside another type is not represented in `MethodSignature`.
- Arguments and results are `int`s. `Object.toString` of arbitrary objects is reduced to `Integer.toString`. Primitive arguments are boxed and printed the same way.
- The Java exception hierarchy is reduced to one variant, `IllegalArgumentException`, carrying a message. `Main` catches `Exception`, and that catch is represented only by the outcome being handed back unchanged.
- `System.out` is a stream of characters with no flushing and no encoding. The line terminator is taken as "\n".
- `Main.main` is not modelled as a program. It prints a banner and one result line per call, and those lines are not modelled. Its calls appear only as the demo vectors and demo traces.
- Advice that itself throws is not modelled. No advice in this code can throw: printing to `System.out` does not throw.
- Concurrency is not modelled; the code has none.

The argument loop of `beforeExecution` is the method `LoggingAspect.PrintArgs`. `LoggingAspect.BeforeExecution` calls it between printing the Args prefix and ending the line. The loop's body is the same as the source's.
